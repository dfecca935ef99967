# Court display board: sequence parser, board normalizer and proximity alerts

This project models the core of a small web service that polls a court's cause-list
display feed. It also models the browser page that warns a user when a watched matter
is about to be called.

- **Server (`server.js`).** The server normalizes each upstream snapshot into a
  *board*. Raw court numbers 21 and 22 become the registrar courts `RC1` and `RC2`.
  Each court's name loses its markup. The item in progress is read with `parseInt`.
  The operator's free-text court message ("SEQUENCE 5 TO 9, 12 ONWARDS ...") is
  parsed into a de-duplicated list of item numbers. Finally, a one-line ticker is
  built over the courts in `Object.keys` order.
- **Page (`public/app.js`).** The page reads the watch list ("C1/23, RC1/7") and the
  alert threshold. For every watched matter it computes the pre-alert window, the
  status shown on its tile, and at most one notification per court and item in
  progress. The set of already-notified keys is kept until the user saves a new list.

The modules follow that structure:

- `wrappers.dfy` holds `Option` and the filter of present values.
- `strings.dfy` holds the JavaScript string primitives the code relies on: `\s` and
  `trim`, `toUpperCase`, `split`, `join`, `String(n)`, `parseInt(s, 10)` and
  `Number(s)`.
- `seqs.dfy` holds `indexOf`, the `seen`-set de-duplication and runs of integers.
- `sequence_parser.dfy` holds `parseSequence`.
- `board_normalizer.dfy` holds `cleanCourtName`, `parseCurrentItem`, `normalize`,
  `Object.keys` ordering and `buildTicker`.
- `matters.dfy` holds `parseMatters` and the threshold field.
- `proximity_engine.dfy` holds `preAlertWindow`, the status logic of `renderAlerts`,
  and the notified-key set as the class `AlertEngine`.

**What is imperative.** Loops are methods with loop invariants, each proved equal to
a pure function that defines its result. These are the token scan, the `ONWARDS` and `TO` pushes,
the `seen` filter, the row loop of `normalize`, the ticker loop, the counting
fallback of `preAlertWindow` and the matter loop of `renderAlerts`. The properties are
then proved about those functions.

**Behaviour worth noting.**

- Noise words are removed as substrings, not as whole words. `AND` is removed even
  inside `BRAND`, so `BRAND 5` leaves `BR` (`SequenceParser.AndInsideWordExample`).
- A watched court other than `RC1` or `RC2` goes through `parseInt` and `String`.
  Text such as `RC3` or `X` therefore becomes the key `"NaN"`, which never matches a
  court, rather than being kept upper-cased.
- The court name is also trimmed after its tags are removed.
- Outside the window, a distance of 0 is shown as "Now" even when the item in
  progress is already past the target (`ProximityEngine.AheadDistance`).

## Model

| member | source | states |
|---|---|---|
| Wrappers.Somes | public/app.js:103-110 | the values kept by a filter are values of the input, and no more of them |
| Wrappers.SomesAll | public/app.js:103-110 | when every entry is present, the filter drops nothing |
| Wrappers.SomesAppend | public/app.js:103-110 | filtering a concatenation filters each part in order |
| Wrappers.SomesOne | public/app.js:103-110 | one entry is kept exactly when it is present |
| Strings.Trim | public/app.js:102 | the result has no white space at either end, is no longer than the input, and is the input itself when that is already trimmed |
| Strings.TrimSpan | public/app.js:102 | the result is the stretch of the input left once the white space at both ends is cut off |
| Strings.Upper | public/app.js:106 | same length; every character is upper-cased position by position (ASCII letters only) |
| Strings.IntToString | public/app.js:108 | `String(i)` is non-empty, starts with '-' exactly for a negative `i`, and is digits otherwise |
| Strings.NatToString | public/app.js:108 | `String(n)` is a canonical digit string (no leading zero except "0") whose decimal value is `n` |
| Strings.NatToStringOfDigits | public/app.js:108 | a canonical digit string is the decimal form of its own value: formatting inverts reading |
| Strings.ParseIntDefined | server.js:41 | `parseInt` gives a number exactly when the text, past its leading white space, opens with an optionally signed digit; a negative result comes from a leading '-' |
| Strings.ParseIntRoundTrip | public/app.js:108 | `parseInt(String(i), 10) == i` for every integer |
| Strings.ParseIntLeading | server.js:41 | `parseInt` reads the integer at the front and ignores any tail that does not start with a digit |
| Strings.ToNumber | public/app.js:107-110 | `Number` of blank text is 0; otherwise it is a number exactly for optionally signed digits, negative only with a '-' |
| Strings.ToNumberRoundTrip | public/app.js:107-108 | `Number(String(i)) == i` for every integer |
| Strings.Split | public/app.js:101 | a split gives at least one piece, and no piece holds a separator |
| Strings.SplitJoin | public/app.js:101 | joining the pieces of a one-character split with that character gives the text back |
| Strings.SplitAppend | public/app.js:101 | a separator between two texts splits them apart: the pieces of the first, then those of the second |
| Strings.JoinSplit | server.js:127 | splitting a join of separator-free pieces gives the pieces back |
| Strings.JoinStartsWithFirst | server.js:127 | a join starts with its first piece |
| Strings.JoinEndsWithLast | server.js:127 | a join ends with its last piece |
| Seqs.IndexOf | public/app.js:114 | the result is the first position of the element, and -1 exactly when it is absent |
| Seqs.Dedup | server.js:80-81 | the `seen` filter: no duplicates, and exactly the input's elements |
| Seqs.DedupFirstSeenOrder | server.js:80-81 | kept elements are ordered by their first occurrence in the input |
| Seqs.DedupKeeps | server.js:80-81 | a list without duplicates passes the filter unchanged |
| Seqs.UpMembers | public/app.js:122 | the counting run from `lo` to `hi` holds exactly the integers in between |
| Seqs.DownMembers | server.js:73-74 | the descending run holds exactly the integers between its ends |
| SequenceParser.FromLineEnd | server.js:49 | what `[^\n]*` leaves: a suffix of the input, empty or starting at a line break, with no line break cut away before it |
| SequenceParser.FromLineEndSkip | server.js:49 | `[^\n]*` runs through text without a line break and stops at the first one, or at the end |
| SequenceParser.StripSitting | server.js:49 | removing `COURT WILL SIT AT` lines never lengthens the text; StripSittingPhrase gives what a match becomes |
| SequenceParser.StripSittingPhrase | server.js:49 | `COURT WILL SIT AT` and the rest of its line, up to the line break, become one space, and the text from the line break on is processed in turn |
| SequenceParser.StripSittingKeeps | server.js:49 | text without `COURT WILL SIT AT` is left as it is |
| SequenceParser.NoiseMatch | server.js:50 | the length of the noise word matched at the front is 0 or at least 3, and never past the end |
| SequenceParser.NoiseMatchLongest | server.js:50 | what the alternation matches is a noise word, and no noise word at the front is longer than the match |
| SequenceParser.NoiseMatchNone | server.js:50 | nothing matches at a character no noise word starts with, nor at a `T` not followed by `H` |
| SequenceParser.StripNoise | server.js:50 | removing noise words never lengthens the text; StripNoiseAfterPlain and ThenBetweenNumbers give what a match becomes |
| SequenceParser.StripNoiseKeeps | server.js:50 | text in which no noise word starts is left as it is |
| SequenceParser.NoAndSurvives | server.js:50 | no `AND` is left after the noise removal, not even inside a word |
| SequenceParser.AndInsideWordExample | server.js:50 | `BRAND` becomes `BR ` |
| SequenceParser.StripNoiseHead | server.js:50 | a character copied to the front of the result is one at which no noise word starts, and the rest of the result is the stripping of the rest |
| SequenceParser.StripNoiseCopiesPrefix | server.js:50 | a stretch at whose positions no noise word starts is copied unchanged |
| SequenceParser.StripNoiseAfterPlain | server.js:50 | the first noise word, after text in which none starts, becomes one space, and the text before it is kept |
| SequenceParser.ThenBetweenNumbers | server.js:50 | `THEN` between two numbers, as in `5 THEN 6`, becomes a space and the numbers are kept |
| SequenceParser.BlankPunct | server.js:51 | same length; each punctuation character becomes a space, every other character is kept |
| SequenceParser.CollapseSpaces | server.js:52 | no longer than the input and empty exactly when it is; it opens with one plain space when the input opens with white space, and with the input's first character otherwise |
| SequenceParser.CollapseWord | server.js:52 | text without white space is kept in front of what follows |
| SequenceParser.CollapseRun | server.js:52 | a run of white space becomes one plain space |
| SequenceParser.CollapseKeeps | server.js:52 | text whose white space is already single plain spaces is left as it is |
| SequenceParser.CollapseShape | server.js:52 | after collapsing, white space is a plain space, never doubled, and no punctuation is left |
| SequenceParser.Clean | server.js:47-53 | the cleaned message is words separated by single spaces, with no punctuation and nothing at either end, and no longer than the message |
| SequenceParser.CleanFixed | server.js:47-53 | an upper-case message that is already clean is its own cleaned form |
| SequenceParser.RangeClean | server.js:47-53 | `a TO b` with all-digit `a` and `b` is already clean |
| SequenceParser.Tokenize | server.js:56 | there is always at least one token |
| SequenceParser.TokenizeJoin | server.js:56 | joining the tokens with single spaces gives the cleaned text back |
| SequenceParser.SplitTidy | server.js:56 | splitting clean text on spaces gives non-empty tokens without white space or punctuation |
| SequenceParser.TokensAreWords | server.js:47-56 | every token of a non-empty cleaned message is such a word |
| SequenceParser.RangeTokens | server.js:56 | `a TO b` splits into the three tokens `a`, `TO`, `b` |
| SequenceParser.Onwards | server.js:64-69 | `a ONWARDS` emits `a, a+1, ...` up to the cap 5000, and nothing when `a` is above the cap |
| SequenceParser.Walk | server.js:72-75 | `a TO c` emits every integer from `a` to `c`, rising or falling, both ends included |
| SequenceParser.WalkDistinct | server.js:72-75 | a walk never emits a number twice |
| SequenceParser.ExpandNonNegative | server.js:58-79 | every emitted number is non-negative |
| SequenceParser.ExpandNoNumbers | server.js:58-79 | tokens none of which is all digits emit nothing |
| SequenceParser.ExpandKeepsNumbers | server.js:60-79 | every all-digit token is emitted, except the start of an over-cap `ONWARDS` |
| SequenceParser.ExpandRange | server.js:72-75 | the tokens `a TO b` emit exactly the walk from `a` to `b` |
| SequenceParser.DescendingRangeExample | server.js:72-75 | the tokens `5 TO 1` emit `[5, 4, 3, 2, 1]` |
| SequenceParser.Emitted | server.js:55-79 | an empty cleaned message emits nothing, and nothing emitted is negative |
| SequenceParser.Parse | server.js:46-82 | the result has no duplicates, holds exactly the numbers the scan emits, and lists them in order of first mention |
| SequenceParser.ParseRange | server.js:46-82 | the message `a TO b` parses to the walk from `a` to `b`, so `5 TO 1` gives `[5, 4, 3, 2, 1]` |
| SequenceParser.ParseByTokens | server.js:46-82 | when the tokens emit no number twice, the parse is exactly what they emit |
| SequenceParser.ParseWordsOnly | server.js:55-82 | a message without any all-digit token parses to `[]` |
| SequenceParser.ParseEmpty | server.js:55 | the empty message parses to `[]` |
| SequenceParser.ParseNonNegative | server.js:46-82 | every parsed item number is non-negative |
| SequenceParser.ParseKeepsNumbers | server.js:46-82 | every all-digit token of the cleaned message is in the result, bar an over-cap `ONWARDS` start |
| SequenceParser.PushOnwards | server.js:67 | the loop appends exactly `Onwards(start)` |
| SequenceParser.PushWalk | server.js:73-74 | the stepping loop, whose stop test is `v !== end + step`, appends exactly `Walk(start, end)` |
| SequenceParser.ScanTokens | server.js:60-79 | the index-driven token loop emits exactly `Expand(tokens)` |
| SequenceParser.DedupFirst | server.js:80-81 | the `seen`-set filter computes `Dedup` |
| SequenceParser.ParseSequence | server.js:46-82 | the method computes `Parse(message)` |
| BoardNormalizer.CourtId | server.js:90-91 | the id is the raw number, except that exactly 21 and 22 become RC1 and RC2 |
| BoardNormalizer.CourtIdRenames | server.js:90-91 | on numeric court numbers exactly 21 and 22 are renamed (to RC1 and RC2), every other number is kept |
| BoardNormalizer.CourtIdInjective | server.js:90-91 | two different numeric court numbers never share a court id |
| BoardNormalizer.StripTags | server.js:38 | removing tags never lengthens the name |
| BoardNormalizer.StripTagsPlainPrefix | server.js:38 | text before the first '<' is kept as it is |
| BoardNormalizer.StripTagsDropsTag | server.js:38 | a tag `<...>` at the front is removed whole, and removal goes on after it |
| BoardNormalizer.StripTagsLeavesNoTag | server.js:38 | after removal no '<' is followed by a '>' |
| BoardNormalizer.StripTagsKeepsUntagged | server.js:38 | text with no '<', or with no '>', is kept exactly as it is, since an unclosed '<' opens no tag |
| BoardNormalizer.CleanCourtName | server.js:38 | the clean name holds no tag, is trimmed, and is the trimmed raw name when that has no '<' |
| BoardNormalizer.CleanCourtNameParts | server.js:38 | a name with one tag after plain text is the plain text followed by the rest with its tags removed, trimmed |
| BoardNormalizer.ParseCurrentItem | server.js:39-43 | no field gives no item; a field gives an item exactly when, trimmed, it opens with an optionally signed digit; a negative item comes from a leading '-' |
| BoardNormalizer.ParseCurrentItemLeading | server.js:39-43 | a field holding white space, an integer and a non-digit tail gives that integer |
| BoardNormalizer.ParseCurrentItemLetterFirst | server.js:39-43 | a field starting with a letter, such as `x12`, gives no item |
| BoardNormalizer.ToRecord | server.js:94-104 | the record carries the court id of its row |
| BoardNormalizer.RecordShape | server.js:94-104 | a record's name has no markup, its sequence lists each item once and none below 0, and the party names are trimmed |
| BoardNormalizer.Ids | server.js:90-91 | the court id of every row, position by position |
| BoardNormalizer.CourtsOf | server.js:89-105 | the board has a court exactly for each court id some row carries, each stored under its own id |
| BoardNormalizer.CourtsOfLastWins | server.js:89-105 | a court's record comes from the last row carrying its id |
| BoardNormalizer.ArrayIndexOfNumber | server.js:121 | the decimal form of `n` is an array-index key exactly when `n < 2^32 - 1` |
| BoardNormalizer.ArrayIndexValueInjective | server.js:121 | two array-index keys with the same value are the same key |
| BoardNormalizer.IndexKeys | server.js:121 | every key picked out of the creation order is an array index |
| BoardNormalizer.OtherKeys | server.js:121 | no key picked out as "other" is an array index |
| BoardNormalizer.SplitKeysMultiset | server.js:121 | the two groups together hold exactly the created keys |
| BoardNormalizer.InsertKey | server.js:121 | inserting adds exactly one key and keeps an ascending run ascending |
| BoardNormalizer.SortKeys | server.js:121 | the sorted keys are a permutation of the input, in ascending numeric order |
| BoardNormalizer.ObjectKeys | server.js:121 | `Object.keys` lists every created key as often as it was created |
| BoardNormalizer.ObjectKeysOrder | server.js:121 | array indices come first and ascending, then the other keys in creation order |
| BoardNormalizer.ObjectKeysDistinct | server.js:121 | keys created once are listed once |
| BoardNormalizer.TickerMessage | server.js:124 | the ticker text of a court is trimmed; it is the trimmed message when there is one, and the trimmed status otherwise |
| BoardNormalizer.SegmentParts | server.js:125 | a piece reads `Court C`, the court id, `: ` and the message, so both can be read back |
| BoardNormalizer.Segments | server.js:121-126 | at most one ticker piece per listed court |
| BoardNormalizer.Piece | server.js:122-125 | one court adds at most one piece |
| BoardNormalizer.SegmentsExactly | server.js:121-126 | every listed court with something to show has its piece on the ticker, and every piece comes from such a court |
| BoardNormalizer.Ticker | server.js:117-128 | the ticker starts with `Sequence — ` and the time stamp, and is that alone when no court has a piece |
| BoardNormalizer.BlankMessageHidesStatus | server.js:124-125 | a message of white space alone hides the status, so the court is left off the ticker |
| BoardNormalizer.BuildTicker | server.js:117-128 | `buildTicker` computes the head joined with the pieces by `"  \|  "` |
| BoardNormalizer.TickerParts | server.js:120-126 | the loop collects the head, then the pieces of the listed courts in order |
| BoardNormalizer.PushPiece | server.js:122-125 | one turn skips an absent court or an empty message, or pushes `Court C<id>: <msg>` |
| BoardNormalizer.SegmentsExtend | server.js:121-126 | one more listed court adds exactly its own piece |
| BoardNormalizer.RowStep | server.js:89-105 | writing a row replaces one court and appends its id to the creation order only when the id is new |
| BoardNormalizer.BoardKeys | server.js:87-105 | the listed keys are exactly the board's courts, each listed once |
| BoardNormalizer.WriteRows | server.js:89-105 | the row loop builds exactly `CourtsOf(rows)` and the order of first writing |
| BoardNormalizer.Normalize | server.js:86-119 | the board's courts, keys in `Object.keys` order, matching keys and ids, `now` as time stamp with the clock as fallback, and the ticker stamped with `now_2`, else `now` |
| Matters.DropCourtPrefix | public/app.js:106 | one leading 'C' or 'c' is dropped, and nothing else |
| Matters.CourtKey | public/app.js:106-108 | RC1 and RC2 (in any case, after the prefix) are kept; anything else becomes the decimal form of the integer `parseInt` reads, which reads back as the same integer, or "NaN" exactly when `parseInt` reads none |
| Matters.CourtKeyRegistrar | public/app.js:107 | `RC1`, `rc2` and `cRc1` name the registrar courts |
| Matters.CourtKeyOfWord | public/app.js:108 | a court name starting with a letter, other than RC1 and RC2, becomes "NaN" |
| Matters.CourtKeyWordExamples | public/app.js:108 | `RC3` and `X` become "NaN" |
| Matters.CourtKeyOfItself | public/app.js:106-108 | a court key written after a 'C' is read back as itself |
| Matters.CourtKeyOfNumber | public/app.js:106-108 | `C007`, `c7`, `007` and `7` all watch court `7` |
| Matters.CourtKeyAfterPrefix | public/app.js:106 | a leading 'C' or 'c' before a number is ignored |
| Matters.Entry | public/app.js:105-110 | every matter an entry gives has a valid court key or "NaN" |
| Matters.EntryParts | public/app.js:105-110 | an entry is split at its first '/': the court from the trimmed first part, the item from the trimmed second, and nothing when that is not a number |
| Matters.EntryNeedsSlash | public/app.js:105 | an entry without '/' watches nothing |
| Matters.EmptyItemIsZero | public/app.js:105-110 | `c/` with nothing after the slash watches item 0, since `Number("")` is 0 |
| Matters.Read | public/app.js:102-110 | a blank piece gives nothing; any other piece is read as its trimmed entry |
| Matters.Reads | public/app.js:102-110 | each piece is read in place |
| Matters.Entries | public/app.js:103-110 | no more matters than pieces, each with a valid court key or "NaN" |
| Matters.EntriesAppend | public/app.js:103-110 | the matters of two lists of pieces are those of each, in order |
| Matters.ParseMatters | public/app.js:99-111 | every matter read names a court key the board can hold, or "NaN" |
| Matters.ParseMattersAppend | public/app.js:100-110 | two lists joined by a comma are read as the matters of each, in order |
| Matters.ParseMattersOne | public/app.js:100-110 | a text without separator is one piece: one matter or none |
| Matters.ParseMattersRoundTrip | public/app.js:99-111 | matters written as `C<court>/<item>` and joined by commas are read back as the same list |
| Matters.ParseMattersEmpty | public/app.js:99-111 | an empty list watches nothing |
| Matters.EntryOfFormat | public/app.js:104-110 | one formatted matter is read back as itself |
| Matters.EntriesOfFormats | public/app.js:100-110 | formatted matters are read back in order |
| Matters.Threshold | public/app.js:220 | the threshold is at least 1, and 5 when the field is not a number |
| Matters.ThresholdOfNumber | public/app.js:220 | a typed number is the threshold when positive; 0 gives 5 and a negative number gives 1 |
| Matters.ThresholdOfBlank | public/app.js:220 | an empty or blank field gives 5 |
| ProximityEngine.WindowShape | public/app.js:113-124 | a non-empty window ends at the target, which occurs nowhere before; at most `n + 1` long; non-empty when the target is listed; counts up from `max(1, target - n)` when it is not |
| ProximityEngine.WindowOfListed | public/app.js:114-118 | for a listed target: the slice ending at its first occurrence, of length `min(n, i) + 1` |
| ProximityEngine.WindowOfUnlisted | public/app.js:120-123 | for an unlisted target: the run `max(1, target - n) .. target`, empty for a target below 1 |
| ProximityEngine.PreAlertWindow | public/app.js:113-124 | the method, with its counting loop, computes `Window` |
| ProximityEngine.StatusText | public/app.js:168-191 | the tile reads "Waiting for session" exactly for an idle court, and "Now" exactly for a distance of 0 |
| ProximityEngine.DistanceText | public/app.js:175 | "Now" exactly for 0; otherwise the text ends with " away" |
| ProximityEngine.DistanceTextReadsBack | public/app.js:175 | a non-zero distance is read back from its text |
| ProximityEngine.AssessCases | public/app.js:162-194 | each status holds exactly in its own case: idle court; item in progress in the window, with the distance counting the items still to come; both listed, with the index gap; target unlisted; item in progress unlisted |
| ProximityEngine.AssessIdle | public/app.js:163-171 | a court missing from the board, or without an item in progress, leaves its matters waiting with no key due |
| ProximityEngine.InWindowDistance | public/app.js:172-175 | in the window, the distance is the current item's place before the window's end, at most `n`, and 0 exactly when the target is in progress |
| ProximityEngine.AheadDistance | public/app.js:183-187 | outside the window, a non-zero distance is the index gap and exceeds `n`; it is 0 exactly when the current item is listed after the target |
| ProximityEngine.AheadIndices | public/app.js:183-186 | both listed and outside the window, the item in progress is listed after the target or more than `n` before it |
| ProximityEngine.OneAwayExample | public/app.js:166-175 | items 10 to 14 with 13 in progress, watching 14 with threshold 5: in the window and "1 away" |
| ProximityEngine.FiredKeyReadsBack | public/app.js:176 | the key is the court, a '-' and the item in progress, which can be read back |
| ProximityEngine.DueKey | public/app.js:171-177 | a notification key is due exactly when the status is in the window |
| ProximityEngine.MakeAlert | public/app.js:179-180 | the notification carries the key, is titled `Court ...`, its body opens with `Approaching ` and ends with the registration when there is one |
| ProximityEngine.Step | public/app.js:176-181 | a matter's turn only adds to the fired set, covers its due key, and raises at most one notification, whose key was new and is added |
| ProximityEngine.StepAlertsDue | public/app.js:176-181 | a turn raises a notification exactly when the due key exists and has not fired, and the notification carries that key |
| ProximityEngine.StepInWindow | public/app.js:171-181 | in the window, a turn raises the notification for the key unless it has fired |
| ProximityEngine.StepIdle | public/app.js:171-194 | outside the window, a turn raises nothing and fires nothing |
| ProximityEngine.PassAlertsDue | public/app.js:162-181 | a pass raises no more notifications than matters, each carrying the due key of one of them |
| ProximityEngine.PassFires | public/app.js:162-181 | a pass adds exactly the keys of the notifications it raises, none of which had fired before |
| ProximityEngine.PassAlertsDistinct | public/app.js:162-181 | no key is notified twice in one pass |
| ProximityEngine.StepCovers | public/app.js:176-178 | after a matter's turn its due key has fired |
| ProximityEngine.PassCovers | public/app.js:162-181 | after a pass every matter in its window has its key fired |
| ProximityEngine.PassQuiet | public/app.js:176-181 | a pass over matters whose due keys have all fired raises nothing and changes nothing |
| ProximityEngine.PassIdempotent | public/app.js:176-181 | polling the same board again with the same matters raises no notification |
| ProximityEngine.PassAlertsEveryDueMatter | public/app.js:171-181 | every matter in its window whose key has not fired gets a notification; after the set is emptied, that is every such matter |
| ProximityEngine.StatusOf | public/app.js:163-194 | one matter's status computed through `preAlertWindow` is `Assess` |
| ProximityEngine.AlertEngine.constructor | public/app.js:12 | the page starts with no notified key |
| ProximityEngine.AlertEngine.RenderAlerts | public/app.js:160-194 | every matter's status, and the notifications and new fired set of the pass from the old fired set |
| ProximityEngine.AlertEngine.Notice | public/app.js:171-181 | one matter's turn against the fired set: `Step` from the old set |
| ProximityEngine.AlertEngine.Save | public/app.js:231-235 | saving empties the fired set |
| ProximityEngine.AlertEngine.Poll | public/app.js:219-222 | a poll reads the matters and the threshold from their fields and renders the alerts with them |

## Left out

- Network and runtime plumbing are not modelled: the upstream `fetch`, the response
  cache with its time to live, the HTTP routes, authentication and static files.
- The page's DOM updates, `renderCourts`, the tone, vibration and notification calls
  (`notify` is modelled as the returned `Alert` list), `localStorage`, the service
  worker, and the `setTimeout` rescheduling of `loop` are not modelled.
- The server clock behind `new Date().toISOString()` is the parameter `clock` of
  `BoardNormalizer.Normalize`.
- Strings.Upper: upper-cases ASCII letters only. JavaScript's `toUpperCase` also
  maps other letters, for example `ß` to `SS`. Messages and court keys are ASCII in
  practice.
- Strings.ToNumber: covers only the empty text and optionally signed digit strings.
  Decimal fractions, exponents, hexadecimal and `Infinity` are read as not-a-number
  here, whereas `Number` accepts them. Item numbers and thresholds are therefore
  integers in this model.
- Item numbers are unbounded integers. Floating-point rounding above 2^53, a
  `parseInt` that overflows to `Infinity` (which `parseCurrentItem` would turn into
  `null`), and `String(n)` in exponent notation are not modelled.
- Upstream rows: a row is assumed to be an object with a court number already
  turned into text. A `null` row, a missing `court_no` (which would give the key
  "undefined") and non-string field values are not modelled. A missing field is
  modelled as "" and a missing item as None.
- Prototype properties: a court key can never be a property inherited from
  `Object.prototype` (court keys are the decimal forms of integers, `RC1`, `RC2` or "NaN"), so prototype
  look-ups are not modelled.
- ProximityEngine.AlertEngine.RenderAlerts: returns the statuses instead of writing
  tiles, and leaves out the tile text for `current`.
- The "Test" and "Clear" buttons and the ticker element update are not part of this
  model.
- Strings.Join, SequenceParser.Expand, BoardNormalizer.Segment, ProximityEngine.Window,
  ProximityEngine.Assess, ProximityEngine.Classify, ProximityEngine.CurrentOf,
  ProximityEngine.SequenceOf, ProximityEngine.FiredKey and ProximityEngine.Pass only
  compute. Their properties are stated by the lemmas about them: JoinSplit,
  JoinEndsWithLast, ExpandNonNegative, SegmentParts, WindowShape, AssessCases,
  AssessIdle, FiredKeyReadsBack, PassAlertsDue and the other `Pass` lemmas.
