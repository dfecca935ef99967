/**
 * The server's `normalize`: one upstream snapshot of the listing becomes a board
 * keyed by court id, with the raw court numbers 21 and 22 renamed to the
 * registrar courts RC1 and RC2, the court name stripped of markup, the item in
 * progress read as an integer, the court message parsed into its item sequence,
 * and a one-line ticker built from every court's message or status.
 */
module BoardNormalizer {
  import opened Wrappers
  import opened Strings
  import opened Seqs
  import SequenceParser

  /**
   * One entry of the upstream `listedItemDetails`. `courtNo` is the court number
   * already turned into text; the other text fields hold "" where the upstream
   * field is missing or empty; `itemNo` is None where the upstream has no item.
   */
  datatype Row = Row(
    courtNo: string,
    itemNo: Option<string>,
    courtMessage: string,
    itemStatus: string,
    courtName: string,
    registration: string,
    petitioner: string,
    respondent: string)

  /** The upstream payload: its two time stamps ("" when missing) and its rows. */
  datatype Upstream = Upstream(now: string, now2: string, rows: seq<Row>)

  /** What the board holds for one court. */
  datatype CourtRecord = CourtRecord(
    courtId: string,
    name: string,
    current: Option<int>,
    status: string,
    sequenceText: string,
    sequence: seq<int>,
    registration: string,
    petitioner: string,
    respondent: string)

  /**
   * The board sent to the browser. `keys` is the order in which `Object.keys`
   * (and so the ticker and the JSON text) lists the courts.
   */
  datatype Board = Board(
    updatedAt: string,
    tickerText: string,
    courts: map<string, CourtRecord>,
    keys: seq<string>)

  // ---------------------------------------------------------------------------
  // Court ids

  /** The board's id for a raw court number: 21 and 22 are the registrar courts. */
  function CourtId(rawNo: string): (r: string)
    ensures r == rawNo || (rawNo == "21" && r == "RC1") || (rawNo == "22" && r == "RC2")
    ensures rawNo == "21" || rawNo == "22" ==> r != rawNo
  {
    if rawNo == "21" then "RC1" else if rawNo == "22" then "RC2" else rawNo
  }

  /** On numeric court numbers the renaming touches exactly 21 and 22 and keeps every other number. */
  lemma CourtIdRenames(rawNo: string)
    requires IsDigits(rawNo)
    ensures CourtId(rawNo) == "RC1" <==> rawNo == "21"
    ensures CourtId(rawNo) == "RC2" <==> rawNo == "22"
    ensures CourtId(rawNo) == rawNo <==> rawNo != "21" && rawNo != "22"
  {
    assert !IsDigit("RC1"[0]);
  }

  /** Two different numeric court numbers never land on the same court id. */
  lemma CourtIdInjective(a: string, b: string)
    requires IsDigits(a) && IsDigits(b)
    requires CourtId(a) == CourtId(b)
    ensures a == b
  {
    CourtIdRenames(a);
    CourtIdRenames(b);
  }

  // ---------------------------------------------------------------------------
  // Court names

  /** `s` with everything up to and including its first '>' removed. */
  function AfterClose(s: string): (r: string)
    requires '>' in s
    ensures |r| < |s| && r == s[|s| - |r|..]
  {
    if s[0] == '>' then s[1..] else AfterClose(s[1..])
  }

  /**
   * Removes every tag `<...>`, the replacement of `/<[^>]*>/g` by nothing: a '<'
   * with a '>' somewhere after it opens a tag that ends at the first such '>';
   * a '<' with no '>' after it is ordinary text.
   */
  function StripTags(s: string): (r: string)
    ensures |r| <= |s|
    decreases |s|
  {
    if s == [] then []
    else if s[0] == '<' && '>' in s[1..] then StripTags(AfterClose(s[1..]))
    else [s[0]] + StripTags(s[1..])
  }

  /** No '<' is followed, anywhere later, by a '>': nothing that still reads as a tag. */
  predicate NoTag(s: string) {
    forall i, j :: 0 <= i < j < |s| ==> !(s[i] == '<' && s[j] == '>')
  }

  lemma {:induction false} StripTagsLeavesNoTag(s: string)
    ensures NoTag(StripTags(s))
    decreases |s|
  {
    if s == [] {
    } else if s[0] == '<' && '>' in s[1..] {
      StripTagsLeavesNoTag(AfterClose(s[1..]));
    } else {
      StripTagsLeavesNoTag(s[1..]);
      if s[0] == '<' {
        StripTagsKeepsUntagged(s[1..]);
      }
      NoTagCons(s[0], StripTags(s[1..]));
    }
  }

  lemma NoTagCons(c: char, rest: string)
    requires NoTag(rest) && (c == '<' ==> '>' !in rest)
    ensures NoTag([c] + rest)
  {
    var r := [c] + rest;
    forall i, j | 0 <= i < j < |r|
      ensures !(r[i] == '<' && r[j] == '>')
    {
      assert r[j] == rest[j - 1];
      if i > 0 {
        assert r[i] == rest[i - 1];
      }
    }
  }

  /**
   * Text holds no tag when it has no '<' to open one or no '>' to close one,
   * and is then left exactly as it is.
   */
  lemma {:induction false} StripTagsKeepsUntagged(s: string)
    requires '<' !in s || '>' !in s
    ensures StripTags(s) == s
    decreases |s|
  {
    if s != [] {
      assert '<' !in s[1..] || '>' !in s[1..];
      StripTagsKeepsUntagged(s[1..]);
    }
  }

  lemma PlainTextKept(s: string)
    ensures '<' !in s ==> StripTags(s) == s
  {
    if '<' !in s {
      StripTagsKeepsUntagged(s);
    }
  }

  lemma NoTagSlice(s: string, lo: int, hi: int)
    requires NoTag(s) && 0 <= lo <= hi <= |s|
    ensures NoTag(s[lo..hi])
  {
    var t := s[lo..hi];
    forall i, j | 0 <= i < j < |t|
      ensures !(t[i] == '<' && t[j] == '>')
    {
      assert t[i] == s[lo + i] && t[j] == s[lo + j];
    }
  }

  /** Text before the first '<' is copied through as it is. */
  lemma {:induction false} StripTagsPlainPrefix(x: string, y: string)
    requires '<' !in x
    ensures StripTags(x + y) == x + StripTags(y)
    decreases |x|
  {
    if x == [] {
      assert x + y == y;
    } else {
      var s := x + y;
      assert s[0] == x[0] && s[1..] == x[1..] + y;
      StripTagsPlainPrefix(x[1..], y);
      assert x == [x[0]] + x[1..];
    }
  }

  /** The text after the first '>' of `t + ">" + y`, when `t` holds none, is `y`. */
  lemma {:induction false} AfterCloseSkips(t: string, y: string)
    requires '>' !in t
    ensures '>' in t + ">" + y && AfterClose(t + ">" + y) == y
    decreases |t|
  {
    var s := t + ">" + y;
    assert s[|t|] == '>';
    if t != [] {
      assert s[1..] == t[1..] + ">" + y;
      AfterCloseSkips(t[1..], y);
    }
  }

  /** A tag `<t>`, up to the first '>', is removed together with its content. */
  lemma StripTagsDropsTag(t: string, y: string)
    requires '>' !in t
    ensures StripTags("<" + t + ">" + y) == StripTags(y)
  {
    var s := "<" + t + ">" + y;
    assert s[1..] == t + ">" + y;
    AfterCloseSkips(t, y);
  }

  /** `cleanCourtName`: the court name without markup and without surrounding white space. */
  function CleanCourtName(raw: string): (r: string)
    ensures NoTag(r)
    ensures NoLeadingSpace(r) && NoTrailingSpace(r)
    ensures '<' !in raw ==> r == Trim(raw)
  {
    var s := StripTags(raw);
    StripTagsLeavesNoTag(raw);
    var t := TrimStart(s);
    NoTagSlice(s, |s| - |t|, |s|);
    var u := TrimEnd(t);
    NoTagSlice(t, 0, |u|);
    PlainTextKept(raw);
    Trim(s)
  }

  /** A name whose first tag follows plain text: the tag goes, the text before it stays, the whole is trimmed. */
  lemma CleanCourtNameParts(x: string, t: string, y: string)
    requires '<' !in x && '>' !in t
    ensures CleanCourtName(x + "<" + t + ">" + y) == Trim(x + StripTags(y))
  {
    assert x + "<" + t + ">" + y == x + ("<" + t + ">" + y);
    StripTagsPlainPrefix(x, "<" + t + ">" + y);
    StripTagsDropsTag(t, y);
  }

  // ---------------------------------------------------------------------------
  // Item in progress

  /**
   * `parseCurrentItem`: None for a missing value, else `parseInt` of the trimmed text,
   * which is a number exactly when that text opens with digits, after at most one sign.
   */
  function ParseCurrentItem(val: Option<string>): (r: Option<int>)
    ensures val.None? ==> r.None?
    ensures val.Some? ==> (r.Some? <==> OpensWithNumber(Trim(val.value)))
    ensures r.Some? && r.value < 0 ==> Trim(val.value)[0] == '-'
  {
    if val.None? then None
    else
      ParseIntDefined(Trim(val.value));
      TrimStartKeeps(Trim(val.value));
      ParseInt(Trim(val.value))
  }

  /**
   * The integer written at the front of the field is the item in progress, whatever
   * non-digit text follows it and whatever white space surrounds it.
   */
  lemma ParseCurrentItemLeading(pad: string, i: int, tail: string)
    requires forall k :: 0 <= k < |pad| ==> IsSpace(pad[k])
    requires tail == [] || !IsDigit(tail[0])
    ensures ParseCurrentItem(Some(pad + IntToString(i) + tail)) == Some(i)
  {
    var x := IntToString(i);
    TrimPadded(pad, x, tail);
    var t := TrimEnd(tail);
    assert t == [] || t[0] == tail[0];
    ParseIntLeading(i, t);
  }

  lemma TrimPadded(pad: string, x: string, tail: string)
    requires forall k :: 0 <= k < |pad| ==> IsSpace(pad[k])
    requires x != [] && !IsSpace(x[0]) && !IsSpace(x[|x| - 1])
    ensures Trim(pad + x + tail) == x + TrimEnd(tail)
  {
    assert pad + x + tail == pad + (x + tail);
    TrimStartPast(pad, x + tail);
    TrimEndAppend(x, tail);
  }

  /** A field that opens with a letter, such as "x12", gives no item even when digits follow. */
  lemma ParseCurrentItemLetterFirst(v: string)
    requires v != [] && 'a' <= v[0] <= 'z'
    ensures ParseCurrentItem(Some(v)) == None
  {
    assert !IsSpace(v[0]);
    TrimStartKeeps(v);
    var t := Trim(v);
    assert t != [] && t[0] == v[0];
  }

  // ---------------------------------------------------------------------------
  // Records

  /** The record a row becomes, stored under the row's court id. */
  function ToRecord(row: Row): (r: CourtRecord)
    ensures r.courtId == CourtId(row.courtNo)
  {
    var sq := SequenceParser.Parse(row.courtMessage);
    CourtRecord(
      CourtId(row.courtNo),
      CleanCourtName(row.courtName),
      ParseCurrentItem(row.itemNo),
      row.itemStatus,
      row.courtMessage,
      sq,
      row.registration,
      Trim(row.petitioner),
      Trim(row.respondent))
  }

  /**
   * A record's name carries no markup, its sequence lists each item once and no
   * item below 0, and the party names are trimmed.
   */
  lemma RecordShape(row: Row)
    ensures var r := ToRecord(row);
      && NoTag(r.name)
      && NoDuplicates(r.sequence)
      && (forall k :: 0 <= k < |r.sequence| ==> r.sequence[k] >= 0)
      && NoLeadingSpace(r.petitioner) && NoTrailingSpace(r.petitioner)
      && NoLeadingSpace(r.respondent) && NoTrailingSpace(r.respondent)
  {
    SequenceParser.ParseNonNegative(row.courtMessage);
  }

  /** The court id of every row, in row order. */
  function Ids(rows: seq<Row>): (r: seq<string>)
    ensures |r| == |rows|
    ensures forall i :: 0 <= i < |rows| ==> r[i] == CourtId(rows[i].courtNo)
  {
    if rows == [] then [] else Ids(rows[..|rows| - 1]) + [CourtId(rows[|rows| - 1].courtNo)]
  }

  /**
   * The courts object after every row has been written into it, a later row
   * overwriting an earlier one: it has a court exactly for every court id some row
   * carries, and every court is stored under its own id.
   */
  function CourtsOf(rows: seq<Row>): (r: map<string, CourtRecord>)
    ensures forall id :: id in r <==> id in Ids(rows)
    ensures forall id :: id in r ==> r[id].courtId == id
  {
    if rows == [] then map[]
    else
      var last := rows[|rows| - 1];
      CourtsOf(rows[..|rows| - 1])[CourtId(last.courtNo) := ToRecord(last)]
  }

  /** A court's record comes from the last row that carries its id. */
  lemma {:induction false} CourtsOfLastWins(rows: seq<Row>, i: int)
    requires 0 <= i < |rows|
    requires forall j :: i < j < |rows| ==> CourtId(rows[j].courtNo) != CourtId(rows[i].courtNo)
    ensures CourtId(rows[i].courtNo) in CourtsOf(rows)
    ensures CourtsOf(rows)[CourtId(rows[i].courtNo)] == ToRecord(rows[i])
  {
    var p, last := rows[..|rows| - 1], rows[|rows| - 1];
    var id := CourtId(rows[i].courtNo);
    assert CourtsOf(rows) == CourtsOf(p)[CourtId(last.courtNo) := ToRecord(last)];
    if i < |rows| - 1 {
      assert p[i] == rows[i];
      forall j | i < j < |p|
        ensures CourtId(p[j].courtNo) != CourtId(p[i].courtNo)
      {
        assert p[j] == rows[j];
      }
      CourtsOfLastWins(p, i);
      assert CourtId(last.courtNo) != id;
      UpdateElsewhere(CourtsOf(p), CourtId(last.courtNo), ToRecord(last), id);
    }
  }

  lemma UpdateElsewhere<K, V>(m: map<K, V>, k: K, v: V, j: K)
    requires j in m && j != k
    ensures j in m[k := v] && m[k := v][j] == m[j]
  {
  }

  // ---------------------------------------------------------------------------
  // Object.keys order

  /** 2^32 - 1: array indices are the canonical decimal numbers below it. */
  const ArrayIndexLimit := 4294967295

  /** A property name that is an array index: `Object.keys` lists these first, in numeric order. */
  predicate IsArrayIndex(k: string) {
    IsDigits(k) && (k[0] == '0' ==> k == "0") && DigitsValue(k) < ArrayIndexLimit
  }

  function KeyValue(k: string): nat {
    if AllDigits(k) then DigitsValue(k) else 0
  }

  /** The decimal form of every number below 2^32 - 1 is an array index, and no other numeral is. */
  lemma ArrayIndexOfNumber(n: nat)
    ensures IsArrayIndex(NatToString(n)) <==> n < ArrayIndexLimit
  {
  }

  /** Two array indices with the same numeric value are the same name. */
  lemma ArrayIndexValueInjective(a: string, b: string)
    requires IsArrayIndex(a) && IsArrayIndex(b) && KeyValue(a) == KeyValue(b)
    ensures a == b
  {
    NatToStringOfDigits(a);
    NatToStringOfDigits(b);
  }

  /** The array-index names of `order`, in order. */
  function IndexKeys(order: seq<string>): (r: seq<string>)
    ensures forall i :: 0 <= i < |r| ==> IsArrayIndex(r[i])
  {
    if order == [] then []
    else (if IsArrayIndex(order[0]) then [order[0]] else []) + IndexKeys(order[1..])
  }

  /** The other names of `order`, in order. */
  function OtherKeys(order: seq<string>): (r: seq<string>)
    ensures forall i :: 0 <= i < |r| ==> !IsArrayIndex(r[i])
  {
    if order == [] then []
    else (if IsArrayIndex(order[0]) then [] else [order[0]]) + OtherKeys(order[1..])
  }

  lemma {:induction false} SplitKeysMultiset(order: seq<string>)
    ensures multiset(IndexKeys(order)) + multiset(OtherKeys(order)) == multiset(order)
  {
    if order != [] {
      SplitKeysMultiset(order[1..]);
      assert order == [order[0]] + order[1..];
    }
  }

  /** Each name's numeric value is at most the next one's. */
  predicate Ascending(ks: seq<string>) {
    forall i :: 0 <= i < |ks| - 1 ==> KeyValue(ks[i]) <= KeyValue(ks[i + 1])
  }

  function InsertKey(k: string, sorted: seq<string>): (r: seq<string>)
    ensures multiset(r) == multiset(sorted) + multiset{k}
    ensures |r| == |sorted| + 1
    ensures r[0] == k || (sorted != [] && r[0] == sorted[0])
    ensures Ascending(sorted) ==> Ascending(r)
  {
    if sorted == [] then [k]
    else if KeyValue(k) <= KeyValue(sorted[0]) then
      AscendingCons(k, sorted);
      [k] + sorted
    else
      assert sorted == [sorted[0]] + sorted[1..];
      var t := InsertKey(k, sorted[1..]);
      AscendingCons(sorted[0], t);
      [sorted[0]] + t
  }

  /** Putting a name in front of an ascending run keeps it ascending when the name is not above its head. */
  lemma AscendingCons(x: string, t: seq<string>)
    ensures Ascending(t) && (t == [] || KeyValue(x) <= KeyValue(t[0])) ==> Ascending([x] + t)
  {
    if Ascending(t) && (t == [] || KeyValue(x) <= KeyValue(t[0])) {
      var r := [x] + t;
      forall i | 0 <= i < |r| - 1 ensures KeyValue(r[i]) <= KeyValue(r[i + 1]) {
        if i > 0 {
          assert r[i] == t[i - 1] && r[i + 1] == t[i];
        }
      }
    }
  }

  /** Insertion sort by numeric value. */
  function SortKeys(ks: seq<string>): (r: seq<string>)
    ensures multiset(r) == multiset(ks)
    ensures Ascending(r)
  {
    if ks == [] then []
    else
      assert ks == [ks[0]] + ks[1..];
      InsertKey(ks[0], SortKeys(ks[1..]))
  }

  /**
   * `Object.keys` of an object whose properties were created in the order `order`:
   * every name exactly as often as it was created, the array-index names first and
   * in ascending numeric order, then the other names in creation order (the order
   * is stated by `ObjectKeysOrder`).
   */
  function ObjectKeys(order: seq<string>): (r: seq<string>)
    ensures multiset(r) == multiset(order)
  {
    SplitKeysMultiset(order);
    SortKeys(IndexKeys(order)) + OtherKeys(order)
  }

  /** The numeric names come first and rising, the others after them in creation order. */
  lemma ObjectKeysOrder(order: seq<string>)
    ensures var r, n := ObjectKeys(order), |IndexKeys(order)|;
      && n <= |r|
      && (forall i :: 0 <= i < n ==> IsArrayIndex(r[i]))
      && (forall i :: n <= i < |r| ==> !IsArrayIndex(r[i]))
      && Ascending(r[..n])
      && r[n..] == OtherKeys(order)
  {
    var s := SortKeys(IndexKeys(order));
    var r := ObjectKeys(order);
    assert r[..|s|] == s && r[|s|..] == OtherKeys(order);
    forall i | 0 <= i < |s| ensures IsArrayIndex(r[i]) {
      assert r[i] in multiset(IndexKeys(order));
    }
  }

  /** Names created without repetition are listed without repetition. */
  lemma ObjectKeysDistinct(order: seq<string>)
    requires NoDuplicates(order)
    ensures NoDuplicates(ObjectKeys(order))
  {
    PermutationKeepsDistinct(order, ObjectKeys(order));
  }

  lemma PermutationKeepsDistinct(a: seq<string>, b: seq<string>)
    requires NoDuplicates(a) && multiset(a) == multiset(b)
    ensures NoDuplicates(b)
  {
    forall i, j | 0 <= i < j < |b|
      ensures b[i] != b[j]
    {
      if b[i] == b[j] {
        var x := b[i];
        assert b == b[..j] + b[j..];
        assert x in b[..j] && x in b[j..];
        assert multiset(b)[x] == multiset(b[..j])[x] + multiset(b[j..])[x];
        DistinctCount(a, x);
        assert false;
      }
    }
  }

  lemma {:induction false} DistinctCount(s: seq<string>, x: string)
    requires NoDuplicates(s)
    ensures multiset(s)[x] <= 1
  {
    if s != [] {
      assert s == [s[0]] + s[1..];
      DistinctCount(s[1..], x);
      if s[0] == x {
        assert x !in s[1..];
      }
    }
  }

  // ---------------------------------------------------------------------------
  // Ticker

  /** Separator between the ticker's pieces. */
  const TickerSeparator := "  |  "

  function TickerHead(ts: string): string {
    "Sequence \U{2014} " + ts
  }

  /** What a court shows on the ticker: its message, or its status when the message is empty, trimmed. */
  function TickerMessage(rec: CourtRecord): (r: string)
    ensures NoLeadingSpace(r) && NoTrailingSpace(r)
    ensures rec.sequenceText != "" ==> r == Trim(rec.sequenceText)
    ensures rec.sequenceText == "" ==> r == Trim(rec.status)
  {
    Trim(if rec.sequenceText != "" then rec.sequenceText else rec.status)
  }

  /** A court's ticker piece. */
  function Segment(id: string, msg: string): string {
    "Court C" + id + ": " + msg
  }

  /** A court's ticker piece names the court after the letter C and ends with the message, so both can be read back. */
  lemma SegmentParts(id: string, msg: string)
    ensures var r := Segment(id, msg);
      && "Court C" <= r && |r| == 9 + |id| + |msg|
      && r[7..7 + |id|] == id && r[9 + |id|..] == msg
  {
    var r := Segment(id, msg);
    assert r == "Court C" + id + ": " + msg;
  }

  /** The ticker pieces of the courts listed in `keys`, skipping those with nothing to show. */
  function Segments(courts: map<string, CourtRecord>, keys: seq<string>): (r: seq<string>)
    ensures |r| <= |keys|
  {
    if keys == [] then [] else Segments(courts, keys[..|keys| - 1]) + Piece(courts, keys[|keys| - 1])
  }

  /** What court `id` adds to the ticker: its piece when it is on the board and has something to show. */
  function Piece(courts: map<string, CourtRecord>, id: string): (r: seq<string>)
    ensures |r| <= 1
  {
    if id in courts && TickerMessage(courts[id]) != "" then [Segment(id, TickerMessage(courts[id]))] else []
  }

  /**
   * The ticker text for a time stamp and the courts listed in `keys`: it always opens
   * with its head and time stamp, and is the head alone when no court has anything to show.
   */
  function Ticker(ts: string, courts: map<string, CourtRecord>, keys: seq<string>): (r: string)
    ensures TickerHead(ts) <= r
    ensures Segments(courts, keys) == [] ==> r == TickerHead(ts)
  {
    var parts := [TickerHead(ts)] + Segments(courts, keys);
    JoinStartsWithFirst(parts, TickerSeparator);
    Join(parts, TickerSeparator)
  }

  /** Every listed court with something to show has its piece on the ticker, and nothing else is on it. */
  lemma {:induction false} SegmentsExactly(courts: map<string, CourtRecord>, keys: seq<string>)
    ensures forall id :: id in keys && id in courts && TickerMessage(courts[id]) != "" ==>
      Segment(id, TickerMessage(courts[id])) in Segments(courts, keys)
    ensures forall x :: x in Segments(courts, keys) ==>
      exists id :: id in keys && id in courts && TickerMessage(courts[id]) != "" && x == Segment(id, TickerMessage(courts[id]))
  {
    if keys != [] {
      var q, last := keys[..|keys| - 1], keys[|keys| - 1];
      SegmentsExactly(courts, q);
      var sq, p := Segments(courts, q), Piece(courts, last);
      assert Segments(courts, keys) == sq + p;
      assert keys == q + [last];
      forall id | id in keys && id in courts && TickerMessage(courts[id]) != ""
        ensures Segment(id, TickerMessage(courts[id])) in sq + p
      {
        if id in q {
          assert Segment(id, TickerMessage(courts[id])) in sq;
        } else {
          assert id == last;
          assert p == [Segment(id, TickerMessage(courts[id]))];
        }
      }
      forall x | x in sq + p
        ensures exists id :: id in keys && id in courts && TickerMessage(courts[id]) != "" && x == Segment(id, TickerMessage(courts[id]))
      {
        if x in sq {
          var id :| id in q && id in courts && TickerMessage(courts[id]) != "" && x == Segment(id, TickerMessage(courts[id]));
          assert id in keys;
        } else {
          assert x in p && last in keys;
        }
      }
    }
  }

  /** A message of white space alone hides the court's status: the court is left off the ticker. */
  lemma BlankMessageHidesStatus(rec: CourtRecord)
    requires rec.sequenceText != [] && forall k :: 0 <= k < |rec.sequenceText| ==> IsSpace(rec.sequenceText[k])
    ensures TickerMessage(rec) == ""
  {
    var t := TrimStart(rec.sequenceText);
    assert t == [];
  }

  /** `buildTicker`: the head, then one piece per listed court that has something to show. */
  method BuildTicker(ts: string, courts: map<string, CourtRecord>, keys: seq<string>) returns (text: string)
    ensures text == Ticker(ts, courts, keys)
  {
    var parts := TickerParts(ts, courts, keys);
    text := Join(parts, TickerSeparator);
  }

  /** The loop of `buildTicker`, which collects the pieces before they are joined. */
  method TickerParts(ts: string, courts: map<string, CourtRecord>, keys: seq<string>) returns (parts: seq<string>)
    ensures parts == [TickerHead(ts)] + Segments(courts, keys)
  {
    parts := [TickerHead(ts)];
    for i := 0 to |keys|
      invariant parts == [TickerHead(ts)] + Segments(courts, keys[..i])
    {
      var next := PushPiece(parts, courts, keys[i]);
      SegmentsExtend(courts, keys, i);
      AppendAssoc([TickerHead(ts)], Segments(courts, keys[..i]), Piece(courts, keys[i]));
      parts := next;
    }
    assert keys[..|keys|] == keys;
  }

  lemma SegmentsExtend(courts: map<string, CourtRecord>, keys: seq<string>, i: int)
    requires 0 <= i < |keys|
    ensures Segments(courts, keys[..i + 1]) == Segments(courts, keys[..i]) + Piece(courts, keys[i])
  {
    assert keys[..i + 1][..i] == keys[..i];
  }

  /** One turn of `buildTicker`'s loop: skip an absent court or an empty message, else push the court's piece. */
  method PushPiece(parts: seq<string>, courts: map<string, CourtRecord>, id: string) returns (r: seq<string>)
    ensures r == parts + Piece(courts, id)
  {
    r := parts;
    if id !in courts {
      return;
    }
    var msg := TickerMessage(courts[id]);
    if msg != "" {
      r := parts + [Segment(id, msg)];
    }
  }

  // ---------------------------------------------------------------------------
  // normalize

  /** Writing row `i` extends both the courts object and the creation order by that row alone. */
  lemma RowStep(rows: seq<Row>, i: int)
    requires 0 <= i < |rows|
    ensures CourtsOf(rows[..i + 1]) == CourtsOf(rows[..i])[CourtId(rows[i].courtNo) := ToRecord(rows[i])]
    ensures Dedup(Ids(rows[..i + 1])) ==
      if CourtId(rows[i].courtNo) in CourtsOf(rows[..i]) then Dedup(Ids(rows[..i]))
      else Dedup(Ids(rows[..i])) + [CourtId(rows[i].courtNo)]
  {
    var p := rows[..i + 1];
    assert p[..i] == rows[..i];
    assert Ids(p) == Ids(rows[..i]) + [CourtId(rows[i].courtNo)];
    DedupStep(Ids(rows[..i]), CourtId(rows[i].courtNo));
  }

  /** The listed courts are exactly the board's courts, each listed once. */
  lemma BoardKeys(rows: seq<Row>)
    ensures forall id :: id in CourtsOf(rows) <==> id in ObjectKeys(Dedup(Ids(rows)))
    ensures NoDuplicates(ObjectKeys(Dedup(Ids(rows))))
  {
    var order := Dedup(Ids(rows));
    var keys := ObjectKeys(order);
    ObjectKeysDistinct(order);
    forall id ensures id in order <==> id in Ids(rows) {
      if id in Ids(rows) {
        var k := IndexOf(Ids(rows), id);
        assert Ids(rows)[k] in order;
      }
      if id in order {
        var k := IndexOf(order, id);
        assert order[k] in Ids(rows);
      }
    }
    forall id ensures id in order <==> id in keys {
      assert id in keys <==> id in multiset(keys);
      assert id in order <==> id in multiset(order);
    }
  }

  /**
   * `normalize`: writes every row into the courts object in order, then builds the
   * ticker over the courts in `Object.keys` order. `clock` is the server's current
   * time as ISO text. The board's time stamp is the upstream's, or the clock's when
   * the upstream has none; the ticker's is the second upstream stamp when present,
   * else the first.
   */
  method Normalize(up: Upstream, clock: string) returns (board: Board)
    ensures board.courts == CourtsOf(up.rows)
    ensures board.keys == ObjectKeys(Dedup(Ids(up.rows)))
    ensures forall id :: id in board.courts <==> id in board.keys
    ensures NoDuplicates(board.keys)
    ensures forall id :: id in board.courts ==> board.courts[id].courtId == id
    ensures board.updatedAt == if up.now != "" then up.now else clock
    ensures board.tickerText == Ticker(if up.now2 != "" then up.now2 else up.now, board.courts, board.keys)
  {
    var courts, order := WriteRows(up.rows);
    var keys := ObjectKeys(order);
    BoardKeys(up.rows);
    var stamp := if up.now2 != "" then up.now2 else up.now;
    var ticker := BuildTicker(stamp, courts, keys);
    board := Board(if up.now != "" then up.now else clock, ticker, courts, keys);
  }

  /**
   * The loop of `normalize`: each row is written into the courts object under its
   * court id, a later row replacing an earlier one; `order` records the order in
   * which the ids were first written.
   */
  method WriteRows(rows: seq<Row>) returns (courts: map<string, CourtRecord>, order: seq<string>)
    ensures courts == CourtsOf(rows)
    ensures order == Dedup(Ids(rows))
  {
    courts := map[];
    order := [];
    for i := 0 to |rows|
      invariant courts == CourtsOf(rows[..i])
      invariant order == Dedup(Ids(rows[..i]))
    {
      var row := rows[i];
      var id := CourtId(row.courtNo);
      var sq := SequenceParser.ParseSequence(row.courtMessage);
      RowStep(rows, i);
      if id !in courts {
        order := order + [id];
      }
      courts := courts[id := CourtRecord(
        id,
        CleanCourtName(row.courtName),
        ParseCurrentItem(row.itemNo),
        row.itemStatus,
        row.courtMessage,
        sq,
        row.registration,
        Trim(row.petitioner),
        Trim(row.respondent))];
    }
    assert rows[..|rows|] == rows;
  }
}
