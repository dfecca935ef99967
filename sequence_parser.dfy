/**
 * The server's sequence parser: an operator-typed court message such as
 * "Sequence would be 5 TO 15, 20 ONWARDS" becomes the ordered list of item
 * numbers it announces, each number once, in the order of first mention.
 *
 * The text is first cleaned (upper-cased, the "court will sit at" line and a fixed
 * vocabulary of noise words replaced by spaces, punctuation blanked, white space
 * collapsed and trimmed), then split on single spaces and scanned left to right.
 */
module SequenceParser {
  import opened Wrappers
  import opened Strings
  import opened Seqs

  /** The last item number an `n ONWARDS` tail reaches. */
  const OnwardsCap := 5000

  /** The phrase that, with the rest of its line, is blanked out. */
  const SittingPhrase := "COURT WILL SIT AT"

  /** What is left of `s` from its first line feed on (the `[^\n]*` part consumes the rest). */
  function FromLineEnd(s: string): (r: string)
    ensures |r| <= |s| && r == s[|s| - |r|..]
    ensures r == [] || r[0] == '\n'
    ensures '\n' !in s[..|s| - |r|]
  {
    if s == [] || s[0] == '\n' then s else FromLineEnd(s[1..])
  }

  /** The phrase starts nowhere in `s`. */
  predicate NoSitting(s: string) {
    forall i :: 0 <= i <= |s| ==> !(SittingPhrase <= s[i..])
  }

  lemma NoSittingTail(s: string)
    requires s != [] && NoSitting(s)
    ensures NoSitting(s[1..])
  {
    forall i | 0 <= i <= |s[1..]| ensures !(SittingPhrase <= s[1..][i..]) {
      assert s[1..][i..] == s[i + 1..];
    }
  }

  /** Every match of `COURT WILL SIT AT[^\n]*`, left to right, becomes one space; the text never grows. */
  function StripSitting(s: string): (r: string)
    ensures |r| <= |s|
    decreases |s|
  {
    if s == [] then []
    else if SittingPhrase <= s then " " + StripSitting(FromLineEnd(s[|SittingPhrase|..]))
    else [s[0]] + StripSitting(s[1..])
  }

  /** Text in which the phrase starts nowhere is left as it is. */
  lemma {:induction false} StripSittingKeeps(s: string)
    requires NoSitting(s)
    ensures StripSitting(s) == s
    decreases |s|
  {
    if s != [] {
      assert s[0..] == s;
      NoSittingTail(s);
      StripSittingKeeps(s[1..]);
      assert s == [s[0]] + s[1..];
    }
  }

  /** Past a run of text with no line feed, the first line feed (or the end) is reached. */
  lemma {:induction false} FromLineEndSkip(t: string, y: string)
    requires '\n' !in t
    requires y == [] || y[0] == '\n'
    ensures FromLineEnd(t + y) == y
    decreases |t|
  {
    if t == [] {
      assert t + y == y;
    } else {
      assert (t + y)[0] == t[0];
      assert (t + y)[1..] == t[1..] + y;
      FromLineEndSkip(t[1..], y);
    }
  }

  /** The phrase and the rest of its line, up to the line feed, become one space. */
  lemma StripSittingPhrase(t: string, y: string)
    requires '\n' !in t
    requires y == [] || y[0] == '\n'
    ensures StripSitting(SittingPhrase + t + y) == " " + StripSitting(y)
  {
    var s := SittingPhrase + t + y;
    assert SittingPhrase <= s;
    assert s[|SittingPhrase|..] == t + y;
    FromLineEndSkip(t, y);
  }

  /** One optional character `c` at the front of `s`: 1 when present, 0 otherwise. */
  function Opt(c: char, s: string): nat {
    if s != [] && s[0] == c then 1 else 0
  }

  /** The spellings of `ITEM NOS?\.?` and `ITEMS?\.?`. */
  const ItemWords: set<string> := {"ITEM NO", "ITEM NOS", "ITEM NO.", "ITEM NOS.", "ITEM", "ITEMS", "ITEM.", "ITEMS."}
  /** The spellings of `PASS ?OVER IF ANY`. */
  const PassWords: set<string> := {"PASS OVER IF ANY", "PASSOVER IF ANY"}
  /** The spellings of `FRESH ?PASSOVER` and `FRESH`. */
  const FreshWords: set<string> := {"FRESH PASSOVER", "FRESHPASSOVER", "FRESH"}
  /** The words without optional parts. */
  const PlainWords: set<string> := {"SEQUENCE", "WOULD BE", "THEREAFTER", "THEN", "AND"}

  /** Every text the noise alternation can match, each optional part spelled out. */
  const NoiseWords: set<string> := PlainWords + ItemWords + PassWords + FreshWords

  /**
   * Length of the noise-vocabulary match at the front of `s`, or 0 when none matches.
   * The alternatives are tried in the order of the alternation
   * SEQUENCE | WOULD BE | ITEM NOS?\.? | ITEMS?\.? | PASS ?OVER IF ANY | THEREAFTER |
   * THEN | AND | FRESH ?PASSOVER | FRESH, with greedy optional parts.
   */
  function NoiseMatch(s: string): (k: nat)
    ensures k <= |s|
    ensures k == 0 || k >= 3
  {
    if "SEQUENCE" <= s then 8
    else if "WOULD BE" <= s then 8
    else if "ITEM NO" <= s then
      var a := 7 + Opt('S', s[7..]);
      a + Opt('.', s[a..])
    else if "ITEM" <= s then
      var a := 4 + Opt('S', s[4..]);
      a + Opt('.', s[a..])
    else if "PASS" <= s && "OVER IF ANY" <= s[4 + Opt(' ', s[4..])..] then 4 + Opt(' ', s[4..]) + 11
    else if "THEREAFTER" <= s then 10
    else if "THEN" <= s then 4
    else if "AND" <= s then 3
    else if "FRESH" <= s && "PASSOVER" <= s[5 + Opt(' ', s[5..])..] then 5 + Opt(' ', s[5..]) + 8
    else if "FRESH" <= s then 5
    else 0
  }

  /**
   * What the alternation matches is a noise word, and in this vocabulary it is always
   * the longest noise word `s` starts with; no match means no noise word starts there.
   */
  lemma NoiseMatchLongest(s: string)
    ensures NoiseMatch(s) > 0 ==> s[..NoiseMatch(s)] in NoiseWords
    ensures forall w :: w in NoiseWords && w <= s ==> |w| <= NoiseMatch(s)
  {
    NoiseMatchWord(s);
    forall w | w in NoiseWords && w <= s ensures |w| <= NoiseMatch(s) {
      NoiseWordCovered(s, w);
    }
  }

  /** What the alternation matches is one of the noise words. */
  lemma NoiseMatchWord(s: string)
    ensures NoiseMatch(s) > 0 ==> s[..NoiseMatch(s)] in NoiseWords
  {
    var k := NoiseMatch(s);
    if s != [] && s[0] == 'I' {
      ItemMatchWord(s);
    } else if s != [] && s[0] == 'P' {
      PassMatchWord(s);
    } else if s != [] && s[0] == 'F' {
      FreshMatchWord(s);
    } else if k > 0 {
      PlainMatchWord(s);
    }
  }

  /** The words without optional parts are matched as they are spelled. */
  lemma PlainMatchWord(s: string)
    requires s != [] && s[0] != 'I' && s[0] != 'P' && s[0] != 'F' && NoiseMatch(s) > 0
    ensures s[..NoiseMatch(s)] in PlainWords
  {
    var k := NoiseMatch(s);
    if "SEQUENCE" <= s {
      assert s[..k] == "SEQUENCE";
    } else if "WOULD BE" <= s {
      assert s[..k] == "WOULD BE";
    } else if "THEREAFTER" <= s {
      assert s[..k] == "THEREAFTER";
    } else if "THEN" <= s {
      assert s[..k] == "THEN";
    } else {
      assert s[..k] == "AND";
    }
  }

  /** A word, an optional one-character gap and a second word, read off the front of `s`. */
  lemma PrefixGlue(s: string, a: string, o: nat, b: string)
    requires a <= s && |a| + o <= |s| && b <= s[|a| + o..]
    ensures s[..|a| + o + |b|] == a + s[|a|..|a| + o] + b
  {
    var n := |a| + o + |b|;
    assert s[..n] == s[..|a|] + s[|a|..|a| + o] + s[|a| + o..n];
    assert s[|a| + o..n] == s[|a| + o..][..|b|];
  }

  /** At a `P` the alternation can only match the `PASS` family. */
  lemma NoiseMatchAtP(s: string)
    requires s != [] && s[0] == 'P'
    ensures NoiseMatch(s) == if "PASS" <= s && "OVER IF ANY" <= s[4 + Opt(' ', s[4..])..] then 15 + Opt(' ', s[4..]) else 0
  {
    assert !("SEQUENCE" <= s) && !("WOULD BE" <= s) && !("ITEM" <= s);
    assert !("THEREAFTER" <= s) && !("THEN" <= s) && !("AND" <= s) && !("FRESH" <= s);
  }

  /** `PASS ?OVER IF ANY` matches one of its two spellings. */
  lemma PassMatchWord(s: string)
    requires s != [] && s[0] == 'P'
    ensures NoiseMatch(s) > 0 ==> s[..NoiseMatch(s)] in PassWords
  {
    NoiseMatchAtP(s);
    if "PASS" <= s && "OVER IF ANY" <= s[4 + Opt(' ', s[4..])..] {
      var o := Opt(' ', s[4..]);
      PrefixGlue(s, "PASS", o, "OVER IF ANY");
      if o == 1 {
        assert s[4..5] == " ";
        assert s[..15 + o] == "PASS OVER IF ANY";
      } else {
        assert s[4..4] == "";
        assert s[..15 + o] == "PASSOVER IF ANY";
      }
    }
  }

  /** At an `F` the alternation can only match the `FRESH` family. */
  lemma NoiseMatchAtF(s: string)
    requires s != [] && s[0] == 'F'
    ensures NoiseMatch(s) ==
      if "FRESH" <= s && "PASSOVER" <= s[5 + Opt(' ', s[5..])..] then 13 + Opt(' ', s[5..])
      else if "FRESH" <= s then 5
      else 0
  {
    assert !("SEQUENCE" <= s) && !("WOULD BE" <= s) && !("ITEM" <= s) && !("PASS" <= s);
    assert !("THEREAFTER" <= s) && !("THEN" <= s) && !("AND" <= s);
  }

  /** `FRESH ?PASSOVER` or `FRESH` alone. */
  lemma FreshMatchWord(s: string)
    requires s != [] && s[0] == 'F'
    ensures NoiseMatch(s) > 0 ==> s[..NoiseMatch(s)] in FreshWords
  {
    NoiseMatchAtF(s);
    if "FRESH" <= s && "PASSOVER" <= s[5 + Opt(' ', s[5..])..] {
      var o := Opt(' ', s[5..]);
      PrefixGlue(s, "FRESH", o, "PASSOVER");
      if o == 1 {
        assert s[5..6] == " ";
        assert s[..13 + o] == "FRESH PASSOVER";
      } else {
        assert s[5..5] == "";
        assert s[..13 + o] == "FRESHPASSOVER";
      }
    } else if "FRESH" <= s {
      assert s[..5] == "FRESH";
    }
  }

  /** The `ITEM` family matches one of its eight spellings. */
  lemma ItemMatchWord(s: string)
    requires s != [] && s[0] == 'I'
    ensures NoiseMatch(s) > 0 ==> s[..NoiseMatch(s)] in ItemWords
  {
    assert !("SEQUENCE" <= s) && !("WOULD BE" <= s);
    var k := NoiseMatch(s);
    if "ITEM NO" <= s {
      if |s| > 7 && s[7] == 'S' {
        if |s| > 8 && s[8] == '.' { assert s[..k] == "ITEM NOS."; } else { assert s[..k] == "ITEM NOS"; }
      } else if |s| > 7 && s[7] == '.' {
        assert s[..k] == "ITEM NO.";
      } else {
        assert s[..k] == "ITEM NO";
      }
    } else if "ITEM" <= s {
      if |s| > 4 && s[4] == 'S' {
        if |s| > 5 && s[5] == '.' { assert s[..k] == "ITEMS."; } else { assert s[..k] == "ITEMS"; }
      } else if |s| > 4 && s[4] == '.' {
        assert s[..k] == "ITEM.";
      } else {
        assert s[..k] == "ITEM";
      }
    }
  }

  /** A noise word at the front of `s` is matched in full, if not by a longer one. */
  lemma NoiseWordCovered(s: string, w: string)
    requires w in NoiseWords && w <= s
    ensures |w| <= NoiseMatch(s)
  {
    if w in ItemWords {
      ItemCovered(s, w);
    } else if w in PassWords {
      PassCovered(s, w);
    } else if w in FreshWords {
      FreshCovered(s, w);
    } else {
      PlainCovered(s, w);
    }
  }

  /** A word without optional parts at the front of `s` is matched in full. */
  lemma PlainCovered(s: string, w: string)
    requires w in PlainWords && w <= s
    ensures |w| <= NoiseMatch(s)
  {
    assert s[0] == w[0];
  }

  /** A prefix of `s`, cut at `n`, gives a prefix of `s` and a prefix of what follows `n`. */
  lemma PrefixParts(w: string, s: string, n: nat)
    requires w <= s && n <= |w|
    ensures w[..n] <= s && w[n..] <= s[n..]
  {
    assert s[n..][..|w| - n] == s[n..|w|];
  }

  /** `PASS ?OVER IF ANY`: the optional space is taken when present. */
  lemma PassCovered(s: string, w: string)
    requires w in PassWords && w <= s
    ensures |w| <= NoiseMatch(s)
  {
    assert s[0] == 'P';
    NoiseMatchAtP(s);
    var o := if w == "PASS OVER IF ANY" then 1 else 0;
    PrefixParts(w, s, 4 + o);
    assert w[..4] == "PASS" && w[4 + o..] == "OVER IF ANY";
    assert "PASS" <= s;
    assert o == 1 ==> s[4] == w[4] == ' ';
    assert o == 0 ==> s[4] == w[4] == 'O';
    assert Opt(' ', s[4..]) == o;
  }

  /** `FRESH ?PASSOVER` is tried before `FRESH` alone. */
  lemma FreshCovered(s: string, w: string)
    requires w in FreshWords && w <= s
    ensures |w| <= NoiseMatch(s)
  {
    assert s[0] == 'F';
    NoiseMatchAtF(s);
    PrefixParts(w, s, 5);
    assert w[..5] == "FRESH";
    if w != "FRESH" {
      var o := if w == "FRESH PASSOVER" then 1 else 0;
      PrefixParts(w, s, 5 + o);
      assert w[5 + o..] == "PASSOVER";
      assert o == 1 ==> s[5] == w[5] == ' ';
      assert o == 0 ==> s[5] == w[5] == 'P';
      assert Opt(' ', s[5..]) == o;
    }
  }

  /** The `ITEM` family: the greedy `NOS?` and `S?` with an optional full stop cover every spelling. */
  lemma ItemCovered(s: string, w: string)
    requires w in ItemWords && w <= s
    ensures |w| <= NoiseMatch(s)
  {
    assert "ITEM" <= s && s[0] == 'I';
    assert !("SEQUENCE" <= s) && !("WOULD BE" <= s);
    if "ITEM NO" <= s {
      if w == "ITEM NOS." || w == "ITEM NOS" {
        assert s[7..][0] == 'S';
        assert w == "ITEM NOS." ==> s[8..][0] == '.';
      } else if w == "ITEM NO." {
        assert s[7..][0] == '.';
      } else {
        assert s[4] == ' ';
      }
    } else {
      if w == "ITEMS." || w == "ITEMS" {
        assert s[4..][0] == 'S';
        assert w == "ITEMS." ==> s[5..][0] == '.';
      } else if w == "ITEM." {
        assert s[4..][0] == '.';
      }
    }
  }

  /** Nothing matches at a character no noise word starts with, nor at a `T` not followed by `H`. */
  lemma NoiseMatchNone(s: string)
    requires s == [] || !(s[0] in {'S', 'W', 'I', 'P', 'T', 'A', 'F'}) || (s[0] == 'T' && |s| > 1 && s[1] != 'H')
    ensures NoiseMatch(s) == 0
  {
  }

  /** No noise word starts anywhere in `s`. */
  predicate NoNoise(s: string) {
    forall i :: 0 <= i < |s| ==> NoiseMatch(s[i..]) == 0
  }

  lemma NoNoiseTail(s: string)
    requires s != [] && NoNoise(s)
    ensures NoNoise(s[1..])
  {
    forall i | 0 <= i < |s[1..]| ensures NoiseMatch(s[1..][i..]) == 0 {
      assert s[1..][i..] == s[i + 1..];
    }
  }

  /**
   * Every noise match, left to right, becomes one space; no word boundaries are
   * required. The text never grows.
   */
  function StripNoise(s: string): (r: string)
    ensures |r| <= |s|
    decreases |s|
  {
    if s == [] then []
    else
      var k := NoiseMatch(s);
      if k > 0 then " " + StripNoise(s[k..])
      else [s[0]] + StripNoise(s[1..])
  }

  /** Text in which no noise word starts is left as it is. */
  lemma {:induction false} StripNoiseKeeps(s: string)
    requires NoNoise(s)
    ensures StripNoise(s) == s
    decreases |s|
  {
    if s != [] {
      assert s[0..] == s;
      NoNoiseTail(s);
      StripNoiseKeeps(s[1..]);
      assert s == [s[0]] + s[1..];
    }
  }

  /** The punctuation class `[,:.;@()\[\]{}|/\\]`. */
  predicate IsPunct(c: char) {
    c in {',', ':', '.', ';', '@', '(', ')', '[', ']', '{', '}', '|', '/', '\\'}
  }

  function BlankPunct(s: string): (r: string)
    ensures |r| == |s|
    ensures forall i :: 0 <= i < |s| ==> r[i] == if IsPunct(s[i]) then ' ' else s[i]
    ensures NoPunct(r)
  {
    if s == [] then [] else [if IsPunct(s[0]) then ' ' else s[0]] + BlankPunct(s[1..])
  }

  /** Every run of white space (`\s+`) becomes one plain space. */
  function CollapseSpaces(s: string): (r: string)
    decreases |s|
    ensures |r| <= |s|
    ensures s == [] <==> r == []
    ensures s != [] ==> r[0] == if IsSpace(s[0]) then ' ' else s[0]
  {
    if s == [] then []
    else if IsSpace(s[0]) then " " + CollapseSpaces(TrimStart(s[1..]))
    else [s[0]] + CollapseSpaces(s[1..])
  }

  /**
   * The cleaned message, called `upper` in `parseSequence`: words separated by single
   * spaces, with no punctuation and nothing at either end, and never longer than the
   * message.
   */
  function Clean(message: string): (r: string)
    ensures Tidy(r)
    ensures |r| <= |message|
  {
    var b := BlankPunct(StripNoise(StripSitting(Upper(message))));
    CollapseShape(b);
    TrimShape(CollapseSpaces(b));
    Trim(CollapseSpaces(b))
  }

  /** `upper.split(' ')`: never empty, even for the empty text. */
  function Tokenize(c: string): (r: seq<string>)
    ensures |r| >= 1
  {
    Split(c, {' '})
  }

  /** The tokens, joined again by single spaces, give the text back. */
  lemma TokenizeJoin(c: string)
    ensures Join(Tokenize(c), " ") == c
  {
    SplitJoin(c, ' ');
  }

  /** The cap-bounded tail `a, a + 1, ..., 5000` of `a ONWARDS`. */
  function Onwards(a: int): (r: seq<int>)
    ensures |r| == if a <= OnwardsCap then OnwardsCap - a + 1 else 0
    ensures forall k :: 0 <= k < |r| ==> r[k] == a + k && r[k] <= OnwardsCap
  {
    Up(a, OnwardsCap)
  }

  /** The inclusive walk from `a` to `c` of `a TO c`, stepping +1 or -1. */
  function Walk(a: int, c: int): (r: seq<int>)
    ensures |r| == (if a <= c then c - a else a - c) + 1
    ensures r[0] == a && r[|r| - 1] == c
    ensures forall k :: 0 <= k < |r| ==> Min(a, c) <= r[k] <= Max(a, c)
    ensures a <= c ==> forall k :: 0 <= k < |r| ==> r[k] == a + k
    ensures c < a ==> forall k :: 0 <= k < |r| ==> r[k] == a - k
  {
    if a <= c then Up(a, c) else Down(a, c)
  }

  /** The numbers the scan emits, before de-duplication. */
  function Expand(ts: seq<string>): (r: seq<int>)
    decreases |ts|
  {
    if ts == [] then []
    else if IsDigits(ts[0]) && |ts| > 1 && ts[1] == "ONWARDS" then
      Onwards(DigitsValue(ts[0])) + Expand(ts[2..])
    else if IsDigits(ts[0]) && |ts| > 2 && ts[1] == "TO" && IsDigits(ts[2]) then
      Walk(DigitsValue(ts[0]), DigitsValue(ts[2])) + Expand(ts[3..])
    else if IsDigits(ts[0]) then
      [DigitsValue(ts[0]) as int] + Expand(ts[1..])
    else
      Expand(ts[1..])
  }

  /** None of the numbers the scan emits is negative. */
  lemma {:induction false} ExpandNonNegative(ts: seq<string>)
    ensures NonNegative(Expand(ts))
    decreases |ts|
  {
    if ts == [] {
    } else if IsDigits(ts[0]) && |ts| > 1 && ts[1] == "ONWARDS" {
      ExpandNonNegative(ts[2..]);
      NonNegativeAppend(Onwards(DigitsValue(ts[0])), Expand(ts[2..]));
    } else if IsDigits(ts[0]) && |ts| > 2 && ts[1] == "TO" && IsDigits(ts[2]) {
      ExpandNonNegative(ts[3..]);
      NonNegativeAppend(Walk(DigitsValue(ts[0]), DigitsValue(ts[2])), Expand(ts[3..]));
    } else if IsDigits(ts[0]) {
      ExpandNonNegative(ts[1..]);
      NonNegativeAppend([DigitsValue(ts[0]) as int], Expand(ts[1..]));
    } else {
      ExpandNonNegative(ts[1..]);
    }
  }

  /** The numbers a message announces, before de-duplication: none when the cleaned message is empty, none negative. */
  function Emitted(message: string): (r: seq<int>)
    ensures Clean(message) == [] ==> r == []
    ensures NonNegative(r)
  {
    assert Clean(message) == [] ==> Tokenize(Clean(message)) == [[]];
    ExpandNonNegative(Tokenize(Clean(message)));
    Expand(Tokenize(Clean(message)))
  }

  /**
   * `parseSequence`: the announced numbers, each once, in the order of first mention.
   */
  function Parse(message: string): (r: seq<int>)
    ensures NoDuplicates(r)
    ensures forall x :: x in r <==> x in Emitted(message)
    ensures forall i, j :: 0 <= i < j < |r| ==> IndexOf(Emitted(message), r[i]) < IndexOf(Emitted(message), r[j])
  {
    var c := Clean(message);
    if c == [] then []
    else
      DedupFirstSeenOrder(Emitted(message));
      Dedup(Emitted(message))
  }

  /** The inner loop of `a ONWARDS`: push `a`, `a + 1`, ... up to the cap. */
  method PushOnwards(out: seq<int>, start: int) returns (r: seq<int>)
    ensures r == out + Onwards(start)
  {
    r := out;
    var v := start;
    while v <= OnwardsCap
      invariant start <= v
      invariant r + Up(v, OnwardsCap) == out + Up(start, OnwardsCap)
      decreases OnwardsCap + 1 - v
    {
      r := r + [v];
      v := v + 1;
    }
  }

  /** The inner loop of `a TO c`: push from `start` to `end` inclusive, one step at a time. */
  method PushWalk(out: seq<int>, start: int, end: int) returns (r: seq<int>)
    ensures r == out + Walk(start, end)
  {
    r := out;
    var step := if start <= end then 1 else -1;
    var v := start;
    while v != end + step
      invariant step == 1 ==> start <= v <= end + 1 && r + Up(v, end) == out + Up(start, end)
      invariant step == -1 ==> end - 1 <= v <= start && r + Down(v, end) == out + Down(start, end)
      decreases if step == 1 then end + 1 - v else v - end + 1
    {
      r := r + [v];
      v := v + step;
    }
  }

  /** The scan over the tokens: the source's index-driven loop that pushes into `out`. */
  method ScanTokens(tokens: seq<string>) returns (out: seq<int>)
    ensures out == Expand(tokens)
  {
    out := [];
    var i := 0;
    while i < |tokens|
      invariant 0 <= i <= |tokens|
      invariant out + Expand(tokens[i..]) == Expand(tokens)
    {
      ExpandAt(tokens, i);
      var a := tokens[i];
      if IsDigits(a) && i + 1 < |tokens| && tokens[i + 1] == "ONWARDS" {
        AppendAssoc(out, Onwards(DigitsValue(a)), Expand(tokens[i + 2..]));
        out := PushOnwards(out, DigitsValue(a));
        i := i + 2;
      } else if IsDigits(a) && i + 2 < |tokens| && tokens[i + 1] == "TO" && IsDigits(tokens[i + 2]) {
        AppendAssoc(out, Walk(DigitsValue(a), DigitsValue(tokens[i + 2])), Expand(tokens[i + 3..]));
        out := PushWalk(out, DigitsValue(a), DigitsValue(tokens[i + 2]));
        i := i + 3;
      } else if IsDigits(a) {
        AppendAssoc(out, [DigitsValue(a) as int], Expand(tokens[i + 1..]));
        out := out + [DigitsValue(a) as int];
        i := i + 1;
      } else {
        i := i + 1;
      }
    }
  }

  /** `Expand` on the tokens from position `i`, unfolded once. */
  lemma ExpandAt(ts: seq<string>, i: int)
    requires 0 <= i < |ts|
    ensures Expand(ts[i..]) ==
      if IsDigits(ts[i]) && i + 1 < |ts| && ts[i + 1] == "ONWARDS" then
        Onwards(DigitsValue(ts[i])) + Expand(ts[i + 2..])
      else if IsDigits(ts[i]) && i + 2 < |ts| && ts[i + 1] == "TO" && IsDigits(ts[i + 2]) then
        Walk(DigitsValue(ts[i]), DigitsValue(ts[i + 2])) + Expand(ts[i + 3..])
      else if IsDigits(ts[i]) then
        [DigitsValue(ts[i]) as int] + Expand(ts[i + 1..])
      else
        Expand(ts[i + 1..])
  {
    var rest := ts[i..];
    assert rest[0] == ts[i];
    assert rest[1..] == ts[i + 1..];
    if i + 1 < |ts| {
      assert rest[1] == ts[i + 1] && rest[2..] == ts[i + 2..];
    }
    if i + 2 < |ts| {
      assert rest[2] == ts[i + 2] && rest[3..] == ts[i + 3..];
    }
  }

  /** The `seen`-set filter that keeps the first occurrence of each number. */
  method DedupFirst(xs: seq<int>) returns (r: seq<int>)
    ensures r == Dedup(xs)
  {
    var seen: set<int> := {};
    r := [];
    for i := 0 to |xs|
      invariant r == Dedup(xs[..i])
      invariant forall x :: x in seen <==> x in xs[..i]
    {
      assert xs[..i + 1] == xs[..i] + [xs[i]];
      DedupStep(xs[..i], xs[i]);
      if xs[i] !in seen {
        seen := seen + {xs[i]};
        r := r + [xs[i]];
      }
    }
    assert xs[..|xs|] == xs;
  }

  /** `parseSequence(message)`. */
  method ParseSequence(message: string) returns (r: seq<int>)
    ensures r == Parse(message)
  {
    var upper := Clean(message);
    if upper == [] {
      return [];
    }
    var tokens := Tokenize(upper);
    var out := ScanTokens(tokens);
    r := DedupFirst(out);
  }

  // ---------------------------------------------------------------------------
  // Properties of the scan

  /** Tokens none of which is all digits (stray TO, ONWARDS, words) produce nothing. */
  lemma {:induction false} ExpandNoNumbers(ts: seq<string>)
    requires forall k :: 0 <= k < |ts| ==> !IsDigits(ts[k])
    ensures Expand(ts) == []
  {
    if ts != [] {
      ExpandNoNumbers(ts[1..]);
    }
  }

  predicate NonNegative(s: seq<int>) {
    forall k :: 0 <= k < |s| ==> s[k] >= 0
  }

  lemma NonNegativeAppend(a: seq<int>, b: seq<int>)
    requires NonNegative(a) && NonNegative(b)
    ensures NonNegative(a + b)
  {
    forall k | |a| <= k < |a + b| ensures (a + b)[k] >= 0 {
      assert (a + b)[k] == b[k - |a|];
    }
  }

  lemma InAppend(x: int, a: seq<int>, b: seq<int>)
    ensures x in a ==> x in a + b
    ensures x in b ==> x in a + b
  {
    if x in b {
      var i :| 0 <= i < |b| && b[i] == x;
      assert (a + b)[|a| + i] == x;
    }
    if x in a {
      var i :| 0 <= i < |a| && a[i] == x;
      assert (a + b)[i] == x;
    }
  }

  /**
   * No number the operator typed is lost: every all-digit token's value is emitted,
   * except the start of an `n ONWARDS` with `n` above the cap.
   */
  lemma {:induction false} ExpandKeepsNumbers(ts: seq<string>, k: nat)
    requires k < |ts| && IsDigits(ts[k])
    requires !(k + 1 < |ts| && ts[k + 1] == "ONWARDS" && DigitsValue(ts[k]) > OnwardsCap)
    ensures DigitsValue(ts[k]) as int in Expand(ts)
  {
    var v := DigitsValue(ts[k]) as int;
    assert !IsDigits("ONWARDS") && !IsDigits("TO") by {
      assert !IsDigit("ONWARDS"[0]) && !IsDigit("TO"[0]);
    }
    if IsDigits(ts[0]) && |ts| > 1 && ts[1] == "ONWARDS" {
      var o := Onwards(DigitsValue(ts[0]));
      assert Expand(ts) == o + Expand(ts[2..]);
      if k == 0 {
        assert o[0] == v;
      } else {
        assert k >= 2 && ts[2..][k - 2] == ts[k];
        ExpandKeepsNumbers(ts[2..], k - 2);
      }
      InAppend(v, o, Expand(ts[2..]));
    } else if IsDigits(ts[0]) && |ts| > 2 && ts[1] == "TO" && IsDigits(ts[2]) {
      var w := Walk(DigitsValue(ts[0]), DigitsValue(ts[2]));
      assert Expand(ts) == w + Expand(ts[3..]);
      if k == 0 {
        assert w[0] == v;
      } else if k == 2 {
        assert w[|w| - 1] == v;
      } else {
        assert k >= 3 && ts[3..][k - 3] == ts[k];
        ExpandKeepsNumbers(ts[3..], k - 3);
      }
      InAppend(v, w, Expand(ts[3..]));
    } else if IsDigits(ts[0]) {
      assert Expand(ts) == [DigitsValue(ts[0]) as int] + Expand(ts[1..]);
      if k > 0 {
        assert ts[1..][k - 1] == ts[k];
        ExpandKeepsNumbers(ts[1..], k - 1);
      }
      InAppend(v, [DigitsValue(ts[0]) as int], Expand(ts[1..]));
    } else {
      assert k > 0 && ts[1..][k - 1] == ts[k];
      ExpandKeepsNumbers(ts[1..], k - 1);
    }
  }

  /** `parseSequence("5 TO 1")` walks down; the scan gives `[5, 4, 3, 2, 1]`. */
  lemma DescendingRangeExample()
    ensures Expand(["5", "TO", "1"]) == [5, 4, 3, 2, 1]
  {
    assert IsDigits("5") && IsDigits("1");
    assert DigitsValue("5") == 5 && DigitsValue("1") == 1;
    var w := Walk(5, 1);
    assert |w| == 5 && w[0] == 5 && w[1] == 4 && w[2] == 3 && w[3] == 2 && w[4] == 1;
  }

  // ---------------------------------------------------------------------------
  // Properties of the whole parser

  /** A message whose tokens hold no all-digit token (e.g. only words) yields `[]`. */
  lemma ParseWordsOnly(message: string)
    requires forall k :: 0 <= k < |Tokenize(Clean(message))| ==> !IsDigits(Tokenize(Clean(message))[k])
    ensures Parse(message) == []
  {
    ExpandNoNumbers(Tokenize(Clean(message)));
  }

  /** The empty message yields `[]`. */
  lemma ParseEmpty()
    ensures Parse("") == []
  {
    assert Clean("") == [];
  }

  /** Every item number of the result is non-negative. */
  lemma ParseNonNegative(message: string)
    ensures forall x :: x in Parse(message) ==> x >= 0
  {
    var e := Emitted(message);
    forall x | x in Parse(message) ensures x >= 0 {
      var i :| 0 <= i < |e| && e[i] == x;
    }
  }

  /** Every all-digit token of the cleaned message appears in the result (bar an over-cap ONWARDS start). */
  lemma ParseKeepsNumbers(message: string, k: nat)
    requires k < |Tokenize(Clean(message))| && IsDigits(Tokenize(Clean(message))[k])
    requires var ts := Tokenize(Clean(message));
      !(k + 1 < |ts| && ts[k + 1] == "ONWARDS" && DigitsValue(ts[k]) > OnwardsCap)
    ensures DigitsValue(Tokenize(Clean(message))[k]) as int in Parse(message)
  {
    ExpandKeepsNumbers(Tokenize(Clean(message)), k);
  }

  // ---------------------------------------------------------------------------
  // Properties of the cleaning step

  /** Whatever `StripNoise` copies through unchanged is a character at which no noise word starts. */
  lemma StripNoiseHead(t: string)
    requires StripNoise(t) != [] && StripNoise(t)[0] != ' '
    ensures t != [] && NoiseMatch(t) == 0 && StripNoise(t)[0] == t[0]
    ensures StripNoise(t)[1..] == StripNoise(t[1..])
  {
  }

  /** An `AND` starts at position `i` of `r`. */
  predicate AndAt(r: string, i: nat) {
    i + 3 <= |r| && r[i] == 'A' && r[i + 1] == 'N' && r[i + 2] == 'D'
  }

  /** `AND` never survives the noise stripping, not even inside another word. */
  lemma {:induction false} NoAndSurvives(s: string)
    ensures forall i: nat :: !AndAt(StripNoise(s), i)
  {
    if s != [] {
      var k := NoiseMatch(s);
      var r := StripNoise(s);
      if k > 0 {
        var rest := StripNoise(s[k..]);
        NoAndSurvives(s[k..]);
        assert r == " " + rest;
        forall i: nat | 0 < i ensures !AndAt(r, i) {
          assert AndAt(r, i) ==> AndAt(rest, i - 1);
        }
      } else {
        var rest := StripNoise(s[1..]);
        NoAndSurvives(s[1..]);
        assert r == [s[0]] + rest;
        forall i: nat | 0 < i ensures !AndAt(r, i) {
          assert AndAt(r, i) ==> AndAt(rest, i - 1);
        }
        if AndAt(r, 0) {
          assert s[0] == 'A' && rest[0] == 'N' && rest[1] == 'D';
          StripNoiseHead(s[1..]);
          assert s[1] == 'N';
          assert rest[1..] == StripNoise(s[2..]) by {
            assert s[1..][1..] == s[2..];
          }
          StripNoiseHead(s[2..]);
          assert false;
        }
      }
    }
  }

  /** One step of `StripNoise` where no noise word starts: the first character is copied. */
  lemma StripNoiseCopies(s: string)
    requires s != [] && NoiseMatch(s) == 0
    ensures StripNoise(s) == [s[0]] + StripNoise(s[1..])
  {
  }

  /** One step of `StripNoise` where a noise word of length `k` starts: it becomes one space. */
  lemma StripNoiseBlanks(s: string, k: nat)
    requires s != [] && NoiseMatch(s) == k && k > 0
    ensures StripNoise(s) == " " + StripNoise(s[k..])
  {
  }

  /** No noise word starts at any of the first `j` positions of `s`. */
  predicate PlainUntil(s: string, j: nat) {
    forall i :: 0 <= i < j && i < |s| ==> NoiseMatch(s[i..]) == 0
  }

  lemma PlainUntilTail(s: string, j: nat)
    requires s != [] && j > 0 && PlainUntil(s, j)
    ensures NoiseMatch(s) == 0 && PlainUntil(s[1..], j - 1)
  {
    assert s[0..] == s;
    forall i | 0 <= i < j - 1 && i < |s[1..]| ensures NoiseMatch(s[1..][i..]) == 0 {
      assert s[1..][i..] == s[i + 1..];
    }
  }

  /** Cutting `s` at `j` after its first character. */
  lemma SliceCons(s: string, j: nat)
    requires 0 < j <= |s|
    ensures s[..j] == [s[0]] + s[1..][..j - 1] && s[1..][j - 1..] == s[j..]
  {
  }

  /** `a` is `x` then `h` then `r`, when `b` is `h + r` and `p` is `x` then `h`. */
  lemma ConsRegroup(x: char, h: string, r: string, a: string, b: string, p: string)
    requires a == [x] + b && b == h + r && p == [x] + h
    ensures a == p + r
  {
  }

  /** The first `j` characters, at which no noise word starts, are copied. */
  lemma {:induction false} StripNoiseCopiesPrefix(s: string, j: nat)
    requires j <= |s| && PlainUntil(s, j)
    ensures StripNoise(s) == s[..j] + StripNoise(s[j..])
    decreases j
  {
    if j == 0 {
      assert s[0..] == s;
    } else {
      var t := s[1..];
      PlainUntilTail(s, j);
      StripNoiseCopies(s);
      StripNoiseCopiesPrefix(t, j - 1);
      SliceCons(s, j);
      ConsRegroup(s[0], t[..j - 1], StripNoise(s[j..]), StripNoise(s), StripNoise(t), s[..j]);
    }
  }

  /**
   * A noise word `w` met after text `x` in which no match starts becomes one space,
   * and the text before it is kept.
   */
  lemma StripNoiseAfterPlain(x: string, w: string, y: string)
    requires PlainUntil(x + w + y, |x|)
    requires w != [] && NoiseMatch(w + y) == |w|
    ensures StripNoise(x + w + y) == x + " " + StripNoise(y)
  {
    var s := x + w + y;
    assert s[|x|..] == w + y;
    StripNoiseCopiesPrefix(s, |x|);
    StripNoiseBlanks(w + y, |w|);
    assert s[..|x|] == x;
    assert (w + y)[|w|..] == y;
  }

  /** No noise word starts at a digit or a space, whatever follows. */
  lemma SpacedDigitsPlain(x: string, rest: string)
    requires forall i :: 0 <= i < |x| ==> IsDigit(x[i]) || x[i] == ' '
    ensures PlainUntil(x + rest, |x|)
  {
    forall i | 0 <= i < |x| ensures NoiseMatch((x + rest)[i..]) == 0 {
      assert (x + rest)[i..][0] == x[i];
      NoiseMatchNone((x + rest)[i..]);
    }
  }

  /** `THEN` followed by a space is matched as `THEN`, not as the longer `THEREAFTER`. */
  lemma ThenMatch(y: string)
    requires y != [] && y[0] == ' '
    ensures NoiseMatch("THEN" + y) == 4
  {
    var s := "THEN" + y;
    assert "THEN" <= s && s[0] == 'T' && s[3] == 'N';
  }

  /** How the pieces of `a THEN b` line up, before and after the noise word is blanked. */
  lemma ThenLayout(a: string, b: string, r: string, t: string)
    requires r == (a + " ") + " " + t && t == " " + b
    ensures (a + " ") + "THEN" + (" " + b) == a + " THEN " + b
    ensures r == a + "   " + b
  {
  }

  /** `THEN` between two numbers, as in "5 THEN 6", becomes a space; the numbers stay. */
  lemma ThenBetweenNumbers(a: string, b: string)
    requires IsDigits(a) && IsDigits(b)
    ensures StripNoise(a + " THEN " + b) == a + "   " + b
  {
    var x, w, y := a + " ", "THEN", " " + b;
    SpacedDigitsPlain(x, w + y);
    AppendAssoc(x, w, y);
    ThenMatch(y);
    StripNoiseAfterPlain(x, w, y);
    SpacedDigitsPlain(y, []);
    assert y + [] == y;
    StripNoiseKeeps(y);
    ThenLayout(a, b, StripNoise(x + w + y), StripNoise(y));
  }

  /** `AND` is removed inside a word too: "BRAND" keeps only "BR". */
  lemma AndInsideWordExample()
    ensures StripNoise("BRAND") == "BR "
  {
    assert NoiseMatch("BRAND") == 0;
    assert NoiseMatch("RAND") == 0;
    assert NoiseMatch("AND") == 3;
    assert "AND"[3..] == [];
    assert "BRAND"[1..] == "RAND" && "RAND"[1..] == "AND";
  }

  predicate SpacesPlain(s: string) { forall i :: 0 <= i < |s| ==> IsSpace(s[i]) ==> s[i] == ' ' }

  predicate NoPunct(s: string) { forall i :: 0 <= i < |s| ==> !IsPunct(s[i]) }

  predicate SingleSpaced(s: string) { forall i :: 0 <= i < |s| - 1 ==> !(IsSpace(s[i]) && IsSpace(s[i + 1])) }

  /** The shape of a cleaned message: words of non-blank, non-punctuation characters separated by single spaces. */
  predicate Tidy(s: string) {
    SpacesPlain(s) && NoPunct(s) && SingleSpaced(s) && NoLeadingSpace(s) && NoTrailingSpace(s)
  }

  /** A token: at least one character, none of them white space or punctuation. */
  predicate Word(t: string) {
    t != [] && forall i :: 0 <= i < |t| ==> !IsSpace(t[i]) && !IsPunct(t[i])
  }

  lemma {:induction false} CollapseShape(s: string)
    requires NoPunct(s)
    ensures var r := CollapseSpaces(s); SpacesPlain(r) && NoPunct(r) && SingleSpaced(r)
    decreases |s|
  {
    if s != [] {
      var r := CollapseSpaces(s);
      if IsSpace(s[0]) {
        var t := TrimStart(s[1..]);
        assert NoPunct(t) by {
          assert t == s[1..][|s[1..]| - |t|..];
          forall i | 0 <= i < |t| ensures !IsPunct(t[i]) {
            assert t[i] == s[1 + |s[1..]| - |t| + i];
          }
        }
        CollapseShape(t);
        var c := CollapseSpaces(t);
        assert r == " " + c;
        assert c != [] ==> !IsSpace(c[0]);
        assert !IsPunct(' ');
      } else {
        CollapseShape(s[1..]);
        var c := CollapseSpaces(s[1..]);
        assert r == [s[0]] + c;
      }
    }
  }

  lemma SliceShape(x: string, a: nat, b: nat)
    requires a <= b <= |x|
    requires SpacesPlain(x) && NoPunct(x) && SingleSpaced(x)
    ensures var y := x[a..b]; SpacesPlain(y) && NoPunct(y) && SingleSpaced(y)
  {
    var y := x[a..b];
    assert forall i :: 0 <= i < |y| ==> y[i] == x[a + i];
  }

  lemma TrimShape(x: string)
    requires SpacesPlain(x) && NoPunct(x) && SingleSpaced(x)
    ensures Tidy(Trim(x))
  {
    var t := TrimStart(x);
    SliceShape(x, |x| - |t|, |x|);
    var r := TrimEnd(t);
    SliceShape(t, 0, |r|);
    assert r == Trim(x);
  }

  /** Splitting a tidy, non-empty string on spaces gives words only. */
  lemma {:induction false} SplitTidy(s: string)
    requires s != [] && Tidy(s)
    ensures forall k :: 0 <= k < |Tokenize(s)| ==> Word(Tokenize(s)[k])
    decreases |s|
  {
    var r := Tokenize(s);
    var rest := Tokenize(s[1..]);
    assert !IsSpace(s[0]) && !IsPunct(s[0]);
    if |s| == 1 {
      assert rest == [[]];
    } else if s[1] == ' ' {
      assert |s| >= 3 && !IsSpace(s[2]);
      assert s[1..][1..] == s[2..];
      assert rest == [[]] + Tokenize(s[2..]);
      SplitTidy(s[2..]);
      assert rest[0] == [] && rest[1..] == Tokenize(s[2..]);
      assert r == [[s[0]] + rest[0]] + rest[1..];
      assert [s[0]] + rest[0] == [s[0]];
    } else {
      SplitTidy(s[1..]);
      assert r == [[s[0]] + rest[0]] + rest[1..];
    }
  }

  /** The scanner only ever sees words: non-empty tokens without white space or punctuation. */
  lemma TokensAreWords(message: string)
    requires Clean(message) != []
    ensures forall k :: 0 <= k < |Tokenize(Clean(message))| ==> Word(Tokenize(Clean(message))[k])
  {
    SplitTidy(Clean(message));
  }

  // ---------------------------------------------------------------------------
  // What the cleaning keeps

  /** Characters that are not white space are copied through one by one. */
  lemma {:induction false} CollapseWord(x: string, y: string)
    requires forall i :: 0 <= i < |x| ==> !IsSpace(x[i])
    ensures CollapseSpaces(x + y) == x + CollapseSpaces(y)
  {
    if x == [] {
      assert x + y == y;
    } else {
      var s := x + y;
      assert s[0] == x[0] && s[1..] == x[1..] + y;
      CollapseWord(x[1..], y);
      assert x == [x[0]] + x[1..];
    }
  }

  /** A run of white space, however long and of whatever kind, becomes a single plain space. */
  lemma CollapseRun(w: string, y: string)
    requires w != [] && forall i :: 0 <= i < |w| ==> IsSpace(w[i])
    requires NoLeadingSpace(y)
    ensures CollapseSpaces(w + y) == " " + CollapseSpaces(y)
  {
    var s := w + y;
    assert s[0] == w[0] && s[1..] == w[1..] + y;
    TrimStartPast(w[1..], y);
  }

  /** Text that already has single plain spaces only is left as it is. */
  lemma {:induction false} CollapseKeeps(s: string)
    requires SpacesPlain(s) && SingleSpaced(s)
    ensures CollapseSpaces(s) == s
    decreases |s|
  {
    if s != [] {
      assert forall i :: 0 <= i < |s| - 1 ==> s[1..][i] == s[i + 1];
      CollapseKeeps(s[1..]);
      if IsSpace(s[0]) {
        assert NoLeadingSpace(s[1..]);
        TrimStartKeeps(s[1..]);
        assert s == " " + s[1..];
      } else {
        assert s == [s[0]] + s[1..];
      }
    }
  }

  /**
   * A message that is already clean comes through the cleaning unchanged: upper-case,
   * single-spaced and trimmed, with no punctuation, noise word or sitting phrase.
   */
  lemma CleanFixed(m: string)
    requires forall i :: 0 <= i < |m| ==> !('a' <= m[i] <= 'z')
    requires NoSitting(m) && NoNoise(m) && Tidy(m)
    ensures Clean(m) == m
  {
    assert Upper(m) == m;
    StripSittingKeeps(m);
    StripNoiseKeeps(m);
    assert BlankPunct(m) == m;
    CollapseKeeps(m);
  }

  /** The characters of `a TO b`: the digits of `a`, a space, `T`, `O`, a space, the digits of `b`. */
  lemma RangeChars(a: string, b: string, i: int)
    requires IsDigits(a) && IsDigits(b) && 0 <= i < |a| + 4 + |b|
    ensures var m := a + " TO " + b;
      if i < |a| then IsDigit(m[i])
      else if i == |a| || i == |a| + 3 then m[i] == ' '
      else if i == |a| + 1 then m[i] == 'T' && m[i + 1] == 'O'
      else if i == |a| + 2 then m[i] == 'O'
      else IsDigit(m[i])
  {
    var m := a + " TO " + b;
    if i < |a| {
      assert m[i] == a[i];
    } else if i >= |a| + 4 {
      assert m[i] == b[i - |a| - 4];
    }
  }

  /** A range `a TO b` of two digit strings is already clean. */
  lemma RangeClean(a: string, b: string)
    requires IsDigits(a) && IsDigits(b)
    ensures Clean(a + " TO " + b) == a + " TO " + b
  {
    var m := a + " TO " + b;
    forall i | 0 <= i < |m| ensures !('a' <= m[i] <= 'z') && !IsPunct(m[i]) && (IsSpace(m[i]) ==> m[i] == ' ') {
      RangeChars(a, b, i);
    }
    assert NoSitting(m) by {
      forall i | 0 <= i <= |m| ensures !(SittingPhrase <= m[i..]) {
        if i < |m| {
          RangeChars(a, b, i);
          assert m[i..][0] == m[i];
        }
      }
    }
    assert NoNoise(m) by {
      forall i | 0 <= i < |m| ensures NoiseMatch(m[i..]) == 0 {
        RangeChars(a, b, i);
        assert m[i..][0] == m[i];
        if i == |a| + 1 {
          assert m[i..][1] == m[i + 1];
        }
        NoiseMatchNone(m[i..]);
      }
    }
    assert SingleSpaced(m) by {
      forall i | 0 <= i < |m| - 1 ensures !(IsSpace(m[i]) && IsSpace(m[i + 1])) {
        RangeChars(a, b, i);
        RangeChars(a, b, i + 1);
      }
    }
    RangeChars(a, b, 0);
    RangeChars(a, b, |m| - 1);
    assert Tidy(m);
    CleanFixed(m);
  }

  /** `a TO b` splits into its three tokens. */
  lemma RangeTokens(a: string, b: string)
    requires IsDigits(a) && IsDigits(b)
    ensures Tokenize(a + " TO " + b) == [a, "TO", b]
  {
    assert Avoids(a, {' '}) && Avoids("TO", {' '}) && Avoids(b, {' '}) by {
      assert forall i :: 0 <= i < |a| ==> IsDigit(a[i]);
      assert forall i :: 0 <= i < |b| ==> IsDigit(b[i]);
    }
    SplitNoSep(b, {' '});
    SplitAtSep("TO", ' ', b, {' '});
    SplitAtSep(a, ' ', "TO" + " " + b, {' '});
    assert a + " " + ("TO" + " " + b) == a + " TO " + b;
  }

  /** The walk visits every number between its ends once. */
  lemma WalkDistinct(a: int, c: int)
    ensures NoDuplicates(Walk(a, c))
  {
    var w := Walk(a, c);
    forall i, j | 0 <= i < j < |w| ensures w[i] != w[j] {
      if a <= c {
        assert w[i] == a + i && w[j] == a + j;
      } else {
        assert w[i] == a - i && w[j] == a - j;
      }
    }
  }

  /** The tokens `a TO b` expand to the walk and nothing else. */
  lemma ExpandRange(a: string, b: string)
    requires IsDigits(a) && IsDigits(b)
    ensures Expand([a, "TO", b]) == Walk(DigitsValue(a), DigitsValue(b))
  {
    var ts := [a, "TO", b];
    assert ts[1] != "ONWARDS" && ts[3..] == [];
    assert Expand(ts) == Walk(DigitsValue(a), DigitsValue(b)) + Expand([]);
  }

  /** `parseSequence("a TO b")` for two digit strings is the walk from `a` to `b`, either way. */
  lemma ParseRange(a: string, b: string)
    requires IsDigits(a) && IsDigits(b)
    ensures Parse(a + " TO " + b) == Walk(DigitsValue(a), DigitsValue(b))
  {
    RangeClean(a, b);
    RangeTokens(a, b);
    ExpandRange(a, b);
    WalkDistinct(DigitsValue(a), DigitsValue(b));
    ParseByTokens(a + " TO " + b, [a, "TO", b]);
  }

  /** The cleaned text of `m`, cut into the tokens `ts`, announces `Expand(ts)` when no number repeats. */
  lemma ParseByTokens(m: string, ts: seq<string>)
    requires Clean(m) != [] && Tokenize(Clean(m)) == ts
    requires NoDuplicates(Expand(ts))
    ensures Parse(m) == Expand(ts)
  {
    DedupKeeps(Expand(ts));
  }
}
