/**
 * The browser's reading of what the user types: the watch list ("C1/23, C12/5,
 * RC1/7", one matter per comma or line) and the alert threshold.
 */
module Matters {
  import opened Wrappers
  import opened Strings

  /** One watched matter: the key of its court on the board and the item number. */
  datatype Matter = Matter(court: string, item: int)

  /** Entries of the watch list are separated by commas and line breaks. */
  const EntrySeparators: set<char> := {',', '\n'}

  /** The threshold used when the field is empty, zero or not a number. */
  const DefaultThreshold := 5

  /** The text a court key takes when the court part holds no number. */
  const NotANumber := "NaN"

  /** Drops one leading 'C' or 'c' (`/^C/i`): at most one character, and only that letter. */
  function DropCourtPrefix(c: string): (r: string)
    ensures |c| - 1 <= |r| <= |c| && r == c[|c| - |r|..]
    ensures |r| < |c| <==> c != [] && (c[0] == 'C' || c[0] == 'c')
  {
    if c != [] && (c[0] == 'C' || c[0] == 'c') then c[1..] else c
  }

  /** A key the board can hold: a registrar court, or an integer in its decimal form. */
  predicate IsCourtKey(c: string) {
    c == "RC1" || c == "RC2" || (ParseInt(c).Some? && c == IntToString(ParseInt(c).value))
  }

  /** A matter whose court is a key the board can hold, or "NaN". */
  predicate KnownCourt(m: Matter) {
    IsCourtKey(m.court) || m.court == NotANumber
  }

  /**
   * The key for the text before the '/': without its leading C and upper-cased,
   * RC1 and RC2 are kept, anything else is read by `parseInt` and written back in
   * decimal, or becomes "NaN" when it holds no number.
   */
  function CourtKey(c: string): (r: string)
    ensures IsCourtKey(r) || r == NotANumber
    ensures var u := Upper(DropCourtPrefix(c)); u == "RC1" || u == "RC2" ==> r == u
    ensures var u := Upper(DropCourtPrefix(c));
      r == NotANumber <==> u != "RC1" && u != "RC2" && ParseInt(u).None?
    ensures var u := Upper(DropCourtPrefix(c));
      u != "RC1" && u != "RC2" && ParseInt(u).Some? ==> ParseInt(r) == ParseInt(u)
  {
    var u := Upper(DropCourtPrefix(c));
    if u == "RC1" || u == "RC2" then u
    else
      match ParseInt(u)
      case None => NotANumber
      case Some(v) =>
        ParseIntRoundTrip(v);
        IntToString(v)
  }

  /**
   * One trimmed, non-empty entry: court and item on either side of the first '/'.
   * An entry with no '/' or whose item is not a number gives no matter.
   */
  function Entry(s: string): (r: Option<Matter>)
    ensures r.Some? ==> KnownCourt(r.value)
  {
    var parts := Split(s, {'/'});
    if |parts| < 2 then None
    else
      match ToNumber(Trim(parts[1]))
      case None => None
      case Some(i) => Some(Matter(CourtKey(Trim(parts[0])), i))
  }

  /** One piece of the list, trimmed: a blank piece or an entry that gives no matter is None. */
  function Read(piece: string): (r: Option<Matter>)
    ensures r.Some? ==> KnownCourt(r.value)
    ensures Trim(piece) == [] ==> r == None
    ensures Trim(piece) != [] ==> r == Entry(Trim(piece))
  {
    var s := Trim(piece);
    if s == [] then None else Entry(s)
  }

  /** Every piece read, in order. */
  function Reads(pieces: seq<string>): (r: seq<Option<Matter>>)
    ensures |r| == |pieces|
    ensures forall k :: 0 <= k < |pieces| ==> r[k] == Read(pieces[k])
  {
    if pieces == [] then [] else [Read(pieces[0])] + Reads(pieces[1..])
  }

  /** The matters of the pieces, in order, skipping blank pieces and entries that give none. */
  function Entries(pieces: seq<string>): (r: seq<Matter>)
    ensures |r| <= |pieces|
    ensures forall k :: 0 <= k < |r| ==> KnownCourt(r[k])
  {
    Somes(Reads(pieces))
  }

  /** The pieces of two lists read one after the other give the matters of the first, then those of the second. */
  lemma EntriesAppend(p: seq<string>, q: seq<string>)
    ensures Entries(p + q) == Entries(p) + Entries(q)
  {
    assert Reads(p + q) == Reads(p) + Reads(q);
    SomesAppend(Reads(p), Reads(q));
  }

  /** `parseMatters`: every matter read from the list names a court key the board can hold, or "NaN". */
  function ParseMatters(input: string): (r: seq<Matter>)
    ensures forall k :: 0 <= k < |r| ==> KnownCourt(r[k])
  {
    Entries(Split(input, EntrySeparators))
  }

  /** A list is read entry by entry: the matters of two lists joined by a comma are those of each, in order. */
  lemma ParseMattersAppend(a: string, b: string)
    ensures ParseMatters(a + "," + b) == ParseMatters(a) + ParseMatters(b)
  {
    assert a + "," + b == a + [','] + b;
    SplitAppend(a, ',', b, EntrySeparators);
    EntriesAppend(Split(a, EntrySeparators), Split(b, EntrySeparators));
  }

  /** A list of one entry watches that entry's matter, or nothing when the entry gives none. */
  lemma ParseMattersOne(s: string)
    requires Avoids(s, EntrySeparators)
    ensures ParseMatters(s) == if Read(s).Some? then [Read(s).value] else []
  {
    SplitNoSep(s, EntrySeparators);
    assert Reads([s]) == [Read(s)];
    SomesOne(Read(s));
  }

  /**
   * An entry is read from the text before its first '/' and the text up to the
   * next '/': the item must be a number or the entry is dropped, and the court is
   * the key of the trimmed court text. Anything after a second '/' is ignored.
   */
  lemma EntryParts(c: string, it: string, tail: string)
    requires '/' !in c && '/' !in it
    requires tail == [] || tail[0] == '/'
    ensures Entry(c + "/" + it + tail) ==
      if ToNumber(Trim(it)).None? then None else Some(Matter(CourtKey(Trim(c)), ToNumber(Trim(it)).value))
  {
    assert Avoids(c, {'/'}) && Avoids(it, {'/'});
    assert c + "/" + it + tail == c + ['/'] + (it + tail);
    SplitAtSep(c, '/', it + tail, {'/'});
    if tail == [] {
      assert it + tail == it;
      SplitNoSep(it, {'/'});
    } else {
      assert it + tail == it + ['/'] + tail[1..];
      SplitAtSep(it, '/', tail[1..], {'/'});
    }
    var parts := Split(c + "/" + it + tail, {'/'});
    assert parts[0] == c && parts[1] == it;
  }

  /** The registrar courts keep their names whatever their case and with or without a leading C. */
  lemma CourtKeyRegistrar()
    ensures CourtKey("RC1") == "RC1" && CourtKey("rc2") == "RC2" && CourtKey("cRc1") == "RC1"
  {
    assert DropCourtPrefix("RC1") == "RC1";
    assert Upper("RC1") == "RC1";
    assert DropCourtPrefix("rc2") == "rc2";
    assert Upper("rc2") == "RC2";
    assert DropCourtPrefix("cRc1") == "Rc1";
    assert Upper("Rc1") == "RC1";
  }

  /** A word that is not a registrar court gives "NaN" where `parseInt` finds no number. */
  lemma CourtKeyOfWord(c: string)
    requires var u := Upper(DropCourtPrefix(c)); u != "RC1" && u != "RC2"
    requires var u := Upper(DropCourtPrefix(c)); u != [] && 'A' <= u[0] <= 'Z'
    ensures CourtKey(c) == NotANumber
  {
    var u := Upper(DropCourtPrefix(c));
    assert !IsSpace(u[0]) && !OpensWithNumber(u);
    TrimStartKeeps(u);
    ParseIntDefined(u);
    assert ParseInt(u).None?;
  }

  /** For instance "RC3" and "X" name no court. */
  lemma CourtKeyWordExamples()
    ensures CourtKey("RC3") == NotANumber && CourtKey("X") == NotANumber
  {
    assert DropCourtPrefix("RC3") == "RC3";
    assert Upper("RC3") == "RC3";
    CourtKeyOfWord("RC3");
    assert DropCourtPrefix("X") == "X";
    assert Upper("X") == "X";
    CourtKeyOfWord("X");
  }

  /** How a matter is written in the watch list: "C<court>/<item>". */
  function Format(m: Matter): string {
    "C" + m.court + "/" + IntToString(m.item)
  }

  function Formats(ms: seq<Matter>): (r: seq<string>)
    ensures |r| == |ms|
    ensures forall k :: 0 <= k < |ms| ==> r[k] == Format(ms[k])
  {
    if ms == [] then [] else [Format(ms[0])] + Formats(ms[1..])
  }

  // ---------------------------------------------------------------------------
  // Round trip

  /** The characters a court key and an item number are written with. */
  predicate KeyChar(c: char) {
    IsDigit(c) || c == '-' || c == 'R' || c == 'C'
  }

  lemma IntToStringShape(i: int)
    ensures forall k :: 0 <= k < |IntToString(i)| ==> IsDigit(IntToString(i)[k]) || IntToString(i)[k] == '-'
    ensures IsDigit(IntToString(i)[|IntToString(i)| - 1])
  {
    if i < 0 {
      var n := NatToString(-i);
      assert IntToString(i) == "-" + n;
      assert forall k :: 1 <= k < |IntToString(i)| ==> IntToString(i)[k] == n[k - 1];
    }
  }

  lemma CourtKeyShape(c: string)
    requires IsCourtKey(c)
    ensures c != []
    ensures forall k :: 0 <= k < |c| ==> KeyChar(c[k])
    ensures !IsSpace(c[|c| - 1])
  {
    if c != "RC1" && c != "RC2" {
      var v := ParseInt(c).value;
      assert c == IntToString(v);
      IntToStringShape(v);
    }
  }

  lemma UpperKeeps(s: string)
    requires forall k :: 0 <= k < |s| ==> KeyChar(s[k])
    ensures Upper(s) == s
  {
  }

  lemma KeyCharPlain(ch: char)
    requires KeyChar(ch)
    ensures !IsSpace(ch) && ch != '/' && ch !in EntrySeparators
  {
  }

  /** How a formatted matter splits, and that it carries no separator and no surrounding white space. */
  lemma FormatShape(m: Matter)
    requires IsCourtKey(m.court)
    ensures Format(m) == Join(["C" + m.court, IntToString(m.item)], "/")
    ensures Avoids("C" + m.court, {'/'}) && Avoids(IntToString(m.item), {'/'})
    ensures Trim("C" + m.court) == "C" + m.court && Trim(IntToString(m.item)) == IntToString(m.item)
    ensures Trim(Format(m)) == Format(m) && Format(m) != []
    ensures Avoids(Format(m), EntrySeparators)
  {
    var c := "C" + m.court;
    var n := IntToString(m.item);
    assert [c, n][1..] == [n];
    CourtPartShape(m.court);
    ItemPartShape(m.item);
    FormatWhole(m);
  }

  lemma CourtPartShape(court: string)
    requires IsCourtKey(court)
    ensures Avoids("C" + court, {'/'}) && Trim("C" + court) == "C" + court
  {
    var c := "C" + court;
    CourtKeyShape(court);
    forall k | 0 <= k < |c| ensures c[k] != '/' {
      if k > 0 {
        assert c[k] == court[k - 1];
        KeyCharPlain(c[k]);
      }
    }
    assert c[|c| - 1] == court[|court| - 1];
    assert NoLeadingSpace(c) && NoTrailingSpace(c);
  }

  lemma ItemPartShape(i: int)
    ensures Avoids(IntToString(i), {'/'}) && Trim(IntToString(i)) == IntToString(i)
  {
    var n := IntToString(i);
    IntToStringShape(i);
    forall k | 0 <= k < |n| ensures n[k] != '/' {
      KeyCharPlain(n[k]);
    }
    KeyCharPlain(n[0]);
    assert NoLeadingSpace(n) && NoTrailingSpace(n);
  }

  lemma FormatWhole(m: Matter)
    requires IsCourtKey(m.court)
    ensures Trim(Format(m)) == Format(m) && Format(m) != []
    ensures Avoids(Format(m), EntrySeparators)
  {
    var n := IntToString(m.item);
    var f := Format(m);
    IntToStringShape(m.item);
    FormatChars(m);
    forall k | 0 <= k < |f| ensures f[k] !in EntrySeparators {
      if f[k] != '/' {
        KeyCharPlain(f[k]);
      }
    }
    assert f[0] == 'C';
    assert f[|f| - 1] == n[|n| - 1];
    assert NoLeadingSpace(f) && NoTrailingSpace(f);
  }

  /** Every character is a key character or the '/' between court and item. */
  predicate KeyOrSlash(s: string) {
    forall k :: 0 <= k < |s| ==> KeyChar(s[k]) || s[k] == '/'
  }

  lemma FormatChars(m: Matter)
    requires IsCourtKey(m.court)
    ensures KeyOrSlash(Format(m))
  {
    CourtKeyShape(m.court);
    IntToStringShape(m.item);
    var c, n := m.court, IntToString(m.item);
    assert KeyOrSlash("C") && KeyOrSlash("/") && KeyOrSlash(c) && KeyOrSlash(n);
    ConcatKeyOrSlash("C", c);
    ConcatKeyOrSlash("C" + c, "/");
    ConcatKeyOrSlash("C" + c + "/", n);
  }

  lemma ConcatKeyOrSlash(a: string, b: string)
    requires KeyOrSlash(a) && KeyOrSlash(b)
    ensures KeyOrSlash(a + b)
  {
    forall k | 0 <= k < |a + b| ensures KeyChar((a + b)[k]) || (a + b)[k] == '/' {
      if k >= |a| {
        assert (a + b)[k] == b[k - |a|];
      }
    }
  }

  /** A formatted matter is read back as itself. */
  lemma EntryOfFormat(m: Matter)
    requires IsCourtKey(m.court)
    ensures Trim(Format(m)) == Format(m) && Format(m) != []
    ensures Avoids(Format(m), EntrySeparators)
    ensures Entry(Format(m)) == Some(m)
  {
    var c := "C" + m.court;
    var n := IntToString(m.item);
    FormatShape(m);
    JoinSplit([c, n], '/', {'/'});
    assert Split(Format(m), {'/'}) == [c, n];
    CourtKeyOfItself(m.court);
    ToNumberRoundTrip(m.item);
  }

  /** A court key written after a 'C' is read back as itself. */
  lemma CourtKeyOfItself(c: string)
    requires IsCourtKey(c)
    ensures CourtKey("C" + c) == c
  {
    CourtKeyShape(c);
    assert DropCourtPrefix("C" + c) == c;
    UpperKeeps(c);
  }

  lemma EntriesOfFormats(ms: seq<Matter>)
    requires forall k :: 0 <= k < |ms| ==> IsCourtKey(ms[k].court)
    ensures Entries(Formats(ms)) == ms
  {
    var opts := Reads(Formats(ms));
    forall k | 0 <= k < |ms|
      ensures opts[k] == Some(ms[k])
    {
      EntryOfFormat(ms[k]);
    }
    SomesAll(opts, ms);
  }

  /** Writing matters out as "C<court>/<item>" joined by commas and reading the list back gives the same matters. */
  lemma ParseMattersRoundTrip(ms: seq<Matter>)
    requires forall k :: 0 <= k < |ms| ==> IsCourtKey(ms[k].court)
    ensures ParseMatters(Join(Formats(ms), ",")) == ms
  {
    if ms == [] {
      ParseMattersEmpty();
    } else {
      FormatsAvoid(ms);
      JoinSplit(Formats(ms), ',', EntrySeparators);
      EntriesOfFormats(ms);
    }
  }

  /** An empty list watches nothing. */
  lemma ParseMattersEmpty()
    ensures ParseMatters([]) == []
  {
    assert Split([], EntrySeparators) == [[]];
    assert Reads([[]]) == [None];
  }

  lemma FormatsAvoid(ms: seq<Matter>)
    requires forall k :: 0 <= k < |ms| ==> IsCourtKey(ms[k].court)
    ensures forall k :: 0 <= k < |ms| ==> Avoids(Formats(ms)[k], EntrySeparators)
  {
    forall k | 0 <= k < |ms| ensures Avoids(Formats(ms)[k], EntrySeparators) {
      EntryOfFormat(ms[k]);
    }
  }

  /**
   * Court numbers are compared by value: "C007", "c7", "07" and "7" all watch
   * court 7.
   */
  lemma CourtKeyOfNumber(d: string)
    requires IsDigits(d)
    ensures CourtKey(d) == NatToString(DigitsValue(d))
    ensures CourtKey("C" + d) == NatToString(DigitsValue(d))
    ensures CourtKey("c" + d) == NatToString(DigitsValue(d))
  {
    CourtKeyOfDigits(d);
    CourtKeyAfterPrefix('C', d);
    CourtKeyAfterPrefix('c', d);
  }

  /** A leading 'C' or 'c' in front of a court number is ignored. */
  lemma CourtKeyAfterPrefix(ch: char, d: string)
    requires (ch == 'C' || ch == 'c') && IsDigits(d)
    ensures CourtKey([ch] + d) == CourtKey(d)
  {
    assert ([ch] + d)[1..] == d;
    assert DropCourtPrefix([ch] + d) == d;
    assert DropCourtPrefix(d) == d by {
      assert IsDigit(d[0]);
    }
    CourtKeyByRest([ch] + d, d);
  }

  /** The key depends only on what follows the optional 'C'. */
  lemma CourtKeyByRest(a: string, b: string)
    requires DropCourtPrefix(a) == DropCourtPrefix(b)
    ensures CourtKey(a) == CourtKey(b)
  {
  }

  lemma CourtKeyOfDigits(d: string)
    requires IsDigits(d)
    ensures CourtKey(d) == NatToString(DigitsValue(d))
  {
    assert DropCourtPrefix(d) == d;
    assert Upper(d) == d;
    assert d != "RC1" && d != "RC2" by {
      assert IsDigit(d[0]);
    }
    ParseIntOfDigits(d);
  }

  /** An entry without a '/' watches nothing. */
  lemma EntryNeedsSlash(s: string)
    requires '/' !in s
    ensures Entry(s) == None
  {
    SplitNoSep(s, {'/'});
  }

  /** An entry with nothing after its '/' watches item 0, since an empty item reads as the number 0. */
  lemma EmptyItemIsZero(c: string)
    requires '/' !in c
    ensures Entry(c + "/") == Some(Matter(CourtKey(Trim(c)), 0))
  {
    assert Avoids(c, {'/'});
    SplitAtSep(c, '/', [], {'/'});
    assert c + "/" == c + ['/'] + [];
    var parts := Split(c + "/", {'/'});
    assert parts == [c, []];
    assert Trim([]) == [];
    assert ToNumber([]) == Some(0);
  }

  // ---------------------------------------------------------------------------
  // Threshold

  /** The threshold read from its field: a positive number of items, 5 when empty, zero or not a number. */
  function Threshold(value: string): (r: int)
    ensures r >= 1
    ensures ToNumber(value).None? ==> r == DefaultThreshold
  {
    var n := ToNumber(value);
    Max(1, if n.None? || n.value == 0 then DefaultThreshold else n.value)
  }

  /** A number typed in the field is the threshold when positive; 0 gives the default, a negative number 1. */
  lemma ThresholdOfNumber(n: int)
    ensures Threshold(IntToString(n)) == if n == 0 then DefaultThreshold else Max(1, n)
    ensures n >= 1 ==> Threshold(IntToString(n)) == n
  {
    ToNumberRoundTrip(n);
  }

  lemma ThresholdOfBlank(value: string)
    requires forall k :: 0 <= k < |value| ==> IsSpace(value[k])
    ensures Threshold(value) == DefaultThreshold
  {
    assert TrimStart(value) == [];
  }
}
