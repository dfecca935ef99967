/**
 * The JavaScript string primitives the server and the browser client rely on:
 * white space as `\s` and `trim` see it, ASCII upper-casing, `split` and `join`,
 * decimal formatting of integers (`String(n)`), `parseInt(s, 10)` and `Number(s)`.
 */
module Strings {
  import opened Wrappers

  /** The characters that JavaScript's `\s` class and `String.prototype.trim` treat as white space. */
  predicate IsSpace(c: char) {
    || c == '\t' || c == '\n' || c == '\U{000B}' || c == '\U{000C}' || c == '\r' || c == ' '
    || c == '\U{00A0}' || c == '\U{1680}' || ('\U{2000}' <= c <= '\U{200A}')
    || c == '\U{2028}' || c == '\U{2029}' || c == '\U{202F}' || c == '\U{205F}'
    || c == '\U{3000}' || c == '\U{FEFF}'
  }

  predicate NoLeadingSpace(s: string) { s == [] || !IsSpace(s[0]) }

  predicate NoTrailingSpace(s: string) { s == [] || !IsSpace(s[|s| - 1]) }

  /** Drops the white space at the front: what `parseInt` skips, and what `\s+` consumes. */
  function TrimStart(s: string): (r: string)
    ensures |r| <= |s| && r == s[|s| - |r|..]
    ensures NoLeadingSpace(r)
    ensures forall i :: 0 <= i < |s| - |r| ==> IsSpace(s[i])
  {
    if s != [] && IsSpace(s[0]) then TrimStart(s[1..]) else s
  }

  function TrimEnd(s: string): (r: string)
    ensures |r| <= |s| && r == s[..|r|]
    ensures NoTrailingSpace(r)
    ensures forall i :: |r| <= i < |s| ==> IsSpace(s[i])
  {
    if s != [] && IsSpace(s[|s| - 1]) then TrimEnd(s[..|s| - 1]) else s
  }

  /** `s[a..b]` is a stretch of `s` with only white space before and after it. */
  predicate SpaceAround(s: string, a: int, b: int) {
    && 0 <= a <= b <= |s|
    && (forall i :: 0 <= i < a ==> IsSpace(s[i]))
    && (forall i :: b <= i < |s| ==> IsSpace(s[i]))
  }

  /**
   * `String.prototype.trim`: the stretch `s[a..b]` of the input with only white
   * space before `a` and after `b`, and no white space at either of its own ends.
   */
  function Trim(s: string): (r: string)
    ensures NoLeadingSpace(r) && NoTrailingSpace(r)
    ensures |r| <= |s|
    ensures NoLeadingSpace(s) && NoTrailingSpace(s) ==> r == s
  {
    var t := TrimStart(s);
    var r := TrimEnd(t);
    assert r != [] ==> r[0] == t[0];
    r
  }

  /** What `Trim` keeps is one stretch of `s`, with nothing but white space on either side of it. */
  lemma TrimSpan(s: string)
    ensures exists a, b :: SpaceAround(s, a, b) && Trim(s) == s[a..b]
  {
    var t := TrimStart(s);
    var r := TrimEnd(t);
    assert r == Trim(s);
    var a := |s| - |t|;
    var b := a + |r|;
    assert t == s[a..] && r == t[..|r|];
    assert r == s[a..b];
    assert forall i :: 0 <= i < a ==> IsSpace(s[i]);
    forall i | b <= i < |s| ensures IsSpace(s[i]) {
      assert s[i] == t[i - a];
    }
    assert SpaceAround(s, a, b);
  }

  /** `toUpperCase` on the ASCII letters; every other character is kept. */
  function UpperChar(c: char): char {
    if 'a' <= c <= 'z' then (c as int - 32) as char else c
  }

  function Upper(s: string): (r: string)
    ensures |r| == |s|
    ensures forall i :: 0 <= i < |s| ==> r[i] == UpperChar(s[i])
  {
    if s == [] then [] else [UpperChar(s[0])] + Upper(s[1..])
  }

  predicate IsDigit(c: char) { '0' <= c <= '9' }

  predicate AllDigits(s: string) { forall i :: 0 <= i < |s| ==> IsDigit(s[i]) }

  /** The test `/^\d+$/`: one or more decimal digits and nothing else. */
  predicate IsDigits(s: string) { s != [] && AllDigits(s) }

  function DigitValue(c: char): nat
    requires IsDigit(c)
  {
    c as int - '0' as int
  }

  function DigitChar(d: nat): (c: char)
    requires d < 10
    ensures IsDigit(c) && DigitValue(c) == d
  {
    ('0' as int + d) as char
  }

  /** The value of a decimal digit string, as `+s` computes it (leading zeros allowed). */
  function DigitsValue(s: string): nat
    requires AllDigits(s)
  {
    if s == [] then 0 else 10 * DigitsValue(s[..|s| - 1]) + DigitValue(s[|s| - 1])
  }

  /** `String(n)` for a non-negative integer: the canonical decimal form. */
  function NatToString(n: nat): (r: string)
    ensures IsDigits(r) && (r[0] == '0' ==> r == "0")
    ensures DigitsValue(r) == n
  {
    if n < 10 then [DigitChar(n)]
    else
      var p := NatToString(n / 10);
      var r := p + [DigitChar(n % 10)];
      assert r[..|r| - 1] == p;
      r
  }

  /** `String(i)` for any integer: a minus sign exactly for a negative number. */
  function IntToString(i: int): (r: string)
    ensures r != [] && (r[0] == '-' || IsDigits(r))
    ensures r[0] == '-' <==> i < 0
  {
    if i < 0 then "-" + NatToString(-i) else NatToString(i)
  }

  lemma {:induction false} LeadingNonZero(s: string)
    requires IsDigits(s) && s[0] != '0'
    ensures DigitsValue(s) >= 1
  {
    if |s| > 1 {
      var p := s[..|s| - 1];
      assert p[0] == s[0];
      LeadingNonZero(p);
    }
  }

  /** A canonical digit string (no leading zero) is the decimal form of its own value. */
  lemma {:induction false} NatToStringOfDigits(s: string)
    requires IsDigits(s) && (s[0] == '0' ==> s == "0")
    ensures NatToString(DigitsValue(s)) == s
  {
    if |s| > 1 {
      var p := s[..|s| - 1];
      var d := DigitValue(s[|s| - 1]);
      assert p[0] == s[0];
      LeadingNonZero(p);
      NatToStringOfDigits(p);
      var v := DigitsValue(s);
      assert v == 10 * DigitsValue(p) + d;
      assert v / 10 == DigitsValue(p) && v % 10 == d;
      assert DigitChar(d) == s[|s| - 1];
      assert s == p + [s[|s| - 1]];
    } else {
      assert DigitChar(DigitValue(s[0])) == s[0];
    }
  }

  /** The longest run of digits at the front of `s`. */
  function DigitPrefix(s: string): (r: string)
    ensures |r| <= |s| && r == s[..|r|] && AllDigits(r)
    ensures |r| == |s| || !IsDigit(s[|r|])
  {
    if s != [] && IsDigit(s[0]) then [s[0]] + DigitPrefix(s[1..]) else []
  }

  /** Text that opens with a digit, or with a sign followed by a digit. */
  predicate OpensWithNumber(t: string) {
    t != [] && (IsDigit(t[0]) || ((t[0] == '-' || t[0] == '+') && |t| > 1 && IsDigit(t[1])))
  }

  /**
   * `parseInt(s, 10)`: skip leading white space, read an optional sign and then the
   * longest run of decimal digits; no digit at all gives `NaN`, modelled as None.
   */
  function ParseInt(s: string): Option<int>
  {
    var t := TrimStart(s);
    var neg := t != [] && t[0] == '-';
    var u := if t != [] && (t[0] == '-' || t[0] == '+') then t[1..] else t;
    var d := DigitPrefix(u);
    var v: int := DigitsValue(d);
    if d == [] then None else Some(if neg then -v else v)
  }

  /**
   * `parseInt` finds a number exactly when, after the leading white space, the text
   * opens with a digit or with a sign and a digit; only a minus sign makes it negative.
   */
  lemma ParseIntDefined(s: string)
    ensures ParseInt(s).Some? <==> OpensWithNumber(TrimStart(s))
    ensures ParseInt(s).Some? && ParseInt(s).value < 0 ==> TrimStart(s)[0] == '-'
  {
    var t := TrimStart(s);
    var u := if t != [] && (t[0] == '-' || t[0] == '+') then t[1..] else t;
    var d := DigitPrefix(u);
    assert d != [] <==> u != [] && IsDigit(u[0]);
  }

  lemma DigitPrefixAll(s: string)
    requires AllDigits(s)
    ensures DigitPrefix(s) == s
  {
  }

  lemma TrimStartKeeps(s: string)
    requires NoLeadingSpace(s)
    ensures TrimStart(s) == s
  {
  }

  lemma ParseIntOfDigits(d: string)
    requires IsDigits(d)
    ensures ParseInt(d) == Some(DigitsValue(d) as int)
  {
    TrimStartKeeps(d);
    DigitPrefixAll(d);
  }

  lemma ParseIntOfNegated(d: string)
    requires IsDigits(d)
    ensures ParseInt("-" + d) == Some(-(DigitsValue(d) as int))
  {
    ParseIntOfNegatedTail(d, []);
    assert d + [] == d;
  }

  /** `parseInt(String(i), 10) == i` for every integer. */
  lemma ParseIntRoundTrip(i: int)
    ensures ParseInt(IntToString(i)) == Some(i)
  {
    if i < 0 {
      ParseIntOfNegated(NatToString(-i));
    } else {
      ParseIntOfDigits(NatToString(i));
    }
  }

  /**
   * `Number(s)` for the forms the client meets: white space only gives 0, an optionally
   * signed run of digits gives its value; every other text is treated as `NaN` (None).
   */
  function ToNumber(s: string): (r: Option<int>)
    ensures Trim(s) == [] ==> r == Some(0)
    ensures Trim(s) != [] ==> (r.Some? <==> SignedDigits(Trim(s)))
    ensures r.Some? && r.value < 0 ==> Trim(s)[0] == '-'
  {
    var t := Trim(s);
    if t == [] then Some(0)
    else
      var u := if t[0] == '-' || t[0] == '+' then t[1..] else t;
      if IsDigits(u) then
        var v: int := DigitsValue(u);
        Some(if t[0] == '-' then -v else v)
      else None
  }

  /** One or more decimal digits, with an optional sign in front. */
  predicate SignedDigits(t: string) {
    IsDigits(t) || (t != [] && (t[0] == '-' || t[0] == '+') && IsDigits(t[1..]))
  }

  /** `Number(String(i)) == i` for every integer. */
  lemma ToNumberRoundTrip(i: int)
    ensures ToNumber(IntToString(i)) == Some(i)
  {
    var s := IntToString(i);
    if i < 0 {
      var n := NatToString(-i);
      assert s == "-" + n && s[1..] == n;
      assert s[|s| - 1] == n[|n| - 1];
    }
    assert IsDigit(s[|s| - 1]);
    assert NoLeadingSpace(s) && NoTrailingSpace(s);
    assert Trim(s) == s;
  }

  predicate Avoids(t: string, seps: set<char>) { forall i :: 0 <= i < |t| ==> t[i] !in seps }

  /** `s.split(sep)` where `sep` matches exactly one character out of `seps`. */
  function Split(s: string, seps: set<char>): (r: seq<string>)
    ensures |r| >= 1
    ensures forall k :: 0 <= k < |r| ==> Avoids(r[k], seps)
  {
    if s == [] then [[]]
    else if s[0] in seps then [[]] + Split(s[1..], seps)
    else
      var rest := Split(s[1..], seps);
      [[s[0]] + rest[0]] + rest[1..]
  }

  /** `parts.join(sep)`: the pieces in order with `sep` between them. */
  function Join(parts: seq<string>, sep: string): (r: string)
    ensures parts == [] ==> r == []
  {
    if |parts| == 0 then []
    else if |parts| == 1 then parts[0]
    else parts[0] + sep + Join(parts[1..], sep)
  }

  /** Joining a list whose first piece is empty puts a separator in front. */
  lemma JoinEmptyHead(parts: seq<string>, sep: string)
    requires parts != []
    ensures Join([[]] + parts, sep) == sep + Join(parts, sep)
  {
    assert ([[]] + parts)[1..] == parts;
  }

  /** Joining a list whose first piece gained a character puts that character in front. */
  lemma JoinConsHead(x: char, parts: seq<string>, sep: string)
    requires parts != []
    ensures Join([[x] + parts[0]] + parts[1..], sep) == [x] + Join(parts, sep)
  {
    var q := [[x] + parts[0]] + parts[1..];
    if |parts| > 1 {
      assert q[1..] == parts[1..];
      assert Join(q, sep) == ([x] + parts[0]) + sep + Join(parts[1..], sep);
    }
  }

  /** Splitting on one character and joining with it gives the string back. */
  lemma {:induction false} SplitJoin(s: string, c: char)
    ensures Join(Split(s, {c}), [c]) == s
  {
    if s != [] {
      var rest := Split(s[1..], {c});
      SplitJoin(s[1..], c);
      if s[0] == c {
        assert Split(s, {c}) == [[]] + rest;
        JoinEmptyHead(rest, [c]);
      } else {
        assert Split(s, {c}) == [[s[0]] + rest[0]] + rest[1..];
        JoinConsHead(s[0], rest, [c]);
      }
      assert s == [s[0]] + s[1..];
    }
  }

  lemma {:induction false} SplitNoSep(p: string, seps: set<char>)
    requires Avoids(p, seps)
    ensures Split(p, seps) == [p]
  {
    if p != [] {
      SplitNoSep(p[1..], seps);
      assert p == [p[0]] + p[1..];
    }
  }

  lemma {:induction false} SplitAtSep(p: string, c: char, rest: string, seps: set<char>)
    requires Avoids(p, seps) && c in seps
    ensures Split(p + [c] + rest, seps) == [p] + Split(rest, seps)
  {
    var s := p + [c] + rest;
    if p == [] {
      assert s[0] == c && s[1..] == rest;
    } else {
      assert s[1..] == p[1..] + [c] + rest;
      SplitAtSep(p[1..], c, rest, seps);
      assert p == [p[0]] + p[1..];
    }
  }

  /** A separator between two texts splits them apart: the pieces of the first, then those of the second. */
  lemma {:induction false} SplitAppend(a: string, c: char, b: string, seps: set<char>)
    requires c in seps
    ensures Split(a + [c] + b, seps) == Split(a, seps) + Split(b, seps)
  {
    var s := a + [c] + b;
    if a == [] {
      assert s == [c] + b;
      assert s[1..] == b;
    } else {
      assert s[0] == a[0] && s[1..] == a[1..] + [c] + b;
      SplitAppend(a[1..], c, b, seps);
      var rest, tail := Split(a[1..], seps), Split(b, seps);
      var both := rest + tail;
      assert Split(s[1..], seps) == both;
      if a[0] in seps {
        assert Split(s, seps) == [[]] + both;
        assert Split(a, seps) == [[]] + rest;
      } else {
        assert both[0] == rest[0] && both[1..] == rest[1..] + tail;
        assert Split(s, seps) == [[a[0]] + both[0]] + both[1..];
        assert Split(a, seps) == [[a[0]] + rest[0]] + rest[1..];
      }
    }
  }

  /** Joining pieces that contain no separator and splitting again gives the pieces back. */
  lemma {:induction false} JoinSplit(parts: seq<string>, c: char, seps: set<char>)
    requires |parts| >= 1 && c in seps
    requires forall k :: 0 <= k < |parts| ==> Avoids(parts[k], seps)
    ensures Split(Join(parts, [c]), seps) == parts
  {
    if |parts| == 1 {
      SplitNoSep(parts[0], seps);
    } else {
      JoinSplit(parts[1..], c, seps);
      SplitAtSep(parts[0], c, Join(parts[1..], [c]), seps);
      assert parts == [parts[0]] + parts[1..];
    }
  }

  /** The joined text ends with the last piece. */
  lemma {:induction false} JoinEndsWithLast(parts: seq<string>, sep: string)
    requires |parts| >= 1
    ensures var r, last := Join(parts, sep), parts[|parts| - 1]; |last| <= |r| && r[|r| - |last|..] == last
  {
    if |parts| > 1 {
      JoinEndsWithLast(parts[1..], sep);
      var r, t := Join(parts, sep), Join(parts[1..], sep);
      assert r == (parts[0] + sep) + t;
      assert r[|r| - |t|..] == t;
    }
  }

  /** The joined text starts with the first piece. */
  lemma {:induction false} JoinStartsWithFirst(parts: seq<string>, sep: string)
    requires |parts| >= 1
    ensures parts[0] <= Join(parts, sep)
  {
    if |parts| > 1 {
      assert Join(parts, sep) == parts[0] + (sep + Join(parts[1..], sep));
    }
  }

  /** White space in front of a text that does not itself open with white space is skipped entirely. */
  lemma {:induction false} TrimStartPast(pad: string, s: string)
    requires forall k :: 0 <= k < |pad| ==> IsSpace(pad[k])
    requires NoLeadingSpace(s)
    ensures TrimStart(pad + s) == s
    decreases |pad|
  {
    if pad == [] {
      assert pad + s == s;
      TrimStartKeeps(s);
    } else {
      assert (pad + s)[1..] == pad[1..] + s;
      TrimStartPast(pad[1..], s);
    }
  }

  lemma {:induction false} TrimEndAppend(x: string, y: string)
    requires x != [] && NoTrailingSpace(x)
    ensures TrimEnd(x + y) == x + TrimEnd(y)
    decreases |y|
  {
    if y == [] {
      assert x + y == x;
    } else if IsSpace(y[|y| - 1]) {
      assert (x + y)[..|x + y| - 1] == x + y[..|y| - 1];
      TrimEndAppend(x, y[..|y| - 1]);
    }
  }

  /**
   * `parseInt` reads the integer at the front and ignores whatever follows it,
   * provided what follows does not continue the digits.
   */
  lemma ParseIntLeading(i: int, tail: string)
    requires tail == [] || !IsDigit(tail[0])
    ensures ParseInt(IntToString(i) + tail) == Some(i)
  {
    if i < 0 {
      assert IntToString(i) + tail == "-" + (NatToString(-i) + tail);
      ParseIntOfNegatedTail(NatToString(-i), tail);
    } else {
      ParseIntOfDigitsTail(NatToString(i), tail);
    }
  }

  lemma ParseIntOfDigitsTail(d: string, tail: string)
    requires IsDigits(d) && (tail == [] || !IsDigit(tail[0]))
    ensures ParseInt(d + tail) == Some(DigitsValue(d) as int)
  {
    var m := d + tail;
    assert m[0] == d[0];
    TrimStartKeeps(m);
    DigitPrefixAppend(d, tail);
  }

  lemma ParseIntOfNegatedTail(d: string, tail: string)
    requires IsDigits(d) && (tail == [] || !IsDigit(tail[0]))
    ensures ParseInt("-" + (d + tail)) == Some(-(DigitsValue(d) as int))
  {
    var m := "-" + (d + tail);
    TrimStartKeeps(m);
    var t := TrimStart(m);
    assert t == m && t[0] == '-';
    assert t[1..] == d + tail;
    DigitPrefixAppend(d, tail);
    assert DigitPrefix(t[1..]) == d;
  }

  lemma {:induction false} DigitPrefixAppend(n: string, tail: string)
    requires AllDigits(n) && (tail == [] || !IsDigit(tail[0]))
    ensures DigitPrefix(n + tail) == n
  {
    if n == [] {
      assert n + tail == tail;
    } else {
      assert (n + tail)[1..] == n[1..] + tail;
      DigitPrefixAppend(n[1..], tail);
      assert n == [n[0]] + n[1..];
    }
  }
}
