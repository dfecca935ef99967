/**
 * Sequence operations shared by the server and the client: `indexOf`, the
 * first-occurrence de-duplication done with a `seen` set, and runs of consecutive
 * integers.
 */
module Seqs {

  /** Concatenation regroups freely; stating it spares the solver a search for the grouping. */
  lemma AppendAssoc<T>(a: seq<T>, b: seq<T>, c: seq<T>)
    ensures (a + b) + c == a + (b + c)
  {
  }

  /** `Array.prototype.indexOf`: the first position of `x` in `s`, or -1 when it is absent. */
  function IndexOf<T(==)>(s: seq<T>, x: T): (r: int)
    ensures -1 <= r < |s|
    ensures r >= 0 ==> s[r] == x && x !in s[..r]
    ensures r < 0 <==> x !in s
  {
    if s == [] then -1
    else if s[0] == x then 0
    else
      var k := IndexOf(s[1..], x);
      assert k >= 0 ==> s[..k + 1] == [s[0]] + s[1..][..k];
      assert s == [s[0]] + s[1..];
      if k < 0 then -1 else k + 1
  }

  ghost predicate NoDuplicates<T>(s: seq<T>) {
    forall i, j :: 0 <= i < j < |s| ==> s[i] != s[j]
  }

  /** Keeps the first occurrence of every element, in order (the `seen`-set filter). */
  function Dedup<T(==)>(s: seq<T>): (r: seq<T>)
    ensures NoDuplicates(r)
    ensures forall i :: 0 <= i < |r| ==> r[i] in s
    ensures forall i :: 0 <= i < |s| ==> s[i] in r
  {
    if s == [] then []
    else
      var p, x := s[..|s| - 1], s[|s| - 1];
      assert s == p + [x];
      if x in p then Dedup(p) else Dedup(p) + [x]
  }

  lemma DedupStep<T>(s: seq<T>, x: T)
    ensures Dedup(s + [x]) == if x in s then Dedup(s) else Dedup(s) + [x]
  {
    assert (s + [x])[..|s|] == s;
  }

  lemma IndexOfExtend<T>(p: seq<T>, x: T, y: T)
    requires y in p
    ensures IndexOf(p + [x], y) == IndexOf(p, y)
  {
    var i := IndexOf(p, y);
    var s := p + [x];
    assert s[..i] == p[..i];
    assert s[i] == y;
  }

  /** The kept elements are listed in the order of their first occurrence in the input. */
  lemma {:induction false} DedupFirstSeenOrder<T>(s: seq<T>)
    ensures forall i, j :: 0 <= i < j < |Dedup(s)| ==> IndexOf(s, Dedup(s)[i]) < IndexOf(s, Dedup(s)[j])
  {
    if s != [] {
      var p, x := s[..|s| - 1], s[|s| - 1];
      assert s == p + [x];
      DedupFirstSeenOrder(p);
      var d := Dedup(p);
      forall y | y in d
        ensures IndexOf(s, y) == IndexOf(p, y)
      {
        IndexOfExtend(p, x, y);
      }
      if x !in p {
        assert IndexOf(s, x) == |p| by {
          assert s[|p|] == x && x !in s[..|p|];
        }
        var r := Dedup(s);
        assert r == d + [x];
        forall i, j | 0 <= i < j < |r|
          ensures IndexOf(s, r[i]) < IndexOf(s, r[j])
        {
          assert r[i] == d[i] && r[i] in d;
          if j < |d| {
            assert r[j] == d[j] && r[j] in d;
          }
        }
      }
    }
  }

  /** A sequence that already has no duplicates is left unchanged. */
  lemma {:induction false} DedupKeeps<T>(s: seq<T>)
    requires NoDuplicates(s)
    ensures Dedup(s) == s
  {
    if s != [] {
      var p, x := s[..|s| - 1], s[|s| - 1];
      assert s == p + [x];
      assert x !in p;
      DedupKeeps(p);
    }
  }

  /** The consecutive integers `lo, lo + 1, ..., hi`; empty when `lo > hi`. */
  function Up(lo: int, hi: int): (r: seq<int>)
    decreases hi - lo
    ensures |r| == if lo <= hi then hi - lo + 1 else 0
    ensures forall k :: 0 <= k < |r| ==> r[k] == lo + k
  {
    if lo > hi then [] else [lo] + Up(lo + 1, hi)
  }

  /** The consecutive integers `hi, hi - 1, ..., lo`; empty when `hi < lo`. */
  function Down(hi: int, lo: int): (r: seq<int>)
    decreases hi - lo
    ensures |r| == if lo <= hi then hi - lo + 1 else 0
    ensures forall k :: 0 <= k < |r| ==> r[k] == hi - k
  {
    if hi < lo then [] else [hi] + Down(hi - 1, lo)
  }

  lemma UpMembers(lo: int, hi: int, x: int)
    ensures x in Up(lo, hi) <==> lo <= x <= hi
  {
    if lo <= x <= hi {
      assert Up(lo, hi)[x - lo] == x;
    }
  }

  lemma DownMembers(hi: int, lo: int, x: int)
    ensures x in Down(hi, lo) <==> lo <= x <= hi
  {
    if lo <= x <= hi {
      assert Down(hi, lo)[hi - x] == x;
    }
  }
}
