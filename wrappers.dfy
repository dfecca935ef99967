/** The optional value used where the JavaScript has `null`, `undefined` or `NaN`. */
module Wrappers {

  datatype Option<+T> = None | Some(value: T)

  /** The values present in `opts`, in order: a `filter` followed by unwrapping. */
  function Somes<T>(opts: seq<Option<T>>): (r: seq<T>)
    ensures |r| <= |opts|
    ensures forall k :: 0 <= k < |r| ==> Some(r[k]) in opts
  {
    if opts == [] then []
    else
      var rest := Somes(opts[1..]);
      assert forall x :: x in opts[1..] ==> x in opts;
      match opts[0]
      case None => rest
      case Some(v) => [v] + rest
  }

  /** The filter works piece by piece: the values of a concatenation are those of its parts, in order. */
  lemma {:induction false} SomesAppend<T>(a: seq<Option<T>>, b: seq<Option<T>>)
    ensures Somes(a + b) == Somes(a) + Somes(b)
  {
    if a == [] {
      assert a + b == b;
    } else {
      var c := a + b;
      assert c[0] == a[0] && c[1..] == a[1..] + b;
      SomesAppend(a[1..], b);
      match a[0]
      case None =>
      case Some(v) =>
        assert Somes(c) == [v] + Somes(c[1..]);
    }
  }

  /** A present value is kept and an absent one dropped. */
  lemma SomesOne<T>(o: Option<T>)
    ensures Somes([o]) == if o.Some? then [o.value] else []
  {
    assert [o][1..] == [];
  }

  /** When every entry is present, nothing is dropped. */
  lemma {:induction false} SomesAll<T>(opts: seq<Option<T>>, xs: seq<T>)
    requires |opts| == |xs|
    requires forall k :: 0 <= k < |opts| ==> opts[k] == Some(xs[k])
    ensures Somes(opts) == xs
  {
    if opts != [] {
      assert opts[0] == Some(xs[0]);
      SomesAll(opts[1..], xs[1..]);
      assert xs == [xs[0]] + xs[1..];
    }
  }

  function Max(a: int, b: int): int { if a < b then b else a }

  function Min(a: int, b: int): int { if a < b then a else b }
}
