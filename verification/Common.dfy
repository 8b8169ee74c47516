/** Shared result types and sequence vocabulary. */
module Common {

  /** Identifiers (UUIDs in the system) are opaque numbers here. */
  type Id = nat

  datatype Option<+T> = None | Some(value: T)

  datatype Result<+T, +E> = Ok(value: T) | Err(error: E)

  /** The elements of a sequence, as a set. */
  function Elems<T>(xs: seq<T>): set<T> {
    set x | x in xs
  }

  ghost predicate Distinct<T>(xs: seq<T>) {
    forall i, j :: 0 <= i < j < |xs| ==> xs[i] != xs[j]
  }

  predicate Ascending(xs: seq<int>) {
    forall i, j :: 0 <= i < j < |xs| ==> xs[i] < xs[j]
  }

  function Max(a: int, b: int): int {
    if a < b then b else a
  }

  function Min(a: int, b: int): int {
    if a < b then a else b
  }

  /** A sequence repeats nothing exactly when it has as many elements as positions. */
  lemma {:induction false} DistinctIffCount<T>(xs: seq<T>)
    ensures |Elems(xs)| <= |xs|
    ensures Distinct(xs) <==> |Elems(xs)| == |xs|
  {
    if xs != [] {
      var front, last := xs[..|xs| - 1], xs[|xs| - 1];
      DistinctIffCount(front);
      assert Elems(xs) == Elems(front) + {last};
      assert last in front <==> last in Elems(front);
      assert Distinct(xs) <==> Distinct(front) && last !in front;
    }
  }

  lemma {:induction false} AscendingUnique(xs: seq<int>, ys: seq<int>)
    requires Ascending(xs) && Ascending(ys) && Elems(xs) == Elems(ys)
    ensures xs == ys
  {
    assert xs != [] ==> xs[0] in Elems(ys);
    assert ys != [] ==> ys[0] in Elems(xs);
    if xs != [] {
      var a, b := xs[|xs| - 1], ys[|ys| - 1];
      assert a in Elems(ys) && b in Elems(xs);
      var front, back := xs[..|xs| - 1], ys[..|ys| - 1];
      assert Elems(front) == Elems(xs) - {a};
      assert Elems(back) == Elems(ys) - {b};
      AscendingUnique(front, back);
    }
  }
}
