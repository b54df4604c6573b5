/** Mapping a list to lists and joining the results, the shape of every nested loop that appends:
    shelves to books to pages, clusters to members, replies to tagged bytes. The lemmas say how
    the joined list falls apart at an element of the first and what changes when one element
    maps to something else. */
module Sequences {
  function FlatMap<A, B>(f: A -> seq<B>, xs: seq<A>): seq<B> {
    if xs == [] then [] else f(xs[0]) + FlatMap(f, xs[1..])
  }

  lemma {:induction false} FlatMapConcat<A, B>(f: A -> seq<B>, xs: seq<A>, ys: seq<A>)
    ensures FlatMap(f, xs + ys) == FlatMap(f, xs) + FlatMap(f, ys)
  {
    if xs == [] {
      assert xs + ys == ys;
    } else {
      FlatMapConcat(f, xs[1..], ys);
      assert (xs + ys)[1..] == xs[1..] + ys;
      Assoc(f(xs[0]), FlatMap(f, xs[1..]), FlatMap(f, ys));
    }
  }

  lemma {:induction false} InFlatMap<A, B>(f: A -> seq<B>, xs: seq<A>, y: B)
    ensures y in FlatMap(f, xs) <==> exists i :: 0 <= i < |xs| && y in f(xs[i])
  {
    if xs != [] {
      InFlatMap(f, xs[1..], y);
      if y in FlatMap(f, xs[1..]) {
        var i :| 0 <= i < |xs[1..]| && y in f(xs[1..][i]);
        assert xs[i + 1] == xs[1..][i];
      }
      if i :| 0 < i < |xs| && y in f(xs[i]) {
        assert xs[1..][i - 1] == xs[i];
      }
    }
  }

  lemma {:induction false} FlatMapSame<A, B>(f: A -> seq<B>, g: A -> seq<B>, xs: seq<A>)
    requires forall x | x in xs :: f(x) == g(x)
    ensures FlatMap(f, xs) == FlatMap(g, xs)
  {
    if xs != [] {
      FlatMapSame(f, g, xs[1..]);
    }
  }

  lemma {:induction false} FlatMapAround<A, B>(f: A -> seq<B>, xs: seq<A>, i: nat)
    requires i < |xs|
    ensures FlatMap(f, xs) == FlatMap(f, xs[..i]) + (f(xs[i]) + FlatMap(f, xs[i + 1..]))
  {
    assert xs == xs[..i] + ([xs[i]] + xs[i + 1..]);
    FlatMapConcat(f, xs[..i], [xs[i]] + xs[i + 1..]);
    FlatMapCons(f, xs[i], xs[i + 1..]);
  }

  lemma {:induction false} FlatMapOne<A, B>(f: A -> seq<B>, x: A)
    ensures FlatMap(f, [x]) == f(x)
  {
    assert FlatMap(f, [x]) == f(x) + FlatMap(f, []);
  }

  lemma {:induction false} FlatMapCons<A, B>(f: A -> seq<B>, x: A, ys: seq<A>)
    ensures FlatMap(f, [x] + ys) == f(x) + FlatMap(f, ys)
  {
    assert ([x] + ys)[1..] == ys;
  }

  lemma {:induction false} Assoc<T>(a: seq<T>, b: seq<T>, c: seq<T>)
    ensures (a + b) + c == a + (b + c)
  {
  }

  predicate OccursAt<T(==)>(s: seq<T>, t: seq<T>, i: nat) {
    i + |t| <= |s| && s[i..i + |t|] == t
  }

  function Max(a: nat, b: nat): nat {
    if a < b then b else a
  }
}
