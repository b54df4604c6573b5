/** Chains of linked positions in a list. */
module Chains {
  type Link = (nat, nat) -> bool

  ghost predicate Chain(link: Link, n: nat, path: seq<nat>) {
    && path != []
    && (forall k | 0 <= k < |path| :: path[k] < n)
    && (forall k | 0 <= k < |path| - 1 :: link(path[k], path[k + 1]))
  }

  /** A chain leads from `i` to `j`. */
  ghost predicate Connected(link: Link, n: nat, i: nat, j: nat) {
    exists path :: Chain(link, n, path) && path[0] == i && path[|path| - 1] == j
  }

  lemma {:induction false} ConnectedSelf(link: Link, n: nat, i: nat)
    requires i < n
    ensures Connected(link, n, i, i)
  {
    assert Chain(link, n, [i]);
  }

  lemma {:induction false} ConnectedStep(link: Link, n: nat, i: nat, j: nat, l: nat)
    requires Connected(link, n, i, j) && l < n && link(j, l)
    ensures Connected(link, n, i, l)
  {
    var p :| Chain(link, n, p) && p[0] == i && p[|p| - 1] == j;
    var q := p + [l];
    forall k | 0 <= k < |q| - 1 ensures link(q[k], q[k + 1]) {
      if k < |p| - 1 { assert link(p[k], p[k + 1]); }
    }
    assert Chain(link, n, q);
  }

  lemma {:induction false} ConnectedBack(link: Link, n: nat, i: nat, j: nat)
    requires Connected(link, n, i, j) && forall a: nat, b: nat :: link(a, b) ==> link(b, a)
    ensures Connected(link, n, j, i)
  {
    var p :| Chain(link, n, p) && p[0] == i && p[|p| - 1] == j;
    var q := seq(|p|, k requires 0 <= k < |p| => p[|p| - 1 - k]);
    forall k | 0 <= k < |q| - 1 ensures link(q[k], q[k + 1]) {
      var m := |p| - 2 - k;
      assert link(p[m], p[m + 1]);
    }
    assert Chain(link, n, q);
  }

  lemma {:induction false} ConnectedOn(link: Link, n: nat, i: nat, j: nat, l: nat)
    requires Connected(link, n, i, j) && Connected(link, n, j, l)
    ensures Connected(link, n, i, l)
  {
    var p :| Chain(link, n, p) && p[0] == i && p[|p| - 1] == j;
    var q :| Chain(link, n, q) && q[0] == j && q[|q| - 1] == l;
    var r := p + q[1..];
    forall k | 0 <= k < |r| - 1 ensures link(r[k], r[k + 1]) {
      if k < |p| - 1 {
        assert link(p[k], p[k + 1]);
      } else {
        var m := k - (|p| - 1);
        assert link(q[m], q[m + 1]);
      }
    }
    assert Chain(link, n, r);
  }

  /** What every link keeps, every chain keeps. */
  lemma {:induction false} ChainKeeps(link: Link, n: nat, path: seq<nat>, same: Link)
    requires Chain(link, n, path)
    requires forall a: nat, b: nat | a < n && b < n && link(a, b) :: same(a, b)
    requires (forall a: nat | a < n :: same(a, a))
      && forall a: nat, b: nat, c: nat :: same(a, b) && same(b, c) ==> same(a, c)
    ensures same(path[0], path[|path| - 1])
  {
    var m := |path| - 1;
    if m > 0 {
      var front := path[..m];
      assert forall k | 0 <= k < m - 1 :: link(path[k], path[k + 1]);
      ChainKeeps(link, n, front, same);
      assert link(path[m - 1], path[m]);
    }
  }
}
