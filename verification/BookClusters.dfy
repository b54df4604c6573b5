/** Grouping books into shelves: union-find with path halving over shared keywords. */
module BookClusters {
  import opened Sequences
  import opened Partition
  import Chains

  // A parent map, the root every element leads to, and a rank that grows along each link.
  datatype Links = Links(parent: map<Id, Id>, root: map<Id, Id>, rank: map<Id, nat>)

  ghost predicate Linked(l: Links, bound: nat, x: Id)
    requires x in l.parent && l.root.Keys == l.rank.Keys == l.parent.Keys
  {
    && l.parent[x] in l.parent && l.root[x] in l.parent && l.rank[x] <= bound
    && l.root[l.parent[x]] == l.root[x] && l.parent[l.root[x]] == l.root[x]
    && (l.parent[x] == x || l.rank[x] < l.rank[l.parent[x]])
    && (l.parent[x] == x ==> l.root[x] == x)
  }

  /** Following links from any element ends at its root: ranks grow along each link and stay
      below `bound`, so no chain can cycle. */
  ghost predicate Forest(l: Links, bound: nat) {
    && l.root.Keys == l.rank.Keys == l.parent.Keys
    && forall x {:trigger Linked(l, bound, x)} | x in l.parent :: Linked(l, bound, x)
  }

  /** Pointing an element at its grandparent keeps the forest and every root. */
  lemma {:induction false} HalvingKeepsForest(l: Links, bound: nat, x: Id)
    requires Forest(l, bound) && x in l.parent && l.parent[x] != x
    ensures var up := l.parent[x];
            && up in l.parent && l.root[up] == l.root[x] && l.rank[x] < l.rank[up] <= bound
            && Forest(l.(parent := l.parent[x := l.parent[up]]), bound)
            && l.parent[up] in l.parent && l.root[l.parent[up]] == l.root[x]
              && l.rank[up] <= l.rank[l.parent[up]] <= bound
  {
    assert Linked(l, bound, x);
    var up := l.parent[x];
    assert Linked(l, bound, up);
    assert Linked(l, bound, l.parent[up]);
    var after := l.(parent := l.parent[x := l.parent[up]]);
    forall y | y in after.parent ensures Linked(after, bound, y) {
      assert Linked(l, bound, y);
      assert Linked(l, bound, l.root[y]);
    }
  }

  /** Hanging one root under another merges the two classes and no others. */
  lemma {:induction false} LinkingMergesClasses(l: Links, bound: nat, below: Id, above: Id)
    requires Forest(l, bound) && below in l.parent && above in l.parent && below != above
    requires l.parent[below] == below && l.parent[above] == above
    ensures l.rank.Keys == l.root.Keys == l.parent.Keys
    ensures Forest(Links(l.parent[below := above], Merged(l.root, below, above), l.rank[above := bound + 1]), bound + 1)
  {
    var after := Links(l.parent[below := above], Merged(l.root, below, above), l.rank[above := bound + 1]);
    assert Linked(l, bound, below) && Linked(l, bound, above);
    forall y | y in after.parent ensures Linked(after, bound + 1, y) {
      assert Linked(l, bound, y);
      assert Linked(l, bound, l.parent[y]);
    }
  }

  lemma {:induction false} LinkingToItself(l: Links, bound: nat, x: Id)
    requires Forest(l, bound) && x in l.parent && l.parent[x] == x
    ensures l.parent[x := x] == l.parent && Merged(l.root, x, x) == l.root
  {
  }

  lemma {:induction false} RootIsItsOwnParent(l: Links, bound: nat, x: Id)
    requires Forest(l, bound) && x in l.root
    ensures l.root[x] in l.parent && l.parent[l.root[x]] == l.root[x]
  {
    assert Linked(l, bound, x);
  }

  ghost function Merged(root: map<Id, Id>, below: Id, above: Id): (r: map<Id, Id>)
    ensures r.Keys == root.Keys
  {
    map x | x in root :: if root[x] == below then above else root[x]
  }

  class UnionFind {
    var parent: map<Id, Id>
    ghost var root: map<Id, Id>
    ghost var rank: map<Id, nat>
    ghost var bound: nat

    ghost predicate Valid()
      reads this
    {
      Forest(Links(parent, root, rank), bound)
    }

    constructor (ids: seq<Id>)
      ensures Valid() && (root.Keys == set x | x in ids) && forall x | x in ids :: root[x] == x
    {
      parent := map x | x in ids :: x;
      root := map x | x in ids :: x;
      rank := map x | x in ids :: 0;
      bound := 0;
    }

    /** Follows links to the root, pointing every other element it passes at its grandparent. */
    method Find(start: Id) returns (x: Id)
      requires Valid() && start in root
      modifies this`parent
      ensures Valid()
      ensures x == root[start] && x in parent && parent[x] == x
    {
      x := start;
      assert Linked(Links(parent, root, rank), bound, x);
      while parent[x] != x
        invariant Valid() && x in root && root[x] == root[start] && rank[x] <= bound
        decreases bound - rank[x]
      {
        HalvingKeepsForest(Links(parent, root, rank), bound, x);
        parent := parent[x := parent[parent[x]]];
        x := parent[x];
      }
      assert Linked(Links(parent, root, rank), bound, x);
    }

    /** Hangs the root of `x` under the root of `y`; the classes of both become one. */
    method Union(x: Id, y: Id)
      requires Valid() && x in root && y in root
      modifies this
      ensures Valid() && root == Merged(old(root), old(root)[x], old(root)[y]) && root.Keys == old(root.Keys)
    {
      hide Linked, Forest, Merged;
      var above := Find(y);
      var below := Find(x);
      ghost var l := Links(parent, root, rank);
      RootIsItsOwnParent(l, bound, y);
      if below == above {
        LinkingToItself(l, bound, below);
      } else {
        LinkingMergesClasses(l, bound, below, above);
        root := Merged(root, below, above);
        bound := bound + 1;
        rank := rank[above := bound];
      }
      parent := parent[below := above];
    }
  }

  // ---------------------------------------------------------------- chains of shared keywords

  predicate Shares(kws: seq<set<string>>, i: nat, j: nat)
    requires i < |kws| && j < |kws|
  {
    kws[i] * kws[j] != {}
  }

  function ByKeyword(kws: seq<set<string>>): Chains.Link {
    (i: nat, j: nat) => i < |kws| && j < |kws| && Shares(kws, i, j)
  }

  /** A chain of books, each sharing a keyword with the next, leads from `i` to `j`. */
  ghost predicate Connected(kws: seq<set<string>>, i: nat, j: nat) {
    Chains.Connected(ByKeyword(kws), |kws|, i, j)
  }

  lemma {:induction false} ConnectedSelf(kws: seq<set<string>>, i: nat)
    requires i < |kws|
    ensures Connected(kws, i, i)
  {
    Chains.ConnectedSelf(ByKeyword(kws), |kws|, i);
  }

  lemma {:induction false} ConnectedBack(kws: seq<set<string>>, i: nat, j: nat)
    requires Connected(kws, i, j)
    ensures Connected(kws, j, i)
  {
    assert forall a: nat, b: nat | a < |kws| && b < |kws| :: kws[a] * kws[b] == kws[b] * kws[a];
    Chains.ConnectedBack(ByKeyword(kws), |kws|, i, j);
  }

  lemma {:induction false} ConnectedOn(kws: seq<set<string>>, i: nat, j: nat, l: nat)
    requires Connected(kws, i, j) && Connected(kws, j, l)
    ensures Connected(kws, i, l)
  {
    Chains.ConnectedOn(ByKeyword(kws), |kws|, i, j, l);
  }

  // ---------------------------------------------------------------- the state of the pair loop

  // One keyword set per id; two ids in one class are always linked by a chain.
  ghost predicate Sound(ids: seq<Id>, kws: seq<set<string>>, root: map<Id, Id>)
    requires |ids| == |kws| && forall x | x in ids :: x in root
  {
    forall i: nat, j: nat | i < |ids| && j < |ids| && root[ids[i]] == root[ids[j]] :: Connected(kws, i, j)
  }

  // Every sharing pair before (a, b) in loop order is in one class.
  ghost predicate Complete(ids: seq<Id>, kws: seq<set<string>>, root: map<Id, Id>, a: nat, b: nat)
    requires |ids| == |kws| && forall x | x in ids :: x in root
  {
    forall i: nat, j: nat | i < j < |ids| && (i < a || (i == a && j < b)) && Shares(kws, i, j) ::
      root[ids[i]] == root[ids[j]]
  }

  lemma {:induction false} UnionKeepsSound(ids: seq<Id>, kws: seq<set<string>>, root: map<Id, Id>, a: nat, b: nat)
    requires |ids| == |kws| && (forall x | x in ids :: x in root) && a < |ids| && b < |ids|
    requires Sound(ids, kws, root) && Shares(kws, a, b)
    ensures Sound(ids, kws, Merged(root, root[ids[a]], root[ids[b]]))
  {
    var after := Merged(root, root[ids[a]], root[ids[b]]);
    ConnectedSelf(kws, a);
    Chains.ConnectedStep(ByKeyword(kws), |kws|, a, a, b);
    ConnectedBack(kws, a, b);
    forall i: nat, j: nat | i < |ids| && j < |ids| && after[ids[i]] == after[ids[j]] ensures Connected(kws, i, j) {
      if root[ids[i]] != root[ids[j]] {
        var s := if root[ids[i]] == root[ids[a]] then a else b;
        var t := if root[ids[i]] == root[ids[a]] then b else a;
        ConnectedOn(kws, i, s, t);
        ConnectedOn(kws, i, t, j);
      }
    }
  }

  lemma {:induction false} UnionKeepsComplete(ids: seq<Id>, kws: seq<set<string>>, root: map<Id, Id>, a: nat, b: nat)
    requires |ids| == |kws| && (forall x | x in ids :: x in root) && a < b < |ids|
    requires Complete(ids, kws, root, a, b)
    ensures Complete(ids, kws, Merged(root, root[ids[a]], root[ids[b]]), a, b + 1)
  {
    var after := Merged(root, root[ids[a]], root[ids[b]]);
    forall i: nat, j: nat | i < j < |ids| && (i < a || (i == a && j < b + 1)) && Shares(kws, i, j)
      ensures after[ids[i]] == after[ids[j]]
    {
      assert ids[i] in ids && ids[j] in ids;
    }
  }

  lemma {:induction false} SkippedPairsShareNothing(ids: seq<Id>, kws: seq<set<string>>, root: map<Id, Id>, a: nat,
                                                    b: nat)
    requires |ids| == |kws| && (forall x | x in ids :: x in root) && a < |ids|
    requires Complete(ids, kws, root, a, b)
    ensures b < |ids| && kws[a] * kws[b] == {} ==> Complete(ids, kws, root, a, b + 1)
    ensures b == |ids| || kws[a] == {} ==> Complete(ids, kws, root, a + 1, 0)
    ensures b == 0 ==> Complete(ids, kws, root, a, a + 1)
  {
    forall i: nat, j: nat | i < j < |ids| && kws[i] == {} ensures !Shares(kws, i, j) {
    }
  }

  /** After all pairs, the classes are the connected components. */
  lemma {:induction false} ClassesAreComponents(ids: seq<Id>, kws: seq<set<string>>, root: map<Id, Id>, i: nat, j: nat)
    requires |ids| == |kws| && (forall x | x in ids :: x in root) && i < |ids| && j < |ids|
    requires Sound(ids, kws, root) && Complete(ids, kws, root, |ids|, 0)
    ensures root[ids[i]] == root[ids[j]] <==> Connected(kws, i, j)
  {
    if Connected(kws, i, j) {
      var link := ByKeyword(kws);
      var path :| Chains.Chain(link, |kws|, path) && path[0] == i && path[|path| - 1] == j;
      var same: Chains.Link := (a: nat, b: nat) => a < |ids| && b < |ids| && root[ids[a]] == root[ids[b]];
      forall a: nat, b: nat | a < |kws| && b < |kws| && link(a, b) ensures same(a, b) {
        assert kws[a] * kws[b] == kws[b] * kws[a];
        assert a < b ==> Shares(kws, a, b);
        assert b < a ==> Shares(kws, b, a);
      }
      Chains.ChainKeeps(link, |kws|, path, same);
    }
  }

  lemma {:induction false} AtStart(ids: seq<Id>, kws: seq<set<string>>, root: map<Id, Id>)
    requires |ids| == |kws| && Distinct(ids) && forall x | x in ids :: x in root && root[x] == x
    ensures Sound(ids, kws, root) && Complete(ids, kws, root, 0, 0)
  {
    forall i: nat | i < |ids| ensures Connected(kws, i, i) {
      ConnectedSelf(kws, i);
    }
  }

  // ---------------------------------------------------------------- grouping by root

  function IndexOf(keys: seq<Id>, key: Id): (k: nat)
    ensures k <= |keys| && (k < |keys| ==> keys[k] == key) && forall j | 0 <= j < k :: keys[j] != key
  {
    if keys == [] then 0 else if keys[0] == key then 0 else 1 + IndexOf(keys[1..], key)
  }

  /** The roots of the ids seen so far, in order of first appearance. */
  function FirstRoots(seen: seq<Id>, root: map<Id, Id>): seq<Id> {
    if seen == [] then []
    else
      var x, before := seen[|seen| - 1], FirstRoots(seen[..|seen| - 1], root);
      if x !in root || root[x] in before then before else before + [root[x]]
  }

  /** The ids seen so far of one class, in order. */
  function ClassOf(seen: seq<Id>, root: map<Id, Id>, key: Id): seq<Id> {
    if seen == [] then []
    else
      var x := seen[|seen| - 1];
      ClassOf(seen[..|seen| - 1], root, key) + if x in root && root[x] == key then [x] else []
  }

  // Groups of the ids seen so far: one per root, in order of first appearance, each listing its
  // class in order.
  ghost predicate GroupedBy(seen: seq<Id>, root: map<Id, Id>, keys: seq<Id>, groups: seq<seq<Id>>) {
    && keys == FirstRoots(seen, root) && |keys| == |groups| && Distinct(keys)
    && (forall g | 0 <= g < |groups| :: groups[g] == ClassOf(seen, root, keys[g]))
    && Partitions(groups, seen)
    && forall g | 0 <= g < |groups| :: InClass(groups[g], root, keys[g])
  }

  lemma {:induction false} OneMoreSeen(seen: seq<Id>, root: map<Id, Id>, x: Id)
    requires x in root
    ensures FirstRoots(seen + [x], root)
         == if root[x] in FirstRoots(seen, root) then FirstRoots(seen, root) else FirstRoots(seen, root) + [root[x]]
    ensures forall key :: ClassOf(seen + [x], root, key)
                       == ClassOf(seen, root, key) + if root[x] == key then [x] else []
  {
    assert (seen + [x])[..|seen|] == seen;
  }

  lemma {:induction false} UnseenClass(seen: seq<Id>, root: map<Id, Id>, key: Id)
    requires key !in FirstRoots(seen, root)
    ensures ClassOf(seen, root, key) == []
  {
    if seen != [] {
      UnseenClass(seen[..|seen| - 1], root, key);
    }
  }

  ghost predicate InClass(group: seq<Id>, root: map<Id, Id>, key: Id) {
    forall x | x in group :: x in root && root[x] == key
  }

  lemma {:induction false} GroupGrows(seen: seq<Id>, root: map<Id, Id>, keys: seq<Id>, groups: seq<seq<Id>>, x: Id,
                                      k: nat)
    requires GroupedBy(seen, root, keys, groups) && x in root && k < |keys| && keys[k] == root[x]
    ensures k < |groups| && GroupedBy(seen + [x], root, keys, groups[k := groups[k] + [x]])
  {
    hide Flatten, FirstRoots, ClassOf;
    assert multiset(seen + [x]) == multiset(seen) + multiset{x};
    FlattenGrow(groups, k, x);
    OneMoreSeen(seen, root, x);
    assert forall g | 0 <= g < |groups| && g != k :: keys[g] != keys[k];
    assert InClass(groups[k], root, keys[k]);
  }

  lemma {:induction false} GroupStarts(seen: seq<Id>, root: map<Id, Id>, keys: seq<Id>, groups: seq<seq<Id>>, x: Id)
    requires GroupedBy(seen, root, keys, groups) && x in root && root[x] !in keys
    ensures GroupedBy(seen + [x], root, keys + [root[x]], groups + [[x]])
  {
    hide Flatten, FirstRoots, ClassOf;
    assert multiset(seen + [x]) == multiset(seen) + multiset{x};
    FlattenAppend(groups, [x]);
    OneMoreSeen(seen, root, x);
    UnseenClass(seen, root, root[x]);
  }

  lemma {:induction false} GroupsAreClasses(ids: seq<Id>, root: map<Id, Id>, keys: seq<Id>, groups: seq<seq<Id>>,
                                            x: Id, y: Id)
    requires x in root && y in root
    requires GroupedBy(ids, root, keys, groups) && x in ids && y in ids
    ensures Together(groups, x, y) <==> root[x] == root[y]
  {
    PartitionCovers(groups, ids, x);
    PartitionCovers(groups, ids, y);
    hide Partitions;
    var a :| 0 <= a < |groups| && x in groups[a];
    var b :| 0 <= b < |groups| && y in groups[b];
    if root[x] == root[y] {
      assert keys[a] == keys[b];
      assert a == b;
    }
  }

  /** The groups of the final classes are a partition into connected components. */
  lemma {:induction false} GroupsAreComponents(ids: seq<Id>, kws: seq<set<string>>, root: map<Id, Id>, keys: seq<Id>,
                                               groups: seq<seq<Id>>)
    requires |ids| == |kws| && forall x | x in ids :: x in root
    requires Sound(ids, kws, root) && Complete(ids, kws, root, |ids|, 0) && GroupedBy(ids, root, keys, groups)
    ensures Partitions(groups, ids)
    ensures forall i: nat, j: nat | i < |ids| && j < |ids| :: Together(groups, ids[i], ids[j]) <==> Connected(kws, i, j)
  {
    forall i: nat, j: nat | i < |ids| && j < |ids|
      ensures Together(groups, ids[i], ids[j]) <==> Connected(kws, i, j)
    {
      hide Together, Connected, Sound, Complete, GroupedBy, Partitions;
      ClassesAreComponents(ids, kws, root, i, j);
      GroupsAreClasses(ids, root, keys, groups, ids[i], ids[j]);
    }
  }

  lemma {:induction false} NoGroups()
    ensures Partitions([], [])
  {
  }

  /** The insertion-ordered dictionary from root to members. */
  method GroupByRoot(ids: seq<Id>, uf: UnionFind) returns (groups: seq<seq<Id>>, ghost keys: seq<Id>)
    requires uf.Valid() && forall x | x in ids :: x in uf.root
    modifies uf`parent
    ensures uf.Valid() && GroupedBy(ids, uf.root, keys, groups)
  {
    hide GroupedBy, Forest, Linked, Partitions;
    groups := [];
    var roots := [];
    NothingGrouped(uf.root);
    assert ids[..0] == [];
    for i := 0 to |ids|
      invariant uf.Valid() && |roots| == |groups|
      invariant GroupedBy(ids[..i], uf.root, roots, groups)
    {
      var r := uf.Find(ids[i]);
      assert ids[..i] + [ids[i]] == ids[..i + 1];
      var k := IndexOf(roots, r);
      if k < |roots| {
        GroupGrows(ids[..i], uf.root, roots, groups, ids[i], k);
        groups := groups[k := groups[k] + [ids[i]]];
      } else {
        GroupStarts(ids[..i], uf.root, roots, groups, ids[i]);
        roots := roots + [r];
        groups := groups + [[ids[i]]];
      }
    }
    assert ids[..|ids|] == ids;
    keys := roots;
  }

  lemma {:induction false} NothingGrouped(root: map<Id, Id>)
    ensures GroupedBy([], root, [], [])
  {
  }

  // ---------------------------------------------------------------- the shelves as a function of the books

  /** The classes in order of first appearance, each in input order. */
  function Grouping(ids: seq<Id>, root: map<Id, Id>): (r: seq<seq<Id>>)
    ensures |r| == |FirstRoots(ids, root)|
    ensures forall g | 0 <= g < |r| :: r[g] == ClassOf(ids, root, FirstRoots(ids, root)[g])
  {
    seq(|FirstRoots(ids, root)|, g requires 0 <= g < |FirstRoots(ids, root)| =>
      ClassOf(ids, root, FirstRoots(ids, root)[g]))
  }

  // The maps tell the same ids apart.
  ghost predicate SameClasses(ids: seq<Id>, r: map<Id, Id>, q: map<Id, Id>) {
    && (forall x | x in ids :: x in r && x in q)
    && forall x, y | x in ids && y in ids :: r[x] == r[y] <==> q[x] == q[y]
  }

  lemma {:induction false} ClassesAgree(seen: seq<Id>, r: map<Id, Id>, q: map<Id, Id>, a: Id, b: Id)
    requires forall x | x in seen :: x in r && x in q && (r[x] == a <==> q[x] == b)
    ensures ClassOf(seen, r, a) == ClassOf(seen, q, b)
  {
    if seen != [] {
      ClassesAgree(seen[..|seen| - 1], r, q, a, b);
    }
  }

  lemma {:induction false} RootsAgree(ids: seq<Id>, n: nat, r: map<Id, Id>, q: map<Id, Id>)
    requires SameClasses(ids, r, q) && n <= |ids|
    ensures var a, b := FirstRoots(ids[..n], r), FirstRoots(ids[..n], q);
            |a| == |b| && forall g, x | 0 <= g < |a| && x in ids :: r[x] == a[g] <==> q[x] == b[g]
  {
    if n > 0 {
      RootsAgree(ids, n - 1, r, q);
      var a, b := FirstRoots(ids[..n - 1], r), FirstRoots(ids[..n - 1], q);
      var y := ids[n - 1];
      assert ids[..n] == ids[..n - 1] + [y];
      OneMoreSeen(ids[..n - 1], r, y);
      OneMoreSeen(ids[..n - 1], q, y);
      assert r[y] in a <==> q[y] in b by {
        if r[y] in a {
          var g :| 0 <= g < |a| && a[g] == r[y];
          assert b[g] == q[y];
        }
        if q[y] in b {
          var g :| 0 <= g < |b| && b[g] == q[y];
          assert a[g] == r[y];
        }
      }
    }
  }

  /** The grouping depends on the classes only, not on which member stands for each. */
  lemma {:induction false} GroupingsAgree(ids: seq<Id>, r: map<Id, Id>, q: map<Id, Id>)
    requires SameClasses(ids, r, q)
    ensures Grouping(ids, r) == Grouping(ids, q)
  {
    assert ids[..|ids|] == ids;
    RootsAgree(ids, |ids|, r, q);
    forall g | 0 <= g < |Grouping(ids, r)| ensures Grouping(ids, r)[g] == Grouping(ids, q)[g] {
      ClassesAgree(ids, r, q, FirstRoots(ids, r)[g], FirstRoots(ids, q)[g]);
    }
  }

  // The first book of the component of the `i`-th.
  ghost function Leader(kws: seq<set<string>>, i: nat): (j: nat)
    requires i < |kws|
    ensures j < |kws| && Connected(kws, i, j) && forall k: nat | k < j :: !Connected(kws, i, k)
  {
    ConnectedSelf(kws, i);
    LeastConnected(kws, i, 0)
  }

  ghost function LeastConnected(kws: seq<set<string>>, i: nat, from: nat): (j: nat)
    requires from <= i < |kws| && Connected(kws, i, i)
    ensures from <= j <= i && Connected(kws, i, j) && forall k: nat | from <= k < j :: !Connected(kws, i, k)
    decreases i - from
  {
    if Connected(kws, i, from) then from else LeastConnected(kws, i, from + 1)
  }

  lemma {:induction false} LeadersTell(kws: seq<set<string>>, i: nat, j: nat)
    requires i < |kws| && j < |kws|
    ensures Leader(kws, i) == Leader(kws, j) <==> Connected(kws, i, j)
  {
    hide Connected;
    var a, b := Leader(kws, i), Leader(kws, j);
    if a == b {
      ConnectedBack(kws, j, b);
      ConnectedOn(kws, i, a, j);
    }
    if Connected(kws, i, j) {
      ConnectedBack(kws, i, j);
      ConnectedOn(kws, i, j, b);
      ConnectedOn(kws, j, i, a);
    }
  }

  ghost function LeaderMap(ids: seq<Id>, kws: seq<set<string>>): map<Id, Id>
    requires |ids| == |kws|
  {
    map x | x in ids :: ids[Leader(kws, IndexOf(ids, x))]
  }

  /** The connected components: listed by their first books, each in input order. */
  ghost function Components(ids: seq<Id>, kws: seq<set<string>>): seq<seq<Id>>
    requires |ids| == |kws|
  {
    Grouping(ids, LeaderMap(ids, kws))
  }

  lemma {:induction false} LeaderOf(ids: seq<Id>, kws: seq<set<string>>, i: nat)
    requires |ids| == |kws| && Distinct(ids) && i < |ids|
    ensures LeaderMap(ids, kws)[ids[i]] == ids[Leader(kws, i)]
  {
    assert IndexOf(ids, ids[i]) == i;
  }

  lemma {:induction false} GroupsAreTheComponents(ids: seq<Id>, kws: seq<set<string>>, root: map<Id, Id>,
                                                  keys: seq<Id>, groups: seq<seq<Id>>)
    requires |ids| == |kws| && Distinct(ids) && forall x | x in ids :: x in root
    requires Sound(ids, kws, root) && Complete(ids, kws, root, |ids|, 0) && GroupedBy(ids, root, keys, groups)
    ensures groups == Components(ids, kws)
  {
    hide Connected, Sound, Complete, Leader, Partitions;
    var q := LeaderMap(ids, kws);
    forall x, y | x in ids && y in ids ensures root[x] == root[y] <==> q[x] == q[y] {
      var i: nat :| i < |ids| && ids[i] == x;
      var j: nat :| j < |ids| && ids[j] == y;
      ClassesAreComponents(ids, kws, root, i, j);
      LeadersTell(kws, i, j);
      LeaderOf(ids, kws, i);
      LeaderOf(ids, kws, j);
    }
    GroupingsAgree(ids, root, q);
    assert groups == Grouping(ids, root);
  }

  /** Shelves from books: a partition in which two books share a shelf if and only if a chain
      of books sharing keywords joins them, in the order of the books. */
  method ClusterBooks(ids: seq<Id>, kws: seq<set<string>>) returns (shelves: seq<seq<Id>>)
    requires |ids| == |kws| && Distinct(ids)
    ensures shelves == Components(ids, kws)
    ensures Partitions(shelves, ids)
    ensures forall i: nat, j: nat | i < |ids| && j < |ids| ::
              Together(shelves, ids[i], ids[j]) <==> Connected(kws, i, j)
  {
    hide Sound, Complete, Connected, GroupedBy, Merged, Forest, Linked, Partitions, Together;
    shelves := [];
    if ids == [] {
      NoGroups();
      assert Components(ids, kws) == [];
      return;
    }
    var uf := new UnionFind(ids);
    AtStart(ids, kws, uf.root);
    for i := 0 to |ids|
      invariant uf.Valid() && fresh(uf) && uf.root.Keys == set x | x in ids
      invariant Sound(ids, kws, uf.root) && Complete(ids, kws, uf.root, i, 0)
    {
      SkippedPairsShareNothing(ids, kws, uf.root, i, 0);
      if kws[i] != {} {
        for j := i + 1 to |ids|
          invariant uf.Valid() && fresh(uf) && uf.root.Keys == set x | x in ids
          invariant Sound(ids, kws, uf.root) && Complete(ids, kws, uf.root, i, j)
        {
          SkippedPairsShareNothing(ids, kws, uf.root, i, j);
          if kws[i] * kws[j] != {} {
            UnionKeepsSound(ids, kws, uf.root, i, j);
            UnionKeepsComplete(ids, kws, uf.root, i, j);
            uf.Union(ids[i], ids[j]);
          }
        }
        SkippedPairsShareNothing(ids, kws, uf.root, i, |ids|);
      }
    }
    ghost var keys;
    shelves, keys := GroupByRoot(ids, uf);
    GroupsAreComponents(ids, kws, uf.root, keys, shelves);
    GroupsAreTheComponents(ids, kws, uf.root, keys, shelves);
  }
}
