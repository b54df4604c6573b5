/** What the shelves are, said of books and words alone: a common word brings two books together,
    nothing else does, and shelves and books keep the order in which the books came. */
module ShelfOrder {
  import opened Partition
  import opened BookClusters
  import Chains

  // ---------------------------------------------------------------- which books stand together

  lemma {:induction false} PrefixIsGrouped(ids: seq<Id>, root: map<Id, Id>, n: nat)
    returns (keys: seq<Id>, groups: seq<seq<Id>>)
    requires n <= |ids| && forall x | x in ids :: x in root
    ensures GroupedBy(ids[..n], root, keys, groups)
  {
    hide GroupedBy;
    if n == 0 {
      keys, groups := [], [];
      NothingGrouped(root);
      assert ids[..0] == [];
    } else {
      keys, groups := PrefixIsGrouped(ids, root, n - 1);
      var x, seen := ids[n - 1], ids[..n - 1];
      assert ids[..n] == seen + [x];
      if k :| 0 <= k < |keys| && keys[k] == root[x] {
        GroupGrows(seen, root, keys, groups, x, k);
        groups := groups[k := groups[k] + [x]];
      } else {
        GroupStarts(seen, root, keys, groups, x);
        keys, groups := keys + [root[x]], groups + [[x]];
      }
    }
  }

  lemma {:induction false} SharersConnect(kws: seq<set<string>>, i: nat, j: nat)
    requires i < |kws| && j < |kws| && Shares(kws, i, j)
    ensures BookClusters.Connected(kws, i, j)
  {
    ConnectedSelf(kws, i);
    Chains.ConnectedStep(ByKeyword(kws), |kws|, i, i, j);
  }

  lemma {:induction false} LeadersAreSound(ids: seq<Id>, kws: seq<set<string>>)
    requires |ids| == |kws| && Distinct(ids)
    ensures forall x | x in ids :: x in LeaderMap(ids, kws)
    ensures Sound(ids, kws, LeaderMap(ids, kws)) && Complete(ids, kws, LeaderMap(ids, kws), |ids|, 0)
  {
    hide Leader, BookClusters.Connected, Shares;
    forall i: nat, j: nat | i < |ids| && j < |ids|
      ensures LeaderMap(ids, kws)[ids[i]] == LeaderMap(ids, kws)[ids[j]] <==> BookClusters.Connected(kws, i, j)
      ensures Shares(kws, i, j) ==> BookClusters.Connected(kws, i, j)
    {
      LeaderOf(ids, kws, i);
      LeaderOf(ids, kws, j);
      LeadersTell(kws, i, j);
      assert ids[Leader(kws, i)] == ids[Leader(kws, j)] <==> Leader(kws, i) == Leader(kws, j);
      if Shares(kws, i, j) { SharersConnect(kws, i, j); }
    }
  }

  lemma {:induction false} ComponentsAreGrouped(ids: seq<Id>, kws: seq<set<string>>)
    requires |ids| == |kws| && Distinct(ids)
    ensures Partitions(Components(ids, kws), ids)
    ensures forall i: nat, j: nat | i < |ids| && j < |ids| ::
              Together(Components(ids, kws), ids[i], ids[j]) <==> BookClusters.Connected(kws, i, j)
  {
    hide BookClusters.Connected, Sound, Complete, LeaderMap, Leader, Partitions, Together;
    var root := LeaderMap(ids, kws);
    LeadersAreSound(ids, kws);
    var keys, groups := PrefixIsGrouped(ids, root, |ids|);
    assert ids[..|ids|] == ids;
    GroupsAreComponents(ids, kws, root, keys, groups);
    assert groups == Grouping(ids, root);
  }

  /** Two books with a word in common stand on one shelf. */
  lemma {:induction false} CommonWordOneShelf(ids: seq<Id>, kws: seq<set<string>>, i: nat, j: nat, w: string)
    requires |ids| == |kws| && Distinct(ids) && i < |ids| && j < |ids| && w in kws[i] && w in kws[j]
    ensures exists g :: 0 <= g < |Components(ids, kws)|
                        && ids[i] in Components(ids, kws)[g] && ids[j] in Components(ids, kws)[g]
  {
    hide Components, BookClusters.Connected, Partitions;
    ComponentsAreGrouped(ids, kws);
    assert w in kws[i] * kws[j];
    SharersConnect(kws, i, j);
    assert Together(Components(ids, kws), ids[i], ids[j]);
  }

  /** Nothing but words in common brings books together: whatever is the same for books with a
      common word is the same for all books of a shelf. */
  lemma {:induction false} ShelvesAreFinest(ids: seq<Id>, kws: seq<set<string>>, colour: nat -> int, i: nat, j: nat,
                                            g: nat)
    requires |ids| == |kws| && Distinct(ids) && i < |ids| && j < |ids|
    requires forall a: nat, b: nat, w | a < |kws| && b < |kws| && w in kws[a] && w in kws[b] :: colour(a) == colour(b)
    requires g < |Components(ids, kws)| && ids[i] in Components(ids, kws)[g] && ids[j] in Components(ids, kws)[g]
    ensures colour(i) == colour(j)
  {
    hide Components, Partitions;
    ComponentsAreGrouped(ids, kws);
    assert Together(Components(ids, kws), ids[i], ids[j]);
    var link := ByKeyword(kws);
    var path :| Chains.Chain(link, |kws|, path) && path[0] == i && path[|path| - 1] == j;
    var same: Chains.Link := (a: nat, b: nat) => colour(a) == colour(b);
    forall a: nat, b: nat | a < |kws| && b < |kws| && link(a, b) ensures same(a, b) {
      var w :| w in kws[a] * kws[b];
    }
    Chains.ChainKeeps(link, |kws|, path, same);
  }

  // ---------------------------------------------------------------- in which order

  // Every two entries of `c` come in the order they have among the first `n` ids.
  ghost predicate InOrder(ids: seq<Id>, n: nat, c: seq<Id>) {
    && n <= |ids|
    && (forall x | x in c :: exists i :: 0 <= i < n && ids[i] == x)
    && forall k, l, i, j | 0 <= k < l < |c| && 0 <= i < n && 0 <= j < n && c[k] == ids[i] && c[l] == ids[j] :: i < j
  }

  lemma {:induction false} ClassInOrder(ids: seq<Id>, n: nat, root: map<Id, Id>, key: Id)
    requires Distinct(ids) && n <= |ids| && forall x | x in ids :: x in root
    ensures InOrder(ids, n, ClassOf(ids[..n], root, key))
  {
    if n > 0 {
      ClassInOrder(ids, n - 1, root, key);
      var x, before := ids[n - 1], ClassOf(ids[..n - 1], root, key);
      assert ids[..n] == ids[..n - 1] + [x];
      OneMoreSeen(ids[..n - 1], root, x);
      hide ClassOf;
      LaterInOrder(ids, n - 1, before);
    } else {
      assert ids[..0] == [];
    }
  }

  lemma {:induction false} LaterInOrder(ids: seq<Id>, n: nat, c: seq<Id>)
    requires Distinct(ids) && n < |ids| && InOrder(ids, n, c)
    ensures InOrder(ids, n + 1, c) && InOrder(ids, n + 1, c + [ids[n]])
  {
    var d := c + [ids[n]];
    forall x | x in d ensures exists i :: 0 <= i < n + 1 && ids[i] == x {
      if x in c {
        var i :| 0 <= i < n && ids[i] == x;
        assert ids[i] == x;
      } else {
        assert ids[n] == x;
      }
    }
    forall k, l, i, j | 0 <= k < l < |d| && 0 <= i < n + 1 && 0 <= j < n + 1 && d[k] == ids[i] && d[l] == ids[j]
      ensures i < j
    {
      assert d[k] in c;
      var p :| 0 <= p < n && ids[p] == d[k];
      assert p == i;
      if l < |c| {
        assert d[l] in c;
        var q :| 0 <= q < n && ids[q] == d[l];
        assert q == j;
      }
    }
    assert forall k | 0 <= k < |c| :: c[k] == d[k];
    assert forall x | x in c :: x in d;
  }

  // The first entries of the classes come in the order of the classes.
  ghost predicate FirstsInOrder(ids: seq<Id>, n: nat, root: map<Id, Id>)
    requires n <= |ids|
  {
    var r := FirstRoots(ids[..n], root);
    && (forall g | 0 <= g < |r| :: ClassOf(ids[..n], root, r[g]) != [])
    && forall g, h, i, j | 0 <= g < h < |r| && 0 <= i < n && 0 <= j < n
                           && ClassOf(ids[..n], root, r[g])[0] == ids[i] && ClassOf(ids[..n], root,
                           r[h])[0] == ids[j] ::
         i < j
  }

  lemma {:induction false} RootsInOrder(ids: seq<Id>, n: nat, root: map<Id, Id>)
    requires Distinct(ids) && n <= |ids| && forall x | x in ids :: x in root
    ensures FirstsInOrder(ids, n, root)
  {
    if n == 0 {
      assert ids[..0] == [];
    } else {
      RootsInOrder(ids, n - 1, root);
      OneMoreFirst(ids, n - 1, root);
    }
  }

  lemma {:induction false} OneMoreFirst(ids: seq<Id>, n: nat, root: map<Id, Id>)
    requires Distinct(ids) && n < |ids| && (forall x | x in ids :: x in root) && FirstsInOrder(ids, n, root)
    ensures FirstsInOrder(ids, n + 1, root)
  {
    hide ClassOf, FirstRoots;
    var x, seen := ids[n], ids[..n];
    var before, r := FirstRoots(seen, root), FirstRoots(ids[..n + 1], root);
    assert ids[..n + 1] == seen + [x];
    OneMoreSeen(seen, root, x);
    if root[x] !in before { UnseenClass(seen, root, root[x]); }
    forall g | 0 <= g < |r|
      ensures ClassOf(ids[..n + 1], root, r[g]) != []
      ensures g < |before| ==> r[g] == before[g]
      ensures ClassOf(ids[..n + 1], root, r[g])[0] == if g < |before| then ClassOf(seen, root, r[g])[0] else x
    {
      if g < |before| {
        assert ClassOf(seen, root, before[g]) != [];
      }
    }
    forall g, h, i, j | 0 <= g < h < |r| && 0 <= i < n + 1 && 0 <= j < n + 1
                        && ClassOf(ids[..n + 1], root, r[g])[0] == ids[i]
                        && ClassOf(ids[..n + 1], root, r[h])[0] == ids[j]
      ensures i < j
    {
      FirstWasSeen(ids, n, root, r[g], i);
      if h < |before| {
        FirstWasSeen(ids, n, root, r[h], j);
      } else {
        assert ids[j] == ids[n];
      }
    }
  }

  lemma {:induction false} FirstWasSeen(ids: seq<Id>, n: nat, root: map<Id, Id>, key: Id, i: nat)
    requires Distinct(ids) && n < |ids| && (forall x | x in ids :: x in root) && i <= n
    requires ClassOf(ids[..n], root, key) != [] && ClassOf(ids[..n], root, key)[0] == ids[i]
    ensures i < n
  {
    ClassInOrder(ids, n, root, key);
    hide ClassOf;
    var c := ClassOf(ids[..n], root, key);
    assert c[0] in c;
    var k :| 0 <= k < n && ids[k] == c[0];
    assert k == i;
  }

  /** Shelves come in the order of their first books, and books in the order given. */
  lemma {:induction false} ShelvesKeepOrder(ids: seq<Id>, kws: seq<set<string>>)
    requires |ids| == |kws| && Distinct(ids)
    ensures var shelves := Components(ids, kws);
            && (forall g | 0 <= g < |shelves| :: shelves[g] != [])
            && (forall g, h, i, j | 0 <= g < h < |shelves| && 0 <= i < |ids| && 0 <= j < |ids|
                                    && shelves[g][0] == ids[i] && shelves[h][0] == ids[j] :: i < j)
            && (forall g, k, l, i, j | 0 <= g < |shelves| && 0 <= k < l < |shelves[g]|
                                       && 0 <= i < |ids| && 0 <= j < |ids|
                                       && shelves[g][k] == ids[i] && shelves[g][l] == ids[j] :: i < j)
  {
    hide LeaderMap, ClassOf, FirstRoots;
    var root := LeaderMap(ids, kws);
    LeadersAreSound(ids, kws);
    RootsInOrder(ids, |ids|, root);
    assert ids[..|ids|] == ids;
    var shelves, r := Components(ids, kws), FirstRoots(ids, root);
    forall g | 0 <= g < |shelves| ensures InOrder(ids, |ids|, shelves[g]) && shelves[g] == ClassOf(ids, root, r[g]) {
      ClassInOrder(ids, |ids|, root, r[g]);
    }
  }
}
