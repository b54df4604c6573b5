/** A keyed table and the minimal-diff sync that brings its owned rows to a target list. */
module TableSync {
  import opened Partition

  // How the sync sees a row: its key, whether the generator owns it, and whether a stored row
  // may stand for a target of the same key.
  datatype Policy<!T> = Policy(id: T -> Id, owned: (Id, T) -> bool, same: (T, T) -> bool)

  /** A target is written unless an owned row of its key may stand for it. */
  predicate IsCurrent<T>(p: Policy<T>, rows: map<Id, T>, t: T) {
    p.id(t) in rows && p.owned(p.id(t), rows[p.id(t)]) && p.same(rows[p.id(t)], t)
  }

  function Writes<T>(p: Policy<T>, rows: map<Id, T>, targets: seq<T>): seq<T> {
    if targets == [] then []
    else
      var last := targets[|targets| - 1];
      Writes(p, rows, targets[..|targets| - 1]) + (if IsCurrent(p, rows, last) then [] else [last])
  }

  function Ids<T>(p: Policy<T>, targets: seq<T>): set<Id> {
    set i | 0 <= i < |targets| :: p.id(targets[i])
  }

  function Stale<T>(p: Policy<T>, rows: map<Id, T>, targets: seq<T>): set<Id> {
    set id | id in rows && p.owned(id, rows[id]) && id !in Ids(p, targets)
  }

  /** Insert-or-replace of each row in turn. */
  function Puts<T>(p: Policy<T>, rows: map<Id, T>, ts: seq<T>): (r: map<Id, T>)
    ensures rows.Keys <= r.Keys
  {
    if ts == [] then rows
    else Puts(p, rows, ts[..|ts| - 1])[p.id(ts[|ts| - 1]) := ts[|ts| - 1]]
  }

  function Synced<T>(p: Policy<T>, rows: map<Id, T>, targets: seq<T>): map<Id, T> {
    Puts(p, rows, Writes(p, rows, targets)) - Stale(p, rows, targets)
  }

  // How many rows a sync writes or deletes.
  function Changes<T>(p: Policy<T>, rows: map<Id, T>, targets: seq<T>): nat {
    |Writes(p, rows, targets)| + |Stale(p, rows, targets)|
  }

  ghost predicate DistinctIds<T>(p: Policy<T>, ts: seq<T>) {
    forall i, j | 0 <= i < j < |ts| :: p.id(ts[i]) != p.id(ts[j])
  }

  ghost predicate AllOwned<T>(p: Policy<T>, ts: seq<T>) {
    forall i | 0 <= i < |ts| :: p.owned(p.id(ts[i]), ts[i])
  }

  // Ownership is a matter of what `same` compares: a row that may stand for an owned target
  // was checked to be owned itself.
  function Kept<T>(p: Policy<T>, rows: map<Id, T>, t: T): T {
    if IsCurrent(p, rows, t) then rows[p.id(t)] else t
  }

  lemma {:induction false} PutsOne<T>(p: Policy<T>, rows: map<Id, T>, front: seq<T>, last: T)
    ensures Puts(p, rows, Writes(p, rows, front + [last]))
         == if IsCurrent(p, rows, last) then Puts(p, rows, Writes(p, rows, front))
            else Puts(p, rows, Writes(p, rows, front))[p.id(last) := last]
    ensures |Writes(p, rows, front + [last])| == |Writes(p, rows, front)| + if IsCurrent(p, rows, last) then 0 else 1
  {
    assert (front + [last])[..|front|] == front;
    var writes := Writes(p, rows, front);
    assert (writes + [last])[..|writes|] == writes;
    assert writes + [] == writes;
  }

  /** After the writes, a target's key holds the target (or the row that stands for it). */
  lemma {:induction false} PutsAtTarget<T>(p: Policy<T>, rows: map<Id, T>, targets: seq<T>, i: nat)
    requires DistinctIds(p, targets) && i < |targets|
    ensures var after := Puts(p, rows, Writes(p, rows, targets));
            p.id(targets[i]) in after && after[p.id(targets[i])] == Kept(p, rows, targets[i])
    decreases |targets|
  {
    var k := |targets| - 1;
    var front, last := targets[..k], targets[k];
    assert targets == front + [last];
    PutsOne(p, rows, front, last);
    if i < k {
      PutsAtTarget(p, rows, front, i);
    } else {
      PutsElsewhere(p, rows, front, p.id(last));
    }
  }

  /** Keys that are no target keep their row. */
  lemma {:induction false} PutsElsewhere<T>(p: Policy<T>, rows: map<Id, T>, targets: seq<T>, id: Id)
    requires forall i | 0 <= i < |targets| :: p.id(targets[i]) != id
    ensures var after := Puts(p, rows, Writes(p, rows, targets));
            (id in after <==> id in rows) && (id in rows ==> after[id] == rows[id])
    decreases |targets|
  {
    if targets != [] {
      var k := |targets| - 1;
      var front, last := targets[..k], targets[k];
      assert targets == front + [last];
      PutsOne(p, rows, front, last);
      PutsElsewhere(p, rows, front, id);
    }
  }

  /** The table after a sync, key by key: targets hold themselves or the row standing for
      them, rows neither owned nor targeted are untouched, and nothing else is left. */
  lemma {:induction false} SyncedTable<T>(p: Policy<T>, rows: map<Id, T>, targets: seq<T>)
    requires DistinctIds(p, targets)
    ensures var after := Synced(p, rows, targets);
            && (forall i | 0 <= i < |targets| ::
                  p.id(targets[i]) in after && after[p.id(targets[i])] == Kept(p, rows, targets[i]))
            && (forall id | id !in Ids(p, targets) ::
                  (id in after <==> id in rows && !p.owned(id, rows[id])) && (id in after ==> after[id] == rows[id]))
  {
    forall i | 0 <= i < |targets|
      ensures var after := Synced(p, rows, targets);
              p.id(targets[i]) in after && after[p.id(targets[i])] == Kept(p, rows, targets[i])
    {
      PutsAtTarget(p, rows, targets, i);
      assert p.id(targets[i]) in Ids(p, targets);
    }
    forall id | id !in Ids(p, targets)
      ensures var after := Synced(p, rows, targets);
              (id in after <==> id in rows && !p.owned(id, rows[id])) && (id in after ==> after[id] == rows[id])
    {
      PutsElsewhere(p, rows, targets, id);
    }
  }

  /** When every target is owned, the owned keys after a sync are exactly the targets'. */
  lemma {:induction false} OwnedKeysAreTargets<T>(p: Policy<T>, rows: map<Id, T>, targets: seq<T>)
    requires DistinctIds(p, targets) && AllOwned(p, targets)
    ensures var after := Synced(p, rows, targets);
            (set id | id in after && p.owned(id, after[id])) == Ids(p, targets)
  {
    SyncedTable(p, rows, targets);
  }

  // The table lacks this target: no row of its key, or none that is owned and may stand for it.
  ghost predicate Lacks<T>(p: Policy<T>, rows: map<Id, T>, t: T) {
    p.id(t) in rows ==> !p.owned(p.id(t), rows[p.id(t)]) || !p.same(rows[p.id(t)], t)
  }

  ghost predicate IsNoTarget<T>(p: Policy<T>, targets: seq<T>, id: Id) {
    forall i | 0 <= i < |targets| :: p.id(targets[i]) != id
  }

  /** A sync writes once for each target that the table lacks and deletes once for each row that is
      owned and no target's. */
  lemma {:induction false} ChangesCount<T>(p: Policy<T>, rows: map<Id, T>, targets: seq<T>)
    ensures Changes(p, rows, targets)
         == |set i: nat | i < |targets| && Lacks(p, rows, targets[i])|
            + |set id | id in rows && p.owned(id, rows[id]) && IsNoTarget(p, targets, id)|
  {
    hide Lacks, IsCurrent;
    WritesCount(p, rows, targets, |targets|);
    assert targets[..|targets|] == targets;
    assert LackedPlaces(p, rows, targets, |targets|)
        == set i: nat | i < |targets| && Lacks(p, rows, targets[i]);
    assert Stale(p, rows, targets) == set id | id in rows && p.owned(id, rows[id]) && IsNoTarget(p, targets, id);
  }

  ghost function LackedPlaces<T>(p: Policy<T>, rows: map<Id, T>, targets: seq<T>, n: nat): set<nat> {
    set i: nat | i < n && i < |targets| && Lacks(p, rows, targets[i])
  }

  lemma {:induction false} WritesCount<T>(p: Policy<T>, rows: map<Id, T>, targets: seq<T>, n: nat)
    requires n <= |targets|
    ensures |Writes(p, rows, targets[..n])| == |LackedPlaces(p, rows, targets, n)|
  {
    if n > 0 {
      WritesCount(p, rows, targets, n - 1);
      assert targets[..n] == targets[..n - 1] + [targets[n - 1]];
      PutsOne(p, rows, targets[..n - 1], targets[n - 1]);
      assert LackedPlaces(p, rows, targets, n)
          == LackedPlaces(p, rows, targets, n - 1) + if Lacks(p, rows, targets[n - 1]) then {n - 1} else {};
    } else {
      assert LackedPlaces(p, rows, targets, n) == {} && targets[..0] == [];
    }
  }

  lemma {:induction false} NothingToWrite<T>(p: Policy<T>, rows: map<Id, T>, targets: seq<T>)
    requires forall i | 0 <= i < |targets| :: IsCurrent(p, rows, targets[i])
    ensures Writes(p, rows, targets) == []
  {
    if targets != [] {
      NothingToWrite(p, rows, targets[..|targets| - 1]);
    }
  }

  /** A second sync with the same targets has nothing to write and nothing to delete. */
  lemma {:induction false} SyncIsIdempotent<T(!new)>(p: Policy<T>, rows: map<Id, T>, targets: seq<T>)
    requires DistinctIds(p, targets) && AllOwned(p, targets)
    requires forall t :: p.same(t, t)
    ensures var after := Synced(p, rows, targets);
            Writes(p, after, targets) == [] && Stale(p, after, targets) == {} && Synced(p, after, targets) == after
  {
    var after := Synced(p, rows, targets);
    SyncedTable(p, rows, targets);
    NothingToWrite(p, after, targets);
    assert Stale(p, after, targets) == {};
  }

  class Table<T(==)> {
    const policy: Policy<T>
    var rows: map<Id, T>
    var changes: nat   // rows written or deleted so far

    constructor (policy: Policy<T>)
      ensures this.policy == policy && rows == map[] && changes == 0
    {
      this.policy := policy;
      rows := map[];
      changes := 0;
    }

    /** Every row once, in whatever order the database returns them. */
    method LoadAll() returns (keys: seq<Id>)
      ensures Distinct(keys) && forall id :: id in keys <==> id in rows
    {
      keys := [];
      var left := rows.Keys;
      while left != {}
        invariant left <= rows.Keys && Distinct(keys)
        invariant forall id :: id in keys <==> id in rows.Keys - left
        decreases |left|
      {
        var id :| id in left;
        assert id !in keys;
        left := left - {id};
        keys := keys + [id];
      }
    }

    method Write(t: T)
      modifies this
      ensures rows == old(rows)[policy.id(t) := t] && changes == old(changes) + 1
    {
      rows := rows[policy.id(t) := t];
      changes := changes + 1;
    }

    method Delete(id: Id)
      modifies this
      ensures rows == old(rows) - {id} && changes == old(changes) + if id in old(rows) then 1 else 0
    {
      if id in rows {
        changes := changes + 1;
      }
      rows := rows - {id};
    }

    method WriteTargets(existing: map<Id, T>, targets: seq<T>)
      requires existing == map id | id in rows && policy.owned(id, rows[id]) :: rows[id]
      modifies this
      ensures rows == Puts(policy, old(rows), Writes(policy, old(rows), targets))
      ensures changes == old(changes) + |Writes(policy, old(rows), targets)|
    {
      hide Puts;
      ghost var before := rows;
      NothingPut(policy, before);
      assert targets[..0] == [];
      for i := 0 to |targets|
        invariant rows == Puts(policy, before, Writes(policy, before, targets[..i]))
        invariant changes == old(changes) + |Writes(policy, before, targets[..i])|
      {
        var t := targets[i];
        assert targets[..i + 1] == targets[..i] + [t];
        PutsOne(policy, before, targets[..i], t);
        if policy.id(t) !in existing || !policy.same(existing[policy.id(t)], t) {
          Write(t);
        }
      }
      assert targets[..|targets|] == targets;
    }

    method DeleteUnless(existing: set<Id>, wanted: set<Id>)
      requires existing <= rows.Keys
      modifies this
      ensures rows == old(rows) - (existing - wanted)
      ensures changes == old(changes) + |existing - wanted|
    {
      var left := existing;
      ghost var gone := {};
      while left != {}
        invariant left <= existing && gone == existing - wanted - left
        invariant rows == old(rows) - gone && changes == old(changes) + |gone|
        decreases |left|
      {
        var id :| id in left;
        left := left - {id};
        if id !in wanted {
          gone := gone + {id};
          Delete(id);
        }
      }
      assert gone == existing - wanted;
    }

    /** Writes the targets that differ, then deletes the owned rows that are no target. */
    method Sync(targets: seq<T>)
      modifies this
      ensures rows == Synced(policy, old(rows), targets)
      ensures changes == old(changes) + Changes(policy, old(rows), targets)
    {
      hide Puts, Writes;
      var existing := map id | id in rows && policy.owned(id, rows[id]) :: rows[id];
      WriteTargets(existing, targets);
      DeleteUnless(existing.Keys, Ids(policy, targets));
      assert existing.Keys - Ids(policy, targets) == Stale(policy, old(rows), targets);
    }
  }

  lemma {:induction false} NothingPut<T>(p: Policy<T>, rows: map<Id, T>)
    ensures Puts(p, rows, Writes(p, rows, [])) == rows && Writes(p, rows, []) == []
  {
  }
}
