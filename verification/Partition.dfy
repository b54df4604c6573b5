/** Grouping a list of ids into clusters. `Partitions` says that no cluster is empty and that
    together they hold every id as often as the list does; for a list without repeats the lemmas
    derive what a reader expects of a partition: every id is in some cluster, in no two, and the
    sizes add up. */
module Partition {
  import opened Sequences

  type Id = string

  function Whole(c: seq<Id>): seq<Id> {
    c
  }

  function Flatten(clusters: seq<seq<Id>>): seq<Id> {
    FlatMap(Whole, clusters)
  }

  ghost predicate Distinct<T>(s: seq<T>) {
    forall i, j | 0 <= i < j < |s| :: s[i] != s[j]
  }

  /** The clusters are non-empty and together hold every id exactly as often as `ids`. */
  ghost predicate Partitions(clusters: seq<seq<Id>>, ids: seq<Id>) {
    && (forall c | 0 <= c < |clusters| :: clusters[c] != [])
    && multiset(Flatten(clusters)) == multiset(ids)
  }

  ghost predicate Together(clusters: seq<seq<Id>>, x: Id, y: Id) {
    exists c :: 0 <= c < |clusters| && x in clusters[c] && y in clusters[c]
  }

  lemma {:induction false} FlattenAppend(clusters: seq<seq<Id>>, c: seq<Id>)
    ensures Flatten(clusters + [c]) == Flatten(clusters) + c
  {
    FlatMapConcat(Whole, clusters, [c]);
    FlatMapOne(Whole, c);
  }

  lemma {:induction false} FlattenGrow(clusters: seq<seq<Id>>, k: nat, x: Id)
    requires k < |clusters|
    ensures multiset(Flatten(clusters[k := clusters[k] + [x]])) == multiset(Flatten(clusters)) + multiset{x}
  {
    var pre, post := clusters[..k], clusters[k + 1..];
    assert clusters == (pre + [clusters[k]]) + post;
    assert clusters[k := clusters[k] + [x]] == (pre + [clusters[k] + [x]]) + post;
    FlatMapConcat(Whole, pre + [clusters[k]], post);
    FlatMapConcat(Whole, pre + [clusters[k] + [x]], post);
    FlattenAppend(pre, clusters[k]);
    FlattenAppend(pre, clusters[k] + [x]);
  }

  lemma {:induction false} InFlatten(clusters: seq<seq<Id>>, x: Id)
    ensures x in Flatten(clusters) <==> exists c :: 0 <= c < |clusters| && x in clusters[c]
  {
    if clusters != [] {
      InFlatten(clusters[1..], x);
      assert Flatten(clusters) == clusters[0] + Flatten(clusters[1..]);
      assert x in clusters[0] ==> exists c :: 0 <= c < |clusters| && x in clusters[c];
      if x in Flatten(clusters[1..]) {
        var c :| 0 <= c < |clusters[1..]| && x in clusters[1..][c];
        assert x in clusters[c + 1];
      } else if x !in clusters[0] {
        forall c | 0 <= c < |clusters| ensures x !in clusters[c] {
          if c > 0 {
            assert clusters[1..][c - 1] == clusters[c];
          }
        }
      }
    }
  }

  /** Every id of a partition lies in a cluster, and clusters hold nothing else. */
  lemma {:induction false} PartitionCovers(clusters: seq<seq<Id>>, ids: seq<Id>, x: Id)
    requires Partitions(clusters, ids)
    ensures x in ids <==> exists c :: 0 <= c < |clusters| && x in clusters[c]
  {
    InFlatten(clusters, x);
    assert x in multiset(ids) <==> x in ids;
    assert x in multiset(Flatten(clusters)) <==> x in Flatten(clusters);
  }

  /** When the ids are distinct, no id lies in two clusters, or twice in one. */
  lemma {:induction false} PartitionSeparates(clusters: seq<seq<Id>>, ids: seq<Id>, a: nat, b: nat, x: Id)
    requires Partitions(clusters, ids) && Distinct(ids)
    requires a < |clusters| && b < |clusters| && x in clusters[a] && x in clusters[b]
    ensures a == b && Distinct(clusters[a])
  {
    DistinctCounts(ids);
    assert multiset(Flatten(clusters)) == multiset(ids);
    if a < b {
      TwiceInFlatten(clusters, a, b, x);
    } else if b < a {
      TwiceInFlatten(clusters, b, a, x);
    }
    SplitAt(clusters, a);
    forall y ensures multiset(clusters[a])[y] <= 1 {
      assert multiset(Flatten(clusters))[y] <= 1;
    }
    CountsDistinct(clusters[a]);
  }

  lemma {:induction false} TwiceInFlatten(clusters: seq<seq<Id>>, lo: nat, hi: nat, x: Id)
    requires lo < hi < |clusters| && x in clusters[lo] && x in clusters[hi]
    ensures multiset(Flatten(clusters))[x] >= 2
  {
    SplitAt(clusters, lo);
    InFlatten(clusters[lo + 1..], x);
    assert clusters[lo + 1..][hi - lo - 1] == clusters[hi];
  }

  lemma {:induction false} SplitAt(clusters: seq<seq<Id>>, k: nat)
    requires k < |clusters|
    ensures multiset(Flatten(clusters))
         == multiset(Flatten(clusters[..k])) + multiset(clusters[k]) + multiset(Flatten(clusters[k + 1..]))
  {
    var pre, post := clusters[..k], clusters[k + 1..];
    assert clusters == (pre + [clusters[k]]) + post;
    FlatMapConcat(Whole, pre + [clusters[k]], post);
    FlattenAppend(pre, clusters[k]);
  }

  lemma {:induction false} DistinctCounts(s: seq<Id>)
    requires Distinct(s)
    ensures forall x :: multiset(s)[x] <= 1
  {
    if s != [] {
      var n := |s| - 1;
      DistinctCounts(s[..n]);
      assert s == s[..n] + [s[n]];
      assert s[n] !in s[..n];
      assert s[n] !in multiset(s[..n]);
      forall x ensures multiset(s)[x] <= 1 {
        assert multiset(s)[x] == multiset(s[..n])[x] + multiset{s[n]}[x];
      }
    }
  }

  lemma {:induction false} CountsDistinct(s: seq<Id>)
    requires forall x :: multiset(s)[x] <= 1
    ensures Distinct(s)
  {
    forall i, j | 0 <= i < j < |s| ensures s[i] != s[j] {
      assert s == s[..j] + s[j..];
      assert multiset(s)[s[i]] == multiset(s[..j])[s[i]] + multiset(s[j..])[s[i]];
      assert s[i] == s[..j][i] && s[j] == s[j..][0];
    }
  }

  function SumLengths(clusters: seq<seq<Id>>): nat {
    if clusters == [] then 0 else |clusters[0]| + SumLengths(clusters[1..])
  }

  /** The cluster sizes add up to the number of ids. */
  lemma {:induction false} PartitionSizes(clusters: seq<seq<Id>>, ids: seq<Id>)
    requires Partitions(clusters, ids)
    ensures SumLengths(clusters) == |ids|
  {
    FlattenLength(clusters);
    assert |multiset(Flatten(clusters))| == |Flatten(clusters)|;
    assert |multiset(ids)| == |ids|;
  }

  lemma {:induction false} FlattenLength(clusters: seq<seq<Id>>)
    ensures |Flatten(clusters)| == SumLengths(clusters)
  {
    if clusters != [] {
      FlattenLength(clusters[1..]);
    }
  }
}
