/** Retrieval metrics and the benchmark runners that average them, with reals for floats. */
module Metrics {
  import opened Option
  import opened Partition

  // ---------------------------------------------------------------- one query

  /** The place of the first relevant document, counted from 0. */
  function FirstHit(relevant: string, retrieved: seq<string>): (i: Option<nat>)
    ensures i.Some? ==> i.value < |retrieved| && retrieved[i.value] == relevant
    ensures i.Some? ==> forall k | 0 <= k < i.value :: retrieved[k] != relevant
    ensures i.None? ==> relevant !in retrieved
  {
    if retrieved == [] then None
    else if retrieved[0] == relevant then Some(0)
    else
      match FirstHit(relevant, retrieved[1..])
      case None => None
      case Some(k) =>
        assert forall j | 0 < j < k + 1 :: retrieved[j] == retrieved[1..][j - 1];
        Some(k + 1)
  }

  function Min(a: nat, b: nat): nat {
    if a <= b then a else b
  }

  function RecallAtK(relevant: string, retrieved: seq<string>, k: nat): real {
    if retrieved == [] then 0.0
    else if relevant in retrieved[..Min(k, |retrieved|)] then 1.0
    else 0.0
  }

  method ReciprocalRank(relevant: string, retrieved: seq<string>) returns (r: real)
    ensures r == RankScore(FirstHit(relevant, retrieved))
  {
    for i := 0 to |retrieved|
      invariant forall k | 0 <= k < i :: retrieved[k] != relevant
    {
      if retrieved[i] == relevant {
        return 1.0 / (i as real + 1.0);
      }
    }
    return 0.0;
  }

  function RankScore(i: Option<nat>): real {
    match i
    case None => 0.0
    case Some(k) => 1.0 / (k as real + 1.0)
  }

  function Hit(i: Option<nat>, k: nat): real {
    if i.Some? && i.value < k then 1.0 else 0.0
  }

  /** Recall@K asks whether the first hit is among the first K. */
  lemma {:induction false} RecallIsEarlyHit(relevant: string, retrieved: seq<string>, k: nat)
    ensures RecallAtK(relevant, retrieved, k) == Hit(FirstHit(relevant, retrieved), k)
  {
    var i := FirstHit(relevant, retrieved);
    var top := retrieved[..Min(k, |retrieved|)];
    if i.Some? && i.value < k {
      assert top[i.value] == relevant;
    }
  }

  // ---------------------------------------------------------------- bounds on one query

  function Lower(r1: real, r3: real, r5: real): real {
    r1 + (r3 - r1) / 3.0 + (r5 - r3) / 5.0
  }

  function Upper(r1: real, r3: real, r5: real, all: real): real {
    r1 + (r3 - r1) / 2.0 + (r5 - r3) / 4.0 + (all - r5) / 6.0
  }

  lemma {:induction false} RankScoreDecreases(k: nat, m: nat)
    requires k < m
    ensures 0.0 < 1.0 / (m as real + 1.0) < 1.0 / (k as real + 1.0)
  {
    var x, y := k as real + 1.0, m as real + 1.0;
    var u, v := 1.0 / x, 1.0 / y;
    assert u * x == 1.0 && v * y == 1.0;
    assert v > 0.0;
    assert v * (y - x) > 0.0;
    TimesOrders(u, v, x);
  }

  lemma {:induction false} TimesOrders(x: real, y: real, v: real)
    requires v > 0.0
    ensures x <= y <==> x * v <= y * v
  {
    if x > y { assert (x - y) * v > 0.0; } else { assert (y - x) * v >= 0.0; }
  }

  /** The reciprocal rank of a query lies between the bounds that its recalls give; it meets the
      lower one exactly at ranks 1, 3, 5 or none, the upper one exactly at 1, 2, 4 and 6. */
  lemma {:induction false} RankWithinRecalls(i: Option<nat>)
    ensures var r1, r3, r5, rr := Hit(i, 1), Hit(i, 3), Hit(i, 5), RankScore(i);
            && r1 <= r3 <= r5
            && Lower(r1, r3, r5) <= rr <= Upper(r1, r3, r5, 1.0)
            && (rr == Lower(r1, r3, r5) <==> i in {None, Some(0), Some(2), Some(4)})
            && (rr == Upper(r1, r3, r5, 1.0) <==> i in {Some(0), Some(1), Some(3), Some(5)})
  {
    if i.Some? && i.value > 5 {
      RankScoreDecreases(5, i.value);
    }
  }

  // ---------------------------------------------------------------- averages

  function Sum(xs: seq<real>): real {
    if xs == [] then 0.0 else Sum(xs[..|xs| - 1]) + xs[|xs| - 1]
  }

  function Mean(xs: seq<real>): real {
    if xs == [] then 0.0 else Sum(xs) / |xs| as real
  }

  // What the runner keeps of a task, once the retriever has answered its query.
  datatype Query = Query(expected: string, retrieved: seq<string>)

  function Recalls(qs: seq<Query>, k: nat): (r: seq<real>)
    ensures |r| == |qs|
  {
    seq(|qs|, i requires 0 <= i < |qs| => RecallAtK(qs[i].expected, qs[i].retrieved, k))
  }

  function Ranks(qs: seq<Query>): (r: seq<real>)
    ensures |r| == |qs|
  {
    seq(|qs|, i requires 0 <= i < |qs| => RankScore(FirstHit(qs[i].expected, qs[i].retrieved)))
  }

  datatype Scores = Scores(recallAt1: real, recallAt3: real, recallAt5: real, mrr: real, n: nat)

  function Score(qs: seq<Query>): Scores {
    Scores(Mean(Recalls(qs, 1)), Mean(Recalls(qs, 3)), Mean(Recalls(qs, 5)), Mean(Ranks(qs)), |qs|)
  }

  method ComputeSkillBench(tasks: seq<Task>, retrieve: string -> seq<string>) returns (s: Scores)
    ensures s == Score(Answered(tasks, retrieve))
  {
    hide RecallAtK, RankScore, FirstHit, Sum;
    var qs := Answered(tasks, retrieve);
    if tasks == [] {
      return Scores(0.0, 0.0, 0.0, 0.0, 0);
    }
    var r1, r3, r5, mrr := [], [], [], [];
    for k := 0 to |tasks|
      invariant r1 == Recalls(qs, 1)[..k] && r3 == Recalls(qs, 3)[..k] && r5 == Recalls(qs, 5)[..k]
      invariant mrr == Ranks(qs)[..k]
    {
      var hits := retrieve(tasks[k].query);
      var rr := ReciprocalRank(tasks[k].expected, hits);
      r1 := r1 + [RecallAtK(tasks[k].expected, hits, 1)];
      r3 := r3 + [RecallAtK(tasks[k].expected, hits, 3)];
      r5 := r5 + [RecallAtK(tasks[k].expected, hits, 5)];
      mrr := mrr + [rr];
    }
    s := Scores(Mean(r1), Mean(r3), Mean(r5), Mean(mrr), |tasks|);
    assert r1 == Recalls(qs, 1) && r3 == Recalls(qs, 3) && r5 == Recalls(qs, 5) && mrr == Ranks(qs);
  }

  datatype Task = Task(query: string, expected: string)

  function Answered(tasks: seq<Task>, retrieve: string -> seq<string>): (qs: seq<Query>)
    ensures |qs| == |tasks|
    ensures forall i | 0 <= i < |tasks| :: qs[i] == Query(tasks[i].expected, retrieve(tasks[i].query))
  {
    seq(|tasks|, i requires 0 <= i < |tasks| => Query(tasks[i].expected, retrieve(tasks[i].query)))
  }

  predicate MeetsLower(q: Query) {
    FirstHit(q.expected, q.retrieved) in {None, Some(0), Some(2), Some(4)}
  }

  predicate MeetsUpper(q: Query) {
    FirstHit(q.expected, q.retrieved) in {Some(0), Some(1), Some(3), Some(5)}
  }

  lemma {:induction false} LastQuery(qs: seq<Query>)
    requires qs != []
    ensures var n := |qs| - 1;
            var i := FirstHit(qs[n].expected, qs[n].retrieved);
            && (forall k: nat {:trigger Recalls(qs, k)} ::
                  Sum(Recalls(qs, k)) == Sum(Recalls(qs[..n], k)) + Hit(i, k))
            && Sum(Ranks(qs)) == Sum(Ranks(qs[..n])) + RankScore(i)
  {
    var n := |qs| - 1;
    forall k: nat
      ensures Sum(Recalls(qs, k)) == Sum(Recalls(qs[..n], k)) + Hit(FirstHit(qs[n].expected, qs[n].retrieved), k)
    {
      RecallIsEarlyHit(qs[n].expected, qs[n].retrieved, k);
      assert Recalls(qs, k)[..n] == Recalls(qs[..n], k);
    }
    assert Ranks(qs)[..n] == Ranks(qs[..n]);
  }

  /** The bounds add up, and the sums meet a bound exactly when every query does. */
  lemma {:induction false} SumsWithinBounds(qs: seq<Query>)
    ensures var s1, s3, s5, sr := Sum(Recalls(qs, 1)), Sum(Recalls(qs, 3)), Sum(Recalls(qs, 5)), Sum(Ranks(qs));
            && 0.0 <= s1 <= s3 <= s5 <= |qs| as real
            && Lower(s1, s3, s5) <= sr <= Upper(s1, s3, s5, |qs| as real)
            && (sr == Lower(s1, s3, s5) <==> forall i | 0 <= i < |qs| :: MeetsLower(qs[i]))
            && (sr == Upper(s1, s3, s5, |qs| as real) <==> forall i | 0 <= i < |qs| :: MeetsUpper(qs[i]))
  {
    hide Recalls, Ranks, FirstHit;
    if qs == [] {
      assert Recalls(qs, 1) == [] && Recalls(qs, 3) == [] && Recalls(qs, 5) == [] && Ranks(qs) == [];
    } else {
      var n := |qs| - 1;
      var rest := qs[..n];
      SumsWithinBounds(rest);
      LastQuery(qs);
      RankWithinRecalls(FirstHit(qs[n].expected, qs[n].retrieved));
      assert (forall i | 0 <= i < |qs| :: MeetsLower(qs[i])) <==>
          (forall i | 0 <= i < n :: MeetsLower(rest[i])) && MeetsLower(qs[n]);
      assert (forall i | 0 <= i < |qs| :: MeetsUpper(qs[i])) <==>
          (forall i | 0 <= i < n :: MeetsUpper(rest[i])) && MeetsUpper(qs[n]);
    }
  }

  lemma {:induction false} DivOrders(x: real, y: real, n: real)
    requires n > 0.0
    ensures (x <= y <==> x / n <= y / n) && (x == y <==> x / n == y / n)
  {
    var v := 1.0 / n;
    assert n * v == 1.0;
    TimesOrders(x, y, v);
    TimesOrders(y, x, v);
  }

  lemma {:induction false} BoundsScale(a: real, b: real, c: real, n: real)
    requires n > 0.0
    ensures Lower(a / n, b / n, c / n) == Lower(a, b, c) / n
    ensures Upper(a / n, b / n, c / n, 1.0) == Upper(a, b, c, n) / n
  {
    var v := 1.0 / n;
    assert n * v == 1.0;
  }

  /** For every suite and retriever: recall grows with K, and the mean reciprocal rank lies
      between bounds the recalls give. On a non-empty suite it meets the lower bound exactly when
      every query ranks its answer 1, 3, 5 or nowhere, the upper when 1, 2, 4 or 6. */
  lemma {:induction false} RecallsBoundMrr(qs: seq<Query>)
    ensures var s := Score(qs);
            && 0.0 <= s.recallAt1 <= s.recallAt3 <= s.recallAt5 <= 1.0
            && Lower(s.recallAt1, s.recallAt3, s.recallAt5) <= s.mrr
            && s.mrr <= Upper(s.recallAt1, s.recallAt3, s.recallAt5, 1.0)
            && (qs != [] ==>
                  && (s.mrr == Lower(s.recallAt1, s.recallAt3, s.recallAt5)
                      <==> forall i | 0 <= i < |qs| :: MeetsLower(qs[i]))
                  && (s.mrr == Upper(s.recallAt1, s.recallAt3, s.recallAt5, 1.0)
                      <==> forall i | 0 <= i < |qs| :: MeetsUpper(qs[i])))
  {
    hide Recalls, Ranks, MeetsLower, MeetsUpper, Lower, Upper, Sum, Score;
    if qs == [] {
      EmptyScore();
    } else {
      MeanOfSums(qs);
      SumsWithinBounds(qs);
      SumsToMeans(|qs| as real, Sum(Recalls(qs, 1)), Sum(Recalls(qs, 3)), Sum(Recalls(qs, 5)), Sum(Ranks(qs)));
    }
  }

  lemma {:induction false} EmptyScore()
    ensures Score([]) == Scores(0.0, 0.0, 0.0, 0.0, 0)
    ensures Lower(0.0, 0.0, 0.0) == 0.0 < Upper(0.0, 0.0, 0.0, 1.0)
  {
  }

  lemma {:induction false} MeanOfSums(qs: seq<Query>)
    requires qs != []
    ensures var n := |qs| as real;
            Score(qs) == Scores(Sum(Recalls(qs, 1)) / n, Sum(Recalls(qs, 3)) / n, Sum(Recalls(qs, 5)) / n,
                                Sum(Ranks(qs)) / n, |qs|)
  {
  }

  lemma {:induction false} SumsToMeans(n: real, s1: real, s3: real, s5: real, sr: real)
    requires n > 0.0 && 0.0 <= s1 <= s3 <= s5 <= n
    requires Lower(s1, s3, s5) <= sr <= Upper(s1, s3, s5, n)
    ensures 0.0 <= s1 / n <= s3 / n <= s5 / n <= 1.0
    ensures Lower(s1 / n, s3 / n, s5 / n) <= sr / n <= Upper(s1 / n, s3 / n, s5 / n, 1.0)
    ensures sr == Lower(s1, s3, s5) <==> sr / n == Lower(s1 / n, s3 / n, s5 / n)
    ensures sr == Upper(s1, s3, s5, n) <==> sr / n == Upper(s1 / n, s3 / n, s5 / n, 1.0)
  {
    hide Lower, Upper;
    BoundsScale(s1, s3, s5, n);
    DivOrders(0.0, s1, n);
    DivOrders(s1, s3, n);
    DivOrders(s3, s5, n);
    DivOrders(s5, n, n);
    DivOrders(Lower(s1, s3, s5), sr, n);
    DivOrders(sr, Upper(s1, s3, s5, n), n);
  }

  // ---------------------------------------------------------------- many relevant documents

  datatype Prf = Prf(precision: real, recall: real, f1: real)

  function Elements(xs: seq<string>): set<string> {
    set x | x in xs
  }

  function Hits(relevant: set<string>, retrieved: seq<string>): (h: nat)
    ensures h <= |retrieved|
  {
    if retrieved == [] then 0
    else Hits(relevant, retrieved[..|retrieved| - 1]) + if retrieved[|retrieved| - 1] in relevant then 1 else 0
  }

  function ComputePrf(relevant: seq<string>, retrieved: seq<string>): Prf {
    if retrieved == [] then Prf(0.0, 0.0, 0.0)
    else
      var rel := Elements(relevant);
      PrfOf(Hits(rel, retrieved), |retrieved|, |rel|)
  }

  function PrfOf(hits: nat, retrieved: nat, relevant: nat): Prf
    requires retrieved > 0
  {
    var precision := hits as real / retrieved as real;
    var recall := if relevant == 0 then 0.0 else hits as real / relevant as real;
    Prf(precision, recall, if precision + recall == 0.0 then 0.0 else 2.0 * precision * recall / (precision + recall))
  }

  /** Without repeats, the hits are the relevant documents that were retrieved. */
  lemma {:induction false} HitsAreCommon(relevant: set<string>, retrieved: seq<string>)
    requires Distinct(retrieved)
    ensures Hits(relevant, retrieved) == |relevant * Elements(retrieved)|
  {
    if retrieved != [] {
      var n := |retrieved| - 1;
      var x := retrieved[n];
      HitsAreCommon(relevant, retrieved[..n]);
      LastIsNew(retrieved);
      var before := relevant * Elements(retrieved[..n]);
      assert relevant * Elements(retrieved) == if x in relevant then before + {x} else before;
    }
  }

  lemma {:induction false} LastIsNew(xs: seq<string>)
    requires Distinct(xs) && xs != []
    ensures var n := |xs| - 1;
            && Distinct(xs[..n]) && xs[n] !in Elements(xs[..n]) && Elements(xs) == Elements(xs[..n]) + {xs[n]}
  {
    assert xs == xs[..|xs| - 1] + [xs[|xs| - 1]];
  }

  lemma {:induction false} HitsAreRelevant(relevant: set<string>, retrieved: seq<string>)
    requires Distinct(retrieved)
    ensures Hits(relevant, retrieved) <= |relevant|
  {
    HitsAreCommon(relevant, retrieved);
    SubsetSize(relevant * Elements(retrieved), relevant);
  }

  lemma {:induction false} SubsetSize(a: set<string>, b: set<string>)
    requires a <= b
    ensures |a| <= |b|
  {
    if a != {} {
      var x :| x in a;
      SubsetSize(a - {x}, b - {x});
    }
  }

  // The harmonic mean of h / n and h / m.
  lemma {:induction false} HarmonicMean(h: real, n: real, m: real)
    requires n > 0.0 && m > 0.0 && h > 0.0
    ensures h / n + h / m > 0.0 && 2.0 * (h / n) * (h / m) / (h / n + h / m) == 2.0 * h / (n + m)
  {
    var p, r := h / n, h / m;
    assert p * n == h && r * m == h;
    assert p > 0.0 && r > 0.0;
    var q := 2.0 * h / (n + m);
    assert q * (n + m) == 2.0 * h;
    Quotient(2.0 * p * r, p + r, q);
  }

  lemma {:induction false} Quotient(x: real, y: real, q: real)
    requires y > 0.0 && q * y == x
    ensures x / y == q
  {
    assert (x / y) * y == x;
  }

  /** With distinct retrieved ids: precision and recall are fractions of the retrieved and of the
      relevant, F1 is twice the hits over their sum, and all three lie between 0 and 1. */
  lemma {:induction false} PrfIsBounded(relevant: seq<string>, retrieved: seq<string>)
    requires Distinct(retrieved) && retrieved != []
    ensures var rel := Elements(relevant);
            var common := |rel * Elements(retrieved)| as real;
            var p := ComputePrf(relevant, retrieved);
            && p.precision * |retrieved| as real == common
            && p.recall * |rel| as real == common
            && p.f1 * (|retrieved| + |rel|) as real == 2.0 * common
            && 0.0 <= p.precision <= 1.0 && 0.0 <= p.recall <= 1.0 && 0.0 <= p.f1 <= 1.0
  {
    hide Elements, Hits, PrfOf;
    var rel := Elements(relevant);
    HitsAreCommon(rel, retrieved);
    HitsAreRelevant(rel, retrieved);
    PrfOfCounts(Hits(rel, retrieved), |retrieved|, |rel|);
  }

  lemma {:induction false} PrfOfCounts(h: nat, n: nat, m: nat)
    requires n > 0 && h <= n && h <= m
    ensures var p := PrfOf(h, n, m);
            && p.precision * n as real == h as real && p.recall * m as real == h as real
            && p.f1 * (n + m) as real == 2.0 * h as real
            && 0.0 <= p.precision <= 1.0 && 0.0 <= p.recall <= 1.0 && 0.0 <= p.f1 <= 1.0
  {
    var x, y, z := h as real, n as real, m as real;
    assert (n + m) as real == y + z;
    Fraction(x, y);
    if h == 0 {
      if m > 0 { Fraction(x, z); }
      NoHits(n, m);
    } else {
      Fraction(x, z);
      Fraction(2.0 * x, y + z);
      SomeHits(h, n, m);
    }
  }

  lemma {:induction false} NoHits(n: nat, m: nat)
    requires n > 0
    ensures PrfOf(0, n, m) == Prf(0.0, 0.0, 0.0)
  {
    Quotient(0.0, n as real, 0.0);
    if m > 0 { Quotient(0.0, m as real, 0.0); }
  }

  lemma {:induction false} SomeHits(h: nat, n: nat, m: nat)
    requires 0 < h <= n && h <= m
    ensures var x, y, z := h as real, n as real, m as real;
            PrfOf(h, n, m) == Prf(x / y, x / z, 2.0 * x / (y + z))
  {
    HarmonicMean(h as real, n as real, m as real);
  }

  lemma {:induction false} Fraction(x: real, y: real)
    requires 0.0 <= x <= y && y > 0.0
    ensures (x / y) * y == x && 0.0 <= x / y <= 1.0
  {
    DivOrders(x, y, y);
    DivOrders(0.0, x, y);
    Quotient(y, y, 1.0);
    Quotient(0.0, y, 0.0);
  }

  lemma {:induction false} HitsOnce(relevant: set<string>, retrieved: seq<string>, i: nat)
    requires i < |retrieved| && retrieved[i] in relevant
    ensures Hits(relevant, retrieved) >= 1
  {
    if i < |retrieved| - 1 {
      HitsOnce(relevant, retrieved[..|retrieved| - 1], i);
    }
  }

  lemma {:induction false} HitsTwice(relevant: set<string>, retrieved: seq<string>, i: nat, j: nat)
    requires i < j < |retrieved| && retrieved[i] in relevant && retrieved[j] in relevant
    ensures Hits(relevant, retrieved) >= 2
  {
    var n := |retrieved| - 1;
    if j < n {
      HitsTwice(relevant, retrieved[..n], i, j);
    } else {
      HitsOnce(relevant, retrieved[..n], i);
    }
  }

  /** Recall is at most 1 whatever is relevant, exactly when no id is retrieved twice. */
  lemma {:induction false} RecallBoundedIff(retrieved: seq<string>)
    ensures (forall relevant :: ComputePrf(relevant, retrieved).recall <= 1.0) <==> Distinct(retrieved)
  {
    hide ComputePrf, Hits;
    if Distinct(retrieved) {
      forall relevant ensures ComputePrf(relevant, retrieved).recall <= 1.0 {
        PrfWithin(relevant, retrieved);
      }
    } else {
      var i, j :| 0 <= i < j < |retrieved| && retrieved[i] == retrieved[j];
      RepeatInflates(retrieved, i, j);
    }
  }

  /** An id retrieved twice, when it alone is relevant, counts twice. */
  lemma {:induction false} RepeatInflates(retrieved: seq<string>, i: nat, j: nat)
    requires i < j < |retrieved| && retrieved[i] == retrieved[j]
    ensures ComputePrf([retrieved[i]], retrieved).recall >= 2.0
  {
    hide Hits;
    var rel := Elements([retrieved[i]]);
    assert rel == {retrieved[i]};
    HitsTwice(rel, retrieved, i, j);
  }

  /** With repeats recall can exceed 1. */
  lemma {:induction false} RepeatsInflateRecall()
    ensures ComputePrf(["a"], ["a", "a"]).recall == 2.0
  {
    var two := ["a", "a"];
    assert Elements(["a"]) == {"a"};
    assert two[..1] == ["a"] && two[..1][..0] == [];
    assert Hits({"a"}, two[..1]) == 1;
    assert Hits({"a"}, two) == 2;
  }

  datatype GoldenItem = GoldenItem(query: string, relevant: seq<string>)

  datatype Part = Precision | Recall | F1

  function PartOf(p: Prf, part: Part): real {
    match part
    case Precision => p.precision
    case Recall => p.recall
    case F1 => p.f1
  }

  function Parts(items: seq<GoldenItem>, retrieve: string -> seq<string>, part: Part): (r: seq<real>)
    ensures |r| == |items|
  {
    seq(|items|, i requires 0 <= i < |items| => PartOf(ComputePrf(items[i].relevant, retrieve(items[i].query)), part))
  }

  /** Averages precision, recall and F1 over the golden set. */
  method ComputeGolden(items: seq<GoldenItem>, retrieve: string -> seq<string>)
    returns (precision: real, recall: real, f1: real, n: nat)
    ensures n == |items|
    ensures precision == Mean(Parts(items, retrieve, Precision))
    ensures recall == Mean(Parts(items, retrieve, Recall)) && f1 == Mean(Parts(items, retrieve, F1))
    ensures (forall q :: Distinct(retrieve(q))) ==> 0.0 <= precision <= 1.0 && 0.0 <= recall <= 1.0 && 0.0 <= f1 <= 1.0
  {
    hide ComputePrf, Sum;
    MeansWithin(items, retrieve);
    if items == [] {
      return 0.0, 0.0, 0.0, 0;
    }
    var precs, recs, f1s := [], [], [];
    for k := 0 to |items|
      invariant precs == Parts(items, retrieve, Precision)[..k]
      invariant recs == Parts(items, retrieve, Recall)[..k] && f1s == Parts(items, retrieve, F1)[..k]
    {
      var p := ComputePrf(items[k].relevant, retrieve(items[k].query));
      precs, recs, f1s := precs + [p.precision], recs + [p.recall], f1s + [p.f1];
    }
    assert precs == Parts(items, retrieve, Precision) && recs == Parts(items, retrieve, Recall)
      && f1s == Parts(items, retrieve, F1);
    return Mean(precs), Mean(recs), Mean(f1s), |items|;
  }

  lemma {:induction false} MeansWithin(items: seq<GoldenItem>, retrieve: string -> seq<string>)
    ensures (forall q :: Distinct(retrieve(q))) ==> forall part :: 0.0 <= Mean(Parts(items, retrieve, part)) <= 1.0
  {
    hide ComputePrf, Mean, Distinct;
    if forall q :: Distinct(retrieve(q)) {
      forall part ensures 0.0 <= Mean(Parts(items, retrieve, part)) <= 1.0 {
        forall i | 0 <= i < |items| ensures 0.0 <= Parts(items, retrieve, part)[i] <= 1.0 {
          PrfWithin(items[i].relevant, retrieve(items[i].query));
        }
        MeanWithin(Parts(items, retrieve, part));
      }
    }
  }

  lemma {:induction false} PrfWithin(relevant: seq<string>, retrieved: seq<string>)
    requires Distinct(retrieved)
    ensures forall part :: 0.0 <= PartOf(ComputePrf(relevant, retrieved), part) <= 1.0
    ensures ComputePrf(relevant, retrieved).recall <= 1.0
  {
    if retrieved != [] { PrfIsBounded(relevant, retrieved); }
  }

  lemma {:induction false} SumWithin(xs: seq<real>)
    requires forall i | 0 <= i < |xs| :: 0.0 <= xs[i] <= 1.0
    ensures 0.0 <= Sum(xs) <= |xs| as real
  {
    if xs != [] { SumWithin(xs[..|xs| - 1]); }
  }

  lemma {:induction false} MeanWithin(xs: seq<real>)
    requires forall i | 0 <= i < |xs| :: 0.0 <= xs[i] <= 1.0
    ensures 0.0 <= Mean(xs) <= 1.0
  {
    SumWithin(xs);
    if xs != [] { Fraction(Sum(xs), |xs| as real); }
  }

  // ---------------------------------------------------------------- task completion

  datatype Bucket = Bucket(passed: nat, total: nat, passRate: real)

  datatype BenchTask = BenchTask(id: string, difficulty: string)

  datatype BenchScores = BenchScores(passed: nat, total: nat, passRate: real, byDifficulty: map<string, Bucket>)

  function Total(tasks: seq<BenchTask>, difficulty: string): nat {
    if tasks == [] then 0
    else Total(tasks[..|tasks| - 1], difficulty) + if tasks[|tasks| - 1].difficulty == difficulty then 1 else 0
  }

  /** The tasks that passed, of one difficulty. */
  function Passed(tasks: seq<BenchTask>, ok: BenchTask -> bool): (r: seq<BenchTask>)
    ensures |r| <= |tasks|
  {
    if tasks == [] then []
    else
      var t := tasks[|tasks| - 1];
      Passed(tasks[..|tasks| - 1], ok) + if ok(t) then [t] else []
  }

  function Difficulties(tasks: seq<BenchTask>): set<string> {
    set t | t in tasks :: t.difficulty
  }

  function Rate(passed: nat, total: nat): real {
    if total > 0 then passed as real / total as real else 0.0
  }

  /** Runs every task and buckets the verdicts by difficulty. */
  method RunTaskBench(tasks: seq<BenchTask>, ok: BenchTask -> bool) returns (s: BenchScores)
    ensures s.total == |tasks| && s.passed == |Passed(tasks, ok)| && s.passRate == Rate(s.passed, s.total)
    ensures s.byDifficulty.Keys == Difficulties(tasks)
    ensures forall d | d in s.byDifficulty ::
              var p, n := Total(Passed(tasks, ok), d), Total(tasks, d);
              s.byDifficulty[d] == Bucket(p, n, Rate(p, n))
  {
    hide Total, Rate;

    var byDifficulty: map<string, Bucket> := map[];
    var passed := 0;
    for k := 0 to |tasks|
      invariant passed == |Passed(tasks[..k], ok)|
      invariant byDifficulty.Keys == Difficulties(tasks[..k])
      invariant forall d | d in byDifficulty ::
                  byDifficulty[d] == Bucket(Total(Passed(tasks[..k], ok), d), Total(tasks[..k], d), 0.0)
    {
      OneMoreTask(tasks, k, ok);
      var t := tasks[k];
      var good := ok(t);
      if good { passed := passed + 1; }
      var bucket := if t.difficulty in byDifficulty then byDifficulty[t.difficulty] else Bucket(0, 0, 0.0);
      bucket := bucket.(total := bucket.total + 1);
      if good { bucket := bucket.(passed := bucket.passed + 1); }
      byDifficulty := byDifficulty[t.difficulty := bucket];
    }
    assert tasks[..|tasks|] == tasks;
    byDifficulty := map d | d in byDifficulty ::
      byDifficulty[d].(passRate := Rate(byDifficulty[d].passed, byDifficulty[d].total));
    return BenchScores(passed, |tasks|, Rate(passed, |tasks|), byDifficulty);
  }

  lemma {:induction false} OneMoreTask(tasks: seq<BenchTask>, k: nat, ok: BenchTask -> bool)
    requires k < |tasks|
    ensures Difficulties(tasks[..k + 1]) == Difficulties(tasks[..k]) + {tasks[k].difficulty}
    ensures |Passed(tasks[..k + 1], ok)| == |Passed(tasks[..k], ok)| + if ok(tasks[k]) then 1 else 0
    ensures forall d :: Total(tasks[..k + 1], d) == Total(tasks[..k], d) + if tasks[k].difficulty == d then 1 else 0
    ensures forall d :: Total(Passed(tasks[..k + 1], ok), d)
                     == Total(Passed(tasks[..k], ok), d) + if ok(tasks[k]) && tasks[k].difficulty == d then 1 else 0
    ensures tasks[k].difficulty !in Difficulties(tasks[..k]) ==>
              Total(tasks[..k], tasks[k].difficulty) == 0 && Total(Passed(tasks[..k], ok), tasks[k].difficulty) == 0
  {
    var t := tasks[k];
    assert tasks[..k + 1][..k] == tasks[..k];
    assert Difficulties(tasks[..k + 1]) == Difficulties(tasks[..k]) + {t.difficulty} by {
      assert tasks[..k + 1] == tasks[..k] + [t];
    }
    var p := Passed(tasks[..k], ok);
    assert (p + [t])[..|p|] == p && p + [] == p;
    if t.difficulty !in Difficulties(tasks[..k]) {
      AbsentIsNone(tasks[..k], t.difficulty, ok);
    }
  }

  lemma {:induction false} AbsentIsNone(tasks: seq<BenchTask>, d: string, ok: BenchTask -> bool)
    requires forall t | t in tasks :: t.difficulty != d
    ensures Total(tasks, d) == 0 && Total(Passed(tasks, ok), d) == 0
  {
    if tasks != [] {
      var n := |tasks| - 1;
      AbsentIsNone(tasks[..n], d, ok);
      var p := Passed(tasks[..n], ok);
      assert (p + [tasks[n]])[..|p|] == p && p + [] == p;
    }
  }

  function TotalOver(tasks: seq<BenchTask>, keys: seq<string>): nat {
    if keys == [] then 0 else TotalOver(tasks, keys[..|keys| - 1]) + Total(tasks, keys[|keys| - 1])
  }

  lemma {:induction false} OneMoreOver(tasks: seq<BenchTask>, t: BenchTask, keys: seq<string>)
    requires Distinct(keys)
    ensures TotalOver(tasks + [t], keys) == TotalOver(tasks, keys) + if t.difficulty in keys then 1 else 0
  {
    if keys != [] {
      OneMoreOver(tasks, t, keys[..|keys| - 1]);
      assert (tasks + [t])[..|tasks|] == tasks;
    }
  }

  /** The buckets of all difficulties, each counted once, hold every task once; so they do for
      the tasks that passed. */
  lemma {:induction false} BucketsHoldAll(tasks: seq<BenchTask>, keys: seq<string>)
    requires Distinct(keys) && Difficulties(tasks) <= Elements(keys)
    ensures TotalOver(tasks, keys) == |tasks|
  {
    if tasks == [] {
      NoTasks(keys);
    } else {
      var n := |tasks| - 1;
      assert tasks == tasks[..n] + [tasks[n]];
      BucketsHoldAll(tasks[..n], keys);
      OneMoreOver(tasks[..n], tasks[n], keys);
      assert tasks[n].difficulty in Difficulties(tasks);
    }
  }

  lemma {:induction false} NoTasks(keys: seq<string>)
    ensures TotalOver([], keys) == 0
  {
    if keys != [] { NoTasks(keys[..|keys| - 1]); }
  }

  // ---------------------------------------------------------------- what the numbers count

  ghost function Places(f: nat -> bool, n: nat): set<nat> {
    set i: nat | i < n && f(i)
  }

  lemma {:induction false} OneMorePlace(f: nat -> bool, n: nat)
    ensures |Places(f, 0)| == 0 && |Places(f, n + 1)| == |Places(f, n)| + if f(n) then 1 else 0
  {
    assert Places(f, 0) == {};
    assert Places(f, n + 1) == Places(f, n) + if f(n) then {n} else {};
  }

  // The answer is among the first `k` retrieved.
  ghost predicate FoundWithin(q: Query, k: nat) {
    exists j :: 0 <= j < k && j < |q.retrieved| && q.retrieved[j] == q.expected
  }

  lemma {:induction false} RecallIsFound(q: Query, k: nat)
    ensures RecallAtK(q.expected, q.retrieved, k) == if FoundWithin(q, k) then 1.0 else 0.0
  {
    var top := q.retrieved[..Min(k, |q.retrieved|)];
    if j :| 0 <= j < k && j < |q.retrieved| && q.retrieved[j] == q.expected {
      assert top[j] == q.expected;
    }
    if j :| 0 <= j < |top| && top[j] == q.expected {
      assert q.retrieved[j] == q.expected;
    }
  }

  ghost function Found(qs: seq<Query>, k: nat): nat -> bool {
    (i: nat) => i < |qs| && FoundWithin(qs[i], k)
  }

  lemma {:induction false} RecallsCount(qs: seq<Query>, n: nat, k: nat)
    requires n <= |qs|
    ensures Sum(Recalls(qs[..n], k)) == |Places(Found(qs, k), n)| as real
  {
    hide RecallAtK, FoundWithin, Places;
    if n > 0 {
      RecallsCount(qs, n - 1, k);
      RecallIsFound(qs[n - 1], k);
      assert Recalls(qs[..n], k)[..n - 1] == Recalls(qs[..n - 1], k);
      OneMorePlace(Found(qs, k), n - 1);
    } else {
      OneMorePlace(Found(qs, k), 0);
    }
  }

  /** The averages over a suite are shares of its queries: those answered among the first one,
      three and five. */
  lemma {:induction false} ScoresAreShares(qs: seq<Query>)
    requires qs != []
    ensures var s, n := Score(qs), |qs| as real;
            && s.n == |qs|
            && s.recallAt1 * n == |set i: nat | i < |qs| && FoundWithin(qs[i], 1)| as real
            && s.recallAt3 * n == |set i: nat | i < |qs| && FoundWithin(qs[i], 3)| as real
            && s.recallAt5 * n == |set i: nat | i < |qs| && FoundWithin(qs[i], 5)| as real
  {
    hide FoundWithin, Recalls, Ranks, Sum;
    assert qs[..|qs|] == qs;
    forall k: nat ensures Sum(Recalls(qs, k)) == |set i: nat | i < |qs| && FoundWithin(qs[i], k)| as real {
      RecallsCount(qs, |qs|, k);
      assert Places(Found(qs, k), |qs|) == set i: nat | i < |qs| && FoundWithin(qs[i], k);
    }
    MeanOfSums(qs);
  }

  /** The score of a query by its first relevant document. */
  lemma {:induction false} RankScoreIs(relevant: string, retrieved: seq<string>, i: nat)
    requires i <= |retrieved| && forall k | 0 <= k < i :: retrieved[k] != relevant
    ensures i < |retrieved| && retrieved[i] == relevant ==>
              RankScore(FirstHit(relevant, retrieved)) == 1.0 / (i + 1) as real
    ensures i == |retrieved| ==> RankScore(FirstHit(relevant, retrieved)) == 0.0
  {
  }

  ghost function IsHit(relevant: set<string>, retrieved: seq<string>): nat -> bool {
    (i: nat) => i < |retrieved| && retrieved[i] in relevant
  }

  lemma {:induction false} HitsCount(relevant: set<string>, retrieved: seq<string>, n: nat)
    requires n <= |retrieved|
    ensures Hits(relevant, retrieved[..n]) == |Places(IsHit(relevant, retrieved), n)|
  {
    hide Places;
    if n > 0 {
      HitsCount(relevant, retrieved, n - 1);
      assert retrieved[..n][..n - 1] == retrieved[..n - 1];
      OneMorePlace(IsHit(relevant, retrieved), n - 1);
    } else {
      OneMorePlace(IsHit(relevant, retrieved), 0);
    }
  }

  /** Repeats included, precision and recall count the retrieved places that hold a relevant id. */
  lemma {:induction false} PrfCounts(relevant: seq<string>, retrieved: seq<string>)
    requires retrieved != []
    ensures var p := ComputePrf(relevant, retrieved);
            var hits := |set i: nat | i < |retrieved| && retrieved[i] in relevant| as real;
            && p.precision * |retrieved| as real == hits
            && p.recall * |set x | x in relevant| as real == (if relevant == [] then 0.0 else hits)
            && p.f1 * (p.precision + p.recall) == 2.0 * p.precision * p.recall
  {
    hide Hits;
    var rel := Elements(relevant);
    HitsCount(rel, retrieved, |retrieved|);
    assert retrieved[..|retrieved|] == retrieved;
    assert Places(IsHit(rel, retrieved), |retrieved|) == set i: nat | i < |retrieved| && retrieved[i] in relevant;
    assert relevant != [] ==> relevant[0] in rel;
    PrfDivides(Hits(rel, retrieved), |retrieved|, |rel|);
  }

  lemma {:induction false} PrfDivides(h: nat, n: nat, m: nat)
    requires n > 0
    ensures var p := PrfOf(h, n, m);
            && p.precision * n as real == h as real && p.recall * m as real == (if m == 0 then 0.0 else h as real)
            && p.f1 * (p.precision + p.recall) == 2.0 * p.precision * p.recall
  {
    var precision := h as real / n as real;
    var recall := if m == 0 then 0.0 else h as real / m as real;
    assert precision >= 0.0 && recall >= 0.0;
    if precision + recall == 0.0 {
      assert precision == 0.0 && recall == 0.0;
    }
  }

  ghost function IsGood(tasks: seq<BenchTask>, ok: BenchTask -> bool): nat -> bool {
    (i: nat) => i < |tasks| && ok(tasks[i])
  }

  ghost function IsOf(tasks: seq<BenchTask>, d: string): nat -> bool {
    (i: nat) => i < |tasks| && tasks[i].difficulty == d
  }

  ghost function IsGoodOf(tasks: seq<BenchTask>, ok: BenchTask -> bool, d: string): nat -> bool {
    (i: nat) => i < |tasks| && ok(tasks[i]) && tasks[i].difficulty == d
  }

  lemma {:induction false} PrefixCounts(tasks: seq<BenchTask>, ok: BenchTask -> bool, n: nat, d: string)
    requires n <= |tasks|
    ensures |Passed(tasks[..n], ok)| == |Places(IsGood(tasks, ok), n)|
    ensures Total(tasks[..n], d) == |Places(IsOf(tasks, d), n)|
    ensures Total(Passed(tasks[..n], ok), d) == |Places(IsGoodOf(tasks, ok, d), n)|
  {
    hide Total, Passed, Places;
    var m := if n > 0 then n - 1 else 0;
    OneMorePlace(IsGood(tasks, ok), m);
    OneMorePlace(IsOf(tasks, d), m);
    OneMorePlace(IsGoodOf(tasks, ok, d), m);
    if n > 0 {
      PrefixCounts(tasks, ok, m, d);
      OneMoreTask(tasks, m, ok);
    } else {
      NothingCounted(tasks, ok, d);
    }
  }

  lemma {:induction false} NothingCounted(tasks: seq<BenchTask>, ok: BenchTask -> bool, d: string)
    ensures |Passed(tasks[..0], ok)| == 0 && Total(tasks[..0], d) == 0 && Total(Passed(tasks[..0], ok), d) == 0
  {
    assert tasks[..0] == [] && Passed([], ok) == [];
  }

  /** What the buckets of a run count. */
  lemma {:induction false} BucketsCount(tasks: seq<BenchTask>, ok: BenchTask -> bool, d: string)
    ensures |Passed(tasks, ok)| == |set i: nat | i < |tasks| && ok(tasks[i])|
    ensures Total(tasks, d) == |set i: nat | i < |tasks| && tasks[i].difficulty == d|
    ensures Total(Passed(tasks, ok), d) == |set i: nat | i < |tasks| && ok(tasks[i]) && tasks[i].difficulty == d|
  {
    hide Total, Passed;
    PrefixCounts(tasks, ok, |tasks|, d);
    assert tasks[..|tasks|] == tasks;
    assert Places(IsGood(tasks, ok), |tasks|) == set i: nat | i < |tasks| && ok(tasks[i]);
    assert Places(IsOf(tasks, d), |tasks|) == set i: nat | i < |tasks| && tasks[i].difficulty == d;
    assert Places(IsGoodOf(tasks, ok, d), |tasks|)
        == set i: nat | i < |tasks| && ok(tasks[i]) && tasks[i].difficulty == d;
  }

  /** A rate is the share that passed; that of no tasks is 0. */
  lemma {:induction false} RateIsShare(passed: nat, total: nat)
    ensures total > 0 ==> Rate(passed, total) * total as real == passed as real
    ensures Rate(passed, 0) == 0.0
  {
    if total > 0 {
      var x, y := passed as real, total as real;
      assert (x / y) * y == x;
    }
  }
}
