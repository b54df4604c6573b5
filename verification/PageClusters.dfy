/** Grouping pages into books: the greedy clustering used when no graph library is there. */
module PageClusters {
  import opened Sequences
  import opened Partition
  import Chains

  // A page with its tags and its lower-cased suggested books.
  datatype Page = Page(id: Id, tags: set<string>, books: set<string>)

  // A cluster being grown: member ids and the tags and books of all members.
  datatype Cluster = Cluster(ids: seq<Id>, tags: set<string>, books: set<string>)

  predicate Shares(p: Page, q: Page) {
    p.tags * q.tags != {} || p.books * q.books != {}
  }

  predicate Accepts(c: Cluster, p: Page) {
    c.tags * p.tags != {} || c.books * p.books != {}
  }

  function Grow(c: Cluster, p: Page): Cluster {
    Cluster(c.ids + [p.id], c.tags + p.tags, c.books + p.books)
  }

  function Seed(p: Page): Cluster {
    Cluster([p.id], p.tags, p.books)
  }

  // ---------------------------------------------------------------- the reference: first fit

  /** The first cluster, from `k` on, that shares a tag or a suggested book with `p`. */
  function Target(clusters: seq<Cluster>, p: Page, k: nat): (t: nat)
    requires k <= |clusters|
    ensures k <= t <= |clusters|
    ensures t < |clusters| ==> Accepts(clusters[t], p)
    ensures forall j | k <= j < t :: !Accepts(clusters[j], p)
    decreases |clusters| - k
  {
    if k == |clusters| || Accepts(clusters[k], p) then k else Target(clusters, p, k + 1)
  }

  function Place(clusters: seq<Cluster>, p: Page): seq<Cluster> {
    var t := Target(clusters, p, 0);
    if t < |clusters| then clusters[t := Grow(clusters[t], p)] else clusters + [Seed(p)]
  }

  /** One pass in input order: each page joins the first cluster that it shares something
      with, and starts a new one when there is none. */
  function FirstFit(pages: seq<Page>): seq<Cluster> {
    if pages == [] then [] else Place(FirstFit(pages[..|pages| - 1]), pages[|pages| - 1])
  }

  function IdsOf(pages: seq<Page>): (ids: seq<Id>)
    ensures |ids| == |pages| && forall i | 0 <= i < |ids| :: ids[i] == pages[i].id
  {
    seq(|pages|, i requires 0 <= i < |pages| => pages[i].id)
  }

  function Members(clusters: seq<Cluster>): (m: seq<seq<Id>>)
    ensures |m| == |clusters| && forall i | 0 <= i < |m| :: m[i] == clusters[i].ids
  {
    seq(|clusters|, i requires 0 <= i < |clusters| => clusters[i].ids)
  }

  lemma {:induction false} FirstFitPartitions(pages: seq<Page>)
    ensures Partitions(Members(FirstFit(pages)), IdsOf(pages))
  {
    if pages != [] {
      var n := |pages| - 1;
      FirstFitPartitions(pages[..n]);
      var before, p := FirstFit(pages[..n]), pages[n];
      assert IdsOf(pages) == IdsOf(pages[..n]) + [p.id];
      assert multiset(IdsOf(pages)) == multiset(IdsOf(pages[..n])) + multiset{p.id};
      var t := Target(before, p, 0);
      if t < |before| {
        FlattenGrow(Members(before), t, p.id);
        assert Members(Place(before, p)) == Members(before)[t := before[t].ids + [p.id]];
      } else {
        FlattenAppend(Members(before), [p.id]);
        assert Members(Place(before, p)) == Members(before) + [[p.id]];
      }
    }
  }

  // ---------------------------------------------------------------- clusters stay inside components

  // Where each member of a cluster sits in the page list.
  ghost predicate Grown(pages: seq<Page>, c: Cluster, at: seq<nat>) {
    && |at| == |c.ids| && at != []
    && (forall m | 0 <= m < |at| :: at[m] < |pages| && pages[at[m]].id == c.ids[m])
    && (forall l, m | 0 <= l < m < |at| :: at[l] < at[m])
    && (forall m | 1 <= m < |at| :: SharesEarlier(pages, at, m))
    && (forall w | w in c.tags :: HasTag(pages, at, w))
    && (forall w | w in c.books :: HasBook(pages, at, w))
  }

  ghost predicate SharesEarlier(pages: seq<Page>, at: seq<nat>, m: nat) {
    exists l :: 0 <= l < m < |at| && at[l] < |pages| && at[m] < |pages| && Shares(pages[at[l]], pages[at[m]])
  }

  ghost predicate HasTag(pages: seq<Page>, at: seq<nat>, w: string) {
    exists m :: 0 <= m < |at| && at[m] < |pages| && w in pages[at[m]].tags
  }

  ghost predicate HasBook(pages: seq<Page>, at: seq<nat>, w: string) {
    exists m :: 0 <= m < |at| && at[m] < |pages| && w in pages[at[m]].books
  }

  /** A cluster lists its members in input order, and every member but the first shares a tag
      or a suggested book with an earlier one. */
  ghost predicate WellGrown(pages: seq<Page>, c: Cluster) {
    exists at :: Grown(pages, c, at)
  }

  lemma {:induction false} FirstFitGrows(pages: seq<Page>)
    ensures forall c | 0 <= c < |FirstFit(pages)| :: WellGrown(pages, FirstFit(pages)[c])
  {
    if pages != [] {
      var n := |pages| - 1;
      FirstFitGrows(pages[..n]);
      var before := FirstFit(pages[..n]);
      forall c | 0 <= c < |FirstFit(pages)| ensures WellGrown(pages, FirstFit(pages)[c]) {
        hide FirstFit, Grown;
        if c == |before| {
          SeedIsGrown(pages, n);
        } else {
          var at :| Grown(pages[..n], before[c], at);
          GrownInMore(pages, n, before[c], at, at);
          if c == Target(before, pages[n], 0) {
            GrownByOne(pages, n, before[c], at);
          }
        }
      }
    }
  }

  lemma {:induction false} SeedIsGrown(pages: seq<Page>, n: nat)
    requires n < |pages|
    ensures Grown(pages, Seed(pages[n]), [n])
  {
    var at: seq<nat> := [n];
    assert at[0] == n;
    assert forall w | w in pages[n].tags :: HasTag(pages, at, w);
    assert forall w | w in pages[n].books :: HasBook(pages, at, w);
  }

  // More pages and more members lose no link.
  lemma {:induction false} GrownInMore(pages: seq<Page>, n: nat, c: Cluster, at: seq<nat>, more: seq<nat>)
    requires n <= |pages| && Grown(pages[..n], c, at) && at <= more
    ensures Grown(pages, c, at)
    ensures forall m | 1 <= m < |at| :: SharesEarlier(pages, more, m)
    ensures forall w | w in c.tags :: HasTag(pages, more, w)
    ensures forall w | w in c.books :: HasBook(pages, more, w)
  {
    assert forall k | 0 <= k < |at| :: more[k] == at[k];
    forall m | 1 <= m < |at| ensures SharesEarlier(pages, at, m) && SharesEarlier(pages, more, m) {
      assert SharesEarlier(pages[..n], at, m);
      var l :| 0 <= l < m && Shares(pages[..n][at[l]], pages[..n][at[m]]);
      assert Shares(pages[at[l]], pages[at[m]]) && Shares(pages[more[l]], pages[more[m]]);
    }
    forall w | w in c.tags ensures HasTag(pages, at, w) && HasTag(pages, more, w) {
      assert HasTag(pages[..n], at, w);
      var m :| 0 <= m < |at| && w in pages[..n][at[m]].tags;
      assert w in pages[at[m]].tags && w in pages[more[m]].tags;
    }
    forall w | w in c.books ensures HasBook(pages, at, w) && HasBook(pages, more, w) {
      assert HasBook(pages[..n], at, w);
      var m :| 0 <= m < |at| && w in pages[..n][at[m]].books;
      assert w in pages[at[m]].books && w in pages[more[m]].books;
    }
  }

  lemma {:induction false} GrownByOne(pages: seq<Page>, n: nat, c: Cluster, at: seq<nat>)
    requires n < |pages| && Grown(pages[..n], c, at) && Accepts(c, pages[n])
    ensures Grown(pages, Grow(c, pages[n]), at + [n])
  {
    var p, more := pages[n], at + [n];
    GrownInMore(pages, n, c, at, more);
    AcceptedSharesEarlier(pages, n, c, at);
    LastHasItsOwn(pages, more);
    hide HasTag, HasBook, SharesEarlier;
  }

  lemma {:induction false} LastHasItsOwn(pages: seq<Page>, at: seq<nat>)
    requires at != [] && at[|at| - 1] < |pages|
    ensures forall w | w in pages[at[|at| - 1]].tags :: HasTag(pages, at, w)
    ensures forall w | w in pages[at[|at| - 1]].books :: HasBook(pages, at, w)
  {
  }

  lemma {:induction false} AcceptedSharesEarlier(pages: seq<Page>, n: nat, c: Cluster, at: seq<nat>)
    requires n < |pages| && Grown(pages, c, at) && Accepts(c, pages[n])
    ensures SharesEarlier(pages, at + [n], |at|)
  {
    var p, more := pages[n], at + [n];
    var l: nat;
    if c.tags * p.tags != {} {
      var w :| w in c.tags * p.tags;
      assert HasTag(pages, at, w);
      l :| l < |at| && w in pages[at[l]].tags;
      assert w in pages[at[l]].tags * p.tags;
    } else {
      var w :| w in c.books * p.books;
      assert HasBook(pages, at, w);
      l :| l < |at| && w in pages[at[l]].books;
      assert w in pages[at[l]].books * p.books;
    }
    assert more[l] == at[l] && more[|at|] == n;
    assert Shares(pages[more[l]], pages[more[|at|]]);
  }

  function BySharing(pages: seq<Page>): Chains.Link {
    (i: nat, j: nat) => i < |pages| && j < |pages| && Shares(pages[i], pages[j])
  }

  /** A chain of pages, each sharing a tag or a suggested book with the next. */
  ghost predicate Connected(pages: seq<Page>, i: nat, j: nat) {
    Chains.Connected(BySharing(pages), |pages|, i, j)
  }

  lemma {:induction false} ConnectedStep(pages: seq<Page>, i: nat, l: nat, j: nat)
    requires Connected(pages, i, l) && l < |pages| && j < |pages| && Shares(pages[l], pages[j])
    ensures Connected(pages, i, j)
  {
    Chains.ConnectedStep(BySharing(pages), |pages|, i, l, j);
  }

  lemma {:induction false} ConnectedBack(pages: seq<Page>, i: nat, j: nat)
    requires Connected(pages, i, j)
    ensures Connected(pages, j, i)
  {
    forall a: nat, b: nat | BySharing(pages)(a, b) ensures BySharing(pages)(b, a) {
      SharesBack(pages[a], pages[b]);
    }
    Chains.ConnectedBack(BySharing(pages), |pages|, i, j);
  }

  /** Clusters refine the connected components of the sharing relation: every member is
      linked to the seed of its cluster. */
  lemma {:induction false} MembersConnectToSeed(pages: seq<Page>, c: Cluster, at: seq<nat>, m: nat)
    requires Grown(pages, c, at) && m < |at|
    ensures Connected(pages, at[0], at[m])
    decreases m
  {
    if m == 0 {
      Chains.ConnectedSelf(BySharing(pages), |pages|, at[0]);
    } else {
      assert SharesEarlier(pages, at, m);
      var l :| 0 <= l < m && Shares(pages[at[l]], pages[at[m]]);
      MembersConnectToSeed(pages, c, at, l);
      ConnectedStep(pages, at[0], at[l], at[m]);
    }
  }

  /** They may be strictly finer: the middle page comes before the page that links it to the
      first, so the sweep passes it by. */
  lemma {:induction false} ClustersCanSplitAComponent()
    ensures exists pages ::
              && Connected(pages, 0, 1)
              && IdsOf(pages) == ["a", "b", "c"] && Members(FirstFit(pages)) == [["a", "c"], ["b"]]
  {
    var a, b, c := Page("a", {"x"}, {}), Page("b", {"y"}, {}), Page("c", {"x", "y"}, {});
    var pages := [a, b, c];
    assert Connected(pages, 0, 1) by {
      assert "x" in a.tags * c.tags && "y" in c.tags * b.tags;
      assert Chains.Chain(BySharing(pages), 3, [0, 2, 1]);
    }
    assert a.tags * b.tags == {} && "x" in a.tags * c.tags;
    ThreePages(a, b, c);
  }

  lemma {:induction false} ThreePages(a: Page, b: Page, c: Page)
    requires !Shares(a, b) && Shares(a, c)
    ensures Members(FirstFit([a, b, c])) == [[a.id, c.id], [b.id]]
  {
    assert [a] + [b] == [a, b] && [a, b] + [c] == [a, b, c];
    hide FirstFit;
    assert FirstFit([a]) == [Seed(a)];
    assert FirstFit([a, b]) == [Seed(a), Seed(b)];
    assert FirstFit([a, b, c]) == [Grow(Seed(a), c), Seed(b)];
    assert Grow(Seed(a), c).ids == [a.id, c.id];
    assert Members(FirstFit([a, b, c])) == [[a.id, c.id], [b.id]];
  }

  // ---------------------------------------------------------------- when clusters are components

  // Two pages end up in one cluster.
  predicate Same(pages: seq<Page>, i: nat, j: nat) {
    i < |pages| && j < |pages| && Where(pages, i) == Where(pages, j)
  }

  predicate In(pages: seq<Page>, c: nat, i: nat) {
    i < |pages| && Where(pages, i) == c
  }

  lemma {:induction false} PrefixWhere(pages: seq<Page>, n: nat, i: nat)
    requires i < n <= |pages|
    ensures Where(pages[..n], i) == Where(pages, i)
  {
    assert pages[..n][..i] == pages[..i];
  }

  lemma {:induction false} WhereIsCluster(pages: seq<Page>, i: nat)
    requires i < |pages|
    ensures Where(pages, i) < |FirstFit(pages)|
    decreases |pages|
  {
    var n := |pages| - 1;
    FirstFitStep(pages, n);
    assert pages[..n + 1] == pages;
    if i < n {
      WhereIsCluster(pages[..n], i);
      PrefixWhere(pages, n, i);
    }
  }

  ghost predicate IdIn(pages: seq<Page>, c: nat, x: Id) {
    exists i: nat :: In(pages, c, i) && pages[i].id == x
  }

  ghost predicate TagIn(pages: seq<Page>, c: nat, w: string) {
    exists i: nat :: In(pages, c, i) && w in pages[i].tags
  }

  ghost predicate BookIn(pages: seq<Page>, c: nat, w: string) {
    exists i: nat :: In(pages, c, i) && w in pages[i].books
  }

  // Words and ids of the pages placed there, and of no others.
  ghost predicate Describes(pages: seq<Page>, c: nat, k: Cluster) {
    && (forall x :: x in k.ids <==> IdIn(pages, c, x))
    && (forall w :: w in k.tags <==> TagIn(pages, c, w))
    && (forall w :: w in k.books <==> BookIn(pages, c, w))
  }

  /** A cluster holds the ids, tags and books of exactly the pages placed there. */
  lemma {:induction false} ClusterIs(pages: seq<Page>, c: nat)
    requires c < |FirstFit(pages)|
    ensures Describes(pages, c, FirstFit(pages)[c])
    decreases |pages|
  {
    hide Where, FirstFit, Describes;
    if pages == [] {
      NoPages();
    } else {
      var n := |pages| - 1;
      var front := pages[..n];
      FirstFitStep(pages, n);
      assert pages[..n + 1] == pages;
      if c < |FirstFit(front)| { ClusterIs(front, c); }
      InIsInFront(pages, n, c);
      OneMoreDescribed(pages, n, c, FirstFit(front));
    }
  }

  lemma {:induction false} NoPages()
    ensures FirstFit([]) == []
  {
  }

  lemma {:induction false} OneMoreDescribed(pages: seq<Page>, n: nat, c: nat, before: seq<Cluster>)
    requires |pages| == n + 1
    requires forall i: nat :: In(pages, c, i) <==> In(pages[..n], c, i) || (i == n && Where(pages, n) == c)
    requires if c < |before| then Describes(pages[..n], c, before[c])
             else c == Where(pages, n) && forall i: nat :: !In(pages[..n], c, i)
    ensures Describes(pages, c, AfterPlacing(before, pages[n], Where(pages, n), c))
  {
    hide Where;
    var front := pages[..n];
    var here := Where(pages, n) == c;
    forall x ensures IdIn(pages, c, x) <==> IdIn(front, c, x) || (here && pages[n].id == x) {
      if i: nat :| In(front, c, i) && front[i].id == x { assert In(pages, c, i); }
      if here { assert In(pages, c, n); }
    }
    forall w ensures TagIn(pages, c, w) <==> TagIn(front, c, w) || (here && w in pages[n].tags) {
      if i: nat :| In(front, c, i) && w in front[i].tags { assert In(pages, c, i); }
      if here { assert In(pages, c, n); }
    }
    forall w ensures BookIn(pages, c, w) <==> BookIn(front, c, w) || (here && w in pages[n].books) {
      if i: nat :| In(front, c, i) && w in front[i].books { assert In(pages, c, i); }
      if here { assert In(pages, c, n); }
    }
  }

  lemma {:induction false} InIsInFront(pages: seq<Page>, n: nat, c: nat)
    requires |pages| == n + 1
    ensures forall i: nat :: In(pages, c, i) <==> In(pages[..n], c, i) || (i == n && Where(pages, n) == c)
    ensures c >= |FirstFit(pages[..n])| ==> forall i: nat :: !In(pages[..n], c, i)
  {
    hide Where, FirstFit;
    forall i: nat | i < n ensures Where(pages[..n], i) == Where(pages, i) < |FirstFit(pages[..n])| {
      PrefixWhere(pages, n, i);
      WhereIsCluster(pages[..n], i);
    }
  }

  lemma {:induction false} AcceptsIff(pages: seq<Page>, c: nat, p: Page)
    requires c < |FirstFit(pages)|
    ensures Accepts(FirstFit(pages)[c], p) <==> exists i: nat :: In(pages, c, i) && Shares(pages[i], p)
  {
    hide Where, FirstFit;
    ClusterIs(pages, c);
    var k := FirstFit(pages)[c];
    if w :| w in k.tags * p.tags {
      assert TagIn(pages, c, w);
      var i: nat :| In(pages, c, i) && w in pages[i].tags;
      assert w in pages[i].tags * p.tags;
    }
    if w :| w in k.books * p.books {
      assert BookIn(pages, c, w);
      var i: nat :| In(pages, c, i) && w in pages[i].books;
      assert w in pages[i].books * p.books;
    }
    if i: nat :| In(pages, c, i) && Shares(pages[i], p) {
      if w :| w in pages[i].tags * p.tags {
        assert TagIn(pages, c, w) && w in k.tags * p.tags;
      } else {
        var w :| w in pages[i].books * p.books;
        assert BookIn(pages, c, w) && w in k.books * p.books;
      }
    }
  }

  lemma {:induction false} WhereIs(pages: seq<Page>, n: nat)
    requires n < |pages|
    ensures var cs, t := FirstFit(pages[..n]), Where(pages, n);
            && (t < |cs| ==> Accepts(cs[t], pages[n]))
            && forall j | 0 <= j < t && j < |cs| :: !Accepts(cs[j], pages[n])
  {
  }

  /** A page goes to the first cluster holding an earlier page it shares something with. */
  lemma {:induction false} PlacedWithSharer(pages: seq<Page>, n: nat)
    requires n < |pages|
    ensures forall i | 0 <= i < n && Shares(pages[i], pages[n]) :: Where(pages, n) <= Where(pages, i)
    ensures (exists i :: 0 <= i < n && (Where(pages, i) == Where(pages, n) || Shares(pages[i], pages[n]))) ==>
              exists l :: 0 <= l < n && Where(pages, l) == Where(pages, n) && Shares(pages[l], pages[n])
  {
    hide Where, FirstFit, Accepts, Shares;
    var front, t := pages[..n], Where(pages, n);
    WhereIs(pages, n);
    forall i: nat | i < n ensures Where(front, i) == Where(pages, i) < |FirstFit(front)| {
      PrefixWhere(pages, n, i);
      WhereIsCluster(front, i);
    }
    forall i: nat | i < n && Shares(pages[i], pages[n]) ensures t <= Where(pages, i) {
      AcceptsIff(front, Where(pages, i), pages[n]);
      assert In(front, Where(pages, i), i) && front[i] == pages[i];
    }
    if t < |FirstFit(front)| {
      AcceptsIff(front, t, pages[n]);
      var l: nat :| In(front, t, l) && Shares(front[l], pages[n]);
      assert l < n && Where(pages, l) == t && front[l] == pages[l];
    }
  }

  /** Pages of one cluster are connected. */
  lemma {:induction false} SameIsConnected(pages: seq<Page>, i: nat, j: nat)
    requires i <= j && Same(pages, i, j)
    ensures Connected(pages, i, j)
    decreases j
  {
    hide Where;
    if i == j {
      Chains.ConnectedSelf(BySharing(pages), |pages|, i);
    } else {
      PlacedWithSharer(pages, j);
      var l: nat :| l < j && Where(pages, l) == Where(pages, j) && Shares(pages[l], pages[j]);
      if i <= l {
        SameIsConnected(pages, i, l);
      } else {
        SameIsConnected(pages, l, i);
        ConnectedBack(pages, l, i);
      }
      ConnectedStep(pages, i, l, j);
    }
  }

  /** No page joins two components of the pages before it. */
  ghost predicate NoLateJoin(pages: seq<Page>) {
    forall i, j, n | 0 <= i < j < n < |pages| && Shares(pages[i], pages[n]) && Shares(pages[j], pages[n]) ::
      Connected(pages[..n], i, j)
  }

  ghost predicate SharersTogether(pages: seq<Page>) {
    forall i, j | 0 <= i < j < |pages| && Shares(pages[i], pages[j]) :: Same(pages, i, j)
  }

  lemma {:induction false} ChainStaysTogether(pages: seq<Page>, i: nat, j: nat)
    requires SharersTogether(pages) && Connected(pages, i, j)
    ensures Same(pages, i, j)
  {
    hide Where, Shares;
    var link := BySharing(pages);
    var path :| Chains.Chain(link, |pages|, path) && path[0] == i && path[|path| - 1] == j;
    var same: Chains.Link := (a: nat, b: nat) => Same(pages, a, b);
    forall a: nat, b: nat | a < |pages| && b < |pages| && link(a, b) ensures same(a, b) {
      SharesBack(pages[a], pages[b]);
      assert a < b ==> Same(pages, a, b);
      assert b < a ==> Same(pages, b, a);
    }
    Chains.ChainKeeps(link, |pages|, path, same);
  }

  lemma {:induction false} SharesBack(p: Page, q: Page)
    requires Shares(p, q)
    ensures Shares(q, p)
  {
    assert p.tags * q.tags == q.tags * p.tags && p.books * q.books == q.books * p.books;
  }

  lemma {:induction false} WithoutLateJoins(pages: seq<Page>)
    requires NoLateJoin(pages)
    ensures SharersTogether(pages)
    decreases |pages|
  {
    hide Where;
    if pages != [] {
      var n := |pages| - 1;
      var front := pages[..n];
      FrontHasNoLateJoin(pages, n);
      WithoutLateJoins(front);
      forall i: nat, j: nat | i < j <= n && Shares(pages[i], pages[j]) ensures Same(pages, i, j) {
        if j < n {
          assert Same(front, i, j);
          PrefixWhere(pages, n, i);
          PrefixWhere(pages, n, j);
        } else {
          LastJoinsSharer(pages, i);
        }
      }
    }
  }

  lemma {:induction false} FrontHasNoLateJoin(pages: seq<Page>, n: nat)
    requires NoLateJoin(pages) && n <= |pages|
    ensures NoLateJoin(pages[..n])
  {
    hide Shares, Connected;
    forall i, j, m | 0 <= i < j < m < n && Shares(pages[..n][i], pages[..n][m]) && Shares(pages[..n][j], pages[..n][m])
      ensures Connected(pages[..n][..m], i, j)
    {
      assert pages[..n][..m] == pages[..m];
    }
  }

  lemma {:induction false} LastJoinsSharer(pages: seq<Page>, i: nat)
    requires NoLateJoin(pages) && i < |pages| - 1 && Shares(pages[i], pages[|pages| - 1])
    requires SharersTogether(pages[..|pages| - 1])
    ensures Same(pages, i, |pages| - 1)
  {
    hide Where;
    var n := |pages| - 1;
    var front := pages[..n];
    PlacedWithSharer(pages, n);
    var l: nat :| l < n && Where(pages, l) == Where(pages, n) && Shares(pages[l], pages[n]);
    if l != i {
      assert Connected(front, if i < l then i else l, if i < l then l else i);
      ChainStaysTogether(front, if i < l then i else l, if i < l then l else i);
      PrefixWhere(pages, n, i);
      PrefixWhere(pages, n, l);
    }
  }

  lemma {:induction false} IdInIff(pages: seq<Page>, c: nat, k: nat)
    requires Distinct(IdsOf(pages)) && k < |pages|
    ensures IdIn(pages, c, pages[k].id) <==> Where(pages, k) == c
  {
    hide Where;
    assert Where(pages, k) == c ==> In(pages, c, k);
    if l: nat :| In(pages, c, l) && pages[l].id == pages[k].id {
      assert IdsOf(pages)[l] == IdsOf(pages)[k];
    }
  }

  lemma {:induction false} MemberIff(pages: seq<Page>, c: nat, k: nat)
    requires Distinct(IdsOf(pages)) && k < |pages| && c < |FirstFit(pages)|
    ensures pages[k].id in FirstFit(pages)[c].ids <==> Where(pages, k) == c
  {
    hide Where, FirstFit, IdIn, TagIn, BookIn, IdsOf, Distinct;
    ClusterIs(pages, c);
    IdInIff(pages, c, k);
  }

  /** Members of one cluster, by id. */
  lemma {:induction false} TogetherIsSame(pages: seq<Page>, i: nat, j: nat)
    requires Distinct(IdsOf(pages)) && i < |pages| && j < |pages|
    ensures Together(Members(FirstFit(pages)), pages[i].id, pages[j].id) <==> Same(pages, i, j)
  {
    hide Where, FirstFit, IdsOf, Distinct, Together;
    var m := Members(FirstFit(pages));
    WhereIsCluster(pages, i);
    forall c: nat | c < |m|
      ensures (pages[i].id in m[c] <==> Where(pages, i) == c) && (pages[j].id in m[c] <==> Where(pages, j) == c)
    {
      MemberIff(pages, c, i);
      MemberIff(pages, c, j);
    }
    OneClusterEach(m, pages[i].id, Where(pages, i), pages[j].id, Where(pages, j));
  }

  lemma {:induction false} OneClusterEach(m: seq<seq<Id>>, x: Id, a: nat, y: Id, b: nat)
    requires a < |m| && forall c: nat | c < |m| :: (x in m[c] <==> a == c) && (y in m[c] <==> b == c)
    ensures Together(m, x, y) <==> a == b
  {
    assert x in m[a];
  }

  /** The clusters are the connected components exactly when no page joins two components of the
      pages before it. */
  lemma {:induction false} ClustersAreComponentsIff(pages: seq<Page>)
    requires Distinct(IdsOf(pages))
    ensures NoLateJoin(pages) <==>
              forall i: nat, j: nat | i < |pages| && j < |pages| ::
                Together(Members(FirstFit(pages)), pages[i].id, pages[j].id) <==> Connected(pages, i, j)
  {
    hide Where, FirstFit, Together, Connected, NoLateJoin, IdsOf, Distinct, Same;
    forall i: nat, j: nat | i < |pages| && j < |pages|
      ensures Together(Members(FirstFit(pages)), pages[i].id, pages[j].id) <==> Same(pages, i, j)
      ensures Same(pages, i, j) ==> Connected(pages, i, j)
      ensures NoLateJoin(pages) && Connected(pages, i, j) ==> Same(pages, i, j)
    {
      TogetherIsSame(pages, i, j);
      if Same(pages, i, j) { SameEitherWay(pages, i, j); }
      if NoLateJoin(pages) && Connected(pages, i, j) { JoinedIsSame(pages, i, j); }
    }
    if forall i: nat, j: nat | i < |pages| && j < |pages| :: Same(pages, i, j) <==> Connected(pages, i, j) {
      ComponentsHaveNoLateJoin(pages);
    }
  }

  lemma {:induction false} ComponentsHaveNoLateJoin(pages: seq<Page>)
    requires forall i: nat, j: nat | i < |pages| && j < |pages| :: Same(pages, i, j) <==> Connected(pages, i, j)
    ensures NoLateJoin(pages)
  {
    hide Where, Connected, Shares;
    forall i: nat, j: nat, n: nat | i < j < n < |pages| && Shares(pages[i], pages[n]) && Shares(pages[j], pages[n])
      ensures Connected(pages[..n], i, j)
    {
      SharersConnect(pages, i, j, n);
      assert Same(pages, i, j);
      PrefixWhere(pages, n, i);
      PrefixWhere(pages, n, j);
      SameIsConnected(pages[..n], i, j);
    }
  }

  lemma {:induction false} SameEitherWay(pages: seq<Page>, i: nat, j: nat)
    requires Same(pages, i, j)
    ensures Connected(pages, i, j)
  {
    if i <= j {
      SameIsConnected(pages, i, j);
    } else {
      SameIsConnected(pages, j, i);
      ConnectedBack(pages, j, i);
    }
  }

  lemma {:induction false} JoinedIsSame(pages: seq<Page>, i: nat, j: nat)
    requires NoLateJoin(pages) && Connected(pages, i, j)
    ensures Same(pages, i, j)
  {
    WithoutLateJoins(pages);
    ChainStaysTogether(pages, i, j);
  }

  lemma {:induction false} SharersConnect(pages: seq<Page>, i: nat, j: nat, n: nat)
    requires i < |pages| && j < |pages| && n < |pages| && Shares(pages[i], pages[n]) && Shares(pages[j], pages[n])
    ensures Connected(pages, i, j)
  {
    Chains.ConnectedSelf(BySharing(pages), |pages|, i);
    ConnectedStep(pages, i, i, n);
    SharesBack(pages[j], pages[n]);
    ConnectedStep(pages, i, n, j);
  }

  // ---------------------------------------------------------------- the program's nested sweeps

  /** The cluster that first fit gives to page `n`. */
  function Where(pages: seq<Page>, n: nat): nat
    requires n < |pages|
  {
    Target(FirstFit(pages[..n]), pages[n], 0)
  }

  lemma {:induction false} FirstFitStep(pages: seq<Page>, n: nat)
    requires n < |pages|
    ensures FirstFit(pages[..n + 1]) == Place(FirstFit(pages[..n]), pages[n])
    ensures Where(pages, n) <= |FirstFit(pages[..n])|
    ensures |FirstFit(pages[..n + 1])| == Max(|FirstFit(pages[..n])|, Where(pages, n) + 1)
    ensures forall c | 0 <= c < |FirstFit(pages[..n + 1])| ::
              FirstFit(pages[..n + 1])[c] == AfterPlacing(FirstFit(pages[..n]), pages[n], Where(pages, n), c)
  {
    var more := pages[..n + 1];
    assert more[..|more| - 1] == pages[..n];
  }

  function AfterPlacing(clusters: seq<Cluster>, p: Page, t: nat, c: nat): Cluster
    requires c < |clusters| || c == t
  {
    if c != t then clusters[c] else if c < |clusters| then Grow(clusters[c], p) else Seed(p)
  }

  // `taken` holds exactly the pages of the first `k` clusters, and of cluster `k` the seed
  // and the members before `j`.
  ghost predicate Marked(pages: seq<Page>, taken: set<Id>, k: nat, seed: nat, j: nat) {
    forall l: nat | l < |pages| ::
      (pages[l].id in taken <==> Where(pages, l) < k || (Where(pages, l) == k && (l < j || l == seed)))
  }

  // Where the inner sweep stands before page `j`.
  ghost predicate Sweeping(pages: seq<Page>, k: nat, seed: nat, j: nat, cluster: Cluster) {
    && seed < |pages| && j <= |pages|
    && Where(pages, seed) == k && |FirstFit(pages[..seed])| == k
    && (forall l: nat | l < seed :: Where(pages, l) < k)
    && if j <= seed then cluster == Seed(pages[seed])
       else k < |FirstFit(pages[..j])| && cluster == FirstFit(pages[..j])[k]
  }

  lemma {:induction false} SweepAccepts(pages: seq<Page>, taken: set<Id>, k: nat, seed: nat, j: nat, cluster: Cluster)
    requires Distinct(IdsOf(pages)) && j < |pages|
    requires Marked(pages, taken, k, seed, j) && Sweeping(pages, k, seed, j, cluster)
    requires pages[j].id !in taken && Accepts(cluster, pages[j])
    ensures Marked(pages, taken + {pages[j].id}, k, seed, j + 1)
    ensures Sweeping(pages, k, seed, j + 1, Grow(cluster, pages[j]))
  {
    hide FirstFit;
    FirstFitStep(pages, j);
    OthersKeepTheirMark(pages, taken, j);
    assert j > seed;
    assert Where(pages, j) == k;
  }

  lemma {:induction false} SweepPasses(pages: seq<Page>, taken: set<Id>, k: nat, seed: nat, j: nat, cluster: Cluster)
    requires j < |pages|
    requires Marked(pages, taken, k, seed, j) && Sweeping(pages, k, seed, j, cluster)
    requires pages[j].id in taken || !Accepts(cluster, pages[j])
    ensures Marked(pages, taken, k, seed, j + 1) && Sweeping(pages, k, seed, j + 1, cluster)
  {
    hide FirstFit;
    FirstFitStep(pages, j);
    if pages[j].id in taken {
      assert Where(pages, j) < k || j == seed;
    } else {
      assert Where(pages, j) != k;
    }
  }

  lemma {:induction false} OthersKeepTheirMark(pages: seq<Page>, taken: set<Id>, j: nat)
    requires Distinct(IdsOf(pages)) && j < |pages|
    ensures forall l: nat | l < |pages| :: pages[l].id in taken + {pages[j].id} <==> pages[l].id in taken || l == j
  {
    forall l: nat | l < |pages| && pages[l].id == pages[j].id ensures l == j {
      var ids := IdsOf(pages);
      assert ids[l] == ids[j];
    }
  }

  // Where the outer loop stands before page `i`.
  ghost predicate Covered(pages: seq<Page>, i: nat, communities: seq<seq<Id>>) {
    && i <= |pages| && |FirstFit(pages[..i])| <= |communities| <= |FirstFit(pages)|
    && communities == Members(FirstFit(pages))[..|communities|]
    && (forall l: nat | l < i :: Where(pages, l) < |communities|)
  }

  lemma {:induction false} StartSweep(pages: seq<Page>, taken: set<Id>, i: nat, communities: seq<seq<Id>>)
    requires Distinct(IdsOf(pages)) && i < |pages| && Covered(pages, i, communities)
    requires Marked(pages, taken, |communities|, |pages|, 0) && pages[i].id !in taken
    ensures Marked(pages, taken + {pages[i].id}, |communities|, i, 0)
    ensures Sweeping(pages, |communities|, i, 0, Seed(pages[i]))
  {
    hide FirstFit;
    FirstFitStep(pages, i);
    OthersKeepTheirMark(pages, taken, i);
    forall l: nat | l < |pages| && Where(pages, l) == |communities| ensures l >= i {
    }
  }

  lemma {:induction false} EndSweep(pages: seq<Page>, taken: set<Id>, i: nat, communities: seq<seq<Id>>,
                                    cluster: Cluster)
    requires i < |pages| && Covered(pages, i, communities)
    requires Marked(pages, taken, |communities|, i, |pages|)
    requires Sweeping(pages, |communities|, i, |pages|, cluster)
    ensures Covered(pages, i + 1, communities + [cluster.ids])
    ensures Marked(pages, taken, |communities| + 1, |pages|, 0)
  {
    hide FirstFit;
    FirstFitStep(pages, i);
    assert pages[..|pages|] == pages;
    var all := Members(FirstFit(pages));
    assert all[..|communities| + 1] == all[..|communities|] + [all[|communities|]];
  }

  lemma {:induction false} SkipAssigned(pages: seq<Page>, taken: set<Id>, i: nat, communities: seq<seq<Id>>)
    requires i < |pages| && Covered(pages, i, communities)
    requires Marked(pages, taken, |communities|, |pages|, 0) && pages[i].id in taken
    ensures Covered(pages, i + 1, communities)
  {
    hide FirstFit;
    FirstFitStep(pages, i);
  }

  /** The greedy sweeps compute first fit. */
  method ClusterPages(pages: seq<Page>) returns (communities: seq<seq<Id>>)
    requires Distinct(IdsOf(pages))
    ensures communities == Members(FirstFit(pages))
  {
    hide FirstFit, Marked, Sweeping, Covered, Where, Distinct;
    communities := [];
    var taken := {};
    NothingCovered(pages);
    for i := 0 to |pages|
      invariant Covered(pages, i, communities)
      invariant Marked(pages, taken, |communities|, |pages|, 0)
    {
      var p := pages[i];
      if p.id in taken {
        SkipAssigned(pages, taken, i, communities);
        continue;
      }
      StartSweep(pages, taken, i, communities);
      var cluster := Seed(p);
      taken := taken + {p.id};
      for j := 0 to |pages|
        invariant Marked(pages, taken, |communities|, i, j)
        invariant Sweeping(pages, |communities|, i, j, cluster)
      {
        var other := pages[j];
        if other.id in taken || !Accepts(cluster, other) {
          SweepPasses(pages, taken, |communities|, i, j, cluster);
        } else {
          SweepAccepts(pages, taken, |communities|, i, j, cluster);
          cluster := Grow(cluster, other);
          taken := taken + {other.id};
        }
      }
      EndSweep(pages, taken, i, communities, cluster);
      communities := communities + [cluster.ids];
    }
    AllCovered(pages, communities);
  }

  lemma {:induction false} NothingCovered(pages: seq<Page>)
    ensures Covered(pages, 0, []) && Marked(pages, {}, 0, |pages|, 0)
  {
  }

  lemma {:induction false} AllCovered(pages: seq<Page>, communities: seq<seq<Id>>)
    requires Covered(pages, |pages|, communities)
    ensures communities == Members(FirstFit(pages))
  {
    assert pages[..|pages|] == pages;
  }
}
