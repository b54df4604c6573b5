/** What a rebuild leaves in the store: every page in one book, every book on one shelf. */
module GraphForest {
  import opened Sequences
  import opened Partition
  import opened GraphIds
  import opened TableSync
  import opened GraphBuilder
  import PageClusters

  // A generated edge whose id spells out its endpoints.
  predicate Shaped(e: Edge) {
    || (e.relation == "belongs_to" && Generated("book-", e.target) && e.id == BelongsToId(e.source, e.target))
    || (e.relation == "sits_on" && Generated("shelf-", e.target) && e.id == SitsOnId(e.source, e.target))
  }

  predicate PageRow(id: Id, n: Node) {
    n.kind == "page" ==> !OwnedNode(n) && !Generated("book-", id) && !Generated("shelf-", id)
  }

  // An owned row under an id the builder could make is of the kind the builder would make; other
  // writers may own rows under other ids.
  predicate GeneratedRow(id: Id, n: Node) {
    OwnedNode(n) ==> (Generated("book-", id) ==> n.kind == "book") && (Generated("shelf-", id) ==> n.kind == "shelf")
  }

  predicate IsPage(nodes: map<Id, Node>, id: Id) {
    id in nodes && nodes[id].kind == "page"
  }

  // An edge that the builder could draw over this store.
  predicate Expected(nodes: map<Id, Node>, f: Edge) {
    Shaped(f) && if f.relation == "belongs_to" then IsPage(nodes, f.source) else Generated("book-", f.source)
  }

  // The edge may stand for any edge of the builder that has its id.
  ghost predicate Faithful(nodes: map<Id, Node>, e: Edge) {
    forall f | Expected(nodes, f) && f.id == e.id ::
      e.source == f.source && e.target == f.target && e.relation == f.relation
  }

  ghost predicate NodeInv(nodes: map<Id, Node>) {
    forall id | id in nodes :: nodes[id].id == id && PageRow(id, nodes[id]) && GeneratedRow(id, nodes[id])
  }

  ghost predicate EdgeInv(nodes: map<Id, Node>, edges: map<Id, Edge>) {
    forall id | id in edges :: edges[id].id == id && (OwnedEdgeId(id) ==> Faithful(nodes, edges[id]))
  }

  /** Rows are stored under their own ids, pages are not marked as generated, and rows under ids
      the builder could make are what it would have made. */
  ghost predicate StoreInv(nodes: map<Id, Node>, edges: map<Id, Edge>) {
    NodeInv(nodes) && EdgeInv(nodes, edges)
  }

  lemma {:induction false} ShapedIdsSpellEnds(e: Edge, f: Edge)
    requires Shaped(e) && Shaped(f) && e.id == f.id
    ensures e.source == f.source && e.target == f.target && e.relation == f.relation
  {
    if e.relation == "belongs_to" {
      if f.relation == "belongs_to" {
        BelongsToIdInjective(e.source, e.target, f.source, f.target);
      } else {
        RelationsDoNotMix(e.source, e.target, f.source, f.target);
      }
    } else if f.relation == "sits_on" {
      SitsOnIdInjective(e.source, e.target, f.source, f.target);
    } else {
      RelationsDoNotMix(f.source, f.target, e.source, e.target);
    }
  }

  lemma {:induction false} ShapedIsFaithful(nodes: map<Id, Node>, e: Edge)
    requires Shaped(e)
    ensures Faithful(nodes, e)
  {
    forall f | Expected(nodes, f) && f.id == e.id
      ensures e.source == f.source && e.target == f.target && e.relation == f.relation
    {
      ShapedIdsSpellEnds(e, f);
    }
  }

  lemma {:induction false} SamePagesSameInv(nodes: map<Id, Node>, after: map<Id, Node>, edges: map<Id, Edge>)
    requires EdgeInv(nodes, edges) && forall id :: IsPage(after, id) <==> IsPage(nodes, id)
    ensures EdgeInv(after, edges)
  {
    hide Shaped, OwnedEdgeId, Generated, IsPage;
    forall id | id in edges && OwnedEdgeId(id) ensures Faithful(after, edges[id]) {
      assert Faithful(nodes, edges[id]);
      forall f | Expected(after, f) ensures Expected(nodes, f) {
      }
    }
  }

  // ---------------------------------------------------------------- rows of the other clusterer

  // The id under which the library links two nodes.
  function LinkId(source: Id, relation: string, target: Id): Id {
    source + ":" + relation + ":" + target
  }

  predicate HexOrDash(c: char) {
    '0' <= c <= '9' || 'a' <= c <= 'f' || c == '-'
  }

  // Ends like a UUID: at least one group, a dash, and the last group.
  predicate EndsLikeUuid(id: Id, start: string, front: string, last: string) {
    && id == start + front + "-" + last && |front| >= 2 && NoDash(last)
    && forall k | 0 <= k < |front| :: HexOrDash(front[k])
  }

  /** The library's own clusterer writes owned books and shelves named by UUIDs, and links to
      them. Its rows lie in the namespace the sync claims, and they satisfy the invariant. */
  lemma {:induction false} LinkedRowsFit(nodes: map<Id, Node>, n: Node, e: Edge, start: string, front: string,
                                         last: string)
    requires (n.kind == "book" && "book-" <= n.id) || (n.kind == "shelf" && "shelf-" <= n.id)
    requires e.id == LinkId(e.source, e.relation, e.target) && EndsLikeUuid(e.target, start, front, last)
    ensures PageRow(n.id, n) && GeneratedRow(n.id, n) && Faithful(nodes, e)
  {
    assert "book-" <= n.id ==> n.id[0] == 'b';
    assert "shelf-" <= n.id ==> n.id[0] == 's';
    forall f: Edge | f.id == e.id ensures !Shaped(f) {
      LinkIsNotShaped(e, f, start, front, last);
    }
  }

  lemma {:induction false} LinkIsNotShaped(e: Edge, f: Edge, start: string, front: string, last: string)
    requires e.id == LinkId(e.source, e.relation, e.target) && EndsLikeUuid(e.target, start, front, last)
    requires f.id == e.id
    ensures !Shaped(f)
  {
    var x := e.source + ":" + e.relation + ":" + start + front;
    assert e.id == x + "-" + last;
    assert HexOrDash(x[|x| - 2]) by { assert x[|x| - 2] == front[|front| - 2]; }
    if Generated("book-", f.target) {
      var y := f.source + "-belongs_to-book";
      assert BelongsToId(f.source, f.target) == y + "-" + f.target[5..] by {
        assert f.target == "book-" + f.target[5..];
      }
      assert y[|y| - 2] == 'o';
      if f.id == y + "-" + f.target[5..] { TailAfterDash(x, last, y, f.target[5..]); }
    }
    if Generated("shelf-", f.target) {
      var y := f.source + "-sits_on-shelf";
      assert SitsOnId(f.source, f.target) == y + "-" + f.target[6..] by {
        assert f.target == "shelf-" + f.target[6..];
      }
      assert y[|y| - 2] == 'l';
      if f.id == y + "-" + f.target[6..] { TailAfterDash(x, last, y, f.target[6..]); }
    }
  }

  // The id under which the library stores a tag of a node.
  predicate TagEdge(e: Edge, tag: string) {
    e.relation == "tag" && e.id == e.source + "->tag:" + tag
  }

  // A book or shelf of the library's own clusterer: a prefix and a UUID.
  predicate OwnName(id: Id, prefix: string, u: string) {
    prefix in {"book-", "shelf-"} && id == prefix + u && forall k | 0 <= k < |u| :: HexOrDash(u[k])
  }

  lemma {:induction false} TagIsNoSeat(e: Edge, tag: string, prefix: string, u: string, z: string, y: string)
    requires TagEdge(e, tag) && OwnName(e.source, prefix, u) && NoDash(z)
    ensures e.id != SitsOnId("book-" + z, "shelf-" + y)
  {
    var s, t := SitsOnId("book-" + z, "shelf-" + y), prefix + u + "->tag:" + tag;
    var i, n := 5 + |z|, |prefix| + |u|;
    assert s == "book-" + z + "-sits_on-" + "shelf-" + y && e.id == t;
    assert s[0] == 'b' && s[i] == '-' && s[i + 1] == 's';
    assert t[0] == prefix[0] && t[n] == '-' && t[n + 1] == '>';
    assert forall k | 5 <= k < i :: s[k] == z[k - 5];
    assert forall k | |prefix| <= k < n :: t[k] == u[k - |prefix|];
  }

  /** A tag edge, which the sync may take for its own, satisfies the invariant exactly when its id
      is not that of an edge the builder could draw. */
  lemma {:induction false} TagEdgeFitsIff(nodes: map<Id, Node>, e: Edge, tag: string)
    requires TagEdge(e, tag)
    ensures Faithful(nodes, e) <==>
              && (forall p, y | IsPage(nodes, p) && NoDash(y) :: e.id != BelongsToId(p, "book-" + y))
              && (forall z, y | NoDash(z) && NoDash(y) :: e.id != SitsOnId("book-" + z, "shelf-" + y))
  {
    hide NoDash;
    if Faithful(nodes, e) {
      forall p, y | IsPage(nodes, p) && NoDash(y) ensures e.id != BelongsToId(p, "book-" + y) {
        var f := Edge(BelongsToId(p, "book-" + y), p, "book-" + y, "belongs_to", 0.0);
        assert ("book-" + y)[5..] == y;
        assert Expected(nodes, f);
      }
      forall z, y | NoDash(z) && NoDash(y) ensures e.id != SitsOnId("book-" + z, "shelf-" + y) {
        var f := Edge(SitsOnId("book-" + z, "shelf-" + y), "book-" + z, "shelf-" + y, "sits_on", 0.0);
        assert ("book-" + z)[5..] == z && ("shelf-" + y)[6..] == y;
        assert Expected(nodes, f);
      }
    }
    forall f | Expected(nodes, f) && f.id == e.id
      ensures exists x, y :: NoDash(y)
                && ((IsPage(nodes, x) && e.id == BelongsToId(x, "book-" + y))
                    || (NoDash(x) && e.id == SitsOnId("book-" + x, "shelf-" + y)))
    {
      if f.relation == "belongs_to" {
        assert f.target == "book-" + f.target[5..];
      } else {
        assert f.target == "shelf-" + f.target[6..] && f.source == "book-" + f.source[5..];
      }
    }
  }

  /** For the clusterer's own books and shelves it does so, whatever the tag is, when no stored page's
      id goes on from theirs with `->tag:`. */
  lemma {:induction false} TagEdgeFits(nodes: map<Id, Node>, e: Edge, tag: string, prefix: string, u: string)
    requires TagEdge(e, tag) && OwnName(e.source, prefix, u)
    requires forall p | IsPage(nodes, p) :: !(e.source + "->tag:" <= p)
    ensures Faithful(nodes, e)
  {
    hide HexOrDash;
    forall p, y | IsPage(nodes, p) && NoDash(y) ensures e.id != BelongsToId(p, "book-" + y) {
      PageGoesOn(prefix, u, tag, p, "book-" + y);
    }
    forall z, y | NoDash(z) && NoDash(y) ensures e.id != SitsOnId("book-" + z, "shelf-" + y) {
      TagIsNoSeat(e, tag, prefix, u, z, y);
    }
    TagEdgeFitsIff(nodes, e, tag);
  }

  lemma {:induction false} PageGoesOn(prefix: string, u: string, tag: string, p: Id, book: Id)
    requires OwnName(prefix + u, prefix, u)
    ensures prefix + u + "->tag:" + tag == BelongsToId(p, book) ==> prefix + u + "->tag:" <= p
  {
    var head := prefix + u + "->tag:";
    if |p| < |head| {
      ShortPageDiffers(prefix, u, tag, p, book);
    } else {
      assert (head + tag)[..|head|] == head;
      assert BelongsToId(p, book)[..|head|] == p[..|head|];
    }
  }

  // The marker of a belongs_to edge cannot begin in the name or in the arrow.
  lemma {:induction false} ShortPageDiffers(prefix: string, u: string, tag: string, p: Id, book: Id)
    requires OwnName(prefix + u, prefix, u) && |p| < |prefix| + |u| + 6
    ensures prefix + u + "->tag:" + tag != BelongsToId(p, book)
  {
    hide HexOrDash;
    var s, t := BelongsToId(p, book), prefix + u + "->tag:" + tag;
    var i, m, n := |p|, |prefix|, |prefix| + |u|;
    assert s == p + "-belongs_to-" + book;
    assert s[i] == '-' && s[i + 1] == 'b' && s[i + 3] == 'l';
    assert t[n] == '-' && t[n + 1] == '>' && t[n + 2] == 't' && t[n + 3] == 'a' && t[n + 4] == 'g' && t[n + 5] == ':';
    assert forall k | m <= k < n :: t[k] == u[k - m] && HexOrDash(t[k]);
    assert forall k | 0 <= k < m - 1 :: t[k] == prefix[k] != '-';
    assert !HexOrDash('l') by { LIsNoHexDigit(); }
  }

  lemma {:induction false} LIsNoHexDigit()
    ensures !HexOrDash('l')
  {
  }

  // ---------------------------------------------------------------- the target rows are well formed

  // What the forest proof needs of a plan, apart from how it was found.
  ghost predicate SoundPlan(books: seq<Book>, shelves: seq<Shelf>, pages: seq<Id>) {
    && Distinct(pages) && Distinct(BookIds(books))
    && (forall i, j | 0 <= i < j < |shelves| :: shelves[i].id != shelves[j].id)
    && (forall i | 0 <= i < |books| :: Generated("book-", books[i].id))
    && (forall i | 0 <= i < |shelves| :: Generated("shelf-", shelves[i].id))
    && Partitions(PageLists(books), pages) && Partitions(BookLists(shelves), BookIds(books))
  }

  lemma {:induction false} PlansAreSound(nm: Naming, nodes: map<Id, Node>, edges: map<Id, Edge>, plan: Plan)
    requires Ideal(nm.hash) && PlanFor(nm, nodes, edges, plan)
    ensures SoundPlan(plan.books, plan.shelves, PageClusters.IdsOf(plan.pages))
  {
    hide Partitions, Distinct, Merged, PageClusters.FirstFit, PageClusters.IdsOf, StableId, MakeShelf;
    PlanBooks(nm, plan.pages);
    ShelfIdsDistinct(nm, plan.books, BookLists(plan.shelves));
    IdsAreGenerated(nm, plan);
  }

  lemma {:induction false} IdsAreGenerated(nm: Naming, plan: Plan)
    requires Ideal(nm.hash) && plan.shelves == ShelvesOf(nm, plan.books, BookLists(plan.shelves))
    requires exists cs :: plan.books == BooksOf(nm, cs)
    ensures forall i | 0 <= i < |plan.books| :: Generated("book-", plan.books[i].id)
    ensures forall i | 0 <= i < |plan.shelves| :: Generated("shelf-", plan.shelves[i].id)
  {
    forall i | 0 <= i < |plan.books| ensures Generated("book-", plan.books[i].id) {
      var b := plan.books[i];
      assert b.id[5..] == StableId(nm.hash, b.key, b.pages);
    }
    forall i | 0 <= i < |plan.shelves| ensures Generated("shelf-", plan.shelves[i].id) {
      var s := plan.shelves[i];
      assert s.id[6..] == StableId(nm.hash, s.key, s.books);
    }
  }

  lemma {:induction false} NodeTargetsDistinct(books: seq<Book>, shelves: seq<Shelf>, pages: seq<Id>)
    requires SoundPlan(books, shelves, pages)
    ensures DistinctIds(NodePolicy(), NodeTargets(books, shelves))
      && AllOwned(NodePolicy(), NodeTargets(books, shelves))
  {
    var p, ts := NodePolicy(), NodeTargets(books, shelves);
    forall i, j | 0 <= i < j < |ts| ensures p.id(ts[i]) != p.id(ts[j]) {
      if j < |books| {
        assert BookIds(books)[i] != BookIds(books)[j];
      } else if i < |books| {
        assert ts[i].id[0] == 'b' && ts[j] == ShelfNode(shelves[j - |books|]) && ts[j].id[0] == 's';
      } else {
        assert ts[i] == ShelfNode(shelves[i - |books|]) && ts[j] == ShelfNode(shelves[j - |books|]);
      }
    }
    forall i | 0 <= i < |ts| ensures p.owned(p.id(ts[i]), ts[i]) {
      if i >= |books| {
        assert ts[i] == ShelfNode(shelves[i - |books|]);
      }
    }
  }

  lemma {:induction false} PageEdgeSources(books: seq<Book>)
    ensures var es, ps := FlatMap(PageEdges, books), Flatten(PageLists(books));
            |es| == |ps| && forall i | 0 <= i < |es| :: es[i].source == ps[i]
  {
    if books != [] {
      PageEdgeSources(books[1..]);
      assert PageLists(books)[1..] == PageLists(books[1..]);
    }
  }

  lemma {:induction false} ShelfEdgeSources(shelves: seq<Shelf>)
    ensures var es, bs := FlatMap(ShelfEdges, shelves), Flatten(BookLists(shelves));
            |es| == |bs| && forall i | 0 <= i < |es| :: es[i].source == bs[i]
  {
    if shelves != [] {
      ShelfEdgeSources(shelves[1..]);
      assert BookLists(shelves)[1..] == BookLists(shelves[1..]);
    }
  }

  lemma {:induction false} PartitionFlattensDistinctly(clusters: seq<seq<Id>>, ids: seq<Id>)
    requires Partitions(clusters, ids) && Distinct(ids)
    ensures Distinct(Flatten(clusters))
  {
    DistinctCounts(ids);
    CountsDistinct(Flatten(clusters));
  }

  // What an edge target is: one page's edge to its book, or one book's edge to its shelf.
  ghost predicate PageEdge(books: seq<Book>, c: nat, e: Edge) {
    c < |books| && e.source in books[c].pages && e == BelongsTo(e.source, books[c].id)
  }

  ghost predicate ShelfEdge(shelves: seq<Shelf>, c: nat, e: Edge) {
    c < |shelves| && e.source in shelves[c].books && e == SitsOn(e.source, shelves[c].id)
  }

  lemma {:induction false} EdgesOfPages(books: seq<Book>, e: Edge)
    ensures e in FlatMap(PageEdges, books) <==> exists c: nat :: PageEdge(books, c, e)
  {
    InFlatMap(PageEdges, books, e);
    if c: nat :| PageEdge(books, c, e) {
      var k :| 0 <= k < |books[c].pages| && books[c].pages[k] == e.source;
      assert PageEdges(books[c])[k] == e;
    }
    if e in FlatMap(PageEdges, books) {
      var c :| 0 <= c < |books| && e in PageEdges(books[c]);
      assert PageEdge(books, c, e);
    }
  }

  lemma {:induction false} EdgesOfShelves(shelves: seq<Shelf>, e: Edge)
    ensures e in FlatMap(ShelfEdges, shelves) <==> exists c: nat :: ShelfEdge(shelves, c, e)
  {
    InFlatMap(ShelfEdges, shelves, e);
    if c: nat :| ShelfEdge(shelves, c, e) {
      var k :| 0 <= k < |shelves[c].books| && shelves[c].books[k] == e.source;
      assert ShelfEdges(shelves[c])[k] == e;
    }
    if e in FlatMap(ShelfEdges, shelves) {
      var c :| 0 <= c < |shelves| && e in ShelfEdges(shelves[c]);
      assert ShelfEdge(shelves, c, e);
    }
  }

  lemma {:induction false} EdgeTargetsAre(books: seq<Book>, shelves: seq<Shelf>, pages: seq<Id>, e: Edge)
    requires SoundPlan(books, shelves, pages)
    ensures e in EdgeTargets(books, shelves) <==>
              (exists c: nat :: PageEdge(books, c, e)) || (exists c: nat :: ShelfEdge(shelves, c, e))
    ensures e in EdgeTargets(books, shelves) ==> Shaped(e) && OwnedEdgeId(e.id)
  {
    hide Contains, Partitions, Distinct;
    EdgesOfPages(books, e);
    EdgesOfShelves(shelves, e);
    GeneratedEdgesAreOwned(e.source, e.target);
  }

  lemma {:induction false} EdgeTargetShape(books: seq<Book>, shelves: seq<Shelf>, pages: seq<Id>, i: nat)
    requires SoundPlan(books, shelves, pages) && i < |EdgeTargets(books, shelves)|
    ensures var e := EdgeTargets(books, shelves)[i];
            Shaped(e) && OwnedEdgeId(e.id)
            && e.relation == if i < |FlatMap(PageEdges, books)| then "belongs_to" else "sits_on"
  {
    hide Contains, Partitions, Distinct, FlatMap, Generated;
    var a, b, ts := FlatMap(PageEdges, books), FlatMap(ShelfEdges, shelves), EdgeTargets(books, shelves);
    EdgeTargetsAre(books, shelves, pages, ts[i]);
    EdgesOfPages(books, ts[i]);
    EdgesOfShelves(shelves, ts[i]);
    assert i >= |a| ==> ts[i] == b[i - |a|];
  }

  lemma {:induction false} SourcesDiffer(books: seq<Book>, shelves: seq<Shelf>, pages: seq<Id>, i: nat, j: nat)
    requires SoundPlan(books, shelves, pages) && i < j < |EdgeTargets(books, shelves)|
    ensures var a, ts := |FlatMap(PageEdges, books)|, EdgeTargets(books, shelves);
            (j < a || a <= i) ==> ts[i].source != ts[j].source
  {
    PageEdgeSources(books);
    ShelfEdgeSources(shelves);
    PartitionFlattensDistinctly(PageLists(books), pages);
    PartitionFlattensDistinctly(BookLists(shelves), BookIds(books));
    hide Partitions, FlatMap;
    var a, b, ts := FlatMap(PageEdges, books), FlatMap(ShelfEdges, shelves), EdgeTargets(books, shelves);
    assert a + b == ts;
  }

  lemma {:induction false} EdgeTargetsDistinct(books: seq<Book>, shelves: seq<Shelf>, pages: seq<Id>)
    requires SoundPlan(books, shelves, pages)
    ensures DistinctIds(EdgePolicy(), EdgeTargets(books, shelves))
      && AllOwned(EdgePolicy(), EdgeTargets(books, shelves))
    ensures forall id | id in Ids(EdgePolicy(), EdgeTargets(books, shelves)) :: OwnedEdgeId(id)
  {
    hide SoundPlan, EdgeTargets, Shaped, OwnedEdgeId;
    var p, ts := EdgePolicy(), EdgeTargets(books, shelves);
    forall i | 0 <= i < |ts| ensures p.owned(p.id(ts[i]), ts[i]) && OwnedEdgeId(p.id(ts[i])) {
      EdgeTargetShape(books, shelves, pages, i);
    }
    forall i, j | 0 <= i < j < |ts| ensures p.id(ts[i]) != p.id(ts[j]) {
      EdgeTargetShape(books, shelves, pages, i);
      EdgeTargetShape(books, shelves, pages, j);
      SourcesDiffer(books, shelves, pages, i, j);
      if ts[i].id == ts[j].id {
        ShapedIdsSpellEnds(ts[i], ts[j]);
      }
    }
  }

  // ---------------------------------------------------------------- the store afterwards

  /** Exactly one generated edge of this relation leaves `x`, and it leads to `home`. */
  ghost predicate OneHome(edges: map<Id, Edge>, x: Id, relation: string, home: Id) {
    exists id :: id in edges && OwnedEdgeId(id)
      && edges[id].source == x && edges[id].relation == relation && edges[id].target == home
      && forall other | other in edges && OwnedEdgeId(other)
           && edges[other].source == x && edges[other].relation == relation :: other == id
  }

  ghost predicate Stored(nodes: map<Id, Node>, id: Id, kind: string) {
    id in nodes && OwnedNode(nodes[id]) && nodes[id].kind == kind
  }

  ghost predicate PageHasBook(nodes: map<Id, Node>, edges: map<Id, Edge>, page: Id) {
    exists book :: OneHome(edges, page, "belongs_to", book) && Stored(nodes, book, "book") && Generated("book-", book)
  }

  ghost predicate BookHasShelf(nodes: map<Id, Node>, edges: map<Id, Edge>, book: Id) {
    exists shelf ::
      OneHome(edges, book, "sits_on", shelf) && Stored(nodes, shelf, "shelf") && Generated("shelf-", shelf)
  }

  ghost predicate IsForest(nodes: map<Id, Node>, edges: map<Id, Edge>) {
    && (forall id | id in nodes && nodes[id].kind == "page" :: PageHasBook(nodes, edges, id))
    && (forall id | Stored(nodes, id, "book") :: BookHasShelf(nodes, edges, id))
    && (forall id | id in edges && OwnedEdgeId(id) :: edges[id].source in nodes && edges[id].target in nodes)
  }

  // The owned rows of the edge table are the targets, endpoint for endpoint.
  ghost predicate EdgesMatch(after: map<Id, Edge>, targets: seq<Edge>) {
    && (forall e | e in targets :: Mirrors(after, e))
    && (forall id | id in after && OwnedEdgeId(id) :: exists e :: e in targets && e.id == id)
  }

  lemma {:induction false} TargetIsExpected(nodes: map<Id, Node>, books: seq<Book>, shelves: seq<Shelf>, pages: seq<Id>,
                                            e: Edge)
    requires SoundPlan(books, shelves, pages) && e in EdgeTargets(books, shelves)
    requires forall p | p in pages :: IsPage(nodes, p)
    ensures Expected(nodes, e)
  {
    EdgeTargetsAre(books, shelves, pages, e);
    if c: nat :| PageEdge(books, c, e) {
      assert e.source in PageLists(books)[c];
      PartitionCovers(PageLists(books), pages, e.source);
    } else {
      var c: nat :| ShelfEdge(shelves, c, e);
      assert e.source in BookLists(shelves)[c];
      PartitionCovers(BookLists(shelves), BookIds(books), e.source);
    }
  }

  lemma {:induction false} EdgesAfterSync(nodes: map<Id, Node>, edges: map<Id, Edge>, books: seq<Book>,
                                          shelves: seq<Shelf>, pages: seq<Id>)
    requires SoundPlan(books, shelves, pages) && EdgeInv(nodes, edges)
    requires forall p | p in pages :: IsPage(nodes, p)
    ensures var after := Synced(EdgePolicy(), edges, EdgeTargets(books, shelves));
            EdgeInv(nodes, after) && EdgesMatch(after, EdgeTargets(books, shelves))
  {
    hide SoundPlan, EdgeTargets, OwnedEdgeId, Shaped, Expected, Synced, DistinctIds;
    var p, ts := EdgePolicy(), EdgeTargets(books, shelves);
    var after := Synced(p, edges, ts);
    EdgeTargetsDistinct(books, shelves, pages);
    SyncedTable(p, edges, ts);
    forall e | e in ts ensures Mirrors(after, e) && Faithful(nodes, after[e.id]) {
      EdgeTargetsAre(books, shelves, pages, e);
      TargetIsExpected(nodes, books, shelves, pages, e);
      ShapedIsFaithful(nodes, e);
      var i :| 0 <= i < |ts| && ts[i] == e;
      assert p.id(ts[i]) == e.id && after[e.id] == Kept(p, edges, e);
    }
    forall id | id in after
      ensures after[id].id == id
      ensures OwnedEdgeId(id) ==> Faithful(nodes, after[id]) && exists e :: e in ts && e.id == id
    {
      if id in Ids(p, ts) {
        var i :| 0 <= i < |ts| && p.id(ts[i]) == id;
        assert ts[i] in ts && Mirrors(after, ts[i]);
      }
    }
  }

  /** Edges outside the generator's namespace are not touched. */
  lemma {:induction false} OtherEdgesStay(edges: map<Id, Edge>, books: seq<Book>, shelves: seq<Shelf>, pages: seq<Id>,
                                          id: Id)
    requires SoundPlan(books, shelves, pages) && !OwnedEdgeId(id)
    ensures var after := Synced(EdgePolicy(), edges, EdgeTargets(books, shelves));
            (id in after <==> id in edges) && (id in after ==> after[id] == edges[id])
  {
    hide SoundPlan, EdgeTargets, OwnedEdgeId, Synced, DistinctIds;
    EdgeTargetsDistinct(books, shelves, pages);
    SyncedTable(EdgePolicy(), edges, EdgeTargets(books, shelves));
  }

  // The table holds an edge with the id and the ends of `e`.
  ghost predicate Mirrors(edges: map<Id, Edge>, e: Edge) {
    && e.id in edges && edges[e.id].id == e.id && edges[e.id].source == e.source && edges[e.id].target == e.target
    && edges[e.id].relation == e.relation
  }

  lemma {:induction false} TargetIsStored(nodes: map<Id, Node>, books: seq<Book>, shelves: seq<Shelf>, pages: seq<Id>,
                                          i: nat)
    requires SoundPlan(books, shelves, pages) && NodeInv(nodes) && i < |books| + |shelves|
    ensures var ts := NodeTargets(books, shelves);
            TargetStored(Synced(NodePolicy(), nodes, ts), ts[i])
  {
    hide Partitions, Distinct, Synced, Generated, DistinctIds;
    var p, ts := NodePolicy(), NodeTargets(books, shelves);
    NodeTargetsDistinct(books, shelves, pages);
    SyncedTable(p, nodes, ts);
    assert Synced(p, nodes, ts)[p.id(ts[i])] == Kept(p, nodes, ts[i]);
    TargetKinds(books, shelves, pages, i);
    GeneratedOnce(ts[i].id);
  }

  // A node row after the sync is a target's, or an old row that no target replaced.
  lemma {:induction false} NodeRowAfterSync(nodes: map<Id, Node>, books: seq<Book>, shelves: seq<Shelf>,
                                            pages: seq<Id>, id: Id)
    requires SoundPlan(books, shelves, pages) && NodeInv(nodes)
    ensures var ts := NodeTargets(books, shelves);
            var after := Synced(NodePolicy(), nodes, ts);
            || (exists i :: 0 <= i < |ts| && ts[i].id == id && TargetStored(after, ts[i]))
            || (id !in after && (id in nodes ==> OwnedNode(nodes[id])))
            || (id in after && id in nodes && after[id] == nodes[id] && !OwnedNode(nodes[id]))
  {
    hide SoundPlan, TargetStored, Synced, DistinctIds;
    var p, ts := NodePolicy(), NodeTargets(books, shelves);
    NodeTargetsDistinct(books, shelves, pages);
    SyncedTable(p, nodes, ts);
    if id in Ids(p, ts) {
      var i: nat :| i < |ts| && p.id(ts[i]) == id;
      TargetIsStored(nodes, books, shelves, pages, i);
    }
  }

  /** After the sync the owned nodes are exactly the targets, with their kinds and titles, and
      the pages are untouched. */
  lemma {:induction false} NodesAfterSync(nodes: map<Id, Node>, books: seq<Book>, shelves: seq<Shelf>, pages: seq<Id>)
    requires SoundPlan(books, shelves, pages) && NodeInv(nodes)
    ensures var after := Synced(NodePolicy(), nodes, NodeTargets(books, shelves));
            && NodeInv(after)
            && (forall t | t in NodeTargets(books, shelves) :: TargetStored(after, t))
            && (forall id | id in after && OwnedNode(after[id]) :: IsTarget(books, shelves, id))
            && (forall id | id in nodes && nodes[id].kind == "page" :: id in after && after[id] == nodes[id])
            && (forall id | id in after && after[id].kind == "page" :: id in nodes && after[id] == nodes[id])
  {
    hide SoundPlan, Synced, Generated;
    var ts := NodeTargets(books, shelves);
    var after := Synced(NodePolicy(), nodes, ts);
    forall t | t in ts ensures TargetStored(after, t) {
      var i :| 0 <= i < |ts| && ts[i] == t;
      TargetIsStored(nodes, books, shelves, pages, i);
    }
    forall id
      ensures id in after ==> after[id].id == id && PageRow(id, after[id]) && GeneratedRow(id, after[id])
      ensures id in after && OwnedNode(after[id]) ==> IsTarget(books, shelves, id)
      ensures id in after && after[id].kind == "page" ==> id in nodes && after[id] == nodes[id]
      ensures id in nodes && nodes[id].kind == "page" ==> id in after && after[id] == nodes[id]
    {
      NodeRowAfterSync(nodes, books, shelves, pages, id);
      if i: nat :| i < |ts| && ts[i].id == id && TargetStored(after, ts[i]) {
        TargetKinds(books, shelves, pages, i);
        GeneratedOnce(id);
        assert ts[i] in ts;
      }
    }
  }

  // The stored books and shelves of the generator are those of the plan.
  lemma {:induction false} StoredAreTargets(after: map<Id, Node>, books: seq<Book>, shelves: seq<Shelf>, pages: seq<Id>)
    requires SoundPlan(books, shelves, pages)
    requires forall t | t in NodeTargets(books, shelves) :: TargetStored(after, t)
    requires forall id | id in after && OwnedNode(after[id]) :: IsTarget(books, shelves, id)
    ensures forall i | 0 <= i < |books| :: Stored(after, books[i].id, "book")
    ensures forall i | 0 <= i < |shelves| :: Stored(after, shelves[i].id, "shelf")
    ensures forall id | Stored(after, id, "book") :: id in BookIds(books)
  {
    hide SoundPlan;
    var ts := NodeTargets(books, shelves);
    forall i: nat | i < |books| ensures Stored(after, books[i].id, "book") {
      assert ts[i] == BookNode(books[i]) && ts[i] in ts;
    }
    forall i: nat | i < |shelves| ensures Stored(after, shelves[i].id, "shelf") {
      assert ts[|books| + i] == ShelfNode(shelves[i]) && ts[|books| + i] in ts;
    }
    forall id | Stored(after, id, "book") ensures id in BookIds(books) {
      var t :| t in ts && t.id == id;
      var i: nat :| i < |ts| && ts[i] == t;
      TargetKinds(books, shelves, pages, i);
      assert i < |books| ==> BookIds(books)[i] == id;
    }
  }

  ghost predicate TargetStored(nodes: map<Id, Node>, t: Node) {
    Stored(nodes, t.id, t.kind) && nodes[t.id].id == t.id && nodes[t.id].title == t.title
  }

  ghost predicate IsTarget(books: seq<Book>, shelves: seq<Shelf>, id: Id) {
    exists t :: t in NodeTargets(books, shelves) && t.id == id
  }

  lemma {:induction false} TargetKinds(books: seq<Book>, shelves: seq<Shelf>, pages: seq<Id>, i: nat)
    requires SoundPlan(books, shelves, pages) && i < |books| + |shelves|
    ensures var t := NodeTargets(books, shelves)[i];
            && OwnedNode(t)
            && (if i < |books| then t.kind == "book" && Generated("book-", t.id)
                else t.kind == "shelf" && Generated("shelf-", t.id))
  {
    if i >= |books| {
      assert NodeTargets(books, shelves)[i] == ShelfNode(shelves[i - |books|]);
    }
  }

  lemma {:induction false} GeneratedOnce(id: Id)
    ensures !(Generated("book-", id) && Generated("shelf-", id))
  {
    assert "book-" <= id ==> id[0] == 'b';
    assert "shelf-" <= id ==> id[0] == 's';
  }

  lemma {:induction false} PageFindsHome(after: map<Id, Edge>, books: seq<Book>, shelves: seq<Shelf>, pages: seq<Id>,
                                         page: Id)
    requires SoundPlan(books, shelves, pages) && page in pages
    requires EdgesMatch(after, EdgeTargets(books, shelves))
    ensures exists c :: 0 <= c < |books| && OneHome(after, page, "belongs_to", books[c].id)
  {
    hide Contains;
    PartitionCovers(PageLists(books), pages, page);
    var c: nat :| c < |books| && page in PageLists(books)[c];
    var e := BelongsTo(page, books[c].id);
    assert PageEdge(books, c, e);
    EdgeTargetsAre(books, shelves, pages, e);
    forall other | other in after && OwnedEdgeId(other)
                   && after[other].source == page && after[other].relation == "belongs_to"
      ensures other == e.id
    {
      var f :| f in EdgeTargets(books, shelves) && f.id == other;
      EdgeTargetsAre(books, shelves, pages, f);
      assert Mirrors(after, f);
      var d: nat :| PageEdge(books, d, f);
      assert page in PageLists(books)[d];
      PartitionSeparates(PageLists(books), pages, c, d, page);
    }
    assert Mirrors(after, e);
  }

  lemma {:induction false} BookFindsHome(after: map<Id, Edge>, books: seq<Book>, shelves: seq<Shelf>, pages: seq<Id>,
                                         book: Id)
    requires SoundPlan(books, shelves, pages) && book in BookIds(books)
    requires EdgesMatch(after, EdgeTargets(books, shelves))
    ensures exists c :: 0 <= c < |shelves| && OneHome(after, book, "sits_on", shelves[c].id)
  {
    hide Contains;
    PartitionCovers(BookLists(shelves), BookIds(books), book);
    var c: nat :| c < |shelves| && book in BookLists(shelves)[c];
    var e := SitsOn(book, shelves[c].id);
    assert ShelfEdge(shelves, c, e);
    EdgeTargetsAre(books, shelves, pages, e);
    forall other | other in after && OwnedEdgeId(other)
                   && after[other].source == book && after[other].relation == "sits_on"
      ensures other == e.id
    {
      var f :| f in EdgeTargets(books, shelves) && f.id == other;
      EdgeTargetsAre(books, shelves, pages, f);
      assert Mirrors(after, f);
      var d: nat :| ShelfEdge(shelves, d, f);
      assert book in BookLists(shelves)[d];
      PartitionSeparates(BookLists(shelves), BookIds(books), c, d, book);
    }
    assert Mirrors(after, e);
  }

  /** Main theorem of a rebuild: it keeps the store invariant and leaves a forest. Each page
      has exactly one generated edge to a stored book, each stored book exactly one to a stored
      shelf, no generated edge dangles, the page rows are untouched, and the books' page lists
      together hold as many entries as there are pages. */
  lemma {:induction false} RebuildLeavesForest(nm: Naming, nodes: map<Id, Node>, edges: map<Id, Edge>, plan: Plan)
    requires Ideal(nm.hash) && StoreInv(nodes, edges) && PlanFor(nm, nodes, edges, plan)
    ensures var nodes' := Synced(NodePolicy(), nodes, NodeTargets(plan.books, plan.shelves));
            var edges' := Synced(EdgePolicy(), edges, EdgeTargets(plan.books, plan.shelves));
            && StoreInv(nodes', edges') && IsForest(nodes', edges')
            && (forall id | id in nodes && nodes[id].kind == "page" :: id in nodes' && nodes'[id] == nodes[id])
    ensures SumLengths(PageLists(plan.books)) == |plan.pages|
  {
    hide OneHome, OwnedEdgeId, Synced, BooksOf, ShelvesOf, Merged, PageClusters.FirstFit, ShelvesFor, Partitions,
         Generated;
    var books, shelves, pages := plan.books, plan.shelves, PageClusters.IdsOf(plan.pages);
    PlansAreSound(nm, nodes, edges, plan);
    PlanSizes(books, shelves, pages);
    NodesAfterSync(nodes, books, shelves, pages);
    StoredAreTargets(Synced(NodePolicy(), nodes, NodeTargets(books, shelves)), books, shelves, pages);
    EdgesAfterSync(nodes, edges, books, shelves, pages);
    var nodes' := Synced(NodePolicy(), nodes, NodeTargets(books, shelves));
    var edges' := Synced(EdgePolicy(), edges, EdgeTargets(books, shelves));
    SamePagesSameInv(nodes, nodes', edges');
    forall id | id in nodes' && nodes'[id].kind == "page" ensures PageHasBook(nodes', edges', id) {
      PageFindsHome(edges', books, shelves, pages, id);
    }
    forall id | Stored(nodes', id, "book") ensures BookHasShelf(nodes', edges', id) {
      BookFindsHome(edges', books, shelves, pages, id);
    }
    forall id | id in edges' && OwnedEdgeId(id) ensures edges'[id].source in nodes' && edges'[id].target in nodes' {
      var e :| e in EdgeTargets(books, shelves) && e.id == id;
      assert Mirrors(edges', e);
      EndsAreStored(nodes, nodes', books, shelves, pages, e);
    }
  }

  lemma {:induction false} PlanSizes(books: seq<Book>, shelves: seq<Shelf>, pages: seq<Id>)
    requires SoundPlan(books, shelves, pages)
    ensures SumLengths(PageLists(books)) == |pages|
  {
    PartitionSizes(PageLists(books), pages);
  }

  lemma {:induction false} EndsAreStored(nodes: map<Id, Node>, after: map<Id, Node>, books: seq<Book>,
                                         shelves: seq<Shelf>, pages: seq<Id>, e: Edge)
    requires SoundPlan(books, shelves, pages) && e in EdgeTargets(books, shelves)
    requires forall id | id in pages :: id in nodes && nodes[id].kind == "page"
    requires forall id | id in nodes && nodes[id].kind == "page" :: id in after
    requires forall i | 0 <= i < |books| :: Stored(after, books[i].id, "book")
    requires forall i | 0 <= i < |shelves| :: Stored(after, shelves[i].id, "shelf")
    ensures e.source in after && e.target in after
  {
    EdgeTargetsAre(books, shelves, pages, e);
    if c: nat :| PageEdge(books, c, e) {
      assert e.source in PageLists(books)[c];
      PartitionCovers(PageLists(books), pages, e.source);
    } else {
      var c: nat :| ShelfEdge(shelves, c, e);
      assert e.source in BookLists(shelves)[c];
      PartitionCovers(BookLists(shelves), BookIds(books), e.source);
      var i :| 0 <= i < |books| && BookIds(books)[i] == e.source;
    }
  }

  /** A second sync of the same plan writes and deletes nothing. */
  lemma {:induction false} SecondSyncIsFree(nodes: map<Id, Node>, edges: map<Id, Edge>, books: seq<Book>,
                                            shelves: seq<Shelf>, pages: seq<Id>)
    requires SoundPlan(books, shelves, pages)
    ensures var ns, es := NodeTargets(books, shelves), EdgeTargets(books, shelves);
            var nodes', edges' := Synced(NodePolicy(), nodes, ns), Synced(EdgePolicy(), edges, es);
            && Writes(NodePolicy(), nodes', ns) == [] && Stale(NodePolicy(), nodes', ns) == {}
            && Writes(EdgePolicy(), edges', es) == [] && Stale(EdgePolicy(), edges', es) == {}
  {
    NodeTargetsDistinct(books, shelves, pages);
    EdgeTargetsDistinct(books, shelves, pages);
    hide SoundPlan, Synced, DistinctIds, AllOwned, Writes, Stale;
    SyncIsIdempotent(NodePolicy(), nodes, NodeTargets(books, shelves));
    SyncIsIdempotent(EdgePolicy(), edges, EdgeTargets(books, shelves));
  }

  // ---------------------------------------------------------------- the counts of kept rows

  /** The row was made for this key and these members: its id spells them and its count counts
      them. A shelf's members are books of the builder. */
  ghost predicate MadeFor(h: Hashing, n: Node, key: string, members: seq<Id>) {
    && NoDash(key) && n.props.count == |members|
    && (n.kind == "book" ==> n.id == BookId(h, key, members))
    && (n.kind == "shelf" ==>
          n.id == ShelfId(h, key, members) && forall m | m in members :: Generated("book-", m))
  }

  // A row under an id that the builder could make.
  predicate BuilderRow(n: Node) {
    && OwnedNode(n)
    && ((n.kind == "book" && Generated("book-", n.id)) || (n.kind == "shelf" && Generated("shelf-", n.id)))
  }

  ghost predicate Made(h: Hashing, n: Node) {
    exists key, members :: MadeFor(h, n, key, members)
  }

  ghost predicate AllMade(h: Hashing, nodes: map<Id, Node>) {
    forall id | id in nodes && BuilderRow(nodes[id]) :: Made(h, nodes[id])
  }

  // The key and the members of a target.
  function KeyAt(books: seq<Book>, shelves: seq<Shelf>, i: nat): string
    requires i < |books| + |shelves|
  {
    if i < |books| then books[i].key else shelves[i - |books|].key
  }

  function MembersAt(books: seq<Book>, shelves: seq<Shelf>, i: nat): seq<Id>
    requires i < |books| + |shelves|
  {
    if i < |books| then books[i].pages else shelves[i - |books|].books
  }

  // The books and shelves bear the ids that their keys and members give them.
  ghost predicate Named(h: Hashing, books: seq<Book>, shelves: seq<Shelf>) {
    && (forall b | b in books :: NoDash(b.key) && b.id == BookId(h, b.key, b.pages))
    && (forall sh | sh in shelves :: NoDash(sh.key) && sh.id == ShelfId(h, sh.key, sh.books))
  }

  lemma {:induction false} PlansAreNamed(nm: Naming, nodes: map<Id, Node>, edges: map<Id, Edge>, plan: Plan)
    requires PlanFor(nm, nodes, edges, plan)
    ensures Named(nm.hash, plan.books, plan.shelves)
  {
    MergedKeysDistinct(PageClusters.Members(PageClusters.FirstFit(plan.pages)), Tagless(plan.pages));
  }

  lemma {:induction false} TargetMade(h: Hashing, books: seq<Book>, shelves: seq<Shelf>, pages: seq<Id>, i: nat)
    requires SoundPlan(books, shelves, pages) && Named(h, books, shelves) && i < |books| + |shelves|
    ensures MadeFor(h, NodeTargets(books, shelves)[i], KeyAt(books, shelves, i), MembersAt(books, shelves, i))
    ensures BuilderRow(NodeTargets(books, shelves)[i])
  {
    hide Partitions, Distinct, StableId;
    TargetKinds(books, shelves, pages, i);
    if i >= |books| {
      var sh := shelves[i - |books|];
      assert NodeTargets(books, shelves)[i] == ShelfNode(sh);
      forall x | x in sh.books ensures Generated("book-", x) {
        assert x in BookLists(shelves)[i - |books|];
        PartitionCovers(BookLists(shelves), BookIds(books), x);
        var k :| 0 <= k < |books| && BookIds(books)[k] == x;
      }
    }
  }

  lemma {:induction false} GeneratedHasOneDash(id: Id)
    requires Generated("book-", id)
    ensures Dashes(id) == 1
  {
    var rest := id[5..];
    assert id == "book" + "-" + rest;
    PiecesAround("book", rest);
    OnePiece("book");
    OnePiece(rest);
  }

  lemma {:induction false} BooksHaveOneDashEach(ids: seq<Id>)
    requires forall x | x in ids :: Generated("book-", x)
    ensures TotalDashes(ids) == |ids|
  {
    if ids != [] {
      GeneratedHasOneDash(ids[0]);
      BooksHaveOneDashEach(ids[1..]);
    }
  }

  /** Two rows of one kind and id count alike exactly when their members hold equally many dashes;
      two shelves always do. */
  lemma {:induction false} SameIdSameCountIff(h: Hashing, a: Node, k: string, ms: seq<Id>, b: Node, l: string,
                                              ns: seq<Id>)
    requires Ideal(h) && Sorts(h) && MadeFor(h, a, k, ms) && MadeFor(h, b, l, ns)
    requires a.id == b.id && a.kind == b.kind && (a.kind == "book" || a.kind == "shelf")
    ensures a.props.count == b.props.count <==> TotalDashes(ms) == TotalDashes(ns)
    ensures a.kind == "shelf" ==> a.props.count == b.props.count
    ensures StableId(h, k, ms) == StableId(h, l, ns)
  {
    hide Ideal, Sorts, Dashes, StableId, TotalDashes;
    var n := if a.kind == "book" then 5 else 6;
    assert a.id[n..] == StableId(h, k, ms) && b.id[n..] == StableId(h, l, ns);
    SameSizeIff(h, k, ms, l, ns);
    if a.kind == "shelf" {
      BooksHaveOneDashEach(ms);
      BooksHaveOneDashEach(ns);
      SameSizeOfBooks(h, k, ms, l, ns);
    }
  }

  lemma {:induction false} SameSizeOfBooks(h: Hashing, k: string, ms: seq<Id>, l: string, ns: seq<Id>)
    requires Ideal(h) && Sorts(h) && NoDash(k) && NoDash(l) && StableId(h, k, ms) == StableId(h, l, ns)
    requires forall x | x in ms + ns :: Generated("book-", x)
    ensures |ms| == |ns|
  {
    hide Ideal, Sorts, Dashes, StableId;
    forall x | x in ms + ns ensures Dashes(x) == 1 {
      GeneratedHasOneDash(x);
    }
    var one: string -> nat := (head: string) => 1;
    assert Headed(one, ms + ns);
    UniformIdsIdentify(h, k, ms, l, ns);
  }

  /** For every target of a plan, book or shelf: a row the sync writes has its count, and one that
      it keeps has it exactly when the members it was made for hold as many dashes as the
      target's. Shelves always have it. */
  lemma {:induction false} KeptCountIff(nm: Naming, nodes: map<Id, Node>, edges: map<Id, Edge>, plan: Plan, i: nat)
    requires Ideal(nm.hash) && Sorts(nm.hash) && StoreInv(nodes, edges) && PlanFor(nm, nodes, edges, plan)
    requires AllMade(nm.hash, nodes) && i < |plan.books| + |plan.shelves|
    ensures var ts := NodeTargets(plan.books, plan.shelves);
            var t, after := ts[i], Synced(NodePolicy(), nodes, ts);
            && t.id in after
            && (!IsCurrent(NodePolicy(), nodes, t) ==> after[t.id] == t)
            && (IsCurrent(NodePolicy(), nodes, t) ==>
                  && after[t.id] == nodes[t.id] && Made(nm.hash, nodes[t.id])
                  && forall key, members | MadeFor(nm.hash, nodes[t.id], key, members) ::
                       (after[t.id].props.count == t.props.count
                        <==> TotalDashes(members) == TotalDashes(MembersAt(plan.books, plan.shelves, i))))
            && (t.kind == "shelf" ==> after[t.id].props.count == t.props.count)
  {
    hide SoundPlan, Synced, Ideal, Sorts, PlanFor, StoreInv, MadeFor, Named, BuilderRow, DistinctIds, MembersAt, KeyAt;
    var books, shelves, pages := plan.books, plan.shelves, PageClusters.IdsOf(plan.pages);
    var p, ts := NodePolicy(), NodeTargets(plan.books, plan.shelves);
    var t := ts[i];
    PlansAreSound(nm, nodes, edges, plan);
    PlansAreNamed(nm, nodes, edges, plan);
    NodeTargetsDistinct(books, shelves, pages);
    SyncedTable(p, nodes, ts);
    TargetMade(nm.hash, books, shelves, pages, i);
    assert Synced(p, nodes, ts)[p.id(ts[i])] == Kept(p, nodes, t);
    if IsCurrent(p, nodes, t) {
      var row := nodes[t.id];
      KeptRow(nodes, edges, books, shelves, pages, i);
      assert Made(nm.hash, row);
      forall key, members | MadeFor(nm.hash, row, key, members)
        ensures row.props.count == t.props.count <==> TotalDashes(members) == TotalDashes(MembersAt(books, shelves, i))
        ensures t.kind == "shelf" ==> row.props.count == t.props.count
      {
        SameIdSameCountIff(nm.hash, row, key, members, t, KeyAt(books, shelves, i), MembersAt(books, shelves, i));
      }
    }
  }

  lemma {:induction false} KeptRow(nodes: map<Id, Node>, edges: map<Id, Edge>, books: seq<Book>, shelves: seq<Shelf>,
                                   pages: seq<Id>, i: nat)
    requires StoreInv(nodes, edges) && SoundPlan(books, shelves, pages) && i < |books| + |shelves|
    requires IsCurrent(NodePolicy(), nodes, NodeTargets(books, shelves)[i])
    ensures var t := NodeTargets(books, shelves)[i];
            && t.id in nodes && nodes[t.id].id == t.id && nodes[t.id].kind == t.kind && BuilderRow(nodes[t.id])
            && (t.kind == "book" || t.kind == "shelf")
  {
    TargetKinds(books, shelves, pages, i);
  }

  /** Whatever a sync keeps or writes was made for some members, so this can be asked of every
      later state. */
  lemma {:induction false} RowsStayMade(nm: Naming, nodes: map<Id, Node>, edges: map<Id, Edge>, plan: Plan)
    requires Ideal(nm.hash) && Sorts(nm.hash) && StoreInv(nodes, edges) && PlanFor(nm, nodes, edges, plan)
    requires AllMade(nm.hash, nodes)
    ensures AllMade(nm.hash, Synced(NodePolicy(), nodes, NodeTargets(plan.books, plan.shelves)))
  {
    hide SoundPlan, Synced, Ideal, Sorts, PlanFor, StoreInv, MadeFor, Named, BuilderRow, DistinctIds, MembersAt, KeyAt;
    var books, shelves, pages := plan.books, plan.shelves, PageClusters.IdsOf(plan.pages);
    var p, ts := NodePolicy(), NodeTargets(plan.books, plan.shelves);
    var after := Synced(p, nodes, ts);
    PlansAreSound(nm, nodes, edges, plan);
    PlansAreNamed(nm, nodes, edges, plan);
    NodeTargetsDistinct(books, shelves, pages);
    SyncedTable(p, nodes, ts);
    forall id | id in after && BuilderRow(after[id]) ensures Made(nm.hash, after[id]) {
      if id in Ids(p, ts) {
        var i: nat :| i < |ts| && p.id(ts[i]) == id;
        TargetMade(nm.hash, books, shelves, pages, i);
        KeptCountIff(nm, nodes, edges, plan, i);
      }
    }
  }

  // The stored books were made for pages whose first pieces tell how many follow.
  ghost predicate HeadedRows(h: Hashing, f: string -> nat, nodes: map<Id, Node>) {
    forall id | id in nodes && BuilderRow(nodes[id]) && nodes[id].kind == "book" ::
      exists key, members :: MadeFor(h, nodes[id], key, members) && Headed(f, members)
  }

  /** When the first piece of each page id tells how many follow, as in all ids that the program
      makes itself, a sync leaves every count right and the rows made for such pages. */
  lemma {:induction false} CountsStayRight(nm: Naming, nodes: map<Id, Node>, edges: map<Id, Edge>, plan: Plan,
                                           f: string -> nat)
    requires Ideal(nm.hash) && Sorts(nm.hash) && StoreInv(nodes, edges) && PlanFor(nm, nodes, edges, plan)
    requires AllMade(nm.hash, nodes)
    requires HeadedRows(nm.hash, f, nodes) && Headed(f, PageClusters.IdsOf(plan.pages))
    ensures var after := Synced(NodePolicy(), nodes, NodeTargets(plan.books, plan.shelves));
            && HeadedRows(nm.hash, f, after)
            && forall t | t in NodeTargets(plan.books, plan.shelves) ::
                 t.id in after && after[t.id].props.count == t.props.count
  {
    hide SoundPlan, Synced, Ideal, Sorts, PlanFor, StoreInv, MadeFor, Named, BuilderRow, DistinctIds, IsCurrent, Headed;
    var books, shelves, pages := plan.books, plan.shelves, PageClusters.IdsOf(plan.pages);
    var p, ts := NodePolicy(), NodeTargets(plan.books, plan.shelves);
    var after := Synced(p, nodes, ts);
    PlansAreSound(nm, nodes, edges, plan);
    PlansAreNamed(nm, nodes, edges, plan);
    NodeTargetsDistinct(books, shelves, pages);
    SyncedTable(p, nodes, ts);
    forall i: nat | i < |ts|
      ensures ts[i].id in after && after[ts[i].id].props.count == ts[i].props.count
      ensures i < |books| ==>
                exists key, members :: MadeFor(nm.hash, after[ts[i].id], key, members) && Headed(f, members)
    {
      KeptCountIff(nm, nodes, edges, plan, i);
      TargetMade(nm.hash, books, shelves, pages, i);
      if i < |books| {
        HeadedMembers(books, shelves, pages, f, i);
        if IsCurrent(p, nodes, ts[i]) {
          KeptRow(nodes, edges, books, shelves, pages, i);
          var key, ms :| MadeFor(nm.hash, nodes[ts[i].id], key, ms) && Headed(f, ms);
          SameHeadedCount(nm.hash, f, nodes[ts[i].id], key, ms, ts[i], books[i].key, books[i].pages);
        }
      } else {
        assert ts[i] == ShelfNode(shelves[i - |books|]);
      }
    }
    forall id | id in after && BuilderRow(after[id]) && after[id].kind == "book"
      ensures exists key, members :: MadeFor(nm.hash, after[id], key, members) && Headed(f, members)
    {
      OwnedAreTargets(nodes, edges, books, shelves, pages, id);
    }
  }

  lemma {:induction false} OwnedAreTargets(nodes: map<Id, Node>, edges: map<Id, Edge>, books: seq<Book>,
                                           shelves: seq<Shelf>, pages: seq<Id>, id: Id)
    requires StoreInv(nodes, edges) && SoundPlan(books, shelves, pages)
    requires var after := Synced(NodePolicy(), nodes, NodeTargets(books, shelves));
             id in after && BuilderRow(after[id]) && after[id].kind == "book"
    ensures exists i :: 0 <= i < |books| && NodeTargets(books, shelves)[i].id == id
  {
    hide SoundPlan, Synced, TargetStored, Generated;
    var ts := NodeTargets(books, shelves);
    NodesAfterSync(nodes, books, shelves, pages);
    var t :| t in ts && t.id == id;
    var i: nat :| i < |ts| && ts[i] == t;
    assert TargetStored(Synced(NodePolicy(), nodes, ts), t);
    StoredKind(Synced(NodePolicy(), nodes, ts), t);
    TargetKinds(books, shelves, pages, i);
  }

  lemma {:induction false} StoredKind(nodes: map<Id, Node>, t: Node)
    requires TargetStored(nodes, t)
    ensures t.id in nodes && nodes[t.id].kind == t.kind
  {
  }

  lemma {:induction false} HeadedMembers(books: seq<Book>, shelves: seq<Shelf>, pages: seq<Id>, f: string -> nat,
                                         i: nat)
    requires SoundPlan(books, shelves, pages) && Headed(f, pages) && i < |books|
    ensures Headed(f, books[i].pages) && MembersAt(books, shelves, i) == books[i].pages
    ensures KeyAt(books, shelves, i) == books[i].key
  {
    hide Partitions, Distinct, Dashes, Pieces;
    forall x | x in books[i].pages ensures x in pages {
      assert x in PageLists(books)[i];
      PartitionCovers(PageLists(books), pages, x);
    }
  }

  lemma {:induction false} SameHeadedCount(h: Hashing, f: string -> nat, a: Node, k: string, ms: seq<Id>, b: Node,
                                           l: string, ns: seq<Id>)
    requires Ideal(h) && Sorts(h) && MadeFor(h, a, k, ms) && MadeFor(h, b, l, ns)
    requires a.id == b.id && a.kind == b.kind == "book" && Headed(f, ms) && Headed(f, ns)
    ensures a.props.count == b.props.count
  {
    hide Ideal, Sorts, Dashes, Pieces, StableId, TotalDashes;
    SameIdSameCountIff(h, a, k, ms, b, l, ns);
    assert Headed(f, ms + ns);
    UniformIdsIdentify(h, k, ms, l, ns);
  }

  /** A kept count can be wrong: the book of the page "x-y" is kept for the book of
      the pages "x" and "y" when their labels agree. */
  lemma {:induction false} KeptCountCanBeWrong(h: Hashing, key: string, title: string, x: Id, y: Id)
    requires Ideal(h) && Sorts(h) && Le(x, y)
    ensures var one, two := [x + "-" + y], [x, y];
            var row := BookNode(Book(BookId(h, key, one), title, key, one));
            var t := BookNode(Book(BookId(h, key, two), title, key, two));
            && row.id == t.id && t.props.count == 2
            && var after := Synced(NodePolicy(), map[row.id := row], [t]);
               t.id in after && after[t.id].props.count == 1
  {
    hide Ideal, Sorts, BookId, Synced;
    StableIdsForgetMembers(h, key, x, y, x + "-" + y);
    var one, two := [x + "-" + y], [x, y];
    var row := BookNode(Book(BookId(h, key, one), title, key, one));
    var t := BookNode(Book(BookId(h, key, two), title, key, two));
    SyncedTable(NodePolicy(), map[row.id := row], [t]);
    assert IsCurrent(NodePolicy(), map[row.id := row], t);
    assert NodePolicy().id([t][0]) == t.id;
  }

  // ---------------------------------------------------------------- a second rebuild

  // No tag of a page lies in the namespace the sync claims.
  ghost predicate TagsAreSafe(nodes: map<Id, Node>, edges: map<Id, Edge>) {
    forall id | id in edges && edges[id].relation == "tag" && IsPage(nodes, edges[id].source) :: !OwnedEdgeId(id)
  }

  /** A rebuild then changes no page and no tag of one. */
  lemma {:induction false} PagesLoadAlike(nm: Naming, nodes: map<Id, Node>, edges: map<Id, Edge>, plan: Plan, page: Id)
    requires Ideal(nm.hash) && StoreInv(nodes, edges) && PlanFor(nm, nodes, edges, plan)
    requires TagsAreSafe(nodes, edges) && IsPage(nodes, page)
    ensures var nodes' := Synced(NodePolicy(), nodes, NodeTargets(plan.books, plan.shelves));
            var edges' := Synced(EdgePolicy(), edges, EdgeTargets(plan.books, plan.shelves));
            IsPage(nodes', page) && PageOf(nm, edges', nodes'[page]) == PageOf(nm, edges, nodes[page])
  {
    hide SoundPlan, Synced, OwnedEdgeId, Ideal, PlanFor, Expected, Shaped;
    var books, shelves, pages := plan.books, plan.shelves, PageClusters.IdsOf(plan.pages);
    var edges' := Synced(EdgePolicy(), edges, EdgeTargets(books, shelves));
    PlansAreSound(nm, nodes, edges, plan);
    NodesAfterSync(nodes, books, shelves, pages);
    PlanPagesAreStored(nm, nodes, edges, plan);
    EdgesAfterSync(nodes, edges, books, shelves, pages);
    forall id ensures (id in edges' && edges'[id].relation == "tag" && edges'[id].source == page)
                 <==> (id in edges && edges[id].relation == "tag" && edges[id].source == page)
      ensures id in edges && edges[id].relation == "tag" && edges[id].source == page ==> edges'[id] == edges[id]
    {
      if OwnedEdgeId(id) {
        if id in edges' { OwnedIsNoTag(edges', books, shelves, pages, id); }
      } else {
        OtherEdgesStay(edges, books, shelves, pages, id);
      }
    }
  }

  lemma {:induction false} PlanPagesAreStored(nm: Naming, nodes: map<Id, Node>, edges: map<Id, Edge>, plan: Plan)
    requires PlanFor(nm, nodes, edges, plan)
    ensures forall p :: p in PageClusters.IdsOf(plan.pages) <==> IsPage(nodes, p)
  {
  }

  lemma {:induction false} OwnedIsNoTag(after: map<Id, Edge>, books: seq<Book>, shelves: seq<Shelf>, pages: seq<Id>,
                                        id: Id)
    requires SoundPlan(books, shelves, pages) && EdgesMatch(after, EdgeTargets(books, shelves))
    requires id in after && OwnedEdgeId(id)
    ensures after[id].relation != "tag"
  {
    hide SoundPlan, OwnedEdgeId;
    var e :| e in EdgeTargets(books, shelves) && e.id == id;
    EdgeTargetsAre(books, shelves, pages, e);
    assert Mirrors(after, e);
  }

  /** A second whole rebuild that loads the pages in the same order plans the same and writes and
      deletes nothing, unless a tag of a page was in the sync's namespace before the first. */
  lemma {:induction false} SecondPlanIsFirst(nm: Naming, nodes: map<Id, Node>, edges: map<Id, Edge>, first: Plan,
                                             second: Plan)
    requires Ideal(nm.hash) && StoreInv(nodes, edges) && PlanFor(nm, nodes, edges, first)
    requires TagsAreSafe(nodes, edges)
    requires var nodes' := Synced(NodePolicy(), nodes, NodeTargets(first.books, first.shelves));
             var edges' := Synced(EdgePolicy(), edges, EdgeTargets(first.books, first.shelves));
             PlanFor(nm, nodes', edges', second)
    requires PageClusters.IdsOf(first.pages) == PageClusters.IdsOf(second.pages)
    ensures first == second
    ensures var nodes' := Synced(NodePolicy(), nodes, NodeTargets(first.books, first.shelves));
            var edges' := Synced(EdgePolicy(), edges, EdgeTargets(first.books, first.shelves));
            && Changes(NodePolicy(), nodes', NodeTargets(second.books, second.shelves)) == 0
            && Changes(EdgePolicy(), edges', EdgeTargets(second.books, second.shelves)) == 0
  {
    hide SoundPlan, Synced, TagsAreSafe, StoreInv, Ideal, ShelvesFor, Merged, PageClusters.FirstFit, BooksOf,
         Writes, Stale, Distinct, PageTags;
    var nodes' := Synced(NodePolicy(), nodes, NodeTargets(first.books, first.shelves));
    var edges' := Synced(EdgePolicy(), edges, EdgeTargets(first.books, first.shelves));
    assert |first.pages| == |PageClusters.IdsOf(first.pages)| == |second.pages|;
    forall i | 0 <= i < |first.pages| ensures first.pages[i] == second.pages[i] {
      var id := PageClusters.IdsOf(first.pages)[i];
      assert id == PageClusters.IdsOf(second.pages)[i];
      assert id in PageClusters.IdsOf(first.pages);
      PagesLoadAlike(nm, nodes, edges, first, id);
    }
    PagesFixThePlan(nm, nodes, edges, first, nodes', edges', second);
    PlansAreSound(nm, nodes, edges, first);
    SecondSyncIsFree(nodes, edges, first.books, first.shelves, PageClusters.IdsOf(first.pages));
  }

  /** Two rebuilds in a row. */
  method RebuildTwice(builder: LibraryGraphBuilder)
    returns (ghost first: Plan, ghost second: Plan, ghost nodeChanges: nat, ghost edgeChanges: nat)
    requires builder.Ready() && StoreInv(builder.nodes.rows, builder.edges.rows)
    requires TagsAreSafe(builder.nodes.rows, builder.edges.rows)
    modifies builder.nodes, builder.edges
    ensures PageClusters.IdsOf(first.pages) == PageClusters.IdsOf(second.pages) ==>
              builder.nodes.changes == nodeChanges && builder.edges.changes == edgeChanges
  {
    hide PlanFor, Synced, Ideal, StoreInv, TagsAreSafe, Changes, PageClusters.IdsOf;
    ghost var nodes, edges := builder.nodes.rows, builder.edges.rows;
    first := builder.Rebuild();
    nodeChanges, edgeChanges := builder.nodes.changes, builder.edges.changes;
    RowsKeepIds(builder.nm, nodes, edges, first);
    second := builder.Rebuild();
    if PageClusters.IdsOf(first.pages) == PageClusters.IdsOf(second.pages) {
      SamePageCount(first, second);
      if first.pages != [] {
        SecondPlanIsFirst(builder.nm, nodes, edges, first, second);
      }
    }
  }

  lemma {:induction false} SamePageCount(first: Plan, second: Plan)
    requires PageClusters.IdsOf(first.pages) == PageClusters.IdsOf(second.pages)
    ensures first.pages == [] <==> second.pages == []
  {
    assert |PageClusters.IdsOf(first.pages)| == |first.pages|;
    assert |PageClusters.IdsOf(second.pages)| == |second.pages|;
  }

  lemma {:induction false} RowsKeepIds(nm: Naming, nodes: map<Id, Node>, edges: map<Id, Edge>, plan: Plan)
    requires Ideal(nm.hash) && StoreInv(nodes, edges)
    ensures forall id | id in nodes :: nodes[id].id == id
    ensures plan.pages != [] && PlanFor(nm, nodes, edges, plan) ==>
              var after := Synced(NodePolicy(), nodes, NodeTargets(plan.books, plan.shelves));
              forall id | id in after :: after[id].id == id
  {
    hide Synced, Ideal, PlanFor, PageRow, GeneratedRow, EdgeInv, SoundPlan;
    if plan.pages != [] && PlanFor(nm, nodes, edges, plan) {
      PlansAreSound(nm, nodes, edges, plan);
      NodesAfterSync(nodes, plan.books, plan.shelves, PageClusters.IdsOf(plan.pages));
    }
  }

  /** Rebuilding keeps the store invariant, so after every rebuild of any sequence the store
      holds a forest over whatever pages it then has. */
  method BuildLibrary(builder: LibraryGraphBuilder)
    requires builder.Ready() && StoreInv(builder.nodes.rows, builder.edges.rows)
    modifies builder.nodes, builder.edges
    ensures builder.Ready() && StoreInv(builder.nodes.rows, builder.edges.rows)
    ensures (exists id :: id in builder.nodes.rows && builder.nodes.rows[id].kind == "page") ==>
              IsForest(builder.nodes.rows, builder.edges.rows)
  {
    hide IsForest, PlanFor, Synced, Ideal, PageRow, GeneratedRow, EdgeInv, OwnedEdgeId;
    ghost var nodes, edges := builder.nodes.rows, builder.edges.rows;
    ghost var plan := builder.Rebuild();
    if plan.pages != [] {
      RebuildLeavesForest(builder.nm, nodes, edges, plan);
    }
  }
}
