/** The library graph builder: pages into books, books into shelves, and a sync that makes the
    store's generated part equal to the result. */
module GraphBuilder {
  import opened Sequences
  import opened Partition
  import opened GraphIds
  import opened TableSync
  import PageClusters
  import BookClusters

  type Page = PageClusters.Page

  datatype Props = Props(source: string, count: nat, community: string, suggestedBooks: set<string>)

  datatype Node = Node(id: Id, kind: string, title: string, props: Props)

  datatype Edge = Edge(id: Id, source: Id, target: Id, relation: string, weight: real)

  // Everything the builder takes from libraries: hashing, labelling and tokenising.
  datatype Naming = Naming(
    hash: Hashing,
    shortName: (seq<Id>, string) -> string,
    keywords: string -> set<string>,
    tagName: string -> string)

  const OWNER: string := "graphify_cluster"

  predicate OwnedNode(n: Node) {
    n.props.source == OWNER
  }

  function NodePolicy(): Policy<Node> {
    Policy((n: Node) => n.id, (id: Id, n: Node) => OwnedNode(n), (a: Node, b: Node) => a.title == b.title)
  }

  function EdgePolicy(): Policy<Edge> {
    Policy((e: Edge) => e.id, (id: Id, e: Edge) => OwnedEdgeId(id), (a: Edge, b: Edge) => true)
  }

  // ---------------------------------------------------------------- communities

  datatype Community = Community(key: string, members: seq<Id>)

  predicate Lonely(c: seq<Id>, tagless: set<Id>) {
    |c| == 1 && c[0] in tagless
  }

  /** The first `n` communities without the single untagged pages, under their own numbers. */
  function Regular(cs: seq<seq<Id>>, tagless: set<Id>, n: nat): seq<Community>
    requires n <= |cs|
  {
    if n == 0 then []
    else if Lonely(cs[n - 1], tagless) then Regular(cs, tagless, n - 1)
    else Regular(cs, tagless, n - 1) + [Community(Decimal(n), cs[n - 1])]
  }

  /** The single untagged pages of the first `n` communities. */
  function Lone(cs: seq<seq<Id>>, tagless: set<Id>, n: nat): seq<Id>
    requires n <= |cs|
  {
    if n == 0 then []
    else if Lonely(cs[n - 1], tagless) then Lone(cs, tagless, n - 1) + cs[n - 1]
    else Lone(cs, tagless, n - 1)
  }

  function WithGeneral(regular: seq<Community>, lone: seq<Id>): seq<Community> {
    if lone == [] then regular else regular + [Community(GENERAL, lone)]
  }

  function Merged(cs: seq<seq<Id>>, tagless: set<Id>): seq<Community> {
    WithGeneral(Regular(cs, tagless, |cs|), Lone(cs, tagless, |cs|))
  }

  method MergeGeneral(cs: seq<seq<Id>>, tagless: set<Id>) returns (r: seq<Community>)
    ensures r == Merged(cs, tagless)
  {
    var regular, lone := [], [];
    for i := 0 to |cs|
      invariant regular == Regular(cs, tagless, i) && lone == Lone(cs, tagless, i)
    {
      if |cs[i]| == 1 && cs[i][0] in tagless {
        lone := lone + cs[i];
      } else {
        regular := regular + [Community(Decimal(i + 1), cs[i])];
      }
    }
    r := if lone != [] then regular + [Community(GENERAL, lone)] else regular;
  }

  function MembersOf(cs: seq<Community>): (m: seq<seq<Id>>)
    ensures |m| == |cs| && forall i | 0 <= i < |m| :: m[i] == cs[i].members
  {
    seq(|cs|, i requires 0 <= i < |cs| => cs[i].members)
  }

  ghost predicate DistinctKeys(cs: seq<Community>) {
    && (forall i, j | 0 <= i < j < |cs| :: cs[i].key != cs[j].key)
    && forall i | 0 <= i < |cs| :: NoDash(cs[i].key)
  }

  lemma {:induction false} MembersAppend(cs: seq<Community>, c: Community)
    ensures MembersOf(cs + [c]) == MembersOf(cs) + [c.members]
    ensures multiset(Flatten(MembersOf(cs + [c]))) == multiset(Flatten(MembersOf(cs))) + multiset(c.members)
  {
    FlattenAppend(MembersOf(cs), c.members);
    assert MembersOf(cs + [c]) == MembersOf(cs) + [c.members];
  }

  lemma {:induction false} FlattenPrefix(cs: seq<seq<Id>>, n: nat)
    requires 0 < n <= |cs|
    ensures multiset(Flatten(cs[..n])) == multiset(Flatten(cs[..n - 1])) + multiset(cs[n - 1])
  {
    assert cs[..n] == cs[..n - 1] + [cs[n - 1]];
    FlattenAppend(cs[..n - 1], cs[n - 1]);
  }

  lemma {:induction false} MergeSplitsMembers(cs: seq<seq<Id>>, tagless: set<Id>, n: nat)
    requires n <= |cs| && forall c | 0 <= c < |cs| :: cs[c] != []
    ensures multiset(Flatten(MembersOf(Regular(cs, tagless, n)))) + multiset(Lone(cs, tagless, n))
         == multiset(Flatten(cs[..n]))
    ensures forall i | 0 <= i < |Regular(cs, tagless, n)| :: Regular(cs, tagless, n)[i].members != []
  {
    hide Flatten, Lonely, MembersOf, Decimal;
    if n == 0 {
      assert cs[..0] == [];
    } else {
      MergeSplitsMembers(cs, tagless, n - 1);
      FlattenPrefix(cs, n);
      MembersAppend(Regular(cs, tagless, n - 1), Community(Decimal(n), cs[n - 1]));
      assert multiset(Lone(cs, tagless, n - 1) + cs[n - 1]) == multiset(Lone(cs, tagless, n - 1)) + multiset(cs[n - 1]);
    }
  }

  /** Collecting the lone pages in one community loses and repeats none. */
  lemma {:induction false} MergePartitions(cs: seq<seq<Id>>, tagless: set<Id>, ids: seq<Id>)
    requires Partitions(cs, ids)
    ensures Partitions(MembersOf(Merged(cs, tagless)), ids)
  {
    MergeSplitsMembers(cs, tagless, |cs|);
    assert cs[..|cs|] == cs;
    var regular, lone := Regular(cs, tagless, |cs|), Lone(cs, tagless, |cs|);
    if lone != [] {
      FlattenAppend(MembersOf(regular), lone);
      assert MembersOf(Merged(cs, tagless)) == MembersOf(regular) + [lone];
    }
  }

  ghost predicate NumberUpTo(key: string, n: nat) {
    exists k: nat | k <= n :: key == Decimal(k)
  }

  lemma {:induction false} RegularKeysDistinct(cs: seq<seq<Id>>, tagless: set<Id>, n: nat)
    requires n <= |cs|
    ensures DistinctKeys(Regular(cs, tagless, n))
    ensures forall i | 0 <= i < |Regular(cs, tagless, n)| :: NumberUpTo(Regular(cs, tagless, n)[i].key, n)
  {
    if n > 0 {
      RegularKeysDistinct(cs, tagless, n - 1);
      var before := Regular(cs, tagless, n - 1);
      forall i | 0 <= i < |before| ensures NumberUpTo(before[i].key, n) && before[i].key != Decimal(n) {
        NumberIsFresh(before[i].key, n);
      }
    }
  }

  lemma {:induction false} NumberIsFresh(key: string, n: nat)
    requires n > 0 && NumberUpTo(key, n - 1)
    ensures NumberUpTo(key, n) && key != Decimal(n) && key != GENERAL
  {
    var k: nat :| k <= n - 1 && key == Decimal(k);
    if Decimal(k) == Decimal(n) {
      DecimalInjective(k, n);
    }
  }

  lemma {:induction false} MergedKeysDistinct(cs: seq<seq<Id>>, tagless: set<Id>)
    ensures DistinctKeys(Merged(cs, tagless))
  {
    RegularKeysDistinct(cs, tagless, |cs|);
    var regular := Regular(cs, tagless, |cs|);
    forall i | 0 <= i < |regular| ensures regular[i].key != GENERAL {
      NumberIsFresh(regular[i].key, |cs| + 1);
    }
  }

  // ---------------------------------------------------------------- books and shelves

  datatype Book = Book(id: Id, title: string, key: string, pages: seq<Id>)

  datatype Shelf = Shelf(id: Id, title: string, key: string, books: seq<Id>)

  function MakeBook(nm: Naming, c: Community): Book {
    Book(BookId(nm.hash, c.key, c.members),
         if c.key == GENERAL then "General Conversations" else nm.shortName(c.members, "suggested_books"),
         c.key, c.members)
  }

  function BooksOf(nm: Naming, cs: seq<Community>): (r: seq<Book>)
    ensures |r| == |cs| && forall i | 0 <= i < |r| :: r[i] == MakeBook(nm, cs[i])
  {
    seq(|cs|, i requires 0 <= i < |cs| => MakeBook(nm, cs[i]))
  }

  function BookIds(books: seq<Book>): (r: seq<Id>)
    ensures |r| == |books| && forall i | 0 <= i < |r| :: r[i] == books[i].id
  {
    seq(|books|, i requires 0 <= i < |books| => books[i].id)
  }

  function PageLists(books: seq<Book>): (r: seq<seq<Id>>)
    ensures |r| == |books| && forall i | 0 <= i < |r| :: r[i] == books[i].pages
  {
    seq(|books|, i requires 0 <= i < |books| => books[i].pages)
  }

  function KeywordSets(nm: Naming, books: seq<Book>): (r: seq<set<string>>)
    ensures |r| == |books| && forall i | 0 <= i < |r| :: r[i] == nm.keywords(books[i].title)
  {
    seq(|books|, i requires 0 <= i < |books| => nm.keywords(books[i].title))
  }

  /** The pages of a shelf's books, book by book; the first book of an id counts. */
  function AllPages(books: seq<Book>, ids: seq<Id>): seq<Id> {
    if ids == [] then [] else PagesOfBook(books, ids[0]) + AllPages(books, ids[1..])
  }

  function PagesOfBook(books: seq<Book>, id: Id): seq<Id> {
    if books == [] then []
    else if books[0].id == id then books[0].pages
    else PagesOfBook(books[1..], id)
  }

  function MakeShelf(nm: Naming, books: seq<Book>, n: nat, ids: seq<Id>): Shelf {
    Shelf(ShelfId(nm.hash, Decimal(n), ids), nm.shortName(AllPages(books, ids), "suggested_shelves"), Decimal(n), ids)
  }

  function ShelvesOf(nm: Naming, books: seq<Book>, groups: seq<seq<Id>>): (r: seq<Shelf>)
    ensures |r| == |groups| && forall i | 0 <= i < |r| :: r[i] == MakeShelf(nm, books, i + 1, groups[i])
  {
    seq(|groups|, i requires 0 <= i < |groups| => MakeShelf(nm, books, i + 1, groups[i]))
  }

  function BookLists(shelves: seq<Shelf>): (r: seq<seq<Id>>)
    ensures |r| == |shelves| && forall i | 0 <= i < |r| :: r[i] == shelves[i].books
  {
    seq(|shelves|, i requires 0 <= i < |shelves| => shelves[i].books)
  }

  lemma {:induction false} BookIdsDistinct(nm: Naming, cs: seq<Community>)
    requires Ideal(nm.hash) && DistinctKeys(cs)
    ensures Distinct(BookIds(BooksOf(nm, cs)))
  {
    forall i, j | 0 <= i < j < |cs|
      ensures BookId(nm.hash, cs[i].key, cs[i].members) != BookId(nm.hash, cs[j].key, cs[j].members)
    {
      var a, b := BookId(nm.hash, cs[i].key, cs[i].members), BookId(nm.hash, cs[j].key, cs[j].members);
      assert a[5..] == StableId(nm.hash, cs[i].key, cs[i].members);
      assert b[5..] == StableId(nm.hash, cs[j].key, cs[j].members);
      if a == b {
        StableIdsFollowKeys(nm.hash, cs[i].key, cs[i].members, cs[j].key, cs[j].members);
      }
    }
  }

  lemma {:induction false} ShelfIdsDistinct(nm: Naming, books: seq<Book>, groups: seq<seq<Id>>)
    requires Ideal(nm.hash)
    ensures var shelves := ShelvesOf(nm, books, groups);
            forall i, j | 0 <= i < j < |shelves| :: shelves[i].id != shelves[j].id
  {
    var shelves := ShelvesOf(nm, books, groups);
    forall i, j | 0 <= i < j < |shelves| ensures shelves[i].id != shelves[j].id {
      assert shelves[i].id[6..] == StableId(nm.hash, Decimal(i + 1), groups[i]);
      assert shelves[j].id[6..] == StableId(nm.hash, Decimal(j + 1), groups[j]);
      if shelves[i].id == shelves[j].id {
        StableIdsFollowKeys(nm.hash, Decimal(i + 1), groups[i], Decimal(j + 1), groups[j]);
        DecimalInjective(i + 1, j + 1);
      }
    }
  }

  // ---------------------------------------------------------------- the target rows

  function BookNode(b: Book): Node {
    Node(b.id, "book", b.title, Props(OWNER, |b.pages|, b.key, {}))
  }

  function ShelfNode(s: Shelf): Node {
    Node(s.id, "shelf", s.title, Props(OWNER, |s.books|, s.key, {}))
  }

  function NodeTargets(books: seq<Book>, shelves: seq<Shelf>): (r: seq<Node>)
    ensures |r| == |books| + |shelves|
    ensures forall i | 0 <= i < |books| :: r[i] == BookNode(books[i])
    ensures forall i | 0 <= i < |shelves| :: r[|books| + i] == ShelfNode(shelves[i])
  {
    seq(|books|, i requires 0 <= i < |books| => BookNode(books[i]))
    + seq(|shelves|, i requires 0 <= i < |shelves| => ShelfNode(shelves[i]))
  }

  function BelongsTo(page: Id, book: Id): Edge {
    Edge(BelongsToId(page, book), page, book, "belongs_to", 1.0)
  }

  function SitsOn(book: Id, shelf: Id): Edge {
    Edge(SitsOnId(book, shelf), book, shelf, "sits_on", 1.0)
  }

  function PageEdges(b: Book): (r: seq<Edge>)
    ensures |r| == |b.pages| && forall i | 0 <= i < |r| :: r[i] == BelongsTo(b.pages[i], b.id)
  {
    seq(|b.pages|, i requires 0 <= i < |b.pages| => BelongsTo(b.pages[i], b.id))
  }

  function ShelfEdges(s: Shelf): (r: seq<Edge>)
    ensures |r| == |s.books| && forall i | 0 <= i < |r| :: r[i] == SitsOn(s.books[i], s.id)
  {
    seq(|s.books|, i requires 0 <= i < |s.books| => SitsOn(s.books[i], s.id))
  }

  function EdgeTargets(books: seq<Book>, shelves: seq<Shelf>): seq<Edge> {
    FlatMap(PageEdges, books) + FlatMap(ShelfEdges, shelves)
  }

  // ---------------------------------------------------------------- the plan of a rebuild

  datatype Plan = Plan(pages: seq<Page>, books: seq<Book>, shelves: seq<Shelf>)

  function PageTags(nm: Naming, edges: map<Id, Edge>, page: Id): set<string> {
    set id | id in edges && edges[id].relation == "tag" && edges[id].source == page :: nm.tagName(edges[id].target)
  }

  function PageOf(nm: Naming, edges: map<Id, Edge>, n: Node): Page {
    PageClusters.Page(n.id, PageTags(nm, edges, n.id), n.props.suggestedBooks)
  }

  function Tagless(pages: seq<Page>): set<Id> {
    set i | 0 <= i < |pages| && pages[i].tags == {} :: pages[i].id
  }

  /** What a rebuild of the given store plans: the stored pages in some order, their greedy
      clusters with the lone pages gathered as books, and the connected components of keyword
      sharing as shelves. */
  ghost predicate PlanFor(nm: Naming, nodes: map<Id, Node>, edges: map<Id, Edge>, plan: Plan) {
    && Distinct(PageClusters.IdsOf(plan.pages))
    && (forall id :: id in PageClusters.IdsOf(plan.pages) <==> id in nodes && nodes[id].kind == "page")
    && (forall i | 0 <= i < |plan.pages| ::
        plan.pages[i].id in nodes && plan.pages[i] == PageOf(nm, edges, nodes[plan.pages[i].id]))
    && plan.books == BooksOf(nm, Merged(PageClusters.Members(PageClusters.FirstFit(plan.pages)), Tagless(plan.pages)))
    && ShelvesFor(nm, plan)
  }

  ghost predicate ShelvesFor(nm: Naming, plan: Plan) {
    var ids, groups := BookIds(plan.books), BookLists(plan.shelves);
    && plan.shelves == ShelvesOf(nm, plan.books, BookClusters.Components(ids, KeywordSets(nm, plan.books)))
    && plan.shelves == ShelvesOf(nm, plan.books, groups) && Partitions(groups, ids)
    && forall i: nat, j: nat | i < |ids| && j < |ids| ::
         (Together(groups, ids[i], ids[j]) <==> BookClusters.Connected(KeywordSets(nm, plan.books), i, j))
  }

  /** A plan is a function of the loaded pages. */
  lemma {:induction false} PagesFixThePlan(nm: Naming, nodes: map<Id, Node>, edges: map<Id, Edge>, plan: Plan,
                                           nodes': map<Id, Node>, edges': map<Id, Edge>, plan': Plan)
    requires PlanFor(nm, nodes, edges, plan) && PlanFor(nm, nodes', edges', plan') && plan.pages == plan'.pages
    ensures plan == plan'
  {
    hide Merged, PageClusters.FirstFit, BookClusters.Components, BookClusters.Connected, Together, Distinct;
  }

  lemma {:induction false} PlanBooks(nm: Naming, pages: seq<Page>)
    requires Ideal(nm.hash) && Distinct(PageClusters.IdsOf(pages))
    ensures var books := BooksOf(nm, Merged(PageClusters.Members(PageClusters.FirstFit(pages)), Tagless(pages)));
            Distinct(BookIds(books)) && Partitions(PageLists(books), PageClusters.IdsOf(pages))
  {
    var cs := PageClusters.Members(PageClusters.FirstFit(pages));
    PageClusters.FirstFitPartitions(pages);
    MergePartitions(cs, Tagless(pages), PageClusters.IdsOf(pages));
    MergedKeysDistinct(cs, Tagless(pages));
    var merged := Merged(cs, Tagless(pages));
    BookIdsDistinct(nm, merged);
    assert PageLists(BooksOf(nm, merged)) == MembersOf(merged);
  }

  // ---------------------------------------------------------------- the program

  class LibraryGraphBuilder {
    const nm: Naming
    const nodes: Table<Node>
    const edges: Table<Edge>

    constructor (nm: Naming, nodes: Table<Node>, edges: Table<Edge>)
      ensures this.nm == nm && this.nodes == nodes && this.edges == edges
    {
      this.nm := nm;
      this.nodes := nodes;
      this.edges := edges;
    }

    ghost predicate Ready()
      reads nodes, edges
    {
      && Ideal(nm.hash) && nodes.policy == NodePolicy() && edges.policy == EdgePolicy()
      && (nodes as object) != edges
      && forall id | id in nodes.rows :: nodes.rows[id].id == id
    }

    /** The stored pages, in the order the database returns them, with their tags. */
    method LoadPages() returns (pages: seq<Page>)
      requires Ready()
      ensures Distinct(PageClusters.IdsOf(pages))
      ensures forall id :: id in PageClusters.IdsOf(pages) <==> id in nodes.rows && nodes.rows[id].kind == "page"
      ensures forall i | 0 <= i < |pages| ::
                pages[i].id in nodes.rows && pages[i] == PageOf(nm, edges.rows, nodes.rows[pages[i].id])
      ensures forall i | 0 <= i < |pages| :: pages[i].books == nodes.rows[pages[i].id].props.suggestedBooks
      ensures forall i, e | 0 <= i < |pages| && e in edges.rows
                            && edges.rows[e].relation == "tag" && edges.rows[e].source == pages[i].id ::
                nm.tagName(edges.rows[e].target) in pages[i].tags
      ensures forall i, w | 0 <= i < |pages| && w in pages[i].tags ::
                exists e :: e in edges.rows && edges.rows[e].relation == "tag"
                            && edges.rows[e].source == pages[i].id && nm.tagName(edges.rows[e].target) == w
    {
      var keys := nodes.LoadAll();
      pages := [];
      ghost var ids := [];
      for i := 0 to |keys|
        invariant ids == PageClusters.IdsOf(pages)
        invariant Distinct(ids) && forall id :: id in ids <==> id in keys[..i] && nodes.rows[id].kind == "page"
        invariant forall k | 0 <= k < |pages| ::
                    pages[k].id in nodes.rows && pages[k] == PageOf(nm, edges.rows, nodes.rows[pages[k].id])
      {
        var n := nodes.rows[keys[i]];
        if n.kind == "page" {
          assert n.id !in keys[..i];
          pages := pages + [PageOf(nm, edges.rows, n)];
          ids := ids + [n.id];
        }
      }
      assert keys[..|keys|] == keys;
    }

    method Rebuild() returns (ghost plan: Plan)
      requires Ready()
      modifies nodes, edges
      ensures plan.pages == [] ==>
                && nodes.rows == old(nodes.rows) && edges.rows == old(edges.rows)
                && nodes.changes == old(nodes.changes) && edges.changes == old(edges.changes)
                && forall id | id in nodes.rows :: nodes.rows[id].kind != "page"
      ensures plan.pages != [] ==>
                && PlanFor(nm, old(nodes.rows), old(edges.rows), plan)
                && nodes.rows == Synced(NodePolicy(), old(nodes.rows), NodeTargets(plan.books, plan.shelves))
                && edges.rows == Synced(EdgePolicy(), old(edges.rows), EdgeTargets(plan.books, plan.shelves))
                && nodes.changes == old(nodes.changes) + Changes(NodePolicy(), old(nodes.rows),
                    NodeTargets(plan.books, plan.shelves))
                && edges.changes == old(edges.changes) + Changes(EdgePolicy(), old(edges.rows),
                    EdgeTargets(plan.books, plan.shelves))
    {
      var pages := LoadPages();
      if |pages| == 0 {
        plan := Plan([], [], []);
        return;
      }
      hide BookClusters.Components, PlanFor, ShelvesFor, Ideal, Distinct, Partitions, PageClusters.IdsOf,
           PageClusters.FirstFit, Merged,
           FlatMap, Synced, Writes, Stale, BooksOf, ShelvesOf;
      PlanBooks(nm, pages);
      var communities := PageClusters.ClusterPages(pages);
      var merged := MergeGeneral(communities, Tagless(pages));
      var books, bookNodes, pageEdges := PlanBookRows(nm, merged);
      var groups := BookClusters.ClusterBooks(BookIds(books), KeywordSets(nm, books));
      var shelves, shelfNodes, shelfEdges := PlanShelfRows(nm, books, groups);
      plan := Plan(pages, books, shelves);
      PlanIsFor(nm, nodes.rows, edges.rows, plan, groups);
      NodeTargetsInTwo(books, shelves, bookNodes, shelfNodes);
      nodes.Sync(bookNodes + shelfNodes);
      edges.Sync(pageEdges + shelfEdges);
    }
  }

  lemma {:induction false} NodeTargetsInTwo(books: seq<Book>, shelves: seq<Shelf>, a: seq<Node>, b: seq<Node>)
    requires |a| == |books| && |b| == |shelves|
    requires forall i | 0 <= i < |a| :: a[i] == BookNode(books[i])
    requires forall i | 0 <= i < |b| :: b[i] == ShelfNode(shelves[i])
    ensures a + b == NodeTargets(books, shelves)
  {
  }

  lemma {:induction false} PlanIsFor(nm: Naming, nodes: map<Id, Node>, edges: map<Id, Edge>, plan: Plan,
                                     groups: seq<seq<Id>>)
    requires Distinct(PageClusters.IdsOf(plan.pages))
    requires forall id :: id in PageClusters.IdsOf(plan.pages) <==> id in nodes && nodes[id].kind == "page"
    requires forall i | 0 <= i < |plan.pages| ::
               plan.pages[i].id in nodes && plan.pages[i] == PageOf(nm, edges, nodes[plan.pages[i].id])
    requires plan.books == BooksOf(nm, Merged(PageClusters.Members(PageClusters.FirstFit(plan.pages)),
        Tagless(plan.pages)))
    requires plan.shelves == ShelvesOf(nm, plan.books, groups) && Partitions(groups, BookIds(plan.books))
    requires groups == BookClusters.Components(BookIds(plan.books), KeywordSets(nm, plan.books))
    requires forall i: nat, j: nat | i < |plan.books| && j < |plan.books| ::
               (Together(groups, BookIds(plan.books)[i], BookIds(plan.books)[j])
                <==> BookClusters.Connected(KeywordSets(nm, plan.books), i, j))
    ensures PlanFor(nm, nodes, edges, plan)
  {
    hide Distinct, Partitions, BookClusters.Connected, BookClusters.Components, Together, Merged,
         PageClusters.FirstFit;
    assert BookLists(plan.shelves) == groups;
  }

  lemma {:induction false} BooksOfAppend(nm: Naming, cs: seq<Community>, i: nat)
    requires i <= |cs|
    ensures BooksOf(nm, cs[..0]) == [] && FlatMap(PageEdges, []) == []
    ensures i < |cs| ==> BooksOf(nm, cs[..i + 1]) == BooksOf(nm, cs[..i]) + [MakeBook(nm, cs[i])]
  {
  }

  lemma {:induction false} ShelvesOfAppend(nm: Naming, books: seq<Book>, groups: seq<seq<Id>>, i: nat)
    requires i <= |groups|
    ensures ShelvesOf(nm, books, groups[..0]) == [] && FlatMap(ShelfEdges, []) == []
    ensures i < |groups| ==>
              ShelvesOf(nm, books, groups[..i + 1])
                == ShelvesOf(nm, books, groups[..i]) + [MakeShelf(nm, books, i + 1, groups[i])]
  {
  }

  lemma {:induction false} PageEdgesAppend(books: seq<Book>, b: Book)
    ensures FlatMap(PageEdges, books + [b]) == FlatMap(PageEdges, books) + PageEdges(b)
  {
    FlatMapConcat(PageEdges, books, [b]);
    FlatMapOne(PageEdges, b);
  }

  lemma {:induction false} ShelfEdgesAppend(shelves: seq<Shelf>, s: Shelf)
    ensures FlatMap(ShelfEdges, shelves + [s]) == FlatMap(ShelfEdges, shelves) + ShelfEdges(s)
  {
    FlatMapConcat(ShelfEdges, shelves, [s]);
    FlatMapOne(ShelfEdges, s);
  }

  method PlanBookRows(nm: Naming, cs: seq<Community>) returns (books: seq<Book>, rows: seq<Node>, links: seq<Edge>)
    ensures books == BooksOf(nm, cs) && links == FlatMap(PageEdges, books)
    ensures |rows| == |books| && forall i | 0 <= i < |rows| :: rows[i] == BookNode(books[i])
  {
    hide FlatMap, MakeBook, BooksOf;
    books, rows, links := [], [], [];
    BooksOfAppend(nm, cs, 0);
    for i := 0 to |cs|
      invariant books == BooksOf(nm, cs[..i]) && links == FlatMap(PageEdges, books)
      invariant |rows| == |books| && forall k | 0 <= k < |rows| :: rows[k] == BookNode(books[k])
    {
      var b := MakeBook(nm, cs[i]);
      PageEdgesAppend(books, b);
      BooksOfAppend(nm, cs, i);
      books := books + [b];
      rows := rows + [BookNode(b)];
      links := AddPageEdges(links, b);
    }
    assert cs[..|cs|] == cs;
  }

  method AddPageEdges(links: seq<Edge>, b: Book) returns (r: seq<Edge>)
    ensures r == links + PageEdges(b)
  {
    r := links;
    for k := 0 to |b.pages|
      invariant r == links + PageEdges(b)[..k]
    {
      r := r + [BelongsTo(b.pages[k], b.id)];
    }
  }

  method PlanShelfRows(nm: Naming, books: seq<Book>, groups: seq<seq<Id>>)
    returns (shelves: seq<Shelf>, rows: seq<Node>, links: seq<Edge>)
    ensures shelves == ShelvesOf(nm, books, groups) && links == FlatMap(ShelfEdges, shelves)
    ensures |rows| == |shelves| && forall i | 0 <= i < |rows| :: rows[i] == ShelfNode(shelves[i])
  {
    hide FlatMap, MakeShelf, ShelvesOf;
    shelves, rows, links := [], [], [];
    ShelvesOfAppend(nm, books, groups, 0);
    for i := 0 to |groups|
      invariant shelves == ShelvesOf(nm, books, groups[..i]) && links == FlatMap(ShelfEdges, shelves)
      invariant |rows| == |shelves| && forall k | 0 <= k < |rows| :: rows[k] == ShelfNode(shelves[k])
    {
      var s := MakeShelf(nm, books, i + 1, groups[i]);
      ShelfEdgesAppend(shelves, s);
      ShelvesOfAppend(nm, books, groups, i);
      shelves := shelves + [s];
      rows := rows + [ShelfNode(s)];
      links := AddShelfEdges(links, s);
    }
    assert groups[..|groups|] == groups;
  }

  method AddShelfEdges(links: seq<Edge>, s: Shelf) returns (r: seq<Edge>)
    ensures r == links + ShelfEdges(s)
  {
    r := links;
    for k := 0 to |s.books|
      invariant r == links + ShelfEdges(s)[..k]
    {
      r := r + [SitsOn(s.books[k], s.id)];
    }
  }
}
