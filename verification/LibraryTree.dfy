/** The tree that the library browser draws from the stored rows. */
module LibraryTree {
  import opened Sequences
  import opened Partition

  datatype NodeRow = NodeRow(id: Id, kind: string, title: string)

  datatype EdgeRow = EdgeRow(source: Id, target: Id, relation: string)

  datatype Entry = Entry(id: Id, title: string)

  datatype TreeItem = TreeItem(id: Id, title: string, level: nat, expanded: bool, leaf: bool, hasChildren: bool)

  const MISC: Id := "miscellaneous_book"
  const UNSHELVED: Id := "unshelved_shelf"

  // ---------------------------------------------------------------- reading the rows

  function Entries(nodes: seq<NodeRow>, kind: string): seq<Entry> {
    if nodes == [] then []
    else
      var n := nodes[|nodes| - 1];
      Entries(nodes[..|nodes| - 1], kind) + (if n.kind == kind then [Entry(n.id, n.title)] else [])
  }

  /** The last edge of a relation decides where its source lives. */
  function Homes(edges: seq<EdgeRow>, relation: string): map<Id, Id> {
    if edges == [] then map[]
    else
      var e := edges[|edges| - 1];
      var before := Homes(edges[..|edges| - 1], relation);
      if e.relation == relation then before[e.source := e.target] else before
  }

  function HomeOf(homes: map<Id, Id>, id: Id, fallback: Id): Id {
    if id in homes then homes[id] else fallback
  }

  /** The entries that live under `home`, in order. */
  function Under(entries: seq<Entry>, homes: map<Id, Id>, fallback: Id, home: Id): seq<Entry> {
    if entries == [] then []
    else
      var e := entries[|entries| - 1];
      Under(entries[..|entries| - 1], homes, fallback, home)
      + (if HomeOf(homes, e.id, fallback) == home then [e] else [])
  }

  // `groups` is the hash map from home to the entries that live there.
  ghost predicate Grouped(entries: seq<Entry>, homes: map<Id, Id>, fallback: Id, groups: map<Id, seq<Entry>>) {
    && (forall h | h in groups :: groups[h] != [] && groups[h] == Under(entries, homes, fallback, h))
    && (forall h | h !in groups :: Under(entries, homes, fallback, h) == [])
  }

  method AddUnder(groups: map<Id, seq<Entry>>, ghost entries: seq<Entry>, homes: map<Id, Id>, fallback: Id, e: Entry)
    returns (r: map<Id, seq<Entry>>)
    requires Grouped(entries, homes, fallback, groups)
    ensures Grouped(entries + [e], homes, fallback, r)
  {
    assert (entries + [e])[..|entries|] == entries;
    var h := HomeOf(homes, e.id, fallback);
    r := groups[h := (if h in groups then groups[h] else []) + [e]];
  }

  method GroupEntries(entries: seq<Entry>, homes: map<Id, Id>, fallback: Id) returns (groups: map<Id, seq<Entry>>)
    ensures Grouped(entries, homes, fallback, groups)
  {
    hide Grouped;
    groups := map[];
    NothingGrouped(homes, fallback);
    assert entries[..0] == [];
    for i := 0 to |entries|
      invariant Grouped(entries[..i], homes, fallback, groups)
    {
      assert entries[..i + 1] == entries[..i] + [entries[i]];
      groups := AddUnder(groups, entries[..i], homes, fallback, entries[i]);
    }
    assert entries[..|entries|] == entries;
  }

  lemma {:induction false} NothingGrouped(homes: map<Id, Id>, fallback: Id)
    ensures Grouped([], homes, fallback, map[])
  {
  }

  method ReadEntries(nodes: seq<NodeRow>, kind: string) returns (entries: seq<Entry>)
    ensures entries == Entries(nodes, kind)
  {
    entries := [];
    for i := 0 to |nodes|
      invariant entries == Entries(nodes[..i], kind)
    {
      assert nodes[..i + 1][..i] == nodes[..i];
      if nodes[i].kind == kind {
        entries := entries + [Entry(nodes[i].id, nodes[i].title)];
      }
    }
    assert nodes[..|nodes|] == nodes;
  }

  method ReadHomes(edges: seq<EdgeRow>, relation: string) returns (homes: map<Id, Id>)
    ensures homes == Homes(edges, relation)
  {
    homes := map[];
    for i := 0 to |edges|
      invariant homes == Homes(edges[..i], relation)
    {
      assert edges[..i + 1][..i] == edges[..i];
      if edges[i].relation == relation {
        homes := homes[edges[i].source := edges[i].target];
      }
    }
    assert edges[..|edges|] == edges;
  }

  // ---------------------------------------------------------------- the library and its tree

  datatype Library = Library(shelves: seq<Entry>, books: seq<Entry>, pages: seq<Entry>,
                             shelfOf: map<Id, Id>, bookOf: map<Id, Id>)
  {
    function BookHome(page: Id): Id {
      HomeOf(bookOf, page, MISC)
    }

    function ShelfHome(book: Id): Id {
      HomeOf(shelfOf, book, UNSHELVED)
    }

    function PagesIn(book: Id): seq<Entry> {
      Under(pages, bookOf, MISC, book)
    }

    /** The stored books, and the virtual one when some page has no book. */
    function AllBooks(): seq<Entry> {
      if PagesIn(MISC) == [] then books else books + [Entry(MISC, "Miscellaneous (Unsorted)")]
    }

    function BooksOn(shelf: Id): seq<Entry> {
      Under(AllBooks(), shelfOf, UNSHELVED, shelf)
    }

    /** The stored shelves, and the virtual one when some book has no shelf. */
    function AllShelves(): seq<Entry> {
      if BooksOn(UNSHELVED) == [] then shelves else shelves + [Entry(UNSHELVED, "Unshelved Books")]
    }
  }

  function Load(nodes: seq<NodeRow>, edges: seq<EdgeRow>): Library {
    Library(Entries(nodes, "shelf"), Entries(nodes, "book"), Entries(nodes, "page"),
            Homes(edges, "sits_on"), Homes(edges, "belongs_to"))
  }

  function IsOpen(open: map<Id, bool>, id: Id): bool {
    id in open && open[id]
  }

  function PageItem(p: Entry): TreeItem {
    TreeItem(p.id, p.title, 2, false, true, false)
  }

  function BookItem(l: Library, open: map<Id, bool>, b: Entry): TreeItem {
    TreeItem(b.id, b.title, 1, IsOpen(open, b.id), false, l.PagesIn(b.id) != [])
  }

  function ShelfItem(l: Library, open: map<Id, bool>, s: Entry): TreeItem {
    TreeItem(s.id, s.title, 0, IsOpen(open, s.id), false, l.BooksOn(s.id) != [])
  }

  function PageItems(ps: seq<Entry>): seq<TreeItem> {
    seq(|ps|, i requires 0 <= i < |ps| => PageItem(ps[i]))
  }

  function BookBlock(l: Library, open: map<Id, bool>, b: Entry): seq<TreeItem> {
    [BookItem(l, open, b)] + if IsOpen(open, b.id) then PageItems(l.PagesIn(b.id)) else []
  }

  function BookBlocks(l: Library, open: map<Id, bool>): Entry -> seq<TreeItem> {
    (b: Entry) => BookBlock(l, open, b)
  }

  function ShelfBlock(l: Library, open: map<Id, bool>, s: Entry): seq<TreeItem> {
    [ShelfItem(l, open, s)]
    + if IsOpen(open, s.id) then FlatMap(BookBlocks(l, open), l.BooksOn(s.id)) else []
  }

  function ShelfBlocks(l: Library, open: map<Id, bool>): Entry -> seq<TreeItem> {
    (s: Entry) => ShelfBlock(l, open, s)
  }

  /** The visible items when exactly the nodes marked in `open` are expanded. */
  function Visible(l: Library, open: map<Id, bool>): seq<TreeItem> {
    FlatMap(ShelfBlocks(l, open), l.AllShelves())
  }

  // ---------------------------------------------------------------- counting occurrences

  function IdsOf(entries: seq<Entry>): (r: seq<Id>)
    ensures |r| == |entries| && forall i | 0 <= i < |r| :: r[i] == entries[i].id
  {
    seq(|entries|, i requires 0 <= i < |entries| => entries[i].id)
  }

  function Times(entries: seq<Entry>, id: Id): nat {
    if entries == [] then 0
    else Times(entries[..|entries| - 1], id) + if entries[|entries| - 1].id == id then 1 else 0
  }

  // How often an item of this level and id occurs.
  function Shown(items: seq<TreeItem>, level: nat, id: Id): nat {
    if items == [] then 0
    else (if items[0].level == level && items[0].id == id then 1 else 0) + Shown(items[1..], level, id)
  }

  lemma {:induction false} ShownConcat(a: seq<TreeItem>, b: seq<TreeItem>, level: nat, id: Id)
    ensures Shown(a + b, level, id) == Shown(a, level, id) + Shown(b, level, id)
  {
    if a == [] {
      assert a + b == b;
    } else {
      assert (a + b)[1..] == a[1..] + b;
      ShownConcat(a[1..], b, level, id);
    }
  }

  /** If a block shows an item `v` times when its entry has id `home` and not at all
      otherwise, the blocks together show it `v` times per entry of that id. */
  lemma {:induction false} ShownInBlocks(block: Entry -> seq<TreeItem>, entries: seq<Entry>, level: nat, id: Id,
                                         home: Id, v: nat)
    requires forall e | e in entries :: Shown(block(e), level, id) == if e.id == home then v else 0
    ensures Shown(FlatMap(block, entries), level, id) == v * Times(entries, home)
  {
    hide Shown, FlatMap, Times;
    if entries == [] {
      NothingShown(block, level, id, home);
    } else {
      var n := |entries| - 1;
      var front, last := entries[..n], entries[n];
      ShownInBlocks(block, front, level, id, home, v);
      assert entries == front + [last];
      FlatMapConcat(block, front, [last]);
      FlatMapOne(block, last);
      ShownConcat(FlatMap(block, front), block(last), level, id);
      TimesAppend(front, last, home);
      assert v * (Times(front, home) + 1) == v * Times(front, home) + v;
    }
  }

  lemma {:induction false} NothingShown(block: Entry -> seq<TreeItem>, level: nat, id: Id, home: Id)
    ensures Shown(FlatMap(block, []), level, id) == 0 && Times([], home) == 0
  {
  }

  lemma {:induction false} ShownFirst(item: TreeItem, rest: seq<TreeItem>, level: nat, id: Id)
    ensures Shown([item] + rest, level, id) == Shown(rest, level, id)
      + if item.level == level && item.id == id then 1 else 0
  {
    assert ([item] + rest)[1..] == rest;
  }

  lemma {:induction false} TimesUnder(entries: seq<Entry>, homes: map<Id, Id>, fallback: Id, home: Id, id: Id)
    ensures Times(Under(entries, homes, fallback, home), id)
         == if HomeOf(homes, id, fallback) == home then Times(entries, id) else 0
  {
    if entries != [] {
      var n := |entries| - 1;
      TimesUnder(entries[..n], homes, fallback, home, id);
      TimesAppend(Under(entries[..n], homes, fallback, home), entries[n], id);
    }
  }

  lemma {:induction false} TimesAppend(entries: seq<Entry>, e: Entry, id: Id)
    ensures Times(entries + [e], id) == Times(entries, id) + (if e.id == id then 1 else 0)
    ensures entries + [] == entries
  {
    assert (entries + [e])[..|entries|] == entries;
  }

  lemma {:induction false} ShownPages(ps: seq<Entry>, id: Id)
    ensures Shown(PageItems(ps), 2, id) == Times(ps, id) && Shown(PageItems(ps), 1, id) == 0
  {
    if ps != [] {
      var n := |ps| - 1;
      ShownPages(ps[..n], id);
      assert PageItems(ps) == PageItems(ps[..n]) + [PageItem(ps[n])];
      ShownConcat(PageItems(ps[..n]), [PageItem(ps[n])], 2, id);
      ShownConcat(PageItems(ps[..n]), [PageItem(ps[n])], 1, id);
      assert [PageItem(ps[n])][1..] == [];
    }
  }

  // ---------------------------------------------------------------- the expanded tree

  ghost predicate AllOpen(l: Library, open: map<Id, bool>) {
    && (forall s | s in l.AllShelves() :: IsOpen(open, s.id))
    && (forall b | b in l.AllBooks() :: IsOpen(open, b.id))
  }

  lemma {:induction false} ShownInBook(l: Library, open: map<Id, bool>, b: Entry, id: Id)
    requires IsOpen(open, b.id)
    ensures Shown(BookBlock(l, open, b), 2, id) == if b.id == l.BookHome(id) then Times(l.pages, id) else 0
    ensures Shown(BookBlock(l, open, b), 1, id) == if b.id == id then 1 else 0
  {
    hide Shown, Times, PageItems;
    ShownPages(l.PagesIn(b.id), id);
    TimesUnder(l.pages, l.bookOf, MISC, b.id, id);
    ShownFirst(BookItem(l, open, b), PageItems(l.PagesIn(b.id)), 2, id);
    ShownFirst(BookItem(l, open, b), PageItems(l.PagesIn(b.id)), 1, id);
  }

  lemma {:induction false} UnderIsPart(entries: seq<Entry>, homes: map<Id, Id>, fallback: Id, home: Id, e: Entry)
    requires e in Under(entries, homes, fallback, home)
    ensures e in entries && HomeOf(homes, e.id, fallback) == home
  {
    if entries != [] && e in Under(entries[..|entries| - 1], homes, fallback, home) {
      UnderIsPart(entries[..|entries| - 1], homes, fallback, home, e);
    }
  }

  lemma {:induction false} BooksAreOpen(l: Library, open: map<Id, bool>, shelf: Id, e: Entry)
    requires AllOpen(l, open) && e in l.BooksOn(shelf)
    ensures IsOpen(open, e.id)
  {
    UnderIsPart(l.AllBooks(), l.shelfOf, UNSHELVED, shelf, e);
  }

  lemma {:induction false} ShownInShelf(l: Library, open: map<Id, bool>, s: Entry, id: Id)
    requires AllOpen(l, open) && IsOpen(open, s.id)
    ensures var b := l.BookHome(id);
            Shown(ShelfBlock(l, open, s), 2, id)
            == if s.id == l.ShelfHome(b) then Times(l.pages, id) * Times(l.AllBooks(), b) else 0
    ensures Shown(ShelfBlock(l, open, s), 1, id) == if s.id == l.ShelfHome(id) then Times(l.AllBooks(), id) else 0
  {
    hide Shown, Times, FlatMap, AllOpen, BookBlock, IsOpen;
    var block, on, b := BookBlocks(l, open), l.BooksOn(s.id), l.BookHome(id);
    forall e | e in on
      ensures Shown(block(e), 2, id) == if e.id == b then Times(l.pages, id) else 0
      ensures Shown(block(e), 1, id) == if e.id == id then 1 else 0
    {
      BooksAreOpen(l, open, s.id, e);
      ShownInBook(l, open, e, id);
    }
    ShownInBlocks(block, on, 2, id, b, Times(l.pages, id));
    ShownInBlocks(block, on, 1, id, id, 1);
    TimesUnder(l.AllBooks(), l.shelfOf, UNSHELVED, s.id, b);
    TimesUnder(l.AllBooks(), l.shelfOf, UNSHELVED, s.id, id);
    ShownFirst(ShelfItem(l, open, s), FlatMap(block, on), 2, id);
    ShownFirst(ShelfItem(l, open, s), FlatMap(block, on), 1, id);
  }

  /** In the fully expanded tree a page occurs once per entry of its book per entry of that
      book's shelf, and a book once per entry of it per entry of its shelf. */
  lemma {:induction false} ExpandedCounts(l: Library, open: map<Id, bool>, id: Id)
    requires AllOpen(l, open)
    ensures var b := l.BookHome(id);
            Shown(Visible(l, open), 2, id)
              == Times(l.pages, id) * Times(l.AllBooks(), b) * Times(l.AllShelves(), l.ShelfHome(b))
    ensures Shown(Visible(l, open), 1, id) == Times(l.AllBooks(), id) * Times(l.AllShelves(), l.ShelfHome(id))
  {
    var b := l.BookHome(id);
    hide Shown, Times, FlatMap, ShelfBlock, IsOpen;
    forall s | s in l.AllShelves()
      ensures Shown(ShelfBlock(l, open, s), 2, id)
           == if s.id == l.ShelfHome(b) then Times(l.pages, id) * Times(l.AllBooks(), b) else 0
      ensures Shown(ShelfBlock(l, open, s), 1, id) == if s.id == l.ShelfHome(id) then Times(l.AllBooks(), id) else 0
    {
      ShownInShelf(l, open, s, id);
    }
    ShownInAllShelves(l, open, 2, id, l.ShelfHome(b), Times(l.pages, id) * Times(l.AllBooks(), b));
    ShownInAllShelves(l, open, 1, id, l.ShelfHome(id), Times(l.AllBooks(), id));
  }

  lemma {:induction false} ShownInAllShelves(l: Library, open: map<Id, bool>, level: nat, id: Id, home: Id, v: nat)
    requires forall s | s in l.AllShelves() :: Shown(ShelfBlock(l, open, s), level, id) == if s.id == home then v else 0
    ensures Shown(Visible(l, open), level, id) == v * Times(l.AllShelves(), home)
  {
    hide Shown, Times, FlatMap, ShelfBlock;
    ShownInBlocks(ShelfBlocks(l, open), l.AllShelves(), level, id, home, v);
  }

  ghost predicate DistinctEntries(entries: seq<Entry>) {
    forall i, j | 0 <= i < j < |entries| :: entries[i].id != entries[j].id
  }

  ghost predicate Holds(entries: seq<Entry>, id: Id) {
    exists i :: 0 <= i < |entries| && entries[i].id == id
  }

  lemma {:induction false} TimesIsOne(entries: seq<Entry>, id: Id)
    requires DistinctEntries(entries)
    ensures Times(entries, id) == if Holds(entries, id) then 1 else 0
  {
    if entries != [] {
      var n := |entries| - 1;
      TimesIsOne(entries[..n], id);
      assert entries[n].id == id ==> !Holds(entries[..n], id);
      assert Holds(entries[..n], id) ==> Holds(entries, id);
      if entries[n].id != id && Holds(entries, id) {
        var i :| 0 <= i < |entries| && entries[i].id == id;
        assert entries[..n][i].id == id;
      }
    }
  }

  // Distinct rows of one table have distinct ids.
  ghost predicate DistinctRows(l: Library) {
    DistinctEntries(l.shelves) && DistinctEntries(l.books) && DistinctEntries(l.pages)
  }

  /** A page's book is unambiguous: stored under its id or the virtual one, but not both. */
  ghost predicate OneOf(stored: bool, virtual: bool) {
    stored != virtual
  }

  ghost predicate BookShownOnce(l: Library, book: Id) {
    && OneOf(Holds(l.books, book), book == MISC)
    && OneOf(Holds(l.shelves, l.ShelfHome(book)), l.ShelfHome(book) == UNSHELVED)
  }

  lemma {:induction false} TimesWithVirtual(l: Library, page: Id)
    requires DistinctRows(l) && Holds(l.pages, page)
    ensures var b := l.BookHome(page);
            Times(l.AllBooks(), b) == (if Holds(l.books, b) then 1 else 0) + if b == MISC then 1 else 0
  {
    var b := l.BookHome(page);
    TimesIsOne(l.books, b);
    TimesIsOne(l.pages, page);
    TimesAppend(l.books, Entry(MISC, "Miscellaneous (Unsorted)"), b);
    TimesUnder(l.pages, l.bookOf, MISC, MISC, page);
    assert Times([], page) == 0;
  }

  lemma {:induction false} ShelfTimes(l: Library, book: Id)
    requires DistinctRows(l) && Times(l.AllBooks(), book) > 0
    ensures var s := l.ShelfHome(book);
            Times(l.AllShelves(), s) == (if Holds(l.shelves, s) then 1 else 0) + if s == UNSHELVED then 1 else 0
  {
    var s := l.ShelfHome(book);
    TimesIsOne(l.shelves, s);
    TimesAppend(l.shelves, Entry(UNSHELVED, "Unshelved Books"), s);
    TimesUnder(l.AllBooks(), l.shelfOf, UNSHELVED, UNSHELVED, book);
    assert Times([], book) == 0;
  }

  /** Exactly when a stored page is listed once: its book is either stored or the virtual one,
      its book's shelf is either stored or the virtual one, and no stored row took a virtual id. */
  lemma {:induction false} PageListedOnceIff(l: Library, open: map<Id, bool>, page: Id)
    requires DistinctRows(l) && AllOpen(l, open) && Holds(l.pages, page)
    ensures Shown(Visible(l, open), 2, page) == 1 <==> BookShownOnce(l, l.BookHome(page))
  {
    hide Shown, Visible, Times, Holds, AllOpen;
    var b := l.BookHome(page);
    ExpandedCounts(l, open, page);
    TimesIsOne(l.pages, page);
    TimesWithVirtual(l, page);
    if Times(l.AllBooks(), b) > 0 {
      ShelfTimes(l, b);
    }
    OneFactors(Times(l.AllBooks(), b), Times(l.AllShelves(), l.ShelfHome(b)));
  }

  lemma {:induction false} OneFactors(x: nat, y: nat)
    ensures x * y == 1 <==> x == 1 && y == 1
    ensures x == 0 ==> x * y == 0
  {
    if x > 1 && y > 0 {
      assert x * y >= x;
    }
  }

  /** Exactly when a stored book is listed once. */
  lemma {:induction false} BookListedOnceIff(l: Library, open: map<Id, bool>, book: Id)
    requires DistinctRows(l) && AllOpen(l, open) && Holds(l.books, book)
    ensures Shown(Visible(l, open), 1, book) == 1 <==>
              && (book == MISC ==> l.PagesIn(MISC) == [])
              && OneOf(Holds(l.shelves, l.ShelfHome(book)), l.ShelfHome(book) == UNSHELVED)
  {
    ExpandedCounts(l, open, book);
    TimesIsOne(l.books, book);
    TimesAppend(l.books, Entry(MISC, "Miscellaneous (Unsorted)"), book);
    ShelfTimes(l, book);
    OneFactors(Times(l.AllBooks(), book), Times(l.AllShelves(), l.ShelfHome(book)));
  }

  // A stored book under the virtual book's id, on a stored shelf, and a page without a book.
  const CLASH_NODES: seq<NodeRow> := [NodeRow("s", "shelf", "S"), NodeRow(MISC, "book", "B"), NodeRow("p", "page", "P")]
  const CLASH_EDGES: seq<EdgeRow> := [EdgeRow(MISC, "s", "sits_on")]

  /** Sound edges alone do not suffice: when a stored book bears the virtual book's id, a page
      without a book is listed twice, though every stored edge leads to a stored node. */
  lemma {:induction false} VirtualIdsCanClash(open: map<Id, bool>)
    requires AllOpen(Load(CLASH_NODES, CLASH_EDGES), open)
    ensures Shown(Visible(Load(CLASH_NODES, CLASH_EDGES), open), 2, "p") == 2
  {
    hide Shown, Visible, AllOpen, Entries, Homes;
    var l := Load(CLASH_NODES, CLASH_EDGES);
    ThreeEntries(CLASH_NODES[0], CLASH_NODES[1], CLASH_NODES[2]);
    OneHomeRow(CLASH_EDGES[0]);
    assert l.pages == [Entry("p", "P")] && l.books == [Entry(MISC, "B")] && l.shelves == [Entry("s", "S")];
    assert l.pages[0].id == "p" && l.books[0].id == MISC && l.shelves[0].id == "s";
    ClashCount(l);
  }

  lemma {:induction false} ThreeEntries(a: NodeRow, b: NodeRow, c: NodeRow)
    ensures forall kind :: Entries([a, b, c], kind)
                        == (if a.kind == kind then [Entry(a.id, a.title)] else [])
                         + (if b.kind == kind then [Entry(b.id, b.title)] else [])
                         + (if c.kind == kind then [Entry(c.id, c.title)] else [])
  {
    assert [a, b, c][..2] == [a, b] && [a, b][..1] == [a] && [a][..0] == [];
    forall kind ensures Entries([a, b], kind) == (if a.kind == kind then [Entry(a.id, a.title)] else [])
                                               + (if b.kind == kind then [Entry(b.id, b.title)] else []) {
      assert Entries([a], kind) == if a.kind == kind then [Entry(a.id, a.title)] else [];
    }
  }

  lemma {:induction false} OneHomeRow(e: EdgeRow)
    ensures forall relation ::
              Homes([e], relation) == if e.relation == relation then map[e.source := e.target] else map[]
  {
    assert [e][..0] == [];
  }

  lemma {:induction false} ClashCount(l: Library)
    requires DistinctRows(l) && l.bookOf == map[] && l.shelfOf == map[MISC := "s"]
    requires Holds(l.pages, "p") && Holds(l.books, MISC) && Holds(l.shelves, "s")
    ensures forall open | AllOpen(l, open) :: Shown(Visible(l, open), 2, "p") == 2
  {
    hide Shown, Visible, Times, Holds;
    TimesIsOne(l.pages, "p");
    TimesWithVirtual(l, "p");
    ShelfTimes(l, MISC);
    forall open | AllOpen(l, open) ensures Shown(Visible(l, open), 2, "p") == 2 {
      ExpandedCounts(l, open, "p");
    }
  }

  // ---------------------------------------------------------------- collapsing

  // Every entry of `entries` but the `i`-th has another id.
  ghost predicate OnlyAt(entries: seq<Entry>, i: nat) {
    i < |entries| && forall j | 0 <= j < |entries| && j != i :: entries[j].id != entries[i].id
  }

  lemma {:induction false} BlockIgnores(l: Library, open: map<Id, bool>, id: Id, on: bool, b: Entry)
    requires b.id != id
    ensures BookBlock(l, open[id := on], b) == BookBlock(l, open, b)
  {
  }

  lemma {:induction false} ShelfIgnores(l: Library, open: map<Id, bool>, id: Id, on: bool, s: Entry)
    requires s.id != id && forall b | b in l.BooksOn(s.id) :: b.id != id
    ensures ShelfBlock(l, open[id := on], s) == ShelfBlock(l, open, s)
  {
    var f, g := BookBlocks(l, open[id := on]), BookBlocks(l, open);
    forall b | b in l.BooksOn(s.id) ensures f(b) == g(b) {
      BlockIgnores(l, open, id, on, b);
    }
    FlatMapSame(f, g, l.BooksOn(s.id));
  }

  /** Collapsing or expanding a shelf replaces its own line and removes or inserts exactly the
      lines of its books and their pages. */
  lemma {:induction false} ToggleShelf(l: Library, open: map<Id, bool>, i: nat, on: bool)
    requires OnlyAt(l.AllShelves(), i) && !Holds(l.AllBooks(), l.AllShelves()[i].id)
    ensures var s := l.AllShelves()[i];
            var before := FlatMap(ShelfBlocks(l, open), l.AllShelves()[..i]);
            var after := FlatMap(ShelfBlocks(l, open), l.AllShelves()[i + 1..]);
            var below := if on then FlatMap(BookBlocks(l, open), l.BooksOn(s.id)) else [];
            Visible(l, open[s.id := on])
            == before + (([ShelfItem(l, map[s.id := on], s)] + below) + after)
  {
    var all := l.AllShelves();
    var s := all[i];
    var f, g := ShelfBlocks(l, open[s.id := on]), ShelfBlocks(l, open);
    forall j | 0 <= j < |all| && j != i ensures f(all[j]) == g(all[j]) {
      NoBookHas(l, all[j].id, s.id);
      ShelfIgnores(l, open, s.id, on, all[j]);
    }
    FlatMapAround(f, all, i);
    FlatMapSame(f, g, all[..i]);
    FlatMapSame(f, g, all[i + 1..]);
    NoBookHas(l, s.id, s.id);
    forall b | b in l.BooksOn(s.id) ensures BookBlocks(l, open[s.id := on])(b) == BookBlocks(l, open)(b) {
      BlockIgnores(l, open, s.id, on, b);
    }
    FlatMapSame(BookBlocks(l, open[s.id := on]), BookBlocks(l, open), l.BooksOn(s.id));
    assert [ShelfItem(l, map[s.id := on], s)] + [] == [ShelfItem(l, map[s.id := on], s)];
  }

  lemma {:induction false} NoBookHas(l: Library, shelf: Id, id: Id)
    requires !Holds(l.AllBooks(), id)
    ensures forall b | b in l.BooksOn(shelf) :: b.id != id
  {
    forall b | b in l.BooksOn(shelf) ensures b.id != id {
      UnderIsPart(l.AllBooks(), l.shelfOf, UNSHELVED, shelf, b);
      var k :| 0 <= k < |l.AllBooks()| && l.AllBooks()[k] == b;
    }
  }

  /** Collapsing or expanding a book replaces its own line and removes or inserts exactly the
      lines of its pages. */
  lemma {:induction false} ToggleBook(l: Library, open: map<Id, bool>, s: Entry, j: nat, on: bool)
    requires OnlyAt(l.BooksOn(s.id), j) && s.id != l.BooksOn(s.id)[j].id && IsOpen(open, s.id)
    ensures var b := l.BooksOn(s.id)[j];
            var before := FlatMap(BookBlocks(l, open), l.BooksOn(s.id)[..j]);
            var after := FlatMap(BookBlocks(l, open), l.BooksOn(s.id)[j + 1..]);
            var below := if on then PageItems(l.PagesIn(b.id)) else [];
            ShelfBlock(l, open[b.id := on], s)
            == [ShelfItem(l, open, s)] + (before + (([BookItem(l, map[b.id := on], b)] + below) + after))
  {
    var books := l.BooksOn(s.id);
    var b := books[j];
    var f, g := BookBlocks(l, open[b.id := on]), BookBlocks(l, open);
    forall k | 0 <= k < |books| && k != j ensures f(books[k]) == g(books[k]) {
      BlockIgnores(l, open, b.id, on, books[k]);
    }
    FlatMapAround(f, books, j);
    FlatMapSame(f, g, books[..j]);
    FlatMapSame(f, g, books[j + 1..]);
    assert [BookItem(l, map[b.id := on], b)] + [] == [BookItem(l, map[b.id := on], b)];
  }

  /** On the whole screen: collapsing or expanding a book on an open shelf replaces its own line
      and removes or inserts exactly the lines of its pages; under a collapsed shelf it changes
      nothing. */
  lemma {:induction false} ToggleBookOnScreen(l: Library, open: map<Id, bool>, i: nat, j: nat, on: bool)
    requires OnlyAt(l.AllShelves(), i) && OnlyAt(l.BooksOn(l.AllShelves()[i].id), j)
    requires !Holds(l.AllShelves(), l.BooksOn(l.AllShelves()[i].id)[j].id)
    ensures var s := l.AllShelves()[i];
            var b := l.BooksOn(s.id)[j];
            var above := FlatMap(ShelfBlocks(l, open), l.AllShelves()[..i]);
            var rest := FlatMap(ShelfBlocks(l, open), l.AllShelves()[i + 1..]);
            var before := FlatMap(BookBlocks(l, open), l.BooksOn(s.id)[..j]);
            var after := FlatMap(BookBlocks(l, open), l.BooksOn(s.id)[j + 1..]);
            var below := if on then PageItems(l.PagesIn(b.id)) else [];
            Visible(l, open[b.id := on])
            == if !IsOpen(open, s.id) then Visible(l, open)
               else
                 var block := [BookItem(l, map[b.id := on], b)] + below;
                 above + (([ShelfItem(l, open, s)] + (before + (block + after))) + rest)
  {
    hide ShelfBlock, BookBlock, FlatMap, IsOpen, ShelfItem;
    var all, s := l.AllShelves(), l.AllShelves()[i];
    var b := l.BooksOn(s.id)[j];
    var f, g := ShelfBlocks(l, open[b.id := on]), ShelfBlocks(l, open);
    UnderIsPart(l.AllBooks(), l.shelfOf, UNSHELVED, s.id, b);
    forall k | 0 <= k < |all| && k != i ensures f(all[k]) == g(all[k]) {
      ToggleBookElsewhere(l, open, all[k], b.id, on);
    }
    FlatMapAround(f, all, i);
    FlatMapAround(g, all, i);
    FlatMapSame(f, g, all[..i]);
    FlatMapSame(f, g, all[i + 1..]);
    if IsOpen(open, s.id) {
      ToggleBook(l, open, s, j, on);
    } else {
      ClosedShelf(l, open, s, b.id, on);
    }
  }

  lemma {:induction false} ClosedShelf(l: Library, open: map<Id, bool>, s: Entry, book: Id, on: bool)
    requires !IsOpen(open, s.id) && s.id != book
    ensures ShelfBlock(l, open[book := on], s) == ShelfBlock(l, open, s)
  {
  }

  /** Shelves that do not hold the toggled book keep their lines. */
  lemma {:induction false} ToggleBookElsewhere(l: Library, open: map<Id, bool>, s: Entry, book: Id, on: bool)
    requires s.id != book && l.ShelfHome(book) != s.id
    ensures ShelfBlock(l, open[book := on], s) == ShelfBlock(l, open, s)
  {
    forall b | b in l.BooksOn(s.id) ensures b.id != book {
      UnderIsPart(l.AllBooks(), l.shelfOf, UNSHELVED, s.id, b);
    }
    ShelfIgnores(l, open, book, on, s);
  }

  // ---------------------------------------------------------------- the browser

  /** Reads the rows into the lists and maps the browser walks, everything expanded. */
  method BuildTree(nodes: seq<NodeRow>, edges: seq<EdgeRow>)
    returns (shelves: seq<Entry>, shelfToBooks: map<Id, seq<Entry>>, bookToPages: map<Id, seq<Entry>>,
             open: map<Id, bool>)
    ensures var l := Load(nodes, edges);
            && shelves == l.AllShelves() && AllOpen(l, open)
            && Grouped(l.AllBooks(), l.shelfOf, UNSHELVED, shelfToBooks)
            && Grouped(l.pages, l.bookOf, MISC, bookToPages)
  {
    hide Entries, Homes, Under, Grouped, AllOpen;
    ghost var l := Load(nodes, edges);
    var pages := ReadEntries(nodes, "page");
    var books := ReadEntries(nodes, "book");
    shelves := ReadEntries(nodes, "shelf");
    var pageToBook := ReadHomes(edges, "belongs_to");
    var bookToShelf := ReadHomes(edges, "sits_on");
    bookToPages := GroupEntries(pages, pageToBook, MISC);
    shelfToBooks := GroupEntries(books, bookToShelf, UNSHELVED);
    KeyMeansSome(pages, pageToBook, MISC, bookToPages, MISC);
    if MISC in bookToPages {
      var misc := Entry(MISC, "Miscellaneous (Unsorted)");
      shelfToBooks := AddUnder(shelfToBooks, books, bookToShelf, UNSHELVED, misc);
      books := books + [misc];
    }
    KeyMeansSome(books, bookToShelf, UNSHELVED, shelfToBooks, UNSHELVED);
    if UNSHELVED in shelfToBooks {
      shelves := shelves + [Entry(UNSHELVED, "Unshelved Books")];
    }
    var ids := IdSet(shelves) + IdSet(books);
    open := map id | id in ids :: true;
    AllMarked(l, open);
  }

  function IdSet(entries: seq<Entry>): set<Id> {
    set e | e in entries :: e.id
  }

  lemma {:induction false} AllMarked(l: Library, open: map<Id, bool>)
    requires open.Keys == IdSet(l.AllShelves()) + IdSet(l.AllBooks()) && forall id | id in open :: open[id]
    ensures AllOpen(l, open)
  {
  }

  lemma {:induction false} KeyMeansSome(entries: seq<Entry>, homes: map<Id, Id>, fallback: Id,
                                        groups: map<Id, seq<Entry>>, h: Id)
    requires Grouped(entries, homes, fallback, groups)
    ensures h in groups <==> Under(entries, homes, fallback, h) != []
  {
  }

  /** One redraw: walks shelves, then books, then pages, skipping what is collapsed. */
  method Render(l: Library, shelfToBooks: map<Id, seq<Entry>>, bookToPages: map<Id, seq<Entry>>, open: map<Id, bool>)
    returns (items: seq<TreeItem>)
    requires Grouped(l.AllBooks(), l.shelfOf, UNSHELVED, shelfToBooks)
    requires Grouped(l.pages, l.bookOf, MISC, bookToPages)
    ensures items == if Visible(l, open) != [] then Visible(l, open)
                     else [TreeItem("empty", "(Library is completely empty)", 0, false, true, false)]
  {
    hide FlatMap, ShelfBlock, BookBlock, Under;
    items := [];
    var shelves := l.AllShelves();
    NoBlocks(ShelfBlocks(l, open));
    assert shelves[..0] == [];
    for i := 0 to |shelves|
      invariant items == FlatMap(ShelfBlocks(l, open), shelves[..i])
    {
      var block := RenderShelf(l, shelfToBooks, bookToPages, open, shelves[i]);
      NextBlock(ShelfBlocks(l, open), shelves, i);
      items := items + block;
    }
    assert shelves[..|shelves|] == shelves;
    if items == [] {
      items := [TreeItem("empty", "(Library is completely empty)", 0, false, true, false)];
    }
  }

  lemma {:induction false} NoBlocks(block: Entry -> seq<TreeItem>)
    ensures FlatMap(block, []) == []
  {
  }

  lemma {:induction false} NextBlock(block: Entry -> seq<TreeItem>, entries: seq<Entry>, i: nat)
    requires i < |entries|
    ensures FlatMap(block, entries[..i + 1]) == FlatMap(block, entries[..i]) + block(entries[i])
  {
    assert entries[..i + 1] == entries[..i] + [entries[i]];
    FlatMapConcat(block, entries[..i], [entries[i]]);
    FlatMapOne(block, entries[i]);
  }

  method RenderShelf(l: Library, shelfToBooks: map<Id, seq<Entry>>, bookToPages: map<Id, seq<Entry>>,
                     open: map<Id, bool>, s: Entry)
    returns (items: seq<TreeItem>)
    requires Grouped(l.AllBooks(), l.shelfOf, UNSHELVED, shelfToBooks)
    requires Grouped(l.pages, l.bookOf, MISC, bookToPages)
    ensures items == ShelfBlock(l, open, s)
  {
    hide FlatMap, Under;
    var books := if s.id in shelfToBooks then shelfToBooks[s.id] else [];
    var expanded := IsOpen(open, s.id);
    items := [TreeItem(s.id, s.title, 0, expanded, false, books != [])];
    NoBlocks(BookBlocks(l, open));
    if expanded {
      var below := [];
      assert books[..0] == [];
      for j := 0 to |books|
        invariant below == FlatMap(BookBlocks(l, open), books[..j])
      {
        var b := books[j];
        var pages := if b.id in bookToPages then bookToPages[b.id] else [];
        NextBlock(BookBlocks(l, open), books, j);
        below := below + [TreeItem(b.id, b.title, 1, IsOpen(open, b.id), false, pages != [])];
        if IsOpen(open, b.id) {
          below := below + PageItems(pages);
        }
        Assoc(FlatMap(BookBlocks(l, open), books[..j]), [BookItem(l, open, b)], PageItems(pages));
      }
      assert books[..|books|] == books;
      items := items + below;
    }
  }
}
