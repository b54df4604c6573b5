/** What the lines of the library tree say, in terms of the rows: where each line comes from, under
    which lines it stands, and in which order. */
module TreeLines {
  import opened Sequences
  import opened Partition
  import opened LibraryTree

  // ---------------------------------------------------------------- where something lives

  // The last edge of the relation from `id` leads to `home`; without one `home` is the fallback.
  ghost predicate LivesIn(edges: seq<EdgeRow>, relation: string, id: Id, home: Id, fallback: Id) {
    || (exists k :: 0 <= k < |edges| && edges[k] == EdgeRow(id, home, relation)
                    && forall m | k < m < |edges| :: edges[m].source != id || edges[m].relation != relation)
    || (home == fallback && forall m | 0 <= m < |edges| :: edges[m].source != id || edges[m].relation != relation)
  }

  lemma {:induction false} HomesAreLast(edges: seq<EdgeRow>, relation: string, id: Id, fallback: Id)
    ensures LivesIn(edges, relation, id, HomeOf(Homes(edges, relation), id, fallback), fallback)
  {
    if edges != [] {
      var n := |edges| - 1;
      HomesAreLast(edges[..n], relation, id, fallback);
      var e, home := edges[n], HomeOf(Homes(edges, relation), id, fallback);
      if e.relation == relation && e.source == id {
        assert edges[n] == EdgeRow(id, home, relation);
      } else {
        StillLivesThere(edges, relation, id, home, fallback);
      }
    }
  }

  lemma {:induction false} StillLivesThere(edges: seq<EdgeRow>, relation: string, id: Id, home: Id, fallback: Id)
    requires edges != [] && LivesIn(edges[..|edges| - 1], relation, id, home, fallback)
    requires var e := edges[|edges| - 1]; e.relation != relation || e.source != id
    ensures LivesIn(edges, relation, id, home, fallback)
  {
    var n := |edges| - 1;
    assert forall m | 0 <= m < n :: edges[..n][m] == edges[m];
    if k :| 0 <= k < n && edges[..n][k] == EdgeRow(id, home, relation)
            && forall m | k < m < n :: edges[..n][m].source != id || edges[..n][m].relation != relation {
      assert edges[k] == EdgeRow(id, home, relation);
      forall m | k < m < |edges| ensures edges[m].source != id || edges[m].relation != relation {
        if m < n { assert edges[..n][m] == edges[m]; }
      }
    } else {
      forall m | 0 <= m < |edges| ensures edges[m].source != id || edges[m].relation != relation {
        if m < n { assert edges[..n][m] == edges[m]; }
      }
    }
  }

  // ---------------------------------------------------------------- what a line says

  // The line spells a stored row of this kind.
  ghost predicate SpellsRow(nodes: seq<NodeRow>, kind: string, id: Id, title: string) {
    exists k :: 0 <= k < |nodes| && nodes[k] == NodeRow(id, kind, title)
  }

  lemma {:induction false} EntriesAreRows(nodes: seq<NodeRow>, kind: string, e: Entry)
    ensures e in Entries(nodes, kind) <==> SpellsRow(nodes, kind, e.id, e.title)
  {
    if nodes != [] {
      var n := |nodes| - 1;
      EntriesAreRows(nodes[..n], kind, e);
      assert nodes == nodes[..n] + [nodes[n]];
      if nodes[n] == NodeRow(e.id, kind, e.title) {
        assert SpellsRow(nodes, kind, e.id, e.title);
      }
      if k :| 0 <= k < n && nodes[..n][k] == NodeRow(e.id, kind, e.title) {
        assert nodes[k] == NodeRow(e.id, kind, e.title);
      }
      if k :| 0 <= k < |nodes| && nodes[k] == NodeRow(e.id, kind, e.title) && k < n {
        assert nodes[..n][k] == nodes[k];
      }
    }
  }

  lemma {:induction false} LastIsHome(edges: seq<EdgeRow>, relation: string, id: Id, home: Id, fallback: Id)
    requires LivesIn(edges, relation, id, home, fallback)
    ensures home == HomeOf(Homes(edges, relation), id, fallback)
  {
    HomesAreLast(edges, relation, id, fallback);
    var other := HomeOf(Homes(edges, relation), id, fallback);
    if k :| 0 <= k < |edges| && edges[k] == EdgeRow(id, home, relation)
            && forall m | k < m < |edges| :: edges[m].source != id || edges[m].relation != relation {
      if j :| 0 <= j < |edges| && edges[j] == EdgeRow(id, other, relation)
              && forall m | j < m < |edges| :: edges[m].source != id || edges[m].relation != relation {
        assert !(j < k) && !(k < j);
      }
    }
  }

  lemma {:induction false} UnderIff(entries: seq<Entry>, homes: map<Id, Id>, fallback: Id, home: Id, e: Entry)
    ensures e in Under(entries, homes, fallback, home) <==> e in entries && HomeOf(homes, e.id, fallback) == home
  {
    if entries != [] {
      var n := |entries| - 1;
      UnderIff(entries[..n], homes, fallback, home, e);
      assert entries == entries[..n] + [entries[n]];
    }
  }

  // Some stored page lives in this book.
  ghost predicate HasPages(nodes: seq<NodeRow>, edges: seq<EdgeRow>, book: Id) {
    exists k :: 0 <= k < |nodes| && nodes[k].kind == "page"
                && LivesIn(edges, "belongs_to", nodes[k].id, book, "miscellaneous_book")
  }

  // Some stored book, or the virtual one that holds pages, lives on this shelf.
  ghost predicate HasBooks(nodes: seq<NodeRow>, edges: seq<EdgeRow>, shelf: Id) {
    || (exists k :: 0 <= k < |nodes| && nodes[k].kind == "book"
                    && LivesIn(edges, "sits_on", nodes[k].id, shelf, "unshelved_shelf"))
    || (HasPages(nodes, edges, "miscellaneous_book")
        && LivesIn(edges, "sits_on", "miscellaneous_book", shelf, "unshelved_shelf"))
  }

  // A stored row of this kind lives under `home`.
  ghost predicate RowLives(nodes: seq<NodeRow>, edges: seq<EdgeRow>, kind: string, relation: string, home: Id,
                           fallback: Id) {
    exists k :: 0 <= k < |nodes| && nodes[k].kind == kind && LivesIn(edges, relation, nodes[k].id, home, fallback)
  }

  lemma {:induction false} SomeEntryIff(nodes: seq<NodeRow>, edges: seq<EdgeRow>, kind: string, relation: string,
                                        home: Id, fallback: Id)
    ensures Under(Entries(nodes, kind), Homes(edges, relation), fallback, home) != []
       <==> RowLives(nodes, edges, kind, relation, home, fallback)
  {
    hide LivesIn, Under, Entries, Homes, HomeOf;
    var entries, homes := Entries(nodes, kind), Homes(edges, relation);
    var on := Under(entries, homes, fallback, home);
    if on != [] {
      var e := on[0];
      UnderIff(entries, homes, fallback, home, e);
      EntriesAreRows(nodes, kind, e);
      var k :| 0 <= k < |nodes| && nodes[k] == NodeRow(e.id, kind, e.title);
      HomesAreLast(edges, relation, nodes[k].id, fallback);
    }
    if RowLives(nodes, edges, kind, relation, home, fallback) {
      var k :| 0 <= k < |nodes| && nodes[k].kind == kind && LivesIn(edges, relation, nodes[k].id, home, fallback);
      LastIsHome(edges, relation, nodes[k].id, home, fallback);
      var e := Entry(nodes[k].id, nodes[k].title);
      assert nodes[k] == NodeRow(e.id, kind, e.title);
      EntriesAreRows(nodes, kind, e);
      UnderIff(entries, homes, fallback, home, e);
    }
  }

  lemma {:induction false} BookHasPagesIff(nodes: seq<NodeRow>, edges: seq<EdgeRow>, book: Id)
    ensures Load(nodes, edges).PagesIn(book) != [] <==> HasPages(nodes, edges, book)
  {
    SomeEntryIff(nodes, edges, "page", "belongs_to", book, "miscellaneous_book");
  }

  lemma {:induction false} ShelfHasBooksIff(nodes: seq<NodeRow>, edges: seq<EdgeRow>, shelf: Id)
    ensures Load(nodes, edges).BooksOn(shelf) != [] <==> HasBooks(nodes, edges, shelf)
  {
    hide LivesIn, Entries, Homes, HasPages;
    var l := Load(nodes, edges);
    SomeEntryIff(nodes, edges, "book", "sits_on", shelf, "unshelved_shelf");
    BookHasPagesIff(nodes, edges, "miscellaneous_book");
    HomesAreLast(edges, "sits_on", "miscellaneous_book", "unshelved_shelf");
    if LivesIn(edges, "sits_on", "miscellaneous_book", shelf, "unshelved_shelf") {
      LastIsHome(edges, "sits_on", "miscellaneous_book", shelf, "unshelved_shelf");
    }
    LastUnder(l.books, Entry(MISC, "Miscellaneous (Unsorted)"), l.shelfOf, UNSHELVED, shelf);
  }

  lemma {:induction false} LastUnder(entries: seq<Entry>, e: Entry, homes: map<Id, Id>, fallback: Id, home: Id)
    ensures Under(entries + [e], homes, fallback, home)
         == Under(entries, homes, fallback, home) + (if HomeOf(homes, e.id, fallback) == home then [e] else [])
  {
    assert (entries + [e])[..|entries|] == entries;
  }

  // A line of the tree: a stored shelf, book or page under its level, or one of the virtual two,
  // marked as expanded and as having something below it exactly when that is so.
  ghost predicate SoundLine(nodes: seq<NodeRow>, edges: seq<EdgeRow>, open: map<Id, bool>, it: TreeItem) {
    || (it.level == 0 && !it.leaf && it.expanded == (it.id in open && open[it.id])
        && (it.hasChildren <==> HasBooks(nodes, edges, it.id))
        && (SpellsRow(nodes, "shelf", it.id, it.title)
            || (it.id == "unshelved_shelf" && it.title == "Unshelved Books" && it.hasChildren)))
    || (it.level == 1 && !it.leaf && it.expanded == (it.id in open && open[it.id])
        && (it.hasChildren <==> HasPages(nodes, edges, it.id))
        && (SpellsRow(nodes, "book", it.id, it.title)
            || (it.id == "miscellaneous_book" && it.title == "Miscellaneous (Unsorted)" && it.hasChildren)))
    || (it.level == 2 && it.leaf && !it.expanded && !it.hasChildren && SpellsRow(nodes, "page", it.id, it.title))
  }

  lemma {:induction false} PagesAreSound(nodes: seq<NodeRow>, edges: seq<EdgeRow>, open: map<Id, bool>, p: Entry, b: Id)
    requires p in Load(nodes, edges).PagesIn(b)
    ensures SoundLine(nodes, edges, open, PageItem(p)) && LivesIn(edges, "belongs_to", p.id, b, "miscellaneous_book")
  {
    var l := Load(nodes, edges);
    UnderIsPart(l.pages, l.bookOf, MISC, b, p);
    EntriesAreRows(nodes, "page", p);
    HomesAreLast(edges, "belongs_to", p.id, MISC);
  }

  lemma {:induction false} BooksAreSound(nodes: seq<NodeRow>, edges: seq<EdgeRow>, open: map<Id, bool>, b: Entry, s: Id)
    requires b in Load(nodes, edges).BooksOn(s)
    ensures SoundLine(nodes, edges, open, BookItem(Load(nodes, edges), open, b))
    ensures LivesIn(edges, "sits_on", b.id, s, "unshelved_shelf")
  {
    hide LivesIn, HasPages, HasBooks;
    BookHasPagesIff(nodes, edges, b.id);
    var l := Load(nodes, edges);
    UnderIsPart(l.AllBooks(), l.shelfOf, UNSHELVED, s, b);
    HomesAreLast(edges, "sits_on", b.id, UNSHELVED);
    EntriesAreRows(nodes, "book", b);
  }

  lemma {:induction false} ShelvesAreSound(nodes: seq<NodeRow>, edges: seq<EdgeRow>, open: map<Id, bool>, s: Entry)
    requires s in Load(nodes, edges).AllShelves()
    ensures SoundLine(nodes, edges, open, ShelfItem(Load(nodes, edges), open, s))
  {
    hide HasPages, HasBooks;
    ShelfHasBooksIff(nodes, edges, s.id);
    EntriesAreRows(nodes, "shelf", s);
  }

  // ---------------------------------------------------------------- where a line stands

  // The last book line above the `k`-th line is the one where that page lives.
  ghost predicate BookAbove(edges: seq<EdgeRow>, items: seq<TreeItem>, k: nat)
    requires k < |items|
  {
    exists j :: 0 <= j < k && items[j].level == 1
                && LivesIn(edges, "belongs_to", items[k].id, items[j].id, "miscellaneous_book")
                && forall m | j < m < k :: items[m].level == 2
  }

  // The last shelf line above the `k`-th line is the one where that book lives.
  ghost predicate ShelfAbove(edges: seq<EdgeRow>, items: seq<TreeItem>, k: nat)
    requires k < |items|
  {
    exists j :: 0 <= j < k && items[j].level == 0
                && LivesIn(edges, "sits_on", items[k].id, items[j].id, "unshelved_shelf")
                && forall m | j < m < k :: items[m].level != 0
  }

  // Lines below a shelf: its books, each with its pages below.
  ghost predicate OnShelf(nodes: seq<NodeRow>, edges: seq<EdgeRow>, open: map<Id, bool>, items: seq<TreeItem>,
                          shelf: Id)
  {
    forall k | 0 <= k < |items| ::
      && SoundLine(nodes, edges, open, items[k]) && (items[k].level == 1 || items[k].level == 2)
      && (items[k].level == 1 ==> LivesIn(edges, "sits_on", items[k].id, shelf, "unshelved_shelf"))
      && (items[k].level == 2 ==> BookAbove(edges, items, k))
  }

  ghost predicate InTree(nodes: seq<NodeRow>, edges: seq<EdgeRow>, open: map<Id, bool>, items: seq<TreeItem>) {
    forall k | 0 <= k < |items| ::
      && SoundLine(nodes, edges, open, items[k])
      && (items[k].level == 1 ==> ShelfAbove(edges, items, k))
      && (items[k].level == 2 ==> BookAbove(edges, items, k))
  }

  lemma {:induction false} AboveInLonger(edges: seq<EdgeRow>, front: seq<TreeItem>, items: seq<TreeItem>, k: nat)
    requires k < |items|
    ensures var all := front + items;
            && all[|front| + k] == items[k]
            && (BookAbove(edges, items, k) ==> BookAbove(edges, all, |front| + k))
            && (ShelfAbove(edges, items, k) ==> ShelfAbove(edges, all, |front| + k))
  {
    hide LivesIn;
    var all, n := front + items, |front|;
    assert forall m | n <= m < |all| :: all[m] == items[m - n];
    if BookAbove(edges, items, k) {
      var j :| 0 <= j < k && items[j].level == 1
               && LivesIn(edges, "belongs_to", items[k].id, items[j].id, "miscellaneous_book")
               && forall m | j < m < k :: items[m].level == 2;
      assert all[n + j] == items[j];
    }
    if ShelfAbove(edges, items, k) {
      var j :| 0 <= j < k && items[j].level == 0
               && LivesIn(edges, "sits_on", items[k].id, items[j].id, "unshelved_shelf")
               && forall m | j < m < k :: items[m].level != 0;
      assert all[n + j] == items[j];
    }
  }

  lemma {:induction false} AboveInFront(edges: seq<EdgeRow>, items: seq<TreeItem>, rest: seq<TreeItem>, k: nat)
    requires k < |items|
    ensures var all := items + rest;
            && all[k] == items[k]
            && (BookAbove(edges, items, k) ==> BookAbove(edges, all, k))
            && (ShelfAbove(edges, items, k) ==> ShelfAbove(edges, all, k))
  {
    hide LivesIn;
    var all := items + rest;
    assert forall m | 0 <= m < |items| :: all[m] == items[m];
  }

  lemma {:induction false} OnShelfConcat(nodes: seq<NodeRow>, edges: seq<EdgeRow>, open: map<Id, bool>,
                                         a: seq<TreeItem>, b: seq<TreeItem>, shelf: Id)
    requires OnShelf(nodes, edges, open, a, shelf) && OnShelf(nodes, edges, open, b, shelf)
    ensures OnShelf(nodes, edges, open, a + b, shelf)
  {
    hide LivesIn, SoundLine, BookAbove, ShelfAbove;
    forall k | 0 <= k < |a + b|
      ensures
        && SoundLine(nodes, edges, open, (a + b)[k]) && ((a + b)[k].level == 1 || (a + b)[k].level == 2)
        && ((a + b)[k].level == 1 ==> LivesIn(edges, "sits_on", (a + b)[k].id, shelf, "unshelved_shelf"))
        && ((a + b)[k].level == 2 ==> BookAbove(edges, a + b, k))
    {
      if k < |a| {
        AboveInFront(edges, a, b, k);
      } else {
        AboveInLonger(edges, a, b, k - |a|);
      }
    }
  }

  lemma {:induction false} InTreeConcat(nodes: seq<NodeRow>, edges: seq<EdgeRow>, open: map<Id, bool>,
                                        a: seq<TreeItem>, b: seq<TreeItem>)
    requires InTree(nodes, edges, open, a) && InTree(nodes, edges, open, b)
    ensures InTree(nodes, edges, open, a + b)
  {
    hide LivesIn, SoundLine, BookAbove, ShelfAbove;
    forall k | 0 <= k < |a + b|
      ensures
        && SoundLine(nodes, edges, open, (a + b)[k])
        && ((a + b)[k].level == 1 ==> ShelfAbove(edges, a + b, k))
        && ((a + b)[k].level == 2 ==> BookAbove(edges, a + b, k))
    {
      if k < |a| {
        AboveInFront(edges, a, b, k);
      } else {
        AboveInLonger(edges, a, b, k - |a|);
      }
    }
  }

  lemma {:induction false} BookOverPages(nodes: seq<NodeRow>, edges: seq<EdgeRow>, open: map<Id, bool>,
                                         items: seq<TreeItem>, shelf: Id)
    requires items != [] && items[0].level == 1 && SoundLine(nodes, edges, open, items[0])
    requires LivesIn(edges, "sits_on", items[0].id, shelf, "unshelved_shelf")
    requires forall k | 1 <= k < |items| ::
               && items[k].level == 2 && SoundLine(nodes, edges, open, items[k])
               && LivesIn(edges, "belongs_to", items[k].id, items[0].id, "miscellaneous_book")
    ensures OnShelf(nodes, edges, open, items, shelf)
  {
    hide LivesIn, SoundLine;
    forall k | 1 <= k < |items| ensures BookAbove(edges, items, k) {
      assert items[0].level == 1;
    }
  }

  lemma {:induction false} BookBlockStands(nodes: seq<NodeRow>, edges: seq<EdgeRow>, open: map<Id, bool>, b: Entry,
                                           s: Id)
    requires b in Load(nodes, edges).BooksOn(s)
    ensures OnShelf(nodes, edges, open, BookBlock(Load(nodes, edges), open, b), s)
  {
    hide LivesIn, SoundLine, OnShelf;
    var l := Load(nodes, edges);
    var items, ps := BookBlock(l, open, b), l.PagesIn(b.id);
    BooksAreSound(nodes, edges, open, b, s);
    forall k | 1 <= k < |items|
      ensures items[k].level == 2 && SoundLine(nodes, edges, open, items[k])
      ensures LivesIn(edges, "belongs_to", items[k].id, b.id, "miscellaneous_book")
    {
      assert items[k] == PageItem(ps[k - 1]);
      PagesAreSound(nodes, edges, open, ps[k - 1], b.id);
    }
    assert items[0].level == 1 && items[0].id == b.id;
    BookOverPages(nodes, edges, open, items, s);
  }

  lemma {:induction false} BookBlocksStand(nodes: seq<NodeRow>, edges: seq<EdgeRow>, open: map<Id, bool>,
                                           books: seq<Entry>, s: Id)
    requires forall b | b in books :: b in Load(nodes, edges).BooksOn(s)
    ensures OnShelf(nodes, edges, open, FlatMap(BookBlocks(Load(nodes, edges), open), books), s)
  {
    hide BookBlock, OnShelf;
    var l := Load(nodes, edges);
    if books == [] {
      NoLines(nodes, edges, open, s);
      NoBlocks(BookBlocks(l, open));
    } else {
      BookBlockStands(nodes, edges, open, books[0], s);
      BookBlocksStand(nodes, edges, open, books[1..], s);
      OnShelfConcat(nodes, edges, open, BookBlock(l, open, books[0]), FlatMap(BookBlocks(l, open), books[1..]), s);
    }
  }

  lemma {:induction false} NoLines(nodes: seq<NodeRow>, edges: seq<EdgeRow>, open: map<Id, bool>, s: Id)
    ensures OnShelf(nodes, edges, open, [], s) && InTree(nodes, edges, open, [])
  {
  }

  lemma {:induction false} ShelfOverBooks(nodes: seq<NodeRow>, edges: seq<EdgeRow>, open: map<Id, bool>,
                                          top: TreeItem, below: seq<TreeItem>)
    requires top.level == 0 && SoundLine(nodes, edges, open, top) && OnShelf(nodes, edges, open, below, top.id)
    ensures InTree(nodes, edges, open, [top] + below)
  {
    hide LivesIn, SoundLine, BookAbove;
    var items := [top] + below;
    assert forall k | 1 <= k < |items| :: items[k] == below[k - 1];
    forall k | 1 <= k < |items|
      ensures SoundLine(nodes, edges, open, items[k])
      ensures items[k].level == 1 ==> ShelfAbove(edges, items, k)
      ensures items[k].level == 2 ==> BookAbove(edges, items, k)
    {
      AboveInLonger(edges, [top], below, k - 1);
      assert items[0] == top;
    }
  }

  lemma {:induction false} ShelfBlockStands(nodes: seq<NodeRow>, edges: seq<EdgeRow>, open: map<Id, bool>, s: Entry)
    requires s in Load(nodes, edges).AllShelves()
    ensures InTree(nodes, edges, open, ShelfBlock(Load(nodes, edges), open, s))
  {
    hide LivesIn, SoundLine, FlatMap, OnShelf, InTree;
    var l := Load(nodes, edges);
    var below := if IsOpen(open, s.id) then FlatMap(BookBlocks(l, open), l.BooksOn(s.id)) else [];
    ShelvesAreSound(nodes, edges, open, s);
    BookBlocksStand(nodes, edges, open, l.BooksOn(s.id), s.id);
    NoLines(nodes, edges, open, s.id);
    ShelfOverBooks(nodes, edges, open, ShelfItem(l, open, s), below);
  }

  lemma {:induction false} ShelfBlocksStand(nodes: seq<NodeRow>, edges: seq<EdgeRow>, open: map<Id, bool>,
                                            shelves: seq<Entry>)
    requires forall s | s in shelves :: s in Load(nodes, edges).AllShelves()
    ensures InTree(nodes, edges, open, FlatMap(ShelfBlocks(Load(nodes, edges), open), shelves))
  {
    hide ShelfBlock, InTree;
    var l := Load(nodes, edges);
    if shelves == [] {
      NoLines(nodes, edges, open, "");
      NoBlocks(ShelfBlocks(l, open));
    } else {
      ShelfBlockStands(nodes, edges, open, shelves[0]);
      ShelfBlocksStand(nodes, edges, open, shelves[1..]);
      InTreeConcat(nodes, edges, open, ShelfBlock(l, open, shelves[0]), FlatMap(ShelfBlocks(l, open), shelves[1..]));
    }
  }

  /** For any rows and any nodes expanded: every line shows a stored shelf, book or page with its
      title, or one of the virtual two; each page stands below the book where it lives, with
      nothing but pages between, and each book below its shelf, with no other shelf between. */
  lemma {:induction false} LinesStandUnderTheirHomes(nodes: seq<NodeRow>, edges: seq<EdgeRow>, open: map<Id, bool>)
    ensures InTree(nodes, edges, open, Visible(Load(nodes, edges), open))
  {
    ShelfBlocksStand(nodes, edges, open, Load(nodes, edges).AllShelves());
  }

  // ---------------------------------------------------------------- in which order

  // The entries come in the order of their rows.
  ghost predicate InRowOrder(nodes: seq<NodeRow>, entries: seq<Entry>) {
    forall k, l, i, j | 0 <= k < l < |entries| && 0 <= i < |nodes| && 0 <= j < |nodes|
                        && nodes[i].id == entries[k].id && nodes[j].id == entries[l].id :: i < j
  }

  ghost predicate DistinctNodes(nodes: seq<NodeRow>) {
    forall i, j | 0 <= i < j < |nodes| :: nodes[i].id != nodes[j].id
  }

  lemma {:induction false} EntriesInOrder(nodes: seq<NodeRow>, n: nat, kind: string)
    requires DistinctNodes(nodes) && n <= |nodes|
    ensures InRowOrder(nodes, Entries(nodes[..n], kind))
    ensures forall e | e in Entries(nodes[..n], kind) :: exists i :: 0 <= i < n && nodes[i].id == e.id
  {
    if n == 0 {
      assert nodes[..0] == [];
    } else {
      EntriesInOrder(nodes, n - 1, kind);
      assert nodes[..n][..n - 1] == nodes[..n - 1];
      var before, all := Entries(nodes[..n - 1], kind), Entries(nodes[..n], kind);
      forall k, l, i, j | 0 <= k < l < |all| && 0 <= i < |nodes| && 0 <= j < |nodes|
                          && nodes[i].id == all[k].id && nodes[j].id == all[l].id
        ensures i < j
      {
        assert all[k] == before[k] && all[k] in before;
        var m :| 0 <= m < n - 1 && nodes[m].id == all[k].id;
        assert m == i;
        if l < |before| {
          assert all[l] == before[l];
        }
      }
    }
  }

  lemma {:induction false} UnderInOrder(nodes: seq<NodeRow>, entries: seq<Entry>, n: nat, homes: map<Id, Id>,
                                        fallback: Id, home: Id)
    requires n <= |entries| && InRowOrder(nodes, entries)
    ensures InRowOrder(nodes, Under(entries[..n], homes, fallback, home))
  {
    if n == 0 {
      assert entries[..0] == [];
    } else {
      UnderInOrder(nodes, entries, n - 1, homes, fallback, home);
      assert entries[..n][..n - 1] == entries[..n - 1];
      var before, all := Under(entries[..n - 1], homes, fallback, home), Under(entries[..n], homes, fallback, home);
      forall k, l, i, j | 0 <= k < l < |all| && 0 <= i < |nodes| && 0 <= j < |nodes|
                          && nodes[i].id == all[k].id && nodes[j].id == all[l].id
        ensures i < j
      {
        assert all[k] == before[k];
        UnderIff(entries[..n - 1], homes, fallback, home, before[k]);
        var m :| 0 <= m < n - 1 && entries[m] == before[k];
        if l < |before| {
          assert all[l] == before[l];
        } else {
          assert all[l] == entries[n - 1] && entries[m].id == nodes[i].id;
        }
      }
    }
  }

  /** Shelves, the books of a shelf and the pages of a book are listed in the order of their rows. */
  lemma {:induction false} ListsKeepRowOrder(nodes: seq<NodeRow>, edges: seq<EdgeRow>, home: Id)
    requires DistinctNodes(nodes)
    ensures InRowOrder(nodes, Load(nodes, edges).PagesIn(home)) && InRowOrder(nodes, Load(nodes, edges).shelves)
    ensures InRowOrder(nodes, Under(Load(nodes, edges).books, Load(nodes, edges).shelfOf, "unshelved_shelf", home))
  {
    hide Entries, Under, InRowOrder;
    var l := Load(nodes, edges);
    assert nodes[..|nodes|] == nodes && l.pages[..|l.pages|] == l.pages && l.books[..|l.books|] == l.books;
    EntriesInOrder(nodes, |nodes|, "shelf");
    EntriesInOrder(nodes, |nodes|, "page");
    EntriesInOrder(nodes, |nodes|, "book");
    UnderInOrder(nodes, l.pages, |l.pages|, l.bookOf, MISC, home);
    UnderInOrder(nodes, l.books, |l.books|, l.shelfOf, UNSHELVED, home);
  }

  // ---------------------------------------------------------------- a whole screen

  lemma {:induction false} EntriesSnoc(nodes: seq<NodeRow>, n: NodeRow)
    ensures forall kind :: Entries(nodes + [n], kind)
                        == Entries(nodes, kind) + (if n.kind == kind then [Entry(n.id, n.title)] else [])
  {
    assert (nodes + [n])[..|nodes|] == nodes;
  }

  lemma {:induction false} HomesSnoc(edges: seq<EdgeRow>, e: EdgeRow)
    ensures forall relation :: Homes(edges + [e], relation)
                            == if e.relation == relation then Homes(edges, relation)[e.source := e.target]
                               else Homes(edges, relation)
  {
    assert (edges + [e])[..|edges|] == edges;
  }

  const SCREEN_NODES: seq<NodeRow> :=
    [NodeRow("p", "page", "P"), NodeRow("b", "book", "B"), NodeRow("q", "page", "Q"), NodeRow("s", "shelf", "S"),
     NodeRow("r", "page", "R")]

  const SCREEN_EDGES: seq<EdgeRow> :=
    [EdgeRow("q", "b", "belongs_to"), EdgeRow("p", "b", "belongs_to"), EdgeRow("b", "s", "sits_on")]

  lemma {:induction false} ScreenIsLoaded()
    ensures Load(SCREEN_NODES, SCREEN_EDGES)
         == Library([Entry("s", "S")], [Entry("b", "B")], [Entry("p", "P"), Entry("q", "Q"), Entry("r", "R")],
                    map["b" := "s"], map["q" := "b", "p" := "b"])
  {
    hide Entries, Homes;
    ScreenEdgesAre();
    var n := SCREEN_NODES;
    NoRows();
    EntriesSnoc([], n[0]);
    EntriesSnoc([n[0]], n[1]);
    EntriesSnoc([n[0], n[1]], n[2]);
    EntriesSnoc([n[0], n[1], n[2]], n[3]);
    EntriesSnoc([n[0], n[1], n[2], n[3]], n[4]);
    assert [] + [n[0]] == [n[0]] && [n[0]] + [n[1]] == [n[0], n[1]] && [n[0], n[1]] + [n[2]] == [n[0], n[1], n[2]];
    assert [n[0], n[1], n[2]] + [n[3]] == [n[0], n[1], n[2], n[3]] && [n[0], n[1], n[2], n[3]] + [n[4]] == n;
  }

  lemma {:induction false} ScreenEdgesAre()
    ensures Homes(SCREEN_EDGES, "sits_on") == map["b" := "s"]
    ensures Homes(SCREEN_EDGES, "belongs_to") == map["q" := "b", "p" := "b"]
  {
    hide Homes;
    var e := SCREEN_EDGES;
    NoRows();
    HomesSnoc([], e[0]);
    HomesSnoc([e[0]], e[1]);
    HomesSnoc([e[0], e[1]], e[2]);
    assert [] + [e[0]] == [e[0]] && [e[0]] + [e[1]] == [e[0], e[1]] && [e[0], e[1]] + [e[2]] == e;
  }

  lemma {:induction false} NoRows()
    ensures forall kind :: Entries([], kind) == []
    ensures forall relation :: Homes([], relation) == map[]
  {
  }

  lemma {:induction false} ScreenLists(l: Library)
    requires l == Library([Entry("s", "S")], [Entry("b", "B")], [Entry("p", "P"), Entry("q", "Q"), Entry("r", "R")],
                          map["b" := "s"], map["q" := "b", "p" := "b"])
    ensures var misc := Entry("miscellaneous_book", "Miscellaneous (Unsorted)");
            && l.PagesIn("b") == [Entry("p", "P"), Entry("q", "Q")]
            && l.PagesIn("miscellaneous_book") == [Entry("r", "R")]
            && l.BooksOn("s") == [Entry("b", "B")] && l.BooksOn("unshelved_shelf") == [misc]
            && l.AllShelves() == [Entry("s", "S"), Entry("unshelved_shelf", "Unshelved Books")]
  {
    hide Under;
    var p, q, r := Entry("p", "P"), Entry("q", "Q"), Entry("r", "R");
    var b, misc := Entry("b", "B"), Entry("miscellaneous_book", "Miscellaneous (Unsorted)");
    UnderOfThree(p, q, r, l.bookOf, "miscellaneous_book", "b");
    UnderOfThree(p, q, r, l.bookOf, "miscellaneous_book", "miscellaneous_book");
    assert l.AllBooks() == [b, misc];
    UnderOfTwo(b, misc, l.shelfOf, "unshelved_shelf", "s");
    UnderOfTwo(b, misc, l.shelfOf, "unshelved_shelf", "unshelved_shelf");
  }

  lemma {:induction false} UnderOfTwo(x: Entry, y: Entry, homes: map<Id, Id>, fallback: Id, home: Id)
    ensures Under([x, y], homes, fallback, home)
         == (if HomeOf(homes, x.id, fallback) == home then [x] else [])
          + (if HomeOf(homes, y.id, fallback) == home then [y] else [])
  {
    hide Under;
    NoneUnder(homes, fallback, home);
    LastUnder([], x, homes, fallback, home);
    LastUnder([x], y, homes, fallback, home);
    assert [] + [x] == [x] && [x] + [y] == [x, y];
  }

  lemma {:induction false} UnderOfThree(x: Entry, y: Entry, z: Entry, homes: map<Id, Id>, fallback: Id, home: Id)
    ensures Under([x, y, z], homes, fallback, home)
         == (if HomeOf(homes, x.id, fallback) == home then [x] else [])
          + (if HomeOf(homes, y.id, fallback) == home then [y] else [])
          + (if HomeOf(homes, z.id, fallback) == home then [z] else [])
  {
    hide Under;
    UnderOfTwo(x, y, homes, fallback, home);
    LastUnder([x, y], z, homes, fallback, home);
    assert [x, y] + [z] == [x, y, z];
  }

  lemma {:induction false} NoneUnder(homes: map<Id, Id>, fallback: Id, home: Id)
    ensures Under([], homes, fallback, home) == []
  {
  }

  /** A whole screen: two pages in a book on a shelf, in the order of their rows whatever the order
      of their edges, and a page without a book. */
  lemma {:induction false} ScreenOfFive(open: map<Id, bool>)
    requires open == map["s" := true, "b" := true, "unshelved_shelf" := true, "miscellaneous_book" := true]
    ensures Visible(Load(SCREEN_NODES, SCREEN_EDGES), open)
         == [TreeItem("s", "S", 0, true, false, true), TreeItem("b", "B", 1, true, false, true),
             TreeItem("p", "P", 2, false, true, false), TreeItem("q", "Q", 2, false, true, false),
             TreeItem("unshelved_shelf", "Unshelved Books", 0, true, false, true),
             TreeItem("miscellaneous_book", "Miscellaneous (Unsorted)", 1, true, false, true),
             TreeItem("r", "R", 2, false, true, false)]
  {
    hide Under, Entries, Homes, FlatMap;
    ScreenIsLoaded();
    var l := Load(SCREEN_NODES, SCREEN_EDGES);
    ScreenLists(l);
    var s, u := Entry("s", "S"), Entry("unshelved_shelf", "Unshelved Books");
    var b, misc := Entry("b", "B"), Entry("miscellaneous_book", "Miscellaneous (Unsorted)");
    FlatMapCons(ShelfBlocks(l, open), s, [u]);
    FlatMapOne(ShelfBlocks(l, open), u);
    assert [s] + [u] == [s, u];
    FlatMapOne(BookBlocks(l, open), b);
    FlatMapOne(BookBlocks(l, open), misc);
  }
}
