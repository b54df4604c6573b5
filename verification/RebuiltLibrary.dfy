/** From the store to the screen: when the browser lists every page and book exactly once, whatever
    order the database returns the rows in, and what that means after a rebuild. */
module RebuiltLibrary {
  import opened Sequences
  import opened Partition
  import opened GraphIds
  import GraphBuilder
  import opened GraphForest
  import opened LibraryTree

  type Nodes = map<Id, GraphBuilder.Node>
  type Edges = map<Id, GraphBuilder.Edge>

  // ---------------------------------------------------------------- rows of a store

  // A query returns every stored row once, in some order.
  ghost predicate Lists(keys: seq<Id>, stored: set<Id>) {
    Distinct(keys) && forall id :: id in keys <==> id in stored
  }

  function NodeRows(nodes: Nodes, keys: seq<Id>): (r: seq<NodeRow>)
    requires forall id | id in keys :: id in nodes
    ensures |r| == |keys|
    ensures forall i | 0 <= i < |r| :: r[i].id == keys[i] && r[i].kind == nodes[keys[i]].kind
  {
    seq(|keys|, i requires 0 <= i < |keys| => NodeRow(keys[i], nodes[keys[i]].kind, nodes[keys[i]].title))
  }

  function RowOf(e: GraphBuilder.Edge): EdgeRow {
    EdgeRow(e.source, e.target, e.relation)
  }

  function EdgeRows(edges: Edges, keys: seq<Id>): (r: seq<EdgeRow>)
    requires forall id | id in keys :: id in edges
    ensures |r| == |keys| && forall i | 0 <= i < |r| :: r[i] == RowOf(edges[keys[i]])
  {
    seq(|keys|, i requires 0 <= i < |keys| => RowOf(edges[keys[i]]))
  }

  /** What the browser loads when the rows come in this order. */
  ghost function Loaded(nodes: Nodes, edges: Edges, nodeKeys: seq<Id>, edgeKeys: seq<Id>): Library
    requires Lists(nodeKeys, nodes.Keys) && Lists(edgeKeys, edges.Keys)
  {
    Load(NodeRows(nodes, nodeKeys), EdgeRows(edges, edgeKeys))
  }

  /** Listed exactly once in the fully expanded tree, whatever the order of the rows. */
  ghost predicate AlwaysOnce(nodes: Nodes, edges: Edges, level: nat, id: Id) {
    forall nodeKeys, edgeKeys | Lists(nodeKeys, nodes.Keys) && Lists(edgeKeys, edges.Keys) ::
      ListedOnce(Loaded(nodes, edges, nodeKeys, edgeKeys), level, id)
  }

  ghost predicate ListedOnce(l: Library, level: nat, id: Id) {
    forall open | AllOpen(l, open) :: Shown(Visible(l, open), level, id) == 1
  }

  predicate IsKind(nodes: Nodes, id: Id, kind: string) {
    id in nodes && nodes[id].kind == kind
  }

  lemma {:induction false} EntriesAreRows(rows: seq<NodeRow>, kind: string)
    requires forall i, j | 0 <= i < j < |rows| :: rows[i].id != rows[j].id
    ensures DistinctEntries(Entries(rows, kind))
    ensures forall e | e in Entries(rows, kind) ::
              exists i :: 0 <= i < |rows| && rows[i].id == e.id && rows[i].kind == kind
    ensures forall i | 0 <= i < |rows| && rows[i].kind == kind :: Holds(Entries(rows, kind), rows[i].id)
  {
    if rows != [] {
      var n := |rows| - 1;
      EntriesAreRows(rows[..n], kind);
      var front, all := Entries(rows[..n], kind), Entries(rows, kind);
      forall e | e in all ensures exists i :: 0 <= i < |rows| && rows[i].id == e.id && rows[i].kind == kind {
        if e in front {
          var i :| 0 <= i < n && rows[..n][i].id == e.id && rows[..n][i].kind == kind;
          assert rows[i].id == e.id;
        }
      }
      forall i | 0 <= i < |rows| && rows[i].kind == kind ensures Holds(all, rows[i].id) {
        if i < n {
          assert rows[..n][i] == rows[i];
          var k :| 0 <= k < |front| && front[k].id == rows[i].id;
          assert all[k] == front[k];
        } else {
          assert all[|front|].id == rows[n].id;
        }
      }
      forall i, j | 0 <= i < j < |all| ensures all[i].id != all[j].id {
        if j == |front| {
          assert all[i] == front[i] && front[i] in front;
        }
      }
    }
  }

  lemma {:induction false} LoadedNodes(nodes: Nodes, edges: Edges, nodeKeys: seq<Id>, edgeKeys: seq<Id>)
    requires Lists(nodeKeys, nodes.Keys) && Lists(edgeKeys, edges.Keys)
    ensures var l := Loaded(nodes, edges, nodeKeys, edgeKeys);
            && DistinctRows(l)
            && (forall id :: Holds(l.pages, id) <==> IsKind(nodes, id, "page"))
            && (forall id :: Holds(l.books, id) <==> IsKind(nodes, id, "book"))
            && (forall id :: Holds(l.shelves, id) <==> IsKind(nodes, id, "shelf"))
  {
    hide DistinctEntries, Entries, Homes;
    var rows := NodeRows(nodes, nodeKeys);
    forall kind ensures DistinctEntries(Entries(rows, kind))
                     && forall id :: Holds(Entries(rows, kind), id) <==> IsKind(nodes, id, kind)
    {
      EntriesAreRows(rows, kind);
      forall id ensures Holds(Entries(rows, kind), id) <==> IsKind(nodes, id, kind) {
        if IsKind(nodes, id, kind) {
          var i :| 0 <= i < |nodeKeys| && nodeKeys[i] == id;
          assert rows[i].kind == kind;
        }
        if Holds(Entries(rows, kind), id) {
          var k :| 0 <= k < |Entries(rows, kind)| && Entries(rows, kind)[k].id == id;
          assert Entries(rows, kind)[k] in Entries(rows, kind);
        }
      }
    }
  }

  // ---------------------------------------------------------------- where a row may live

  ghost predicate Leads(edges: Edges, x: Id, relation: string, y: Id) {
    exists id :: id in edges && RowOf(edges[id]) == EdgeRow(x, y, relation)
  }

  /** With several edges of a relation the last row decides, and the order is not fixed. */
  ghost predicate MayLive(edges: Edges, x: Id, relation: string, fallback: Id, y: Id) {
    Leads(edges, x, relation, y) || (y == fallback && forall z :: !Leads(edges, x, relation, z))
  }

  /** The home the browser reads is the target of some row, if there is any. */
  lemma {:induction false} HomeIsSomeRow(rows: seq<EdgeRow>, relation: string, x: Id)
    ensures x in Homes(rows, relation) <==>
        exists i :: 0 <= i < |rows| && rows[i].relation == relation && rows[i].source == x
    ensures x in Homes(rows, relation) ==> EdgeRow(x, Homes(rows, relation)[x], relation) in rows
  {
    if rows != [] {
      var n := |rows| - 1;
      HomeIsSomeRow(rows[..n], relation, x);
      if i :| 0 <= i < n && rows[i].relation == relation && rows[i].source == x {
        assert rows[..n][i] == rows[i];
      }
    }
  }

  /** The last row of a relation from `x` decides where `x` lives. */
  lemma {:induction false} LastRowDecides(rows: seq<EdgeRow>, relation: string, x: Id, k: nat)
    requires k < |rows| && rows[k].relation == relation && rows[k].source == x
    requires forall j | k < j < |rows| :: rows[j].relation != relation || rows[j].source != x
    ensures x in Homes(rows, relation) && Homes(rows, relation)[x] == rows[k].target
  {
    var n := |rows| - 1;
    if k < n {
      LastRowDecides(rows[..n], relation, x, k);
    }
  }

  lemma {:induction false} HomeMayBe(edges: Edges, keys: seq<Id>, x: Id, relation: string, fallback: Id)
    requires Lists(keys, edges.Keys)
    ensures MayLive(edges, x, relation, fallback, HomeOf(Homes(EdgeRows(edges, keys), relation), x, fallback))
  {
    var rows := EdgeRows(edges, keys);
    HomeIsSomeRow(rows, relation, x);
    if x in Homes(rows, relation) {
      var row := EdgeRow(x, Homes(rows, relation)[x], relation);
      var i :| 0 <= i < |rows| && rows[i] == row;
      assert RowOf(edges[keys[i]]) == row;
    }
    forall z | Leads(edges, x, relation, z) ensures x in Homes(rows, relation) {
      var id :| id in edges && RowOf(edges[id]) == EdgeRow(x, z, relation);
      var i :| 0 <= i < |keys| && keys[i] == id;
      assert rows[i].relation == relation && rows[i].source == x;
    }
  }

  lemma {:induction false} Enumerate(stored: set<Id>) returns (keys: seq<Id>)
    ensures Lists(keys, stored)
  {
    keys := [];
    if stored != {} {
      var id :| id in stored;
      var rest := Enumerate(stored - {id});
      keys := rest + [id];
    }
  }

  // An order in which the given edges come last.
  lemma {:induction false} Latest(edges: Edges, one: Id, two: Id) returns (keys: seq<Id>)
    requires one in edges && two in edges && one != two
    ensures Lists(keys, edges.Keys) && |keys| >= 2 && keys[|keys| - 2] == one && keys[|keys| - 1] == two
  {
    var rest := Enumerate(edges.Keys - {one, two});
    keys := rest + [one, two];
  }

  lemma {:induction false} Last(edges: Edges, one: Id) returns (keys: seq<Id>)
    requires one in edges
    ensures Lists(keys, edges.Keys) && |keys| >= 1 && keys[|keys| - 1] == one
  {
    var rest := Enumerate(edges.Keys - {one});
    keys := rest + [one];
  }

  // If `x` may live in `y` and `y` in `z`, some order of the rows puts both there.
  lemma {:induction false} SomeOrderPuts(edges: Edges, x: Id, y: Id, z: Id) returns (keys: seq<Id>)
    requires MayLive(edges, x, "belongs_to", MISC, y) && MayLive(edges, y, "sits_on", UNSHELVED, z)
    ensures Lists(keys, edges.Keys)
    ensures var rows := EdgeRows(edges, keys);
            HomeOf(Homes(rows, "belongs_to"), x, MISC) == y && HomeOf(Homes(rows, "sits_on"), y, UNSHELVED) == z
  {
    hide Lists, Homes;
    if Leads(edges, x, "belongs_to", y) && Leads(edges, y, "sits_on", z) {
      var one :| one in edges && RowOf(edges[one]) == EdgeRow(x, y, "belongs_to");
      var two :| two in edges && RowOf(edges[two]) == EdgeRow(y, z, "sits_on");
      keys := Latest(edges, one, two);
      KeysAreStored(keys, edges.Keys);
      LastRowDecides(EdgeRows(edges, keys), "belongs_to", x, |keys| - 2);
      LastRowDecides(EdgeRows(edges, keys), "sits_on", y, |keys| - 1);
    } else if Leads(edges, x, "belongs_to", y) {
      var one :| one in edges && RowOf(edges[one]) == EdgeRow(x, y, "belongs_to");
      keys := Last(edges, one);
      KeysAreStored(keys, edges.Keys);
      LastRowDecides(EdgeRows(edges, keys), "belongs_to", x, |keys| - 1);
      NoEdgeNoHome(edges, keys, y, "sits_on", UNSHELVED);
    } else if Leads(edges, y, "sits_on", z) {
      var two :| two in edges && RowOf(edges[two]) == EdgeRow(y, z, "sits_on");
      keys := Last(edges, two);
      KeysAreStored(keys, edges.Keys);
      LastRowDecides(EdgeRows(edges, keys), "sits_on", y, |keys| - 1);
      NoEdgeNoHome(edges, keys, x, "belongs_to", MISC);
    } else {
      keys := Enumerate(edges.Keys);
      KeysAreStored(keys, edges.Keys);
      NoEdgeNoHome(edges, keys, x, "belongs_to", MISC);
      NoEdgeNoHome(edges, keys, y, "sits_on", UNSHELVED);
    }
  }

  lemma {:induction false} KeysAreStored(keys: seq<Id>, stored: set<Id>)
    requires Lists(keys, stored)
    ensures forall id | id in keys :: id in stored
  {
  }

  lemma {:induction false} NoEdgeNoHome(edges: Edges, keys: seq<Id>, x: Id, relation: string, fallback: Id)
    requires Lists(keys, edges.Keys) && forall z :: !Leads(edges, x, relation, z)
    ensures HomeOf(Homes(EdgeRows(edges, keys), relation), x, fallback) == fallback
  {
    HomeMayBe(edges, keys, x, relation, fallback);
  }

  // ---------------------------------------------------------------- when nothing is lost or doubled

  /** Wherever the book may sit is a stored shelf or the virtual one, and not both. */
  ghost predicate ShelvesSafe(nodes: Nodes, edges: Edges, book: Id) {
    forall s | MayLive(edges, book, "sits_on", UNSHELVED, s) :: OneOf(IsKind(nodes, s, "shelf"), s == UNSHELVED)
  }

  ghost predicate BookSafe(nodes: Nodes, edges: Edges, book: Id) {
    OneOf(IsKind(nodes, book, "book"), book == MISC) && ShelvesSafe(nodes, edges, book)
  }

  ghost predicate PageSafe(nodes: Nodes, edges: Edges, page: Id) {
    forall b | MayLive(edges, page, "belongs_to", MISC, b) :: BookSafe(nodes, edges, b)
  }

  lemma {:induction false} SomeOpening(l: Library) returns (open: map<Id, bool>)
    ensures AllOpen(l, open)
  {
    var ids := IdSet(l.AllShelves()) + IdSet(l.AllBooks());
    open := map id | id in ids :: true;
    AllMarked(l, open);
  }

  lemma {:induction false} ListedIff(nodes: Nodes, edges: Edges, nodeKeys: seq<Id>, edgeKeys: seq<Id>, page: Id)
    requires Lists(nodeKeys, nodes.Keys) && Lists(edgeKeys, edges.Keys) && IsKind(nodes, page, "page")
    ensures var l := Loaded(nodes, edges, nodeKeys, edgeKeys);
            ListedOnce(l, 2, page) <==> BookShownOnce(l, l.BookHome(page))
  {
    hide Visible, Shown, AllOpen, Homes, Entries, Lists, BookShownOnce, DistinctEntries, Holds;
    var l := Loaded(nodes, edges, nodeKeys, edgeKeys);
    LoadedNodes(nodes, edges, nodeKeys, edgeKeys);
    var some := SomeOpening(l);
    forall open | AllOpen(l, open)
      ensures Shown(Visible(l, open), 2, page) == 1 <==> BookShownOnce(l, l.BookHome(page))
    {
      PageListedOnceIff(l, open, page);
    }
  }

  /** In any store: a page is listed exactly once for every order of the rows if and only if each
      book and shelf it may live under is stored or the virtual one. */
  lemma {:induction false} PageAlwaysOnceIff(nodes: Nodes, edges: Edges, page: Id)
    requires IsKind(nodes, page, "page")
    ensures AlwaysOnce(nodes, edges, 2, page) <==> PageSafe(nodes, edges, page)
  {
    hide ListedOnce, MayLive, Homes, Entries, Lists, Holds;
    if PageSafe(nodes, edges, page) {
      forall nodeKeys, edgeKeys | Lists(nodeKeys, nodes.Keys) && Lists(edgeKeys, edges.Keys)
        ensures ListedOnce(Loaded(nodes, edges, nodeKeys, edgeKeys), 2, page)
      {
        var l := Loaded(nodes, edges, nodeKeys, edgeKeys);
        LoadedNodes(nodes, edges, nodeKeys, edgeKeys);
        ListedIff(nodes, edges, nodeKeys, edgeKeys, page);
        HomesMayBe(nodes, edges, nodeKeys, edgeKeys, page);
      }
    }
    if AlwaysOnce(nodes, edges, 2, page) {
      forall b, s | MayLive(edges, page, "belongs_to", MISC, b) && MayLive(edges, b, "sits_on", UNSHELVED, s)
        ensures OneOf(IsKind(nodes, b, "book"), b == MISC) && OneOf(IsKind(nodes, s, "shelf"), s == UNSHELVED)
      {
        var nodeKeys := Enumerate(nodes.Keys);
        var edgeKeys := SomeOrderPuts(edges, page, b, s);
        LoadedNodes(nodes, edges, nodeKeys, edgeKeys);
        ListedIff(nodes, edges, nodeKeys, edgeKeys, page);
        assert ListedOnce(Loaded(nodes, edges, nodeKeys, edgeKeys), 2, page);
      }
      forall b | MayLive(edges, page, "belongs_to", MISC, b) ensures BookSafe(nodes, edges, b) {
        var s := SomeHome(edges, b, "sits_on", UNSHELVED);
      }
    }
  }

  lemma {:induction false} HomesMayBe(nodes: Nodes, edges: Edges, nodeKeys: seq<Id>, edgeKeys: seq<Id>, page: Id)
    requires Lists(nodeKeys, nodes.Keys) && Lists(edgeKeys, edges.Keys)
    ensures var l := Loaded(nodes, edges, nodeKeys, edgeKeys);
            && MayLive(edges, page, "belongs_to", MISC, l.BookHome(page))
            && (forall b :: MayLive(edges, b, "sits_on", UNSHELVED, l.ShelfHome(b)))
  {
    hide MayLive, Homes, Entries, Lists;
    HomeMayBe(edges, edgeKeys, page, "belongs_to", MISC);
    forall b ensures MayLive(edges, b, "sits_on", UNSHELVED, Loaded(nodes, edges, nodeKeys, edgeKeys).ShelfHome(b)) {
      HomeMayBe(edges, edgeKeys, b, "sits_on", UNSHELVED);
    }
  }

  lemma {:induction false} SomeHome(edges: Edges, x: Id, relation: string, fallback: Id) returns (y: Id)
    ensures MayLive(edges, x, relation, fallback, y)
  {
    if z :| Leads(edges, x, relation, z) {
      y := z;
    } else {
      y := fallback;
    }
  }

  /** The companion for books: each shelf it may sit on is stored or the virtual one, and if it
      bears the virtual book's id, no page may live there. */
  lemma {:induction false} BookAlwaysOnceIff(nodes: Nodes, edges: Edges, book: Id)
    requires IsKind(nodes, book, "book")
    ensures AlwaysOnce(nodes, edges, 1, book) <==>
              && ShelvesSafe(nodes, edges, book)
              && (book == MISC ==> forall p | IsKind(nodes, p, "page") :: !MayLive(edges, p, "belongs_to", MISC, MISC))
  {
    hide ListedOnce, MayLive, Homes, Entries, Lists, Holds;
    if ShelvesSafe(nodes, edges, book)
       && (book == MISC ==> forall p | IsKind(nodes, p, "page") :: !MayLive(edges, p, "belongs_to", MISC, MISC)) {
      forall nodeKeys, edgeKeys | Lists(nodeKeys, nodes.Keys) && Lists(edgeKeys, edges.Keys)
        ensures ListedOnce(Loaded(nodes, edges, nodeKeys, edgeKeys), 1, book)
      {
        BookListedIff(nodes, edges, nodeKeys, edgeKeys, book);
        HomesMayBe(nodes, edges, nodeKeys, edgeKeys, book);
        if p :| IsKind(nodes, p, "page") && Loaded(nodes, edges, nodeKeys, edgeKeys).BookHome(p) == MISC {
          HomesMayBe(nodes, edges, nodeKeys, edgeKeys, p);
        }
      }
    }
    if AlwaysOnce(nodes, edges, 1, book) {
      var nodeKeys := Enumerate(nodes.Keys);
      forall s | MayLive(edges, book, "sits_on", UNSHELVED, s)
        ensures OneOf(IsKind(nodes, s, "shelf"), s == UNSHELVED)
      {
        var edgeKeys := OrderThatShelves(edges, book, s);
        BookListedIff(nodes, edges, nodeKeys, edgeKeys, book);
        assert ListedOnce(Loaded(nodes, edges, nodeKeys, edgeKeys), 1, book);
      }
      forall p | book == MISC && IsKind(nodes, p, "page") ensures !MayLive(edges, p, "belongs_to", MISC, MISC) {
        if MayLive(edges, p, "belongs_to", MISC, MISC) {
          var s := SomeHome(edges, MISC, "sits_on", UNSHELVED);
          var edgeKeys := SomeOrderPuts(edges, p, MISC, s);
          assert ListedOnce(Loaded(nodes, edges, nodeKeys, edgeKeys), 1, book);
          BookListedIff(nodes, edges, nodeKeys, edgeKeys, book);
        }
      }
    }
  }

  lemma {:induction false} OrderThatShelves(edges: Edges, book: Id, s: Id) returns (keys: seq<Id>)
    requires MayLive(edges, book, "sits_on", UNSHELVED, s)
    ensures Lists(keys, edges.Keys) && HomeOf(Homes(EdgeRows(edges, keys), "sits_on"), book, UNSHELVED) == s
  {
    if Leads(edges, book, "sits_on", s) {
      var one :| one in edges && RowOf(edges[one]) == EdgeRow(book, s, "sits_on");
      keys := Last(edges, one);
      LastRowDecides(EdgeRows(edges, keys), "sits_on", book, |keys| - 1);
    } else {
      keys := Enumerate(edges.Keys);
      NoEdgeNoHome(edges, keys, book, "sits_on", UNSHELVED);
    }
  }

  lemma {:induction false} BookListedIff(nodes: Nodes, edges: Edges, nodeKeys: seq<Id>, edgeKeys: seq<Id>, book: Id)
    requires Lists(nodeKeys, nodes.Keys) && Lists(edgeKeys, edges.Keys) && IsKind(nodes, book, "book")
    ensures var l := Loaded(nodes, edges, nodeKeys, edgeKeys);
            ListedOnce(l, 1, book) <==>
              && OneOf(IsKind(nodes, l.ShelfHome(book), "shelf"), l.ShelfHome(book) == UNSHELVED)
              && (book == MISC ==> forall p | IsKind(nodes, p, "page") :: l.BookHome(p) != MISC)
  {
    hide Visible, Shown, AllOpen, Homes, Entries, Lists, DistinctEntries, Holds;
    var l := Loaded(nodes, edges, nodeKeys, edgeKeys);
    LoadedNodes(nodes, edges, nodeKeys, edgeKeys);
    var some := SomeOpening(l);
    EmptyIff(l, MISC);
    forall open | AllOpen(l, open)
      ensures Shown(Visible(l, open), 1, book) == 1 <==>
                && (book == MISC ==> l.PagesIn(MISC) == [])
                && OneOf(Holds(l.shelves, l.ShelfHome(book)), l.ShelfHome(book) == UNSHELVED)
    {
      BookListedOnceIff(l, open, book);
    }
  }

  lemma {:induction false} EmptyIff(l: Library, book: Id)
    ensures l.PagesIn(book) == [] <==> forall p | Holds(l.pages, p) :: l.BookHome(p) != book
  {
    UnderEmptyIff(l.pages, l.bookOf, MISC, book);
  }

  lemma {:induction false} UnderEmptyIff(entries: seq<Entry>, homes: map<Id, Id>, fallback: Id, home: Id)
    ensures Under(entries, homes, fallback, home) == [] <==>
        forall p | Holds(entries, p) :: HomeOf(homes, p, fallback) != home
  {
    if entries != [] {
      var n := |entries| - 1;
      UnderEmptyIff(entries[..n], homes, fallback, home);
      assert entries[n].id == entries[n].id && Holds(entries, entries[n].id);
      forall p ensures Holds(entries, p) <==> Holds(entries[..n], p) || entries[n].id == p {
        if i :| 0 <= i < n && entries[i].id == p {
          assert entries[..n][i].id == p;
        }
        if i :| 0 <= i < n && entries[..n][i].id == p {
          assert entries[i].id == p;
        }
      }
    }
  }

  // ---------------------------------------------------------------- after a rebuild

  // An edge of the relation from `x` that the builder did not draw and no sync removes.
  ghost predicate Foreign(edges: Edges, id: Id, x: Id, relation: string) {
    id in edges && !OwnedEdgeId(id) && edges[id].source == x && edges[id].relation == relation
  }

  lemma {:induction false} HomesAre(edges: Edges, x: Id, relation: string, fallback: Id, home: Id, y: Id)
    requires OneHome(edges, x, relation, home)
    ensures MayLive(edges, x, relation, fallback, y) <==>
              y == home || exists id :: Foreign(edges, id, x, relation) && edges[id].target == y
  {
    hide OwnedEdgeId;
    var one :| one in edges && OwnedEdgeId(one)
      && edges[one].source == x && edges[one].relation == relation && edges[one].target == home
      && forall other | other in edges && OwnedEdgeId(other)
           && edges[other].source == x && edges[other].relation == relation :: other == one;
    assert RowOf(edges[one]) == EdgeRow(x, home, relation);
    assert Leads(edges, x, relation, home);
    if Leads(edges, x, relation, y) {
      var id :| id in edges && RowOf(edges[id]) == EdgeRow(x, y, relation);
      if !OwnedEdgeId(id) {
        assert Foreign(edges, id, x, relation);
      }
    }
    if id :| Foreign(edges, id, x, relation) && edges[id].target == y {
      assert RowOf(edges[id]) == EdgeRow(x, y, relation);
    }
  }

  lemma {:induction false} VirtualIdsAreNotGenerated()
    ensures !Generated("book-", MISC) && !Generated("shelf-", UNSHELVED)
  {
    assert MISC[0] == 'm' && UNSHELVED[0] == 'u';
  }

  /** After a rebuild a book the builder made is safe exactly when each foreign sits_on edge from
      it leads to a stored or the virtual shelf. */
  lemma {:induction false} GeneratedBookSafeIff(nodes: Nodes, edges: Edges, book: Id)
    requires IsForest(nodes, edges) && Stored(nodes, book, "book") && Generated("book-", book)
    ensures BookSafe(nodes, edges, book) <==>
              forall id | Foreign(edges, id, book, "sits_on") ::
                OneOf(IsKind(nodes, edges[id].target, "shelf"), edges[id].target == UNSHELVED)
  {
    hide OneHome, OwnedEdgeId, MayLive, Generated;
    assert BookHasShelf(nodes, edges, book);
    var shelf :| OneHome(edges, book, "sits_on", shelf) && Stored(nodes, shelf, "shelf") && Generated("shelf-", shelf);
    VirtualIdsAreNotGenerated();
    forall s ensures MayLive(edges, book, "sits_on", UNSHELVED, s) <==>
                       s == shelf || exists id :: Foreign(edges, id, book, "sits_on") && edges[id].target == s
    {
      HomesAre(edges, book, "sits_on", UNSHELVED, shelf, s);
    }
  }

  /** After a rebuild a page is listed exactly once for every order of the rows if and only if its
      generated book is safe and each foreign belongs_to edge from it leads to a safe book. */
  lemma {:induction false} RebuiltPageOnceIff(nodes: Nodes, edges: Edges, page: Id, book: Id)
    requires IsForest(nodes, edges) && IsKind(nodes, page, "page")
    requires OneHome(edges, page, "belongs_to", book)
    ensures AlwaysOnce(nodes, edges, 2, page) <==>
              && BookSafe(nodes, edges, book)
              && forall id | Foreign(edges, id, page, "belongs_to") :: BookSafe(nodes, edges, edges[id].target)
  {
    hide OneHome, OwnedEdgeId, MayLive, BookSafe, AlwaysOnce, IsForest;
    PageAlwaysOnceIff(nodes, edges, page);
    forall b ensures MayLive(edges, page, "belongs_to", MISC, b) <==>
                       b == book || exists id :: Foreign(edges, id, page, "belongs_to") && edges[id].target == b
    {
      HomesAre(edges, page, "belongs_to", MISC, book, b);
    }
  }

  /** After a rebuild a book the builder made is listed exactly once for every order of the rows
      if and only if each foreign sits_on edge from it leads to a stored or the virtual shelf. */
  lemma {:induction false} RebuiltBookOnceIff(nodes: Nodes, edges: Edges, book: Id)
    requires IsForest(nodes, edges) && Stored(nodes, book, "book") && Generated("book-", book)
    ensures AlwaysOnce(nodes, edges, 1, book) <==>
              forall id | Foreign(edges, id, book, "sits_on") ::
                OneOf(IsKind(nodes, edges[id].target, "shelf"), edges[id].target == UNSHELVED)
  {
    hide OneHome, OwnedEdgeId, MayLive, AlwaysOnce, IsForest, Generated, ShelvesSafe;
    VirtualIdsAreNotGenerated();
    BookAlwaysOnceIff(nodes, edges, book);
    GeneratedBookSafeIff(nodes, edges, book);
  }

  /** Where nobody else has drawn edges, the page stands once, under the book that the builder
      gave it, and that book on the shelf that the builder gave it. */
  lemma {:induction false} RebuiltPageUnderItsBook(nodes: Nodes, edges: Edges, nodeKeys: seq<Id>, edgeKeys: seq<Id>,
                                                   open: map<Id, bool>,
                                page: Id, book: Id, shelf: Id)
    requires IsForest(nodes, edges) && IsKind(nodes, page, "page")
    requires Lists(nodeKeys, nodes.Keys) && Lists(edgeKeys, edges.Keys)
    requires OneHome(edges, page, "belongs_to", book) && OneHome(edges, book, "sits_on", shelf)
    requires forall id :: !Foreign(edges, id, page, "belongs_to") && !Foreign(edges, id, book, "sits_on")
    requires AllOpen(Loaded(nodes, edges, nodeKeys, edgeKeys), open)
    ensures var l := Loaded(nodes, edges, nodeKeys, edgeKeys);
            && l.BookHome(page) == book && l.ShelfHome(book) == shelf
            && Shown(Visible(l, open), 2, page) == 1
            && forall b: Entry | b.id == book && IsOpen(open, book) :: Shown(BookBlock(l, open, b), 2, page) == 1
  {
    hide OneHome, OwnedEdgeId, MayLive, BookSafe, Visible, Shown, Homes, Entries, Lists, AllOpen, Generated,
         BookBlock, DistinctEntries;
    var l := Loaded(nodes, edges, nodeKeys, edgeKeys);
    HomesMayBe(nodes, edges, nodeKeys, edgeKeys, page);
    HomesAre(edges, page, "belongs_to", MISC, book, l.BookHome(page));
    HomesAre(edges, book, "sits_on", UNSHELVED, shelf, l.ShelfHome(book));
    BookIsGenerated(nodes, edges, page, book);
    GeneratedBookSafeIff(nodes, edges, book);
    RebuiltPageOnceIff(nodes, edges, page, book);
    assert ListedOnce(l, 2, page);
    LoadedNodes(nodes, edges, nodeKeys, edgeKeys);
    TimesIsOne(l.pages, page);
    forall b: Entry | b.id == book && IsOpen(open, book) ensures Shown(BookBlock(l, open, b), 2, page) == 1 {
      ShownInBook(l, open, b, page);
    }
  }

  lemma {:induction false} BookIsGenerated(nodes: Nodes, edges: Edges, page: Id, book: Id)
    requires IsForest(nodes, edges) && IsKind(nodes, page, "page") && OneHome(edges, page, "belongs_to", book)
    ensures Stored(nodes, book, "book") && Generated("book-", book)
  {
    hide OwnedEdgeId, Generated;
    assert PageHasBook(nodes, edges, page);
  }

  // Whoever else draws such edges draws them as the library links nodes.
  ghost predicate ForeignAreLinks(edges: Edges) {
    forall id, x, relation | Foreign(edges, id, x, relation) && relation in {"belongs_to", "sits_on"} ::
      id == LinkId(x, relation, edges[id].target)
  }

  /** When all foreign edges are links, every generated book is listed exactly once right after a
      rebuild, and a page exactly when each of its links leads to a safe book: links from a
      generated book lie in the namespace the sync clears. */
  lemma {:induction false} LinksLeaveBooksAlone(nodes: Nodes, edges: Edges)
    requires IsForest(nodes, edges) && ForeignAreLinks(edges)
    ensures forall book | Stored(nodes, book, "book") && Generated("book-", book) ::
              BookSafe(nodes, edges, book) && AlwaysOnce(nodes, edges, 1, book)
    ensures forall page, book | IsKind(nodes, page, "page") && OneHome(edges, page, "belongs_to", book) ::
              AlwaysOnce(nodes, edges, 2, page)
              <==> forall id | Foreign(edges, id, page, "belongs_to") :: BookSafe(nodes, edges, edges[id].target)
  {
    hide OneHome, IsForest, AlwaysOnce, BookSafe, Stored, ForeignAreLinks;
    forall book | Stored(nodes, book, "book") && Generated("book-", book)
      ensures BookSafe(nodes, edges, book) && AlwaysOnce(nodes, edges, 1, book)
    {
      NoLinkLeaves(edges, book);
      GeneratedBookSafeIff(nodes, edges, book);
      RebuiltBookOnceIff(nodes, edges, book);
    }
    forall page, book | IsKind(nodes, page, "page") && OneHome(edges, page, "belongs_to", book)
      ensures AlwaysOnce(nodes, edges, 2, page)
         <==> forall id | Foreign(edges, id, page, "belongs_to") :: BookSafe(nodes, edges, edges[id].target)
    {
      BookIsGenerated(nodes, edges, page, book);
      RebuiltPageOnceIff(nodes, edges, page, book);
    }
  }

  lemma {:induction false} NoLinkLeaves(edges: Edges, book: Id)
    requires ForeignAreLinks(edges) && "book-" <= book
    ensures forall id :: !Foreign(edges, id, book, "sits_on")
  {
    hide Contains;
    forall id | Foreign(edges, id, book, "sits_on") ensures "book-" <= id {
      assert id == LinkId(book, "sits_on", edges[id].target);
    }
  }

  // ---------------------------------------------------------------- a store on which it fails

  // A rebuilt library of one page, and a link to a book that the rebuild has deleted.
  const LOST_NODES: seq<NodeRow> :=
    [NodeRow("shelf-s", "shelf", "S"), NodeRow("book-b", "book", "B"), NodeRow("p", "page", "P")]
  const LOST_EDGES: seq<EdgeRow> :=
    [EdgeRow("book-b", "shelf-s", "sits_on"), EdgeRow("p", "book-b", "belongs_to"),
     EdgeRow("p", "book-1-2", "belongs_to")]

  /** A link that outlives its book makes the page vanish from the tree. */
  lemma {:induction false} DeadLinkHidesPage(open: map<Id, bool>)
    requires AllOpen(Load(LOST_NODES, LOST_EDGES), open)
    ensures Shown(Visible(Load(LOST_NODES, LOST_EDGES), open), 2, "p") == 0
  {
    hide Shown, Visible, AllOpen, Entries, Homes, Times;
    var l := Load(LOST_NODES, LOST_EDGES);
    ThreeEntries(LOST_NODES[0], LOST_NODES[1], LOST_NODES[2]);
    LastRowDecides(LOST_EDGES, "belongs_to", "p", 2);
    ExpandedCounts(l, open, "p");
    assert l.pages == [Entry("p", "P")] && l.books == [Entry("book-b", "B")];
    UnderIsEmpty(l);
    TimesIsOne(l.books, "book-1-2");
  }

  lemma {:induction false} UnderIsEmpty(l: Library)
    requires l.pages == [Entry("p", "P")] && l.BookHome("p") == "book-1-2"
    ensures l.PagesIn(MISC) == []
  {
    var p := l.pages[0];
    assert l.pages[..0] == [] && HomeOf(l.bookOf, p.id, MISC) != MISC;
    assert Under([], l.bookOf, MISC, MISC) == [];
    assert Under(l.pages, l.bookOf, MISC, MISC) == [] + [];
  }

  // The same library as a store: what a rebuild leaves, and the link.
  const LOST_PROPS: GraphBuilder.Props := GraphBuilder.Props(GraphBuilder.OWNER, 1, "1", {})
  const LOST_STORE: Nodes :=
    map["shelf-s" := GraphBuilder.Node("shelf-s", "shelf", "S", LOST_PROPS),
        "book-b" := GraphBuilder.Node("book-b", "book", "B", LOST_PROPS),
        "p" := GraphBuilder.Node("p", "page", "P", GraphBuilder.Props("", 0, "", {}))]

  const DEAD_LINK: Id := LinkId("p", "belongs_to", "book-1-2")

  const LOST_LINKS: Edges :=
    map[BelongsToId("p", "book-b") := GraphBuilder.BelongsTo("p", "book-b"),
        SitsOnId("book-b", "shelf-s") := GraphBuilder.SitsOn("book-b", "shelf-s"),
        DEAD_LINK := GraphBuilder.Edge(DEAD_LINK, "p", "book-1-2", "belongs_to", 1.0)]

  lemma {:induction false} DeadLinkIsForeign()
    ensures !OwnedEdgeId(DEAD_LINK)
    ensures OwnedEdgeId(BelongsToId("p", "book-b")) && OwnedEdgeId(SitsOnId("book-b", "shelf-s"))
    ensures BelongsToId("p", "book-b") != SitsOnId("book-b", "shelf-s")
  {
    GeneratedEdgesAreOwned("p", "book-b");
    GeneratedEdgesAreOwned("book-b", "shelf-s");
    var s := DEAD_LINK;
    assert s == "p:belongs_to:book-1-2";
    var a, b := "-sits_on-shelf-", "-belongs_to-book-";
    forall i: nat | i <= |s| ensures !OccursAt(s, a, i) && !OccursAt(s, b, i) {
      assert a[0] == '-' && b[0] == '-';
      if i + |a| <= |s| {
        assert s[i..i + |a|][0] == s[i] != '-';
      }
      if i + |b| <= |s| {
        assert s[i..i + |b|][0] == s[i];
      }
    }
    assert BelongsToId("p", "book-b")[0] == 'p' && SitsOnId("book-b", "shelf-s")[0] == 'b';
  }

  /** That store is a forest, and yet its page is not always listed once. */
  lemma {:induction false} ForestCanLoseAPage()
    ensures StoreInv(LOST_STORE, LOST_LINKS) && IsForest(LOST_STORE, LOST_LINKS)
    ensures IsKind(LOST_STORE, "p", "page") && !AlwaysOnce(LOST_STORE, LOST_LINKS, 2, "p")
  {
    hide OwnedEdgeId, AlwaysOnce, IsForest, OneHome, MayLive, LinkId, BelongsToId, SitsOnId;
    DeadLinkIsForeign();
    LostStoreIsForest();
    LostHome();
    RebuiltPageOnceIff(LOST_STORE, LOST_LINKS, "p", "book-b");
    assert Foreign(LOST_LINKS, DEAD_LINK, "p", "belongs_to");
    assert "book-1-2" !in LOST_STORE && "book-1-2"[0] != MISC[0];
    assert !BookSafe(LOST_STORE, LOST_LINKS, "book-1-2");
  }

  lemma {:induction false} LostHome()
    ensures OneHome(LOST_LINKS, "p", "belongs_to", "book-b") && OneHome(LOST_LINKS, "book-b", "sits_on", "shelf-s")
  {
    hide OwnedEdgeId, BelongsToId, SitsOnId, LinkId;
    DeadLinkIsForeign();
    var one, two := BelongsToId("p", "book-b"), SitsOnId("book-b", "shelf-s");
    assert one in LOST_LINKS && two in LOST_LINKS;
  }

  lemma {:induction false} LostStoreIsForest()
    ensures StoreInv(LOST_STORE, LOST_LINKS) && IsForest(LOST_STORE, LOST_LINKS)
  {
    hide OwnedEdgeId, OneHome, BelongsToId, SitsOnId, LinkId, GraphForest.NodeInv, GraphForest.EdgeInv, Generated,
         Stored;
    DeadLinkIsForeign();
    LostHome();
    LostNodes();
    LostEdgesFit();
    forall id | Stored(LOST_STORE, id, "book") ensures id == "book-b" {
      OneStoredBook(id);
    }
  }

  lemma {:induction false} OneStoredBook(id: Id)
    requires Stored(LOST_STORE, id, "book")
    ensures id == "book-b"
  {
  }

  lemma {:induction false} LostNodes()
    ensures GraphForest.NodeInv(LOST_STORE)
    ensures Stored(LOST_STORE, "book-b", "book") && Generated("book-", "book-b")
    ensures Stored(LOST_STORE, "shelf-s", "shelf") && Generated("shelf-", "shelf-s")
  {
    assert "book-b"[5..] == "b" && "shelf-s"[6..] == "s";
    assert "book-b"[0] == 'b' && "shelf-s"[0] == 's' && "p"[0] == 'p';
  }

  lemma {:induction false} LostEdgesFit()
    ensures GraphForest.EdgeInv(LOST_STORE, LOST_LINKS)
  {
    hide OwnedEdgeId, BelongsToId, SitsOnId, LinkId;
    DeadLinkIsForeign();
    LostNodes();
    forall id | id in LOST_LINKS && OwnedEdgeId(id) ensures GraphForest.Faithful(LOST_STORE, LOST_LINKS[id]) {
      assert GraphForest.Shaped(LOST_LINKS[id]);
      GraphForest.ShapedIsFaithful(LOST_STORE, LOST_LINKS[id]);
    }
  }
}
