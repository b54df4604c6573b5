/** The page manager of the Telegram adapter: pages are rows of the node table, and every chat has
    an active page among those it can see. */
module PageManager {
  import opened Option

  // `owner` is None when a row's properties name no chat: such a page shows in every chat.
  datatype Row = Row(id: string, isPage: bool, title: string, owner: Option<string>)

  datatype State = State(rows: seq<Row>, active: map<string, string>)

  const GENERAL_CHAT: string := "General Chat"
  const UNKNOWN_PAGE: string := "Unknown Page"

  predicate Shows(r: Row, chat: string) {
    r.isPage && (r.owner == None || r.owner == Some(chat))
  }

  /** The pages a chat can see, in table order. */
  function Pages(rows: seq<Row>, chat: string): seq<Row> {
    if rows == [] then []
    else
      var r := rows[|rows| - 1];
      Pages(rows[..|rows| - 1], chat) + if Shows(r, chat) then [r] else []
  }

  function Without(rows: seq<Row>, id: string): seq<Row> {
    if rows == [] then []
    else
      var r := rows[|rows| - 1];
      Without(rows[..|rows| - 1], id) + if r.id == id then [] else [r]
  }

  function Renamed(rows: seq<Row>, id: string, title: string): seq<Row> {
    seq(|rows|, k requires 0 <= k < |rows| => if rows[k].id == id then rows[k].(title := title) else rows[k])
  }

  predicate Has(rows: seq<Row>, id: string) {
    exists k :: 0 <= k < |rows| && rows[k].id == id
  }

  // Node ids are the primary key of the table.
  ghost predicate Keyed(rows: seq<Row>) {
    forall i, j | 0 <= i < j < |rows| :: rows[i].id != rows[j].id
  }

  // The chat's active page exists and the chat can see it.
  ghost predicate ActiveShows(s: State, chat: string) {
    chat in s.active && exists k :: 0 <= k < |s.rows| && s.rows[k].id == s.active[chat] && Shows(s.rows[k], chat)
  }

  // ---------------------------------------------------------------- operations

  // `freshId` is the identifier a new row would get.
  datatype Op =
    | Fetch(chat: string, freshId: string)
    | Create(chat: string, title: string, freshId: string)
    | Switch(chat: string, page: string)
    | Rename(page: string, title: string)
    | Delete(chat: string, page: string, freshId: string)

  function AfterFetch(s: State, chat: string, freshId: string): (t: State)
    ensures Pages(t.rows, chat) != [] && chat in t.active
  {
    var empty := Pages(s.rows, chat) == [];
    var rows := if empty then s.rows + [Row(freshId, true, GENERAL_CHAT, Some(chat))] else s.rows;
    var active := if empty then s.active[chat := freshId] else s.active;
    var pages := Pages(rows, chat);
    State(rows, if chat in active && Has(pages, active[chat]) then active else active[chat := pages[0].id])
  }

  // Whether a deletion goes through: a chat keeps its last page.
  predicate Deletes(s: State, chat: string, freshId: string) {
    |Pages(AfterFetch(s, chat, freshId).rows, chat)| > 1
  }

  function Apply(s: State, op: Op): State {
    match op
    case Fetch(chat, freshId) => AfterFetch(s, chat, freshId)
    case Create(chat, title, freshId) =>
      State(s.rows + [Row(freshId, true, title, Some(chat))], s.active[chat := freshId])
    case Switch(chat, page) => s.(active := s.active[chat := page])
    case Rename(page, title) => s.(rows := Renamed(s.rows, page, title))
    case Delete(chat, page, freshId) =>
      var t := AfterFetch(s, chat, freshId);
      if !Deletes(s, chat, freshId) then t
      else
        var remaining := Without(Pages(t.rows, chat), page);
        State(Without(t.rows, page),
              if t.active[chat] == page && remaining != [] then t.active[chat := remaining[0].id] else t.active)
  }

  predicate Fresh(s: State, op: Op) {
    (op.Fetch? || op.Create? || op.Delete?) ==> !Has(s.rows, op.freshId)
  }

  ghost predicate IsRun(s: State, ops: seq<Op>, t: State)
    decreases |ops|
  {
    if ops == [] then s == t else Fresh(s, ops[0]) && IsRun(Apply(s, ops[0]), ops[1..], t)
  }

  // ---------------------------------------------------------------- the program

  class PageManager {
    var rows: seq<Row>
    var active: map<string, string>

    function Contents(): State
      reads this
    {
      State(rows, active)
    }

    constructor (rows: seq<Row>, active: map<string, string>)
      ensures Contents() == State(rows, active)
    {
      this.rows := rows;
      this.active := active;
    }

    /** The pages of a chat; a chat without any gets one, and a missing or dangling active page
        falls back on the first. */
    method GetPages(chat: string, freshId: string) returns (pages: seq<Row>)
      modifies this
      ensures Contents() == AfterFetch(old(Contents()), chat, freshId)
      ensures pages == Pages(rows, chat)
    {
      hide Pages;
      pages := [];
      PagesOfNone(chat);
      for k := 0 to |rows|
        invariant Contents() == old(Contents())
        invariant pages == Pages(rows[..k], chat)
      {
        PagesExtend(rows, k, chat);
        if Shows(rows[k], chat) {
          pages := pages + [rows[k]];
        }
      }
      assert rows[..|rows|] == rows;
      if pages == [] {
        var general := Row(freshId, true, GENERAL_CHAT, Some(chat));
        PagesExtend(rows + [general], |rows|, chat);
        assert (rows + [general])[..|rows|] == rows && (rows + [general])[..|rows| + 1] == rows + [general];
        rows := rows + [general];
        pages := [general];
        active := active[chat := freshId];
      }
      if chat !in active || !Has(pages, active[chat]) {
        active := active[chat := pages[0].id];
      }
    }

    method CreatePage(chat: string, title: string, freshId: string) returns (id: string)
      modifies this
      ensures id == freshId && Contents() == Apply(old(Contents()), Op.Create(chat, title, freshId))
      ensures rows == old(rows) + [Row(freshId, true, title, Some(chat))] && active == old(active)[chat := freshId]
    {
      rows := rows + [Row(freshId, true, title, Some(chat))];
      active := active[chat := freshId];
      id := freshId;
    }

    /** Always an existing page that the chat can see. */
    method GetActivePageId(chat: string, freshId: string) returns (id: string)
      modifies this
      ensures Contents() == AfterFetch(old(Contents()), chat, freshId)
      ensures id == active[chat] && ActiveShows(Contents(), chat)
    {
      hide AfterFetch, Pages;
      var pages := GetPages(chat, freshId);
      FetchRepairs(old(Contents()), chat, freshId);
      id := active[chat];
    }

    /** The title of the active page; the fallback title is never needed. */
    method GetActivePageTitle(chat: string, freshId: string) returns (title: string)
      modifies this
      ensures Contents() == AfterFetch(old(Contents()), chat, freshId)
      ensures exists k :: 0 <= k < |rows|
                && rows[k].id == active[chat] && Shows(rows[k], chat) && title == rows[k].title
    {
      hide AfterFetch, Pages;
      var pages := GetPages(chat, freshId);
      FetchRepairs(old(Contents()), chat, freshId);
      FetchTwiceIsFetch(old(Contents()), chat, freshId);
      var id := GetActivePageId(chat, freshId);
      for k := 0 to |pages|
        invariant forall j | 0 <= j < k :: pages[j].id != id
      {
        if pages[k].id == id {
          PageIsRow(rows, chat, k);
          return pages[k].title;
        }
      }
      ShownIsPage(rows, chat, id);
      title := UNKNOWN_PAGE;
    }

    method SetActivePage(chat: string, page: string)
      modifies this
      ensures Contents() == Apply(old(Contents()), Op.Switch(chat, page))
      ensures rows == old(rows) && active == old(active)[chat := page]
    {
      active := active[chat := page];
    }

    method RenamePage(page: string, title: string)
      modifies this
      ensures Contents() == Apply(old(Contents()), Op.Rename(page, title))
      ensures active == old(active) && |rows| == |old(rows)|
      ensures forall k | 0 <= k < |rows| ::
                rows[k] == if old(rows)[k].id == page then old(rows)[k].(title := title) else old(rows)[k]
    {
      rows := Renamed(rows, page, title);
    }

    /** Deletes a page unless it is the chat's last; the active page moves on when it was the one
        deleted. */
    method DeletePage(chat: string, page: string, freshId: string) returns (ok: bool)
      requires Keyed(rows) && !Has(rows, freshId)
      modifies this
      ensures Contents() == Apply(old(Contents()), Op.Delete(chat, page, freshId))
      ensures ok == Deletes(old(Contents()), chat, freshId)
      ensures ok ==> !Has(rows, page) && Pages(rows, chat) != [] && ActiveShows(Contents(), chat)
    {
      hide AfterFetch, Pages, Without, Has, ActiveShows, Keyed;
      var pages := GetPages(chat, freshId);
      if |pages| <= 1 {
        return false;
      }
      DeleteLeavesAPage(old(Contents()), chat, page, freshId);
      rows := Without(rows, page);
      if active[chat] == page {
        var remaining := Without(pages, page);
        active := active[chat := remaining[0].id];
      }
      ok := true;
    }
  }

  // ---------------------------------------------------------------- pages of a table

  lemma {:induction false} PagesOfNone(chat: string)
    ensures Pages([], chat) == []
  {
  }

  lemma {:induction false} PagesExtend(rows: seq<Row>, k: nat, chat: string)
    requires k < |rows|
    ensures Pages(rows[..k + 1], chat) == Pages(rows[..k], chat) + if Shows(rows[k], chat) then [rows[k]] else []
  {
    assert rows[..k + 1][..k] == rows[..k];
  }

  /** A chat's pages are rows that show in it. */
  lemma {:induction false} PageIsRow(rows: seq<Row>, chat: string, k: nat)
    requires k < |Pages(rows, chat)|
    ensures Shows(Pages(rows, chat)[k], chat) && Pages(rows, chat)[k] in rows
  {
    var before := rows[..|rows| - 1];
    if k < |Pages(before, chat)| {
      PageIsRow(before, chat, k);
      assert Pages(rows, chat)[k] == Pages(before, chat)[k];
    }
  }

  /** Every row that shows in a chat is one of its pages. */
  lemma {:induction false} RowIsPage(rows: seq<Row>, chat: string, i: nat) returns (k: nat)
    requires i < |rows| && Shows(rows[i], chat)
    ensures k < |Pages(rows, chat)| && Pages(rows, chat)[k] == rows[i]
  {
    var n := |rows| - 1;
    if i < n {
      k := RowIsPage(rows[..n], chat, i);
    } else {
      k := |Pages(rows[..n], chat)|;
    }
  }

  lemma {:induction false} ShownIsPage(rows: seq<Row>, chat: string, id: string)
    requires exists k :: 0 <= k < |rows| && rows[k].id == id && Shows(rows[k], chat)
    ensures Has(Pages(rows, chat), id)
  {
    hide Shows, Pages;
    var i :| 0 <= i < |rows| && rows[i].id == id && Shows(rows[i], chat);
    var k := RowIsPage(rows, chat, i);
  }

  lemma {:induction false} PageShows(rows: seq<Row>, chat: string, id: string)
    requires Has(Pages(rows, chat), id)
    ensures exists k :: 0 <= k < |rows| && rows[k].id == id && Shows(rows[k], chat)
  {
    hide Shows, Pages;
    var k :| 0 <= k < |Pages(rows, chat)| && Pages(rows, chat)[k].id == id;
    PageIsRow(rows, chat, k);
    var i :| 0 <= i < |rows| && rows[i] == Pages(rows, chat)[k];
  }

  // ---------------------------------------------------------------- in terms of the rows

  // The first row that the chat can see.
  ghost predicate FirstShown(rows: seq<Row>, chat: string, k: nat) {
    k < |rows| && Shows(rows[k], chat) && forall j | 0 <= j < k :: !Shows(rows[j], chat)
  }

  /** The pages of a chat are the rows it can see, those and no others. */
  lemma {:induction false} PagesAre(rows: seq<Row>, chat: string)
    ensures forall r :: r in Pages(rows, chat) <==> r in rows && r.isPage && (r.owner == None || r.owner == Some(chat))
    ensures forall k: nat | FirstShown(rows, chat, k) :: Pages(rows, chat) != [] && Pages(rows, chat)[0] == rows[k]
  {
    if rows != [] {
      var n := |rows| - 1;
      PagesAre(rows[..n], chat);
      assert rows == rows[..n] + [rows[n]];
      forall k: nat | FirstShown(rows, chat, k) ensures Pages(rows, chat) != [] && Pages(rows, chat)[0] == rows[k] {
        if k < n {
          assert FirstShown(rows[..n], chat, k);
        } else {
          NoneShown(rows[..n], chat);
        }
      }
    }
  }

  lemma {:induction false} NoneShown(rows: seq<Row>, chat: string)
    requires forall k | 0 <= k < |rows| :: !Shows(rows[k], chat)
    ensures Pages(rows, chat) == []
  {
    if rows != [] { NoneShown(rows[..|rows| - 1], chat); }
  }

  /** A lookup in a chat that can see nothing adds a page "General Chat" of its own and makes it
      active. */
  lemma {:induction false} FirstLookup(s: State, chat: string, freshId: string)
    requires forall k | 0 <= k < |s.rows| :: !Shows(s.rows[k], chat)
    ensures AfterFetch(s, chat, freshId)
         == State(s.rows + [Row(freshId, true, "General Chat", Some(chat))], s.active[chat := freshId])
  {
    hide Pages, Has;
    NoneShown(s.rows, chat);
    var row := Row(freshId, true, "General Chat", Some(chat));
    PagesExtend(s.rows + [row], |s.rows|, chat);
    assert (s.rows + [row])[..|s.rows|] == s.rows && (s.rows + [row])[..|s.rows| + 1] == s.rows + [row];
    assert Pages(s.rows + [row], chat) == [row];
    HasFirst([row]);
  }

  lemma {:induction false} HasFirst(rows: seq<Row>)
    requires rows != []
    ensures Has(rows, rows[0].id)
  {
  }

  /** Any other lookup changes no row: it keeps the chat's active page if the chat can see it, and
      goes to the first page it can see if not; other chats keep theirs. */
  lemma {:induction false} LaterLookup(s: State, chat: string, freshId: string, k: nat)
    requires FirstShown(s.rows, chat, k)
    ensures var seen := chat in s.active && exists j :: 0 <= j < |s.rows| && s.rows[j].id == s.active[chat]
                                                        && Shows(s.rows[j], chat);
            AfterFetch(s, chat, freshId)
            == State(s.rows, if seen then s.active else s.active[chat := s.rows[k].id])
  {
    hide Pages, Has;
    PagesAre(s.rows, chat);
    if chat in s.active {
      if j :| 0 <= j < |s.rows| && s.rows[j].id == s.active[chat] && Shows(s.rows[j], chat) {
        ShownIsPage(s.rows, chat, s.active[chat]);
      }
      if Has(Pages(s.rows, chat), s.active[chat]) { PageShows(s.rows, chat, s.active[chat]); }
    }
  }

  /** A deletion that goes through, in terms of the rows: it takes away the row of that id, if there is
      one, and moves the chat on, if it was there, to the first of its remaining pages. */
  lemma {:induction false} DeletionSpelledOut(s: State, chat: string, page: string, freshId: string)
    requires Keyed(s.rows) && !Has(s.rows, freshId)
    ensures var f, t := AfterFetch(s, chat, freshId), Apply(s, Op.Delete(chat, page, freshId));
            && (Deletes(s, chat, freshId) <==>
                  exists i, j :: 0 <= i < j < |f.rows| && Shows(f.rows[i], chat) && Shows(f.rows[j], chat))
            && (!Deletes(s, chat, freshId) ==> t == f)
            && (Deletes(s, chat, freshId) ==>
                  && (!Has(f.rows, page) ==> t.rows == f.rows)
                  && (forall k | 0 <= k < |f.rows| && f.rows[k].id == page :: t.rows == f.rows[..k] + f.rows[k + 1..])
                  && (f.active[chat] != page ==> t.active == f.active)
                  && (f.active[chat] == page ==>
                        forall k: nat | FirstShown(t.rows, chat, k) :: t.active == f.active[chat := t.rows[k].id]))
  {
    hide AfterFetch, Pages, Without, Keyed, FirstShown, Shows;
    var f, t := AfterFetch(s, chat, freshId), Apply(s, Op.Delete(chat, page, freshId));
    FetchKeepsKeys(s, chat, freshId);
    TwoPagesIff(f.rows, chat);
    if Deletes(s, chat, freshId) {
      WithoutCutsOut(f.rows, page);
      DeleteLeavesAPage(s, chat, page, freshId);
      PagesAre(t.rows, chat);
    }
  }

  lemma {:induction false} WithoutCutsOut(rows: seq<Row>, id: string)
    requires Keyed(rows)
    ensures !Has(rows, id) ==> Without(rows, id) == rows
    ensures forall k | 0 <= k < |rows| && rows[k].id == id :: Without(rows, id) == rows[..k] + rows[k + 1..]
  {
    if rows != [] {
      var n := |rows| - 1;
      var front := rows[..n];
      WithoutCutsOut(front, id);
      assert rows == front + [rows[n]];
      assert forall k | 0 <= k < n :: front[k] == rows[k];
      if rows[n].id == id {
        assert !Has(front, id);
      }
      forall k | 0 <= k < |rows| && rows[k].id == id ensures Without(rows, id) == rows[..k] + rows[k + 1..] {
        if k < n {
          assert front[k].id == id && rows[..k] + rows[k + 1..] == (front[..k] + front[k + 1..]) + [rows[n]];
        }
      }
    }
  }

  lemma {:induction false} SomePageIff(rows: seq<Row>, chat: string)
    ensures Pages(rows, chat) != [] <==> exists i :: 0 <= i < |rows| && Shows(rows[i], chat)
  {
    hide Shows;
    if exists i :: 0 <= i < |rows| && Shows(rows[i], chat) {
      var i :| 0 <= i < |rows| && Shows(rows[i], chat);
      var k := RowIsPage(rows, chat, i);
    } else {
      NoneShown(rows, chat);
    }
  }

  lemma {:induction false} TwoPagesIff(rows: seq<Row>, chat: string)
    ensures |Pages(rows, chat)| > 1
       <==> exists i, j :: 0 <= i < j < |rows| && Shows(rows[i], chat) && Shows(rows[j], chat)
  {
    hide Shows;
    if rows != [] {
      var n := |rows| - 1;
      var front := rows[..n];
      TwoPagesIff(front, chat);
      SomePageIff(front, chat);
      assert forall k | 0 <= k < n :: front[k] == rows[k];
      if i, j :| 0 <= i < j < |rows| && Shows(rows[i], chat) && Shows(rows[j], chat) {
        assert Shows(front[i], chat);
        if j < n { assert Shows(front[j], chat); }
      }
      if i, j :| 0 <= i < j < n && Shows(front[i], chat) && Shows(front[j], chat) {
        assert Shows(rows[i], chat) && Shows(rows[j], chat);
      }
      if i :| 0 <= i < n && Shows(front[i], chat) {
        assert Shows(rows[i], chat);
      }
    }
  }

  // ---------------------------------------------------------------- one operation

  /** Looking a chat's pages up leaves it with an existing active page it can see, whatever the
      state was. */
  lemma {:induction false} FetchRepairs(s: State, chat: string, freshId: string)
    ensures ActiveShows(AfterFetch(s, chat, freshId), chat)
  {
    hide Pages, Shows;
    var t := AfterFetch(s, chat, freshId);
    PageShows(t.rows, chat, t.active[chat]);
  }

  lemma {:induction false} FetchTwiceIsFetch(s: State, chat: string, freshId: string)
    ensures var t := AfterFetch(s, chat, freshId); AfterFetch(t, chat, freshId) == t
  {
    hide Pages, Shows, Has;
    FetchRepairs(s, chat, freshId);
    var t := AfterFetch(s, chat, freshId);
    ShownIsPage(t.rows, chat, t.active[chat]);
  }

  lemma {:induction false} WithoutDrops(rows: seq<Row>, id: string)
    ensures forall r :: r in Without(rows, id) <==> r in rows && r.id != id
  {
    if rows != [] {
      WithoutDrops(rows[..|rows| - 1], id);
    }
  }

  lemma {:induction false} WithoutKeepsKeys(rows: seq<Row>, id: string)
    requires Keyed(rows)
    ensures Keyed(Without(rows, id))
  {
    if rows != [] {
      var n := |rows| - 1;
      WithoutKeepsKeys(rows[..n], id);
      WithoutDrops(rows[..n], id);
    }
  }

  /** Deleting a row deletes it from the pages of every chat and changes nothing else there. */
  lemma {:induction false} PagesWithout(rows: seq<Row>, id: string, chat: string)
    ensures Pages(Without(rows, id), chat) == Without(Pages(rows, chat), id)
  {
    if rows != [] {
      var n := |rows| - 1;
      var r := rows[n];
      PagesWithout(rows[..n], id, chat);
      LastWithout(Pages(rows[..n], chat), r, id);
      assert Without(rows[..n], id) + [] == Without(rows[..n], id);
      assert Pages(rows[..n], chat) + [] == Pages(rows[..n], chat);
      assert Without(Pages(rows[..n], chat), id) + [] == Without(Pages(rows[..n], chat), id);
    }
  }

  lemma {:induction false} LastWithout(rows: seq<Row>, r: Row, id: string)
    ensures Without(rows + [r], id) == Without(rows, id) + if r.id == id then [] else [r]
  {
    assert (rows + [r])[..|rows|] == rows;
  }

  lemma {:induction false} PagesKeyed(rows: seq<Row>, chat: string)
    requires Keyed(rows)
    ensures Keyed(Pages(rows, chat))
  {
    if rows != [] {
      var n := |rows| - 1;
      PagesKeyed(rows[..n], chat);
      forall k | 0 <= k < |Pages(rows[..n], chat)| ensures Pages(rows[..n], chat)[k].id != rows[n].id {
        PageIsRow(rows[..n], chat, k);
      }
    }
  }

  /** With distinct ids at most one row goes, so of two pages one is left. */
  lemma {:induction false} WithoutLeavesOne(rows: seq<Row>, id: string)
    requires Keyed(rows) && |rows| > 1
    ensures Without(rows, id) != []
  {
    WithoutDrops(rows, id);
    assert rows[0].id != rows[1].id;
    assert rows[0] in rows && rows[1] in rows;
    assert rows[0] in Without(rows, id) || rows[1] in Without(rows, id);
  }

  lemma {:induction false} FetchKeepsKeys(s: State, chat: string, freshId: string)
    requires Keyed(s.rows) && !Has(s.rows, freshId)
    ensures Keyed(AfterFetch(s, chat, freshId).rows)
  {
    hide Pages;
  }

  /** A deletion that goes through leaves the chat a page, and an active page it can see. */
  lemma {:induction false} DeleteLeavesAPage(s: State, chat: string, page: string, freshId: string)
    requires Keyed(s.rows) && !Has(s.rows, freshId) && Deletes(s, chat, freshId)
    ensures var t := Apply(s, Op.Delete(chat, page, freshId));
            !Has(t.rows, page) && Pages(t.rows, chat) != [] && ActiveShows(t, chat)
    ensures var before := AfterFetch(s, chat, freshId);
            Without(Pages(before.rows, chat), page) != []
            && Pages(Apply(s, Op.Delete(chat, page, freshId)).rows, chat) == Without(Pages(before.rows, chat), page)
  {
    hide AfterFetch, Pages, Without, Shows, Keyed;
    var f := AfterFetch(s, chat, freshId);
    FetchKeepsKeys(s, chat, freshId);
    FetchRepairs(s, chat, freshId);
    ShownIsPage(f.rows, chat, f.active[chat]);
    PagesKeyed(f.rows, chat);
    var pages := Pages(f.rows, chat);
    WithoutLeavesOne(pages, page);
    PagesWithout(f.rows, page, chat);
    WithoutDrops(f.rows, page);
    WithoutDrops(pages, page);
    var t := Apply(s, Op.Delete(chat, page, freshId));
    assert Pages(t.rows, chat) == Without(pages, page);
    if f.active[chat] == page {
      assert t.active[chat] == Pages(t.rows, chat)[0].id;
    } else {
      var k :| 0 <= k < |pages| && pages[k].id == f.active[chat];
      assert pages[k] in Pages(t.rows, chat);
    }
    assert Has(Pages(t.rows, chat), t.active[chat]);
    PageShows(t.rows, chat, t.active[chat]);
  }

  // ---------------------------------------------------------------- what one chat does to another

  // The operations that can leave `chat` with a dangling active page: switching it to a page it
  // cannot see, and a deletion of its active page that another chat gets through.
  predicate Dangles(s: State, op: Op, chat: string) {
    match op
    case Switch(c, page) => c == chat && !Has(Pages(s.rows, chat), page)
    case Delete(c, page, freshId) => c != chat && chat in s.active && s.active[chat] == page && Deletes(s, c, freshId)
    case _ => false
  }

  lemma {:induction false} FetchKeepsRows(s: State, chat: string, freshId: string)
    ensures s.rows <= AfterFetch(s, chat, freshId).rows
    ensures forall c | c in s.active && c != chat ::
              c in AfterFetch(s, chat, freshId).active && AfterFetch(s, chat, freshId).active[c] == s.active[c]
  {
    hide Pages;
  }

  lemma {:induction false} RenamedShows(rows: seq<Row>, id: string, title: string, chat: string, page: string)
    ensures var after := Renamed(rows, id, title);
            (exists k :: 0 <= k < |rows| && rows[k].id == page && Shows(rows[k], chat))
            <==> (exists k :: 0 <= k < |after| && after[k].id == page && Shows(after[k], chat))
  {
    var after := Renamed(rows, id, title);
    forall k | 0 <= k < |rows|
      ensures after[k].id == rows[k].id && (Shows(after[k], chat) <==> Shows(rows[k], chat))
    {
    }
  }

  /** An operation leaves a chat's active page in place, without repair, exactly when it is not
      one of those. */
  lemma {:induction false} ActiveStaysIff(s: State, op: Op, chat: string)
    requires Keyed(s.rows) && Fresh(s, op) && ActiveShows(s, chat)
    ensures ActiveShows(Apply(s, op), chat) <==> !Dangles(s, op, chat)
  {
    hide AfterFetch, Pages, Shows, Without, Renamed, Keyed;
    match op
    case Fetch(c, freshId) => FetchKeepsActive(s, c, freshId, chat);
    case Create(c, title, freshId) => CreateKeepsActive(s, c, title, freshId, chat);
    case Switch(c, page) =>
      if Has(Pages(s.rows, chat), page) { PageShows(s.rows, chat, page); }
      if c == chat && ActiveShows(Apply(s, op), chat) { ShownIsPage(s.rows, chat, page); }
    case Rename(page, title) => RenamedShows(s.rows, page, title, chat, s.active[chat]);
    case Delete(c, page, freshId) =>
      FetchKeepsActive(s, c, freshId, chat);
      if Deletes(s, c, freshId) {
        if c == chat {
          DeleteLeavesAPage(s, chat, page, freshId);
        } else {
          FetchKeepsRows(s, c, freshId);
          ForeignDelete(AfterFetch(s, c, freshId), page, chat, Apply(s, op));
        }
      }
  }

  lemma {:induction false} FetchKeepsActive(s: State, c: string, freshId: string, chat: string)
    requires ActiveShows(s, chat)
    ensures ActiveShows(AfterFetch(s, c, freshId), chat)
  {
    hide AfterFetch, Pages, Shows;
    FetchKeepsRows(s, c, freshId);
    if c == chat {
      FetchRepairs(s, chat, freshId);
    } else {
      var k :| 0 <= k < |s.rows| && s.rows[k].id == s.active[chat] && Shows(s.rows[k], chat);
      assert AfterFetch(s, c, freshId).rows[k] == s.rows[k];
    }
  }

  lemma {:induction false} CreateKeepsActive(s: State, c: string, title: string, freshId: string, chat: string)
    requires ActiveShows(s, chat)
    ensures ActiveShows(Apply(s, Create(c, title, freshId)), chat)
  {
    var t := Apply(s, Create(c, title, freshId));
    var k :| 0 <= k < |s.rows| && s.rows[k].id == s.active[chat] && Shows(s.rows[k], chat);
    assert t.rows[k] == s.rows[k] && t.rows[|s.rows|].id == freshId;
  }

  lemma {:induction false} ForeignDelete(f: State, page: string, chat: string, t: State)
    requires ActiveShows(f, chat) && t.rows == Without(f.rows, page)
    requires chat in t.active && t.active[chat] == f.active[chat]
    ensures ActiveShows(t, chat) <==> f.active[chat] != page
  {
    hide Without, Shows;
    WithoutDrops(f.rows, page);
    var k :| 0 <= k < |f.rows| && f.rows[k].id == f.active[chat] && Shows(f.rows[k], chat);
    if f.active[chat] != page {
      assert f.rows[k] in t.rows;
    }
  }

  predicate SameButTitle(r: Row, q: Row) {
    r.id == q.id && r.isPage == q.isPage && r.owner == q.owner
  }

  /** No operation but a deletion of that very row takes a page from anyone. */
  lemma {:induction false} RowsSurvive(s: State, op: Op, k: nat)
    requires k < |s.rows| && !(op.Delete? && op.page == s.rows[k].id)
    ensures exists r :: r in Apply(s, op).rows && SameButTitle(r, s.rows[k])
  {
    hide AfterFetch, Without, Pages;
    var t := Apply(s, op);
    match op
    case Fetch(c, freshId) =>
      FetchKeepsRows(s, c, freshId);
      assert SameButTitle(t.rows[k], s.rows[k]);
    case Create(_, _, _) => assert SameButTitle(t.rows[k], s.rows[k]);
    case Switch(_, _) => assert SameButTitle(t.rows[k], s.rows[k]);
    case Rename(_, _) => assert SameButTitle(t.rows[k], s.rows[k]);
    case Delete(c, page, freshId) =>
      FetchKeepsRows(s, c, freshId);
      var f := AfterFetch(s, c, freshId);
      WithoutDrops(f.rows, page);
      assert f.rows[k] == s.rows[k] && s.rows[k] in f.rows;
      assert s.rows[k] in t.rows && SameButTitle(s.rows[k], s.rows[k]);
  }

  // ---------------------------------------------------------------- every run

  lemma {:induction false} ApplyKeepsKeys(s: State, op: Op)
    requires Keyed(s.rows) && Fresh(s, op)
    ensures Keyed(Apply(s, op).rows)
  {
    hide AfterFetch, Pages, Without;
    match op
    case Fetch(c, freshId) => FetchKeepsKeys(s, c, freshId);
    case Delete(c, page, freshId) =>
      FetchKeepsKeys(s, c, freshId);
      WithoutKeepsKeys(AfterFetch(s, c, freshId).rows, page);
    case _ =>
  }

  /** Over every sequence of operations, in any chats: ids stay distinct, the next lookup of the
      active page yields a page the chat can see, and a chat that could see its active page still
      can unless one of the operations was of the dangling kind. */
  lemma {:induction false} RunsKeepActivePages(s: State, ops: seq<Op>, t: State, chat: string, freshId: string)
    requires Keyed(s.rows) && IsRun(s, ops, t)
    ensures Keyed(t.rows)
    ensures ActiveShows(AfterFetch(t, chat, freshId), chat)
    ensures ActiveShows(s, chat) && NeverDangles(s, ops, chat) ==> ActiveShows(t, chat)
    decreases |ops|
  {
    hide AfterFetch, Keyed, ActiveShows, Apply, Fresh, Dangles;
    FetchRepairs(t, chat, freshId);
    if ops != [] {
      ApplyKeepsKeys(s, ops[0]);
      if ActiveShows(s, chat) { ActiveStaysIff(s, ops[0], chat); }
      RunsKeepActivePages(Apply(s, ops[0]), ops[1..], t, chat, freshId);
    }
  }

  predicate NeverDangles(s: State, ops: seq<Op>, chat: string)
    decreases |ops|
  {
    ops == [] || (!Dangles(s, ops[0], chat) && NeverDangles(Apply(s, ops[0]), ops[1..], chat))
  }
}
