/** What a rebuild makes of the rows of the store: which tag edges and suggested books put pages
    together, which pages go to the general book, and what the stored books and shelves are called.
    All of it is said in terms of the rows. */
module BooksFromRows {
  import opened Sequences
  import opened Partition
  import opened GraphIds
  import opened TableSync
  import opened GraphBuilder
  import opened GraphForest
  import PageClusters
  import BookClusters
  import ShelfOrder
  import Chains

  /** The pages of a plan are the stored page rows, each with the names at the other end of its
      tag edges and with the suggested books of its row. */
  lemma {:induction false} PagesCarryRows(nm: Naming, nodes: map<Id, Node>, edges: map<Id, Edge>, plan: Plan, i: nat)
    requires PlanFor(nm, nodes, edges, plan) && i < |plan.pages|
    ensures var p := plan.pages[i];
            && p.id in nodes && nodes[p.id].kind == "page" && p.books == nodes[p.id].props.suggestedBooks
            && forall w :: w in p.tags <==>
                 exists id :: id in edges && edges[id].relation == "tag" && edges[id].source == p.id
                              && nm.tagName(edges[id].target) == w
  {
    hide ShelvesFor, Distinct, PageClusters.FirstFit;
    assert PageClusters.IdsOf(plan.pages)[i] == plan.pages[i].id;
    assert plan.pages[i] == PageOf(nm, edges, nodes[plan.pages[i].id]);
    assert nodes[plan.pages[i].id].id == plan.pages[i].id;
  }

  // The tag edges `e` and `f` lead from the two pages to things of one name.
  ghost predicate OneTag(nm: Naming, edges: map<Id, Edge>, p: Id, q: Id, e: Id, f: Id) {
    && e in edges && edges[e].relation == "tag" && edges[e].source == p
    && f in edges && edges[f].relation == "tag" && edges[f].source == q
    && nm.tagName(edges[e].target) == nm.tagName(edges[f].target)
  }

  /** Two pages share something exactly when the store has tag edges from both to one name, or
      their rows suggest a common book. */
  lemma {:induction false} SharesIff(nm: Naming, nodes: map<Id, Node>, edges: map<Id, Edge>, plan: Plan, i: nat, j: nat)
    requires PlanFor(nm, nodes, edges, plan) && i < |plan.pages| && j < |plan.pages|
    ensures var p, q := plan.pages[i].id, plan.pages[j].id;
            && p in nodes && q in nodes
            && (PageClusters.Shares(plan.pages[i], plan.pages[j]) <==>
                  || (exists e, f :: OneTag(nm, edges, p, q, e, f))
                  || exists w :: w in nodes[p].props.suggestedBooks && w in nodes[q].props.suggestedBooks)
  {
    hide PlanFor;
    PagesCarryRows(nm, nodes, edges, plan, i);
    PagesCarryRows(nm, nodes, edges, plan, j);
    var p, q := plan.pages[i], plan.pages[j];
    if w :| w in p.tags && w in q.tags {
      assert w in p.tags * q.tags;
      var e :| e in edges && edges[e].relation == "tag" && edges[e].source == p.id && nm.tagName(edges[e].target) == w;
      var f :| f in edges && edges[f].relation == "tag" && edges[f].source == q.id && nm.tagName(edges[f].target) == w;
      assert OneTag(nm, edges, p.id, q.id, e, f);
    }
    if e, f :| OneTag(nm, edges, p.id, q.id, e, f) {
      var w := nm.tagName(edges[e].target);
      assert w in p.tags && w in q.tags;
    }
    if w :| w in p.books && w in q.books {
      assert w in p.books * q.books;
    }
  }

  /** Every stored page row is one of the plan's pages. */
  lemma {:induction false} PageOfPlan(nm: Naming, nodes: map<Id, Node>, edges: map<Id, Edge>, plan: Plan, p: Id)
    returns (i: nat)
    requires PlanFor(nm, nodes, edges, plan) && p in nodes && nodes[p].kind == "page"
    ensures i < |plan.pages| && plan.pages[i].id == p
  {
    hide ShelvesFor, Distinct, PageClusters.FirstFit;
    assert p in PageClusters.IdsOf(plan.pages);
    i :| 0 <= i < |plan.pages| && PageClusters.IdsOf(plan.pages)[i] == p;
  }

  // ---------------------------------------------------------------- the lone pages

  lemma {:induction false} LoneAre(cs: seq<seq<Id>>, tagless: set<Id>, n: nat, x: Id)
    requires n <= |cs|
    ensures x in Lone(cs, tagless, n) <==> exists c :: 0 <= c < n && Lonely(cs[c], tagless) && cs[c] == [x]
  {
    if n > 0 {
      LoneAre(cs, tagless, n - 1, x);
      if Lonely(cs[n - 1], tagless) {
        assert cs[n - 1] == [cs[n - 1][0]];
      }
    }
  }

  ghost predicate HasMembers(cs: seq<Community>, members: seq<Id>) {
    exists k :: 0 <= k < |cs| && cs[k].members == members
  }

  lemma {:induction false} RegularAre(cs: seq<seq<Id>>, tagless: set<Id>, n: nat, members: seq<Id>)
    requires n <= |cs|
    ensures HasMembers(Regular(cs, tagless, n), members) <==> members in cs[..n] && !Lonely(members, tagless)
  {
    hide Lonely;
    if n > 0 {
      RegularAre(cs, tagless, n - 1, members);
      assert cs[..n] == cs[..n - 1] + [cs[n - 1]];
      var before, c := Regular(cs, tagless, n - 1), Community(Decimal(n), cs[n - 1]);
      OneMoreMember(before, c, members);
    }
  }

  lemma {:induction false} OneMoreMember(cs: seq<Community>, c: Community, members: seq<Id>)
    ensures HasMembers(cs + [c], members) <==> HasMembers(cs, members) || c.members == members
  {
    if HasMembers(cs, members) {
      var k :| 0 <= k < |cs| && cs[k].members == members;
      assert (cs + [c])[k].members == members;
    }
    assert (cs + [c])[|cs|] == c;
  }

  // A community under a number, with these members.
  ghost predicate Numbered(cs: seq<Community>, members: seq<Id>) {
    exists k :: 0 <= k < |cs| && cs[k].key != "__GENERAL__" && cs[k].members == members
  }

  ghost predicate InGeneral(cs: seq<Community>, x: Id) {
    exists k :: 0 <= k < |cs| && cs[k].key == "__GENERAL__" && x in cs[k].members
  }

  lemma {:induction false} MergedAre(cs: seq<seq<Id>>, tagless: set<Id>, x: Id)
    ensures InGeneral(Merged(cs, tagless), x) <==> [x] in cs && x in tagless
  {
    var n := |cs|;
    var regular, lone := Regular(cs, tagless, n), Lone(cs, tagless, n);
    RegularKeysDistinct(cs, tagless, n);
    forall k | 0 <= k < |regular| ensures regular[k].key != "__GENERAL__" {
      NumberIsFresh(regular[k].key, n + 1);
    }
    LoneAre(cs, tagless, n, x);
    if x in lone {
      assert Merged(cs, tagless)[|regular|] == Community(GENERAL, lone);
    }
  }

  lemma {:induction false} NumberedAre(cs: seq<seq<Id>>, tagless: set<Id>, members: seq<Id>)
    ensures Numbered(Merged(cs, tagless), members) <==> members in cs && !Lonely(members, tagless)
  {
    hide Lonely, Regular, Lone;
    var n := |cs|;
    RegularKeysDistinct(cs, tagless, n);
    forall k | 0 <= k < |Regular(cs, tagless, n)| ensures Regular(cs, tagless, n)[k].key != "__GENERAL__" {
      NumberIsFresh(Regular(cs, tagless, n)[k].key, n + 1);
    }
    RegularAre(cs, tagless, n, members);
    assert cs[..n] == cs;
    NumberedInFront(Regular(cs, tagless, n), Lone(cs, tagless, n), members);
  }

  lemma {:induction false} NumberedInFront(regular: seq<Community>, lone: seq<Id>, members: seq<Id>)
    requires forall k | 0 <= k < |regular| :: regular[k].key != "__GENERAL__"
    ensures Numbered(WithGeneral(regular, lone), members) <==> HasMembers(regular, members)
  {
    var all := WithGeneral(regular, lone);
    assert forall k | 0 <= k < |regular| :: all[k] == regular[k];
  }

  // ---------------------------------------------------------------- which pages share a book

  // The two pages stand in one book that is not the general one.
  ghost predicate OneBook(plan: Plan, p: Id, q: Id) {
    exists b :: 0 <= b < |plan.books| && plan.books[b].key != "__GENERAL__"
                && p in plan.books[b].pages && q in plan.books[b].pages
  }

  ghost predicate InGeneralBook(plan: Plan, p: Id) {
    exists b :: 0 <= b < |plan.books| && plan.books[b].key == "__GENERAL__" && p in plan.books[b].pages
  }

  lemma {:induction false} OneBookIff(nm: Naming, cs: seq<seq<Id>>, tagless: set<Id>, plan: Plan, p: Id, q: Id)
    requires plan.books == BooksOf(nm, Merged(cs, tagless)) && p != q
    ensures OneBook(plan, p, q) <==> Together(cs, p, q)
  {
    hide Merged;
    var merged := Merged(cs, tagless);
    if OneBook(plan, p, q) {
      var b :| 0 <= b < |plan.books| && plan.books[b].key != "__GENERAL__"
               && p in plan.books[b].pages && q in plan.books[b].pages;
      assert plan.books[b] == MakeBook(nm, merged[b]);
      NumberedAre(cs, tagless, merged[b].members);
      var c :| 0 <= c < |cs| && cs[c] == merged[b].members;
    }
    if Together(cs, p, q) {
      var c :| 0 <= c < |cs| && p in cs[c] && q in cs[c];
      assert !Lonely(cs[c], tagless);
      NumberedAre(cs, tagless, cs[c]);
      var b :| 0 <= b < |merged| && merged[b].key != "__GENERAL__" && merged[b].members == cs[c];
      assert plan.books[b] == MakeBook(nm, merged[b]);
    }
  }

  lemma {:induction false} GeneralIff(nm: Naming, cs: seq<seq<Id>>, tagless: set<Id>, plan: Plan, p: Id)
    requires plan.books == BooksOf(nm, Merged(cs, tagless))
    ensures InGeneralBook(plan, p) <==> [p] in cs && p in tagless
  {
    hide Merged;
    var merged := Merged(cs, tagless);
    MergedAre(cs, tagless, p);
    if InGeneral(merged, p) {
      var b :| 0 <= b < |merged| && merged[b].key == "__GENERAL__" && p in merged[b].members;
      assert plan.books[b] == MakeBook(nm, merged[b]);
    }
    if InGeneralBook(plan, p) {
      var b :| 0 <= b < |plan.books| && plan.books[b].key == "__GENERAL__" && p in plan.books[b].pages;
      assert plan.books[b] == MakeBook(nm, merged[b]);
    }
  }

  /** Pages in one numbered book are joined by a chain of sharing pages; pages so joined stand in
      one, whenever no page joins two components of the pages before it. */
  lemma {:induction false} BooksAreChains(nm: Naming, nodes: map<Id, Node>, edges: map<Id, Edge>, plan: Plan, i: nat,
                                          j: nat)
    requires PlanFor(nm, nodes, edges, plan) && i < |plan.pages| && j < |plan.pages| && i != j
    ensures OneBook(plan, plan.pages[i].id, plan.pages[j].id) ==> PageClusters.Connected(plan.pages, i, j)
    ensures PageClusters.NoLateJoin(plan.pages) && PageClusters.Connected(plan.pages, i, j) ==>
              OneBook(plan, plan.pages[i].id, plan.pages[j].id)
  {
    hide ShelvesFor, PageClusters.FirstFit, PageClusters.NoLateJoin, PageClusters.Connected, OneBook, Together,
         PageClusters.Same, Merged, Tagless, Distinct;
    var pages := plan.pages;
    var cs := PageClusters.Members(PageClusters.FirstFit(pages));
    IdsDiffer(pages, i, j);
    OneBookIff(nm, cs, Tagless(pages), plan, pages[i].id, pages[j].id);
    PageClusters.TogetherIsSame(pages, i, j);
    if PageClusters.Same(pages, i, j) { PageClusters.SameEitherWay(pages, i, j); }
    if PageClusters.NoLateJoin(pages) && PageClusters.Connected(pages, i, j) { PageClusters.JoinedIsSame(pages, i, j); }
  }

  lemma {:induction false} IdsDiffer(pages: seq<Page>, i: nat, j: nat)
    requires Distinct(PageClusters.IdsOf(pages)) && i < |pages| && j < |pages|
    ensures pages[i].id == pages[j].id <==> i == j
  {
    var ids := PageClusters.IdsOf(pages);
    assert ids[i] == pages[i].id && ids[j] == pages[j].id;
  }

  /** Two stored pages with tag edges to one target, or to targets of one name, are linked, and
      stand in one book whenever no page joins two components of the pages before it. */
  lemma {:induction false} OneTagOneBook(nm: Naming, nodes: map<Id, Node>, edges: map<Id, Edge>, plan: Plan, p: Id,
                                         q: Id, e: Id, f: Id)
    returns (i: nat, j: nat)
    requires PlanFor(nm, nodes, edges, plan)
    requires p != q && p in nodes && nodes[p].kind == "page" && q in nodes && nodes[q].kind == "page"
    requires e in edges && edges[e].relation == "tag" && edges[e].source == p
    requires f in edges && edges[f].relation == "tag" && edges[f].source == q
    requires nm.tagName(edges[e].target) == nm.tagName(edges[f].target)
    ensures i < |plan.pages| && plan.pages[i].id == p && j < |plan.pages| && plan.pages[j].id == q
    ensures PageClusters.Connected(plan.pages, i, j)
    ensures PageClusters.NoLateJoin(plan.pages) ==>
              exists b :: 0 <= b < |plan.books| && plan.books[b].key != "__GENERAL__"
                          && p in plan.books[b].pages && q in plan.books[b].pages
  {
    hide PlanFor, PageClusters.Connected, PageClusters.NoLateJoin, PageClusters.Shares;
    i := PageOfPlan(nm, nodes, edges, plan, p);
    j := PageOfPlan(nm, nodes, edges, plan, q);
    SharesIff(nm, nodes, edges, plan, i, j);
    assert OneTag(nm, edges, p, q, e, f);
    LinkedByOne(plan.pages, i, j);
    BooksAreChains(nm, nodes, edges, plan, i, j);
  }

  lemma {:induction false} LinkedByOne(pages: seq<Page>, i: nat, j: nat)
    requires i < |pages| && j < |pages| && PageClusters.Shares(pages[i], pages[j])
    ensures PageClusters.Connected(pages, i, j)
  {
    Chains.ConnectedSelf(PageClusters.BySharing(pages), |pages|, i);
    PageClusters.ConnectedStep(pages, i, i, j);
  }

  /** So it is with pages whose rows suggest a common book. */
  lemma {:induction false} OneSuggestionOneBook(nm: Naming, nodes: map<Id, Node>, edges: map<Id, Edge>, plan: Plan,
                                                p: Id, q: Id, w: string)
    returns (i: nat, j: nat)
    requires PlanFor(nm, nodes, edges, plan)
    requires p != q && p in nodes && nodes[p].kind == "page" && q in nodes && nodes[q].kind == "page"
    requires w in nodes[p].props.suggestedBooks && w in nodes[q].props.suggestedBooks
    ensures i < |plan.pages| && plan.pages[i].id == p && j < |plan.pages| && plan.pages[j].id == q
    ensures PageClusters.Connected(plan.pages, i, j)
    ensures PageClusters.NoLateJoin(plan.pages) ==>
              exists b :: 0 <= b < |plan.books| && plan.books[b].key != "__GENERAL__"
                          && p in plan.books[b].pages && q in plan.books[b].pages
  {
    hide PlanFor, PageClusters.Connected, PageClusters.NoLateJoin, PageClusters.Shares;
    i := PageOfPlan(nm, nodes, edges, plan, p);
    j := PageOfPlan(nm, nodes, edges, plan, q);
    SharesIff(nm, nodes, edges, plan, i, j);
    LinkedByOne(plan.pages, i, j);
    BooksAreChains(nm, nodes, edges, plan, i, j);
  }

  // ---------------------------------------------------------------- the general book

  // A stored page other than `p` suggests a book that `p` suggests too.
  ghost predicate SuggestedElsewhere(nodes: map<Id, Node>, p: Id)
    requires p in nodes
  {
    exists q, w :: q in nodes && nodes[q].kind == "page" && q != p
                   && w in nodes[q].props.suggestedBooks && w in nodes[p].props.suggestedBooks
  }

  /** A page with a tag edge is never in the general book. A page without one is there when no
      other page suggests a book with it; and only then, whenever no page joins two components of
      the pages before it. */
  lemma {:induction false} GeneralHoldsLonePages(nm: Naming, nodes: map<Id, Node>, edges: map<Id, Edge>, plan: Plan,
                                                 p: Id)
    requires PlanFor(nm, nodes, edges, plan) && p in nodes && nodes[p].kind == "page"
    ensures InGeneralBook(plan, p) ==> forall e | e in edges && edges[e].relation == "tag" :: edges[e].source != p
    ensures (forall e | e in edges && edges[e].relation == "tag" :: edges[e].source != p) ==>
              !SuggestedElsewhere(nodes, p) ==> InGeneralBook(plan, p)
    ensures PageClusters.NoLateJoin(plan.pages) && InGeneralBook(plan, p) ==> !SuggestedElsewhere(nodes, p)
  {
    hide PlanFor, PageClusters.NoLateJoin, InGeneralBook, SuggestedElsewhere;
    var i := PageOfPlan(nm, nodes, edges, plan, p);
    TaglessPageIff(nm, nodes, edges, plan, i);
    GeneralInPlan(nm, nodes, edges, plan, i);
    if SuggestedElsewhere(nodes, p) {
      if PageClusters.NoLateJoin(plan.pages) { SuggestedIsNotAlone(nm, nodes, edges, plan, i); }
    } else if plan.pages[i].tags == {} {
      UnlinkedIsAlone(nm, nodes, edges, plan, i);
    }
  }

  lemma {:induction false} TaglessPageIff(nm: Naming, nodes: map<Id, Node>, edges: map<Id, Edge>, plan: Plan, i: nat)
    requires PlanFor(nm, nodes, edges, plan) && i < |plan.pages|
    ensures plan.pages[i].tags == {}
       <==> forall e | e in edges && edges[e].relation == "tag" :: edges[e].source != plan.pages[i].id
    ensures plan.pages[i].id in Tagless(plan.pages) <==> plan.pages[i].tags == {}
  {
    PagesCarryRows(nm, nodes, edges, plan, i);
    hide PlanFor;
    var p := plan.pages[i];
    if e :| e in edges && edges[e].relation == "tag" && edges[e].source == p.id {
      assert nm.tagName(edges[e].target) in p.tags;
    }
    if w :| w in p.tags {
      var e :| e in edges && edges[e].relation == "tag" && edges[e].source == p.id && nm.tagName(edges[e].target) == w;
    }
    PlanIdsDiffer(nm, nodes, edges, plan);
  }

  lemma {:induction false} PlanIdsDiffer(nm: Naming, nodes: map<Id, Node>, edges: map<Id, Edge>, plan: Plan)
    requires PlanFor(nm, nodes, edges, plan)
    ensures forall i, j | 0 <= i < |plan.pages| && 0 <= j < |plan.pages| && plan.pages[i].id == plan.pages[j].id ::
              i == j
  {
    forall i, j | 0 <= i < |plan.pages| && 0 <= j < |plan.pages| && plan.pages[i].id == plan.pages[j].id
      ensures i == j
    {
      IdsDiffer(plan.pages, i, j);
    }
  }

  // Page `i` is a cluster of its own.
  ghost predicate Alone(pages: seq<Page>, i: nat)
    requires i < |pages|
  {
    [pages[i].id] in PageClusters.Members(PageClusters.FirstFit(pages))
  }

  lemma {:induction false} GeneralInPlan(nm: Naming, nodes: map<Id, Node>, edges: map<Id, Edge>, plan: Plan, i: nat)
    requires PlanFor(nm, nodes, edges, plan) && i < |plan.pages|
    ensures InGeneralBook(plan, plan.pages[i].id)
       <==> Alone(plan.pages, i) && plan.pages[i].id in Tagless(plan.pages)
  {
    hide ShelvesFor, Merged, Tagless, InGeneralBook, PageClusters.FirstFit, Distinct;
    var cs := PageClusters.Members(PageClusters.FirstFit(plan.pages));
    GeneralIff(nm, cs, Tagless(plan.pages), plan, plan.pages[i].id);
  }

  lemma {:induction false} AloneIff(pages: seq<Page>, i: nat)
    requires Distinct(PageClusters.IdsOf(pages)) && i < |pages|
    ensures Alone(pages, i) <==> forall j: nat | j < |pages| && PageClusters.Same(pages, i, j) :: j == i
  {
    hide PageClusters.Same, PageClusters.FirstFit, Partitions;
    var cs := PageClusters.Members(PageClusters.FirstFit(pages));
    var p := pages[i].id;
    if Alone(pages, i) {
      var c :| 0 <= c < |cs| && cs[c] == [p];
      forall j: nat | j < |pages| && PageClusters.Same(pages, i, j) ensures j == i {
        PageClusters.TogetherIsSame(pages, i, j);
        OnlyMember(pages, c, i, j);
      }
    } else {
      HasCompany(pages, i);
    }
  }

  lemma {:induction false} OnlyMember(pages: seq<Page>, c: nat, i: nat, j: nat)
    requires Distinct(PageClusters.IdsOf(pages)) && i < |pages| && j < |pages|
    requires var cs := PageClusters.Members(PageClusters.FirstFit(pages));
             c < |cs| && cs[c] == [pages[i].id] && Together(cs, pages[i].id, pages[j].id)
    ensures i == j
  {
    hide PageClusters.FirstFit, Partitions;
    var cs := PageClusters.Members(PageClusters.FirstFit(pages));
    PageClusters.FirstFitPartitions(pages);
    var d :| 0 <= d < |cs| && pages[i].id in cs[d] && pages[j].id in cs[d];
    PartitionSeparates(cs, PageClusters.IdsOf(pages), c, d, pages[i].id);
    IdsDiffer(pages, i, j);
  }

  lemma {:induction false} HasCompany(pages: seq<Page>, i: nat)
    requires Distinct(PageClusters.IdsOf(pages)) && i < |pages| && !Alone(pages, i)
    ensures exists j: nat :: j < |pages| && PageClusters.Same(pages, i, j) && j != i
  {
    hide PageClusters.FirstFit, Partitions, PageClusters.Same;
    var cs, ids, p := PageClusters.Members(PageClusters.FirstFit(pages)), PageClusters.IdsOf(pages), pages[i].id;
    PageClusters.FirstFitPartitions(pages);
    assert ids[i] == p;
    PartitionCovers(cs, ids, p);
    var c :| 0 <= c < |cs| && p in cs[c];
    PartitionSeparates(cs, ids, c, c, p);
    assert cs[c] != [p];
    var k := AnotherMember(cs[c], p);
    var q := cs[c][k];
    PartitionCovers(cs, ids, q);
    var j :| 0 <= j < |ids| && ids[j] == q;
    assert Together(cs, p, q);
    PageClusters.TogetherIsSame(pages, i, j);
  }

  lemma {:induction false} AnotherMember(c: seq<Id>, p: Id) returns (k: nat)
    requires Distinct(c) && p in c && c != [p]
    ensures k < |c| && c[k] != p
  {
    assert c == [c[0]] + c[1..];
    k := if c[0] == p then 1 else 0;
  }

  lemma {:induction false} SuggestedIsNotAlone(nm: Naming, nodes: map<Id, Node>, edges: map<Id, Edge>, plan: Plan,
                                               i: nat)
    requires PlanFor(nm, nodes, edges, plan) && i < |plan.pages| && plan.pages[i].id in nodes
    requires PageClusters.NoLateJoin(plan.pages) && SuggestedElsewhere(nodes, plan.pages[i].id)
    ensures !Alone(plan.pages, i)
  {
    hide PageClusters.NoLateJoin, PageClusters.Same, PageClusters.Shares, PageClusters.Connected, Alone, ShelvesFor,
         PageClusters.FirstFit;
    var p := plan.pages[i].id;
    var q, w :| q in nodes && nodes[q].kind == "page" && q != p
                && w in nodes[q].props.suggestedBooks && w in nodes[p].props.suggestedBooks;
    var j := PageOfPlan(nm, nodes, edges, plan, q);
    SharesIff(nm, nodes, edges, plan, i, j);
    LinkedByOne(plan.pages, i, j);
    PageClusters.JoinedIsSame(plan.pages, i, j);
    AloneIff(plan.pages, i);
  }

  lemma {:induction false} UnlinkedIsAlone(nm: Naming, nodes: map<Id, Node>, edges: map<Id, Edge>, plan: Plan, i: nat)
    requires PlanFor(nm, nodes, edges, plan) && i < |plan.pages| && plan.pages[i].tags == {}
    requires plan.pages[i].id in nodes && !SuggestedElsewhere(nodes, plan.pages[i].id)
    ensures Alone(plan.pages, i)
  {
    hide PageClusters.Same, Alone, ShelvesFor, PageClusters.FirstFit;
    forall j: nat | j < |plan.pages| && j != i
      ensures !PageClusters.Shares(plan.pages[i], plan.pages[j]) && !PageClusters.Shares(plan.pages[j], plan.pages[i])
    {
      PagesCarryRows(nm, nodes, edges, plan, i);
      PagesCarryRows(nm, nodes, edges, plan, j);
      IdsDiffer(plan.pages, i, j);
      NothingInCommon(plan.pages[i], plan.pages[j]);
    }
    forall j: nat | j < |plan.pages| && PageClusters.Same(plan.pages, i, j) ensures j == i {
      PageClusters.SameEitherWay(plan.pages, i, j);
      UnlinkedStays(plan.pages, i, j);
    }
    AloneIff(plan.pages, i);
  }

  lemma {:induction false} NothingInCommon(p: Page, q: Page)
    requires p.tags == {} && forall w | w in q.books :: w !in p.books
    ensures !PageClusters.Shares(p, q) && !PageClusters.Shares(q, p)
  {
    assert p.books * q.books == {} && q.books * p.books == {};
  }

  lemma {:induction false} UnlinkedStays(pages: seq<Page>, i: nat, j: nat)
    requires i < |pages| && PageClusters.Connected(pages, i, j)
    requires forall k: nat | k < |pages| && k != i ::
               !PageClusters.Shares(pages[i], pages[k]) && !PageClusters.Shares(pages[k], pages[i])
    ensures j == i
  {
    hide PageClusters.Shares;
    var link, n := PageClusters.BySharing(pages), |pages|;
    var path :| Chains.Chain(link, n, path) && path[0] == i && path[|path| - 1] == j;
    var same: Chains.Link := (a: nat, b: nat) => (a == i) == (b == i);
    Chains.ChainKeeps(link, n, path, same);
  }

  // ---------------------------------------------------------------- the rows a rebuild leaves

  /** After a rebuild every book of the plan is stored as a book marked as generated, named by the
      fixed title if it is the general one and by its pages otherwise; every page of it has its
      edge. */
  lemma {:induction false} BookRows(nm: Naming, nodes: map<Id, Node>, edges: map<Id, Edge>, plan: Plan, b: Book)
    requires Ideal(nm.hash) && StoreInv(nodes, edges) && PlanFor(nm, nodes, edges, plan) && b in plan.books
    ensures var after := Synced(NodePolicy(), nodes, NodeTargets(plan.books, plan.shelves));
            && b.id in after && after[b.id].kind == "book" && after[b.id].props.source == "graphify_cluster"
            && after[b.id].title == if b.key == "__GENERAL__" then "General Conversations"
                                    else nm.shortName(b.pages, "suggested_books")
    ensures var after := Synced(EdgePolicy(), edges, EdgeTargets(plan.books, plan.shelves));
            forall p | p in b.pages ::
              var id := p + "-belongs_to-" + b.id;
              id in after && after[id].source == p && after[id].target == b.id && after[id].relation == "belongs_to"
  {
    hide Synced, ShelvesFor, PageClusters.FirstFit, Merged, SoundPlan, EdgeTargets, StoreInv, Ideal, BelongsToId;
    var i :| 0 <= i < |plan.books| && plan.books[i] == b;
    var ts := NodeTargets(plan.books, plan.shelves);
    RowsMatch(nm, nodes, edges, plan);
    assert ts[i] == BookNode(b) && ts[i] in ts;
    forall p | p in b.pages ensures BelongsTo(p, b.id) in EdgeTargets(plan.books, plan.shelves) {
      assert PageEdge(plan.books, i, BelongsTo(p, b.id));
      EdgesOfPages(plan.books, BelongsTo(p, b.id));
      InTargets(plan, BelongsTo(p, b.id));
    }
    forall p | p in b.pages ensures BelongsTo(p, b.id).id == p + "-belongs_to-" + b.id {
      SpelledOut(p, b.id);
    }
  }

  lemma {:induction false} SpelledOut(x: Id, home: Id)
    ensures BelongsToId(x, home) == x + "-belongs_to-" + home && SitsOnId(x, home) == x + "-sits_on-" + home
  {
  }

  lemma {:induction false} InTargets(plan: Plan, e: Edge)
    ensures e in FlatMap(PageEdges, plan.books) || e in FlatMap(ShelfEdges, plan.shelves) ==>
              e in EdgeTargets(plan.books, plan.shelves)
  {
  }

  lemma {:induction false} RowsMatch(nm: Naming, nodes: map<Id, Node>, edges: map<Id, Edge>, plan: Plan)
    requires Ideal(nm.hash) && StoreInv(nodes, edges) && PlanFor(nm, nodes, edges, plan)
    ensures var ts := NodeTargets(plan.books, plan.shelves);
            forall t | t in ts :: TargetStored(Synced(NodePolicy(), nodes, ts), t)
    ensures var es := EdgeTargets(plan.books, plan.shelves);
            forall e | e in es :: Mirrors(Synced(EdgePolicy(), edges, es), e)
  {
    hide Synced, ShelvesFor, PageClusters.FirstFit, Merged, SoundPlan, EdgeTargets, NodeTargets;
    var pages := PageClusters.IdsOf(plan.pages);
    PlansAreSound(nm, nodes, edges, plan);
    NodesAfterSync(nodes, plan.books, plan.shelves, pages);
    EdgesAfterSync(nodes, edges, plan.books, plan.shelves, pages);
  }

  // The books stand at these places of the plan.
  ghost predicate StandAt(books: seq<Book>, ids: seq<Id>, at: seq<nat>) {
    |at| == |ids| && forall k | 0 <= k < |at| :: at[k] < |books| && books[at[k]].id == ids[k]
  }

  function PagesAt(books: seq<Book>): nat -> seq<Id> {
    (k: nat) => if k < |books| then books[k].pages else []
  }

  lemma {:induction false} PagesOfTheBook(books: seq<Book>, k: nat)
    requires k < |books| && forall i, j | 0 <= i < j < |books| :: books[i].id != books[j].id
    ensures PagesOfBook(books, books[k].id) == books[k].pages
  {
    if k > 0 { PagesOfTheBook(books[1..], k - 1); }
  }

  lemma {:induction false} AllPagesAre(books: seq<Book>, ids: seq<Id>, at: seq<nat>)
    requires StandAt(books, ids, at) && forall i, j | 0 <= i < j < |books| :: books[i].id != books[j].id
    ensures AllPages(books, ids) == FlatMap(PagesAt(books), at)
  {
    if ids != [] {
      PagesOfTheBook(books, at[0]);
      AllPagesAre(books, ids[1..], at[1..]);
    }
  }

  /** Every shelf of the plan is stored as a shelf marked as generated, named by the pages of its
      books, book by book; every book on it has its edge. */
  lemma {:induction false} ShelfRows(nm: Naming, nodes: map<Id, Node>, edges: map<Id, Edge>, plan: Plan, s: Shelf,
                                     at: seq<nat>)
    requires Ideal(nm.hash) && StoreInv(nodes, edges) && PlanFor(nm, nodes, edges, plan) && s in plan.shelves
    requires |at| == |s.books|
    requires forall k | 0 <= k < |at| :: at[k] < |plan.books| && plan.books[at[k]].id == s.books[k]
    ensures var after := Synced(NodePolicy(), nodes, NodeTargets(plan.books, plan.shelves));
            && s.id in after && after[s.id].kind == "shelf" && after[s.id].props.source == "graphify_cluster"
            && var pagesAt := (k: nat) => if k < |plan.books| then plan.books[k].pages else [];
               after[s.id].title == nm.shortName(FlatMap(pagesAt, at), "suggested_shelves")
    ensures var after := Synced(EdgePolicy(), edges, EdgeTargets(plan.books, plan.shelves));
            forall b | b in s.books ::
              var id := b + "-sits_on-" + s.id;
              id in after && after[id].source == b && after[id].target == s.id && after[id].relation == "sits_on"
  {
    hide Synced, PageClusters.FirstFit, Merged, SoundPlan, EdgeTargets, StoreInv, Ideal, SitsOnId, FlatMap, AllPages,
         Partitions, BookClusters.Components, Together, BookClusters.Connected;
    var i :| 0 <= i < |plan.shelves| && plan.shelves[i] == s;
    var ts := NodeTargets(plan.books, plan.shelves);
    RowsMatch(nm, nodes, edges, plan);
    assert ts[|plan.books| + i] == ShelfNode(s) && ts[|plan.books| + i] in ts;
    assert s == MakeShelf(nm, plan.books, i + 1, s.books);
    PlanBookIdsDiffer(nm, nodes, edges, plan);
    AllPagesAre(plan.books, s.books, at);
    forall b | b in s.books ensures SitsOn(b, s.id) in EdgeTargets(plan.books, plan.shelves) {
      assert ShelfEdge(plan.shelves, i, SitsOn(b, s.id));
      EdgesOfShelves(plan.shelves, SitsOn(b, s.id));
      InTargets(plan, SitsOn(b, s.id));
    }
    forall b | b in s.books ensures SitsOn(b, s.id).id == b + "-sits_on-" + s.id {
      SpelledOut(b, s.id);
    }
  }

  lemma {:induction false} PlanBookIdsDiffer(nm: Naming, nodes: map<Id, Node>, edges: map<Id, Edge>, plan: Plan)
    requires Ideal(nm.hash) && PlanFor(nm, nodes, edges, plan)
    ensures forall i, j | 0 <= i < j < |plan.books| :: plan.books[i].id != plan.books[j].id
  {
    hide Partitions, PlanFor;
    PlansAreSound(nm, nodes, edges, plan);
    forall i, j | 0 <= i < j < |plan.books| ensures plan.books[i].id != plan.books[j].id {
      assert BookIds(plan.books)[i] != BookIds(plan.books)[j];
    }
  }

  /** A rebuild deletes just the rows marked as generated that it does not plan, and the edges in
      its namespace that it does not plan; it touches no other row. */
  lemma {:induction false} OtherRowsStay(nm: Naming, nodes: map<Id, Node>, edges: map<Id, Edge>, plan: Plan, id: Id)
    requires Ideal(nm.hash) && PlanFor(nm, nodes, edges, plan) && id in nodes
    requires (forall b | b in plan.books :: b.id != id) && forall s | s in plan.shelves :: s.id != id
    ensures var after := Synced(NodePolicy(), nodes, NodeTargets(plan.books, plan.shelves));
            if nodes[id].props.source == "graphify_cluster" then id !in after
            else id in after && after[id] == nodes[id]
  {
    hide Synced, PlanFor, SoundPlan, DistinctIds;
    var books, shelves := plan.books, plan.shelves;
    var p, ts := NodePolicy(), NodeTargets(books, shelves);
    PlansAreSound(nm, nodes, edges, plan);
    NodeTargetsDistinct(books, shelves, PageClusters.IdsOf(plan.pages));
    SyncedTable(p, nodes, ts);
    forall i | 0 <= i < |ts| ensures p.id(ts[i]) != id {
      if i < |books| {
        assert ts[i] == BookNode(books[i]) && books[i] in books;
      } else {
        assert ts[i] == ShelfNode(shelves[i - |books|]) && shelves[i - |books|] in shelves;
      }
    }
  }

  lemma {:induction false} OtherEdgesGo(nm: Naming, nodes: map<Id, Node>, edges: map<Id, Edge>, plan: Plan, id: Id)
    requires Ideal(nm.hash) && PlanFor(nm, nodes, edges, plan) && id in edges
    requires forall b, p | b in plan.books && p in b.pages :: id != p + "-belongs_to-" + b.id
    requires forall s, b | s in plan.shelves && b in s.books :: id != b + "-sits_on-" + s.id
    ensures var after := Synced(EdgePolicy(), edges, EdgeTargets(plan.books, plan.shelves));
            if "book-" <= id || (exists i: nat :: OccursAt(id, "-sits_on-shelf-", i))
               || exists i: nat :: OccursAt(id, "-belongs_to-book-", i)
            then id !in after
            else id in after && after[id] == edges[id]
  {
    hide Synced, PlanFor, SoundPlan, DistinctIds, EdgeTargets, OccursAt;
    var books, shelves, pages := plan.books, plan.shelves, PageClusters.IdsOf(plan.pages);
    var p, ts := EdgePolicy(), EdgeTargets(books, shelves);
    PlansAreSound(nm, nodes, edges, plan);
    EdgeTargetsDistinct(books, shelves, pages);
    SyncedTable(p, edges, ts);
    forall i | 0 <= i < |ts| ensures p.id(ts[i]) != id {
      EdgeTargetsAre(books, shelves, pages, ts[i]);
      if c: nat :| PageEdge(books, c, ts[i]) {
        SpelledOut(ts[i].source, books[c].id);
      } else {
        var c: nat :| ShelfEdge(shelves, c, ts[i]);
        SpelledOut(ts[i].source, shelves[c].id);
      }
    }
    OwnedIff(id);
  }

  lemma {:induction false} OwnedIff(id: Id)
    ensures OwnedEdgeId(id)
       <==> "book-" <= id || (exists i: nat :: OccursAt(id, "-sits_on-shelf-", i))
            || exists i: nat :: OccursAt(id, "-belongs_to-book-", i)
  {
    forall t, i: nat | OccursAt(id, t, i) ensures Contains(id, t) {
      assert i <= |id|;
    }
  }

  // ---------------------------------------------------------------- which books share a shelf

  lemma {:induction false} ShelfBooksAre(nm: Naming, nodes: map<Id, Node>, edges: map<Id, Edge>, plan: Plan)
    requires Ideal(nm.hash) && PlanFor(nm, nodes, edges, plan)
    ensures Distinct(BookIds(plan.books))
    ensures BookLists(plan.shelves) == BookClusters.Components(BookIds(plan.books), KeywordSets(nm, plan.books))
  {
    hide BookClusters.Components, Partitions, Together, BookClusters.Connected, Merged, PageClusters.FirstFit,
         SoundPlan, ShelvesOf;
    PlanBookIdsDiffer(nm, nodes, edges, plan);
    ShelvesListGroups(nm, plan.books, BookClusters.Components(BookIds(plan.books), KeywordSets(nm, plan.books)));
  }

  lemma {:induction false} ShelvesListGroups(nm: Naming, books: seq<Book>, groups: seq<seq<Id>>)
    ensures BookLists(ShelvesOf(nm, books, groups)) == groups
  {
    hide MakeShelf;
    forall i | 0 <= i < |groups| ensures MakeShelf(nm, books, i + 1, groups[i]).books == groups[i] {
      ShelfHolds(nm, books, i + 1, groups[i]);
    }
  }

  lemma {:induction false} ShelfHolds(nm: Naming, books: seq<Book>, n: nat, ids: seq<Id>)
    ensures MakeShelf(nm, books, n, ids).books == ids
  {
  }

  /** Books whose names have a keyword in common are put on one shelf. */
  lemma {:induction false} CommonKeywordOneShelf(nm: Naming, nodes: map<Id, Node>, edges: map<Id, Edge>, plan: Plan,
                                                 a: Book, b: Book, w: string)
    requires Ideal(nm.hash) && PlanFor(nm, nodes, edges, plan) && a in plan.books && b in plan.books
    requires w in nm.keywords(a.title) && w in nm.keywords(b.title)
    ensures exists s :: s in plan.shelves && a.id in s.books && b.id in s.books
  {
    hide BookClusters.Components, PlanFor, Ideal;
    ShelfBooksAre(nm, nodes, edges, plan);
    var i :| 0 <= i < |plan.books| && plan.books[i] == a;
    var j :| 0 <= j < |plan.books| && plan.books[j] == b;
    ShelfOrder.CommonWordOneShelf(BookIds(plan.books), KeywordSets(nm, plan.books), i, j, w);
    var g :| 0 <= g < |plan.shelves| && a.id in BookLists(plan.shelves)[g] && b.id in BookLists(plan.shelves)[g];
    assert plan.shelves[g] in plan.shelves;
  }

  /** Books of one shelf are alike in whatever is alike for books with a keyword in common. */
  lemma {:induction false} ShelfIsOneChain(nm: Naming, nodes: map<Id, Node>, edges: map<Id, Edge>, plan: Plan,
                                           colour: Book -> int, a: Book, b: Book, s: Shelf)
    requires Ideal(nm.hash) && PlanFor(nm, nodes, edges, plan) && a in plan.books && b in plan.books
    requires s in plan.shelves && a.id in s.books && b.id in s.books
    requires forall x, y, w | x in plan.books && y in plan.books
                              && w in nm.keywords(x.title) && w in nm.keywords(y.title) :: colour(x) == colour(y)
    ensures colour(a) == colour(b)
  {
    hide BookClusters.Components, PlanFor, Ideal;
    ShelfBooksAre(nm, nodes, edges, plan);
    var i :| 0 <= i < |plan.books| && plan.books[i] == a;
    var j :| 0 <= j < |plan.books| && plan.books[j] == b;
    var g :| 0 <= g < |plan.shelves| && plan.shelves[g] == s;
    var byPlace: nat -> int := (k: nat) => if k < |plan.books| then colour(plan.books[k]) else 0;
    ShelfOrder.ShelvesAreFinest(BookIds(plan.books), KeywordSets(nm, plan.books), byPlace, i, j, g);
  }

  // ---------------------------------------------------------------- numbers and ids

  lemma {:induction false} NumberKept(cs: seq<seq<Id>>, tagless: set<Id>, n: nat, c: nat)
    requires c < n <= |cs| && !Lonely(cs[c], tagless)
    ensures Community(Decimal(c + 1), cs[c]) in Regular(cs, tagless, n)
  {
    if c < n - 1 { NumberKept(cs, tagless, n - 1, c); }
  }

  /** Books and shelves bear the numbers of their clusters, counted from 1 with the lone pages that
      go to the general book; and each is listed with just the members of its cluster. */
  lemma {:induction false} BooksAreNumbered(nm: Naming, nodes: map<Id, Node>, edges: map<Id, Edge>, plan: Plan, c: nat)
    requires PlanFor(nm, nodes, edges, plan)
    ensures var cs := PageClusters.Members(PageClusters.FirstFit(plan.pages));
            c < |cs| && !(|cs[c]| == 1 && cs[c][0] in Tagless(plan.pages)) ==>
              exists b :: b in plan.books && b.key == Decimal(c + 1) && b.pages == cs[c]
    ensures c < |plan.shelves| ==> plan.shelves[c].key == Decimal(c + 1)
  {
    hide PageClusters.FirstFit, BookClusters.Components, Together, BookClusters.Connected, Partitions, Merged, Decimal;
    var cs, tagless := PageClusters.Members(PageClusters.FirstFit(plan.pages)), Tagless(plan.pages);
    if c < |cs| && !Lonely(cs[c], tagless) {
      NumberKept(cs, tagless, |cs|, c);
      InMerged(cs, tagless, Community(Decimal(c + 1), cs[c]));
      var k :| 0 <= k < |Merged(cs, tagless)| && Merged(cs, tagless)[k] == Community(Decimal(c + 1), cs[c]);
      assert plan.books[k] == MakeBook(nm, Merged(cs, tagless)[k]) && plan.books[k] in plan.books;
    }
  }

  lemma {:induction false} InMerged(cs: seq<seq<Id>>, tagless: set<Id>, c: Community)
    requires c in Regular(cs, tagless, |cs|)
    ensures c in Merged(cs, tagless)
  {
  }

  /** Ids spelled out: the hash of the number and the sorted members, with dashes between. */
  lemma {:induction false} IdsSpelledOut(h: Hashing, key: string, x: Id, y: Id)
    requires h.sorted([y, x]) == [x, y] && h.sorted([x]) == [x]
    ensures BookId(h, key, [x]) == "book-" + h.digest(key + "-" + x)
    ensures BookId(h, key, [y, x]) == "book-" + h.digest(key + "-" + x + "-" + y)
    ensures ShelfId(h, key, [x]) == "shelf-" + h.digest(key + "-" + x)
    ensures Decimal(7) == "7" && Decimal(10) == "10"
  {
    JoinTwo(key, [x]);
    JoinTwo(key, [x, y]);
    JoinTwo(x, [y]);
    assert [x] + [y] == [x, y] && JoinDash([x]) == x && JoinDash([y]) == y;
    assert key + "-" + (x + "-" + y) == key + "-" + x + "-" + y;
    assert Decimal(1) == "1";
  }

  lemma {:induction false} JoinTwo(a: string, rest: seq<string>)
    requires rest != []
    ensures JoinDash([a] + rest) == a + "-" + JoinDash(rest)
  {
    assert ([a] + rest)[1..] == rest;
  }

  /** A row the store had nothing under is written whole: a book with the number of its pages, a
      shelf with the number of its books, an edge with its ends and the weight 1. */
  lemma {:induction false} NewRowsAreWhole(nm: Naming, nodes: map<Id, Node>, edges: map<Id, Edge>, plan: Plan)
    requires Ideal(nm.hash) && PlanFor(nm, nodes, edges, plan)
    ensures var after := Synced(NodePolicy(), nodes, NodeTargets(plan.books, plan.shelves));
            && (forall b | b in plan.books && b.id !in nodes ::
                  b.id in after
                  && after[b.id] == Node(b.id, "book", b.title, Props("graphify_cluster", |b.pages|, b.key, {})))
            && (forall s | s in plan.shelves && s.id !in nodes ::
                  s.id in after
                  && after[s.id] == Node(s.id, "shelf", s.title, Props("graphify_cluster", |s.books|, s.key, {})))
    ensures var after := Synced(EdgePolicy(), edges, EdgeTargets(plan.books, plan.shelves));
            && (forall b, p | b in plan.books && p in b.pages && p + "-belongs_to-" + b.id !in edges ::
                  var id := p + "-belongs_to-" + b.id;
                  id in after && after[id] == Edge(id, p, b.id, "belongs_to", 1.0))
            && (forall s, b | s in plan.shelves && b in s.books && b + "-sits_on-" + s.id !in edges ::
                  var id := b + "-sits_on-" + s.id;
                  id in after && after[id] == Edge(id, b, s.id, "sits_on", 1.0))
  {
    hide Synced, PlanFor, SoundPlan, DistinctIds, EdgeTargets, NodeTargets, Ideal;
    PlansAreSound(nm, nodes, edges, plan);
    NewNodes(plan.books, plan.shelves, PageClusters.IdsOf(plan.pages), nodes);
    NewEdges(plan.books, plan.shelves, PageClusters.IdsOf(plan.pages), edges);
  }

  lemma {:induction false} NewNodes(books: seq<Book>, shelves: seq<Shelf>, pages: seq<Id>, nodes: map<Id, Node>)
    requires SoundPlan(books, shelves, pages)
    ensures var after := Synced(NodePolicy(), nodes, NodeTargets(books, shelves));
            && (forall b | b in books && b.id !in nodes :: b.id in after && after[b.id] == BookNode(b))
            && (forall s | s in shelves && s.id !in nodes :: s.id in after && after[s.id] == ShelfNode(s))
  {
    hide Synced, SoundPlan, DistinctIds;
    var p, ts := NodePolicy(), NodeTargets(books, shelves);
    NodeTargetsDistinct(books, shelves, pages);
    SyncedTable(p, nodes, ts);
    forall b | b in books && b.id !in nodes
      ensures b.id in Synced(p, nodes, ts) && Synced(p, nodes, ts)[b.id] == BookNode(b)
    {
      var i :| 0 <= i < |books| && books[i] == b;
      assert p.id(ts[i]) == b.id;
    }
    forall s | s in shelves && s.id !in nodes
      ensures s.id in Synced(p, nodes, ts) && Synced(p, nodes, ts)[s.id] == ShelfNode(s)
    {
      var i :| 0 <= i < |shelves| && shelves[i] == s;
      assert p.id(ts[|books| + i]) == s.id;
    }
  }

  lemma {:induction false} NewEdges(books: seq<Book>, shelves: seq<Shelf>, pages: seq<Id>, edges: map<Id, Edge>)
    requires SoundPlan(books, shelves, pages)
    ensures var after := Synced(EdgePolicy(), edges, EdgeTargets(books, shelves));
            && (forall b, p | b in books && p in b.pages && p + "-belongs_to-" + b.id !in edges ::
                  var id := p + "-belongs_to-" + b.id;
                  id in after && after[id] == Edge(id, p, b.id, "belongs_to", 1.0))
            && (forall s, b | s in shelves && b in s.books && b + "-sits_on-" + s.id !in edges ::
                  var id := b + "-sits_on-" + s.id;
                  id in after && after[id] == Edge(id, b, s.id, "sits_on", 1.0))
  {
    hide Synced, SoundPlan, DistinctIds, EdgeTargets;
    var after := Synced(EdgePolicy(), edges, EdgeTargets(books, shelves));
    forall b, p | b in books && p in b.pages && p + "-belongs_to-" + b.id !in edges
      ensures var id := p + "-belongs_to-" + b.id;
              id in after && after[id] == Edge(id, p, b.id, "belongs_to", 1.0)
    {
      var i :| 0 <= i < |books| && books[i] == b;
      assert PageEdge(books, i, BelongsTo(p, b.id));
      SpelledOut(p, b.id);
      NewEdge(books, shelves, pages, edges, BelongsTo(p, b.id));
    }
    forall s, b | s in shelves && b in s.books && b + "-sits_on-" + s.id !in edges
      ensures var id := b + "-sits_on-" + s.id; id in after && after[id] == Edge(id, b, s.id, "sits_on", 1.0)
    {
      var i :| 0 <= i < |shelves| && shelves[i] == s;
      assert ShelfEdge(shelves, i, SitsOn(b, s.id));
      SpelledOut(b, s.id);
      NewEdge(books, shelves, pages, edges, SitsOn(b, s.id));
    }
  }

  lemma {:induction false} NewEdge(books: seq<Book>, shelves: seq<Shelf>, pages: seq<Id>, edges: map<Id, Edge>, e: Edge)
    requires SoundPlan(books, shelves, pages) && e.id !in edges
    requires (exists c: nat :: PageEdge(books, c, e)) || exists c: nat :: ShelfEdge(shelves, c, e)
    ensures var after := Synced(EdgePolicy(), edges, EdgeTargets(books, shelves));
            e.id in after && after[e.id] == e
  {
    hide Synced, SoundPlan, DistinctIds, EdgeTargets;
    var p, ts := EdgePolicy(), EdgeTargets(books, shelves);
    EdgeTargetsAre(books, shelves, pages, e);
    EdgeTargetsDistinct(books, shelves, pages);
    SyncedTable(p, edges, ts);
    var i :| 0 <= i < |ts| && ts[i] == e;
    assert p.id(ts[i]) == e.id;
  }
}
