# Verified model of the HydrAgent runtime

This project models the parts of HydrAgent that carry state through loops and interleavings, and
proves what they are for. `dafny verify dfyconfig.toml` checks all of it.

* **Streaming reply** (`Utf8`, `Markers`, `Segments`, `ReasoningDetector`, `MarkedReply`): the
  detector that splits a token stream into final and reasoning text refines a scanner of the whole
  reply, so the chunking is invisible, and for the markers it ships with text outside blocks is
  shown as final and text inside as reasoning; it loses no byte, holds back at most 18, and slices
  only at character boundaries. Everything rests on `GoodCandidates`, which the shipped tables
  satisfy.
* **Library graph** (`Sequences`, `Partition`, `Chains`, `PageClusters`, `BookClusters`,
  `ShelfOrder`, `GraphIds`, `TableSync`, `GraphBuilder`, `GraphForest`, `BooksFromRows`): greedy
  page clusters, union-find over books, and the minimal-diff sync compose to the theorem that every
  rebuild leaves a forest, also after the library's own clusterer has written to the tables.
  `BooksFromRows` says in terms of the rows which pages and books come together. `LibraryTree` is
  the browser over the same rows, `TreeLines` says what its lines show and where they stand, and
  `RebuiltLibrary` says when it lists everything exactly once.
* **Event bus** (`EventBus`, `BusClient`, `BusSession`): the reader, handler, request tasks and
  writer of one connection as steps of a state machine, the client's frame loop, and the two
  composed: in every state of every interleaving each turn answered so far returned the reply to its
  own line.
* **Telegram adapter** (`Permissions`, `PageManager`): permission futures that clicks, timeouts and
  shutdown race to settle, and the active page of every chat.
* **Prompt** (`LineText`, `LineEditor`, `TypedLine`): the raw-mode line editor over UTF-8 bytes refines
  an editor with the text left and right of its cursor; what is typed is what is submitted.
* **Smaller cores** (`Metrics`, `ClientRegistry`, `EnvFile`): recall and reciprocal rank bound each
  other, the WebSocket registry under interleaving, and the `.env` patch as a lens.

A state machine is a datatype `State`, a predicate `Enabled` and a function `Next`; runs are
sequences of steps, and theorems about runs speak of all of them. A class holds the fields the
program updates, and each of its methods is proved equal to a step or a function of the old state.

## Where the code and its documentation part

* The comment at `crates/hydragent-core/src/cli_repl.rs:4914-4916` says `flush` resets the
  detector. Only the held-back text is cleared; the model follows the code, and by
  `ReasoningDetector.FreshAfterFlush` the detector is fresh again exactly when the reference scan of
  the text ends outside a block.
* The docstring at `graphing/builder.py:274-278` puts lone books on one "General Archive" shelf. The
  code leaves each on its own; `BookClusters.ClusterBooks` proves what the code does.
* JSON-RPC 2.0 section 5 (Response object) excludes a response with both `result` and `error` and
  wants a null id on parse errors. The bus writes both keys and the string "null". So the errors of
  the bus never surface as errors in its own client (`BusSession.BusErrorsAreSilent`).
* "Every other line in the file is preserved verbatim" (`crates/hydragent-core/src/cli_repl.rs:4062`)
  holds exactly when each of those lines ends in a newline with no carriage return before it
  (`EnvFile.OthersVerbatimIff`).
* A stored row is kept when its label alone agrees (`graphing/builder.py:181`), so a kept book may
  carry an old page count (`GraphForest.KeptCountCanBeWrong`). `GraphForest.KeptCountIff` says exactly
  when it is right; with the page ids that the program makes itself it is
  (`GraphForest.CountsStayRight`, `GraphIds.ProgramIdsAreHeaded`). Ids given by users and e-mail
  addresses may hold any dashes.

## What does not hold, and when it does

| claim | where it fails | exactly when it holds |
|---|---|---|
| page clusters are connected components | `PageClusters.ClustersCanSplitAComponent` | `PageClusters.ClustersAreComponentsIff` |
| equal book ids mean equal pages | `GraphIds.StableIdsForgetMembers` | `GraphIds.StableIdsEqualIff`; always over uniform ids: `GraphIds.UniformIdsIdentify` |
| the expanded tree lists each page once | `LibraryTree.VirtualIdsCanClash`, `RebuiltLibrary.DeadLinkHidesPage` | `LibraryTree.PageListedOnceIff`; for every order of the rows: `RebuiltLibrary.PageAlwaysOnceIff` |
| the count of a kept row is right | `GraphForest.KeptCountCanBeWrong` | `GraphForest.KeptCountIff` |
| a rebuild lists each page once | `RebuiltLibrary.ForestCanLoseAPage` | `RebuiltLibrary.RebuiltPageOnceIff`, `RebuiltLibrary.RebuiltBookOnceIff` |
| a chat's active page stays valid | `PageManager.Dangles` | `PageManager.ActiveStaysIff` |
| Ctrl+Right then Ctrl+Left returns | away from word starts | `LineText.WordJumpReturnsIff` |
| a bus error reaches the client as one | `BusSession.BusErrorsAreSilent` | `BusClient.ErrorSurfacesIff` |
| a detector is fresh after a reply | a block left open | `ReasoningDetector.FreshAfterFlush` |
| a patch keeps the other lines verbatim | an end of line other than a plain newline | `EnvFile.OthersVerbatimIff` |
| patching a file twice is patching once | a line ends in a bare carriage return | `EnvFile.PatchFileTwiceIff` |
| recall is at most 1 | `Metrics.RepeatsInflateRecall` | `Metrics.RecallBoundedIff` |

## Model

| member | source | states |
|---|---|---|
| Markers.ShippedTablesAreGood | crates/hydragent-core/src/cli_repl.rs:4776-4791 | the shipped markers are valid UTF-8 of at most 15 bytes, none empty, and none occurs inside another of its table |
| Markers.MarkerPersists | crates/hydragent-core/src/cli_repl.rs:4832-4836 | a marker seen in the text at hand is the one seen there in every extension |
| Markers.NoneStaysNone | crates/hydragent-core/src/cli_repl.rs:4864-4870 | more text cannot create a marker where 15 bytes are known or a later marker is complete |
| Segments.CoalesceIsRuns | crates/hydragent-core/src/cli_repl.rs:6365-6385 | merging neighbours of one kind depends only on which byte has which kind |
| ReasoningDetector.FindFirstMarker | crates/hydragent-core/src/cli_repl.rs:4931-4947 | searching for each candidate in turn finds the leftmost place where any marker starts, and its length |
| ReasoningDetector.HoldBack | crates/hydragent-core/src/cli_repl.rs:4870-4895 | a text of at most 15 bytes is held whole; otherwise the cut is the last character boundary at least 15 bytes before the end, never before the cursor |
| ReasoningDetector.ReasoningDetector.Feed | crates/hydragent-core/src/cli_repl.rs:4818-4901 | the cursor walk emits the segments and leaves the state that the specification `FeedOnce` gives; all slices are at character boundaries |
| ReasoningDetector.ReasoningDetector.Flush | crates/hydragent-core/src/cli_repl.rs:4917-4928 | emits the held-back text, as reasoning inside a block and as final text outside, clears it and keeps the block state |
| ReasoningDetector.ProcessRefinesScan | crates/hydragent-core/src/cli_repl.rs:4837-4900 | what a walk emits, followed by the scan of what it holds back and any further text, is the scan of the whole |
| ReasoningDetector.ReplyIsReferenceScan | crates/hydragent-core/src/cli_repl.rs:4818-4928 | for every text and chunking, the merged segments of all feeds and the flush are the runs of the whole-text scanner |
| ReasoningDetector.ChunkingIsInvisible | crates/hydragent-core/src/cli_repl.rs:4814-4817 | two chunkings of one text show the same merged segments and leave the same state |
| ReasoningDetector.FeedAllConserves | crates/hydragent-core/src/cli_repl.rs:4826-4900 | emitted text with the swallowed markers between, then the held-back tail, rebuild the input; each swallowed marker belongs to the table in force |
| ReasoningDetector.ProcessHoldsLittle | crates/hydragent-core/src/cli_repl.rs:4866-4895 | the held-back tail is at most 15 bytes plus 3 to reach a character boundary |
| ReasoningDetector.MarkerOnBoundaries | crates/hydragent-core/src/cli_repl.rs:4839-4862 | a marker found in valid text starts and ends at character boundaries, so no slice can panic |
| ReasoningDetector.FreshAfterFlush | crates/hydragent-core/src/cli_repl.rs:4914-4918 | the block state that survives a reply and its flush is the one in which the reference ends on the whole text, from either start |
| ReasoningDetector.StreamReply | crates/hydragent-core/src/cli_repl.rs:3616-3680 | a fresh detector fed chunk by chunk and flushed shows the reply that `MarkedReply` speaks of: the reference scan of the whole text, whose final state it is left in |
| MarkedReply.PlainTextIsFinal | crates/hydragent-core/src/cli_repl.rs:4848-4928 | however it is cut, a text in which no shipped opening marker occurs is shown as final text, whole |
| MarkedReply.OneBlock | crates/hydragent-core/src/cli_repl.rs:4776-4928 | however a reply of text, opening marker, text, closing marker, text is cut, its three texts are shown as final, reasoning and final, when each marker is the first of its sort; the markers are spelled as characters |
| MarkedReply.BlocksAreReasoning | crates/hydragent-core/src/cli_repl.rs:4776-4928 | so it is with any number of blocks: texts outside are final, texts inside reasoning, no marker is shown, and no block stays open |
| MarkedReply.UnclosedBlockIsReasoning | crates/hydragent-core/src/cli_repl.rs:4837-4928 | a last block without a closing marker is reasoning to the end and stays open |
| PageClusters.ClusterPages | graphing/builder.py:244-269 | the greedy sweeps compute first fit: one pass in which each page joins the first cluster it shares something with |
| PageClusters.FirstFitPartitions | graphing/builder.py:245-269 | clusters are non-empty and hold every page exactly once |
| PageClusters.FirstFitGrows | graphing/builder.py:252-267 | each cluster lists pages in input order, and every one but the seed shares a tag or suggested book with an earlier member |
| PageClusters.MembersConnectToSeed | graphing/builder.py:263-267 | every member of a cluster is joined to its seed by a chain of sharing pages |
| PageClusters.ClustersCanSplitAComponent | graphing/builder.py:257-267 | an instance: two connected pages in different clusters |
| PageClusters.ClustersAreComponentsIff | graphing/builder.py:244-269 | the clusters are the connected components of the sharing relation exactly when no page joins two components of the pages before it |
| BookClusters.HalvingKeepsForest | graphing/builder.py:291-295 | path halving keeps the parent map acyclic and every root |
| BookClusters.LinkingMergesClasses | graphing/builder.py:297-298 | hanging a root under another keeps the forest; the roots are those with the two classes merged |
| BookClusters.UnionFind.Find | graphing/builder.py:291-295 | terminates with the root of the class and changes no root |
| BookClusters.UnionFind.Union | graphing/builder.py:297-298 | merges exactly the classes of its arguments |
| BookClusters.ClassesAreComponents | graphing/builder.py:302-308 | once all pairs are seen, two books have one root if and only if a chain of keyword-sharing books joins them |
| BookClusters.GroupByRoot | graphing/builder.py:310-314 | one group per root, in order of first appearance, each listing its class in input order |
| BookClusters.GroupingsAgree | graphing/builder.py:310-317 | the ordered list of shelves depends on which books share a root only, not on which book is the root |
| BookClusters.ClusterBooks | graphing/builder.py:288-317 | the shelves partition the books, two books share a shelf if and only if a chain of keyword-sharing books joins them, and shelves come by their first books, each in input order |
| ShelfOrder.CommonWordOneShelf | graphing/builder.py:302-308 | two books with a keyword in common stand on one shelf |
| ShelfOrder.ShelvesAreFinest | graphing/builder.py:302-317 | whatever is alike for books with a common keyword is alike for all books of a shelf, so nothing else brings books together |
| ShelfOrder.ShelvesKeepOrder | graphing/builder.py:310-317 | shelves come in the order of their first books, and the books of a shelf in the order given |
| TableSync.Table.LoadAll | graphing/data_access.py:24-38 | every row once |
| TableSync.Table.Write | graphing/data_access.py:41-46 | inserts or replaces the row of its key and no other |
| TableSync.Table.Sync | graphing/builder.py:172-196 | leaves the table `Synced` describes, with one change per differing target and per stale row |
| TableSync.SyncedTable | graphing/builder.py:178-196 | key by key: targets hold themselves or the row that stands for them, rows neither owned nor targeted are untouched, nothing else is left |
| TableSync.ChangesCount | graphing/builder.py:178-196 | a sync writes once per target that the table lacks and deletes once per owned row that is no target |
| TableSync.OwnedKeysAreTargets | graphing/builder.py:174-196 | after a sync the owned keys are exactly the targets' |
| TableSync.SyncIsIdempotent | graphing/builder.py:172-196 | a second sync with the same targets writes and deletes nothing |
| GraphIds.StableIdsFollowKeys | graphing/builder.py:30-32 | within one rebuild stable ids differ, because dash-free community keys do |
| GraphIds.StableIdsEqualIff | graphing/builder.py:30-32 | two stable ids are equal exactly when their keys are and their sorted members fall into the same dash-free pieces |
| GraphIds.SameSizeIff | graphing/builder.py:30-32 | two member lists with one stable id are of one size exactly when they hold equally many dashes |
| GraphIds.UniformIdsIdentify | graphing/builder.py:30-32 | over ids whose first piece tells how many follow, or of one length, a stable id identifies its key and its members |
| GraphIds.ProgramIdsAreHeaded | crates/hydragent-core/src/cli_repl.rs:852 | the page ids that the program makes are of the first sort, mixed at will: `chat-`, `ws-`, `web-`, `discord-`, `slack-`, `telegram-room-` with a UUID, and plain UUIDs |
| GraphIds.StableIdsForgetMembers | graphing/builder.py:30-32 | the book of one page z has the id of the book of two pages x and y exactly when z is "x-y" |
| GraphIds.BelongsToIdInjective | graphing/builder.py:124-130 | the id of a belongs_to edge determines both its ends |
| GraphIds.SitsOnIdInjective | graphing/builder.py:160-166 | the id of a sits_on edge determines both its ends |
| GraphIds.RelationsDoNotMix | graphing/builder.py:124-166 | no belongs_to edge has the id of a sits_on edge |
| GraphIds.GeneratedEdgesAreOwned | graphing/builder.py:176 | every edge the builder makes lies in the namespace its sync treats as its own |
| GraphBuilder.MergePartitions | graphing/builder.py:92-103 | collecting the lone untagged pages in one book loses and repeats no page |
| GraphBuilder.BookIdsDistinct | graphing/builder.py:109-122 | the books of one rebuild have different ids |
| GraphBuilder.ShelfIdsDistinct | graphing/builder.py:141-158 | the shelves of one rebuild have different ids |
| GraphBuilder.MergeGeneral | graphing/builder.py:92-103 | the loop over communities computes `Merged`: lone untagged pages in one last community, the others kept in order |
| GraphBuilder.PlanBookRows | graphing/builder.py:105-130 | the loop yields one row per book and one edge per page of it |
| GraphBuilder.PlanShelfRows | graphing/builder.py:138-166 | the loop yields one row per shelf and one edge per book on it |
| GraphBuilder.LibraryGraphBuilder.LoadPages | graphing/data_access.py:10-71 | exactly the stored pages, each once, with the suggested books of its row and with a tag exactly when a tag edge leads from it to something of that name |
| GraphBuilder.LibraryGraphBuilder.Rebuild | graphing/builder.py:80-170 | without pages nothing changes; otherwise both tables are synced to the plan made of first-fit books and keyword-component shelves, which `BooksFromRows` ties to the rows |
| GraphForest.PlansAreSound | graphing/builder.py:86-166 | a rebuild's books partition the pages, its shelves partition the books, and all ids differ |
| GraphForest.EdgeTargetsDistinct | graphing/builder.py:124-169 | no two target edges share an id, and the sync owns them all |
| GraphForest.EdgesAfterSync | graphing/builder.py:188-196 | the owned edges of the store are exactly the target edges |
| GraphForest.OtherEdgesStay | graphing/builder.py:193-196 | edges outside the generator's namespace are untouched |
| GraphForest.LinkedRowsFit | crates/hydragent-memory/src/library.rs:276 | the books, shelves and links that the library's own clusterer writes satisfy the store invariant |
| GraphForest.TagEdgeFitsIff | crates/hydragent-memory/src/library.rs:248-256 | a tag edge satisfies it exactly when its id is not that of an edge the builder could draw over the stored pages |
| GraphForest.TagEdgeFits | crates/hydragent-memory/src/library.rs:248-256 | the tag edges of such books and shelves do, whatever the tag, when no page id goes on from theirs with "->tag:" |
| GraphForest.NodesAfterSync | graphing/builder.py:178-186 | the owned nodes of the store are exactly the targets, with their kinds and titles, and pages are untouched |
| GraphForest.RebuildLeavesForest | graphing/builder.py:80-170 | each page has exactly one belongs_to edge to a stored book, each book exactly one sits_on edge to a stored shelf, no owned edge dangles, and the books hold as many pages as there are |
| GraphForest.SecondSyncIsFree | graphing/builder.py:172-196 | syncing a plan again writes and deletes no node and no edge |
| GraphForest.KeptCountIff | graphing/builder.py:180-182 | for every target of a plan: a row the sync writes has its count, one it keeps has it exactly when the members it was made for hold as many dashes as the target's, and shelves always have it |
| GraphForest.RowsStayMade | graphing/builder.py:178-186 | after a sync every stored book and shelf of the builder still was made for some members |
| GraphForest.CountsStayRight | graphing/builder.py:178-182 | when first pieces tell how many follow, as in the ids the program makes, every stored count stays right, though rows are compared by label only |
| GraphForest.KeptCountCanBeWrong | graphing/builder.py:181-182 | the row of the page "x-y" is kept, count and all, for the book of the pages x and y under the same label |
| GraphBuilder.PagesFixThePlan | graphing/builder.py:80-166 | the plan of a rebuild is a function of the loaded pages |
| GraphForest.SecondPlanIsFirst | graphing/builder.py:80-196 | when no page tag lies in the sync's namespace, a second whole rebuild that loads the pages in the same order plans the same and writes and deletes nothing |
| GraphForest.RebuildTwice | graphing/builder.py:80-196 | so two rebuilds in a row change no row the second time |
| GraphForest.BuildLibrary | graphing/builder.py:80-170 | keeps the store invariant, so every rebuild of any sequence leaves a forest |
| BooksFromRows.PagesCarryRows | graphing/data_access.py:10-71 | the pages of a plan are stored page rows; each has the suggested books of its row, and a tag w exactly when a stored tag edge leads from it to a target named w |
| BooksFromRows.SharesIff | graphing/builder.py:254-263 | two pages share something exactly when tag edges lead from both to one name or their rows suggest a common book |
| BooksFromRows.OneTagOneBook | graphing/builder.py:244-269 | two stored pages with tag edges to one name are linked, and stand in one numbered book whenever no page joins two components of the pages before it |
| BooksFromRows.OneSuggestionOneBook | graphing/builder.py:244-269 | so are and do two stored pages whose rows suggest a common book |
| BooksFromRows.BooksAreChains | graphing/builder.py:244-269 | pages in one numbered book are joined by a chain of sharing pages, and the other way round under that condition |
| BooksFromRows.GeneralHoldsLonePages | graphing/builder.py:92-103 | a page with a tag edge is never in the general book; one without is there if no other page suggests a book with it, and under that condition only if so |
| BooksFromRows.BooksAreNumbered | graphing/builder.py:92-103 | books and shelves bear the numbers of their clusters and list just their members |
| BooksFromRows.CommonKeywordOneShelf | graphing/builder.py:272-317 | books of a plan whose names have a keyword in common are on one shelf |
| BooksFromRows.ShelfIsOneChain | graphing/builder.py:272-317 | books of one shelf are alike in whatever is alike for books with a common keyword |
| BooksFromRows.BookRows | graphing/builder.py:105-130 | after a rebuild each book is stored as one, marked as generated and named "General Conversations" or by its pages, and each page of it has its belongs_to edge |
| BooksFromRows.ShelfRows | graphing/builder.py:141-166 | after a rebuild each shelf is stored as one, named by the pages of its books in order, and each book on it has its sits_on edge |
| BooksFromRows.NewRowsAreWhole | graphing/builder.py:117-166 | rows the store had nothing under are written whole, with counts, community and weight |
| BooksFromRows.OtherRowsStay | graphing/builder.py:174-186 | a node that is no target is deleted if marked as generated and untouched if not |
| BooksFromRows.OtherEdgesGo | graphing/builder.py:176-196 | an edge that is no target is deleted exactly when its id starts with "book-" or holds "-sits_on-shelf-" or "-belongs_to-book-" |
| LibraryTree.BuildTree | crates/hydragent-core/src/cli_repl.rs:5777-5859 | the loops over rows fill the lists and maps with each entry under its home, the virtual ones added when needed, all expanded |
| LibraryTree.Render | crates/hydragent-core/src/cli_repl.rs:5875-5937 | a redraw lists shelves, books and pages as the specification `Visible` does, or the one dummy line |
| LibraryTree.ExpandedCounts | crates/hydragent-core/src/cli_repl.rs:5879-5926 | a page is listed once per entry of its book per entry of that book's shelf |
| LibraryTree.PageListedOnceIff | crates/hydragent-core/src/cli_repl.rs:5820-5845 | exactly when the fully expanded tree lists a stored page once |
| LibraryTree.BookListedOnceIff | crates/hydragent-core/src/cli_repl.rs:5826-5845 | exactly when the fully expanded tree lists a stored book once |
| LibraryTree.VirtualIdsCanClash | crates/hydragent-core/src/cli_repl.rs:5831-5845 | on concrete rows whose edges all lead to stored nodes: a stored book under the virtual book's id makes a page without a book appear twice |
| LibraryTree.ToggleShelf | crates/hydragent-core/src/cli_repl.rs:5879-5926 | toggling a shelf changes its own line and removes or inserts exactly the lines below it |
| LibraryTree.ToggleBook | crates/hydragent-core/src/cli_repl.rs:5895-5923 | toggling a book changes, in the block of its shelf, its own line and removes or inserts exactly its pages |
| LibraryTree.ToggleBookOnScreen | crates/hydragent-core/src/cli_repl.rs:5879-5926 | on the whole screen it does so on an open shelf, and nothing on a collapsed one |
| LibraryTree.ToggleBookElsewhere | crates/hydragent-core/src/cli_repl.rs:5893-5925 | shelves without the toggled book keep their lines |
| TreeLines.LinesStandUnderTheirHomes | crates/hydragent-core/src/cli_repl.rs:5780-5926 | for any rows and any nodes expanded, each line shows a stored row or one of the virtual two, with the right marks; each page stands below the book, and each book below the shelf, to which its last edge leads |
| TreeLines.ListsKeepRowOrder | crates/hydragent-core/src/cli_repl.rs:5785-5830 | shelves, the books of a shelf and the pages of a book are listed in the order of their rows |
| TreeLines.ScreenOfFive | crates/hydragent-core/src/cli_repl.rs:5780-5926 | a whole screen, line by line |
| RebuiltLibrary.LastRowDecides | crates/hydragent-core/src/cli_repl.rs:5802-5811 | of several edges of a relation from a node the last row decides where it lives |
| RebuiltLibrary.PageAlwaysOnceIff | crates/hydragent-core/src/cli_repl.rs:5777-5926 | in any store, a page is listed exactly once for every order of the rows if and only if each book and shelf it may live under is stored or virtual, and not both |
| RebuiltLibrary.BookAlwaysOnceIff | crates/hydragent-core/src/cli_repl.rs:5777-5926 | the companion for books |
| RebuiltLibrary.RebuiltPageOnceIff | crates/hydragent-core/src/cli_repl.rs:5777-5926 | after a rebuild a page is listed exactly once for every order if and only if its book is safe and each foreign edge from it leads to a safe book |
| RebuiltLibrary.RebuiltBookOnceIff | crates/hydragent-core/src/cli_repl.rs:5777-5926 | after a rebuild a generated book is, if and only if each foreign edge from it leads to a stored or the virtual shelf |
| RebuiltLibrary.GeneratedBookSafeIff | crates/hydragent-core/src/cli_repl.rs:5826-5841 | after a rebuild a generated book is safe if and only if each foreign sits_on edge from it leads to a stored or the virtual shelf |
| RebuiltLibrary.RebuiltPageUnderItsBook | crates/hydragent-core/src/cli_repl.rs:5777-5926 | where nobody else has drawn edges, a page stands once, under the book the rebuild gave it, and that on its shelf |
| RebuiltLibrary.LinksLeaveBooksAlone | crates/hydragent-memory/src/library.rs:276 | when all foreign edges are links, right after a rebuild every generated book is listed exactly once, and a page exactly when each of its links leads to a safe book |
| RebuiltLibrary.DeadLinkHidesPage | crates/hydragent-core/src/cli_repl.rs:6160 | on concrete rows: a link that outlives its book makes the page vanish from the tree |
| RebuiltLibrary.ForestCanLoseAPage | crates/hydragent-core/src/cli_repl.rs:6160 | as a store those rows satisfy the invariant and form a forest, and yet the page is not always listed once |
| EventBus.StepMovesLine | crates/hydragent-bus/src/lib.rs:80-157 | each step moves an inbound line from one place to the next; only a dead writer loses one |
| EventBus.StepKeepsInv | crates/hydragent-bus/src/lib.rs:72-159 | every step keeps each line in exactly one place, replies proper, notices before responses and queues within their bound |
| EventBus.ResponsesAreSound | crates/hydragent-bus/src/lib.rs:115-158 | in every interleaving a line has at most one response, under its request's id, or as error -32700 under "null" when garbled, and error -32601 when its method is unknown; what its handler sent while running precedes it; queues hold at most 100 |
| EventBus.WireCarriesReturns | crates/hydragent-bus/src/lib.rs:141-157 | in every run the response on the wire to a request is the one its handler returned, and every notice one that its handler sent |
| EventBus.HandlersReturnOnce | crates/hydragent-bus/src/lib.rs:141-157 | no handler returns twice for one line |
| EventBus.NothingSaidIsLost | crates/hydragent-bus/src/lib.rs:97-157 | notices are written in the order sent, none left out while the writer lives; once the queues drain, what each handler returned is on the wire |
| EventBus.LinesAreTakenInOrder | crates/hydragent-bus/src/lib.rs:80-141 | the handler takes up lines in the order in which they were read |
| EventBus.DrainedMeansAllAnswered | crates/hydragent-bus/src/lib.rs:97-158 | once the queues drain on a live connection every line read has exactly one response |
| EventBus.NeverStuck | crates/hydragent-bus/src/lib.rs:72-75 | the bounded queues cannot deadlock while the writer lives |
| EventBus.StepsUseUpWork | crates/hydragent-bus/src/lib.rs:80-157 | every step but a notification leaves strictly less work |
| EventBus.RunsAreBounded | crates/hydragent-bus/src/lib.rs:80-157 | a run is no longer than the work at its start plus two steps per notification |
| EventBus.CanAlwaysFinish | crates/hydragent-bus/src/lib.rs:80-157 | from every sound live state the bus can go on until everything read is answered |
| EventBus.Router.Register | crates/hydragent-bus/src/router.rs:23-25 | adds a handler or replaces the one of that name |
| EventBus.Router.Route | crates/hydragent-bus/src/router.rs:27-44 | a registered method gets its handler's reply, any other the method-not-found error under the request's id |
| BusClient.BusClient.SendIntent | adapters/hydragent_py/bus_impl.py:70-168 | the frame loop has the outcome of `RunTurn` and reads no frame past it; with a callback it answers the k-th permission request read, under its own id and the k-th fresh one, with the callback's decision on it, and without one it answers none |
| BusClient.TurnReadsToItsAnswer | adapters/hydragent_py/bus_impl.py:95-162 | a turn passes over all frames up to the first that answers its id, and takes its outcome from that one |
| BusClient.TurnEndsAtOwnAnswer | adapters/hydragent_py/bus_impl.py:95-168 | nothing but a frame that answers its own id, a malformed notification or the end of input ends a turn |
| BusClient.SessionCorrelates | adapters/hydragent_py/bus_impl.py:95-168 | over consecutive turns, with stale frames interleaved at will, turn i returns the content of the result bearing its own id |
| BusClient.ErrorSurfacesIff | adapters/hydragent_py/bus_impl.py:156-162 | an answer raises the bus error exactly when it has no result key and an error with a message, and with that message |
| BusClient.FramesInTurn | adapters/hydragent_py/bus_impl.py:101-168 | what each sort of frame does to a turn: own results end it, tokens are added, all else that breaks nothing is passed over |
| BusClient.CrashesIff | adapters/hydragent_py/bus_impl.py:110-162 | exactly which frames crash the client |
| BusClient.TokensInOrder | adapters/hydragent_py/bus_impl.py:119-160 | streamed tokens are returned joined in the order in which they came |
| BusClient.StaleTokensLeak | adapters/hydragent_py/bus_impl.py:119-160 | without content in its result a turn returns the tokens it read, an earlier turn's among them |
| BusSession.FrameAnswersIff | crates/hydragent-bus/src/message.rs:13-19 | on the wire exactly the response with a turn's id answers that turn; notifications, known to the client or not, answer none |
| BusSession.BusErrorsAreSilent | crates/hydragent-bus/src/message.rs:13-19 | no turn over frames of the bus raises an error, because an error is written with a null result |
| BusSession.PacedRunIsOrdered | adapters/hydragent_py/bus_impl.py:70-84 | if a client opens a turn only after the one before is answered, responses to turns stand on the wire in turn order |
| BusSession.PacedStateIsSound | adapters/hydragent_py/bus_impl.py:70-84 | in every state of such a run turns are answered at most once, in order, each after all earlier ones |
| BusSession.OnlyOwnResponseAnswers | crates/hydragent-bus/src/lib.rs:145-157 | with fresh ids, the only frame that answers a request is the response to its line |
| BusSession.SessionOverTheBus | adapters/hydragent_py/bus_impl.py:70-168 | in every state of every interleaving of bus and acknowledgements, each turn answered so far returns the content of what the handler of its own line returned in the run |
| BusSession.UnansweredTurnEndsWithInput | adapters/hydragent_py/bus_impl.py:95-168 | a turn whose answer never reaches the wire reads to the end of input and returns the tokens it read |
| Permissions.PermissionDesk.Ask | adapters/channels/telegram/telegram_adapter.py:1262-1270 | registers an open future under the request's id |
| Permissions.PermissionDesk.HandleCallback | adapters/channels/telegram/telegram_adapter.py:1517-1547 | a click settles the open future of its id in a chat that may act, raises when that is settled already, and otherwise changes nothing |
| Permissions.PermissionDesk.RunOut | adapters/channels/telegram/telegram_adapter.py:1272-1282 | a timeout cancels an open future and overrules a settled one with a denial |
| Permissions.PermissionDesk.Decide | adapters/channels/telegram/telegram_adapter.py:1272-1284 | the transaction takes approval exactly from a future resolved with it, and its id leaves the table |
| Permissions.PermissionDesk.SendResponse | adapters/channels/telegram/telegram_adapter.py:1307-1320 | sends one response, the decision, under the id of the request |
| Permissions.PermissionDesk.PostStop | adapters/channels/telegram/telegram_adapter.py:2677-2685 | denies every open future in the table and clears it |
| Permissions.StepKeepsInv | adapters/channels/telegram/telegram_adapter.py:1267-1320 | every step keeps one response per transaction and every decision to approve tied to a future resolved with approval |
| Permissions.FutureSettlesOnce | adapters/channels/telegram/telegram_adapter.py:1544-1547 | a settled future never changes, and an open one becomes approved exactly by an Approve click that may act and finds it in the table |
| Permissions.ApprovalGoesBackToClick | adapters/channels/telegram/telegram_adapter.py:1544-1547 | over every run an approved future goes back to the click that found it open |
| Permissions.RespondsAreSound | adapters/channels/telegram/telegram_adapter.py:1267-1320 | over every interleaving a request is answered at most once, and as approved only if an Approve click was first to settle its future |
| Permissions.ApprovedIffDecided | adapters/channels/telegram/telegram_adapter.py:1272-1320 | over every run, each response goes back to the one step that ended its transaction's wait, and approves if and only if that step woke it to a future resolved with approval |
| Permissions.RespondSendsOne | adapters/channels/telegram/telegram_adapter.py:1307-1320 | a decided transaction sends one response, with its decision and under its id, and no other step sends any |
| Permissions.ApprovalIsSent | adapters/channels/telegram/telegram_adapter.py:1272-1320 | a transaction that still waits when its future is approved can go on and then sends an approval |
| Permissions.FutureSettlesHow | adapters/channels/telegram/telegram_adapter.py:1544-1547 | exactly which steps approve, deny and cancel an open future |
| Permissions.AnsweredIsGone | adapters/channels/telegram/telegram_adapter.py:1283-1320 | an answered request is gone from the table; with distinct ids so is its id, and no id is answered twice |
| Permissions.ShutdownSettlesAll | adapters/channels/telegram/telegram_adapter.py:2677-2685 | shutdown leaves open exactly the open futures the table had lost, none with distinct ids, and no request made before is approved after it |
| Permissions.UnlistedIsNeverApproved | adapters/channels/telegram/telegram_adapter.py:1544-1547 | over every run a future whose id leads elsewhere or nowhere is never approved again |
| Permissions.RepeatedIdShadows | adapters/channels/telegram/telegram_adapter.py:1267-1268 | over every run, when an id is asked under again the earlier future can no longer be approved |
| Permissions.ClickGoesToShadow | adapters/channels/telegram/telegram_adapter.py:1545-1547 | a click after the repetition settles the later future |
| PageManager.PageManager.GetPages | adapters/channels/telegram/telegram_adapter.py:757-792 | the pages the chat can see, with a first page made when there is none and a dangling active page replaced |
| PageManager.PageManager.CreatePage | adapters/channels/telegram/telegram_adapter.py:794-807 | adds a row owned by the chat and makes it active |
| PageManager.PageManager.GetActivePageId | adapters/channels/telegram/telegram_adapter.py:809-812 | from any state, an existing page the chat can see |
| PageManager.PageManager.GetActivePageTitle | adapters/channels/telegram/telegram_adapter.py:814-820 | the title of that page; the "Unknown Page" fallback is never needed |
| PageManager.PageManager.SetActivePage | adapters/channels/telegram/telegram_adapter.py:822-825 | sets the active page without a check |
| PageManager.PageManager.RenamePage | adapters/channels/telegram/telegram_adapter.py:827-835 | changes the title of the rows of that id and nothing else |
| PageManager.PageManager.DeletePage | adapters/channels/telegram/telegram_adapter.py:837-875 | succeeds exactly when the chat has two pages; then the page is gone, the chat has one left and a valid active page |
| PageManager.PagesAre | adapters/channels/telegram/telegram_adapter.py:761-773 | the pages of a chat are the page rows that name no chat or this one, the first such row first |
| PageManager.FirstLookup | adapters/channels/telegram/telegram_adapter.py:775-784 | a chat that can see no page gets one of its own, "General Chat", which becomes active |
| PageManager.LaterLookup | adapters/channels/telegram/telegram_adapter.py:788-792 | any other lookup changes no row; it keeps an active page the chat can see and goes to the first it can see otherwise |
| PageManager.DeletionSpelledOut | adapters/channels/telegram/telegram_adapter.py:837-875 | a deletion goes through exactly when two rows show in the chat, takes out the row of that id, and moves the chat from it to the first page left |
| PageManager.DeleteLeavesAPage | adapters/channels/telegram/telegram_adapter.py:837-870 | after a deletion the chat's pages are the old ones less the deleted, at least one, and the active page is among them |
| PageManager.FetchRepairs | adapters/channels/telegram/telegram_adapter.py:775-790 | looking pages up leaves a valid active page whatever the state was |
| PageManager.ActiveStaysIff | adapters/channels/telegram/telegram_adapter.py:757-875 | an operation leaves a chat's active page valid unless it switches the chat to a page it cannot see or deletes the page from another chat |
| PageManager.RowsSurvive | adapters/channels/telegram/telegram_adapter.py:827-846 | no operation but a deletion of that very row takes a page away |
| PageManager.RunsKeepActivePages | adapters/channels/telegram/telegram_adapter.py:757-875 | over every sequence of operations in any chats ids stay distinct and the next lookup yields a visible active page |
| LineText.EncodeOfChars | crates/hydragent-core/src/cli_repl.rs:5488-5506 | splitting a line into characters and joining them gives the line back |
| LineText.InsertAtOffset | crates/hydragent-core/src/cli_repl.rs:5610-5616 | inserting at the byte offset of a character position inserts at that position and keeps the line valid |
| LineText.DrainAtOffset | crates/hydragent-core/src/cli_repl.rs:5392-5421 | draining the bytes found at a character position removes exactly that character |
| LineText.WordJumpReturnsIff | crates/hydragent-core/src/cli_repl.rs:5484-5513 | Ctrl+Right then Ctrl+Left returns exactly from the start of the line and from word starts |
| LineText.JumpRight | crates/hydragent-core/src/cli_repl.rs:5502-5508 | skips the rest of the word and the spaces after it |
| LineText.JumpLeft | crates/hydragent-core/src/cli_repl.rs:5486-5493 | skips spaces and the word before them |
| LineEditor.Prompt.InsertChar | crates/hydragent-core/src/cli_repl.rs:5609-5620 | puts the character left of the cursor and leaves the menu and the history |
| LineEditor.Prompt.EraseBack | crates/hydragent-core/src/cli_repl.rs:5392-5407 | drops the last character on the left |
| LineEditor.Prompt.EraseForward | crates/hydragent-core/src/cli_repl.rs:5409-5422 | drops the first character on the right |
| LineEditor.Prompt.Move | crates/hydragent-core/src/cli_repl.rs:5484-5525 | moves text between the two sides and changes none of it |
| LineEditor.Prompt.Complete | crates/hydragent-core/src/cli_repl.rs:5424-5438 | Tab replaces the line by the selected entry unless that has a placeholder |
| LineEditor.Prompt.ArrowUp | crates/hydragent-core/src/cli_repl.rs:5440-5461 | moves in the menu, or recalls the line before and saves the draft |
| LineEditor.Prompt.ArrowDown | crates/hydragent-core/src/cli_repl.rs:5463-5482 | moves in the menu, or recalls the line after and at last the draft |
| LineEditor.Prompt.Submit | crates/hydragent-core/src/cli_repl.rs:5527-5558 | takes the selected entry unless the line spells it, otherwise submits and stores the line; its unchecked index is valid |
| LineEditor.Prompt.ReadLine | crates/hydragent-core/src/cli_repl.rs:5026-5623 | the key loop over bytes has the outcome of the two-sided editor on the same keys |
| LineEditor.PressKeepsInv | crates/hydragent-core/src/cli_repl.rs:5392-5620 | every key keeps a recalled index in range and a selection past 0 below the number of matches |
| LineEditor.ReadIsSound | crates/hydragent-core/src/cli_repl.rs:5026-5623 | the invariant holds for every key sequence, and a read appends at most one entry to the history, never an empty or repeated one |
| LineEditor.FreshReadIsSound | crates/hydragent-core/src/cli_repl.rs:4984-5026 | from an empty line the invariant holds for every key sequence and the history stays tidy |
| LineEditor.UpsThenDownsRestoreDraft | crates/hydragent-core/src/cli_repl.rs:5440-5482 | outside the menu k times Up then k times Down restore the draft, for every k |
| LineEditor.UpsThenDownsInMenu | crates/hydragent-core/src/cli_repl.rs:5440-5470 | in the menu k times Up then k times Down change nothing |
| TypedLine.TypedTextIsSubmitted | crates/hydragent-core/src/cli_repl.rs:5527-5620 | typing any text at a fresh prompt and pressing Enter submits that text, unless the menu has entries for it, and adds what trimming leaves to the history unless that is empty or last there |
| TypedLine.TypingInserts | crates/hydragent-core/src/cli_repl.rs:5609-5620 | characters typed in a row stand left of the cursor in that order |
| TypedLine.KeysToTheLeft | crates/hydragent-core/src/cli_repl.rs:5392-5525 | what typing a character, Backspace, Left and Home do to the texts left and right of the cursor |
| TypedLine.KeysToTheRight | crates/hydragent-core/src/cli_repl.rs:5409-5525 | what Delete, Right and End do to them |
| TypedLine.JumpsBack | crates/hydragent-core/src/cli_repl.rs:5484-5493 | Ctrl+Left goes back over spaces and the word before them, each as far as it goes |
| TypedLine.JumpsOn | crates/hydragent-core/src/cli_repl.rs:5500-5508 | Ctrl+Right goes over the rest of the word and the spaces after it, each as far as it goes |
| TypedLine.ArrowsInMenu | crates/hydragent-core/src/cli_repl.rs:5440-5470 | Up and Down in the menu go round its entries |
| TypedLine.TakingAnEntry | crates/hydragent-core/src/cli_repl.rs:5424-5558 | Tab takes the selected entry, and Enter does when the line does not spell it: a slash, the entry and a space; an entry with a placeholder is not taken |
| TypedLine.ArrowsInHistory | crates/hydragent-core/src/cli_repl.rs:5440-5482 | Up and Down outside the menu walk the history and come back to the line saved |
| Metrics.ReciprocalRank | crates/hydragent-bench/src/metrics.rs:28-35 | the inverse of the first place of the relevant document, or 0 |
| Metrics.RecallIsEarlyHit | crates/hydragent-bench/src/metrics.rs:18-24 | Recall@K is 1 exactly when the first hit is among the first K |
| Metrics.RankScoreIs | crates/hydragent-bench/src/metrics.rs:28-35 | the score of a query whose first relevant document stands at place i |
| Metrics.RankWithinRecalls | crates/hydragent-bench/src/metrics.rs:18-35 | per query the recalls bound the reciprocal rank from both sides, with the ranks that meet each bound |
| Metrics.ComputeSkillBench | crates/hydragent-bench/src/runner.rs:39-61 | the loop over tasks averages each metric over the suite |
| Metrics.ScoresAreShares | crates/hydragent-bench/src/runner.rs:39-61 | each average recall is the share of the queries answered among the first one, three and five |
| Metrics.RecallsBoundMrr | crates/hydragent-bench/src/runner.rs:39-61 | for every suite R1 <= R3 <= R5 and R1 + (R3-R1)/3 + (R5-R3)/5 <= MRR <= R1 + (R3-R1)/2 + (R5-R3)/4 + (1-R5)/6, and when each bound is met |
| Metrics.PrfIsBounded | crates/hydragent-bench/src/metrics.rs:46-64 | with distinct ids precision and recall are the shares of common documents, F1 is twice the common over the sum of sizes, all within 0 and 1 |
| Metrics.PrfCounts | crates/hydragent-bench/src/metrics.rs:46-64 | repeats included, precision and recall count the retrieved places that hold a relevant id, and F1 is their harmonic mean |
| Metrics.RecallBoundedIff | crates/hydragent-bench/src/metrics.rs:50-56 | recall is at most 1 whatever is relevant, exactly when no id is retrieved twice |
| Metrics.RepeatsInflateRecall | crates/hydragent-bench/src/metrics.rs:50-56 | an instance with recall 2 |
| Metrics.ComputeGolden | crates/hydragent-bench/src/runner.rs:65-87 | the averages over the golden set, within 0 and 1 when retrieved ids are distinct |
| Metrics.RunTaskBench | crates/hydragent-bench/src/runner.rs:185-245 | each bucket counts the tasks and passes of its difficulty, for exactly the difficulties that occur |
| Metrics.BucketsCount | crates/hydragent-bench/src/runner.rs:206-213 | a bucket counts the tasks, and the passed ones, of its difficulty |
| Metrics.BucketsHoldAll | crates/hydragent-bench/src/runner.rs:206-213 | the buckets together count every task once |
| ClientRegistry.Registry.Join | adapters/channels/websocket/websocket_adapter.py:378-394 | a new connection is registered under its first page |
| ClientRegistry.Registry.ChangePage | adapters/channels/websocket/websocket_adapter.py:429-435 | the entry moves to the new page; an empty page changes nothing |
| ClientRegistry.Registry.Leave | adapters/channels/websocket/websocket_adapter.py:481-483 | the connection's entry is gone |
| ClientRegistry.Registry.Snapshot | adapters/channels/websocket/websocket_adapter.py:166-167 | lists every registered client once |
| ClientRegistry.BroadcastPush | adapters/channels/websocket/websocket_adapter.py:169-182 | tries exactly the addressed clients of the snapshot, in order, and counts the sends that succeed |
| ClientRegistry.StepKeepsInv | adapters/channels/websocket/websocket_adapter.py:393-483 | every step keeps the registry equal to the open connections under their current pages |
| ClientRegistry.PushesAreSound | adapters/channels/websocket/websocket_adapter.py:150-182 | in every interleaving a push reaches a connection at most once, only if open and addressed when it started, and when through has tried every such one |
| ClientRegistry.PushFollowsTheSnapshot | adapters/channels/websocket/websocket_adapter.py:166-182 | a client that has changed its page since still gets the push for the old one |
| EnvFile.PatchEnvKey | crates/hydragent-core/src/cli_repl.rs:4063-4092 | rewrites the first line that sets or comments out the key or appends one, says which, and writes nothing when the file cannot be read |
| EnvFile.PatchSpelledOut | crates/hydragent-core/src/cli_repl.rs:4074-4088 | KEY=VALUE takes the place of the first line that, white space at its start aside, begins with "KEY=" or "# KEY=", or is added after all lines |
| EnvFile.LinesOfJoin | crates/hydragent-core/src/cli_repl.rs:4073-4089 | reading written lines back gives them less one carriage return at each end |
| EnvFile.RawLinesAre | crates/hydragent-core/src/cli_repl.rs:4073 | the raw lines, ends included, make up the file, and without their ends they are its lines |
| EnvFile.PatchedRawLines | crates/hydragent-core/src/cli_repl.rs:4073-4089 | a patch gives every raw line a plain end, turns the first match into the assignment and adds it without a match |
| EnvFile.OthersVerbatimIff | crates/hydragent-core/src/cli_repl.rs:4062-4089 | a patch keeps every raw line but the first match verbatim exactly when each of those ends in a newline with no carriage return before it |
| EnvFile.PatchThenLookup | crates/hydragent-core/src/cli_repl.rs:4074-4088 | the patched key reads as its new value |
| EnvFile.PatchKeepsOthers | crates/hydragent-core/src/cli_repl.rs:4074-4088 | every other key reads as before |
| EnvFile.PatchKeepsLines | crates/hydragent-core/src/cli_repl.rs:4078-4088 | all lines but the matched one are kept in order, or one is appended |
| EnvFile.PatchTwice | crates/hydragent-core/src/cli_repl.rs:4078-4088 | patching lines twice is patching once with the last value |
| EnvFile.PatchIsIdleIff | crates/hydragent-core/src/cli_repl.rs:4078-4088 | a patch changes nothing exactly when the first match already spells the assignment |
| EnvFile.PatchedFileReads | crates/hydragent-core/src/cli_repl.rs:4063-4092 | on whole files the patched key reads as its new value and every other as before, but for a carriage return at the end of its value |
| EnvFile.PatchFileTwiceIff | crates/hydragent-core/src/cli_repl.rs:4063-4092 | on whole files patching twice is patching once exactly when no other line ends in a carriage return |

## Left out

* The `graphify_cluster` path of `graphing/builder.py:200-240`: an unseen library. Only the fallback
  clustering is modelled.
* Hashing: ids are built from a digest assumed free of collisions and dashes (`GraphIds.Ideal`);
  the truncated digest of the program can collide.
* Labels, keywords and stop words: the short-name generator and the word extraction are parameters
  of `GraphBuilder`.
* SQLite: statements succeed, node ids are keys, and rows come in any order; a failed statement,
  transactions and the tables of messages that a deleted page takes with it are not modelled.
* JSON: decoding yields the frames, requests and properties that the datatypes list; encoding is
  faithful.
* Sockets, clocks and random ids: fresh identifiers and the outcome of a send are parameters, and a
  timeout is a step that may come at any time.
* The accept loop of the bus and the registration of channels: one connection is modelled, its
  threads and tasks as steps of one machine rather than as loops.
* Messages a handler's own background tasks send after the handler returned: notices come from
  running handlers.
* The completion lists of the prompt, the trimming of a submitted line, the drawing of the menu,
  the mode switch and the model picker: the first two are parameters fixed during a read.
* The text of permission prompts and their redrawing.
* Saving and loading the active-page map, the migration of old rooms and the graph regeneration
  after each page operation.
* The shutdown of the WebSocket server, which clears the registry at
  `adapters/channels/websocket/websocket_adapter.py:522-524`.
* Grading of task answers: the verdict on a task is a parameter of `Metrics.RunTaskBench`.
* Rounding: metrics are real numbers.
* Keyboard handling of the library browser beyond collapsing and expanding.
* Slash commands, banner, spinner, the D3 templates, the vault, the audit chain, the swarm, rate
  limits and the adapters of other channels.
* Pages whose ids look like generated ones (`book-` or `shelf-` and no further dash): a rebuild could
  overwrite them, and the store invariant of `GraphForest` has none.
* Tag edges whose id is that of an edge the builder could draw: the store invariant has none
  (`GraphForest.TagEdgeFitsIff`). A page tag in the sync's namespace, such as one that contains
  "-sits_on-shelf-", is deleted by a rebuild; `GraphForest.SecondPlanIsFirst` assumes none.
* Handlers that never return: `EventBus.NeverStuck` and `EventBus.CanAlwaysFinish` let every running
  handler return.
- Metrics.PrfIsBounded: its fractions need distinct retrieved ids; `Metrics.RecallBoundedIff` says that
  nothing less will do.
