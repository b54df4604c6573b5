/** The WebSocket adapter's registry of clients: connections come, change their page and go while
    pushes fan out over snapshots of the registry. */
module ClientRegistry {
  import opened Option

  datatype Entry = Entry(page: string, conn: nat)

  datatype Connection = Connection(page: string, open: bool)

  datatype Attempt = Attempt(entry: Entry, ok: bool)

  // A push works through its snapshot one client at a time; `log` holds its sends.
  datatype Push = Push(target: Option<string>, snapshot: seq<Entry>, next: nat, log: seq<Attempt>)

  datatype State = State(conns: seq<Connection>, clients: set<Entry>, pushes: seq<Push>)

  const START: State := State([], {}, [])

  /** No target, the empty one and "*" address every client. */
  predicate Addresses(target: Option<string>, page: string) {
    target.None? || target.value == "" || target.value == "*" || target.value == page
  }

  // ---------------------------------------------------------------- steps

  datatype Step =
    | Connect(page: string)
    | SetPage(conn: nat, page: string)    // the requested page, stripped
    | Disconnect(conn: nat)
    | StartPush(target: Option<string>, snapshot: seq<Entry>)
    | Send(push: nat, ok: bool)

  ghost predicate Lists(snapshot: seq<Entry>, clients: set<Entry>) {
    && (forall e :: e in snapshot <==> e in clients)
    && (forall i, j | 0 <= i < j < |snapshot| :: snapshot[i] != snapshot[j])
  }

  ghost predicate Enabled(s: State, a: Step) {
    match a
    case Connect(_) => true
    case SetPage(c, _) => c < |s.conns| && s.conns[c].open
    case Disconnect(c) => c < |s.conns| && s.conns[c].open
    case StartPush(_, snapshot) => Lists(snapshot, s.clients)
    case Send(p, _) => p < |s.pushes| && s.pushes[p].next < |s.pushes[p].snapshot|
  }

  function Advance(p: Push, ok: bool): Push
    requires p.next < |p.snapshot|
  {
    var e := p.snapshot[p.next];
    p.(next := p.next + 1, log := if Addresses(p.target, e.page) then p.log + [Attempt(e, ok)] else p.log)
  }

  ghost function Next(s: State, a: Step): State
    requires Enabled(s, a)
  {
    match a
    case Connect(page) =>
      s.(conns := s.conns + [Connection(page, true)], clients := s.clients + {Entry(page, |s.conns|)})
    case SetPage(c, page) =>
      if page == "" then s
      else s.(conns := s.conns[c := Connection(page, true)],
              clients := s.clients - {Entry(s.conns[c].page, c)} + {Entry(page, c)})
    case Disconnect(c) =>
      s.(conns := s.conns[c := s.conns[c].(open := false)], clients := s.clients - {Entry(s.conns[c].page, c)})
    case StartPush(target, snapshot) => s.(pushes := s.pushes + [Push(target, snapshot, 0, [])])
    case Send(p, ok) => s.(pushes := s.pushes[p := Advance(s.pushes[p], ok)])
  }

  ghost predicate Moves(s: State, a: Step, t: State) {
    Enabled(s, a) && t == Next(s, a)
  }

  // `trace` holds the states of a run: one more than it has steps.
  ghost predicate IsRun(steps: seq<Step>, trace: seq<State>) {
    && |trace| == |steps| + 1 && trace[0] == START
    && (forall k | 0 <= k < |steps| :: Moves(trace[k], steps[k], trace[k + 1]))
  }

  // ---------------------------------------------------------------- the program

  class Registry {
    var conns: seq<Connection>
    var clients: set<Entry>
    ghost var pushes: seq<Push>

    ghost function Contents(): State
      reads this
    {
      State(conns, clients, pushes)
    }

    constructor ()
      ensures Contents() == START
    {
      conns, clients, pushes := [], {}, [];
    }

    method Join(page: string) returns (c: nat)
      modifies this
      ensures c == |old(conns)| && Contents() == Next(old(Contents()), Step.Connect(page))
    {
      c := |conns|;
      conns := conns + [Connection(page, true)];
      clients := clients + {Entry(page, c)};
    }

    method ChangePage(c: nat, page: string)
      requires Enabled(Contents(), Step.SetPage(c, page))
      modifies this
      ensures Contents() == Next(old(Contents()), Step.SetPage(c, page))
    {
      if page != "" {
        clients := clients - {Entry(conns[c].page, c)};
        conns := conns[c := conns[c].(page := page)];
        clients := clients + {Entry(page, c)};
      }
    }

    method Leave(c: nat)
      requires Enabled(Contents(), Step.Disconnect(c))
      modifies this
      ensures Contents() == Next(old(Contents()), Step.Disconnect(c))
    {
      clients := clients - {Entry(conns[c].page, c)};
      conns := conns[c := conns[c].(open := false)];
    }

    /** The snapshot a push starts from. */
    method Snapshot(target: Option<string>) returns (targets: seq<Entry>)
      modifies this`pushes
      ensures Enabled(old(Contents()), StartPush(target, targets))
      ensures Contents() == Next(old(Contents()), StartPush(target, targets))
    {
      var rest := clients;
      targets := [];
      while rest != {}
        invariant rest <= clients
        invariant forall e :: e in targets <==> e in clients - rest
        invariant forall i, j | 0 <= i < j < |targets| :: targets[i] != targets[j]
        decreases rest
      {
        var e :| e in rest;
        assert e !in targets;
        assert forall i | 0 <= i < |targets| :: targets[i] != e;
        targets := targets + [e];
        rest := rest - {e};
      }
      pushes := pushes + [Push(target, targets, 0, [])];
    }
  }

  /** The fan-out over a snapshot, with the outcome of each send given by `sends`. */
  method BroadcastPush(target: Option<string>, targets: seq<Entry>,
                       sends: Entry -> bool) returns (log: seq<Attempt>, delivered: nat)
    ensures Entries(log) == Addressed(target, targets)
    ensures forall i | 0 <= i < |log| :: log[i].ok == sends(log[i].entry)
    ensures delivered == |Successes(log)|
    ensures delivered == |set i: nat | i < |log| && log[i].ok|
    ensures exists at :: TriedAt(target, targets, at, log)
  {
    log, delivered := [], 0;
    for k := 0 to |targets|
      invariant Entries(log) == Addressed(target, targets[..k])
      invariant forall i | 0 <= i < |log| :: log[i].ok == sends(log[i].entry)
      invariant delivered == |Successes(log)|
    {
      assert targets[..k + 1][..k] == targets[..k];
      if !Addresses(target, targets[k].page) { continue; }
      var a := Attempt(targets[k], sends(targets[k]));
      assert (log + [a])[..|log|] == log;
      if a.ok { delivered := delivered + 1; }
      log := log + [a];
    }
    assert targets[..|targets|] == targets;
    SuccessesCount(log, |log|);
    assert log[..|log|] == log;
    var at := AddressedStand(target, targets);
    assert TriedAt(target, targets, at, log);
  }

  // The places of the addressed entries of a snapshot, in order.
  ghost predicate AddressedAt(target: Option<string>, snapshot: seq<Entry>, at: seq<nat>) {
    && (forall i, j | 0 <= i < j < |at| :: at[i] < at[j])
    && (forall k | 0 <= k < |at| :: at[k] < |snapshot| && Addresses(target, snapshot[at[k]].page))
    && (forall p | 0 <= p < |snapshot| && Addresses(target, snapshot[p].page) :: p in at)
  }

  // Exactly the addressed entries were tried, in order.
  ghost predicate TriedAt(target: Option<string>, targets: seq<Entry>, at: seq<nat>, log: seq<Attempt>) {
    && AddressedAt(target, targets, at) && |at| == |log|
    && forall k | 0 <= k < |at| :: log[k].entry == targets[at[k]]
  }

  lemma {:induction false} AddressedStand(target: Option<string>, snapshot: seq<Entry>) returns (at: seq<nat>)
    ensures AddressedAt(target, snapshot, at) && |at| == |Addressed(target, snapshot)|
    ensures forall k | 0 <= k < |at| :: Addressed(target, snapshot)[k] == snapshot[at[k]]
  {
    hide Addresses, AddressedAt;
    if snapshot == [] {
      at := [];
      NoneAddressed(target);
    } else {
      var n := |snapshot| - 1;
      var before := AddressedStand(target, snapshot[..n]);
      at := if Addresses(target, snapshot[n].page) then before + [n] else before;
      OneMoreAddressed(target, snapshot, before);
    }
  }

  lemma {:induction false} NoneAddressed(target: Option<string>)
    ensures AddressedAt(target, [], [])
  {
  }

  lemma {:induction false} OneMoreAddressed(target: Option<string>, snapshot: seq<Entry>, before: seq<nat>)
    requires snapshot != [] && AddressedAt(target, snapshot[..|snapshot| - 1], before)
    ensures var n := |snapshot| - 1;
            && AddressedAt(target, snapshot, if Addresses(target, snapshot[n].page) then before + [n] else before)
            && forall k | 0 <= k < |before| :: before[k] < n && snapshot[before[k]] == snapshot[..n][before[k]]
  {
    hide Addresses;
    var n := |snapshot| - 1;
    var at := if Addresses(target, snapshot[n].page) then before + [n] else before;
    forall p: nat | p < |snapshot| && Addresses(target, snapshot[p].page) ensures p in at {
      if p < n {
        assert snapshot[..n][p] == snapshot[p];
        assert p in before;
      }
    }
    forall k | 0 <= k < |at| ensures at[k] < |snapshot| && Addresses(target, snapshot[at[k]].page) {
      if k < |before| {
        assert at[k] == before[k] && snapshot[..n][before[k]] == snapshot[before[k]];
      }
    }
  }

  ghost function OkPlaces(log: seq<Attempt>, n: nat): set<nat> {
    set i: nat | i < n && i < |log| && log[i].ok
  }

  lemma {:induction false} SuccessesCount(log: seq<Attempt>, n: nat)
    requires n <= |log|
    ensures |Successes(log[..n])| == |OkPlaces(log, n)|
    ensures OkPlaces(log, |log|) == set i: nat | i < |log| && log[i].ok
  {
    if n > 0 {
      SuccessesCount(log, n - 1);
      assert log[..n][..n - 1] == log[..n - 1];
      assert OkPlaces(log, n) == OkPlaces(log, n - 1) + if log[n - 1].ok then {n - 1} else {};
    } else {
      assert OkPlaces(log, n) == {};
    }
  }

  function Entries(log: seq<Attempt>): (r: seq<Entry>)
    ensures |r| == |log| && forall i | 0 <= i < |log| :: r[i] == log[i].entry
  {
    seq(|log|, i requires 0 <= i < |log| => log[i].entry)
  }

  function Successes(log: seq<Attempt>): seq<Entry> {
    if log == [] then []
    else Successes(log[..|log| - 1]) + if log[|log| - 1].ok then [log[|log| - 1].entry] else []
  }

  /** The clients of a snapshot that a push addresses, in order. */
  function Addressed(target: Option<string>, snapshot: seq<Entry>): seq<Entry> {
    if snapshot == [] then []
    else
      var e := snapshot[|snapshot| - 1];
      Addressed(target, snapshot[..|snapshot| - 1]) + if Addresses(target, e.page) then [e] else []
  }

  // ---------------------------------------------------------------- every step

  /** The registry holds each open connection under its current page, and nothing else. */
  ghost predicate Registered(s: State) {
    forall e :: e in s.clients <==> e.conn < |s.conns| && s.conns[e.conn].open && s.conns[e.conn].page == e.page
  }

  ghost predicate SoundPush(p: Push) {
    && p.next <= |p.snapshot|
    && (forall i, j | 0 <= i < j < |p.snapshot| :: p.snapshot[i].conn != p.snapshot[j].conn)
    && Entries(p.log) == Addressed(p.target, p.snapshot[..p.next])
  }

  ghost predicate Inv(s: State) {
    Registered(s) && forall p | 0 <= p < |s.pushes| :: SoundPush(s.pushes[p])
  }

  lemma {:induction false} AdvanceKeepsSound(p: Push, ok: bool)
    requires SoundPush(p) && p.next < |p.snapshot|
    ensures SoundPush(Advance(p, ok))
  {
    assert p.snapshot[..p.next + 1][..p.next] == p.snapshot[..p.next];
    assert Entries(Advance(p, ok).log) == Addressed(p.target, p.snapshot[..p.next + 1]);
  }

  lemma {:induction false} SnapshotIsSound(s: State, target: Option<string>, snapshot: seq<Entry>)
    requires Registered(s) && Lists(snapshot, s.clients)
    ensures SoundPush(Push(target, snapshot, 0, []))
  {
    forall i, j | 0 <= i < j < |snapshot| ensures snapshot[i].conn != snapshot[j].conn {
      assert snapshot[i] in s.clients && snapshot[j] in s.clients;
    }
    assert snapshot[..0] == [];
  }

  lemma {:induction false} StepKeepsInv(s: State, a: Step)
    requires Inv(s) && Enabled(s, a)
    ensures Inv(Next(s, a))
  {
    hide SoundPush, Lists;
    match a
    case StartPush(target, snapshot) => SnapshotIsSound(s, target, snapshot);
    case Send(p, ok) => AdvanceKeepsSound(s.pushes[p], ok);
    case _ =>
  }

  lemma {:induction false} RunKeepsInv(steps: seq<Step>, trace: seq<State>, k: nat)
    requires IsRun(steps, trace) && k < |trace|
    ensures Inv(trace[k])
  {
    hide Enabled, Next, SoundPush;
    if k > 0 {
      RunKeepsInv(steps, trace, k - 1);
      assert Moves(trace[k - 1], steps[k - 1], trace[k]);
      StepKeepsInv(trace[k - 1], steps[k - 1]);
    }
  }

  // ---------------------------------------------------------------- every run

  /** A push goes back to the step that took its snapshot. */
  lemma {:induction false} PushHasStart(steps: seq<Step>, trace: seq<State>, k: nat, p: nat) returns (t: nat)
    requires IsRun(steps, trace) && k < |trace| && p < |trace[k].pushes|
    ensures t < k && steps[t] == StartPush(trace[k].pushes[p].target, trace[k].pushes[p].snapshot)
    ensures Lists(trace[k].pushes[p].snapshot, trace[t].clients)
  {
    hide Lists;
    assert k > 0;
    var s, a := trace[k - 1], steps[k - 1];
    assert Moves(s, a, trace[k]);
    if p < |s.pushes| {
      t := PushHasStart(steps, trace, k - 1, p);
    } else {
      t := k - 1;
    }
  }

  /** A push reaches a connection at most once, and only one that was open when it started, under a
      page it addresses; once it is through it has tried every such connection. */
  lemma {:induction false} AddressedAreTried(steps: seq<Step>, trace: seq<State>, k: nat, p: nat) returns (t: nat)
    requires IsRun(steps, trace) && k < |trace| && p < |trace[k].pushes|
    ensures Registered(trace[k])
    ensures t < k && steps[t].StartPush? && steps[t].target == trace[k].pushes[p].target
    ensures var push, start := trace[k].pushes[p], trace[t].conns;
            && (forall i, j | 0 <= i < j < |push.log| :: push.log[i].entry.conn != push.log[j].entry.conn)
            && (forall i | 0 <= i < |push.log| ::
                  var e := push.log[i].entry;
                  e.conn < |start| && start[e.conn] == Connection(e.page, true) && Addresses(push.target, e.page))
            && (push.next == |push.snapshot| ==>
                  forall c | 0 <= c < |start| && start[c].open && Addresses(push.target, start[c].page) ::
                    exists i :: 0 <= i < |push.log| && push.log[i].entry.conn == c)
  {
    hide Enabled, Next;
    RunKeepsInv(steps, trace, k);
    t := PushHasStart(steps, trace, k, p);
    RunKeepsInv(steps, trace, t);
    var push, start := trace[k].pushes[p], trace[t].conns;
    assert SoundPush(push);
    var done := push.snapshot[..push.next];
    LogIsSound(trace[t], push);
    if push.next == |push.snapshot| {
      assert done == push.snapshot;
      forall c | 0 <= c < |start| && start[c].open && Addresses(push.target, start[c].page)
        ensures exists i :: 0 <= i < |push.log| && push.log[i].entry.conn == c
      {
        var e := Entry(start[c].page, c);
        assert e in push.snapshot;
        AddressedIffPresent(push.target, push.snapshot, e);
        var i :| 0 <= i < |Entries(push.log)| && Entries(push.log)[i] == e;
        assert push.log[i].entry.conn == c;
      }
    }
  }

  /** In every interleaving: the open connections are in the registry under exactly their current
      page; a push for a page reaches only connections that were open under that page when it
      started, any other push only such as were open, each at most once; once it is through it has
      tried every one of them. */
  lemma {:induction false} PushesAreSound(steps: seq<Step>, trace: seq<State>, k: nat, p: nat) returns (t: nat)
    requires IsRun(steps, trace) && k < |trace| && p < |trace[k].pushes|
    ensures Registered(trace[k])
    ensures t < k && steps[t].StartPush? && steps[t].target == trace[k].pushes[p].target
    ensures var push, start := trace[k].pushes[p], trace[t].conns;
            var toAll := push.target == None || push.target == Some("") || push.target == Some("*");
            && (forall i, j | 0 <= i < j < |push.log| :: push.log[i].entry.conn != push.log[j].entry.conn)
            && (forall i | 0 <= i < |push.log| ::
                  var c := push.log[i].entry.conn;
                  c < |start| && start[c].open && (toAll || push.target == Some(start[c].page)))
            && (push.next == |push.snapshot| ==>
                  forall c | 0 <= c < |start| && start[c].open && (toAll || push.target == Some(start[c].page)) ::
                    exists i :: 0 <= i < |push.log| && push.log[i].entry.conn == c)
  {
    hide IsRun, Registered;
    t := AddressedAreTried(steps, trace, k, p);
  }

  lemma {:induction false} LogIsSound(s: State, push: Push)
    requires Registered(s) && SoundPush(push) && Lists(push.snapshot, s.clients)
    ensures forall i, j | 0 <= i < j < |push.log| :: push.log[i].entry.conn != push.log[j].entry.conn
    ensures forall i | 0 <= i < |push.log| ::
              var e := push.log[i].entry;
              e.conn < |s.conns| && s.conns[e.conn] == Connection(e.page, true) && Addresses(push.target, e.page)
  {
    var done := push.snapshot[..push.next];
    AddressedOnce(push.target, done);
    forall i | 0 <= i < |push.log|
      ensures push.log[i].entry in s.clients && Addresses(push.target, push.log[i].entry.page)
    {
      AddressedIffPresent(push.target, done, Entries(push.log)[i]);
      assert push.log[i].entry in push.snapshot;
    }
    forall i, j | 0 <= i < j < |push.log| ensures push.log[i].entry.conn != push.log[j].entry.conn {
      assert Entries(push.log)[i].conn != Entries(push.log)[j].conn;
    }
  }

  lemma {:induction false} AddressedIffPresent(target: Option<string>, snapshot: seq<Entry>, e: Entry)
    ensures e in Addressed(target, snapshot) <==> e in snapshot && Addresses(target, e.page)
  {
    if snapshot != [] {
      var n := |snapshot| - 1;
      AddressedIffPresent(target, snapshot[..n], e);
      assert snapshot == snapshot[..n] + [snapshot[n]];
    }
  }

  lemma {:induction false} AddressedOnce(target: Option<string>, snapshot: seq<Entry>)
    requires forall i, j | 0 <= i < j < |snapshot| :: snapshot[i].conn != snapshot[j].conn
    ensures var r := Addressed(target, snapshot); forall i, j | 0 <= i < j < |r| :: r[i].conn != r[j].conn
  {
    if snapshot != [] {
      var n := |snapshot| - 1;
      AddressedOnce(target, snapshot[..n]);
      var r := Addressed(target, snapshot[..n]);
      forall i | 0 <= i < |r| ensures r[i].conn != snapshot[n].conn {
        AddressedIffPresent(target, snapshot[..n], r[i]);
        var k :| 0 <= k < n && snapshot[..n][k] == r[i];
        assert snapshot[k] == r[i];
      }
    }
  }

  /** The page that counts is the one in the snapshot: a client that has moved on since still
      gets the push for its old page. */
  lemma {:induction false} PushFollowsTheSnapshot()
    ensures var joined := Next(START, Connect("a"));
            Enabled(joined, StartPush(Some("a"), [Entry("a", 0)]))
    ensures var started := Next(Next(START, Connect("a")), StartPush(Some("a"), [Entry("a", 0)]));
            && Enabled(started, SetPage(0, "b"))
            && var moved := Next(started, SetPage(0, "b"));
               && Enabled(moved, Send(0, true))
               && moved.conns[0].page == "b"
               && Next(moved, Send(0, true)).pushes[0].log == [Attempt(Entry("a", 0), true)]
  {
    var joined := Next(START, Connect("a"));
    assert joined.clients == {Entry("a", 0)};
  }
}
