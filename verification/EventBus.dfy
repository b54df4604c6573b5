/** One connection of the event bus as a state machine: reader, handler, one task per request and
    writer, joined by two bounded queues. */
module EventBus {
  const CAPACITY: nat := 100
  const ERR_PARSE: int := -32700
  const ERR_METHOD_NOT_FOUND: int := -32601
  const PARSE_ERROR_ID: string := "null"

  // An inbound line, as far as the bus looks at it.
  datatype Line = Garbled | Request(id: string, verb: string)

  datatype Outcome = Result(value: string) | Error(code: int)

  datatype Reply = Reply(id: string, outcome: Outcome)

  // What travels to the writer: the answer to a line, or something its handler sent while
  // running. `origin` is the number of the line.
  datatype Message = Response(origin: nat, reply: Reply) | Notice(origin: nat, body: string)

  datatype Task = Running | Sending(reply: Reply)

  datatype Handler = Idle | Refusing(line: nat)

  datatype State = State(
    read: nat,               // lines handed over by the reader
    reading: bool,
    inbound: seq<nat>,
    handler: Handler,
    tasks: map<nat, Task>,
    outbound: seq<Message>,
    wire: seq<Message>,
    writing: bool)

  // ---------------------------------------------------------------- routing

  /** What routing a request may answer: a registered handler echoes the id, any other method
      gets the method-not-found error under the request's id. */
  predicate RouteAllows(registered: set<string>, id: string, verb: string, reply: Reply) {
    if verb in registered then reply.id == id else reply == Reply(id, Error(ERR_METHOD_NOT_FOUND))
  }

  predicate ProperReply(registered: set<string>, line: Line, reply: Reply) {
    match line
    case Garbled => reply == Reply(PARSE_ERROR_ID, Error(ERR_PARSE))
    case Request(id, verb) => RouteAllows(registered, id, verb, reply)
  }

  // ---------------------------------------------------------------- steps

  datatype Step =
    | ReadLine
    | StopReading                       // end of input or a read error
    | TakeLine
    | Refuse
    | Notify(line: nat, body: string)   // a running handler sends something
    | Return(line: nat, reply: Reply)   // routing comes back with the response
    | Send(line: nat)
    | Write
    | FailWrite                         // the socket is gone; the queue is dropped

  predicate HasRoom(s: State) {
    |s.outbound| < CAPACITY
  }

  predicate Enabled(lines: seq<Line>, registered: set<string>, s: State, a: Step) {
    match a
    case ReadLine => s.reading && s.read < |lines| && |s.inbound| < CAPACITY
    case StopReading => s.reading
    case TakeLine => s.handler.Idle? && s.inbound != [] && s.inbound[0] < |lines|
    case Refuse => s.handler.Refusing? && (s.writing ==> HasRoom(s))
    case Notify(n, _) => n in s.tasks && s.tasks[n].Running? && (s.writing ==> HasRoom(s))
    case Return(n, reply) =>
      n in s.tasks && s.tasks[n].Running? && n < |lines| && ProperReply(registered, lines[n], reply)
    case Send(n) => n in s.tasks && s.tasks[n].Sending? && (s.writing ==> HasRoom(s))
    case Write => s.writing && s.outbound != []
    case FailWrite => s.writing
  }

  /** Sending puts a message in the queue while the writer lives and loses it afterwards. */
  function Queued(s: State, m: Message): State {
    if s.writing then s.(outbound := s.outbound + [m]) else s
  }

  function Next(lines: seq<Line>, registered: set<string>, s: State, a: Step): State
    requires Enabled(lines, registered, s, a)
  {
    match a
    case ReadLine => s.(inbound := s.inbound + [s.read], read := s.read + 1)
    case StopReading => s.(reading := false)
    case TakeLine =>
      var n := s.inbound[0];
      if lines[n].Garbled? then s.(inbound := s.inbound[1..], handler := Refusing(n))
      else s.(inbound := s.inbound[1..], tasks := s.tasks[n := Running])
    case Refuse =>
      Queued(s, Response(s.handler.line, Reply(PARSE_ERROR_ID, Error(ERR_PARSE)))).(handler := Idle)
    case Notify(n, body) => Queued(s, Notice(n, body))
    case Return(n, reply) => s.(tasks := s.tasks[n := Sending(reply)])
    case Send(n) => Queued(s, Response(n, s.tasks[n].reply)).(tasks := s.tasks - {n})
    case Write => s.(wire := s.wire + [s.outbound[0]], outbound := s.outbound[1..])
    case FailWrite => s.(writing := false, outbound := [])
  }

  const START: State := State(0, true, [], Idle, map[], [], [], true)

  ghost predicate IsRun(lines: seq<Line>, registered: set<string>, from: State, steps: seq<Step>, to: State)
    decreases |steps|
  {
    if steps == [] then from == to
    else
      && Enabled(lines, registered, from, steps[0])
      && IsRun(lines, registered, Next(lines, registered, from, steps[0]), steps[1..], to)
  }

  ghost predicate Reachable(lines: seq<Line>, registered: set<string>, s: State) {
    exists steps :: IsRun(lines, registered, START, steps, s)
  }

  // ---------------------------------------------------------------- the invariant

  /** How many responses to line `n` a list of messages holds. */
  function Responses(ms: seq<Message>, n: nat): nat {
    if ms == [] then 0
    else
      var m := ms[|ms| - 1];
      Responses(ms[..|ms| - 1], n) + if m.Response? && m.origin == n then 1 else 0
  }

  function Waiting(queue: seq<nat>, n: nat): nat {
    if queue == [] then 0 else (if queue[0] == n then 1 else 0) + Waiting(queue[1..], n)
  }

  /** In how many places the bus holds line `n`: queued, being refused, in a task, answered. */
  function Held(s: State, n: nat): nat {
    Waiting(s.inbound, n)
    + (if s.handler == Refusing(n) then 1 else 0)
    + (if n in s.tasks then 1 else 0)
    + Responses(s.outbound, n) + Responses(s.wire, n)
  }

  /** Each line read so far is in exactly one place, or was lost with the writer. */
  ghost predicate Accounted(s: State) {
    forall n: nat ::
      && Held(s, n) <= (if n < s.read then 1 else 0)
      && (s.writing ==> Held(s, n) == if n < s.read then 1 else 0)
  }

  ghost predicate ProperMessage(lines: seq<Line>, registered: set<string>, m: Message) {
    m.Response? ==> m.origin < |lines| && ProperReply(registered, lines[m.origin], m.reply)
  }

  ghost predicate ProperTask(lines: seq<Line>, registered: set<string>, n: nat, t: Task) {
    n < |lines| && lines[n].Request? && (t.Sending? ==> ProperReply(registered, lines[n], t.reply))
  }

  ghost predicate Proper(lines: seq<Line>, registered: set<string>, s: State) {
    && s.read <= |lines|
    && (forall m | m in s.outbound + s.wire :: ProperMessage(lines, registered, m))
    && (forall n | n in s.tasks :: ProperTask(lines, registered, n, s.tasks[n]))
    && (s.handler.Refusing? ==> s.handler.line < |lines| && lines[s.handler.line].Garbled?)
  }

  /** Nothing a handler sent comes after the response to its line. */
  ghost predicate NoticesFirst(ms: seq<Message>) {
    forall i, j | 0 <= i < j < |ms| && ms[i].Response? && ms[j].Notice? :: ms[i].origin != ms[j].origin
  }

  ghost predicate Inv(lines: seq<Line>, registered: set<string>, s: State) {
    Accounted(s) && Proper(lines, registered, s) && NoticesFirst(s.wire + s.outbound)
    && |s.inbound| <= CAPACITY && |s.outbound| <= CAPACITY
  }

  lemma {:induction false} ResponsesConcat(a: seq<Message>, b: seq<Message>, n: nat)
    ensures Responses(a + b, n) == Responses(a, n) + Responses(b, n)
  {
    if b == [] {
      assert a + b == a;
    } else {
      ResponsesConcat(a, b[..|b| - 1], n);
      assert (a + b)[..|a + b| - 1] == a + b[..|b| - 1];
    }
  }

  lemma {:induction false} ResponsesOne(m: Message, n: nat)
    ensures Responses([m], n) == (if m.Response? && m.origin == n then 1 else 0) && Responses([], n) == 0
  {
    assert [m][..0] == [];
  }

  lemma {:induction false} ResponseCounts(ms: seq<Message>, i: nat)
    requires i < |ms| && ms[i].Response?
    ensures Responses(ms, ms[i].origin) >= 1
  {
    var k := |ms| - 1;
    if i < k {
      ResponseCounts(ms[..k], i);
    }
  }

  lemma {:induction false} WaitingAppend(queue: seq<nat>, k: nat, n: nat)
    ensures Waiting(queue + [k], n) == Waiting(queue, n) + if k == n then 1 else 0
  {
    if queue == [] {
      assert queue + [k] == [k] && [k][1..] == [];
    } else {
      assert (queue + [k])[1..] == queue[1..] + [k];
      WaitingAppend(queue[1..], k, n);
    }
  }

  lemma {:induction false} QueueHolds(s: State, m: Message, n: nat)
    ensures Responses(Queued(s, m).outbound, n)
         == Responses(s.outbound, n) + if s.writing && m.Response? && m.origin == n then 1 else 0
  {
    ResponsesConcat(s.outbound, [m], n);
    ResponsesOne(m, n);
  }

  /** A step moves a line from one place to the next; only a dead writer loses one. */
  lemma {:induction false} StepMovesLine(lines: seq<Line>, registered: set<string>, s: State, a: Step, n: nat)
    requires Accounted(s) && Enabled(lines, registered, s, a)
    ensures var t := Next(lines, registered, s, a);
            var added := if a.ReadLine? && n == s.read then 1 else 0;
            Held(t, n) <= Held(s, n) + added && (t.writing ==> Held(t, n) == Held(s, n) + added)
  {
    hide Responses, ProperReply, Accounted;
    match a
    case ReadLine => WaitingAppend(s.inbound, s.read, n);
    case TakeLine =>
      TakenIsNoTask(s, s.inbound[0]);
    case Refuse => QueueHolds(s, Response(s.handler.line, Reply(PARSE_ERROR_ID, Error(ERR_PARSE))), n);
    case Notify(k, body) => QueueHolds(s, Notice(k, body), n);
    case Send(k) => QueueHolds(s, Response(k, s.tasks[k].reply), n);
    case Write =>
      var m := s.outbound[0];
      assert s.outbound == [m] + s.outbound[1..];
      ResponsesConcat([m], s.outbound[1..], n);
      ResponsesConcat(s.wire, [m], n);
    case FailWrite => ResponsesOne(Notice(0, ""), n);
    case _ =>
  }

  lemma {:induction false} TakenIsNoTask(s: State, n: nat)
    requires Accounted(s) && s.inbound != [] && s.inbound[0] == n
    ensures n !in s.tasks && n < s.read
  {
    assert Waiting(s.inbound, n) >= 1;
    assert Held(s, n) <= 1;
  }

  lemma {:induction false} StepKeepsAccounts(lines: seq<Line>, registered: set<string>, s: State, a: Step)
    requires Accounted(s) && Enabled(lines, registered, s, a)
    ensures Accounted(Next(lines, registered, s, a))
  {
    hide Held;
    forall n: nat ensures
      && Held(Next(lines, registered, s, a), n) <= (if n < Next(lines, registered, s, a).read then 1 else 0)
      && (Next(lines, registered, s, a).writing ==>
            Held(Next(lines, registered, s, a), n) == if n < Next(lines, registered, s, a).read then 1 else 0)
    {
      StepMovesLine(lines, registered, s, a, n);
    }
  }

  lemma {:induction false} StepKeepsProper(lines: seq<Line>, registered: set<string>, s: State, a: Step)
    requires Proper(lines, registered, s) && Enabled(lines, registered, s, a)
    ensures Proper(lines, registered, Next(lines, registered, s, a))
  {
    hide ProperReply;
    var t := Next(lines, registered, s, a);
    match a
    case Refuse =>
      RefusalIsProper(lines, registered, s.handler.line);
    case Write =>
      assert forall m | m in t.outbound + t.wire :: m in s.outbound + s.wire;
    case _ =>
  }

  lemma {:induction false} RefusalIsProper(lines: seq<Line>, registered: set<string>, n: nat)
    requires n < |lines| && lines[n].Garbled?
    ensures ProperReply(registered, lines[n], Reply(PARSE_ERROR_ID, Error(ERR_PARSE)))
  {
  }

  /** A line with a task has no response yet, so what its handler sends now comes first. */
  lemma {:induction false} TaskIsUnanswered(s: State, n: nat)
    requires Accounted(s) && n in s.tasks
    ensures forall i | 0 <= i < |s.wire + s.outbound| && (s.wire + s.outbound)[i].Response? ::
              (s.wire + s.outbound)[i].origin != n
  {
    var all := s.wire + s.outbound;
    assert Held(s, n) <= 1;
    ResponsesConcat(s.wire, s.outbound, n);
    forall i | 0 <= i < |all| && all[i].Response? ensures all[i].origin != n {
      ResponseCounts(all, i);
    }
  }

  lemma {:induction false} StepKeepsOrder(lines: seq<Line>, registered: set<string>, s: State, a: Step)
    requires Accounted(s) && NoticesFirst(s.wire + s.outbound) && Enabled(lines, registered, s, a)
    ensures var t := Next(lines, registered, s, a); NoticesFirst(t.wire + t.outbound)
  {
    hide Accounted;
    var t := Next(lines, registered, s, a);
    match a
    case Refuse => QueueKeepsOrder(s, Response(s.handler.line, Reply(PARSE_ERROR_ID, Error(ERR_PARSE))));
    case Notify(n, body) =>
      TaskIsUnanswered(s, n);
      QueueKeepsOrder(s, Notice(n, body));
    case Send(n) => QueueKeepsOrder(s, Response(n, s.tasks[n].reply));
    case Write => assert t.wire + t.outbound == s.wire + s.outbound;
    case FailWrite => assert t.wire + t.outbound == (s.wire + s.outbound)[..|s.wire|];
    case _ => assert t.wire + t.outbound == s.wire + s.outbound;
  }

  lemma {:induction false} QueueKeepsOrder(s: State, m: Message)
    requires NoticesFirst(s.wire + s.outbound)
    requires m.Notice? ==> forall i | 0 <= i < |s.wire + s.outbound| && (s.wire + s.outbound)[i].Response? ::
                             (s.wire + s.outbound)[i].origin != m.origin
    ensures var t := Queued(s, m); NoticesFirst(t.wire + t.outbound)
  {
    if s.writing {
      assert s.wire + (s.outbound + [m]) == (s.wire + s.outbound) + [m];
    }
  }

  /** Every step keeps the invariant. */
  lemma {:induction false} StepKeepsInv(lines: seq<Line>, registered: set<string>, s: State, a: Step)
    requires Inv(lines, registered, s) && Enabled(lines, registered, s, a)
    ensures Inv(lines, registered, Next(lines, registered, s, a))
  {
    hide Accounted, Proper, NoticesFirst;
    StepKeepsAccounts(lines, registered, s, a);
    StepKeepsProper(lines, registered, s, a);
    StepKeepsOrder(lines, registered, s, a);
  }

  lemma {:induction false} StartIsSound(lines: seq<Line>, registered: set<string>)
    ensures Inv(lines, registered, START)
  {
    assert forall n: nat :: Held(START, n) == 0;
  }

  lemma {:induction false} RunKeepsInv(lines: seq<Line>, registered: set<string>, from: State, steps: seq<Step>,
                                       to: State)
    requires Inv(lines, registered, from) && IsRun(lines, registered, from, steps, to)
    ensures Inv(lines, registered, to)
    decreases |steps|
  {
    hide Inv, Enabled, Next;
    if steps != [] {
      StepKeepsInv(lines, registered, from, steps[0]);
      RunKeepsInv(lines, registered, Next(lines, registered, from, steps[0]), steps[1..], to);
    }
  }

  // ---------------------------------------------------------------- what a client can rely on

  /** In every interleaving: each line has at most one response on the wire; it carries the
      request's id, or the parse-error id for a garbled line; and whatever its handler sent
      while running stands before it. */
  lemma {:induction false} ResponsesAreSound(lines: seq<Line>, registered: set<string>, s: State)
    requires Reachable(lines, registered, s)
    ensures forall n: nat :: Responses(s.wire, n) <= 1
    ensures forall m | m in s.wire && m.Response? ::
              && m.origin < |lines|
              && m.reply.id == (match lines[m.origin] case Garbled => "null" case Request(id, _) => id)
              && (lines[m.origin].Garbled? ==> m.reply.outcome == Error(-32700))
              && (lines[m.origin].Request? && lines[m.origin].verb !in registered ==>
                    m.reply.outcome == Error(-32601))
    ensures NoticesFirst(s.wire)
    ensures |s.inbound| <= 100 && |s.outbound| <= 100
  {
    var steps :| IsRun(lines, registered, START, steps, s);
    StartIsSound(lines, registered);
    RunKeepsInv(lines, registered, START, steps, s);
    forall n: nat ensures Responses(s.wire, n) <= 1 {
      assert Held(s, n) <= 1;
    }
    forall m | m in s.wire ensures ProperMessage(lines, registered, m) {
      assert m in s.outbound + s.wire;
    }
    forall i, j | 0 <= i < j < |s.wire| && s.wire[i].Response? && s.wire[j].Notice?
      ensures s.wire[i].origin != s.wire[j].origin
    {
      assert (s.wire + s.outbound)[i] == s.wire[i] && (s.wire + s.outbound)[j] == s.wire[j];
    }
  }

  // ---------------------------------------------------------------- what handlers say is what is written

  // What handlers said in `done` is on its way or on the wire, and nothing else is.
  ghost predicate Carries(lines: seq<Line>, done: seq<Step>, s: State) {
    && (forall m | m in s.wire + s.outbound :: WasSaid(lines, done, m))
    && (forall n | n in s.tasks && s.tasks[n].Sending? :: Return(n, s.tasks[n].reply) in done)
  }

  ghost predicate WasSaid(lines: seq<Line>, done: seq<Step>, m: Message) {
    match m
    case Response(n, reply) => n < |lines| && (lines[n].Request? ==> Return(n, reply) in done)
    case Notice(n, body) => Notify(n, body) in done
  }

  lemma {:induction false} StepCarries(lines: seq<Line>, registered: set<string>, done: seq<Step>, s: State, a: Step)
    requires Inv(lines, registered, s) && Carries(lines, done, s) && Enabled(lines, registered, s, a)
    ensures Carries(lines, done + [a], Next(lines, registered, s, a))
  {
    hide Accounted, NoticesFirst, ProperReply, WasSaid;
    var t := Next(lines, registered, s, a);
    forall m | m in t.wire + t.outbound ensures WasSaid(lines, done + [a], m) {
      if m in s.wire + s.outbound {
        StaysSaid(lines, done, a, m);
      } else {
        NewIsSaid(lines, registered, done, s, a, m);
      }
    }
  }

  lemma {:induction false} StaysSaid(lines: seq<Line>, done: seq<Step>, a: Step, m: Message)
    requires WasSaid(lines, done, m)
    ensures WasSaid(lines, done + [a], m)
  {
  }

  lemma {:induction false} NewIsSaid(lines: seq<Line>, registered: set<string>, done: seq<Step>, s: State, a: Step,
                                     m: Message)
    requires Inv(lines, registered, s) && Carries(lines, done, s) && Enabled(lines, registered, s, a)
    requires m !in s.wire + s.outbound
    requires var t := Next(lines, registered, s, a); m in t.wire + t.outbound
    ensures WasSaid(lines, done + [a], m)
  {
    hide Accounted, NoticesFirst, ProperReply;
  }

  lemma {:induction false} RunCarries(lines: seq<Line>, registered: set<string>, done: seq<Step>, from: State,
                                      steps: seq<Step>, to: State)
    requires Inv(lines, registered, from) && Carries(lines, done, from) && IsRun(lines, registered, from, steps, to)
    ensures Carries(lines, done + steps, to)
    decreases |steps|
  {
    hide Inv, Enabled, Next, Carries;
    if steps == [] {
      assert done + steps == done;
    } else {
      StepKeepsInv(lines, registered, from, steps[0]);
      StepCarries(lines, registered, done, from, steps[0]);
      RunCarries(lines, registered, done + [steps[0]], Next(lines, registered, from, steps[0]), steps[1..], to);
      assert (done + [steps[0]]) + steps[1..] == done + steps;
    }
  }

  /** In every run: the response on the wire to a request is the one its handler returned, and
      every notice is one that its handler sent. */
  lemma {:induction false} WireCarriesReturns(lines: seq<Line>, registered: set<string>, steps: seq<Step>, s: State)
    requires IsRun(lines, registered, START, steps, s)
    ensures forall n: nat, reply | Response(n, reply) in s.wire ::
              n < |lines| && (lines[n].Request? ==> Return(n, reply) in steps)
    ensures forall n: nat, body | Notice(n, body) in s.wire :: Notify(n, body) in steps
  {
    hide Inv, IsRun;
    StartIsSound(lines, registered);
    assert Carries(lines, [], START);
    RunCarries(lines, registered, [], START, steps, s);
    assert [] + steps == steps;
    forall m | m in s.wire ensures WasSaid(lines, steps, m) {
      assert m in s.wire + s.outbound;
    }
  }

  // Lines that have returned are through but for sending what they returned.
  ghost predicate ReturnedOnce(done: seq<Step>, s: State) {
    && (forall n: nat, reply | Return(n, reply) in done ::
          n < s.read && Waiting(s.inbound, n) == 0 && (n in s.tasks ==> s.tasks[n] == Sending(reply)))
    && (forall n: nat, r, q | Return(n, r) in done && Return(n, q) in done :: r == q)
  }

  lemma {:induction false} StepReturnsOnce(lines: seq<Line>, registered: set<string>, done: seq<Step>, s: State,
                                           a: Step)
    requires Inv(lines, registered, s) && ReturnedOnce(done, s) && Enabled(lines, registered, s, a)
    ensures ReturnedOnce(done + [a], Next(lines, registered, s, a))
  {
    hide Proper, NoticesFirst, ProperReply, Responses;
    var t := Next(lines, registered, s, a);
    forall n: nat, reply | Return(n, reply) in done + [a]
      ensures n < t.read && Waiting(t.inbound, n) == 0 && (n in t.tasks ==> t.tasks[n] == Sending(reply))
      ensures a == Return(n, reply) || Return(n, reply) in done
    {
      assert Held(s, n) <= if n < s.read then 1 else 0;
      WaitingAppend(s.inbound, s.read, n);
    }
  }

  lemma {:induction false} RunReturnsOnce(lines: seq<Line>, registered: set<string>, done: seq<Step>, from: State,
                                          steps: seq<Step>, to: State)
    requires Inv(lines, registered, from) && ReturnedOnce(done, from) && IsRun(lines, registered, from, steps, to)
    ensures ReturnedOnce(done + steps, to)
    decreases |steps|
  {
    hide Inv, Enabled, Next, ReturnedOnce;
    if steps == [] {
      assert done + steps == done;
    } else {
      StepKeepsInv(lines, registered, from, steps[0]);
      StepReturnsOnce(lines, registered, done, from, steps[0]);
      RunReturnsOnce(lines, registered, done + [steps[0]], Next(lines, registered, from, steps[0]), steps[1..], to);
      assert (done + [steps[0]]) + steps[1..] == done + steps;
    }
  }

  /** No handler returns twice: a run has at most one response to each line to carry. */
  lemma {:induction false} HandlersReturnOnce(lines: seq<Line>, registered: set<string>, steps: seq<Step>, s: State)
    requires IsRun(lines, registered, START, steps, s)
    ensures forall n: nat, r, q | Return(n, r) in steps && Return(n, q) in steps :: r == q
  {
    hide Inv, IsRun;
    StartIsSound(lines, registered);
    RunReturnsOnce(lines, registered, [], START, steps, s);
    assert [] + steps == steps;
  }

  function NoticesOf(ms: seq<Message>): seq<Message> {
    if ms == [] then []
    else NoticesOf(ms[..|ms| - 1]) + if ms[|ms| - 1].Notice? then [ms[|ms| - 1]] else []
  }

  /** What the handlers sent while running, in order. */
  function Notified(steps: seq<Step>): seq<Message> {
    if steps == [] then []
    else
      var a := steps[|steps| - 1];
      Notified(steps[..|steps| - 1]) + if a.Notify? then [Notice(a.line, a.body)] else []
  }

  lemma {:induction false} NoticesConcat(a: seq<Message>, b: seq<Message>)
    ensures NoticesOf(a + b) == NoticesOf(a) + NoticesOf(b)
  {
    if b == [] {
      assert a + b == a;
    } else {
      NoticesConcat(a, b[..|b| - 1]);
      assert (a + b)[..|a + b| - 1] == a + b[..|b| - 1];
    }
  }

  // While the writer lives nothing said is missing; afterwards the wire holds the beginning.
  ghost predicate LosesNothing(done: seq<Step>, s: State) {
    && NoticesOf(s.wire + s.outbound) <= Notified(done)
    && (s.writing ==>
          && NoticesOf(s.wire + s.outbound) == Notified(done)
          && forall n: nat, reply | Return(n, reply) in done ::
               n in s.tasks || Response(n, reply) in s.wire + s.outbound)
  }

  lemma {:induction false} QueuedNotices(s: State, m: Message)
    ensures var t := Queued(s, m);
            && t.wire + t.outbound == (if s.writing then (s.wire + s.outbound) + [m] else s.wire + s.outbound)
            && NoticesOf(t.wire + t.outbound)
               == NoticesOf(s.wire + s.outbound) + (if s.writing && m.Notice? then [m] else [])
  {
    var ms := s.wire + s.outbound;
    assert (ms + [m])[..|ms|] == ms;
    assert s.wire + (s.outbound + [m]) == ms + [m];
  }

  lemma {:induction false} NotifiedSnoc(done: seq<Step>, a: Step)
    ensures Notified(done + [a]) == Notified(done) + if a.Notify? then [Notice(a.line, a.body)] else []
  {
    assert (done + [a])[..|done|] == done;
  }

  lemma {:induction false} StepLosesNothing(lines: seq<Line>, registered: set<string>, done: seq<Step>, s: State,
                                            a: Step)
    requires ReturnedOnce(done, s) && LosesNothing(done, s) && Enabled(lines, registered, s, a)
    ensures LosesNothing(done + [a], Next(lines, registered, s, a))
  {
    hide ReturnedOnce, ProperReply, NoticesOf, Notified;
    var t := Next(lines, registered, s, a);
    NotifiedSnoc(done, a);
    StepKeepsReturns(lines, registered, done, s, a);
    match a
    case Refuse => QueuedNotices(s, Response(s.handler.line, Reply(PARSE_ERROR_ID, Error(ERR_PARSE))));
    case Notify(n, body) => QueuedNotices(s, Notice(n, body));
    case Send(n) => QueuedNotices(s, Response(n, s.tasks[n].reply));
    case Write => assert t.wire + t.outbound == s.wire + s.outbound;
    case FailWrite =>
      NoticesConcat(s.wire, s.outbound);
      assert t.wire + t.outbound == s.wire;
    case _ =>
  }

  lemma {:induction false} StepKeepsReturns(lines: seq<Line>, registered: set<string>, done: seq<Step>, s: State,
                                            a: Step)
    requires ReturnedOnce(done, s) && LosesNothing(done, s) && Enabled(lines, registered, s, a)
    ensures var t := Next(lines, registered, s, a);
            t.writing ==> forall n: nat, reply | Return(n, reply) in done + [a] ::
                            n in t.tasks || Response(n, reply) in t.wire + t.outbound
  {
    hide ProperReply, NoticesOf, Notified, Waiting;
    var t := Next(lines, registered, s, a);
    forall n: nat, reply | t.writing && Return(n, reply) in done + [a] && n !in t.tasks
      ensures Response(n, reply) in t.wire + t.outbound
    {
      assert Return(n, reply) in done;
      if n in s.tasks {
        assert Response(n, reply) in t.outbound;
      } else {
        assert Response(n, reply) in s.wire + s.outbound;
      }
    }
  }

  lemma {:induction false} RunLosesNothing(lines: seq<Line>, registered: set<string>, done: seq<Step>, from: State,
                                           steps: seq<Step>, to: State)
    requires Inv(lines, registered, from) && ReturnedOnce(done, from) && LosesNothing(done, from)
    requires IsRun(lines, registered, from, steps, to)
    ensures LosesNothing(done + steps, to)
    decreases |steps|
  {
    hide Inv, Enabled, Next, ReturnedOnce, LosesNothing;
    if steps == [] {
      assert done + steps == done;
    } else {
      var next := Next(lines, registered, from, steps[0]);
      StepKeepsInv(lines, registered, from, steps[0]);
      StepReturnsOnce(lines, registered, done, from, steps[0]);
      StepLosesNothing(lines, registered, done, from, steps[0]);
      RunLosesNothing(lines, registered, done + [steps[0]], next, steps[1..], to);
      assert (done + [steps[0]]) + steps[1..] == done + steps;
    }
  }

  /** Notices go out in the order in which the handlers sent them, none left out; and on a live
      connection whose queues have drained, what each handler returned is on the wire. */
  lemma {:induction false} NothingSaidIsLost(lines: seq<Line>, registered: set<string>, steps: seq<Step>, s: State)
    requires IsRun(lines, registered, START, steps, s)
    ensures NoticesOf(s.wire) <= Notified(steps)
    ensures s.writing && s.outbound == [] ==> NoticesOf(s.wire) == Notified(steps)
    ensures s.writing && s.outbound == [] && s.tasks == map[] ==>
              forall n: nat, reply | Return(n, reply) in steps :: Response(n, reply) in s.wire
  {
    hide Inv, IsRun, ReturnedOnce;
    StartIsSound(lines, registered);
    NothingReturned();
    assert LosesNothing([], START);
    RunLosesNothing(lines, registered, [], START, steps, s);
    assert [] + steps == steps;
    NoticesConcat(s.wire, s.outbound);
    if s.outbound == [] { assert s.wire + s.outbound == s.wire; }
  }

  lemma {:induction false} NothingReturned()
    ensures ReturnedOnce([], START)
  {
  }

  // The lines waiting for the handler are the last ones read, in order.
  ghost predicate Queue(s: State) {
    |s.inbound| <= s.read && forall i | 0 <= i < |s.inbound| :: s.inbound[i] == s.read - |s.inbound| + i
  }

  lemma {:induction false} RunKeepsQueue(lines: seq<Line>, registered: set<string>, from: State, steps: seq<Step>,
                                         to: State)
    requires Queue(from) && IsRun(lines, registered, from, steps, to)
    ensures Queue(to)
    decreases |steps|
  {
    hide ProperReply;
    if steps != [] {
      RunKeepsQueue(lines, registered, Next(lines, registered, from, steps[0]), steps[1..], to);
    }
  }

  /** In every run the handler takes up the lines in the order in which they were read. */
  lemma {:induction false} LinesAreTakenInOrder(lines: seq<Line>, registered: set<string>, steps: seq<Step>, s: State)
    requires IsRun(lines, registered, START, steps, s)
    ensures |s.inbound| <= s.read
    ensures forall i | 0 <= i < |s.inbound| :: s.inbound[i] == s.read - |s.inbound| + i
    ensures Enabled(lines, registered, s, TakeLine) ==>
              var n, t := s.read - |s.inbound|, Next(lines, registered, s, TakeLine);
              t.inbound == s.inbound[1..] && if lines[n].Garbled? then t.handler == Refusing(n)
                                             else n in t.tasks && t.tasks[n] == Running
  {
    RunKeepsQueue(lines, registered, START, steps, s);
  }

  // The queues and tasks are empty.
  predicate Drained(s: State) {
    s.inbound == [] && s.handler.Idle? && s.tasks == map[] && s.outbound == []
  }

  // Nothing is left to do on a connection whose input was read to its end.
  predicate Quiet(lines: seq<Line>, s: State) {
    s.read == |lines| && Drained(s)
  }

  /** Once the queues have drained on a live connection, every line read has exactly one
      response, and no other has any. */
  lemma {:induction false} DrainedMeansAllAnswered(lines: seq<Line>, registered: set<string>, s: State)
    requires Reachable(lines, registered, s) && s.writing && Drained(s)
    ensures forall n: nat :: Responses(s.wire, n) == if n < s.read then 1 else 0
  {
    var steps :| IsRun(lines, registered, START, steps, s);
    StartIsSound(lines, registered);
    RunKeepsInv(lines, registered, START, steps, s);
    forall n: nat ensures Responses(s.wire, n) == if n < s.read then 1 else 0 {
      assert Held(s, n) == if n < s.read then 1 else 0;
    }
  }

  // ---------------------------------------------------------------- the queues cannot jam

  // Nothing is left to do: all that came in went out, and a connection that still reads has no
  // more to read.
  predicate Settled(lines: seq<Line>, s: State) {
    Drained(s) && (s.reading ==> s.read == |lines|)
  }

  /** On a live connection some step other than a notification, a failure or the end of input is
      possible until everything read is answered: the bounded queues cannot deadlock. */
  lemma {:induction false} NeverStuck(lines: seq<Line>, registered: set<string>, s: State) returns (a: Step)
    requires Inv(lines, registered, s) && s.writing && !Settled(lines, s)
    ensures Enabled(lines, registered, s, a) && !a.Notify? && !a.StopReading? && !a.FailWrite?
  {
    if s.outbound != [] {
      a := Write;
    } else if s.handler.Refusing? {
      a := Refuse;
    } else if n :| n in s.tasks {
      assert ProperTask(lines, registered, n, s.tasks[n]);
      a := match s.tasks[n]
           case Sending(_) => Send(n)
           case Running => Return(n, Reply(lines[n].id, Error(ERR_METHOD_NOT_FOUND)));
    } else if s.inbound != [] {
      QueuedLineExists(lines, registered, s);
      a := TakeLine;
    } else {
      a := ReadLine;
    }
  }

  lemma {:induction false} QueuedLineExists(lines: seq<Line>, registered: set<string>, s: State)
    requires Inv(lines, registered, s) && s.inbound != []
    ensures s.inbound[0] < |lines|
  {
    TakenIsNoTask(s, s.inbound[0]);
  }

  function Weight(t: Task): nat {
    if t.Running? then 3 else 2
  }

  ghost function TaskWeight(tasks: map<nat, Task>): nat
    decreases |tasks|
  {
    if tasks == map[] then 0
    else
      var n :| n in tasks;
      Weight(tasks[n]) + TaskWeight(tasks - {n})
  }

  /** The work still ahead: each line pays one unit for every stage it has yet to pass. */
  ghost function Work(lines: seq<Line>, s: State): int {
    5 * (|lines| - s.read) + (if s.reading then 1 else 0) + 4 * |s.inbound|
    + (if s.handler.Refusing? then 2 else 0) + TaskWeight(s.tasks) + |s.outbound| + (if s.writing then 1 else 0)
  }

  lemma {:induction false} TaskWeightWithout(tasks: map<nat, Task>, n: nat)
    requires n in tasks
    ensures TaskWeight(tasks) == Weight(tasks[n]) + TaskWeight(tasks - {n})
    decreases |tasks|
  {
    var m :| m in tasks && TaskWeight(tasks) == Weight(tasks[m]) + TaskWeight(tasks - {m});
    if m != n {
      TaskWeightWithout(tasks - {m}, n);
      TaskWeightWithout(tasks - {n}, m);
      assert tasks - {m} - {n} == tasks - {n} - {m};
    }
  }

  lemma {:induction false} TaskWeightWith(tasks: map<nat, Task>, n: nat, t: Task)
    ensures TaskWeight(tasks[n := t]) == TaskWeight(tasks - {n}) + Weight(t)
  {
    TaskWeightWithout(tasks[n := t], n);
    assert tasks[n := t] - {n} == tasks - {n};
  }

  /** Every step but a notification leaves less work, and a notification adds one unit. */
  lemma {:induction false} StepsUseUpWork(lines: seq<Line>, registered: set<string>, s: State, a: Step)
    requires Inv(lines, registered, s) && Enabled(lines, registered, s, a)
    ensures var t := Next(lines, registered, s, a);
            if a.Notify? then Work(lines, t) <= Work(lines, s) + 1 else Work(lines, t) < Work(lines, s)
    ensures Work(lines, s) >= 0
  {
    hide Accounted, NoticesFirst, ProperReply;
    match a
    case TakeLine =>
      var n := s.inbound[0];
      assert n !in s.tasks by {
        TakenIsNoTask(s, n);
      }
      TaskWeightWith(s.tasks, n, Running);
      assert s.tasks - {n} == s.tasks;
    case Return(n, reply) =>
      TaskWeightWithout(s.tasks, n);
      TaskWeightWith(s.tasks, n, Sending(reply));
    case Send(n) =>
      TaskWeightWithout(s.tasks, n);
    case _ =>
  }

  function Notices(steps: seq<Step>): nat {
    if steps == [] then 0 else (if steps[0].Notify? then 1 else 0) + Notices(steps[1..])
  }

  /** A run ends: with `k` notifications it has at most 5 |lines| + 2 + 2 k steps. */
  lemma {:induction false} RunsAreBounded(lines: seq<Line>, registered: set<string>, from: State, steps: seq<Step>,
                                          to: State)
    requires Inv(lines, registered, from) && IsRun(lines, registered, from, steps, to)
    ensures |steps| <= Work(lines, from) + 2 * Notices(steps)
    decreases |steps|
  {
    hide Inv, Enabled, Next, Work;
    if steps == [] {
      NonNegativeWork(lines, registered, from);
    } else {
      var t := Next(lines, registered, from, steps[0]);
      StepKeepsInv(lines, registered, from, steps[0]);
      StepsUseUpWork(lines, registered, from, steps[0]);
      RunsAreBounded(lines, registered, t, steps[1..], to);
    }
  }

  lemma {:induction false} NonNegativeWork(lines: seq<Line>, registered: set<string>, s: State)
    requires Inv(lines, registered, s)
    ensures Work(lines, s) >= 0 && Work(lines, START) == 5 * |lines| + 2
  {
  }

  /** From every sound state of a live connection the bus can go on to one in which everything
      read has been answered, and that is all lines if it has not stopped reading. */
  lemma {:induction false} CanAlwaysFinish(lines: seq<Line>, registered: set<string>, s: State)
    returns (steps: seq<Step>, t: State)
    requires Inv(lines, registered, s) && s.writing
    ensures IsRun(lines, registered, s, steps, t) && t.writing && Drained(t)
    ensures t.reading == s.reading && (s.reading ==> Quiet(lines, t))
    decreases Work(lines, s)
  {
    hide Inv, Enabled, Next, Work;
    NonNegativeWork(lines, registered, s);
    if Settled(lines, s) {
      steps, t := [], s;
    } else {
      var a := NeverStuck(lines, registered, s);
      StepKeepsInv(lines, registered, s, a);
      StepsUseUpWork(lines, registered, s, a);
      StaysLive(lines, registered, s, a);
      var rest;
      rest, t := CanAlwaysFinish(lines, registered, Next(lines, registered, s, a));
      steps := [a] + rest;
      assert steps[1..] == rest;
    }
  }

  lemma {:induction false} StaysLive(lines: seq<Line>, registered: set<string>, s: State, a: Step)
    requires Enabled(lines, registered, s, a) && !a.StopReading? && !a.FailWrite?
    ensures var t := Next(lines, registered, s, a); t.writing == s.writing && t.reading == s.reading
  {
  }

  // ---------------------------------------------------------------- the router

  // A handler answers a request that bears the given id.
  type Method = string -> Reply

  /** The dispatch table: registering a method replaces any earlier handler of that name. */
  class Router {
    var handlers: map<string, Method>

    constructor ()
      ensures handlers == map[]
    {
      handlers := map[];
    }

    method Register(verb: string, handler: Method)
      modifies this
      ensures handlers == old(handlers)[verb := handler]
    {
      handlers := handlers[verb := handler];
    }

    /** Hands the request to its handler, or refuses the method under the request's id. */
    method Route(id: string, verb: string) returns (reply: Reply)
      ensures verb in handlers ==> reply == handlers[verb](id)
      ensures (verb in handlers ==> reply.id == id) ==> RouteAllows(handlers.Keys, id, verb, reply)
    {
      if verb in handlers {
        reply := handlers[verb](id);
      } else {
        reply := Reply(id, Error(ERR_METHOD_NOT_FOUND));
      }
    }
  }
}
