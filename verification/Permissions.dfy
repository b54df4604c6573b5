/** Permission requests of the Telegram adapter: futures that clicks, timeouts and shutdown race
    to resolve, in every interleaving. */
module Permissions {
  datatype Policy = Blocked | ReadOnly | Allowed | Denied

  // The adapter's lists of chats.
  datatype Chats = Chats(blocked: set<int>, readOnly: set<int>, allowed: set<int>)

  function PolicyOf(chats: Chats, chat: int): Policy {
    if chat in chats.blocked then Blocked
    else if chat in chats.readOnly then ReadOnly
    else if chat in chats.allowed then Allowed
    else Denied
  }

  datatype Future = Open | Resolved(approved: bool) | Cancelled

  // Where the transaction that asked stands: awaiting its future, redrawing the prompt with the
  // decision in hand, done, or ended by an exception.
  datatype Stage = Awaiting | Decided(approved: bool) | Responded(approved: bool) | Gone

  datatype Waiter = Waiter(id: string, fut: Future, stage: Stage)

  datatype Sent = Sent(waiter: nat, id: string, approved: bool)

  datatype State = State(waiters: seq<Waiter>, pending: map<string, nat>, sent: seq<Sent>)

  const START: State := State([], map[], [])

  // ---------------------------------------------------------------- steps

  datatype Step =
    | Ask(id: string)
    | Click(id: string, approve: bool, policy: Policy)
    | TimeOut(waiter: nat)
    | Wake(waiter: nat)
    | Respond(waiter: nat)
    | Fail(waiter: nat)
    | Shutdown

  predicate Enabled(s: State, a: Step) {
    match a
    case TimeOut(w) => w < |s.waiters| && s.waiters[w].stage.Awaiting?
    case Wake(w) => w < |s.waiters| && s.waiters[w].stage.Awaiting? && !s.waiters[w].fut.Open?
    case Respond(w) => w < |s.waiters| && s.waiters[w].stage.Decided?
    case Fail(w) => w < |s.waiters| && (s.waiters[w].stage.Awaiting? || s.waiters[w].stage.Decided?)
    case _ => true
  }

  /** Sets the result of an open future; on any other the runtime raises and nothing changes. */
  function Resolve(s: State, w: nat, approved: bool): State {
    if w < |s.waiters| && s.waiters[w].fut.Open?
    then s.(waiters := s.waiters[w := s.waiters[w].(fut := Resolved(approved))])
    else s
  }

  /** The awaiting transaction goes on with `stage`; its id leaves the table on the way. */
  function Leave(s: State, w: nat, stage: Stage): State
    requires w < |s.waiters|
  {
    s.(waiters := s.waiters[w := s.waiters[w].(stage := stage)], pending := s.pending - {s.waiters[w].id})
  }

  /** Shutdown denies what is in the table and still open. */
  function DenyIn(s: State, open: set<nat>): State {
    s.(waiters := seq(|s.waiters|, w requires 0 <= w < |s.waiters| =>
      if w in open && s.waiters[w].fut.Open? then s.waiters[w].(fut := Resolved(false)) else s.waiters[w]))
  }

  function Next(s: State, a: Step): State
    requires Enabled(s, a)
  {
    match a
    case Ask(id) =>
      s.(waiters := s.waiters + [Waiter(id, Open, Awaiting)], pending := s.pending[id := |s.waiters|])
    case Click(id, approve, policy) =>
      if policy.Allowed? && id in s.pending then Resolve(s, s.pending[id], approve) else s
    case TimeOut(w) =>
      // An open future is cancelled and its transaction wakes later; a resolved one lost the race.
      if s.waiters[w].fut.Open? then s.(waiters := s.waiters[w := s.waiters[w].(fut := Cancelled)])
      else Leave(s, w, Decided(false))
    case Wake(w) => Leave(s, w, Decided(s.waiters[w].fut == Resolved(true)))
    case Respond(w) =>
      var approved := s.waiters[w].stage.approved;
      s.(waiters := s.waiters[w := s.waiters[w].(stage := Responded(approved))],
         sent := s.sent + [Sent(w, s.waiters[w].id, approved)])
    case Fail(w) =>
      if s.waiters[w].stage.Awaiting? then Leave(s, w, Gone)
      else s.(waiters := s.waiters[w := s.waiters[w].(stage := Gone)])
    case Shutdown => DenyIn(s, s.pending.Values).(pending := map[])
  }

  // `trace` holds the states of a run: one more than it has steps.
  ghost predicate IsRun(steps: seq<Step>, trace: seq<State>) {
    && |trace| == |steps| + 1 && trace[0] == START
    && (forall k | 0 <= k < |steps| :: Moves(trace[k], steps[k], trace[k + 1]))
  }

  ghost predicate Moves(s: State, a: Step, t: State) {
    Enabled(s, a) && t == Next(s, a)
  }

  // ---------------------------------------------------------------- the program

  /** The adapter's table of pending permissions with the transactions behind it. */
  class PermissionDesk {
    var waiters: seq<Waiter>
    var pending: map<string, nat>
    var sent: seq<Sent>

    function Contents(): State
      reads this
    {
      State(waiters, pending, sent)
    }

    constructor ()
      ensures Contents() == START
    {
      waiters, pending, sent := [], map[], [];
    }

    /** A transaction registers a future for its request. */
    method Ask(id: string) returns (w: nat)
      modifies this
      ensures w == |old(waiters)| && Contents() == Next(old(Contents()), Step.Ask(id))
    {
      w := |waiters|;
      waiters := waiters + [Waiter(id, Open, Awaiting)];
      pending := pending[id := w];
    }

    /** A press of Approve or Deny; `raised` when the future had been settled before. */
    method HandleCallback(action: string, id: string, chats: Chats, chat: int) returns (raised: bool)
      requires action == "auth_approve" || action == "auth_deny"
      modifies this
      ensures Contents() == Next(old(Contents()), Click(id, action == "auth_approve", PolicyOf(chats, chat)))
      ensures var mayAct := chat in chats.allowed && chat !in chats.blocked && chat !in chats.readOnly;
              raised <==> mayAct && id in old(pending)
                          && !(old(pending)[id] < |old(waiters)| && old(waiters)[old(pending)[id]].fut.Open?)
      ensures raised ==> Contents() == old(Contents())
    {
      var policy := PolicyOf(chats, chat);
      raised := false;
      if policy == Blocked || policy == Denied || policy == ReadOnly { return; }
      if id in pending {
        var w := pending[id];
        if w < |waiters| && waiters[w].fut.Open? {
          waiters := waiters[w := waiters[w].(fut := Resolved(action == "auth_approve"))];
        } else {
          raised := true;
        }
      }
    }

    /** The wait runs out: the future is cancelled, or, settled in the last moment, overruled. */
    method RunOut(w: nat)
      requires Enabled(Contents(), Step.TimeOut(w))
      modifies this
      ensures Contents() == Next(old(Contents()), Step.TimeOut(w))
    {
      var x := waiters[w];
      if x.fut.Open? {
        waiters := waiters[w := x.(fut := Cancelled)];
      } else {
        waiters := waiters[w := x.(stage := Decided(false))];
        pending := pending - {x.id};
      }
    }

    /** The transaction wakes with its future settled, takes the decision and drops the id. */
    method Decide(w: nat) returns (approved: bool)
      requires Enabled(Contents(), Step.Wake(w))
      modifies this
      ensures Contents() == Next(old(Contents()), Step.Wake(w))
      ensures approved <==> old(waiters)[w].fut == Resolved(true)
    {
      var x := waiters[w];
      approved := if x.fut.Cancelled? then false else x.fut.approved;
      waiters := waiters[w := x.(stage := Decided(approved))];
      pending := pending - {x.id};
    }

    /** Sends the consent response. */
    method SendResponse(w: nat)
      requires Enabled(Contents(), Step.Respond(w))
      modifies this
      ensures Contents() == Next(old(Contents()), Step.Respond(w))
      ensures sent == old(sent) + [Sent(w, old(waiters)[w].id, old(waiters)[w].stage.approved)]
    {
      var x := waiters[w];
      sent := sent + [Sent(w, x.id, x.stage.approved)];
      waiters := waiters[w := x.(stage := Responded(x.stage.approved))];
    }

    /** Denies every future in the table that is still open, then clears the table. */
    method PostStop()
      modifies this
      ensures Contents() == Next(old(Contents()), Shutdown)
    {
      var todo := pending.Values;
      var open := todo;
      while todo != {}
        invariant todo <= open && pending == old(pending) && sent == old(sent)
        invariant waiters == DenyIn(old(Contents()), open - todo).waiters
        decreases todo
      {
        var w :| w in todo;
        if w < |waiters| && waiters[w].fut.Open? {
          waiters := waiters[w := waiters[w].(fut := Resolved(false))];
        }
        todo := todo - {w};
      }
      assert open - todo == open;
      pending := map[];
    }
  }

  // ---------------------------------------------------------------- one step

  ghost predicate Inv(s: State) {
    && (forall id | id in s.pending :: s.pending[id] < |s.waiters| && s.waiters[s.pending[id]].id == id)
    && (forall w | 0 <= w < |s.waiters| :: SoundWaiter(s, w))
    && (forall i | 0 <= i < |s.sent| :: SoundSent(s, s.sent[i]))
    && (forall i, j | 0 <= i < j < |s.sent| :: s.sent[i].waiter != s.sent[j].waiter)
  }

  // A decision to approve goes back to a future resolved with approval.
  ghost predicate SoundWaiter(s: State, w: nat)
    requires w < |s.waiters|
  {
    var x := s.waiters[w];
    && ((x.stage.Decided? || x.stage.Responded?) && x.stage.approved ==> x.fut == Resolved(true))
    && (x.stage.Decided? || x.stage.Responded? ==> !x.fut.Open?)
    && (x.stage.Responded? ==> exists i :: 0 <= i < |s.sent| && s.sent[i] == Sent(w, x.id, x.stage.approved))
  }

  ghost predicate SoundSent(s: State, m: Sent) {
    m.waiter < |s.waiters| && s.waiters[m.waiter].id == m.id && s.waiters[m.waiter].stage == Responded(m.approved)
  }

  lemma {:induction false} StepKeepsInv(s: State, a: Step)
    requires Inv(s) && Enabled(s, a)
    ensures Inv(Next(s, a))
  {
    var t := Next(s, a);
    forall w | 0 <= w < |t.waiters| ensures SoundWaiter(t, w) {
      if w < |s.waiters| { WaiterStaysSound(s, a, w); }
    }
    forall i | 0 <= i < |t.sent| ensures SoundSent(t, t.sent[i]) {
      if i < |s.sent| { assert SoundSent(s, s.sent[i]); }
    }
  }

  lemma {:induction false} WaiterStaysSound(s: State, a: Step, w: nat)
    requires Enabled(s, a) && w < |s.waiters| && SoundWaiter(s, w)
    ensures w < |Next(s, a).waiters| && SoundWaiter(Next(s, a), w)
  {
    var t := Next(s, a);
    if t.waiters[w].stage.Responded? {
      if s.waiters[w].stage.Responded? {
        var i :| 0 <= i < |s.sent| && s.sent[i] == Sent(w, s.waiters[w].id, s.waiters[w].stage.approved);
        assert t.sent[i] == s.sent[i];
      } else {
        assert t.sent[|s.sent|] == Sent(w, t.waiters[w].id, t.waiters[w].stage.approved);
      }
    }
  }

  lemma {:induction false} RunKeepsInv(steps: seq<Step>, trace: seq<State>, k: nat)
    requires IsRun(steps, trace) && k < |trace|
    ensures Inv(trace[k])
  {
    hide Inv, Enabled, Next;
    if k == 0 {
      StartIsSound();
    } else {
      RunKeepsInv(steps, trace, k - 1);
      assert Moves(trace[k - 1], steps[k - 1], trace[k]);
      StepKeepsInv(trace[k - 1], steps[k - 1]);
    }
  }

  lemma {:induction false} StartIsSound()
    ensures Inv(START)
  {
  }

  // ---------------------------------------------------------------- who resolves a future

  // The step settles the open future of `w` with approval.
  ghost predicate Approves(s: State, a: Step, w: nat) {
    && w < |s.waiters| && s.waiters[w].fut.Open?
    && a == Click(s.waiters[w].id, true, Allowed)
    && s.waiters[w].id in s.pending && s.pending[s.waiters[w].id] == w
  }

  /** Only a click on Approve, in a chat that may act, turns an open future into an approval; a
      settled future never changes. */
  lemma {:induction false} FutureSettlesOnce(s: State, a: Step, w: nat)
    requires Inv(s) && Enabled(s, a) && w < |s.waiters|
    ensures var f, g := s.waiters[w].fut, Next(s, a).waiters[w].fut;
            && (!f.Open? ==> g == f)
            && (f.Open? ==> (g == Resolved(true) <==> Approves(s, a, w)))
  {
  }

  lemma {:induction false} WaitersStay(s: State, a: Step)
    requires Enabled(s, a)
    ensures |s.waiters| <= |Next(s, a).waiters| <= |s.waiters| + if a.Ask? then 1 else 0
    ensures forall w | 0 <= w < |s.waiters| :: Next(s, a).waiters[w].id == s.waiters[w].id
    ensures forall w | |s.waiters| <= w < |Next(s, a).waiters| :: Next(s, a).waiters[w] == Waiter(a.id, Open, Awaiting)
  {
  }

  /** An approved future goes back to the one click that found it open. */
  lemma {:induction false} ApprovalGoesBackToClick(steps: seq<Step>, trace: seq<State>, w: nat, k: nat) returns (c: nat)
    requires IsRun(steps, trace) && k < |trace|
    requires w < |trace[k].waiters| && trace[k].waiters[w].fut == Resolved(true)
    ensures c < k && Approves(trace[c], steps[c], w)
    decreases k
  {
    hide Inv, Enabled, Next, Approves;
    if k == 0 {
      assert false;
    } else {
      var s, a := trace[k - 1], steps[k - 1];
      assert Moves(s, a, trace[k]);
      RunKeepsInv(steps, trace, k - 1);
      WaitersStay(s, a);
      FutureSettlesOnce(s, a, w);
      if s.waiters[w].fut.Open? {
        c := k - 1;
      } else {
        c := ApprovalGoesBackToClick(steps, trace, w, k - 1);
      }
    }
  }

  /** Over every interleaving: a request is answered at most once; what is answered as approved
      was approved by a click that was the first to settle its future. */
  lemma {:induction false} RespondsAreSound(steps: seq<Step>, trace: seq<State>, k: nat)
    requires IsRun(steps, trace) && k < |trace|
    ensures forall i, j | 0 <= i < j < |trace[k].sent| :: trace[k].sent[i].waiter != trace[k].sent[j].waiter
    ensures forall i | 0 <= i < |trace[k].sent| && trace[k].sent[i].approved ::
              exists c :: 0 <= c < k && Approves(trace[c], steps[c], trace[k].sent[i].waiter)
  {
    RunKeepsInv(steps, trace, k);
    forall i | 0 <= i < |trace[k].sent| && trace[k].sent[i].approved
      ensures exists c :: 0 <= c < k && Approves(trace[c], steps[c], trace[k].sent[i].waiter)
    {
      hide Enabled, Next, Approves;
      var w := trace[k].sent[i].waiter;
      assert SoundSent(trace[k], trace[k].sent[i]);
      assert SoundWaiter(trace[k], w);
      var c := ApprovalGoesBackToClick(steps, trace, w, k);
    }
  }

  // ---------------------------------------------------------------- what is sent

  /** A chat may act exactly when it is on the list of allowed ones and on no other. */
  lemma {:induction false} MayActIff(chats: Chats, chat: int)
    ensures PolicyOf(chats, chat) == Allowed
       <==> chat in chats.allowed && chat !in chats.blocked && chat !in chats.readOnly
  {
  }

  /** How an open future is settled: by the button pressed, by the shutdown with a denial, or by
      its own timeout, which cancels it; any other step leaves it open. */
  lemma {:induction false} FutureSettlesHow(s: State, a: Step, w: nat)
    requires Inv(s) && Enabled(s, a) && w < |s.waiters| && s.waiters[w].fut == Open
    ensures var id, g := s.waiters[w].id, Next(s, a).waiters[w].fut;
            var listed := id in s.pending && s.pending[id] == w;
            && (g == Resolved(true) <==> listed && a == Click(id, true, Allowed))
            && (g == Resolved(false) <==> listed && (a == Click(id, false, Allowed) || a == Shutdown))
            && (g == Cancelled <==> a == TimeOut(w))
  {
    assert w in s.pending.Values ==> exists id :: id in s.pending && s.pending[id] == w;
  }

  /** A response is sent by its own step only: one entry, under the id asked with, carrying the
      decision. */
  lemma {:induction false} RespondSendsOne(s: State, a: Step)
    requires Enabled(s, a)
    ensures !a.Respond? ==> Next(s, a).sent == s.sent
    ensures forall w: nat, approved | a == Respond(w) && s.waiters[w].stage == Decided(approved) ::
              && Next(s, a).sent == s.sent + [Sent(w, s.waiters[w].id, approved)]
              && Next(s, a).waiters[w].stage == Responded(approved)
  {
  }

  // The transaction waits before the step `c` and no longer after it.
  ghost predicate StopsWaiting(trace: seq<State>, c: nat, w: nat) {
    && c + 1 < |trace| && w < |trace[c].waiters| && w < |trace[c + 1].waiters|
    && trace[c].waiters[w].stage.Awaiting? && !trace[c + 1].waiters[w].stage.Awaiting?
  }

  // The step `c` ended the wait of `w` with this decision.
  ghost predicate DecidedBy(steps: seq<Step>, trace: seq<State>, c: nat, w: nat, approved: bool) {
    && c < |steps| && StopsWaiting(trace, c, w)
    && (steps[c] == Wake(w) || steps[c] == TimeOut(w))
    && (approved <==> steps[c] == Wake(w) && trace[c].waiters[w].fut == Resolved(true))
  }

  /** A decision goes back to the one step that ended the wait. */
  lemma {:induction false} DecisionHasStep(steps: seq<Step>, trace: seq<State>, k: nat, w: nat) returns (c: nat)
    requires IsRun(steps, trace) && k < |trace| && w < |trace[k].waiters|
    requires trace[k].waiters[w].stage.Decided? || trace[k].waiters[w].stage.Responded?
    ensures c < k && DecidedBy(steps, trace, c, w, trace[k].waiters[w].stage.approved)
    decreases k
  {
    hide DecidedBy;
    assert k > 0;
    var s, a := trace[k - 1], steps[k - 1];
    assert Moves(s, a, trace[k]);
    WaitersStay(s, a);
    StageMoves(s, a, w);
    if s.waiters[w].stage.Awaiting? {
      c := k - 1;
      DecidesNow(steps, trace, c, w);
    } else {
      c := DecisionHasStep(steps, trace, k - 1, w);
    }
  }

  // One step of a transaction from waiting to a decision to its response.
  lemma {:induction false} StageMoves(s: State, a: Step, w: nat)
    requires Enabled(s, a) && w < |Next(s, a).waiters|
    ensures !Next(s, a).waiters[w].stage.Awaiting? ==> w < |s.waiters|
    ensures w < |s.waiters| ==>
              var x, y := s.waiters[w].stage, Next(s, a).waiters[w].stage;
              && (x.Awaiting? && (y.Decided? || y.Responded?) ==>
                    y.Decided? && (a == Wake(w) || a == TimeOut(w))
                    && (y.approved <==> a == Wake(w) && s.waiters[w].fut == Resolved(true)))
              && (!x.Awaiting? && (y.Decided? || y.Responded?) ==>
                    (x.Decided? || x.Responded?) && x.approved == y.approved)
              && (!x.Awaiting? ==> !y.Awaiting?)
              && (y.Responded? && !x.Responded? ==> a == Respond(w))
  {
    WaitersStay(s, a);
  }

  lemma {:induction false} DecidesNow(steps: seq<Step>, trace: seq<State>, c: nat, w: nat)
    requires IsRun(steps, trace) && c < |steps| && w < |trace[c].waiters| && w < |trace[c + 1].waiters|
    requires trace[c].waiters[w].stage.Awaiting?
    requires trace[c + 1].waiters[w].stage.Decided? || trace[c + 1].waiters[w].stage.Responded?
    ensures DecidedBy(steps, trace, c, w, trace[c + 1].waiters[w].stage.approved)
  {
    assert Moves(trace[c], steps[c], trace[c + 1]);
    StageMoves(trace[c], steps[c], w);
  }

  /** A transaction stops waiting at most once. */
  lemma {:induction false} WaitEndsOnce(steps: seq<Step>, trace: seq<State>, c: nat, k: nat, w: nat)
    requires IsRun(steps, trace) && StopsWaiting(trace, c, w) && c < k < |trace|
    ensures w < |trace[k].waiters| && !trace[k].waiters[w].stage.Awaiting?
    decreases k
  {
    if c + 1 < k {
      WaitEndsOnce(steps, trace, c, k - 1, w);
      assert Moves(trace[k - 1], steps[k - 1], trace[k]);
      WaitersStay(trace[k - 1], steps[k - 1]);
      StageMoves(trace[k - 1], steps[k - 1], w);
    }
  }

  /** Over every run, for each response sent: its transaction asked under its id and stopped waiting
      at just one step, and the response approves if and only if that step was its waking to a
      future resolved with approval. Otherwise the future had been denied or cancelled, or a
      timeout overruled it. */
  lemma {:induction false} ApprovedIffDecided(steps: seq<Step>, trace: seq<State>, k: nat, i: nat) returns (c: nat)
    requires IsRun(steps, trace) && k < |trace| && i < |trace[k].sent|
    ensures var m := trace[k].sent[i];
            && c < k && StopsWaiting(trace, c, m.waiter) && trace[c].waiters[m.waiter].id == m.id
            && (forall d: nat | d < k && StopsWaiting(trace, d, m.waiter) :: d == c)
            && (steps[c] == Wake(m.waiter) || steps[c] == TimeOut(m.waiter))
            && (m.approved <==> steps[c] == Wake(m.waiter) && trace[c].waiters[m.waiter].fut == Resolved(true))
  {
    hide Enabled, Next, Inv, Moves;
    var m := trace[k].sent[i];
    var w := m.waiter;
    RunKeepsInv(steps, trace, k);
    SentIsSound(trace[k], i);
    c := DecisionHasStep(steps, trace, k, w);
    IdStays(steps, trace, c, k, w);
    forall d: nat | d < k && StopsWaiting(trace, d, w) ensures d == c {
      StopsOnce(steps, trace, c, d, w);
    }
  }

  lemma {:induction false} SentIsSound(s: State, i: nat)
    requires Inv(s) && i < |s.sent|
    ensures SoundSent(s, s.sent[i])
  {
  }

  lemma {:induction false} StopsOnce(steps: seq<Step>, trace: seq<State>, c: nat, d: nat, w: nat)
    requires IsRun(steps, trace) && StopsWaiting(trace, c, w) && StopsWaiting(trace, d, w)
    ensures c == d
  {
    hide IsRun;
    if c < d {
      WaitEndsOnce(steps, trace, c, d, w);
    } else if d < c {
      WaitEndsOnce(steps, trace, d, c, w);
    }
  }

  lemma {:induction false} IdStays(steps: seq<Step>, trace: seq<State>, n: nat, k: nat, w: nat)
    requires IsRun(steps, trace) && n <= k < |trace| && w < |trace[n].waiters|
    ensures w < |trace[k].waiters| && trace[k].waiters[w].id == trace[n].waiters[w].id
    decreases k
  {
    hide Enabled, Next;
    if n < k {
      IdStays(steps, trace, n, k - 1, w);
      assert Moves(trace[k - 1], steps[k - 1], trace[k]);
      WaitersStay(trace[k - 1], steps[k - 1]);
    }
  }

  /** A transaction that still waits when its future is approved can go on, and the response it
      then sends approves under its id. */
  lemma {:induction false} ApprovalIsSent(s: State, w: nat)
    requires w < |s.waiters| && s.waiters[w].stage == Awaiting && s.waiters[w].fut == Resolved(true)
    ensures Enabled(s, Wake(w)) && Enabled(Next(s, Wake(w)), Respond(w))
    ensures Next(Next(s, Wake(w)), Respond(w)).sent == s.sent + [Sent(w, s.waiters[w].id, true)]
  {
  }

  // ---------------------------------------------------------------- distinct requests

  // No two transactions ask under the same id.
  ghost predicate DistinctIds(s: State) {
    forall v, w | 0 <= v < w < |s.waiters| :: s.waiters[v].id != s.waiters[w].id
  }

  // The table knows awaiting transactions only, and every one whose future is open.
  ghost predicate Listed(s: State) {
    forall w | 0 <= w < |s.waiters| ::
      && (s.waiters[w].id in s.pending ==> s.waiters[w].stage.Awaiting?)
      && (s.waiters[w].fut.Open? && s.waiters[w].stage.Awaiting? ==> s.waiters[w].id in s.pending)
  }

  lemma {:induction false} DistinctEarlier(s: State, a: Step)
    requires Enabled(s, a) && DistinctIds(Next(s, a))
    ensures DistinctIds(s)
  {
    hide Enabled, Next;
    WaitersStay(s, a);
  }

  lemma {:induction false} StepKeepsListed(s: State, a: Step)
    requires Inv(s) && Listed(s) && Enabled(s, a) && DistinctIds(Next(s, a))
    ensures Listed(Next(s, a))
  {
    var t := Next(s, a);
    DistinctEarlier(s, a);
    forall w | 0 <= w < |t.waiters|
      ensures t.waiters[w].id in t.pending ==> t.waiters[w].stage.Awaiting?
      ensures t.waiters[w].fut.Open? && t.waiters[w].stage.Awaiting? ==> t.waiters[w].id in t.pending
    {
      StepKeepsListedAt(s, a, w);
    }
  }

  lemma {:induction false} StepKeepsListedAt(s: State, a: Step, w: nat)
    requires Inv(s) && Listed(s) && Enabled(s, a) && DistinctIds(s) && DistinctIds(Next(s, a))
    requires w < |Next(s, a).waiters|
    ensures var t := Next(s, a);
            && (t.waiters[w].id in t.pending ==> t.waiters[w].stage.Awaiting?)
            && (t.waiters[w].fut.Open? && t.waiters[w].stage.Awaiting? ==> t.waiters[w].id in t.pending)
  {
    match a
    case Ask(id) =>
      var t := Next(s, a);
      assert w < |s.waiters| ==> t.waiters[w].id != t.waiters[|s.waiters|].id;
      assert w == |s.waiters| ==> t.pending[t.waiters[w].id] == w;
    case Shutdown =>
      if s.waiters[w].id in s.pending {
        var v := s.pending[s.waiters[w].id];
        assert v == w && w in s.pending.Values;
      }
    case TimeOut(v) => assert v != w ==> s.waiters[v].id != s.waiters[w].id;
    case Wake(v) => assert v != w ==> s.waiters[v].id != s.waiters[w].id;
    case Fail(v) => assert v != w ==> s.waiters[v].id != s.waiters[w].id;
    case Respond(v) => assert v != w ==> s.waiters[v].id != s.waiters[w].id;
    case _ =>
  }

  lemma {:induction false} RunKeepsListed(steps: seq<Step>, trace: seq<State>, k: nat)
    requires IsRun(steps, trace) && k < |trace| && DistinctIds(trace[k])
    ensures Listed(trace[k])
  {
    hide Inv, Enabled, Next;
    if k > 0 {
      assert Moves(trace[k - 1], steps[k - 1], trace[k]);
      RunKeepsInv(steps, trace, k - 1);
      DistinctEarlier(trace[k - 1], steps[k - 1]);
      RunKeepsListed(steps, trace, k - 1);
      StepKeepsListed(trace[k - 1], steps[k - 1]);
    }
  }

  // The table leads from its id to `w` no more, or to nothing.
  ghost predicate Unlisted(s: State, w: nat) {
    w < |s.waiters| && (s.waiters[w].id in s.pending ==> s.pending[s.waiters[w].id] != w)
  }

  /** What has left the table under its own id never comes back. */
  lemma {:induction false} UnlistedStays(s: State, a: Step, w: nat)
    requires Inv(s) && Enabled(s, a) && Unlisted(s, w)
    ensures Unlisted(Next(s, a), w)
  {
    WaitersStay(s, a);
  }

  /** Over every run: once its id leads to another request, or to none, a future can never be
      approved, and no approval of it is ever sent. */
  lemma {:induction false} UnlistedIsNeverApproved(steps: seq<Step>, trace: seq<State>, from: nat, k: nat, w: nat)
    requires IsRun(steps, trace) && from <= k < |trace| && Unlisted(trace[from], w)
    requires trace[from].waiters[w].fut != Resolved(true)
    ensures Unlisted(trace[k], w) && trace[k].waiters[w].fut != Resolved(true)
    ensures k < |steps| ==> !Approves(trace[k], steps[k], w)
    ensures forall i | 0 <= i < |trace[k].sent| && trace[k].sent[i].waiter == w :: !trace[k].sent[i].approved
    decreases k
  {
    hide Enabled, Next, Unlisted;
    RunKeepsInv(steps, trace, k);
    if from < k {
      UnlistedIsNeverApproved(steps, trace, from, k - 1, w);
      RunKeepsInv(steps, trace, k - 1);
      assert Moves(trace[k - 1], steps[k - 1], trace[k]);
      UnlistedStays(trace[k - 1], steps[k - 1], w);
      WaitersStay(trace[k - 1], steps[k - 1]);
      UnlistedWaits(trace[k - 1], w);
      FutureSettlesOnce(trace[k - 1], steps[k - 1], w);
    }
    UnlistedWaits(trace[k], w);
    forall i | 0 <= i < |trace[k].sent| && trace[k].sent[i].waiter == w ensures !trace[k].sent[i].approved {
      assert SoundSent(trace[k], trace[k].sent[i]);
      assert SoundWaiter(trace[k], w);
    }
  }

  lemma {:induction false} UnlistedWaits(s: State, w: nat)
    requires Unlisted(s, w)
    ensures w < |s.waiters| && forall a :: !Approves(s, a, w)
  {
  }

  ghost predicate LeftTable(s: State) {
    forall w | 0 <= w < |s.waiters| && !s.waiters[w].stage.Awaiting? :: Unlisted(s, w)
  }

  lemma {:induction false} StepKeepsLeft(s: State, a: Step)
    requires Inv(s) && Enabled(s, a) && LeftTable(s)
    ensures LeftTable(Next(s, a))
  {
    var t := Next(s, a);
    forall w: nat | w < |t.waiters| && !t.waiters[w].stage.Awaiting? ensures Unlisted(t, w) {
      LeavingUnlists(s, a, w);
    }
  }

  lemma {:induction false} LeavingUnlists(s: State, a: Step, w: nat)
    requires Inv(s) && Enabled(s, a) && w < |Next(s, a).waiters| && !Next(s, a).waiters[w].stage.Awaiting?
    requires w < |s.waiters| && !s.waiters[w].stage.Awaiting? ==> Unlisted(s, w)
    ensures Unlisted(Next(s, a), w)
  {
    WaitersStay(s, a);
    if w < |s.waiters| && !s.waiters[w].stage.Awaiting? {
      UnlistedStays(s, a, w);
    }
  }

  lemma {:induction false} RunKeepsLeft(steps: seq<Step>, trace: seq<State>, k: nat)
    requires IsRun(steps, trace) && k < |trace|
    ensures LeftTable(trace[k])
  {
    hide Inv, Enabled, Next, Unlisted;
    if k > 0 {
      assert Moves(trace[k - 1], steps[k - 1], trace[k]);
      RunKeepsInv(steps, trace, k - 1);
      RunKeepsLeft(steps, trace, k - 1);
      StepKeepsLeft(trace[k - 1], steps[k - 1]);
    }
  }

  /** An answered request is gone from the table: its id leads to it no more. With distinct
      request ids that id is in the table no more, and no id is answered twice. */
  lemma {:induction false} AnsweredIsGone(steps: seq<Step>, trace: seq<State>, k: nat)
    requires IsRun(steps, trace) && k < |trace|
    ensures forall i | 0 <= i < |trace[k].sent| :: Unlisted(trace[k], trace[k].sent[i].waiter)
    ensures DistinctIds(trace[k]) ==>
              && (forall i | 0 <= i < |trace[k].sent| :: trace[k].sent[i].id !in trace[k].pending)
              && (forall i, j | 0 <= i < j < |trace[k].sent| :: trace[k].sent[i].id != trace[k].sent[j].id)
  {
    hide Enabled, Next, Unlisted;
    RunKeepsInv(steps, trace, k);
    RunKeepsLeft(steps, trace, k);
    var s := trace[k];
    if DistinctIds(s) { RunKeepsListed(steps, trace, k); }
    forall i | 0 <= i < |s.sent|
      ensures SoundSent(s, s.sent[i]) && Unlisted(s, s.sent[i].waiter)
      ensures DistinctIds(s) ==> s.sent[i].id !in s.pending
    {
      assert SoundSent(s, s.sent[i]);
    }
  }

  /** Shutdown denies every open future in the table, and after it no request made before can be
      approved any more, whatever happens. With distinct request ids none is left open. */
  lemma {:induction false} ShutdownSettlesAll(steps: seq<Step>, trace: seq<State>, n: nat, k: nat, w: nat)
    requires IsRun(steps, trace) && n < |steps| && steps[n].Shutdown? && n < k < |trace| && w < |trace[n].waiters|
    ensures trace[n + 1].pending == map[]
    ensures trace[n + 1].waiters[w].fut.Open? <==> trace[n].waiters[w].fut.Open? && Unlisted(trace[n], w)
    ensures w < |trace[k].waiters|
    ensures trace[k].waiters[w].fut == Resolved(true) ==> trace[n].waiters[w].fut == Resolved(true)
    ensures DistinctIds(trace[n]) && trace[n].waiters[w].stage.Awaiting? ==> !trace[n + 1].waiters[w].fut.Open?
  {
    RunKeepsInv(steps, trace, n);
    var s, t := trace[n], trace[n + 1];
    assert Moves(s, steps[n], t);
    assert s.waiters[w].fut.Open? && !Unlisted(s, w) ==> w in s.pending.Values;
    assert w in s.pending.Values ==> !Unlisted(s, w) by {
      if w in s.pending.Values {
        var id :| id in s.pending && s.pending[id] == w;
      }
    }
    if DistinctIds(s) { RunKeepsListed(steps, trace, n); }
    if s.waiters[w].fut != Resolved(true) {
      UnlistedIsNeverApproved(steps, trace, n + 1, k, w);
    } else {
      WaitersRemain(steps, trace, n, k);
    }
  }

  lemma {:induction false} WaitersRemain(steps: seq<Step>, trace: seq<State>, n: nat, k: nat)
    requires IsRun(steps, trace) && n <= k < |trace|
    ensures |trace[n].waiters| <= |trace[k].waiters|
    decreases k
  {
    hide Enabled, Next;
    if n < k {
      WaitersRemain(steps, trace, n, k - 1);
      assert Moves(trace[k - 1], steps[k - 1], trace[k]);
      WaitersStay(trace[k - 1], steps[k - 1]);
    }
  }

  /** A request id asked twice: the second future shadows the first, whose prompt can no longer
      be answered, whatever happens next; a click on it goes to the wrong request. */
  lemma {:induction false} RepeatedIdShadows(steps: seq<Step>, trace: seq<State>, n: nat, k: nat, w: nat)
    requires IsRun(steps, trace) && n < k < |trace| && w < |trace[n].waiters|
    requires trace[n].waiters[w].fut == Open && steps[n] == Ask(trace[n].waiters[w].id)
    ensures w < |trace[k].waiters| && trace[k].waiters[w].fut != Resolved(true)
    ensures k < |steps| ==> !Approves(trace[k], steps[k], w)
    ensures forall i | 0 <= i < |trace[k].sent| && trace[k].sent[i].waiter == w :: !trace[k].sent[i].approved
  {
    assert Moves(trace[n], steps[n], trace[n + 1]);
    UnlistedIsNeverApproved(steps, trace, n + 1, k, w);
  }

  /** The click that was meant for the first future settles the second. */
  lemma {:induction false} ClickGoesToShadow(id: string)
    ensures var asked := Next(Next(START, Ask(id)), Ask(id));
            var clicked := Next(asked, Click(id, true, Allowed));
            clicked.waiters[0].fut == Open && clicked.waiters[1].fut == Resolved(true)
  {
  }
}
