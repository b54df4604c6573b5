/** The bus and its client together: what the turns of a session return over every interleaving of
    the bus. */
module BusSession {
  import opened Option
  import opened EventBus
  import BusClient

  // ---------------------------------------------------------------- the frames on the wire

  // How the payloads of the bus look to the client.
  datatype Encoding = Encoding(
    notice: string -> BusClient.Frame,
    value: string -> BusClient.ResultValue,
    message: int -> string)

  /** A response is written with both its keys: the one that does not apply is null. */
  function Serialise(e: Encoding, reply: Reply): BusClient.Frame {
    match reply.outcome
    case Result(v) =>
      BusClient.Object(Some(reply.id), BusClient.OtherMethod, Some(e.value(v)), Some(BusClient.Malformed))
    case Error(code) =>
      BusClient.Object(Some(reply.id), BusClient.OtherMethod, Some(BusClient.Plain),
          Some(BusClient.WithMessage(e.message(code))))
  }

  function FrameOf(e: Encoding, m: Message): BusClient.Frame {
    match m
    case Response(_, reply) => Serialise(e, reply)
    case Notice(_, body) => e.notice(body)
  }

  function Frames(e: Encoding, wire: seq<Message>): (r: seq<BusClient.Frame>)
    ensures |r| == |wire|
    ensures forall p | 0 <= p < |wire| :: r[p] == FrameOf(e, wire[p])
  {
    seq(|wire|, p requires 0 <= p < |wire| => FrameOf(e, wire[p]))
  }

  // What handlers send while running has no id, and the client can digest it. It need not be a
  // notification the client knows: tool calls and pushes are passed over.
  ghost predicate SoundEncoding(e: Encoding, asked: bool) {
    forall body :: e.notice(body).Object? && e.notice(body).id.None? && !BusClient.Breaks(e.notice(body), asked)
  }

  /** A response answers exactly the turn whose id it carries; a notice answers none. */
  lemma {:induction false} FrameAnswersIff(e: Encoding, asked: bool, m: Message, id: string)
    requires SoundEncoding(e, asked)
    ensures BusClient.Answers(id, FrameOf(e, m)) <==> m.Response? && m.reply.id == id
    ensures !BusClient.Breaks(FrameOf(e, m), asked)
  {
  }

  /** Errors of the bus never surface as errors: every turn on frames the bus wrote returns a
      text, because a written error also has a null result. */
  lemma {:induction false} BusErrorsAreSilent(e: Encoding, wire: seq<Message>, id: string, asked: bool, tokens: string)
    requires SoundEncoding(e, asked)
    ensures BusClient.RunTurn(id, Frames(e, wire), asked, tokens).outcome.Returned?
    decreases |wire|
  {
    hide FrameOf;
    var frames := Frames(e, wire);
    if frames != [] {
      FrameAnswersIff(e, asked, wire[0], id);
      if wire[0].Response? { ResponseHasResult(e, wire[0]); }
      BusErrorsAreSilent(e, wire[1..], id, asked, tokens + BusClient.TokensOf(frames[0]));
      assert Frames(e, wire[1..]) == frames[1..];
    }
  }

  lemma {:induction false} ResponseHasResult(e: Encoding, m: Message)
    requires m.Response?
    ensures FrameOf(e, m).Object? && FrameOf(e, m).result.Some?
  {
  }

  // ---------------------------------------------------------------- a paced run

  // `turns` are the lines that open a turn; other lines acknowledge permission requests. The
  // client opens a turn only after the one before has been answered.
  ghost predicate Paced(turns: seq<nat>, s: State, a: Step) {
    a.ReadLine? && s.read in turns ==> forall t | t in turns && t < s.read :: Responses(s.wire, t) >= 1
  }

  ghost predicate IsPacedRun(lines: seq<Line>, registered: set<string>, turns: seq<nat>,
                             from: State, steps: seq<Step>, to: State)
    decreases |steps|
  {
    if steps == [] then from == to
    else
      && Enabled(lines, registered, from, steps[0])
      && Paced(turns, from, steps[0])
      && IsPacedRun(lines, registered, turns, Next(lines, registered, from, steps[0]), steps[1..], to)
  }

  // A turn is open at a time, and turns are answered in the order they were opened.
  ghost predicate OneAtATime(turns: seq<nat>, s: State) {
    && (forall t, u | t in turns && u in turns && t < u < s.read :: Responses(s.wire, t) >= 1)
    && InOrder(turns, s.wire)
  }

  ghost predicate InOrder(turns: seq<nat>, wire: seq<Message>) {
    forall p, q | 0 <= p < q < |wire| && IsTurn(turns, wire[p]) && IsTurn(turns, wire[q]) ::
      wire[p].origin < wire[q].origin
  }

  predicate IsTurn(turns: seq<nat>, m: Message) {
    m.Response? && m.origin in turns
  }

  lemma {:induction false} WireGrows(lines: seq<Line>, registered: set<string>, s: State, a: Step, n: nat)
    requires Enabled(lines, registered, s, a)
    ensures Responses(Next(lines, registered, s, a).wire, n) >= Responses(s.wire, n)
  {
    if a.Write? {
      ResponsesConcat(s.wire, [s.outbound[0]], n);
    }
  }

  /** The response about to be written is not on the wire yet, and its line has been read. */
  lemma {:induction false} WrittenIsNew(s: State, m: Message)
    requires Accounted(s) && s.outbound != [] && s.outbound[0] == m && m.Response?
    ensures Responses(s.wire, m.origin) == 0 && m.origin < s.read
  {
    assert s.outbound == [m] + s.outbound[1..];
    ResponsesConcat([m], s.outbound[1..], m.origin);
    ResponsesOne(m, m.origin);
    assert Held(s, m.origin) <= 1;
  }

  lemma {:induction false} WrittenLineWasRead(s: State, p: nat)
    requires Accounted(s) && p < |s.wire| && s.wire[p].Response?
    ensures s.wire[p].origin < s.read && Responses(s.wire, s.wire[p].origin) >= 1
  {
    ResponseCounts(s.wire, p);
    assert Held(s, s.wire[p].origin) >= 1;
  }

  lemma {:induction false} StepKeepsOneAtATime(lines: seq<Line>, registered: set<string>, turns: seq<nat>, s: State,
                                               a: Step)
    requires Accounted(s) && OneAtATime(turns, s) && Enabled(lines, registered, s, a) && Paced(turns, s, a)
    ensures OneAtATime(turns, Next(lines, registered, s, a))
  {
    hide Accounted, InOrder, Responses, ProperReply;
    var next := Next(lines, registered, s, a);
    forall t, u | t in turns && u in turns && t < u < next.read ensures Responses(next.wire, t) >= 1 {
      WireGrows(lines, registered, s, a, t);
    }
    if a.Write? {
      WriteKeepsOrder(turns, s);
    }
  }

  lemma {:induction false} WriteKeepsOrder(turns: seq<nat>, s: State)
    requires Accounted(s) && OneAtATime(turns, s) && s.outbound != []
    ensures InOrder(turns, s.wire + [s.outbound[0]])
  {
    hide Accounted, Responses;
    var m := s.outbound[0];
    if IsTurn(turns, m) {
      WrittenIsNew(s, m);
      forall p | 0 <= p < |s.wire| && IsTurn(turns, s.wire[p]) ensures s.wire[p].origin < m.origin {
        WrittenLineWasRead(s, p);
      }
    }
  }

  lemma {:induction false} PacedRunIsOrdered(lines: seq<Line>, registered: set<string>, turns: seq<nat>,
                                             from: State, steps: seq<Step>, to: State)
    requires Inv(lines, registered, from) && OneAtATime(turns, from)
    requires IsPacedRun(lines, registered, turns, from, steps, to)
    ensures OneAtATime(turns, to) && IsRun(lines, registered, from, steps, to)
    decreases |steps|
  {
    hide Enabled, Next, Paced, OneAtATime, Accounted, Proper, NoticesFirst;
    if steps != [] {
      StepKeepsInv(lines, registered, from, steps[0]);
      StepKeepsOneAtATime(lines, registered, turns, from, steps[0]);
      PacedRunIsOrdered(lines, registered, turns, Next(lines, registered, from, steps[0]), steps[1..], to);
    }
  }

  // ---------------------------------------------------------------- where a response stands

  /** The place of the last response to line `n`. */
  function Place(ms: seq<Message>, n: nat): (p: nat)
    requires Responses(ms, n) >= 1
    ensures p < |ms| && ms[p].Response? && ms[p].origin == n
  {
    var m := ms[|ms| - 1];
    if m.Response? && m.origin == n then |ms| - 1 else Place(ms[..|ms| - 1], n)
  }

  lemma {:induction false} PlaceIsUnique(ms: seq<Message>, n: nat, p: nat)
    requires Responses(ms, n) == 1 && p < |ms| && ms[p].Response? && ms[p].origin == n
    ensures p == Place(ms, n)
  {
    var k := |ms| - 1;
    if p < k {
      ResponseCounts(ms[..k], p);
      PlaceIsUnique(ms[..k], n, p);
    }
  }

  // ---------------------------------------------------------------- sessions over the bus

  // No two requests bear the same id, and none the one reserved for parse errors.
  ghost predicate FreshIds(lines: seq<Line>) {
    && (forall i, j | 0 <= i < j < |lines| && lines[i].Request? && lines[j].Request? :: lines[i].id != lines[j].id)
    && (forall i | 0 <= i < |lines| && lines[i].Request? :: lines[i].id != PARSE_ERROR_ID)
  }

  // The turns of a session are requests, opened in this order.
  ghost predicate Turns(lines: seq<Line>, turns: seq<nat>) {
    && (forall i | 0 <= i < |turns| :: turns[i] < |lines| && lines[turns[i]].Request?)
    && (forall i, j | 0 <= i < j < |turns| :: turns[i] < turns[j])
  }

  function Ids(lines: seq<Line>, turns: seq<nat>): (r: seq<string>)
    requires Turns(lines, turns)
    ensures |r| == |turns| && forall i | 0 <= i < |turns| :: r[i] == lines[turns[i]].id
  {
    seq(|turns|, i requires 0 <= i < |turns| => lines[turns[i]].id)
  }

  /** In every state of a paced run, turns are answered at most once and in the order they were
      opened; an answered turn has all earlier ones answered before it. */
  lemma {:induction false} PacedStateIsSound(lines: seq<Line>, registered: set<string>, turns: seq<nat>,
                                             steps: seq<Step>, s: State)
    requires IsPacedRun(lines, registered, turns, START, steps, s)
    ensures Reachable(lines, registered, s) && InOrder(turns, s.wire)
    ensures forall n: nat :: Responses(s.wire, n) <= 1
    ensures forall t, u | t in turns && u in turns && t < u && Responses(s.wire, u) >= 1 :: Responses(s.wire, t) >= 1
  {
    hide Inv, IsPacedRun, IsRun, Responses;
    StartIsSound(lines, registered);
    PacedRunIsOrdered(lines, registered, turns, START, steps, s);
    ResponsesAreSound(lines, registered, s);
    forall t, u | t in turns && u in turns && t < u && Responses(s.wire, u) >= 1 ensures Responses(s.wire, t) >= 1 {
      AnsweredWasRead(lines, registered, steps, s, u);
    }
  }

  lemma {:induction false} AnsweredWasRead(lines: seq<Line>, registered: set<string>, steps: seq<Step>, s: State,
                                           n: nat)
    requires IsRun(lines, registered, START, steps, s) && Responses(s.wire, n) >= 1
    ensures n < s.read
  {
    hide IsRun, Proper, NoticesFirst;
    StartIsSound(lines, registered);
    RunKeepsInv(lines, registered, START, steps, s);
    assert Held(s, n) >= 1;
  }

  /** The frame that answers a request is the response to its line and no other. */
  lemma {:induction false} OnlyOwnResponseAnswers(lines: seq<Line>, registered: set<string>, s: State, e: Encoding,
                                                  asked: bool, n: nat, p: nat)
    requires Reachable(lines, registered, s) && FreshIds(lines) && SoundEncoding(e, asked)
    requires n < |lines| && lines[n].Request? && Responses(s.wire, n) == 1 && p < |s.wire|
    ensures BusClient.Answers(lines[n].id, Frames(e, s.wire)[p]) <==> p == Place(s.wire, n)
  {
    hide Reachable, SoundEncoding;
    var m := s.wire[p];
    ResponsesAreSound(lines, registered, s);
    FrameAnswersIff(e, asked, m, lines[n].id);
    assert s.wire[Place(s.wire, n)] in s.wire;
    FrameAnswersIff(e, asked, s.wire[Place(s.wire, n)], lines[n].id);
    if m.Response? && m.reply.id == lines[n].id {
      assert m in s.wire && m.origin == n;
      PlaceIsUnique(s.wire, n, p);
    }
  }

  ghost predicate HasContent(e: Encoding, wire: seq<Message>, n: nat)
    requires Responses(wire, n) >= 1
  {
    var reply := wire[Place(wire, n)].reply;
    reply.outcome.Result? && e.value(reply.outcome.value).WithContent?
  }

  function ReplyContent(e: Encoding, wire: seq<Message>, n: nat): string
    requires Responses(wire, n) >= 1 && HasContent(e, wire, n)
  {
    e.value(wire[Place(wire, n)].reply.outcome.value).content
  }

  /** On the wire: each turn answered so far returns the content of the response to its line. */
  lemma {:induction false} SessionOnTheWire(lines: seq<Line>, registered: set<string>, turns: seq<nat>,
                                            steps: seq<Step>, s: State,
                                            e: Encoding, asked: bool, answered: nat)
    requires IsPacedRun(lines, registered, turns, START, steps, s) && Turns(lines, turns)
    requires FreshIds(lines) && SoundEncoding(e, asked)
    requires answered <= |turns| && forall i | 0 <= i < answered :: Responses(s.wire, turns[i]) >= 1
    requires forall i | 0 <= i < answered :: HasContent(e, s.wire, turns[i])
    ensures Turns(lines, turns[..answered])
    ensures forall i | 0 <= i < answered ::
              BusClient.Session(Ids(lines, turns[..answered]), Frames(e, s.wire), asked)[i]
              == BusClient.Returned(ReplyContent(e, s.wire, turns[i]))
  {
    hide IsPacedRun, SoundEncoding, HasContent, Responses;
    PacedStateIsSound(lines, registered, turns, steps, s);
    var done := turns[..answered];
    var at := seq(answered, i requires 0 <= i < answered => Place(s.wire, turns[i]));
    AnswersComeInOrder(lines, registered, done, s, e, asked, at);
    FramesDigest(e, s.wire, asked);
    BusClient.SessionCorrelates(Ids(lines, done), Frames(e, s.wire), asked, at);
    forall i | 0 <= i < answered
      ensures BusClient.Session(Ids(lines, done), Frames(e, s.wire), asked)[i]
           == BusClient.Returned(ReplyContent(e, s.wire, turns[i]))
    {
      ContentFrame(e, s.wire, turns[i]);
    }
  }

  ghost predicate HasReturned(steps: seq<Step>, n: nat) {
    exists reply :: Return(n, reply) in steps
  }

  /** In every state of every interleaving, with acknowledgements and notifications between, and
      whatever becomes of the connection afterwards: each turn answered so far returns the content
      that the handler of its own line returned. */
  lemma {:induction false} SessionOverTheBus(lines: seq<Line>, registered: set<string>, turns: seq<nat>,
                                             steps: seq<Step>, s: State,
                                             e: Encoding, asked: bool, answered: nat)
    requires IsPacedRun(lines, registered, turns, START, steps, s) && Turns(lines, turns)
    requires FreshIds(lines) && SoundEncoding(e, asked)
    requires answered <= |turns| && forall i | 0 <= i < answered :: Responses(s.wire, turns[i]) >= 1
    requires forall i, reply | 0 <= i < answered && Return(turns[i], reply) in steps ::
               reply.outcome.Result? && e.value(reply.outcome.value).WithContent?
    ensures Turns(lines, turns[..answered])
    ensures forall i | 0 <= i < answered :: HasReturned(steps, turns[i])
    ensures forall i, reply | 0 <= i < answered && Return(turns[i], reply) in steps ::
              BusClient.Session(Ids(lines, turns[..answered]), Frames(e, s.wire), asked)[i]
              == BusClient.Returned(e.value(reply.outcome.value).content)
  {
    hide IsPacedRun, SoundEncoding, HasContent, ReplyContent, Responses, IsRun;
    PacedRunIsRun(lines, registered, turns, steps, s);
    forall i | 0 <= i < answered
      ensures HasContent(e, s.wire, turns[i])
      ensures forall reply | Return(turns[i], reply) in steps ::
                ReplyContent(e, s.wire, turns[i]) == e.value(reply.outcome.value).content
    {
      assert Responses(s.wire, turns[i]) >= 1;
      WireReplyWasReturned(lines, registered, steps, s, e, turns[i]);
    }
    SessionOnTheWire(lines, registered, turns, steps, s, e, asked, answered);
    forall i | 0 <= i < answered ensures HasReturned(steps, turns[i]) {
      assert Responses(s.wire, turns[i]) >= 1;
      WireReplyWasReturned(lines, registered, steps, s, e, turns[i]);
    }
    forall i, reply | 0 <= i < answered && Return(turns[i], reply) in steps
      ensures BusClient.Session(Ids(lines, turns[..answered]), Frames(e, s.wire), asked)[i]
           == BusClient.Returned(e.value(reply.outcome.value).content)
    {
      assert ReplyContent(e, s.wire, turns[i]) == e.value(reply.outcome.value).content;
    }
  }

  lemma {:induction false} PacedRunIsRun(lines: seq<Line>, registered: set<string>, turns: seq<nat>, steps: seq<Step>,
                                         s: State)
    requires IsPacedRun(lines, registered, turns, START, steps, s)
    ensures IsRun(lines, registered, START, steps, s)
  {
    StartIsSound(lines, registered);
    PacedRunIsOrdered(lines, registered, turns, START, steps, s);
  }

  lemma {:induction false} WireReplyWasReturned(lines: seq<Line>, registered: set<string>, steps: seq<Step>, s: State,
                                                e: Encoding, n: nat)
    requires IsRun(lines, registered, START, steps, s) && Responses(s.wire, n) >= 1
    requires n < |lines| && lines[n].Request?
    requires forall reply | Return(n, reply) in steps ::
               reply.outcome.Result? && e.value(reply.outcome.value).WithContent?
    ensures HasContent(e, s.wire, n)
    ensures HasReturned(steps, n)
    ensures forall reply | Return(n, reply) in steps ::
              ReplyContent(e, s.wire, n) == e.value(reply.outcome.value).content
  {
    hide IsRun;
    WireCarriesReturns(lines, registered, steps, s);
    HandlersReturnOnce(lines, registered, steps, s);
    var m := s.wire[Place(s.wire, n)];
    assert m in s.wire && m == Response(n, m.reply);
  }

  /** A turn whose answer never reaches the wire reads to the end of input and returns the tokens
      it has read. */
  lemma {:induction false} UnansweredTurnEndsWithInput(lines: seq<Line>, registered: set<string>, s: State,
                                                       e: Encoding, asked: bool,
                                    n: nat, from: nat)
    requires Reachable(lines, registered, s) && FreshIds(lines) && SoundEncoding(e, asked)
    requires n < |lines| && lines[n].Request? && Responses(s.wire, n) == 0 && from <= |s.wire|
    ensures var rest := Frames(e, s.wire)[from..];
            BusClient.RunTurn(lines[n].id, rest, asked, "")
            == BusClient.Turn(BusClient.Returned(BusClient.Joined(rest)), |rest|)
  {
    hide Reachable, SoundEncoding, FrameOf;
    var rest := Frames(e, s.wire)[from..];
    ResponsesAreSound(lines, registered, s);
    forall k | 0 <= k < |rest| ensures !BusClient.Answers(lines[n].id, rest[k]) && !BusClient.Breaks(rest[k], asked) {
      var m := s.wire[from + k];
      FrameAnswersIff(e, asked, m, lines[n].id);
      if m.Response? {
        assert m in s.wire;
        ResponseCounts(s.wire, from + k);
      }
    }
    BusClient.TurnEndsAtOwnAnswer(lines[n].id, rest, asked, "");
    assert "" + BusClient.Joined(rest) == BusClient.Joined(rest);
  }

  lemma {:induction false} FramesDigest(e: Encoding, wire: seq<Message>, asked: bool)
    requires SoundEncoding(e, asked)
    ensures forall p | 0 <= p < |wire| :: !BusClient.Breaks(Frames(e, wire)[p], asked)
  {
    hide SoundEncoding, FrameOf;
    forall p | 0 <= p < |wire| ensures !BusClient.Breaks(Frames(e, wire)[p], asked) {
      FrameAnswersIff(e, asked, wire[p], "");
    }
  }

  lemma {:induction false} ContentFrame(e: Encoding, wire: seq<Message>, n: nat)
    requires Responses(wire, n) >= 1 && HasContent(e, wire, n)
    ensures var f := Frames(e, wire)[Place(wire, n)];
            && f.Object? && f.result.Some? && f.result.value.WithContent?
            && BusClient.ContentOf(f) == ReplyContent(e, wire, n)
  {
  }

  lemma {:induction false} AnswersComeInOrder(lines: seq<Line>, registered: set<string>, turns: seq<nat>, s: State,
                           e: Encoding, asked: bool, at: seq<nat>)
    requires Reachable(lines, registered, s) && InOrder(turns, s.wire) && Turns(lines, turns)
    requires FreshIds(lines) && SoundEncoding(e, asked)
    requires forall n | n in turns :: Responses(s.wire, n) == 1
    requires forall n | n in turns :: HasContent(e, s.wire, n)
    requires |at| == |turns| && forall i | 0 <= i < |turns| :: at[i] == Place(s.wire, turns[i])
    ensures BusClient.AnsweredInOrder(Ids(lines, turns), Frames(e, s.wire), at)
  {
    hide Reachable, SoundEncoding, HasContent, FreshIds, FrameOf;
    var ids, frames := Ids(lines, turns), Frames(e, s.wire);
    forall i, j | 0 <= i < j < |at| ensures at[i] < at[j] {
      assert IsTurn(turns, s.wire[at[i]]) && IsTurn(turns, s.wire[at[j]]);
    }
    forall i, p | 0 <= i < |ids| && 0 <= p < |frames| ensures BusClient.Answers(ids[i], frames[p]) <==> p == at[i] {
      OnlyOwnResponseAnswers(lines, registered, s, e, asked, turns[i], p);
    }
    forall i | 0 <= i < |at|
      ensures frames[at[i]].Object? && frames[at[i]].result.Some? && frames[at[i]].result.value.WithContent?
    {
      ContentFrame(e, s.wire, turns[i]);
    }
  }
}
