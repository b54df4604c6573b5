/** The bus client: one turn sends a request and reads frames until the response that bears its
    id; several turns share one connection. */
module BusClient {
  import opened Option

  // The value under a frame's "result" key: an object with "content", or anything else,
  // null included.
  datatype ResultValue = WithContent(content: string) | Plain

  // The value under a frame's "error" key.
  datatype ErrorValue = WithMessage(message: string) | Malformed

  // What the "method" key makes of a frame; `None` stands for a missing parameter.
  datatype Kind =
    | Token(token: Option<string>)
    | Status(status: Option<string>)
    | PermissionRequest(requestId: Option<string>)
    | Complete
    | OtherMethod

  datatype Frame =
    | Blank
    | Garbled
    | NotAnObject
    | Object(id: Option<string>, kind: Kind, result: Option<ResultValue>, error: Option<ErrorValue>)

  datatype Outcome = Returned(text: string) | BusError(message: string) | Crashed

  datatype Sent = Intent(id: string) | PermissionAnswer(requestId: string, approved: bool, id: string)

  // ---------------------------------------------------------------- one frame

  predicate IsNotification(k: Kind) {
    !k.OtherMethod?
  }

  /** A frame that answers the request `id`: no notification, the same id, a result or an
      error. */
  predicate Answers(id: string, f: Frame) {
    f.Object? && !IsNotification(f.kind) && f.id == Some(id) && (f.result.Some? || f.error.Some?)
  }

  /** A frame the client cannot digest. */
  predicate Breaks(f: Frame, asked: bool) {
    match f
    case Blank => false
    case Garbled => false
    case NotAnObject => true
    case Object(_, kind, _, _) =>
      match kind
      case Token(t) => t.None?
      case Status(s) => s.None?
      case PermissionRequest(r) => asked && r.None?
      case Complete => false
      case OtherMethod => false
  }

  function TokensOf(f: Frame): string {
    if f.Object? && f.kind.Token? && f.kind.token.Some? then f.kind.token.value else ""
  }

  /** What the answering frame makes of the turn. */
  function Answer(f: Frame, tokens: string): Outcome
    requires f.Object? && (f.result.Some? || f.error.Some?)
  {
    match f.result
    case Some(WithContent(content)) => Returned(content)
    case Some(Plain) => Returned(tokens)
    case None =>
      match f.error.value
      case WithMessage(m) => BusError(m)
      case Malformed => Crashed
  }

  // ---------------------------------------------------------------- one turn

  datatype Turn = Turn(outcome: Outcome, used: nat)

  /** The outcome of a turn on the frames still to come, and how many of them it reads. */
  function RunTurn(id: string, frames: seq<Frame>, asked: bool, tokens: string): (t: Turn)
    ensures t.used <= |frames|
  {
    if frames == [] then Turn(Returned(tokens), 0)
    else if Breaks(frames[0], asked) then Turn(Crashed, 1)
    else if Answers(id, frames[0]) then Turn(Answer(frames[0], tokens), 1)
    else
      var rest := RunTurn(id, frames[1..], asked, tokens + TokensOf(frames[0]));
      Turn(rest.outcome, rest.used + 1)
  }

  function Joined(frames: seq<Frame>): string {
    if frames == [] then "" else Joined(frames[..|frames| - 1]) + TokensOf(frames[|frames| - 1])
  }

  /** The answers to the permission requests among `frames`, in order. */
  function Acks(frames: seq<Frame>, decide: string -> bool, ackIds: nat -> string): seq<Sent> {
    if frames == [] then []
    else
      var before := Acks(frames[..|frames| - 1], decide, ackIds);
      before + AckOf(frames[|frames| - 1], decide, ackIds(|before|))
  }

  function AckOf(f: Frame, decide: string -> bool, ackId: string): seq<Sent> {
    if f.Object? && f.kind.PermissionRequest? && f.kind.requestId.Some?
    then [PermissionAnswer(f.kind.requestId.value, decide(f.kind.requestId.value), ackId)]
    else []
  }

  // A frame that asks for a permission.
  ghost predicate IsRequest(f: Frame) {
    f.Object? && f.kind.PermissionRequest? && f.kind.requestId.Some?
  }

  // The places of the permission requests among `frames`, in order.
  ghost predicate RequestsAt(frames: seq<Frame>, at: seq<nat>) {
    && (forall i, j | 0 <= i < j < |at| :: at[i] < at[j])
    && (forall k | 0 <= k < |at| :: at[k] < |frames| && IsRequest(frames[at[k]]))
    && (forall p | 0 <= p < |frames| && IsRequest(frames[p]) :: p in at)
  }

  /** With someone to ask, the k-th permission request is answered, under the k-th fresh id, with
      the decision on its own id, and nothing else is sent; without, nothing is sent. */
  ghost predicate RequestsAnswered(frames: seq<Frame>, decide: Option<string -> bool>, ackIds: nat -> string,
                                   sent: seq<Sent>) {
    && (decide.None? ==> sent == [])
    && (decide.Some? ==>
          exists at :: RequestsAt(frames, at) && |sent| == |at|
            && forall k | 0 <= k < |at| ::
                 var requestId := frames[at[k]].kind.requestId.value;
                 sent[k] == PermissionAnswer(requestId, decide.value(requestId), ackIds(k)))
  }

  lemma {:induction false} AcksAnswerRequests(frames: seq<Frame>, decide: string -> bool, ackIds: nat -> string)
    returns (at: seq<nat>)
    ensures RequestsAt(frames, at) && |Acks(frames, decide, ackIds)| == |at|
    ensures forall k | 0 <= k < |at| ::
              var requestId := frames[at[k]].kind.requestId.value;
              Acks(frames, decide, ackIds)[k] == PermissionAnswer(requestId, decide(requestId), ackIds(k))
  {
    hide RequestsAt, IsRequest, AckOf;
    if frames == [] {
      at := [];
      NoRequests();
    } else {
      var n := |frames| - 1;
      var before := AcksAnswerRequests(frames[..n], decide, ackIds);
      at := if IsRequest(frames[n]) then before + [n] else before;
      OneMoreRequest(frames, before);
      AckOfIs(frames[n], decide, ackIds(|before|));
    }
  }

  lemma {:induction false} NoRequests()
    ensures RequestsAt([], [])
  {
  }

  lemma {:induction false} AckOfIs(f: Frame, decide: string -> bool, ackId: string)
    ensures if IsRequest(f)
            then f.Object? && f.kind.PermissionRequest? && f.kind.requestId.Some?
              && var requestId := f.kind.requestId.value;
                 AckOf(f, decide, ackId) == [PermissionAnswer(requestId, decide(requestId), ackId)]
            else AckOf(f, decide, ackId) == []
  {
  }

  lemma {:induction false} OneMoreRequest(frames: seq<Frame>, before: seq<nat>)
    requires frames != [] && RequestsAt(frames[..|frames| - 1], before)
    ensures RequestsAt(frames, if IsRequest(frames[|frames| - 1]) then before + [|frames| - 1] else before)
    ensures forall k | 0 <= k < |before| ::
              before[k] < |frames| - 1 && frames[before[k]] == frames[..|frames| - 1][before[k]]
  {
    hide IsRequest;
    var n := |frames| - 1;
    var at := if IsRequest(frames[n]) then before + [n] else before;
    forall p: nat | p < |frames| && IsRequest(frames[p]) ensures p in at {
      if p < n {
        assert frames[..n][p] == frames[p];
        assert p in before;
      }
    }
    forall k | 0 <= k < |at| ensures at[k] < |frames| && IsRequest(frames[at[k]]) {
      if k < |before| {
        assert at[k] == before[k] && frames[..n][before[k]] == frames[before[k]];
      }
    }
  }

  lemma {:induction false} AcksExtend(frames: seq<Frame>, k: nat, decide: string -> bool, ackIds: nat -> string)
    requires k < |frames|
    ensures var before := Acks(frames[..k], decide, ackIds);
            Acks(frames[..k + 1], decide, ackIds) == before + AckOf(frames[k], decide, ackIds(|before|))
  {
    assert frames[..k + 1][..k] == frames[..k];
  }

  lemma {:induction false} TurnFrom(id: string, frames: seq<Frame>, k: nat, asked: bool, tokens: string)
    requires k < |frames|
    ensures var t := RunTurn(id, frames[k..], asked, tokens);
            if Breaks(frames[k], asked) then t == Turn(Crashed, 1)
            else if Answers(id, frames[k]) then t == Turn(Answer(frames[k], tokens), 1)
            else
              var rest := RunTurn(id, frames[k + 1..], asked, tokens + TokensOf(frames[k]));
              t == Turn(rest.outcome, rest.used + 1)
  {
    assert frames[k..][1..] == frames[k + 1..];
  }

  // ---------------------------------------------------------------- the program

  class BusClient {
    var inbox: seq<Frame>    // frames the server will still deliver before it closes
    var outbox: seq<Sent>

    constructor (inbox: seq<Frame>)
      ensures this.inbox == inbox && outbox == []
    {
      this.inbox := inbox;
      outbox := [];
    }

    /** Sends the request and reads frames until its answer, a bad frame, or the end. Permission
        requests met on the way are answered when there is a callback to ask. */
    method SendIntent(id: string, decide: Option<string -> bool>, ackIds: nat -> string) returns (outcome: Outcome)
      modifies this
      ensures var t := RunTurn(id, old(inbox), decide.Some?, "");
              && outcome == t.outcome && inbox == old(inbox)[t.used..]
              && outbox == old(outbox) + [Intent(id)]
                           + (if decide.Some? then Acks(old(inbox)[..t.used], decide.value, ackIds) else [])
      ensures |inbox| <= |old(inbox)| && inbox == old(inbox)[|old(inbox)| - |inbox|..]
      ensures |outbox| > |old(outbox)| && outbox[..|old(outbox)| + 1] == old(outbox) + [Intent(id)]
      ensures RequestsAnswered(old(inbox)[..|old(inbox)| - |inbox|], decide, ackIds, outbox[|old(outbox)| + 1..])
    {
      hide RunTurn, Acks, RequestsAnswered;
      AnswersReachRequests(id, inbox, outbox, decide, ackIds);
      outbox := outbox + [Intent(id)];
      ghost var start, sent := inbox, outbox;
      ghost var k, acks := 0, [];
      ghost var turn := RunTurn(id, start, decide.Some?, "");
      var tokens := "";
      var asked := 0;
      assert start[0..] == start && sent + [] == sent;
      NoFramesNoAcks(decide, ackIds);
      while inbox != []
        invariant k <= |start| && inbox == start[k..]
        invariant var rest := RunTurn(id, start[k..], decide.Some?, tokens);
                  turn.outcome == rest.outcome && turn.used == k + rest.used
        invariant acks == if decide.Some? then Acks(start[..k], decide.value, ackIds) else []
        invariant outbox == sent + acks && asked == |acks|
        decreases |inbox|
      {
        TurnFrom(id, start, k, decide.Some?, tokens);
        if decide.Some? { AcksExtend(start, k, decide.value, ackIds); }
        var f := inbox[0];
        inbox := inbox[1..];
        assert f == start[k] && tokens + "" == tokens;
        k := k + 1;
        assert inbox == start[k..];
        match f {
          case Blank =>
          case Garbled =>
          case NotAnObject => return Crashed;
          case Object(frameId, kind, result, error) =>
            match kind {
              case Token(t) =>
                if t.None? { return Crashed; }
                tokens := tokens + t.value;
              case Status(s) =>
                if s.None? { return Crashed; }
              case PermissionRequest(r) =>
                if decide.Some? {
                  if r.None? { return Crashed; }
                  var answer := PermissionAnswer(r.value, decide.value(r.value), ackIds(asked));
                  outbox := outbox + [answer];
                  acks := acks + [answer];
                  asked := asked + 1;
                }
              case Complete =>
              case OtherMethod =>
                if frameId == Some(id) && result.Some? {
                  return if result.value.WithContent? then Returned(result.value.content) else Returned(tokens);
                } else if frameId == Some(id) && error.Some? {
                  return if error.value.WithMessage? then BusError(error.value.message) else Crashed;
                }
            }
        }
      }
      NoFramesNoTurn(id, start[k..], decide.Some?, tokens);
      return Returned(tokens);
    }
  }

  lemma {:induction false} AnswersReachRequests(id: string, inbox: seq<Frame>, outbox: seq<Sent>,
                                                decide: Option<string -> bool>, ackIds: nat -> string)
    ensures var read := inbox[..RunTurn(id, inbox, decide.Some?, "").used];
            var sent := if decide.Some? then Acks(read, decide.value, ackIds) else [];
            RequestsAnswered(read, decide, ackIds, sent)
            && (outbox + [Intent(id)] + sent)[..|outbox| + 1] == outbox + [Intent(id)]
            && (outbox + [Intent(id)] + sent)[|outbox| + 1..] == sent
  {
    hide RunTurn, Acks, RequestsAt;
    if decide.Some? {
      var at := AcksAnswerRequests(inbox[..RunTurn(id, inbox, decide.Some?, "").used], decide.value, ackIds);
    }
  }

  lemma {:induction false} NoFramesNoAcks(decide: Option<string -> bool>, ackIds: nat -> string)
    ensures decide.Some? ==> Acks([], decide.value, ackIds) == []
  {
  }

  lemma {:induction false} NoFramesNoTurn(id: string, frames: seq<Frame>, asked: bool, tokens: string)
    requires frames == []
    ensures RunTurn(id, frames, asked, tokens) == Turn(Returned(tokens), 0)
  {
  }

  // ---------------------------------------------------------------- correlation

  // The frames before `p` neither break the client nor answer `id`.
  ghost predicate Passes(id: string, frames: seq<Frame>, asked: bool, p: nat)
    requires p <= |frames|
  {
    forall k | 0 <= k < p :: !Breaks(frames[k], asked) && !Answers(id, frames[k])
  }

  /** A turn reads on to the first frame that answers its id and takes its outcome from it. */
  lemma {:induction false} TurnReadsToItsAnswer(id: string, frames: seq<Frame>, asked: bool, tokens: string, p: nat)
    requires p < |frames| && Passes(id, frames, asked, p) && !Breaks(frames[p], asked) && Answers(id, frames[p])
    ensures RunTurn(id, frames, asked, tokens) == Turn(Answer(frames[p], tokens + Joined(frames[..p])), p + 1)
    decreases p
  {
    if p == 0 {
      assert tokens + Joined(frames[..0]) == tokens;
    } else {
      assert !Breaks(frames[0], asked) && !Answers(id, frames[0]);
      var rest := frames[1..];
      forall k | 0 <= k < p - 1 ensures !Breaks(rest[k], asked) && !Answers(id, rest[k]) {
        assert rest[k] == frames[k + 1];
      }
      TurnReadsToItsAnswer(id, rest, asked, tokens + TokensOf(frames[0]), p - 1);
      JoinedCons(frames[0], rest[..p - 1]);
      assert frames[..p] == [frames[0]] + rest[..p - 1];
      assert tokens + TokensOf(frames[0]) + Joined(rest[..p - 1]) == tokens + Joined(frames[..p]);
    }
  }

  lemma {:induction false} JoinedCons(f: Frame, frames: seq<Frame>)
    ensures Joined([f] + frames) == TokensOf(f) + Joined(frames)
  {
    hide TokensOf;
    if frames == [] {
      assert [f] + frames == [f] && [f][..0] == [];
    } else {
      var n := |frames| - 1;
      JoinedCons(f, frames[..n]);
      assert ([f] + frames)[..n + 1] == [f] + frames[..n];
    }
  }

  /** Conversely, a turn ends at the end of input, with the tokens read, or at the first frame
      that answers its own id or breaks the client. */
  lemma {:induction false} TurnEndsAtOwnAnswer(id: string, frames: seq<Frame>, asked: bool, tokens: string)
    ensures var t := RunTurn(id, frames, asked, tokens);
            || (t.used == |frames| && Passes(id, frames, asked, |frames|)
              && t.outcome == Returned(tokens + Joined(frames)))
            || (0 < t.used && Passes(id, frames, asked, t.used - 1)
                && (Breaks(frames[t.used - 1], asked) || Answers(id, frames[t.used - 1])))
  {
    hide Breaks, Answers, TokensOf, Answer;
    if frames == [] {
      assert tokens + Joined([]) == tokens;
    } else if !Breaks(frames[0], asked) && !Answers(id, frames[0]) {
      var f, rest := frames[0], frames[1..];
      TurnEndsAtOwnAnswer(id, rest, asked, tokens + TokensOf(f));
      PassesCons(id, f, rest, asked);
      JoinedCons(f, rest);
      assert frames == [f] + rest;
      assert tokens + TokensOf(f) + Joined(rest) == tokens + Joined(frames);
    }
  }

  lemma {:induction false} PassesCons(id: string, f: Frame, frames: seq<Frame>, asked: bool)
    requires !Breaks(f, asked) && !Answers(id, f)
    ensures forall p: nat :: p <= |frames| && Passes(id, frames, asked, p) ==> Passes(id, [f] + frames, asked, p + 1)
  {
    hide Breaks, Answers;
    forall p: nat | p <= |frames| && Passes(id, frames, asked, p) ensures Passes(id, [f] + frames, asked, p + 1) {
      forall k | 0 <= k < p + 1 ensures !Breaks(([f] + frames)[k], asked) && !Answers(id, ([f] + frames)[k]) {
        assert k > 0 ==> ([f] + frames)[k] == frames[k - 1];
      }
    }
  }

  // ---------------------------------------------------------------- sessions

  /** The outcomes of consecutive turns that share one connection. */
  function Session(ids: seq<string>, frames: seq<Frame>, asked: bool): (r: seq<Outcome>)
    ensures |r| == |ids|
  {
    if ids == [] then []
    else
      var t := RunTurn(ids[0], frames, asked, "");
      [t.outcome] + Session(ids[1..], frames[t.used..], asked)
  }

  // Turn `i` has its one answer, with content, at place `at[i]`, and the answers come in turn
  // order. All other frames are arbitrary: stale results and errors, acknowledgements,
  // notifications, blank and garbled lines.
  ghost predicate AnsweredInOrder(ids: seq<string>, frames: seq<Frame>, at: seq<nat>) {
    && |at| == |ids|
    && (forall i, j | 0 <= i < j < |at| :: at[i] < at[j])
    && (forall i | 0 <= i < |at| :: at[i] < |frames|)
    && (forall i, p | 0 <= i < |ids| && 0 <= p < |frames| :: Answers(ids[i], frames[p]) <==> p == at[i])
    && (forall i | 0 <= i < |at| ::
        frames[at[i]].Object? && frames[at[i]].result.Some? && frames[at[i]].result.value.WithContent?)
  }

  function ContentOf(f: Frame): string
    requires f.Object? && f.result.Some? && f.result.value.WithContent?
  {
    f.result.value.content
  }

  /** Whatever is interleaved, turn `i` returns the content of the result that bears its own
      id. */
  lemma {:induction false} SessionCorrelates(ids: seq<string>, frames: seq<Frame>, asked: bool, at: seq<nat>)
    requires AnsweredInOrder(ids, frames, at)
    requires forall p | 0 <= p < |frames| :: !Breaks(frames[p], asked)
    ensures forall i | 0 <= i < |ids| :: Session(ids, frames, asked)[i] == Returned(ContentOf(frames[at[i]]))
    decreases |ids|
  {
    hide Breaks, RunTurn, AnsweredInOrder;
    if ids != [] {
      var later := LaterAnswers(ids, frames, at);
      var rest := frames[at[0] + 1..];
      FirstTurn(ids, frames, asked, at);
      SessionCorrelates(ids[1..], rest, asked, later);
      forall i | 0 <= i < |ids| ensures Session(ids, frames, asked)[i] == Returned(ContentOf(frames[at[i]])) {
        if i > 0 {
          assert rest[later[i - 1]] == frames[at[i]];
        }
      }
    }
  }

  // What is left after the first answer holds the others, in order.
  lemma {:induction false} LaterAnswers(ids: seq<string>, frames: seq<Frame>, at: seq<nat>) returns (later: seq<nat>)
    requires ids != [] && AnsweredInOrder(ids, frames, at)
    ensures |at| == |ids| == |later| + 1 && at[0] < |frames| && AnsweredInOrder(ids[1..], frames[at[0] + 1..], later)
    ensures forall i | 0 < i < |ids| ::
              at[i] < |frames| && later[i - 1] < |frames[at[0] + 1..]|
              && frames[at[0] + 1..][later[i - 1]] == frames[at[i]]
    ensures forall i | 0 <= i < |ids| :: at[i] < |frames| && frames[at[i]].Object? && frames[at[i]].result.Some?
                                         && frames[at[i]].result.value.WithContent?
  {
    hide Answers;
    var rest := frames[at[0] + 1..];
    later := seq(|at| - 1, i requires 0 <= i < |at| - 1 => Shift(at[i + 1], at[0] + 1));
    forall i | 0 < i < |ids| ensures later[i - 1] == at[i] - at[0] - 1 && rest[later[i - 1]] == frames[at[i]] {
    }
    forall i, p | 0 <= i < |ids| - 1 && 0 <= p < |rest| ensures Answers(ids[1..][i], rest[p]) <==> p == later[i] {
      assert rest[p] == frames[at[0] + 1 + p] && ids[1..][i] == ids[i + 1];
    }
  }

  lemma {:induction false} FirstTurn(ids: seq<string>, frames: seq<Frame>, asked: bool, at: seq<nat>)
    requires ids != [] && AnsweredInOrder(ids, frames, at)
    requires forall p | 0 <= p < |frames| :: !Breaks(frames[p], asked)
    ensures RunTurn(ids[0], frames, asked, "") == Turn(Returned(ContentOf(frames[at[0]])), at[0] + 1)
  {
    hide Breaks, RunTurn;
    assert Answers(ids[0], frames[at[0]]);
    TurnReadsToItsAnswer(ids[0], frames, asked, "", at[0]);
  }

  function Shift(p: nat, d: nat): nat {
    if d <= p then p - d else 0
  }

  /** An answer surfaces as an error exactly when it has no result key and a well-formed error. */
  lemma {:induction false} ErrorSurfacesIff(id: string, f: Frame, rest: seq<Frame>, asked: bool, tokens: string)
    requires Answers(id, f)
    ensures RunTurn(id, [f] + rest, asked, tokens).outcome.BusError?
       <==> f.result.None? && f.error.value.WithMessage?
    ensures forall m :: RunTurn(id, [f] + rest, asked, tokens).outcome == BusError(m)
                   <==> f.result == None && f.error == Some(WithMessage(m))
  {
  }

  /** A result under the turn's id ends the turn, with its content or with the tokens read so far;
      a token is added to these; blank and garbled lines, other notifications and whatever bears
      another id or carries neither result nor error are passed over. */
  lemma {:induction false} FramesInTurn(id: string, f: Frame, rest: seq<Frame>, asked: bool, tokens: string)
    ensures f.Object? && f.id == Some(id) && f.kind == OtherMethod && f.result.Some? ==>
              RunTurn(id, [f] + rest, asked, tokens)
              == Turn(Returned(match f.result.value case WithContent(text) => text case Plain => tokens), 1)
    ensures f.Object? && f.kind.Token? && f.kind.token.Some? ==>
              RunTurn(id, [f] + rest, asked, tokens)
              == var later := RunTurn(id, rest, asked, tokens + f.kind.token.value); Turn(later.outcome, later.used + 1)
    ensures || f == Blank || f == Garbled
            || (f.Object? && (f.kind == Complete || (f.kind.Status? && f.kind != Status(None))))
            || (f.Object? && f.kind.PermissionRequest? && (asked ==> f.kind != PermissionRequest(None)))
            || (f.Object? && f.kind == OtherMethod && (f.id != Some(id) || (f.result == None && f.error == None))) ==>
              RunTurn(id, [f] + rest, asked, tokens)
              == var later := RunTurn(id, rest, asked, tokens); Turn(later.outcome, later.used + 1)
  {
    assert ([f] + rest)[1..] == rest;
    assert tokens + "" == tokens;
  }

  /** A frame crashes the client exactly when it is no object, a token or status without its text,
      a permission request without an id while there is someone to ask, or an answer to the turn
      with a malformed error and no result. */
  lemma {:induction false} CrashesIff(id: string, f: Frame, rest: seq<Frame>, asked: bool, tokens: string)
    ensures RunTurn(id, [f] + rest, asked, tokens) == Turn(Crashed, 1)
       <==> || f == NotAnObject
            || (f.Object? && (f.kind == Token(None) || f.kind == Status(None)))
            || (f.Object? && asked && f.kind == PermissionRequest(None))
            || (f.Object? && f.id == Some(id) && f.kind == OtherMethod
                && f.result == None && f.error == Some(Malformed))
  {
    assert ([f] + rest)[1..] == rest;
  }

  /** Streamed tokens are returned in the order in which they came. */
  lemma {:induction false} TokensInOrder(id: string, texts: seq<string>, asked: bool, rest: seq<Frame>)
    ensures var own := Object(Some(id), OtherMethod, Some(Plain), None);
            RunTurn(id, TokenFrames(texts) + ([own] + rest), asked, "") == Turn(Returned(Texts(texts)), |texts| + 1)
  {
    TokensFrom(id, texts, asked, rest, "");
    assert "" + Texts(texts) == Texts(texts);
  }

  function TokenFrames(texts: seq<string>): seq<Frame> {
    seq(|texts|, i requires 0 <= i < |texts| => Object(None, Token(Some(texts[i])), None, None))
  }

  function Texts(texts: seq<string>): string {
    if texts == [] then "" else texts[0] + Texts(texts[1..])
  }

  lemma {:induction false} TokensFrom(id: string, texts: seq<string>, asked: bool, rest: seq<Frame>, tokens: string)
    ensures var own := Object(Some(id), OtherMethod, Some(Plain), None);
            RunTurn(id, TokenFrames(texts) + ([own] + rest), asked, tokens)
            == Turn(Returned(tokens + Texts(texts)), |texts| + 1)
  {
    var own := Object(Some(id), OtherMethod, Some(Plain), None);
    var all := TokenFrames(texts) + ([own] + rest);
    if texts == [] {
      assert tokens + "" == tokens;
    } else {
      TokensFrom(id, texts[1..], asked, rest, tokens + texts[0]);
      assert all[1..] == TokenFrames(texts[1..]) + ([own] + rest);
      assert (tokens + texts[0]) + Texts(texts[1..]) == tokens + Texts(texts);
    }
  }

  /** Without content in the result, a turn falls back on the tokens it has read, whichever turn
      they belong to. */
  lemma {:induction false} StaleTokensLeak(id: string, late: string)
    ensures var stale := Object(None, Token(Some(late)), None, None);
            var own := Object(Some(id), OtherMethod, Some(Plain), None);
            RunTurn(id, [stale, own], false, "").outcome == Returned(late)
  {
    var stale := Object(None, Token(Some(late)), None, None);
    var own := Object(Some(id), OtherMethod, Some(Plain), None);
    assert "" + late == late;
    assert [stale, own][1..] == [own];
  }
}
