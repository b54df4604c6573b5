/** The streaming detector that splits model output into reply text and reasoning text. */
module ReasoningDetector {
  import opened Option
  import opened Sequences
  import opened Utf8
  import opened Markers
  import opened Segments

  // What one call does, in order: text handed to the renderer, and markers swallowed.
  datatype Event = Emit(segment: Segment) | Swallow(closing: bool, marker: seq<Byte>)

  // The leftmost marker at or after some place.
  datatype Search = Miss | Hit(off: nat, len: nat)

  // A walk over a text: what it did, the state it left, and where the held-back tail starts.
  datatype Walk = Walk(events: seq<Event>, inBlock: bool, held: nat)

  function KindOf(inBlock: bool): TokenPart {
    if inBlock then Reasoning else Final
  }

  /** The reference: read the whole text one byte at a time; a marker of the current table
      flips the state and vanishes, any other byte belongs to the current kind. */
  function Scan(t: Tables, s: seq<Byte>, i: nat, inBlock: bool): seq<TaggedByte>
    decreases |s| - i
  {
    var len := MarkerLen(t.Candidates(inBlock), s, i);
    if len > 0 then Scan(t, s, i + len, !inBlock)
    else if i >= |s| then []
    else [(KindOf(inBlock), s[i])] + Scan(t, s, i + 1, inBlock)
  }

  /** The state in which the reference ends. */
  function ScanEnd(t: Tables, s: seq<Byte>, i: nat, inBlock: bool): bool
    decreases |s| - i
  {
    var len := MarkerLen(t.Candidates(inBlock), s, i);
    if len > 0 then ScanEnd(t, s, i + len, !inBlock)
    else if i >= |s| then inBlock
    else ScanEnd(t, s, i + 1, inBlock)
  }

  // ---------------------------------------------------------------- one call

  ghost predicate NoMarkerIn(c: seq<seq<Byte>>, s: seq<Byte>, from: nat, to: nat) {
    forall i: nat | from <= i < to :: MarkerLen(c, s, i) == 0
  }

  function FirstMarker(c: seq<seq<Byte>>, s: seq<Byte>, from: nat): (r: Search)
    ensures r.Hit? ==>
              && from <= r.off && 0 < r.len && r.off + r.len <= |s|
              && MarkerLen(c, s, r.off) == r.len && NoMarkerIn(c, s, from, r.off)
    ensures r.Miss? ==> NoMarkerIn(c, s, from, |s| + 1)
    decreases |s| - from
  {
    var len := MarkerLen(c, s, from);
    if len > 0 then Hit(from, len)
    else if from >= |s| then Miss
    else FirstMarker(c, s, from + 1)
  }

  function BoundaryAtOrBelow(s: seq<Byte>, i: nat): (j: nat)
    requires i <= |s|
    ensures j <= i && Boundary(s, j)
    ensures forall k: nat | j < k <= i :: !Boundary(s, k)
  {
    if Boundary(s, i) then i else BoundaryAtOrBelow(s, i - 1)
  }

  /** Where the text to hold back starts when no marker is left from `from` on: 15 bytes
      before the end, cut back to a character boundary. */
  function HoldFrom(s: seq<Byte>, from: nat): (n: nat)
    requires from <= |s|
    ensures from <= n <= |s|
    ensures n > from ==> n + MAX_MARKER_LEN - 1 <= |s|
  {
    if |s| <= MAX_MARKER_LEN - 1 then from
    else Max(from, BoundaryAtOrBelow(s, |s| - (MAX_MARKER_LEN - 1)))
  }

  function OneUnlessEmpty(inBlock: bool, s: seq<Byte>): seq<Segment> {
    if s == [] then [] else [Segment(KindOf(inBlock), s)]
  }

  function EmitUnlessEmpty(inBlock: bool, s: seq<Byte>): seq<Event> {
    if s == [] then [] else [Emit(Segment(KindOf(inBlock), s))]
  }

  function AfterMarker(inBlock: bool, text: seq<Byte>, marker: seq<Byte>, rest: Walk): Walk {
    rest.(events := EmitUnlessEmpty(inBlock, text) + ([Swallow(inBlock, marker)] + rest.events))
  }

  /** The effect of one call on the held-back text followed by the new chunk. */
  function Process(t: Tables, s: seq<Byte>, from: nat, inBlock: bool): (w: Walk)
    requires from <= |s|
    ensures w.held <= |s|
    decreases |s| - from
  {
    match FirstMarker(t.Candidates(inBlock), s, from)
    case Hit(off, len) =>
      AfterMarker(inBlock, s[from..off], s[off..off + len], Process(t, s, off + len, !inBlock))
    case Miss =>
      Walk(EmitUnlessEmpty(inBlock, s[from..HoldFrom(s, from)]), inBlock, HoldFrom(s, from))
  }

  function SegmentOf(e: Event): seq<Segment> {
    match e case Emit(s) => [s] case Swallow(_, _) => []
  }

  function Emitted(events: seq<Event>): seq<Segment> {
    FlatMap(SegmentOf, events)
  }

  lemma {:induction false} NothingEmitted()
    ensures Emitted([]) == []
  {
  }

  lemma {:induction false} EmittedUnlessEmpty(inBlock: bool, s: seq<Byte>)
    ensures Emitted(EmitUnlessEmpty(inBlock, s)) == OneUnlessEmpty(inBlock, s)
  {
    if s != [] {
      FlatMapOne(SegmentOf, Emit(Segment(KindOf(inBlock), s)));
    }
  }

  lemma {:induction false} TaggedUnlessEmpty(inBlock: bool, s: seq<Byte>)
    ensures Tagged(OneUnlessEmpty(inBlock, s)) == Tag(KindOf(inBlock), s)
  {
    if s != [] {
      FlatMapOne(TagSegment, Segment(KindOf(inBlock), s));
    }
  }

  lemma {:induction false} EmittedAfterMarker(inBlock: bool, text: seq<Byte>, marker: seq<Byte>, rest: Walk)
    ensures Emitted(AfterMarker(inBlock, text, marker, rest).events)
      == OneUnlessEmpty(inBlock, text) + Emitted(rest.events)
    ensures Tagged(Emitted(AfterMarker(inBlock, text, marker, rest).events))
         == Tag(KindOf(inBlock), text) + Tagged(Emitted(rest.events))
    ensures var w := AfterMarker(inBlock, text, marker, rest); w.inBlock == rest.inBlock && w.held == rest.held
  {
    EmittedUnlessEmpty(inBlock, text);
    FlatMapConcat(SegmentOf, EmitUnlessEmpty(inBlock, text), [Swallow(inBlock, marker)] + rest.events);
    FlatMapCons(SegmentOf, Swallow(inBlock, marker), rest.events);
    FlatMapConcat(TagSegment, OneUnlessEmpty(inBlock, text), Emitted(rest.events));
    TaggedUnlessEmpty(inBlock, text);
  }

  // ---------------------------------------------------------------- one call refines Scan

  lemma {:induction false} ScanPlain(t: Tables, s: seq<Byte>, from: nat, to: nat, inBlock: bool)
    requires from <= to <= |s| && NoMarkerIn(t.Candidates(inBlock), s, from, to)
    ensures Scan(t, s, from, inBlock) == Tag(KindOf(inBlock), s[from..to]) + Scan(t, s, to, inBlock)
    ensures ScanEnd(t, s, from, inBlock) == ScanEnd(t, s, to, inBlock)
    decreases |s| - from
  {
    if from < to {
      ScanPlain(t, s, from + 1, to, inBlock);
      TagFirst(KindOf(inBlock), s, from, to);
      Assoc([(KindOf(inBlock), s[from])], Tag(KindOf(inBlock), s[from + 1..to]), Scan(t, s, to, inBlock));
    }
  }

  lemma {:induction false} TagFirst(kind: TokenPart, s: seq<Byte>, from: nat, to: nat)
    requires from < to <= |s|
    ensures Tag(kind, s[from..to]) == [(kind, s[from])] + Tag(kind, s[from + 1..to])
  {
  }

  lemma {:induction false} NoneInExtension(c: seq<seq<Byte>>, s: seq<Byte>, z: seq<Byte>, from: nat, n: nat)
    requires GoodCandidates(c) && from <= n <= |s| && NoMarkerIn(c, s, from, n)
    requires n > from ==> n + MAX_MARKER_LEN - 1 <= |s| || MarkerLen(c, s, n) > 0
    ensures NoMarkerIn(c, s + z, from, n)
  {
    forall i: nat | from <= i < n ensures MarkerLen(c, s + z, i) == 0 {
      NoneStaysNone(c, s, z, i, n);
    }
  }

  // The walk `w` over `s` from `from` agrees with the reference when `z` is still to come.
  ghost predicate Agrees(t: Tables, s: seq<Byte>, z: seq<Byte>, from: nat, inBlock: bool, w: Walk) {
    && Scan(t, s + z, from, inBlock) == Tagged(Emitted(w.events)) + Scan(t, s + z, w.held, w.inBlock)
    && ScanEnd(t, s + z, from, inBlock) == ScanEnd(t, s + z, w.held, w.inBlock)
  }

  lemma {:induction false} AgreesAfterMarker(t: Tables, s: seq<Byte>, z: seq<Byte>, from: nat, inBlock: bool, off: nat,
                                             len: nat, rest: Walk)
    requires t.Good() && from <= |s| && FirstMarker(t.Candidates(inBlock), s, from) == Hit(off, len)
    requires Agrees(t, s, z, off + len, !inBlock, rest)
    ensures Agrees(t, s, z, from, inBlock, AfterMarker(inBlock, s[from..off], s[off..off + len], rest))
  {
    hide MarkerLen;
    NoneInExtension(t.Candidates(inBlock), s, z, from, off);
    ScanPlain(t, s + z, from, off, inBlock);
    MarkerPersists(t.Candidates(inBlock), s, z, off);
    assert (s + z)[from..off] == s[from..off];
    EmittedAfterMarker(inBlock, s[from..off], s[off..off + len], rest);
    Assoc(Tag(KindOf(inBlock), s[from..off]), Tagged(Emitted(rest.events)), Scan(t, s + z, rest.held, rest.inBlock));
  }

  lemma {:induction false} AgreesWithoutMarker(t: Tables, s: seq<Byte>, z: seq<Byte>, from: nat, inBlock: bool)
    requires t.Good() && from <= |s| && FirstMarker(t.Candidates(inBlock), s, from).Miss?
    ensures Agrees(t, s, z, from, inBlock, Process(t, s, from, inBlock))
  {
    var n := HoldFrom(s, from);
    NoneInExtension(t.Candidates(inBlock), s, z, from, n);
    ScanPlain(t, s + z, from, n, inBlock);
    assert (s + z)[from..n] == s[from..n];
    EmittedUnlessEmpty(inBlock, s[from..n]);
    TaggedUnlessEmpty(inBlock, s[from..n]);
  }

  /** Whatever text still follows, what a call emits is what the reference emits there, and
      the reference may resume from the held-back tail. */
  lemma {:induction false} ProcessRefinesScan(t: Tables, s: seq<Byte>, z: seq<Byte>, from: nat, inBlock: bool)
    requires t.Good() && from <= |s|
    ensures Agrees(t, s, z, from, inBlock, Process(t, s, from, inBlock))
    decreases |s| - from
  {
    hide MarkerLen, FirstMarker, Scan, ScanEnd, Agrees, AfterMarker;
    match FirstMarker(t.Candidates(inBlock), s, from)
    case Hit(off, len) =>
      ProcessRefinesScan(t, s, z, off + len, !inBlock);
      AgreesAfterMarker(t, s, z, from, inBlock, off, len, Process(t, s, off + len, !inBlock));
    case Miss => AgreesWithoutMarker(t, s, z, from, inBlock);
  }

  /** After a call no whole marker is held back. */
  lemma {:induction false} ProcessLeavesNoMarker(t: Tables, s: seq<Byte>, from: nat, inBlock: bool)
    requires from <= |s|
    ensures var w := Process(t, s, from, inBlock); NoMarkerIn(t.Candidates(w.inBlock), s, w.held, |s| + 1)
    decreases |s| - from
  {
    hide MarkerLen;
    match FirstMarker(t.Candidates(inBlock), s, from)
    case Hit(off, len) => ProcessLeavesNoMarker(t, s, off + len, !inBlock);
    case Miss =>
  }

  // ---------------------------------------------------------------- nothing lost, little held

  function TextOf(e: Event): seq<Byte> {
    match e case Emit(s) => s.text case Swallow(_, m) => m
  }

  /** The text an event list stands for, markers included. */
  function Bytes(events: seq<Event>): seq<Byte> {
    FlatMap(TextOf, events)
  }

  /** Emitted text is tagged with the state in force and never empty; each swallowed marker
      is in the table of that state and flips it. */
  predicate Coherent(t: Tables, events: seq<Event>, before: bool, after: bool) {
    if events == [] then before == after
    else match events[0]
      case Emit(s) => s.text != [] && s.kind == KindOf(before) && Coherent(t, events[1..], before, after)
      case Swallow(closing, m) =>
        closing == before && m in t.Candidates(before) && Coherent(t, events[1..], !before, after)
  }

  lemma {:induction false} CoherentConcat(t: Tables, a: seq<Event>, b: seq<Event>, x: bool, y: bool, z: bool)
    requires Coherent(t, a, x, y) && Coherent(t, b, y, z)
    ensures Coherent(t, a + b, x, z)
  {
    if a == [] {
      assert a + b == b;
    } else {
      assert (a + b)[1..] == a[1..] + b;
      CoherentConcat(t, a[1..], b, if a[0].Emit? then x else !x, y, z);
    }
  }

  // The events stand for `text` and take the state from `before` to `after`.
  ghost predicate Accounts(t: Tables, text: seq<Byte>, events: seq<Event>, before: bool, after: bool) {
    Bytes(events) == text && Coherent(t, events, before, after)
  }

  lemma {:induction false} AccountsConcat(t: Tables, p: seq<Byte>, a: seq<Event>, x: bool, y: bool, q: seq<Byte>,
                                          b: seq<Event>, z: bool)
    requires Accounts(t, p, a, x, y) && Accounts(t, q, b, y, z)
    ensures Accounts(t, p + q, a + b, x, z)
  {
    FlatMapConcat(TextOf, a, b);
    CoherentConcat(t, a, b, x, y, z);
  }

  lemma {:induction false} EmitAccounts(t: Tables, inBlock: bool, s: seq<Byte>)
    ensures Accounts(t, s, EmitUnlessEmpty(inBlock, s), inBlock, inBlock)
  {
    if s != [] {
      FlatMapOne(TextOf, Emit(Segment(KindOf(inBlock), s)));
      assert EmitUnlessEmpty(inBlock, s)[1..] == [];
    }
  }

  lemma {:induction false} SwallowAccounts(t: Tables, inBlock: bool, marker: seq<Byte>)
    requires marker in t.Candidates(inBlock)
    ensures Accounts(t, marker, [Swallow(inBlock, marker)], inBlock, !inBlock)
  {
    FlatMapOne(TextOf, Swallow(inBlock, marker));
    assert [Swallow(inBlock, marker)][1..] == [];
  }

  lemma {:induction false} AccountsAfterMarker(t: Tables, s: seq<Byte>, from: nat, inBlock: bool, off: nat, len: nat,
                                               rest: Walk)
    requires from <= off && off + len <= rest.held <= |s| && 0 < len == MarkerLen(t.Candidates(inBlock), s, off)
    requires Accounts(t, s[off + len..rest.held], rest.events, !inBlock, rest.inBlock)
    ensures Accounts(t, s[from..rest.held], AfterMarker(inBlock, s[from..off], s[off..off + len], rest).events,
                     inBlock, rest.inBlock)
  {
    var text, marker, tail := s[from..off], s[off..off + len], s[off + len..rest.held];
    assert marker in t.Candidates(inBlock) by {
      var k := MarkerThere(t.Candidates(inBlock), s, off);
    }
    hide MarkerLen, Accounts;
    EmitAccounts(t, inBlock, text);
    SwallowAccounts(t, inBlock, marker);
    AccountsConcat(t, marker, [Swallow(inBlock, marker)], inBlock, !inBlock, tail, rest.events, rest.inBlock);
    AccountsConcat(t, text, EmitUnlessEmpty(inBlock, text), inBlock, inBlock,
                   marker + tail, [Swallow(inBlock, marker)] + rest.events, rest.inBlock);
    assert s[from..rest.held] == text + (marker + tail);
  }

  /** Conservation: the emitted text with the swallowed markers put back is the text walked
      over, so with the held-back tail it rebuilds the input. */
  lemma {:induction false} ProcessConserves(t: Tables, s: seq<Byte>, from: nat, inBlock: bool)
    requires from <= |s|
    ensures var w := Process(t, s, from, inBlock);
            from <= w.held && Accounts(t, s[from..w.held], w.events, inBlock, w.inBlock)
    decreases |s| - from
  {
    hide MarkerLen, Accounts;
    match FirstMarker(t.Candidates(inBlock), s, from)
    case Hit(off, len) =>
      ProcessConserves(t, s, off + len, !inBlock);
      AccountsAfterMarker(t, s, from, inBlock, off, len, Process(t, s, off + len, !inBlock));
    case Miss =>
      EmitAccounts(t, inBlock, s[from..HoldFrom(s, from)]);
  }

  /** The offset and the end of a marker found in a string are character boundaries, so
      slicing there cannot panic. */
  lemma {:induction false} MarkerOnBoundaries(c: seq<seq<Byte>>, s: seq<Byte>, off: nat)
    requires GoodCandidates(c) && Valid(s) && MarkerLen(c, s, off) > 0
    ensures Boundary(s, off) && Boundary(s, off + MarkerLen(c, s, off))
  {
    var k := MarkerThere(c, s, off);
    assert CharAtStart(c[k]);
    assert s[off] == s[off..off + |c[k]|][0] == c[k][0];
    ValidSplit(s, off);
    assert c[k] <= s[off..] by {
      assert s[off..][..|c[k]|] == s[off..off + |c[k]|];
    }
    PrefixEndsOnBoundary(c[k], s[off..]);
  }

  lemma {:induction false} HitOnBoundaries(c: seq<seq<Byte>>, s: seq<Byte>, from: nat, off: nat, len: nat)
    requires GoodCandidates(c) && Valid(s) && FirstMarker(c, s, from) == Hit(off, len)
    ensures from <= off < off + len <= |s| && Boundary(s, off) && Boundary(s, off + len)
  {
    hide MarkerLen, Valid, GoodCandidates, Boundary;
    MarkerOnBoundaries(c, s, off);
  }

  lemma {:induction false} HoldsLittle(s: seq<Byte>, from: nat)
    requires Valid(s) && from <= |s| && Boundary(s, from)
    ensures Boundary(s, HoldFrom(s, from)) && |s| - HoldFrom(s, from) <= MAX_MARKER_LEN - 1 + 3
  {
    if |s| >= MAX_MARKER_LEN {
      var n := BoundaryAtOrBelow(s, |s| - (MAX_MARKER_LEN - 1));
      if n + 4 <= |s| - (MAX_MARKER_LEN - 1) {
        FourBytesHoldALead(s, n + 1);
        var k :| n + 1 <= k < n + 5 && !IsCont(s[k]);
        assert Boundary(s, k);
      }
    }
  }

  /** The held-back tail starts on a character boundary and has at most 15 + 3 bytes. */
  lemma {:induction false} ProcessHoldsLittle(t: Tables, s: seq<Byte>, from: nat, inBlock: bool)
    requires t.Good() && Valid(s) && from <= |s| && Boundary(s, from)
    ensures var w := Process(t, s, from, inBlock); Boundary(s, w.held) && |s| - w.held <= 15 + 3
    decreases |s| - from
  {
    hide MarkerLen, FirstMarker, Valid, GoodCandidates, Boundary, HoldFrom;
    match FirstMarker(t.Candidates(inBlock), s, from)
    case Hit(off, len) =>
      HitOnBoundaries(t.Candidates(inBlock), s, from, off, len);
      ProcessHoldsLittle(t, s, off + len, !inBlock);
    case Miss => HoldsLittle(s, from);
  }

  // ---------------------------------------------------------------- whole replies

  // The events of one or more calls and the detector's fields afterwards.
  datatype Fed = Fed(events: seq<Event>, inBlock: bool, partial: seq<Byte>)

  function FeedOnce(t: Tables, chunk: seq<Byte>, inBlock: bool, partial: seq<Byte>): Fed {
    if chunk == [] then Fed([], inBlock, partial)
    else
      var w := Process(t, partial + chunk, 0, inBlock);
      Fed(w.events, w.inBlock, (partial + chunk)[w.held..])
  }

  function FeedAll(t: Tables, chunks: seq<seq<Byte>>, inBlock: bool, partial: seq<Byte>): Fed {
    if chunks == [] then Fed([], inBlock, partial)
    else
      var f := FeedOnce(t, chunks[0], inBlock, partial);
      var rest := FeedAll(t, chunks[1..], f.inBlock, f.partial);
      rest.(events := f.events + rest.events)
  }

  function Concat(chunks: seq<seq<Byte>>): seq<Byte> {
    FlatMap((c: seq<Byte>) => c, chunks)
  }

  /** Everything a reply shows: the segments of all `feed` calls and the final `flush`. */
  function Reply(t: Tables, chunks: seq<seq<Byte>>): seq<Segment> {
    var f := FeedAll(t, chunks, false, []);
    Emitted(f.events) + OneUnlessEmpty(f.inBlock, f.partial)
  }

  ghost predicate Clean(t: Tables, inBlock: bool, partial: seq<Byte>) {
    NoMarkerIn(t.Candidates(inBlock), partial, 0, |partial| + 1)
  }

  lemma {:induction false} ScanShift(t: Tables, s: seq<Byte>, n: nat, i: nat, inBlock: bool)
    requires n <= |s|
    ensures Scan(t, s[n..], i, inBlock) == Scan(t, s, n + i, inBlock)
    ensures ScanEnd(t, s[n..], i, inBlock) == ScanEnd(t, s, n + i, inBlock)
    decreases |s| - i
  {
    hide MarkerLen;
    MarkerLenShift(t.Candidates(inBlock), s, n, i);
    var len := MarkerLen(t.Candidates(inBlock), s, n + i);
    if len > 0 {
      ScanShift(t, s, n, i + len, !inBlock);
    } else if n + i < |s| {
      ScanShift(t, s, n, i + 1, inBlock);
    }
  }

  lemma {:induction false} MarkerLenShift(c: seq<seq<Byte>>, s: seq<Byte>, n: nat, i: nat)
    requires n <= |s|
    ensures MarkerLen(c, s[n..], i) == MarkerLen(c, s, n + i)
  {
    MarkerShift(c, s, n, i, 0);
  }

  lemma {:induction false} CleanShift(t: Tables, s: seq<Byte>, n: nat, inBlock: bool)
    requires n <= |s| && NoMarkerIn(t.Candidates(inBlock), s, n, |s| + 1)
    ensures Clean(t, inBlock, s[n..])
  {
    hide MarkerLen;
    forall i: nat | 0 <= i < |s[n..]| + 1 ensures MarkerLen(t.Candidates(inBlock), s[n..], i) == 0 {
      MarkerLenShift(t.Candidates(inBlock), s, n, i);
      assert MarkerLen(t.Candidates(inBlock), s, n + i) == 0;
    }
  }

  lemma {:induction false} FeedOnceRefinesScan(t: Tables, chunk: seq<Byte>, z: seq<Byte>, inBlock: bool,
                                               partial: seq<Byte>)
    requires t.Good() && Clean(t, inBlock, partial)
    ensures var f := FeedOnce(t, chunk, inBlock, partial);
            && Scan(t, partial + (chunk + z), 0, inBlock)
               == Tagged(Emitted(f.events)) + Scan(t, f.partial + z, 0, f.inBlock)
            && ScanEnd(t, partial + (chunk + z), 0, inBlock) == ScanEnd(t, f.partial + z, 0, f.inBlock)
            && Clean(t, f.inBlock, f.partial)
  {
    hide MarkerLen, Process, Clean, Scan, ScanEnd;
    Assoc(partial, chunk, z);
    if chunk == [] {
      assert partial + chunk == partial;
    } else {
      var s := partial + chunk;
      var w := Process(t, s, 0, inBlock);
      ProcessRefinesScan(t, s, z, 0, inBlock);
      ProcessLeavesNoMarker(t, s, 0, inBlock);
      CleanShift(t, s, w.held, w.inBlock);
      assert s[w.held..] + z == (s + z)[w.held..];
      ScanShift(t, s + z, w.held, 0, w.inBlock);
    }
  }

  lemma {:induction false} TaggedEmittedConcat(a: seq<Event>, b: seq<Event>)
    ensures Tagged(Emitted(a + b)) == Tagged(Emitted(a)) + Tagged(Emitted(b))
  {
    FlatMapConcat(SegmentOf, a, b);
    FlatMapConcat(TagSegment, Emitted(a), Emitted(b));
  }

  lemma {:induction false} FeedAllRefinesScan(t: Tables, chunks: seq<seq<Byte>>, inBlock: bool, partial: seq<Byte>)
    requires t.Good() && Clean(t, inBlock, partial)
    ensures var f := FeedAll(t, chunks, inBlock, partial);
            && Scan(t, partial + Concat(chunks), 0, inBlock)
               == Tagged(Emitted(f.events)) + Scan(t, f.partial, 0, f.inBlock)
            && ScanEnd(t, partial + Concat(chunks), 0, inBlock) == ScanEnd(t, f.partial, 0, f.inBlock)
            && Clean(t, f.inBlock, f.partial)
  {
    hide MarkerLen, FeedOnce, Clean, Scan, ScanEnd;
    if chunks == [] {
      assert partial + Concat(chunks) == partial;
    } else {
      var z := Concat(chunks[1..]);
      FeedOnceRefinesScan(t, chunks[0], z, inBlock, partial);
      var f := FeedOnce(t, chunks[0], inBlock, partial);
      FeedAllRefinesScan(t, chunks[1..], f.inBlock, f.partial);
      var rest := FeedAll(t, chunks[1..], f.inBlock, f.partial);
      TaggedEmittedConcat(f.events, rest.events);
      Assoc(Tagged(Emitted(f.events)), Tagged(Emitted(rest.events)), Scan(t, rest.partial, 0, rest.inBlock));
    }
  }

  lemma {:induction false} FlushShowsTheRest(t: Tables, inBlock: bool, partial: seq<Byte>)
    requires Clean(t, inBlock, partial)
    ensures Tagged(OneUnlessEmpty(inBlock, partial)) == Scan(t, partial, 0, inBlock)
    ensures ScanEnd(t, partial, 0, inBlock) == inBlock
  {
    var n := |partial|;
    hide MarkerLen;
    ScanPlain(t, partial, 0, n, inBlock);
    assert partial[0..n] == partial;
    assert MarkerLen(t.Candidates(inBlock), partial, n) == 0;
    TaggedUnlessEmpty(inBlock, partial);
  }

  lemma {:induction false} EmptyIsClean(t: Tables, inBlock: bool)
    requires t.Good()
    ensures Clean(t, inBlock, [])
  {
  }

  /** Main theorem: however a text is cut into chunks, the reply shows exactly what the
      whole-text reference scanner assigns to each kind. */
  lemma {:induction false} ReplyIsReferenceScan(t: Tables, chunks: seq<seq<Byte>>)
    requires t.Good()
    ensures Coalesce(Reply(t, chunks)) == Runs(Scan(t, Concat(chunks), 0, false))
  {
    EmptyIsClean(t, false);
    hide MarkerLen, FeedAll, Clean, Scan, ScanEnd;
    FeedAllRefinesScan(t, chunks, false, []);
    assert [] + Concat(chunks) == Concat(chunks);
    var f := FeedAll(t, chunks, false, []);
    FlushShowsTheRest(t, f.inBlock, f.partial);
    FlatMapConcat(TagSegment, Emitted(f.events), OneUnlessEmpty(f.inBlock, f.partial));
    CoalesceIsRuns(Reply(t, chunks));
  }

  /** The state that survives a reply and its `flush` is the one in which the reference ends on
      the whole text, so a detector is fresh again exactly when that closes every block. */
  lemma {:induction false} FreshAfterFlush(t: Tables, chunks: seq<seq<Byte>>, inBlock: bool)
    requires t.Good()
    ensures FeedAll(t, chunks, inBlock, []).inBlock == ScanEnd(t, Concat(chunks), 0, inBlock)
  {
    EmptyIsClean(t, inBlock);
    hide MarkerLen, FeedAll, Clean, Scan, ScanEnd;
    FeedAllRefinesScan(t, chunks, inBlock, []);
    assert [] + Concat(chunks) == Concat(chunks);
    var f := FeedAll(t, chunks, inBlock, []);
    FlushShowsTheRest(t, f.inBlock, f.partial);
  }

  /** Neither the output nor the state left behind depends on the chunking. */
  lemma {:induction false} ChunkingIsInvisible(t: Tables, a: seq<seq<Byte>>, b: seq<seq<Byte>>)
    requires t.Good() && Concat(a) == Concat(b)
    ensures Coalesce(Reply(t, a)) == Coalesce(Reply(t, b))
    ensures FeedAll(t, a, false, []).inBlock == FeedAll(t, b, false, []).inBlock
  {
    ReplyIsReferenceScan(t, a);
    ReplyIsReferenceScan(t, b);
    FreshAfterFlush(t, a, false);
    FreshAfterFlush(t, b, false);
  }

  // The events account for `text` up to the held-back tail.
  ghost predicate Conserves(t: Tables, text: seq<Byte>, inBlock: bool, f: Fed) {
    Bytes(f.events) + f.partial == text && Coherent(t, f.events, inBlock, f.inBlock)
  }

  lemma {:induction false} FeedOnceConserves(t: Tables, chunk: seq<Byte>, inBlock: bool, partial: seq<Byte>)
    ensures Conserves(t, partial + chunk, inBlock, FeedOnce(t, chunk, inBlock, partial))
  {
    hide Process;
    if chunk == [] {
      assert partial + chunk == partial;
    } else {
      var s := partial + chunk;
      ProcessConserves(t, s, 0, inBlock);
      var w := Process(t, s, 0, inBlock);
      assert s == s[0..w.held] + s[w.held..];
    }
  }

  /** Conservation over a whole run of calls: segments, swallowed markers and tail rebuild
      the input so far, each segment carries the kind in force where it stood, and every
      marker swallowed was one of the table then in force. */
  lemma {:induction false} FeedAllConserves(t: Tables, chunks: seq<seq<Byte>>, inBlock: bool, partial: seq<Byte>)
    ensures Conserves(t, partial + Concat(chunks), inBlock, FeedAll(t, chunks, inBlock, partial))
  {
    hide FeedOnce;
    if chunks == [] {
      assert partial + Concat(chunks) == partial;
    } else {
      var f := FeedOnce(t, chunks[0], inBlock, partial);
      FeedOnceConserves(t, chunks[0], inBlock, partial);
      FeedAllConserves(t, chunks[1..], f.inBlock, f.partial);
      var rest := FeedAll(t, chunks[1..], f.inBlock, f.partial);
      FlatMapConcat(TextOf, f.events, rest.events);
      CoherentConcat(t, f.events, rest.events, inBlock, f.inBlock, rest.inBlock);
      Assoc(Bytes(f.events), Bytes(rest.events), rest.partial);
      Assoc(Bytes(f.events), f.partial, Concat(chunks[1..]));
      Assoc(partial, chunks[0], Concat(chunks[1..]));
    }
  }

  // ---------------------------------------------------------------- the program

  /** The offset of the first occurrence of `m` at or after `from`, as the standard string
      search finds it. */
  function Find(s: seq<Byte>, m: seq<Byte>, from: nat): (r: Option<nat>)
    ensures r.Some? ==> from <= r.value && OccursAt(s, m, r.value)
    ensures forall i: nat | from <= i && (r.Some? ==> i < r.value) :: !OccursAt(s, m, i)
    decreases |s| - from
  {
    if OccursAt(s, m, from) then Some(from)
    else if from >= |s| then None
    else Find(s, m, from + 1)
  }

  // The best hit at or after `from` among the first `n` candidates.
  ghost predicate BestOf(c: seq<seq<Byte>>, s: seq<Byte>, from: nat, n: nat, best: Search)
    requires n <= |c|
  {
    && (best.Hit? ==> from <= best.off && exists j | 0 <= j < n :: OccursAt(s, c[j], best.off) && |c[j]| == best.len)
    && forall j, i: nat | 0 <= j < n && from <= i && (best.Hit? ==> i < best.off) :: !OccursAt(s, c[j], i)
  }

  /** The leftmost candidate from `from` on, found by searching for each in turn. */
  method FindFirstMarker(t: Tables, s: seq<Byte>, from: nat, inBlock: bool) returns (best: Search)
    requires t.Good() && from <= |s|
    ensures best == FirstMarker(t.Candidates(inBlock), s, from)
  {
    var candidates := t.Candidates(inBlock);
    best := Miss;
    for k := 0 to |candidates|
      invariant BestOf(candidates, s, from, k, best)
    {
      match Find(s, candidates[k], from) {
        case Some(off) =>
          if best.Miss? || off < best.off {
            best := Hit(off, |candidates[k]|);
          }
        case None =>
      }
    }
    BestIsFirst(candidates, s, from, best);
  }

  lemma {:induction false} BestIsFirst(c: seq<seq<Byte>>, s: seq<Byte>, from: nat, best: Search)
    requires GoodCandidates(c) && from <= |s| && BestOf(c, s, from, |c|, best)
    ensures best == FirstMarker(c, s, from)
  {
    var first := FirstMarker(c, s, from);
    if first.Hit? {
      var k := MarkerThere(c, s, first.off);
    }
    if best.Hit? {
      var j :| 0 <= j < |c| && OccursAt(s, c[j], best.off) && |c[j]| == best.len;
      MarkerLenOf(c, s, best.off, j);
    }
  }

  /** Where to cut when no marker is left: short texts are held whole, otherwise step back
      from 15 bytes before the end to a character boundary. */
  method HoldBack(s: seq<Byte>, cursor: nat) returns (n: nat)
    requires cursor <= |s| && Boundary(s, cursor)
    ensures n == HoldFrom(s, cursor) && Boundary(s, n)
    ensures |s| <= 15 ==> n == cursor
    ensures n > cursor ==> n + 15 <= |s|
    ensures forall k: nat | n < k && k + 15 <= |s| :: !Boundary(s, k)
  {
    var tailHold := MAX_MARKER_LEN - 1;
    if |s| <= tailHold {
      return cursor;
    }
    var safeEnd: nat := |s| - tailHold;
    while !Boundary(s, safeEnd)
      invariant safeEnd <= |s| - tailHold
      invariant BoundaryAtOrBelow(s, safeEnd) == BoundaryAtOrBelow(s, |s| - tailHold)
      decreases safeEnd
    {
      safeEnd := safeEnd - 1;
    }
    n := if safeEnd > cursor then safeEnd else cursor;
  }

  /** A string slice; the program panics unless both ends are character boundaries. */
  function Slice(s: seq<Byte>, i: nat, j: nat): seq<Byte>
    requires i <= j <= |s| && Boundary(s, i) && Boundary(s, j)
  {
    s[i..j]
  }

  class ReasoningDetector {
    const tables: Tables
    var inBlock: bool
    var partial: seq<Byte>

    ghost predicate Valid()
      reads this
    {
      && tables.Good() && Clean(tables, inBlock, partial)
      && Utf8.Valid(partial) && |partial| <= MAX_MARKER_LEN - 1 + 3
    }

    constructor (tables: Tables)
      requires tables.Good()
      ensures Valid() && this.tables == tables && !inBlock && partial == []
    {
      this.tables := tables;
      inBlock := false;
      partial := [];
      new;
      EmptyIsClean(tables, false);
    }

    method Feed(chunk: seq<Byte>) returns (out: seq<Segment>)
      requires Valid() && Utf8.Valid(chunk)
      modifies this
      ensures Valid()
      ensures var f := FeedOnce(tables, chunk, old(inBlock), old(partial));
              out == Emitted(f.events) && inBlock == f.inBlock && partial == f.partial
    {
      hide MarkerLen, Process, FirstMarker, Clean, Utf8.Valid, Boundary, Emitted, HoldFrom, Resumes;
      if chunk == [] {
        NothingEmitted();
        return [];
      }
      FeedKeepsValid(tables, chunk, inBlock, partial);
      var combined := partial + chunk;
      partial := [];
      ghost var whole := Process(tables, combined, 0, inBlock);
      ResumesAtStart(whole);
      out := [];
      var cursor := 0;
      while cursor < |combined|
        invariant cursor <= |combined| && Boundary(combined, cursor) && partial == []
        invariant Resumes(whole, out, Process(tables, combined, cursor, inBlock))
      {
        var marker := FindFirstMarker(tables, combined, cursor, inBlock);
        match marker {
          case Hit(off, len) =>
            ResumesAfterMarker(tables, combined, cursor, inBlock, off, len, whole, out);
            if off > cursor {
              out := out + [Segment(KindOf(inBlock), Slice(combined, cursor, off))];
            }
            inBlock := !inBlock;
            cursor := off + len;
          case Miss =>
            var safeEnd := HoldBack(combined, cursor);
            ResumesWithoutMarker(tables, combined, cursor, safeEnd, inBlock, whole, out);
            if safeEnd > cursor {
              out := out + [Segment(KindOf(inBlock), Slice(combined, cursor, safeEnd))];
              cursor := safeEnd;
            }
            if cursor < |combined| {
              partial := Slice(combined, cursor, |combined|);
            }
            return;
        }
      }
      NothingLeft(tables, combined, inBlock, whole, out);
    }

    method Flush() returns (out: seq<Segment>)
      requires Valid()
      modifies this
      ensures Valid() && partial == [] && inBlock == old(inBlock)
      ensures out == OneUnlessEmpty(old(inBlock), old(partial))
      ensures out == if old(partial) == [] then []
                     else [Segment(if old(inBlock) then Reasoning else Final, old(partial))]
    {
      var held := partial;
      partial := [];
      EmptyIsClean(tables, inBlock);
      if held == [] {
        return [];
      }
      out := [Segment(if inBlock then Reasoning else Final, held)];
    }
  }

  // The loop has handed out `out` and still owes what `rest` emits.
  ghost predicate Resumes(whole: Walk, out: seq<Segment>, rest: Walk) {
    && Emitted(whole.events) == out + Emitted(rest.events)
    && whole.inBlock == rest.inBlock && whole.held == rest.held
  }

  function AddUnlessEmpty(out: seq<Segment>, inBlock: bool, s: seq<Byte>, from: nat, to: nat): seq<Segment>
    requires from <= to <= |s|
  {
    if from < to then out + [Segment(KindOf(inBlock), s[from..to])] else out
  }

  lemma {:induction false} AddIsOneUnlessEmpty(out: seq<Segment>, inBlock: bool, s: seq<Byte>, from: nat, to: nat)
    requires from <= to <= |s|
    ensures AddUnlessEmpty(out, inBlock, s, from, to) == out + OneUnlessEmpty(inBlock, s[from..to])
  {
  }

  lemma {:induction false} ResumesAtStart(whole: Walk)
    ensures Resumes(whole, [], whole)
  {
  }

  lemma {:induction false} FeedKeepsValid(t: Tables, chunk: seq<Byte>, inBlock: bool, partial: seq<Byte>)
    requires t.Good() && Valid(chunk) && Valid(partial) && chunk != []
    ensures var s := partial + chunk; Valid(s) && Boundary(s, 0) && Boundary(s, |s|)
    ensures var f := FeedOnce(t, chunk, inBlock, partial);
            Clean(t, f.inBlock, f.partial) && Valid(f.partial) && |f.partial| <= MAX_MARKER_LEN - 1 + 3
  {
    hide MarkerLen, Process;
    var s := partial + chunk;
    ValidConcat(partial, chunk);
    ProcessHoldsLittle(t, s, 0, inBlock);
    ProcessLeavesNoMarker(t, s, 0, inBlock);
    var w := Process(t, s, 0, inBlock);
    CleanShift(t, s, w.held, w.inBlock);
    ValidSplit(s, w.held);
  }

  lemma {:induction false} ResumesAfterMarker(t: Tables, s: seq<Byte>, cursor: nat, inBlock: bool, off: nat, len: nat,
                           whole: Walk, out: seq<Segment>)
    requires t.Good() && Valid(s) && cursor <= |s| && FirstMarker(t.Candidates(inBlock), s, cursor) == Hit(off, len)
    requires Resumes(whole, out, Process(t, s, cursor, inBlock))
    ensures cursor <= off <= off + len <= |s| && 0 < len && Boundary(s, off) && Boundary(s, off + len)
    ensures Resumes(whole, AddUnlessEmpty(out, inBlock, s, cursor, off), Process(t, s, off + len, !inBlock))
  {
    hide MarkerLen, FirstMarker, Valid, GoodCandidates, Boundary, Emitted, OneUnlessEmpty, AddUnlessEmpty,
         AfterMarker, HoldFrom;
    HitOnBoundaries(t.Candidates(inBlock), s, cursor, off, len);
    var rest := Process(t, s, off + len, !inBlock);
    EmittedAfterMarker(inBlock, s[cursor..off], s[off..off + len], rest);
    Assoc(out, OneUnlessEmpty(inBlock, s[cursor..off]), Emitted(rest.events));
    AddIsOneUnlessEmpty(out, inBlock, s, cursor, off);
  }

  lemma {:induction false} ResumesWithoutMarker(t: Tables, s: seq<Byte>, cursor: nat, n: nat, inBlock: bool,
                                                whole: Walk, out: seq<Segment>)
    requires cursor <= |s| && FirstMarker(t.Candidates(inBlock), s, cursor).Miss? && n == HoldFrom(s, cursor)
    requires Resumes(whole, out, Process(t, s, cursor, inBlock))
    ensures whole.inBlock == inBlock && whole.held == n && s[n..|s|] == s[n..]
    ensures Emitted(whole.events) == AddUnlessEmpty(out, inBlock, s, cursor, n)
  {
    hide MarkerLen;
    EmittedUnlessEmpty(inBlock, s[cursor..n]);
    AddIsOneUnlessEmpty(out, inBlock, s, cursor, n);
  }

  lemma {:induction false} NothingLeft(t: Tables, s: seq<Byte>, inBlock: bool, whole: Walk, out: seq<Segment>)
    requires t.Good() && Resumes(whole, out, Process(t, s, |s|, inBlock))
    ensures whole.inBlock == inBlock && s[whole.held..] == [] && Emitted(whole.events) == out
  {
    assert MarkerLen(t.Candidates(inBlock), s, |s|) == 0;
    assert FirstMarker(t.Candidates(inBlock), s, |s|).Miss?;
    assert HoldFrom(s, |s|) == |s|;
    ResumesWithoutMarker(t, s, |s|, |s|, inBlock, whole, out);
    assert s[|s|..] == [];
  }

  /** A whole turn: a fresh detector, one `feed` per token chunk, and the final `flush`. The
      merged segments are those of the reference scanner on the whole reply. */
  method StreamReply(t: Tables, chunks: seq<seq<Byte>>) returns (out: seq<Segment>, blockOpen: bool)
    requires t.Good() && forall c | c in chunks :: Valid(c)
    ensures out == Reply(t, chunks) && blockOpen == FeedAll(t, chunks, false, []).inBlock
    ensures Coalesce(out) == Runs(Scan(t, Concat(chunks), 0, false))
    ensures blockOpen == ScanEnd(t, Concat(chunks), 0, false)
  {
    hide MarkerLen, FeedOnce, FeedAll, Scan, ScanEnd, Clean, Runs, Coalesce, Emitted, StillOwed;
    var detector := new ReasoningDetector(t);
    out := [];
    ghost var whole := FeedAll(t, chunks, false, []);
    StillOwedAtStart(whole);
    assert chunks[0..] == chunks;
    for k := 0 to |chunks|
      invariant detector.Valid() && fresh(detector) && detector.tables == t
      invariant StillOwed(whole, out, FeedAll(t, chunks[k..], detector.inBlock, detector.partial))
    {
      StillOwedStep(t, chunks, k, detector.inBlock, detector.partial, whole, out);
      var parts := detector.Feed(chunks[k]);
      out := out + parts;
    }
    assert chunks[|chunks|..] == [];
    StillOwedAtEnd(t, detector.inBlock, detector.partial, whole, out);
    var rest := detector.Flush();
    out := out + rest;
    blockOpen := detector.inBlock;
    ReplyIsReferenceScan(t, chunks);
    FreshAfterFlush(t, chunks, false);
  }

  ghost predicate StillOwed(whole: Fed, out: seq<Segment>, rest: Fed) {
    && Emitted(whole.events) == out + Emitted(rest.events)
    && whole.inBlock == rest.inBlock && whole.partial == rest.partial
  }

  lemma {:induction false} StillOwedAtStart(whole: Fed)
    ensures StillOwed(whole, [], whole)
  {
  }

  lemma {:induction false} StillOwedAtEnd(t: Tables, inBlock: bool, partial: seq<Byte>, whole: Fed, out: seq<Segment>)
    requires StillOwed(whole, out, FeedAll(t, [], inBlock, partial))
    ensures Emitted(whole.events) == out && whole.inBlock == inBlock && whole.partial == partial
  {
  }

  lemma {:induction false} StillOwedStep(t: Tables, chunks: seq<seq<Byte>>, k: nat, inBlock: bool, partial: seq<Byte>,
                      whole: Fed, out: seq<Segment>)
    requires k < |chunks| && StillOwed(whole, out, FeedAll(t, chunks[k..], inBlock, partial))
    ensures var f := FeedOnce(t, chunks[k], inBlock, partial);
            StillOwed(whole, out + Emitted(f.events), FeedAll(t, chunks[k + 1..], f.inBlock, f.partial))
  {
    hide FeedOnce;
    assert chunks[k..][1..] == chunks[k + 1..];
    var f := FeedOnce(t, chunks[k], inBlock, partial);
    var rest := FeedAll(t, chunks[k + 1..], f.inBlock, f.partial);
    FlatMapConcat(SegmentOf, f.events, rest.events);
    Assoc(out, Emitted(f.events), Emitted(rest.events));
  }
}
