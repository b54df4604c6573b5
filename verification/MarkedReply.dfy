/** What the shipped detector shows of a reply that spells its markers out. Texts, markers and
    kinds are written here as such, so that neither the tables nor the reference scanner has a
    say in what is claimed. */
module MarkedReply {
  import opened Utf8
  import opened Sequences
  import opened Markers
  import opened Segments
  import opened ReasoningDetector

  datatype Style = AngledThink | DoubleThinking | AngledReasoning | SquareReasoning

  function Ascii(s: string): (r: seq<Byte>)
    requires forall i | 0 <= i < |s| :: s[i] < 128 as char
    ensures |r| == |s|
  {
    seq(|s|, i requires 0 <= i < |s| => s[i] as int as Byte)
  }

  // The mathematical angle brackets U+27E8 and U+27E9.
  const LEFT_DOUBLE: seq<Byte> := [0xE2, 0x9F, 0xA8]
  const RIGHT_DOUBLE: seq<Byte> := [0xE2, 0x9F, 0xA9]

  function Opening(style: Style): seq<Byte> {
    match style
    case AngledThink => Ascii("<think>")
    case DoubleThinking => LEFT_DOUBLE + Ascii("thinking") + RIGHT_DOUBLE
    case AngledReasoning => Ascii("<reasoning>")
    case SquareReasoning => Ascii("[Reasoning]")
  }

  function Closing(style: Style): seq<Byte> {
    match style
    case AngledThink => Ascii("</think>")
    case DoubleThinking => LEFT_DOUBLE + Ascii("/thinking") + RIGHT_DOUBLE
    case AngledReasoning => Ascii("</reasoning>")
    case SquareReasoning => Ascii("[/Reasoning]")
  }

  function Rank(style: Style): (k: nat)
    ensures k < 4
  {
    match style
    case AngledThink => 0
    case DoubleThinking => 1
    case AngledReasoning => 2
    case SquareReasoning => 3
  }

  function Ranked(k: nat): (style: Style)
    ensures k < 4 ==> Rank(style) == k
  {
    if k == 0 then AngledThink else if k == 1 then DoubleThinking else if k == 2 then AngledReasoning
    else SquareReasoning
  }

  lemma {:induction false} OpeningIsListed(style: Style)
    ensures |REASONING_OPEN| == 4 && REASONING_OPEN[Rank(style)] == Opening(style)
  {
  }

  lemma {:induction false} ClosingIsListed(style: Style)
    ensures |REASONING_CLOSE| == 4 && REASONING_CLOSE[Rank(style)] == Closing(style)
  {
  }

  // No opening marker starts in `s` before the place `n`.
  ghost predicate NoOpening(s: seq<Byte>, n: nat) {
    forall style: Style, i: nat | i < n :: !OccursAt(s, Opening(style), i)
  }

  ghost predicate NoClosing(s: seq<Byte>, n: nat) {
    forall style: Style, i: nat | i < n :: !OccursAt(s, Closing(style), i)
  }

  // ---------------------------------------------------------------- up to a marker

  /** Text before the first marker of a table holds none, whatever follows that marker. */
  lemma {:induction false} FirstOfItsTable(c: seq<seq<Byte>>, a: seq<Byte>, m: nat, z: seq<Byte>)
    requires GoodCandidates(c) && m < |c|
    requires forall k: nat, i: nat | k < |c| && i < |a| :: !OccursAt(a + c[m], c[k], i)
    ensures var s := (a + c[m]) + z; NoMarkerIn(c, s, 0, |a|) && MarkerLen(c, s, |a|) == |c[m]|
  {
    var known := a + c[m];
    var s := known + z;
    assert OccursAt(known, c[m], |a|);
    OccursInExtension(known, z, c[m], |a|);
    MarkerLenOf(c, s, |a|, m);
    forall i: nat | 0 <= i < |a| ensures MarkerLen(c, s, i) == 0 {
      if MarkerLen(c, s, i) > 0 {
        var k := MarkerThere(c, s, i);
        if i + |c[k]| <= |known| {
          OccursInExtension(known, z, c[k], i);
        } else {
          Nested(s, c[k], c[m], i, |a|);
        }
      }
    }
  }

  lemma {:induction false} ScanToMarker(t: Tables, inBlock: bool, a: seq<Byte>, m: nat, z: seq<Byte>)
    requires t.Good() && m < |t.Candidates(inBlock)|
    requires var c := t.Candidates(inBlock);
             forall k: nat, i: nat | k < |c| && i < |a| :: !OccursAt(a + c[m], c[k], i)
    ensures var s := (a + t.Candidates(inBlock)[m]) + z;
            && Scan(t, s, 0, inBlock) == Tag(KindOf(inBlock), a) + Scan(t, z, 0, !inBlock)
            && ScanEnd(t, s, 0, inBlock) == ScanEnd(t, z, 0, !inBlock)
  {
    hide MarkerLen, OccursAt;
    var c := t.Candidates(inBlock);
    var s := (a + c[m]) + z;
    FirstOfItsTable(c, a, m, z);
    ScanPlain(t, s, 0, |a|, inBlock);
    assert s[0..|a|] == a && s[|a| + |c[m]|..] == z;
    assert |c[m]| > 0;
    ScanShift(t, s, |a| + |c[m]|, 0, !inBlock);
  }

  lemma {:induction false} ScanToOpening(a: seq<Byte>, style: Style, z: seq<Byte>)
    requires NoOpening(a + Opening(style), |a|)
    ensures var s := (a + Opening(style)) + z;
            && Scan(Shipped(), s, 0, false) == Tag(Final, a) + Scan(Shipped(), z, 0, true)
            && ScanEnd(Shipped(), s, 0, false) == ScanEnd(Shipped(), z, 0, true)
  {
    hide MarkerLen, OccursAt, Scan, ScanEnd;
    ShippedTablesAreGood();
    var c := Shipped().Candidates(false);
    OpeningIsListed(style);
    forall k: nat, i: nat | k < |c| && i < |a| ensures !OccursAt(a + c[Rank(style)], c[k], i) {
      OpeningIsListed(Ranked(k));
    }
    ScanToMarker(Shipped(), false, a, Rank(style), z);
  }

  lemma {:induction false} ScanToClosing(b: seq<Byte>, style: Style, z: seq<Byte>)
    requires NoClosing(b + Closing(style), |b|)
    ensures var s := (b + Closing(style)) + z;
            && Scan(Shipped(), s, 0, true) == Tag(Reasoning, b) + Scan(Shipped(), z, 0, false)
            && ScanEnd(Shipped(), s, 0, true) == ScanEnd(Shipped(), z, 0, false)
  {
    hide MarkerLen, OccursAt, Scan, ScanEnd;
    ShippedTablesAreGood();
    var c := Shipped().Candidates(true);
    ClosingIsListed(style);
    forall k: nat, i: nat | k < |c| && i < |b| ensures !OccursAt(b + c[Rank(style)], c[k], i) {
      ClosingIsListed(Ranked(k));
    }
    ScanToMarker(Shipped(), true, b, Rank(style), z);
  }

  lemma {:induction false} ScanOutside(c: seq<Byte>)
    requires NoOpening(c, |c|)
    ensures Scan(Shipped(), c, 0, false) == Tag(Final, c) && !ScanEnd(Shipped(), c, 0, false)
  {
    var open := Shipped().Candidates(false);
    forall i: nat | 0 <= i < |c| + 1 ensures MarkerLen(open, c, i) == 0 {
      if MarkerLen(open, c, i) > 0 {
        var k := MarkerThere(open, c, i);
        OpeningIsListed(Ranked(k));
      }
    }
    hide MarkerLen, OccursAt;
    ScanPlain(Shipped(), c, 0, |c|, false);
    assert c[0..|c|] == c;
  }

  lemma {:induction false} ScanInside(b: seq<Byte>)
    requires NoClosing(b, |b|)
    ensures Scan(Shipped(), b, 0, true) == Tag(Reasoning, b) && ScanEnd(Shipped(), b, 0, true)
  {
    var close := Shipped().Candidates(true);
    forall i: nat | 0 <= i < |b| + 1 ensures MarkerLen(close, b, i) == 0 {
      if MarkerLen(close, b, i) > 0 {
        var k := MarkerThere(close, b, i);
        ClosingIsListed(Ranked(k));
      }
    }
    hide MarkerLen, OccursAt;
    ScanPlain(Shipped(), b, 0, |b|, true);
    assert b[0..|b|] == b;
  }

  // ---------------------------------------------------------------- whole replies

  // Text outside, the marker that opens a block, the text inside and the marker that closes it.
  datatype Round = Round(before: seq<Byte>, opening: Style, thought: seq<Byte>, closing: Style)

  /** The reply of these blocks in a row and then `rest`. */
  function Spelled(rounds: seq<Round>, rest: seq<Byte>): seq<Byte> {
    if rounds == [] then rest
    else
      var r := rounds[0];
      (r.before + Opening(r.opening)) + ((r.thought + Closing(r.closing)) + Spelled(rounds[1..], rest))
  }

  // Each block is opened by the first opening marker and closed by the first closing one after it.
  ghost predicate Marked(rounds: seq<Round>) {
    forall r | r in rounds ::
      NoOpening(r.before + Opening(r.opening), |r.before|) && NoClosing(r.thought + Closing(r.closing), |r.thought|)
  }

  function Shown(rounds: seq<Round>): seq<Segment> {
    if rounds == [] then []
    else [Segment(Final, rounds[0].before), Segment(Reasoning, rounds[0].thought)] + Shown(rounds[1..])
  }

  lemma {:induction false} TaggedTwo(a: Segment, b: Segment, rest: seq<Segment>)
    ensures Tagged([a, b] + rest) == Tag(a.kind, a.text) + (Tag(b.kind, b.text) + Tagged(rest))
  {
    assert [a, b] + rest == [a] + ([b] + rest);
    FlatMapCons(TagSegment, a, [b] + rest);
    FlatMapCons(TagSegment, b, rest);
  }

  lemma {:induction false} NothingTagged()
    ensures Tagged([]) == []
  {
  }

  lemma {:induction false} ScanRounds(rounds: seq<Round>, rest: seq<Byte>)
    requires Marked(rounds)
    ensures Scan(Shipped(), Spelled(rounds, rest), 0, false)
         == Tagged(Shown(rounds)) + Scan(Shipped(), rest, 0, false)
    ensures ScanEnd(Shipped(), Spelled(rounds, rest), 0, false) == ScanEnd(Shipped(), rest, 0, false)
  {
    hide Scan, ScanEnd, NoOpening, NoClosing, Opening, Closing, Tagged;
    if rounds == [] {
      NothingTagged();
    } else {
      var r, last := rounds[0], Spelled(rounds[1..], rest);
      ScanRounds(rounds[1..], rest);
      ScanToOpening(r.before, r.opening, (r.thought + Closing(r.closing)) + last);
      ScanToClosing(r.thought, r.closing, last);
      var a, b := Segment(Final, r.before), Segment(Reasoning, r.thought);
      TaggedTwo(a, b, Shown(rounds[1..]));
      Assoc(Tag(Reasoning, r.thought), Tagged(Shown(rounds[1..])), Scan(Shipped(), rest, 0, false));
      Assoc(Tag(Final, r.before), Tag(Reasoning, r.thought) + Tagged(Shown(rounds[1..])),
            Scan(Shipped(), rest, 0, false));
    }
  }

  /** A reply whose scan is that of given segments shows these, merged. */
  lemma {:induction false} ShowsSegments(chunks: seq<seq<Byte>>, segments: seq<Segment>)
    requires Scan(Shipped(), Concat(chunks), 0, false) == Tagged(segments)
    ensures Coalesce(Reply(Shipped(), chunks)) == Coalesce(segments)
  {
    hide Scan, Reply, Coalesce, Runs, Tagged;
    ShippedTablesAreGood();
    ReplyIsReferenceScan(Shipped(), chunks);
    CoalesceIsRuns(segments);
  }

  /** However a reply is cut into chunks, the texts before and after its blocks are shown as the
      answer, the texts inside as reasoning, no marker is shown, and no block is left open. */
  lemma {:induction false} BlocksAreReasoning(chunks: seq<seq<Byte>>, rounds: seq<Round>, rest: seq<Byte>)
    requires Concat(chunks) == Spelled(rounds, rest) && Marked(rounds) && NoOpening(rest, |rest|)
    ensures Coalesce(Reply(Shipped(), chunks)) == Coalesce(Shown(rounds) + [Segment(Final, rest)])
    ensures !FeedAll(Shipped(), chunks, false, []).inBlock
  {
    hide Scan, ScanEnd, NoOpening, Spelled, Reply, FeedAll, Marked, Shown, Tag;
    ShippedTablesAreGood();
    ScanRounds(rounds, rest);
    ScanOutside(rest);
    FlatMapConcat(TagSegment, Shown(rounds), [Segment(Final, rest)]);
    FlatMapOne(TagSegment, Segment(Final, rest));
    ShowsSegments(chunks, Shown(rounds) + [Segment(Final, rest)]);
    FreshAfterFlush(Shipped(), chunks, false);
  }

  /** A last block that is never closed is reasoning to the end, and stays open. */
  lemma {:induction false} UnclosedBlockIsReasoning(chunks: seq<seq<Byte>>, rounds: seq<Round>, a: seq<Byte>,
                                                    style: Style, b: seq<Byte>)
    requires Concat(chunks) == Spelled(rounds, (a + Opening(style)) + b) && Marked(rounds)
    requires NoOpening(a + Opening(style), |a|) && NoClosing(b, |b|)
    ensures Coalesce(Reply(Shipped(), chunks))
         == Coalesce(Shown(rounds) + [Segment(Final, a), Segment(Reasoning, b)])
    ensures FeedAll(Shipped(), chunks, false, []).inBlock
  {
    hide Scan, ScanEnd, NoOpening, NoClosing, Spelled, Reply, FeedAll, Marked, Shown, Opening, Tag;
    ShippedTablesAreGood();
    ScanRounds(rounds, (a + Opening(style)) + b);
    ScanToOpening(a, style, b);
    ScanInside(b);
    var x, y := Segment(Final, a), Segment(Reasoning, b);
    FlatMapConcat(TagSegment, Shown(rounds), [x, y]);
    FlatMapConcat(TagSegment, [x], [y]);
    FlatMapOne(TagSegment, x);
    FlatMapOne(TagSegment, y);
    assert [x] + [y] == [x, y];
    ShowsSegments(chunks, Shown(rounds) + [x, y]);
    FreshAfterFlush(Shipped(), chunks, false);
  }

  function Part(kind: TokenPart, text: seq<Byte>): seq<Segment> {
    if text == [] then [] else [Segment(kind, text)]
  }

  /** A text without an opening marker is shown as the answer, closing markers included. */
  lemma {:induction false} PlainTextIsFinal(chunks: seq<seq<Byte>>, text: seq<Byte>)
    requires Concat(chunks) == text && NoOpening(text, |text|)
    ensures Coalesce(Reply(Shipped(), chunks)) == if text == [] then [] else [Segment(Final, text)]
    ensures !FeedAll(Shipped(), chunks, false, []).inBlock
  {
    hide Reply, FeedAll, NoOpening, Coalesce;
    assert Concat(chunks) == Spelled([], text) && Marked([]);
    BlocksAreReasoning(chunks, [], text);
    assert Shown([]) + [Segment(Final, text)] == [Segment(Final, text)];
    MergedOne(Final, text);
  }

  /** One block: text, reasoning, text, under the kinds a user sees them in. */
  lemma {:induction false} OneBlock(chunks: seq<seq<Byte>>, a: seq<Byte>, opening: Style, b: seq<Byte>, closing: Style,
                                    c: seq<Byte>)
    requires Concat(chunks) == a + Opening(opening) + b + Closing(closing) + c
    requires NoOpening(a + Opening(opening), |a|) && NoClosing(b + Closing(closing), |b|) && NoOpening(c, |c|)
    ensures a != [] && b != [] && c != [] ==>
              Coalesce(Reply(Shipped(), chunks)) == [Segment(Final, a), Segment(Reasoning, b), Segment(Final, c)]
    ensures Coalesce(Reply(Shipped(), chunks))
         == if b == [] then Part(Final, a + c) else Part(Final, a) + Part(Reasoning, b) + Part(Final, c)
    ensures !FeedAll(Shipped(), chunks, false, []).inBlock
  {
    hide Reply, FeedAll, NoOpening, NoClosing, Opening, Closing, Coalesce;
    var rounds := [Round(a, opening, b, closing)];
    assert rounds[1..] == [];
    assert Spelled(rounds, c) == (a + Opening(opening)) + ((b + Closing(closing)) + c);
    assert Concat(chunks) == Spelled(rounds, c);
    BlocksAreReasoning(chunks, rounds, c);
    assert Shown(rounds) == [Segment(Final, a), Segment(Reasoning, b)];
    MergedThree(a, b, c);
  }

  lemma {:induction false} MergedSnoc(segments: seq<Segment>, s: Segment)
    ensures Coalesce(segments + [s]) == Append(Coalesce(segments), s)
  {
    assert (segments + [s])[..|segments|] == segments;
  }

  lemma {:induction false} MergedOne(kind: TokenPart, text: seq<Byte>)
    ensures Coalesce([Segment(kind, text)]) == Part(kind, text)
  {
    MergedSnoc([], Segment(kind, text));
    assert [] + [Segment(kind, text)] == [Segment(kind, text)];
  }

  lemma {:induction false} MergedThree(a: seq<Byte>, b: seq<Byte>, c: seq<Byte>)
    ensures Coalesce([Segment(Final, a), Segment(Reasoning, b)] + [Segment(Final, c)])
         == if b == [] then Part(Final, a + c) else Part(Final, a) + Part(Reasoning, b) + Part(Final, c)
  {
    hide Coalesce;
    var x, y, z := Segment(Final, a), Segment(Reasoning, b), Segment(Final, c);
    MergedOne(Final, a);
    MergedSnoc([x], y);
    MergedSnoc([x, y], z);
    assert [x] + [y] == [x, y];
    if a == [] { assert a + c == c; }
    if c == [] { assert a + c == a; }
  }
}
