/** Segments of tagged text and the merged form in which a user sees them. A detector may cut its
    output anywhere, so replies are compared after neighbours of one kind are joined; this form
    is determined by which byte carries which kind and by nothing else. */
module Segments {
  import opened Utf8
  import opened Sequences

  datatype TokenPart = Final | Reasoning

  datatype Segment = Segment(kind: TokenPart, text: seq<Byte>)

  type TaggedByte = (TokenPart, Byte)

  function Tag(kind: TokenPart, s: seq<Byte>): (t: seq<TaggedByte>)
    ensures |t| == |s|
  {
    seq(|s|, i requires 0 <= i < |s| => (kind, s[i]))
  }

  function TagSegment(s: Segment): seq<TaggedByte> {
    Tag(s.kind, s.text)
  }

  function Tagged(segments: seq<Segment>): seq<TaggedByte> {
    FlatMap(TagSegment, segments)
  }

  /** Joins neighbouring segments of one kind and drops empty ones. */
  function Coalesce(segments: seq<Segment>): seq<Segment> {
    if segments == [] then []
    else Append(Coalesce(segments[..|segments| - 1]), segments[|segments| - 1])
  }

  function Append(out: seq<Segment>, s: Segment): seq<Segment> {
    if s.text == [] then out
    else if out != [] && out[|out| - 1].kind == s.kind then
      out[..|out| - 1] + [Segment(s.kind, out[|out| - 1].text + s.text)]
    else out + [s]
  }

  /** The maximal runs of equally tagged bytes. */
  function Runs(tags: seq<TaggedByte>): seq<Segment> {
    if tags == [] then []
    else
      var last := tags[|tags| - 1];
      Append(Runs(tags[..|tags| - 1]), Segment(last.0, [last.1]))
  }

  lemma {:induction false} AppendInTwo(out: seq<Segment>, kind: TokenPart, a: seq<Byte>, b: seq<Byte>)
    requires b != []
    ensures Append(Append(out, Segment(kind, a)), Segment(kind, b)) == Append(out, Segment(kind, a + b))
  {
    if a == [] {
      assert a + b == b;
    } else if out != [] && out[|out| - 1].kind == kind {
      Assoc(out[|out| - 1].text, a, b);
    }
  }

  lemma {:induction false} TagLast(tags: seq<TaggedByte>, kind: TokenPart, text: seq<Byte>)
    requires text != []
    ensures var n := |text| - 1; tags + Tag(kind, text) == (tags + Tag(kind, text[..n])) + [(kind, text[n])]
  {
  }

  lemma {:induction false} RunsSnoc(tags: seq<TaggedByte>, last: TaggedByte)
    ensures Runs(tags + [last]) == Append(Runs(tags), Segment(last.0, [last.1]))
  {
    assert (tags + [last])[..|tags|] == tags;
  }

  lemma {:induction false} RunsAppend(tags: seq<TaggedByte>, kind: TokenPart, text: seq<Byte>)
    ensures Runs(tags + Tag(kind, text)) == Append(Runs(tags), Segment(kind, text))
    decreases |text|
  {
    if text == [] {
      assert tags + Tag(kind, text) == tags;
    } else {
      var n := |text| - 1;
      RunsAppend(tags, kind, text[..n]);
      TagLast(tags, kind, text);
      RunsSnoc(tags + Tag(kind, text[..n]), (kind, text[n]));
      AppendInTwo(Runs(tags), kind, text[..n], [text[n]]);
      assert text == text[..n] + [text[n]];
    }
  }

  /** What the user sees depends only on which bytes carry which kind. */
  lemma {:induction false} CoalesceIsRuns(segments: seq<Segment>)
    ensures Coalesce(segments) == Runs(Tagged(segments))
  {
    if segments != [] {
      var n := |segments| - 1;
      CoalesceIsRuns(segments[..n]);
      FlatMapConcat(TagSegment, segments[..n], [segments[n]]);
      FlatMapOne(TagSegment, segments[n]);
      assert segments == segments[..n] + [segments[n]];
      RunsAppend(Tagged(segments[..n]), segments[n].kind, segments[n].text);
    }
  }
}
