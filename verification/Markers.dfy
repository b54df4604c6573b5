/** Tables of reasoning markers, and the two facts about a table that streaming relies on:
    every marker is shorter than `MAX_MARKER_LEN`, and none occurs inside another. */
module Markers {
  import opened Option
  import opened Sequences
  import opened Utf8

  const MAX_MARKER_LEN: nat := 16

  // The markers that open a block and those that close one, each in priority order.
  datatype Tables = Tables(open: seq<seq<Byte>>, close: seq<seq<Byte>>) {
    function Candidates(inBlock: bool): seq<seq<Byte>> {
      if inBlock then close else open
    }

    ghost predicate Good() {
      GoodCandidates(open) && GoodCandidates(close)
    }
  }

  ghost predicate GoodCandidates(c: seq<seq<Byte>>) {
    && (forall k | 0 <= k < |c| :: 0 < |c[k]| < MAX_MARKER_LEN && Valid(c[k]))
    && (forall a, b, i: nat | 0 <= a < |c| && 0 <= b < |c| && OccursAt(c[a], c[b], i) :: a == b)
  }

  /** The index of the first candidate, from the `k`-th on, that occurs in `s` at `i`. */
  function MarkerFrom(c: seq<seq<Byte>>, s: seq<Byte>, i: nat, k: nat): (r: Option<nat>)
    requires k <= |c|
    ensures r.Some? ==> r.value < |c| && OccursAt(s, c[r.value], i)
    decreases |c| - k
  {
    if k == |c| then None
    else if OccursAt(s, c[k], i) then Some(k)
    else MarkerFrom(c, s, i, k + 1)
  }

  /** The length of the marker that starts in `s` at `i`; 0 if none does. */
  function MarkerLen(c: seq<seq<Byte>>, s: seq<Byte>, i: nat): (n: nat)
    ensures n > 0 ==> i + n <= |s|
  {
    match MarkerFrom(c, s, i, 0)
    case None => 0
    case Some(k) => |c[k]|
  }

  lemma {:induction false} MarkerFromIsComplete(c: seq<seq<Byte>>, s: seq<Byte>, i: nat, k: nat, j: nat)
    requires k <= j < |c| && OccursAt(s, c[j], i)
    ensures MarkerFrom(c, s, i, k).Some?
    decreases j - k
  {
    if k < j && !OccursAt(s, c[k], i) {
      MarkerFromIsComplete(c, s, i, k + 1, j);
    }
  }

  /** At most one marker of a table starts at a given place. */
  lemma {:induction false} MarkerLenOf(c: seq<seq<Byte>>, s: seq<Byte>, i: nat, k: nat)
    requires GoodCandidates(c) && k < |c| && OccursAt(s, c[k], i)
    ensures MarkerLen(c, s, i) == |c[k]|
  {
    MarkerFromIsComplete(c, s, i, 0, k);
    var j := MarkerFrom(c, s, i, 0).value;
    if |c[j]| <= |c[k]| {
      Nested(s, c[k], c[j], i, i);
    } else {
      Nested(s, c[j], c[k], i, i);
    }
  }

  lemma {:induction false} MarkerThere(c: seq<seq<Byte>>, s: seq<Byte>, i: nat) returns (k: nat)
    requires MarkerLen(c, s, i) > 0
    ensures k < |c| && OccursAt(s, c[k], i) && MarkerLen(c, s, i) == |c[k]|
  {
    k := MarkerFrom(c, s, i, 0).value;
  }

  lemma {:induction false} Nested(s: seq<Byte>, x: seq<Byte>, y: seq<Byte>, i: nat, j: nat)
    requires OccursAt(s, x, i) && OccursAt(s, y, j) && i <= j && j + |y| <= i + |x|
    ensures OccursAt(x, y, j - i)
  {
    forall k | 0 <= k < |y| ensures x[j - i + k] == y[k] {
      assert y[k] == s[j..j + |y|][k] == s[j + k] == s[i..i + |x|][j - i + k];
    }
  }

  lemma {:induction false} OccursInExtension(s: seq<Byte>, z: seq<Byte>, y: seq<Byte>, i: nat)
    requires i + |y| <= |s|
    ensures OccursAt(s + z, y, i) <==> OccursAt(s, y, i)
  {
    assert (s + z)[i..i + |y|] == s[i..i + |y|];
  }

  /** A marker seen in `s` is the one seen there in any extension. */
  lemma {:induction false} MarkerPersists(c: seq<seq<Byte>>, s: seq<Byte>, z: seq<Byte>, i: nat)
    requires GoodCandidates(c) && MarkerLen(c, s, i) > 0
    ensures MarkerLen(c, s + z, i) == MarkerLen(c, s, i)
  {
    var k := MarkerThere(c, s, i);
    OccursInExtension(s, z, c[k], i);
    MarkerLenOf(c, s + z, i, k);
  }

  /** More text cannot create a marker where the text at hand already decides: either 15
      bytes of it are there, or a marker that starts later is already complete. */
  lemma {:induction false} NoneStaysNone(c: seq<seq<Byte>>, s: seq<Byte>, z: seq<Byte>, i: nat, off: nat)
    requires GoodCandidates(c) && MarkerLen(c, s, i) == 0
    requires i + MAX_MARKER_LEN - 1 <= |s| || (i <= off && MarkerLen(c, s, off) > 0)
    ensures MarkerLen(c, s + z, i) == 0
  {
    if MarkerLen(c, s + z, i) > 0 {
      var a := MarkerThere(c, s + z, i);
      if i + |c[a]| <= |s| {
        OccursInExtension(s, z, c[a], i);
        MarkerLenOf(c, s, i, a);
      } else {
        var b := MarkerThere(c, s, off);
        OccursInExtension(s, z, c[b], off);
        Nested(s + z, c[a], c[b], i, off);
      }
    }
  }

  /** Dropping a prefix moves every marker and changes none. */
  lemma {:induction false} MarkerShift(c: seq<seq<Byte>>, s: seq<Byte>, n: nat, i: nat, k: nat)
    requires n <= |s| && k <= |c|
    ensures MarkerFrom(c, s[n..], i, k) == MarkerFrom(c, s, n + i, k)
    decreases |c| - k
  {
    if k < |c| {
      assert n + i + |c[k]| <= |s| ==> s[n..][i..i + |c[k]|] == s[n + i..n + i + |c[k]|];
      MarkerShift(c, s, n, i, k + 1);
    }
  }

  // ---------------------------------------------------------------- the shipped tables

  // <think>  U+27E8 thinking U+27E9  <reasoning>  [Reasoning]
  const REASONING_OPEN: seq<seq<Byte>> := [
    [0x3C, 0x74, 0x68, 0x69, 0x6E, 0x6B, 0x3E],
    [0xE2, 0x9F, 0xA8, 0x74, 0x68, 0x69, 0x6E, 0x6B, 0x69, 0x6E, 0x67, 0xE2, 0x9F, 0xA9],
    [0x3C, 0x72, 0x65, 0x61, 0x73, 0x6F, 0x6E, 0x69, 0x6E, 0x67, 0x3E],
    [0x5B, 0x52, 0x65, 0x61, 0x73, 0x6F, 0x6E, 0x69, 0x6E, 0x67, 0x5D]
  ]

  // </think>  U+27E8 /thinking U+27E9  </reasoning>  [/Reasoning]
  const REASONING_CLOSE: seq<seq<Byte>> := [
    [0x3C, 0x2F, 0x74, 0x68, 0x69, 0x6E, 0x6B, 0x3E],
    [0xE2, 0x9F, 0xA8, 0x2F, 0x74, 0x68, 0x69, 0x6E, 0x6B, 0x69, 0x6E, 0x67, 0xE2, 0x9F, 0xA9],
    [0x3C, 0x2F, 0x72, 0x65, 0x61, 0x73, 0x6F, 0x6E, 0x69, 0x6E, 0x67, 0x3E],
    [0x5B, 0x2F, 0x52, 0x65, 0x61, 0x73, 0x6F, 0x6E, 0x69, 0x6E, 0x67, 0x5D]
  ]

  function Shipped(): Tables {
    Tables(REASONING_OPEN, REASONING_CLOSE)
  }

  lemma {:induction false} ShippedTablesAreGood()
    ensures Shipped().Good()
  {
    ShippedOpenIsGood();
    ShippedCloseIsGood();
  }

  lemma {:induction false} ShippedOpenIsGood()
    ensures GoodCandidates(REASONING_OPEN)
  {
    var c := REASONING_OPEN;
    assert Plain(c[0], 0x3C) && Plain(c[2], 0x3C);
    assert Bracketed(c[1]) && Plain(c[3], 0x5B);
    AngleAngleSquareIsGood(c);
  }

  lemma {:induction false} ShippedCloseIsGood()
    ensures GoodCandidates(REASONING_CLOSE)
  {
    var c := REASONING_CLOSE;
    assert Plain(c[0], 0x3C) && Plain(c[2], 0x3C);
    assert Bracketed(c[1]) && Plain(c[3], 0x5B);
    AngleAngleSquareIsGood(c);
  }

  // The shape both tables share. The first byte of a marker recurs inside a marker only as
  // the 0xE2 three bytes before its end.
  predicate Plain(m: seq<Byte>, first: Byte) {
    && 7 <= |m| < MAX_MARKER_LEN && m[0] == first < 0x80
    && forall i | 1 <= i < |m| :: m[i] < 0x80 && m[i] != 0x3C && m[i] != 0x5B
  }

  predicate Bracketed(m: seq<Byte>) {
    && 7 <= |m| < MAX_MARKER_LEN
    && m[0] == m[|m| - 3] == 0xE2 && m[1] == m[|m| - 2] == 0x9F && m[2] == 0xA8 && m[|m| - 1] == 0xA9
    && forall i | 3 <= i < |m| - 3 :: m[i] < 0x80 && m[i] != 0x3C && m[i] != 0x5B
  }

  lemma {:induction false} AngleAngleSquareIsGood(c: seq<seq<Byte>>)
    requires |c| == 4 && Plain(c[0], 0x3C) && Bracketed(c[1]) && Plain(c[2], 0x3C) && Plain(c[3], 0x5B)
    requires c[0][1] != c[2][1] || c[0][2] != c[2][2]
    ensures GoodCandidates(c)
  {
    AsciiIsValid(c[0]);
    BracketedIsValid(c[1]);
    AsciiIsValid(c[2]);
    AsciiIsValid(c[3]);
    forall a, b, i: nat | 0 <= a < 4 && 0 <= b < 4 && OccursAt(c[a], c[b], i) ensures a == b {
      FirstThreeBytes(c[a], c[b], i);
    }
  }

  lemma {:induction false} FirstThreeBytes(x: seq<Byte>, y: seq<Byte>, i: nat)
    requires OccursAt(x, y, i) && |y| >= 7
    ensures i + 7 <= |x| && x[i] == y[0] && x[i + 1] == y[1] && x[i + 2] == y[2]
  {
    assert x[i..i + |y|][0] == x[i] && x[i..i + |y|][1] == x[i + 1] && x[i..i + |y|][2] == x[i + 2];
  }

  lemma {:induction false} AsciiIsValid(s: seq<Byte>)
    requires forall i | 0 <= i < |s| :: s[i] < 0x80
    ensures Valid(s)
  {
    if s != [] {
      AsciiIsValid(s[1..]);
    }
  }

  lemma {:induction false} BracketedIsValid(m: seq<Byte>)
    requires Bracketed(m)
    ensures Valid(m)
  {
    var middle, last := m[3..|m| - 3], m[|m| - 3..];
    AsciiIsValid(middle);
    assert Valid(last[3..]);
    ValidConcat(middle, last);
    assert m[3..] == middle + last;
  }
}
