/** The text of a prompt line: UTF-8 bytes, edited at character positions. */
module LineText {
  import opened Option
  import opened Utf8

  // One character: the bytes that encode it.
  type Char = c: seq<Byte> | CharAtStart(c) && |c| == Width(c[0]) witness [0]

  const SPACE: Char := [0x20]
  const SLASH: Char := [0x2F]

  /** The characters of a line. */
  function Chars(s: seq<Byte>): (cs: seq<Char>)
    requires Valid(s)
    ensures |cs| <= |s| && (s != [] ==> cs != [])
  {
    if s == [] then [] else [s[..Width(s[0])]] + Chars(s[Width(s[0])..])
  }

  function Encode(cs: seq<Char>): seq<Byte> {
    if cs == [] then [] else cs[0] + Encode(cs[1..])
  }

  lemma {:induction false} CharFirst(c: Char, s: seq<Byte>)
    requires Valid(s)
    ensures Valid(c + s) && Chars(c + s) == [c] + Chars(s)
  {
    assert (c + s)[0] == c[0];
    assert (c + s)[..|c|] == c && (c + s)[|c|..] == s;
  }

  lemma {:induction false} CharsOfEncode(cs: seq<Char>)
    ensures Valid(Encode(cs)) && Chars(Encode(cs)) == cs
  {
    if cs != [] {
      CharsOfEncode(cs[1..]);
      CharFirst(cs[0], Encode(cs[1..]));
    }
  }

  lemma {:induction false} EncodeOfChars(s: seq<Byte>)
    requires Valid(s)
    ensures Encode(Chars(s)) == s
  {
    if s != [] {
      EncodeOfChars(s[Width(s[0])..]);
      assert Chars(s)[1..] == Chars(s[Width(s[0])..]);
    }
  }

  // ---------------------------------------------------------------- byte offsets

  /** The byte at which character `n` starts, found by walking the line. */
  function CharStart(s: seq<Byte>, n: nat): (b: Option<nat>)
    requires Valid(s)
    ensures b.Some? <==> n < |Chars(s)|
    ensures b.Some? ==> b.value < |s|
  {
    if s == [] then None
    else if n == 0 then Some(0)
    else
      var w := Width(s[0]);
      match CharStart(s[w..], n - 1)
      case None => None
      case Some(b) => Some(w + b)
  }

  function Offset(s: seq<Byte>, n: nat): (b: nat)
    requires Valid(s)
    ensures b <= |s| && (n < |Chars(s)| ==> b < |s|)
  {
    match CharStart(s, n)
    case Some(b) => b
    case None => |s|
  }

  lemma {:induction false} FirstChar(s: seq<Byte>)
    requires Valid(s) && s != []
    ensures var w := Width(s[0]);
            && 0 < w <= |s| && Valid(s[w..]) && CharAtStart(s[..w]) && |s[..w]| == Width(s[..w][0])
            && Chars(s) == [s[..w]] + Chars(s[w..])
  {
  }

  lemma {:induction false} OffsetInTail(s: seq<Byte>, n: nat)
    requires Valid(s) && s != [] && 0 < n <= |Chars(s)|
    ensures Offset(s, n) == Width(s[0]) + Offset(s[Width(s[0])..], n - 1)
  {
  }

  lemma {:induction false} OffsetZero(s: seq<Byte>)
    requires Valid(s)
    ensures Offset(s, 0) == 0
  {
  }

  /** Inserting at the byte offset of a character position inserts at that position. */
  lemma {:induction false} InsertAtOffset(s: seq<Byte>, n: nat, c: Char)
    requires Valid(s) && n <= |Chars(s)|
    ensures var b := Offset(s, n);
            var t := s[..b] + c + s[b..];
            Valid(t) && Chars(t) == Chars(s)[..n] + [c] + Chars(s)[n..]
  {
    hide Offset, Chars, Valid, CharAtStart;
    var b := Offset(s, n);
    if n == 0 {
      OffsetZero(s);
      assert s[..0] + c + s[0..] == c + s;
      CharFirst(c, s);
      assert Chars(s)[..0] + [c] + Chars(s)[0..] == [c] + Chars(s);
    } else {
      var w := Width(s[0]);
      FirstChar(s);
      var head: Char, rest := s[..w], s[w..];
      InsertAtOffset(rest, n - 1, c);
      OffsetInTail(s, n);
      var d := Offset(rest, n - 1);
      CharFirst(head, rest[..d] + c + rest[d..]);
      SplitAfter(head, rest, d, d, c);
      assert head + rest == s;
      ListSplitAfter(head, Chars(rest), n - 1, n - 1, [c]);
    }
  }

  // An edit behind a prefix is the prefix with the edit behind it.
  lemma {:induction false} SplitAfter(head: seq<Byte>, rest: seq<Byte>, d: nat, e: nat, mid: seq<Byte>)
    requires d <= e <= |rest|
    ensures (head + rest)[..|head| + d] + mid + (head + rest)[|head| + e..] == head + (rest[..d] + mid + rest[e..])
  {
  }

  lemma {:induction false} ListSplitAfter(head: Char, rest: seq<Char>, d: nat, e: nat, mid: seq<Char>)
    requires d <= e <= |rest|
    ensures ([head] + rest)[..d + 1] + mid + ([head] + rest)[e + 1..] == [head] + (rest[..d] + mid + rest[e..])
  {
  }

  /** Draining the bytes of the character at a position removes that character. */
  lemma {:induction false} DrainAtOffset(s: seq<Byte>, n: nat)
    requires Valid(s) && n < |Chars(s)|
    ensures var b := Offset(s, n);
            && 0 < Width(s[b]) <= |s| - b
            && var t := s[..b] + [] + s[b + Width(s[b])..];
               Valid(t) && Chars(t) == Chars(s)[..n] + [] + Chars(s)[n + 1..]
  {
    hide Offset, Chars, Valid, CharAtStart;
    var b := Offset(s, n);
    assert s != [] by { NoChars(); }
    var w := Width(s[0]);
    FirstChar(s);
    var head: Char, rest := s[..w], s[w..];
    if n == 0 {
      OffsetZero(s);
      assert s[..0] + [] + s[w..] == rest;
      assert Chars(s)[..0] + [] + Chars(s)[1..] == Chars(rest);
    } else {
      DrainAtOffset(rest, n - 1);
      OffsetInTail(s, n);
      var d := Offset(rest, n - 1);
      assert rest[d] == s[b];
      var e := d + Width(rest[d]);
      CharFirst(head, rest[..d] + [] + rest[e..]);
      SplitAfter(head, rest, d, e, []);
      assert head + rest == s;
      ListSplitAfter(head, Chars(rest), n - 1, n, []);
    }
  }

  lemma {:induction false} NoChars()
    ensures Valid([]) && Chars([]) == []
  {
  }

  // ---------------------------------------------------------------- jumping over words

  function SkipWord(cs: seq<Char>, p: nat): (q: nat)
    requires p <= |cs|
    ensures p <= q <= |cs|
    ensures (forall k | p <= k < q :: cs[k] != SPACE) && (q < |cs| ==> cs[q] == SPACE)
    decreases |cs| - p
  {
    if p < |cs| && cs[p] != SPACE then SkipWord(cs, p + 1) else p
  }

  function SkipSpaces(cs: seq<Char>, p: nat): (q: nat)
    requires p <= |cs|
    ensures p <= q <= |cs|
    ensures (forall k | p <= k < q :: cs[k] == SPACE) && (q < |cs| ==> cs[q] != SPACE)
    decreases |cs| - p
  {
    if p < |cs| && cs[p] == SPACE then SkipSpaces(cs, p + 1) else p
  }

  function BackOverSpaces(cs: seq<Char>, p: nat): (q: nat)
    requires p <= |cs|
    ensures q <= p
    ensures (forall k | q <= k < p :: cs[k] == SPACE) && (q > 0 ==> cs[q - 1] != SPACE)
  {
    if p > 0 && cs[p - 1] == SPACE then BackOverSpaces(cs, p - 1) else p
  }

  function BackOverWord(cs: seq<Char>, p: nat): (q: nat)
    requires p <= |cs|
    ensures q <= p
    ensures (forall k | q <= k < p :: cs[k] != SPACE) && (q > 0 ==> cs[q - 1] == SPACE)
  {
    if p > 0 && cs[p - 1] != SPACE then BackOverWord(cs, p - 1) else p
  }

  function WordRight(cs: seq<Char>, p: nat): (q: nat)
    requires p <= |cs|
    ensures p <= q <= |cs|
  {
    SkipSpaces(cs, SkipWord(cs, p))
  }

  function WordLeft(cs: seq<Char>, p: nat): (q: nat)
    requires p <= |cs|
    ensures q <= p
  {
    BackOverWord(cs, BackOverSpaces(cs, p))
  }

  predicate WordStart(cs: seq<Char>, p: nat) {
    p < |cs| && cs[p] != SPACE && (p > 0 ==> cs[p - 1] == SPACE)
  }

  /** Ctrl+Right then Ctrl+Left comes back exactly to the start of the line and of words. */
  lemma {:induction false} WordJumpReturnsIff(cs: seq<Char>, p: nat)
    requires p <= |cs|
    ensures WordLeft(cs, WordRight(cs, p)) == p <==> p == 0 || WordStart(cs, p)
  {
    var e := SkipWord(cs, p);
    var q := SkipSpaces(cs, e);
    var b := BackOverSpaces(cs, q);
    if p < e {
      assert b == e by {
        assert cs[e - 1] != SPACE;
      }
    }
  }

  method JumpRight(cs: seq<Char>, from: nat) returns (p: nat)
    requires from <= |cs|
    ensures p == WordRight(cs, from)
  {
    p := from;
    while p < |cs| && cs[p] != SPACE
      invariant p <= |cs| && SkipWord(cs, p) == SkipWord(cs, from)
    {
      p := p + 1;
    }
    while p < |cs| && cs[p] == SPACE
      invariant p <= |cs| && SkipSpaces(cs, p) == WordRight(cs, from)
    {
      p := p + 1;
    }
  }

  method JumpLeft(cs: seq<Char>, from: nat) returns (p: nat)
    requires from <= |cs|
    ensures p == WordLeft(cs, from)
  {
    p := from;
    while p > 0 && cs[p - 1] == SPACE
      invariant p <= |cs| && BackOverSpaces(cs, p) == BackOverSpaces(cs, from)
    {
      p := p - 1;
    }
    while p > 0 && cs[p - 1] != SPACE
      invariant p <= |cs| && BackOverWord(cs, p) == WordLeft(cs, from)
    {
      p := p - 1;
    }
  }
}
