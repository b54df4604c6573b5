/** Byte strings with the shape of UTF-8: a lead byte fixes the width of a character and
    the remaining bytes of the character are continuation bytes. Overlong forms and
    surrogates are not excluded, so every string of the program is `Valid` here. */
module Utf8 {
  newtype Byte = x: int | 0 <= x < 256

  predicate IsCont(b: Byte) {
    0x80 <= b < 0xC0
  }

  /** The number of bytes of the character that starts with `b`; 0 if none does. */
  function Width(b: Byte): nat {
    if b < 0x80 then 1
    else if b < 0xC0 then 0
    else if b < 0xE0 then 2
    else if b < 0xF0 then 3
    else if b < 0xF8 then 4
    else 0
  }

  predicate CharAtStart(s: seq<Byte>) {
    && s != []
    && 0 < Width(s[0]) <= |s|
    && forall k | 1 <= k < Width(s[0]) :: IsCont(s[k])
  }

  predicate Valid(s: seq<Byte>) {
    s == [] || (CharAtStart(s) && Valid(s[Width(s[0])..]))
  }

  predicate Boundary(s: seq<Byte>, i: nat)
    requires i <= |s|
  {
    i == 0 || i == |s| || !IsCont(s[i])
  }

  lemma {:induction false} ValidConcat(a: seq<Byte>, b: seq<Byte>)
    requires Valid(a) && Valid(b)
    ensures Valid(a + b)
  {
    if a == [] {
      assert a + b == b;
    } else {
      var w := Width(a[0]);
      ValidConcat(a[w..], b);
      assert (a + b)[w..] == a[w..] + b;
    }
  }

  lemma {:induction false} ValidSplit(s: seq<Byte>, i: nat)
    requires Valid(s) && i <= |s| && Boundary(s, i)
    ensures Valid(s[..i]) && Valid(s[i..])
  {
    if i == 0 {
      assert s[i..] == s;
    } else {
      var w := Width(s[0]);
      assert w <= i;
      ValidSplit(s[w..], i - w);
      assert s[w..][..i - w] == s[..i][w..];
      assert s[w..][i - w..] == s[i..];
    }
  }

  /** A character has at most three continuation bytes, so stepping back from any offset
      meets a character boundary within three steps. */
  lemma {:induction false} FourBytesHoldALead(s: seq<Byte>, i: nat)
    requires Valid(s) && i + 4 <= |s|
    ensures exists k :: i <= k < i + 4 && !IsCont(s[k])
  {
    var w := Width(s[0]);
    if w <= i {
      FourBytesHoldALead(s[w..], i - w);
      var k :| i - w <= k < i - w + 4 && !IsCont(s[w..][k]);
      assert !IsCont(s[k + w]);
    } else if i == 0 {
      assert !IsCont(s[0]);
    } else {
      assert !IsCont(s[w..][0]);
      assert !IsCont(s[w]);
    }
  }

  /** A whole-character prefix of a string ends on a character boundary of that string. */
  lemma {:induction false} PrefixEndsOnBoundary(m: seq<Byte>, s: seq<Byte>)
    requires Valid(m) && Valid(s) && m <= s
    ensures Boundary(s, |m|)
  {
    if m != [] {
      var w := Width(m[0]);
      assert m[w..] <= s[w..];
      PrefixEndsOnBoundary(m[w..], s[w..]);
      if |m| < |s| {
        assert s[w..][|m| - w] == s[|m|];
        if |m| == w {
          assert s[w..] != [];
        }
      }
    }
  }
}
