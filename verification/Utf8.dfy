/** Which strings the encoder takes for UTF-8, stated apart from the scan that finds out. */
module Utf8s {
  import opened Bytes
  import opened Values
  import opened Bson

  /** The one-bits in front of the first zero-bit, of the lowest `width` bits of b. */
  function LeadingOnes(b: nat, width: nat): (n: nat)
    ensures n <= width
  {
    if width == 0 || b / Power2(width - 1) % 2 == 0 then 0 else 1 + LeadingOnes(b, width - 1)
  }

  function Power2(k: nat): (p: nat)
    ensures p > 0
  {
    if k == 0 then 1 else 2 * Power2(k - 1)
  }

  /**
   * One sequence of section 3 of RFC 3629: a byte below 128 alone, or a lead byte whose two to four leading one-bits
   * count the bytes of the sequence, all others of which start with a single one-bit.
   */
  predicate IsSequence(p: bytes) {
    && p != []
    && (if |p| == 1 then LeadingOnes(p[0], 8) == 0 else |p| <= 4 && LeadingOnes(p[0], 8) == |p|)
    && forall i :: 1 <= i < |p| ==> LeadingOnes(p[i], 8) == 1
  }

  function Concatenated(parts: seq<bytes>): bytes {
    if parts == [] then [] else parts[0] + Concatenated(parts[1..])
  }

  ghost predicate IsSplit(s: bytes, parts: seq<bytes>) {
    Concatenated(parts) == s && forall i :: 0 <= i < |parts| ==> IsSequence(parts[i])
  }

  lemma OnesOfByte(b: byte)
    ensures if b < 128 then LeadingOnes(b, 8) == 0
            else if b < 192 then LeadingOnes(b, 8) == 1
            else if b < 224 then LeadingOnes(b, 8) == 2
            else if b < 240 then LeadingOnes(b, 8) == 3
            else if b < 248 then LeadingOnes(b, 8) == 4
            else LeadingOnes(b, 8) > 4
  {
    assert Power2(2) == 4 && Power2(4) == 16 && Power2(6) == 64;
    assert Power2(3) == 8 && Power2(5) == 32 && Power2(7) == 128;
    assert LeadingOnes(b, 8) == if b / 128 % 2 == 0 then 0 else 1 + LeadingOnes(b, 7);
    assert LeadingOnes(b, 7) == if b / 64 % 2 == 0 then 0 else 1 + LeadingOnes(b, 6);
    assert LeadingOnes(b, 6) == if b / 32 % 2 == 0 then 0 else 1 + LeadingOnes(b, 5);
    assert LeadingOnes(b, 5) == if b / 16 % 2 == 0 then 0 else 1 + LeadingOnes(b, 4);
    assert LeadingOnes(b, 4) == if b / 8 % 2 == 0 then 0 else 1 + LeadingOnes(b, 3);
  }

  /** The sequence found at the front is one, and no other sequence is at the front. */
  lemma StepIsSequence(s: bytes)
    requires s != []
    ensures Utf8Step(s) > 0 ==> IsSequence(s[..Utf8Step(s)])
    ensures forall n :: 0 < n <= |s| && IsSequence(s[..n]) ==> n == Utf8Step(s)
  {
    hide LeadingOnes;
    forall b: byte
      ensures (LeadingOnes(b, 8) == 0 <==> b < 128) && (LeadingOnes(b, 8) == 1 <==> Continuation(b))
      ensures LeadingOnes(b, 8) == 2 <==> 192 <= b < 224
      ensures LeadingOnes(b, 8) == 3 <==> 224 <= b < 240
      ensures LeadingOnes(b, 8) == 4 <==> 240 <= b < 248
    {
      OnesOfByte(b);
    }
    forall n | 0 < n <= |s| && IsSequence(s[..n])
      ensures n == Utf8Step(s)
    {
      assert forall i :: 0 <= i < n ==> s[..n][i] == s[i];
    }
  }

  /** The encoder accepts a string exactly when it can be split into sequences. */
  lemma {:induction false} AcceptedSplits(s: bytes)
    ensures IsUtf8(s) <==> exists parts :: IsSplit(s, parts)
    decreases |s|
  {
    hide IsSequence, Utf8Step;
    if s == [] {
      assert IsSplit(s, []);
      return;
    }
    var n := Utf8Step(s);
    StepIsSequence(s);
    if IsUtf8(s) {
      AcceptedSplits(s[n..]);
      var rest :| IsSplit(s[n..], rest);
      assert ([s[..n]] + rest)[1..] == rest && s == s[..n] + s[n..];
      assert IsSplit(s, [s[..n]] + rest);
    }
    if parts :| IsSplit(s, parts) {
      var first, rest := parts[0], Concatenated(parts[1..]);
      assert s[..|first|] == first && s[|first|..] == rest;
      NotEmpty(first);
      assert IsSplit(rest, parts[1..]);
      AcceptedSplits(rest);
    }
  }

  lemma NotEmpty(p: bytes)
    requires IsSequence(p)
    ensures p != []
  {
  }

  // --- text ---

  const LAST_CODE_POINT := 0x10FFFF

  /** The encoding of a code point by the table of section 3 of RFC 3629, six bits to a continuation byte. */
  function EncodeCodePoint(n: nat): bytes
    requires n <= LAST_CODE_POINT
  {
    if n < 0x80 then [n]
    else if n < 0x800 then [192 + n / 64, 128 + n % 64]
    else if n < 0x1_0000 then [224 + n / 4096, 128 + n / 64 % 64, 128 + n % 64]
    else [240 + n / 262144, 128 + n / 4096 % 64, 128 + n / 64 % 64, 128 + n % 64]
  }

  function EncodeText(points: seq<nat>): bytes
    requires forall i :: 0 <= i < |points| ==> points[i] <= LAST_CODE_POINT
  {
    if points == [] then [] else EncodeCodePoint(points[0]) + EncodeText(points[1..])
  }

  lemma StepOfPrefix(a: bytes, b: bytes)
    requires a != [] && Utf8Step(a) > 0
    ensures Utf8Step(a + b) == Utf8Step(a)
  {
    assert forall i :: 0 <= i < |a| ==> (a + b)[i] == a[i];
  }

  lemma {:induction false} Utf8Append(a: bytes, b: bytes)
    requires IsUtf8(a) && IsUtf8(b)
    ensures IsUtf8(a + b)
    decreases |a|
  {
    hide Utf8Step;
    if a == [] {
      assert a + b == b;
    } else {
      var n := Utf8Step(a);
      Utf8Append(a[n..], b);
      StepOfPrefix(a, b);
      assert (a + b)[n..] == a[n..] + b;
    }
  }

  lemma CodePointIsUtf8(n: nat)
    requires n <= LAST_CODE_POINT
    ensures IsUtf8(EncodeCodePoint(n))
  {
    var s := EncodeCodePoint(n);
    assert Utf8Step(s) == |s|;
    assert s[|s|..] == [];
  }

  /** Text of any code points is written as a string. */
  lemma {:induction false} TextIsWritten(points: seq<nat>, cfg: Config)
    requires forall i :: 0 <= i < |points| ==> points[i] <= LAST_CODE_POINT
    ensures IsUtf8(EncodeText(points)) && ValueError(Str(EncodeText(points)), cfg) == None
  {
    if points != [] {
      CodePointIsUtf8(points[0]);
      TextIsWritten(points[1..], cfg);
      Utf8Append(EncodeCodePoint(points[0]), EncodeText(points[1..]));
    }
  }
}
