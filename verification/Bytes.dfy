/** Bytes, C strings, decimal numerals and little-endian words: what every component
    of the driver reads from and writes to memory. */
module Bytes {
  type byte = b: int | 0 <= b < 256
  type bytes = seq<byte>

  datatype Option<+T> = None | Some(value: T)

  /** Success carries a value; failure carries the code of the exception thrown. */
  datatype Result<+T> = Ok(value: T) | Err(code: int) {
    predicate IsFailure() {
      Err?
    }

    function PropagateFailure<U>(): Result<U>
      requires Err?
    {
      Err(code)
    }

    function Extract(): T
      requires Ok?
    {
      value
    }
  }

  const INT_MAX := 0x7FFF_FFFF
  const INT_MIN := -0x8000_0000
  const LONG_MAX := 0x7FFF_FFFF_FFFF_FFFF
  const LONG_MIN := -0x8000_0000_0000_0000
  const WORD32 := 0x1_0000_0000
  const WORD64 := 0x1_0000_0000_0000_0000

  predicate IsInt32(n: int) {
    INT_MIN <= n <= INT_MAX
  }

  predicate IsInt64(n: int) {
    LONG_MIN <= n <= LONG_MAX
  }

  /** The conversion to `int` that C applies to a wider integer. */
  function ToInt32(n: int): (r: int)
    ensures IsInt32(r)
    ensures IsInt32(n) ==> r == n
  {
    var u := n % WORD32;
    if u > INT_MAX then u - WORD32 else u
  }

  // --- little-endian words ---

  function Le32(n: int): (r: bytes)
    ensures |r| == 4
  {
    [n % 256, n / 256 % 256, n / 65536 % 256, n / 16777216 % 256]
  }

  function Le64(n: int): (r: bytes)
    ensures |r| == 8
  {
    Le32(n) + Le32(n / WORD32)
  }

  function U32(s: bytes): (u: int)
    requires |s| >= 4
    ensures 0 <= u < WORD32
  {
    s[0] as int + 256 * s[1] as int + 65536 * s[2] as int + 16777216 * s[3] as int
  }

  /** The `int32_t` at the start of s. */
  function S32(s: bytes): (n: int)
    requires |s| >= 4
    ensures IsInt32(n)
  {
    ToInt32(U32(s))
  }

  /** The 64 bits at the start of s, unsigned. */
  function U64(s: bytes): (n: int)
    requires |s| >= 8
    ensures 0 <= n < WORD64
  {
    U32(s) + WORD32 * U32(s[4..])
  }

  /** The `int64_t` at the start of s. */
  function S64(s: bytes): (n: int)
    requires |s| >= 8
    ensures IsInt64(n)
  {
    U32(s) + WORD32 * S32(s[4..])
  }

  lemma U32OfLe32(n: int, t: bytes)
    ensures U32(Le32(n) + t) == n % WORD32
    ensures S32(Le32(n) + t) == ToInt32(n)
  {
    var a, b, c := n / 256, n / 65536, n / 16777216;
    assert a / 256 == b && b / 256 == c && n == 256 * a + n % 256;
    assert (Le32(n) + t)[0] == n % 256 && (Le32(n) + t)[1] == a % 256;
    assert (Le32(n) + t)[2] == b % 256 && (Le32(n) + t)[3] == c % 256;
  }

  lemma Le64Halves(n: int, t: bytes)
    ensures var s := Le64(n) + t;
      U32(s) == n % WORD32 && U32(s[4..]) == n / WORD32 % WORD32 && S32(s[4..]) == ToInt32(n / WORD32)
  {
    var hi := n / WORD32;
    assert Le64(n) + t == Le32(n) + (Le32(hi) + t);
    assert (Le64(n) + t)[4..] == Le32(hi) + t;
    U32OfLe32(n, Le32(hi) + t);
    U32OfLe32(hi, t);
  }

  lemma S64OfLe64(n: int, t: bytes)
    requires IsInt64(n)
    ensures S64(Le64(n) + t) == n
  {
    Le64Halves(n, t);
  }

  lemma U64OfLe64(n: int, t: bytes)
    requires 0 <= n < WORD64
    ensures U64(Le64(n) + t) == n
  {
    Le64Halves(n, t);
    assert 0 <= n / WORD32 < WORD32;
  }

  // --- concatenation ---

  lemma Assoc(a: bytes, b: bytes, c: bytes)
    ensures a + b + c == a + (b + c)
  {
  }

  lemma Assoc4(a: bytes, b: bytes, c: bytes, d: bytes)
    ensures a + b + c + d == a + (b + c + d)
    ensures a + b + c + d == a + b + (c + d)
    ensures a + b + c + d == a + (b + (c + d))
  {
    Assoc(a, b, c);
    Assoc(a + b, c, d);
    Assoc(a, b + c, d);
    Assoc(b, c, d);
  }

  lemma Split(a: bytes, t: bytes)
    ensures (a + t)[..|a|] == a && (a + t)[|a|..] == t
  {
  }

  lemma Split3(a: bytes, b: bytes, c: bytes, t: bytes)
    ensures var w := a + b + c + t; w[|a|..] == b + (c + t) && w[|a| + |b|..] == c + t
  {
    Assoc4(a, b, c, t);
    Split(a, b + (c + t));
    Split(a + b, c + t);
  }

  // --- C strings ---

  /** strlen: the distance to the first NUL, or to the end of the memory that may be read. */
  function StrLen(s: bytes): (n: nat)
    ensures n <= |s|
    ensures n < |s| ==> s[n] == 0
    ensures forall i :: 0 <= i < n ==> s[i] != 0
  {
    if s == [] || s[0] == 0 then 0 else 1 + StrLen(s[1..])
  }

  predicate NulFree(s: bytes) {
    forall i :: 0 <= i < |s| ==> s[i] != 0
  }

  lemma StrLenUnique(s: bytes, n: nat)
    requires n <= |s|
    requires forall i :: 0 <= i < n ==> s[i] != 0
    requires n < |s| ==> s[n] == 0
    ensures StrLen(s) == n
  {
  }

  lemma StrLenOfCString(s: bytes, t: bytes)
    requires NulFree(s)
    ensures StrLen(s + [0] + t) == |s|
  {
    StrLenUnique(s + [0] + t, |s|);
  }

  /** A string literal of the program as bytes. */
  function Ascii(s: string): (r: bytes)
    ensures |r| == |s|
    ensures forall i :: 0 <= i < |s| ==> r[i] == s[i] as int % 256
  {
    seq(|s|, i requires 0 <= i < |s| => s[i] as int % 256)
  }

  /** A part of a part. */
  lemma SliceOfSlice(s: bytes, a: nat, b: nat, from: nat, k: nat)
    requires a + from + k <= b <= |s|
    ensures s[a..b][from..from + k] == s[a + from..a + from + k]
  {
    var x, whole := s[a..b][from..from + k], s[a + from..a + from + k];
    assert |x| == k == |whole|;
    forall i | 0 <= i < k
      ensures x[i] == whole[i]
    {
      assert s[a..b][from + i] == s[a + from + i];
    }
  }

  lemma SliceOfPrefix(s: bytes, e: nat, from: nat, k: nat)
    requires from + k <= e <= |s|
    ensures s[..e][from..from + k] == s[from..][..k]
  {
    var x, y := s[..e][from..from + k], s[from..][..k];
    assert |x| == k == |y|;
    forall i | 0 <= i < k
      ensures x[i] == y[i]
    {
      assert s[..e][from + i] == s[from + i] == s[from..][i];
    }
  }

  // --- decimal numerals ---

  predicate IsDigit(b: byte) {
    48 <= b <= 57
  }

  predicate AllDigits(s: bytes) {
    forall i :: 0 <= i < |s| ==> IsDigit(s[i])
  }

  /** The digits of n, as sprintf's %d writes a non-negative number. */
  function Digits(n: nat): (r: bytes)
    ensures |r| > 0 && AllDigits(r)
    ensures r[0] == 48 ==> n == 0 && |r| == 1
  {
    if n < 10 then [48 + n] else Digits(n / 10) + [48 + n % 10]
  }

  function Dec(n: int): (r: bytes)
    ensures |r| > 0 && NulFree(r)
  {
    if n < 0 then [45] + Digits(-n) else Digits(n)
  }

  /** The number that a run of digits denotes. */
  function DigitsValue(s: bytes): (n: nat)
    requires AllDigits(s)
  {
    if s == [] then 0 else 10 * DigitsValue(s[..|s| - 1]) + (s[|s| - 1] - 48)
  }

  lemma {:induction false} DigitsValueOfDigits(n: nat)
    ensures DigitsValue(Digits(n)) == n
  {
    if n >= 10 {
      DigitsValueOfDigits(n / 10);
      assert Digits(n)[..|Digits(n)| - 1] == Digits(n / 10);
    }
  }
}
