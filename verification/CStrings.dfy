/** The functions of the C library that the driver scans text with: strchr, strrchr and atoi. */
module CStrings {
  import opened Bytes

  const MINUS: byte := 45
  const PLUS: byte := 43

  /** The first position of c, or the length. */
  function IndexOf(s: bytes, c: byte): (i: nat)
    ensures i <= |s| && (i < |s| ==> s[i] == c) && c !in s[..i]
  {
    if s == [] || s[0] == c then 0
    else
      assert s[..1 + IndexOf(s[1..], c)] == [s[0]] + s[1..][..IndexOf(s[1..], c)];
      1 + IndexOf(s[1..], c)
  }

  lemma IndexOfUnique(s: bytes, c: byte, i: nat)
    requires i <= |s| && (i < |s| ==> s[i] == c) && c !in s[..i]
    ensures IndexOf(s, c) == i
  {
    hide IndexOf;
  }

  /** strchr from position `from` on: the position found, or the end. */
  method StrChr(s: bytes, from: nat, c: byte) returns (i: nat)
    requires from <= |s|
    ensures i == from + IndexOf(s[from..], c)
  {
    i := from;
    while i < |s| && s[i] != c
      invariant from <= i <= |s| && c !in s[from..i]
    {
      assert s[from..i + 1] == s[from..i] + [s[i]];
      i := i + 1;
    }
    assert s[from..][..i - from] == s[from..i];
    IndexOfUnique(s[from..], c, i - from);
  }

  predicate IsSpace(b: byte) {
    b == 32 || 9 <= b <= 13
  }

  function DigitRun(s: bytes): (n: nat)
    ensures n <= |s| && AllDigits(s[..n]) && (n < |s| ==> !IsDigit(s[n]))
  {
    if s == [] || !IsDigit(s[0]) then 0
    else
      assert s[..1 + DigitRun(s[1..])] == [s[0]] + s[1..][..DigitRun(s[1..])];
      1 + DigitRun(s[1..])
  }

  function Unsigned(s: bytes): nat {
    DigitsValue(s[..DigitRun(s)])
  }

  /** atoi */
  function Atoi(s: bytes): int {
    if s == [] then 0
    else if IsSpace(s[0]) then Atoi(s[1..])
    else if s[0] == MINUS then -(Unsigned(s[1..]) as int)
    else if s[0] == PLUS then Unsigned(s[1..])
    else Unsigned(s)
  }

  lemma DigitRunUnique(s: bytes, n: nat)
    requires n <= |s| && AllDigits(s[..n]) && (n < |s| ==> !IsDigit(s[n]))
    ensures DigitRun(s) == n
  {
    hide DigitRun;
  }

  lemma UnsignedOfDigits(n: nat, rest: bytes)
    requires rest == [] || !IsDigit(rest[0])
    ensures Unsigned(Digits(n) + rest) == n
  {
    var s := Digits(n) + rest;
    assert s[..|Digits(n)|] == Digits(n);
    DigitRunUnique(s, |Digits(n)|);
    DigitsValueOfDigits(n);
  }

  /** A printed number is read back whatever other than a digit follows it. */
  lemma AtoiOfDec(n: int, rest: bytes)
    requires rest == [] || !IsDigit(rest[0])
    ensures Atoi(Dec(n) + rest) == n
  {
    hide Digits, DigitsValue, Unsigned, Atoi, DigitRun;
    if n < 0 {
      assert Dec(n) + rest == [MINUS] + (Digits(-n) + rest);
      UnsignedOfDigits(-n, rest);
      AtoiOfNegative(Digits(-n) + rest);
    } else {
      UnsignedOfDigits(n, rest);
      AtoiOfPositive(Digits(n) + rest);
    }
  }

  lemma AtoiOfNegative(s: bytes)
    ensures Atoi([MINUS] + s) == -(Unsigned(s) as int)
  {
    hide Unsigned;
    assert ([MINUS] + s)[1..] == s;
  }

  lemma AtoiOfPositive(s: bytes)
    requires s != [] && IsDigit(s[0])
    ensures Atoi(s) == Unsigned(s)
  {
  }

  lemma DecIsPlain(n: int, c: byte)
    requires !IsDigit(c) && c != MINUS
    ensures c !in Dec(n)
  {
  }

  lemma UpTo(a: bytes, c: byte, rest: bytes)
    requires c !in a
    ensures IndexOf(a + [c] + rest, c) == |a|
    ensures (a + [c] + rest)[|a| + 1..] == rest && (a + [c] + rest)[..|a|] == a
  {
    hide IndexOf;
    var s := a + [c] + rest;
    assert s[..|a|] == a;
    IndexOfUnique(s, c, |a|);
  }

  /** A slice before the first c does not contain c. */
  lemma BeforeFirst(s: bytes, c: byte, i: nat, j: nat)
    requires i <= j <= IndexOf(s, c)
    ensures c !in s[i..j]
  {
    hide IndexOf;
    var k := IndexOf(s, c);
    forall n | i <= n < j
      ensures s[n] != c
    {
      assert s[..k][n] == s[n];
    }
  }

  /** strrchr: the last position of c, or -1. */
  function LastIndexOf(s: bytes, c: byte): (i: int)
    ensures -1 <= i < |s| && (i >= 0 ==> s[i] == c) && (forall k :: i < k < |s| ==> s[k] != c)
  {
    if s == [] then -1 else if s[|s| - 1] == c then |s| - 1 else LastIndexOf(s[..|s| - 1], c)
  }

  lemma LastIndexUnique(a: bytes, c: byte, rest: bytes)
    requires c !in rest
    ensures LastIndexOf(a + [c] + rest, c) == |a|
  {
    hide LastIndexOf;
    assert (a + [c] + rest)[|a|] == c;
  }
}
