/** The "document" production of BSON 1.1 read as a statement about bytes, independent of any
    reader, and the proof that the decoder accepts nothing else. */
module BsonGrammar {
  import opened Bytes
  import opened Values
  import opened Bson
  import opened BsonDecode

  /** A length word that counts the string and its NUL, the string, the NUL. */
  ghost predicate IsString(v: bytes) {
    |v| >= 5 && S32(v) == |v| - 4 && v[|v| - 1] == 0
  }

  /** Two C strings side by side, the first of length m. */
  ghost predicate IsCStringPair(v: bytes, m: nat) {
    m + 1 < |v| && NulFree(v[..m]) && v[m] == 0 && NulFree(v[m + 1..|v| - 1]) && v[|v| - 1] == 0
  }

  /**
   * v is exactly one value of type tag, under the type numbers of BSON 1.1; the size word of a code with scope is not
   * looked at.  `strict` asks binary data of subtype 2 for the length that it repeats.
   */
  ghost predicate IsValue(tag: byte, v: bytes, strict: bool := false)
    decreases |v|, 1
  {
    if tag == 0x01 || tag == 0x09 || tag == 0x11 || tag == 0x12 then |v| == 8
    else if tag == 0x02 || tag == 0x0D || tag == 0x0E then IsString(v)
    else if tag == 0x03 || tag == 0x04 then IsDocument(v, strict)
    else if tag == 0x05 then IsBinary(v, strict)
    else if tag == 0x06 || tag == 0x0A || tag == 0xFF || tag == 0x7F then v == []
    else if tag == 0x07 then |v| == 12
    else if tag == 0x08 then |v| == 1
    else if tag == 0x0B then IsCStringPair(v, StrLen(v))
    else if tag == 0x0C then |v| > 12 && IsString(v[..|v| - 12])
    else if tag == 0x10 then |v| == 4
    else if tag == 0x0F then
      |v| >= 8 && 0 < S32(v[4..]) < |v| - 8 &&
      var k := 8 + S32(v[4..]);
      IsString(v[4..k]) && IsDocument(v[k..], strict)
    else false
  }

  /** Length, subtype, data; a UUID has 16 bytes. */
  ghost predicate IsBinary(v: bytes, strict: bool) {
    |v| >= 5 && S32(v) == |v| - 5 && (v[4] == 4 ==> |v| == 21) && (strict && v[4] == 2 ==> |v| >= 9)
  }

  /** type byte, name, NUL, value */
  ghost predicate IsElement(e: bytes, strict: bool := false)
    decreases |e|, 0
  {
    e != [] && e[0] != 0 && StrLen(e[1..]) + 2 <= |e| && IsValue(e[0], e[StrLen(e[1..]) + 2..], strict)
  }

  /** Elements side by side, then the terminator and nothing after it. */
  ghost predicate IsElementList(s: bytes, strict: bool := false)
    decreases |s|, 1
  {
    if |s| <= 1 then s == [0]
    else exists n: nat :: SplitsAt(s, n) && IsElement(s[..n], strict) && IsElementList(s[n..], strict)
  }

  ghost predicate SplitsAt(s: bytes, n: nat) {
    0 < n < |s|
  }

  /** The length word counts every byte of the document. */
  ghost predicate IsDocument(b: bytes, strict: bool := false)
    decreases |b|, 0
  {
    |b| >= 5 && S32(b) == |b| && IsElementList(b[4..], strict)
  }

  lemma StringIsString(s: bytes, lenError: int)
    requires DecodeString(s, lenError).Ok?
    ensures IsString(s[..DecodeString(s, lenError).value.1])
  {
    var k := DecodeString(s, lenError).value.1;
    S32OfPrefix(s, k);
  }

  lemma S32OfPrefix(s: bytes, n: nat)
    requires 4 <= n <= |s|
    ensures S32(s[..n]) == S32(s)
  {
  }

  lemma RegexIsPair(s: bytes)
    requires DecodeRegex(s).Ok?
    ensures var v := s[..DecodeRegex(s).value.1]; IsCStringPair(v, StrLen(v))
  {
    var n := StrLen(s);
    var m := StrLen(s[n + 1..]);
    var v := s[..n + m + 2];
    StrLenUnique(v, n);
    SliceOfPrefix(s, n + m + 2, n + 1, m);
  }

  lemma {:induction false} EmbeddedIsDocument(s: bytes, cfg: Config)
    requires DecodeEmbedded(s, cfg).Ok?
    ensures IsDocument(s[..DecodeEmbedded(s, cfg).value.1])
    decreases |s|, 0
  {
    DecodedIsDocument(s[..S32(s)], cfg);
  }

  lemma {:induction false} CodeIsValue(withScope: bool, s: bytes, cfg: Config)
    requires DecodeCode(withScope, s, cfg).Ok?
    ensures IsValue(if withScope then TAG_CODE else TAG_CODE_D, s[..DecodeCode(withScope, s, cfg).value.1])
    decreases |s|, 1
  {
    hide DecodeEmbedded, IsDocument;
    var at := if withScope then 4 else 0;
    var k := DecodeString(s[at..], 24).value.1;
    StringIsString(s[at..], 24);
    if withScope {
      var u := s[4 + k..];
      var m := DecodeEmbedded(u, cfg).value.1;
      EmbeddedIsDocument(u, cfg);
      var v := s[..4 + k + m];
      assert v[4..4 + k] == s[4..][..k];
      assert v[4 + k..] == u[..m];
      assert v[4..][..4] == s[4..][..4];
      S32OfPrefix(v[4..], 4);
      S32OfPrefix(s[4..], 4);
      assert 5 <= m by { DecodedSize(u, cfg); }
    }
  }

  lemma DecodedSize(s: bytes, cfg: Config)
    requires DecodeEmbedded(s, cfg).Ok?
    ensures DecodeEmbedded(s, cfg).value.1 >= 5
  {
  }

  lemma {:induction false} DecodedValueIsValue(tag: byte, s: bytes, cfg: Config)
    requires |s| >= 1 && DecodeValue(tag, s, cfg).Ok?
    ensures IsValue(tag, s[..DecodeValue(tag, s, cfg).value.1])
    decreases |s|, 2
  {
    hide DecodeEmbedded, DecodeCode, DecodeString, DecodeRegex, IsDocument, S64, U64;
    if tag == TAG_STRING || tag == TAG_SYMBOL {
      StringIsString(s, 21);
    } else if tag == TAG_OBJECT || tag == TAG_ARRAY {
      EmbeddedIsDocument(s, cfg);
    } else if tag == TAG_BINARY {
      S32OfPrefix(s, DecodeBinary(s).value.1);
    } else if tag == TAG_REGEX {
      RegexIsPair(s);
    } else if tag == TAG_CODE || tag == TAG_CODE_D {
      CodeIsValue(tag == TAG_CODE, s, cfg);
    } else if tag == TAG_DBPOINTER {
      StringIsString(s, 3);
      var k := DecodeString(s, 3).value.1;
      assert s[..k + OID_SIZE][..k] == s[..k];
    }
  }

  lemma {:induction false} DecodedElementIsElement(s: bytes, cfg: Config)
    requires |s| >= 1 && s[0] != 0 && DecodeElement(s, cfg).Ok?
    ensures IsElement(s[..DecodeElement(s, cfg).value.size])
    decreases |s|, 3
  {
    hide DecodeValue, IsValue;
    var e := DecodeElement(s, cfg).value;
    var v := s[..e.size];
    StrLenUnique(v[1..], e.at - 2);
    assert v[e.at..] == s[e.at..][..e.size - e.at];
    DecodedValueIsValue(s[0], s[e.at..], cfg);
  }

  lemma {:induction false} DecodedElemsAreElements(s: bytes, acc: Hash, cfg: Config)
    requires |s| >= 1 && DecodeElems(s, acc, cfg).Ok? && DecodeElems(s, acc, cfg).value.1 == []
    ensures IsElementList(s)
    decreases |s|, 4
  {
    hide DecodeElement, IsElement;
    if s[0] != 0 {
      var e := DecodeElement(s, cfg).value;
      DecodedElementIsElement(s, cfg);
      DecodedElemsAreElements(s[e.size..], SymtableUpdate(acc, e.name, e.val), cfg);
      assert SplitsAt(s, e.size);
    }
  }

  /** Success of the decoder on any bytes: every length word, at this level and in every embedded
      document and code scope, equals the bytes it spans. */
  lemma {:induction false} DecodedIsDocument(b: bytes, cfg: Config)
    requires DecodeDoc(b, cfg).Ok?
    ensures IsDocument(b)
    decreases |b|, 5
  {
    var rest := DecodeElems(b[4..S32(b)], Nil, cfg).value.1;
    assert b[4..S32(b)] == b[4..];
    DecodedElemsAreElements(b[4..], Nil, cfg);
  }

  // --- and it accepts all of it ---

  lemma StringDecodes(s: bytes, k: nat, lenError: int)
    requires k < |s| && IsString(s[..k])
    ensures DecodeString(s, lenError).Ok? && DecodeString(s, lenError).value.1 == k
  {
    S32OfPrefix(s, k);
  }

  lemma BinaryDecodes(s: bytes, k: nat)
    requires k < |s| && IsBinary(s[..k], true)
    ensures DecodeBinary(s).Ok? && DecodeBinary(s).value.1 == k
  {
    S32OfPrefix(s, k);
  }

  lemma RegexDecodes(s: bytes, k: nat)
    requires k < |s| && IsCStringPair(s[..k], StrLen(s[..k]))
    ensures DecodeRegex(s).Ok? && DecodeRegex(s).value.1 == k
  {
    hide StrLen;
    var n := StrLen(s[..k]);
    StrLenUnique(s, n);
    var rest, flags := s[n + 1..], s[..k][n + 1..k - 1];
    forall i | 0 <= i < |flags|
      ensures rest[i] != 0
    {
      assert rest[i] == flags[i];
    }
    StrLenUnique(rest, |flags|);
  }

  lemma {:induction false} EmbeddedDecodes(s: bytes, k: nat, cfg: Config)
    requires k < |s| && IsDocument(s[..k], true)
    ensures DecodeEmbedded(s, cfg).Ok? && DecodeEmbedded(s, cfg).value.1 == k
    decreases k, 6
  {
    hide IsElementList;
    S32OfPrefix(s, k);
    DocumentDecodes(s[..k], cfg);
  }

  lemma {:induction false} CodeDecodes(s: bytes, k: nat, cfg: Config)
    requires k < |s| && IsValue(0x0F, s[..k], true)
    ensures DecodeCode(true, s, cfg).Ok? && DecodeCode(true, s, cfg).value.1 == k
    decreases k, 7
  {
    hide IsDocument, DecodeEmbedded, DecodeString, IsString;
    var v := s[..k];
    var m := 4 + S32(v[4..]);
    assert v[4..4 + m] == s[4..][..m];
    StringDecodes(s[4..], m, 24);
    assert v[4 + m..] == s[4 + m..][..k - 4 - m];
    EmbeddedDecodes(s[4 + m..], k - 4 - m, cfg);
  }

  lemma PointerDecodes(s: bytes, k: nat)
    requires 12 < k < |s| && IsString(s[..k][..k - 12])
    ensures DecodeDbPointer(s).Ok? && DecodeDbPointer(s).value.1 == k
  {
    hide DecodeString, IsString;
    assert s[..k][..k - 12] == s[..k - 12];
    StringDecodes(s, k - 12, 3);
  }

  lemma {:induction false} ValueDecodes(tag: byte, s: bytes, k: nat, cfg: Config)
    requires k < |s| && IsValue(tag, s[..k], true)
    ensures DecodeValue(tag, s, cfg).Ok? && DecodeValue(tag, s, cfg).value.1 == k
    decreases k, 8
  {
    hide DecodeEmbedded, DecodeCode, DecodeString, DecodeRegex, DecodeBinary, DecodeDbPointer, IsDocument, IsString;
    hide S32, S64, U64, StrLen, IsBinary, IsCStringPair;
    if tag == 0x02 || tag == 0x0E {
      StringDecodes(s, k, 21);
    } else if tag == 0x03 || tag == 0x04 {
      EmbeddedDecodes(s, k, cfg);
    } else if tag == 0x05 {
      BinaryDecodes(s, k);
    } else if tag == 0x0B {
      RegexDecodes(s, k);
    } else if tag == 0x0C {
      PointerDecodes(s, k);
    } else if tag == 0x0D {
      PlainCodeDecodes(s, k, cfg);
    } else if tag == 0x0F {
      CodeDecodes(s, k, cfg);
    }
  }

  lemma PlainCodeDecodes(s: bytes, k: nat, cfg: Config)
    requires k < |s| && IsString(s[..k])
    ensures DecodeCode(false, s, cfg).Ok? && DecodeCode(false, s, cfg).value.1 == k
  {
    hide DecodeString, IsString;
    StringDecodes(s, k, 24);
    assert s[0..] == s;
  }

  lemma {:induction false} ElementDecodes(s: bytes, n: nat, cfg: Config)
    requires SplitsAt(s, n) && IsElement(s[..n], true)
    ensures s[0] != 0 && DecodeElement(s, cfg).Ok? && DecodeElement(s, cfg).value.size == n
    decreases n, 9
  {
    hide DecodeValue, IsValue, StrLen;
    var e := s[..n];
    var m := StrLen(e[1..]);
    assert forall i :: 0 <= i <= m ==> e[1..][i] == s[1..][i];
    StrLenUnique(s[1..], m);
    assert e[m + 2..] == s[m + 2..][..n - m - 2];
    ValueDecodes(s[0], s[m + 2..], n - m - 2, cfg);
  }

  lemma {:induction false} ElementsDecode(s: bytes, acc: Hash, cfg: Config)
    requires IsElementList(s, true)
    ensures |s| >= 1 && DecodeElems(s, acc, cfg).Ok? && DecodeElems(s, acc, cfg).value.1 == []
    decreases |s|, 4
  {
    hide DecodeElement, IsElement;
    if |s| > 1 {
      var n: nat :| SplitsAt(s, n) && IsElement(s[..n], true) && IsElementList(s[n..], true);
      ElementDecodes(s, n, cfg);
      var e := DecodeElement(s, cfg).value;
      ElementsDecode(s[n..], SymtableUpdate(acc, e.name, e.val), cfg);
    }
  }

  /** Why `strict` asks for it: that length is looked for also when the data is too short, and may not be there. */
  lemma ShortOldBinary(s: bytes)
    requires 6 <= |s| < 10 && s[4] == 2
    ensures DecodeBinary(s) == Err(21)
  {
  }

  /** Every document of the grammar is decoded, whichever types are in it. */
  lemma {:induction false} DocumentDecodes(b: bytes, cfg: Config)
    requires IsDocument(b, true)
    ensures DecodeDoc(b, cfg).Ok?
    decreases |b|, 5
  {
    assert b[4..S32(b)] == b[4..];
    ElementsDecode(b[4..], Nil, cfg);
  }
}
