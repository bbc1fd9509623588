/** What the bytes of a document stand for, type number by type number, and that the decoder reads just that. */
module BsonMeaning {
  import opened Bytes
  import opened Values
  import opened Bson
  import opened BsonDecode
  import opened BsonGrammar
  import opened BsonRoundTrip

  // --- tables ---

  /** The last value under that key. */
  function LastOf(pairs: seq<(bytes, Zval)>, k: Key): Option<Zval> {
    if pairs == [] then None
    else
      var (name, value) := pairs[|pairs| - 1];
      if SymKey(name) == k then Some(value) else LastOf(pairs[..|pairs| - 1], k)
  }

  /** The keys in the order in which they first occur. */
  function FirstKeys(pairs: seq<(bytes, Zval)>): seq<Key> {
    if pairs == [] then []
    else
      var keys, k := FirstKeys(pairs[..|pairs| - 1]), SymKey(pairs[|pairs| - 1].0);
      if k in keys then keys else keys + [k]
  }

  function Keys(h: Hash): seq<Key> {
    match h
    case Nil => []
    case Entry(k, _, rest) => [k] + Keys(rest)
  }

  /** The PHP array with these pairs: of equal names the first gives the place and the last the value. */
  ghost predicate IsTable(h: Hash, pairs: seq<(bytes, Zval)>) {
    Keys(h) == FirstKeys(pairs) && forall k :: Find(h, k) == LastOf(pairs, k)
  }

  lemma {:induction false} KeysUpdated(h: Hash, k: Key, v: Zval)
    ensures Keys(Update(h, k, v)) == if k in Keys(h) then Keys(h) else Keys(h) + [k]
    ensures forall j :: Find(Update(h, k, v), j) == if j == k then Some(v) else Find(h, j)
  {
    if h.Entry? {
      KeysUpdated(h.rest, k, v);
    }
  }

  lemma OnePairMore(h: Hash, pairs: seq<(bytes, Zval)>, name: bytes, v: Zval)
    requires IsTable(h, pairs)
    ensures IsTable(SymtableUpdate(h, name, v), pairs + [(name, v)])
  {
    hide SymKey;
    KeysUpdated(h, SymKey(name), v);
    assert (pairs + [(name, v)])[..|pairs|] == pairs;
  }

  // --- values ---

  /** A 64-bit integer, as the settings want it. */
  ghost predicate IsLong(z: Zval, n: int, cfg: Config) {
    if cfg.longAsObject then z.Int64? && z.v == n else z.Long? && z.n == n
  }

  /** Binary data of the outdated subtype 2 may repeat its length. */
  ghost predicate MeansBinary(v: bytes, z: Zval)
    requires |v| >= 5
  {
    && z.Bin? && z.subtype == v[4]
    && z.data == if v[4] == 2 && |v| >= 9 && S32(v[5..]) == |v| - 9 then v[9..] else v[5..]
  }

  /** The namespace and the id of a DBPointer. */
  ghost predicate IsReference(v: bytes, z: Zval)
    requires |v| > 16
  {
    z == Arr(Entry(StrKey(Ascii("$ref")), Str(v[4..|v| - 13]), Entry(StrKey(Ascii("$id")), Oid(v[|v| - 12..]), Nil)))
  }

  /** What a value of that type stands for. */
  ghost predicate Means(tag: byte, v: bytes, z: Zval, cfg: Config)
    requires IsValue(tag, v)
    decreases |v|, 2
  {
    if tag == 0x01 then z.Double? && z.bits == U64(v)
    else if tag == 0x02 || tag == 0x0E then z == Str(v[4..|v| - 1])
    else if tag == 0x03 || tag == 0x04 then z.Arr? && MeansTable(v, z.elems, cfg)
    else if tag == 0x05 then MeansBinary(v, z)
    else if tag == 0x06 || tag == 0x0A then z == Null
    else if tag == 0x07 then z.Oid? && z.id == v
    else if tag == 0x08 then z == Bool(v[0] != 0)
    else if tag == 0x09 then z.Date? && z.ms == S64(v)
    else if tag == 0x0B then z == Regex(v[..StrLen(v)], v[StrLen(v) + 1..|v| - 1])
    else if tag == 0x0C then IsReference(v, z)
    else if tag == 0x0D then z == Code(v[4..|v| - 1], Nil)
    else if tag == 0x0F then
      var k := 8 + S32(v[4..]);
      z.Code? && z.code == v[8..k - 1] && MeansTable(v[k..], z.scope, cfg)
    else if tag == 0x10 then z.Long? && z.n == S32(v)
    else if tag == 0x11 then z == Timestamp(S32(v[4..]), S32(v))
    else if tag == 0x12 then IsLong(z, S64(v), cfg)
    else if tag == 0xFF then z == MinKey
    else z == MaxKey
  }

  /** An element of that name and value. */
  ghost predicate MeansPair(e: bytes, pair: (bytes, Zval), cfg: Config)
    decreases |e|, 0
  {
    && IsElement(e)
    && var n := StrLen(e[1..]);
       pair.0 == e[1..n + 1] && Means(e[0], e[n + 2..], pair.1, cfg)
  }

  /** Elements of those names and values side by side, then the terminator. */
  ghost predicate MeansPairs(s: bytes, pairs: seq<(bytes, Zval)>, cfg: Config)
    decreases |s|, 1
  {
    if pairs == [] then s == [0]
    else exists n: nat :: SplitsAt(s, n) && MeansPair(s[..n], pairs[0], cfg) && MeansPairs(s[n..], pairs[1..], cfg)
  }

  ghost predicate MeansTable(b: bytes, h: Hash, cfg: Config)
    decreases |b|, 0
  {
    |b| >= 5 && S32(b) == |b| && exists pairs :: MeansPairs(b[4..], pairs, cfg) && IsTable(h, pairs)
  }

  // --- the decoder ---

  lemma StringMeans(s: bytes, lenError: int)
    requires DecodeString(s, lenError).Ok?
    ensures var k := DecodeString(s, lenError).value.1;
            IsString(s[..k]) && DecodeString(s, lenError).value.0 == s[..k][4..k - 1] == s[4..k - 1]
  {
    StringIsString(s, lenError);
  }

  lemma {:induction false} EmbeddedMeans(s: bytes, cfg: Config)
    requires DecodeEmbedded(s, cfg).Ok?
    ensures MeansTable(s[..DecodeEmbedded(s, cfg).value.1], DecodeEmbedded(s, cfg).value.0, cfg)
    decreases |s|, 0
  {
    DecodedMeans(s[..S32(s)], cfg);
  }

  /** The parts of a code with scope. */
  lemma CodeSlices(s: bytes, k: nat, m: nat)
    requires 5 <= k && 5 <= m && 4 + k + m <= |s|
    ensures var v := s[..4 + k + m];
            && S32(v[4..]) == S32(s[4..]) && v[4 + k..] == s[4 + k..][..m]
            && v[8..4 + k - 1] == s[4..][4..k - 1]
  {
    hide S32;
    var v := s[..4 + k + m];
    assert v[4..][..4] == s[4..][..4];
    S32OfPrefix(v[4..], 4);
    S32OfPrefix(s[4..], 4);
    SliceOfSlice(s, 4, |s|, 4, k - 5);
    assert s[4..|s|] == s[4..];
  }

  lemma {:induction false} CodeMeans(withScope: bool, s: bytes, cfg: Config)
    requires DecodeCode(withScope, s, cfg).Ok?
    ensures var (z, k) := DecodeCode(withScope, s, cfg).value;
            IsValue(if withScope then 0x0F else 0x0D, s[..k]) && Means(if withScope then 0x0F else 0x0D, s[..k], z, cfg)
    decreases |s|, 1
  {
    hide DecodeEmbedded, IsDocument, MeansTable, S32, IsString;
    CodeIsValue(withScope, s, cfg);
    if withScope {
      StringMeans(s[4..], 24);
      StringLength(s[4..], 24);
      var k := DecodeString(s[4..], 24).value.1;
      var u := s[4 + k..];
      var m := DecodeEmbedded(u, cfg).value.1;
      EmbeddedMeans(u, cfg);
      DecodedSize(u, cfg);
      CodeSlices(s, k, m);
    } else {
      StringMeans(s, 24);
      assert s[0..] == s;
    }
  }

  lemma StringLength(s: bytes, lenError: int)
    requires DecodeString(s, lenError).Ok?
    ensures DecodeString(s, lenError).value.1 == 4 + S32(s)
  {
  }

  lemma BinaryMeans(s: bytes)
    requires DecodeBinary(s).Ok?
    ensures var (z, k) := DecodeBinary(s).value; k >= 5 && MeansBinary(s[..k], z)
  {
    hide S32;
    var (z, k) := DecodeBinary(s).value;
    S32OfPrefix(s, 4);
    if s[4] == 2 && k >= 9 {
      assert s[..k][5..][..4] == s[5..][..4];
      S32OfPrefix(s[5..], 4);
      S32OfPrefix(s[..k][5..], 4);
    }
  }

  lemma RegexSlices(s: bytes, n: nat, m: nat)
    requires n + m + 2 <= |s|
    ensures var v := s[..n + m + 2]; v[..n] == s[..n] && v[n + 1..|v| - 1] == s[n + 1..n + 1 + m]
  {
  }

  lemma RegexMeans(s: bytes)
    requires DecodeRegex(s).Ok?
    ensures var (z, k) := DecodeRegex(s).value;
            var v := s[..k];
            StrLen(v) + 1 < |v| && z == Regex(v[..StrLen(v)], v[StrLen(v) + 1..|v| - 1])
  {
    var n := StrLen(s);
    var m := StrLen(s[n + 1..]);
    RegexSlices(s, n, m);
    StrLenUnique(s[..n + m + 2], n);
  }

  lemma PointerMeans(s: bytes)
    requires DecodeDbPointer(s).Ok?
    ensures var (z, k) := DecodeDbPointer(s).value; k > 16 && IsReference(s[..k], z)
  {
    StringMeans(s, 3);
    var (ns, k) := DecodeString(s, 3).value;
    assert s[..k + OID_SIZE][k..] == s[k..k + OID_SIZE];
    assert s[..k + OID_SIZE][4..k - 1] == s[4..k - 1];
  }

  lemma WordsOfPrefix(s: bytes, k: nat)
    requires 8 <= k <= |s|
    ensures U64(s[..k]) == U64(s) && S64(s[..k]) == S64(s) && S32(s[..k][4..]) == S32(s[4..]) && S32(s[..k]) == S32(s)
  {
  }

  lemma {:induction false} DecodedValueMeans(tag: byte, s: bytes, cfg: Config)
    requires |s| >= 1 && DecodeValue(tag, s, cfg).Ok?
    ensures var (z, k) := DecodeValue(tag, s, cfg).value; IsValue(tag, s[..k]) && Means(tag, s[..k], z, cfg)
    decreases |s|, 2
  {
    hide DecodeEmbedded, DecodeCode, DecodeString, DecodeRegex, DecodeBinary, DecodeDbPointer, IsDocument, MeansTable;
    hide S64, U64, S32, StrLen;
    DecodedValueIsValue(tag, s, cfg);
    if tag == 0x02 || tag == 0x0E {
      StringMeans(s, 21);
    } else if tag == 0x03 || tag == 0x04 {
      EmbeddedMeans(s, cfg);
    } else if tag == 0x05 {
      BinaryMeans(s);
    } else if tag == 0x0B {
      RegexMeans(s);
    } else if tag == 0x0C {
      PointerMeans(s);
    } else if tag == 0x0D || tag == 0x0F {
      CodeMeans(tag == 0x0F, s, cfg);
    } else if tag == 0x10 {
      S32OfPrefix(s, 4);
    } else if tag == 0x01 || tag == 0x09 || tag == 0x11 || tag == 0x12 {
      WordsOfPrefix(s, 8);
    }
  }

  lemma {:induction false} DecodedElementMeans(s: bytes, cfg: Config)
    requires |s| >= 1 && s[0] != 0 && DecodeElement(s, cfg).Ok?
    ensures var e := DecodeElement(s, cfg).value; MeansPair(s[..e.size], (e.name, e.val), cfg)
    decreases |s|, 3
  {
    hide DecodeValue, IsValue, Means;
    DecodedElementIsElement(s, cfg);
    var e := DecodeElement(s, cfg).value;
    var v := s[..e.size];
    StrLenUnique(v[1..], e.at - 2);
    assert v[e.at..] == s[e.at..][..e.size - e.at];
    DecodedValueMeans(s[0], s[e.at..], cfg);
  }

  lemma {:induction false} DecodedElemsMean(s: bytes, acc: Hash, seen: seq<(bytes, Zval)>, cfg: Config)
    returns (pairs: seq<(bytes, Zval)>)
    requires |s| >= 1 && DecodeElems(s, acc, cfg).Ok? && DecodeElems(s, acc, cfg).value.1 == [] && IsTable(acc, seen)
    ensures MeansPairs(s, pairs, cfg) && IsTable(DecodeElems(s, acc, cfg).value.0, seen + pairs)
    decreases |s|, 4
  {
    hide DecodeElement, MeansPair, IsTable, SymtableUpdate;
    pairs := [];
    if s[0] == 0 {
      assert seen + [] == seen;
    } else {
      var e := DecodeElement(s, cfg).value;
      var pair := (e.name, e.val);
      DecodedElementMeans(s, cfg);
      OnePairMore(acc, seen, e.name, e.val);
      var rest := DecodedElemsMean(s[e.size..], SymtableUpdate(acc, e.name, e.val), seen + [pair], cfg);
      pairs := [pair] + rest;
      assert seen + [pair] + rest == seen + pairs && pairs[1..] == rest;
      assert SplitsAt(s, e.size);
    }
  }

  /**
   * Whatever bytes are decoded, the array has the elements' names and the values that their types give to their bytes,
   * at every level.
   */
  lemma {:induction false} DecodedMeans(b: bytes, cfg: Config)
    requires DecodeDoc(b, cfg).Ok?
    ensures MeansTable(b, DecodeDoc(b, cfg).value, cfg)
    decreases |b|, 5
  {
    var rest := DecodeElems(b[4..S32(b)], Nil, cfg).value.1;
    assert b[4..S32(b)] == b[4..];
    var pairs := DecodedElemsMean(b[4..], Nil, [], cfg);
    assert [] + pairs == pairs;
  }

  // --- the encoder ---

  predicate LegalName(name: bytes, prep: bool, cfg: Config) {
    NulFree(name) && (name == [] ==> cfg.allowEmptyKeys) && (prep ==> Ascii(".")[0] !in name)
  }

  /** A value that BSON and the driver's limits allow, in bytes: 16 MB for an array, 32 MB for an object or a scope. */
  predicate WritableValue(v: Zval, cfg: Config)
    decreases v, 0
  {
    match v
    case Str(s) => IsUtf8(s)
    case Arr(h) => Writable(h, 0x100_0000, cfg)
    case Object(h) => Writable(h, 0x200_0000, cfg)
    case Code(c, scope) => Writable(scope, 0x200_0000, cfg) && 9 + |c| + |DocBytes(scope, cfg)| <= 0x200_0000
    case Bin(subtype, data) => subtype == 4 ==> |data| == 16
    case _ => true
  }

  predicate WritablePairs(h: Hash, prep: bool, cfg: Config)
    decreases h, 0
  {
    h.Entry? ==>
      LegalName(KeyName(h.key), prep, cfg) && WritableValue(h.val, cfg) && WritablePairs(h.rest, prep, cfg)
  }

  predicate Writable(h: Hash, max: int, cfg: Config)
    decreases h, 1
  {
    WritablePairs(h, false, cfg) && |DocBytes(h, cfg)| <= max
  }

  lemma {:induction false} AcceptedValueExactly(v: Zval, cfg: Config)
    ensures ValueError(v, cfg).None? <==> WritableValue(v, cfg)
    decreases v, 0
  {
    hide DocBytes, IsUtf8;
    match v
    case Arr(h) => AcceptedExactly(h, DEFAULT_MAX_DOCUMENT_SIZE, cfg);
    case Object(h) => AcceptedExactly(h, DEFAULT_MAX_MESSAGE_SIZE, cfg);
    case Code(_, scope) => AcceptedExactly(scope, DEFAULT_MAX_MESSAGE_SIZE, cfg);
    case _ =>
  }

  lemma {:induction false} AcceptedPairsExactly(h: Hash, prep: bool, cfg: Config)
    ensures ElemsError(h, prep, cfg).None? <==> WritablePairs(h, prep, cfg)
    decreases h, 0
  {
    hide ValueError, WritableValue;
    if h.Entry? {
      AcceptedValueExactly(h.val, cfg);
      AcceptedPairsExactly(h.rest, prep, cfg);
    }
  }

  /** The encoder refuses a document exactly when a name, a value or a size in it is not allowed. */
  lemma {:induction false} AcceptedExactly(h: Hash, max: int, cfg: Config)
    ensures DocError(h, max, cfg).None? <==> Writable(h, max, cfg)
    decreases h, 1
  {
    hide ElemsError, WritablePairs, DocBytes;
    AcceptedPairsExactly(h, false, cfg);
  }

  /** The codes of the exceptions: 1 for an empty name, 2 for one with a NUL or a dot, 12, 25 and 3 for values. */
  lemma RefusalCodes(name: bytes, v: Zval, prep: bool, cfg: Config)
    requires !LegalName(name, prep, cfg) || !WritableValue(v, cfg)
    ensures var e := ElemError(name, v, prep, cfg);
            && e.Some?
            && (!LegalName(name, prep, cfg) ==>
                e.value == if (name == [] || name[0] == 0) && !cfg.allowEmptyKeys then 1 else 2)
            && (LegalName(name, prep, cfg) && v.Str? ==> e.value == 12)
            && (LegalName(name, prep, cfg) && v.Bin? ==> e.value == 25)
            && (LegalName(name, prep, cfg) && v.Arr? && WritablePairs(v.elems, false, cfg) ==> e.value == 3)
            && (LegalName(name, prep, cfg) && v.Object? && WritablePairs(v.props, false, cfg) ==> e.value == 3)
            && (LegalName(name, prep, cfg) && v.Code? && WritablePairs(v.scope, false, cfg) ==> e.value == 3)
  {
    hide DocBytes, IsUtf8, ElemsError, WritablePairs;
    AcceptedValueExactly(v, cfg);
    match v
    case Arr(h) => AcceptedPairsExactly(h, false, cfg);
    case Object(h) => AcceptedPairsExactly(h, false, cfg);
    case Code(_, scope) => AcceptedPairsExactly(scope, false, cfg);
    case _ =>
  }

  /** A name that starts with the command character is written with '$' in its place, and no other is changed. */
  lemma NameAsWritten(c: byte, rest: bytes, name: bytes, cfg: Config)
    requires cfg.cmdChar == Some(c)
    ensures WireName([c] + rest, cfg) == Ascii("$") + rest
    ensures name == [] || name[0] != c ==> WireName(name, cfg) == name
  {
    assert Ascii("$") == [36] && ([c] + rest)[1..] == rest;
  }

  /** What is written for a document that can be written stands for it, each value under the type number of its kind. */
  lemma EncodedMeans(h: Hash, max: int, cfg: Config)
    requires Writable(h, max, cfg) && max <= INT_MAX && CleanHash(h)
    ensures MeansTable(DocBytes(h, cfg), NormHash(h, cfg), cfg)
  {
    hide MeansTable, DocBytes, Sound, CleanHash;
    AcceptedExactly(h, max, cfg);
    AcceptedIsSound(h, false, cfg);
    DocRoundTrip(h, cfg);
    DecodedMeans(DocBytes(h, cfg), cfg);
  }
}
