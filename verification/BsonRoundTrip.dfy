/** Encoding followed by decoding, and what the decoder accepts. */
module BsonRoundTrip {
  import opened Bytes
  import opened Values
  import opened Bson
  import opened BsonDecode

  // --- the tree that comes back ---

  function NormName(k: Key, cfg: Config): bytes {
    WireName(KeyName(k), cfg)
  }

  function Norm(v: Zval, cfg: Config): Zval
    decreases v, 0
  {
    match v
    case Long(n) => LongValue(n, cfg)
    case Int64(n) => LongValue(n, cfg)
    case Int32(n) => Long(ToInt32(n))
    case Timestamp(sec, inc) => Timestamp(ToInt32(sec), ToInt32(inc))
    case Arr(h) => Arr(NormHash(h, cfg))
    case Object(h) => Arr(NormHash(h, cfg))
    case Code(c, scope) => Code(c, NormHash(scope, cfg))
    case _ => v
  }

  function NormInto(acc: Hash, h: Hash, cfg: Config): Hash
    decreases h, 0
  {
    match h
    case Nil => acc
    case Entry(k, v, rest) => NormInto(SymtableUpdate(acc, NormName(k, cfg), Norm(v, cfg)), rest, cfg)
  }

  function NormHash(h: Hash, cfg: Config): Hash
    decreases h, 1
  {
    NormInto(Nil, h, cfg)
  }

  // --- what the format cannot carry ---

  /** Regexes are written as C strings: a NUL in one ends it early. */
  predicate CleanValue(v: Zval)
    decreases v, 0
  {
    match v
    case Regex(p, f) => NulFree(p) && NulFree(f)
    case Arr(h) => CleanHash(h)
    case Object(h) => CleanHash(h)
    case Code(_, scope) => CleanHash(scope)
    case _ => true
  }

  predicate CleanHash(h: Hash)
    decreases h, 0
  {
    h.Entry? ==> CleanValue(h.val) && CleanHash(h.rest)
  }

  predicate SoundValue(v: Zval)
    decreases v, 0
  {
    match v
    case Regex(p, f) => NulFree(p) && NulFree(f)
    case Arr(h) => Sound(h)
    case Object(h) => Sound(h)
    case Code(_, scope) => Sound(scope)
    case Bin(t, d) => t == BIN_UUID_RFC4122 ==> |d| == UUID_SIZE
    case _ => true
  }

  /** Nothing in the tree is beyond the format: names and regexes are C strings, UUIDs have 16 bytes. */
  predicate Sound(h: Hash)
    decreases h, 0
  {
    h.Entry? ==> NulFree(KeyName(h.key)) && SoundValue(h.val) && Sound(h.rest)
  }

  lemma {:induction false} AcceptedValueIsSound(v: Zval, cfg: Config)
    requires ValueError(v, cfg).None? && CleanValue(v)
    ensures SoundValue(v)
    decreases v, 0
  {
    match v
    case Arr(h) => AcceptedIsSound(h, false, cfg);
    case Object(h) => AcceptedIsSound(h, false, cfg);
    case Code(_, scope) => AcceptedIsSound(scope, false, cfg);
    case _ =>
  }

  /** What the encoder accepts lacks only the regex condition. */
  lemma {:induction false} AcceptedIsSound(h: Hash, prep: bool, cfg: Config)
    requires ElemsError(h, prep, cfg).None? && CleanHash(h)
    ensures Sound(h)
    decreases h, 1
  {
    if h.Entry? {
      AcceptedValueIsSound(h.val, cfg);
      AcceptedIsSound(h.rest, prep, cfg);
    }
  }

  // --- round trip, one production at a time ---

  lemma StringRoundTrip(s: bytes, t: bytes, lenError: int)
    requires |t| >= 1 && |StringBytes(s)| <= INT_MAX
    ensures DecodeString(StringBytes(s) + t, lenError) == Ok((s, |StringBytes(s)|))
  {
    var w := StringBytes(s) + t;
    assert w == Le32(|s| + 1) + (s + [0] + t);
    U32OfLe32(|s| + 1, s + [0] + t);
    assert w[4..4 + |s|] == s;
  }

  lemma Word32(n: int, w: bytes, t: bytes)
    requires IsInt32(n) && w == Le32(n) + t
    ensures |w| >= 4 && S32(w) == n && w[4..] == t
  {
    U32OfLe32(n, t);
  }

  lemma OldBinRoundTrip(data: bytes, t: bytes)
    requires |t| >= 1 && |data| + 9 <= INT_MAX
    ensures var w := Le32(|data| + 4) + [BIN_BYTE_ARRAY] + Le32(|data|) + data + t;
            DecodeBinary(w) == Ok((Bin(BIN_BYTE_ARRAY, data), |data| + 9))
  {
    hide Le32, S32;
    var w := Le32(|data| + 4) + [BIN_BYTE_ARRAY] + Le32(|data|) + data + t;
    var u := Le32(|data|) + (data + t);
    assert w == Le32(|data| + 4) + ([BIN_BYTE_ARRAY] + u);
    Word32(|data| + 4, w, [BIN_BYTE_ARRAY] + u);
    assert w[4] == BIN_BYTE_ARRAY && w[5..] == u;
    Word32(|data|, u, data + t);
    assert w[9..9 + |data|] == data by { SliceOfSlice(w, 5, |w|, 4, |data|); }
  }

  lemma NewBinRoundTrip(subtype: byte, data: bytes, t: bytes)
    requires |t| >= 1 && |data| + 5 <= INT_MAX && subtype != BIN_BYTE_ARRAY
    requires subtype == BIN_UUID_RFC4122 ==> |data| == UUID_SIZE
    ensures var w := Le32(|data|) + [subtype] + data + t;
            DecodeBinary(w) == Ok((Bin(subtype, data), |data| + 5))
  {
    hide Le32, S32;
    var w := Le32(|data|) + [subtype] + data + t;
    assert w == Le32(|data|) + ([subtype] + (data + t));
    Word32(|data|, w, [subtype] + (data + t));
    assert w[4] == subtype;
    assert w[5..5 + |data|] == data;
  }

  lemma BinRoundTrip(subtype: byte, data: bytes, t: bytes)
    requires |t| >= 1 && |BinBytes(subtype, data)| <= INT_MAX
    requires subtype == BIN_UUID_RFC4122 ==> |data| == UUID_SIZE
    ensures DecodeBinary(BinBytes(subtype, data) + t) == Ok((Bin(subtype, data), |BinBytes(subtype, data)|))
  {
    hide Le32, DecodeBinary;
    if subtype == BIN_BYTE_ARRAY {
      OldBinRoundTrip(data, t);
    } else {
      NewBinRoundTrip(subtype, data, t);
    }
  }

  lemma RegexRoundTrip(p: bytes, f: bytes, t: bytes)
    requires |t| >= 1 && NulFree(p) && NulFree(f)
    ensures DecodeRegex(p + [0] + f + [0] + t) == Ok((Regex(p, f), |p| + |f| + 2))
  {
    var u := f + [0] + t;
    var w := p + [0] + u;
    assert p + [0] + f + [0] + t == w;
    StrLenOfCString(p, u);
    assert w[|p| + 1..] == u;
    StrLenOfCString(f, t);
    assert w[..|p|] == p;
    assert w[|p| + 1..|p| + 1 + |f|] == u[..|f|] == f;
  }

  lemma TimestampRoundTrip(sec: int64, inc: int64, t: bytes)
    ensures var w := Le32(inc) + Le32(sec) + t; S32(w) == ToInt32(inc) && S32(w[4..]) == ToInt32(sec)
  {
    var w := Le32(inc) + Le32(sec) + t;
    assert w == Le32(inc) + (Le32(sec) + t);
    U32OfLe32(inc, Le32(sec) + t);
    assert w[4..] == Le32(sec) + t;
    U32OfLe32(sec, t);
  }

  lemma EmbeddedRoundTrip(h: Hash, t: bytes, cfg: Config)
    requires |t| >= 1 && |DocBytes(h, cfg)| <= INT_MAX
    requires DecodeDoc(DocBytes(h, cfg), cfg) == Ok(NormHash(h, cfg))
    ensures DecodeEmbedded(DocBytes(h, cfg) + t, cfg) == Ok((NormHash(h, cfg), |DocBytes(h, cfg)|))
  {
    var d := DocBytes(h, cfg);
    var b := ElemsBytes(h, cfg);
    Assoc4(Le32(|b| + 5), b, [0], t);
    Word32(|b| + 5, d + t, b + [0] + t);
    Split(d, t);
  }

  lemma CodeParts(s: bytes, code: bytes, k: nat, scope: Hash, m: nat, cfg: Config)
    requires |s| > 4 && DecodeString(s[4..], 24) == Ok((code, k))
    requires 4 + k <= |s| && DecodeEmbedded(s[4 + k..], cfg) == Ok((scope, m))
    ensures DecodeCode(true, s, cfg) == Ok((Code(code, scope), 4 + k + m))
  {
    hide DecodeString, DecodeEmbedded;
  }

  lemma CodeRoundTrip(c: bytes, scope: Hash, t: bytes, cfg: Config)
    requires |t| >= 1 && |CodeBytes(c, DocBytes(scope, cfg))| <= INT_MAX
    requires DecodeDoc(DocBytes(scope, cfg), cfg) == Ok(NormHash(scope, cfg))
    ensures var w := CodeBytes(c, DocBytes(scope, cfg));
      DecodeCode(true, w + t, cfg) == Ok((Code(c, NormHash(scope, cfg)), |w|))
  {
    hide DecodeEmbedded, DecodeString, DecodeCode, DecodeDoc, DocBytes, Le32;
    var d := DocBytes(scope, cfg);
    var str := StringBytes(c);
    Split3(Le32(4 + |str| + |d|), str, d, t);
    StringRoundTrip(c, d + t, 24);
    EmbeddedRoundTrip(scope, t, cfg);
    CodeParts(CodeBytes(c, d) + t, c, |str|, NormHash(scope, cfg), |d|, cfg);
  }

  lemma {:induction false} ValueRoundTrip(v: Zval, t: bytes, cfg: Config)
    requires |t| >= 1 && |ValueBytes(v, cfg)| <= INT_MAX
    requires SoundValue(v)
    ensures DecodeValue(Tag(v), ValueBytes(v, cfg) + t, cfg) == Ok((Norm(v, cfg), |ValueBytes(v, cfg)|))
    decreases v, 0
  {
    hide DecodeEmbedded, DecodeCode, DecodeString, DecodeBinary, DecodeRegex, Le32, Le64, S32, S64, U64, U32;
    hide DocBytes, NormHash, Sound, StringBytes, BinBytes;
    match v
    case Null =>
    case Long(n) => S64OfLe64(n, t);
    case Double(bits) => U64OfLe64(bits, t);
    case Bool(_) =>
    case Str(s) => StringRoundTrip(s, t, 21);
    case Arr(h) => DocRoundTrip(h, cfg); EmbeddedRoundTrip(h, t, cfg);
    case Object(h) => DocRoundTrip(h, cfg); EmbeddedRoundTrip(h, t, cfg);
    case Oid(id) => Split(id, t);
    case Date(ms) => S64OfLe64(ms, t);
    case Regex(p, f) => RegexRoundTrip(p, f, t);
    case Code(c, scope) => DocRoundTrip(scope, cfg); CodeRoundTrip(c, scope, t, cfg);
    case Bin(st, d) => BinRoundTrip(st, d, t);
    case Timestamp(sec, inc) => TimestampRoundTrip(sec, inc, t);
    case MinKey =>
    case MaxKey =>
    case Int32(n) => U32OfLe32(n, t);
    case Int64(n) => S64OfLe64(n, t);
  }

  lemma {:induction false} ElementRoundTrip(name: bytes, v: Zval, t: bytes, cfg: Config)
    requires |t| >= 1 && |ElemBytes(name, v, cfg)| <= INT_MAX
    requires NulFree(name) && SoundValue(v)
    ensures var w := ElemBytes(name, v, cfg);
      DecodeElement(w + t, cfg) == Ok(Element(Tag(v), WireName(name, cfg), Norm(v, cfg), |name| + 2, |w|))
    decreases v, 1
  {
    hide DecodeValue, ValueBytes, Norm, Tag, SoundValue;
    var wire := WireName(name, cfg);
    var w := ElemBytes(name, v, cfg) + t;
    var tail := ValueBytes(v, cfg) + t;
    assert w == [Tag(v)] + (wire + [0] + tail);
    assert w[1..] == wire + [0] + tail;
    StrLenOfCString(wire, tail);
    assert w[1..|wire| + 1] == wire;
    assert w[|wire| + 2..] == tail;
    ValueRoundTrip(v, t, cfg);
  }

  lemma {:induction false} ElemsRoundTrip(h: Hash, t: bytes, acc: Hash, cfg: Config)
    requires |t| >= 1 && |ElemsBytes(h, cfg)| <= INT_MAX
    requires Sound(h)
    ensures DecodeElems(ElemsBytes(h, cfg) + t, acc, cfg) == DecodeElems(t, NormInto(acc, h, cfg), cfg)
    decreases h, 0
  {
    hide DecodeElement, DecodeElems, ElemBytes, SoundValue, SymtableUpdate;
    match h
    case Nil => assert ElemsBytes(h, cfg) + t == t;
    case Entry(k, v, rest) =>
      var e := ElemBytes(KeyName(k), v, cfg);
      var tail := ElemsBytes(rest, cfg) + t;
      Assoc(e, ElemsBytes(rest, cfg), t);
      ElementRoundTrip(KeyName(k), v, tail, cfg);
      Split(e, tail);
      DecodeElemsStep(e + tail, acc, cfg);
      ElemBytesStart(KeyName(k), v, tail, cfg);
      ElemsRoundTrip(rest, t, SymtableUpdate(acc, NormName(k, cfg), Norm(v, cfg)), cfg);
  }

  lemma ElemBytesStart(name: bytes, v: Zval, t: bytes, cfg: Config)
    ensures ElemBytes(name, v, cfg) != [] && (ElemBytes(name, v, cfg) + t)[0] == Tag(v) != 0
  {
    hide ValueBytes, WireName;
  }

  /** The whole document comes back, with every byte consumed. */
  lemma {:induction false} DocRoundTrip(h: Hash, cfg: Config)
    requires Sound(h) && |DocBytes(h, cfg)| <= INT_MAX
    ensures DecodeDoc(DocBytes(h, cfg), cfg) == Ok(NormHash(h, cfg))
    decreases h, 1
  {
    hide ElemsBytes, Sound, NormInto, S32, Le32;
    var b := ElemsBytes(h, cfg);
    var d := DocBytes(h, cfg);
    Assoc(Le32(|b| + 5), b, [0]);
    Word32(|b| + 5, d, b + [0]);
    assert d[4..|d|] == d[4..];
    ElemsRoundTrip(h, [0], Nil, cfg);
  }

  // --- the round trip holds exactly for trees whose regexes have no NUL ---

  predicate CanonicalValue(v: Zval, cfg: Config)
    decreases v, 0
  {
    match v
    case Arr(h) => Canonical(h, cfg)
    case Object(h) => Canonical(h, cfg)
    case Code(_, scope) => Canonical(scope, cfg)
    case _ => true
  }

  predicate Occurs(h: Hash, k: Key, cfg: Config) {
    h.Entry? && (SymKey(NormName(h.key, cfg)) == k || Occurs(h.rest, k, cfg))
  }

  /** No two keys of a table, at any depth, are written under names that read back as one key. */
  predicate Canonical(h: Hash, cfg: Config)
    decreases h, 0
  {
    h.Entry? ==>
      && !Occurs(h.rest, SymKey(NormName(h.key, cfg)), cfg)
      && CanonicalValue(h.val, cfg)
      && Canonical(h.rest, cfg)
  }

  /** Pair by pair, the table that a canonical one comes back as. */
  function Mapped(h: Hash, cfg: Config): Hash {
    match h
    case Nil => Nil
    case Entry(k, v, rest) => Entry(SymKey(NormName(k, cfg)), Norm(v, cfg), Mapped(rest, cfg))
  }

  lemma {:induction false} NormIntoIsMapped(acc: Hash, h: Hash, cfg: Config)
    requires Canonical(h, cfg)
    requires forall k :: Occurs(h, k, cfg) ==> !HasKey(acc, k)
    ensures NormInto(acc, h, cfg) == Append(acc, Mapped(h, cfg))
    decreases h
  {
    match h
    case Nil => AppendNil(acc);
    case Entry(k, v, rest) =>
      var key := SymKey(NormName(k, cfg));
      var one := Entry(key, Norm(v, cfg), Nil);
      assert Occurs(h, key, cfg);
      UpdateFresh(acc, key, Norm(v, cfg));
      forall j | Occurs(rest, j, cfg)
        ensures !HasKey(Append(acc, one), j)
      {
        assert Occurs(h, j, cfg);
        HasKeyAppend(acc, one, j);
      }
      NormIntoIsMapped(Append(acc, one), rest, cfg);
      AppendAssoc(acc, one, Mapped(rest, cfg));
  }

  lemma NormIsMapped(h: Hash, cfg: Config)
    requires Canonical(h, cfg)
    ensures NormHash(h, cfg) == Mapped(h, cfg)
  {
    NormIntoIsMapped(Nil, h, cfg);
  }

  lemma {:induction false} CleanValueBack(v: Zval, cfg: Config)
    requires CanonicalValue(v, cfg) && CleanValue(Norm(v, cfg))
    ensures CleanValue(v)
    decreases v, 0
  {
    match v
    case Arr(h) => NormIsMapped(h, cfg); CleanHashBack(h, cfg);
    case Object(h) => NormIsMapped(h, cfg); CleanHashBack(h, cfg);
    case Code(_, scope) => NormIsMapped(scope, cfg); CleanHashBack(scope, cfg);
    case _ =>
  }

  lemma {:induction false} CleanHashBack(h: Hash, cfg: Config)
    requires Canonical(h, cfg) && CleanHash(Mapped(h, cfg))
    ensures CleanHash(h)
    decreases h, 0
  {
    if h.Entry? {
      CleanValueBack(h.val, cfg);
      CleanHashBack(h.rest, cfg);
    }
  }

  lemma CleanUpdate(h: Hash, k: Key, v: Zval)
    requires CleanHash(h) && CleanValue(v)
    ensures CleanHash(Update(h, k, v))
  {
  }

  lemma {:induction false} DecodedEmbeddedIsClean(s: bytes, cfg: Config)
    requires DecodeEmbedded(s, cfg).Ok?
    ensures CleanHash(DecodeEmbedded(s, cfg).value.0)
    decreases |s|, 0
  {
    DecodedDocIsClean(s[..S32(s)], cfg);
  }

  lemma {:induction false} DecodedCodeIsClean(withScope: bool, s: bytes, cfg: Config)
    requires DecodeCode(withScope, s, cfg).Ok?
    ensures CleanValue(DecodeCode(withScope, s, cfg).value.0)
    decreases |s|, 1
  {
    hide DecodeString, DecodeEmbedded;
    if withScope {
      var k := DecodeString(s[4..], 24).value.1;
      DecodedEmbeddedIsClean(s[4 + k..], cfg);
    }
  }

  lemma DecodedDbPointerIsClean(s: bytes)
    requires DecodeDbPointer(s).Ok?
    ensures CleanValue(DecodeDbPointer(s).value.0)
  {
    hide DecodeString;
    var ref := DecodeDbPointer(s).value.0.elems;
    assert CleanHash(ref.rest.rest);
    assert CleanHash(ref.rest);
    assert CleanHash(ref);
  }

  /** Whatever bytes are decoded, the regexes that come out have no NUL in them. */
  lemma {:induction false} DecodedValueIsClean(tag: byte, s: bytes, cfg: Config)
    requires |s| >= 1 && DecodeValue(tag, s, cfg).Ok?
    ensures CleanValue(DecodeValue(tag, s, cfg).value.0)
    decreases |s|, 2
  {
    hide S32, S64, U64, DecodeEmbedded, DecodeString, DecodeCode;
    if tag == TAG_OBJECT || tag == TAG_ARRAY {
      DecodedEmbeddedIsClean(s, cfg);
    } else if tag == TAG_CODE || tag == TAG_CODE_D {
      DecodedCodeIsClean(tag == TAG_CODE, s, cfg);
    } else if tag == TAG_DBPOINTER {
      DecodedDbPointerIsClean(s);
    }
  }

  lemma {:induction false} DecodedElemsAreClean(s: bytes, acc: Hash, cfg: Config)
    requires |s| >= 1 && DecodeElems(s, acc, cfg).Ok? && CleanHash(acc)
    ensures CleanHash(DecodeElems(s, acc, cfg).value.0)
    decreases |s|, 3
  {
    hide DecodeValue;
    if s[0] != 0 {
      var e := DecodeElement(s, cfg).value;
      DecodedValueIsClean(s[0], s[e.at..], cfg);
      CleanUpdate(acc, SymKey(e.name), e.val);
      DecodedElemsAreClean(s[e.size..], SymtableUpdate(acc, e.name, e.val), cfg);
    }
  }

  lemma {:induction false} DecodedDocIsClean(b: bytes, cfg: Config)
    requires DecodeDoc(b, cfg).Ok?
    ensures CleanHash(DecodeDoc(b, cfg).value)
    decreases |b|, 4
  {
    DecodedElemsAreClean(b[4..S32(b)], Nil, cfg);
  }

  /** A tree that the encoder accepts is decoded back to its normal form if and only if no regex
      in it holds a NUL byte. */
  lemma RoundTripExactly(h: Hash, max: int, cfg: Config)
    requires max <= INT_MAX && DocError(h, max, cfg).None? && Canonical(h, cfg)
    ensures DecodeDoc(DocBytes(h, cfg), cfg) == Ok(Mapped(h, cfg)) <==> CleanHash(h)
  {
    NormIsMapped(h, cfg);
    if CleanHash(h) {
      AcceptedIsSound(h, false, cfg);
      DocRoundTrip(h, cfg);
    } else if DecodeDoc(DocBytes(h, cfg), cfg) == Ok(Mapped(h, cfg)) {
      DecodedDocIsClean(DocBytes(h, cfg), cfg);
      CleanHashBack(h, cfg);
    }
  }

  // --- trees that come back unchanged ---

  predicate PlainValue(v: Zval, cfg: Config)
    decreases v, 0
  {
    match v
    case Arr(h) => Plain(h, cfg)
    case Object(_) => false
    case Code(_, scope) => Plain(scope, cfg)
    case Long(_) => !cfg.longAsObject
    case Int32(_) => false
    case Int64(_) => cfg.longAsObject
    case Timestamp(sec, inc) => IsInt32(sec) && IsInt32(inc)
    case _ => true
  }

  /** A PHP array as the engine keeps it: distinct keys, decimal integer names held as longs. */
  predicate Plain(h: Hash, cfg: Config)
    decreases h, 0
  {
    h.Entry? ==>
      && SymKey(NormName(h.key, cfg)) == h.key
      && !HasKey(h.rest, h.key)
      && PlainValue(h.val, cfg)
      && Plain(h.rest, cfg)
  }

  lemma {:induction false} PlainValueUnchanged(v: Zval, cfg: Config)
    requires PlainValue(v, cfg)
    ensures CanonicalValue(v, cfg) && Norm(v, cfg) == v
    decreases v, 0
  {
    match v
    case Arr(h) => PlainUnchanged(h, cfg); NormIsMapped(h, cfg);
    case Code(_, scope) => PlainUnchanged(scope, cfg); NormIsMapped(scope, cfg);
    case _ =>
  }

  lemma {:induction false} PlainUnchanged(h: Hash, cfg: Config)
    requires Plain(h, cfg)
    ensures Canonical(h, cfg) && Mapped(h, cfg) == h
    ensures forall k :: Occurs(h, k, cfg) <==> HasKey(h, k)
    decreases h, 0
  {
    if h.Entry? {
      PlainValueUnchanged(h.val, cfg);
      PlainUnchanged(h.rest, cfg);
    }
  }

  /** Decoding undoes encoding on PHP arrays, so no two of them share an encoding. */
  lemma PlainRoundTrip(h: Hash, g: Hash, max: int, cfg: Config)
    requires max <= INT_MAX && Plain(h, cfg) && CleanHash(h) && DocError(h, max, cfg).None?
    requires Plain(g, cfg) && CleanHash(g) && DocError(g, max, cfg).None?
    ensures DecodeDoc(DocBytes(h, cfg), cfg) == Ok(h)
    ensures DocBytes(h, cfg) == DocBytes(g, cfg) ==> h == g
  {
    PlainUnchanged(h, cfg);
    PlainUnchanged(g, cfg);
    RoundTripExactly(h, max, cfg);
    RoundTripExactly(g, max, cfg);
  }

  // --- the array tag ---

  lemma {:induction false} CountAscendingBound(h: Hash, num: nat)
    ensures num <= CountAscending(h, num) <= num + Count(h)
    ensures CountAscending(h, num) == num + Count(h) <==> NumericFrom(h, num)
    decreases h
  {
    if h.Entry? {
      CountAscendingBound(h.rest, if h.key.IntKey? && h.key.h == num then num + 1 else num);
    }
  }

  /** The patched type byte says array exactly for tables with keys 0, 1, 2, ... in order. */
  lemma ArrayTag(h: Hash)
    ensures Tag(Arr(h)) == TAG_ARRAY <==> NumericFrom(h, 0)
  {
    CountAscendingBound(h, 0);
  }
}
