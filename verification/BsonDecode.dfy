/** What the decoder makes of a run of bytes. A cursor into the buffer is the suffix of the
    enclosing document that starts there, so "reading len bytes would exceed the buffer" is
    len >= |s|. */
module BsonDecode {
  import opened Bytes
  import opened Values
  import opened Bson

  function LongValue(n: int64, cfg: Config): Zval {
    if cfg.longAsObject then Int64(n) else Long(n)
  }

  /** The value of a length-prefixed, NUL-terminated string; lenError is the code for a length below 1. */
  function DecodeString(s: bytes, lenError: int): (r: Result<(bytes, nat)>)
    ensures r.Ok? ==> 4 < r.value.1 < |s| && r.value.1 == 4 + |r.value.0| + 1
  {
    if 4 >= |s| then Err(21)
    else
      var len := S32(s);
      if len < 1 then Err(lenError)
      else if len >= |s| - 4 then Err(21)
      else if s[4 + len - 1] != 0 then Err(41)
      else Ok((s[4..4 + len - 1], 4 + len))
  }

  function DecodeEmbedded(s: bytes, cfg: Config): (r: Result<(Hash, nat)>)
    ensures r.Ok? ==> r.value.1 < |s|
    decreases |s|, 0
  {
    if 4 >= |s| then Err(21)
    else
      var len := S32(s);
      if len >= |s| then Err(21)
      else if len < 0 then Err(39)
      else
        var h :- DecodeDoc(s[..len], cfg);
        Ok((h, len))
  }

  function DecodeBinary(s: bytes): (r: Result<(Zval, nat)>)
    ensures r.Ok? ==> r.value.1 < |s|
  {
    if 4 >= |s| then Err(21)
    else if 1 >= |s| - 4 then Err(21)
    else
      var outer := S32(s);
      var subtype := s[4];
      if subtype == BIN_BYTE_ARRAY && 4 >= |s| - 5 then Err(21)
      else
        var inner := subtype == BIN_BYTE_ARRAY && S32(s[5..]) == outer - 4;
        var len := if inner then outer - 4 else outer;
        var at := if inner then 9 else 5;
        if len < 0 then Err(22)
        else if len >= |s| - at then Err(21)
        else if subtype == BIN_UUID_RFC4122 && len != UUID_SIZE then Err(25)
        else Ok((Bin(subtype, s[at..at + len]), at + len))
  }

  function DecodeRegex(s: bytes): (r: Result<(Zval, nat)>)
    ensures r.Ok? ==> r.value.1 < |s|
  {
    var n := StrLen(s);
    if n + 1 >= |s| then Err(21)
    else
      var m := StrLen(s[n + 1..]);
      if m + 1 >= |s| - (n + 1) then Err(21)
      else Ok((Regex(s[..n], s[n + 1..n + 1 + m]), n + m + 2))
  }

  function DecodeCode(withScope: bool, s: bytes, cfg: Config): (r: Result<(Zval, nat)>)
    ensures r.Ok? ==> r.value.1 < |s|
    decreases |s|, 1
  {
    // the total size of a code with scope is skipped unread
    var at := if withScope then 4 else 0;
    if at >= |s| then Err(21)
    else
      var (code, k) :- DecodeString(s[at..], 24);
      if withScope then
        var (scope, m) :- DecodeEmbedded(s[at + k..], cfg);
        Ok((Code(code, scope), at + k + m))
      else
        Ok((Code(code, Nil), at + k))
  }

  /** A DBPointer becomes a DBRef document. */
  function DecodeDbPointer(s: bytes): (r: Result<(Zval, nat)>)
    ensures r.Ok? ==> r.value.1 < |s|
  {
    var (ns, k) :- DecodeString(s, 3);
    if OID_SIZE >= |s| - k then Err(21)
    else
      var ref := Entry(StrKey(Ascii("$ref")), Str(ns), Entry(StrKey(Ascii("$id")), Oid(s[k..k + OID_SIZE]), Nil));
      Ok((Arr(ref), k + OID_SIZE))
  }

  /** The value of type tag at s, and the number of bytes it takes. */
  function DecodeValue(tag: byte, s: bytes, cfg: Config): (r: Result<(Zval, nat)>)
    requires |s| >= 1
    ensures r.Ok? ==> r.value.1 < |s|
    decreases |s|, 2
  {
    if tag == TAG_OID then
      if OID_SIZE >= |s| then Err(21) else Ok((Oid(s[..OID_SIZE]), OID_SIZE))
    else if tag == TAG_DOUBLE then
      if 8 >= |s| then Err(21) else Ok((Double(U64(s)), 8))
    else if tag == TAG_SYMBOL || tag == TAG_STRING then
      var (str, k) :- DecodeString(s, 21);
      Ok((Str(str), k))
    else if tag == TAG_OBJECT || tag == TAG_ARRAY then
      var (h, k) :- DecodeEmbedded(s, cfg);
      Ok((Arr(h), k))
    else if tag == TAG_BINARY then DecodeBinary(s)
    else if tag == TAG_BOOL then
      if 1 >= |s| then Err(21) else Ok((Bool(s[0] != 0), 1))
    else if tag == TAG_UNDEF || tag == TAG_NULL then Ok((Null, 0))
    else if tag == TAG_INT then
      if 4 >= |s| then Err(21) else Ok((Long(S32(s)), 4))
    else if tag == TAG_LONG then
      if 8 >= |s| then Err(21) else Ok((LongValue(S64(s), cfg), 8))
    else if tag == TAG_DATE then
      if 8 >= |s| then Err(21) else Ok((Date(S64(s)), 8))
    else if tag == TAG_REGEX then DecodeRegex(s)
    else if tag == TAG_CODE || tag == TAG_CODE_D then DecodeCode(tag == TAG_CODE, s, cfg)
    else if tag == TAG_DBPOINTER then DecodeDbPointer(s)
    else if tag == TAG_TIMESTAMP then
      if 8 >= |s| then Err(21) else Ok((Timestamp(S32(s[4..]), S32(s)), 8))
    else if tag == TAG_MINKEY then Ok((MinKey, 0))
    else if tag == TAG_MAXKEY then Ok((MaxKey, 0))
    else Err(17)
  }

  datatype Element = Element(tag: byte, name: bytes, val: Zval, at: nat, size: nat)

  /** The element at s: its value starts at offset `at`, the whole of it takes `size` bytes. */
  function DecodeElement(s: bytes, cfg: Config): (r: Result<Element>)
    requires |s| >= 1 && s[0] != 0
    ensures r.Ok? ==> 2 <= r.value.at <= r.value.size < |s| && r.value.tag == s[0]
    decreases |s|, 3
  {
    var n := StrLen(s[1..]);
    if n + 1 >= |s| - 1 then Err(21)
    else
      var at := n + 2;
      var (v, k) :- DecodeValue(s[0], s[at..], cfg);
      Ok(Element(s[0], s[1..n + 1], v, at, at + k))
  }

  /** The elements up to the terminator, collected into acc; and what follows the terminator. */
  function DecodeElems(s: bytes, acc: Hash, cfg: Config): (r: Result<(Hash, bytes)>)
    requires |s| >= 1
    ensures r.Ok? ==> |r.value.1| < |s|
    decreases |s|, 4
  {
    if s[0] == 0 then Ok((acc, s[1..]))
    else
      var e :- DecodeElement(s, cfg);
      DecodeElems(s[e.size..], SymtableUpdate(acc, e.name, e.val), cfg)
  }

  /** One turn of the loop over the elements. */
  lemma DecodeElemsStep(s: bytes, acc: Hash, cfg: Config)
    requires |s| >= 1
    ensures DecodeElems(s, acc, cfg) ==
      if s[0] == 0 then Ok((acc, s[1..]))
      else if DecodeElement(s, cfg).Err? then Err(DecodeElement(s, cfg).code)
      else
        var e := DecodeElement(s, cfg).value;
        DecodeElems(s[e.size..], SymtableUpdate(acc, e.name, e.val), cfg)
  {
    hide DecodeElement;
  }

  /** bson_to_zval_iter: the document at the start of b, and the bytes it took. */
  function DecodeIter(b: bytes, cfg: Config): (r: Result<(Hash, nat)>)
    ensures r.Ok? ==> 5 <= |b| && 5 <= r.value.1 <= S32(b) <= |b|
    decreases |b|, 0
  {
    if |b| < 5 then Err(38)
    else
      var len := S32(b);
      if len < 5 then Err(39)
      else if |b| < len then Err(40)
      else
        var (h, rest) :- DecodeElems(b[4..len], Nil, cfg);
        Ok((h, len - |rest|))
  }

  /** bson_to_zval: a single document that fills b. */
  function DecodeDoc(b: bytes, cfg: Config): (r: Result<Hash>)
    ensures r.Ok? ==> |b| >= 5 && S32(b) == |b|
    decreases |b|, 1
  {
    var (h, used) :- DecodeIter(b, cfg);
    if used != |b| then Err(42) else Ok(h)
  }
}
