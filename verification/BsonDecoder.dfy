/** bson_to_zval and bson_to_zval_iter as loops over a moving position in the buffer; each is
    proved against the functions of BsonDecode on the bytes from there to buf_end. */
module BsonDecoder {
  import opened Bytes
  import opened Values
  import opened Bson
  import opened BsonDecode

  /** A result counted in bytes, as a position: what the C code keeps in `buf`. */
  function At<T>(r: Result<(T, nat)>, pos: nat): Result<(T, nat)> {
    if r.Ok? then Ok((r.value.0, pos + r.value.1)) else Err(r.code)
  }

  lemma DropTake(buf: bytes, pos: nat, end: nat, n: nat)
    requires pos <= end <= |buf| && pos + n <= end
    ensures buf[pos..end][n..] == buf[pos + n..end] && buf[pos..end][..n] == buf[pos..pos + n]
  {
  }

  lemma Part(buf: bytes, pos: nat, end: nat, i: nat, j: nat)
    requires pos <= end <= |buf| && i <= j <= end - pos
    ensures buf[pos..end][i..j] == buf[pos + i..pos + j]
  {
    var a, b := buf[pos..end][i..j], buf[pos + i..pos + j];
    assert forall k :: 0 <= k < j - i ==> a[k] == b[k];
  }

  /** strlen, which does not know where the document ends. */
  method Strlen(buf: bytes, pos: nat) returns (n: nat)
    requires pos <= |buf|
    ensures n == StrLen(buf[pos..])
  {
    n := 0;
    while pos + n < |buf| && buf[pos + n] != 0
      invariant pos + n <= |buf|
      invariant forall i :: pos <= i < pos + n ==> buf[i] != 0
    {
      n := n + 1;
    }
    assert forall i :: 0 <= i < n ==> buf[pos..][i] == buf[pos + i];
    StrLenUnique(buf[pos..], n);
  }

  /** Running past the end of the document or stopping there makes no difference to the check. */
  lemma StrlenWithin(buf: bytes, pos: nat, end: nat)
    requires pos <= end <= |buf|
    ensures var n, m := StrLen(buf[pos..]), StrLen(buf[pos..end]); n == m || (n >= end - pos && m == end - pos)
  {
    var n := StrLen(buf[pos..]);
    if n < end - pos {
      StrLenUnique(buf[pos..end], n);
    } else {
      StrLenUnique(buf[pos..end], end - pos);
    }
  }

  /** The int32_t at pos. */
  function Int32At(buf: bytes, pos: nat): int
    requires pos + 4 <= |buf|
  {
    S32(buf[pos..pos + 4])
  }

  lemma Int32Within(buf: bytes, pos: nat, end: nat)
    requires pos + 4 <= end <= |buf|
    ensures Int32At(buf, pos) == S32(buf[pos..end])
  {
    hide ToInt32;
  }

  method ReadString(buf: bytes, pos: nat, end: nat, lenError: int) returns (r: Result<(bytes, nat)>)
    requires pos <= end <= |buf|
    ensures r == At(DecodeString(buf[pos..end], lenError), pos)
  {
    if pos + 4 >= end {
      return Err(21);
    }
    Int32Within(buf, pos, end);
    var len := Int32At(buf, pos);
    var p := pos + 4;
    if len < 1 {
      return Err(lenError);
    }
    if p + len >= end {
      return Err(21);
    }
    if buf[p + len - 1] != 0 {
      return Err(41);
    }
    Part(buf, pos, end, 4, 4 + len - 1);
    return Ok((buf[p..p + len - 1], p + len));
  }

  method ReadBinary(buf: bytes, pos: nat, end: nat) returns (r: Result<(Zval, nat)>)
    requires pos <= end <= |buf|
    ensures r == At(DecodeBinary(buf[pos..end]), pos)
  {
    hide S32;
    if pos + 4 >= end {
      return Err(21);
    }
    Int32Within(buf, pos, end);
    var len := Int32At(buf, pos);
    var p := pos + 4;
    if p + 1 >= end {
      return Err(21);
    }
    var subtype := buf[p];
    p := p + 1;
    if subtype == 2 {
      if p + 4 >= end {
        return Err(21);
      }
      Int32Within(buf, p, end);
      DropTake(buf, pos, end, 5);
      var len2 := Int32At(buf, p);
      if len2 == len - 4 {
        len := len2;
        p := p + 4;
      }
    }
    if len < 0 {
      return Err(22);
    }
    if p + len >= end {
      return Err(21);
    }
    if subtype == BIN_UUID_RFC4122 && len != UUID_SIZE {
      return Err(25);
    }
    Part(buf, pos, end, p - pos, p - pos + len);
    return Ok((Bin(subtype, buf[p..p + len]), p + len));
  }

  method ReadRegex(buf: bytes, pos: nat, end: nat) returns (r: Result<(Zval, nat)>)
    requires pos <= end <= |buf|
    ensures r == At(DecodeRegex(buf[pos..end]), pos)
  {
    hide StrLen;
    var n := Strlen(buf, pos);
    StrlenWithin(buf, pos, end);
    if pos + n + 1 >= end {
      return Err(21);
    }
    var p := pos + n + 1;
    DropTake(buf, pos, end, n + 1);
    var m := Strlen(buf, p);
    StrlenWithin(buf, p, end);
    if p + m + 1 >= end {
      return Err(21);
    }
    DropTake(buf, pos, end, n);
    Part(buf, pos, end, n + 1, n + 1 + m);
    return Ok((Regex(buf[pos..pos + n], buf[p..p + m]), p + m + 1));
  }

  method ReadDbPointer(buf: bytes, pos: nat, end: nat) returns (r: Result<(Zval, nat)>)
    requires pos <= end <= |buf|
    ensures r == At(DecodeDbPointer(buf[pos..end]), pos)
  {
    hide DecodeString;
    var read :- ReadString(buf, pos, end, 3);
    var (ns, p) := read;
    if p + OID_SIZE >= end {
      return Err(21);
    }
    Part(buf, pos, end, p - pos, p - pos + OID_SIZE);
    var ref := Entry(StrKey(Ascii("$ref")), Str(ns), Entry(StrKey(Ascii("$id")), Oid(buf[p..p + OID_SIZE]), Nil));
    return Ok((Arr(ref), p + OID_SIZE));
  }

  method ReadEmbedded(buf: bytes, pos: nat, end: nat, cfg: Config) returns (r: Result<(Hash, nat)>)
    requires pos <= end <= |buf|
    ensures r == At(DecodeEmbedded(buf[pos..end], cfg), pos)
    decreases end - pos, 0
  {
    hide S32, DecodeDoc;
    if pos + 4 >= end {
      return Err(21);
    }
    Int32Within(buf, pos, end);
    var len := Int32At(buf, pos);
    if pos + len >= end {
      return Err(21);
    }
    if len < 0 {
      // the length is passed on as a huge size_t, and the document's own length is negative
      return Err(39);
    }
    DropTake(buf, pos, end, len);
    var h :- BsonToZval(buf, pos, len, cfg);
    return Ok((h, pos + len));
  }

  method ReadCode(withScope: bool, buf: bytes, pos: nat, end: nat, cfg: Config) returns (r: Result<(Zval, nat)>)
    requires pos <= end <= |buf|
    ensures r == At(DecodeCode(withScope, buf[pos..end], cfg), pos)
    decreases end - pos, 1
  {
    hide DecodeString, DecodeEmbedded;
    var p := if withScope then pos + 4 else pos;
    if p >= end {
      return Err(21);
    }
    DropTake(buf, pos, end, p - pos);
    var read :- ReadString(buf, p, end, 24);
    var (code, q) := read;
    if !withScope {
      return Ok((Code(code, Nil), q));
    }
    DropTake(buf, pos, end, q - pos);
    var embedded :- ReadEmbedded(buf, q, end, cfg);
    var (scope, next) := embedded;
    return Ok((Code(code, scope), next));
  }

  /** The switch over the type. */
  method ReadValue(tag: byte, buf: bytes, pos: nat, end: nat, cfg: Config) returns (r: Result<(Zval, nat)>)
    requires pos < end <= |buf|
    ensures r == At(DecodeValue(tag, buf[pos..end], cfg), pos)
    decreases end - pos, 2
  {
    hide DecodeString, DecodeEmbedded, DecodeCode, DecodeRegex, DecodeBinary, DecodeDbPointer, S32, S64, U64;
    ghost var s := buf[pos..end];
    if tag == TAG_OID {
      if pos + OID_SIZE >= end {
        return Err(21);
      }
      assert s[..OID_SIZE] == buf[pos..pos + OID_SIZE];
      return Ok((Oid(buf[pos..pos + OID_SIZE]), pos + OID_SIZE));
    } else if tag == TAG_DOUBLE || tag == TAG_LONG || tag == TAG_DATE || tag == TAG_TIMESTAMP {
      if pos + 8 >= end {
        return Err(21);
      }
      var w := buf[pos..end];
      if tag == TAG_DOUBLE {
        return Ok((Double(U64(w)), pos + 8));
      } else if tag == TAG_LONG {
        return Ok((LongValue(S64(w), cfg), pos + 8));
      } else if tag == TAG_DATE {
        return Ok((Date(S64(w)), pos + 8));
      } else {
        return Ok((Timestamp(S32(w[4..]), S32(w)), pos + 8));
      }
    } else if tag == TAG_SYMBOL || tag == TAG_STRING {
      var read :- ReadString(buf, pos, end, 21);
      var (str, next) := read;
      return Ok((Str(str), next));
    } else if tag == TAG_OBJECT || tag == TAG_ARRAY {
      var embedded :- ReadEmbedded(buf, pos, end, cfg);
      var (h, next) := embedded;
      return Ok((Arr(h), next));
    } else if tag == TAG_BINARY {
      r := ReadBinary(buf, pos, end);
    } else if tag == TAG_BOOL {
      if pos + 1 >= end {
        return Err(21);
      }
      return Ok((Bool(buf[pos] != 0), pos + 1));
    } else if tag == TAG_UNDEF || tag == TAG_NULL {
      return Ok((Null, pos));
    } else if tag == TAG_INT {
      if pos + 4 >= end {
        return Err(21);
      }
      Int32Within(buf, pos, end);
      return Ok((Long(Int32At(buf, pos)), pos + 4));
    } else if tag == TAG_REGEX {
      r := ReadRegex(buf, pos, end);
    } else if tag == TAG_CODE || tag == TAG_CODE_D {
      r := ReadCode(tag == TAG_CODE, buf, pos, end, cfg);
    } else if tag == TAG_DBPOINTER {
      r := ReadDbPointer(buf, pos, end);
    } else if tag == TAG_MINKEY {
      return Ok((MinKey, pos));
    } else if tag == TAG_MAXKEY {
      return Ok((MaxKey, pos));
    } else {
      return Err(17);
    }
  }

  /** One turn of the loop, at a type byte that is not the terminator. */
  method ReadElement(buf: bytes, pos: nat, end: nat, cfg: Config) returns (r: Result<((bytes, Zval), nat)>)
    requires pos < end <= |buf| && buf[pos] != 0
    ensures var e := DecodeElement(buf[pos..end], cfg);
      r == if e.Err? then Err(e.code) else Ok(((e.value.name, e.value.val), pos + e.value.size))
    decreases end - pos, 3
  {
    hide DecodeValue, StrLen;
    var tag := buf[pos];
    DropTake(buf, pos, end, 1);
    var n := Strlen(buf, pos + 1);
    StrlenWithin(buf, pos + 1, end);
    if pos + 1 + n + 1 >= end {
      return Err(21);
    }
    Part(buf, pos, end, 1, n + 1);
    DropTake(buf, pos, end, n + 2);
    var name := buf[pos + 1..pos + 1 + n];
    var value :- ReadValue(tag, buf, pos + 1 + n + 1, end, cfg);
    return Ok(((name, value.0), value.1));
  }

  /** bson_to_zval_iter: the document at start, and the position just after it. */
  method BsonToZvalIter(buf: bytes, start: nat, bufLen: nat, cfg: Config) returns (r: Result<(Hash, nat)>)
    requires start + bufLen <= |buf|
    ensures r == At(DecodeIter(buf[start..start + bufLen], cfg), start)
    decreases bufLen, 0
  {
    hide S32, DecodeElement, DecodeElems, SymtableUpdate;
    if bufLen < 5 {
      return Err(38);
    }
    Int32Within(buf, start, start + bufLen);
    var docLen := Int32At(buf, start);
    if docLen < 5 {
      return Err(39);
    }
    if bufLen < docLen {
      return Err(40);
    }
    var end := start + docLen;
    var pos := start + 4;
    var result := Nil;
    Part(buf, start, start + bufLen, 4, docLen);
    ghost var all := DecodeElems(buf[pos..end], Nil, cfg);
    while buf[pos] != 0
      invariant start + 4 <= pos < end
      invariant DecodeElems(buf[pos..end], result, cfg) == all
      decreases end - pos
    {
      ghost var at := pos;
      DecodeElemsStep(buf[pos..end], result, cfg);
      var element :- ReadElement(buf, pos, end, cfg);
      var ((name, value), next) := element;
      DropTake(buf, at, end, next - at);
      pos := next;
      result := SymtableUpdate(result, name, value);
    }
    DropTake(buf, pos, end, 1);
    DecodeElemsStep(buf[pos..end], result, cfg);
    return Ok((result, pos + 1));
  }

  /** bson_to_zval: the same, when the document must fill the buffer. */
  method BsonToZval(buf: bytes, start: nat, bufLen: nat, cfg: Config) returns (r: Result<Hash>)
    requires start + bufLen <= |buf|
    ensures r == DecodeDoc(buf[start..start + bufLen], cfg)
    decreases bufLen, 1
  {
    hide DecodeIter;
    var doc :- BsonToZvalIter(buf, start, bufLen, cfg);
    var (h, end) := doc;
    if start + bufLen != end {
      return Err(42);
    }
    return Ok(h);
  }
}
