/** zval_to_bson: the recursive encoder over the growable buffer, with length slots reserved
    before a document's elements and patched after them. */
module BsonEncoder {
  import opened Bytes
  import opened Values
  import opened Bson
  import opened MongoBuffers

  const ID: bytes := Ascii("_id")

  // --- `prep`: documents to insert get an _id, and it goes first ---

  predicate IsIdName(name: bytes) {
    name[..StrLen(name)] == ID
  }

  /** The pairs that the element loop writes. */
  function Looped(h: Hash, prep: bool): Hash {
    match h
    case Nil => Nil
    case Entry(k, v, rest) =>
      if prep && IsIdName(KeyName(k)) then Looped(rest, prep) else Entry(k, v, Looped(rest, prep))
  }

  function WithId(h: Hash, prep: bool, newId: oid): Hash {
    if prep && Find(h, StrKey(ID)).None? then Append(h, Entry(StrKey(ID), Oid(newId), Nil)) else h
  }

  /** The pairs of a document as written. */
  function Written(h: Hash, prep: bool, newId: oid): Hash {
    var h' := WithId(h, prep, newId);
    if prep then Entry(StrKey(ID), IdOf(h, newId), Looped(h', prep)) else h'
  }

  function IdOf(h: Hash, newId: oid): Zval {
    var id := Find(h, StrKey(ID));
    if id.Some? then id.value else Oid(newId)
  }

  function WriteError(h: Hash, prep: bool, newId: oid, max: int, cfg: Config): Option<int> {
    var w := Written(h, prep, newId);
    if ElemsError(w, prep, cfg).Some? then ElemsError(w, prep, cfg)
    else if |DocBytes(w, cfg)| > max then Some(3)
    else None
  }

  lemma LoopedWithoutPrep(h: Hash)
    ensures Looped(h, false) == h
  {
  }

  lemma FindAppended(h: Hash, k: Key, v: Zval)
    requires Find(h, k).None?
    ensures Find(Append(h, Entry(k, v, Nil)), k) == Some(v)
  {
  }

  // --- names of integer keys ---

  function Pow10(k: nat): nat {
    if k == 0 then 1 else 10 * Pow10(k - 1)
  }

  lemma {:induction false} DigitsBelow(n: nat, width: nat)
    requires width > 0 && n < Pow10(width)
    ensures |Digits(n)| <= width
  {
    if n >= 10 {
      DigitsBelow(n / 10, width - 1);
    }
  }

  lemma LongHasNineteenDigits(n: nat)
    requires n <= LONG_MAX
    ensures |Digits(n)| <= 19
  {
    assert Pow10(3) == 1000;
    assert Pow10(6) == 1000 * 1000;
    assert Pow10(9) == 1000 * 1000 * 1000;
    assert Pow10(12) == 1000 * 1000 * 1000 * 1000;
    assert Pow10(15) == 1000 * 1000 * 1000 * 1000 * 1000;
    assert Pow10(18) == 1000 * 1000 * 1000 * 1000 * 1000 * 1000;
    DigitsBelow(n, 19);
  }

  lemma LastDigit(n: nat, tail: bytes)
    ensures Digits(n) + tail == (if n / 10 > 0 then Digits(n / 10) else []) + ([48 + n % 10] + tail)
  {
  }

  lemma DecParts(n: int)
    ensures Dec(n) == if n < 0 then [45] + Digits(-n) else Digits(n)
  {
  }

  /** The digits of m, filled in from the right end of a 30-byte buffer. */
  method PrintDigits(name: array<byte>, m: nat) returns (pos: nat)
    requires name.Length == 30 && |Digits(m)| <= 19
    modifies name
    ensures 9 <= pos <= 27 && name[pos + 1..29] == Digits(m)
  {
    hide Digits;
    var current := m;
    ghost var tail: bytes := [];
    pos := 28;
    var more := true;
    while more
      invariant pos <= 28 && |tail| == 28 - pos && name[pos + 1..29] == tail
      invariant Digits(m) == (if more then Digits(current) else []) + tail
      decreases more, current
    {
      LastDigit(current, tail);
      tail := [48 + current % 10] + tail;
      var digit := current % 10;
      name[pos] := digit + 48;
      assert name[pos..29] == [digit + 48] + name[pos + 1..29];
      pos := pos - 1;
      current := current / 10;
      more := current > 0;
    }
  }

  /** The digit loop of apply_func_args_wrapper: the name is filled in from the right. */
  method PrintKey(h: index) returns (text: bytes)
    ensures text == Dec(h)
  {
    hide DigitsValue, Pow10, Digits, Dec;
    DecParts(h);
    var current: int := h;
    var negative := false;
    var name := new byte[30];
    name[29] := 0;
    if current < 0 {
      current := -current;
      negative := true;
    }
    LongHasNineteenDigits(current);
    var pos := PrintDigits(name, current);
    if negative {
      name[pos] := 45;
      assert name[pos..29] == [45] + name[pos + 1..29];
      pos := pos - 1;
    }
    text := name[pos + 1..29];
  }

  /** is_utf8 */
  method CheckUtf8(s: bytes) returns (valid: bool)
    ensures valid <==> IsUtf8(s)
  {
    var i := 0;
    while i < |s|
      invariant 0 <= i <= |s| && (IsUtf8(s) <==> IsUtf8(s[i..]))
    {
      ghost var t := s[i..];
      ghost var next := i + Utf8Step(t);
      assert Utf8Step(t) > 0 ==> t[Utf8Step(t)..] == s[next..];
      if i + 3 < |s| && 240 <= s[i] < 248 && Continuation(s[i + 1]) && Continuation(s[i + 2]) &&
          Continuation(s[i + 3]) {
        i := i + 4;
      } else if i + 2 < |s| && 224 <= s[i] < 240 && Continuation(s[i + 1]) && Continuation(s[i + 2]) {
        i := i + 3;
      } else if i + 1 < |s| && 192 <= s[i] < 224 && Continuation(s[i + 1]) {
        i := i + 2;
      } else if s[i] >= 128 {
        return false;
      } else {
        i := i + 1;
      }
    }
    return true;
  }

  // --- the encoder ---

  /** The buffer has only grown since: what was before pos is still there. */
  twostate predicate Extended(buf: MongoBuffer)
    reads buf, buf.data
  {
    && buf.Valid()
    && (buf.data == old(buf.data) || fresh(buf.data))
    && buf.pos >= old(buf.pos)
    && old(buf.Written()) <= buf.data[..]
  }

  /** The bytes bs have been appended, and the buffer has no reserved slot beyond its end. */
  twostate predicate Appended(buf: MongoBuffer, bs: bytes)
    reads buf, buf.data
  {
    && buf.pos == old(buf.pos) + |bs| <= buf.data.Length
    && buf.data[old(buf.pos)..buf.pos] == bs
  }

  /** The type byte and the name, as PHP_MONGO_SERIALIZE_KEY writes them. */
  method SerializeTypedKey(buf: MongoBuffer, tag: byte, name: bytes, prep: bool, cfg: Config)
    requires buf.Valid()
    modifies buf, buf.data
    ensures Extended(buf)
    ensures buf.exception == if old(buf.exception).Some? then old(buf.exception) else NameError(name, prep, cfg)
    ensures buf.pos <= buf.data.Length
    ensures NameError(name, prep, cfg).None? ==> Appended(buf, [tag] + WireName(name, cfg) + [0])
  {
    buf.SerializeByte(tag);
    ghost var start, mid, first := old(buf.pos), buf.pos, buf.data[..];
    buf.SerializeKey(name, prep, cfg);
    if NameError(name, prep, cfg).None? {
      Joined(first, buf.data[..], start, mid, buf.pos);
    }
  }

  method SerializeTwo(buf: MongoBuffer, a: bytes, b: bytes)
    requires buf.Valid()
    modifies buf, buf.data
    ensures Extended(buf) && buf.exception == old(buf.exception)
    ensures Appended(buf, a + b)
  {
    ghost var start := buf.pos;
    buf.Put(a);
    ghost var mid, first := buf.pos, buf.data[..];
    buf.Put(b);
    Joined(first, buf.data[..], start, mid, buf.pos);
  }

  /** php_mongo_serialize_bin_data: subtype 2 repeats the length before the data. */
  method SerializeBinData(buf: MongoBuffer, subtype: byte, bin: bytes)
    requires buf.Valid() && buf.pos <= buf.data.Length && buf.exception.None?
    modifies buf, buf.data
    ensures Extended(buf)
    ensures buf.exception == if subtype == BIN_UUID_RFC4122 && |bin| != UUID_SIZE then Some(25) else None
    ensures buf.pos <= buf.data.Length
    ensures buf.exception.None? ==> Appended(buf, BinBytes(subtype, bin))
  {
    if subtype == BIN_UUID_RFC4122 && |bin| != UUID_SIZE {
      buf.Throw(25);
      return;
    }
    var outer := if subtype == BIN_BYTE_ARRAY then |bin| + 4 else |bin|;
    SerializeTwo(buf, Le32(outer), [subtype]);
    ghost var start, mid, first := old(buf.pos), buf.pos, buf.data[..];
    if subtype == BIN_BYTE_ARRAY {
      SerializeTwo(buf, Le32(|bin|), bin);
      Assoc(Le32(outer) + [subtype], Le32(|bin|), bin);
    } else {
      buf.Put(bin);
    }
    Joined(first, buf.data[..], start, mid, buf.pos);
  }

  /** Length word, bytes and NUL. */
  method SerializeCountedString(buf: MongoBuffer, s: bytes)
    requires buf.Valid()
    modifies buf, buf.data
    ensures Extended(buf) && buf.exception == old(buf.exception)
    ensures Appended(buf, StringBytes(s))
  {
    ghost var start := buf.pos;
    buf.SerializeInt(|s| + 1);
    ghost var mid, first := buf.pos, buf.data[..];
    buf.SerializeString(s);
    Joined(first, buf.data[..], start, mid, buf.pos);
    Assoc(Le32(|s| + 1), s, [0]);
  }

  const NO_ID: oid := seq(12, _ => 0)

  /** A length slot filled in afterwards: the slot and the bytes after it. */
  lemma Patched(before: bytes, after: bytes, at: nat, end: nat, body: bytes)
    requires at + 4 <= end <= |before| && before[at + 4..end] == body
    requires after == before[..at] + Le32(end - at) + before[at + 4..]
    ensures after[at..end] == Le32(4 + |body|) + body && after[..at] == before[..at]
  {
    hide Le32;
    var slot := Le32(end - at);
    assert after[at..] == slot + before[at + 4..];
    assert after[at..end] == (slot + before[at + 4..])[..end - at];
  }

  /** php_mongo_serialize_size over a reserved slot with body after it. */
  method CloseSlot(buf: MongoBuffer, start: nat, max: int, ghost body: bytes) returns (success: bool)
    requires buf.Valid() && start + 4 <= buf.pos <= buf.data.Length && buf.data[start + 4..buf.pos] == body
    modifies buf.data, buf`exception
    ensures success <==> 4 + |body| <= max
    ensures success ==> buf.data[start..buf.pos] == Le32(4 + |body|) + body
    ensures buf.data[..start] == old(buf.data[..start])
    ensures buf.exception == if success || old(buf.exception).Some? then old(buf.exception) else Some(3)
  {
    ghost var before := buf.data[..];
    success := buf.SerializeSize(start, max);
    if success {
      Patched(before, buf.data[..], start, buf.pos, body);
    }
  }

  /** What was written stays a prefix when only bytes from `start` on are touched. */
  lemma StillPrefix(w: bytes, before: bytes, after: bytes, start: nat)
    requires |w| <= start <= |before| && start <= |after|
    requires w <= before && before[..start] == after[..start]
    ensures w <= after
  {
    assert after[..|w|] == after[..start][..|w|] == before[..|w|];
  }

  /** The terminator, and the length slot at start filled in. */
  method FinishDocument(buf: MongoBuffer, start: nat, max: int, ghost elems: bytes, ghost w: bytes)
    requires buf.Valid() && start + 4 <= buf.pos <= buf.data.Length
    requires buf.exception.None? ==> buf.data[start + 4..buf.pos] == elems
    requires |w| <= start && w <= buf.data[..]
    modifies buf, buf.data
    ensures buf.Valid() && (buf.data == old(buf.data) || fresh(buf.data))
    ensures buf.pos == old(buf.pos) + 1 <= buf.data.Length && w <= buf.data[..]
    ensures buf.exception == if old(buf.exception).Some? then old(buf.exception)
                             else if |elems| + 5 > max then Some(3) else None
    ensures buf.exception.None? ==> buf.data[start..buf.pos] == Le32(|elems| + 5) + elems + [0]
  {
    hide Le32;
    ghost var p1, d1 := buf.pos, buf.data[..];
    buf.SerializeByte(0);
    ghost var d2 := buf.data[..];
    Joined(d1, d2, start + 4, p1, buf.pos);
    var success := CloseSlot(buf, start, max, d2[start + 4..buf.pos]);
    StillPrefix(w, d2, buf.data[..], start);
    Assoc(Le32(|elems| + 5), elems, [0]);
  }

  /** The length slot of a code with scope, once both parts are in. */
  method FinishCode(buf: MongoBuffer, start: nat, ghost p1: nat, ghost d1: bytes, ghost str: bytes, ghost doc: bytes,
                    ghost w: bytes)
    requires buf.Valid() && buf.exception.None? && start + 4 <= p1 <= |d1| && p1 <= buf.pos <= buf.data.Length
    requires d1[start + 4..p1] == str && d1[..p1] <= buf.data[..] && buf.data[p1..buf.pos] == doc
    requires |w| <= start && w <= buf.data[..]
    modifies buf.data, buf`exception
    ensures w <= buf.data[..]
    ensures buf.exception == if 4 + |str| + |doc| > DEFAULT_MAX_MESSAGE_SIZE then Some(3) else None
    ensures buf.exception.None? ==> buf.data[start..buf.pos] == Le32(4 + |str| + |doc|) + str + doc
  {
    hide Le32;
    ghost var d2 := buf.data[..];
    Joined(d1, d2, start + 4, p1, buf.pos);
    var success := CloseSlot(buf, start, DEFAULT_MAX_MESSAGE_SIZE, str + doc);
    StillPrefix(w, d2, buf.data[..], start);
    Assoc(Le32(4 + |str| + |doc|), str, doc);
  }

  lemma WithoutPrep(h: Hash, newId: oid, max: int, cfg: Config)
    ensures WriteError(h, false, newId, max, cfg) == DocError(h, max, cfg)
    ensures Written(h, false, newId) == h && WithId(h, false, newId) == h
  {
  }

  /** php_mongo_serialize_code: total size, counted code, scope document. */
  method SerializeCode(buf: MongoBuffer, code: bytes, scope: Hash, cfg: Config)
    requires buf.Valid() && buf.pos <= buf.data.Length && buf.exception.None?
    modifies buf, buf.data
    ensures Extended(buf) && buf.pos <= buf.data.Length
    ensures buf.exception == ValueError(Code(code, scope), cfg)
    ensures buf.exception.None? ==> Appended(buf, CodeBytes(code, DocBytes(scope, cfg)))
    decreases 0, scope, 3
  {
    hide DocBytes, Le32, StringBytes, WriteError, DocError, Written, WithId;
    ghost var d := DocBytes(scope, cfg);
    ghost var w := buf.Written();
    var start := buf.pos;
    buf.Reserve();
    SerializeCountedString(buf, code);
    ghost var p1, d1 := buf.pos, buf.data[..];
    assert w <= d1;
    WithoutPrep(scope, NO_ID, DEFAULT_MAX_MESSAGE_SIZE, cfg);
    var num, h' := ZvalToBson(buf, scope, false, NO_ID, DEFAULT_MAX_MESSAGE_SIZE, cfg);
    if buf.exception.Some? {
      return;
    }
    FinishCode(buf, start, p1, d1, StringBytes(code), d, w);
  }

  predicate IsScalar(v: Zval) {
    !v.Str? && !v.Arr? && !v.Object? && !v.Code?
  }

  /** The kinds of value of php_mongo_serialize_element that hold neither text nor other values. */
  method SerializeScalar(buf: MongoBuffer, v: Zval, cfg: Config)
    requires IsScalar(v) && buf.Valid() && buf.pos <= buf.data.Length && buf.exception.None?
    modifies buf, buf.data
    ensures Extended(buf) && buf.pos <= buf.data.Length
    ensures buf.exception == ValueError(v, cfg)
    ensures buf.exception.None? ==> Appended(buf, ValueBytes(v, cfg))
  {
    hide Le32, Le64, BinBytes;
    match v
    case Null =>
    case Long(n) => buf.SerializeLong(n);
    case Double(bits) => buf.SerializeLong(bits);
    case Bool(b) => buf.SerializeByte(if b then 1 else 0);
    case Oid(id) => buf.Put(id);
    case Date(ms) => buf.SerializeLong(ms);
    case Regex(p, f) =>
      SerializeTwo(buf, p + [0], f + [0]);
      Assoc(p + [0], f, [0]);
    case Bin(subtype, d) => SerializeBinData(buf, subtype, d);
    case Timestamp(sec, inc) => SerializeTwo(buf, Le32(inc), Le32(sec));
    case MinKey =>
    case MaxKey =>
    case Int32(n) => buf.SerializeInt(n);
    case Int64(n) => buf.SerializeLong(n);
  }

  /** The value part of php_mongo_serialize_element; num is what zval_to_bson counted. */
  method SerializeValue(buf: MongoBuffer, v: Zval, cfg: Config) returns (stop: bool, num: int)
    requires buf.Valid() && buf.pos <= buf.data.Length && buf.exception.None?
    modifies buf, buf.data
    ensures Extended(buf) && buf.pos <= buf.data.Length
    ensures buf.exception == ValueError(v, cfg)
    ensures buf.exception.None? ==> !stop && Appended(buf, ValueBytes(v, cfg))
    ensures buf.exception.None? && v.Arr? ==> num == CountAscending(v.elems, 0)
    decreases 0, v, 1
  {
    hide DocBytes, Le32, Le64, StringBytes, BinBytes, CodeBytes, WriteError, DocError, Written, WithId, IsUtf8;
    stop, num := false, 0;
    match v
    case Str(s) =>
      var valid := CheckUtf8(s);
      if !valid {
        buf.Throw(12);
        return true, 0;
      }
      SerializeCountedString(buf, s);
    case Arr(h) =>
      var h';
      WithoutPrep(h, NO_ID, DEFAULT_MAX_DOCUMENT_SIZE, cfg);
      num, h' := ZvalToBson(buf, h, false, NO_ID, DEFAULT_MAX_DOCUMENT_SIZE, cfg);
      stop := buf.exception.Some?;
    case Object(h) =>
      var h';
      WithoutPrep(h, NO_ID, DEFAULT_MAX_MESSAGE_SIZE, cfg);
      num, h' := ZvalToBson(buf, h, false, NO_ID, DEFAULT_MAX_MESSAGE_SIZE, cfg);
      stop := buf.exception.Some?;
    case Code(c, scope) =>
      SerializeCode(buf, c, scope, cfg);
      stop := buf.exception.Some?;
    case _ => SerializeScalar(buf, v, cfg);
  }

  /** The type byte written first; an array's is settled after its elements. */
  function FirstTag(v: Zval): byte {
    if v.Arr? then TAG_ARRAY else Tag(v)
  }

  /** php_mongo_serialize_element: whether the element loop stops here. */
  method SerializeElement(buf: MongoBuffer, name: bytes, v: Zval, prep: bool, cfg: Config) returns (stop: bool)
    requires buf.Valid() && buf.pos <= buf.data.Length
    modifies buf, buf.data
    ensures Extended(buf) && buf.pos <= buf.data.Length
    ensures prep && IsIdName(name) ==> !stop && buf.pos == old(buf.pos) && buf.exception == old(buf.exception)
    ensures !(prep && IsIdName(name)) ==>
              buf.exception == if old(buf.exception).Some? then old(buf.exception) else ElemError(name, v, prep, cfg)
    ensures !(prep && IsIdName(name)) && buf.exception.None? ==> Appended(buf, ElemBytes(name, v, cfg))
    ensures stop ==> buf.exception.Some?
    decreases 0, v, 2
  {
    hide ValueBytes, ValueError, Tag;
    if prep && IsIdName(name) {
      return false;
    }
    var typeOffset := buf.pos;
    SerializeTypedKey(buf, FirstTag(v), name, prep, cfg);
    if buf.exception.Some? {
      return true;
    }
    ghost var mid, first := buf.pos, buf.data[..];
    var num;
    stop, num := SerializeValue(buf, v, cfg);
    if buf.exception.Some? {
      return;
    }
    Joined(first, buf.data[..], typeOffset, mid, buf.pos);
    ghost var written := buf.data[..];
    if v.Arr? {
      buf.data[typeOffset] := if num == Count(v.elems) then TAG_ARRAY else TAG_OBJECT;
      assert buf.data[..] == written[typeOffset := Tag(v)] by { ArrTag(v.elems); }
    }
    TagSettled(written, typeOffset, buf.pos, FirstTag(v), Tag(v), WireName(name, cfg), ValueBytes(v, cfg));
  }

  lemma ArrTag(h: Hash)
    ensures Tag(Arr(h)) == if CountAscending(h, 0) == Count(h) then TAG_ARRAY else TAG_OBJECT
  {
  }

  lemma TagSettled(d: bytes, at: nat, end: nat, first: byte, tag: byte, name: bytes, value: bytes)
    requires at < end <= |d| && d[at..end] == [first] + name + [0] + value
    ensures d[at := tag][at..end] == [tag] + name + [0] + value
  {
    var d' := d[at := tag];
    assert d'[at..end] == d[at..end][0 := tag];
    assert ([first] + name + [0] + value)[0 := tag] == [tag] + name + [0] + value;
  }

  /** apply_func_args_wrapper */
  method ApplyFuncArgs(buf: MongoBuffer, k: Key, v: Zval, prep: bool, num: int, cfg: Config)
    returns (stop: bool, num': int)
    requires buf.Valid() && buf.pos <= buf.data.Length
    modifies buf, buf.data
    ensures Extended(buf) && buf.pos <= buf.data.Length
    ensures var name := KeyName(k);
      if prep && IsIdName(name) then
        !stop && buf.pos == old(buf.pos) && buf.exception == old(buf.exception)
      else
        && buf.exception == (if old(buf.exception).Some? then old(buf.exception) else ElemError(name, v, prep, cfg))
        && (buf.exception.None? ==> Appended(buf, ElemBytes(name, v, cfg)))
    ensures stop ==> buf.exception.Some?
    ensures num' == if k.IntKey? && k.h == num then num + 1 else num
    decreases 0, v, 4
  {
    hide ElemBytes, ElemError;
    num' := num;
    if k.StrKey? {
      stop := SerializeElement(buf, k.s, v, prep, cfg);
    } else {
      if k.h == num {
        num' := num + 1;
      }
      var name := PrintKey(k.h);
      stop := SerializeElement(buf, name, v, prep, cfg);
    }
  }

  /** What one turn of the loop does to the pairs still to be written. */
  lemma LoopStep(cur: Hash, prep: bool, num: nat, cfg: Config)
    requires cur.Entry?
    ensures var name, now, later := KeyName(cur.key), Looped(cur, prep), Looped(cur.rest, prep);
      if prep && IsIdName(name) then
        now == later
      else
        && ElemsBytes(now, cfg) == ElemBytes(name, cur.val, cfg) + ElemsBytes(later, cfg)
        && ElemsError(now, prep, cfg) ==
           var e := ElemError(name, cur.val, prep, cfg); if e.Some? then e else ElemsError(later, prep, cfg)
    ensures CountAscending(cur, num) ==
              CountAscending(cur.rest, if cur.key.IntKey? && cur.key.h == num then num + 1 else num)
  {
    hide ElemBytes, ElemError;
  }

  /** The loop over the table. */
  method SerializeElems(buf: MongoBuffer, h: Hash, prep: bool, num: nat, cfg: Config) returns (num': nat)
    requires buf.Valid() && buf.pos <= buf.data.Length
    modifies buf, buf.data
    ensures Extended(buf) && buf.pos <= buf.data.Length
    ensures var all := Looped(h, prep);
      && buf.exception == (if old(buf.exception).Some? then old(buf.exception) else ElemsError(all, prep, cfg))
      && (buf.exception.None? ==> Appended(buf, ElemsBytes(all, cfg)) && num' == CountAscending(h, num))
    decreases 0, h, 0
  {
    hide ElemBytes, ElemError, ElemsBytes, ElemsError, CountAscending, KeyName;
    ghost var all := Looped(h, prep);
    ghost var start := buf.pos;
    num' := num;
    var cur := h;
    var stop := false;
    while cur.Entry? && !stop
      invariant cur == h || cur < h
      invariant Extended(buf) && buf.pos <= buf.data.Length
      invariant old(buf.exception).Some? ==> buf.exception == old(buf.exception)
      invariant buf.exception.None? ==>
                  && ElemsError(all, prep, cfg) == ElemsError(Looped(cur, prep), prep, cfg)
                  && ElemsBytes(all, cfg) == buf.data[start..buf.pos] + ElemsBytes(Looped(cur, prep), cfg)
                  && CountAscending(h, num) == CountAscending(cur, num')
      invariant old(buf.exception).None? && buf.exception.Some? ==> buf.exception == ElemsError(all, prep, cfg)
      invariant stop ==> buf.exception.Some?
      decreases cur
    {
      ghost var mid, first := buf.pos, buf.data[..];
      LoopStep(cur, prep, num', cfg);
      var next: int;
      stop, next := ApplyFuncArgs(buf, cur.key, cur.val, prep, num', cfg);
      if buf.exception.None? {
        Joined(first, buf.data[..], start, mid, buf.pos);
        Assoc(first[start..mid], buf.data[mid..buf.pos], ElemsBytes(Looped(cur.rest, prep), cfg));
      }
      num' := next;
      cur := cur.rest;
    }
    if buf.exception.None? {
      LoopEnd(prep, num', cfg);
    }
  }

  lemma LoopEnd(prep: bool, num: nat, cfg: Config)
    ensures Looped(Nil, prep) == Nil && ElemsBytes(Nil, cfg) == [] && CountAscending(Nil, num) == num
    ensures ElemsError(Nil, prep, cfg) == None
  {
  }

  lemma IdNameIsFine(cfg: Config)
    ensures NameError(ID, true, cfg) == NameError(ID, false, cfg) == None
  {
    assert ID == [95, 105, 100];
  }

  /** prep_obj_for_db and the loop: every element of the document. */
  method SerializeBody(buf: MongoBuffer, h: Hash, prep: bool, newId: oid, cfg: Config) returns (num: nat, h': Hash)
    requires buf.Valid() && buf.exception.None? && buf.pos <= buf.data.Length
    modifies buf, buf.data
    ensures Extended(buf) && buf.pos <= buf.data.Length
    ensures h' == WithId(h, prep, newId)
    ensures buf.exception == ElemsError(Written(h, prep, newId), prep, cfg)
    ensures buf.exception.None? ==> Appended(buf, ElemsBytes(Written(h, prep, newId), cfg))
    ensures buf.exception.None? && !prep ==> num == CountAscending(h, 0)
    decreases if prep then 1 else 0, h, 1
  {
    hide ElemBytes, ValueError, ValueBytes, Looped;
    num := 0;
    h' := WithId(h, prep, newId);
    if prep {
      IdNameIsFine(cfg);
      var stop := SerializeElement(buf, ID, IdOf(h, newId), false, cfg);
      num := 1;
    }
    LoopedWithoutPrep(h');
    ghost var mid, first := buf.pos, buf.data[..];
    num := SerializeElems(buf, h', prep, num, cfg);
    if buf.exception.None? {
      Joined(first, buf.data[..], old(buf.pos), mid, buf.pos);
    }
  }

  /** The slot for the length of a document. */
  method OpenSlot(buf: MongoBuffer) returns (start: nat)
    requires buf.Valid()
    modifies buf, buf.data
    ensures Extended(buf) && buf.pos <= buf.data.Length && buf.exception == old(buf.exception)
    ensures start == old(buf.pos) && buf.pos == start + 4
  {
    if buf.Remaining() <= 5 {
      buf.Resize(5);
    }
    start := buf.pos;
    buf.Reserve();
  }

  /** zval_to_bson: the element count, or FAILURE; and the table, which `prep` may have given an _id. */
  method ZvalToBson(buf: MongoBuffer, h: Hash, prep: bool, newId: oid, max: int, cfg: Config)
    returns (num: int, h': Hash)
    requires buf.Valid() && buf.exception.None?
    modifies buf, buf.data
    ensures Extended(buf) && buf.pos <= buf.data.Length
    ensures h' == WithId(h, prep, newId)
    ensures buf.exception == WriteError(h, prep, newId, max, cfg)
    ensures buf.exception.None? ==> Appended(buf, DocBytes(Written(h, prep, newId), cfg))
    ensures buf.exception.None? && !prep ==> num == CountAscending(h, 0)
    ensures buf.exception.Some? <==> num == -1
    decreases if prep then 1 else 0, h, 2
  {
    hide ElemsBytes, ElemsError, Written, WithId, Le32;
    ghost var w := buf.Written();
    var start := OpenSlot(buf);
    num, h' := SerializeBody(buf, h, prep, newId, cfg);
    FinishDocument(buf, start, max, ElemsBytes(Written(h, prep, newId), cfg), w);
    num := if buf.exception.Some? then -1 else num;
  }
}
