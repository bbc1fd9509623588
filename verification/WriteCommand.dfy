/** api/write.c: a write command built piece by piece in a buffer, and the document it comes to. */
module WriteCommand {
  import opened Bytes
  import CStrings
  import opened Values
  import opened Bson
  import opened MongoBuffers
  import opened BsonEncoder
  import BsonDecode
  import BsonRoundTrip

  const WRITE_COMMAND_PADDING := 16 * 1024
  const OP_QUERY := 2004

  /** MAX_BSON_WIRE_OBJECT_SIZE */
  function MaxWireSize(size: int): int {
    size + WRITE_COMMAND_PADDING
  }

  datatype WriteType = InsertCommand | UpdateCommand | DeleteCommand

  /** newId is the MongoId that will be generated if the document has none; -1 leaves a limit out. */
  datatype WriteItem =
    | InsertItem(doc: Hash, newId: oid)
    | UpdateItem(query: Hash, update: Hash, multi: Option<bool>, upsert: Option<bool>)
    | DeleteItem(query: Hash, limit: int32)

  datatype W = NoW | WNumber(n: int32) | WTag(tag: cstring)

  /** None, and -1 for the timeout, stand for options that are not set. */
  datatype WriteOptions = WriteOptions(ordered: Option<bool>, fsync: Option<bool>, j: Option<bool>,
                                       wtimeout: int32, w: W)

  // --- the command as a document ---

  function Field(name: string, v: Zval): Hash {
    Entry(StrKey(Ascii(name)), v, Nil)
  }

  function OptionalBool(name: string, b: Option<bool>): Hash {
    if b.Some? then Field(name, Bool(b.value)) else Nil
  }

  /** -1 stands for an option that is not set. */
  function OptionalInt(name: string, n: int32): Hash {
    if n != -1 then Field(name, Int32(n)) else Nil
  }

  function CommandName(typ: WriteType): string {
    match typ
    case InsertCommand => "insert"
    case UpdateCommand => "update"
    case DeleteCommand => "delete"
  }

  function FieldName(typ: WriteType): string {
    match typ
    case InsertCommand => "documents"
    case UpdateCommand => "updates"
    case DeleteCommand => "deletes"
  }

  function ItemTable(item: WriteItem): Hash {
    match item
    case InsertItem(doc, newId) => Written(doc, true, newId)
    case UpdateItem(q, u, multi, upsert) =>
      Append(Append(Append(Field("q", Object(q)), Field("u", Object(u))), OptionalBool("multi", multi)),
             OptionalBool("upsert", upsert))
    case DeleteItem(q, limit) =>
      Append(Field("q", Object(q)), OptionalInt("limit", limit))
  }

  /** The items under the keys 0, 1, 2, ... */
  function ItemsTable(items: seq<WriteItem>): Hash
    requires |items| <= LONG_MAX
  {
    if items == [] then Nil
    else
      var last := |items| - 1;
      Append(ItemsTable(items[..last]), Entry(IntKey(last), Object(ItemTable(items[last])), Nil))
  }

  function ConcernTable(o: WriteOptions): Hash {
    var t1 := OptionalBool("fsync", o.fsync);
    var t2 := Append(t1, OptionalBool("j", o.j));
    var t3 := Append(t2, OptionalInt("wtimeout", o.wtimeout));
    Append(t3, match o.w
               case NoW => Nil
               case WNumber(n) => Field("w", Int32(n))
               case WTag(tag) => Field("w", Str(tag)))
  }

  function OptionsTable(o: Option<WriteOptions>): Hash {
    if o.None? then Nil
    else Append(OptionalBool("ordered", o.value.ordered), Field("writeConcern", Object(ConcernTable(o.value))))
  }

  /** {insert: collection, documents: [items], ordered: ..., writeConcern: {...}} and its siblings */
  function CommandTable(typ: WriteType, collection: cstring, items: seq<WriteItem>, o: Option<WriteOptions>): Hash
    requires |items| <= LONG_MAX
  {
    Append(Append(Field(CommandName(typ), Str(collection)), Field(FieldName(typ), Arr(ItemsTable(items)))),
           OptionsTable(o))
  }

  lemma {:induction false} ElemsBytesAppend(a: Hash, b: Hash, cfg: Config)
    ensures ElemsBytes(Append(a, b), cfg) == ElemsBytes(a, cfg) + ElemsBytes(b, cfg)
    decreases a
  {
    hide ElemBytes;
    match a
    case Nil => assert [] + ElemsBytes(b, cfg) == ElemsBytes(b, cfg);
    case Entry(k, v, rest) =>
      ElemsBytesAppend(rest, b, cfg);
      Assoc(ElemBytes(KeyName(k), v, cfg), ElemsBytes(rest, cfg), ElemsBytes(b, cfg));
  }

  lemma ElemsBytesOne(k: Key, v: Zval, cfg: Config)
    ensures ElemsBytes(Entry(k, v, Nil), cfg) == ElemBytes(KeyName(k), v, cfg)
  {
    hide ElemBytes;
    var e := ElemBytes(KeyName(k), v, cfg);
    assert ElemsBytes(Nil, cfg) == [];
    assert e + [] == e;
  }

  lemma AsciiName(s: string)
    requires s != "" && forall i :: 0 <= i < |s| ==> 0 < s[i] as int < 128
    ensures Ascii(s) != [] && NulFree(Ascii(s)) && forall cfg :: NameError(Ascii(s), false, cfg) == None
  {
  }

  // --- building ---

  /** Since start, the elements of table have been written, after w. A slot reserved at the very
      end may still lie outside the allocated memory. */
  ghost predicate Since(buf: MongoBuffer, start: nat, table: Hash, w: bytes, cfg: Config)
    reads buf, buf.data
  {
    && buf.Valid()
    && buf.exception.None?
    && |w| <= start <= buf.pos
    && w <= buf.data[..]
    && if buf.pos <= buf.data.Length then buf.data[start..buf.pos] == ElemsBytes(table, cfg)
       else buf.pos == start && table == Nil
  }

  lemma Grown(before: bytes, after: bytes, w: bytes, start: nat, p: nat, q: nat, table: Hash, k: Key, v: Zval,
              cfg: Config)
    requires start <= p <= |before| && p <= q <= |after| && before[..p] <= after
    requires before[start..p] == ElemsBytes(table, cfg) && after[p..q] == ElemBytes(KeyName(k), v, cfg)
    ensures after[start..q] == ElemsBytes(Append(table, Entry(k, v, Nil)), cfg)
  {
    hide ElemsBytes, ElemBytes;
    Joined(before, after, start, p, q);
    ElemsBytesAppend(table, Entry(k, v, Nil), cfg);
    ElemsBytesOne(k, v, cfg);
  }

  predicate LegalName(name: bytes, cfg: Config) {
    NameError(name, false, cfg).None?
  }

  /** Type byte, key, and a value whose bytes are known. */
  method AddValue(buf: MongoBuffer, k: Key, v: Zval, payload: bytes, cfg: Config,
                  ghost start: nat, ghost table: Hash, ghost w: bytes)
    requires Since(buf, start, table, w, cfg) && LegalName(KeyName(k), cfg) && payload == ValueBytes(v, cfg)
    modifies buf, buf.data
    ensures buf.data == old(buf.data) || fresh(buf.data)
    ensures Since(buf, start, Append(table, Entry(k, v, Nil)), w, cfg) && buf.pos <= buf.data.Length
    ensures buf.pos == old(buf.pos) + |ElemBytes(KeyName(k), v, cfg)|
  {
    hide ElemsBytes, ValueBytes, Tag, KeyName, NameError, WireName;
    ghost var p, d0 := buf.pos, buf.data[..];
    SerializeTypedKey(buf, Tag(v), KeyName(k), false, cfg);
    ghost var mid, d1 := buf.pos, buf.data[..];
    StillWritten(w, d0, d1, p);
    buf.Put(payload);
    Joined(d1, buf.data[..], p, mid, buf.pos);
    FirstOrGrown(d0, buf.data[..], w, start, p, buf.pos, table, k, v, cfg);
  }

  lemma StillWritten(w: bytes, before: bytes, after: bytes, p: nat)
    requires |w| <= p && w <= before && (if p <= |before| then before[..p] else before) <= after
    ensures w <= after
  {
  }

  /** As Grown, also when the slot before start was still outside the memory. */
  lemma FirstOrGrown(before: bytes, after: bytes, w: bytes, start: nat, p: nat, q: nat, table: Hash, k: Key, v: Zval,
                     cfg: Config)
    requires start <= p <= q <= |after|
    requires if p <= |before| then before[start..p] == ElemsBytes(table, cfg) && before[..p] <= after
             else p == start && table == Nil
    requires after[p..q] == ElemBytes(KeyName(k), v, cfg)
    ensures after[start..q] == ElemsBytes(Append(table, Entry(k, v, Nil)), cfg)
  {
    hide ElemsBytes, ElemBytes, KeyName;
    if p <= |before| {
      Grown(before, after, w, start, p, q, table, k, v, cfg);
    } else {
      ElemsBytesOne(k, v, cfg);
    }
  }

  method AddOptionalBool(buf: MongoBuffer, name: string, b: Option<bool>, cfg: Config,
                         ghost start: nat, ghost table: Hash, ghost w: bytes)
    requires Since(buf, start, table, w, cfg) && LegalName(Ascii(name), cfg)
    modifies buf, buf.data
    ensures buf.data == old(buf.data) || fresh(buf.data)
    ensures Since(buf, start, Append(table, OptionalBool(name, b)), w, cfg)
    ensures buf.pos >= old(buf.pos)
    ensures old(buf.pos <= buf.data.Length) ==> buf.pos <= buf.data.Length
  {
    if b.Some? {
      AddValue(buf, StrKey(Ascii(name)), Bool(b.value), [if b.value then 1 else 0], cfg, start, table, w);
    } else {
      AppendNil(table);
    }
  }

  method AddOptionalInt(buf: MongoBuffer, name: string, n: int32, cfg: Config,
                        ghost start: nat, ghost table: Hash, ghost w: bytes)
    requires Since(buf, start, table, w, cfg) && LegalName(Ascii(name), cfg)
    modifies buf, buf.data
    ensures buf.data == old(buf.data) || fresh(buf.data)
    ensures Since(buf, start, Append(table, OptionalInt(name, n)), w, cfg)
    ensures buf.pos >= old(buf.pos)
    ensures old(buf.pos <= buf.data.Length) ==> buf.pos <= buf.data.Length
  {
    if n != -1 {
      AddValue(buf, StrKey(Ascii(name)), Int32(n), Le32(n), cfg, start, table, w);
    } else {
      AppendNil(table);
    }
  }

  /** Type byte OBJECT, key, and zval_to_bson: q, u and the documents of an insert. */
  method AddDocument(buf: MongoBuffer, k: Key, h: Hash, prep: bool, newId: oid, max: int, cfg: Config,
                     ghost start: nat, ghost table: Hash, ghost w: bytes) returns (h': Hash)
    requires Since(buf, start, table, w, cfg) && LegalName(KeyName(k), cfg)
    modifies buf, buf.data
    ensures buf.data == old(buf.data) || fresh(buf.data)
    ensures buf.Valid() && buf.pos <= buf.data.Length && buf.pos >= old(buf.pos) && w <= buf.data[..]
    ensures old(buf.Written()) <= buf.data[..]
    ensures h' == WithId(h, prep, newId)
    ensures buf.exception == WriteError(h, prep, newId, max, cfg)
    ensures buf.exception.None? ==> var v := Object(Written(h, prep, newId));
              Since(buf, start, Append(table, Entry(k, v, Nil)), w, cfg)
              && buf.pos == old(buf.pos) + |ElemBytes(KeyName(k), v, cfg)|
  {
    hide ElemsBytes, KeyName, NameError, WireName, DocBytes, WriteError, Written, WithId;
    ghost var p, d0 := buf.pos, buf.data[..];
    SerializeTypedKey(buf, TAG_OBJECT, KeyName(k), false, cfg);
    ghost var mid, d1 := buf.pos, buf.data[..];
    StillWritten(w, d0, d1, p);
    var num;
    num, h' := ZvalToBson(buf, h, prep, newId, max, cfg);
    StillWritten(w, d1, buf.data[..], mid);
    if buf.exception.None? {
      Joined(d1, buf.data[..], p, mid, buf.pos);
      FirstOrGrown(d0, buf.data[..], w, start, p, buf.pos, table, k, Object(Written(h, prep, newId)), cfg);
    }
  }

  /** serialize_null after the last element. */
  method Terminate(buf: MongoBuffer, cfg: Config, ghost start: nat, ghost table: Hash, ghost w: bytes)
    requires Since(buf, start, table, w, cfg)
    modifies buf, buf.data
    ensures buf.data == old(buf.data) || fresh(buf.data)
    ensures buf.Valid() && buf.exception.None? && buf.pos == old(buf.pos) + 1 <= buf.data.Length
    ensures w <= buf.data[..] && buf.data[start..buf.pos] == ElemsBytes(table, cfg) + [0]
  {
    ghost var p, d0 := buf.pos, buf.data[..];
    buf.SerializeByte(0);
    StillWritten(w, d0, buf.data[..], p);
    if p <= |d0| {
      Joined(d0, buf.data[..], start, p, buf.pos);
    } else {
      assert ElemsBytes(Nil, cfg) == [];
    }
  }

  lemma DocShape(table: Hash, cfg: Config)
    ensures var body := ElemsBytes(table, cfg) + [0]; DocBytes(table, cfg) == Le32(4 + |body|) + body
  {
    Assoc(Le32(5 + |ElemsBytes(table, cfg)|), ElemsBytes(table, cfg), [0]);
  }

  /** End of an embedded document whose size is patched in without a check. */
  method SealDocument(buf: MongoBuffer, slot: nat, cfg: Config, ghost table: Hash, ghost w: bytes)
    requires Since(buf, slot + 4, table, w, cfg) && |w| <= slot
    modifies buf, buf.data
    ensures buf.data == old(buf.data) || fresh(buf.data)
    ensures buf.Valid() && buf.exception.None? && buf.pos == old(buf.pos) + 1 <= buf.data.Length
    ensures w <= buf.data[..] && buf.data[slot..buf.pos] == DocBytes(table, cfg)
  {
    hide ElemsBytes, DocBytes, Le32;
    Terminate(buf, cfg, slot + 4, table, w);
    ghost var before := buf.data[..];
    buf.Patch(slot);
    Patched(before, buf.data[..], slot, buf.pos, ElemsBytes(table, cfg) + [0]);
    StillPrefix(w, before, buf.data[..], slot);
    DocShape(table, cfg);
  }

  /** End of a document whose size is checked and patched by php_mongo_serialize_size. */
  method CloseDocument(buf: MongoBuffer, slot: nat, max: int, cfg: Config, ghost table: Hash, ghost w: bytes)
    returns (success: bool)
    requires Since(buf, slot + 4, table, w, cfg) && |w| <= slot
    modifies buf, buf.data
    ensures buf.data == old(buf.data) || fresh(buf.data)
    ensures buf.Valid() && buf.pos == old(buf.pos) + 1 <= buf.data.Length && w <= buf.data[..]
    ensures success <==> |DocBytes(table, cfg)| <= max
    ensures success <==> buf.exception.None?
    ensures success ==> buf.data[slot..buf.pos] == DocBytes(table, cfg)
  {
    hide ElemsBytes, DocBytes, Le32;
    Terminate(buf, cfg, slot + 4, table, w);
    ghost var before := buf.data[..];
    success := CloseSlot(buf, slot, max, ElemsBytes(table, cfg) + [0]);
    StillPrefix(w, before, buf.data[..], slot);
    DocShape(table, cfg);
  }

  /** An embedded document that has just been sealed becomes an element of the table around it. */
  lemma Embedded(before: bytes, after: bytes, start: nat, p: nat, slot: nat, q: nat, outer: Hash, k: Key, inner: Hash,
                 v: Zval, cfg: Config)
    requires v == Object(inner) || (v == Arr(inner) && Tag(v) == TAG_ARRAY)
    requires start <= p <= slot <= |before| && slot <= q <= |after| && before[..slot] <= after
    requires before[start..p] == ElemsBytes(outer, cfg)
    requires before[p..slot] == [Tag(v)] + WireName(KeyName(k), cfg) + [0]
    requires after[slot..q] == DocBytes(inner, cfg)
    ensures after[start..q] == ElemsBytes(Append(outer, Entry(k, v, Nil)), cfg)
    ensures q - p == |ElemBytes(KeyName(k), v, cfg)|
  {
    hide ElemsBytes, DocBytes, KeyName, Tag, WireName;
    assert ElemBytes(KeyName(k), v, cfg) == before[p..slot] + DocBytes(inner, cfg);
    Joined(before, after, p, slot, q);
    assert before[..p] <= after;
    Grown(before, after, before[..0], start, p, q, outer, k, v, cfg);
  }

  // --- items ---

  /** php_mongo_api_insert_add, _update_add and _delete_add, with the exception each may raise. */
  function ItemError(item: WriteItem, max: int, cfg: Config): Option<int> {
    match item
    case InsertItem(doc, newId) => WriteError(doc, true, newId, max, cfg)
    case UpdateItem(q, u, _, _) => if DocError(q, max, cfg).Some? then DocError(q, max, cfg) else DocError(u, max, cfg)
    case DeleteItem(q, _) => DocError(q, max, cfg)
  }

  /** The caller's item afterwards: an inserted document has been given its _id. */
  function ItemAfter(item: WriteItem): WriteItem {
    match item
    case InsertItem(doc, newId) => InsertItem(WithId(doc, true, newId), newId)
    case _ => item
  }

  lemma NamesAreLegal(cfg: Config)
    ensures LegalName(Ascii("q"), cfg) && LegalName(Ascii("u"), cfg)
    ensures LegalName(Ascii("multi"), cfg) && LegalName(Ascii("upsert"), cfg) && LegalName(Ascii("limit"), cfg)
    ensures LegalName(Ascii("fsync"), cfg) && LegalName(Ascii("j"), cfg)
    ensures LegalName(Ascii("wtimeout"), cfg) && LegalName(Ascii("w"), cfg)
    ensures LegalName(Ascii("ordered"), cfg) && LegalName(Ascii("writeConcern"), cfg)
    ensures forall typ :: LegalName(Ascii(CommandName(typ)), cfg) && LegalName(Ascii(FieldName(typ)), cfg)
    ensures forall n :: LegalName(Dec(n), cfg)
  {
    AsciiName("q");
    AsciiName("u");
    AsciiName("multi");
    AsciiName("upsert");
    AsciiName("limit");
    AsciiName("fsync");
    AsciiName("j");
    AsciiName("wtimeout");
    AsciiName("w");
    AsciiName("ordered");
    AsciiName("writeConcern");
    forall typ: WriteType
      ensures LegalName(Ascii(CommandName(typ)), cfg) && LegalName(Ascii(FieldName(typ)), cfg)
    {
      AsciiName(CommandName(typ));
      AsciiName(FieldName(typ));
    }
  }

  /** The arguments of an update, after the slot for their size. */
  method AddUpdateArgs(buf: MongoBuffer, q: Hash, u: Hash, multi: Option<bool>, upsert: Option<bool>, max: int,
                       cfg: Config, ghost start: nat, ghost w: bytes)
    requires Since(buf, start, Nil, w, cfg)
    modifies buf, buf.data
    ensures buf.data == old(buf.data) || fresh(buf.data)
    ensures buf.Valid() && buf.pos >= old(buf.pos) && w <= buf.data[..] && buf.pos <= buf.data.Length
    ensures buf.exception == ItemError(UpdateItem(q, u, multi, upsert), max, cfg)
    ensures buf.exception.None? ==> Since(buf, start, ItemTable(UpdateItem(q, u, multi, upsert)), w, cfg)
  {
    hide NameError, DocError, WriteError, ElemsBytes, ElemBytes, Written, WithId, Since;
    NamesAreLegal(cfg);
    WithoutPrep(q, NO_ID, max, cfg);
    WithoutPrep(u, NO_ID, max, cfg);
    var h' := AddDocument(buf, StrKey(Ascii("q")), q, false, NO_ID, max, cfg, start, Nil, w);
    if buf.exception.Some? {
      return;
    }
    var t1 := Field("q", Object(q));
    h' := AddDocument(buf, StrKey(Ascii("u")), u, false, NO_ID, max, cfg, start, t1, w);
    if buf.exception.Some? {
      return;
    }
    var t2 := Append(t1, Field("u", Object(u)));
    AddOptionalBool(buf, "multi", multi, cfg, start, t2, w);
    AddOptionalBool(buf, "upsert", upsert, cfg, start, Append(t2, OptionalBool("multi", multi)), w);
    SinceKeeps(buf, start, ItemTable(UpdateItem(q, u, multi, upsert)), w, cfg);
  }

  lemma SinceKeeps(buf: MongoBuffer, start: nat, table: Hash, w: bytes, cfg: Config)
    requires Since(buf, start, table, w, cfg)
    ensures buf.Valid() && buf.exception.None? && w <= buf.data[..]
  {
  }

  method AddDeleteArgs(buf: MongoBuffer, q: Hash, limit: int32, max: int, cfg: Config, ghost start: nat, ghost w: bytes)
    requires Since(buf, start, Nil, w, cfg)
    modifies buf, buf.data
    ensures buf.data == old(buf.data) || fresh(buf.data)
    ensures buf.Valid() && buf.pos >= old(buf.pos) && w <= buf.data[..] && buf.pos <= buf.data.Length
    ensures buf.exception == ItemError(DeleteItem(q, limit), max, cfg)
    ensures buf.exception.None? ==> Since(buf, start, ItemTable(DeleteItem(q, limit)), w, cfg)
  {
    hide NameError, DocError, WriteError, ElemsBytes, Written, WithId;
    NamesAreLegal(cfg);
    WithoutPrep(q, NO_ID, max, cfg);
    var h' := AddDocument(buf, StrKey(Ascii("q")), q, false, NO_ID, max, cfg, start, Nil, w);
    if buf.exception.None? {
      AddOptionalInt(buf, "limit", limit, cfg, start, Field("q", Object(q)), w);
    }
  }

  method AddItemArgs(buf: MongoBuffer, item: WriteItem, max: int, cfg: Config, ghost start: nat, ghost w: bytes)
    requires !item.InsertItem? && Since(buf, start, Nil, w, cfg)
    modifies buf, buf.data
    ensures buf.data == old(buf.data) || fresh(buf.data)
    ensures buf.Valid() && buf.pos >= old(buf.pos) && w <= buf.data[..] && buf.pos <= buf.data.Length
    ensures buf.exception == ItemError(item, max, cfg)
    ensures buf.exception.None? ==> Since(buf, start, ItemTable(item), w, cfg)
  {
    hide ItemError, ItemTable, ElemsBytes;
    match item {
      case UpdateItem(q, u, multi, upsert) => AddUpdateArgs(buf, q, u, multi, upsert, max, cfg, start, w);
      case DeleteItem(q, limit) => AddDeleteArgs(buf, q, limit, max, cfg, start, w);
    }
  }

  /** The document opened at slot, whose elements are those of inner, is ended and becomes element k of outer. */
  method SealInto(buf: MongoBuffer, slot: nat, cfg: Config, ghost k: Key, ghost inner: Hash, ghost d: bytes,
                  ghost start: nat, ghost p: nat, ghost outer: Hash, ghost w: bytes)
    requires Since(buf, slot + 4, inner, d, cfg) && |d| == slot
    requires |w| <= start <= p <= slot && w <= d && d[start..p] == ElemsBytes(outer, cfg)
    requires d[p..slot] == [TAG_OBJECT] + WireName(KeyName(k), cfg) + [0]
    modifies buf, buf.data
    ensures buf.data == old(buf.data) || fresh(buf.data)
    ensures Since(buf, start, Append(outer, Entry(k, Object(inner), Nil)), w, cfg) && buf.pos <= buf.data.Length
    ensures buf.pos == p + |ElemBytes(KeyName(k), Object(inner), cfg)| && d <= buf.data[..]
  {
    hide ElemsBytes, ElemBytes, DocBytes, KeyName, WireName;
    SealDocument(buf, slot, cfg, inner, d);
    Embedded(d, buf.data[..], start, p, slot, buf.pos, outer, k, inner, Object(inner), cfg);
  }

  lemma PrefixOfPrefix(a: bytes, b: bytes, c: bytes)
    requires a <= b <= c
    ensures a <= c
  {
  }

  /** php_mongo_api_update_add and _delete_add: element n holds the arguments as a document. */
  method AddArgs(buf: MongoBuffer, n: index, item: WriteItem, max: int, cfg: Config,
                 ghost start: nat, ghost table: Hash, ghost w: bytes)
    requires !item.InsertItem? && n >= 0
    requires Since(buf, start, table, w, cfg)
    modifies buf, buf.data
    ensures buf.data == old(buf.data) || fresh(buf.data)
    ensures buf.Valid() && buf.pos >= old(buf.pos) && w <= buf.data[..] && buf.pos <= buf.data.Length
    ensures old(buf.Written()) <= buf.data[..]
    ensures buf.exception == ItemError(item, max, cfg)
    ensures buf.exception.None? ==> var v := Object(ItemTable(item));
              Since(buf, start, Append(table, Entry(IntKey(n), v, Nil)), w, cfg)
              && buf.pos == old(buf.pos) + |ElemBytes(Dec(n), v, cfg)|
  {
    hide NameError, ItemError, ItemTable, ElemsBytes, ElemBytes, DocBytes, WireName;
    NamesAreLegal(cfg);
    ghost var p, was := buf.pos, buf.Written();
    var slot := OpenDocument(buf, IntKey(n), TAG_OBJECT, cfg, start, table, w);
    ghost var d := buf.data[..slot];
    assert d[start..p] == buf.data[start..p] && d[p..slot] == buf.data[p..slot];
    AddItemArgs(buf, item, max, cfg, slot + 4, d);
    if buf.exception.None? {
      SealInto(buf, slot, cfg, IntKey(n), ItemTable(item), d, start, p, table, w);
    }
    PrefixOfPrefix(w, d, buf.data[..]);
    PrefixOfPrefix(was, d, buf.data[..]);
  }

  /** Type byte, key, and a slot for the size of the document that follows. */
  method OpenDocument(buf: MongoBuffer, k: Key, tag: byte, cfg: Config, ghost start: nat, ghost table: Hash,
                      ghost w: bytes)
    returns (slot: nat)
    requires Since(buf, start, table, w, cfg) && LegalName(KeyName(k), cfg)
    modifies buf, buf.data
    ensures buf.data == old(buf.data) || fresh(buf.data)
    ensures old(buf.pos) < slot <= buf.data.Length && buf.pos == slot + 4
    ensures w <= buf.data[..slot] && buf.data[start..old(buf.pos)] == ElemsBytes(table, cfg)
    ensures old(buf.Written()) <= buf.data[..slot]
    ensures buf.data[old(buf.pos)..slot] == [tag] + WireName(KeyName(k), cfg) + [0]
    ensures Since(buf, slot + 4, Nil, buf.data[..slot], cfg)
  {
    hide NameError, ElemsBytes, WireName, KeyName;
    EmptyTable(cfg);
    ghost var p, d0 := buf.pos, buf.data[..];
    SerializeTypedKey(buf, tag, KeyName(k), false, cfg);
    StillWritten(w, d0, buf.data[..], p);
    slot := buf.pos;
    if p <= |d0| {
      assert buf.data[start..p] == d0[start..p];
    } else {
      assert buf.data[start..p] == [];
    }
    buf.Reserve();
  }

  lemma EmptyTable(cfg: Config)
    ensures ElemsBytes(Nil, cfg) == []
  {
  }

  // --- the message around the command ---

  /** php_mongo_serialize_ns: a collection part that starts with the command character gets '$'. */
  function WireNs(ns: bytes, cfg: Config): (w: bytes)
    ensures |w| == |ns|
  {
    var dot := CStrings.IndexOf(ns, 46);
    if cfg.cmdChar.Some? && dot + 1 < |ns| && ns[dot + 1] == cfg.cmdChar.value then ns[dot + 1 := 36] else ns
  }

  /** Request id, response to, opcode, flags, namespace, number to skip, number to return. */
  function MessageHead(requestId: int, ns: bytes, cfg: Config): bytes {
    Le32(requestId) + Le32(0) + Le32(OP_QUERY) + Le32(0) + (WireNs(ns, cfg) + [0]) + Le32(0) + Le32(-1)
  }

  /** Since start, exactly these bytes. */
  ghost predicate Raw(buf: MongoBuffer, start: nat, bs: bytes)
    reads buf, buf.data
  {
    buf.Valid() && buf.exception.None? && start <= buf.pos <= buf.data.Length && buf.data[start..buf.pos] == bs
  }

  method Emit(buf: MongoBuffer, bs: bytes, ghost start: nat, ghost before: bytes)
    requires Raw(buf, start, before)
    modifies buf, buf.data
    ensures buf.data == old(buf.data) || fresh(buf.data)
    ensures Raw(buf, start, before + bs) && buf.pos == old(buf.pos) + |bs|
  {
    ghost var p, d := buf.pos, buf.data[..];
    buf.Put(bs);
    Joined(d, buf.data[..], start, p, buf.pos);
  }

  /** Ids, operation, flags, namespace, and the numbers to skip and to return. */
  method EmitHead(buf: MongoBuffer, ns: bytes, requestId: int, cfg: Config)
    requires Raw(buf, 4, []) && buf.pos == 4 && 46 in ns
    modifies buf, buf.data
    ensures buf.data == old(buf.data) || fresh(buf.data)
    ensures Raw(buf, 4, MessageHead(requestId, ns, cfg)) && buf.pos == |ns| + 29
  {
    hide Le32, WireNs, Raw;
    Emit(buf, Le32(requestId), 4, []);
    assert [] + Le32(requestId) == Le32(requestId);
    Emit(buf, Le32(0), 4, Le32(requestId));
    ghost var m := Le32(requestId) + Le32(0);
    Emit(buf, Le32(OP_QUERY), 4, m);
    m := m + Le32(OP_QUERY);
    Emit(buf, Le32(0), 4, m);
    m := m + Le32(0);
    Emit(buf, WireNs(ns, cfg) + [0], 4, m);
    m := m + (WireNs(ns, cfg) + [0]);
    Emit(buf, Le32(0), 4, m);
    Emit(buf, Le32(-1), 4, m + Le32(0));
  }

  /** php_mongo_api_write_header: where the command document will start. */
  method WriteHeader(buf: MongoBuffer, ns: bytes, requestId: int, cfg: Config) returns (container: nat)
    requires buf.Valid() && buf.pos == 0 && buf.exception.None? && 46 in ns
    modifies buf, buf.data
    ensures buf.data == old(buf.data) || fresh(buf.data)
    ensures buf.Valid() && buf.exception.None? && container <= buf.data.Length
    ensures container == |ns| + 29 && buf.pos == container + 4
    ensures buf.data[4..container] == MessageHead(requestId, ns, cfg)
  {
    hide MessageHead;
    buf.Reserve();
    EmitHead(buf, ns, requestId, cfg);
    container := buf.pos;
    buf.Reserve();
  }

  /** The command's first field, then type and name of the array of items. */
  function StartBytes(typ: WriteType, collection: cstring, cfg: Config): bytes {
    ElemsBytes(Field(CommandName(typ), Str(collection)), cfg) +
    ([TAG_ARRAY] + WireName(Ascii(FieldName(typ)), cfg) + [0])
  }

  /** A batch under construction: message head, start of the command, items so far. */
  ghost predicate InBatch(buf: MongoBuffer, container: nat, batch: nat, head: bytes, typ: WriteType,
                          collection: cstring, items: seq<WriteItem>, cfg: Config)
    reads buf, buf.data
  {
    && |items| <= LONG_MAX
    && 4 <= container && container + 4 <= batch <= buf.data.Length
    && buf.data[4..container] == head
    && buf.data[container + 4..batch] == StartBytes(typ, collection, cfg)
    && Since(buf, batch + 4, ItemsTable(items), buf.data[..batch], cfg)
  }

  /** php_mongo_api_write_start: where the array of items will start. */
  method WriteStart(buf: MongoBuffer, container: nat, typ: WriteType, collection: cstring, cfg: Config)
    returns (batch: nat)
    requires buf.Valid() && buf.exception.None? && 4 <= container <= buf.data.Length && buf.pos == container + 4
    modifies buf, buf.data
    ensures buf.data == old(buf.data) || fresh(buf.data)
    ensures InBatch(buf, container, batch, old(buf.data[4..container]), typ, collection, [], cfg)
    ensures buf.pos == batch + 4 && batch == container + 4 + |StartBytes(typ, collection, cfg)|
  {
    hide NameError, ElemsBytes, WireName, StartBytes;
    NamesAreLegal(cfg);
    EmptyTable(cfg);
    ghost var w := buf.data[..container];
    ghost var start := container + 4;
    ghost var table := Field(CommandName(typ), Str(collection));
    AddValue(buf, StrKey(Ascii(CommandName(typ))), Str(collection), StringBytes(collection), cfg, start, Nil, w);
    ghost var p := buf.pos;
    batch := OpenDocument(buf, StrKey(Ascii(FieldName(typ))), TAG_ARRAY, cfg, start, table, w);
    StartIsWritten(w, buf.data[..], container, p, batch, typ, collection, cfg);
  }

  lemma StartIsWritten(w: bytes, d: bytes, container: nat, p: nat, batch: nat, typ: WriteType, collection: cstring,
                       cfg: Config)
    requires 4 <= container == |w| && container + 4 <= p <= batch <= |d| && w <= d
    requires d[container + 4..p] == ElemsBytes(Field(CommandName(typ), Str(collection)), cfg)
    requires d[p..batch] == [TAG_ARRAY] + WireName(Ascii(FieldName(typ)), cfg) + [0]
    ensures d[4..container] == w[4..] && d[container + 4..batch] == StartBytes(typ, collection, cfg)
  {
    hide ElemsBytes, WireName;
    assert d[4..container] == d[..container][4..] == w[4..];
    Joined(d, d, container + 4, p, batch);
  }

  datatype AddStatus = Success | Failure | Overflow

  /** How much an item adds to a batch that holds n. */
  function ItemSize(n: index, item: WriteItem, cfg: Config): nat {
    |ElemBytes(Dec(n), Object(ItemTable(item)), cfg)|
  }

  /** Element n is written, whatever becomes of it. */
  method AddItem(buf: MongoBuffer, n: nat, item: WriteItem, max: int, cfg: Config, ghost start: nat, ghost table: Hash,
                 ghost w: bytes)
    returns (item': WriteItem)
    requires Since(buf, start, table, w, cfg) && n <= LONG_MAX
    modifies buf, buf.data
    ensures buf.data == old(buf.data) || fresh(buf.data)
    ensures item' == ItemAfter(item) && buf.exception == ItemError(item, max, cfg)
    ensures buf.Valid() && w <= buf.data[..] && old(buf.Written()) <= buf.data[..] && old(buf.pos) <= buf.pos
    ensures buf.exception.None? ==>
              && Since(buf, start, Append(table, Entry(IntKey(n), Object(ItemTable(item)), Nil)), w, cfg)
              && buf.pos == old(buf.pos) + ItemSize(n, item, cfg)
  {
    hide ElemsBytes, ElemBytes, ItemError, WriteError, Written, Since;
    item' := item;
    if item.InsertItem? {
      assert LegalName(Dec(n), cfg) by { NamesAreLegal(cfg); }
      var doc' := AddDocument(buf, IntKey(n), item.doc, true, item.newId, max, cfg, start, table, w);
      item' := InsertItem(doc', item.newId);
      ItemErrorOfInsert(item, max, cfg);
    } else {
      AddArgs(buf, n, item, max, cfg, start, table, w);
    }
  }

  /** The batch as it was before the item that came last. */
  lemma RolledBack(before: bytes, after: bytes, start: nat, rollback: nat, table: Hash, w: bytes, cfg: Config)
    requires |w| <= start <= rollback <= |after| && w <= after
    requires (if rollback <= |before| then before[..rollback] else before) <= after
    requires if rollback <= |before| then before[start..rollback] == ElemsBytes(table, cfg)
             else rollback == start && table == Nil
    ensures after[start..rollback] == ElemsBytes(table, cfg)
  {
    if rollback <= |before| {
      assert after[start..rollback] == before[start..rollback];
    }
  }

  /** php_mongo_api_write_add: item n of a batch, rolled back when it does not fit the wire. */
  method WriteAdd(buf: MongoBuffer, n: nat, item: WriteItem, max: int, cfg: Config, ghost container: nat,
                  ghost batch: nat, ghost head: bytes, ghost typ: WriteType, ghost collection: cstring,
                  ghost items: seq<WriteItem>)
    returns (status: AddStatus, item': WriteItem)
    requires InBatch(buf, container, batch, head, typ, collection, items, cfg) && n == |items| < LONG_MAX
    modifies buf, buf.data
    ensures buf.data == old(buf.data) || fresh(buf.data)
    ensures item' == ItemAfter(item)
    ensures buf.exception == ItemError(item, max, cfg)
    ensures status == if ItemError(item, max, cfg).Some? then Failure
                      else if old(buf.pos) + ItemSize(n, item, cfg) > MaxWireSize(max) then Overflow else Success
    ensures status.Success? ==> InBatch(buf, container, batch, head, typ, collection, items + [item], cfg)
    ensures status.Success? ==> buf.pos == old(buf.pos) + ItemSize(n, item, cfg)
    ensures status.Overflow? ==> InBatch(buf, container, batch, head, typ, collection, items, cfg)
    ensures status.Overflow? ==> buf.pos == old(buf.pos) && old(buf.Written()) <= buf.data[..]
  {
    hide ElemsBytes, ElemBytes, ItemError, ItemsTable, ItemTable, StartBytes, ItemAfter, ItemSize;
    var rollback := buf.pos;
    ghost var d0 := buf.data[..];
    item' := AddItem(buf, n, item, max, cfg, batch + 4, ItemsTable(items), d0[..batch]);
    if buf.exception.Some? {
      return Failure, item';
    }
    HeadKept(d0, buf.data[..], container, batch);
    if buf.pos > MaxWireSize(max) {
      RolledBack(d0, buf.data[..], batch + 4, rollback, ItemsTable(items), d0[..batch], cfg);
      buf.pos := rollback;
      return Overflow, item';
    }
    ItemsTableGrows(items, item);
    return Success, item';
  }

  lemma HeadKept(before: bytes, after: bytes, container: nat, batch: nat)
    requires 4 <= container && container + 4 <= batch <= |before| && before[..batch] <= after
    ensures after[..batch] == before[..batch] && after[4..container] == before[4..container]
    ensures after[container + 4..batch] == before[container + 4..batch]
  {
    assert after[..batch] == before[..batch];
    assert after[4..container] == after[..batch][4..container];
    assert before[4..container] == before[..batch][4..container];
    assert after[container + 4..batch] == after[..batch][container + 4..];
    assert before[container + 4..batch] == before[..batch][container + 4..];
  }

  lemma ItemErrorOfInsert(item: WriteItem, max: int, cfg: Config)
    requires item.InsertItem?
    ensures ItemError(item, max, cfg) == WriteError(item.doc, true, item.newId, max, cfg)
    ensures ItemTable(item) == Written(item.doc, true, item.newId)
  {
  }

  lemma ItemsTableGrows(items: seq<WriteItem>, item: WriteItem)
    requires |items| < LONG_MAX
    ensures ItemsTable(items + [item]) ==
              Append(ItemsTable(items), Entry(IntKey(|items|), Object(ItemTable(item)), Nil))
  {
    assert (items + [item])[..|items|] == items;
  }

  lemma {:induction false} ItemsTableIsNumeric(items: seq<WriteItem>)
    requires |items| <= LONG_MAX
    ensures Count(ItemsTable(items)) == |items| && NumericFrom(ItemsTable(items), 0)
  {
    if items != [] {
      var last := |items| - 1;
      ItemsTableIsNumeric(items[..last]);
      NumericAppend(ItemsTable(items[..last]), 0, Object(ItemTable(items[last])));
    }
  }

  lemma {:induction false} NumericAppend(h: Hash, n: nat, v: Zval)
    requires NumericFrom(h, n) && n + Count(h) <= LONG_MAX
    ensures var h' := Append(h, Entry(IntKey(n + Count(h)), v, Nil));
      NumericFrom(h', n) && Count(h') == Count(h) + 1
  {
    if h.Entry? {
      NumericAppend(h.rest, n + 1, v);
    }
  }

  // --- options and the end of the message ---

  method AddConcern(buf: MongoBuffer, o: WriteOptions, cfg: Config, ghost start: nat, ghost w: bytes)
    requires Since(buf, start, Nil, w, cfg)
    modifies buf, buf.data
    ensures buf.data == old(buf.data) || fresh(buf.data)
    ensures Since(buf, start, ConcernTable(o), w, cfg)
  {
    hide NameError, ElemsBytes, ElemBytes, Since;
    NamesAreLegal(cfg);
    AddOptionalBool(buf, "fsync", o.fsync, cfg, start, Nil, w);
    ghost var t1 := OptionalBool("fsync", o.fsync);
    AddOptionalBool(buf, "j", o.j, cfg, start, t1, w);
    ghost var t2 := Append(t1, OptionalBool("j", o.j));
    AddOptionalInt(buf, "wtimeout", o.wtimeout, cfg, start, t2, w);
    ghost var t3 := Append(t2, OptionalInt("wtimeout", o.wtimeout));
    match o.w
    case NoW => AppendNil(t3);
    case WNumber(n) => AddValue(buf, StrKey(Ascii("w")), Int32(n), Le32(n), cfg, start, t3, w);
    case WTag(tag) => AddValue(buf, StrKey(Ascii("w")), Str(tag), StringBytes(tag), cfg, start, t3, w);
  }

  /** The document of the write concern. */
  method AddConcernField(buf: MongoBuffer, o: WriteOptions, cfg: Config, ghost start: nat, ghost table: Hash,
                         ghost w: bytes)
    requires Since(buf, start, table, w, cfg) && buf.pos <= buf.data.Length
    modifies buf, buf.data
    ensures buf.data == old(buf.data) || fresh(buf.data)
    ensures Since(buf, start, Append(table, Field("writeConcern", Object(ConcernTable(o)))), w, cfg)
  {
    hide NameError, ElemsBytes, DocBytes, ConcernTable, WireName;
    NamesAreLegal(cfg);
    ghost var p := buf.pos;
    var slot := OpenDocument(buf, StrKey(Ascii("writeConcern")), TAG_OBJECT, cfg, start, table, w);
    ghost var d := buf.data[..slot];
    assert d[start..p] == buf.data[start..p] && d[p..slot] == buf.data[p..slot];
    AddConcern(buf, o, cfg, slot + 4, d);
    SealInto(buf, slot, cfg, StrKey(Ascii("writeConcern")), ConcernTable(o), d, start, p, table, w);
  }

  /** php_mongo_api_add_write_options */
  method AddWriteOptions(buf: MongoBuffer, o: WriteOptions, cfg: Config, ghost start: nat, ghost table: Hash,
                         ghost w: bytes)
    requires Since(buf, start, table, w, cfg) && buf.pos <= buf.data.Length
    modifies buf, buf.data
    ensures buf.data == old(buf.data) || fresh(buf.data)
    ensures Since(buf, start, Append(table, OptionsTable(Some(o))), w, cfg)
  {
    hide Since, NameError, ConcernTable;
    NamesAreLegal(cfg);
    AddOptionalBool(buf, "ordered", o.ordered, cfg, start, table, w);
    AddConcernField(buf, o, cfg, start, Append(table, OptionalBool("ordered", o.ordered)), w);
    AppendAssoc(table, OptionalBool("ordered", o.ordered), Field("writeConcern", Object(ConcernTable(o))));
  }

  lemma StartParts(d: bytes, container: nat, batch: nat, typ: WriteType, collection: cstring, cfg: Config)
    requires container + 4 <= batch <= |d| && d[container + 4..batch] == StartBytes(typ, collection, cfg)
    ensures var p := container + 4 + |ElemsBytes(Field(CommandName(typ), Str(collection)), cfg)|;
      && p <= batch
      && d[container + 4..p] == ElemsBytes(Field(CommandName(typ), Str(collection)), cfg)
      && d[p..batch] == [TAG_ARRAY] + WireName(Ascii(FieldName(typ)), cfg) + [0]
  {
    hide ElemsBytes, WireName;
    var first := ElemsBytes(Field(CommandName(typ), Str(collection)), cfg);
    var second := [TAG_ARRAY] + WireName(Ascii(FieldName(typ)), cfg) + [0];
    Split(first, second);
    var s := d[container + 4..batch];
    assert s[..|first|] == d[container + 4..container + 4 + |first|];
    assert s[|first|..] == d[container + 4 + |first|..batch];
  }

  /** The items closed as an array and taken into the command. */
  method CloseItems(buf: MongoBuffer, container: nat, batch: nat, max: int, cfg: Config, ghost head: bytes,
                    ghost typ: WriteType, ghost collection: cstring, ghost items: seq<WriteItem>)
    returns (success: bool)
    requires InBatch(buf, container, batch, head, typ, collection, items, cfg)
    modifies buf, buf.data
    ensures buf.data == old(buf.data) || fresh(buf.data)
    ensures success <==> |DocBytes(ItemsTable(items), cfg)| <= max
    ensures success <==> buf.exception.None?
    ensures success ==> buf.pos <= buf.data.Length && container <= buf.data.Length && buf.data[4..container] == head
    ensures success ==> Since(buf, container + 4, CommandTable(typ, collection, items, None),
                              buf.data[..container], cfg)
  {
    hide ElemsBytes, ItemsTable, StartBytes, DocBytes;
    ghost var d := buf.data[..batch];
    success := CloseDocument(buf, batch, max, cfg, ItemsTable(items), d);
    if success {
      ghost var after := buf.data[..];
      HeadKept(d, after, container, batch);
      StartParts(d, container, batch, typ, collection, cfg);
      ghost var outer := Field(CommandName(typ), Str(collection));
      ghost var p := container + 4 + |ElemsBytes(outer, cfg)|;
      ItemsTableIsNumeric(items);
      BsonRoundTrip.ArrayTag(ItemsTable(items));
      Embedded(d, after, container + 4, p, batch, buf.pos, outer, StrKey(Ascii(FieldName(typ))), ItemsTable(items),
               Arr(ItemsTable(items)), cfg);
      AppendNil(CommandTable(typ, collection, items, None));
      AppendNil(Append(outer, Field(FieldName(typ), Arr(ItemsTable(items)))));
    }
  }

  /** php_mongo_api_write_end: the message length, or 0 with an exception when it is too large. */
  method WriteEnd(buf: MongoBuffer, container: nat, batch: nat, max: int, o: Option<WriteOptions>, cfg: Config,
                  ghost head: bytes, ghost typ: WriteType, ghost collection: cstring, ghost items: seq<WriteItem>)
    returns (length: int)
    requires InBatch(buf, container, batch, head, typ, collection, items, cfg)
    modifies buf, buf.data
    ensures buf.data == old(buf.data) || fresh(buf.data)
    ensures length == 0 <==> buf.exception.Some?
    ensures length != 0 <==> container + |DocBytes(CommandTable(typ, collection, items, o), cfg)| <= max
    ensures length != 0 ==>
              && length == buf.pos <= buf.data.Length && container <= length
              && buf.data[..4] == Le32(length)
              && buf.data[4..container] == head
              && buf.data[container..length] == DocBytes(CommandTable(typ, collection, items, o), cfg)
  {
    hide ElemsBytes, ItemsTable, StartBytes, DocBytes, OptionsTable, Le32, CommandTable;
    ghost var table := CommandTable(typ, collection, items, o);
    ItemsWithinCommand(typ, collection, items, o, cfg);
    var success := CloseItems(buf, container, batch, max, cfg, head, typ, collection, items);
    if !success {
      return 0;
    }
    ghost var w := buf.data[..container];
    ghost var sofar := CommandTable(typ, collection, items, None);
    WithOptions(typ, collection, items, o);
    if o.Some? {
      AddWriteOptions(buf, o.value, cfg, container + 4, sofar, w);
    }
    assert buf.data[4..container] == w[4..] == head;
    length := CloseMessage(buf, container, max, cfg, table, w);
  }

  /** The terminator of the command, its size, and the length of the whole message. */
  method CloseMessage(buf: MongoBuffer, container: nat, max: int, cfg: Config, ghost table: Hash, ghost w: bytes)
    returns (length: int)
    requires Since(buf, container + 4, table, w, cfg) && 4 <= container == |w|
    modifies buf, buf.data
    ensures buf.data == old(buf.data) || fresh(buf.data)
    ensures length == 0 <==> buf.exception.Some?
    ensures length != 0 <==> container + |DocBytes(table, cfg)| <= max
    ensures length != 0 ==> length == buf.pos <= buf.data.Length && container <= length
    ensures length != 0 ==> buf.data[..4] == Le32(length) && buf.data[4..container] == w[4..]
    ensures length != 0 ==> buf.data[container..length] == DocBytes(table, cfg)
  {
    hide ElemsBytes, DocBytes, Le32;
    var success := CloseDocument(buf, container, max, cfg, table, w);
    if !success {
      return 0;
    }
    ghost var d := buf.data[..];
    assert d[4..container] == d[..container][4..] == w[4..];
    success := buf.SerializeSize(0, max);
    if !success {
      return 0;
    }
    Resized(d, buf.data[..], buf.pos, container);
    return buf.pos;
  }

  lemma WithOptions(typ: WriteType, collection: cstring, items: seq<WriteItem>, o: Option<WriteOptions>)
    requires |items| <= LONG_MAX
    ensures CommandTable(typ, collection, items, o) ==
              Append(CommandTable(typ, collection, items, None), OptionsTable(o))
    ensures o.None? ==> CommandTable(typ, collection, items, o) == CommandTable(typ, collection, items, None)
  {
    AppendNil(Append(Field(CommandName(typ), Str(collection)), Field(FieldName(typ), Arr(ItemsTable(items)))));
  }

  lemma Resized(before: bytes, after: bytes, pos: nat, container: nat)
    requires 4 <= container <= pos <= |before|
    requires after == before[..0] + Le32(pos - 0) + before[4..]
    ensures after[..4] == Le32(pos) && after[4..container] == before[4..container]
    ensures after[container..pos] == before[container..pos]
  {
    hide Le32;
    assert after == Le32(pos) + before[4..];
  }

  /** The array of items is shorter than the command that holds it. */
  lemma ItemsWithinCommand(typ: WriteType, collection: cstring, items: seq<WriteItem>, o: Option<WriteOptions>,
                           cfg: Config)
    requires |items| <= LONG_MAX
    ensures |DocBytes(ItemsTable(items), cfg)| < |DocBytes(CommandTable(typ, collection, items, o), cfg)|
  {
    hide ElemsBytes, ItemsTable, OptionsTable;
    var one := Field(CommandName(typ), Str(collection));
    var two := Field(FieldName(typ), Arr(ItemsTable(items)));
    ElemsBytesAppend(Append(one, two), OptionsTable(o), cfg);
    ElemsBytesAppend(one, two, cfg);
    ElemsBytesOne(StrKey(Ascii(FieldName(typ))), Arr(ItemsTable(items)), cfg);
  }
}
