/** What a finished write command says to a server that decodes it. */
module WriteMeaning {
  import opened Bytes
  import opened Values
  import opened Bson
  import opened BsonDecode
  import opened BsonEncoder
  import BsonMeaning
  import opened BsonRoundTrip
  import opened WriteCommand
  import opened WriteNames

  // --- soundness of what was accepted ---

  /** No regex in the item holds a NUL. */
  predicate CleanItem(item: WriteItem) {
    match item
    case InsertItem(doc, newId) => CleanHash(Written(doc, true, newId))
    case UpdateItem(q, u, _, _) => CleanHash(q) && CleanHash(u)
    case DeleteItem(q, _) => CleanHash(q)
  }

  lemma {:induction false} SoundAppend(a: Hash, b: Hash)
    ensures Sound(Append(a, b)) <==> Sound(a) && Sound(b)
  {
    if a.Entry? {
      SoundAppend(a.rest, b);
    }
  }

  lemma SoundField(name: string, v: Zval)
    requires name != "" && (forall i :: 0 <= i < |name| ==> 0 < name[i] as int < 128) && SoundValue(v)
    ensures Sound(Field(name, v))
  {
    AsciiName(name);
  }

  lemma AcceptedItemIsSound(item: WriteItem, max: int, cfg: Config)
    requires ItemError(item, max, cfg).None? && CleanItem(item)
    ensures Sound(ItemTable(item))
  {
    hide Sound, ElemsError;
    match item
    case InsertItem(doc, newId) => AcceptedIsSound(Written(doc, true, newId), true, cfg);
    case UpdateItem(q, u, multi, upsert) =>
      AcceptedIsSound(q, false, cfg);
      AcceptedIsSound(u, false, cfg);
      SoundField("q", Object(q));
      SoundField("u", Object(u));
      SoundBool("multi", multi);
      SoundBool("upsert", upsert);
      SoundAppend(Field("q", Object(q)), Field("u", Object(u)));
      SoundAppend(Append(Field("q", Object(q)), Field("u", Object(u))), OptionalBool("multi", multi));
      SoundAppend(Append(Append(Field("q", Object(q)), Field("u", Object(u))), OptionalBool("multi", multi)),
                  OptionalBool("upsert", upsert));
    case DeleteItem(q, limit) =>
      AcceptedIsSound(q, false, cfg);
      SoundField("q", Object(q));
      SoundInt("limit", limit);
      SoundAppend(Field("q", Object(q)), OptionalInt("limit", limit));
  }

  lemma SoundBool(name: string, b: Option<bool>)
    requires name != "" && (forall i :: 0 <= i < |name| ==> 0 < name[i] as int < 128)
    ensures Sound(OptionalBool(name, b))
  {
    if b.Some? {
      SoundField(name, Bool(b.value));
    }
  }

  lemma SoundInt(name: string, n: int32)
    requires name != "" && (forall i :: 0 <= i < |name| ==> 0 < name[i] as int < 128)
    ensures Sound(OptionalInt(name, n))
  {
    if n != -1 {
      SoundField(name, Int32(n));
    }
  }

  lemma {:induction false} ItemsAreSound(items: seq<WriteItem>)
    requires |items| <= LONG_MAX && forall i :: 0 <= i < |items| ==> Sound(ItemTable(items[i]))
    ensures Sound(ItemsTable(items))
  {
    hide ItemTable;
    if items != [] {
      var last := |items| - 1;
      ItemsAreSound(items[..last]);
      SoundAppend(ItemsTable(items[..last]), Entry(IntKey(last), Object(ItemTable(items[last])), Nil));
    }
  }

  lemma ConcernIsSound(o: WriteOptions)
    ensures Sound(ConcernTable(o))
  {
    hide Sound;
    SoundBool("fsync", o.fsync);
    SoundBool("j", o.j);
    SoundInt("wtimeout", o.wtimeout);
    var t1 := OptionalBool("fsync", o.fsync);
    var t2 := Append(t1, OptionalBool("j", o.j));
    var t3 := Append(t2, OptionalInt("wtimeout", o.wtimeout));
    SoundAppend(t1, OptionalBool("j", o.j));
    SoundAppend(t2, OptionalInt("wtimeout", o.wtimeout));
    match o.w
    case NoW => SoundAppend(t3, Nil); assert Sound(Nil) by { SoundNil(); }
    case WNumber(n) => SoundField("w", Int32(n)); SoundAppend(t3, Field("w", Int32(n)));
    case WTag(tag) => SoundField("w", Str(tag)); SoundAppend(t3, Field("w", Str(tag)));
  }

  lemma SoundNil()
    ensures Sound(Nil)
  {
  }

  lemma OptionsAreSound(o: Option<WriteOptions>)
    ensures Sound(OptionsTable(o))
  {
    hide Sound, ConcernTable;
    if o.Some? {
      ConcernIsSound(o.value);
      SoundBool("ordered", o.value.ordered);
      SoundField("writeConcern", Object(ConcernTable(o.value)));
      SoundAppend(OptionalBool("ordered", o.value.ordered), Field("writeConcern", Object(ConcernTable(o.value))));
    } else {
      SoundNil();
    }
  }

  lemma CommandIsSound(typ: WriteType, collection: cstring, items: seq<WriteItem>, o: Option<WriteOptions>)
    requires |items| <= LONG_MAX && Sound(ItemsTable(items))
    ensures Sound(CommandTable(typ, collection, items, o))
  {
    hide Sound, ItemsTable, OptionsTable;
    var one := Field(CommandName(typ), Str(collection));
    var two := Field(FieldName(typ), Arr(ItemsTable(items)));
    SoundField(CommandName(typ), Str(collection));
    SoundField(FieldName(typ), Arr(ItemsTable(items)));
    OptionsAreSound(o);
    SoundAppend(one, two);
    SoundAppend(Append(one, two), OptionsTable(o));
  }

  // --- the meaning ---

  // --- documents to insert ---

  /** The pairs of a document that are not called _id, in their order. */
  function OtherPairs(doc: Hash): Hash {
    match doc
    case Nil => Nil
    case Entry(k, v, rest) =>
      if KeyName(k)[..StrLen(KeyName(k))] == Ascii("_id") then OtherPairs(rest) else Entry(k, v, OtherPairs(rest))
  }

  /** The _id that a document is stored under: its own if it has one, and otherwise the generated one. */
  function StoredId(doc: Hash, newId: oid): Zval {
    match Find(doc, StrKey(Ascii("_id")))
    case Some(v) => v
    case None => Oid(newId)
  }

  lemma {:induction false} LoopedIsOther(doc: Hash)
    ensures Looped(doc, true) == OtherPairs(doc)
  {
    if doc.Entry? {
      LoopedIsOther(doc.rest);
    }
  }

  lemma {:induction false} LoopedAppend(a: Hash, b: Hash)
    ensures Looped(Append(a, b), true) == Append(Looped(a, true), Looped(b, true))
  {
    if a.Entry? {
      LoopedAppend(a.rest, b);
    }
  }

  /** Inserting writes _id in front and the other pairs behind it. */
  lemma WrittenIsStored(doc: Hash, newId: oid)
    ensures Written(doc, true, newId) == Entry(StrKey(Ascii("_id")), StoredId(doc, newId), OtherPairs(doc))
  {
    LoopedIsOther(doc);
    if Find(doc, StrKey(ID)).None? {
      IdIsOwnText();
      LoopedAppend(doc, Entry(StrKey(ID), Oid(newId), Nil));
      assert Looped(Entry(StrKey(ID), Oid(newId), Nil), true) == Nil;
      AppendNil(Looped(doc, true));
    }
  }

  lemma IdIsOwnText()
    ensures StrLen(Ascii("_id")) == 3 && Ascii("_id")[..3] == Ascii("_id")
    ensures SymKey(Ascii("_id")) == StrKey(Ascii("_id")) && Ascii("_id")[0] == 95
  {
    StrLenUnique(Ascii("_id"), 3);
  }

  /** No other pair reads back as _id, when neither it nor _id is rewritten. */
  lemma OtherName(k: Key, cfg: Config)
    requires KeyName(k)[..StrLen(KeyName(k))] != Ascii("_id")
    ensures SymKey(NormName(k, cfg)) != StrKey(Ascii("_id"))
  {
    hide Digits, DigitsValue, StrLen;
    IdIsOwnText();
    NameOfSymKey(NormName(k, cfg));
  }

  lemma {:induction false} IdStaysFirst(id: Zval, acc: Hash, doc: Hash, cfg: Config)
    ensures NormInto(Entry(StrKey(Ascii("_id")), id, acc), OtherPairs(doc), cfg) ==
            Entry(StrKey(Ascii("_id")), id, NormInto(acc, OtherPairs(doc), cfg))
    decreases doc
  {
    hide Norm, SymKey, StrLen, NormName;
    if doc.Entry? {
      if KeyName(doc.key)[..StrLen(KeyName(doc.key))] == Ascii("_id") {
        IdStaysFirst(id, acc, doc.rest, cfg);
      } else {
        OtherName(doc.key, cfg);
        IdStaysFirst(id, SymtableUpdate(acc, NormName(doc.key, cfg), Norm(doc.val, cfg)), doc.rest, cfg);
      }
    }
  }

  lemma {:induction false} KeepsFirst(acc: Hash, h: Hash, cfg: Config)
    requires acc.Entry?
    ensures NormInto(acc, h, cfg).Entry? && NormInto(acc, h, cfg).key == acc.key
    decreases h
  {
    hide Norm;
    if h.Entry? {
      KeepsFirst(SymtableUpdate(acc, NormName(h.key, cfg), Norm(h.val, cfg)), h.rest, cfg);
    }
  }

  /**
   * What is decoded of a document to insert: _id first, holding the document's own or else the generated one, and then
   * the pairs of any other name.  A command character '_' makes it "$id".
   */
  lemma InsertComesBack(doc: Hash, newId: oid, cfg: Config)
    ensures NormHash(Written(doc, true, newId), cfg) ==
              Entry(StrKey(Ascii("_id")), Norm(StoredId(doc, newId), cfg), NormHash(OtherPairs(doc), cfg)) <==>
            cfg.cmdChar != Some(95)
  {
    hide Norm, OtherPairs, StoredId, Written, SymKey;
    var id := Norm(StoredId(doc, newId), cfg);
    WrittenIsStored(doc, newId);
    IdIsOwnText();
    var name := NormName(StrKey(Ascii("_id")), cfg);
    if cfg.cmdChar != Some(95) {
      IdStaysFirst(id, Nil, doc, cfg);
    } else {
      assert name[0] == 36;
      NameOfSymKey(name);
      KeepsFirst(Entry(SymKey(name), id, Nil), OtherPairs(doc), cfg);
    }
  }

  /**
   * The caller's document gets the _id that is stored, behind its own pairs if it had none; storing it again, whatever
   * id would be generated then, writes the same bytes.
   */
  lemma CallerSeesId(doc: Hash, newId: oid, otherId: oid)
    ensures var after := ItemAfter(InsertItem(doc, newId));
            && after.InsertItem? && Find(after.doc, StrKey(Ascii("_id"))) == Some(StoredId(doc, newId))
            && (forall k :: k != StrKey(Ascii("_id")) ==> Find(after.doc, k) == Find(doc, k))
            && Written(after.doc, true, otherId) == Written(doc, true, newId)
  {
    hide Written, WithId;
    WithIdIs(doc, newId);
    WrittenIsStored(doc, newId);
    WrittenIsStored(WithId(doc, true, newId), otherId);
  }

  lemma WithIdIs(doc: Hash, newId: oid)
    ensures var doc' := WithId(doc, true, newId);
            && Find(doc', StrKey(Ascii("_id"))) == Some(StoredId(doc, newId))
            && (forall k :: k != StrKey(Ascii("_id")) ==> Find(doc', k) == Find(doc, k))
            && OtherPairs(doc') == OtherPairs(doc)
  {
    IdIsOwnText();
    if Find(doc, StrKey(ID)).None? {
      FindAppended(doc, StrKey(ID), Oid(newId));
      forall k | k != StrKey(ID)
        ensures Find(Append(doc, Entry(StrKey(ID), Oid(newId), Nil)), k) == Find(doc, k)
      {
        OthersFound(doc, StrKey(ID), Oid(newId), k);
      }
      LoopedIsOther(doc);
      LoopedIsOther(Append(doc, Entry(StrKey(ID), Oid(newId), Nil)));
      LoopedAppend(doc, Entry(StrKey(ID), Oid(newId), Nil));
      assert Looped(Entry(StrKey(ID), Oid(newId), Nil), true) == Nil;
      AppendNil(Looped(doc, true));
    }
  }

  lemma {:induction false} OthersFound(h: Hash, k: Key, v: Zval, j: Key)
    requires j != k
    ensures Find(Append(h, Entry(k, v, Nil)), j) == Find(h, j)
  {
    if h.Entry? {
      OthersFound(h.rest, k, v, j);
    }
  }

  /** The documents of the item can be written; in an insert no name may hold a dot. */
  predicate WritableItem(item: WriteItem, max: int, cfg: Config) {
    match item
    case InsertItem(doc, newId) =>
      var stored := Entry(StrKey(Ascii("_id")), StoredId(doc, newId), OtherPairs(doc));
      BsonMeaning.WritablePairs(stored, true, cfg) && |DocBytes(stored, cfg)| <= max
    case UpdateItem(query, update, _, _) =>
      BsonMeaning.Writable(query, max, cfg) && BsonMeaning.Writable(update, max, cfg)
    case DeleteItem(query, _) => BsonMeaning.Writable(query, max, cfg)
  }

  lemma ItemAcceptedExactly(item: WriteItem, max: int, cfg: Config)
    ensures ItemError(item, max, cfg).None? <==> WritableItem(item, max, cfg)
  {
    hide DocBytes, ElemsError, BsonMeaning.WritablePairs, BsonMeaning.Writable, DocError;
    match item
    case InsertItem(doc, newId) =>
      WrittenIsStored(doc, newId);
      BsonMeaning.AcceptedPairsExactly(Written(doc, true, newId), true, cfg);
    case UpdateItem(query, update, _, _) =>
      BsonMeaning.AcceptedExactly(query, max, cfg);
      BsonMeaning.AcceptedExactly(update, max, cfg);
    case DeleteItem(query, _) => BsonMeaning.AcceptedExactly(query, max, cfg);
  }

  /** A pair that is there only when the value is. */
  function Optional(name: string, v: Option<Zval>, rest: Hash): Hash {
    if v.Some? then Entry(StrKey(Ascii(name)), v.value, rest) else rest
  }

  function BoolIfSet(b: Option<bool>): Option<Zval> {
    if b.Some? then Some(Bool(b.value)) else None
  }

  function LongIfSet(n: int32): Option<Zval> {
    if n != -1 then Some(Long(n)) else None
  }

  /** An item as it is decoded. */
  function DecodedItem(item: WriteItem, cfg: Config): Hash {
    match item
    case InsertItem(doc, newId) =>
      Entry(StrKey(Ascii("_id")), Norm(StoredId(doc, newId), cfg), NormHash(OtherPairs(doc), cfg))
    case UpdateItem(query, update, multi, upsert) =>
      Entry(StrKey(Ascii("q")), Arr(NormHash(query, cfg)),
            Entry(StrKey(Ascii("u")), Arr(NormHash(update, cfg)),
                  Optional("multi", BoolIfSet(multi), Optional("upsert", BoolIfSet(upsert), Nil))))
    case DeleteItem(query, limit) =>
      Entry(StrKey(Ascii("q")), Arr(NormHash(query, cfg)), Optional("limit", LongIfSet(limit), Nil))
  }

  /** The items as they are decoded, under the keys 0, 1, 2, ... */
  function DecodedItems(items: seq<WriteItem>, cfg: Config): Hash
    requires |items| <= LONG_MAX
  {
    if items == [] then Nil
    else
      var last := |items| - 1;
      Append(DecodedItems(items[..last], cfg), Entry(IntKey(last), Arr(DecodedItem(items[last], cfg)), Nil))
  }

  function DecodedConcern(o: WriteOptions): Hash {
    var w := match o.w case NoW => None case WNumber(n) => Some(Long(n)) case WTag(tag) => Some(Str(tag));
    Optional("fsync", BoolIfSet(o.fsync),
             Optional("j", BoolIfSet(o.j), Optional("wtimeout", LongIfSet(o.wtimeout), Optional("w", w, Nil))))
  }

  function DecodedOptions(o: Option<WriteOptions>): Hash {
    if o.None? then Nil
    else Optional("ordered", BoolIfSet(o.value.ordered),
                  Entry(StrKey(Ascii("writeConcern")), Arr(DecodedConcern(o.value)), Nil))
  }

  /** {command: collection, field: items, ordered?, writeConcern} */
  function DecodedCommand(typ: WriteType, collection: cstring, items: seq<WriteItem>, o: Option<WriteOptions>,
                          cfg: Config): Hash
    requires |items| <= LONG_MAX
  {
    var (command, field) := match typ
      case InsertCommand => ("insert", "documents")
      case UpdateCommand => ("update", "updates")
      case DeleteCommand => ("delete", "deletes");
    Entry(StrKey(Ascii(command)), Str(collection),
          Entry(StrKey(Ascii(field)), Arr(DecodedItems(items, cfg)), DecodedOptions(o)))
  }

  predicate ItemKept(item: WriteItem, cfg: Config) {
    if item.InsertItem? then !Rewritten(Ascii("_id"), cfg) else NamesKept(ItemTable(item), cfg)
  }

  /** No name that the driver itself puts into the command starts with the command character. */
  predicate KeepsNames(typ: WriteType, collection: cstring, items: seq<WriteItem>, o: Option<WriteOptions>, cfg: Config)
    requires |items| <= LONG_MAX
  {
    && NamesKept(CommandTable(typ, collection, items, o), cfg) && NamesKept(ItemsTable(items), cfg)
    && (forall i :: 0 <= i < |items| ==> ItemKept(items[i], cfg))
    && (o.Some? ==> NamesKept(ConcernTable(o.value), cfg))
  }

  lemma ItemComesBack(item: WriteItem, cfg: Config)
    ensures NormHash(ItemTable(item), cfg) == DecodedItem(item, cfg) <==> ItemKept(item, cfg)
  {
    hide OwnNames, NamesKept, Unrenamed, DecodedItem, ItemTable;
    if item.InsertItem? {
      InsertIsRead(item, cfg);
      InsertComesBack(item.doc, item.newId, cfg);
      IdIsOwnText();
    } else {
      ItemNamesAreOwn(item);
      ComesBackExactly(ItemTable(item), cfg);
      FieldsAsRead(item, cfg);
    }
  }

  lemma InsertIsRead(item: WriteItem, cfg: Config)
    requires item.InsertItem?
    ensures ItemTable(item) == Written(item.doc, true, item.newId)
    ensures DecodedItem(item, cfg) == Entry(StrKey(Ascii("_id")), Norm(StoredId(item.doc, item.newId), cfg),
                                            NormHash(OtherPairs(item.doc), cfg))
  {
  }

  lemma OptionalAsRead(cfg: Config)
    ensures forall name, b :: Unrenamed(OptionalBool(name, b), cfg) == Optional(name, BoolIfSet(b), Nil)
    ensures forall name, n :: Unrenamed(OptionalInt(name, n), cfg) == Optional(name, LongIfSet(n), Nil)
    ensures forall name, v, rest :: Append(Optional(name, v, Nil), rest) == Optional(name, v, rest)
  {
    hide Ascii;
  }

  lemma FieldsAsRead(item: WriteItem, cfg: Config)
    requires !item.InsertItem?
    ensures Unrenamed(ItemTable(item), cfg) == DecodedItem(item, cfg)
  {
    hide Ascii, NormHash, OptionalBool, OptionalInt, Optional;
    OptionalAsRead(cfg);
    match item
    case UpdateItem(q, u, multi, upsert) =>
      var two := Append(Field("q", Object(q)), Field("u", Object(u)));
      var three := Append(two, OptionalBool("multi", multi));
      UnrenamedAppend(two, OptionalBool("multi", multi), cfg);
      UnrenamedAppend(three, OptionalBool("upsert", upsert), cfg);
      AppendAssoc(Unrenamed(two, cfg), Unrenamed(OptionalBool("multi", multi), cfg),
                  Unrenamed(OptionalBool("upsert", upsert), cfg));
      UnrenamedAppend(Field("q", Object(q)), Field("u", Object(u)), cfg);
      UnrenamedField("q", Object(q), cfg);
      UnrenamedField("u", Object(u), cfg);
      var flags := Append(Unrenamed(OptionalBool("multi", multi), cfg), Unrenamed(OptionalBool("upsert", upsert), cfg));
      AppendAssoc(Unrenamed(Field("q", Object(q)), cfg), Unrenamed(Field("u", Object(u)), cfg), flags);
      AppendToOne(Unrenamed(Field("u", Object(u)), cfg), flags);
      AppendToOne(Unrenamed(Field("q", Object(q)), cfg), Append(Unrenamed(Field("u", Object(u)), cfg), flags));
    case DeleteItem(q, limit) => UnrenamedAppend(Field("q", Object(q)), OptionalInt("limit", limit), cfg);
  }

  lemma ConcernAsRead(o: WriteOptions, cfg: Config)
    ensures Unrenamed(ConcernTable(o), cfg) == DecodedConcern(o)
  {
    hide Ascii, OptionalBool, OptionalInt, Optional;
    OptionalAsRead(cfg);
    var t1 := OptionalBool("fsync", o.fsync);
    var t2 := Append(t1, OptionalBool("j", o.j));
    var t3 := Append(t2, OptionalInt("wtimeout", o.wtimeout));
    var w := match o.w case NoW => Nil case WNumber(n) => Field("w", Int32(n)) case WTag(tag) => Field("w", Str(tag));
    UnrenamedAppend(t1, OptionalBool("j", o.j), cfg);
    UnrenamedAppend(t2, OptionalInt("wtimeout", o.wtimeout), cfg);
    UnrenamedAppend(t3, w, cfg);
    WAsRead(o, cfg);
    AppendAssoc(Unrenamed(t2, cfg), Unrenamed(OptionalInt("wtimeout", o.wtimeout), cfg), Unrenamed(w, cfg));
    AppendAssoc(Unrenamed(t1, cfg), Unrenamed(OptionalBool("j", o.j), cfg),
                Append(Unrenamed(OptionalInt("wtimeout", o.wtimeout), cfg), Unrenamed(w, cfg)));
  }

  lemma WAsRead(o: WriteOptions, cfg: Config)
    ensures var w := match o.w
              case NoW => Nil
              case WNumber(n) => Field("w", Int32(n))
              case WTag(t) => Field("w", Str(t));
            var v := match o.w case NoW => None case WNumber(n) => Some(Long(n)) case WTag(tag) => Some(Str(tag));
            Unrenamed(w, cfg) == Optional("w", v, Nil)
  {
    hide Ascii;
  }

  lemma {:induction false} AppendSplits(a: Hash, x: Hash, b: Hash, y: Hash)
    requires x.Entry? && x.rest == Nil && y.Entry? && y.rest == Nil
    ensures Append(a, x) == Append(b, y) <==> a == b && x == y
    decreases a
  {
    match a
    case Nil => if b.Entry? { assert Append(b.rest, y).Entry?; }
    case Entry(_, _, rest) =>
      assert Append(rest, x).Entry?;
      if b.Entry? {
        AppendSplits(rest, x, b.rest, y);
      }
  }

  lemma {:induction false} UnrenamedAppend(a: Hash, b: Hash, cfg: Config)
    ensures Unrenamed(Append(a, b), cfg) == Append(Unrenamed(a, cfg), Unrenamed(b, cfg))
    decreases a
  {
    hide Norm;
    if a.Entry? {
      UnrenamedAppend(a.rest, b, cfg);
    }
  }

  lemma {:induction false} ItemByItem(items: seq<WriteItem>, cfg: Config)
    requires |items| <= LONG_MAX
    ensures Unrenamed(ItemsTable(items), cfg) == DecodedItems(items, cfg) <==>
            forall i :: 0 <= i < |items| ==> ItemKept(items[i], cfg)
  {
    hide ItemTable, DecodedItem, ItemKept;
    if items != [] {
      var last := |items| - 1;
      var front := items[..last];
      ItemByItem(front, cfg);
      ItemComesBack(items[last], cfg);
      var one := Entry(IntKey(last), Object(ItemTable(items[last])), Nil);
      UnrenamedAppend(ItemsTable(front), one, cfg);
      OneUnrenamed(last, ItemTable(items[last]), cfg);
      AppendSplits(Unrenamed(ItemsTable(front), cfg), Unrenamed(one, cfg), DecodedItems(front, cfg),
                   Entry(IntKey(last), Arr(DecodedItem(items[last], cfg)), Nil));
      assert forall i :: 0 <= i < last ==> items[i] == front[i];
    }
  }

  lemma OneUnrenamed(n: index, h: Hash, cfg: Config)
    ensures Unrenamed(Entry(IntKey(n), Object(h), Nil), cfg) == Entry(IntKey(n), Arr(NormHash(h, cfg)), Nil)
  {
  }

  /** The item array comes back as the items in add order exactly when no number and no field is renamed. */
  lemma ItemsComeBack(items: seq<WriteItem>, cfg: Config)
    requires |items| <= LONG_MAX
    ensures NormHash(ItemsTable(items), cfg) == DecodedItems(items, cfg) <==>
            NamesKept(ItemsTable(items), cfg) && forall i :: 0 <= i < |items| ==> ItemKept(items[i], cfg)
  {
    hide OwnNames, NamesKept, ItemsTable, DecodedItems, ItemKept, Unrenamed;
    NumbersAreOwn(items);
    ComesBackExactly(ItemsTable(items), cfg);
    ItemByItem(items, cfg);
    if NormHash(ItemsTable(items), cfg) == DecodedItems(items, cfg) {
      NumbersRead(items, cfg);
    }
  }

  /** Whatever decodes to the numbered items has kept their numbers. */
  lemma NumbersRead(items: seq<WriteItem>, cfg: Config)
    requires |items| <= LONG_MAX && NormHash(ItemsTable(items), cfg) == DecodedItems(items, cfg)
    ensures NamesKept(ItemsTable(items), cfg)
  {
    hide ItemTable, DecodedItem;
    forall k
      ensures HasKey(ItemsTable(items), k) ==> HasKey(NormHash(ItemsTable(items), cfg), k)
    {
      SameNumbers(items, cfg, k);
    }
    KeptIfRead(ItemsTable(items), ItemsTable(items), cfg);
  }

  lemma {:induction false} SameNumbers(items: seq<WriteItem>, cfg: Config, k: Key)
    requires |items| <= LONG_MAX
    ensures HasKey(ItemsTable(items), k) <==> HasKey(DecodedItems(items, cfg), k)
  {
    hide ItemTable, DecodedItem;
    if items != [] {
      var last := |items| - 1;
      SameNumbers(items[..last], cfg, k);
      HasKeyAppend(ItemsTable(items[..last]), Entry(IntKey(last), Object(ItemTable(items[last])), Nil), k);
      HasKeyAppend(DecodedItems(items[..last], cfg), Entry(IntKey(last), Arr(DecodedItem(items[last], cfg)), Nil), k);
    }
  }

  /** The options with the write concern in its normal form. */
  function NormOptions(o: Option<WriteOptions>, cfg: Config): Hash {
    if o.None? then Nil
    else
      var concern := Entry(StrKey(Ascii("writeConcern")), Arr(NormHash(ConcernTable(o.value), cfg)), Nil);
      if o.value.ordered.Some? then Entry(StrKey(Ascii("ordered")), Bool(o.value.ordered.value), concern) else concern
  }

  lemma UnrenamedField(name: string, v: Zval, cfg: Config)
    ensures Unrenamed(Field(name, v), cfg) == Entry(StrKey(Ascii(name)), Norm(v, cfg), Nil)
  {
  }

  lemma UnrenamedOptions(o: Option<WriteOptions>, cfg: Config)
    ensures Unrenamed(OptionsTable(o), cfg) == NormOptions(o, cfg)
  {
    hide ConcernTable, Ascii;
    if o.Some? {
      var concern := Field("writeConcern", Object(ConcernTable(o.value)));
      UnrenamedAppend(OptionalBool("ordered", o.value.ordered), concern, cfg);
      UnrenamedField("writeConcern", Object(ConcernTable(o.value)), cfg);
      if o.value.ordered.Some? {
        UnrenamedField("ordered", Bool(o.value.ordered.value), cfg);
        AppendToOne(Unrenamed(OptionalBool("ordered", o.value.ordered), cfg), Unrenamed(concern, cfg));
      }
    }
  }

  lemma AppendToOne(a: Hash, b: Hash)
    requires a.Entry? && a.rest == Nil
    ensures Append(a, b) == Entry(a.key, a.val, b)
  {
  }

  lemma UnrenamedCommand(typ: WriteType, collection: cstring, items: seq<WriteItem>, o: Option<WriteOptions>,
                         cfg: Config)
    requires |items| <= LONG_MAX
    ensures Unrenamed(CommandTable(typ, collection, items, o), cfg) ==
            Entry(StrKey(Ascii(CommandName(typ))), Str(collection),
                  Entry(StrKey(Ascii(FieldName(typ))), Arr(NormHash(ItemsTable(items), cfg)), NormOptions(o, cfg)))
  {
    hide ItemsTable, OptionsTable, NormOptions, Ascii;
    var one, two := Field(CommandName(typ), Str(collection)), Field(FieldName(typ), Arr(ItemsTable(items)));
    UnrenamedField(CommandName(typ), Str(collection), cfg);
    UnrenamedField(FieldName(typ), Arr(ItemsTable(items)), cfg);
    UnrenamedAppend(Append(one, two), OptionsTable(o), cfg);
    UnrenamedAppend(one, two, cfg);
    UnrenamedOptions(o, cfg);
    AppendToOne(Unrenamed(one, cfg), Unrenamed(two, cfg));
    AppendAssoc(Unrenamed(one, cfg), Unrenamed(two, cfg), NormOptions(o, cfg));
    AppendToOne(Unrenamed(two, cfg), NormOptions(o, cfg));
    AppendToOne(Unrenamed(one, cfg), Append(Unrenamed(two, cfg), NormOptions(o, cfg)));
  }

  lemma ConcernComesBack(o: WriteOptions, cfg: Config)
    ensures NormHash(ConcernTable(o), cfg) == DecodedConcern(o) <==> NamesKept(ConcernTable(o), cfg)
  {
    ConcernNamesAreOwn(o);
    ComesBackExactly(ConcernTable(o), cfg);
    ConcernAsRead(o, cfg);
  }

  /** Items and write concern apart, the command reads as it was written. */
  lemma SameTopNames(typ: WriteType, collection: cstring, items: seq<WriteItem>, o: Option<WriteOptions>, cfg: Config,
                     k: Key)
    requires |items| <= LONG_MAX
    ensures HasKey(CommandTable(typ, collection, items, o), k) <==>
              HasKey(DecodedCommand(typ, collection, items, o, cfg), k)
  {
    hide ItemsTable, ConcernTable, DecodedItems, DecodedConcern, CommandTable, Ascii, NormOptions, DecodedOptions;
    UnrenamedCommand(typ, collection, items, o, cfg);
    SameNames(CommandTable(typ, collection, items, o), cfg, k);
    SameOptionNames(o, cfg, k);
    KeyOfTwo(Unrenamed(CommandTable(typ, collection, items, o), cfg), k);
    KeyOfTwo(DecodedCommand(typ, collection, items, o, cfg), k);
  }

  lemma SameOptionNames(o: Option<WriteOptions>, cfg: Config, k: Key)
    ensures HasKey(NormOptions(o, cfg), k) <==> HasKey(DecodedOptions(o), k)
  {
    hide ConcernTable, DecodedConcern, Ascii;
    if o.Some? && o.value.ordered.Some? {
      KeyOfTwo(NormOptions(o, cfg), k);
      KeyOfTwo(DecodedOptions(o), k);
    }
  }

  lemma KeyOfTwo(h: Hash, k: Key)
    requires h.Entry? && h.rest.Entry?
    ensures HasKey(h, k) <==> k == h.key || k == h.rest.key || HasKey(h.rest.rest, k)
  {
  }

  lemma CommandComesBack(typ: WriteType, collection: cstring, items: seq<WriteItem>, o: Option<WriteOptions>,
                         cfg: Config)
    requires |items| <= LONG_MAX
    ensures NormHash(CommandTable(typ, collection, items, o), cfg) ==
              DecodedCommand(typ, collection, items, o, cfg) <==>
            KeepsNames(typ, collection, items, o, cfg)
  {
    hide ItemsTable, ConcernTable, DecodedItems, DecodedConcern, CommandTable, Ascii, NamesKept, ItemKept, OwnNames,
         Unrenamed;
    var table := CommandTable(typ, collection, items, o);
    CommandNamesAreOwn(typ, collection, items, o);
    ComesBackExactly(table, cfg);
    UnrenamedCommand(typ, collection, items, o, cfg);
    ItemsComeBack(items, cfg);
    if o.Some? {
      ConcernComesBack(o.value, cfg);
    }
    if NormHash(table, cfg) == DecodedCommand(typ, collection, items, o, cfg) {
      forall k
        ensures HasKey(table, k) ==> HasKey(NormHash(table, cfg), k)
      {
        SameTopNames(typ, collection, items, o, cfg, k);
      }
      KeptIfRead(table, table, cfg);
    }
  }

  /**
   * Decoding the command of a finished batch gives the collection under the command's name, the items in the order
   * they were added, then `ordered` when set and the write concern: exactly when the command character starts none
   * of the names that the driver writes into the command.
   */
  lemma FinishedBatchDecodes(typ: WriteType, collection: cstring, items: seq<WriteItem>, o: Option<WriteOptions>,
                             max: int, cfg: Config)
    requires |items| <= LONG_MAX
    requires forall i :: 0 <= i < |items| ==> ItemError(items[i], max, cfg).None? && CleanItem(items[i])
    requires |DocBytes(CommandTable(typ, collection, items, o), cfg)| <= INT_MAX
    ensures DecodeDoc(DocBytes(CommandTable(typ, collection, items, o), cfg), cfg) ==
              Ok(DecodedCommand(typ, collection, items, o, cfg)) <==>
            KeepsNames(typ, collection, items, o, cfg)
  {
    hide Sound, ItemsTable, ItemTable, OptionsTable, DocBytes, CommandTable, ItemError, CleanItem, KeepsNames,
         DecodedCommand;
    forall i | 0 <= i < |items|
      ensures Sound(ItemTable(items[i]))
    {
      AcceptedItemIsSound(items[i], max, cfg);
    }
    ItemsAreSound(items);
    CommandIsSound(typ, collection, items, o);
    DocRoundTrip(CommandTable(typ, collection, items, o), cfg);
    CommandComesBack(typ, collection, items, o, cfg);
  }

  // --- characters that no name starts with ---

  /** Such as '$' and ':': no lower-case letter, no digit and no '_'. */
  predicate IsSign(cfg: Config) {
    cfg.cmdChar.Some? ==>
      !IsDigit(cfg.cmdChar.value) && !(97 <= cfg.cmdChar.value <= 122) && cfg.cmdChar.value != 95
  }

  lemma {:induction false} KeptAppend(a: Hash, b: Hash, cfg: Config)
    ensures NamesKept(Append(a, b), cfg) <==> NamesKept(a, cfg) && NamesKept(b, cfg)
    decreases a
  {
    if a.Entry? {
      KeptAppend(a.rest, b, cfg);
    }
  }

  lemma WordKept(name: string, part: Hash, cfg: Config)
    requires IsSign(cfg) && IsWord(name) && (part == Nil || part == Field(name, part.val))
    ensures NamesKept(part, cfg)
  {
    assert Ascii(name)[0] == name[0] as int;
  }

  lemma NumberKept(n: index, v: Zval, cfg: Config)
    requires IsSign(cfg) && n >= 0
    ensures NamesKept(Entry(IntKey(n), v, Nil), cfg)
  {
    assert IsDigit(Dec(n)[0]);
  }

  lemma {:induction false} NumbersKept(items: seq<WriteItem>, cfg: Config)
    requires |items| <= LONG_MAX && IsSign(cfg)
    ensures NamesKept(ItemsTable(items), cfg)
  {
    hide ItemTable, NamesKept, IsSign;
    if items == [] {
      NothingKept(cfg);
    } else {
      var last := |items| - 1;
      var one := Entry(IntKey(last), Object(ItemTable(items[last])), Nil);
      NumbersKept(items[..last], cfg);
      NumberKept(last, Object(ItemTable(items[last])), cfg);
      KeptAppend(ItemsTable(items[..last]), one, cfg);
    }
  }

  lemma NothingKept(cfg: Config)
    ensures NamesKept(Nil, cfg)
  {
  }

  lemma IdOfSign(cfg: Config)
    requires IsSign(cfg)
    ensures !Rewritten(Ascii("_id"), cfg)
  {
    IdIsOwnText();
  }

  lemma SignKeepsItem(item: WriteItem, cfg: Config)
    requires IsSign(cfg)
    ensures ItemKept(item, cfg)
  {
    hide NamesKept, Field, IsSign;
    match item
    case InsertItem(_, _) => IdOfSign(cfg);
    case UpdateItem(q, u, multi, upsert) =>
      var t1, t2 := Field("q", Object(q)), Append(Field("q", Object(q)), Field("u", Object(u)));
      IsField("q", Object(q));
      IsField("u", Object(u));
      IsOptionalBool("multi", multi);
      IsOptionalBool("upsert", upsert);
      WordKept("q", t1, cfg);
      WordKept("u", Field("u", Object(u)), cfg);
      WordKept("multi", OptionalBool("multi", multi), cfg);
      WordKept("upsert", OptionalBool("upsert", upsert), cfg);
      KeptAppend(t1, Field("u", Object(u)), cfg);
      KeptAppend(t2, OptionalBool("multi", multi), cfg);
      KeptAppend(Append(t2, OptionalBool("multi", multi)), OptionalBool("upsert", upsert), cfg);
    case DeleteItem(q, limit) =>
      IsField("q", Object(q));
      IsOptionalInt("limit", limit);
      WordKept("q", Field("q", Object(q)), cfg);
      WordKept("limit", OptionalInt("limit", limit), cfg);
      KeptAppend(Field("q", Object(q)), OptionalInt("limit", limit), cfg);
  }

  lemma SignKeepsConcern(o: WriteOptions, cfg: Config)
    requires IsSign(cfg)
    ensures NamesKept(ConcernTable(o), cfg)
  {
    hide NamesKept, Field, IsSign;
    var t1 := OptionalBool("fsync", o.fsync);
    var t2 := Append(t1, OptionalBool("j", o.j));
    var t3 := Append(t2, OptionalInt("wtimeout", o.wtimeout));
    var w := match o.w case NoW => Nil case WNumber(n) => Field("w", Int32(n)) case WTag(tag) => Field("w", Str(tag));
    IsOptionalBool("fsync", o.fsync);
    IsOptionalBool("j", o.j);
    IsOptionalInt("wtimeout", o.wtimeout);
    if !o.w.NoW? {
      IsField("w", if o.w.WNumber? then Int32(o.w.n) else Str(o.w.tag));
    }
    WordKept("fsync", t1, cfg);
    WordKept("j", OptionalBool("j", o.j), cfg);
    WordKept("wtimeout", OptionalInt("wtimeout", o.wtimeout), cfg);
    WordKept("w", w, cfg);
    KeptAppend(t1, OptionalBool("j", o.j), cfg);
    KeptAppend(t2, OptionalInt("wtimeout", o.wtimeout), cfg);
    KeptAppend(t3, w, cfg);
  }

  /** With a sign as command character, '$' and the ':' of the manual among them, every finished batch decodes. */
  lemma SignKeepsNames(typ: WriteType, collection: cstring, items: seq<WriteItem>, o: Option<WriteOptions>, cfg: Config)
    requires |items| <= LONG_MAX && IsSign(cfg)
    ensures KeepsNames(typ, collection, items, o, cfg)
  {
    hide NamesKept, Field, IsSign, ItemsTable, ConcernTable, ItemKept;
    NumbersKept(items, cfg);
    forall i | 0 <= i < |items|
      ensures ItemKept(items[i], cfg)
    {
      SignKeepsItem(items[i], cfg);
    }
    var one, two := Field(CommandName(typ), Str(collection)), Field(FieldName(typ), Arr(ItemsTable(items)));
    IsField(CommandName(typ), Str(collection));
    IsField(FieldName(typ), Arr(ItemsTable(items)));
    WordKept(CommandName(typ), one, cfg);
    WordKept(FieldName(typ), two, cfg);
    KeptAppend(one, two, cfg);
    KeptAppend(Append(one, two), OptionsTable(o), cfg);
    if o.Some? {
      SignKeepsConcern(o.value, cfg);
      var concern := Field("writeConcern", Object(ConcernTable(o.value)));
      IsOptionalBool("ordered", o.value.ordered);
      IsField("writeConcern", Object(ConcernTable(o.value)));
      WordKept("ordered", OptionalBool("ordered", o.value.ordered), cfg);
      WordKept("writeConcern", concern, cfg);
      KeptAppend(OptionalBool("ordered", o.value.ordered), concern, cfg);
    } else {
      NothingKept(cfg);
    }
  }

  /** With an 'i' in its place, no insert command reads as one. */
  lemma LetterLosesName(collection: cstring, items: seq<WriteItem>, o: Option<WriteOptions>, cfg: Config)
    requires |items| <= LONG_MAX && cfg.cmdChar == Some(105)
    ensures !KeepsNames(InsertCommand, collection, items, o, cfg)
  {
    hide ItemsTable, OptionsTable;
    assert Ascii("insert")[0] == 105;
  }
}
