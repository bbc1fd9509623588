/** api/batch.c and batch/write.c: write items spread over a chain of command buffers. */
module WriteBatch {
  import opened Bytes
  import opened Values
  import opened Bson
  import opened MongoBuffers
  import opened BsonEncoder
  import opened WriteCommand

  /** php_mongo_batch */
  class Batch {
    const buffer: MongoBuffer
    const container: nat
    const batchPos: nat
    var first: Batch
    var next: Batch?
    var itemCount: nat
    ghost const head: bytes
    ghost var items: seq<WriteItem>

    /** A well-formed batch whose count is ahead of its items by `ahead`. */
    ghost predicate Holds(ns: bytes, typ: WriteType, collection: cstring, cfg: Config, ahead: nat)
      reads this`itemCount, this`items, buffer, buffer.data
    {
      && InBatch(buffer, container, batchPos, head, typ, collection, items, cfg)
      && itemCount == |items| + ahead
      && container == |ns| + 29 && IsHead(head, ns, cfg)
      && batchPos + 4 == FreshSize(ns, typ, collection, cfg)
    }

    /** The buffer of php_mongo_api_batch_make: message head and start of the command. */
    constructor (ns: bytes, requestId: int, typ: WriteType, collection: cstring, cfg: Config)
      requires 46 in ns
      ensures fresh(buffer) && fresh(buffer.data)
      ensures Holds(ns, typ, collection, cfg, 0) && items == [] && next == null && first == this
      ensures head == MessageHead(requestId, ns, cfg)
      ensures buffer.pos == FreshSize(ns, typ, collection, cfg)
    {
      var buf := new MongoBuffer(INITIAL_BUF_SIZE);
      var pos := WriteHeader(buf, ns, requestId, cfg);
      head := buf.data[4..pos];
      var batch := WriteStart(buf, pos, typ, collection, cfg);
      buffer, container, batchPos := buf, pos, batch;
      itemCount, items := 0, [];
      next := null;
      first := this;
    }

    /** php_mongo_api_write_add on this batch, with its count raised in the call. */
    method Append(item: WriteItem, maxBson: int, ghost ns: bytes, ghost typ: WriteType, ghost collection: cstring,
                  cfg: Config)
      returns (status: AddStatus, item': WriteItem)
      requires Holds(ns, typ, collection, cfg, 0) && itemCount < LONG_MAX
      modifies this`itemCount, this`items, buffer, buffer.data
      ensures item' == ItemAfter(item)
      ensures status == AddStatusOf(old(buffer.pos), old(itemCount), item, maxBson, cfg)
      ensures itemCount == old(itemCount) + 1
      ensures buffer.data == old(buffer.data) || fresh(buffer.data)
      ensures status.Success? ==>
                && Holds(ns, typ, collection, cfg, 0) && items == old(items) + [item']
                && buffer.pos <= MaxWireSize(maxBson)
      ensures status.Overflow? ==>
                && Holds(ns, typ, collection, cfg, 1) && items == old(items)
                && buffer.pos == old(buffer.pos) && old(buffer.Written()) <= buffer.data[..]
    {
      hide InBatch, ItemTable, ItemSize, ItemError, FreshSize;
      var n := itemCount;
      itemCount := n + 1;
      status, item' := WriteAdd(buffer, n, item, maxBson, cfg, container, batchPos, head, typ, collection, items);
      if status.Success? {
        SettledStillHolds(buffer, container, batchPos, head, typ, collection, items, item, cfg);
        items := items + [item'];
      }
    }
  }

  /** The head of a query on that namespace, under some request id. */
  ghost predicate IsHead(head: bytes, ns: bytes, cfg: Config) {
    exists requestId :: head == MessageHead(requestId, ns, cfg)
  }

  /** Giving a document its _id is done once; the bytes written are the same afterwards. */
  lemma AfterIsSettled(item: WriteItem)
    ensures ItemAfter(ItemAfter(item)) == ItemAfter(item)
    ensures ItemTable(ItemAfter(item)) == ItemTable(item)
  {
    if item.InsertItem? && Find(item.doc, StrKey(ID)).None? {
      FindAppended(item.doc, StrKey(ID), Oid(item.newId));
    }
  }

  /** A batch that holds an item holds it as it has become. */
  lemma SettledStillHolds(buf: MongoBuffer, container: nat, batch: nat, head: bytes, typ: WriteType,
                          collection: cstring, items: seq<WriteItem>, item: WriteItem, cfg: Config)
    requires InBatch(buf, container, batch, head, typ, collection, items + [item], cfg)
    ensures InBatch(buf, container, batch, head, typ, collection, items + [ItemAfter(item)], cfg)
  {
    hide Since, ItemsTable, ItemAfter, StartBytes;
    SameTable(items, item);
  }

  /** Retrying with the document that has been given its _id fares the same. */
  lemma RetrySameBytes(item: WriteItem, max: int, n: index, cfg: Config)
    ensures ItemError(ItemAfter(item), max, cfg) == ItemError(item, max, cfg)
    ensures ItemSize(n, ItemAfter(item), cfg) == ItemSize(n, item, cfg)
  {
    AfterIsSettled(item);
    if item.InsertItem? && Find(item.doc, StrKey(ID)).None? {
      FindAppended(item.doc, StrKey(ID), Oid(item.newId));
    }
  }

  lemma SameTable(items: seq<WriteItem>, item: WriteItem)
    requires |items| < LONG_MAX
    ensures ItemsTable(items + [ItemAfter(item)]) == ItemsTable(items + [item])
  {
    hide ItemTable, ItemAfter;
    AfterIsSettled(item);
    assert (items + [item])[..|items|] == items == (items + [ItemAfter(item)])[..|items|];
  }

  /** What php_mongo_api_write_add answers for an item that would be number n of a buffer filled up to pos. */
  function AddStatusOf(pos: nat, n: nat, item: WriteItem, maxBson: int, cfg: Config): AddStatus {
    if ItemError(item, maxBson, cfg).Some? then Failure
    else if n <= LONG_MAX && pos + ItemSize(n, item, cfg) > MaxWireSize(maxBson) then Overflow
    else Success
  }

  /** Every item is one that the encoder takes. */
  predicate AllAccepted(items: seq<WriteItem>, maxBson: int, cfg: Config) {
    forall i :: 0 <= i < |items| ==> ItemError(items[i], maxBson, cfg).None?
  }

  lemma NoneIsAccepted(maxBson: int, cfg: Config)
    ensures AllAccepted([], maxBson, cfg)
  {
  }

  /** The bytes in a batch before its first item. */
  function FreshSize(ns: bytes, typ: WriteType, collection: cstring, cfg: Config): nat {
    |ns| + 37 + |StartBytes(typ, collection, cfg)|
  }

  /** An item takes least room in an empty batch. */
  lemma FirstIsSmallest(n: index, item: WriteItem, cfg: Config)
    requires n >= 0
    ensures ItemSize(0, item, cfg) <= ItemSize(n, item, cfg)
  {
    hide ValueBytes, ItemTable;
    assert |Dec(0)| == 1;
  }

  /** Flattens the items of the batches in chain order. */
  ghost function Concat(parts: seq<seq<WriteItem>>): seq<WriteItem> {
    if parts == [] then [] else Concat(parts[..|parts| - 1]) + parts[|parts| - 1]
  }

  lemma ConcatNothing()
    ensures Concat([]) == []
  {
  }

  lemma ConcatAdds(parts: seq<seq<WriteItem>>, items: seq<WriteItem>)
    ensures Concat(parts + [items]) == Concat(parts) + items
  {
    assert (parts + [items])[..|parts|] == parts;
  }

  /** A chain of batches; `older` are the ones before the current `batch`. */
  class MongoWriteBatch {
    const typ: WriteType
    const ns: bytes
    const collection: cstring
    const cfg: Config
    var batch: Batch?
    var totalItems: nat
    ghost var older: seq<Batch>
    /** the items of each of the older batches */
    ghost var parts: seq<seq<WriteItem>>
    /** every object an older batch is made of */
    ghost var frozen: set<object>

    ghost predicate Valid()
      reads this, frozen, batch, if batch == null then {} else {batch.buffer, batch.buffer.data}
    {
      if batch == null then 46 in ns && totalItems == 0 && older == [] && parts == []
      else totalItems == |AllItems()| && 1 <= totalItems && Shaped(0)
    }

    /** The chain is well formed, apart from a count of the current batch that is ahead by `ahead`. */
    ghost predicate Shaped(ahead: nat)
      requires batch != null
      reads this`batch, this`older, this`parts, this`frozen, frozen, batch, batch.buffer, batch.buffer.data
    {
      && 46 in ns
      && OlderHold()
      && {this as object, batch, batch.buffer, batch.buffer.data} !! frozen
      && batch.Holds(ns, typ, collection, cfg, ahead)
      && batch.next == null
      && Last(older, batch)
      && batch.first == (older + [batch])[0]
    }

    /** The older batches hold their parts and are linked in order from the first one. */
    ghost predicate OlderHold()
      reads this`older, this`parts, this`frozen, frozen
    {
      && |parts| == |older|
      && (forall i :: 0 <= i < |older| ==>
            && older[i] in frozen && older[i].buffer in frozen && older[i].buffer.data in frozen
            && older[i].Holds(ns, typ, collection, cfg, 0)
            && older[i].items == parts[i]
            && older[i].first == older[0]
            && (i + 1 < |older| ==> older[i].next == older[i + 1]))
      && Apart(older)
    }

    static ghost predicate Apart(chain: seq<Batch>)
      reads set b | b in chain :: b.buffer
    {
      forall i, j :: 0 <= i < j < |chain| ==>
          chain[i].buffer != chain[j].buffer && chain[i].buffer.data != chain[j].buffer.data
    }

    static ghost predicate Last(older: seq<Batch>, batch: Batch)
      reads older
    {
      older != [] ==> older[|older| - 1].next == batch
    }

    /** Everything that has been added, in the order of the chain. */
    ghost function AllItems(): seq<WriteItem>
      reads this`batch, this`parts, batch
    {
      if batch == null then [] else Concat(parts) + batch.items
    }

    /** The batches from the first one on. */
    ghost function Chain(): seq<Batch>
      requires batch != null
      reads this
    {
      older + [batch]
    }

    /** The items of each batch of the chain. */
    ghost function Parts(): seq<seq<WriteItem>>
      requires batch != null
      reads this, batch
    {
      parts + [batch.items]
    }

    /** No batch is empty or beyond the server's limits, and every item was accepted. */
    ghost predicate Within(maxItems: int, maxBson: int)
      reads this`batch, this`older, this`frozen, frozen, batch, if batch == null then {} else {batch.buffer}
    {
      && OlderWithin(maxItems, maxBson)
      && (batch != null ==> BatchWithin(batch, maxItems, maxBson, cfg))
    }

    static ghost predicate BatchWithin(b: Batch, maxItems: int, maxBson: int, cfg: Config)
      reads b`itemCount, b`items, b.buffer
    {
      && 1 <= b.itemCount && (b.itemCount <= maxItems || b.itemCount == 1) && b.buffer.pos <= MaxWireSize(maxBson)
      && AllAccepted(b.items, maxBson, cfg)
    }

    ghost predicate OlderWithin(maxItems: int, maxBson: int)
      reads this`older, this`frozen, frozen
    {
      forall b :: b in older ==> b in frozen && b.buffer in frozen && BatchWithin(b, maxItems, maxBson, cfg)
    }

    constructor (typ: WriteType, ns: bytes, collection: cstring, cfg: Config)
      requires 46 in ns
      ensures Valid() && batch == null && this.typ == typ && this.ns == ns
      ensures this.collection == collection && this.cfg == cfg
    {
      this.typ, this.ns, this.collection, this.cfg := typ, ns, collection, cfg;
      batch := null;
      totalItems := 0;
      older, parts, frozen := [], [], {};
    }

    /** php_mongo_api_batch_make: a new last batch, linked from the old one. */
    method MakeBatch(requestId: int, ghost maxItems: int, ghost maxBson: int)
      requires if batch == null then 46 in ns && older == [] && parts == [] else Shaped(0)
      modifies this`batch, this`older, this`parts, this`frozen, (if batch == null then {} else {batch})`next
      ensures batch != null && Shaped(0)
      ensures fresh(batch) && fresh(batch.buffer) && fresh(batch.buffer.data)
      ensures batch.items == [] && batch.itemCount == 0 && batch.buffer.pos == FreshSize(ns, typ, collection, cfg)
      ensures AllItems() == old(AllItems())
      ensures older == old(if batch == null then [] else older + [batch])
      ensures old(Within(maxItems, maxBson)) ==> OlderWithin(maxItems, maxBson)
      ensures old(batch) != null ==> frozen == old(frozen + {batch as object, batch.buffer, batch.buffer.data})
    {
      hide Batch.Holds, InBatch, FreshSize, MessageHead, Concat, StartBytes;
      var made := new Batch(ns, requestId, typ, collection, cfg);
      if batch != null {
        LinkAfter(made, maxItems, maxBson);
      } else {
        frozen := {};
        assert Concat([]) == [] by { ConcatNothing(); }
        batch := made;
      }
    }

    /** The pointer updates when there is a batch already: it is frozen from here on. */
    method LinkAfter(made: Batch, ghost maxItems: int, ghost maxBson: int)
      requires batch != null && Shaped(0)
      requires {made, made.buffer, made.buffer.data} !!
               (frozen + {this as object, batch, batch.buffer, batch.buffer.data})
      requires made.Holds(ns, typ, collection, cfg, 0) && made.next == null && made.items == []
      modifies this`batch, this`older, this`parts, this`frozen, batch`next, made`first
      ensures batch == made && Shaped(0)
      ensures AllItems() == old(AllItems())
      ensures older == old(older + [batch])
      ensures old(Within(maxItems, maxBson)) ==> OlderWithin(maxItems, maxBson)
      ensures frozen == old(frozen + {batch as object, batch.buffer, batch.buffer.data})
    {
      hide Batch.Holds, InBatch, FreshSize, Concat, OlderHold, OlderWithin;
      batch.next := made;
      made.first := batch.first;
      Freeze(maxItems, maxBson);
      batch := made;
    }

    /** The current batch joins the older ones. */
    ghost method Freeze(maxItems: int, maxBson: int)
      requires batch != null && OlderHold() && Last(older, batch) && batch.Holds(ns, typ, collection, cfg, 0)
      requires batch.first == (older + [batch])[0] && batch.buffer !in frozen && batch.buffer.data !in frozen
      modifies this`older, this`parts, this`frozen
      ensures older == old(older) + [batch] && parts == old(parts) + [batch.items] && OlderHold()
      ensures frozen == old(frozen) + {batch as object, batch.buffer, batch.buffer.data}
      ensures Concat(parts) == Concat(old(parts)) + batch.items
      ensures old(Within(maxItems, maxBson)) ==> OlderWithin(maxItems, maxBson)
    {
      hide Batch.Holds, InBatch, FreshSize, Concat;
      ConcatAdds(parts, batch.items);
      older, parts := older + [batch], parts + [batch.items];
      frozen := frozen + {batch as object, batch.buffer, batch.buffer.data};
    }

    /** What the caller of add is told: whether the item fits a batch of its own. */
    predicate Fits(item: WriteItem, maxBson: int) {
      AddStatusOf(FreshSize(ns, typ, collection, cfg), 0, item, maxBson, cfg).Success?
    }

    lemma CountWithinTotal()
      requires batch != null && Shaped(0)
      ensures 0 <= batch.itemCount <= |AllItems()|
      ensures FreshSize(ns, typ, collection, cfg) <= batch.buffer.pos
    {
    }

    /** An item that a batch in use still takes would also fit a new one; errors do not depend on the batch. */
    lemma FreshIsBest(pos: nat, n: nat, item: WriteItem, maxBson: int)
      requires FreshSize(ns, typ, collection, cfg) <= pos && n <= LONG_MAX
      ensures AddStatusOf(pos, n, item, maxBson, cfg).Success? ==> Fits(item, maxBson)
      ensures AddStatusOf(pos, n, item, maxBson, cfg).Failure? ==> !Fits(item, maxBson)
    {
      hide FreshSize, ItemError, ItemSize, ItemAfter;
      FirstIsSmallest(n, item, cfg);
    }

    lemma RetryFits(item: WriteItem, maxBson: int)
      ensures ItemAfter(ItemAfter(item)) == ItemAfter(item)
      ensures Fits(ItemAfter(item), maxBson) == Fits(item, maxBson)
    {
      hide FreshSize, ItemError, ItemSize, ItemAfter;
      AfterIsSettled(item);
      RetrySameBytes(item, maxBson, 0, cfg);
    }

    /** Batch.Append on the last batch of the chain. */
    method AppendLast(item: WriteItem, maxBson: int, ghost maxItems: int) returns (status: AddStatus, item': WriteItem)
      requires batch != null && Shaped(0) && batch.itemCount < LONG_MAX
      modifies batch`itemCount, batch`items, batch.buffer, batch.buffer.data
      ensures item' == ItemAfter(item)
      ensures status == AddStatusOf(old(batch.buffer.pos), old(batch.itemCount), item, maxBson, cfg)
      ensures batch.itemCount == old(batch.itemCount) + 1
      ensures status.Success? ==> Shaped(0) && AllItems() == old(AllItems()) + [item']
      ensures status.Success? && old(AllAccepted(batch.items, maxBson, cfg)) ==> AllAccepted(batch.items, maxBson, cfg)
      ensures status.Success? ==> batch.buffer.pos <= MaxWireSize(maxBson)
      ensures status.Overflow? ==> Shaped(1) && AllItems() == old(AllItems())
      ensures status.Overflow? ==> batch.items == old(batch.items) && batch.buffer.pos == old(batch.buffer.pos)
      ensures status.Overflow? ==> old(batch.buffer.Written()) <= batch.buffer.data[..]
      ensures OlderWithin(maxItems, maxBson) == old(OlderWithin(maxItems, maxBson))
      ensures batch.buffer.data == old(batch.buffer.data) || fresh(batch.buffer.data)
    {
      hide Batch.Holds, InBatch, FreshSize, AddStatusOf, Concat, OlderWithin, ItemAfter, ItemError;
      SuccessIsAccepted(batch.buffer.pos, batch.itemCount, item, maxBson);
      status, item' := batch.Append(item, maxBson, ns, typ, collection, cfg);
    }

    lemma RoomLeft(pos: nat, n: index, item: WriteItem, maxBson: int)
      requires n >= 0
      ensures var status := AddStatusOf(pos, n, item, maxBson, cfg);
              && (status.Success? ==> pos + ItemSize(n, item, cfg) <= maxBson + 16 * 1024)
              && (status.Overflow? ==> pos + ItemSize(n, item, cfg) > maxBson + 16 * 1024)
    {
      hide ItemError, ItemSize;
    }

    lemma SuccessIsAccepted(pos: nat, n: nat, item: WriteItem, maxBson: int)
      ensures AddStatusOf(pos, n, item, maxBson, cfg).Success? ==> ItemError(ItemAfter(item), maxBson, cfg).None?
    {
      hide ItemError, ItemSize, ItemAfter;
      RetrySameBytes(item, maxBson, 0, cfg);
    }

    /** `item_count--` after an overflow. */
    method TakeBack()
      requires batch != null && Shaped(1)
      modifies batch`itemCount
      ensures Shaped(0) && batch.itemCount == old(batch.itemCount) - 1 && AllItems() == old(AllItems())
    {
      hide InBatch, FreshSize, Concat;
      batch.itemCount := batch.itemCount - 1;
    }

    /** The second attempt of add, in a batch made for the item. */
    method AddInNewBatch(item: WriteItem, maxItems: int, maxBson: int, requestId: int) returns (added: bool)
      requires batch != null && Shaped(0) && totalItems == |AllItems()|
      modifies this, batch`next
      ensures added <==> Fits(item, maxBson)
      ensures added ==> Valid() && AllItems() == old(AllItems()) + [ItemAfter(item)]
      ensures added && old(Within(maxItems, maxBson)) ==> Within(maxItems, maxBson)
      ensures older == old(older + [batch])
    {
      hide Batch.Holds, InBatch, FreshSize, AddStatusOf, Concat, OlderWithin, OlderHold, Last, ItemAfter, AllAccepted,
           ItemError;
      MakeBatch(requestId, maxItems, maxBson);
      NoneIsAccepted(maxBson, cfg);
      var status, item' := AppendLast(item, maxBson, maxItems);
      if status.Success? {
        totalItems := totalItems + 1;
      }
      return status.Success?;
    }

    /** Both attempts of add, once the batch to try first is there. */
    method AddToLast(item: WriteItem, maxItems: int, maxBson: int, requestId: int) returns (added: bool)
      requires batch != null && Shaped(0) && totalItems == |AllItems()| < INT_MAX
      requires if batch.itemCount == 0 then batch.buffer.pos == FreshSize(ns, typ, collection, cfg)
               else batch.itemCount < maxItems
      requires OlderWithin(maxItems, maxBson) && (batch.itemCount == 0 || batch.buffer.pos <= MaxWireSize(maxBson))
      requires AllAccepted(batch.items, maxBson, cfg)
      modifies this, batch, batch.buffer, batch.buffer.data
      ensures added <==> Fits(item, maxBson)
      ensures added ==> Valid() && AllItems() == old(AllItems()) + [ItemAfter(item)]
      ensures added ==> Within(maxItems, maxBson)
      ensures added && old(batch.itemCount) == 0 ==> older == old(older)
      ensures older == old(older) ==> batch == old(batch)
      ensures older == old(older) || older == old(older + [batch])
      ensures added ==>
                (older == old(older) <==>
                 old(batch.buffer.pos) + ItemSize(old(batch.itemCount), item, cfg) <= maxBson + 16 * 1024)
      ensures older != old(older) ==>
                && old(batch).items == old(batch.items)
                && old(batch).buffer.pos == old(batch.buffer.pos)
                && old(batch.buffer.Written()) <= old(batch).buffer.data[..]
    {
      hide Batch.Holds, InBatch, FreshSize, AddStatusOf, Concat, OlderWithin, OlderHold, Last, ItemAfter, AllAccepted,
           ItemError, ItemSize;
      CountWithinTotal();
      FreshIsBest(batch.buffer.pos, batch.itemCount, item, maxBson);
      RoomLeft(batch.buffer.pos, batch.itemCount, item, maxBson);
      var status, item' := AppendLast(item, maxBson, maxItems);
      if status.Failure? {
        return false;
      }
      if status.Success? {
        totalItems := totalItems + 1;
        return true;
      }
      TakeBack();
      RetryFits(item, maxBson);
      added := AddInNewBatch(item', maxItems, maxBson, requestId);
    }

    /**
     * MongoWriteBatch::add, on an item taken apart into its fields.  Batches before the current one are not
     * modified at all; the current one keeps its bytes when the item goes into a new batch.
     */
    method Add(item: WriteItem, maxItems: int, maxBson: int, id1: int, id2: int) returns (added: bool)
      requires Valid() && Within(maxItems, maxBson) && totalItems < INT_MAX
      modifies this, if batch == null then {} else {batch, batch.buffer, batch.buffer.data}
      ensures added <==> Fits(item, maxBson)
      ensures added ==> Valid() && Within(maxItems, maxBson)
      ensures added ==> AllItems() == old(AllItems()) + [ItemAfter(item)]
      ensures added && old(batch) == null ==> older == []
      ensures added && old(batch) != null ==>
                && older in [old(older), old(older + [batch])]
                && (older == old(older) ==> batch == old(batch))
      // the current batch takes the item exactly when neither limit of the server is in the way
      ensures added && old(batch) != null ==>
                (older == old(older) <==>
                 && old(batch.itemCount) < maxItems
                 && old(batch.buffer.pos) + ItemSize(old(batch.itemCount), item, cfg) <= maxBson + 16 * 1024)
      ensures added && old(batch) != null && older != old(older) ==>
                && old(batch).items == old(batch.items)
                && old(batch).buffer.pos == old(batch.buffer.pos)
                && old(batch.buffer.Written()) <= old(batch).buffer.data[..]
    {
      hide Batch.Holds, InBatch, FreshSize, AddStatusOf, Concat, OlderWithin, OlderHold, Last, ItemAfter, AllAccepted,
           ItemError, ItemSize;
      if totalItems == 0 || batch.itemCount >= maxItems {
        MakeBatch(id1, maxItems, maxBson);
        NoneIsAccepted(maxBson, cfg);
      }
      added := AddToLast(item, maxItems, maxBson, id2);
    }
  }
}
