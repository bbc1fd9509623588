/** batch/write.c: sending the batches of a chain one after the other and merging what the server answers. */
module WriteExecute {
  import opened Bytes
  import opened Values
  import opened Bson
  import opened MongoBuffers
  import opened BsonEncoder
  import opened WriteCommand
  import opened WriteBatch
  import opened WriteMeaning
  import BsonDecode
  import BsonRoundTrip
  import CStrings

  /** A document of writeErrors or upserted: its index, if it has one, and its other fields. */
  datatype Indexed = Indexed(index: Option<int>, fields: bytes)

  /** What comes back for one message; Lost stands for every way in which no usable reply arrives. */
  datatype Reply =
    | Lost
    | Answer(n: int, ok: int, nModified: int, errors: Option<seq<Indexed>>, upserted: Option<seq<Indexed>>)

  /** The merged return value, before n is given its name for the kind of write. */
  datatype Totals = Totals(n: int, ok: int, nModified: int, nUpserted: int, errors: Option<seq<Indexed>>,
                           upserted: Option<seq<Indexed>>)

  const NOTHING := Totals(0, 0, 0, 0, None, None)

  datatype Outcome = Complete | Stopped | TooLarge | NoReply

  function Shifted(d: Indexed, n: int): Indexed {
    if d.index.Some? then d.(index := Some(d.index.value + n)) else d
  }

  /** The index rewriting loop. */
  method ShiftIndexes(docs: seq<Indexed>, n: int) returns (shifted: seq<Indexed>)
    ensures |shifted| == |docs|
    ensures forall i :: 0 <= i < |docs| ==> shifted[i] == Shifted(docs[i], n)
  {
    shifted := docs;
    for i := 0 to |docs|
      invariant |shifted| == |docs|
      invariant forall k :: 0 <= k < i ==> shifted[k] == Shifted(docs[k], n)
      invariant forall k :: i <= k < |docs| ==> shifted[k] == docs[k]
    {
      if shifted[i].index.Some? {
        shifted := shifted[i := shifted[i].(index := Some(shifted[i].index.value + n))];
      }
    }
  }

  /** php_array_merge, recursively, on one list-valued key. */
  function MergeLists(a: Option<seq<Indexed>>, b: Option<seq<Indexed>>): Option<seq<Indexed>> {
    if b.None? then a else if a.None? then b else Some(a.value + b.value)
  }

  /** The reply's lists with every index moved by n. */
  function ShiftedLists(l: Option<seq<Indexed>>, n: int): Option<seq<Indexed>> {
    if l.None? then None else Some(seq(|l.value|, i requires 0 <= i < |l.value| => Shifted(l.value[i], n)))
  }

  function Length(l: Option<seq<Indexed>>): nat {
    if l.None? then 0 else |l.value|
  }

  /** The merged value after a number of replies. */
  function Merged(replies: seq<Reply>): Totals
    requires forall r :: r in replies ==> r.Answer?
  {
    if replies == [] then NOTHING
    else
      MergedWith(Merged(replies[..|replies| - 1]), replies[|replies| - 1])
  }

  /** One more reply: its indexes are moved by what the earlier ones counted. */
  function MergedWith(t: Totals, r: Reply): Totals
    requires r.Answer?
  {
    Totals(t.n + r.n, t.ok + r.ok, t.nModified + r.nModified, t.nUpserted + Length(r.upserted),
           MergeLists(t.errors, ShiftedLists(r.errors, t.n)), MergeLists(t.upserted, ShiftedLists(r.upserted, t.n)))
  }

  /** One round of the loop once there is a reply. */
  method Absorb(t: Totals, r: Reply) returns (t': Totals)
    requires r.Answer?
    ensures t' == MergedWith(t, r)
  {
    var errors, upserted, nUpserted := r.errors, r.upserted, t.nUpserted;
    if r.errors.Some? {
      var moved := ShiftIndexes(r.errors.value, t.n);
      errors := Some(moved);
      assert errors.value == ShiftedLists(r.errors, t.n).value;
    }
    if r.upserted.Some? {
      var moved := ShiftIndexes(r.upserted.value, t.n);
      upserted := Some(moved);
      assert upserted.value == ShiftedLists(r.upserted, t.n).value;
      nUpserted := nUpserted + |moved|;
    }
    return Totals(t.n + r.n, t.ok + r.ok, t.nModified + r.nModified, nUpserted,
                  MergeLists(t.errors, errors), MergeLists(t.upserted, upserted));
  }

  // --- what the merged value is, reply by reply ---

  /** The lists of a reply whose indexes are moved. */
  datatype Part = Errors | Upserts

  function ListOf(part: Part, r: Reply): Option<seq<Indexed>>
    requires r.Answer?
  {
    if part.Errors? then r.errors else r.upserted
  }

  /** How many entries of that list came in all. */
  function EntriesIn(part: Part, replies: seq<Reply>): nat
    requires forall r :: r in replies ==> r.Answer?
  {
    if replies == [] then 0
    else Length(ListOf(part, replies[|replies| - 1])) + EntriesIn(part, replies[..|replies| - 1])
  }

  /** The sums of n, ok and nModified. */
  function Counted(replies: seq<Reply>): (int, int, int)
    requires forall r :: r in replies ==> r.Answer?
  {
    if replies == [] then (0, 0, 0)
    else
      var r, sums := replies[|replies| - 1], Counted(replies[..|replies| - 1]);
      (r.n + sums.0, r.ok + sums.1, r.nModified + sums.2)
  }

  /** The same entry with its index moved by n. */
  predicate IsMoved(moved: Indexed, d: Indexed, n: int) {
    && moved.fields == d.fields && (moved.index.Some? <==> d.index.Some?)
    && (d.index.Some? ==> moved.index.value - d.index.value == n)
  }

  /** Entry e of reply k stands behind those of the replies before, moved by what these counted. */
  ghost predicate HasEntry(list: Option<seq<Indexed>>, part: Part, replies: seq<Reply>, k: nat, e: nat)
    requires forall r :: r in replies ==> r.Answer?
    requires k < |replies| && e < Length(ListOf(part, replies[k]))
  {
    var at := EntriesIn(part, replies[..k]) + e;
    at < Length(list) && IsMoved(list.value[at], ListOf(part, replies[k]).value[e], Counted(replies[..k]).0)
  }

  /** All entries of all replies and no others, in order. */
  ghost predicate IsJoined(list: Option<seq<Indexed>>, part: Part, replies: seq<Reply>)
    requires forall r :: r in replies ==> r.Answer?
  {
    && (list.Some? <==> exists k :: 0 <= k < |replies| && ListOf(part, replies[k]).Some?)
    && Length(list) == EntriesIn(part, replies)
    && forall k, e :: 0 <= k < |replies| && 0 <= e < Length(ListOf(part, replies[k])) ==>
         HasEntry(list, part, replies, k, e)
  }

  ghost predicate IsMergeOf(t: Totals, replies: seq<Reply>)
    requires forall r :: r in replies ==> r.Answer?
  {
    && (t.n, t.ok, t.nModified) == Counted(replies) && t.nUpserted == EntriesIn(Upserts, replies)
    && IsJoined(t.errors, Errors, replies) && IsJoined(t.upserted, Upserts, replies)
  }

  lemma OneListMore(list: Option<seq<Indexed>>, part: Part, replies: seq<Reply>, r: Reply, n: int)
    requires r.Answer? && forall q :: q in replies ==> q.Answer?
    requires IsJoined(list, part, replies) && n == Counted(replies).0
    ensures IsJoined(MergeLists(list, ShiftedLists(ListOf(part, r), n)), part, replies + [r])
  {
    hide Counted, HasEntry;
    var all, last := replies + [r], |replies|;
    var joined := MergeLists(list, ShiftedLists(ListOf(part, r), n));
    assert all[..last] == replies && all[last] == r;
    if ListOf(part, r).Some? {
      assert ListOf(part, all[last]).Some?;
    }
    if k :| 0 <= k < last && ListOf(part, replies[k]).Some? {
      assert ListOf(part, all[k]).Some?;
    }
    forall k, e | 0 <= k < |all| && 0 <= e < Length(ListOf(part, all[k]))
      ensures HasEntry(joined, part, all, k, e)
    {
      if k < last {
        assert HasEntry(list, part, replies, k, e);
        OldEntryStays(list, joined, part, replies, r, k, e);
      } else {
        NewEntryIsLast(list, part, replies, r, n, e);
      }
    }
  }

  lemma OldEntryStays(list: Option<seq<Indexed>>, joined: Option<seq<Indexed>>, part: Part, replies: seq<Reply>,
                      r: Reply, k: nat, e: nat)
    requires r.Answer? && forall q :: q in replies ==> q.Answer?
    requires k < |replies| && e < Length(ListOf(part, replies[k])) && HasEntry(list, part, replies, k, e)
    requires list.Some? ==> joined.Some? && list.value <= joined.value
    ensures HasEntry(joined, part, replies + [r], k, e)
  {
    hide Counted, EntriesIn;
    assert (replies + [r])[..k] == replies[..k];
  }

  lemma NewEntryIsLast(list: Option<seq<Indexed>>, part: Part, replies: seq<Reply>, r: Reply, n: int, e: nat)
    requires r.Answer? && forall q :: q in replies ==> q.Answer?
    requires Length(list) == EntriesIn(part, replies) && n == Counted(replies).0 && e < Length(ListOf(part, r))
    ensures HasEntry(MergeLists(list, ShiftedLists(ListOf(part, r), n)), part, replies + [r], |replies|, e)
  {
    hide Counted, EntriesIn;
    assert (replies + [r])[..|replies|] == replies;
  }

  /** The merged value holds the sums, and every entry of every reply at its place with its index moved. */
  lemma {:induction false} MergedIsMerge(replies: seq<Reply>)
    requires forall r :: r in replies ==> r.Answer?
    ensures IsMergeOf(Merged(replies), replies)
  {
    hide IsJoined, MergeLists, ShiftedLists;
    if replies == [] {
      NothingJoined();
    } else {
      var last := |replies| - 1;
      var front := replies[..last];
      MergedIsMerge(front);
      OneListMore(Merged(front).errors, Errors, front, replies[last], Merged(front).n);
      OneListMore(Merged(front).upserted, Upserts, front, replies[last], Merged(front).n);
      assert front + [replies[last]] == replies;
    }
  }

  lemma NothingJoined()
    ensures IsJoined(None, Errors, []) && IsJoined(None, Upserts, [])
  {
  }

  /** Unset counts as ordered. */
  predicate IsOrdered(o: WriteOptions) {
    o.ordered != Some(false)
  }

  predicate EndsRun(r: Reply, o: WriteOptions) {
    r.Lost? || (r.errors.Some? && IsOrdered(o))
  }

  // --- what is sent ---

  /** The bytes of a finished message for these items. */
  function Message(head: bytes, typ: WriteType, collection: cstring, items: seq<WriteItem>, o: WriteOptions,
                   cfg: Config): bytes
    requires |items| <= LONG_MAX
  {
    var command := DocBytes(CommandTable(typ, collection, items, Some(o)), cfg);
    Le32(4 + |head| + |command|) + head + command
  }

  /** Whether php_mongo_api_write_end accepts the batch. */
  predicate Finishes(headSize: nat, typ: WriteType, collection: cstring, items: seq<WriteItem>, o: WriteOptions,
                     maxBson: int, cfg: Config)
    requires |items| <= LONG_MAX
  {
    4 + headSize + |DocBytes(CommandTable(typ, collection, items, Some(o)), cfg)| <= MaxWireSize(maxBson)
  }

  /** The batches from number k on still hold their parts, are linked up to the end and made of objects of foot. */
  ghost predicate Remaining(chain: seq<Batch>, parts: seq<seq<WriteItem>>, k: nat, foot: set<object>, ns: bytes,
                            typ: WriteType, collection: cstring, cfg: Config)
    reads chain, set b | b in chain :: b.buffer, set b | b in chain :: b.buffer.data
  {
    && |parts| == |chain|
    && MongoWriteBatch.Apart(chain)
    && (forall i :: k <= i < |chain| ==>
          && chain[i].Holds(ns, typ, collection, cfg, 0) && chain[i].items == parts[i] && |parts[i]| <= LONG_MAX
          && chain[i].buffer in foot && chain[i].buffer.data in foot
          && chain[i].next == if i + 1 < |chain| then chain[i + 1] else null)
  }

  lemma ThreeParts(s: bytes, i: nat, j: nat, k: nat)
    requires i <= j <= k <= |s|
    ensures s[..k] == s[..i] + s[i..j] + s[j..k]
  {
  }

  /** php_mongo_api_batch_execute up to the sending: the message, or nothing when it is too large. */
  method Finish(b: Batch, o: WriteOptions, maxBson: int, cfg: Config, ghost ns: bytes, ghost typ: WriteType,
                ghost collection: cstring)
    returns (message: Option<bytes>)
    requires b.Holds(ns, typ, collection, cfg, 0)
    modifies b.buffer, b.buffer.data
    ensures b.buffer.data == old(b.buffer.data) || fresh(b.buffer.data)
    ensures |b.items| <= LONG_MAX && IsHead(b.head, ns, cfg)
    ensures message.Some? <==> Finishes(|b.head|, typ, collection, b.items, o, maxBson, cfg)
    ensures message.Some? ==> message.value == Message(b.head, typ, collection, b.items, o, cfg)
    ensures message.Some? ==> |message.value| <= MaxWireSize(maxBson)
  {
    hide DocBytes, CommandTable, Le32, StartBytes, ItemsTable, Since, IsHead;
    var length := WriteEnd(b.buffer, b.container, b.batchPos, MaxWireSize(maxBson), Some(o), cfg, b.head, typ,
                           collection, b.items);
    if length == 0 {
      return None;
    }
    ThreeParts(b.buffer.data[..], 4, b.container, length);
    return Some(b.buffer.data[..length]);
  }

  lemma NextInLine(chain: seq<Batch>, parts: seq<seq<WriteItem>>, k: nat, foot: set<object>, ns: bytes, typ: WriteType,
                   collection: cstring, cfg: Config)
    requires k < |chain| && Remaining(chain, parts, k, foot, ns, typ, collection, cfg)
    ensures chain[k].Holds(ns, typ, collection, cfg, 0) && chain[k].items == parts[k] && |parts[k]| <= LONG_MAX
    ensures chain[k].next == if k + 1 < |chain| then chain[k + 1] else null
  {
    hide Batch.Holds, MongoWriteBatch.Apart;
  }

  /** Batch number k is finished; the later ones are not disturbed. */
  method FinishNext(b: Batch, o: WriteOptions, maxBson: int, cfg: Config, ghost ns: bytes, ghost typ: WriteType,
                    ghost collection: cstring, ghost chain: seq<Batch>, ghost parts: seq<seq<WriteItem>>, ghost k: nat,
                    ghost foot: set<object>)
    returns (message: Option<bytes>)
    requires k < |chain| && b == chain[k]
    requires Remaining(chain, parts, k, foot, ns, typ, collection, cfg)
    modifies b.buffer, b.buffer.data
    ensures Remaining(chain, parts, k + 1, foot, ns, typ, collection, cfg)
    ensures b.next == if k + 1 < |chain| then chain[k + 1] else null
    ensures |parts| == |chain| && |parts[k]| <= LONG_MAX && IsHead(b.head, ns, cfg)
    ensures message.Some? <==> Finishes(|b.head|, typ, collection, parts[k], o, maxBson, cfg)
    ensures message.Some? ==> message.value == Message(b.head, typ, collection, parts[k], o, cfg)
    ensures message.Some? ==> |message.value| <= MaxWireSize(maxBson)
  {
    hide Batch.Holds, Finishes, Message, CommandTable, DocBytes, IsHead;
    ghost var next := b.next;
    NextInLine(chain, parts, k, foot, ns, typ, collection, cfg);
    message := Finish(b, o, maxBson, cfg, ns, typ, collection);
    assert b.next == next;
    forall i | k < i < |chain|
      ensures chain[i].Holds(ns, typ, collection, cfg, 0) && chain[i].buffer.data == old(chain[i].buffer.data)
    {
      assert chain[i].buffer != b.buffer && old(chain[i].buffer.data) != old(b.buffer.data);
    }
    forall i, j | 0 <= i < j < |chain|
      ensures chain[i].buffer != chain[j].buffer && chain[i].buffer.data != chain[j].buffer.data
    {
      assert chain[i].buffer != chain[j].buffer && old(chain[i].buffer.data) != old(chain[j].buffer.data);
    }
  }

  lemma CountFits(b: Batch, ns: bytes, typ: WriteType, collection: cstring, cfg: Config)
    requires b.Holds(ns, typ, collection, cfg, 0)
    ensures |b.items| <= LONG_MAX
  {
  }

  /** The chain as execute walks it. */
  lemma ChainIsReady(w: MongoWriteBatch)
    requires w.Valid() && w.batch != null
    ensures var chain, parts := w.older + [w.batch], w.parts + [w.batch.items];
            && Remaining(chain, parts, 0, w.frozen + {w.batch.buffer, w.batch.buffer.data}, w.ns, w.typ, w.collection,
                         w.cfg)
            && w.batch.first == chain[0]
            && Concat(parts) == w.AllItems() && |parts| == |chain|
  {
    hide InBatch, FreshSize, Concat;
    ConcatAdds(w.parts, w.batch.items);
    assert forall i :: 0 <= i < |w.older| ==> w.older[i].Holds(w.ns, w.typ, w.collection, w.cfg, 0);
    forall i | 0 <= i <= |w.older|
      ensures |(w.parts + [w.batch.items])[i]| <= LONG_MAX
    {
      if i < |w.older| {
        CountFits(w.older[i], w.ns, w.typ, w.collection, w.cfg);
      } else {
        CountFits(w.batch, w.ns, w.typ, w.collection, w.cfg);
      }
    }
  }

  /** The replies merged so far, and why the loop goes on or stops. */
  ghost predicate RunSoFar(replies: seq<Reply>, o: WriteOptions, answered: nat, totals: Totals, outcome: Outcome) {
    && answered <= |replies| && (forall i :: 0 <= i < answered ==> replies[i].Answer?)
    && totals == Merged(replies[..answered])
    && (forall i :: 0 <= i < answered - 1 ==> !EndsRun(replies[i], o))
    && (outcome.Stopped? <==> answered > 0 && EndsRun(replies[answered - 1], o))
    && (outcome.Complete? ==> answered == |replies|)
    && (outcome.NoReply? ==> answered < |replies| && replies[answered].Lost?)
  }

  ghost predicate HasMerged(totals: Totals, replies: seq<Reply>, answered: nat) {
    && answered <= |replies| && (forall r :: r in replies[..answered] ==> r.Answer?)
    && IsMergeOf(totals, replies[..answered])
  }

  /** It stops early only at a reply with errors, unless `ordered` is set to false, or where no reply comes. */
  ghost predicate StopsRightly(replies: seq<Reply>, o: WriteOptions, answered: nat, outcome: Outcome) {
    && answered <= |replies|
    && (outcome.Stopped? <==>
        answered > 0 && o.ordered != Some(false) && replies[answered - 1].Answer? && replies[answered - 1].errors.Some?)
    && (outcome.Complete? ==> answered == |replies|)
    && (outcome.NoReply? ==> answered < |replies| && replies[answered].Lost?)
  }

  lemma RunIsMerge(replies: seq<Reply>, o: WriteOptions, answered: nat, totals: Totals, outcome: Outcome)
    requires RunSoFar(replies, o, answered, totals, outcome)
    ensures HasMerged(totals, replies, answered) && StopsRightly(replies, o, answered, outcome)
  {
    MergedIsMerge(replies[..answered]);
  }

  lemma RunGoesOn(replies: seq<Reply>, o: WriteOptions, answered: nat, totals: Totals, totals': Totals)
    requires RunSoFar(replies, o, answered, totals, TooLarge) && answered < |replies|
    requires replies[answered].Answer?
    requires totals' == MergedWith(totals, replies[answered])
    ensures RunSoFar(replies, o, answered + 1, totals', if EndsRun(replies[answered], o) then Stopped else TooLarge)
  {
    hide MergedWith;
    assert replies[..answered + 1][..answered] == replies[..answered];
  }

  lemma RunEnds(replies: seq<Reply>, o: WriteOptions, answered: nat, totals: Totals)
    requires RunSoFar(replies, o, answered, totals, TooLarge)
    ensures answered == |replies| ==> RunSoFar(replies, o, answered, totals, Complete)
    ensures answered < |replies| && replies[answered].Lost? ==> RunSoFar(replies, o, answered, totals, NoReply)
  {
  }

  lemma NextIsOurs(chain: seq<Batch>, parts: seq<seq<WriteItem>>, k: nat, foot: set<object>, ns: bytes, typ: WriteType,
                   collection: cstring, cfg: Config)
    requires k < |chain| && Remaining(chain, parts, k, foot, ns, typ, collection, cfg)
    ensures chain[k].buffer in foot && chain[k].buffer.data in foot
  {
  }

  /**
   * php_mongo_writebatch_execute.  replies[k] is what the server answers to the k-th message.  `answered` counts
   * the replies that were merged; `sent` lists the messages that went out.  Once the whole chain has been answered the
   * object is empty and can be filled again.
   */
  method Execute(w: MongoWriteBatch, o: WriteOptions, maxBson: int, replies: seq<Reply>, ghost maxItems: int,
                 ghost addBson: int)
    returns (totals: Totals, outcome: Outcome, answered: nat, sent: seq<bytes>)
    requires w.Valid() && w.batch != null && |replies| == |w.older| + 1
    modifies w, w.frozen, w.batch, w.batch.buffer, w.batch.buffer.data
    ensures RunSoFar(replies, o, answered, totals, outcome)
    ensures HasMerged(totals, replies, answered) && StopsRightly(replies, o, answered, outcome)
    ensures |sent| == if outcome.NoReply? then answered + 1 else answered
    ensures AreMessages(sent, old(w.Chain()), old(w.Parts()), w.ns, w.typ, w.collection, o,
                        w.cfg)
    ensures outcome.TooLarge? ==>
              CannotFinish(answered, old(w.Chain()), old(w.Parts()), w.typ, w.collection, o,
                           maxBson, w.cfg)
    // what was added within the limits can be read by the server
    ensures old(w.Within(maxItems, addBson)) && MaxWireSize(maxBson) <= INT_MAX &&
            old(Clean(w.Parts(), w.typ, w.collection, o, w.cfg)) ==>
              AllReadable(sent, old(w.Chain()), old(w.Parts()), w.ns, w.typ, w.collection, o,
                          w.cfg)
    ensures w.totalItems == 0 && (answered == |replies| <==> w.batch == null)
    ensures w.batch == null ==> w.Valid() && w.AllItems() == [] && w.Within(maxItems, addBson)
  {
    hide InBatch, FreshSize, Concat, Remaining, RunSoFar, Message, Finishes, MergedWith, Plain, Clean, Readable;
    hide AreMessages, IsHead;
    hide MongoWriteBatch.Apart, MongoWriteBatch.Shaped, MongoWriteBatch.Valid, MongoWriteBatch.AllItems;
    hide MongoWriteBatch.Within, AllReadable, HasMerged, StopsRightly;
    ChainIsReady(w);
    ghost var chain, parts := w.older + [w.batch], w.parts + [w.batch.items];
    ghost var foot := w.frozen + {w.batch.buffer, w.batch.buffer.data};
    ghost var plain := w.Within(maxItems, addBson) && Clean(parts, w.typ, w.collection, o, w.cfg);
    if plain {
      AddedIsPlain(w, o, maxItems, addBson);
    }
    DotInNamespace(w);
    totals, outcome, answered, sent := SendAll(w, o, maxBson, replies, chain, parts, foot);
    RunIsMerge(replies, o, answered, totals, outcome);
    if plain && MaxWireSize(maxBson) <= INT_MAX {
      SentIsReadable(sent, chain, parts, w.ns, w.typ, w.collection, o, addBson, w.cfg);
    }
    if w.batch == null {
      w.older, w.parts, w.frozen := [], [], {};
      EmptyIsValid(w, maxItems, addBson);
    }
  }

  /** The loop of php_mongo_writebatch_execute. */
  method SendAll(w: MongoWriteBatch, o: WriteOptions, maxBson: int, replies: seq<Reply>, ghost chain: seq<Batch>,
                 ghost parts: seq<seq<WriteItem>>, ghost foot: set<object>)
    returns (totals: Totals, outcome: Outcome, answered: nat, sent: seq<bytes>)
    requires |chain| == |replies| == |parts| > 0 && w.batch != null && w.batch.first == chain[0] && w !in foot
    requires Remaining(chain, parts, 0, foot, w.ns, w.typ, w.collection, w.cfg)
    modifies w`totalItems, w`batch, foot
    ensures RunSoFar(replies, o, answered, totals, outcome)
    ensures |sent| == if outcome.NoReply? then answered + 1 else answered
    ensures AreMessages(sent, chain, parts, w.ns, w.typ, w.collection, o, w.cfg)
    ensures forall m :: m in sent ==> |m| <= MaxWireSize(maxBson)
    ensures outcome.TooLarge? ==> CannotFinish(answered, chain, parts, w.typ, w.collection, o, maxBson, w.cfg)
    ensures w.totalItems == 0 && (answered == |replies| <==> w.batch == null)
  {
    hide InBatch, FreshSize, Concat, Remaining, RunSoFar, Message, Finishes, MergedWith;
    hide AreMessages, IsHead;
    hide MongoWriteBatch.Apart;
    w.totalItems := 0;
    w.batch := w.batch.first;
    totals, answered, sent := NOTHING, 0, [];
    NothingYet(replies, o);
    NoMessages(chain, parts, w.ns, w.typ, w.collection, o, w.cfg);
    while true
      invariant answered < |chain| == |replies| == |parts|
      invariant w.batch == chain[answered] && w.totalItems == 0
      invariant Remaining(chain, parts, answered, foot, w.ns, w.typ, w.collection, w.cfg)
      invariant RunSoFar(replies, o, answered, totals, TooLarge)
      invariant |sent| == answered && AreMessages(sent, chain, parts, w.ns, w.typ, w.collection, o, w.cfg)
      invariant forall m :: m in sent ==> |m| <= MaxWireSize(maxBson)
      decreases |chain| - answered
    {
      var b: Batch := w.batch;
      NextIsOurs(chain, parts, answered, foot, w.ns, w.typ, w.collection, w.cfg);
      var message := FinishNext(b, o, maxBson, w.cfg, w.ns, w.typ, w.collection, chain, parts, answered, foot);
      if message.None? {
        outcome := TooLarge;
        return;
      }
      OneMoreMessage(sent, message.value, chain, parts, w.ns, w.typ, w.collection, o, w.cfg);
      sent := sent + [message.value];
      var reply := replies[answered];
      if reply.Lost? {
        outcome := NoReply;
        RunEnds(replies, o, answered, totals);
        return;
      }
      var totals' := Absorb(totals, reply);
      RunGoesOn(replies, o, answered, totals, totals');
      totals := totals';
      answered := answered + 1;
      w.batch := b.next;
      if reply.errors.Some? && IsOrdered(o) {
        outcome := Stopped;
        return;
      }
      if w.batch == null {
        outcome := Complete;
        RunEnds(replies, o, answered, totals);
        return;
      }
    }
  }

  /** Items without a NUL in a regex, in commands whose names the command character leaves alone. */
  ghost predicate Clean(parts: seq<seq<WriteItem>>, typ: WriteType, collection: cstring, o: WriteOptions, cfg: Config) {
    forall i :: 0 <= i < |parts| && |parts[i]| <= LONG_MAX ==>
      && (forall j :: 0 <= j < |parts[i]| ==> CleanItem(parts[i][j]))
      && KeepsNames(typ, collection, parts[i], Some(o), cfg)
  }

  lemma AddedIsPlain(w: MongoWriteBatch, o: WriteOptions, maxItems: int, addBson: int)
    requires w.Valid() && w.batch != null && w.Within(maxItems, addBson)
    requires Clean(w.parts + [w.batch.items], w.typ, w.collection, o, w.cfg)
    ensures Plain(w.parts + [w.batch.items], addBson, w.typ, w.collection, o, w.cfg)
  {
    hide InBatch, FreshSize, Concat, CleanItem, KeepsNames, AllAccepted, MongoWriteBatch.Apart;
    var parts := w.parts + [w.batch.items];
    forall i | 0 <= i < |parts|
      ensures |parts[i]| <= LONG_MAX && AllAccepted(parts[i], addBson, w.cfg)
    {
      if i < |w.older| {
        assert w.older[i] in w.older;
        CountFits(w.older[i], w.ns, w.typ, w.collection, w.cfg);
      } else {
        CountFits(w.batch, w.ns, w.typ, w.collection, w.cfg);
      }
    }
  }

  lemma DotInNamespace(w: MongoWriteBatch)
    requires w.Valid() && w.batch != null
    ensures 46 in w.ns && w !in w.frozen && w as object !in {w.batch.buffer, w.batch.buffer.data}
  {
    hide Concat, MongoWriteBatch.OlderHold, Batch.Holds;
  }

  lemma EmptyIsValid(w: MongoWriteBatch, maxItems: int, addBson: int)
    requires w.batch == null && 46 in w.ns && w.totalItems == 0 && w.older == [] && w.parts == [] && w.frozen == {}
    ensures w.Valid() && w.AllItems() == [] && w.Within(maxItems, addBson)
  {
  }

  lemma NothingYet(replies: seq<Reply>, o: WriteOptions)
    ensures RunSoFar(replies, o, 0, NOTHING, TooLarge)
  {
  }

  /** Message number i was made from batch number i. */
  ghost predicate AreMessages(sent: seq<bytes>, chain: seq<Batch>, parts: seq<seq<WriteItem>>, ns: bytes,
                              typ: WriteType, collection: cstring, o: WriteOptions, cfg: Config) {
    && |sent| <= |chain| == |parts|
    && forall i :: 0 <= i < |sent| ==>
         |parts[i]| <= LONG_MAX && sent[i] == Message(chain[i].head, typ, collection, parts[i], o, cfg)
         && IsHead(chain[i].head, ns, cfg)
  }

  lemma OneMoreMessage(sent: seq<bytes>, m: bytes, chain: seq<Batch>, parts: seq<seq<WriteItem>>, ns: bytes,
                       typ: WriteType, collection: cstring, o: WriteOptions, cfg: Config)
    requires AreMessages(sent, chain, parts, ns, typ, collection, o, cfg) && |sent| < |chain|
    requires |parts[|sent|]| <= LONG_MAX && IsHead(chain[|sent|].head, ns, cfg)
    requires m == Message(chain[|sent|].head, typ, collection, parts[|sent|], o, cfg)
    ensures AreMessages(sent + [m], chain, parts, ns, typ, collection, o, cfg)
  {
  }

  lemma NoMessages(chain: seq<Batch>, parts: seq<seq<WriteItem>>, ns: bytes, typ: WriteType, collection: cstring,
                   o: WriteOptions, cfg: Config)
    requires |chain| == |parts|
    ensures AreMessages([], chain, parts, ns, typ, collection, o, cfg)
  {
  }

  ghost predicate CannotFinish(k: nat, chain: seq<Batch>, parts: seq<seq<WriteItem>>, typ: WriteType,
                               collection: cstring, o: WriteOptions, maxBson: int, cfg: Config) {
    && k < |chain| == |parts| && |parts[k]| <= LONG_MAX
    && !Finishes(|chain[k].head|, typ, collection, parts[k], o, maxBson, cfg)
  }

  /** The server finds the length in front, the message head, and a command with the items in the order added. */
  predicate Readable(m: bytes, head: bytes, typ: WriteType, collection: cstring, items: seq<WriteItem>, o: WriteOptions,
                     cfg: Config)
    requires |items| <= LONG_MAX
  {
    && |m| >= 4 + |head| && m[..4] == Le32(|m|) && m[4..4 + |head|] == head
    && BsonDecode.DecodeDoc(m[4 + |head|..], cfg) == Ok(DecodedCommand(typ, collection, items, Some(o), cfg))
  }

  /** A message can be read exactly when the command character starts no name that the driver writes. */
  lemma SentMessageDecodes(head: bytes, typ: WriteType, collection: cstring, items: seq<WriteItem>, o: WriteOptions,
                           maxBson: int, cfg: Config)
    requires |items| <= LONG_MAX && AllAccepted(items, maxBson, cfg)
    requires forall i :: 0 <= i < |items| ==> CleanItem(items[i])
    requires |Message(head, typ, collection, items, o, cfg)| <= INT_MAX
    ensures Readable(Message(head, typ, collection, items, o, cfg), head, typ, collection, items, o, cfg) <==>
            KeepsNames(typ, collection, items, Some(o), cfg)
  {
    hide DocBytes, CommandTable, Le32, ItemError, CleanItem, KeepsNames, DecodedCommand, BsonDecode.DecodeDoc;
    FinishedBatchDecodes(typ, collection, items, Some(o), maxBson, cfg);
    var command := DocBytes(CommandTable(typ, collection, items, Some(o)), cfg);
    MessageParts(Le32(4 + |head| + |command|), head, command);
  }

  /** Items that come back as they were sent. */
  ghost predicate Plain(parts: seq<seq<WriteItem>>, addBson: int, typ: WriteType, collection: cstring, o: WriteOptions,
                        cfg: Config) {
    forall i :: 0 <= i < |parts| ==>
      && |parts[i]| <= LONG_MAX && AllAccepted(parts[i], addBson, cfg)
      && (forall j :: 0 <= j < |parts[i]| ==> CleanItem(parts[i][j]))
      && KeepsNames(typ, collection, parts[i], Some(o), cfg)
  }

  ghost predicate AllReadable(sent: seq<bytes>, chain: seq<Batch>, parts: seq<seq<WriteItem>>, ns: bytes,
                              typ: WriteType, collection: cstring, o: WriteOptions, cfg: Config) {
    && |sent| <= |chain| == |parts|
    && forall i :: 0 <= i < |sent| ==>
         |parts[i]| <= LONG_MAX && Readable(sent[i], chain[i].head, typ, collection, parts[i], o, cfg)
         && IsHead(chain[i].head, ns, cfg)
  }

  lemma SentIsReadable(sent: seq<bytes>, chain: seq<Batch>, parts: seq<seq<WriteItem>>, ns: bytes, typ: WriteType,
                       collection: cstring, o: WriteOptions, addBson: int, cfg: Config)
    requires AreMessages(sent, chain, parts, ns, typ, collection, o, cfg)
    requires Plain(parts, addBson, typ, collection, o, cfg) && forall m :: m in sent ==> |m| <= INT_MAX
    ensures AllReadable(sent, chain, parts, ns, typ, collection, o, cfg)
  {
    hide Readable, Message, IsHead, KeepsNames, CleanItem, AllAccepted;
    forall i | 0 <= i < |sent|
      ensures |parts[i]| <= LONG_MAX && Readable(sent[i], chain[i].head, typ, collection, parts[i], o, cfg)
    {
      assert sent[i] in sent;
      SentMessageDecodes(chain[i].head, typ, collection, parts[i], o, addBson, cfg);
    }
  }

  /**
   * Read by the layout of OP_QUERY, the head is a query without flags for exactly one reply, on the database as it is
   * named and on the collection with '$' in place of the command character.
   */
  lemma HeadIsQuery(requestId: int, db: bytes, collection: bytes, cfg: Config)
    requires 46 !in db && NulFree(db) && NulFree(collection)
    ensures var m := MessageHead(requestId, db + [46] + collection, cfg);
            var dollared := cfg.cmdChar.Some? && collection != [] && collection[0] == cfg.cmdChar.value;
            var k := 16 + StrLen(m[16..]);
            && |m| == k + 9 && S32(m) == ToInt32(requestId) && S32(m[4..]) == 0 && S32(m[8..]) == 2004
            && S32(m[12..]) == 0
            && m[16..k] == db + Ascii(".") + (if dollared then Ascii("$") + collection[1..] else collection)
            && S32(m[k + 1..]) == 0 && S32(m[k + 5..]) == -1
  {
    hide Le32, S32, StrLen, WireNs;
    var ns := db + [46] + collection;
    var wire := WireNs(ns, cfg);
    NamespaceAsWritten(db, collection, cfg);
    var m := MessageHead(requestId, ns, cfg);
    var tail := Le32(0) + Le32(-1);
    var named := wire + [0] + tail;
    assert m == Le32(requestId) + (Le32(0) + (Le32(OP_QUERY) + (Le32(0) + named)));
    BsonRoundTrip.Word32(0, Le32(0) + named, named);
    assert m[12..] == Le32(0) + named && m[16..] == named;
    assert m[8..] == Le32(OP_QUERY) + (Le32(0) + named);
    BsonRoundTrip.Word32(OP_QUERY, m[8..], Le32(0) + named);
    assert m[4..] == Le32(0) + (Le32(OP_QUERY) + (Le32(0) + named));
    BsonRoundTrip.Word32(0, m[4..], Le32(OP_QUERY) + (Le32(0) + named));
    U32OfLe32(requestId, Le32(0) + (Le32(OP_QUERY) + (Le32(0) + named)));
    StrLenOfCString(wire, tail);
    assert m[16..16 + |wire|] == wire;
    assert m[16 + |wire| + 1..] == tail && m[16 + |wire| + 5..] == Le32(-1) + [];
    BsonRoundTrip.Word32(0, tail, Le32(-1));
    BsonRoundTrip.Word32(-1, Le32(-1) + [], []);
  }

  lemma NamespaceAsWritten(db: bytes, collection: bytes, cfg: Config)
    requires 46 !in db && NulFree(db) && NulFree(collection)
    ensures var dollared := cfg.cmdChar.Some? && collection != [] && collection[0] == cfg.cmdChar.value;
            WireNs(db + [46] + collection, cfg) ==
              db + Ascii(".") + (if dollared then Ascii("$") + collection[1..] else collection)
    ensures NulFree(WireNs(db + [46] + collection, cfg))
  {
    CStrings.UpTo(db, 46, collection);
    assert Ascii(".") == [46] && Ascii("$") == [36];
  }

  lemma MessageParts(length: bytes, head: bytes, command: bytes)
    requires |length| == 4
    ensures var m := length + head + command;
            m[..4] == length && m[4..4 + |head|] == head && m[4 + |head|..] == command
  {
  }

  // --- what the merged indexes mean ---

  function SumOfSizes(parts: seq<seq<WriteItem>>): nat {
    if parts == [] then 0 else SumOfSizes(parts[..|parts| - 1]) + |parts[|parts| - 1]|
  }

  /** Item j of part k is item SumOfSizes(parts[..k]) + j of all items. */
  lemma {:induction false} PositionInAll(parts: seq<seq<WriteItem>>, k: nat, j: nat)
    requires k < |parts| && j < |parts[k]|
    ensures |Concat(parts)| == SumOfSizes(parts)
    ensures var position := SumOfSizes(parts[..k]) + j;
            position < |Concat(parts)| && Concat(parts)[position] == parts[k][j]
  {
    var last := |parts| - 1;
    SizeOfAll(parts[..last]);
    if k < last {
      PositionInAll(parts[..last], k, j);
      assert parts[..last][..k] == parts[..k];
    }
  }

  lemma {:induction false} SizeOfAll(parts: seq<seq<WriteItem>>)
    ensures |Concat(parts)| == SumOfSizes(parts)
  {
    if parts != [] {
      SizeOfAll(parts[..|parts| - 1]);
    }
  }

  /** Replies without errors that count their whole batch. */
  ghost predicate CountsAll(replies: seq<Reply>, parts: seq<seq<WriteItem>>) {
    && |replies| <= |parts|
    && (forall i :: 0 <= i < |replies| ==> replies[i].Answer? && replies[i].errors.None? && replies[i].n == |parts[i]|)
  }

  lemma {:induction false} CleanRun(replies: seq<Reply>, parts: seq<seq<WriteItem>>)
    requires CountsAll(replies, parts)
    ensures Merged(replies).errors.None? && Merged(replies).n == SumOfSizes(parts[..|replies|])
  {
    if replies != [] {
      var last := |replies| - 1;
      CleanRun(replies[..last], parts);
      assert parts[..|replies|][..last] == parts[..last];
    }
  }

  /**
   * Ordered inserts: when every batch without errors reports n equal to its item count, an index in the merged
   * writeErrors is the position of the failing item among everything that was added.
   */
  lemma ErrorIndexIsGlobal(replies: seq<Reply>, o: WriteOptions, answered: nat, totals: Totals,
                           parts: seq<seq<WriteItem>>, e: nat)
    requires IsOrdered(o) && answered <= |parts|
    requires RunSoFar(replies, o, answered, totals, Stopped)
    requires forall i :: 0 <= i < answered - 1 ==> replies[i].errors.None? ==> replies[i].n == |parts[i]|
    requires e < |replies[answered - 1].errors.value|
    requires var local := replies[answered - 1].errors.value[e].index;
             local.Some? && 0 <= local.value < |parts[answered - 1]|
    ensures totals.errors.Some? && |totals.errors.value| == |replies[answered - 1].errors.value|
    ensures var local, global := replies[answered - 1].errors.value[e].index.value, totals.errors.value[e].index;
            && global.Some? && 0 <= global.value < |Concat(parts)|
            && Concat(parts)[global.value] == parts[answered - 1][local]
            && global.value == SumOfSizes(parts[..answered - 1]) + local
  {
    var k := answered - 1;
    CleanRun(replies[..k], parts);
    assert replies[..answered][..k] == replies[..k];
    PositionInAll(parts, k, replies[k].errors.value[e].index.value);
  }

  /**
   * In any run, ordered or not: the index of a merged error is the position of the failing item among everything that
   * was added exactly when the replies before counted every item of their batches.  A reply to an unordered insert
   * does not count the items that failed.
   */
  lemma GlobalExactlyIfCounted(replies: seq<Reply>, totals: Totals, parts: seq<seq<WriteItem>>, k: nat, e: nat)
    requires forall r :: r in replies ==> r.Answer?
    requires totals == Merged(replies) && k < |replies| <= |parts| && e < Length(replies[k].errors)
    requires replies[k].errors.value[e].index.Some?
    ensures var at, local := EntriesIn(Errors, replies[..k]) + e, replies[k].errors.value[e].index.value;
            && at < Length(totals.errors) && totals.errors.value[at].index.Some?
            && (totals.errors.value[at].index.value == SumOfSizes(parts[..k]) + local <==>
                Counted(replies[..k]).0 == SumOfSizes(parts[..k]))
  {
    hide Merged, Counted, EntriesIn, SumOfSizes;
    MergedIsMerge(replies);
    assert ListOf(Errors, replies[k]) == replies[k].errors;
    assert HasEntry(totals.errors, Errors, replies, k, e);
  }

  /** A run that answers everything without errors counts every item that was added. */
  lemma CompleteRunCountsAll(replies: seq<Reply>, o: WriteOptions, totals: Totals, parts: seq<seq<WriteItem>>)
    requires |replies| == |parts| && RunSoFar(replies, o, |replies|, totals, Complete) && CountsAll(replies, parts)
    ensures totals.errors.None? && totals.n == |Concat(parts)|
  {
    assert replies[..|replies|] == replies && parts[..|replies|] == parts;
    CleanRun(replies, parts);
    SizeOfAll(parts);
  }

  /** MongoWriteBatch::getBatchInfo: count and size of every batch, from the first one on. */
  method GetBatchInfo(w: MongoWriteBatch) returns (info: seq<(nat, nat)>)
    requires w.Valid()
    ensures w.totalItems == 0 ==> info == []
    ensures w.totalItems != 0 ==> |info| == |w.older| + 1
    ensures forall i :: 0 <= i < |info| ==>
              var b := (if i < |w.older| then w.older[i] else w.batch);
              b != null && info[i] == (|b.items|, b.buffer.pos)
    ensures w.totalItems != 0 ==> SumOfSizes(w.parts + [w.batch.items]) == w.totalItems
  {
    hide InBatch, FreshSize, Concat, SumOfSizes;
    info := [];
    if w.totalItems == 0 {
      return;
    }
    ConcatAdds(w.parts, w.batch.items);
    SizeOfAll(w.parts + [w.batch.items]);
    ghost var chain := w.older + [w.batch];
    ChainCounts(w);
    var batch: Batch? := w.batch.first;
    while batch != null
      invariant |info| <= |chain|
      invariant batch == if |info| < |chain| then chain[|info|] else null
      invariant forall i :: 0 <= i < |info| ==> info[i] == (|chain[i].items|, chain[i].buffer.pos)
      decreases |chain| - |info|
    {
      info := info + [(batch.itemCount, batch.buffer.pos)];
      batch := batch.next;
    }
  }

  lemma ChainCounts(w: MongoWriteBatch)
    requires w.Valid() && w.batch != null
    ensures var chain := w.older + [w.batch];
            && w.batch.first == chain[0]
            && forall i :: 0 <= i < |chain| ==>
                 && chain[i].itemCount == |chain[i].items|
                 && chain[i].next == if i + 1 < |chain| then chain[i + 1] else null
  {
    hide InBatch, FreshSize, Concat;
    assert forall i :: 0 <= i < |w.older| ==> w.older[i].Holds(w.ns, w.typ, w.collection, w.cfg, 0);
  }
}
