/**
 * command_cursor.c: a cursor made from a command's reply.  Its first batch comes inside the reply as a list; the
 * later ones come from getMore, as for any cursor.
 */
module CommandCursors {
  import opened Bytes
  import opened Values
  import opened CursorHistory
  import opened Cursors

  class CommandCursor {
    /** mongo_command_cursor is the same structure as mongo_cursor; this is the part they share */
    const base: MongoCursor
    var firstBatch: Option<seq<Hash>>
    var firstBatchAt: nat
    var firstBatchNum: nat
    ghost var firstDocs: seq<Hash>

    /** Every document that has arrived, from both sources. */
    ghost function Arrived(): seq<Hash>
      reads this`firstDocs, base`received
    {
      firstDocs + base.received
    }

    /** The position among all documents: what key() reports while there is a current document. */
    function Position(): int
      reads this`firstBatch, this`firstBatchAt, this`firstBatchNum, base`at
    {
      if firstBatch.Some? then firstBatchAt else firstBatchNum + base.at
    }

    /** The getMore that is sent when the position moves on and nothing is left of the documents at hand. */
    ghost function NextRequest(): Request
      reads this`firstBatch, base`cursorId, base`num, base`limit, base`batchSize, base`at
    {
      Request(base.cursorId, base.num,
              NextRequestLimit(base.limit, base.batchSize, if firstBatch.Some? then base.at else base.at + 1))
    }

    /** The last document at hand is the current one and the server has more. */
    ghost predicate NeedsMore()
      reads this, base
    {
      base.cursorId != 0 && Position() + 1 == |Arrived()|
    }

    /** The one that is sent first, when the first batch is empty. */
    ghost function FirstRequest(): Request
      reads base`cursorId, base`num, base`limit, base`batchSize, base`at
    {
      Request(base.cursorId, base.num, NextRequestLimit(base.limit, base.batchSize, base.at))
    }

    /** The document at the position is an error report. */
    ghost predicate AtError()
      reads this, base
    {
      0 <= Position() < |Arrived()| && IsError(Arrived()[Position()])
    }

    ghost predicate Valid()
      reads this, base
    {
      firstBatchNum == |firstDocs| && base.connection != null && Positioned()
    }

    ghost predicate Positioned()
      reads this, base
    {
      && base.num == |base.received| && base.taken <= base.num && 0 <= base.at
      && base.buffered == base.received[base.taken..]
      && (match firstBatch
          case Some(docs) =>
            && docs == firstDocs && base.at == base.num == 0
            && (firstBatchAt < firstBatchNum || (firstBatchNum == 0 && base.cursorId == 0))
          case None => base.taken == (if base.at < base.num then base.at + 1 else base.num) &&
                       (base.at >= base.num ==> base.cursorId == 0))
      && base.current == if Position() < |Arrived()| then Some(Arrived()[Position()]) else None
    }

    /** php_mongo_command_cursor_init_from_document, once the connection has been found. */
    constructor (con: MongoConnection, id: int, first: seq<Hash>, ghost cursors: set<MongoCursor>,
                 ghost conns: set<MongoConnection>)
      requires World(cursors, conns) && con in conns && con.alive
      modifies conns`cleanup
      ensures fresh(base) && World(cursors + {base}, conns)
      ensures firstBatch == Some(first) && firstDocs == first && firstBatchAt == 0 && firstBatchNum == |first|
      ensures base.cursorId == id && base.connection == con && !base.dead
      ensures base.at == base.num == base.taken == 0 && base.received == [] && base.buffered == [] && base.current.None?
    {
      base := new MongoCursor(0, 0);
      firstBatch, firstBatchAt, firstBatchNum, firstDocs := Some(first), 0, |first|, first;
      new;
      Attach(base, con, id, cursors, conns);
    }

    /** php_mongocommandcursor_load_current_element; whether an exception was thrown. */
    method Load(ghost cursors: set<MongoCursor>, ghost conns: set<MongoConnection>) returns (thrown: bool)
      requires World(cursors, conns) && base in cursors && base.connection != null && Ready()
      modifies base`current, base`buffered, base`taken
      modifies conns, cursors`dead, cursors`cursorId, cursors`connection, cursors`history
      ensures World(cursors, conns) && OthersKept(cursors, base)
      ensures !thrown ==> Valid() && !base.dead && (base.current.None? ==> base.cursorId == 0)
      ensures thrown ==> base.failed || AtError()
      ensures Position() == old(Position()) && Arrived() == old(Arrived()) && base.failed == old(base.failed)
    {
      hide Lawful, Owner, Registry, IsError, NotMaster;
      base.current := None;
      if firstBatch.Some? && firstBatchAt < |firstBatch.value| {
        base.current := Some(firstBatch.value[firstBatchAt]);
        return false;
      }
      thrown := LoadReply(cursors, conns);
    }

    /** The next document of the replies, which may be an error report. */
    method LoadReply(ghost cursors: set<MongoCursor>, ghost conns: set<MongoConnection>) returns (thrown: bool)
      requires World(cursors, conns) && base in cursors && base.connection != null && Ready()
      requires firstBatch.Some? ==> firstBatchAt >= firstBatchNum
      modifies base`current, base`buffered, base`taken
      modifies conns, cursors`dead, cursors`cursorId, cursors`connection, cursors`history
      ensures World(cursors, conns) && OthersKept(cursors, base)
      ensures !thrown ==> Valid() && !base.dead && (base.current.None? ==> base.cursorId == 0)
      ensures thrown ==> base.failed || AtError()
      ensures base.failed == old(base.failed)
    {
      hide Lawful, Owner, Registry, IsError, NotMaster, MongoCursor.Valid;
      var loaded := base.LoadCurrent();
      thrown := false;
      if loaded {
        thrown := base.HandleError(cursors, conns);
      }
    }

    /** Like Positioned, before the document at the position has been made current. */
    ghost predicate Ready()
      reads this, base
    {
      && firstBatchNum == |firstDocs| && !base.dead
      && base.num == |base.received| && base.taken <= base.num && 0 <= base.at
      && base.buffered == base.received[base.taken..]
      && (match firstBatch
          case Some(docs) =>
            && docs == firstDocs && base.at == base.num == 0
            && (firstBatchAt < firstBatchNum || (firstBatchNum == 0 && base.cursorId == 0))
          case None =>
            && base.taken == (if base.at < base.num then base.at else base.num)
            && (base.at >= base.num ==> base.cursorId == 0))
    }

    /** The next batch, when nothing is left of the one at hand. */
    method Refill(net: Request -> Reply, ghost cursors: set<MongoCursor>, ghost conns: set<MongoConnection>)
      returns (ok: bool)
      requires World(cursors, conns) && base in cursors && HonestServer(net) && base.cursorId != 0 && !base.dead
      requires firstBatch.None? && firstBatchNum == |firstDocs|
      requires 0 <= base.at == base.num == |base.received| == base.taken
      modifies conns, cursors`dead, cursors`cursorId, cursors`connection, cursors`history
      modifies base`start, base`failed, base`num, base`buffered, base`received, base`exhausted
      ensures World(cursors, conns) && OthersKept(cursors, base)
      ensures ok == net(old(FirstRequest())).Arrived? && (ok ==> base.failed == net(old(FirstRequest())).failed)
      ensures ok ==> Ready() && base.connection != null && Arrived() == old(Arrived()) + net(old(FirstRequest())).docs
      ensures !ok ==> base.dead
    {
      hide Lawful, Owner, Registry, NextRequestLimit;
      var r := Request(base.cursorId, base.num, NextRequestLimit(base.limit, base.batchSize, base.at));
      assert Honest(r, net(r));
      ok := base.GetMore(net, cursors, conns);
    }

    /** One position further; whether the next batch has to be fetched. */
    method Forward(ghost cursors: set<MongoCursor>, ghost conns: set<MongoConnection>) returns (fetch: bool)
      requires World(cursors, conns) && base in cursors && Valid() && !base.dead
      modifies this`firstBatch, this`firstBatchAt, base`current, base`at
      ensures World(cursors, conns) && base.connection != null && base.current.None? && Arrived() == old(Arrived())
      ensures forall c :: c in cursors && c != base && old(c.Valid()) ==> c.Valid()
      ensures old(base.current.Some?) ==> Position() == old(Position()) + 1
      ensures fetch ==> FirstRequest() == old(NextRequest())
      ensures fetch <==> old(NeedsMore())
      ensures if fetch then firstBatch.None? && firstBatchNum == |firstDocs| && base.cursorId != 0 &&
                            base.at == base.num == |base.received| == base.taken
              else Ready()
    {
      hide Lawful, Owner, Registry, MongoCursor.Owns, IsError;
      base.current := None;
      if firstBatch.Some? {
        firstBatchAt := firstBatchAt + 1;
        if firstBatchAt >= firstBatchNum {
          firstBatch := None;
          return base.cursorId != 0;
        }
        return false;
      }
      base.at := base.at + 1;
      return base.at == base.num && base.cursorId != 0;
    }

    /** php_mongocommandcursor_advance, for MongoCommandCursor::next; whether an exception was thrown. */
    method Next(net: Request -> Reply, ghost cursors: set<MongoCursor>, ghost conns: set<MongoConnection>)
      returns (thrown: bool)
      requires World(cursors, conns) && base in cursors && HonestServer(net) && Valid() && !base.dead
      modifies this`firstBatch, this`firstBatchAt, base, conns, cursors`dead, cursors`cursorId, cursors`connection,
               cursors`history
      ensures World(cursors, conns) && OthersKept(cursors, base)
      ensures !thrown ==> Valid() && !base.dead
      ensures !thrown ==> if old(NeedsMore()) then net(old(NextRequest())).Arrived? &&
                                                   Arrived() == old(Arrived()) + net(old(NextRequest())).docs
                          else Arrived() == old(Arrived())
      ensures !thrown && old(base.current.Some?) ==> Position() == old(Position()) + 1
      ensures !thrown && base.current.None? ==> base.cursorId == 0
      ensures thrown ==> old(base.failed) || AtError() || Refused(net(old(NextRequest())))
      ensures !thrown && base.failed ==> old(base.failed) || Refused(net(old(NextRequest())))
    {
      hide World, MongoCursor.Valid, IsError, HonestServer, CommandCursor.Valid, CommandCursor.Ready,
           CommandCursor.AtError, CommandCursor.Position, NextRequestLimit, CommandCursor.NeedsMore,
           CommandCursor.Arrived;
      var fetch := Forward(cursors, conns);
      if fetch {
        var ok := Refill(net, cursors, conns);
        if !ok {
          return true;
        }
      }
      thrown := Load(cursors, conns);
    }

    /** As it was made, with nothing read yet. */
    ghost predicate Untouched()
      reads this, base
    {
      && firstBatch == Some(firstDocs) && firstBatchAt == 0 && firstBatchNum == |firstDocs|
      && base.at == base.num == base.taken == 0 && base.received == [] && base.buffered == []
    }

    /** php_mongocommandcursor_fetch_batch_if_first_is_empty; after a failed getMore there is nothing left to decode. */
    method FetchIfFirstIsEmpty(net: Request -> Reply, ghost cursors: set<MongoCursor>,
                               ghost conns: set<MongoConnection>)
      returns (ok: bool)
      requires World(cursors, conns) && base in cursors && HonestServer(net) && base.connection != null
      requires !base.dead && Untouched()
      modifies this`firstBatch, conns, cursors`dead, cursors`cursorId, cursors`connection, cursors`history
      modifies base`start, base`failed, base`num, base`buffered, base`received, base`exhausted
      ensures World(cursors, conns) && OthersKept(cursors, base)
      ensures ok ==> Ready() && base.connection != null && Position() == 0
      ensures ok ==> if firstDocs == [] && old(base.cursorId) != 0
                     then net(old(FirstRequest())).Arrived? && Arrived() == net(old(FirstRequest())).docs
                     else Arrived() == firstDocs
      ensures !ok ==> base.dead && Refused(net(old(FirstRequest())))
      ensures ok && base.failed ==> old(base.failed) || Refused(net(old(FirstRequest())))
    {
      hide World, MongoCursor.Valid, HonestServer;
      ok := true;
      if firstBatchNum == 0 && base.cursorId != 0 {
        firstBatch := None;
        ok := Refill(net, cursors, conns);
      }
    }

    /** MongoCommandCursor::rewind for a cursor made from a document, which can be iterated once. */
    method Rewind(net: Request -> Reply, ghost cursors: set<MongoCursor>, ghost conns: set<MongoConnection>)
      returns (thrown: bool)
      requires World(cursors, conns) && base in cursors && HonestServer(net) && base.connection != null
      requires !base.dead && !base.startedIterating ==> Untouched()
      modifies this`firstBatch, base, conns, cursors`dead, cursors`cursorId, cursors`connection, cursors`history
      ensures World(cursors, conns) && OthersKept(cursors, base)
      ensures old(base.dead || base.startedIterating) ==> thrown
      ensures !thrown ==> Valid() && !base.dead && Position() == 0
      ensures !thrown ==> if firstDocs == [] && old(base.cursorId) != 0
                          then net(old(FirstRequest())).Arrived? && Arrived() == net(old(FirstRequest())).docs
                          else Arrived() == firstDocs
      ensures !thrown && base.current.None? ==> base.cursorId == 0
      ensures thrown ==>
                old(base.dead || base.startedIterating || base.failed) || AtError() || Refused(net(old(FirstRequest())))
      ensures !thrown && base.failed ==> old(base.failed) || Refused(net(old(FirstRequest())))
    {
      hide World, MongoCursor.Valid, IsError, HonestServer, CommandCursor.AtError, CommandCursor.Valid,
           CommandCursor.Ready, CommandCursor.Position, CommandCursor.Untouched, NextRequestLimit;
      if base.dead || base.startedIterating {
        return true;
      }
      var ok := FetchIfFirstIsEmpty(net, cursors, conns);
      if !ok {
        return true;
      }
      thrown := Load(cursors, conns);
      Started(cursors, conns);
    }

    method Started(ghost cursors: set<MongoCursor>, ghost conns: set<MongoConnection>)
      requires World(cursors, conns) && base in cursors
      modifies base`startedIterating
      ensures World(cursors, conns) && base.startedIterating && Valid() == old(Valid()) && AtError() == old(AtError())
      ensures forall c :: c in cursors && c != base && old(c.Valid()) ==> c.Valid()
    {
      hide Lawful, Owner, Registry, IsError;
      base.startedIterating := true;
    }

    /** MongoCommandCursor::key */
    method Key() returns (key: Option<int>)
      requires Valid()
      ensures key == if base.current.None? then None else Some(Position())
    {
      if base.current.None? {
        return None;
      }
      return Some(if firstBatch.Some? then firstBatchAt else firstBatchNum + base.at);
    }
  }

  /** The registration with the connection, and the cursor that the command left open there. */
  method Attach(base: MongoCursor, con: MongoConnection, id: int, ghost cursors: set<MongoCursor>,
                ghost conns: set<MongoConnection>)
    requires World(cursors, conns) && con in conns && con.alive && base !in cursors
    requires base.Owns() && base.history == [] && base.connection == null
    modifies base, conns`cleanup
    ensures World(cursors + {base}, conns)
    ensures base.cursorId == id && base.connection == con && !base.dead
    ensures base.at == base.num == base.taken == 0 && base.received == [] && base.buffered == [] && base.current.None?
  {
    hide Lawful, Owner, Registry;
    base.Reset();
    assert (cursors + {base}) - {base} == cursors;
    base.Join(con, cursors + {base}, conns);
    base.history := base.history + Turn(0, id, con);
    base.cursorId := id;
    OwnerAfterTurn([], 0, id, con);
    assert base.Owns();
  }

  /** What a loop over a command cursor has seen: all up to the current document, or everything there is. */
  ghost predicate Reading(c: CommandCursor, docs: seq<Hash>)
    reads c, c.base
  {
    && c.Valid() && !c.base.dead && docs <= c.Arrived()
    && (if c.base.current.Some? then c.Position() == |docs| else c.base.cursorId == 0 && docs == c.Arrived())
  }

  /** One round of the loop: current, key, next. */
  method ReadOne(c: CommandCursor, net: Request -> Reply, ghost docs: seq<Hash>, ghost cursors: set<MongoCursor>,
                 ghost conns: set<MongoConnection>)
    returns (doc: Hash, key: int, thrown: bool)
    requires World(cursors, conns) && c.base in cursors && HonestServer(net) && Reading(c, docs) && c.base.current.Some?
    modifies c`firstBatch, c`firstBatchAt, c.base, conns, cursors`dead, cursors`cursorId, cursors`connection,
             cursors`history
    ensures World(cursors, conns) && OthersKept(cursors, c.base)
    ensures key == |docs|
    ensures thrown ==> old(c.base.failed) || c.AtError() || Refused(net(old(c.NextRequest())))
    ensures !thrown && c.base.failed ==> old(c.base.failed) || Refused(net(old(c.NextRequest())))
    ensures !thrown ==> Reading(c, docs + [doc])
  {
    hide Lawful, Owner, World, IsError, HonestServer, CommandCursor.AtError, CommandCursor.Valid,
         CommandCursor.Position, MongoCursor.Valid;
    CurrentIsThere(c);
    var k := c.Key();
    ghost var before := c.Arrived();
    doc, key := c.base.current.value, k.value;
    thrown := c.Next(net, cursors, conns);
    if !thrown {
      CurrentIsThere(c);
      PrefixGrows(docs, doc, before, c.Arrived());
    }
  }

  /**
   * foreach over a command cursor, left after at most `bound` documents: current and key are read and next is
   * called until nothing is current.  The documents are those of the first batch and then of the replies, in
   * order, and the keys count them.
   */
  method Iterate(c: CommandCursor, net: Request -> Reply, bound: nat, ghost cursors: set<MongoCursor>,
                 ghost conns: set<MongoConnection>)
    returns (docs: seq<Hash>, keys: seq<int>, thrown: bool)
    requires World(cursors, conns) && c.base in cursors && HonestServer(net)
    requires c.Valid() && !c.base.dead && c.Position() == 0 && (c.base.current.None? ==> c.base.cursorId == 0)
    modifies c`firstBatch, c`firstBatchAt, c.base, conns, cursors`dead, cursors`cursorId, cursors`connection,
             cursors`history
    ensures World(cursors, conns) && OthersKept(cursors, c.base)
    ensures |keys| == |docs| <= bound && forall i :: 0 <= i < |keys| ==> keys[i] == i
    ensures thrown && !old(c.base.failed) && (forall r :: !Refused(net(r))) ==> c.AtError()
    ensures !thrown ==> docs <= c.Arrived()
    ensures !thrown && |docs| < bound ==> docs == c.Arrived() && c.base.cursorId == 0
  {
    hide Lawful, Owner, World, IsError, HonestServer, CommandCursor.AtError, CommandCursor.Valid,
         CommandCursor.Position, MongoCursor.Valid, CommandCursor.Arrived;
    docs, keys, thrown := [], [], false;
    CurrentIsThere(c);
    while c.base.current.Some? && |docs| < bound
      invariant World(cursors, conns) && OthersKept(cursors, c.base) && Reading(c, docs)
      invariant |keys| == |docs| <= bound && forall i :: 0 <= i < |keys| ==> keys[i] == i
      invariant !old(c.base.failed) && (forall r :: !Refused(net(r))) ==> !c.base.failed
      decreases bound - |docs|
    {
      var doc, key, failed := ReadOne(c, net, docs, cursors, conns);
      docs, keys := docs + [doc], keys + [key];
      if failed {
        return docs, keys, true;
      }
    }
  }

  lemma CurrentIsThere(c: CommandCursor)
    requires c.Valid()
    ensures 0 <= c.Position()
    ensures c.base.current.Some? <==> c.Position() < |c.Arrived()|
    ensures c.base.current.Some? ==> c.base.current.value == c.Arrived()[c.Position()]
  {
  }

  lemma PrefixGrows(said: seq<Hash>, d: Hash, before: seq<Hash>, after: seq<Hash>)
    requires said <= before <= after && |said| < |before| && before[|said|] == d
    ensures said + [d] <= after && (|after| == |said| + 1 ==> said + [d] == after)
  {
  }
}
