/**
 * cursor.c, cursor_shared.c and the callback lists of mcon/manager.c and mcon/connections.c: a cursor over the
 * batches a server sends, the server-side cursor it owns, and the connections that tell it when they go away.
 */
module Cursors {
  import opened Bytes
  import opened Values
  import opened CursorHistory
  import opened LinkedLists

  /** What comes back for one OP_QUERY or OP_GET_MORE. */
  datatype Reply =
    | Unsent                                                                  // the message could not be sent
    | NoHeader                                                                // no usable header came back
    | Torn(id: int, start: int, failed: bool, returned: int)                  // wrong request id, or no body
    | Arrived(id: int, start: int, failed: bool, docs: seq<Hash>)             // failed: an error flag is set

  /** Where a request finds the client: the id asked for (0 for a query), the documents received, the size wanted. */
  datatype Request = Request(id: int, num: int, asked: int)

  /**
   * The contract of the server: a reply to a getMore is about the cursor asked for, its starting position
   * counts the documents sent before, and a cursor is only kept open together with a document.
   */
  predicate Honest(r: Request, reply: Reply) {
    reply.Arrived? ==>
      (r.id != 0 ==> reply.id in {0, r.id}) && reply.start == r.num && (reply.id != 0 ==> reply.docs != [])
  }

  ghost predicate HonestServer(net: Request -> Reply) {
    forall r :: Honest(r, net(r))
  }

  /** A reply that does not arrive or that reports an error. */
  predicate Refused(reply: Reply) {
    !reply.Arrived? || reply.failed
  }

  const ERR_KEY := StrKey(Ascii("$err"))
  const CODE_KEY := StrKey(Ascii("code"))

  predicate IsError(doc: Hash) {
    Find(doc, ERR_KEY).Some?
  }

  /** The codes after which the connection is given up. */
  predicate NotMaster(doc: Hash) {
    match Find(doc, CODE_KEY)
    case Some(Long(n)) => n in {10107, 13435, 13436, 10054, 10056, 10058}
    case _ => false
  }

  /** What MongoCursor::next hands out: a document, null at the end, or an exception. */
  datatype Step = Returned(doc: Hash) | Finished | Threw

  /** php_mongo_calculate_next_request_limit */
  function NextRequestLimit(limit: int, batchSize: int, at: int): int {
    if limit < 0 then limit
    else if batchSize < 0 then batchSize
    else
      var limAt := if limit > batchSize then limit - at else limit;
      if batchSize != 0 && (limAt == 0 || batchSize <= limAt) then batchSize
      else if limAt != 0 && (batchSize == 0 || limAt < batchSize) then limAt
      else 0
  }

  ghost predicate NoDuplicates<T>(s: seq<T>) {
    forall i, j :: 0 <= i < j < |s| ==> s[i] != s[j]
  }

  /** The list without its first entry for x. */
  function Removed<T(==)>(s: seq<T>, x: T): seq<T> {
    Dropped(s, (y: T) => y == x)
  }

  /** Taking a cursor out of a list without repeats takes out that one and no other. */
  lemma RemovedFromUnique<T>(s: seq<T>, x: T)
    requires NoDuplicates(s)
    ensures NoDuplicates(Removed(s, x))
    ensures forall y :: y in Removed(s, x) <==> y in s && y != x
  {
    DroppedFromUnique(s, (y: T) => y == x);
    DroppedKeepsPairs(s, (y: T) => y == x, (y: T, z: T) => y != z);
  }

  lemma RemovedMember<T>(s: seq<T>, x: T, y: T)
    requires NoDuplicates(s)
    ensures y in Removed(s, x) <==> y in s && y != x
  {
    RemovedFromUnique(s, x);
  }

  lemma RemovedAt<T>(s: seq<T>, x: T, i: nat)
    requires i <= |s| && x !in s[..i] && (i < |s| ==> s[i] == x)
    ensures Removed(s, x) == if i < |s| then s[..i] + s[i + 1..] else s
  {
    if i < |s| {
      DroppedAt(s, (y: T) => y == x, i);
    } else {
      assert s[..i] == s;
      DroppedAbsent(s, (y: T) => y == x);
    }
  }

  class MongoConnection {
    /** cleared when the socket is closed and the structure freed */
    var alive: bool
    /** whom to notify, oldest entry first */
    var cleanup: seq<MongoCursor>

    constructor ()
      ensures alive && cleanup == []
    {
      alive, cleanup := true, [];
    }

    /** mongo_manager_add_connection_callback; LinkedLists has the pointers. */
    method AddCallback(cursor: MongoCursor)
      modifies this`cleanup
      ensures cleanup == old(cleanup) + [cursor]
    {
      cleanup := cleanup + [cursor];
    }

    /** mongo_deregister_callback_from_connection */
    method Deregister(cursor: MongoCursor)
      modifies this`cleanup
      ensures cleanup == Removed(old(cleanup), cursor)
    {
      hide Removed;
      var i := 0;
      while i < |cleanup| && cleanup[i] != cursor
        invariant i <= |cleanup| && cursor !in cleanup[..i]
      {
        assert cleanup[..i + 1] == cleanup[..i] + [cleanup[i]];
        i := i + 1;
      }
      RemovedAt(cleanup, cursor, i);
      if i < |cleanup| {
        cleanup := cleanup[..i] + cleanup[i + 1..];
      }
    }
  }

  class MongoCursor {
    var limit: int
    var batchSize: int

    var at: int
    var num: int
    var start: int
    var failed: bool
    var startedIterating: bool
    /** MONGO_CURSOR_OPT_DONT_ADVANCE_ON_FIRST_NEXT */
    var dontAdvance: bool
    var current: Option<Hash>
    /** the documents of the last reply that are not decoded yet */
    var buffered: seq<Hash>

    var dead: bool
    var cursorId: int
    var connection: MongoConnection?

    /** every document received since the query, how many have been decoded, and what was done with the server */
    ghost var received: seq<Hash>
    ghost var taken: nat
    ghost var history: seq<Event<MongoConnection>>
    /** the last reply said that there is no more */
    ghost var exhausted: bool

    constructor (limit: int, batchSize: int)
      ensures Valid() && connection == null && !startedIterating && history == []
      ensures this.limit == limit && this.batchSize == batchSize
    {
      this.limit, this.batchSize := limit, batchSize;
      at, num, start, failed := 0, 0, 0, false;
      startedIterating, dontAdvance, current, buffered := false, false, None, [];
      dead, cursorId, connection := false, 0, null;
      received, taken, history, exhausted := [], 0, [], false;
    }

    ghost predicate Valid()
      reads this
    {
      && Owns()
      && (!dead ==> Positioned())
      && (!dead && startedIterating ==>
          connection != null && (num == 0 ==> exhausted) && (Cut() ==> LimitReached() && EndsKilled()))
    }

    /** An open server-side cursor belongs to the connection that is set. */
    ghost predicate Owns()
      reads this`history, this`cursorId, this`connection, this`dead
    {
      && Lawful(history)
      && (cursorId != 0 ==> connection != null)
      && (dead ==> connection == null && cursorId == 0)
      && Owner(history) == Holding()
    }

    ghost function Holding(): Option<Opening<MongoConnection>>
      reads this`cursorId, this`connection
    {
      if connection == null || cursorId == 0 then None
      else
        var con: MongoConnection := connection;
        Some(Opening(cursorId, con))
    }

    /** How far `at` is behind the documents that were decoded. */
    ghost predicate Positioned()
      reads this`at, this`num, this`startedIterating, this`dontAdvance, this`buffered, this`received, this`taken,
            this`cursorId, this`current, this`exhausted
    {
      && num == |received| && taken <= num && 0 <= at
      && buffered == received[taken..]
      && (exhausted ==> cursorId == 0)
      && (if !startedIterating then at == 0 && taken == 0 && !dontAdvance && current.None?
          else if dontAdvance then at == 0 && taken == 0 && current.None?
          else if at < num then taken == at + 1
          else taken == num && cursorId == 0)
    }

    /** php_mongo_cursor_mark_dead */
    method MarkDead()
      requires Owns()
      modifies this`dead, this`cursorId, this`connection, this`history
      ensures Owns() && dead && connection == null && cursorId == 0
      ensures history == old(history + (if cursorId == 0 then [] else [Lost(cursorId)]))
    {
      if cursorId != 0 {
        history := history + [Lost(cursorId)];
      }
      dead := true;
      cursorId := 0;
      connection := null;
    }

    /** php_mongo_kill_cursor, and the id forgotten as every caller does. */
    method Kill()
      requires Owns()
      modifies this`cursorId, this`history
      ensures Owns() && cursorId == 0
      ensures history == old(history +
                             (if Holding().None? then [] else [Killed(Holding().value.id, Holding().value.con)]))
    {
      if cursorId != 0 {
        var con: MongoConnection := connection;
        history := history + [Killed(cursorId, con)];
        cursorId := 0;
      }
    }

    /** php_mongo_cursor_reset */
    method Reset()
      requires Owns()
      modifies this
      ensures Valid() && !dead && !startedIterating && cursorId == 0 && num == at == taken == 0
      ensures received == [] && buffered == [] && current.None?
      ensures connection == old(connection) && limit == old(limit) && batchSize == old(batchSize)
      ensures history == old(history +
                             (if Holding().None? then [] else [Killed(Holding().value.id, Holding().value.con)]))
    {
      hide Lawful, Owner, EndsKilled, LimitReached;
      Kill();
      startedIterating, current := false, None;
      at, num, dead, dontAdvance := 0, 0, false, false;
      buffered := [];
      received, taken, exhausted := [], 0, false;
    }

    /** php_mongo_get_reply: the header, then the body. */
    method GetReply(reply: Reply) returns (ok: bool)
      requires Owns() && connection != null && num == |received| == taken && !reply.Unsent?
      requires cursorId != 0 && reply.Arrived? ==> reply.id in {0, cursorId}
      modifies this`cursorId, this`start, this`failed, this`num, this`buffered, this`received, this`history,
               this`exhausted
      ensures Owns() && old(history) <= history
      ensures ok == reply.Arrived?
      ensures ok ==> received == old(received) + reply.docs && num == |received| && buffered == reply.docs
      ensures ok ==> buffered == received[taken..]
      ensures ok ==> cursorId == reply.id && start == reply.start && failed == reply.failed
      ensures ok ==> exhausted == (reply.id == 0)
      ensures !ok ==> received == old(received) && exhausted == old(exhausted)
    {
      hide Lawful, Owner, Turn;
      if reply.NoHeader? {
        return false;
      }
      var con: MongoConnection := connection;
      history := history + Turn(cursorId, reply.id, con);
      OwnerAfterTurn(old(history), cursorId, reply.id, con);
      cursorId, start, failed := reply.id, reply.start, reply.failed;
      if reply.Torn? {
        num := num + reply.returned;
        return false;
      }
      exhausted := reply.id == 0;
      num := num + |reply.docs|;
      buffered := reply.docs;
      received := received + reply.docs;
      return true;
    }

    /** php_mongo_cursor_failed: the connection is destroyed, and every cursor on it with it. */
    method Fail(ghost cursors: set<MongoCursor>, ghost conns: set<MongoConnection>)
      requires World(cursors, conns) && this in cursors && connection != null
      modifies conns, cursors`dead, cursors`cursorId, cursors`connection, cursors`history
      ensures World(cursors, conns) && dead && connection == null && cursorId == 0 && !old(connection).alive
      ensures OthersKept(cursors, this)
    {
      hide Owns;
      assert connection in conns;
      Destroy(connection, cursors, conns);
      dead := true;
      cursorId := 0;
      connection := null;
    }

    /** A request is sent and its reply read; any failure costs the connection. */
    method Exchange(reply: Reply, ghost cursors: set<MongoCursor>, ghost conns: set<MongoConnection>)
      returns (ok: bool)
      requires World(cursors, conns) && this in cursors && connection != null && num == |received| == taken
      requires cursorId != 0 && reply.Arrived? ==> reply.id in {0, cursorId}
      modifies conns, cursors`dead, cursors`cursorId, cursors`connection, cursors`history
      modifies this`start, this`failed, this`num, this`buffered, this`received, this`exhausted
      ensures World(cursors, conns) && OthersKept(cursors, this)
      ensures ok == reply.Arrived?
      ensures ok ==>
                Took(reply) && received == old(received) + reply.docs && dead == old(dead) &&
                connection == old(connection)
      ensures !ok ==> dead && received == old(received) && exhausted == old(exhausted)
    {
      hide Lawful, Owner, Registry, Turn, Valid, Positioned, Owns;
      if reply.Unsent? {
        Fail(cursors, conns);
        return false;
      }
      if cursorId != 0 {
        Ask();
      }
      ok := GetReply(reply);
      if !ok {
        Fail(cursors, conns);
      }
    }

    /** The registration with the old connection is dropped. */
    method Leave(ghost cursors: set<MongoCursor>, ghost conns: set<MongoConnection>)
      requires Registry(cursors, conns) && this in cursors
      modifies conns`cleanup
      ensures Registry(cursors - {this}, conns)
      ensures forall k :: k in conns ==> this !in k.cleanup
    {
      hide Removed;
      if connection != null {
        ghost var was := connection.cleanup;
        RemovedFromUnique(was, this);
        connection.Deregister(this);
        forall c: MongoCursor
          ensures c in connection.cleanup <==> c in was && c != this
        {
          RemovedMember(was, this, c);
        }
      }
      assert forall k :: k in conns ==> this !in k.cleanup;
      assert forall c :: c in cursors - {this} && c.connection != null ==> c in c.connection.cleanup;
    }

    /** The new connection, if there is one, and the registration with it. */
    method Join(target: MongoConnection?, ghost cursors: set<MongoCursor>, ghost conns: set<MongoConnection>)
      requires Registry(cursors - {this}, conns) && this in cursors
      requires target != null ==> target in conns && target.alive
      modifies this`connection, conns`cleanup
      ensures Registry(cursors, conns) && connection == target
    {
      connection := target;
      if target != null {
        assert this !in target.cleanup;
        target.AddCallback(this);
      }
      forall k, c | k in conns && c in k.cleanup
        ensures c in cursors && c.connection == k
      {
        if k != target || c != this {
          assert c in old(k.cleanup);
          assert c in cursors - {this};
        }
      }
    }

    /** mongo_cursor__do_query */
    method DoQuery(net: Request -> Reply, target: MongoConnection?, encodable: bool, ghost cursors: set<MongoCursor>,
                   ghost conns: set<MongoConnection>)
      returns (ok: bool)
      requires World(cursors, conns) && this in cursors && cursorId == 0 && !dead && num == |received| == taken == 0
      requires target != null ==> target in conns && target.alive
      modifies conns, cursors`dead, cursors`cursorId, cursors`connection, cursors`history
      modifies this`start, this`failed, this`num, this`buffered, this`received, this`exhausted
      ensures World(cursors, conns) && OthersKept(cursors, this)
      ensures var reply := net(Request(0, 0, old(NextRequestLimit(limit, batchSize, at))));
              && ok == (target != null && encodable && reply.Arrived?)
              && (ok ==> Took(reply) && received == reply.docs && !dead && connection == target)
      ensures !ok && !dead ==> cursorId == 0 && num == |received| == 0 && buffered == old(buffered)
    {
      hide Lawful, Owner, Registry;
      Leave(cursors, conns);
      Join(target, cursors, conns);
      if connection == null || !encodable {
        return false;
      }
      ok := Exchange(net(Request(cursorId, num, NextRequestLimit(limit, batchSize, at))), cursors, conns);
    }

    /** php_mongo_get_more */
    method GetMore(net: Request -> Reply, ghost cursors: set<MongoCursor>, ghost conns: set<MongoConnection>)
      returns (ok: bool)
      requires World(cursors, conns) && this in cursors && cursorId != 0 && num == |received| == taken
      requires HonestServer(net)
      modifies conns, cursors`dead, cursors`cursorId, cursors`connection, cursors`history
      modifies this`start, this`failed, this`num, this`buffered, this`received, this`exhausted
      ensures World(cursors, conns) && OthersKept(cursors, this)
      ensures var reply := net(old(Request(cursorId, num, NextRequestLimit(limit, batchSize, at))));
              && ok == reply.Arrived?
              && (ok ==> Took(reply) && received == old(received) + reply.docs && !dead && connection != null)
      ensures !ok ==> dead && received == old(received) && exhausted == old(exhausted)
    {
      var reply := net(Request(cursorId, num, NextRequestLimit(limit, batchSize, at)));
      assert Honest(Request(cursorId, num, NextRequestLimit(limit, batchSize, at)), reply);
      if connection == null {
        return false;
      }
      ok := Exchange(reply, cursors, conns);
    }

    /** The getMore goes out. */
    ghost method Ask()
      requires Owns() && cursorId != 0
      modifies this`history
      ensures Owns() && history == old(history) + [Asked(cursorId, Holding().value.con)]
    {
      history := history + [Asked(cursorId, Holding().value.con)];
    }

    /** The reply is in place, nothing of it decoded yet. */
    ghost predicate Took(reply: Reply)
      requires reply.Arrived?
      reads this`num, this`received, this`buffered, this`taken, this`cursorId, this`start, this`failed, this`exhausted
    {
      && num == |received| && taken <= num && buffered == received[taken..] && buffered == reply.docs
      && cursorId == reply.id && start == reply.start && failed == reply.failed && exhausted == (reply.id == 0)
    }

    /** php_mongo_runquery; when it fails an exception has been thrown. */
    method RunQuery(net: Request -> Reply, target: MongoConnection?, encodable: bool, ghost cursors: set<MongoCursor>,
                    ghost conns: set<MongoConnection>)
      returns (ok: bool)
      requires World(cursors, conns) && this in cursors
      requires target != null ==> target in conns && target.alive
      modifies this, conns, cursors`dead, cursors`cursorId, cursors`connection, cursors`history
      ensures World(cursors, conns) && OthersKept(cursors, this)
      ensures limit == old(limit) && batchSize == old(batchSize) && !startedIterating && at == taken == 0
      ensures !dontAdvance && current.None?
      ensures var reply := net(Request(0, 0, NextRequestLimit(limit, batchSize, 0)));
              && ok == (target != null && encodable && reply.Arrived?)
              && (ok ==> Took(reply) && received == reply.docs && !dead && connection == target)
      ensures !ok ==> Valid()
    {
      hide Owns, Lawful, Owner;
      ReadyToReset(cursors, conns);
      Reset();
      ok := DoQuery(net, target, encodable, cursors, conns);
      StillValid(cursors, conns);
    }

    lemma ReadyToReset(cursors: set<MongoCursor>, conns: set<MongoConnection>)
      requires World(cursors, conns) && this in cursors
      ensures Owns()
    {
    }

    lemma StillValid(cursors: set<MongoCursor>, conns: set<MongoConnection>)
      requires World(cursors, conns) && this in cursors
      ensures Owns() && (dead ==> connection == null && cursorId == 0)
    {
    }

    /** php_mongocursor_load_current_element */
    method LoadCurrent() returns (ok: bool)
      requires num == |received| && taken <= num && buffered == received[taken..]
      requires at < num ==> taken < num
      modifies this`current, this`buffered, this`taken
      ensures ok == (at < num)
      ensures ok ==> taken == old(taken) + 1 && current == Some(received[old(taken)])
      ensures !ok ==> taken == old(taken) && current.None?
      ensures buffered == received[taken..]
    {
      current := None;
      if at >= num {
        return false;
      }
      current := Some(buffered[0]);
      buffered := buffered[1..];
      taken := taken + 1;
      return true;
    }

    /** php_mongo_handle_error: whether an exception was thrown. */
    method HandleError(ghost cursors: set<MongoCursor>, ghost conns: set<MongoConnection>) returns (thrown: bool)
      requires World(cursors, conns) && this in cursors && connection != null
      modifies this`current, conns, cursors`dead, cursors`cursorId, cursors`connection, cursors`history
      ensures World(cursors, conns) && OthersKept(cursors, this)
      ensures thrown == (failed || (old(current).Some? && IsError(old(current).value)))
      ensures !thrown ==> current == old(current)
      // the connection is given up exactly for an error that says that it does not lead to the primary
      ensures if old(current).Some? && IsError(old(current).value) && NotMaster(old(current).value)
              then dead && !old(connection).alive
              else dead == old(dead) && connection == old(connection) && cursorId == old(cursorId) &&
                   history == old(history) && old(connection).alive == old(connection.alive)
    {
      hide IsError, NotMaster, Owns;
      if current.Some? && IsError(current.value) {
        var giveUp := NotMaster(current.value);
        current := None;
        if giveUp {
          Fail(cursors, conns);
        }
        return true;
      }
      return failed;
    }

    /** The server-side cursor was killed while the server had more. */
    ghost predicate Cut()
      reads this`cursorId, this`exhausted
    {
      cursorId == 0 && !exhausted
    }

    /** The last thing that was done with the server is a kill. */
    ghost predicate EndsKilled()
      reads this`history
    {
      history != [] && history[|history| - 1].Killed?
    }

    /** The position is past what a limit allows; a negative limit is left to the server. */
    ghost predicate LimitReached()
      reads this`limit, this`at
    {
      limit != 0 && at >= limit - 1
    }

    /** hasNext may say yes: the limit leaves room, or the only document has just been fetched. */
    ghost predicate BelowLimit()
      reads this`limit, this`at, this`dontAdvance, this`num
    {
      limit <= 0 || at < limit - 1 || (dontAdvance && at == num - 1)
    }

    /** hasNext says no because of the limit; a single document that was just fetched comes before it. */
    ghost predicate StopsAtLimit()
      reads this`limit, this`at, this`dontAdvance, this`num
    {
      limit > 0 && at >= limit - 1 && num > if dontAdvance then 1 else 0
    }

    /** One more batch, looked at by php_mongo_handle_error. */
    method FetchChecked(net: Request -> Reply, ghost cursors: set<MongoCursor>, ghost conns: set<MongoConnection>)
      returns (thrown: bool)
      requires World(cursors, conns) && this in cursors && HonestServer(net)
      requires cursorId != 0 && num == |received| == taken && !dead
      modifies conns, cursors`dead, cursors`cursorId, cursors`connection, cursors`history
      modifies this`start, this`failed, this`num, this`buffered, this`received, this`exhausted, this`current
      ensures World(cursors, conns) && OthersKept(cursors, this)
      ensures (received == old(received) && exhausted == old(exhausted)) ||
                Got(net, old(received), old(Request(cursorId, num, NextRequestLimit(limit, batchSize, at))))
      ensures !dead ==>
                var reply := net(old(Request(cursorId, num, NextRequestLimit(limit, batchSize, at))));
                reply.Arrived? && Took(reply) && received == old(received) + reply.docs && connection != null
      ensures thrown ==>
                (old(current).Some? && IsError(old(current).value)) ||
                Refused(net(old(Request(cursorId, num, NextRequestLimit(limit, batchSize, at)))))
      ensures !thrown ==> !dead && !failed && current == old(current)
    {
      hide IsError, Owns, Lawful, Owner, Registry, NextRequestLimit, HonestServer, Valid;
      var got := GetMore(net, cursors, conns);
      thrown := true;
      if got {
        thrown := HandleError(cursors, conns);
      }
    }

    /** hasNext when the documents at hand do not decide: one more batch is fetched. */
    method FetchMore(net: Request -> Reply, ghost cursors: set<MongoCursor>, ghost conns: set<MongoConnection>)
      returns (more: Option<bool>)
      requires AllValid(cursors, conns) && this in cursors && HonestServer(net)
      requires startedIterating && !dead && !dontAdvance && at >= num - 1 && cursorId != 0 &&
                 (limit <= 0 || at < limit - 1)
      modifies conns, cursors`dead, cursors`cursorId, cursors`connection, cursors`history
      modifies this`start, this`failed, this`num, this`buffered, this`received, this`exhausted, this`current
      ensures AllValid(cursors, conns) && OthersKept(cursors, this)
      ensures more.Some? ==> !dead && (failed ==> old(failed))
      ensures (received == old(received) && exhausted == old(exhausted)) ||
                (old(cursorId != 0 && !dontAdvance && at >= num - 1 && (limit <= 0 || at < limit - 1))
                 && Got(net, old(received), old(Request(cursorId, num, NextRequestLimit(limit, batchSize, at)))))
      ensures more == Some(true) ==> taken < |received| && !Cut()
      ensures more.None? ==>
                (old(current).Some? && IsError(old(current).value)) ||
                Refused(net(old(Request(cursorId, num, NextRequestLimit(limit, batchSize, at)))))
      ensures more.Some? ==> current == old(current)
      ensures more == Some(false) ==> cursorId == 0 && taken == |received| && exhausted
    {
      hide IsError, EndsKilled, Owns, Lawful, Owner, Registry, NextRequestLimit;
      assert Honest(Request(cursorId, num, NextRequestLimit(limit, batchSize, at)),
                    net(Request(cursorId, num, NextRequestLimit(limit, batchSize, at))));
      var thrown := FetchChecked(net, cursors, conns);
      more := if thrown then None else if start == num then Some(false) else Some(at < num - 1);
    }

    /** The limit is reached, or there are no documents: what the server has left is not wanted. */
    method StopHere(ghost cursors: set<MongoCursor>, ghost conns: set<MongoConnection>)
      requires AllValid(cursors, conns) && this in cursors && startedIterating && connection != null
      requires StopsAtLimit() || num == 0
      modifies this`cursorId, this`history
      ensures AllValid(cursors, conns) && OthersKept(cursors, this) && !dead && cursorId == 0
      ensures StopsAtLimit() || (taken == |received| && exhausted)
    {
      hide Lawful, Owner, Registry;
      Kill();
    }

    /** MongoCursor::hasNext once the query has been run; None when an exception was thrown. */
    method MoreToCome(net: Request -> Reply, ghost cursors: set<MongoCursor>, ghost conns: set<MongoConnection>)
      returns (more: Option<bool>)
      requires AllValid(cursors, conns) && this in cursors && HonestServer(net) && startedIterating
      modifies conns, cursors`dead, cursors`cursorId, cursors`connection, cursors`history
      modifies this`start, this`failed, this`num, this`buffered, this`received, this`exhausted, this`current
      ensures AllValid(cursors, conns) && OthersKept(cursors, this)
      ensures more.Some? ==> !dead && (failed ==> old(failed))
      ensures old(dontAdvance && connection != null) ==> more.Some?
      ensures more.None? ==>
                old(connection) == null || (old(current).Some? && IsError(old(current).value)) ||
                Refused(net(old(Request(cursorId, num, NextRequestLimit(limit, batchSize, at)))))
      ensures more.Some? ==> current == old(current)
      ensures (received == old(received) && exhausted == old(exhausted)) ||
                (old(cursorId != 0 && !dontAdvance && at >= num - 1 && (limit <= 0 || at < limit - 1))
                 && Got(net, old(received), old(Request(cursorId, num, NextRequestLimit(limit, batchSize, at)))))
      ensures old(dontAdvance) ==> received == old(received) && exhausted == old(exhausted) && failed == old(failed)
      ensures more == Some(true) ==>
                taken < |received| && BelowLimit() && (Cut() ==> old(Cut()))
      ensures more == Some(false) ==>
                cursorId == 0 && (StopsAtLimit() || (taken == |received| && (exhausted || old(Cut()))))
    {
      hide Lawful, Owner, Registry, NextRequestLimit, HonestServer;
      if connection == null {
        return None;
      }
      if dontAdvance && at == num - 1 {
        return Some(true);
      }
      if (limit > 0 && at >= limit - 1) || num == 0 {
        StopHere(cursors, conns);
        return Some(false);
      }
      if at < num - 1 {
        return Some(true);
      } else if cursorId == 0 {
        return Some(false);
      }
      more := FetchMore(net, cursors, conns);
    }

    /** The first query of an iteration, for hasNext, next and rewind. */
    method Begin(net: Request -> Reply, target: MongoConnection?, encodable: bool, ghost cursors: set<MongoCursor>,
                 ghost conns: set<MongoConnection>)
      returns (ok: bool)
      requires AllValid(cursors, conns) && this in cursors && HonestServer(net)
      requires target != null ==> target in conns && target.alive
      modifies this, conns, cursors`dead, cursors`cursorId, cursors`connection, cursors`history
      ensures World(cursors, conns) && OthersKept(cursors, this)
      ensures limit == old(limit) && batchSize == old(batchSize) && at == taken == 0 && !dontAdvance && current.None?
      ensures ok ==> startedIterating && !dead && connection != null && num == |received| && buffered == received
      ensures ok ==> Got(net, [], Request(0, 0, NextRequestLimit(limit, batchSize, 0)))
      ensures ok ==> (cursorId == 0 <==> exhausted) && (num == 0 ==> exhausted)
      ensures ok ==> Moved()
      ensures ok == (target != null && encodable && net(Request(0, 0, NextRequestLimit(limit, batchSize, 0))).Arrived?)
      ensures !ok ==> Valid() && !startedIterating
    {
      hide EndsKilled, Owns, Lawful, Owner, Registry, NextRequestLimit;
      assert Honest(Request(0, 0, NextRequestLimit(limit, batchSize, 0)),
                    net(Request(0, 0, NextRequestLimit(limit, batchSize, 0))));
      ok := RunQuery(net, target, encodable, cursors, conns);
      if ok {
        startedIterating := true;
      }
    }

    /** hasNext before anything has been read: the position is already at the first document. */
    method BeginAhead(net: Request -> Reply, target: MongoConnection?, encodable: bool, ghost cursors: set<MongoCursor>,
                      ghost conns: set<MongoConnection>)
      returns (ok: bool)
      requires AllValid(cursors, conns) && this in cursors && HonestServer(net)
      requires target != null ==> target in conns && target.alive
      modifies this, conns, cursors`dead, cursors`cursorId, cursors`connection, cursors`history
      ensures AllValid(cursors, conns) && OthersKept(cursors, this)
      ensures limit == old(limit) && batchSize == old(batchSize)
      ensures ok ==> startedIterating && !dead && at == taken == 0 && dontAdvance && !Cut()
      ensures ok ==> Got(net, [], Request(0, 0, NextRequestLimit(limit, batchSize, 0)))
      ensures !ok ==> !startedIterating
      ensures current.None?
      ensures ok ==> connection != null
      ensures ok == (target != null && encodable && net(Request(0, 0, NextRequestLimit(limit, batchSize, 0))).Arrived?)
    {
      hide EndsKilled, Owns, Lawful, Owner, Registry, NextRequestLimit, HonestServer;
      ok := Begin(net, target, encodable, cursors, conns);
      if ok {
        dontAdvance := true;
      }
    }

    /** MongoCursor::hasNext; None when an exception was thrown. */
    method HasNext(net: Request -> Reply, target: MongoConnection?, encodable: bool, ghost cursors: set<MongoCursor>,
                   ghost conns: set<MongoConnection>)
      returns (more: Option<bool>)
      requires AllValid(cursors, conns) && this in cursors && HonestServer(net)
      requires target != null && !startedIterating ==> target in conns && target.alive
      modifies this, conns, cursors`dead, cursors`cursorId, cursors`connection, cursors`history
      ensures AllValid(cursors, conns) && OthersKept(cursors, this)
      ensures limit == old(limit) && batchSize == old(batchSize)
      ensures more.Some? ==> startedIterating && !dead && (old(startedIterating) && failed ==> old(failed))
      ensures more.Some? && !old(startedIterating) ==>
                at == taken == 0 && dontAdvance && Got(net, [], Request(0, 0, NextRequestLimit(limit, batchSize, 0)))
      ensures old(startedIterating) ==> taken == old(taken) && at == old(at) && dontAdvance == old(dontAdvance)
      ensures old(startedIterating) ==>
                (received == old(received) && exhausted == old(exhausted)) ||
                (old(cursorId != 0 && !dontAdvance && at >= num - 1 && (limit <= 0 || at < limit - 1))
                 && Got(net, old(received), old(Request(cursorId, num, NextRequestLimit(limit, batchSize, at)))))
      ensures more == Some(true) ==> taken < |received| && BelowLimit()
      ensures more == Some(true) && Cut() ==> old(startedIterating && Cut())
      // it throws only for these reasons
      ensures more.None? && !old(startedIterating) ==>
                target == null || !encodable || !net(Request(0, 0, NextRequestLimit(limit, batchSize, 0))).Arrived?
      ensures more.None? && old(startedIterating) ==>
                old(connection) == null || (old(current).Some? && IsError(old(current).value)) ||
                Refused(net(old(Request(cursorId, num, NextRequestLimit(limit, batchSize, at)))))
      ensures more.Some? ==> current == if old(startedIterating) then old(current) else None
      ensures more == Some(false) ==>
                cursorId == 0 &&
                (StopsAtLimit() || (taken == |received| && (exhausted || old(startedIterating && Cut()))))
    {
      hide EndsKilled, Positioned, LimitReached, Owns, Lawful, Owner, Registry, NextRequestLimit, HonestServer;
      if !startedIterating {
        var ok := BeginAhead(net, target, encodable, cursors, conns);
        if !ok {
          return None;
        }
      }
      more := MoreToCome(net, cursors, conns);
    }

    /** The state between moving the position and decoding the document there. */
    ghost predicate Moved()
      reads this
    {
      && Owns() && !dead && connection != null && startedIterating && !dontAdvance && current.None?
      && num == |received| && taken <= num && 0 <= at && buffered == received[taken..] && (exhausted ==> cursorId == 0)
      && (if at <= num then taken == at else taken == num && cursorId == 0)
      && (num == 0 ==> exhausted) && (Cut() ==> LimitReached() && EndsKilled())
    }

    /** advance at the end of what was received while the server has more. */
    method Refill(net: Request -> Reply, ghost cursors: set<MongoCursor>, ghost conns: set<MongoConnection>)
      returns (ready: bool)
      requires World(cursors, conns) && this in cursors && HonestServer(net) && Moved() && at == num && cursorId != 0
      modifies conns, cursors`dead, cursors`cursorId, cursors`connection, cursors`history
      modifies this`start, this`failed, this`num, this`buffered, this`received, this`exhausted
      ensures World(cursors, conns) && OthersKept(cursors, this)
      ensures (received == old(received) && exhausted == old(exhausted)) ||
              (old(limit == 0 || at < limit)
               && Got(net, old(received), old(Request(cursorId, num, NextRequestLimit(limit, batchSize, at)))))
      ensures ready ==> Moved() && (at < num || cursorId == 0)
      ensures !ready ==> Valid() && (dead || failed == old(failed))
      ensures !ready && !dead ==>
                && cursorId == 0 && taken == |received| && received == old(received) && exhausted == old(exhausted)
                && limit != 0 && at >= limit && at == num
      ensures ready ==> !Cut() && !dead
      ensures (!ready && dead) || (ready && failed) ==>
                Refused(net(old(Request(cursorId, num, NextRequestLimit(limit, batchSize, at)))))
      ensures ready || dead ==> old(received) <= received
    {
      hide Lawful, Owner, Registry, NextRequestLimit;
      if limit != 0 && at >= limit {
        Kill();
        return false;
      }
      assert Honest(Request(cursorId, num, NextRequestLimit(limit, batchSize, at)),
                    net(Request(cursorId, num, NextRequestLimit(limit, batchSize, at))));
      ready := GetMore(net, cursors, conns);
    }

    /** The document at the new position is decoded and looked at. */
    method Deliver(ghost cursors: set<MongoCursor>, ghost conns: set<MongoConnection>) returns (thrown: bool)
      requires World(cursors, conns) && this in cursors && Moved() && (at < num || cursorId == 0)
      modifies conns, cursors`dead, cursors`cursorId, cursors`connection, cursors`history
      modifies this`buffered, this`current, this`taken
      ensures World(cursors, conns) && OthersKept(cursors, this) && Valid()
      ensures !thrown ==> !dead && !failed
      ensures !thrown && current.Some? ==>
                old(taken) < |received| && taken == old(taken) + 1 && current.value == received[old(taken)]
      ensures !thrown && current.Some? ==> taken == at + 1
      ensures thrown ==> failed || (old(taken) < |received| && taken == old(taken) + 1 && IsError(received[old(taken)]))
      ensures !thrown && current.None? ==> cursorId == 0 && taken == old(taken) == |received|
      ensures !thrown ==> cursorId == old(cursorId) && (current.Some? ==> !IsError(current.value))
      ensures old(taken < |received| && !failed && !IsError(received[taken])) ==> !thrown && current.Some?
    {
      hide Lawful, Owner, Registry, NextRequestLimit, IsError, NotMaster;
      var retrieved := LoadCurrent();
      thrown := HandleError(cursors, conns);
    }

    /** One position further, unless hasNext has run the query. */
    method Move()
      requires Valid() && startedIterating && !dead
      modifies this`current, this`dontAdvance, this`at
      ensures Moved() && !dontAdvance && !dead && (at <= num || cursorId == 0)
      ensures at == if old(dontAdvance) then 0 else old(at) + 1
      ensures current.None? && (old(taken < |received| || (dontAdvance && cursorId != 0)) ==> at < num)
    {
      hide Lawful, Owner;
      current := None;
      if dontAdvance {
        dontAdvance := false;
      } else {
        at := at + 1;
      }
    }

    /** The first part of advance: the position moves, and the next batch is fetched when there is nothing left. */
    method StepForward(net: Request -> Reply, ghost cursors: set<MongoCursor>, ghost conns: set<MongoConnection>)
      returns (ready: bool)
      requires AllValid(cursors, conns) && this in cursors && HonestServer(net) && startedIterating && !dead
      modifies conns, cursors`dead, cursors`cursorId, cursors`connection, cursors`history
      modifies this`start, this`failed, this`num, this`buffered, this`received, this`exhausted, this`current, this`at,
               this`dontAdvance
      ensures World(cursors, conns) && OthersKept(cursors, this) && !dontAdvance && current.None?
      ensures (received == old(received) && exhausted == old(exhausted)) ||
                (old(cursorId != 0 && at + 1 == num && (limit == 0 || at + 1 < limit))
                 && Got(net, old(received), old(Request(cursorId, num, NextRequestLimit(limit, batchSize, at + 1)))))
      ensures old(received) <= received
      ensures ready ==> Moved() && !dead && (at < num || cursorId == 0) && (Cut() ==> old(Cut()))
      ensures ready && failed ==>
                old(failed) || Refused(net(old(Request(cursorId, num, NextRequestLimit(limit, batchSize, at + 1)))))
      ensures !ready ==> Valid() && (dead || failed == old(failed))
      ensures !ready && dead ==> Refused(net(old(Request(cursorId, num, NextRequestLimit(limit, batchSize, at + 1)))))
      ensures !ready && !dead ==>
                && cursorId == 0 && taken == |received| && received == old(received) && exhausted == old(exhausted)
                && limit != 0 && at >= limit && at == num
      ensures old(taken < |received|) ==>
                ready && received == old(received) && exhausted == old(exhausted) && failed == old(failed)
    {
      hide EndsKilled, Owns, Lawful, Owner, Registry, NextRequestLimit, IsError, HonestServer, Moved, Positioned;
      Move();
      ready := true;
      if at == num && cursorId != 0 {
        if dead {
          return false;
        }
        ready := Refill(net, cursors, conns);
      }
    }

    /** php_mongocursor_advance; whether an exception was thrown. */
    method Advance(net: Request -> Reply, ghost cursors: set<MongoCursor>, ghost conns: set<MongoConnection>)
      returns (thrown: bool)
      requires AllValid(cursors, conns) && this in cursors && HonestServer(net) && startedIterating && !dead
      modifies conns, cursors`dead, cursors`cursorId, cursors`connection, cursors`history
      modifies this`start, this`failed, this`num, this`buffered, this`received, this`exhausted, this`current, this`at,
               this`dontAdvance, this`taken
      ensures AllValid(cursors, conns) && OthersKept(cursors, this)
      ensures (received == old(received) && exhausted == old(exhausted)) ||
                (old(cursorId != 0 && at + 1 == num && (limit == 0 || at + 1 < limit))
                 && Got(net, old(received), old(Request(cursorId, num, NextRequestLimit(limit, batchSize, at + 1)))))
      ensures old(received) <= received && (!thrown ==> !dead && !dontAdvance && (failed ==> old(failed)))
      ensures !thrown && current.Some? ==>
                taken == old(taken) + 1 <= |received| && current.value == received[old(taken)]
      ensures !thrown && current.Some? ==> taken == at + 1 && !failed && !IsError(current.value)
      ensures thrown ==>
                old(failed) || (old(taken) < |received| && IsError(received[old(taken)])) ||
                Refused(net(old(Request(cursorId, num, NextRequestLimit(limit, batchSize, at + 1)))))
      ensures !thrown && current.None? ==> cursorId == 0 && taken == old(taken) == |received|
      ensures !thrown && Cut() && !old(Cut()) ==> current.None? && limit != 0 && at >= limit && at == num
      ensures old(taken < |received| && !failed && !IsError(received[taken])) ==>
                !thrown && current.Some? && received == old(received) && exhausted == old(exhausted)
    {
      hide EndsKilled, Owns, Lawful, Owner, Registry, NextRequestLimit, IsError, HonestServer, Moved, Positioned;
      var ready := StepForward(net, cursors, conns);
      if !ready {
        return dead;
      }
      thrown := Deliver(cursors, conns);
    }

    /** The first call of next: the query, and its first document as it is. */
    method BeginAtFirst(net: Request -> Reply, target: MongoConnection?, encodable: bool,
                        ghost cursors: set<MongoCursor>, ghost conns: set<MongoConnection>)
      returns (ok: bool)
      requires AllValid(cursors, conns) && this in cursors && HonestServer(net)
      requires target != null ==> target in conns && target.alive
      modifies this, conns, cursors`dead, cursors`cursorId, cursors`connection, cursors`history
      ensures AllValid(cursors, conns) && OthersKept(cursors, this)
      ensures limit == old(limit) && batchSize == old(batchSize)
      ensures ok == (target != null && encodable && net(Request(0, 0, NextRequestLimit(limit, batchSize, 0))).Arrived?)
      ensures ok ==> startedIterating && !dead && !dontAdvance && at == 0 && !Cut()
      ensures ok ==> Got(net, [], Request(0, 0, NextRequestLimit(limit, batchSize, 0)))
      ensures ok ==> if received == [] then current.None? && taken == 0 && cursorId == 0
                     else current == Some(received[0]) && taken == 1
    {
      hide EndsKilled, Owns, Lawful, Owner, Registry, NextRequestLimit, HonestServer, IsError;
      ok := Begin(net, target, encodable, cursors, conns);
      if ok {
        var loaded := LoadCurrent();
      }
    }

    /** php_mongocursor_next */
    method Next(net: Request -> Reply, target: MongoConnection?, encodable: bool, ghost cursors: set<MongoCursor>,
                ghost conns: set<MongoConnection>)
      returns (step: Step)
      requires AllValid(cursors, conns) && this in cursors && HonestServer(net)
      requires target != null && !startedIterating ==> target in conns && target.alive
      modifies this, conns, cursors`dead, cursors`cursorId, cursors`connection, cursors`history
      ensures AllValid(cursors, conns) && OthersKept(cursors, this)
      ensures limit == old(limit) && batchSize == old(batchSize)
      ensures !step.Threw? ==>
                startedIterating && !dead && !dontAdvance && (old(startedIterating) && failed ==> old(failed))
      ensures !step.Threw? && !old(startedIterating) ==>
                Got(net, [], Request(0, 0, NextRequestLimit(limit, batchSize, 0)))
      ensures old(startedIterating) ==>
                (received == old(received) && exhausted == old(exhausted)) ||
                (old(cursorId != 0 && at + 1 == num && (limit == 0 || at + 1 < limit))
                 && Got(net, old(received), old(Request(cursorId, num, NextRequestLimit(limit, batchSize, at + 1)))))
      // the first document is handed out as it is, be it an error report: only later ones go through HandleError
      ensures !old(startedIterating || dead) && target != null && encodable ==>
                (step.Threw? <==> !net(Request(0, 0, NextRequestLimit(limit, batchSize, 0))).Arrived?)
      ensures step.Threw? && old(startedIterating && !dead) ==>
                old(failed) || (old(taken) < |received| && IsError(received[old(taken)])) ||
                Refused(net(old(Request(cursorId, num, NextRequestLimit(limit, batchSize, at + 1)))))
      ensures step.Returned? ==> current == Some(step.doc)
      ensures step.Returned? && old(startedIterating) ==> !failed && !IsError(step.doc)
      ensures step.Returned? ==>
                && taken == (if old(startedIterating) then old(taken) + 1 else 1) <= |received|
                && step.doc == received[taken - 1] && taken == at + 1
      ensures step.Finished? ==>
                && cursorId == 0
                && taken == (if old(startedIterating) then old(taken) else 0) == |received|
      ensures !step.Threw? && Cut() ==>
                old(startedIterating && Cut()) || (step.Finished? && limit != 0 && at >= limit && at == num)
      ensures old(startedIterating && !dead && taken < |received| && !failed && !IsError(received[taken])) ==>
                step == Returned(old(received[taken])) && received == old(received) && exhausted == old(exhausted)
    {
      hide EndsKilled, Positioned, LimitReached, Owns, Lawful, Owner, Registry, NextRequestLimit, HonestServer, IsError;
      if dead {
        return Threw;
      }
      if !startedIterating {
        var ok := BeginAtFirst(net, target, encodable, cursors, conns);
        if !ok {
          return Threw;
        }
      } else {
        var thrown := Advance(net, cursors, conns);
        if thrown {
          return Threw;
        }
      }
      return if current.None? then Finished else Returned(current.value);
    }

    /** MongoCursor::rewind */
    method Rewind(net: Request -> Reply, target: MongoConnection?, encodable: bool, ghost cursors: set<MongoCursor>,
                  ghost conns: set<MongoConnection>)
      returns (thrown: bool)
      requires AllValid(cursors, conns) && this in cursors && HonestServer(net)
      requires target != null ==> target in conns && target.alive
      modifies this, conns, cursors`dead, cursors`cursorId, cursors`connection, cursors`history
      ensures AllValid(cursors, conns) && OthersKept(cursors, this)
      ensures !thrown ==>
                && startedIterating && !dead && at == 0
                && Got(net, [], Request(0, 0, NextRequestLimit(limit, batchSize, 0)))
                && current == if received == [] then None else Some(received[0])
      ensures !thrown ==> !failed && (received != [] ==> !IsError(received[0]))
      ensures thrown ==>
                target == null || !encodable || !net(Request(0, 0, NextRequestLimit(limit, batchSize, 0))).Arrived? ||
                failed || (received != [] && IsError(received[0]))
    {
      hide EndsKilled, Owns, Lawful, Owner, Registry, NextRequestLimit, HonestServer, IsError, Moved, Valid,
           LimitReached;
      var ok := Begin(net, target, encodable, cursors, conns);
      if !ok {
        return true;
      }
      thrown := Deliver(cursors, conns);
    }

    /** php_mongo_cursor_free: nothing is left open on the server, and no connection knows the cursor any more. */
    method Free(ghost cursors: set<MongoCursor>, ghost conns: set<MongoConnection>)
      requires AllValid(cursors, conns) && this in cursors
      modifies this`cursorId, this`history, conns`cleanup
      ensures AllValid(cursors - {this}, conns)
      ensures Lawful(history) && Owner(history).None?
      ensures history == old(history +
                             (if Holding().None? then [] else [Killed(Holding().value.id, Holding().value.con)]))
      ensures forall k :: k in conns ==> this !in k.cleanup
    {
      hide Lawful, Owner;
      if connection != null {
        Kill();
      }
      Leave(cursors, conns);
    }

    /** A request was answered with the documents that are now last. */
    ghost predicate Got(net: Request -> Reply, before: seq<Hash>, r: Request)
      reads this`received, this`exhausted, this`failed, this`dead
    {
      var reply := net(r);
      reply.Arrived? && received == before + reply.docs && exhausted == (reply.id == 0) &&
          (!dead ==> failed == reply.failed)
    }
  }

  // --- who is registered where ---

  /** Each cursor with a connection is on that connection's list exactly once, and on no other list. */
  ghost predicate Registry(cursors: set<MongoCursor>, conns: set<MongoConnection>)
    reads cursors`connection, conns
  {
    && (forall k :: k in conns ==> NoDuplicates(k.cleanup) && (!k.alive ==> k.cleanup == []))
    && (forall k, c :: k in conns && c in k.cleanup ==> c in cursors && c.connection == k)
    && (forall c :: c in cursors && c.connection != null ==>
          c.connection in conns && c.connection.alive && c in c.connection.cleanup)
  }

  ghost predicate World(cursors: set<MongoCursor>, conns: set<MongoConnection>)
    reads cursors, conns
  {
    Registry(cursors, conns) && forall c :: c in cursors ==> c.Owns()
  }

  /** Other cursors only notice that their connection is gone; no event is forgotten. */
  twostate predicate OthersKept(cursors: set<MongoCursor>, me: MongoCursor)
    reads cursors
  {
    && (forall c :: c in cursors && c != me ==>
          (c.dead == old(c.dead) && c.cursorId == old(c.cursorId) && c.connection == old(c.connection)
           && c.history == old(c.history))
          || (c.dead && c.connection == null && c.cursorId == 0))
    && (forall c :: c in cursors && c != me && old(c.Valid()) ==> c.Valid())
    && (forall c :: c in cursors ==> old(c.history) <= c.history)
  }

  /**
   * What a reply header with newId means to a client that has oldId open.  An id of another cursor comes with a reply
   * to another request, after which the connection goes and all ids with it.
   */
  ghost function Turn(oldId: int, newId: int, con: MongoConnection): seq<Event<MongoConnection>> {
    if oldId == newId then []
    else if oldId == 0 then [Opened(newId, con)]
    else if newId == 0 then [Exhausted(oldId)]
    else [Lost(oldId), Opened(newId, con)]
  }

  lemma OwnerAfterTurn(h: seq<Event<MongoConnection>>, oldId: int, newId: int, con: MongoConnection)
    requires Lawful(h) && Owner(h) == (if oldId == 0 then None else Some(Opening(oldId, con)))
    ensures Lawful(h + Turn(oldId, newId, con))
    ensures Owner(h + Turn(oldId, newId, con)) == if newId == 0 then None else Some(Opening(newId, con))
  {
    var more := Turn(oldId, newId, con);
    if more == [] {
      assert h + more == h;
    } else if |more| == 1 {
      assert (h + more)[..|h|] == h;
    } else {
      var lost := h + [more[0]];
      assert lost[..|h|] == h;
      assert h + more == lost + [more[1]] && (lost + [more[1]])[..|lost|] == lost;
    }
  }

  ghost predicate AllValid(cursors: set<MongoCursor>, conns: set<MongoConnection>)
    reads cursors, conns
  {
    Registry(cursors, conns) && forall c :: c in cursors ==> c.Valid()
  }

  /** The loop over the list: every cursor on it is told. */
  method NotifyAll(list: seq<MongoCursor>, ghost cursors: set<MongoCursor>)
    requires NoDuplicates(list) && forall c :: c in cursors || c in list ==> c.Owns()
    modifies list`dead, list`cursorId, list`connection, list`history
    ensures forall c :: c in cursors || c in list ==> c.Owns()
    ensures forall c :: c in list ==> c.dead && c.connection == null && c.cursorId == 0
    ensures forall c :: c in cursors ==> old(c.history) <= c.history
  {
    hide MongoCursor.Owns;
    var i := 0;
    while i < |list|
      invariant i <= |list|
      invariant forall k :: 0 <= k < i ==> list[k].dead && list[k].connection == null && list[k].cursorId == 0
      invariant forall c :: c in cursors || c in list ==> c.Owns()
      invariant forall c :: c in cursors ==> old(c.history) <= c.history
    {
      list[i].MarkDead();
      i := i + 1;
    }
  }

  /** mongo_connection_destroy */
  method Destroy(con: MongoConnection, ghost cursors: set<MongoCursor>, ghost conns: set<MongoConnection>)
    requires World(cursors, conns) && con in conns
    modifies con, con.cleanup`dead, con.cleanup`cursorId, con.cleanup`connection, con.cleanup`history
    ensures World(cursors, conns) && !con.alive
    ensures forall c :: c in cursors && old(c.connection) == con ==> c.dead && c.connection == null && c.cursorId == 0
    ensures forall c :: c in cursors && old(c.connection) != con ==>
              && c.dead == old(c.dead) && c.cursorId == old(c.cursorId) && c.connection == old(c.connection)
              && c.history == old(c.history)
    ensures forall c :: c in cursors ==> old(c.history) <= c.history
    ensures old(AllValid(cursors, conns)) ==> AllValid(cursors, conns)
  {
    hide MongoCursor.Owns;
    ghost var list := con.cleanup;
    NotifyAll(con.cleanup, cursors);
    assert forall c :: c in cursors && c !in list ==> c.connection == old(c.connection) && c.connection != con;
    con.alive := false;
    con.cleanup := [];
    assert forall c :: c in cursors ==> c.Owns();
    forall k, c | k in conns && c in k.cleanup
      ensures c in cursors && c.connection == k
    {
      assert c in old(k.cleanup);
    }
    assert Registry(cursors, conns);
  }
}
