/** mcon/manager.c: the lists of open connections and of hosts that could not be reached. */
module ConnectionManagers {
  import opened Bytes
  import opened LinkedLists

  /** What a mongo_con_manager_item holds beside its link. */
  datatype Item<T> = Item(hash: bytes, data: T)

  function HasHash<T>(hash: bytes): Item<T> -> bool {
    (it: Item<T>) => it.hash == hash
  }

  predicate Holds<T>(items: seq<Item<T>>, hash: bytes) {
    AnyMatch(items, HasHash<T>(hash))
  }

  /** The list without its first item of that hash. */
  function Without<T>(items: seq<Item<T>>, hash: bytes): seq<Item<T>> {
    Dropped(items, HasHash<T>(hash))
  }

  predicate UniqueHashes<T>(items: seq<Item<T>>) {
    forall i, j :: 0 <= i < j < |items| ==> items[i].hash != items[j].hash
  }

  /** Deregistering takes out the item of that hash and no other, and leaves the hashes unique. */
  lemma WithoutFromUnique<T>(items: seq<Item<T>>, hash: bytes)
    requires UniqueHashes(items)
    ensures UniqueHashes(Without(items, hash)) && !Holds(Without(items, hash), hash)
    ensures forall x :: x in Without(items, hash) <==> x in items && x.hash != hash
  {
    var matches := HasHash<T>(hash);
    DroppedFromUnique(items, matches);
    DroppedKeepsPairs(items, matches, (x: Item<T>, y: Item<T>) => x.hash != y.hash);
  }

  lemma WithoutIsPart<T>(items: seq<Item<T>>, hash: bytes, x: Item<T>)
    requires UniqueHashes(items) && x in Without(items, hash)
    ensures x in items && x.hash != hash
  {
    hide Without;
    WithoutFromUnique(items, hash);
  }

  lemma HoldsMember<T>(items: seq<Item<T>>, hash: bytes)
    ensures Holds(items, hash) <==> exists x :: x in items && x.hash == hash
  {
    if x :| x in items && x.hash == hash {
      var i :| 0 <= i < |items| && items[i] == x;
      assert HasHash<T>(hash)(items[i]);
    }
  }

  class Connection {
    const hash: bytes
    var lastPing: int
    var alive: bool

    constructor (hash: bytes)
      ensures this.hash == hash && alive && lastPing == 0
    {
      this.hash, lastPing, alive := hash, 0, true;
    }
  }

  /** A connection attempt: when it began, and if it failed, when. */
  datatype Attempt = Attempt(hash: bytes, began: int, failed: Option<int>)

  /** What happens on the network if it is asked in this call. */
  datatype Luck = Luck(pingWorks: bool, connects: bool, handshakes: bool)

  /** A blacklist entry stands for a failed attempt and says when it failed. */
  ghost predicate Recorded(x: Item<int>, attempts: seq<Attempt>) {
    exists k :: 0 <= k < |attempts| && attempts[k].hash == x.hash && attempts[k].failed == Some(x.data)
  }

  /** An attempt to reach the host has failed and the interval has not passed since. */
  ghost predicate FailedLately(attempts: seq<Attempt>, interval: int, hash: bytes, now: int) {
    exists k :: 0 <= k < |attempts| && attempts[k].hash == hash && attempts[k].failed.Some? &&
      attempts[k].failed.value + interval > now
  }

  lemma StillRecorded(x: Item<int>, attempts: seq<Attempt>, a: Attempt)
    requires Recorded(x, attempts)
    ensures Recorded(x, attempts + [a])
  {
    var k :| 0 <= k < |attempts| && attempts[k].hash == x.hash && attempts[k].failed == Some(x.data);
    assert (attempts + [a])[k] == attempts[k];
  }

  class ConnectionManager {
    const pingInterval: int
    const connectionList: LinkedList<Item<Connection>>
    /** when each unreachable host was last tried */
    const blackList: LinkedList<Item<int>>
    /** what the lists hold */
    ghost var connections: seq<Item<Connection>>
    ghost var blacklist: seq<Item<int>>
    ghost var attempts: seq<Attempt>
    ghost var clock: int

    constructor (pingInterval: int)
      requires pingInterval >= 0
      ensures Valid() && connections == [] && blacklist == [] && attempts == [] && this.pingInterval == pingInterval
      ensures fresh(connectionList) && fresh(blackList)
    {
      this.pingInterval := pingInterval;
      connectionList := new LinkedList();
      blackList := new LinkedList();
      connections, blacklist, attempts, clock := [], [], [], 0;
    }

    ghost predicate Valid()
      reads this, connectionList, connectionList.entries, blackList, blackList.entries
      reads set i | 0 <= i < |connections| :: connections[i].data
    {
      && Linked()
      && pingInterval >= 0
      && UniqueHashes(connections) && UniqueHashes(blacklist)
      && (forall x :: x in connections ==> x.data.hash == x.hash && x.data.alive && !Holds(blacklist, x.hash))
      && (forall i :: 0 <= i < |attempts| ==> Remembered(attempts[i]))
      && (forall x :: x in blacklist ==> Recorded(x, attempts))
      && Patient(attempts, pingInterval)
    }

    ghost predicate Linked()
      reads this, connectionList, connectionList.entries, blackList, blackList.entries
    {
      && connectionList.Valid() && blackList.Valid() && connectionList as object != blackList
      && (set e | e in connectionList.entries :: e as object) !! (set e | e in blackList.entries :: e as object)
      && connections == connectionList.Contents() && blacklist == blackList.Contents()
    }

    /** A failure is on the blacklist until its interval has passed. */
    ghost predicate Remembered(a: Attempt)
      reads this
    {
      a.failed.Some? ==>
        a.failed.value + pingInterval <= clock ||
        exists x :: x in blacklist && x.hash == a.hash && x.data >= a.failed.value
    }

    /** The host is on the blacklist exactly as long as its last failures are not older than the interval. */
    lemma BlockedExactly(hash: bytes, now: int)
      requires Valid() && clock <= now
      ensures Blocked(hash, now) <==> FailedLately(attempts, pingInterval, hash, now)
    {
      hide Holds, UniqueHashes, LinkedList.Valid, Patient;
      if Blocked(hash, now) {
        var x :| x in blacklist && x.hash == hash && x.data + pingInterval > now;
        assert Recorded(x, attempts);
      }
      if FailedLately(attempts, pingInterval, hash, now) {
        var k :| 0 <= k < |attempts| && attempts[k].hash == hash && attempts[k].failed.Some? &&
                 attempts[k].failed.value + pingInterval > now;
        assert Remembered(attempts[k]);
      }
    }

    /** Whether the host is on the blacklist and its interval has not passed. */
    ghost predicate Blocked(hash: bytes, now: int)
      reads this`blacklist
    {
      exists x :: x in blacklist && x.hash == hash && x.data + pingInterval > now
    }

    /** mongo_connection_ping, with mongo_connection_ping_check */
    method Ping(con: Connection, now: int, later: int, works: bool) returns (ok: bool)
      modifies con`lastPing
      ensures ok == (old(con.lastPing) + pingInterval > now || works)
      ensures con.lastPing == if old(con.lastPing) + pingInterval <= now && works then later else old(con.lastPing)
    {
      if con.lastPing + pingInterval > now {
        return true;
      }
      if works {
        con.lastPing := later;
      }
      return works;
    }

    /** mongo_manager_blacklist_deregister, for an entry whose interval has passed */
    method Lift(hash: bytes, ghost lastPing: int)
      requires Valid() && Item(hash, lastPing) in blacklist && lastPing + pingInterval <= clock
      modifies this`blacklist, blackList, blackList.entries
      ensures Valid() && blacklist == Without(old(blacklist), hash) && !Holds(blacklist, hash)
      ensures forall i :: 0 <= i < |blackList.entries| ==> blackList.entries[i] in old(blackList.entries)
    {
      hide AnyMatch, Dropped, UniqueHashes, LinkedList.Valid, Patient, Holds;
      ghost var was := blacklist;
      WithoutFromUnique(was, hash);
      var removed := blackList.RemoveFirst(HasHash(hash));
      blacklist := Without(was, hash);
      forall x | x in connections
        ensures !Holds(blacklist, x.hash)
      {
        HoldsLess(was, hash, x.hash);
      }
      forall k | 0 <= k < |attempts|
        ensures Remembered(attempts[k])
      {
        if attempts[k].failed.Some? {
          ExpiredIsOver(was, Item(hash, lastPing), attempts[k], pingInterval, clock);
        }
      }
    }

    /** The blacklist part of mongo_get_connection_single: an entry that is old enough is lifted. */
    method LiftExpired(hash: bytes, now: int) returns (blocked: bool)
      requires Valid() && clock <= now
      modifies this`blacklist, this`clock, blackList, blackList.entries
      ensures Valid() && clock == now
      ensures blocked == old(Blocked(hash, now))
      ensures blacklist == if blocked then old(blacklist) else Without(old(blacklist), hash)
      ensures !blocked ==> !Holds(blacklist, hash)
      ensures forall i :: 0 <= i < |blackList.entries| ==> blackList.entries[i] in old(blackList.entries)
    {
      hide AnyMatch, Dropped, UniqueHashes, LinkedList.Valid, Patient;
      clock := now;
      var lastPing := blackList.Find(HasHash(hash));
      HoldsMember(blacklist, hash);
      if lastPing.Some? {
        OnlyOne(blacklist, lastPing.value);
        if lastPing.value.data + pingInterval > now {
          return true;
        }
        Lift(hash, lastPing.value.data);
      } else {
        DroppedAbsent(blacklist, HasHash(hash));
      }
      return false;
    }

    /** mongo_manager_connection_deregister: the destructor is given the very connection whose item goes. */
    method DropConnection(con: Connection)
      requires Valid() && Item(con.hash, con) in connections
      modifies this`connections, con`alive, connectionList, connectionList.entries
      ensures Valid() && !con.alive && connections == Without(old(connections), con.hash)
    {
      hide AnyMatch, Dropped, UniqueHashes, LinkedList.Valid;
      ghost var was := connections;
      WithoutFromUnique(was, con.hash);
      OthersStay(was, con);
      var removed := connectionList.RemoveFirst(HasHash(con.hash));
      connections := Without(was, con.hash);
      con.alive := false;
    }

    static lemma OthersStay(was: seq<Item<Connection>>, con: Connection)
      requires UniqueHashes(was) && forall x :: x in was ==> x.data.hash == x.hash
      ensures forall x :: x in Without(was, con.hash) ==> x in was && x.data != con
    {
      hide Without;
      WithoutFromUnique(was, con.hash);
      forall x | x in Without(was, con.hash)
        ensures x in was && x.data != con
      {
        WithoutIsPart(was, con.hash, x);
      }
    }

    /** A known connection is pinged when its interval has passed, and dropped when that fails. */
    method UseExisting(con: Connection, now: int, later: int, luck: Luck) returns (ok: bool)
      requires Valid() && Item(con.hash, con) in connections && clock == now <= later
      modifies this`connections, this`clock, con, connectionList, connectionList.entries
      ensures Valid() && clock == later
      ensures ok == (old(con.lastPing) + pingInterval > now || luck.pingWorks)
      ensures con.alive == ok
      ensures con.lastPing == if old(con.lastPing) + pingInterval <= now && ok then later else old(con.lastPing)
      ensures connections == if ok then old(connections) else Without(old(connections), con.hash)
    {
      hide Holds, Without, UniqueHashes, LinkedList.Valid;
      clock := later;
      ok := Ping(con, now, later, luck.pingWorks);
      if !ok {
        DropConnection(con);
      }
    }

    /** A failed attempt: mongo_manager_blacklist_register. */
    method Blacklist(hash: bytes, later: int)
      requires Linked() && UniqueHashes(blacklist) && !Holds(blacklist, hash)
      modifies this`blacklist, blackList, blackList.entries
      ensures Linked() && UniqueHashes(blacklist) && blacklist == old(blacklist) + [Item(hash, later)]
      ensures forall h :: Holds(blacklist, h) <==> old(Holds(blacklist, h)) || h == hash
      ensures forall x :: x in old(blacklist) || x == Item(hash, later) ==> x in blacklist
    {
      hide Holds, UniqueHashes, LinkedList.Valid;
      OneMore(blacklist, Item(hash, later));
      blackList.Append(Item(hash, later));
      blacklist := blacklist + [Item(hash, later)];
    }

    /** mongo_manager_connection_register */
    method Register(c: Connection)
      requires Valid() && !Holds(connections, c.hash) && !Holds(blacklist, c.hash) && c.alive
      modifies this`connections, connectionList, connectionList.entries
      ensures Valid() && connections == old(connections) + [Item(c.hash, c)]
    {
      hide Holds, UniqueHashes, LinkedList.Valid;
      OneMore(connections, Item(c.hash, c));
      connectionList.Append(Item(c.hash, c));
      connections := connections + [Item(c.hash, c)];
    }

    /** The attempt is noted; a host that could not be reached is blacklisted. */
    method Attempted(hash: bytes, now: int, later: int, connects: bool)
      requires Valid() && !Holds(connections, hash) && !Holds(blacklist, hash) && clock == now <= later
      modifies this`attempts, this`clock, this`blacklist, blackList, blackList.entries
      ensures Valid() && clock == later
      ensures blacklist == old(blacklist) + (if connects then [] else [Item(hash, later)])
      ensures attempts == old(attempts) + [Attempt(hash, now, if connects then None else Some(later))]
    {
      hide Holds, UniqueHashes, LinkedList.Valid;
      HoldsMember(connections, hash);
      WaitedLongEnough(hash, now);
      ghost var a := Attempt(hash, now, if connects then None else Some(later));
      forall x | x in blacklist
        ensures Recorded(x, attempts + [a])
      {
        StillRecorded(x, attempts, a);
      }
      attempts := attempts + [a];
      clock := later;
      if !connects {
        assert attempts[|attempts| - 1] == a && Recorded(Item(hash, later), attempts);
        Blacklist(hash, later);
      }
    }

    lemma WaitedLongEnough(hash: bytes, now: int)
      requires Valid() && !Holds(blacklist, hash) && clock == now
      ensures forall k :: 0 <= k < |attempts| && attempts[k].hash == hash && attempts[k].failed.Some? ==>
                now >= attempts[k].failed.value + pingInterval
    {
      hide Holds, UniqueHashes, LinkedList.Valid;
      HoldsMember(blacklist, hash);
      forall k | 0 <= k < |attempts| && attempts[k].hash == hash && attempts[k].failed.Some?
        ensures now >= attempts[k].failed.value + pingInterval
      {
        assert Remembered(attempts[k]);
      }
    }

    /** A connection attempt to a host that has neither a connection nor a blacklist entry. */
    method TryNew(hash: bytes, now: int, later: int, luck: Luck) returns (con: Option<Connection>)
      requires Valid() && !Holds(connections, hash) && !Holds(blacklist, hash) && clock == now <= later
      modifies this, connectionList, connectionList.entries, blackList, blackList.entries
      ensures Valid() && clock == later
      ensures con.Some? <==> luck.connects && luck.handshakes && (luck.pingWorks || pingInterval > later)
      ensures con.Some? ==> fresh(con.value) && con.value.hash == hash && con.value.alive
      // the first ping counts as the last one
      ensures con.Some? ==> con.value.lastPing == if pingInterval > later then 0 else later
      ensures connections == old(connections) + (if con.Some? then [Item(hash, con.value)] else [])
      ensures blacklist == old(blacklist) + (if luck.connects then [] else [Item(hash, later)])
      ensures attempts == old(attempts) + [Attempt(hash, now, if luck.connects then None else Some(later))]
    {
      hide Holds, UniqueHashes, LinkedList.Valid, Linked, Remembered, Patient;
      con := None;
      Attempted(hash, now, later, luck.connects);
      if !luck.connects {
        return;
      }
      var c := new Connection(hash);
      var ok := luck.handshakes;
      if ok {
        ok := Ping(c, later, later, luck.pingWorks);
      }
      if !ok {
        c.alive := false;
        return;
      }
      assert blacklist == old(blacklist) && connections == old(connections);
      Register(c);
      con := Some(c);
    }

    /**
     * mongo_get_connection_single.  `now` is when the call starts and `later` when the network has answered; luck
     * says what it answers.
     */
    method GetConnectionSingle(hash: bytes, dontConnect: bool, now: int, later: int, luck: Luck)
      returns (con: Option<Connection>)
      requires Valid() && clock <= now <= later
      modifies this, set i | 0 <= i < |connections| :: connections[i].data
      modifies connectionList, connectionList.entries, blackList, blackList.entries
      ensures Valid()
      ensures con.Some? ==> con.value.hash == hash && con.value.alive && Item(hash, con.value) in connections
      // a host is not tried again before the interval has passed since it failed, and then it is
      ensures old(Blocked(hash, now)) <==> FailedLately(old(attempts), pingInterval, hash, now)
      ensures old(Blocked(hash, now)) ==>
                con.None? && attempts == old(attempts) && blacklist == old(blacklist) && connections == old(connections)
      ensures !old(Blocked(hash, now)) && (dontConnect || old(Holds(connections, hash))) ==>
                attempts == old(attempts) && blacklist == Without(old(blacklist), hash)
      ensures !old(Blocked(hash, now)) && dontConnect ==>
                connections == old(connections) && (con.Some? <==> Holds(connections, hash))
      ensures !old(Blocked(hash, now)) && dontConnect ==>
                forall x :: x in connections && x.hash == hash ==> con == Some(x.data)
      ensures !old(Blocked(hash, now)) && !dontConnect && old(Holds(connections, hash)) ==>
                connections == if con.Some? then old(connections) else Without(old(connections), hash)
      // a known connection is handed out unless it is due for a ping that fails, which costs it its place and its life
      ensures !old(Blocked(hash, now)) && !dontConnect ==>
                forall x :: x in old(connections) && x.hash == hash ==>
                  && (con.Some? <==> old(x.data.lastPing) + pingInterval > now || luck.pingWorks)
                  && (con.Some? ==> con.value == x.data)
                  && x.data.alive == con.Some?
                  && x.data.lastPing == if old(x.data.lastPing) + pingInterval <= now && con.Some? then later
                                        else old(x.data.lastPing)
      ensures forall x :: x in old(connections) && (x.hash != hash || dontConnect || old(Blocked(hash, now))) ==>
                x.data.alive && x.data.lastPing == old(x.data.lastPing)
      ensures !old(Blocked(hash, now)) && !dontConnect && !old(Holds(connections, hash)) ==>
                && (con.Some? <==> luck.connects && luck.handshakes && (luck.pingWorks || pingInterval > later))
                && (con.Some? ==> fresh(con.value) && con.value.lastPing == if pingInterval > later then 0 else later)
                && connections == old(connections) + (if con.Some? then [Item(hash, con.value)] else [])
                && blacklist == Without(old(blacklist), hash) + (if luck.connects then [] else [Item(hash, later)])
                && attempts == old(attempts) + [Attempt(hash, now, if luck.connects then None else Some(later))]
    {
      hide AnyMatch, Without, UniqueHashes, LinkedList.Valid, Remembered, Patient, Blocked, Recorded, FailedLately;
      BlockedExactly(hash, now);
      var blocked := LiftExpired(hash, now);
      if blocked {
        return None;
      }
      var found := connectionList.Find(HasHash(hash));
      con := if found.Some? then Some(found.value.data) else None;
      HoldsMember(connections, hash);
      if found.Some? {
        OnlyOne(connections, found.value);
      }
      if dontConnect {
        return;
      }
      if con.Some? {
        assert found.value == Item(con.value.hash, con.value);
        var ok := UseExisting(con.value, now, later, luck);
        return if ok then con else None;
      }
      con := TryNew(hash, now, later, luck);
    }
  }

  /** Lifting an entry whose interval has passed forgets no failure that still counts. */
  lemma ExpiredIsOver(was: seq<Item<int>>, lifted: Item<int>, a: Attempt, interval: int, now: int)
    requires UniqueHashes(was) && lifted in was && lifted.data + interval <= now && a.failed.Some?
    requires a.failed.value + interval <= now || exists x :: x in was && x.hash == a.hash && x.data >= a.failed.value
    ensures var rest := Without(was, lifted.hash);
            a.failed.value + interval <= now || exists x :: x in rest && x.hash == a.hash && x.data >= a.failed.value
  {
    hide Without;
    WithoutFromUnique(was, lifted.hash);
    OnlyOne(was, lifted);
    if a.failed.value + interval > now {
      var x :| x in was && x.hash == a.hash && x.data >= a.failed.value;
      assert x in Without(was, lifted.hash);
    }
  }

  lemma HoldsLess<T>(was: seq<Item<T>>, hash: bytes, h: bytes)
    requires UniqueHashes(was)
    ensures Holds(Without(was, hash), h) ==> Holds(was, h)
  {
    hide Holds, Without;
    WithoutFromUnique(was, hash);
    HoldsMember(was, h);
    HoldsMember(Without(was, hash), h);
    if Holds(Without(was, hash), h) {
      var x :| x in Without(was, hash) && x.hash == h;
      assert x in was;
    }
  }

  /** One more item of a hash that there was none of. */
  lemma OneMore<T>(was: seq<Item<T>>, x: Item<T>)
    requires UniqueHashes(was) && !Holds(was, x.hash)
    ensures UniqueHashes(was + [x])
    ensures forall h :: Holds(was + [x], h) <==> Holds(was, h) || h == x.hash
  {
    hide Holds;
    HoldsMember(was, x.hash);
    forall i | 0 <= i < |was|
      ensures was[i].hash != x.hash
    {
      assert was[i] in was;
    }
    forall h
      ensures Holds(was + [x], h) <==> Holds(was, h) || h == x.hash
    {
      HoldsMember(was + [x], h);
      HoldsMember(was, h);
      assert x in was + [x];
    }
  }

  lemma OnlyOne<T>(items: seq<Item<T>>, x: Item<T>)
    requires UniqueHashes(items) && x in items
    ensures forall y :: y in items && y.hash == x.hash ==> y == x
  {
  }

  /** After a failure a host is left alone for the interval. */
  ghost predicate Patient(attempts: seq<Attempt>, interval: int) {
    forall i, j :: 0 <= i < j < |attempts| && attempts[i].hash == attempts[j].hash && attempts[i].failed.Some? ==>
      attempts[j].began >= attempts[i].failed.value + interval
  }
}
