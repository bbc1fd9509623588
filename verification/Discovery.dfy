/** mcon/manager.c and mcon/connections.c: finding the members of a replica set from a list of seeds. */
module Discovery {
  import opened Bytes
  import Identities

  datatype Node = Node(host: bytes, port: int)

  /** What every server definition made from one connection string has in common. */
  datatype Creds = Creds(db: Option<bytes>, authdb: Option<bytes>, username: Option<bytes>, password: Option<bytes>,
                         mechanism: int)

  /** mongo_server_def */
  datatype ServerDef = ServerDef(node: Node, setName: Option<bytes>, creds: Creds)

  /** What tells connections apart: mongo_server_create_hash prints these fields. */
  datatype Key = Key(node: Node, setName: Option<bytes>, login: Option<(bytes, bytes, bytes)>)

  function KeyOf(d: ServerDef): Key {
    var c := d.creds;
    Key(d.node, d.setName, if c.db.Some? && c.username.Some? && c.password.Some?
                           then Some((c.db.value, c.username.value, c.password.value)) else None)
  }

  /** What mongo_server_create_hash prints of a definition; the digest is that of user name and password. */
  function PartsOf(d: ServerDef, digest: (bytes, bytes) -> bytes, pid: int): Identities.Parts {
    var k := KeyOf(d);
    Identities.Parts(d.node.host, d.node.port, d.setName,
                     if k.login.None? then None
                     else var (db, username, password) := k.login.value;
                       Some(Identities.Login(db, username, digest(username, password))),
                     pid)
  }

  /** Comparing keys is comparing hashes, for definitions whose hash can be read and a digest without collisions. */
  lemma KeysAreHashes(d: ServerDef, e: ServerDef, digest: (bytes, bytes) -> bytes, pid: int)
    requires Identities.Reads(PartsOf(d, digest, pid)) && Identities.Reads(PartsOf(e, digest, pid))
    requires forall u, p, q :: digest(u, p) == digest(u, q) ==> p == q
    ensures Identities.HashOf(PartsOf(d, digest, pid)) == Identities.HashOf(PartsOf(e, digest, pid)) <==>
              KeyOf(d) == KeyOf(e)
  {
    hide Identities.HashOf, Identities.Reads;
    if Identities.HashOf(PartsOf(d, digest, pid)) == Identities.HashOf(PartsOf(e, digest, pid)) {
      Identities.HashesAreInjective(PartsOf(d, digest, pid), PartsOf(e, digest, pid));
    }
  }

  /** A host's answer to ismaster; Broken covers failed commands and unknown node types. */
  datatype Answer =
    | Broken
    | Unsupported
    | Works(me: Option<Node>, setName: Option<bytes>, hosts: seq<Node>)

  /** What a second, unconditional ismaster on a new connection leads to. */
  datatype Recheck = Fine | Bad | OutOfRange

  /** The hosts while the discovery runs. */
  datatype Net = Net(answer: Node -> Answer, connects: Node -> bool, recheck: Node -> Recheck)

  /** The part of mongo_con_manager that discovery reads and writes. */
  class ConManager {
    /** the connections, by what their hash prints */
    var connections: set<Key>
    /** those whose last replica set check is too recent to be repeated */
    var checked: set<Key>

    constructor ()
      ensures connections == checked == {}
    {
      connections, checked := {}, {};
    }

    method Deregister(k: Key)
      modifies this
      ensures connections == old(connections) - {k} && checked == old(checked) - {k}
    {
      connections, checked := connections - {k}, checked - {k};
    }

    /** mongo_get_connection_single for a definition that has no connection yet */
    method Connect(k: Key, net: Net) returns (ok: bool)
      requires k !in connections
      modifies this
      ensures ok == net.connects(k.node)
      ensures connections == (if ok then old(connections) + {k} else old(connections)) && checked == old(checked) - {k}
    {
      ok := net.connects(k.node);
      checked := checked - {k};
      if ok {
        connections := connections + {k};
      }
    }
  }

  /** mongo_servers_contains */
  method ServersContains(servers: seq<ServerDef>, def: ServerDef) returns (found: bool)
    ensures found == (def in servers)
  {
    for i := 0 to |servers|
      invariant def !in servers[..i]
    {
      if servers[i].creds.mechanism == def.creds.mechanism && servers[i].node == def.node
         && servers[i].setName == def.setName && servers[i].creds == def.creds {
        return true;
      }
    }
    return false;
  }

  /** Whether the answer carries on: the set name is there and is the expected one, if one is expected. */
  predicate Accepted(a: Answer, expected: Option<bytes>) {
    a.Works? && a.setName.Some? && (expected.None? || a.setName == expected)
  }

  /** A host that goes by another name than the one it was found under. */
  predicate IsRenamed(at: Node, a: Answer) {
    a.Works? && a.me.Some? && a.me.value != at
  }

  function Renamed(d: ServerDef, at: Node, a: Answer): ServerDef {
    if IsRenamed(at, a) then d.(node := a.me.value) else d
  }

  /** A definition without a set name takes the one of the answer. */
  function NamedAfter(d: ServerDef, a: Answer): ServerDef {
    if d.setName.None? && a.Works? then d.(setName := a.setName) else d
  }

  /** mongo_connection_ismaster with a server definition: the result code, and what the other pointers receive. */
  method IsMaster(m: ConManager, key: Key, server: ServerDef, expected: Option<bytes>, net: Net)
    returns (res: int, server': ServerDef, expected': Option<bytes>, hosts: seq<Node>)
    modifies m`checked
    ensures var a := net.answer(key.node);
            if key in old(m.checked) then
              res == 2 && server' == server && expected' == expected && m.checked == old(m.checked)
            else if Accepted(a, expected) then
              && res == (if IsRenamed(key.node, a) then 3 else 1)
              && server' == NamedAfter(Renamed(server, key.node, a), a)
              && expected' == a.setName && hosts == a.hosts && m.checked == old(m.checked) + {key}
            else
              && res == (if a.Unsupported? then 4 else 0)
              && server' == Renamed(server, key.node, a) && expected' == expected && m.checked == old(m.checked)
  {
    server', expected', hosts := server, expected, [];
    if key in m.checked {
      return 2, server', expected', hosts;
    }
    var a := net.answer(key.node);
    if a.Unsupported? {
      return 4, server', expected', hosts;
    } else if a.Broken? {
      return 0, server', expected', hosts;
    }
    res := 1;
    if a.me.Some? && a.me.value != key.node {
      server' := server'.(node := a.me.value);
      res := 3;
    }
    if a.setName.None? {
      return 0, server', expected', hosts;
    } else if expected.Some? {
      if a.setName != expected {
        return 0, server', expected', hosts;
      }
    } else {
      expected' := a.setName;
    }
    if server'.setName.None? {
      server' := server'.(setName := a.setName);
    }
    hosts := a.hosts;
    m.checked := m.checked + {key};
  }

  // --- one turn of the loop ---

  /** Where the search stands: the servers found so far, those below i having had their turn. */
  datatype State = State(list: seq<ServerDef>, name: Option<bytes>, connections: set<Key>, checked: set<Key>, i: nat,
                         supported: bool)

  /** A new connection to the host comes about and stays. */
  predicate Stays(n: Node, net: Net) {
    net.connects(n) && net.recheck(n).Fine?
  }

  /** One listed host: a connection if there is none, and a place on the list if there is none. */
  function WithHost(s: State, tmp: ServerDef, net: Net): State {
    s.(list := if tmp in s.list then s.list else s.list + [tmp],
       connections := s.connections + if Stays(tmp.node, net) then {KeyOf(tmp)} else {},
       supported := s.supported && (KeyOf(tmp) in s.connections || !net.connects(tmp.node)
                                    || !net.recheck(tmp.node).OutOfRange?))
  }

  function WithHosts(s: State, from: ServerDef, hosts: seq<Node>, net: Net): State {
    if hosts == [] then s
    else WithHost(WithHosts(s, from, hosts[..|hosts| - 1], net), from.(node := hosts[|hosts| - 1]), net)
  }

  /** Server i has been asked and its answer is not acceptable. */
  function Refuse(s: State, a: Answer): State
    requires s.i < |s.list|
  {
    var d := s.list[s.i];
    s.(list := s.list[s.i := Renamed(d, d.node, a)], connections := s.connections - {KeyOf(d)},
       checked := s.checked - {KeyOf(d)}, i := s.i + 1, supported := s.supported && !a.Unsupported?)
  }

  /** Server i has been asked and its answer carries on: it goes by its own name from now on. */
  function Accept(s: State, a: Answer): State
    requires s.i < |s.list|
  {
    var d := s.list[s.i];
    var d' := NamedAfter(Renamed(d, d.node, a), a);
    var dropped := if IsRenamed(d.node, a) then {KeyOf(d)} else {};
    s.(list := s.list[s.i := d'], name := if a.Works? then a.setName else None, connections := s.connections - dropped,
       checked := s.checked + {KeyOf(d)} - dropped, i := s.i + 1)
  }

  /** There is a connection to server i that has not been asked yet. */
  predicate CanAsk(s: State)
    requires s.i < |s.list|
  {
    KeyOf(s.list[s.i]) in s.connections && KeyOf(s.list[s.i]) !in s.checked
  }

  /** One turn of the loop of mongo_discover_topology. */
  function Step(s: State, net: Net): State
    requires s.i < |s.list|
  {
    var a := net.answer(s.list[s.i].node);
    if !CanAsk(s) then s.(i := s.i + 1)
    else if !Accepted(a, s.name) then Refuse(s, a)
    else WithHosts(Accept(s, a), Accept(s, a).list[s.i], a.hosts, net)
  }

  /** What is done for one listed host: a connection if there is none, and a place on the list if there is none. */
  method AddHost(m: ConManager, servers: seq<ServerDef>, tmp: ServerDef, net: Net)
    returns (servers': seq<ServerDef>, supported: bool)
    requires m.checked <= m.connections
    modifies m
    ensures servers' == if tmp in servers then servers else servers + [tmp]
    ensures m.checked == old(m.checked)
    ensures m.connections == old(m.connections) +
              if net.connects(tmp.node) && net.recheck(tmp.node).Fine? then {KeyOf(tmp)} else {}
    ensures supported <==>
              KeyOf(tmp) in old(m.connections) || !net.connects(tmp.node) || !net.recheck(tmp.node).OutOfRange?
  {
    supported := true;
    if KeyOf(tmp) !in m.connections {
      var ok := m.Connect(KeyOf(tmp), net);
      if ok {
        match net.recheck(tmp.node) {
          case Fine =>
          case OutOfRange =>
            supported := false;
            m.Deregister(KeyOf(tmp));
          case Bad =>
            m.Deregister(KeyOf(tmp));
        }
      }
    }
    var known := ServersContains(servers, tmp);
    servers' := if known then servers else servers + [tmp];
  }

  /** The loop over the hosts that a member lists. */
  method AddHosts(m: ConManager, servers: seq<ServerDef>, from: ServerDef, hosts: seq<Node>, net: Net, ghost s: State)
    returns (servers': seq<ServerDef>, supported: bool)
    requires m.checked <= m.connections && s.list == servers && s.connections == m.connections && s.checked == m.checked
    modifies m
    ensures m.checked <= m.connections
    ensures var t := WithHosts(s, from, hosts, net);
            && servers' == t.list && m.connections == t.connections && m.checked == t.checked
            && (s.supported && supported <==> t.supported)
  {
    servers', supported := servers, true;
    var j := 0;
    while j < |hosts|
      invariant j <= |hosts| && m.checked <= m.connections
      invariant var t := WithHosts(s, from, hosts[..j], net);
                && servers' == t.list && m.connections == t.connections && m.checked == t.checked
                && (s.supported && supported <==> t.supported)
    {
      assert hosts[..j + 1][..j] == hosts[..j];
      var ok;
      servers', ok := AddHost(m, servers', ServerDef(hosts[j], from.setName, from.creds), net);
      supported := supported && ok;
      j := j + 1;
    }
    assert hosts[..j] == hosts;
  }

  /** The body of the loop of mongo_discover_topology, for server i. */
  method Turn(m: ConManager, servers: seq<ServerDef>, name: Option<bytes>, i: nat, supported: bool, net: Net)
    returns (servers': seq<ServerDef>, name': Option<bytes>, supported': bool)
    requires i < |servers| && m.checked <= m.connections
    modifies m
    ensures m.checked <= m.connections
    ensures State(servers', name', m.connections, m.checked, i + 1, supported') ==
            Step(State(servers, name, old(m.connections), old(m.checked), i, supported), net)
  {
    servers', name', supported' := servers, name, supported;
    ghost var s := State(servers, name, m.connections, m.checked, i, supported);
    var key := KeyOf(servers[i]);
    if key !in m.connections {
      return;
    }
    var res, server, expected, hosts := IsMaster(m, key, servers[i], name, net);
    servers', name' := servers[i := server], expected;
    if res == 0 || res == 4 {
      supported' := supported && res == 0;
      m.Deregister(key);
    } else if res == 2 {
      assert servers' == servers;
    } else {
      if res == 3 {
        m.Deregister(key);
      }
      var ok;
      servers', ok := AddHosts(m, servers', server, hosts, net, Accept(s, net.answer(key.node)));
      SameRest(Accept(s, net.answer(key.node)), server, hosts, net);
      supported' := supported && ok;
    }
  }

  /** Going through the hosts touches neither the set name nor the position. */
  lemma {:induction false} SameRest(s: State, from: ServerDef, hosts: seq<Node>, net: Net)
    ensures var t := WithHosts(s, from, hosts, net); t.name == s.name && t.i == s.i && t.checked == s.checked
  {
    if hosts != [] {
      SameRest(s, from, hosts[..|hosts| - 1], net);
    }
  }
}
