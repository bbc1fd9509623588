/** Whole runs of mongo_discover_topology: what is found, when the search ends, and when it never does. */
module DiscoveryRuns {
  import opened Bytes
  import opened Discovery

  /** The hosts, the seeds, the options, the hosts that anybody lists, and the connections there are at the start. */
  datatype Case = Case(net: Net, seeds: seq<ServerDef>, given: Option<bytes>, creds: Creds, nodes: set<Node>,
                       start: set<Key>) {
    function Start(): State {
      State(seeds, given, start, {}, 0, true)
    }

    /** The set name that a seed with a connection brings in. */
    function FirstSetName(ds: seq<ServerDef>): Option<bytes> {
      if ds == [] then None
      else if KeyOf(ds[0]) in start && HasSetName(ds[0].node) then net.answer(ds[0].node).setName
      else FirstSetName(ds[1..])
    }

    predicate HasSetName(n: Node) {
      net.answer(n).Works? && net.answer(n).setName.Some?
    }

    /** The name of the set that is searched: the one asked for, or that of the first seed that has one. */
    function Name(): Option<bytes> {
      if given.Some? then given else FirstSetName(seeds)
    }

    /** A definition as it is made for a listed host. */
    function Def(h: Node): ServerDef {
      ServerDef(h, Name(), creds)
    }

    function Hosts(n: Node): seq<Node>
      requires net.answer(n).Works?
    {
      net.answer(n).hosts
    }

    predicate Member(n: Node) {
      net.answer(n).Works? && net.answer(n).setName.Some? && net.answer(n).setName == Name()
    }

    predicate Moves(n: Node) {
      net.answer(n).Works? && net.answer(n).me.Some? && net.answer(n).me.value != n
    }

    /** A member that goes by the name it is known by. */
    predicate Settled(n: Node) {
      Member(n) && !Moves(n)
    }

    function OwnName(n: Node): Node
      requires Moves(n)
    {
      net.answer(n).me.value
    }

    /** A connection to the host comes about and passes the second check. */
    predicate Alive(n: Node) {
      net.connects(n) && net.recheck(n).Fine?
    }

    /** A listed host that will have a connection when its turn comes. */
    predicate Answers(n: Node) {
      Alive(n) || KeyOf(Def(n)) in start
    }

    /**
     * There are finitely many hosts; a host keeps the name it calls itself by and answers there, if at all, as it
     * did before; the seeds come from one connection string and have been connected to as far as that is possible.
     */
    ghost predicate WellBehaved() {
      && (forall n, h :: net.answer(n).Works? && h in net.answer(n).hosts ==> h in nodes)
      && (forall n :: Moves(n) ==> SameServer(n))
      && (forall d :: d in seeds ==> d.creds == creds && (d.setName.None? || d.setName == given))
      && (forall d :: d in seeds && net.connects(d.node) ==> KeyOf(d) in start)
    }

    predicate SameServer(n: Node)
      requires Moves(n)
    {
      var a, b := net.answer(n), net.answer(OwnName(n));
      !Moves(OwnName(n)) && (b.Works? ==> b.hosts == a.hosts && b.setName == a.setName)
    }

    /** A way from a seed over members of the set that can be asked; each lists the next host. */
    ghost predicate Route(p: seq<Node>) {
      && |p| >= 2
      && (exists d :: d in seeds && d.node == p[0] && KeyOf(d) in start)
      && (forall k :: 0 < k < |p| - 1 ==> Answers(p[k]))
      && (forall k :: 0 <= k < |p| - 1 ==> Member(p[k]) && p[k + 1] in Hosts(p[k]))
    }

    ghost predicate Reached(n: Node) {
      exists p :: Route(p) && p[|p| - 1] == n
    }

    // --- what every turn keeps ---

    /** All that the member lists has been on the list. */
    predicate Done(seen: set<Node>, n: Node) {
      Member(n) ==> forall h :: h in Hosts(n) ==> h in seen
    }

    /** The host is on the list, under the name it was listed by or the one it calls itself by. */
    predicate Shown(list: seq<ServerDef>, n: Node) {
      Def(n) in list || (Moves(n) && Def(OwnName(n)) in list)
    }

    predicate Named(s: State, seen: set<Node>) {
      && s.i <= |s.list| && |seeds| <= |s.list|
      && (if s.name.Some? then s.name == Name() else NoName(s) && |s.list| == |seeds| && seen == {})
      && (given.Some? ==> s.name == given)
      && (seen != {} ==> Name().Some?)
    }

    /** No seed so far has brought in a name. */
    predicate NoName(s: State) {
      && s.i <= |seeds| && FirstSetName(seeds[s.i..]) == Name()
      && s.checked == {} && s.connections <= start
      && forall k :: k in start && k !in s.connections ==> !HasSetName(k.node)
    }

    predicate SeedsKept(s: State) {
      && |seeds| <= |s.list|
      && (forall j :: 0 <= j < |seeds| ==>
            && s.list[j].creds == creds && (s.list[j].setName.None? || s.list[j].setName == Name())
            && (j >= s.i ==> s.list[j] == seeds[j])
            && (s.list[j].node == seeds[j].node || (Moves(seeds[j].node) && s.list[j].node == OwnName(seeds[j].node))))
    }

    /** What was added are listed hosts, under the one name or the other. */
    ghost predicate Added(s: State, seen: set<Node>) {
      && (forall j :: |seeds| <= j < |s.list| ==>
            && s.list[j] == Def(s.list[j].node)
            && (s.list[j].node in seen || exists x :: x in seen && Moves(x) && s.list[j].node == OwnName(x)))
      && (forall j :: |seeds| <= j && s.i <= j < |s.list| ==> s.list[j].node in seen)
    }

    /** Whoever waits for a turn and can be asked has a connection, or has been asked under another number. */
    predicate Waiting(s: State, seen: set<Node>) {
      && (forall k :: k in start ==> k in s.connections || Done(seen, k.node))
      && (forall j :: s.i <= j < |s.list| && |seeds| <= j && Alive(s.list[j].node) ==>
            KeyOf(s.list[j]) in s.connections || Done(seen, s.list[j].node))
    }

    /** Connections that were not there at the start are to listed hosts. */
    predicate Made(s: State, seen: set<Node>) {
      forall k :: k in s.connections && k !in start ==> k.node in seen && Alive(k.node)
    }

    /** Whoever had its turn and could be asked is done. */
    predicate HadTurn(s: State, seen: set<Node>) {
      && (forall j :: 0 <= j < s.i && j < |seeds| && KeyOf(seeds[j]) in start ==> Done(seen, seeds[j].node))
      && (forall j :: 0 <= j < s.i <= |s.list| && s.list[j] == Def(s.list[j].node) && Answers(s.list[j].node) ==>
            Done(seen, s.list[j].node))
    }

    predicate CheckedOnce(s: State, seen: set<Node>) {
      s.checked <= s.connections && forall k :: k in s.checked ==>
          Done(seen, k.node) && Member(k.node) && !Moves(k.node)
    }

    ghost predicate Seen(s: State, seen: set<Node>) {
      && s.i <= |s.list|
      && forall n :: n in seen ==>
           && n in nodes && Reached(n) && Shown(s.list, n)
           && (Answers(n) ==> Done(seen, n) || Def(n) in s.list[s.i..])
    }

    ghost predicate Inv(s: State, seen: set<Node>) {
      && Named(s, seen) && SeedsKept(s) && Added(s, seen) && Waiting(s, seen) && HadTurn(s, seen)
      && CheckedOnce(s, seen) && Made(s, seen) && Seen(s, seen)
    }
  }

  /** What going through the hosts of a member leads to. */
  lemma {:induction false} HostsListed(c: Case, s: State, from: ServerDef, hosts: seq<Node>)
    requires from == c.Def(from.node)
    ensures var t := WithHosts(s, from, hosts, c.net);
            && t.name == s.name && t.checked == s.checked && t.i == s.i
            && s.list <= t.list && s.connections <= t.connections
            && (forall h :: h in hosts ==> c.Def(h) in t.list && (c.Alive(h) ==> KeyOf(c.Def(h)) in t.connections))
            && (forall k :: k in t.connections && k !in s.connections ==> c.Alive(k.node) && k.node in hosts)
            && (forall j :: |s.list| <= j < |t.list| ==>
                  t.list[j] == c.Def(t.list[j].node) && t.list[j].node in hosts && t.list[j] !in t.list[..j])
  {
    if hosts != [] {
      var last := |hosts| - 1;
      HostsListed(c, s, from, hosts[..last]);
      var before := WithHosts(s, from, hosts[..last], c.net);
      var t := WithHost(before, c.Def(hosts[last]), c.net);
      forall j | |s.list| <= j < |t.list|
        ensures t.list[j] == c.Def(t.list[j].node) && t.list[j].node in hosts && t.list[j] !in t.list[..j]
      {
        assert j < |before.list| ==> t.list[..j] == before.list[..j];
        assert j == |before.list| ==> t.list[..j] == before.list;
      }
    }
  }

  /** The node that server i was first known by. */
  lemma ServerNow(c: Case, s: State, seen: set<Node>)
    requires c.Inv(s, seen) && s.i < |s.list|
    ensures s.list[s.i].creds == c.creds && (s.list[s.i].setName.None? || s.list[s.i].setName == c.Name())
    ensures s.i < |c.seeds| ==> s.list[s.i] == c.seeds[s.i]
    ensures s.i >= |c.seeds| ==> s.list[s.i] == c.Def(s.list[s.i].node) && s.list[s.i].node in seen
  {
  }

  /** Asking finds out about the set that is searched, also while its name is not known. */
  lemma AcceptedIsMember(c: Case, s: State, seen: set<Node>)
    requires c.WellBehaved() && c.Inv(s, seen) && s.i < |s.list| && CanAsk(s)
    ensures Accepted(c.net.answer(s.list[s.i].node), s.name) <==> c.Member(s.list[s.i].node)
  {
    ServerNow(c, s, seen);
    assert s.i < |c.seeds| ==> c.seeds[s.i..][0] == c.seeds[s.i];
  }

  /** The hosts that have been on the list after the turn. */
  function SeenAfter(c: Case, s: State, seen: set<Node>): set<Node>
    requires s.i < |s.list|
  {
    var n := s.list[s.i].node;
    if CanAsk(s) && c.Member(n) then seen + (set h | h in c.Hosts(n)) else seen
  }

  /** What a turn changes. */
  ghost predicate Turned(c: Case, s: State, seen: set<Node>, t: State, seen': set<Node>)
    requires s.i < |s.list|
  {
    var d := s.list[s.i];
    && t.i == s.i + 1 && |s.list| <= |t.list| && (forall j :: 0 <= j < |s.list| && j != s.i ==> t.list[j] == s.list[j])
    // the server itself
    && t.list[s.i].creds == d.creds
    && t.list[s.i].setName in {d.setName, c.Name()} && (d.setName.Some? ==> t.list[s.i].setName == d.setName)
    && t.list[s.i].node == (if CanAsk(s) && c.Moves(d.node) then c.OwnName(d.node) else d.node)
    && (!CanAsk(s) ==> t.list[s.i] == d)
    // its hosts
    && seen <= seen' && (CanAsk(s) ==> c.Done(seen', d.node))
    && (forall h :: h in seen' && h !in seen ==> CanAsk(s) && c.Member(d.node) && h in c.Hosts(d.node))
    && (CanAsk(s) && c.Member(d.node) ==> forall h :: h in c.Hosts(d.node) ==> c.Def(h) in t.list)
    && (forall j :: |s.list| <= j < |t.list| ==>
          && t.list[j] == c.Def(t.list[j].node) && t.list[j].node in seen' && t.list[j] !in t.list[..j]
          && (c.Alive(t.list[j].node) ==> KeyOf(t.list[j]) in t.connections))
    // connections
    && (forall k :: k in s.connections && k != KeyOf(d) ==> k in t.connections)
    && (forall k :: k in t.connections && k !in s.connections ==> c.Alive(k.node) && k.node in seen')
    && t.checked <= t.connections
    && (forall k :: k in t.checked && k !in s.checked ==>
        k == KeyOf(d) && CanAsk(s) && c.Member(d.node) && !c.Moves(d.node))
    // the set name
    && (t.name == s.name || t.name == c.Name())
    && (CanAsk(s) && c.Member(d.node) ==> t.name == c.Name())
    && ((CanAsk(s) && c.Member(d.node)) || (|t.list| == |s.list| && seen' == seen && t.connections <= s.connections))
  }

  lemma RefuseChanges(c: Case, s: State, seen: set<Node>)
    requires c.Inv(s, seen) && s.i < |s.list| && CanAsk(s) && !c.Member(s.list[s.i].node)
    ensures Turned(c, s, seen, Refuse(s, c.net.answer(s.list[s.i].node)), seen)
  {
    hide Case.HadTurn, Case.Waiting, Case.Seen;
  }

  lemma AcceptChanges(c: Case, s: State, seen: set<Node>)
    requires c.Inv(s, seen) && s.i < |s.list| && CanAsk(s) && c.Member(s.list[s.i].node)
    requires Accepted(c.net.answer(s.list[s.i].node), s.name)
    ensures Turned(c, s, seen, Step(s, c.net), SeenAfter(c, s, seen))
  {
    hide Case.HadTurn, Case.Waiting, Case.Seen, Case.Added, Case.Made, Case.SeedsKept, Case.FirstSetName;
    ServerNow(c, s, seen);
    var a := c.net.answer(s.list[s.i].node);
    HostsListed(c, Accept(s, a), Accept(s, a).list[s.i], a.hosts);
  }

  lemma TurnChanges(c: Case, s: State, seen: set<Node>)
    requires c.WellBehaved() && c.Inv(s, seen) && s.i < |s.list|
    ensures Turned(c, s, seen, Step(s, c.net), SeenAfter(c, s, seen))
  {
    ServerNow(c, s, seen);
    if CanAsk(s) {
      AcceptedIsMember(c, s, seen);
      if c.Member(s.list[s.i].node) {
        AcceptChanges(c, s, seen);
      } else {
        RefuseChanges(c, s, seen);
      }
    }
  }

  lemma NamedStays(c: Case, s: State, seen: set<Node>, t: State, seen': set<Node>)
    requires c.WellBehaved() && c.Inv(s, seen) && s.i < |s.list| && Turned(c, s, seen, t, seen')
    ensures c.Named(t, seen')
  {
    hide Case.HadTurn, Case.Waiting, Case.Seen, Case.Added;
    ServerNow(c, s, seen);
    if t.name.None? {
      var rest := c.seeds[s.i..];
      assert rest[0] == c.seeds[s.i] && rest[1..] == c.seeds[s.i + 1..];
      if CanAsk(s) {
        AcceptedIsMember(c, s, seen);
      }
      assert forall k :: k in c.start && k !in t.connections ==> k !in s.connections || k == KeyOf(s.list[s.i]);
    }
  }

  lemma SeedsStay(c: Case, s: State, seen: set<Node>, t: State, seen': set<Node>)
    requires c.WellBehaved() && c.Inv(s, seen) && s.i < |s.list| && Turned(c, s, seen, t, seen')
    ensures c.SeedsKept(t)
  {
    hide Case.HadTurn, Case.Waiting, Case.Seen, Case.Added;
  }

  lemma AddedStays(c: Case, s: State, seen: set<Node>, t: State, seen': set<Node>)
    requires c.WellBehaved() && c.Inv(s, seen) && s.i < |s.list| && Turned(c, s, seen, t, seen')
    ensures c.Added(t, seen')
  {
    hide Case.HadTurn, Case.Waiting, Case.Seen, Case.Done;
  }

  lemma WaitingStays(c: Case, s: State, seen: set<Node>, t: State, seen': set<Node>)
    requires c.WellBehaved() && c.Inv(s, seen) && s.i < |s.list| && Turned(c, s, seen, t, seen')
    ensures c.Waiting(t, seen')
  {
    hide Case.HadTurn, Case.Seen;
  }

  lemma HadTurnStays(c: Case, s: State, seen: set<Node>, t: State, seen': set<Node>)
    requires c.WellBehaved() && c.Inv(s, seen) && s.i < |s.list| && Turned(c, s, seen, t, seen')
    ensures c.HadTurn(t, seen')
  {
    hide Case.Seen, Case.Added;
  }

  lemma CheckedStays(c: Case, s: State, seen: set<Node>, t: State, seen': set<Node>)
    requires c.WellBehaved() && c.Inv(s, seen) && s.i < |s.list| && Turned(c, s, seen, t, seen')
    ensures c.CheckedOnce(t, seen')
  {
    hide Case.Seen, Case.Added, Case.HadTurn, Case.Waiting;
  }

  lemma MadeStays(c: Case, s: State, seen: set<Node>, t: State, seen': set<Node>)
    requires c.WellBehaved() && c.Inv(s, seen) && s.i < |s.list| && Turned(c, s, seen, t, seen')
    ensures c.Made(t, seen')
  {
    hide Case.Seen, Case.Added, Case.HadTurn, Case.Waiting;
  }

  lemma FirstHost(c: Case, d: ServerDef, h: Node)
    requires d in c.seeds && KeyOf(d) in c.start && c.Member(d.node) && h in c.Hosts(d.node)
    ensures c.Reached(h)
  {
    var p := [d.node, h];
    assert c.Route(p) && p[|p| - 1] == h;
  }

  lemma NextHost(c: Case, n: Node, h: Node)
    requires c.Reached(n) && c.Answers(n) && c.Member(n) && h in c.Hosts(n)
    ensures c.Reached(h)
  {
    hide Case.Member, Case.Answers;
    var p :| c.Route(p) && p[|p| - 1] == n;
    var q := p + [h];
    assert forall k :: 0 <= k < |p| ==> q[k] == p[k];
    assert c.Route(q) && q[|q| - 1] == h;
  }

  /** A route to whoever could be asked goes on to the hosts it lists. */
  lemma RouteGoesOn(c: Case, s: State, seen: set<Node>, h: Node)
    requires c.WellBehaved() && c.Inv(s, seen) && s.i < |s.list| && CanAsk(s)
    requires c.Member(s.list[s.i].node) && h in c.Hosts(s.list[s.i].node)
    ensures c.Reached(h)
  {
    hide Case.HadTurn, Case.Waiting, Case.Done, Case.Route, Case.Reached, Case.Member, Case.Shown;
    ServerNow(c, s, seen);
    if s.i < |c.seeds| && KeyOf(s.list[s.i]) in c.start {
      FirstHost(c, s.list[s.i], h);
    } else {
      NextHost(c, s.list[s.i].node, h);
    }
  }

  lemma ShownStays(c: Case, s: State, seen: set<Node>, t: State, seen': set<Node>, n: Node)
    requires c.WellBehaved() && c.Inv(s, seen) && s.i < |s.list| && Turned(c, s, seen, t, seen')
    requires n in seen && c.Shown(s.list, n)
    ensures c.Shown(t.list, n)
  {
    hide Case.HadTurn, Case.Waiting, Case.Done, Case.Added, Case.Seen;
    var m := if c.Def(n) in s.list then n else c.OwnName(n);
    var k :| 0 <= k < |s.list| && s.list[k] == c.Def(m);
    assert t.list[k] in t.list;
  }

  /** Whoever has its turn and could be asked is done afterwards. */
  lemma TurnIsDone(c: Case, s: State, seen: set<Node>, t: State, seen': set<Node>, n: Node)
    requires c.WellBehaved() && c.Inv(s, seen) && s.i < |s.list| && Turned(c, s, seen, t, seen')
    requires s.list[s.i] == c.Def(n) && c.Answers(n)
    ensures c.Done(seen', n)
  {
    hide Case.Added, Case.Seen, Case.HadTurn;
    ServerNow(c, s, seen);
  }

  /** A host on the list is done or waits for its turn. */
  lemma ListedWaits(c: Case, list: seq<ServerDef>, i: nat, seen: set<Node>, n: Node)
    requires i <= |list| && c.Def(n) in list
    requires forall j :: 0 <= j < i && list[j] == c.Def(n) ==> c.Done(seen, n)
    ensures c.Done(seen, n) || c.Def(n) in list[i..]
  {
    hide Case.Done;
    var k :| 0 <= k < |list| && list[k] == c.Def(n);
    if k >= i {
      assert list[i..][k - i] == c.Def(n);
    }
  }

  lemma WaitingGoesOn(c: Case, s: State, seen: set<Node>, t: State, seen': set<Node>, n: Node)
    requires c.WellBehaved() && c.Inv(s, seen) && s.i < |s.list| && Turned(c, s, seen, t, seen')
    requires c.Def(n) in s.list[s.i..] && c.Answers(n)
    ensures c.Done(seen', n) || c.Def(n) in t.list[t.i..]
  {
    hide Case.Added, Case.Waiting, Case.WellBehaved, Case.Named, Case.SeedsKept, Case.Answers, Case.CheckedOnce,
         Case.Made, Case.Inv, Case.Done;
    var k :| 0 <= k < |s.list[s.i..]| && s.list[s.i..][k] == c.Def(n);
    assert s.list[s.i + k] == c.Def(n);
    if k == 0 {
      TurnIsDone(c, s, seen, t, seen', n);
    } else {
      assert t.list[t.i..][k - 1] == c.Def(n);
    }
  }

  lemma SeenWaits(c: Case, s: State, seen: set<Node>, t: State, seen': set<Node>, n: Node)
    requires c.WellBehaved() && c.Inv(s, seen) && s.i < |s.list| && Turned(c, s, seen, t, seen')
    requires n in seen' && c.Answers(n)
    ensures c.Done(seen', n) || c.Def(n) in t.list[t.i..]
  {
    hide Case.Added, Case.Waiting, Case.WellBehaved, Case.Named, Case.SeedsKept, Case.Answers, Case.CheckedOnce,
         Case.Made;
    if c.Def(n) in s.list[s.i..] {
      WaitingGoesOn(c, s, seen, t, seen', n);
    } else if n !in seen {
      HadTurnStays(c, s, seen, t, seen');
      ListedWaits(c, t.list, t.i, seen', n);
    }
  }

  lemma SeenStays(c: Case, s: State, seen: set<Node>, t: State, seen': set<Node>)
    requires c.WellBehaved() && c.Inv(s, seen) && s.i < |s.list| && Turned(c, s, seen, t, seen')
    requires CanAsk(s) || seen' == seen
    ensures c.Seen(t, seen')
  {
    hide Case.HadTurn, Case.Waiting, Case.Done, Case.Added, Case.Reached;
    forall n | n in seen'
      ensures n in c.nodes && c.Reached(n) && c.Shown(t.list, n)
      ensures c.Answers(n) ==> c.Done(seen', n) || c.Def(n) in t.list[t.i..]
    {
      if n in seen {
        ShownStays(c, s, seen, t, seen', n);
      } else {
        RouteGoesOn(c, s, seen, n);
      }
      if c.Answers(n) {
        SeenWaits(c, s, seen, t, seen', n);
      }
    }
  }

  /** Every turn keeps all of it. */
  lemma TurnKeeps(c: Case, s: State, seen: set<Node>)
    requires c.WellBehaved() && c.Inv(s, seen) && s.i < |s.list|
    ensures c.Inv(Step(s, c.net), SeenAfter(c, s, seen))
    ensures Turned(c, s, seen, Step(s, c.net), SeenAfter(c, s, seen))
  {
    hide Turned, Case.Named, Case.SeedsKept, Case.Added, Case.Waiting, Case.HadTurn, Case.CheckedOnce, Case.Made,
         Case.Seen, Case.WellBehaved, Step, CanAsk;
    TurnChanges(c, s, seen);
    var t, seen' := Step(s, c.net), SeenAfter(c, s, seen);
    NamedStays(c, s, seen, t, seen');
    SeedsStay(c, s, seen, t, seen');
    AddedStays(c, s, seen, t, seen');
    WaitingStays(c, s, seen, t, seen');
    HadTurnStays(c, s, seen, t, seen');
    CheckedStays(c, s, seen, t, seen');
    MadeStays(c, s, seen, t, seen');
    SeenStays(c, s, seen, t, seen');
  }

  lemma StartsWell(c: Case)
    requires c.WellBehaved()
    ensures c.Inv(c.Start(), {})
  {
    assert c.seeds[0..] == c.seeds;
    assert forall j :: 0 <= j < |c.seeds| ==> c.seeds[j] in c.seeds;
  }

  // --- completeness ---

  /**
   * What is on the list at the end: every seed that had a connection and every listed host that could be asked, if
   * it is a member of the set, has had all its hosts on the list, and they are on it still, under the one name or
   * the other.
   */
  ghost predicate Closed(c: Case, list: seq<ServerDef>, seen: set<Node>) {
    && (forall d :: d in c.seeds && KeyOf(d) in c.start ==> c.Done(seen, d.node))
    && (forall n :: n in seen && c.Answers(n) ==> c.Done(seen, n))
    && (forall n :: n in seen ==> c.Shown(list, n))
  }

  lemma EndIsClosed(c: Case, s: State, seen: set<Node>)
    requires c.WellBehaved() && c.Inv(s, seen) && s.i == |s.list|
    ensures Closed(c, s.list, seen) && s.name == c.Name()
  {
    hide Case.Added, Case.Waiting, Case.Done, Case.Made, Case.CheckedOnce, Case.WellBehaved, Case.Shown;
  }

  /** Discovery is complete: every host that some route leads to has been on the list. */
  lemma {:induction false} ReachableIsListed(c: Case, list: seq<ServerDef>, seen: set<Node>, p: seq<Node>)
    requires Closed(c, list, seen) && c.Route(p)
    ensures p[|p| - 1] in seen && c.Shown(list, p[|p| - 1])
    decreases |p|
  {
    hide Case.Shown, Case.Answers;
    var last := |p| - 2;
    if last > 0 {
      var q := p[..last + 1];
      assert forall k :: 0 <= k < |q| ==> q[k] == p[k];
      ReachableIsListed(c, list, seen, q);
    }
    assert c.Member(p[last]) && c.Done(seen, p[last]);
  }

  // --- runs ---

  /** The state after a number of turns; a search that has ended stays as it is. */
  function Run(c: Case, turns: nat): State {
    if turns == 0 then c.Start()
    else
      var s := Run(c, turns - 1);
      if s.i < |s.list| then Step(s, c.net) else s
  }

  /** The hosts that have been on the list by then. */
  function SeenBy(c: Case, turns: nat): set<Node> {
    if turns == 0 then {}
    else
      var s := Run(c, turns - 1);
      if s.i < |s.list| then SeenAfter(c, s, SeenBy(c, turns - 1)) else SeenBy(c, turns - 1)
  }

  predicate Ended(s: State) {
    s.i >= |s.list|
  }

  lemma {:induction false} RunKeeps(c: Case, turns: nat)
    requires c.WellBehaved()
    ensures c.Inv(Run(c, turns), SeenBy(c, turns))
  {
    hide Case.Inv, Case.WellBehaved;
    if turns == 0 {
      StartsWell(c);
    } else {
      RunKeeps(c, turns - 1);
      var s := Run(c, turns - 1);
      if s.i < |s.list| {
        TurnKeeps(c, s, SeenBy(c, turns - 1));
      }
    }
  }

  // --- when it never ends ---

  /** Members under other names than they are listed by, each of which lists another one of them. */
  ghost predicate Trap(c: Case, ring: set<Node>) {
    && ring != {}
    && forall x :: x in ring ==> c.Alive(x) && c.Moves(x) && c.Member(x) && ListsOneOf(c, x, ring)
  }

  ghost predicate ListsOneOf(c: Case, x: Node, ring: set<Node>)
    requires c.Member(x)
  {
    exists h :: h in c.Hosts(x) && h in ring
  }

  /** The ring is on the way of the search. */
  ghost predicate LoopsBack(c: Case) {
    exists ring :: Trap(c, ring) && OnTheWay(c, ring)
  }

  ghost predicate OnTheWay(c: Case, ring: set<Node>) {
    exists x :: x in ring && c.Reached(x)
  }

  /** The host is on the list only while it waits, once, and with a connection. */
  predicate OnlyWaits(c: Case, s: State, x: Node) {
    forall j :: 0 <= j < |s.list| && s.list[j] == c.Def(x) ==>
      j >= s.i && KeyOf(c.Def(x)) in s.connections && s.list[j] !in s.list[j + 1..]
  }

  lemma ItsTurnRenames(c: Case, s: State, seen: set<Node>, x: Node, t: State, seen': set<Node>)
    requires c.WellBehaved() && c.Inv(s, seen) && s.i < |s.list| && Turned(c, s, seen, t, seen')
    requires c.Moves(x) && OnlyWaits(c, s, x)
    ensures t.list[s.i] != c.Def(x) && (s.list[s.i] == c.Def(x) ==> CanAsk(s))
  {
    hide Case.Added, Case.Waiting, Case.HadTurn, Case.Seen, Case.Made, Case.Done;
    ServerNow(c, s, seen);
  }

  lemma OnlyWaitsStays(c: Case, s: State, seen: set<Node>, x: Node, t: State, seen': set<Node>)
    requires c.WellBehaved() && c.Inv(s, seen) && s.i < |s.list| && Turned(c, s, seen, t, seen')
    requires c.Moves(x) && c.Alive(x) && OnlyWaits(c, s, x)
    ensures OnlyWaits(c, t, x)
  {
    hide Case.Added, Case.Waiting, Case.HadTurn, Case.Seen, Case.Made, Case.Done, Case.WellBehaved, Case.Named,
         Case.CheckedOnce;
    ItsTurnRenames(c, s, seen, x, t, seen');
    ServerNow(c, s, seen);
    forall j | 0 <= j < |t.list| && t.list[j] == c.Def(x)
      ensures j >= t.i && KeyOf(c.Def(x)) in t.connections && c.Def(x) !in t.list[j + 1..]
    {
      forall k | j < k < |t.list|
        ensures t.list[k] != c.Def(x)
      {
        if k < |s.list| {
          assert s.list[j + 1..][k - j - 1] == s.list[k];
        } else {
          assert t.list[..k][j] == c.Def(x);
        }
      }
      assert s.i < j < |s.list| ==> s.list[s.i + 1..][j - s.i - 1] == s.list[j];
    }
  }

  /** One of the ring is waiting for its turn. */
  ghost predicate Circling(c: Case, s: State, seen: set<Node>, ring: set<Node>) {
    && s.i <= |s.list| && (forall x :: x in ring ==> OnlyWaits(c, s, x))
    && ((exists x :: x in ring && x in seen) ==> exists x :: x in ring && c.Def(x) in s.list[s.i..])
  }

  /** Before and after a turn alike: the host that had its turn has put another one of the ring on the list. */
  lemma CirclingStays(c: Case, s: State, seen: set<Node>, ring: set<Node>)
    requires c.WellBehaved() && c.Inv(s, seen) && s.i < |s.list|
    requires Trap(c, ring) && Circling(c, s, seen, ring)
    ensures Circling(c, Step(s, c.net), SeenAfter(c, s, seen), ring)
  {
    hide Case.Inv, Case.WellBehaved, Turned, OnlyWaits, Step, SeenAfter, CanAsk, ListsOneOf, Case.Member;
    TurnKeeps(c, s, seen);
    var t, seen' := Step(s, c.net), SeenAfter(c, s, seen);
    forall x | x in ring
      ensures OnlyWaits(c, t, x)
    {
      OnlyWaitsStays(c, s, seen, x, t, seen');
    }
    TurnMovesOn(c, s, seen, t, seen');
    if n :| n in ring && n in seen' && n !in seen {
      NewHostWaits(c, s, seen, n, t, seen');
    } else if x :| x in ring && x in seen' {
      var y :| y in ring && c.Def(y) in s.list[s.i..];
      OtherWaits(c, s, seen, ring, y, t, seen');
    }
  }

  lemma TurnMovesOn(c: Case, s: State, seen: set<Node>, t: State, seen': set<Node>)
    requires s.i < |s.list| && Turned(c, s, seen, t, seen')
    ensures t.i == s.i + 1 <= |t.list|
  {
  }

  lemma WaitsAfter(c: Case, t: State, n: Node)
    requires t.i <= |t.list| && OnlyWaits(c, t, n) && c.Def(n) in t.list
    ensures c.Def(n) in t.list[t.i..]
  {
    var k :| 0 <= k < |t.list| && t.list[k] == c.Def(n);
    assert t.list[t.i..][k - t.i] == c.Def(n);
  }

  lemma NewHostWaits(c: Case, s: State, seen: set<Node>, n: Node, t: State, seen': set<Node>)
    requires s.i < |s.list| && Turned(c, s, seen, t, seen') && OnlyWaits(c, t, n)
    requires (CanAsk(s) && c.Member(s.list[s.i].node) && n in c.Hosts(s.list[s.i].node)) || (n in seen' && n !in seen)
    ensures c.Def(n) in t.list[t.i..]
  {
    hide OnlyWaits;
    WaitsAfter(c, t, n);
  }

  /** The host that has its turn puts another one of the ring on the list. */
  lemma NextWaits(c: Case, s: State, seen: set<Node>, ring: set<Node>, t: State, seen': set<Node>)
    requires c.WellBehaved() && c.Inv(s, seen) && s.i < |s.list| && Turned(c, s, seen, t, seen')
    requires Trap(c, ring) && s.list[s.i].node in ring && s.list[s.i] == c.Def(s.list[s.i].node)
    requires forall n :: n in ring ==> OnlyWaits(c, s, n) && OnlyWaits(c, t, n)
    ensures exists n :: n in ring && c.Def(n) in t.list[t.i..]
  {
    hide Case.Inv, Case.WellBehaved, Turned, OnlyWaits, CanAsk;
    var x := s.list[s.i].node;
    ItsTurnRenames(c, s, seen, x, t, seen');
    assert ListsOneOf(c, x, ring);
    var h :| h in c.Hosts(x) && h in ring;
    NewHostWaits(c, s, seen, h, t, seen');
    TurnMovesOn(c, s, seen, t, seen');
    assert c.Def(h) in t.list[t.i..];
  }

  lemma OtherWaits(c: Case, s: State, seen: set<Node>, ring: set<Node>, x: Node, t: State, seen': set<Node>)
    requires c.WellBehaved() && c.Inv(s, seen) && s.i < |s.list| && Turned(c, s, seen, t, seen')
    requires Trap(c, ring) && x in ring && c.Def(x) in s.list[s.i..]
    requires forall n :: n in ring ==> OnlyWaits(c, s, n) && OnlyWaits(c, t, n)
    ensures exists n :: n in ring && c.Def(n) in t.list[t.i..]
  {
    hide Case.Inv, Case.WellBehaved, OnlyWaits, Trap;
    var k :| 0 <= k < |s.list[s.i..]| && s.list[s.i..][k] == c.Def(x);
    assert s.list[s.i + k] == c.Def(x);
    if k > 0 {
      assert t.list[t.i..][k - 1] == c.Def(x);
    } else {
      NextWaits(c, s, seen, ring, t, seen');
    }
  }

  /** No server that goes by another name is given twice among the seeds. */
  predicate NoTwins(c: Case) {
    forall j, k :: 0 <= j < k < |c.seeds| && c.Moves(c.seeds[j].node) ==> c.seeds[j] != c.seeds[k]
  }

  lemma {:induction false} RunCircles(c: Case, ring: set<Node>, turns: nat)
    requires c.WellBehaved() && NoTwins(c) && Trap(c, ring)
    ensures Circling(c, Run(c, turns), SeenBy(c, turns), ring)
  {
    hide Case.Inv, Circling, Trap, Case.WellBehaved, NoTwins, Step, SeenAfter;
    if turns == 0 {
      StartCircles(c, ring);
    } else {
      RunCircles(c, ring, turns - 1);
      RunKeeps(c, turns - 1);
      var s := Run(c, turns - 1);
      if s.i < |s.list| {
        CirclingStays(c, s, SeenBy(c, turns - 1), ring);
      }
    }
  }

  lemma StartCircles(c: Case, ring: set<Node>)
    requires c.WellBehaved() && NoTwins(c) && Trap(c, ring)
    ensures Circling(c, c.Start(), {}, ring)
  {
    hide ListsOneOf, Case.Member, Case.Moves, Case.Name;
    forall x, j | x in ring && 0 <= j < |c.seeds| && c.seeds[j] == c.Def(x)
      ensures KeyOf(c.Def(x)) in c.start && c.seeds[j] !in c.seeds[j + 1..]
    {
      assert c.seeds[j] in c.seeds;
    }
  }

  /** With such a ring on its way the search goes on after any number of turns. */
  lemma NeverEnds(c: Case, turns: nat)
    requires c.WellBehaved() && NoTwins(c) && LoopsBack(c)
    ensures !Ended(Run(c, turns))
  {
    hide Case.Inv, Trap, Closed, OnlyWaits;
    var s := Run(c, turns);
    var ring :| Trap(c, ring) && OnTheWay(c, ring);
    var x :| x in ring && c.Reached(x);
    RunCircles(c, ring, turns);
    if s.i == |s.list| {
      RunKeeps(c, turns);
      EndIsClosed(c, s, SeenBy(c, turns));
      var p :| c.Route(p) && p[|p| - 1] == x;
      ReachableIsListed(c, s.list, SeenBy(c, turns), p);
    }
  }

  // --- when it ends ---

  /** The hosts that are put on the list again and again as long as others list them. */
  ghost function Movers(c: Case): set<Node> {
    set n | n in c.nodes && c.Alive(n) && c.Moves(n) && c.Member(n) && c.Reached(n)
  }

  /** How far a host is, at most, from the last one of them that is listed on the way. */
  datatype Plan = Plan(rank: Node -> nat, height: nat)

  ghost predicate Ranked(c: Case, hosts: set<Node>, plan: Plan) {
    && (forall x :: x in hosts ==> plan.rank(x) < plan.height)
    && (forall x, h :: x in hosts && h in hosts && c.Member(x) && h in c.Hosts(x) ==> plan.rank(h) < plan.rank(x))
  }

  /** Either no way over these hosts comes back to itself, or there is a ring among them. */
  lemma {:induction false} RankOrRing(c: Case, hosts: set<Node>) returns (plan: Plan)
    requires forall x :: x in hosts ==> c.Alive(x) && c.Moves(x) && c.Member(x)
    ensures Ranked(c, hosts, plan) || exists ring :: Trap(c, ring) && ring <= hosts
    decreases hosts
  {
    plan := Plan(_ => 0, 0);
    if hosts == {} {
    } else if x :| x in hosts && !ListsOneOf(c, x, hosts) {
      var above := RankOrRing(c, hosts - {x});
      var rank := above.rank;
      plan := Plan(n => if n == x then 0 else rank(n) + 1, above.height + 1);
    } else {
      assert Trap(c, hosts);
    }
  }

  function Power(n: nat, r: nat): nat {
    if r == 0 then 1 else 1 + n * Power(n, r - 1)
  }

  lemma {:induction false} PowerGrows(n: nat, q: nat, r: nat)
    requires q <= r && n > 0
    ensures 1 <= Power(n, q) <= Power(n, r)
  {
    if q < r {
      PowerGrows(n, q, r - 1);
      assert n * Power(n, r - 1) >= Power(n, r - 1) by { MulGrows(1, n, Power(n, r - 1)); }
    }
  }

  lemma MulGrows(a: nat, b: nat, m: nat)
    requires a <= b
    ensures a * m <= b * m && m * a <= m * b
  {
  }

  ghost function Top(c: Case, plan: Plan): nat {
    Power(|c.nodes|, plan.height + 1)
  }

  /** What the turn of a host may cost, those of the hosts it puts on the list included. */
  ghost function Weight(c: Case, plan: Plan, n: Node): nat {
    if n in Movers(c) then Power(|c.nodes|, plan.rank(n) + 1) else if c.Moves(n) then 1 else Top(c, plan)
  }

  ghost function Weights(c: Case, plan: Plan, list: seq<ServerDef>): nat {
    if list == [] then 0 else Weights(c, plan, list[..|list| - 1]) + Weight(c, plan, list[|list| - 1].node)
  }

  lemma {:induction false} WeightOfFirst(c: Case, plan: Plan, list: seq<ServerDef>)
    requires list != []
    ensures Weights(c, plan, list) == Weight(c, plan, list[0].node) + Weights(c, plan, list[1..])
  {
    hide Weight;
    if |list| > 1 {
      WeightOfFirst(c, plan, list[..|list| - 1]);
      assert list[..|list| - 1][1..] == list[1..][..|list| - 2];
    } else {
      assert list[..0] == [] && list[1..] == [];
    }
  }

  function Unlisted(c: Case, list: seq<ServerDef>): set<Node> {
    set n | n in c.nodes && c.Def(n) !in list
  }

  /** Hosts that, once on the list, stay on it. */
  function Fresh(c: Case, list: seq<ServerDef>): set<Node> {
    set n | n in c.nodes && !c.Moves(n) && c.Def(n) !in list
  }

  /** Connections that will not be made again. */
  function Old(c: Case, connections: set<Key>): set<Key> {
    set k | k in connections && !c.Alive(k.node)
  }

  function Budget(c: Case, s: State): nat {
    (if s.i < |c.seeds| then |c.seeds| - s.i else 0) + |Fresh(c, s.list)| + |Old(c, s.connections)|
  }

  /** The listed hosts that wait for their turn. */
  function Rest(c: Case, s: State): seq<ServerDef>
    requires s.i <= |s.list| && |c.seeds| <= |s.list|
  {
    s.list[if s.i < |c.seeds| then |c.seeds| else s.i..]
  }

  ghost function Measure(c: Case, plan: Plan, s: State): nat
    requires s.i <= |s.list| && |c.seeds| <= |s.list|
  {
    Weights(c, plan, Rest(c, s)) + Top(c, plan) * Budget(c, s)
  }

  lemma MulNext(m: nat, a: nat)
    requires a > 0
    ensures m * a == m * (a - 1) + m
  {
  }

  /** A host that is put on the list. */
  lemma ListedOnce(c: Case, s: State, h: Node)
    requires s.i <= |s.list| && |c.seeds| <= |s.list| && h in c.nodes && c.Def(h) !in s.list
    ensures var t := WithHost(s, c.Def(h), c.net);
            && t.i == s.i && |s.list| <= |t.list| && Rest(c, t) == Rest(c, s) + [c.Def(h)]
            && |Unlisted(c, t.list)| == |Unlisted(c, s.list)| - 1
            && Budget(c, t) == Budget(c, s) - if c.Moves(h) then 0 else 1
  {
    var t := WithHost(s, c.Def(h), c.net);
    assert Old(c, t.connections) == Old(c, s.connections);
    assert Unlisted(c, t.list) == Unlisted(c, s.list) - {h};
    if c.Moves(h) {
      assert Fresh(c, t.list) == Fresh(c, s.list);
    } else {
      assert Fresh(c, t.list) == Fresh(c, s.list) - {h};
    }
  }

  lemma WeightsOneMore(c: Case, plan: Plan, list: seq<ServerDef>, d: ServerDef)
    ensures Weights(c, plan, list + [d]) == Weights(c, plan, list) + Weight(c, plan, d.node)
  {
    assert (list + [d])[..|list|] == list;
  }

  /** One more host is paid for by its being listed, up to w for a host that goes by another name. */
  lemma OneHostCosts(c: Case, plan: Plan, s: State, h: Node, w: nat)
    requires s.i <= |s.list| && |c.seeds| <= |s.list| && h in c.nodes
    requires c.Moves(h) ==> Weight(c, plan, h) <= w
    ensures var t := WithHost(s, c.Def(h), c.net);
            t.i == s.i && |s.list| <= |t.list|
            && Measure(c, plan, t) + w * |Unlisted(c, t.list)| <= Measure(c, plan, s) + w * |Unlisted(c, s.list)|
  {
    hide Unlisted, Budget, Weights, Top, Rest;
    var t := WithHost(s, c.Def(h), c.net);
    if c.Def(h) in s.list {
      assert Budget(c, t) == Budget(c, s) && Rest(c, t) == Rest(c, s) by { SameBudget(c, s, h); }
    } else {
      ListedOnce(c, s, h);
      WeightsOneMore(c, plan, Rest(c, s), c.Def(h));
      MulNext(w, |Unlisted(c, s.list)|);
      if !c.Moves(h) {
        MulNext(Top(c, plan), Budget(c, s));
      }
    }
  }

  lemma SameBudget(c: Case, s: State, h: Node)
    requires s.i <= |s.list| && |c.seeds| <= |s.list| && c.Def(h) in s.list
    ensures var t := WithHost(s, c.Def(h), c.net); Budget(c, t) == Budget(c, s) && Rest(c, t) == Rest(c, s)
  {
    assert Old(c, WithHost(s, c.Def(h), c.net).connections) == Old(c, s.connections);
  }

  lemma {:induction false} HostsCost(c: Case, plan: Plan, s: State, from: ServerDef, hosts: seq<Node>, w: nat)
    requires s.i <= |s.list| && |c.seeds| <= |s.list| && from == c.Def(from.node)
    requires forall h :: h in hosts ==> h in c.nodes && (c.Moves(h) ==> Weight(c, plan, h) <= w)
    ensures var t := WithHosts(s, from, hosts, c.net);
            t.i == s.i && |s.list| <= |t.list|
            && Measure(c, plan, t) + w * |Unlisted(c, t.list)| <= Measure(c, plan, s) + w * |Unlisted(c, s.list)|
  {
    hide Unlisted, Measure, Weight, WithHost;
    if hosts != [] {
      var last := |hosts| - 1;
      HostsCost(c, plan, s, from, hosts[..last], w);
      assert from.(node := hosts[last]) == c.Def(hosts[last]);
      OneHostCosts(c, plan, WithHosts(s, from, hosts[..last], c.net), hosts[last], w);
    }
  }

  /** What the turn of server i may cost. */
  ghost function Paid(c: Case, plan: Plan, s: State): nat
    requires s.i < |s.list|
  {
    var n := s.list[s.i].node;
    if s.i < |c.seeds| || (CanAsk(s) && c.Moves(n) && !c.Alive(n)) then Top(c, plan) else Weight(c, plan, n)
  }

  /** Whatever goes by its listed name stays where it is on the list. */
  lemma FreshShrinks(c: Case, s: State, seen: set<Node>, u: State)
    requires c.Inv(s, seen) && s.i < |s.list| && (CanAsk(s) || u.list == s.list)
    requires |u.list| == |s.list| && forall j :: 0 <= j < |s.list| && j != s.i ==> u.list[j] == s.list[j]
    requires u.list[s.i].creds == c.creds && (s.list[s.i].setName == c.Name() ==> u.list[s.i].setName == c.Name())
    requires !c.Moves(s.list[s.i].node) ==> u.list[s.i].node == s.list[s.i].node
    ensures Fresh(c, u.list) <= Fresh(c, s.list)
  {
    hide Case.HadTurn, Case.Waiting, Case.Seen, Case.CheckedOnce, Case.Made, Case.Added, Case.Named, Case.SeedsKept;
    forall n | n in c.nodes && !c.Moves(n) && c.Def(n) in s.list
      ensures c.Def(n) in u.list
    {
      var k :| 0 <= k < |s.list| && s.list[k] == c.Def(n);
      assert u.list[k] == c.Def(n);
    }
  }

  /** The server has been passed over, has been refused, or carries on; its hosts are not listed yet. */
  predicate Passed(c: Case, s: State, u: State)
    requires s.i < |s.list|
  {
    var a := c.net.answer(s.list[s.i].node);
    if !CanAsk(s) then u == s.(i := s.i + 1)
    else if c.Member(s.list[s.i].node) then u == Accept(s, a) else u == Refuse(s, a)
  }

  lemma OldShrinks(c: Case, s: State, u: State)
    requires s.i < |s.list| && Passed(c, s, u)
    ensures |Old(c, u.connections)| <= |Old(c, s.connections)|
    ensures CanAsk(s) && c.Moves(s.list[s.i].node) && !c.Alive(s.list[s.i].node) ==>
              |Old(c, u.connections)| < |Old(c, s.connections)|
  {
    hide Case.Member, Case.Alive;
    assert Old(c, u.connections) <= Old(c, s.connections);
    CountLess(Old(c, u.connections), Old(c, s.connections));
    var k := KeyOf(s.list[s.i]);
    if CanAsk(s) && c.Moves(k.node) && !c.Alive(k.node) {
      assert k in Old(c, s.connections) && k !in Old(c, u.connections);
      CountLess(Old(c, u.connections), Old(c, s.connections) - {k});
    }
  }

  lemma BudgetShrinks(c: Case, s: State, seen: set<Node>, u: State)
    requires c.Inv(s, seen) && s.i < |s.list| && Passed(c, s, u)
    ensures Budget(c, u) <= Budget(c, s)
    ensures s.i < |c.seeds| || (CanAsk(s) && c.Moves(s.list[s.i].node) && !c.Alive(s.list[s.i].node)) ==>
              Budget(c, u) < Budget(c, s)
  {
    hide Fresh, Old, Case.HadTurn, Case.Waiting, Case.Seen, Case.CheckedOnce, Case.Made, Case.Added, Case.Reached,
         Case.Named, Case.SeedsKept;
    ServerNow(c, s, seen);
    FreshShrinks(c, s, seen, u);
    CountLess(Fresh(c, u.list), Fresh(c, s.list));
    OldShrinks(c, s, u);
  }

  /** Server i has had its turn. */
  lemma TurnIsPaid(c: Case, plan: Plan, s: State, seen: set<Node>, u: State)
    requires c.Inv(s, seen) && s.i < |s.list| && Passed(c, s, u)
    ensures u.i <= |u.list| && |c.seeds| <= |u.list|
    ensures Measure(c, plan, u) + Paid(c, plan, s) <= Measure(c, plan, s)
  {
    hide Weight, Weights, Top, Measure, Paid, Budget, Case.HadTurn, Case.Waiting, Case.Seen, Case.CheckedOnce,
         Case.Made, Case.Added, Case.Reached;
    BudgetShrinks(c, s, seen, u);
    if s.i < |c.seeds| {
      assert Rest(c, u) == Rest(c, s);
    } else {
      assert Rest(c, u) == Rest(c, s)[1..] && Rest(c, s)[0] == s.list[s.i];
      WeightOfFirst(c, plan, Rest(c, s));
    }
    PaidFromBudget(c, plan, s, u);
  }

  lemma CountLess<T>(a: set<T>, b: set<T>)
    requires a <= b
    ensures |a| <= |b|
  {
    assert b == a + (b - a);
  }

  lemma PaidFromBudget(c: Case, plan: Plan, s: State, u: State)
    requires s.i < |s.list| && u.i <= |u.list| && |c.seeds| <= |s.list| == |u.list|
    requires Weights(c, plan, Rest(c, u)) + (if s.i < |c.seeds| then 0 else Weight(c, plan, s.list[s.i].node)) ==
             Weights(c, plan, Rest(c, s))
    requires Budget(c, u) <= Budget(c, s)
    requires s.i < |c.seeds| || (CanAsk(s) && c.Moves(s.list[s.i].node) && !c.Alive(s.list[s.i].node)) ==>
               Budget(c, u) < Budget(c, s)
    ensures Measure(c, plan, u) + Paid(c, plan, s) <= Measure(c, plan, s)
  {
    hide Weight, Weights, Top, Budget, Rest;
    var top := Top(c, plan);
    if Budget(c, u) < Budget(c, s) {
      MulGrows(Budget(c, u), Budget(c, s) - 1, top);
      MulNext(top, Budget(c, s));
    } else {
      MulGrows(Budget(c, u), Budget(c, s), top);
    }
  }

  lemma HostsAreNodes(c: Case, n: Node)
    requires c.WellBehaved() && c.Member(n)
    ensures forall h :: h in c.Hosts(n) ==> h in c.nodes
  {
  }

  /** The price of a renamed host that this one lists. */
  ghost function Price(c: Case, plan: Plan, s: State): nat
    requires s.i < |s.list|
  {
    var n := s.list[s.i].node;
    if s.i >= |c.seeds| && n in Movers(c) then Power(|c.nodes|, plan.rank(n)) else Power(|c.nodes|, plan.height)
  }

  lemma PriceIsEnough(c: Case, plan: Plan, s: State, seen: set<Node>, h: Node)
    requires c.WellBehaved() && c.Inv(s, seen) && s.i < |s.list| && CanAsk(s) && c.Member(s.list[s.i].node)
    requires Ranked(c, Movers(c), plan) && h in c.Hosts(s.list[s.i].node) && c.Moves(h)
    ensures Weight(c, plan, h) <= Price(c, plan, s)
  {
    hide Case.Inv, Movers, Case.Moves;
    HostsAreNodes(c, s.list[s.i].node);
    assert |c.nodes| > 0;
    var n := s.list[s.i].node;
    var r := if s.i >= |c.seeds| && n in Movers(c) then plan.rank(n) else plan.height;
    PowerGrows(|c.nodes|, 0, r);
    if h in Movers(c) {
      PowerGrows(|c.nodes|, plan.rank(h) + 1, r);
    }
  }

  lemma PaysForHosts(c: Case, plan: Plan, s: State, seen: set<Node>)
    requires c.Inv(s, seen) && s.i < |s.list| && CanAsk(s) && c.Member(s.list[s.i].node)
    ensures Paid(c, plan, s) == 1 + |c.nodes| * Price(c, plan, s)
  {
    hide Case.HadTurn, Case.Waiting, Case.CheckedOnce, Case.Made, Case.Named, Case.SeedsKept, Case.Reached;
    ServerNow(c, s, seen);
  }

  /** Every turn brings the end nearer when the renamed hosts on the way can be ranked. */
  lemma TurnShrinks(c: Case, plan: Plan, s: State, seen: set<Node>)
    requires c.WellBehaved() && c.Inv(s, seen) && s.i < |s.list| && Ranked(c, Movers(c), plan)
    ensures var t := Step(s, c.net);
            t.i <= |t.list| && |c.seeds| <= |t.list| && Measure(c, plan, t) < Measure(c, plan, s)
  {
    hide Case.Inv, Case.WellBehaved, Measure, Paid, Price, Ranked, Movers, Weight, Accept, Refuse;
    var n := s.list[s.i].node;
    var a := c.net.answer(n);
    if !CanAsk(s) {
      TurnIsPaid(c, plan, s, seen, s.(i := s.i + 1));
      AlwaysPaid(c, plan, s);
    } else {
      AcceptedIsMember(c, s, seen);
      if !c.Member(n) {
        TurnIsPaid(c, plan, s, seen, Refuse(s, a));
        AlwaysPaid(c, plan, s);
      } else {
        var u := Accept(s, a);
        var w := Price(c, plan, s);
        TurnIsPaid(c, plan, s, seen, u);
        HostsAreNodes(c, n);
        forall h | h in a.hosts && c.Moves(h)
          ensures Weight(c, plan, h) <= w
        {
          PriceIsEnough(c, plan, s, seen, h);
        }
        assert u.i == s.i + 1 && u.list[s.i] == c.Def(u.list[s.i].node) by { AcceptedDef(c, s, seen); }
        HostsCost(c, plan, u, u.list[s.i], a.hosts, w);
        PaysForHosts(c, plan, s, seen);
        CountLess(Unlisted(c, u.list), c.nodes);
        MulGrows(|Unlisted(c, u.list)|, |c.nodes|, w);
      }
    }
  }

  lemma AcceptedDef(c: Case, s: State, seen: set<Node>)
    requires c.Inv(s, seen) && s.i < |s.list| && c.Member(s.list[s.i].node)
    ensures var u := Accept(s, c.net.answer(s.list[s.i].node));
            u.i == s.i + 1 && |u.list| == |s.list| && u.list[s.i] == c.Def(u.list[s.i].node)
  {
    ServerNow(c, s, seen);
  }

  lemma AlwaysPaid(c: Case, plan: Plan, s: State)
    requires s.i < |s.list|
    ensures Paid(c, plan, s) >= 1
  {
  }

  /** Without a ring on the way the renamed hosts can be ranked. */
  lemma RankOrLoop(c: Case) returns (plan: Plan)
    ensures Ranked(c, Movers(c), plan) || LoopsBack(c)
  {
    hide Ranked, Case.Route, Case.Reached, ListsOneOf;
    plan := RankOrRing(c, Movers(c));
    if ring :| Trap(c, ring) && ring <= Movers(c) {
      var x :| x in ring;
      assert OnTheWay(c, ring);
    }
  }

  lemma {:induction false} RunEnds(c: Case, plan: Plan, turns: nat) returns (end: nat)
    requires c.WellBehaved() && Ranked(c, Movers(c), plan)
    requires c.Inv(Run(c, turns), SeenBy(c, turns))
    ensures Ended(Run(c, end))
    decreases Measure(c, plan, Run(c, turns))
  {
    hide Case.Inv, Case.WellBehaved, Measure, Ranked, Movers, Step;
    var s := Run(c, turns);
    if s.i >= |s.list| {
      end := turns;
    } else {
      TurnShrinks(c, plan, s, SeenBy(c, turns));
      RunKeeps(c, turns + 1);
      end := RunEnds(c, plan, turns + 1);
    }
  }

  /**
   * The search ends if and only if there is no ring of members on its way, each of them going by another name than
   * the one the previous lists it by.
   */
  lemma EndsExactly(c: Case)
    requires c.WellBehaved() && NoTwins(c)
    ensures (exists turns :: Ended(Run(c, turns))) <==> !LoopsBack(c)
  {
    if LoopsBack(c) {
      forall turns: nat
        ensures !Ended(Run(c, turns))
      {
        NeverEnds(c, turns);
      }
    } else {
      var plan := RankOrLoop(c);
      RunKeeps(c, 0);
      var end := RunEnds(c, plan, 0);
    }
  }

  /** The shortest way not to end: a listed host that goes by another name and lists itself. */
  lemma SelfListingLoops(c: Case, seed: ServerDef, x: Node)
    requires seed in c.seeds && KeyOf(seed) in c.start && c.Member(seed.node) && x in c.Hosts(seed.node)
    requires c.Alive(x) && c.Moves(x) && c.Member(x) && x in c.Hosts(x)
    ensures LoopsBack(c)
  {
    hide Case.Route, Case.Reached;
    FirstHost(c, seed, x);
    assert ListsOneOf(c, x, {x}) && Trap(c, {x}) && OnTheWay(c, {x});
  }

  /** The turn of a renamed member that lists one host. */
  lemma RenamedTurn(s: State, net: Net, y: Node, h: Node)
    requires s.i < |s.list| && CanAsk(s) && s.list[s.i].setName.Some? && s.name == s.list[s.i].setName
    requires net.answer(s.list[s.i].node) == Works(Some(y), s.name, [h]) && y != s.list[s.i].node && Stays(h, net)
    ensures var d := s.list[s.i];
            var list, tmp := s.list[s.i := d.(node := y)], d.(node := h);
            Step(s, net) == s.(list := if tmp in list then list else list + [tmp],
                               connections := s.connections - {KeyOf(d)} + {KeyOf(tmp)},
                               checked := s.checked - {KeyOf(d)}, i := s.i + 1)
  {
    var d := s.list[s.i];
    var u := Accept(s, net.answer(d.node));
    assert [h][..0] == [] && WithHosts(u, u.list[s.i], [], net) == u;
    assert WithHosts(u, u.list[s.i], [h], net) == WithHost(u, d.(node := h), net);
    assert s.checked + {KeyOf(d)} - {KeyOf(d)} == s.checked - {KeyOf(d)};
  }

  /**
   * A server that is given twice can stop such a ring: the first one's turn takes the connection away, and the second
   * stays on the list as it is.  Here x calls itself y and lists z, and z calls itself w and lists x.
   */
  lemma TwinsCanEnd(c: Case, x: Node, y: Node, z: Node, w: Node, setName: bytes)
    requires x !in {y, z, w} && z !in {y, w}
    requires c.given == Some(setName) && c.seeds == [c.Def(x), c.Def(x)] && c.start == {KeyOf(c.Def(x))}
    requires c.net.answer(x) == Works(Some(y), Some(setName), [z]) &&
               c.net.answer(z) == Works(Some(w), Some(setName), [x])
    requires c.Alive(x) && c.Alive(z)
    ensures LoopsBack(c) && Ended(Run(c, 3))
  {
    hide Step, LoopsBack, WithHosts;
    TwinsAreRing(c, x, z);
    var s0, s1, s2 := c.Start(), Run(c, 1), Run(c, 2);
    assert Run(c, 0) == s0;
    RenamedTurn(s0, c.net, y, z);
    assert s1.list == [c.Def(y), c.Def(x), c.Def(z)] && s1.connections == {KeyOf(c.Def(z))} && s1.checked == {};
    Skipped(s1, c.net);
    assert s2 == s1.(i := 2);
    RenamedTurn(s2, c.net, w, x);
    assert Run(c, 3).list == [c.Def(y), c.Def(x), c.Def(w)];
  }

  lemma Skipped(s: State, net: Net)
    requires s.i < |s.list| && !CanAsk(s)
    ensures Step(s, net) == s.(i := s.i + 1)
  {
  }

  lemma TwinsAreRing(c: Case, x: Node, z: Node)
    requires c.Def(x) in c.seeds && KeyOf(c.Def(x)) in c.start && c.Member(x) && c.Member(z)
    requires z in c.Hosts(x) && x in c.Hosts(z) && c.Moves(x) && c.Moves(z) && c.Alive(x) && c.Alive(z)
    ensures LoopsBack(c)
  {
    hide Case.Route, Case.Reached, Case.Member, Case.Moves, Case.Alive, ListsOneOf, Case.Name, Trap;
    FirstHost(c, c.Def(x), z);
    RingOfTwo(c, x, z);
    assert OnTheWay(c, {x, z});
  }

  lemma RingOfTwo(c: Case, x: Node, z: Node)
    requires c.Member(x) && c.Member(z) && z in c.Hosts(x) && x in c.Hosts(z)
    requires c.Moves(x) && c.Moves(z) && c.Alive(x) && c.Alive(z)
    ensures Trap(c, {x, z})
  {
    hide Case.Member, Case.Moves, Case.Alive, Case.Name;
    var ring := {x, z};
    assert x in ring && z in ring;
    assert ListsOneOf(c, x, ring) && ListsOneOf(c, z, ring);
  }

  lemma SameList(s: State, tmp: ServerDef, net: Net)
    requires tmp in s.list
    ensures WithHost(s, tmp, net).list == s.list && WithHost(s, tmp, net).i == s.i
  {
  }

  lemma {:induction false} HostsListedOnce(c: Case, s: State, from: ServerDef, hosts: seq<Node>)
    requires s.i <= |s.list| && |c.seeds| <= |s.list| && from == c.Def(from.node)
    requires forall h :: h in hosts ==> h in c.nodes
    ensures var t := WithHosts(s, from, hosts, c.net);
            && t.i <= |t.list| && |c.seeds| <= |t.list|
            && |t.list| + |Unlisted(c, t.list)| <= |s.list| + |Unlisted(c, s.list)|
  {
    hide Unlisted, WithHost;
    if hosts != [] {
      var last := |hosts| - 1;
      HostsListedOnce(c, s, from, hosts[..last]);
      var before, h := WithHosts(s, from, hosts[..last], c.net), hosts[last];
      assert from.(node := h) == c.Def(h);
      if c.Def(h) in before.list {
        SameList(before, c.Def(h), c.net);
      } else {
        ListedOnce(c, before, h);
      }
    }
  }

  /** Where no listed host goes by another name, each is added at most once. */
  lemma {:induction false} AtMostNodes(c: Case, turns: nat)
    requires c.WellBehaved() && forall n :: n in c.nodes ==> !c.Moves(n)
    ensures |Run(c, turns).list| + |Unlisted(c, Run(c, turns).list)| <= |c.seeds| + |c.nodes|
  {
    hide Case.Inv, Unlisted;
    if turns == 0 {
      assert Unlisted(c, c.seeds) <= c.nodes by { UnlistedAreNodes(c, c.seeds); }
      CountLess(Unlisted(c, c.seeds), c.nodes);
    } else {
      AtMostNodes(c, turns - 1);
      RunKeeps(c, turns - 1);
      var s := Run(c, turns - 1);
      if s.i < |s.list| {
        NoMoreThanUnlisted(c, s, SeenBy(c, turns - 1));
      }
    }
  }

  lemma UnlistedAreNodes(c: Case, list: seq<ServerDef>)
    ensures Unlisted(c, list) <= c.nodes
    ensures (forall n :: n in c.nodes ==> !c.Moves(n)) ==> Unlisted(c, list) == Fresh(c, list)
  {
  }

  lemma NoMoreThanUnlisted(c: Case, s: State, seen: set<Node>)
    requires c.WellBehaved() && c.Inv(s, seen) && s.i < |s.list| && forall n :: n in c.nodes ==> !c.Moves(n)
    ensures var t := Step(s, c.net); |t.list| + |Unlisted(c, t.list)| <= |s.list| + |Unlisted(c, s.list)|
  {
    hide Unlisted, Fresh, Case.Inv, Case.Member, Case.Moves;
    var n := s.list[s.i].node;
    var a := c.net.answer(n);
    if CanAsk(s) {
      AcceptedIsMember(c, s, seen);
      var u := if c.Member(n) then Accept(s, a) else Refuse(s, a);
      assert Fresh(c, u.list) <= Fresh(c, s.list) by { AskedShrinks(c, s, seen, u); }
      UnlistedAreNodes(c, u.list);
      UnlistedAreNodes(c, s.list);
      CountLess(Fresh(c, u.list), Fresh(c, s.list));
      if c.Member(n) {
        AcceptedDef(c, s, seen);
        HostsAreNodes(c, n);
        MeasureOf(c, s, seen);
        HostsListedOnce(c, u, u.list[s.i], a.hosts);
      }
    }
  }

  lemma AskedShrinks(c: Case, s: State, seen: set<Node>, u: State)
    requires c.Inv(s, seen) && s.i < |s.list| && CanAsk(s)
    requires var a := c.net.answer(s.list[s.i].node);
             u == if c.Member(s.list[s.i].node) then Accept(s, a) else Refuse(s, a)
    ensures Fresh(c, u.list) <= Fresh(c, s.list)
  {
    hide Fresh, Case.HadTurn, Case.Waiting, Case.Seen, Case.CheckedOnce, Case.Made;
    ServerNow(c, s, seen);
    FreshShrinks(c, s, seen, u);
  }

  // --- the connections there are in the end ---

  /** Members that go by the name they are known by keep the connection they have, or get one when they are listed. */
  ghost predicate Connected(c: Case, s: State, seen: set<Node>) {
    && (forall k :: k in c.start && c.Settled(k.node) ==> k in s.connections)
    && (forall n :: n in seen && c.Settled(n) && c.Alive(n) ==> KeyOf(c.Def(n)) in s.connections)
  }

  /** After its turn such a seed has been asked; one that is no member has lost its connection, unless it is listed. */
  ghost predicate SeedsChecked(c: Case, s: State, seen: set<Node>) {
    && (forall j :: 0 <= j < s.i && j < |c.seeds| && KeyOf(c.seeds[j]) in c.start && c.Settled(c.seeds[j].node) ==>
                      KeyOf(c.seeds[j]) in s.checked)
    && (forall j :: 0 <= j < s.i && j < |c.seeds| && !c.Member(c.seeds[j].node) && c.seeds[j].node !in seen ==>
                      KeyOf(c.seeds[j]) !in s.connections)
  }

  lemma AcceptConnects(c: Case, s: State, seen: set<Node>)
    requires c.WellBehaved() && c.Inv(s, seen) && s.i < |s.list| && Connected(c, s, seen)
    requires CanAsk(s) && c.Member(s.list[s.i].node) && Accepted(c.net.answer(s.list[s.i].node), s.name)
    ensures Connected(c, Step(s, c.net), SeenAfter(c, s, seen))
    ensures s.checked <= Step(s, c.net).checked
    ensures forall k :: k in Step(s, c.net).connections ==> k in s.connections || k.node in SeenAfter(c, s, seen)
    ensures !c.Moves(s.list[s.i].node) ==> KeyOf(s.list[s.i]) in Step(s, c.net).checked
  {
    hide Case.Inv;
    ServerNow(c, s, seen);
    AcceptedDef(c, s, seen);
    var a := c.net.answer(s.list[s.i].node);
    HostsListed(c, Accept(s, a), Accept(s, a).list[s.i], a.hosts);
  }

  lemma ConnectedAtStart(c: Case)
    ensures Connected(c, c.Start(), {}) && SeedsChecked(c, c.Start(), {})
  {
  }

  /** Every turn keeps both. */
  lemma ConnectedStays(c: Case, s: State, seen: set<Node>)
    requires c.WellBehaved() && c.Inv(s, seen) && s.i < |s.list| && Connected(c, s, seen) && SeedsChecked(c, s, seen)
    ensures Connected(c, Step(s, c.net), SeenAfter(c, s, seen))
    ensures SeedsChecked(c, Step(s, c.net), SeenAfter(c, s, seen))
  {
    hide Case.Inv, WithHosts;
    ServerNow(c, s, seen);
    CheckedAtEnd(c, s, seen);
    if CanAsk(s) {
      AcceptedIsMember(c, s, seen);
      if c.Member(s.list[s.i].node) {
        AcceptConnects(c, s, seen);
        SameRest(Accept(s, c.net.answer(s.list[s.i].node)), Accept(s, c.net.answer(s.list[s.i].node)).list[s.i],
                 c.Hosts(s.list[s.i].node), c.net);
      }
    }
  }

  /** A listed host that is connected to in this turn turns out to be out of range. */
  predicate OutOfRange(s: State, from: ServerDef, h: Node, net: Net) {
    KeyOf(from.(node := h)) !in s.connections && net.connects(h) && net.recheck(h).OutOfRange?
  }

  /** No connection is made to a host that is out of range, so that nothing hides it from a later look. */
  lemma {:induction false} HostsConnected(s: State, from: ServerDef, hosts: seq<Node>, net: Net, h: Node)
    requires net.recheck(h).OutOfRange?
    ensures KeyOf(from.(node := h)) in WithHosts(s, from, hosts, net).connections <==>
              KeyOf(from.(node := h)) in s.connections
  {
    if hosts != [] {
      HostsConnected(s, from, hosts[..|hosts| - 1], net, h);
    }
  }

  lemma {:induction false} HostsSupported(s: State, from: ServerDef, hosts: seq<Node>, net: Net)
    ensures WithHosts(s, from, hosts, net).supported <==>
              s.supported && forall h :: h in hosts ==> !OutOfRange(s, from, h, net)
  {
    if hosts != [] {
      var front, h := hosts[..|hosts| - 1], hosts[|hosts| - 1];
      HostsSupported(s, from, front, net);
      if net.recheck(h).OutOfRange? {
        HostsConnected(s, from, front, net, h);
      }
      var before := WithHosts(s, from, front, net);
      assert WithHosts(s, from, hosts, net) == WithHost(before, from.(node := h), net);
      assert WithHost(before, from.(node := h), net).supported <==> before.supported && !OutOfRange(s, from, h, net);
      assert hosts == front + [h];
    }
  }

  /**
   * The server whose turn it is can be asked and is not supported, or it is a member and one of the hosts that it lists
   * is connected to for the first time and is out of range.
   */
  ghost predicate MeetsUnsupported(s: State, net: Net) {
    && s.i < |s.list| && CanAsk(s)
    && var a := net.answer(s.list[s.i].node);
       || a.Unsupported?
       || (Accepted(a, s.name) &&
           exists h :: h in a.hosts && OutOfRange(Accept(s, a), Accept(s, a).list[s.i], h, net))
  }

  /** The search fails exactly when a turn has met such a server. */
  lemma {:induction false} SupportedExactly(c: Case, turns: nat)
    ensures Run(c, turns).supported <==> forall k :: 0 <= k < turns ==> !MeetsUnsupported(Run(c, k), c.net)
  {
    hide WithHosts, Accept, OutOfRange, CanAsk;
    if turns > 0 {
      SupportedExactly(c, turns - 1);
      if !Ended(Run(c, turns - 1)) {
        OneTurnSupported(Run(c, turns - 1), c.net);
      }
    }
  }

  lemma OneTurnSupported(s: State, net: Net)
    requires s.i < |s.list|
    ensures Step(s, net).supported <==> s.supported && !MeetsUnsupported(s, net)
  {
    var a := net.answer(s.list[s.i].node);
    if CanAsk(s) && Accepted(a, s.name) {
      HostsSupported(Accept(s, a), Accept(s, a).list[s.i], a.hosts, net);
    }
  }

  /** mongo_discover_topology; 0 is returned for an unsupported server. */
  method DiscoverTopology(m: ConManager, seeds: seq<ServerDef>, given: Option<bytes>, net: Net, ghost c: Case)
    returns (servers: seq<ServerDef>, name: Option<bytes>, supported: bool, ghost seen: set<Node>, ghost turns: nat)
    requires c.net == net && c.seeds == seeds && c.given == given && c.start == m.connections && m.checked == {}
    requires c.WellBehaved() && !LoopsBack(c)
    modifies m
    ensures Run(c, turns) == State(servers, name, m.connections, m.checked, |servers|, supported)
    ensures Closed(c, servers, seen) && name == c.Name()
    ensures supported <==> forall k :: 0 <= k < turns ==> !MeetsUnsupported(Run(c, k), net)
    // the seeds keep their places and only listed hosts are added
    ensures c.SeedsKept(Run(c, turns)) && c.Added(Run(c, turns), seen)
    // members under their own names have their connections, those among the seeds have passed the check
    ensures Connected(c, Run(c, turns), seen) && SeedsChecked(c, Run(c, turns), seen)
    // a connection that passed the check belongs to a member of the set under its own name
    ensures forall k :: k in m.checked ==> k in m.connections && c.Member(k.node) && !c.Moves(k.node)
  {
    hide Case.Inv, Case.WellBehaved, Measure, Ranked, Movers, Closed, LoopsBack, Step, MeetsUnsupported,
         Connected, SeedsChecked;
    servers, name, supported, seen, turns := seeds, given, true, {}, 0;
    ghost var plan := RankOrLoop(c);
    StartsWell(c);
    var i := 0;
    ghost var s := c.Start();
    MeasureOf(c, s, seen);
    ConnectedAtStart(c);
    while i < |servers|
      invariant s == State(servers, name, m.connections, m.checked, i, supported) == Run(c, turns) &&
                  seen == SeenBy(c, turns)
      invariant i <= |servers| && |seeds| <= |servers| && m.checked <= m.connections && c.Inv(s, seen)
      invariant Connected(c, s, seen) && SeedsChecked(c, s, seen)
      decreases Measure(c, plan, s)
    {
      TurnShrinks(c, plan, s, seen);
      TurnKeeps(c, s, seen);
      ConnectedStays(c, s, seen);
      servers, name, supported := Turn(m, servers, name, i, supported, net);
      i, turns := i + 1, turns + 1;
      seen, s := SeenAfter(c, s, seen), Step(s, net);
      MeasureOf(c, s, seen);
    }
    EndIsClosed(c, s, seen);
    SupportedExactly(c, turns);
    CheckedAtEnd(c, s, seen);
  }

  lemma MeasureOf(c: Case, s: State, seen: set<Node>)
    requires c.Inv(s, seen)
    ensures s.i <= |s.list| && |c.seeds| <= |s.list| && s.checked <= s.connections
  {
  }

  lemma CheckedAtEnd(c: Case, s: State, seen: set<Node>)
    requires c.Inv(s, seen)
    ensures c.SeedsKept(s) && c.Added(s, seen)
    ensures forall k :: k in s.checked ==> k in s.connections && c.Member(k.node) && !c.Moves(k.node)
  {
  }
}
