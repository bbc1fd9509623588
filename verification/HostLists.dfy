/** mcon/parse.c and mongoclient.c: the host list of a connection string, and its printed form. */
module HostLists {
  import opened Bytes
  import opened CStrings
  import opened Identities

  datatype Address = Address(host: bytes, port: int)

  const DEFAULT_PORT := 27017
  const QUESTION: byte := 63

  // --- printing ---

  /** stringify_server */
  function Text(a: Address): bytes {
    a.host + [COLON] + Dec(a.port)
  }

  function Printed(list: seq<Address>): bytes {
    if list == [] then []
    else
      var last := |list| - 1;
      Printed(list[..last]) + (if last > 0 then [COMMA] else []) + Text(list[last])
  }

  /** MongoClient::__toString */
  method ToString(servers: seq<Address>) returns (str: bytes)
    ensures str == Printed(servers)
  {
    str := [];
    for i := 0 to |servers|
      invariant str == Printed(servers[..i])
    {
      assert servers[..i + 1][..i] == servers[..i];
      if i > 0 {
        str := str + [COMMA];
      }
      str := str + servers[i].host;
      str := str + [COLON];
      str := str + Dec(servers[i].port);
      Appended(Printed(servers[..i]) + (if i > 0 then [COMMA] else []), servers[i]);
    }
    assert servers[..|servers|] == servers;
  }

  lemma Appended(s: bytes, a: Address)
    ensures s + a.host + [COLON] + Dec(a.port) == s + Text(a)
  {
  }

  // --- parsing ---

  /** One entry of the list: the last colon separates the port. */
  function AddressOf(piece: bytes): Address {
    var colon := LastIndexOf(piece, COLON);
    if colon == -1 then Address(piece, DEFAULT_PORT) else Address(piece[..colon], Atoi(piece[colon + 1..]))
  }

  /** The entries between commas. */
  function AddressesOf(hosts: bytes): (list: seq<Address>)
    ensures list != []
    decreases |hosts|
  {
    var comma := IndexOf(hosts, COMMA);
    if comma == |hosts| then [AddressOf(hosts)]
    else [AddressOf(hosts[..comma])] + AddressesOf(hosts[comma + 1..])
  }

  /** Where the host list starts: behind the scheme and behind the credentials, if there are any. */
  function HostStart(spec: bytes): (i: nat)
    ensures i <= |spec|
  {
    if Ascii("mongodb://") <= spec then
      var rest := spec[10..];
      var at, colon := IndexOf(rest, AT), IndexOf(rest, COLON);
      if at < |rest| && colon < |rest| && colon < at then 10 + at + 1 else 10
    else 0
  }

  /** A path of a Unix domain socket: its last component may be the database. */
  function SocketOf(path: bytes): Address
    requires path != [] && path[0] == SLASH
  {
    var slash := LastIndexOf(path, SLASH);
    Address(if slash >= 0 && DOT !in path[slash..] then path[..slash] else path, 0)
  }

  /** The servers that mongo_parse_server_spec finds. */
  function ServersOf(spec: bytes): seq<Address> {
    var rest := spec[HostStart(spec)..];
    if rest != [] && rest[0] == SLASH then [SocketOf(rest)]
    else AddressesOf(rest[..IndexOf(rest, SLASH)])
  }

  /** User name and password in front of the hosts. */
  function LoginOf(spec: bytes): Option<(bytes, bytes)> {
    if Ascii("mongodb://") <= spec then
      var rest := spec[10..];
      var at, colon := IndexOf(rest, AT), IndexOf(rest, COLON);
      if at < |rest| && colon < |rest| && colon < at then Some((rest[..colon], rest[colon + 1..at])) else None
    else None
  }

  /** What follows the hosts, from the slash on. */
  function PathOf(spec: bytes): (path: bytes)
    ensures path == [] || path[0] == SLASH
  {
    var rest := spec[HostStart(spec)..];
    if rest != [] && rest[0] == SLASH then rest[|SocketOf(rest).host|..] else rest[IndexOf(rest, SLASH)..]
  }

  /** The name between the slash and the options; "admin" for a login without one. */
  function DatabaseOf(spec: bytes): Option<bytes> {
    var path := PathOf(spec);
    var name := if path == [] then [] else path[1..IndexOf(path, QUESTION)];
    if name != [] then Some(name) else if LoginOf(spec).Some? then Some(Ascii("admin")) else None
  }

  predicate EndsNumber(c: byte) {
    c == COMMA || c == SLASH
  }

  /** atoi reads on past the entry, but stops at the comma or slash behind it. */
  lemma {:induction false} AtoiStops(a: bytes, c: byte, rest: bytes)
    requires EndsNumber(c)
    ensures Atoi(a + [c] + rest) == Atoi(a)
  {
    var s := a + [c] + rest;
    if a == [] {
      assert s[0] == c;
      UnsignedStops([], c, rest);
    } else {
      assert s[1..] == a[1..] + [c] + rest && s[0] == a[0];
      if IsSpace(a[0]) {
        AtoiStops(a[1..], c, rest);
      } else {
        UnsignedStops(a, c, rest);
        UnsignedStops(a[1..], c, rest);
      }
    }
  }

  lemma UnsignedStops(a: bytes, c: byte, rest: bytes)
    requires EndsNumber(c)
    ensures Unsigned(a + [c] + rest) == Unsigned(a)
  {
    hide DigitRun;
    var s := a + [c] + rest;
    var n := DigitRun(a);
    assert s[..n] == a[..n];
    assert n < |a| ==> s[n] == a[n];
    assert n == |a| ==> s[n] == c;
    DigitRunUnique(s, n);
  }

  /** mongo_add_parsed_server_addr */
  method AddParsedServer(servers: seq<Address>, spec: bytes, hostStart: nat, hostEnd: nat, portStart: Option<nat>)
    returns (servers': seq<Address>)
    requires hostStart <= hostEnd <= |spec| && (portStart.Some? ==> portStart.value <= |spec|)
    ensures servers' == servers + [Address(spec[hostStart..hostEnd],
                                           if portStart.Some? then Atoi(spec[portStart.value..]) else DEFAULT_PORT)]
  {
    var port := DEFAULT_PORT;
    if portStart.Some? {
      port := Atoi(spec[portStart.value..]);
    }
    return servers + [Address(spec[hostStart..hostEnd], port)];
  }

  /** What the pointers of the loop say about the entry from hostStart up to pos. */
  ghost predicate InEntry(spec: bytes, hostStart: nat, pos: nat, hostEnd: Option<nat>, portStart: Option<nat>) {
    && hostStart <= pos <= |spec|
    && (forall k :: hostStart <= k < pos ==> spec[k] != COMMA)
    && (forall k :: 0 <= k < pos ==> spec[k] != SLASH)
    && (match hostEnd
        case None => portStart.None? && forall k :: hostStart <= k < pos ==> spec[k] != COLON
        case Some(e) =>
          && portStart == Some(e + 1) && hostStart <= e < pos && spec[e] == COLON
          && forall k :: e < k < pos ==> spec[k] != COLON)
  }

  /** The entry is complete at a comma, at the slash, or at the end: it is what AddressOf says. */
  lemma EntryEnds(spec: bytes, hostStart: nat, pos: nat, hostEnd: Option<nat>, portStart: Option<nat>)
    requires InEntry(spec, hostStart, pos, hostEnd, portStart) && (pos < |spec| ==> EndsNumber(spec[pos]))
    ensures AddressOf(spec[hostStart..pos]) ==
            Address(spec[hostStart..if hostEnd.Some? then hostEnd.value else pos],
                    if portStart.Some? then Atoi(spec[portStart.value..]) else DEFAULT_PORT)
  {
    hide LastIndexOf, Atoi, EndsNumber;
    var piece := spec[hostStart..pos];
    if hostEnd.Some? {
      var e := hostEnd.value;
      assert piece[e - hostStart] == COLON && forall k :: e - hostStart < k < |piece| ==> piece[k] != COLON;
      assert LastIndexOf(piece, COLON) == e - hostStart;
      assert piece[e - hostStart + 1..] == spec[e + 1..pos] && piece[..e - hostStart] == spec[hostStart..e];
      if pos < |spec| {
        assert spec[e + 1..] == spec[e + 1..pos] + [spec[pos]] + spec[pos + 1..];
        AtoiStops(spec[e + 1..pos], spec[pos], spec[pos + 1..]);
      } else {
        assert spec[e + 1..] == spec[e + 1..pos];
      }
    } else {
      assert LastIndexOf(piece, COLON) == -1;
    }
  }

  /** The scan for TCP hosts: entries up to the first slash or the end. */
  method ScanHosts(spec: bytes) returns (servers: seq<Address>, pos: nat)
    requires spec != [] && spec[0] != SLASH
    ensures servers == AddressesOf(spec[..IndexOf(spec, SLASH)]) && pos == IndexOf(spec, SLASH)
  {
    hide IndexOf, LastIndexOf, Atoi, AddressOf, AddressesOf;
    servers, pos := [], 0;
    var hostStart := 0;
    var hostEnd: Option<nat>, portStart: Option<nat> := None, None;
    ghost var hosts := spec[..IndexOf(spec, SLASH)];
    assert hosts[0..] == hosts;
    while pos < |spec|
      invariant hostStart <= pos <= |hosts|
      invariant InEntry(spec, hostStart, pos, hostEnd, portStart)
      invariant servers + AddressesOf(hosts[hostStart..]) == AddressesOf(hosts)
    {
      if spec[pos] == SLASH {
        break;
      }
      BeforeSlash(spec, pos);
      if spec[pos] == COLON {
        hostEnd, portStart := Some(pos), Some(pos + 1);
      }
      if spec[pos] == COMMA {
        var end := if hostEnd.Some? then hostEnd.value else pos;
        EntryEnds(spec, hostStart, pos, hostEnd, portStart);
        FirstEntry(spec, hosts, hostStart, pos);
        servers := AddParsedServer(servers, spec, hostStart, end, portStart);
        hostStart, hostEnd, portStart := pos + 1, None, None;
      }
      pos := pos + 1;
    }
    EntryEnds(spec, hostStart, pos, hostEnd, portStart);
    LastEntry(spec, hosts, hostStart, pos);
    AtSlash(spec, pos);
    servers := AddParsedServer(servers, spec, hostStart, if hostEnd.Some? then hostEnd.value else pos, portStart);
  }

  /** A character that is not a slash, with none before it, comes before the first slash. */
  lemma BeforeSlash(spec: bytes, pos: nat)
    requires pos < |spec| && pos <= IndexOf(spec, SLASH) && spec[pos] != SLASH
    ensures pos < IndexOf(spec, SLASH)
  {
  }

  lemma AtSlash(spec: bytes, pos: nat)
    requires pos <= IndexOf(spec, SLASH) && (pos < |spec| ==> spec[pos] == SLASH)
    ensures pos == IndexOf(spec, SLASH)
  {
    hide IndexOf;
  }

  lemma FirstEntry(spec: bytes, hosts: bytes, hostStart: nat, pos: nat)
    requires hostStart <= pos < |hosts| && hosts <= spec && spec[pos] == COMMA
    requires forall k :: hostStart <= k < pos ==> spec[k] != COMMA
    ensures AddressesOf(hosts[hostStart..]) == [AddressOf(spec[hostStart..pos])] + AddressesOf(hosts[pos + 1..])
  {
    hide IndexOf, AddressOf;
    var s := hosts[hostStart..];
    assert s[..pos - hostStart] == spec[hostStart..pos] && s[pos - hostStart + 1..] == hosts[pos + 1..];
    IndexOfUnique(s, COMMA, pos - hostStart);
  }

  lemma LastEntry(spec: bytes, hosts: bytes, hostStart: nat, pos: nat)
    requires hosts == spec[..IndexOf(spec, SLASH)] && hostStart <= pos <= |hosts| &&
               (pos < |spec| ==> spec[pos] == SLASH)
    requires forall k :: hostStart <= k < pos ==> spec[k] != COMMA
    ensures AddressesOf(hosts[hostStart..]) == [AddressOf(spec[hostStart..pos])]
  {
    hide IndexOf, AddressOf;
    var s := hosts[hostStart..];
    assert s == spec[hostStart..pos];
    IndexOfUnique(s, COMMA, |s|);
  }

  /** What is found in a connection string. */
  datatype Found = Found(servers: seq<Address>, login: Option<(bytes, bytes)>, db: Option<bytes>)

  /** The database name behind the hosts, and its default. */
  method ParseDatabase(path: bytes, login: bool) returns (db: Option<bytes>)
    requires path == [] || path[0] == SLASH
    ensures var name := if path == [] then [] else path[1..IndexOf(path, QUESTION)];
            db == if name != [] then Some(name) else if login then Some(Ascii("admin")) else None
  {
    db := None;
    if path != [] {
      var question := StrChr(path, 0, QUESTION);
      assert path[0..] == path;
      if question != 1 {
        db := Some(path[1..question]);
      }
    }
    if db.None? && login {
      db := Some(Ascii("admin"));
    }
  }

  lemma SliceOfRest(s: bytes, from: nat, i: nat, j: nat)
    requires from <= i <= j <= |s|
    ensures s[from..][i - from..j - from] == s[i..j]
  {
  }

  /** The scheme and the credentials. */
  method ParseLogin(spec: bytes) returns (login: Option<(bytes, bytes)>, pos: nat)
    ensures login == LoginOf(spec) && pos == HostStart(spec)
  {
    hide IndexOf;
    login, pos := None, 0;
    if Ascii("mongodb://") <= spec {
      pos := 10;
      var at := StrChr(spec, pos, AT);
      var colon := StrChr(spec, pos, COLON);
      if at < |spec| && colon < |spec| && at > colon {
        SliceOfRest(spec, 10, 10, colon);
        SliceOfRest(spec, 10, colon + 1, at);
        login := Some((spec[pos..colon], spec[colon + 1..at]));
        pos := at + 1;
      }
    }
  }

  /** mongo_parse_server_spec, without the options. */
  method ParseServerSpec(spec: bytes) returns (found: Found)
    requires HostStart(spec) < |spec|
    ensures found == Found(ServersOf(spec), LoginOf(spec), DatabaseOf(spec))
  {
    hide IndexOf, LastIndexOf, AddressesOf, LoginOf, HostStart;
    var login, pos := ParseLogin(spec);
    var rest := spec[pos..];
    var servers;
    if rest[0] != SLASH {
      servers, pos := ScanHosts(rest);
    } else {
      servers := [SocketOf(rest)];
      pos := |servers[0].host|;
    }
    var db := ParseDatabase(rest[pos..], login.Some?);
    return Found(servers, login, db);
  }

  // --- printing and parsing undo each other ---

  predicate Plain(a: Address) {
    COMMA !in a.host && SLASH !in a.host
  }

  lemma TextIsRead(a: Address)
    ensures AddressOf(Text(a)) == a
    ensures Plain(a) ==> COMMA !in Text(a) && SLASH !in Text(a)
  {
    hide LastIndexOf, Atoi, Dec;
    DecIsPlain(a.port, COLON);
    DecIsPlain(a.port, COMMA);
    DecIsPlain(a.port, SLASH);
    LastIndexUnique(a.host, COLON, Dec(a.port));
    AtoiOfDec(a.port, []);
    assert Text(a)[|a.host| + 1..] == Dec(a.port) + [] && Text(a)[..|a.host|] == a.host;
  }

  lemma {:induction false} PrintedFromFront(list: seq<Address>)
    requires list != []
    ensures Printed(list) == Text(list[0]) + if |list| == 1 then [] else [COMMA] + Printed(list[1..])
  {
    hide Text;
    var last := |list| - 1;
    if last > 0 {
      PrintedFromFront(list[..last]);
      assert list[..last][1..] == list[1..][..last - 1];
      if last == 1 {
        assert list[1..] == [list[1]] && list[1..][..0] == [];
      }
    } else {
      assert list[..0] == [];
    }
  }

  lemma {:induction false} PlainListIsRead(list: seq<Address>)
    requires list != [] && forall a :: a in list ==> Plain(a)
    ensures AddressesOf(Printed(list)) == list && SLASH !in Printed(list)
  {
    hide IndexOf, LastIndexOf, Text, AddressOf, Printed, Plain;
    var a := list[0];
    PrintedFromFront(list);
    TextIsRead(a);
    if |list| == 1 {
      IndexOfUnique(Text(a), COMMA, |Text(a)|);
      assert Text(a) + [] == Text(a) && Text(a)[..|Text(a)|] == Text(a);
    } else {
      var rest := Printed(list[1..]);
      PlainListIsRead(list[1..]);
      assert Text(a) + ([COMMA] + rest) == Text(a) + [COMMA] + rest;
      UpTo(Text(a), COMMA, rest);
    }
  }

  /** What comes out of the scan for TCP hosts is plain. */
  lemma {:induction false} ScannedIsPlain(hosts: bytes)
    requires SLASH !in hosts
    ensures forall a :: a in AddressesOf(hosts) ==> Plain(a)
    decreases |hosts|
  {
    hide IndexOf, LastIndexOf, Atoi;
    var comma := IndexOf(hosts, COMMA);
    BeforeFirst(hosts, COMMA, 0, comma);
    PieceIsPlain(hosts[..comma]);
    if comma == |hosts| {
      assert hosts[..comma] == hosts;
    } else {
      ScannedIsPlain(hosts[comma + 1..]);
    }
  }

  lemma PieceIsPlain(piece: bytes)
    requires COMMA !in piece && SLASH !in piece
    ensures Plain(AddressOf(piece))
  {
    hide LastIndexOf, Atoi;
  }

  lemma SchemeStarts(spec: bytes)
    ensures HostStart(spec) > 0 ==> spec[0] == 109
  {
    hide IndexOf;
    assert Ascii("mongodb://")[0] == 109;
  }

  /** The path found from `start` on is not the text in front of a colon at the front. */
  lemma SocketHostDiffers(spec: bytes, start: nat, r: bytes)
    requires r <= spec && |r| < |spec| && spec[|r|] == COLON
    requires start < |spec| && spec[start] == SLASH && (start > 0 ==> spec[0] != SLASH && spec[0] != COLON)
    ensures SocketOf(spec[start..]).host != r
  {
    hide LastIndexOf;
    var rest := spec[start..];
    var slash := LastIndexOf(rest, SLASH);
    var h := SocketOf(rest).host;
    if start == 0 {
      assert rest == spec;
      assert slash >= 0 ==> rest[slash] == SLASH;
    } else if h != [] {
      assert h[0] == SLASH;
    }
  }

  /** A printed socket path is read as something else. */
  lemma SocketIsLost(list: seq<Address>)
    requires var spec := Printed(list); spec[HostStart(spec)..] != [] && spec[HostStart(spec)..][0] == SLASH
    ensures ServersOf(Printed(list)) != list
  {
    hide LastIndexOf, IndexOf, Dec, SocketOf, HostStart, Printed;
    var spec := Printed(list);
    if |list| == 1 {
      PrintedFromFront(list);
      assert spec == Text(list[0]);
      SchemeStarts(spec);
      SocketHostDiffers(spec, HostStart(spec), list[0].host);
    }
  }

  /**
   * Parsing what __toString printed gives the same servers, exactly when no host contains a comma or a slash.
   */
  lemma PrintedIsParsedBack(list: seq<Address>)
    requires list != []
    ensures ServersOf(Printed(list)) == list <==> forall a :: a in list ==> Plain(a)
  {
    hide IndexOf, LastIndexOf, Atoi, AddressesOf, SocketOf, Printed;
    var spec := Printed(list);
    var rest := spec[HostStart(spec)..];
    if rest != [] && rest[0] == SLASH {
      SocketIsLost(list);
    } else {
      BeforeFirst(rest, SLASH, 0, IndexOf(rest, SLASH));
      ScannedIsPlain(rest[..IndexOf(rest, SLASH)]);
    }
    if forall a :: a in list ==> Plain(a) {
      PlainListIsRead(list);
      assert Ascii("mongodb://")[8] == SLASH;
      assert HostStart(spec) == 0 && rest == spec;
      IndexOfUnique(spec, SLASH, |spec|);
      assert rest[..|spec|] == spec;
    }
  }

  // --- whole connection strings ---

  const SCHEME: bytes := Ascii("mongodb://")

  lemma CredentialsAre(user: bytes, password: bytes, rest: bytes)
    requires COLON !in user && AT !in user && AT !in password
    ensures var spec := SCHEME + user + [COLON] + password + [AT] + rest;
            && HostStart(spec) == 10 + |user| + 1 + |password| + 1 && spec[HostStart(spec)..] == rest
            && LoginOf(spec) == Some((user, password))
  {
    hide IndexOf;
    var spec := SCHEME + user + [COLON] + password + [AT] + rest;
    var tail := spec[10..];
    assert tail == user + [COLON] + (password + [AT] + rest);
    assert tail == (user + [COLON] + password) + [AT] + rest;
    UpTo(user, COLON, password + [AT] + rest);
    UpTo(user + [COLON] + password, AT, rest);
    assert tail[|user| + 1..|user| + 1 + |password|] == password;
    assert spec[10 + |user| + 1 + |password| + 1..] == rest;
  }

  /** The parts of a host list that follow the credentials or nothing. */
  lemma HostsAndDatabase(list: seq<Address>, path: bytes)
    requires list != [] && (forall a :: a in list ==> Plain(a)) && (path == [] || path[0] == SLASH)
    ensures var rest := Printed(list) + path;
            && IndexOf(rest, SLASH) == |Printed(list)| && rest[|Printed(list)|..] == path
            && AddressesOf(rest[..IndexOf(rest, SLASH)]) == list
  {
    hide IndexOf, Printed, AddressesOf, Plain;
    PlainListIsRead(list);
    var rest := Printed(list) + path;
    assert rest[..|Printed(list)|] == Printed(list);
    IndexOfUnique(rest, SLASH, |Printed(list)|);
  }

  lemma PrintedStarts(list: seq<Address>, path: bytes)
    requires list != [] && forall a :: a in list ==> Plain(a)
    ensures Printed(list) != [] && (Printed(list) + path)[0] != SLASH
  {
    hide IndexOf, AddressesOf, Plain, Printed;
    PlainListIsRead(list);
    PrintedFromFront(list);
    assert Printed(list)[0] in Printed(list);
  }

  lemma DatabaseIs(path: bytes, db: bytes, options: bytes)
    requires QUESTION !in db && (options == [] || options[0] == QUESTION) && path == [SLASH] + db + options
    ensures IndexOf(path, QUESTION) == 1 + |db| && path[1..1 + |db|] == db
  {
    hide IndexOf;
    assert path[..1 + |db|] == [SLASH] + db;
    IndexOfUnique(path, QUESTION, 1 + |db|);
  }

  /**
   * A connection string with a login is taken apart into what it was put together from.  The database is "admin" where
   * none is named.
   */
  lemma UriIsTakenApart(user: bytes, password: bytes, list: seq<Address>, db: bytes, options: bytes)
    requires COLON !in user && AT !in user && AT !in password
    requires list != [] && forall a :: a in list ==> Plain(a)
    requires QUESTION !in db && (options == [] || options[0] == QUESTION)
    ensures var spec := SCHEME + user + [COLON] + password + [AT] + (Printed(list) + ([SLASH] + db + options));
            && ServersOf(spec) == list && LoginOf(spec) == Some((user, password))
            && DatabaseOf(spec) == Some(if db == [] then Ascii("admin") else db)
  {
    hide IndexOf, Printed, AddressesOf, Plain, LoginOf, HostStart;
    var path := [SLASH] + db + options;
    CredentialsAre(user, password, Printed(list) + path);
    HostsAndDatabase(list, path);
    PrintedStarts(list, path);
    DatabaseIs(path, db, options);
  }

  /** Without a scheme there is no login, and a host alone is asked at port 27017. */
  lemma HostAlone(host: bytes)
    requires COLON !in host && COMMA !in host && SLASH !in host
    ensures ServersOf(host) == [Address(host, 27017)] && LoginOf(host) == None && DatabaseOf(host) == None
  {
    hide IndexOf, LastIndexOf;
    assert Ascii("mongodb://")[7] == COLON;
    assert host[0..] == host && host[..|host|] == host;
    IndexOfUnique(host, SLASH, |host|);
    IndexOfUnique(host, COMMA, |host|);
  }

  lemma DotInName(path: bytes, name: bytes)
    requires SLASH !in name && DOT in name && (path == [] || path[0] == SLASH)
    ensures SocketOf(path + [SLASH] + name) == Address(path + [SLASH] + name, 0)
  {
    hide LastIndexOf;
    var spec := path + [SLASH] + name;
    LastIndexUnique(path, SLASH, name);
    var k: nat :| k < |name| && name[k] == DOT;
    assert spec[|path|..][1 + k] == DOT;
  }

  lemma NoDotInName(path: bytes, db: bytes)
    requires SLASH !in db && DOT !in db && path != [] && path[0] == SLASH
    ensures SocketOf(path + [SLASH] + db) == Address(path, 0)
  {
    hide LastIndexOf;
    var spec := path + [SLASH] + db;
    LastIndexUnique(path, SLASH, db);
    assert spec[|path|..] == [SLASH] + db && spec[..|path|] == path;
  }

  /** A socket whose name has a dot: as it stands, and with a database behind it. */
  lemma SocketIsTakenApart(path: bytes, name: bytes, db: bytes)
    requires SLASH !in name && DOT in name && (path == [] || path[0] == SLASH)
    requires SLASH !in db && DOT !in db && QUESTION !in db
    ensures var spec := path + [SLASH] + name;
            && ServersOf(spec) == [Address(spec, 0)] && DatabaseOf(spec) == None
            && ServersOf(spec + [SLASH] + db) == [Address(spec, 0)]
            && DatabaseOf(spec + [SLASH] + db) == if db == [] then None else Some(db)
  {
    hide LastIndexOf, IndexOf, SocketOf, LoginOf, HostStart, AddressesOf;
    var spec := path + [SLASH] + name;
    NoScheme(spec);
    DotInName(path, name);
    var longer := spec + [SLASH] + db;
    NoScheme(longer);
    NoDotInName(spec, db);
    assert longer[|spec|..] == [SLASH] + db == [SLASH] + db + [];
    DatabaseIs(longer[|spec|..], db, []);
  }

  lemma NoScheme(spec: bytes)
    requires spec != [] && spec[0] == SLASH
    ensures HostStart(spec) == 0 && LoginOf(spec) == None && spec[0..] == spec
  {
    hide IndexOf;
    assert Ascii("mongodb://")[0] == 109;
  }
}
