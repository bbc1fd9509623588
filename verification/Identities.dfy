/** mcon/utils.c, mcon/parse.c and mongoclient.c: the printed forms of servers and connections, and their readers. */
module Identities {
  import opened Bytes
  import opened CStrings

  const COLON: byte := 58
  const SEMICOLON: byte := 59
  const COMMA: byte := 44
  const SLASH: byte := 47
  const DOT: byte := 46
  const DASH: byte := 45
  const AT: byte := 64

  // --- connection hashes ---

  /** mongo_server_def, as far as the hash prints it; the password only shows as its digest. */
  datatype Login = Login(db: bytes, username: bytes, digest: bytes)

  datatype Parts = Parts(host: bytes, port: int, setName: Option<bytes>, login: Option<Login>, pid: int)

  function SetText(setName: Option<bytes>): bytes {
    if setName.Some? then setName.value else [DASH]
  }

  function LoginText(login: Option<Login>): bytes {
    if login.Some? then login.value.db + [SLASH] + login.value.username + [SLASH] + login.value.digest else [DOT]
  }

  /** HOST:PORT;SET;LOGIN;PID */
  function HashOf(p: Parts): bytes {
    p.host + [COLON] + (Dec(p.port) + [SEMICOLON] +
                        (SetText(p.setName) + [SEMICOLON] + (LoginText(p.login) + [SEMICOLON] + Dec(p.pid))))
  }

  /** The room that mongo_server_create_hash allocates. */
  function Allocated(p: Parts): nat {
    |p.host| + 1 + 5 + 1
    + (if p.setName.Some? then |p.setName.value| + 1 else 2)
    + (if p.login.Some? then |p.login.value.db| + 1 + |p.login.value.username| + 1 + |p.login.value.digest| + 1 else 2)
    + 10 + 1
  }

  /** sprintf(tmp + strlen(tmp), ...) */
  method Print(tmp: array<byte>, end: nat, s: bytes) returns (end': nat)
    requires end + |s| < tmp.Length
    modifies tmp
    ensures end' == end + |s| && tmp[..end'] == old(tmp[..end]) + s && tmp[end'] == 0
  {
    forall i | 0 <= i < |s| {
      tmp[end + i] := s[i];
    }
    end' := end + |s|;
    tmp[end'] := 0;
  }

  /** The hash fits its room exactly when port and process id together have no more than 15 characters. */
  lemma FitsExactly(p: Parts)
    ensures |HashOf(p)| + 1 <= Allocated(p) <==> |Dec(p.port)| + |Dec(p.pid)| <= 15
  {
    hide Dec;
  }

  lemma {:induction false} DigitsAreShort(n: nat, bounds: seq<nat>, k: nat)
    requires 0 < k <= |bounds| && n < bounds[k - 1]
    requires bounds[0] == 10 && forall i :: 0 < i < |bounds| ==> bounds[i] == 10 * bounds[i - 1]
    ensures |Digits(n)| <= k
  {
    if k > 1 && n >= 10 {
      DigitsAreShort(n / 10, bounds, k - 1);
    }
  }

  /** Ports of TCP and process ids of any kind do. */
  lemma TcpPortsFit(p: Parts)
    requires 0 <= p.port < 100_000 && 0 <= p.pid <= INT_MAX
    ensures |HashOf(p)| + 1 <= Allocated(p)
  {
    hide Dec, HashOf, Allocated;
    var bounds := [10, 100, 1000, 10_000, 100_000, 1_000_000, 10_000_000, 100_000_000, 1_000_000_000, 10_000_000_000];
    DigitsAreShort(p.port, bounds, 5);
    DigitsAreShort(p.pid, bounds, 10);
    assert |Dec(p.port)| <= 5 && |Dec(p.pid)| <= 10 by { DecOfNat(p.port); DecOfNat(p.pid); }
    FitsExactly(p);
  }

  lemma DecOfNat(n: nat)
    ensures Dec(n) == Digits(n)
  {
  }

  /** A number that atoi accepts in a connection string need not: this port has ten digits. */
  lemma LongPortDoesNotFit(p: Parts)
    requires p.port == 2147483647 && p.pid == 123456
    ensures |HashOf(p)| + 1 > Allocated(p)
  {
    hide Dec, HashOf, Allocated;
    DecOfNat(p.port);
    DecOfNat(p.pid);
    SixteenDigits();
    FitsExactly(p);
  }

  lemma SixteenDigits()
    ensures |Digits(2147483647)| == 10 && |Digits(123456)| == 6
  {
    assert |Digits(21474)| == 5 && |Digits(1234)| == 4;
    assert |Digits(2147483)| == 7;
  }

  /** mongo_server_create_hash, where the hash fits; FitsExactly says when. */
  method CreateHash(p: Parts) returns (hash: bytes)
    requires |Dec(p.port)| + |Dec(p.pid)| <= 15
    ensures hash == HashOf(p) && |hash| + 1 <= Allocated(p)
  {
    hide Dec, HashOf;
    FitsExactly(p);
    var tmp := new byte[Allocated(p)];
    var end := Print(tmp, 0, p.host + [COLON] + Dec(p.port) + [SEMICOLON]);
    if p.setName.Some? {
      end := Print(tmp, end, p.setName.value + [SEMICOLON]);
    } else {
      end := Print(tmp, end, [DASH] + [SEMICOLON]);
    }
    if p.login.Some? {
      var l := p.login.value;
      end := Print(tmp, end, l.db + [SLASH] + l.username + [SLASH] + l.digest + [SEMICOLON]);
    } else {
      end := Print(tmp, end, [DOT] + [SEMICOLON]);
    }
    end := Print(tmp, end, Dec(p.pid));
    HashIsJoined(p);
    return tmp[..end];
  }

  lemma HashIsJoined(p: Parts)
    ensures [] + (p.host + [COLON] + Dec(p.port) + [SEMICOLON]) + (SetText(p.setName) + [SEMICOLON])
            + (LoginText(p.login) + [SEMICOLON]) + Dec(p.pid) == HashOf(p)
  {
    hide Dec, SetText, LoginText;
    Rejoin(p.host + [COLON], Dec(p.port) + [SEMICOLON], SetText(p.setName) + [SEMICOLON],
           LoginText(p.login) + [SEMICOLON], Dec(p.pid));
    assert [] + (p.host + [COLON] + Dec(p.port) + [SEMICOLON]) == p.host + [COLON] + (Dec(p.port) + [SEMICOLON]);
  }

  lemma Rejoin(a: bytes, b: bytes, c: bytes, d: bytes, e: bytes)
    ensures a + b + c + d + e == a + (b + (c + (d + e)))
  {
  }

  /** What is read of the part after the set name; None where a missing separator is dereferenced. */
  function LoginOf(p: bytes): Option<(Option<Login>, int)> {
    var end := IndexOf(p, SEMICOLON);
    if end == |p| then None
    else if p[0] == DOT then Some((None, Atoi(p[end + 1..])))
    else
      var slash := IndexOf(p, SLASH);
      if slash == |p| then None
      else
        var second := slash + 1 + IndexOf(p[slash + 1..], SLASH);
        if second == |p| || end < second + 1 then None
        else Some((Some(Login(p[..slash], p[slash + 1..second], p[second + 1..end])), Atoi(p[end + 1..])))
  }

  /** What is read behind the port: set name, login and process id. */
  function SetOf(text: bytes): Option<(Option<bytes>, Option<Login>, int)> {
    var end := IndexOf(text, SEMICOLON);
    if end == |text| then None
    else
      var login := LoginOf(text[end + 1..]);
      if login.None? then None
      else Some((if text[0] == DASH then None else Some(text[..end]), login.value.0, login.value.1))
  }

  /** What is read behind the host. */
  function PartsAfter(host: bytes, text: bytes): Option<Parts> {
    var semicolon := IndexOf(text, SEMICOLON);
    if semicolon == |text| then None
    else
      var rest := SetOf(text[semicolon + 1..]);
      if rest.None? then None else Some(Parts(host, Atoi(text), rest.value.0, rest.value.1, rest.value.2))
  }

  /** mongo_server_split_hash on the whole */
  function Split(hash: bytes): Option<Parts> {
    var colon := IndexOf(hash, COLON);
    if colon == |hash| then None else PartsAfter(hash[..colon], hash[colon + 1..])
  }

  /** The pointers of mongo_server_split_hash for the login and the process id. */
  method SplitLogin(hash: bytes, from: nat) returns (r: Option<(Option<Login>, int)>)
    requires from <= |hash|
    ensures r == LoginOf(hash[from..])
  {
    hide IndexOf, Atoi;
    ghost var p := hash[from..];
    var pidSemi := StrChr(hash, from, SEMICOLON);
    if pidSemi == |hash| {
      return None;
    }
    Suffix(hash, from, pidSemi + 1);
    if hash[from] == DOT {
      return Some((None, Atoi(hash[pidSemi + 1..])));
    }
    var slash := StrChr(hash, from, SLASH);
    if slash == |hash| {
      return None;
    }
    Suffix(hash, from, slash + 1);
    var second := StrChr(hash, slash + 1, SLASH);
    if second == |hash| || pidSemi < second + 1 {
      return None;
    }
    Slices(hash, from, slash, slash + 1, second);
    Slices(hash, from, slash, second + 1, pidSemi);
    return Some((Some(Login(hash[from..slash], hash[slash + 1..second], hash[second + 1..pidSemi])),
                 Atoi(hash[pidSemi + 1..])));
  }

  lemma Suffix(s: bytes, from: nat, i: nat)
    requires from <= i <= |s|
    ensures s[from..][i - from..] == s[i..]
  {
  }

  lemma Slices(s: bytes, from: nat, a: nat, b: nat, c: nat)
    requires from <= a <= |s| && from <= b <= c <= |s|
    ensures s[from..][..a - from] == s[from..a] && s[from..][b - from..c - from] == s[b..c]
  {
  }

  /** The pointers for the set name and what follows it. */
  method SplitSet(hash: bytes, from: nat) returns (r: Option<(Option<bytes>, Option<Login>, int)>)
    requires from <= |hash|
    ensures r == SetOf(hash[from..])
  {
    hide IndexOf, Atoi, LoginOf;
    var end := StrChr(hash, from, SEMICOLON);
    if end == |hash| {
      return None;
    }
    Suffix(hash, from, end + 1);
    Slices(hash, from, end, end, end);
    var setName := if hash[from] == DASH then None else Some(hash[from..end]);
    var login := SplitLogin(hash, end + 1);
    return if login.None? then None else Some((setName, login.value.0, login.value.1));
  }

  /** mongo_server_split_hash */
  method SplitHash(hash: bytes) returns (r: Option<Parts>)
    ensures r == Split(hash)
  {
    hide IndexOf, Atoi, SetOf;
    assert hash[0..] == hash;
    var colon := StrChr(hash, 0, COLON);
    if colon == |hash| {
      return None;
    }
    var host, port := hash[..colon], Atoi(hash[colon + 1..]);
    var semicolon := StrChr(hash, colon + 1, SEMICOLON);
    if semicolon == |hash| {
      return None;
    }
    Suffix(hash, colon + 1, semicolon + 1);
    var rest := SplitSet(hash, semicolon + 1);
    return if rest.None? then None else Some(Parts(host, port, rest.value.0, rest.value.1, rest.value.2));
  }

  // --- printing and splitting undo each other ---

  /** A login that can be told from the placeholder and from what surrounds it. */
  predicate LoginReads(login: Option<Login>) {
    login.Some? ==>
      var l := login.value;
      && SLASH !in l.db && SEMICOLON !in l.db && (l.db != [] ==> l.db[0] != DOT)
      && SLASH !in l.username && SEMICOLON !in l.username && SEMICOLON !in l.digest
  }

  predicate SetReads(setName: Option<bytes>) {
    setName.Some? ==> SEMICOLON !in setName.value && (setName.value != [] ==> setName.value[0] != DASH)
  }

  predicate Reads(p: Parts) {
    COLON !in p.host && SetReads(p.setName) && LoginReads(p.login)
  }

  lemma LoginComesBack(login: Option<Login>, pid: int)
    requires LoginReads(login)
    ensures LoginOf(LoginText(login) + [SEMICOLON] + Dec(pid)) == Some((login, pid))
  {
    hide IndexOf, Atoi, Dec;
    AtoiOfDec(pid, []);
    assert Dec(pid) + [] == Dec(pid);
    if login.Some? {
      var l := login.value;
      ReadLogin(l.db, l.username, l.digest, Dec(pid));
      Rejoin5(l.db, l.username, l.digest, Dec(pid));
    } else {
      UpTo([DOT], SEMICOLON, Dec(pid));
    }
  }

  lemma Rejoin5(db: bytes, u: bytes, digest: bytes, tail: bytes)
    ensures (db + [SLASH] + u + [SLASH] + digest) + [SEMICOLON] + tail ==
            db + [SLASH] + (u + [SLASH] + (digest + [SEMICOLON] + tail))
  {
  }

  lemma ReadLogin(db: bytes, u: bytes, digest: bytes, tail: bytes)
    requires SLASH !in db && SEMICOLON !in db && (db != [] ==> db[0] != DOT)
    requires SLASH !in u && SEMICOLON !in u && SEMICOLON !in digest
    ensures LoginOf(db + [SLASH] + (u + [SLASH] + (digest + [SEMICOLON] + tail))) ==
            Some((Some(Login(db, u, digest)), Atoi(tail)))
  {
    hide IndexOf, Atoi, LoginOf;
    var afterUser := digest + [SEMICOLON] + tail;
    var afterDb := u + [SLASH] + afterUser;
    var p := db + [SLASH] + afterDb;
    UpTo(db, SLASH, afterDb);
    UpTo(u, SLASH, afterUser);
    LoginEnd(db, u, digest, tail);
    FirstOf(db, SLASH, afterDb);
    LoginSlices(Login(db, u, digest), afterUser, p);
    LoginAt(p, |db|, |db| + |u| + 1, |db| + |u| + |digest| + 2);
  }

  /** Where the digest ends. */
  lemma LoginEnd(db: bytes, u: bytes, digest: bytes, tail: bytes)
    requires SEMICOLON !in db && SEMICOLON !in u && SEMICOLON !in digest
    ensures var p, end := db + [SLASH] + (u + [SLASH] + (digest + [SEMICOLON] + tail)), |db| + |u| + |digest| + 2;
            IndexOf(p, SEMICOLON) == end < |p| && p[end + 1..] == tail
  {
    hide IndexOf;
    Rejoin5(db, u, digest, tail);
    UpTo(db + [SLASH] + u + [SLASH] + digest, SEMICOLON, tail);
  }

  lemma FirstOf(a: bytes, c: byte, rest: bytes)
    ensures (a + [c] + rest)[0] == if a == [] then c else a[0]
  {
  }

  /** The three separators decide what is read. */
  lemma LoginAt(p: bytes, slash: nat, second: nat, end: nat)
    requires slash < second < end < |p| && p[0] != DOT
    requires IndexOf(p, SEMICOLON) == end && IndexOf(p, SLASH) == slash
    requires slash + 1 + IndexOf(p[slash + 1..], SLASH) == second
    ensures LoginOf(p) == Some((Some(Login(p[..slash], p[slash + 1..second], p[second + 1..end])), Atoi(p[end + 1..])))
  {
    hide IndexOf, Atoi;
  }

  lemma LoginSlices(l: Login, rest: bytes, p: bytes)
    requires p == l.db + [SLASH] + (l.username + [SLASH] + rest) && l.digest <= rest
    ensures p[..|l.db|] == l.db
    ensures p[|l.db| + 1..|l.db| + 1 + |l.username|] == l.username
    ensures p[|l.db| + |l.username| + 2..|l.db| + |l.username| + 2 + |l.digest|] == l.digest
  {
  }

  /** A login that was read has none of the characters that end its parts. */
  lemma WhatLoginReads(p: bytes, login: Option<Login>, pid: int)
    requires LoginOf(p) == Some((login, pid))
    ensures LoginReads(login)
  {
    hide IndexOf, Atoi;
    if login.Some? {
      var end, slash := IndexOf(p, SEMICOLON), IndexOf(p, SLASH);
      var rest := p[slash + 1..];
      var user := IndexOf(rest, SLASH);
      BeforeFirst(p, SEMICOLON, 0, slash);
      BeforeFirst(p, SEMICOLON, slash + 1, slash + 1 + user);
      BeforeFirst(p, SEMICOLON, slash + user + 2, end);
      BeforeFirst(p, SLASH, 0, slash);
      BeforeFirst(rest, SLASH, 0, user);
      assert rest[..user] == p[slash + 1..slash + 1 + user];
    }
  }

  lemma HostComesBack(p: Parts)
    requires COLON !in p.host
    ensures var set_ := SetText(p.setName) + [SEMICOLON] + (LoginText(p.login) + [SEMICOLON] + Dec(p.pid));
            var hash := HashOf(p);
            && IndexOf(hash, COLON) == |p.host| < |hash| && hash[..|p.host|] == p.host
            && Atoi(hash[|p.host| + 1..]) == p.port
            && IndexOf(hash[|p.host| + 1..], SEMICOLON) == |Dec(p.port)| < |hash[|p.host| + 1..]|
            && hash[|p.host| + 1..][|Dec(p.port)| + 1..] == set_
  {
    hide IndexOf, Atoi, Dec, SetText, LoginText;
    var set_ := SetText(p.setName) + [SEMICOLON] + (LoginText(p.login) + [SEMICOLON] + Dec(p.pid));
    var afterHost := Dec(p.port) + [SEMICOLON] + set_;
    assert HashOf(p) == p.host + [COLON] + afterHost;
    UpTo(p.host, COLON, afterHost);
    DecIsPlain(p.port, SEMICOLON);
    UpTo(Dec(p.port), SEMICOLON, set_);
    AtoiOfDec(p.port, [SEMICOLON] + set_);
    Assoc(Dec(p.port), [SEMICOLON], set_);
  }

  lemma SetComesBack(setName: Option<bytes>, rest: bytes)
    requires SetReads(setName)
    ensures var set_ := SetText(setName) + [SEMICOLON] + rest;
            var end := IndexOf(set_, SEMICOLON);
            && end < |set_| && set_[end + 1..] == rest
            && (if set_[0] == DASH then None else Some(set_[..end])) == setName
  {
    hide IndexOf;
    UpTo(SetText(setName), SEMICOLON, rest);
  }

  lemma WhatSetReads(setName: Option<bytes>, rest: bytes)
    requires var set_ := SetText(setName) + [SEMICOLON] + rest;
             var end := IndexOf(set_, SEMICOLON);
             end < |set_| && (if set_[0] == DASH then None else Some(set_[..end])) == setName
    ensures SetReads(setName)
  {
    hide IndexOf;
    var set_ := SetText(setName) + [SEMICOLON] + rest;
    BeforeFirst(set_, SEMICOLON, 0, IndexOf(set_, SEMICOLON));
  }

  lemma ReadsThenSplits(p: Parts)
    requires Reads(p)
    ensures Split(HashOf(p)) == Some(p)
  {
    hide IndexOf, Atoi, Dec, LoginOf, LoginText, SetText, HashOf, LoginReads, SetReads;
    HostComesBack(p);
    SetComesBack(p.setName, LoginText(p.login) + [SEMICOLON] + Dec(p.pid));
    LoginComesBack(p.login, p.pid);
  }

  lemma SplitsThenReads(p: Parts)
    requires Split(HashOf(p)) == Some(p)
    ensures Reads(p)
  {
    hide IndexOf, Atoi, Dec, LoginOf, LoginText, SetText, HashOf, LoginReads, SetReads;
    var hash := HashOf(p);
    BeforeFirst(hash, COLON, 0, IndexOf(hash, COLON));
    HostComesBack(p);
    var login := LoginText(p.login) + [SEMICOLON] + Dec(p.pid);
    var set_ := SetText(p.setName) + [SEMICOLON] + login;
    WhatSetReads(p.setName, login);
    WhatLoginReads(set_[IndexOf(set_, SEMICOLON) + 1..], p.login, p.pid);
  }

  /** A hash is split into what it was made of exactly when no part holds a separator or looks like a placeholder. */
  lemma SplitInvertsHash(p: Parts)
    ensures Split(HashOf(p)) == Some(p) <==> Reads(p)
  {
    hide Split, HashOf, Reads;
    if Reads(p) {
      ReadsThenSplits(p);
    }
    if Split(HashOf(p)) == Some(p) {
      SplitsThenReads(p);
    }
  }

  /** Hence hashes tell definitions apart. */
  lemma HashesAreInjective(p: Parts, q: Parts)
    requires Reads(p) && Reads(q) && HashOf(p) == HashOf(q)
    ensures p == q
  {
    hide HashOf, Split, Reads;
    SplitInvertsHash(p);
    SplitInvertsHash(q);
  }

  /** mongo_server_hash_to_server: up to the first semicolon. */
  function HashToServer(hash: bytes): bytes {
    hash[..IndexOf(hash, SEMICOLON)]
  }

  /** mongo_server_hash_to_pid: behind the last semicolon. */
  function HashToPid(hash: bytes): int {
    Atoi(hash[LastIndexOf(hash, SEMICOLON) + 1..])
  }

  /** The process id is always found, the server exactly when its name has no semicolon. */
  lemma ShortcutsAgree(p: Parts)
    ensures HashToPid(HashOf(p)) == p.pid
    ensures HashToServer(HashOf(p)) == p.host + [COLON] + Dec(p.port) <==> SEMICOLON !in p.host
  {
    hide IndexOf, LastIndexOf, Atoi, Dec, SetText, LoginText;
    var front := p.host + [COLON] +
        (Dec(p.port) + [SEMICOLON] + (SetText(p.setName) + [SEMICOLON] + LoginText(p.login)));
    assert HashOf(p) == front + [SEMICOLON] + Dec(p.pid);
    DecIsPlain(p.pid, SEMICOLON);
    LastIndexUnique(front, SEMICOLON, Dec(p.pid));
    assert HashOf(p)[|front| + 1..] == Dec(p.pid) + [];
    AtoiOfDec(p.pid, []);
    var server := p.host + [COLON] + Dec(p.port);
    var rest := SetText(p.setName) + [SEMICOLON] + (LoginText(p.login) + [SEMICOLON] + Dec(p.pid));
    assert HashOf(p) == server + [SEMICOLON] + rest;
    DecIsPlain(p.port, SEMICOLON);
    if SEMICOLON !in p.host {
      UpTo(server, SEMICOLON, rest);
    } else {
      BeforeFirst(HashOf(p), SEMICOLON, 0, IndexOf(HashOf(p), SEMICOLON));
    }
  }
}
