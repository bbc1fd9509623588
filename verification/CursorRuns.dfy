/** Whole iterations with a MongoCursor: what a user's loop gets out of what the server has. */
module CursorRuns {
  import opened Bytes
  import opened Values
  import opened CursorHistory
  import opened Cursors

  function Magnitude(n: int): nat {
    if n < 0 then -n else n
  }

  function Least(m: nat, n: nat): nat {
    if m < n then m else n
  }

  /**
   * The server sends the documents of `all` in order and never more than asked for.  It closes the cursor at the end,
   * together with the one document that a query asked for, and always after a negative request.
   */
  ghost predicate ServedBy(all: seq<Hash>, r: Request, reply: Reply) {
    reply.Arrived? && 0 <= r.num <= |all| ==>
      && !reply.failed
      && r.num + |reply.docs| <= |all| && reply.docs == all[r.num..r.num + |reply.docs|]
      && (reply.id == 0 ==> r.num + |reply.docs| == |all| || r.asked < 0 || (OneAskedFor(r) && |reply.docs| == 1))
      && (r.asked < 0 ==> reply.id == 0)
      && (r.asked != 0 ==> |reply.docs| <= Magnitude(r.asked))
  }

  predicate OneAskedFor(r: Request) {
    r.id == 0 && r.num == 0 && r.asked == 1
  }

  /** A query for one document leaves no cursor open. */
  ghost predicate ClosesOnOne(net: Request -> Reply) {
    forall r :: OneAskedFor(r) && net(r).Arrived? ==> net(r).id == 0
  }

  predicate IsSized(r: Request) {
    r.id == 0 && r.num == 0 && r.asked != 0
  }

  /** A query for a number of documents is answered with as many, if there are as many. */
  ghost predicate FillsQueries(net: Request -> Reply, all: seq<Hash>) {
    forall r :: IsSized(r) && net(r).Arrived? ==> |net(r).docs| >= Least(Magnitude(r.asked), |all|)
  }

  /** The query is the only request that is made. */
  ghost predicate SingleBatch(first: int, net: Request -> Reply) {
    first < 0 || (first == 1 && ClosesOnOne(net))
  }

  /** How what has arrived relates to the list. */
  ghost predicate Delivered(c: MongoCursor, net: Request -> Reply, all: seq<Hash>)
    reads c`received, c`exhausted, c`limit, c`batchSize
  {
    IsPart(c.received, c.exhausted, NextRequestLimit(c.limit, c.batchSize, 0), net, all)
  }

  /** What has arrived after a query for `first` documents and any number of further requests. */
  ghost predicate IsPart(received: seq<Hash>, exhausted: bool, first: int, net: Request -> Reply, all: seq<Hash>) {
    && received <= all
    && (exhausted ==> received == all || first < 0 || (first == 1 && |received| == 1))
    && (SingleBatch(first, net) ==> exhausted && |received| <= Magnitude(first))
    && (FillsQueries(net, all) && first != 0 ==> |received| >= Least(Magnitude(first), |all|))
  }

  ghost predicate Serves(net: Request -> Reply, all: seq<Hash>) {
    && HonestServer(net)
    && (forall r :: ServedBy(all, r, net(r)))
    && (forall i :: 0 <= i < |all| ==> !IsError(all[i]))
  }

  /** Every request is answered. */
  ghost predicate AlwaysAnswers(net: Request -> Reply) {
    forall r :: net(r).Arrived?
  }

  /** How many of n documents a limit lets through; 0 is no limit. */
  function Wanted(limit: nat, n: nat): nat {
    if limit == 0 || n < limit then n else limit
  }

  /**
   * What a request asks for: a negative limit and a negative batch size as they are, the limit first.  Otherwise what
   * the limit leaves, or the batch size when it is set and less; but the whole limit again where the batch size is
   * not below it.
   */
  lemma RequestSizes(limit: int, batchSize: int, at: nat)
    requires limit > 0 ==> at < limit
    ensures var asked := NextRequestLimit(limit, batchSize, at);
      && (limit < 0 ==> asked == limit)
      && (limit >= 0 > batchSize ==> asked == batchSize)
      && (limit == 0 <= batchSize ==> asked == batchSize)
      && (0 == batchSize < limit ==> asked == limit - at)
      && (0 < batchSize < limit ==> asked == Least(batchSize, limit - at))
      && (0 < limit <= batchSize ==> asked == limit)
  {
  }

  /**
   * A request made at position `at` asks for no more than the limit leaves, exactly when the batch size is below
   * the limit or nothing has been read yet.
   */
  lemma RequestWithinLimit(limit: int, batchSize: int, at: int)
    requires 0 < limit && 0 <= batchSize && 0 <= at < limit
    ensures NextRequestLimit(limit, batchSize, at) > 0
    ensures at + NextRequestLimit(limit, batchSize, at) <= limit <==> batchSize < limit || at == 0
  {
  }

  lemma Extended(c: MongoCursor, net: Request -> Reply, all: seq<Hash>, before: seq<Hash>, r: Request)
    requires Serves(net, all) && before <= all && r.num == |before| && c.Got(net, before, r)
    requires var first := NextRequestLimit(c.limit, c.batchSize, 0);
             if r.id == 0 then before == [] && r.asked == first
             else IsPart(before, false, first, net, all) && (r.asked < 0 ==> first < 0)
    ensures Delivered(c, net, all)
    ensures !c.dead ==> !c.failed
    ensures r.asked > 0 ==> |c.received| <= |before| + r.asked
  {
    hide NextRequestLimit, ClosesOnOne, FillsQueries;
    assert ServedBy(all, r, net(r));
    var first := NextRequestLimit(c.limit, c.batchSize, 0);
    if r.id == 0 && first == 1 && ClosesOnOne(net) {
      ClosedAfterOne(net, r);
    }
    if r.id == 0 && first != 0 && FillsQueries(net, all) {
      FilledUp(net, all, r);
    }
    var k := |net(r).docs|;
    assert all[..r.num + k] == all[..r.num] + all[r.num..r.num + k];
  }

  /** Requests turn negative at once or never. */
  lemma NegativeFromStart(limit: int, batchSize: int, at: int)
    requires limit <= 0 || at < limit
    ensures NextRequestLimit(limit, batchSize, at) < 0 ==> NextRequestLimit(limit, batchSize, 0) < 0
  {
  }

  lemma PartIsPrefix(c: MongoCursor, net: Request -> Reply, all: seq<Hash>)
    requires Delivered(c, net, all)
    ensures c.received <= all
    ensures !c.exhausted ==> IsPart(c.received, false, NextRequestLimit(c.limit, c.batchSize, 0), net, all)
  {
  }

  lemma ClosedAfterOne(net: Request -> Reply, r: Request)
    requires ClosesOnOne(net) && OneAskedFor(r) && net(r).Arrived?
    ensures net(r).id == 0
  {
  }

  lemma FilledUp(net: Request -> Reply, all: seq<Hash>, r: Request)
    requires FillsQueries(net, all) && IsSized(r) && net(r).Arrived?
    ensures |net(r).docs| >= Least(Magnitude(r.asked), |all|)
  {
  }

  /** No more arrives than the limit allows, give or take one for a loop that asks hasNext first. */
  ghost predicate Bounded(limit: int, batchSize: int, net: Request -> Reply, all: seq<Hash>) {
    limit > 0 && batchSize >= 0 && (batchSize < limit || FillsQueries(net, all))
  }

  lemma FirstIsBounded(c: MongoCursor, net: Request -> Reply, all: seq<Hash>)
    requires Delivered(c, net, all)
    requires var first := NextRequestLimit(c.limit, c.batchSize, 0); first > 0 ==> |c.received| <= first
    ensures c.limit > 0 && c.batchSize >= 0 ==> |c.received| <= c.limit
  {
    RequestSizes(c.limit, c.batchSize, 0);
  }

  /** A later request made at or right behind the last document keeps the bound. */
  lemma LaterIsBounded(c: MongoCursor, net: Request -> Reply, all: seq<Hash>, before: seq<Hash>, r: Request, at: nat)
    requires Serves(net, all) && before <= all && r.num == |before| && c.Got(net, before, r)
    requires IsPart(before, false, NextRequestLimit(c.limit, c.batchSize, 0), net, all)
    requires at <= |before| <= at + 1 && |before| < c.limit
    requires r.asked == NextRequestLimit(c.limit, c.batchSize, at) && Bounded(c.limit, c.batchSize, net, all)
    ensures |c.received| <= c.limit + (|before| - at)
  {
    hide ClosesOnOne, FillsQueries;
    RequestSizes(c.limit, c.batchSize, at);
    RequestSizes(c.limit, c.batchSize, 0);
    assert ServedBy(all, r, net(r));
  }

  lemma DocsAreFine(net: Request -> Reply, all: seq<Hash>)
    requires Serves(net, all)
    ensures HonestServer(net) && forall i :: 0 <= i < |all| ==> !IsError(all[i])
  {
  }

  lemma NeverRefused(net: Request -> Reply, all: seq<Hash>, r: Request)
    requires Serves(net, all) && AlwaysAnswers(net) && 0 <= r.num <= |all|
    ensures !Refused(net(r)) && net(r).Arrived?
  {
    assert ServedBy(all, r, net(r));
  }

  lemma CountIsRight(c: MongoCursor, cursors: set<MongoCursor>, conns: set<MongoConnection>)
    requires AllValid(cursors, conns) && c in cursors
    ensures !c.dead ==> c.num == |c.received| && (c.dontAdvance ==> c.at == 0)
    ensures !c.dead && c.startedIterating ==> c.connection != null
    ensures !c.dead && c.exhausted ==> c.cursorId == 0
  {
  }

  lemma StillPrefix(docs: seq<Hash>, before: seq<Hash>, after: seq<Hash>)
    requires docs <= before <= after
    ensures docs <= after
  {
  }

  /**
   * How many of m documents that came in one closed batch a loop hands out.  next does not look at the limit then;
   * hasNext does, and with a limit of 1 says no at once when more than one came.
   */
  function FromBatch(limit: int, m: nat, guarded: bool): nat {
    if limit <= 0 || !guarded then m else if limit == 1 && m > 1 then 0 else Least(limit, m)
  }

  /**
   * What a run hands out, whatever limit and batch size are; `guarded` says whether the loop asks hasNext before each
   * next.  A negative limit or batch size stands for one batch of that size, and so does a batch size of 1 where the
   * server closes the cursor after it.  Otherwise it is as much as the limit lets through.  Where the batch size is
   * not below the limit, next alone relies on the server to fill the first batch.
   */
  ghost predicate Drained(docs: seq<Hash>, net: Request -> Reply, all: seq<Hash>, limit: int, batchSize: int,
                          guarded: bool) {
    && docs <= all
    && (limit < 0 || batchSize < 0 ==>
          var size := if limit < 0 then -limit else -batchSize;
          && |docs| <= size
          && (FillsQueries(net, all) ==> |docs| == FromBatch(limit, Least(size, |all|), guarded)))
    && (limit >= 0 && batchSize >= 0 && batchSize != 1 &&
        (guarded || limit == 0 || batchSize < limit || FillsQueries(net, all)) ==>
          docs == all[..Wanted(limit, |all|)])
    && (limit >= 0 && batchSize == 1 && ClosesOnOne(net) ==> docs == all[..Wanted(1, |all|)])
  }

  /** At the end of a run of next alone: all that was received has been handed out. */
  lemma AllHandedOut(c: MongoCursor, net: Request -> Reply, all: seq<Hash>)
    requires Delivered(c, net, all) && (c.exhausted || 0 != c.limit <= |c.received|)
    requires Bounded(c.limit, c.batchSize, net, all) ==> |c.received| <= c.limit
    ensures Drained(c.received, net, all, c.limit, c.batchSize, false)
  {
    hide ClosesOnOne, FillsQueries, NextRequestLimit;
    RequestSizes(c.limit, c.batchSize, 0);
  }

  /** At the end of a run that asks hasNext: the list is exhausted, or as much as the limit allows was handed out. */
  lemma AllAskedFor(c: MongoCursor, docs: seq<Hash>, net: Request -> Reply, all: seq<Hash>)
    requires Delivered(c, net, all) && docs <= c.received && (c.limit > 0 ==> |docs| <= c.limit)
    requires (c.exhausted && docs == c.received) || 0 < c.limit == |docs| || (c.limit == 1 < |c.received| && docs == [])
    requires c.limit == 1 && docs != [] ==> |c.received| == 1
    requires var first := NextRequestLimit(c.limit, c.batchSize, 0);
             docs == [] && first > 0 && c.limit == 1 ==> |c.received| <= first
    ensures Drained(docs, net, all, c.limit, c.batchSize, true)
  {
    hide ClosesOnOne, FillsQueries, NextRequestLimit;
    RequestSizes(c.limit, c.batchSize, 0);
  }

  lemma OneMore(docs: seq<Hash>, received: seq<Hash>, all: seq<Hash>)
    requires docs <= received <= all && |docs| < |received|
    ensures received[|docs|] == all[|docs|] && docs + [received[|docs|]] == received[..|docs| + 1]
  {
  }

  /** How much can have arrived while the loop goes on. */
  ghost predicate InBounds(c: MongoCursor, net: Request -> Reply, all: seq<Hash>, slack: nat)
    reads c`dontAdvance, c`num, c`limit, c`batchSize
  {
    var first := NextRequestLimit(c.limit, c.batchSize, 0);
    && (c.dontAdvance && first > 0 ==> c.num <= first)
    && (Bounded(c.limit, c.batchSize, net, all) ==> c.num <= c.limit + slack)
  }

  /** What a run relies on between two steps. */
  ghost predicate Underway(c: MongoCursor, net: Request -> Reply, all: seq<Hash>, docs: seq<Hash>, slack: nat)
    reads c
  {
    && c.startedIterating && !c.dead && !c.failed && c.num == |c.received| && c.taken <= c.num
    && Delivered(c, net, all) && !c.Cut()
    && docs == c.received[..c.taken] && (c.current.Some? ==> !IsError(c.current.value))
    && (if c.dontAdvance then c.at == 0 && c.taken == 0 else c.taken == c.at + 1)
    && InBounds(c, net, all, slack)
  }

  /** What has arrived before a call: nothing, when the call is going to run the query. */
  ghost function Before(c: MongoCursor): seq<Hash>
    reads c
  {
    if c.startedIterating then c.received else []
  }

  /** The first call of next, as far as the list that the server has is concerned. */
  method FirstFromList(c: MongoCursor, net: Request -> Reply, target: MongoConnection?, ghost all: seq<Hash>,
                       ghost cursors: set<MongoCursor>, ghost conns: set<MongoConnection>)
    returns (step: Step)
    requires AllValid(cursors, conns) && c in cursors && Serves(net, all)
    requires target != null ==> target in conns && target.alive
    requires !c.dead && !c.startedIterating
    modifies c, conns, cursors`dead, cursors`cursorId, cursors`connection, cursors`history
    ensures AllValid(cursors, conns) && c.limit == old(c.limit) && c.batchSize == old(c.batchSize)
    ensures !step.Threw? ==>
              && c.startedIterating && !c.dead && !c.dontAdvance && !c.failed && c.num == |c.received|
              && Delivered(c, net, all) && InBounds(c, net, all, 0)
              && (c.Cut() ==> step.Finished? && c.limit != 0 && c.at >= c.limit && c.at == c.num)
    ensures step.Returned? ==>
              && c.taken == 1 <= |c.received| && step.doc == c.received[0] && c.at == 0
              && c.current == Some(step.doc) && !IsError(step.doc)
    ensures step.Finished? ==> c.cursorId == 0 && |c.received| == 0
    ensures AlwaysAnswers(net) && target != null ==> !step.Threw?
  {
    hide AllValid, Serves, NextRequestLimit, IsError, HonestServer, Refused, AlwaysAnswers, OthersKept, ClosesOnOne,
         IsPart, FillsQueries;
    ghost var r := Request(0, 0, NextRequestLimit(c.limit, c.batchSize, 0));
    DocsAreFine(net, all);
    if AlwaysAnswers(net) {
      NeverRefused(net, all, r);
    }
    step := c.Next(net, target, true, cursors, conns);
    if !step.Threw? {
      NothingIsPart(all);
      Extended(c, net, all, [], r);
      PartIsPrefix(c, net, all);
      FirstIsBounded(c, net, all);
    }
    CountIsRight(c, cursors, conns);
  }

  lemma NothingIsPart(all: seq<Hash>)
    ensures [] <= all
  {
  }

  /** A later call of next. */
  method LaterFromList(c: MongoCursor, net: Request -> Reply, target: MongoConnection?, ghost all: seq<Hash>,
                       ghost slack: nat, ghost cursors: set<MongoCursor>, ghost conns: set<MongoConnection>)
    returns (step: Step)
    requires AllValid(cursors, conns) && c in cursors && Serves(net, all)
    requires !c.dead && c.startedIterating && !c.failed && Delivered(c, net, all) && InBounds(c, net, all, slack)
    modifies c, conns, cursors`dead, cursors`cursorId, cursors`connection, cursors`history
    ensures AllValid(cursors, conns) && c.limit == old(c.limit) && c.batchSize == old(c.batchSize)
    ensures !step.Threw? ==>
              && c.startedIterating && !c.dead && !c.dontAdvance && !c.failed && c.num == |c.received|
              && old(c.received) <= c.received && Delivered(c, net, all) && InBounds(c, net, all, slack)
              && (c.Cut() ==> old(c.Cut()) || (step.Finished? && c.limit != 0 && c.at >= c.limit && c.at == c.num))
    ensures step.Returned? ==>
              && c.taken == old(c.taken) + 1 <= |c.received| && step.doc == c.received[c.taken - 1]
              && c.taken == c.at + 1 && c.current == Some(step.doc) && !IsError(step.doc)
    ensures step.Finished? ==> c.cursorId == 0 && |c.received| == old(c.taken)
    ensures old(c.taken < |c.received|) ==> step.Returned? && c.received == old(c.received)
    ensures AlwaysAnswers(net) ==> !step.Threw?
  {
    hide AllValid, Serves, NextRequestLimit, IsError, HonestServer, Refused, AlwaysAnswers, OthersKept, ClosesOnOne,
         IsPart, FillsQueries;
    ghost var r := Request(c.cursorId, c.num, NextRequestLimit(c.limit, c.batchSize, c.at + 1));
    DocsAreFine(net, all);
    CountIsRight(c, cursors, conns);
    PartIsPrefix(c, net, all);
    PositionIsNatural(c, cursors, conns);
    if AlwaysAnswers(net) {
      NeverRefused(net, all, r);
    }
    ghost var before, closed, at := c.received, c.exhausted, c.at + 1;
    step := c.Next(net, target, true, cursors, conns);
    if c.received != before || c.exhausted != closed {
      NegativeFromStart(c.limit, c.batchSize, at);
      Extended(c, net, all, before, r);
      PartIsPrefix(c, net, all);
      if Bounded(c.limit, c.batchSize, net, all) {
        LaterIsBounded(c, net, all, before, r, at);
      }
    }
    CountIsRight(c, cursors, conns);
  }

  /** One call of next within a run; the document is the next one of the list. */
  method NextStep(c: MongoCursor, net: Request -> Reply, target: MongoConnection?, ghost all: seq<Hash>,
                  ghost docs: seq<Hash>, ghost slack: nat, ghost cursors: set<MongoCursor>,
                  ghost conns: set<MongoConnection>)
    returns (step: Step)
    requires AllValid(cursors, conns) && c in cursors && Serves(net, all)
    requires target != null && !c.startedIterating ==> target in conns && target.alive
    requires !c.dead
    requires if c.startedIterating then Underway(c, net, all, docs, slack) else docs == []
    modifies c, conns, cursors`dead, cursors`cursorId, cursors`connection, cursors`history
    ensures AllValid(cursors, conns) && c.limit == old(c.limit) && c.batchSize == old(c.batchSize)
    ensures step.Returned? ==>
              |docs| < |all| && step.doc == all[|docs|] && Underway(c, net, all, docs + [step.doc], slack)
    ensures step.Finished? && slack == 0 ==>
              Drained(docs, net, all, c.limit, c.batchSize, false) && InBounds(c, net, all, slack)
    ensures old(c.startedIterating && c.taken < |c.received|) ==> step.Returned? && c.received == old(c.received)
    ensures step.Returned? ==> !c.dontAdvance
    ensures AlwaysAnswers(net) && (target != null || old(c.startedIterating)) ==> !step.Threw?
  {
    hide AllValid, Serves, IsError, AlwaysAnswers, Wanted, NextRequestLimit, InBounds, Drained, IsPart;
    ghost var before := Before(c);
    if c.startedIterating {
      step := LaterFromList(c, net, target, all, slack, cursors, conns);
    } else {
      step := FirstFromList(c, net, target, all, cursors, conns);
      if !step.Threw? {
        MoreSlack(c, net, all, slack);
      }
    }
    if !step.Threw? {
      PartIsPrefix(c, net, all);
      StillPrefix(docs, before, c.received);
      if step.Returned? {
        OneMore(docs, c.received, all);
      } else if slack == 0 {
        BoundsAre(c, net, all);
        assert docs == c.received;
        AllHandedOut(c, net, all);
      }
    }
  }

  lemma BoundsAre(c: MongoCursor, net: Request -> Reply, all: seq<Hash>)
    requires InBounds(c, net, all, 0)
    ensures Bounded(c.limit, c.batchSize, net, all) ==> c.num <= c.limit
  {
  }

  lemma MoreSlack(c: MongoCursor, net: Request -> Reply, all: seq<Hash>, slack: nat)
    requires InBounds(c, net, all, 0)
    ensures InBounds(c, net, all, slack)
  {
  }

  /** One call of hasNext, as far as the list that the server has is concerned. */
  method HasNextFromList(c: MongoCursor, net: Request -> Reply, target: MongoConnection?, ghost all: seq<Hash>,
                         ghost cursors: set<MongoCursor>, ghost conns: set<MongoConnection>)
    returns (more: Option<bool>)
    requires AllValid(cursors, conns) && c in cursors && Serves(net, all)
    requires target != null && !c.startedIterating ==> target in conns && target.alive
    requires !c.dead
    requires c.startedIterating ==>
               && !c.failed && Delivered(c, net, all) && (c.current.Some? ==> !IsError(c.current.value))
               && InBounds(c, net, all, 1)
    modifies c, conns, cursors`dead, cursors`cursorId, cursors`connection, cursors`history
    ensures AllValid(cursors, conns) && c.limit == old(c.limit) && c.batchSize == old(c.batchSize)
    ensures more.Some? ==>
              && c.startedIterating && !c.dead && !c.failed && c.num == |c.received|
              && old(Before(c)) <= c.received && Delivered(c, net, all) && InBounds(c, net, all, 1)
              && c.current == (if old(c.startedIterating) then old(c.current) else None)
    ensures more.Some? && !old(c.startedIterating) ==> c.at == c.taken == 0 && c.dontAdvance
    ensures old(c.startedIterating) ==>
              c.taken == old(c.taken) && c.at == old(c.at) && c.dontAdvance == old(c.dontAdvance)
    ensures more.Some? && old(c.startedIterating && c.limit == 1) ==> c.received == old(c.received)
    ensures more == Some(true) ==> c.taken < |c.received| && c.BelowLimit()
    ensures more == Some(true) && c.Cut() ==> old(c.startedIterating && c.Cut())
    ensures more == Some(false) ==>
              c.StopsAtLimit() || (c.taken == |c.received| && (c.exhausted || old(c.startedIterating && c.Cut())))
    ensures AlwaysAnswers(net) && (target != null || old(c.startedIterating)) ==> more.Some?
  {
    hide AllValid, Serves, NextRequestLimit, IsError, HonestServer, AlwaysAnswers, OthersKept, Refused, ClosesOnOne,
         FillsQueries, IsPart;
    ghost var asked := NextRequestLimit(c.limit, c.batchSize, if c.startedIterating then c.at else 0);
    ghost var before := Before(c);
    ghost var r := if c.startedIterating then Request(c.cursorId, c.num, asked) else Request(0, 0, asked);
    PositionIsNatural(c, cursors, conns);
    DocsAreFine(net, all);
    CountIsRight(c, cursors, conns);
    NothingIsPart(all);
    if c.startedIterating {
      PartIsPrefix(c, net, all);
    }
    if AlwaysAnswers(net) {
      NeverRefused(net, all, r);
    }
    ghost var started, closed, at := c.startedIterating, c.exhausted, c.at;
    more := c.HasNext(net, target, true, cursors, conns);
    if more.Some? && !(started && c.received == before && c.exhausted == closed) {
      if started {
        NegativeFromStart(c.limit, c.batchSize, at);
      }
      Extended(c, net, all, before, r);
      if !started {
        FirstIsBounded(c, net, all);
      } else if Bounded(c.limit, c.batchSize, net, all) {
        LaterIsBounded(c, net, all, before, r, at);
      }
    }
    CountIsRight(c, cursors, conns);
  }

  /** A run that asks hasNext: never past the limit, and with a limit of 1 only when a single document came. */
  ghost predicate Guarded(c: MongoCursor, docs: seq<Hash>)
    reads c`limit, c`received
  {
    && (c.limit > 0 ==> |docs| <= c.limit)
    && (c.limit == 1 && docs != [] ==> |c.received| == 1)
  }

  /** One call of hasNext within a run that asks hasNext before each next. */
  method HasNextStep(c: MongoCursor, net: Request -> Reply, target: MongoConnection?, ghost all: seq<Hash>,
                     ghost docs: seq<Hash>, ghost cursors: set<MongoCursor>, ghost conns: set<MongoConnection>)
    returns (more: Option<bool>)
    requires AllValid(cursors, conns) && c in cursors && Serves(net, all)
    requires target != null && !c.startedIterating ==> target in conns && target.alive
    requires !c.dead
    requires if c.startedIterating then Underway(c, net, all, docs, 1) && Guarded(c, docs) else docs == []
    modifies c, conns, cursors`dead, cursors`cursorId, cursors`connection, cursors`history
    ensures AllValid(cursors, conns) && c.limit == old(c.limit) && c.batchSize == old(c.batchSize)
    ensures more == Some(true) ==>
              && Underway(c, net, all, docs, 1) && c.taken < |c.received|
              && (c.limit > 0 ==> |docs| < c.limit) && (c.limit == 1 ==> |c.received| == 1)
    ensures more == Some(false) ==>
              Drained(docs, net, all, c.limit, c.batchSize, true) && InBounds(c, net, all, 1)
    ensures AlwaysAnswers(net) && (target != null || old(c.startedIterating)) ==> more.Some?
  {
    hide AllValid, Serves, IsError, AlwaysAnswers, Delivered, Drained, NextRequestLimit, Bounded;
    more := HasNextFromList(c, net, target, all, cursors, conns);
    PositionIsNatural(c, cursors, conns);
    if more == Some(false) {
      AllAskedFor(c, docs, net, all);
    }
  }

  lemma PositionIsNatural(c: MongoCursor, cursors: set<MongoCursor>, conns: set<MongoConnection>)
    requires AllValid(cursors, conns) && c in cursors
    ensures !c.dead ==> 0 <= c.at && (c.startedIterating ==> c.connection != null)
    ensures !c.dead && c.startedIterating && c.cursorId != 0 ==> c.at < c.num || c.dontAdvance
  {
  }

  /** while ($c->hasNext()) { $docs[] = $c->next(); }  None when an exception ended it. */
  method DrainWithHasNext(c: MongoCursor, net: Request -> Reply, target: MongoConnection?, ghost all: seq<Hash>,
                          ghost cursors: set<MongoCursor>, ghost conns: set<MongoConnection>)
    returns (docs: seq<Hash>, complete: bool)
    requires AllValid(cursors, conns) && c in cursors && Serves(net, all)
    requires target != null && !c.startedIterating ==> target in conns && target.alive
    requires !c.startedIterating && !c.dead
    modifies c, conns, cursors`dead, cursors`cursorId, cursors`connection, cursors`history
    ensures AllValid(cursors, conns)
    ensures docs <= all
    ensures AlwaysAnswers(net) && target != null ==> complete
    ensures complete ==> Drained(docs, net, all, old(c.limit), old(c.batchSize), true)
    ensures complete && Bounded(old(c.limit), old(c.batchSize), net, all) ==> c.num <= old(c.limit) + 1
  {
    hide AllValid, Serves, Drained, AlwaysAnswers;
    docs := [];
    while true
      invariant AllValid(cursors, conns) && c.limit == old(c.limit) && c.batchSize == old(c.batchSize)
      invariant target != null && !c.startedIterating ==> target in conns && target.alive
      invariant !c.dead && docs <= all
      invariant if c.startedIterating then Underway(c, net, all, docs, 1) && Guarded(c, docs) else docs == []
      decreases |all| - |docs|
    {
      var more := HasNextStep(c, net, target, all, docs, cursors, conns);
      if more.None? {
        return docs, false;
      }
      if !more.value {
        return docs, true;
      }
      var step := NextStep(c, net, target, all, docs, 1, cursors, conns);
      docs := docs + [step.doc];
    }
  }

  /** while (($doc = $c->next()) !== null) { $docs[] = $doc; } */
  method DrainWithNext(c: MongoCursor, net: Request -> Reply, target: MongoConnection?, ghost all: seq<Hash>,
                       ghost cursors: set<MongoCursor>, ghost conns: set<MongoConnection>)
    returns (docs: seq<Hash>, complete: bool)
    requires AllValid(cursors, conns) && c in cursors && Serves(net, all)
    requires target != null && !c.startedIterating ==> target in conns && target.alive
    requires !c.startedIterating && !c.dead
    modifies c, conns, cursors`dead, cursors`cursorId, cursors`connection, cursors`history
    ensures AllValid(cursors, conns)
    ensures docs <= all
    ensures AlwaysAnswers(net) && target != null ==> complete
    ensures complete ==> Drained(docs, net, all, old(c.limit), old(c.batchSize), false)
    ensures complete && Bounded(old(c.limit), old(c.batchSize), net, all) ==> c.num <= old(c.limit)
  {
    hide AllValid, Serves, Drained, AlwaysAnswers;
    docs := [];
    while true
      invariant AllValid(cursors, conns) && c.limit == old(c.limit) && c.batchSize == old(c.batchSize)
      invariant target != null && !c.startedIterating ==> target in conns && target.alive
      invariant !c.dead && docs <= all
      invariant if c.startedIterating then Underway(c, net, all, docs, 0) else docs == []
      decreases |all| - |docs|
    {
      var step := NextStep(c, net, target, all, docs, 0, cursors, conns);
      if !step.Returned? {
        return docs, step.Finished?;
      }
      docs := docs + [step.doc];
    }
  }

  /** A server that answers a query with one document and the getMore behind it with two more. */
  function OneThenTwo(d: Hash): Request -> Reply {
    (r: Request) =>
      if r.id == 0 then Arrived(7, r.num, false, [d])
      else if r.num == 1 then Arrived(0, 1, false, [d, d]) else Arrived(0, r.num, false, [])
  }

  /** With a limit of 2 and a batch size of 2, a loop that only calls next gets three documents from it. */
  method NextPassesTheLimit(c: MongoCursor, target: MongoConnection, d: Hash, ghost cursors: set<MongoCursor>,
                            ghost conns: set<MongoConnection>)
    returns (docs: seq<Hash>)
    requires AllValid(cursors, conns) && c in cursors && target in conns && target.alive && !IsError(d)
    requires !c.startedIterating && !c.dead && c.limit == c.batchSize == 2
    modifies c, conns, cursors`dead, cursors`cursorId, cursors`connection, cursors`history
    ensures docs == [d, d, d]
  {
    hide AllValid, IsError, OthersKept;
    var net := OneThenTwo(d);
    var first := c.Next(net, target, true, cursors, conns);
    CountIsRight(c, cursors, conns);
    var second := c.Next(net, target, true, cursors, conns);
    CountIsRight(c, cursors, conns);
    assert c.received == [d, d, d];
    var third := c.Next(net, target, true, cursors, conns);
    return [first.doc, second.doc, third.doc];
  }
}
