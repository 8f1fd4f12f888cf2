/** The pool's queues and what it tells the validator, told from the events of a run: which calls were
    made, which connections closed, which replies and results came. */
module PoolHistory {
  import opened Common
  import opened ShareRules
  import opened PoolRules
  import opened PoolTheorems
  import ShareTheorems

  // ---------- waiting long polls ----------

  predicate EndsWait(e: PoolEvent, conn: Conn) {
    e.BlockChange? || e == Close(conn)
  }

  /** No block changes and the connection stays open. */
  predicate Waits(es: seq<PoolEvent>, conn: Conn) {
    forall e :: e in es ==> !EndsWait(e, conn)
  }

  /** The connections of the long polls that nothing ended, in the order in which they were made. */
  function OpenPolls(es: seq<PoolEvent>): seq<Conn> {
    if es == [] then []
    else (if es[0].LongPoll? && Waits(es[1..], es[0].conn) then [es[0].conn] else []) + OpenPolls(es[1..])
  }

  function StillWaiting(lp: seq<Conn>, es: seq<PoolEvent>): seq<Conn> {
    if lp == [] then [] else (if Waits(es, lp[0]) then [lp[0]] else []) + StillWaiting(lp[1..], es)
  }

  lemma WaitsOn(es: seq<PoolEvent>, conn: Conn)
    requires es != []
    ensures Waits(es, conn) <==> !EndsWait(es[0], conn) && Waits(es[1..], conn)
  {
    assert es == [es[0]] + es[1..];
  }

  lemma {:induction false} OneMoreWaiting(lp: seq<Conn>, conn: Conn, es: seq<PoolEvent>)
    ensures StillWaiting(lp + [conn], es) == StillWaiting(lp, es) + if Waits(es, conn) then [conn] else []
  {
    if lp == [] {
      assert [] + [conn] == [conn] && [conn][1..] == [];
    } else {
      OneMoreWaiting(lp[1..], conn, es);
      assert (lp + [conn])[1..] == lp[1..] + [conn];
    }
  }

  lemma {:induction false} StillWaitingAfter(lp: seq<Conn>, es: seq<PoolEvent>)
    requires es != []
    ensures es[0].BlockChange? ==> StillWaiting(lp, es) == []
    ensures es[0].Close? ==> StillWaiting(lp, es) == StillWaiting(WithoutConn(lp, es[0].conn), es[1..])
    ensures !es[0].BlockChange? && !es[0].Close? ==> StillWaiting(lp, es) == StillWaiting(lp, es[1..])
  {
    if lp != [] {
      WaitsOn(es, lp[0]);
      StillWaitingAfter(lp[1..], es);
      if es[0].Close? && lp[0] != es[0].conn {
        var rest := WithoutConn(lp[1..], es[0].conn);
        assert ([lp[0]] + rest)[1..] == rest;
      } else if es[0].Close? {
        assert [] + WithoutConn(lp[1..], es[0].conn) == WithoutConn(lp[1..], es[0].conn);
      }
    }
  }

  function ListAfter(lp: seq<Conn>, e: PoolEvent): seq<Conn> {
    match e
    case LongPoll(conn) => lp + [conn]
    case Close(conn) => WithoutConn(lp, conn)
    case BlockChange(_) => []
    case _ => lp
  }

  lemma ListInStep(p: Pool, e: PoolEvent)
    ensures PoolStep(p, e).server.lp == ListAfter(p.server.lp, e)
  {
  }

  lemma ListThenRest(lp: seq<Conn>, es: seq<PoolEvent>)
    requires es != []
    ensures StillWaiting(ListAfter(lp, es[0]), es[1..]) + OpenPolls(es[1..]) == StillWaiting(lp, es) + OpenPolls(es)
  {
    StillWaitingAfter(lp, es);
    if es[0].LongPoll? {
      OneMoreWaiting(lp, es[0].conn, es[1..]);
      var one := if Waits(es[1..], es[0].conn) then [es[0].conn] else [];
      var waiting, later := StillWaiting(lp, es[1..]), OpenPolls(es[1..]);
      assert waiting + one + later == waiting + (one + later);
    } else {
      assert OpenPolls(es) == OpenPolls(es[1..]);
    }
  }

  /** The long-poll list is those made since the last block change and not closed since, in the order in
      which they were made. */
  lemma {:induction false} LongPollsListed(p: Pool, es: seq<PoolEvent>)
    ensures PoolRun(p, es).server.lp == StillWaiting(p.server.lp, es) + OpenPolls(es)
    decreases |es|
  {
    if es == [] {
      AllWaiting(p.server.lp);
    } else {
      LongPollsListed(PoolStep(p, es[0]), es[1..]);
      ListInStep(p, es[0]);
      ListThenRest(p.server.lp, es);
    }
  }

  lemma {:induction false} AllWaiting(lp: seq<Conn>)
    ensures StillWaiting(lp, []) == lp
  {
    if lp != [] {
      AllWaiting(lp[1..]);
    }
  }

  // ---------- what becomes of a queued request ----------

  predicate Closes(es: seq<PoolEvent>, conn: Conn) {
    Close(conn) in es
  }

  lemma {:induction false} KeptUnlessClosed(queue: seq<Request>, conn: Conn, r: Request)
    ensures r in WithoutRequests(queue, conn) <==> r in queue && r.conn != conn
  {
    if queue != [] {
      KeptUnlessClosed(queue[1..], conn, r);
    }
  }

  lemma {:induction false} NewRequests(s: Server, conns: seq<Conn>, r: Request)
    ensures r in Converted(s, conns).queue ==> r in s.queue || r.ticket >= s.tickets
    ensures Converted(s, conns).tickets >= s.tickets
    decreases |conns|
  {
    if conns != [] {
      var t := Queued(s, conns[0], true);
      NewRequests(t.(refs := t.refs - multiset{conns[0]}), conns[1..], r);
    }
  }

  lemma {:induction false} OldRequests(s: Server, conns: seq<Conn>, r: Request)
    requires r in s.queue
    ensures r in Converted(s, conns).queue
    decreases |conns|
  {
    if conns != [] {
      var t := Queued(s, conns[0], true);
      OldRequests(t.(refs := t.refs - multiset{conns[0]}), conns[1..], r);
    }
  }

  /** Requests never come back. */
  lemma NotQueuedInStep(p: Pool, e: PoolEvent, r: Request)
    requires r !in p.server.queue && r.ticket < p.server.tickets
    ensures r !in PoolStep(p, e).server.queue && r.ticket < PoolStep(p, e).server.tickets
  {
    match e
    case Close(conn) => KeptUnlessClosed(p.server.queue, conn, r);
    case BlockChange(_) => NewRequests(p.server, p.server.lp, r);
    case _ =>
  }

  lemma {:induction false} NeverQueuedAgain(p: Pool, es: seq<PoolEvent>, r: Request)
    requires r !in p.server.queue && r.ticket < p.server.tickets
    ensures r !in PoolRun(p, es).server.queue
    decreases |es|
  {
    if es != [] {
      NotQueuedInStep(p, es[0], r);
      NeverQueuedAgain(PoolStep(p, es[0]), es[1..], r);
    }
  }

  /** A queued request leaves the queue by being served or with its connection. */
  lemma QueuedInStep(p: Pool, e: PoolEvent, r: Request)
    requires r in p.server.queue
    ensures var t := PoolStep(p, e);
            if e == Close(r.conn) then r !in t.server.queue
            else r in t.server.queue || r in Requested(t.served)
  {
    match e
    case Close(conn) => KeptUnlessClosed(p.server.queue, conn, r);
    case BlockChange(_) => OldRequests(p.server, p.server.lp, r);
    case Fire(sent) =>
      if p.sources > 0 && HasBoth(p) {
        var t := Fired(p, sent);
        assert t.served == p.served + [Served(p.server.queue[0], p.cache.queue[0], sent)];
        assert Requested(t.served)[|p.served|] == p.server.queue[0];
        assert t.server.queue == p.server.queue[1..];
      }
    case _ =>
  }

  lemma ServedGrows(p: Pool, e: PoolEvent)
    ensures p.served <= PoolStep(p, e).served
  {
  }

  lemma {:induction false} ServedGrowsInRun(p: Pool, es: seq<PoolEvent>)
    ensures p.served <= PoolRun(p, es).served
    decreases |es|
  {
    if es != [] {
      ServedGrows(p, es[0]);
      ServedGrowsInRun(PoolStep(p, es[0]), es[1..]);
    }
  }

  lemma ServedStaysServed(p: Pool, q: Pool, r: Request)
    requires p.served <= q.served && r in Requested(p.served)
    ensures r in Requested(q.served)
  {
    var i :| 0 <= i < |p.served| && Requested(p.served)[i] == r;
    assert Requested(q.served)[i] == r;
  }

  lemma ServedIsNotQueued(p: Pool, r: Request)
    requires InArrivalOrder(p) && r in Requested(p.served)
    ensures r !in p.server.queue
  {
    OrderMeans(p);
    var i :| 0 <= i < |p.served| && Requested(p.served)[i] == r;
    assert p.served[i].request == r;
  }

  lemma TicketsInUse(p: Pool, r: Request)
    requires InArrivalOrder(p) && (r in p.server.queue || r in Requested(p.served))
    ensures r.ticket < p.server.tickets
  {
    var all := Requested(p.served) + p.server.queue;
    RisingMeans(all, 0, p.server.tickets);
    assert r in all;
  }

  /** After any run a queued request is still queued, unless it was served or its connection closed; if
      it closed first, it never is. */
  lemma {:induction false} RequestAccounted(p: Pool, r: Request, es: seq<PoolEvent>)
    requires PoolLaw(p) && r in p.server.queue
    ensures var q := PoolRun(p, es);
            && (r in q.server.queue <==> r !in Requested(q.served) && !Closes(es, r.conn))
            && (r in q.server.queue || r in Requested(q.served) || Closes(es, r.conn))
    decreases |es|
  {
    PoolLawAlways(p, es);
    var q := PoolRun(p, es);
    if r in Requested(q.served) {
      ServedIsNotQueued(q, r);
    }
    if es == [] {
      if r in Requested(p.served) {
        ServedIsNotQueued(p, r);
      }
    } else {
      var t := PoolStep(p, es[0]);
      StepKeepsPoolLaw(p, es[0]);
      QueuedInStep(p, es[0], r);
      assert Closes(es, r.conn) <==> es[0] == Close(r.conn) || Closes(es[1..], r.conn) by {
        assert es == [es[0]] + es[1..];
      }
      if r in t.server.queue {
        RequestAccounted(t, r, es[1..]);
      } else {
        TicketsKept(p, es[0]);
        TicketsInUse(p, r);
        NeverQueuedAgain(t, es[1..], r);
        if r in Requested(t.served) {
          ServedGrowsInRun(t, es[1..]);
          ServedStaysServed(t, q, r);
        }
      }
    }
  }

  lemma TicketsKept(p: Pool, e: PoolEvent)
    ensures PoolStep(p, e).server.tickets >= p.server.tickets
  {
    if e.BlockChange? && p.server.lp != [] {
      NewRequests(p.server, p.server.lp, Request(0, p.server.lp[0], true));
    }
  }

  /** A getwork call queues one request, behind all others, that is no long poll's, and schedules one
      callback; the request is then served, dropped as its connection closes, or waits. */
  lemma CallAccounted(p: Pool, conn: Conn, es: seq<PoolEvent>)
    requires PoolLaw(p)
    ensures var r := Request(p.server.tickets, conn, false);
            var t, q := PoolStep(p, Call(conn)), PoolRun(PoolStep(p, Call(conn)), es);
            && t.server.queue == p.server.queue + [r] && t.sources == p.sources + 1
            && (r in q.server.queue <==> r !in Requested(q.served) && !Closes(es, conn))
            && (r in q.server.queue || r in Requested(q.served) || Closes(es, conn))
  {
    StepKeepsPoolLaw(p, Call(conn));
    RequestAccounted(PoolStep(p, Call(conn)), Request(p.server.tickets, conn, false), es);
  }

  // ---------- long polls are answered in the order they were made ----------

  /** The request that the i-th open long poll becomes at a block change. */
  function PollRequest(p: Pool, open: seq<Conn>, i: nat): Request
    requires i < |open|
  {
    Request(p.server.tickets + i, open[i], true)
  }

  lemma PollIsQueued(p: Pool, block: nat, i: nat)
    requires PoolLaw(p) && i < |p.server.lp|
    ensures PollRequest(p, p.server.lp, i) in PoolStep(p, BlockChange(block)).server.queue
  {
    ConversionInOrder(p.server, p.server.lp, Requested(p.served));
    var queue := PoolStep(p, BlockChange(block)).server.queue;
    assert queue == Converted(p.server, p.server.lp).queue;
    assert queue[|p.server.queue| + i] == PollRequest(p, p.server.lp, i);
  }

  predicate ServedInOrder(q: Pool, r: Request, s: Request) {
    forall a, b :: 0 <= a < |q.served| && 0 <= b < |q.served| ==>
      q.served[a].request == r && q.served[b].request == s ==> a < b
  }

  /** From a fresh pool, through any run to a block change and any run after it: the long polls then
      open, told from the events, become requests in the order in which they were made. Each of them is
      served, dropped as its connection closes, or waits; and of two, the one made earlier is served
      earlier, and is served or closed if the other one is served. */
  lemma LongPollsAnsweredInOrder(min: CacheSize, es: seq<PoolEvent>, block: nat, fs: seq<PoolEvent>, i: nat, j: nat)
    requires i < j < |OpenPolls(es)|
    ensures var p, open := PoolRun(NewPool(min), es), OpenPolls(es);
            var q := PoolRun(PoolStep(p, BlockChange(block)), fs);
            var r, s := PollRequest(p, open, i), PollRequest(p, open, j);
            && (r in q.server.queue || r in Requested(q.served) || Closes(fs, open[i]))
            && (s in Requested(q.served) ==> r in Requested(q.served) || Closes(fs, open[i]))
            && ServedInOrder(q, r, s)
  {
    var p, open := PoolRun(NewPool(min), es), OpenPolls(es);
    NewPoolLaw(min);
    PoolLawAlways(NewPool(min), es);
    LongPollsListed(NewPool(min), es);
    assert p.server.lp == open;
    var t := PoolStep(p, BlockChange(block));
    StepKeepsPoolLaw(p, BlockChange(block));
    PollIsQueued(p, block, i);
    RequestAccounted(t, PollRequest(p, open, i), fs);
    PoolLawAlways(t, fs);
    EarlierFirst(PoolRun(t, fs), PollRequest(p, open, i), PollRequest(p, open, j));
  }

  lemma EarlierFirst(q: Pool, r: Request, s: Request)
    requires InArrivalOrder(q) && r.ticket < s.ticket
    ensures s in Requested(q.served) ==> r !in q.server.queue
    ensures ServedInOrder(q, r, s)
  {
    OrderMeans(q);
    if s in Requested(q.served) {
      var b :| 0 <= b < |q.served| && Requested(q.served)[b] == s;
      assert q.served[b].request == s;
    }
  }

  // ---------- calls and answers, counted ----------

  function CallsOf(es: seq<PoolEvent>, conn: Conn): nat {
    if es == [] then 0
    else (if es[0] == Call(conn) || es[0] == LongPoll(conn) then 1 else 0) + CallsOf(es[1..], conn)
  }

  function AnswersTo(served: seq<Served>, conn: Conn): nat {
    if served == [] then 0
    else AnswersTo(served[..|served| - 1], conn) + if served[|served| - 1].request.conn == conn then 1 else 0
  }

  lemma {:induction false} ConversionCallsNobody(s: Server, conns: seq<Conn>)
    ensures Converted(s, conns).asked == s.asked && Converted(s, conns).answered == s.answered
    decreases |conns|
  {
    if conns != [] {
      var t := Queued(s, conns[0], true);
      ConversionCallsNobody(t.(refs := t.refs - multiset{conns[0]}), conns[1..]);
    }
  }

  lemma AnsweredOnce(s: Server, served: seq<Served>, x: Served, conn: Conn)
    requires s.queue != [] && x.request == s.queue[0] && s.answered[conn] == AnswersTo(served, conn)
    ensures Answered(s).answered[conn] == AnswersTo(served + [x], conn) && Answered(s).asked == s.asked
  {
    assert (served + [x])[..|served + [x]| - 1] == served;
  }

  lemma FiringAnswers(p: Pool, sent: bool, conn: Conn)
    requires p.sources > 0 && p.server.answered[conn] == AnswersTo(p.served, conn)
    ensures var t := Fired(p, sent);
            t.server.asked == p.server.asked && t.server.answered[conn] == AnswersTo(t.served, conn)
  {
    if HasBoth(p) {
      AnsweredOnce(p.server, p.served, Served(p.server.queue[0], p.cache.queue[0], sent), conn);
    }
  }

  /** The connection made so many calls, and as before has as many answers as requests served. */
  predicate Called(p: Pool, t: Pool, conn: Conn, calls: nat) {
    t.server.asked[conn] == p.server.asked[conn] + calls && t.server.answered[conn] == AnswersTo(t.served, conn)
  }

  lemma CallsInStep(p: Pool, e: PoolEvent, conn: Conn)
    requires p.server.answered[conn] == AnswersTo(p.served, conn)
    ensures Called(p, PoolStep(p, e), conn, if e == Call(conn) || e == LongPoll(conn) then 1 else 0)
  {
    match e
    case BlockChange(_) => ConversionCallsNobody(p.server, p.server.lp);
    case Fire(sent) => if p.sources > 0 { FiringAnswers(p, sent, conn); }
    case _ =>
  }

  /** The ledger's calls and answers of a connection are those of the run. */
  lemma {:induction false} CallsCounted(p: Pool, es: seq<PoolEvent>, conn: Conn)
    requires p.server.answered[conn] == AnswersTo(p.served, conn)
    ensures Called(p, PoolRun(p, es), conn, CallsOf(es, conn))
    decreases |es|
  {
    if es != [] {
      CallsInStep(p, es[0], conn);
      CallsCounted(PoolStep(p, es[0]), es[1..], conn);
    }
  }

  // ---------- where the items come from, and that none is lost ----------

  /** The data of the replies to calls that were in flight, in the order in which they came. */
  function Replies(p: Pool, es: seq<PoolEvent>): seq<WorkData>
    decreases |es|
  {
    if es == [] then []
    else (if es[0].Reply? && p.cache.inFlight > 0 then [es[0].data] else []) + Replies(PoolStep(p, es[0]), es[1..])
  }

  predicate ItemIs(item: Item, replies: seq<WorkData>) {
    item.serial < |replies| && item.data == replies[item.serial]
  }

  ghost predicate ItemsAre(p: Pool, replies: seq<WorkData>) {
    && p.serials == |replies|
    && (forall item :: item in p.cache.queue ==> ItemIs(item, replies))
    && (forall i :: 0 <= i < |p.served| ==> ItemIs(p.served[i].item, replies))
  }

  lemma ItemsInStep(p: Pool, e: PoolEvent, replies: seq<WorkData>)
    requires ItemsAre(p, replies)
    ensures ItemsAre(PoolStep(p, e), replies + if e.Reply? && p.cache.inFlight > 0 then [e.data] else [])
  {
    var now := replies + if e.Reply? && p.cache.inFlight > 0 then [e.data] else [];
    var t := PoolStep(p, e);
    assert forall item :: ItemIs(item, replies) ==> ItemIs(item, now);
    if e.Fire? && p.sources > 0 && HasBoth(p) {
      assert p.cache.queue[0] in p.cache.queue;
      assert t.cache.queue == p.cache.queue[1..];
      assert forall item :: item in t.cache.queue ==> item in p.cache.queue;
    } else if e.Reply? && p.cache.inFlight > 0 {
      assert t.cache.queue == [Item(p.serials, e.data)] + p.cache.queue;
    }
  }

  /** Every item cached or served is a reply of the node, as it came. */
  lemma {:induction false} ItemsAreReplies(p: Pool, replies: seq<WorkData>, es: seq<PoolEvent>)
    requires ItemsAre(p, replies)
    ensures ItemsAre(PoolRun(p, es), replies + Replies(p, es))
    decreases |es|
  {
    if es == [] {
      assert replies + [] == replies;
    } else {
      var more := if es[0].Reply? && p.cache.inFlight > 0 then [es[0].data] else [];
      ItemsInStep(p, es[0], replies);
      ItemsAreReplies(PoolStep(p, es[0]), replies + more, es[1..]);
      var later := Replies(PoolStep(p, es[0]), es[1..]);
      assert replies + (more + later) == replies + more + later;
    }
  }

  /** The serial from which items are of the current block. */
  function BlockStart(p: Pool, start: nat, es: seq<PoolEvent>): nat
    decreases |es|
  {
    if es == [] then start
    else BlockStart(PoolStep(p, es[0]), if es[0].BlockChange? then p.serials else start, es[1..])
  }

  predicate CachedAt(p: Pool, serial: nat) {
    exists i :: 0 <= i < |p.cache.queue| && p.cache.queue[i].serial == serial
  }

  predicate ServedAt(p: Pool, serial: nat) {
    exists i :: 0 <= i < |p.served| && p.served[i].item.serial == serial
  }

  /** Every item of the current block is cached or served, and only those are cached. */
  ghost predicate NoneLost(p: Pool, start: nat) {
    && start <= p.serials
    && (forall n: nat :: start <= n < p.serials ==> CachedAt(p, n) || ServedAt(p, n))
    && (forall i :: 0 <= i < |p.cache.queue| ==> start <= p.cache.queue[i].serial)
  }

  lemma FiringLosesNone(p: Pool, sent: bool, n: nat)
    requires p.sources > 0 && HasBoth(p) && (CachedAt(p, n) || ServedAt(p, n))
    ensures var t := Fired(p, sent); CachedAt(t, n) || ServedAt(t, n)
  {
    var t := Fired(p, sent);
    assert t.served == p.served + [Served(p.server.queue[0], p.cache.queue[0], sent)];
    assert t.cache.queue == p.cache.queue[1..];
    if ServedAt(p, n) {
      var i :| 0 <= i < |p.served| && p.served[i].item.serial == n;
      assert t.served[i] == p.served[i];
    } else {
      var i :| 0 <= i < |p.cache.queue| && p.cache.queue[i].serial == n;
      if i == 0 {
        assert t.served[|p.served|].item.serial == n;
      } else {
        assert t.cache.queue[i - 1].serial == n;
      }
    }
  }

  lemma ReplyLosesNone(p: Pool, data: WorkData, n: nat)
    requires p.cache.inFlight > 0 && (n == p.serials || CachedAt(p, n) || ServedAt(p, n))
    ensures var t := PoolStep(p, Reply(data)); CachedAt(t, n) || ServedAt(t, n)
  {
    var t := PoolStep(p, Reply(data));
    assert t.cache.queue == [Item(p.serials, data)] + p.cache.queue && t.served == p.served;
    if n == p.serials {
      assert t.cache.queue[0].serial == n;
    } else if CachedAt(p, n) {
      var i :| 0 <= i < |p.cache.queue| && p.cache.queue[i].serial == n;
      assert t.cache.queue[i + 1].serial == n;
    }
  }

  lemma NoneLostByFiring(p: Pool, sent: bool, start: nat)
    requires NoneLost(p, start) && p.sources > 0
    ensures NoneLost(Fired(p, sent), start)
  {
    if HasBoth(p) {
      var t := Fired(p, sent);
      assert t.cache.queue == p.cache.queue[1..] && t.serials == p.serials;
      forall n: nat | start <= n < t.serials
        ensures CachedAt(t, n) || ServedAt(t, n)
      {
        FiringLosesNone(p, sent, n);
      }
      assert forall i :: 0 <= i < |t.cache.queue| ==> t.cache.queue[i] == p.cache.queue[i + 1];
    } else {
      SameItemsKept(p, Fired(p, sent), start);
    }
  }

  lemma NoneLostByReply(p: Pool, data: WorkData, start: nat)
    requires NoneLost(p, start) && p.cache.inFlight > 0
    ensures NoneLost(PoolStep(p, Reply(data)), start)
  {
    var t := PoolStep(p, Reply(data));
    assert t.cache.queue == [Item(p.serials, data)] + p.cache.queue && t.serials == p.serials + 1;
    forall n: nat | start <= n < t.serials
      ensures CachedAt(t, n) || ServedAt(t, n)
    {
      ReplyLosesNone(p, data, n);
    }
  }

  lemma NoneLostInStep(p: Pool, e: PoolEvent, start: nat)
    requires NoneLost(p, start)
    ensures NoneLost(PoolStep(p, e), if e.BlockChange? then p.serials else start)
  {
    match e
    case Reply(data) => if p.cache.inFlight > 0 { NoneLostByReply(p, data, start); }
    case Fire(sent) => if p.sources > 0 { NoneLostByFiring(p, sent, start); }
    case BlockChange(_) =>
    case _ => SameItemsKept(p, PoolStep(p, e), start);
  }

  lemma SameItemsKept(p: Pool, t: Pool, start: nat)
    requires NoneLost(p, start)
    requires t.cache.queue == p.cache.queue && t.served == p.served && t.serials == p.serials
    ensures NoneLost(t, start)
  {
    forall n: nat | start <= n < t.serials
      ensures CachedAt(t, n) || ServedAt(t, n)
    {
      assert CachedAt(p, n) || ServedAt(p, n);
    }
  }

  /** Over every run no item is lost except by a block change, which discards all that were cached. */
  lemma {:induction false} NoItemLost(p: Pool, start: nat, es: seq<PoolEvent>)
    requires NoneLost(p, start)
    ensures NoneLost(PoolRun(p, es), BlockStart(p, start, es))
    decreases |es|
  {
    if es != [] {
      NoneLostInStep(p, es[0], start);
      NoItemLost(PoolStep(p, es[0]), if es[0].BlockChange? then p.serials else start, es[1..]);
    }
  }

  // ---------- calls upstream ----------

  /** A call upstream is answered, or fails. */
  predicate EndsCall(p: Pool, e: PoolEvent) {
    (e.Reply? || e.Failure?) && p.cache.inFlight > 0
  }

  function CallsEnded(p: Pool, es: seq<PoolEvent>): nat
    decreases |es|
  {
    if es == [] then 0 else (if EndsCall(p, es[0]) then 1 else 0) + CallsEnded(PoolStep(p, es[0]), es[1..])
  }

  function OneMoreFailed(p: Pool, before: nat, e: PoolEvent): nat {
    if e.BlockChange? then 0 else if e.Failure? && p.cache.inFlight > 0 then before + 1 else before
  }

  /** How many calls failed since the last block change, if so many had before. */
  function FailedSince(p: Pool, before: nat, es: seq<PoolEvent>): nat
    decreases |es|
  {
    if es == [] then before else FailedSince(PoolStep(p, es[0]), OneMoreFailed(p, before, es[0]), es[1..])
  }

  /** How many calls were in flight at the last block change, if so many were at the one before. */
  function InFlightAtBlock(p: Pool, before: nat, es: seq<PoolEvent>): nat
    decreases |es|
  {
    if es == [] then before
    else InFlightAtBlock(PoolStep(p, es[0]), if es[0].BlockChange? then p.cache.inFlight else before, es[1..])
  }

  lemma CallsInOneStep(p: Pool, e: PoolEvent)
    ensures var c, d := p.cache, PoolStep(p, e).cache;
            && d.inFlight + (if EndsCall(p, e) then 1 else 0) + c.issued == c.inFlight + d.issued
            && d.failures == OneMoreFailed(p, c.failures, e)
            && d.carry == (if e.BlockChange? then c.inFlight else c.carry)
  {
  }

  /** The history fields of the cache are those of the run: every call made is in flight until its reply
      or failure, the failures are those since the last block change, and the carry is what was in flight
      then. */
  lemma {:induction false} UpstreamCallsCounted(p: Pool, es: seq<PoolEvent>)
    ensures var c, d := p.cache, PoolRun(p, es).cache;
            && d.inFlight + CallsEnded(p, es) + c.issued == c.inFlight + d.issued
            && d.failures == FailedSince(p, c.failures, es)
            && d.carry == InFlightAtBlock(p, c.carry, es)
    decreases |es|
  {
    if es != [] {
      CallsInOneStep(p, es[0]);
      UpstreamCallsCounted(PoolStep(p, es[0]), es[1..]);
    }
  }

  // ---------- scheduled callbacks ----------

  /** A getwork call or a reply. */
  predicate Schedules(p: Pool, e: PoolEvent) {
    e.Call? || (e.Reply? && p.cache.inFlight > 0)
  }

  /** A firing after which one of the queues is empty. */
  predicate Unschedules(p: Pool, e: PoolEvent) {
    e.Fire? && p.sources > 0 && !HasBoth(PoolStep(p, e))
  }

  function Scheduled(p: Pool, es: seq<PoolEvent>): nat
    decreases |es|
  {
    if es == [] then 0 else (if Schedules(p, es[0]) then 1 else 0) + Scheduled(PoolStep(p, es[0]), es[1..])
  }

  function Unscheduled(p: Pool, es: seq<PoolEvent>): nat
    decreases |es|
  {
    if es == [] then 0 else (if Unschedules(p, es[0]) then 1 else 0) + Unscheduled(PoolStep(p, es[0]), es[1..])
  }

  lemma SourcesInStep(p: Pool, e: PoolEvent)
    ensures PoolStep(p, e).sources + (if Unschedules(p, e) then 1 else 0)
            == p.sources + (if Schedules(p, e) then 1 else 0)
  {
  }

  /** One callback is scheduled by each call and each reply, and it ends with the first of its firings
      that leaves a queue empty. */
  lemma {:induction false} SourcesCounted(p: Pool, es: seq<PoolEvent>)
    ensures PoolRun(p, es).sources + Unscheduled(p, es) == p.sources + Scheduled(p, es)
    decreases |es|
  {
    if es != [] {
      SourcesInStep(p, es[0]);
      SourcesCounted(PoolStep(p, es[0]), es[1..]);
    }
  }

  // ---------- the block ----------

  function LastBlockOf(es: seq<PoolEvent>, block: nat): nat {
    if es == [] then block else LastBlockOf(es[1..], if es[0].BlockChange? then es[0].block else block)
  }

  /** The block announced to those who ask is the last one. */
  lemma {:induction false} CurrentBlockIsLast(p: Pool, es: seq<PoolEvent>)
    ensures PoolRun(p, es).currentBlock == LastBlockOf(es, p.currentBlock)
    decreases |es|
  {
    if es != [] {
      CurrentBlockIsLast(PoolStep(p, es[0]), es[1..]);
    }
  }

  // ---------- what the validator is told ----------

  /** Every result, every finished thread, every hash and every block. */
  function ToldOf(e: PoolEvent): seq<ShareRules.Event> {
    match e
    case Share(event) => if event.Track? || event.NewBlock? then [] else [event]
    case BlockChange(block) => [ShareRules.Event.NewBlock(block)]
    case _ => []
  }

  function ToldIn(es: seq<PoolEvent>): seq<ShareRules.Event> {
    if es == [] then [] else ToldOf(es[0]) + ToldIn(es[1..])
  }

  function WithoutTracks(trace: seq<ShareRules.Event>): seq<ShareRules.Event> {
    if trace == [] then []
    else WithoutTracks(trace[..|trace| - 1]) + if trace[|trace| - 1].Track? then [] else [trace[|trace| - 1]]
  }

  lemma OneMoreTold(trace: seq<ShareRules.Event>, e: ShareRules.Event)
    ensures WithoutTracks(trace + [e]) == WithoutTracks(trace) + if e.Track? then [] else [e]
  {
    assert (trace + [e])[..|trace + [e]| - 1] == trace;
  }

  lemma ToldInStep(p: Pool, e: PoolEvent)
    ensures WithoutTracks(PoolStep(p, e).trace) == WithoutTracks(p.trace) + ToldOf(e)
  {
    match e
    case Share(event) => OneMoreTold(p.trace, event);
    case BlockChange(block) => OneMoreTold(p.trace, ShareRules.Event.NewBlock(block));
    case Fire(sent) =>
      if p.sources > 0 && HasBoth(p) && sent {
        OneMoreTold(p.trace, Track(p.cache.queue[0].data, p.server.queue[0].conn.user));
      }
    case _ =>
  }

  /** Apart from what was sent to miners, the validator is told of every result, finished thread, hash
      and block of the run, in order, and of nothing else. */
  lemma {:induction false} ValidatorTold(p: Pool, es: seq<PoolEvent>)
    ensures WithoutTracks(PoolRun(p, es).trace) == WithoutTracks(p.trace) + ToldIn(es)
    decreases |es|
  {
    if es != [] {
      var t := PoolStep(p, es[0]);
      ToldInStep(p, es[0]);
      ValidatorTold(t, es[1..]);
      assert WithoutTracks(p.trace) + (ToldOf(es[0]) + ToldIn(es[1..]))
          == WithoutTracks(p.trace) + ToldOf(es[0]) + ToldIn(es[1..]);
    }
  }

  lemma SubmitIsTold(p: Pool, share: ShareRules.Share)
    ensures PoolStep(p, PoolEvent.Share(Submit(share))).trace == p.trace + [Submit(share)]
  {
  }

  /** Where in the trace a finished thread is told of. */
  lemma {:induction false} ThreadIsTold(p: Pool, es: seq<PoolEvent>, id: nat)
    requires PoolEvent.Share(ThreadDone(id)) in es
    ensures exists j :: |p.trace| <= j < |PoolRun(p, es).trace| && PoolRun(p, es).trace[j] == ThreadDone(id)
    decreases |es|
  {
    var t := PoolStep(p, es[0]);
    if es[0] == PoolEvent.Share(ThreadDone(id)) {
      assert t.trace == p.trace + [ThreadDone(id)];
      TraceOfRun(t, es[1..]);
      var q := PoolRun(p, es);
      assert q == PoolRun(t, es[1..]) && t.trace <= q.trace;
      assert q.trace[|p.trace|] == t.trace[|p.trace|] == ThreadDone(id);
    } else {
      TraceStep(p, es[0]);
      assert PoolEvent.Share(ThreadDone(id)) in es[1..] by {
        assert es == [es[0]] + es[1..];
      }
      ThreadIsTold(t, es[1..], id);
      var q := PoolRun(t, es[1..]);
      var j :| |t.trace| <= j < |q.trace| && q.trace[j] == ThreadDone(id);
      assert q == PoolRun(p, es) && |p.trace| <= j < |PoolRun(p, es).trace|;
    }
  }

  /** A result that comes in reaches the validator: once its thread is done, or at once if the cheap check
      fails, it has the code that the state of its arrival prescribes, whatever else happens. */
  lemma ResultGetsItsCode(env: Setting, p: Pool, share: ShareRules.Share, es: seq<PoolEvent>)
    requires PoolEvent.Share(ThreadDone(Shares(env, p).submitted)) in es || QuickError(Shares(env, p), share).Some?
    ensures var q := PoolRun(PoolStep(p, PoolEvent.Share(Submit(share))), es); var n := |p.trace|;
            && n < |q.trace| && q.trace[n] == Submit(share)
            && ShareTheorems.HasVerdict(env, q.trace, n, |q.trace|, Verdict(env, Shares(env, p), share))
  {
    var t := PoolStep(p, PoolEvent.Share(Submit(share)));
    var q, n := PoolRun(t, es), |p.trace|;
    SubmitIsTold(p, share);
    TraceOfRun(t, es);
    assert q.trace[n] == t.trace[n];
    assert p.trace <= q.trace;
    ShareTheorems.SameStart(env, p.trace, q.trace, n);
    if PoolEvent.Share(ThreadDone(Shares(env, p).submitted)) in es {
      ThreadIsTold(t, es, Shares(env, p).submitted);
      var j :| n < j < |q.trace| && q.trace[j] == ThreadDone(Shares(env, p).submitted);
      ShareTheorems.SettledByWorker(env, q.trace, n, j, |q.trace|);
    } else {
      ShareTheorems.VerdictFixedAtArrival(env, q.trace, n, |q.trace|);
    }
  }

  /** So if a result ends accepted, its item had been served to the same user before it came in. */
  lemma ServedBeforeAccepted(env: Setting, p: Pool, share: ShareRules.Share, es: seq<PoolEvent>)
    requires PoolLaw(p)
    ensures var q := PoolRun(PoolStep(p, PoolEvent.Share(Submit(share))), es); var n := |p.trace|;
            && n < |q.trace| && q.trace[n] == Submit(share)
            && (ShareTheorems.HasVerdict(env, q.trace, n, |q.trace|, SUCCESS) ==>
                  exists j :: 0 <= j < |p.served| && AnswersServed(share, p.served[j]))
  {
    var t := PoolStep(p, PoolEvent.Share(Submit(share)));
    var q, n := PoolRun(t, es), |p.trace|;
    SubmitIsTold(p, share);
    TraceOfRun(t, es);
    assert q.trace[n] == t.trace[n];
    assert p.trace <= q.trace;
    if ShareTheorems.HasVerdict(env, q.trace, n, |q.trace|, SUCCESS) {
      ShareTheorems.VerdictIs(env, q.trace, n, |q.trace|, SUCCESS);
      ShareTheorems.SameStart(env, p.trace, q.trace, n);
      AcceptedShareWasServed(env, p, share);
    }
  }
}
