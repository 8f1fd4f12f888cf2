/** What holds over every run of the cache, the server and the program that joins them. */
module PoolTheorems {
  import opened Common
  import opened ShareRules
  import opened PoolRules
  import ShareTheorems

  // ---------- the cache's counter ----------

  /** From the first block on, the wrapped count always equals the minimum, and items cached,
      calls in flight and failures since the last block balance exactly. */
  predicate CacheLaw(c: Cache) {
    && c.requests < TWO_32
    && (!c.started ==> c.queue == [] && c.inFlight == 0)
    && (c.started ==> Counted(c) == c.min && |c.queue| + c.inFlight + c.failures == c.min + c.carry)
  }

  lemma WrapSum(a: int, b: int)
    ensures Wrap(Wrap(a) + b) == Wrap(a + b)
  {
  }

  lemma WrapSmall(n: int)
    requires 0 <= n < TWO_32
    ensures Wrap(n) == n
  {
  }

  /** One more call raises the wrapped count by one, as long as the count is below its top. */
  lemma CountOneMore(requests: nat, items: nat)
    requires Wrap(Wrap(requests) + items) < TWO_32 - 1
    ensures Wrap(Wrap(requests) + 1) == Wrap(requests + 1)
    ensures Wrap(Wrap(Wrap(requests) + 1) + items) == Wrap(Wrap(requests) + items) + 1
  {
    WrapSum(requests, 1);
    WrapSum(requests, items);
    WrapSum(requests + 1, items);
    WrapSum(requests + items, 1);
  }

  lemma FillingReachesMinimum(c: Cache)
    requires Counted(c) <= c.min
    ensures Counted(Filled(c)) == c.min && Missing(c) == c.min - Counted(c)
  {
    var m := Missing(c);
    WrapSum(c.requests + m, |c.queue|);
    WrapSum(c.requests + |c.queue|, m);
    WrapSmall(Counted(c) + m);
  }

  lemma FlushKeepsLaw(c: Cache)
    requires CacheLaw(c)
    ensures CacheLaw(Flushed(c)) && Flushed(c).issued == c.issued + c.min
  {
    var d := c.(started := true, queue := [], requests := 0, carry := c.inFlight, failures := 0);
    WrapSmall(0);
    FillingReachesMinimum(d);
  }

  /** A reply never triggers another call: item and count move together. */
  lemma ReplyKeepsLaw(c: Cache, item: Item)
    requires CacheLaw(c) && c.inFlight > 0
    ensures CacheLaw(Received(c, item)) && Received(c, item).issued == c.issued
  {
    var d := c.(queue := [item] + c.queue, requests := Wrap(c.requests - 1), inFlight := c.inFlight - 1);
    WrapSum(c.requests - 1, |d.queue|);
    FillingReachesMinimum(d);
  }

  lemma FailureKeepsLaw(c: Cache)
    requires CacheLaw(c) && c.inFlight > 0
    ensures CacheLaw(Failed(c)) && Failed(c).issued == c.issued
  {
  }

  /** Taking an item triggers exactly one call. */
  lemma PopKeepsLaw(c: Cache)
    requires CacheLaw(c) && c.queue != []
    ensures CacheLaw(Popped(c)) && Popped(c).issued == c.issued + 1
  {
    var d := c.(queue := c.queue[1..]);
    WrapSum(c.requests + |c.queue|, -1);
    assert c.requests + |c.queue| - 1 == c.requests + |d.queue|;
    WrapSum(c.requests + |c.queue| - 1, 0);
    WrapSmall(c.min - 1);
    FillingReachesMinimum(d);
  }

  /** The counter is the true number of calls in flight exactly when as many calls failed since
      the last block as were in flight at it, modulo 2^32. */
  lemma CounterIsTruth(c: Cache)
    requires CacheLaw(c) && c.started && c.inFlight < TWO_32
    ensures c.requests == c.inFlight <==> Wrap(c.carry - c.failures) == 0
  {
  }

  /** Nothing cached and nothing coming, exactly when every slot was lost to a failure. */
  lemma CacheIsDry(c: Cache)
    requires CacheLaw(c) && c.started
    ensures c.queue == [] && c.inFlight == 0 <==> c.failures == c.min + c.carry
  {
  }

  // ---------- the server's ledger ----------

  /** One reference per list entry and queued request, and every call this connection ever made
      is listed, queued, answered or dropped, once. */
  predicate LedgerOf(s: Server, conn: Conn) {
    && s.refs[conn] == Held(s, conn)
    && s.asked[conn] == s.refs[conn] + s.answered[conn] + s.dropped[conn]
  }

  ghost predicate Ledger(s: Server) {
    forall conn :: LedgerOf(s, conn)
  }

  lemma {:induction false} RequestsOfJoin(a: seq<Request>, b: seq<Request>, conn: Conn)
    ensures Requests(a + b, conn) == Requests(a, conn) + Requests(b, conn)
  {
    if a == [] {
      assert a + b == b;
    } else {
      RequestsOfJoin(a[1..], b, conn);
      assert (a + b)[1..] == a[1..] + b;
    }
  }

  lemma {:induction false} TimesOfJoin(a: seq<Conn>, b: seq<Conn>, conn: Conn)
    ensures Times(a + b, conn) == Times(a, conn) + Times(b, conn)
  {
    if a == [] {
      assert a + b == b;
    } else {
      TimesOfJoin(a[1..], b, conn);
      assert (a + b)[1..] == a[1..] + b;
    }
  }

  lemma QueuedHolds(s: Server, conn: Conn, fromLp: bool, c: Conn)
    ensures Held(Queued(s, conn, fromLp), c) == Held(s, c) + if c == conn then 1 else 0
  {
    var r := Request(s.tickets, conn, fromLp);
    RequestsOfJoin(s.queue, [r], c);
    assert [r][1..] == [];
  }

  lemma CallKeepsLedger(s: Server, conn: Conn)
    requires Ledger(s)
    ensures Ledger(Getwork(s, conn))
  {
    forall c
      ensures LedgerOf(Getwork(s, conn), c)
    {
      QueuedHolds(s, conn, false, c);
      assert LedgerOf(s, c);
    }
  }

  lemma LongPollKeepsLedger(s: Server, conn: Conn)
    requires Ledger(s)
    ensures Ledger(LongPolled(s, conn))
  {
    forall c
      ensures LedgerOf(LongPolled(s, conn), c)
    {
      TimesOfJoin(s.lp, [conn], c);
      assert [conn][1..] == [];
      assert LedgerOf(s, c);
    }
  }

  /** Converting long polls gives each one request and changes no reference count. */
  lemma {:induction false} ConversionHolds(s: Server, conns: seq<Conn>, c: Conn)
    ensures var t := Converted(s, conns);
            && t.lp == s.lp && t.refs == s.refs
            && t.asked == s.asked && t.answered == s.answered && t.dropped == s.dropped
            && Requests(t.queue, c) == Requests(s.queue, c) + Times(conns, c)
    decreases |conns|
  {
    if conns != [] {
      var t := Queued(s, conns[0], true);
      QueuedHolds(s, conns[0], true, c);
      assert t.refs - multiset{conns[0]} == s.refs;
      ConversionHolds(t.(refs := t.refs - multiset{conns[0]}), conns[1..], c);
    }
  }

  lemma ReleaseKeepsLedger(s: Server)
    requires Ledger(s)
    ensures Ledger(Released(s))
  {
    forall c
      ensures LedgerOf(Released(s), c)
    {
      ConversionHolds(s, s.lp, c);
      assert LedgerOf(s, c);
    }
  }

  lemma {:induction false} RequestsWithout(queue: seq<Request>, conn: Conn, c: Conn)
    ensures Requests(WithoutRequests(queue, conn), c) == if c == conn then 0 else Requests(queue, c)
  {
    if queue != [] {
      RequestsWithout(queue[1..], conn, c);
      var head, rest := if queue[0].conn == conn then [] else [queue[0]], WithoutRequests(queue[1..], conn);
      assert (head + rest)[|head|..] == rest;
      if head == [] { assert head + rest == rest; }
    }
  }

  lemma {:induction false} TimesWithout(lp: seq<Conn>, conn: Conn, c: Conn)
    ensures Times(WithoutConn(lp, conn), c) == if c == conn then 0 else Times(lp, c)
  {
    if lp != [] {
      TimesWithout(lp[1..], conn, c);
      var head, rest := if lp[0] == conn then [] else [lp[0]], WithoutConn(lp[1..], conn);
      assert (head + rest)[|head|..] == rest;
      if head == [] { assert head + rest == rest; }
    }
  }

  lemma CloseKeepsLedger(s: Server, conn: Conn)
    requires Ledger(s)
    ensures Ledger(Closed(s, conn)) && Closed(s, conn).refs[conn] == 0
  {
    forall c
      ensures LedgerOf(Closed(s, conn), c)
    {
      RequestsWithout(s.queue, conn, c);
      TimesWithout(s.lp, conn, c);
      assert LedgerOf(s, c);
    }
    assert LedgerOf(s, conn);
  }

  lemma AnswerKeepsLedger(s: Server)
    requires Ledger(s) && s.queue != []
    ensures Ledger(Answered(s))
  {
    forall c
      ensures LedgerOf(Answered(s), c)
    {
      assert LedgerOf(s, c);
    }
  }

  /** For a connection that made one call: it is in exactly one place, and the server holds one
      reference to it exactly while it is listed or queued. */
  lemma OneCallOnePlace(s: Server, conn: Conn)
    requires Ledger(s) && s.asked[conn] == 1
    ensures Times(s.lp, conn) + Requests(s.queue, conn) + s.answered[conn] + s.dropped[conn] == 1
    ensures s.refs[conn] == Times(s.lp, conn) + Requests(s.queue, conn)
  {
    assert LedgerOf(s, conn);
  }

  // ---------- order ----------

  /** Tickets from `low` on, rising, all below `high`. */
  predicate Rising(queue: seq<Request>, low: nat, high: nat) {
    if queue == [] then low <= high
    else low <= queue[0].ticket && Rising(queue[1..], queue[0].ticket + 1, high)
  }

  lemma {:induction false} RisingWider(queue: seq<Request>, low: nat, low2: nat, high: nat)
    requires Rising(queue, low, high) && low2 <= low
    ensures low <= high && Rising(queue, low2, high)
  {
    if queue != [] {
      RisingWider(queue[1..], queue[0].ticket + 1, queue[0].ticket + 1, high);
    }
  }

  lemma {:induction false} RisingAppend(queue: seq<Request>, low: nat, high: nat, r: Request)
    requires Rising(queue, low, high) && r.ticket == high
    ensures Rising(queue + [r], low, high + 1)
  {
    if queue == [] {
      assert [r][1..] == [] && queue + [r] == [r];
    } else {
      RisingAppend(queue[1..], queue[0].ticket + 1, high, r);
      assert (queue + [r])[1..] == queue[1..] + [r];
    }
  }

  lemma {:induction false} RisingWithout(queue: seq<Request>, conn: Conn, low: nat, high: nat)
    requires Rising(queue, low, high)
    ensures Rising(WithoutRequests(queue, conn), low, high)
  {
    if queue != [] {
      RisingWithout(queue[1..], conn, queue[0].ticket + 1, high);
      var rest := WithoutRequests(queue[1..], conn);
      if queue[0].conn == conn {
        assert [] + rest == rest;
        RisingWider(rest, queue[0].ticket + 1, low, high);
      } else {
        assert ([queue[0]] + rest)[1..] == rest;
      }
    }
  }

  lemma {:induction false} RisingJoinWithout(a: seq<Request>, queue: seq<Request>, conn: Conn, low: nat, high: nat)
    requires Rising(a + queue, low, high)
    ensures Rising(a + WithoutRequests(queue, conn), low, high)
  {
    var rest := WithoutRequests(queue, conn);
    if a == [] {
      assert a + queue == queue && a + rest == rest;
      RisingWithout(queue, conn, low, high);
    } else {
      assert (a + queue)[1..] == a[1..] + queue && (a + rest)[1..] == a[1..] + rest;
      RisingJoinWithout(a[1..], queue, conn, a[0].ticket + 1, high);
    }
  }

  /** Long polls join the queue once each, in the order of the list. */
  lemma {:induction false} ConversionInOrder(s: Server, conns: seq<Conn>, before: seq<Request>)
    requires Rising(before + s.queue, 0, s.tickets)
    ensures var t := Converted(s, conns);
            && Rising(before + t.queue, 0, t.tickets)
            && s.queue <= t.queue && |t.queue| == |s.queue| + |conns|
            && (forall i :: 0 <= i < |conns| ==> t.queue[|s.queue| + i] == Request(s.tickets + i, conns[i], true))
    decreases |conns|
  {
    if conns != [] {
      var r := Request(s.tickets, conns[0], true);
      var t := Queued(s, conns[0], true);
      var u := t.(refs := t.refs - multiset{conns[0]});
      RisingAppend(before + s.queue, 0, s.tickets, r);
      assert (before + s.queue) + [r] == before + u.queue;
      ConversionInOrder(u, conns[1..], before);
      var q := Converted(u, conns[1..]).queue;
      forall i | 0 <= i < |conns|
        ensures q[|s.queue| + i] == Request(s.tickets + i, conns[i], true)
      {
        if i > 0 {
          assert q[|u.queue| + (i - 1)] == Request(u.tickets + (i - 1), conns[1..][i - 1], true);
        } else {
          assert q[|s.queue|] == u.queue[|s.queue|];
        }
      }
    }
  }

  // ---------- matching ----------

  function Requested(served: seq<Served>): (r: seq<Request>)
    ensures |r| == |served|
    ensures forall i :: 0 <= i < |r| ==> r[i] == served[i].request
  {
    seq(|served|, (i: nat) requires i < |served| => served[i].request)
  }

  /** Requests answered so far, then those still queued, in the order in which they joined the
      queue, none twice. */
  predicate InArrivalOrder(p: Pool) {
    Rising(Requested(p.served) + p.server.queue, 0, p.server.tickets)
  }

  /** Serials falling: the most recently received item comes first. */
  predicate Falling(queue: seq<Item>, high: nat) {
    queue == [] || (queue[0].serial < high && Falling(queue[1..], queue[0].serial))
  }

  ghost predicate EachItemOnce(p: Pool) {
    && Falling(p.cache.queue, p.serials)
    && (forall i :: 0 <= i < |p.served| ==> p.served[i].item.serial < p.serials)
    && (forall i, item :: 0 <= i < |p.served| && item in p.cache.queue ==> p.served[i].item.serial != item.serial)
    && (forall i, j :: 0 <= i < j < |p.served| ==> p.served[i].item.serial != p.served[j].item.serial)
  }

  lemma {:induction false} FallingBelow(queue: seq<Item>, high: nat)
    requires Falling(queue, high)
    ensures forall item :: item in queue ==> item.serial < high
  {
    if queue != [] {
      FallingBelow(queue[1..], queue[0].serial);
    }
  }

  lemma {:induction false} FallingHigher(queue: seq<Item>, high: nat, higher: nat)
    requires Falling(queue, high) && high <= higher
    ensures Falling(queue, higher)
  {
  }

  /** A scheduled serve_work whenever there is something to match. */
  predicate Awake(p: Pool) {
    HasBoth(p) ==> p.sources > 0
  }

  // ---------- what the validator is told ----------

  /** The items the validator was told to track, with their users. */
  function Tracks(trace: seq<ShareRules.Event>): seq<(WorkData, User)> {
    if trace == [] then []
    else Tracks(trace[..|trace| - 1])
         + match trace[|trace| - 1] { case Track(data, user) => [(data, user)] case _ => [] }
  }

  /** The items sent to their requesters, in order. */
  function Sends(served: seq<Served>): seq<(WorkData, User)> {
    if served == [] then []
    else
      var last := served[|served| - 1];
      Sends(served[..|served| - 1]) + if last.sent then [(last.item.data, last.request.conn.user)] else []
  }

  predicate TrackedAsSent(p: Pool) {
    Tracks(p.trace) == Sends(p.served)
  }

  lemma TracksAppend(trace: seq<ShareRules.Event>, e: ShareRules.Event)
    ensures Tracks(trace + [e]) == Tracks(trace) + match e { case Track(data, user) => [(data, user)] case _ => [] }
  {
    assert (trace + [e])[..|trace + [e]| - 1] == trace;
  }

  lemma SendsAppend(served: seq<Served>, x: Served)
    ensures Sends(served + [x]) == Sends(served) + if x.sent then [(x.item.data, x.request.conn.user)] else []
  {
    assert (served + [x])[..|served + [x]| - 1] == served;
  }

  // ---------- every step keeps all of it ----------

  /** All that does not depend on what is scheduled. */
  ghost predicate MatchLaw(p: Pool) {
    && CacheLaw(p.cache)
    && Ledger(p.server)
    && InArrivalOrder(p)
    && EachItemOnce(p)
    && TrackedAsSent(p)
  }

  ghost predicate PoolLaw(p: Pool) {
    MatchLaw(p) && Awake(p)
  }

  lemma NewPoolLaw(min: CacheSize)
    ensures PoolLaw(NewPool(min))
  {
  }

  lemma MatchKeepsOrder(p: Pool, sent: bool)
    requires InArrivalOrder(p) && HasBoth(p)
    ensures InArrivalOrder(Matched(p, sent))
  {
    var q := Matched(p, sent);
    assert Requested(q.served) + q.server.queue == Requested(p.served) + p.server.queue;
  }

  lemma MatchKeepsItems(p: Pool, sent: bool)
    requires EachItemOnce(p) && HasBoth(p)
    ensures EachItemOnce(Matched(p, sent))
    ensures forall item :: item in p.cache.queue[1..] ==> item.serial < p.cache.queue[0].serial
  {
    var q := Matched(p, sent);
    FallingBelow(p.cache.queue[1..], p.cache.queue[0].serial);
    FallingHigher(p.cache.queue[1..], p.cache.queue[0].serial, p.serials);
    assert p.cache.queue[0] in p.cache.queue;
    assert forall item :: item in q.cache.queue ==> item in p.cache.queue;
  }

  lemma MatchKeepsLaw(p: Pool, sent: bool)
    requires MatchLaw(p) && HasBoth(p)
    ensures MatchLaw(Matched(p, sent))
  {
    PopKeepsLaw(p.cache);
    AnswerKeepsLedger(p.server);
    MatchKeepsOrder(p, sent);
    MatchKeepsItems(p, sent);
    var request, item := p.server.queue[0], p.cache.queue[0];
    SendsAppend(p.served, Served(request, item, sent));
    TracksAppend(p.trace, Track(item.data, request.conn.user));
  }

  lemma SourcesDoNotMatter(p: Pool, sources: nat)
    requires MatchLaw(p)
    ensures MatchLaw(p.(sources := sources))
  {
  }

  lemma FireKeepsLaw(p: Pool, sent: bool)
    requires PoolLaw(p) && p.sources > 0
    ensures PoolLaw(Fired(p, sent))
  {
    var q := if HasBoth(p) then Matched(p, sent) else p;
    if HasBoth(p) {
      MatchKeepsLaw(p, sent);
    }
    assert MatchLaw(q) && q.sources == p.sources;
    SourcesDoNotMatter(q, p.sources - 1);
  }

  lemma CallKeepsLaw(p: Pool, conn: Conn)
    requires PoolLaw(p)
    ensures PoolLaw(PoolStep(p, Call(conn)))
  {
    var q := PoolStep(p, Call(conn));
    CallKeepsLedger(p.server, conn);
    RisingAppend(Requested(p.served) + p.server.queue, 0, p.server.tickets, Request(p.server.tickets, conn, false));
    assert Requested(q.served) + q.server.queue
        == Requested(p.served) + p.server.queue + [Request(p.server.tickets, conn, false)];
  }

  lemma ReplyKeepsPoolLaw(p: Pool, data: WorkData)
    requires PoolLaw(p) && p.cache.inFlight > 0
    ensures PoolLaw(PoolStep(p, Reply(data)))
  {
    var item := Item(p.serials, data);
    ReplyKeepsLaw(p.cache, item);
    FallingBelow(p.cache.queue, p.serials);
    assert ([item] + p.cache.queue)[1..] == p.cache.queue;
  }

  /** A block change empties the cache before long polls join the queue, so they need no
      scheduled callback: each reply that follows brings one. */
  lemma BlockKeepsLaw(p: Pool, block: nat)
    requires PoolLaw(p)
    ensures PoolLaw(PoolStep(p, BlockChange(block))) && !HasBoth(PoolStep(p, BlockChange(block)))
  {
    FlushKeepsLaw(p.cache);
    ReleaseKeepsLedger(p.server);
    ConversionInOrder(p.server, p.server.lp, Requested(p.served));
    TracksAppend(p.trace, ShareRules.Event.NewBlock(block));
  }

  lemma LongPollKeepsLaw(p: Pool, conn: Conn)
    requires PoolLaw(p)
    ensures PoolLaw(PoolStep(p, LongPoll(conn)))
  {
    LongPollKeepsLedger(p.server, conn);
  }

  lemma CloseKeepsLaw(p: Pool, conn: Conn)
    requires PoolLaw(p)
    ensures PoolLaw(PoolStep(p, Close(conn)))
  {
    CloseKeepsLedger(p.server, conn);
    RisingJoinWithout(Requested(p.served), p.server.queue, conn, 0, p.server.tickets);
  }

  lemma FailureKeepsPoolLaw(p: Pool)
    requires PoolLaw(p)
    ensures PoolLaw(PoolStep(p, Failure))
  {
    if p.cache.inFlight > 0 {
      FailureKeepsLaw(p.cache);
    }
  }

  lemma ShareKeepsLaw(p: Pool, event: ShareRules.Event)
    requires PoolLaw(p)
    ensures PoolLaw(PoolStep(p, PoolEvent.Share(event)))
  {
    TracksAppend(p.trace, event);
  }

  lemma StepKeepsPoolLaw(p: Pool, e: PoolEvent)
    requires PoolLaw(p)
    ensures PoolLaw(PoolStep(p, e))
  {
    match e
    case Call(conn) => CallKeepsLaw(p, conn);
    case LongPoll(conn) => LongPollKeepsLaw(p, conn);
    case Close(conn) => CloseKeepsLaw(p, conn);
    case Reply(data) => if p.cache.inFlight > 0 { ReplyKeepsPoolLaw(p, data); }
    case Failure => FailureKeepsPoolLaw(p);
    case Fire(sent) => if p.sources > 0 { FireKeepsLaw(p, sent); }
    case BlockChange(block) => BlockKeepsLaw(p, block);
    case Share(event) => ShareKeepsLaw(p, event);
  }

  /** The counter law, the ledger, the wake-ups, the matching and the tracking hold after every
      run. */
  lemma {:induction false} PoolLawAlways(p: Pool, es: seq<PoolEvent>)
    requires PoolLaw(p)
    ensures PoolLaw(PoolRun(p, es))
    decreases |es|
  {
    if es != [] {
      StepKeepsPoolLaw(p, es[0]);
      PoolLawAlways(PoolStep(p, es[0]), es[1..]);
    }
  }

  // ---------- what this means for one request, one item ----------

  lemma {:induction false} RisingMeans(queue: seq<Request>, low: nat, high: nat)
    requires Rising(queue, low, high)
    ensures forall i :: 0 <= i < |queue| ==> low <= queue[i].ticket < high
    ensures forall i, j :: 0 <= i < j < |queue| ==> queue[i].ticket < queue[j].ticket
  {
    RisingWider(queue, low, low, high);
    if queue != [] {
      RisingMeans(queue[1..], queue[0].ticket + 1, high);
    }
  }

  /** Over a run, requests are answered in the order in which they joined the queue and none
      twice, and every request still queued joined after all of those answered. */
  lemma AnsweredInOrder(min: CacheSize, es: seq<PoolEvent>)
    ensures var p := PoolRun(NewPool(min), es);
            && (forall i, j :: 0 <= i < j < |p.served| ==> p.served[i].request.ticket < p.served[j].request.ticket)
            && (forall i, j :: 0 <= i < |p.served| && 0 <= j < |p.server.queue| ==>
                  p.served[i].request.ticket < p.server.queue[j].ticket)
  {
    NewPoolLaw(min);
    PoolLawAlways(NewPool(min), es);
    OrderMeans(PoolRun(NewPool(min), es));
  }

  lemma OrderMeans(p: Pool)
    requires InArrivalOrder(p)
    ensures forall i, j :: 0 <= i < j < |p.served| ==> p.served[i].request.ticket < p.served[j].request.ticket
    ensures forall i, j :: 0 <= i < |p.served| && 0 <= j < |p.server.queue| ==>
              p.served[i].request.ticket < p.server.queue[j].ticket
  {
    var all := Requested(p.served) + p.server.queue;
    RisingMeans(all, 0, p.server.tickets);
    assert forall i :: 0 <= i < |p.served| ==> all[i] == p.served[i].request;
    assert forall j :: 0 <= j < |p.server.queue| ==> p.server.queue[j] == all[|p.served| + j];
  }

  // ---------- draining ----------

  function Firings(sends: seq<bool>): (es: seq<PoolEvent>)
    ensures |es| == |sends|
  {
    if sends == [] then [] else [Fire(sends[0])] + Firings(sends[1..])
  }

  function Least(a: nat, b: nat): nat {
    if a < b then a else b
  }

  /** The first requests with the first items. */
  function PairsOf(requests: seq<Request>, items: seq<Item>, sends: seq<bool>): seq<Served>
    requires |sends| <= |requests| && |sends| <= |items|
  {
    if sends == [] then []
    else [Served(requests[0], items[0], sends[0])] + PairsOf(requests[1..], items[1..], sends[1..])
  }

  /** What a firing does when both queues hold something. */
  ghost predicate FiredTo(p: Pool, sent: bool, t: Pool)
    requires HasBoth(p)
  {
    && Awake(t) && CacheLaw(t.cache) && t.cache.issued == p.cache.issued + 1
    && t.server.queue == p.server.queue[1..] && t.cache.queue == p.cache.queue[1..]
    && t.served == p.served + [Served(p.server.queue[0], p.cache.queue[0], sent)]
  }

  lemma OneFiring(p: Pool, sent: bool)
    requires Awake(p) && CacheLaw(p.cache) && HasBoth(p)
    ensures FiredTo(p, sent, PoolStep(p, Fire(sent)))
  {
    PopKeepsLaw(p.cache);
  }

  lemma FirstFiring(p: Pool, sends: seq<bool>)
    requires sends != []
    ensures PoolRun(p, Firings(sends)) == PoolRun(PoolStep(p, Fire(sends[0])), Firings(sends[1..]))
  {
    assert Firings(sends)[1..] == Firings(sends[1..]);
  }

  ghost predicate DrainedTo(p: Pool, sends: seq<bool>, q: Pool)
    requires |sends| <= |p.server.queue| && |sends| <= |p.cache.queue|
  {
    && !HasBoth(q)
    && q.served == p.served + PairsOf(p.server.queue, p.cache.queue, sends)
    && q.cache.issued == p.cache.issued + |sends|
  }

  lemma DrainOneMore(p: Pool, t: Pool, q: Pool, sends: seq<bool>)
    requires sends != [] && |sends| <= |p.server.queue| && |sends| <= |p.cache.queue|
    requires FiredTo(p, sends[0], t) && DrainedTo(t, sends[1..], q)
    ensures DrainedTo(p, sends, q)
  {
  }

  /** With nothing new arriving, as many firings as there are pairs empty one of the queues,
      and they match the first request with the first item, and so on; each item taken is
      replaced by one call upstream. */
  lemma {:induction false} DrainsInPairs(p: Pool, sends: seq<bool>)
    requires Awake(p) && CacheLaw(p.cache)
    requires |sends| == Least(|p.server.queue|, |p.cache.queue|)
    ensures DrainedTo(p, sends, PoolRun(p, Firings(sends)))
    decreases |sends|
  {
    if sends != [] {
      var t := PoolStep(p, Fire(sends[0]));
      OneFiring(p, sends[0]);
      FirstFiring(p, sends);
      DrainsInPairs(t, sends[1..]);
      DrainOneMore(p, t, PoolRun(t, Firings(sends[1..])), sends);
    }
  }

  /** A cache that lost every slot to failures serves nobody until the next block. */
  lemma {:induction false} DryUntilNextBlock(p: Pool, es: seq<PoolEvent>)
    requires p.cache.queue == [] && p.cache.inFlight == 0
    requires forall e :: e in es ==> !e.BlockChange?
    ensures var q := PoolRun(p, es); q.cache == p.cache && q.served == p.served
    decreases |es|
  {
    if es != [] {
      assert es[0] in es;
      assert PoolStep(p, es[0]).cache == p.cache && PoolStep(p, es[0]).served == p.served;
      DryUntilNextBlock(PoolStep(p, es[0]), es[1..]);
    }
  }

  // ---------- from a sent item to the verdict on its shares ----------

  /** The validator, told what the pool told it. */
  function Shares(env: Setting, p: Pool): ShareRules.State {
    At(env, p.trace, |p.trace|)
  }

  function BlockChanges(es: seq<PoolEvent>): nat {
    if es == [] then 0 else (if es[0].BlockChange? then 1 else 0) + BlockChanges(es[1..])
  }

  lemma {:induction false} EpochOfPrefix(a: seq<ShareRules.Event>, b: seq<ShareRules.Event>, n: nat)
    requires a <= b && n <= |a|
    ensures ShareTheorems.Epoch(a, n) == ShareTheorems.Epoch(b, n)
  {
    if n > 0 {
      EpochOfPrefix(a, b, n - 1);
    }
  }

  lemma TraceStep(p: Pool, e: PoolEvent)
    ensures var q := PoolStep(p, e);
            p.trace <= q.trace && |q.trace| <= |p.trace| + 1
            && ShareTheorems.Epoch(q.trace, |q.trace|)
               == ShareTheorems.Epoch(p.trace, |p.trace|) + if e.BlockChange? then 1 else 0
  {
    EpochOfPrefix(p.trace, PoolStep(p, e).trace, |p.trace|);
  }

  lemma {:induction false} TraceOfRun(p: Pool, es: seq<PoolEvent>)
    ensures var q := PoolRun(p, es);
            p.trace <= q.trace
            && ShareTheorems.Epoch(q.trace, |q.trace|) == ShareTheorems.Epoch(p.trace, |p.trace|) + BlockChanges(es)
    decreases |es|
  {
    if es != [] {
      TraceStep(p, es[0]);
      TraceOfRun(PoolStep(p, es[0]), es[1..]);
    }
  }

  lemma TrackedStaysKnown(env: Setting, trace: seq<ShareRules.Event>, k: nat)
    requires k < |trace| && trace[k].Track?
    requires ShareTheorems.Epoch(trace, |trace|) <= ShareTheorems.Epoch(trace, k) + 1
    ensures Lookup(At(env, trace, |trace|), Root(trace[k].data)).Some?
  {
    var root := Root(trace[k].data);
    ShareTheorems.EpochGrows(trace, k, |trace|);
    assert ShareTheorems.Sent(trace, k, root, ShareTheorems.Epoch(trace, k));
    ShareTheorems.KnownRoots(env, trace, |trace|, root);
  }

  lemma SendIsTraced(p: Pool)
    requires HasBoth(p) && p.sources > 0
    ensures PoolStep(p, Fire(true)).trace == p.trace + [Track(p.cache.queue[0].data, p.server.queue[0].conn.user)]
  {
  }

  /** An item whose send succeeded is tracked in the same step, and a result for it is looked up
      successfully until the second block change after. */
  lemma SentItemKnownForTwoEpochs(env: Setting, p: Pool, es: seq<PoolEvent>)
    requires HasBoth(p) && p.sources > 0 && BlockChanges(es) <= 1
    ensures Lookup(Shares(env, PoolRun(PoolStep(p, Fire(true)), es)), Root(p.cache.queue[0].data)).Some?
  {
    var t := PoolStep(p, Fire(true));
    var q := PoolRun(t, es);
    SendIsTraced(p);
    TraceOfRun(t, es);
    TraceStep(p, Fire(true));
    EpochOfPrefix(p.trace, q.trace, |p.trace|);
    assert q.trace[|p.trace|] == t.trace[|p.trace|];
    TrackedStaysKnown(env, q.trace, |p.trace|);
  }

  lemma {:induction false} TrackIsListed(trace: seq<ShareRules.Event>, k: nat)
    requires k < |trace| && trace[k].Track?
    ensures (trace[k].data, trace[k].user) in Tracks(trace)
  {
    if k < |trace| - 1 {
      TrackIsListed(trace[..|trace| - 1], k);
    }
  }

  lemma {:induction false} ListedWasSent(served: seq<Served>, x: (WorkData, User))
    requires x in Sends(served)
    ensures exists i :: 0 <= i < |served| && served[i].sent && x == (served[i].item.data, served[i].request.conn.user)
  {
    var last := served[|served| - 1];
    var front := served[..|served| - 1];
    if x in Sends(front) {
      ListedWasSent(front, x);
      var i :| 0 <= i < |front| && front[i].sent && x == (front[i].item.data, front[i].request.conn.user);
      assert served[i] == front[i];
    }
  }

  predicate AnswersServed(share: Share, x: Served) {
    && x.sent && |share.data| == 256
    && x.request.conn.user == share.user
    && Version(x.item.data) == Version(share.data)
    && Root(x.item.data) == Root(share.data)
    && Timestamp(x.item.data) == Timestamp(share.data)
  }

  /** What the validator would accept after the first n things it was told answers an item served. */
  lemma AcceptedAfter(env: Setting, p: Pool, n: nat, share: ShareRules.Share)
    requires TrackedAsSent(p) && n <= |p.trace| && Verdict(env, At(env, p.trace, n), share) == SUCCESS
    ensures exists j :: 0 <= j < |p.served| && AnswersServed(share, p.served[j])
  {
    var s, root := At(env, p.trace, n), Root(share.data);
    ShareTheorems.TablesHoldTwoEpochs(env, p.trace, n);
    var k :| 0 <= k < n && ShareTheorems.Sent(p.trace, k, root, ShareTheorems.Epoch(p.trace, n))
             && ShareTheorems.Stands(p.trace, k, s.current[root]);
    TrackIsListed(p.trace, k);
    ListedWasSent(p.served, (p.trace[k].data, p.trace[k].user));
    var j :| 0 <= j < |p.served| && p.served[j].sent
             && (p.trace[k].data, p.trace[k].user) == (p.served[j].item.data, p.served[j].request.conn.user);
    assert AnswersServed(share, p.served[j]);
  }

  /** A share that the validator would accept as it comes in answers an item that had by then been
      served: the same user got one with that version, merkle root and timestamp. */
  lemma AcceptedShareWasServed(env: Setting, p: Pool, share: ShareRules.Share)
    requires PoolLaw(p) && Verdict(env, Shares(env, p), share) == SUCCESS
    ensures exists j :: 0 <= j < |p.served| && AnswersServed(share, p.served[j])
  {
    AcceptedAfter(env, p, |p.trace|, share);
  }
}
