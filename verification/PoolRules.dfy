/** The upstream work cache, the server's request queues, and the main program that matches
    requests with work, as machines over events. */
module PoolRules {
  import opened Common
  import opened ShareRules

  /** Unsigned 32-bit arithmetic. */
  function Wrap(n: int): nat {
    n % TWO_32
  }

  type CacheSize = n: nat | 0 < n < TWO_32 witness 10

  // ---------- the upstream work cache ----------

  /** A work item, numbered by when it arrived. */
  datatype Item = Item(serial: nat, data: WorkData)

  /** `requests` is the program's own 32-bit count; the fields after it are history: calls truly
      in flight, those in flight at the last block change, failures since, calls ever made. */
  datatype Cache = Cache(
    started: bool, queue: seq<Item>, min: CacheSize, requests: nat,
    inFlight: nat, carry: nat, failures: nat, issued: nat)

  function NewCache(min: CacheSize): Cache {
    Cache(false, [], min, 0, 0, 0, 0, 0)
  }

  function Counted(c: Cache): nat {
    Wrap(c.requests + |c.queue|)
  }

  function Missing(c: Cache): nat {
    if Counted(c) < c.min then c.min - Counted(c) else 0
  }

  /** fill_work_queue: as many calls as bring the count up to the minimum. */
  function Filled(c: Cache): Cache {
    c.(requests := Wrap(c.requests + Missing(c)), inFlight := c.inFlight + Missing(c), issued := c.issued + Missing(c))
  }

  /** upstream_service_notify_new_block */
  function Flushed(c: Cache): Cache {
    Filled(c.(started := true, queue := [], requests := 0, carry := c.inFlight, failures := 0))
  }

  /** rpc_on_getwork, successful */
  function Received(c: Cache, item: Item): Cache
    requires c.inFlight > 0
  {
    Filled(c.(queue := [item] + c.queue, requests := Wrap(c.requests - 1), inFlight := c.inFlight - 1))
  }

  /** rpc_on_getwork, failed */
  function Failed(c: Cache): Cache
    requires c.inFlight > 0
  {
    c.(inFlight := c.inFlight - 1, failures := c.failures + 1)
  }

  /** upstream_service_get_work on a cache that has work */
  function Popped(c: Cache): Cache
    requires c.queue != []
  {
    Filled(c.(queue := c.queue[1..]))
  }

  // ---------- the server's queues ----------

  /** A client connection with the credentials of its request. */
  datatype Conn = Conn(id: nat, user: User)

  /** A queued request, numbered by when it joined the queue. */
  datatype Request = Request(ticket: nat, conn: Conn, fromLp: bool)

  /** `refs` counts the references the server holds on connections; the fields after it are
      history: a connection once per call it made, per request popped, and per request dropped
      when it closed. */
  datatype Server = Server(
    lp: seq<Conn>, queue: seq<Request>, refs: multiset<Conn>,
    tickets: nat, asked: multiset<Conn>, answered: multiset<Conn>, dropped: multiset<Conn>)

  const NEW_SERVER := Server([], [], multiset{}, 0, multiset{}, multiset{}, multiset{})

  /** work_request_new and the push that follows it */
  function Queued(s: Server, conn: Conn, fromLp: bool): Server {
    s.(queue := s.queue + [Request(s.tickets, conn, fromLp)], refs := s.refs + multiset{conn}, tickets := s.tickets + 1)
  }

  function Getwork(s: Server, conn: Conn): Server {
    Queued(s, conn, false).(asked := s.asked + multiset{conn})
  }

  function LongPolled(s: Server, conn: Conn): Server {
    s.(lp := s.lp + [conn], refs := s.refs + multiset{conn}, asked := s.asked + multiset{conn})
  }

  /** long_polling_conn_to_getwork for each connection in turn */
  function Converted(s: Server, conns: seq<Conn>): Server
    decreases |conns|
  {
    if conns == [] then s
    else
      var t := Queued(s, conns[0], true);
      Converted(t.(refs := t.refs - multiset{conns[0]}), conns[1..])
  }

  /** pool_server_notify_new_block */
  function Released(s: Server): Server {
    Converted(s, s.lp).(lp := [])
  }

  function WithoutConn(lp: seq<Conn>, conn: Conn): seq<Conn> {
    if lp == [] then [] else (if lp[0] == conn then [] else [lp[0]]) + WithoutConn(lp[1..], conn)
  }

  function WithoutRequests(queue: seq<Request>, conn: Conn): seq<Request> {
    if queue == [] then [] else (if queue[0].conn == conn then [] else [queue[0]]) + WithoutRequests(queue[1..], conn)
  }

  function Times(lp: seq<Conn>, conn: Conn): nat {
    if lp == [] then 0 else (if lp[0] == conn then 1 else 0) + Times(lp[1..], conn)
  }

  function Requests(queue: seq<Request>, conn: Conn): nat {
    if queue == [] then 0 else (if queue[0].conn == conn then 1 else 0) + Requests(queue[1..], conn)
  }

  /** How many list entries and queued requests a connection has. */
  function Held(s: Server, conn: Conn): nat {
    Times(s.lp, conn) + Requests(s.queue, conn)
  }

  function Less(a: nat, b: nat): nat {
    if a >= b then a - b else 0
  }

  /** The close handlers of a connection: one per entry of either list. */
  function Closed(s: Server, conn: Conn): Server {
    s.(lp := WithoutConn(s.lp, conn), queue := WithoutRequests(s.queue, conn),
       refs := s.refs[conn := Less(s.refs[conn], Held(s, conn))],
       dropped := s.dropped[conn := s.dropped[conn] + Held(s, conn)])
  }

  /** The head request is popped and, once served, released. */
  function Answered(s: Server): Server
    requires s.queue != []
  {
    var conn := s.queue[0].conn;
    s.(queue := s.queue[1..], refs := s.refs - multiset{conn}, answered := s.answered + multiset{conn})
  }

  // ---------- the main program ----------

  /** One run of serve_work that found both: the request, the item, and whether sending worked. */
  datatype Served = Served(request: Request, item: Item, sent: bool)

  /** `sources` counts the scheduled serve_work callbacks; `trace` is what the share validator
      has been told, `serials` and `served` are history. */
  datatype Pool = Pool(
    cache: Cache, server: Server, sources: nat, currentBlock: nat,
    serials: nat, served: seq<Served>, trace: seq<ShareRules.Event>)

  datatype PoolEvent =
    | Call(conn: Conn)
    | LongPoll(conn: Conn)
    | Close(conn: Conn)
    | Reply(data: WorkData)
    | Failure
    | Fire(sent: bool)
    | BlockChange(block: nat)
    | Share(event: ShareRules.Event)

  function NewPool(min: CacheSize): Pool {
    Pool(NewCache(min), NEW_SERVER, 0, 0, 0, [], [])
  }

  predicate HasBoth(p: Pool) {
    p.server.queue != [] && p.cache.queue != []
  }

  /** serve_work when both a request and an item are there */
  function Matched(p: Pool, sent: bool): Pool
    requires HasBoth(p)
  {
    var request, item := p.server.queue[0], p.cache.queue[0];
    p.(cache := Popped(p.cache), server := Answered(p.server), served := p.served + [Served(request, item, sent)],
       trace := if sent then p.trace + [Track(item.data, request.conn.user)] else p.trace)
  }

  /** One firing of serve_work: the source stays scheduled while both queues hold something. */
  function Fired(p: Pool, sent: bool): Pool
    requires p.sources > 0
  {
    var q := if HasBoth(p) then Matched(p, sent) else p;
    if HasBoth(q) then q else q.(sources := q.sources - 1)
  }

  function PoolStep(p: Pool, e: PoolEvent): Pool {
    match e
    case Call(conn) => p.(server := Getwork(p.server, conn), sources := p.sources + 1)
    case LongPoll(conn) => p.(server := LongPolled(p.server, conn))
    case Close(conn) => p.(server := Closed(p.server, conn))
    case Reply(data) =>
      if p.cache.inFlight > 0
      then p.(cache := Received(p.cache, Item(p.serials, data)), serials := p.serials + 1, sources := p.sources + 1)
      else p
    case Failure => if p.cache.inFlight > 0 then p.(cache := Failed(p.cache)) else p
    case Fire(sent) => if p.sources > 0 then Fired(p, sent) else p
    case BlockChange(block) =>
      p.(cache := Flushed(p.cache), server := Released(p.server), currentBlock := block,
         trace := p.trace + [ShareRules.Event.NewBlock(block)])
    case Share(event) => if event.Track? || event.NewBlock? then p else p.(trace := p.trace + [event])
  }

  function PoolRun(p: Pool, es: seq<PoolEvent>): Pool
    decreases |es|
  {
    if es == [] then p else PoolRun(PoolStep(p, es[0]), es[1..])
  }
}
