/** The main program: it joins the upstream cache, the server's queues and the share validator
    through scheduled serve_work callbacks. */
module PoolDances {
  import opened Common
  import opened HexBytes
  import opened Headers
  import opened ShareRules
  import opened PoolRules
  import opened UpstreamServices
  import opened PoolServers
  import opened WorkValidators
  import ShareTheorems

  class PoolDance {
    const upstream: UpstreamService
    const server: PoolServer
    const validator: WorkValidator
    var currentBlock: nat

    // scheduled serve_work callbacks, and the identity of the next work item
    var sources: nat
    var serials: nat

    // what has happened so far
    ghost var served: seq<Served>
    ghost var trace: seq<ShareRules.Event>

    ghost function View(): Pool
      reads this, upstream, server
    {
      Pool(upstream.View(), server.View(), sources, currentBlock, serials, served, trace)
    }

    /** The validator is where the events it was told of lead. */
    ghost predicate Told()
      reads this`trace, validator, validator.target, validator.tables, validator.tables.items,
            validator.threadPool, validator.threadPool.results
    {
      validator.Valid() && validator.View() == At(validator.Env(), trace, |trace|)
    }

    ghost predicate Valid()
      reads this`trace, upstream, validator, validator.target, validator.tables, validator.tables.items,
            validator.threadPool, validator.threadPool.results
    {
      upstream.workRequests < TWO_32 && Told()
    }

    constructor (min: CacheSize, sha: seq<Byte> -> Digest)
      ensures Valid() && View() == NewPool(min) && validator.target[..] == Decoded(EASY_TARGET)
      ensures validator.sha == sha
    {
      upstream := new UpstreamService(min);
      server := new PoolServer();
      validator := new WorkValidator(sha);
      currentBlock, sources, serials := 0, 0, 0;
      served, trace := [], [];
      new;
      EasyTargetBytes();
      assert EASY_TARGET[..64] == EASY_TARGET;
      validator.SetTarget(EASY_TARGET);
    }

    lemma TraceGrows(env: Setting, told: seq<ShareRules.Event>, e: ShareRules.Event)
      ensures At(env, told + [e], |told| + 1) == ShareRules.Step(env, At(env, told, |told|), e)
    {
      ShareTheorems.SameStart(env, told, told + [e], |told|);
    }

    lemma TraceGrowsByThread(env: Setting, told: seq<ShareRules.Event>, id: nat)
      ensures At(env, told + [ThreadDone(id)], |told| + 1) == AfterThread(env, At(env, told, |told|), id)
    {
      TraceGrows(env, told, ThreadDone(id));
    }

    /** pool_server_on_getwork, after the server queued the request */
    method OnGetwork(conn: Conn)
      requires Valid()
      modifies this`sources, server
      ensures Valid() && View() == PoolStep(old(View()), Call(conn))
    {
      server.OnGetworkCall(conn);
      sources := sources + 1;
    }

    /** The close signal of a client connection. */
    method OnClose(conn: Conn)
      requires Valid()
      modifies server
      ensures Valid() && View() == PoolStep(old(View()), Close(conn))
    {
      server.OnConnectionClose(conn);
    }

    method OnLongPoll(conn: Conn)
      requires Valid()
      modifies server
      ensures Valid() && View() == PoolStep(old(View()), LongPoll(conn))
    {
      server.OnLongPollRequest(conn);
    }

    /** upstream_service_on_has_work, inside the cache's handling of a reply */
    method OnWorkReply(data: WorkData)
      requires Valid() && upstream.inFlight > 0
      modifies this`sources, this`serials, upstream
      ensures Valid() && View() == PoolStep(old(View()), Reply(data))
    {
      upstream.OnGetworkReply(Item(serials, data));
      serials := serials + 1;
      sources := sources + 1;
    }

    method OnWorkFailure()
      requires Valid() && upstream.inFlight > 0
      modifies upstream
      ensures Valid() && View() == PoolStep(old(View()), Failure)
    {
      upstream.OnGetworkFailure();
    }

    method TrackWorkSent(data: WorkData, user: User)
      requires Told()
      modifies this`trace, validator.tables
      ensures Told() && trace == old(trace) + [Track(data, user)]
    {
      TraceGrows(validator.Env(), trace, Track(data, user));
      validator.TrackWorkSent(data, user);
      trace := trace + [Track(data, user)];
    }

    /** A request and an item taken from their queues. */
    method TakeBoth() returns (workRequest: Request, workItem: Item)
      requires HasBoth(View()) && upstream.workRequests < TWO_32
      modifies upstream, server
      ensures workRequest == old(server.getworkQueue)[0] && workItem == old(upstream.workQueue)[0]
      ensures upstream.View() == Popped(old(upstream.View()))
      ensures server.View() == old(server.View()).(queue := old(server.getworkQueue)[1..])
      ensures upstream.workRequests < TWO_32
    {
      workRequest := server.GetWorkRequest();
      workItem := upstream.GetWork();
    }

    /** The item sent and, if that worked, tracked; then the request is released. */
    method Send(workRequest: Request, workItem: Item, sent: bool)
      requires Told()
      modifies this`served, this`trace, server, validator.tables
      ensures Told() && server.View() == old(server.View()).(refs := server.refs, answered := server.answered)
      ensures server.refs == old(server.refs) - multiset{workRequest.conn}
      ensures server.answered == old(server.answered) + multiset{workRequest.conn}
      ensures served == old(served) + [Served(workRequest, workItem, sent)]
      ensures trace == if sent then old(trace) + [Track(workItem.data, workRequest.conn.user)] else old(trace)
    {
      served := served + [Served(workRequest, workItem, sent)];
      if sent {
        TrackWorkSent(workItem.data, workRequest.conn.user);
      }
      server.ReleaseRequest(workRequest);
    }

    /** serve_work once both queues are known to hold something. */
    method ServeNext(sent: bool)
      requires Valid() && HasBoth(View())
      modifies this`served, this`trace, upstream, server, validator.tables
      ensures Valid() && View() == Matched(old(View()), sent)
    {
      var workRequest, workItem := TakeBoth();
      Send(workRequest, workItem, sent);
    }

    /** serve_work: true while the source is to stay scheduled. */
    method ServeWork(sent: bool) returns (again: bool)
      requires Valid()
      modifies this`served, this`trace, upstream, server, validator.tables
      ensures Valid() && View() == if HasBoth(old(View())) then Matched(old(View()), sent) else old(View())
      ensures again == HasBoth(View())
    {
      if !server.NeedWork() || !upstream.HasWork() {
        return false;
      }
      ServeNext(sent);
      return server.NeedWork() && upstream.HasWork();
    }

    /** The event loop fires one scheduled serve_work. */
    method FireSource(sent: bool)
      requires Valid() && sources > 0
      modifies this`served, this`trace, this`sources, upstream, server, validator.tables
      ensures Valid() && View() == PoolStep(old(View()), Fire(sent))
    {
      var again := ServeWork(sent);
      if !again {
        sources := sources - 1;
      }
    }

    method TellNewBlock(block: nat)
      requires Told()
      modifies this`trace, validator, validator.tables
      ensures Told() && trace == old(trace) + [ShareRules.Event.NewBlock(block)] && validator.blockNum == block
    {
      TraceGrows(validator.Env(), trace, ShareRules.Event.NewBlock(block));
      validator.NotifyNewBlock(block);
      trace := trace + [ShareRules.Event.NewBlock(block)];
    }

    method RenewQueues()
      modifies upstream, server
      ensures upstream.View() == Flushed(old(upstream.View())) && server.View() == Released(old(server.View()))
      ensures upstream.workRequests < TWO_32
    {
      upstream.NotifyNewBlock();
      server.NotifyNewBlock();
    }

    /** block_monitor_on_block_change: the cache is emptied before long polls are released. */
    method OnBlockChange(block: nat)
      requires Valid()
      modifies this`currentBlock, this`trace, upstream, server, validator, validator.tables
      ensures Valid() && View() == PoolStep(old(View()), BlockChange(block))
      ensures currentBlock == block && validator.blockNum == block
    {
      currentBlock := block;
      RenewQueues();
      TellNewBlock(block);
    }

    method Validate(result: WorkResult)
      requires Told() && !result.stale && result !in validator.threadPool.results
      requires Records(validator.View(), result.AsShare()) ==>
                 |Lookup(validator.View(), Root(result.data)).value.nonces| < TRACK_NONCE_MAX
      modifies this`trace, result, validator, validator.tables, validator.tables.items, validator.threadPool
      ensures Told() && trace == old(trace) + [Submit(result.AsShare())]
    {
      TraceGrows(validator.Env(), trace, Submit(result.AsShare()));
      validator.Validate(result);
      trace := trace + [Submit(result.AsShare())];
    }

    /** pool_server_on_putwork */
    method OnPutwork(result: WorkResult)
      requires Valid() && !result.stale && result !in validator.threadPool.results
      requires Records(validator.View(), result.AsShare()) ==>
                 |Lookup(validator.View(), Root(result.data)).value.nonces| < TRACK_NONCE_MAX
      modifies this`trace, result, validator, validator.tables, validator.tables.items, validator.threadPool
      ensures Valid() && View() == PoolStep(old(View()), PoolEvent.Share(Submit(result.AsShare())))
      ensures trace == old(trace) + [Submit(result.AsShare())]
    {
      Validate(result);
    }

    /** The node answered getblockhash. */
    method OnBlockHash(reply: Option<HashText>)
      requires Valid()
      modifies this`trace, validator`blockHash
      ensures Valid() && View() == PoolStep(old(View()), PoolEvent.Share(HashReply(reply)))
    {
      TraceGrows(validator.Env(), trace, HashReply(reply));
      validator.OnBlockHash(reply);
      trace := trace + [HashReply(reply)];
    }

    method FinishJob(id: nat)
      requires Told() && id in validator.threadPool.jobs
      modifies this`trace, validator`verdicts, validator.threadPool
      ensures Told() && trace == old(trace) + [ThreadDone(id)]
    {
      TraceGrowsByThread(validator.Env(), trace, id);
      validator.FinishJob(id);
      trace := trace + [ThreadDone(id)];
    }

    /** A worker thread is done with a result. */
    method OnWorkValidated(id: nat)
      requires Valid() && id in validator.threadPool.jobs
      modifies this`trace, validator`verdicts, validator.threadPool
      ensures Valid() && View() == PoolStep(old(View()), PoolEvent.Share(ThreadDone(id)))
    {
      FinishJob(id);
    }
  }
}
