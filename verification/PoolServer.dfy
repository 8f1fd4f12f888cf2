/** The server's request queue and long-poll list, changed in place by calls, closing
    connections and block changes. */
module PoolServers {
  import opened PoolRules

  /** `conn` lost k references, as far as there were any. */
  ghost predicate Handed(before: multiset<Conn>, after: multiset<Conn>, conn: Conn, k: nat) {
    after == before[conn := Less(before[conn], k)]
  }

  ghost predicate Gained(before: multiset<Conn>, after: multiset<Conn>, conn: Conn, k: nat) {
    after == before[conn := before[conn] + k]
  }

  /** The scan of the queue for a connection's requests has reached position i and removed
      `gone` of them. */
  ghost predicate SplitRequests(queue: seq<Request>, now: seq<Request>, i: nat, conn: Conn, gone: nat) {
    && i <= |now|
    && now[..i] + WithoutRequests(now[i..], conn) == WithoutRequests(queue, conn)
    && gone + Requests(now[i..], conn) == Requests(queue, conn)
  }

  lemma RequestRemoved(queue: seq<Request>, now: seq<Request>, i: nat, conn: Conn, gone: nat)
    requires i < |now| && now[i].conn == conn && SplitRequests(queue, now, i, conn, gone)
    ensures SplitRequests(queue, now[..i] + now[i + 1..], i, conn, gone + 1)
  {
    var next := now[..i] + now[i + 1..];
    assert next[..i] == now[..i] && next[i..] == now[i..][1..];
    assert WithoutRequests(now[i..], conn) == [] + WithoutRequests(now[i..][1..], conn);
  }

  lemma RequestKept(queue: seq<Request>, now: seq<Request>, i: nat, conn: Conn, gone: nat)
    requires i < |now| && now[i].conn != conn && SplitRequests(queue, now, i, conn, gone)
    ensures SplitRequests(queue, now, i + 1, conn, gone)
  {
    assert now[i + 1..] == now[i..][1..] && now[..i + 1] == now[..i] + [now[i]];
    assert WithoutRequests(now[i..], conn) == [now[i]] + WithoutRequests(now[i..][1..], conn);
  }

  ghost predicate SplitConns(lp: seq<Conn>, now: seq<Conn>, i: nat, conn: Conn, gone: nat) {
    && i <= |now|
    && now[..i] + WithoutConn(now[i..], conn) == WithoutConn(lp, conn)
    && gone + Times(now[i..], conn) == Times(lp, conn)
  }

  lemma ConnRemoved(lp: seq<Conn>, now: seq<Conn>, i: nat, conn: Conn, gone: nat)
    requires i < |now| && now[i] == conn && SplitConns(lp, now, i, conn, gone)
    ensures SplitConns(lp, now[..i] + now[i + 1..], i, conn, gone + 1)
  {
    var next := now[..i] + now[i + 1..];
    assert next[..i] == now[..i] && next[i..] == now[i..][1..];
    assert WithoutConn(now[i..], conn) == [] + WithoutConn(now[i..][1..], conn);
  }

  lemma ConnKept(lp: seq<Conn>, now: seq<Conn>, i: nat, conn: Conn, gone: nat)
    requires i < |now| && now[i] != conn && SplitConns(lp, now, i, conn, gone)
    ensures SplitConns(lp, now, i + 1, conn, gone)
  {
    assert now[i + 1..] == now[i..][1..] && now[..i + 1] == now[..i] + [now[i]];
    assert WithoutConn(now[i..], conn) == [now[i]] + WithoutConn(now[i..][1..], conn);
  }

  class PoolServer {
    var lpConns: seq<Conn>
    var getworkQueue: seq<Request>

    // the references held on connection objects
    var refs: multiset<Conn>

    // the identity of the next request
    var tickets: nat

    // what became of every call
    ghost var asked: multiset<Conn>
    ghost var answered: multiset<Conn>
    ghost var dropped: multiset<Conn>

    ghost function View(): Server
      reads this
    {
      Server(lpConns, getworkQueue, refs, tickets, asked, answered, dropped)
    }

    constructor ()
      ensures View() == NEW_SERVER
    {
      lpConns, getworkQueue, refs := [], [], multiset{};
      tickets, asked, answered, dropped := 0, multiset{}, multiset{}, multiset{};
    }

    method Ref(conn: Conn)
      modifies this`refs
      ensures refs == old(refs) + multiset{conn}
    {
      refs := refs + multiset{conn};
    }

    method Unref(conn: Conn)
      modifies this`refs
      ensures refs == old(refs) - multiset{conn}
    {
      refs := refs - multiset{conn};
    }

    /** A new request takes a reference on its connection and joins the queue. */
    method Enqueue(conn: Conn, fromLp: bool)
      modifies this`getworkQueue, this`refs, this`tickets
      ensures View() == Queued(old(View()), conn, fromLp)
    {
      Ref(conn);
      getworkQueue := getworkQueue + [Request(tickets, conn, fromLp)];
      tickets := tickets + 1;
    }

    /** A getwork call; the callback it runs only schedules serve_work. */
    method OnGetworkCall(conn: Conn)
      modifies this`getworkQueue, this`refs, this`tickets, this`asked
      ensures View() == Getwork(old(View()), conn)
      ensures getworkQueue == old(getworkQueue) + [Request(old(tickets), conn, false)]
    {
      Enqueue(conn, false);
      asked := asked + multiset{conn};
    }

    method OnLongPollRequest(conn: Conn)
      modifies this`lpConns, this`refs, this`asked
      ensures View() == LongPolled(old(View()), conn)
      ensures lpConns == old(lpConns) + [conn]
    {
      lpConns := lpConns + [conn];
      Ref(conn);
      asked := asked + multiset{conn};
    }

    /** The new request's reference replaces the list's. */
    method LongPollingConnToGetwork(conn: Conn)
      modifies this`getworkQueue, this`refs, this`tickets
      ensures View() == Queued(old(View()), conn, true).(refs := Queued(old(View()), conn, true).refs - multiset{conn})
    {
      Enqueue(conn, true);
      Unref(conn);
    }

    method NotifyNewBlock()
      modifies this`lpConns, this`getworkQueue, this`refs, this`tickets
      ensures View() == Released(old(View()))
    {
      ghost var s := View();
      for i := 0 to |lpConns|
        invariant lpConns == s.lp
        invariant Converted(View(), lpConns[i..]) == Converted(s, s.lp)
      {
        assert lpConns[i..][1..] == lpConns[i + 1..];
        LongPollingConnToGetwork(lpConns[i]);
      }
      lpConns := [];
    }

    /** One close handler gives back one reference. */
    method DropOne(conn: Conn)
      modifies this`refs, this`dropped
      ensures refs == old(refs)[conn := Less(old(refs)[conn], 1)]
      ensures dropped == old(dropped)[conn := old(dropped)[conn] + 1]
    {
      Unref(conn);
      dropped := dropped + multiset{conn};
    }

    /** The close handlers of the connection's queued requests. */
    method DropRequests(conn: Conn)
      modifies this`getworkQueue, this`refs, this`dropped
      ensures getworkQueue == WithoutRequests(old(getworkQueue), conn)
      ensures Handed(old(refs), refs, conn, Requests(old(getworkQueue), conn))
      ensures Gained(old(dropped), dropped, conn, Requests(old(getworkQueue), conn))
    {
      var i := 0;
      ghost var queue, gone := getworkQueue, 0;
      while i < |getworkQueue|
        invariant i <= |getworkQueue|
        invariant SplitRequests(queue, getworkQueue, i, conn, gone)
        invariant Handed(old(refs), refs, conn, gone) && Gained(old(dropped), dropped, conn, gone)
        decreases |getworkQueue| - i
      {
        if getworkQueue[i].conn == conn {
          RequestRemoved(queue, getworkQueue, i, conn, gone);
          getworkQueue := getworkQueue[..i] + getworkQueue[i + 1..];
          DropOne(conn);
          gone := gone + 1;
        } else {
          RequestKept(queue, getworkQueue, i, conn, gone);
          i := i + 1;
        }
      }
    }

    /** The close handlers of the connection's long polls. */
    method DropLongPolls(conn: Conn)
      modifies this`lpConns, this`refs, this`dropped
      ensures lpConns == WithoutConn(old(lpConns), conn)
      ensures Handed(old(refs), refs, conn, Times(old(lpConns), conn))
      ensures Gained(old(dropped), dropped, conn, Times(old(lpConns), conn))
    {
      var i := 0;
      ghost var lp, gone := lpConns, 0;
      while i < |lpConns|
        invariant i <= |lpConns|
        invariant SplitConns(lp, lpConns, i, conn, gone)
        invariant Handed(old(refs), refs, conn, gone) && Gained(old(dropped), dropped, conn, gone)
        decreases |lpConns| - i
      {
        if lpConns[i] == conn {
          ConnRemoved(lp, lpConns, i, conn, gone);
          lpConns := lpConns[..i] + lpConns[i + 1..];
          DropOne(conn);
          gone := gone + 1;
        } else {
          ConnKept(lp, lpConns, i, conn, gone);
          i := i + 1;
        }
      }
    }

    method OnConnectionClose(conn: Conn)
      modifies this`lpConns, this`getworkQueue, this`refs, this`dropped
      ensures View() == Closed(old(View()), conn)
    {
      DropRequests(conn);
      DropLongPolls(conn);
    }

    predicate NeedWork()
      reads this
    {
      |getworkQueue| > 0
    }

    method GetWorkRequest() returns (request: Request)
      requires NeedWork()
      modifies this`getworkQueue
      ensures request == old(getworkQueue)[0] && getworkQueue == old(getworkQueue)[1..]
    {
      request := getworkQueue[0];
      getworkQueue := getworkQueue[1..];
    }

    /** A served request is freed, and with it its reference on the connection. */
    method ReleaseRequest(request: Request)
      modifies this`refs, this`answered
      ensures refs == old(refs) - multiset{request.conn}
      ensures answered == old(answered) + multiset{request.conn}
    {
      Unref(request.conn);
      answered := answered + multiset{request.conn};
    }
  }
}
