/** The resolver of evdns.c: its requests, its nameservers, and the operations on them. */
module EvdnsBaseModule {
  import opened DnsRequests
  import opened DnsServers
  import opened Lists
  import opened Options

  ghost predicate Comes(random: nat -> nat, from: nat, t: nat) {
    exists k :: k >= from && random(k) == t
  }

  /** The random generator yields every 16-bit number again and again. */
  ghost predicate Fair(random: nat -> nat) {
    && (forall k :: random(k) <= 0xffff)
    && forall from: nat, t: nat :: t <= 0xffff ==> Comes(random, from, t)
  }

  lemma FreeNumberComes(d: Dns, random: nat -> nat, from: nat)
    requires Inv(d) && d.inflight < NO_TRANS_ID && Fair(random)
    ensures exists k :: k >= from && Free(d.requests, random(k))
  {
    hide Inv;
    SomeNumberIsFree(d);
    var t :| Free(d.requests, t);
    assert Comes(random, from, t);
  }

  /** A socket address. */
  type Address = nat

  ghost predicate Different(addresses: seq<Address>) {
    forall i, j :: 0 <= i < j < |addresses| ==> addresses[i] != addresses[j]
  }

  class EvdnsBase {
    // the heads of the circular lists of requests in flight, each list from its head on, and of those waiting
    var reqHeads: array<seq<nat>>
    var reqWaiting: seq<nat>
    var requests: map<nat, Request>
    // the circular list of nameservers, from some place on, and where its head stands
    var serverList: seq<nat>
    var serverHead: nat
    var servers: seq<Server>
    // each nameserver's address
    var addresses: seq<Address>
    var globalGoodNameservers: int
    var globalRequestsInflight: int
    var globalRequestsWaiting: int
    var globalMaxRequestsInflight: int
    // what the random generator yields, and how often it has been asked
    const random: nat -> nat
    var drawn: nat

    ghost predicate Valid()
      reads this, reqHeads
    {
      serverHead <= |serverList| && (serverHead == |serverList| ==> serverList == []) && Inv(View())
    }

    ghost function View(): Dns
      reads this, reqHeads
      requires serverHead <= |serverList|
    {
      Dns(reqHeads[..], reqWaiting, requests, Rotated(serverList, serverHead), servers, globalGoodNameservers,
          globalRequestsInflight, globalRequestsWaiting, globalMaxRequestsInflight)
    }

    constructor (random: nat -> nat)
      ensures Valid() && View() == Unused(64)
      ensures this.random == random && fresh(reqHeads) && addresses == []
    {
      hide Inv, Rotated, Empty, Unused;
      this.random, drawn := random, 0;
      reqHeads := new seq<nat>[13](_ => []);
      reqWaiting, requests, serverList, serverHead, servers, addresses := [], map[], [], 0, [], [];
      globalGoodNameservers, globalRequestsInflight, globalRequestsWaiting := 0, 0, 0;
      globalMaxRequestsInflight := 64;
      new;
      NothingYet(reqHeads[..]);
    }

    /** The request in flight that has a transaction number: a walk along one circular list. */
    method RequestFindFromTransId(transId: nat) returns (req: Option<nat>)
      requires Valid()
      ensures req == Find(View(), transId)
      ensures forall id :: req == Some(id) <==> InFlight(requests, id) && requests[id].transId == transId
      ensures req == None <==> forall id :: InFlight(requests, id) ==> requests[id].transId != transId
    {
      var q := reqHeads[transId % reqHeads.Length];
      ghost var d := View();
      assert d.heads[transId % |d.heads|] == q;
      req := None;
      var k := 0;
      while k < |q|
        invariant 0 <= k <= |q| && req == None
        invariant FindIn(q, requests, transId) == FindIn(q[k..], requests, transId)
      {
        if q[k] in requests && requests[q[k]].transId == transId {
          req := Some(q[k]);
          break;
        }
        assert q[k..][1..] == q[k + 1..];
        k := k + 1;
      }
      forall id
        ensures req == Some(id) <==> InFlight(requests, id) && requests[id].transId == transId
        ensures req == None ==> !(InFlight(requests, id) && requests[id].transId == transId)
      {
        FindAgrees(d, transId, id);
      }
      if req.Some? {
        FindAgrees(d, transId, req.value);
      }
    }

    /** Draws numbers until one is not in flight; it ends as long as not every number is. */
    method TransactionIdPick() returns (transId: nat)
      requires Valid() && Fair(random) && globalRequestsInflight < NO_TRANS_ID
      modifies this`drawn
      ensures Valid() && View() == old(View())
      ensures Free(requests, transId)
      ensures drawn > old(drawn) && transId == random(drawn - 1)
      ensures forall k :: old(drawn) <= k < drawn - 1 ==> !Free(requests, random(k))
    {
      hide Inv, Free, Find, Rotated;
      FreeNumberComes(View(), random, drawn);
      ghost var last :| last >= drawn && Free(requests, random(last));
      while true
        invariant old(drawn) <= drawn <= last
        invariant View() == old(View()) && Inv(View())
        invariant forall k :: old(drawn) <= k < drawn ==> !Free(requests, random(k))
        decreases last - drawn
      {
        transId := random(drawn);
        drawn := drawn + 1;
        NotFoundIsFree(View(), transId);
        if transId == 0xffff {
          continue;
        }
        // a number is taken when a request is found by it
        var req := RequestFindFromTransId(transId);
        if req == None {
          return;
        }
      }
    }

    /** The next nameserver that is thought to be up; that all of them are down while the count says otherwise cannot be. */
    method NameserverPick() returns (picked: Option<nat>)
      requires Valid()
      modifies this`serverHead
      ensures Valid()
      ensures var c := Pick(old(View()).ring, servers, globalGoodNameservers);
              picked == c.server && View() == old(View()).(ring := c.ring)
    {
      hide Inv, Rotated, FirstUp;
      PickKeeps(View());
      RotatedLength(serverList, serverHead);
      if serverList == [] {
        return None;
      }
      ghost var ring := View().ring;
      var n := |serverList|;
      // with none up the head just moves on by one
      if globalGoodNameservers == 0 {
        Turned(serverList, serverHead, 1);
        serverHead := if serverHead + 1 == n then 0 else serverHead + 1;
        return Some(serverList[serverHead]);
      }
      var startedAt := serverHead;
      ghost var k := 0;
      while true
        invariant 0 <= k <= FirstUp(ring, servers) && serverHead == Place(startedAt, k, n)
        decreases FirstUp(ring, servers) - k
      {
        Turned(serverList, startedAt, k);
        Turned(serverList, startedAt, k + 1);
        var s := serverList[serverHead];
        serverHead := if serverHead + 1 == n then 0 else serverHead + 1;
        if servers[s].up {
          // the first that is up from the old head on
          return Some(s);
        }
        k := k + 1;
        if serverHead == startedAt {
          // a whole turn, although one is up before its end
          assert false;
        }
      }
    }

    /** A new request: into flight, and sent, when there is room and a nameserver, onto the waiting list otherwise. */
    method RequestSubmit(req: nat, outcome: SendResult) returns (transId: nat)
      requires Valid() && Fair(random) && globalRequestsInflight < NO_TRANS_ID && req !in requests
      modifies this, reqHeads
      ensures addresses == old(addresses)
      ensures reqHeads == old(reqHeads) && Valid()
      ensures old(globalRequestsInflight < globalMaxRequestsInflight) ==> Free(old(requests), transId)
      // into flight, with its number and at a nameserver that is up whenever one is, when there is room and a nameserver
      ensures old(globalRequestsInflight < globalMaxRequestsInflight && servers != []) ==>
                && InFlight(requests, req) && requests[req].transId == transId && reqWaiting == old(reqWaiting)
                && globalRequestsInflight == old(globalRequestsInflight) + 1
                && requests[req].txCount == (if outcome == NotNow then 0 else 1)
                && (outcome != Broken ==>
                      && (IsUp(servers, requests[req].server.value) <==> exists s :: IsUp(old(servers), s))
                      && requests - {req} == old(requests))
      // the last one of those that wait otherwise
      ensures old(globalRequestsInflight >= globalMaxRequestsInflight || servers == []) ==>
                && req in requests && requests[req].server == None && reqWaiting == old(reqWaiting) + [req]
                && requests - {req} == old(requests) && servers == old(servers) && globalRequestsInflight == old(globalRequestsInflight)
      ensures globalRequestsInflight >= globalMaxRequestsInflight || req !in reqWaiting || servers == []
      ensures var d := Submit(old(View()), req, transId);
              if !InFlight(d.requests, req) then View() == d
              else d.requests[req].server.value < |d.servers| && View() == Transmitted(d, req, outcome)
    {
      hide Inv, Pick, Free, Rotated, Put, Transmitted, IsUp, Submit;
      ghost var d := View();
      NewOnesDoNotWait(d, req);
      NoneChosen(d);
      var issuingNow := globalRequestsInflight < globalMaxRequestsInflight;
      var ns: Option<nat> := None;
      transId := NO_TRANS_ID;
      if issuingNow {
        transId := TransactionIdPick();
        ns := NameserverPick();
      }
      HasHeads(d);
      requests := requests[req := Request(transId, ns, 0)];
      if ns.Some? {
        InsertInFlight(req);
        assert View() == Submit(d, req, transId) by {
          SubmittedInParts(d, req, transId);
        }
        SubmittedAndSent(d, req, transId, outcome);
        var _ := RequestTransmit(req, outcome);
      } else {
        SubmitKeeps(d, req, transId);
        reqWaiting := reqWaiting + [req];
        globalRequestsWaiting := globalRequestsWaiting + 1;
      }
    }

    /** A request that has a server is put into its bucket and counted. */
    method InsertInFlight(req: nat)
      requires serverHead <= |serverList| && reqHeads.Length > 0 && InFlight(requests, req)
      modifies this`servers, this`globalRequestsInflight, reqHeads
      ensures reqHeads == old(reqHeads)
      ensures var r := requests[req];
              View() == old(View()).(heads := Put(old(View()).heads, req, r.transId), inflight := old(globalRequestsInflight) + 1,
                                     servers := Adjusted(old(servers), r.server.value, 1))
    {
      var r := requests[req];
      var b := r.transId % reqHeads.Length;
      reqHeads[b] := reqHeads[b] + [req];
      globalRequestsInflight := globalRequestsInflight + 1;
      servers := Adjusted(servers, r.server.value, 1);
    }

    /** The request that has waited longest goes into flight, if there is a nameserver. */
    method PromoteOne() returns (done: bool, ghost transId: nat)
      requires Valid() && Fair(random) && globalRequestsInflight < NO_TRANS_ID && CanWait(View())
      modifies this, reqHeads
      ensures addresses == old(addresses)
      ensures reqHeads == old(reqHeads) && Valid() && done == (old(servers) != [])
      ensures !done ==> View() == old(View())
      ensures done ==> CanPromote(old(View())) && Free(old(requests), transId) && View() == Promote(old(View()), transId)
    {
      hide Inv, Pick, Free, Rotated, Put, Promote, Adjusted, IsUp;
      ghost var d := View();
      WaitingOnes(d);
      NoneChosen(d);
      var req := reqWaiting[0];
      var ns := NameserverPick();
      if ns == None {
        return false, 0;
      }
      done, transId := true, 0;
      var id := TransactionIdPick();
      transId := id;
      PromoteKeeps(d, transId);
      // from the one list to the other
      requests := requests[req := requests[req].(transId := id, server := ns)];
      reqWaiting := reqWaiting[1..];
      globalRequestsWaiting := globalRequestsWaiting - 1;
      InsertInFlight(req);
      PromotedInParts(d, transId);
    }

    /** Requests that wait go into flight and are sent, those that have waited longest first, until there is no room, nobody
        waits, or there is no nameserver; `sends(k)` comes of the k-th sending. */
    method PumpWaitingQueue(sends: nat -> SendResult) returns (ghost steps: seq<Step>)
      requires Valid() && Fair(random) && Bounded(View())
      modifies this, reqHeads
      ensures addresses == old(addresses)
      ensures reqHeads == old(reqHeads) && Valid() && Bounded(View())
      ensures Pumped(old(View()), steps, View())
      ensures globalRequestsInflight >= globalMaxRequestsInflight || reqWaiting == [] || servers == []
      // each of those is sent, and no other
      ensures |reqWaiting| <= |old(reqWaiting)| && SentOnce(old(View()), View(), |old(reqWaiting)| - |reqWaiting|, sends)
    {
      hide Inv, Pick, Free, Rotated, Put, Promote, Pumped, Transmitted, Bounded, SentOnce;
      SentOnceNone(View(), sends);
      WaitingOnce(View());
      steps := [];
      ghost var d0 := View();
      var k := 0;
      NotPumped(d0);
      while globalRequestsInflight < globalMaxRequestsInflight && globalRequestsWaiting != 0
        invariant reqHeads == old(reqHeads) && Valid() && Bounded(View())
        invariant Pumped(d0, steps, View()) && k == |d0.waiting| - |reqWaiting| && SentOnce(d0, View(), k, sends)
        invariant addresses == old(addresses)
        modifies this, reqHeads
        decreases |reqWaiting|
      {
        ghost var d := View();
        WaitingOnes(d);
        BoundedMeans(d);
        ghost var transId, moved;
        var done, req := false, reqWaiting[0];
        done, transId := PromoteOne();
        if !done {
          return;
        }
        moved, steps := PumpTurn(d0, steps, d, transId, sends);
        var _ := RequestTransmit(req, sends(k));
        k := k + 1;
      }
      WaitingOnes(View());
    }

    /** A request that is over is taken off its list, and others may go into flight instead. */
    method RequestFinished(req: nat, sends: nat -> SendResult) returns (ghost steps: seq<Step>)
      requires Valid() && Fair(random) && Bounded(View()) && req in requests
      modifies this, reqHeads
      ensures addresses == old(addresses)
      ensures reqHeads == old(reqHeads) && Valid() && Bounded(View())
      ensures Pumped(Finish(old(View()), req), steps, View())
      ensures requests.Keys == old(requests.Keys) - {req}
      ensures globalRequestsInflight >= globalMaxRequestsInflight || reqWaiting == [] || servers == []
      ensures var d := Finish(old(View()), req);
              |reqWaiting| <= |d.waiting| && SentOnce(d, View(), |d.waiting| - |reqWaiting|, sends)
    {
      hide Inv, Rotated, Remove, Adjusted, SentOnce;
      FinishKeeps(View(), req);
      HasHeads(View());
      var r := requests[req];
      if r.server.Some? {
        var b := r.transId % reqHeads.Length;
        reqHeads[b] := Remove(reqHeads[b], req);
        globalRequestsInflight := globalRequestsInflight - 1;
        servers := Adjusted(servers, r.server.value, -1);
      } else {
        reqWaiting := Remove(reqWaiting, req);
        globalRequestsWaiting := globalRequestsWaiting - 1;
      }
      requests := requests - {req};
      steps := PumpWaitingQueue(sends);
    }

    /** A request in flight is given to a nameserver, unless that is none or the one it has. */
    method RequestSwapNs(req: nat, ns: Option<nat>)
      requires serverHead <= |serverList| && InFlight(requests, req) && LoadsOk(servers, requests)
      modifies this`servers, this`requests
      ensures var r := old(requests)[req];
              var moves := ns.Some? && ns != r.server;
              View() == if moves then
                          old(View()).(requests := old(requests)[req := r.(server := ns)],
                                       servers := Adjusted(Adjusted(old(servers), r.server.value, -1), ns.value, 1))
                        else old(View())
    {
      hide Rotated;
      var r := requests[req];
      if ns.Some? && r.server != ns {
        LoadIsPositive(servers, requests, req);
        assert servers[r.server.value].inflight > 0;
        servers := Adjusted(servers, r.server.value, -1);
        servers := Adjusted(servers, ns.value, 1);
        requests := requests[req := r.(server := ns)];
      }
    }

    /** A request in flight is given to the next nameserver. */
    method SwapToNext(req: nat)
      requires Valid() && InFlight(requests, req)
      modifies this
      ensures addresses == old(addresses)
      ensures reqHeads == old(reqHeads) && Valid() && View() == Swap(old(View()), req)
    {
      hide Index, Waits, Apart, RingOk, LoadsOk, Total, Rotated, Adjusted, Pick;
      SwapKeeps(View(), req);
      var ns := NameserverPick();
      RequestSwapNs(req, ns);
    }

    /** A nameserver has failed: what has not been sent to it yet is given to others, if any of them is up. */
    method NameserverFailed(ns: nat)
      requires Valid() && ns < |servers|
      modifies this
      ensures addresses == old(addresses)
      ensures reqHeads == old(reqHeads) && Valid() && View() == Fail(old(View()), ns)
    {
      hide Inv, Rotated, Swap, MoveAll;
      ghost var d := View();
      FailKeeps(d, ns);
      // it has been dealt with before
      if !servers[ns].up {
        return;
      }
      DownKeeps(d, ns);
      globalGoodNameservers := globalGoodNameservers - 1;
      assert globalGoodNameservers >= 0;
      servers := servers[ns := servers[ns].(up := false)];
      // nobody could take over
      if globalGoodNameservers == 0 {
        return;
      }
      ghost var down := View();
      ghost var done: seq<nat> := [];
      assert MoveAll(down, done, ns) == down by { MoveNone(down, ns); }
      var i := 0;
      while i < reqHeads.Length
        invariant reqHeads == old(reqHeads) && Valid() && View().heads == down.heads
        invariant 0 <= i <= reqHeads.Length && done == All(down.heads[..i]) && View() == MoveAll(down, done, ns)
        invariant addresses == old(addresses)
        modifies this
      {
        var q := reqHeads[i];
        assert q == down.heads[i];
        var k := 0;
        while k < |q|
          invariant 0 <= k <= |q| && done == All(down.heads[..i]) + q[..k]
          invariant reqHeads == old(reqHeads) && Valid() && View() == MoveAll(down, done, ns) && View().heads == down.heads
          invariant addresses == old(addresses)
          modifies this
        {
          InBucket(View(), i, q[k]);
          MoveOneMore(down, done, q[k], ns);
          MoveAllKeeps(down, done + [q[k]], ns);
          if requests[q[k]].txCount == 0 && requests[q[k]].server == Some(ns) {
            // assigned to the failed server, but never sent
            SwapToNext(q[k]);
          }
          assert q[..k + 1] == q[..k] + [q[k]];
          done := done + [q[k]];
          k := k + 1;
        }
        assert q[..k] == q;
        AllOneMore(down.heads, i);
        i := i + 1;
      }
      assert down.heads[..i] == down.heads;
    }

    /** Tries a request again at another nameserver: 1 if there is no other one to be had.  When the nameserver it had is down and
        another is up, it goes to one that is up. */
    method RequestReissue(req: nat) returns (result: int)
      requires Valid() && InFlight(requests, req)
      modifies this
      ensures addresses == old(addresses)
      ensures reqHeads == old(reqHeads) && Valid() && InFlight(requests, req)
      ensures var d := Swap(old(View()), req);
              if result == 1 then View() == d && d.requests[req].server == old(requests)[req].server
              else result == 0 && View() == SetTxCount(d, req, 0) && d.requests[req].server != old(requests)[req].server
      ensures !IsUp(servers, old(requests)[req].server.value) && globalGoodNameservers != 0 ==>
                result == 0 && IsUp(servers, requests[req].server.value)
    {
      hide Inv, Rotated, Swap;
      ghost var d := View();
      SwapKeeps(d, req);
      var lastNs := requests[req].server;
      SwapToNext(req);
      if requests[req].server == lastNs {
        // the next server in turn is the one it has
        return 1;
      }
      SetTxCountKeeps(View(), req, 0);
      requests := requests[req := requests[req].(txCount := 0)];
      result := 0;
    }

    /** Sends a request.  When that fails for good the nameserver has failed: the request itself is then given to another one, if
        it had not been sent before, and is counted as sent all the same. */
    method RequestTransmit(req: nat, outcome: SendResult) returns (result: int)
      requires Valid() && InFlight(requests, req)
      modifies this
      ensures addresses == old(addresses)
      ensures reqHeads == old(reqHeads) && Valid()
      ensures old(requests)[req].server.value < |old(servers)| && View() == Transmitted(old(View()), req, outcome)
      ensures var d, ns := old(View()), old(requests)[req].server.value;
              match outcome
              case NotNow => result == 1 && View() == d
              case Delivered => result == 0 && View() == SetTxCount(d, req, d.requests[req].txCount + 1)
              case Broken =>
                && result == 1 && InFlight(Fail(d, ns).requests, req)
                && View() == SetTxCount(Fail(d, ns), req, d.requests[req].txCount + 1)
                && (IsUp(d.servers, ns) && (exists x :: x != ns && IsUp(d.servers, x)) && d.requests[req].txCount == 0 ==>
                      requests[req].server != Some(ns) && IsUp(servers, requests[req].server.value))
    {
      hide Inv, Rotated, Fail;
      ghost var d := View();
      var ns := requests[req].server.value;
      LoadIsPositiveIn(d, req);
      if outcome == NotNow {
        return 1;
      }
      result := 0;
      if outcome == Broken {
        FailKeeps(d, ns);
        FailKeepsFlight(d, ns, req);
        NameserverFailed(ns);
        assert MovedUp(d, View(), req);
        result := 1;
      }
      SetTxCountKeeps(View(), req, requests[req].txCount + 1);
      requests := requests[req := requests[req].(txCount := requests[req].txCount + 1)];
    }

    /** A nameserver is up again. */
    method NameserverUp(ns: nat)
      requires Valid() && ns < |servers|
      modifies this`servers, this`globalGoodNameservers
      ensures Valid() && View() == Recover(old(View()), ns)
    {
      hide Inv, Rotated;
      RecoverKeeps(View(), ns);
      if servers[ns].up {
        return;
      }
      servers := servers[ns := servers[ns].(up := true)];
      globalGoodNameservers := globalGoodNameservers + 1;
    }

    /** Whether a nameserver has the given address: a walk once round the list. */
    method HasAddress(address: Address) returns (found: bool)
      requires Valid() && |addresses| == |servers|
      ensures found <==> address in addresses
    {
      hide Rotated;
      RotatedLength(serverList, serverHead);
      ghost var ring, n := View().ring, |serverList|;
      var server, k := serverHead, 0;
      while k < |serverList|
        invariant 0 <= k <= n && (n > 0 ==> server == Place(serverHead, k, n) || (k == n && server == serverHead))
        invariant forall i :: 0 <= i < k ==> ring[i] < |addresses| && addresses[ring[i]] != address
      {
        Turned(serverList, serverHead, k);
        assert ring[k] in ring;
        if addresses[serverList[server]] == address {
          return true;
        }
        server := if server + 1 == |serverList| then 0 else server + 1;
        k := k + 1;
      }
      forall s: nat | s < |addresses|
        ensures addresses[s] != address
      {
        assert s in ring && ring[IndexOf(ring, s)] == s;
      }
      found := false;
    }

    /** Another nameserver, put just after the head of the list, unless one with that address is there already (the result
        is 3) or it cannot be set up (the result is `failure`). */
    method NameserverAdd(address: Address, failure: int) returns (result: int)
      requires Valid() && |addresses| == |servers| && Different(addresses)
      modifies this`serverList, this`serverHead, this`servers, this`globalGoodNameservers, this`addresses
      ensures Valid() && |addresses| == |servers| && Different(addresses)
      ensures result == if address in old(addresses) then 3 else failure
      ensures address !in old(addresses) && failure == 0 ==> View() == AddServer(old(View())) && addresses == old(addresses) + [address]
      ensures address in old(addresses) || failure != 0 ==> View() == old(View()) && addresses == old(addresses)
    {
      hide Inv;
      var found := HasAddress(address);
      if found {
        return 3;
      }
      if failure != 0 {
        return failure;
      }
      AddServerInv(View());
      var ns := |servers|;
      servers := servers + [Server(true, 0)];
      addresses := addresses + [address];
      if serverList == [] {
        serverList, serverHead := [ns], 0;
        assert Rotated([ns], 0) == [ns];
      } else {
        InsertedAfterHead(serverList, serverHead, ns);
        serverList := serverList[..serverHead + 1] + [ns] + serverList[serverHead + 1..];
      }
      globalGoodNameservers := globalGoodNameservers + 1;
      result := 0;
    }

    /** Another limit, and another number of buckets: all requests in flight are moved to new ones, one by one. */
    method SetMaxRequestsInflight(max: int)
      requires Valid()
      modifies this`reqHeads, this`globalMaxRequestsInflight, reqHeads
      ensures fresh(reqHeads) && Valid() && View() == SetMax(old(View()), max)
    {
      hide Inv, Rotated, Rehashed, Put, All;
      ghost var d := View();
      SetMaxKeeps(d, max);
      var maxInflight := if max < 1 then 1 else max;
      var n := (maxInflight + 4) / 5;
      var oldHeads := reqHeads;
      var newHeads := new seq<nat>[n](_ => []);
      RehashNone(d.requests, n);
      ghost var done: seq<nat> := [];
      var i := 0;
      while i < oldHeads.Length
        invariant 0 <= i <= oldHeads.Length && done == All(d.heads[..i])
        invariant oldHeads[i..] == d.heads[i..] && newHeads[..] == Rehashed(done, d.requests, n)
        modifies oldHeads, newHeads
      {
        ghost var k := 0;
        while oldHeads[i] != []
          invariant 0 <= k <= |d.heads[i]| && done == All(d.heads[..i]) + d.heads[i][..k]
          invariant oldHeads[i] == d.heads[i][k..] && oldHeads[i + 1..] == d.heads[i + 1..]
          invariant newHeads[..] == Rehashed(done, d.requests, n)
          modifies oldHeads, newHeads
          decreases |oldHeads[i]|
        {
          var req := oldHeads[i][0];
          InBucket(d, i, d.heads[i][k]);
          oldHeads[i] := oldHeads[i][1..];
          RehashOneMore(done, d.requests, n, req);
          var b := requests[req].transId % n;
          newHeads[b] := newHeads[b] + [req];
          PutAt(Rehashed(done, d.requests, n), req, requests[req].transId);
          assert d.heads[i][..k + 1] == d.heads[i][..k] + [req];
          done := done + [req];
          k := k + 1;
        }
        AllOneMore(d.heads, i);
        i := i + 1;
      }
      assert d.heads[..i] == d.heads;
      reqHeads := newHeads;
      globalMaxRequestsInflight := maxInflight;
    }
  }

  /** The place `k` steps on from place `h` in a circle of `n`. */
  function Place(h: nat, k: nat, n: nat): nat
    requires h < n && k <= n
  {
    if h + k < n then h + k else h + k - n
  }

  /** Thirteen empty lists are what a resolver for 64 requests starts with. */
  lemma NothingYet(heads: seq<seq<nat>>)
    requires |heads| == 13 && forall b :: 0 <= b < 13 ==> heads[b] == []
    ensures Inv(Unused(64)) && Unused(64) == Dns(heads, [], map[], Rotated([], 0), [], 0, 0, 0, 64)
  {
    hide Inv;
    UnusedInv(64);
    assert heads == Empty(13);
  }

  lemma RotatedLength(q: seq<nat>, k: nat)
    requires k <= |q|
    ensures |Rotated(q, k)| == |q|
  {}

  lemma Turned(q: seq<nat>, h: nat, k: nat)
    requires h < |q| && k <= |q|
    ensures Rotated(q, Place(h, k, |q|)) == Rotated(Rotated(q, h), k)
    ensures q[Place(h, k, |q|)] == Rotated(Rotated(q, h), k)[0]
    ensures k < |q| ==> q[Place(h, k, |q|)] == Rotated(q, h)[k]
  {}

  lemma InsertedAfterHead(q: seq<nat>, h: nat, x: nat)
    requires h < |q|
    ensures Rotated(q[..h + 1] + [x] + q[h + 1..], h) == WithNew(Rotated(q, h), x)
  {}
}
