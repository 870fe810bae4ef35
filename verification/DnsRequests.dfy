/** The requests of a resolver: those in flight, in buckets by transaction number, and those waiting. */
module DnsRequests {
  import opened DnsServers
  import opened Lists
  import opened Options

  /** A transaction number that no request in flight has. */
  const NO_TRANS_ID := 0xffff

  /** A request: it is in flight when it has a server, and waiting otherwise. */
  datatype Request = Request(transId: nat, server: Option<nat>, txCount: nat)

  /** A resolver: the buckets and the waiting list each from its head on, by numbers of requests; the ring of servers from its
      head on; and the counters. */
  datatype Dns = Dns(heads: seq<seq<nat>>, waiting: seq<nat>, requests: map<nat, Request>,
                     ring: seq<nat>, servers: seq<Server>, good: int,
                     inflight: int, waitingCount: int, max: int)

  predicate InFlight(requests: map<nat, Request>, id: nat) {
    id in requests && requests[id].server.Some?
  }

  // What holds of the lists

  /** Bucket `b` lists the requests in flight whose number belongs there, once each. */
  ghost predicate Bucket(q: seq<nat>, b: nat, n: nat, requests: map<nat, Request>)
    requires n > 0
  {
    && Unique(q)
    && forall id :: id in q <==> InFlight(requests, id) && requests[id].transId % n == b
  }

  ghost predicate Index(heads: seq<seq<nat>>, requests: map<nat, Request>) {
    && |heads| > 0
    && forall b :: 0 <= b < |heads| ==> Bucket(heads[b], b, |heads|, requests)
  }

  /** The waiting list lists the requests that have no server, once each. */
  ghost predicate Waits(waiting: seq<nat>, requests: map<nat, Request>) {
    && Unique(waiting)
    && forall id :: id in waiting <==> id in requests && requests[id].server == None
  }

  /** No two requests in flight have the same transaction number. */
  ghost predicate Apart(requests: map<nat, Request>) {
    && (forall id :: InFlight(requests, id) ==> requests[id].transId < NO_TRANS_ID)
    && forall i, j :: InFlight(requests, i) && InFlight(requests, j) && requests[i].transId == requests[j].transId ==> i == j
  }

  /** A transaction number that is free to be used. */
  ghost predicate Free(requests: map<nat, Request>, t: nat) {
    && t < NO_TRANS_ID
    && forall id :: InFlight(requests, id) ==> requests[id].transId != t
  }

  /** The requests that a server has in flight. */
  ghost function Load(requests: map<nat, Request>, s: nat): set<nat> {
    set id | id in requests && requests[id].server == Some(s)
  }

  ghost predicate LoadsOk(servers: seq<Server>, requests: map<nat, Request>) {
    && (forall s :: 0 <= s < |servers| ==> servers[s].inflight == |Load(requests, s)|)
    && forall id :: InFlight(requests, id) ==> requests[id].server.value < |servers|
  }

  /** What holds between the operations of a resolver. */
  ghost predicate Inv(d: Dns) {
    && Index(d.heads, d.requests) && Waits(d.waiting, d.requests) && Apart(d.requests)
    && LoadsOk(d.servers, d.requests) && RingOk(d.ring, d.servers, d.good)
    && d.inflight == Total(d.heads) && d.waitingCount == |d.waiting|
    && d.max >= 1 && |d.heads| == (d.max + 4) / 5
  }

  function Empty(n: nat): seq<seq<nat>> {
    seq(n, _ => [])
  }

  /** A resolver without servers and requests. */
  function Unused(max: nat): Dns {
    Dns(Empty((max + 4) / 5), [], map[], [], [], 0, 0, 0, max)
  }

  lemma {:induction false} EmptyTotal(n: nat)
    ensures Total(Empty(n)) == 0
  {
    if n > 0 {
      assert Empty(n)[1..] == Empty(n - 1);
      EmptyTotal(n - 1);
    }
  }

  lemma UnusedInv(max: nat)
    requires max >= 1
    ensures Inv(Unused(max))
  {
    EmptyTotal((max + 4) / 5);
    NoServers();
  }

  // Finding

  /** The first member of a list that has a transaction number. */
  function FindIn(q: seq<nat>, requests: map<nat, Request>, t: nat): (r: Option<nat>)
    ensures r.Some? ==> r.value in q && r.value in requests && requests[r.value].transId == t
    ensures r == None ==> forall id :: id in q && id in requests ==> requests[id].transId != t
  {
    if q == [] then None
    else if q[0] in requests && requests[q[0]].transId == t then Some(q[0])
    else FindIn(q[1..], requests, t)
  }

  function Find(d: Dns, t: nat): Option<nat>
    requires d.heads != []
  {
    FindIn(d.heads[t % |d.heads|], d.requests, t)
  }

  /** Looking into one bucket agrees with going through all the requests in flight. */
  lemma FindAgrees(d: Dns, t: nat, id: nat)
    requires Inv(d)
    ensures Find(d, t) == Some(id) <==> InFlight(d.requests, id) && d.requests[id].transId == t
    ensures Find(d, t) == None ==> !(InFlight(d.requests, id) && d.requests[id].transId == t)
  {
    var n := |d.heads|;
    assert Bucket(d.heads[t % n], t % n, n, d.requests);
  }

  /** A number that is not found, and is not the one for none, is free. */
  lemma NotFoundIsFree(d: Dns, t: nat)
    requires Inv(d)
    ensures Find(d, t) == None && t < NO_TRANS_ID <==> Free(d.requests, t)
  {
    forall id | Find(d, t) == None && InFlight(d.requests, id)
      ensures d.requests[id].transId != t
    {
      FindAgrees(d, t, id);
    }
    if Find(d, t).Some? {
      FindAgrees(d, t, Find(d, t).value);
    }
  }

  // How the parts change

  /** A request is put at the end of its bucket. */
  function Put(heads: seq<seq<nat>>, id: nat, t: nat): seq<seq<nat>>
    requires heads != []
  {
    var b := t % |heads|;
    heads[b := heads[b] + [id]]
  }

  function Take(heads: seq<seq<nat>>, id: nat, t: nat): seq<seq<nat>>
    requires heads != []
  {
    var b := t % |heads|;
    heads[b := Remove(heads[b], id)]
  }

  lemma IndexPut(heads: seq<seq<nat>>, requests: map<nat, Request>, id: nat, r: Request)
    requires Index(heads, requests) && !InFlight(requests, id) && r.server.Some?
    ensures Index(Put(heads, id, r.transId), requests[id := r])
    ensures Total(Put(heads, id, r.transId)) == Total(heads) + 1
  {
    var n, c, heads' := |heads|, r.transId % |heads|, Put(heads, id, r.transId);
    TotalUpdate(heads, c, heads[c] + [id]);
    forall b | 0 <= b < n
      ensures Bucket(heads'[b], b, n, requests[id := r])
    {
      assert Bucket(heads[b], b, n, requests);
      assert b == c ==> forall x :: x in heads'[b] <==> x in heads[b] || x == id;
    }
  }

  lemma IndexTake(heads: seq<seq<nat>>, requests: map<nat, Request>, id: nat)
    requires Index(heads, requests) && InFlight(requests, id)
    ensures Index(Take(heads, id, requests[id].transId), requests - {id})
    ensures Total(Take(heads, id, requests[id].transId)) == Total(heads) - 1
  {
    var n, c, heads' := |heads|, requests[id].transId % |heads|, Take(heads, id, requests[id].transId);
    assert Bucket(heads[c], c, n, requests);
    TotalUpdate(heads, c, Remove(heads[c], id));
    RemoveMeaning(heads[c], id);
    forall b | 0 <= b < n
      ensures Bucket(heads'[b], b, n, requests - {id})
    {
      assert Bucket(heads[b], b, n, requests);
    }
  }

  /** The buckets do not depend on anything but the transaction numbers of the requests in flight. */
  lemma IndexSame(heads: seq<seq<nat>>, requests: map<nat, Request>, requests': map<nat, Request>)
    requires Index(heads, requests)
    requires forall id :: InFlight(requests, id) <==> InFlight(requests', id)
    requires forall id :: InFlight(requests, id) && InFlight(requests', id) ==> requests'[id].transId == requests[id].transId
    ensures Index(heads, requests')
  {
    forall b | 0 <= b < |heads|
      ensures Bucket(heads[b], b, |heads|, requests')
    {
      assert Bucket(heads[b], b, |heads|, requests);
    }
  }

  function Adjusted(servers: seq<Server>, s: nat, delta: int): seq<Server> {
    if s < |servers| then servers[s := servers[s].(inflight := servers[s].inflight + delta)] else servers
  }

  lemma RingAdjusted(ring: seq<nat>, servers: seq<Server>, good: int, s: nat, delta: int)
    requires RingOk(ring, servers, good)
    ensures RingOk(ring, Adjusted(servers, s, delta), good)
  {
    if s < |servers| {
      StateChanges(ring, servers, good, s, Adjusted(servers, s, delta)[s]);
    }
  }

  lemma LoadsTake(servers: seq<Server>, requests: map<nat, Request>, id: nat)
    requires LoadsOk(servers, requests) && InFlight(requests, id)
    ensures LoadsOk(Adjusted(servers, requests[id].server.value, -1), requests - {id})
  {
    var s, servers' := requests[id].server.value, Adjusted(servers, requests[id].server.value, -1);
    forall x | 0 <= x < |servers'|
      ensures servers'[x].inflight == |Load(requests - {id}, x)|
    {
      assert Load(requests - {id}, x) == Load(requests, x) - {id};
      assert id in Load(requests, x) <==> x == s;
    }
  }

  lemma LoadPut(requests: map<nat, Request>, id: nat, r: Request, x: nat)
    requires !InFlight(requests, id)
    ensures |Load(requests[id := r], x)| == |Load(requests, x)| + if r.server == Some(x) then 1 else 0
  {
    var before, after := Load(requests, x), Load(requests[id := r], x);
    assert id !in before;
    if r.server == Some(x) {
      assert after == before + {id};
    } else {
      assert after == before;
    }
  }

  lemma LoadsPut(servers: seq<Server>, requests: map<nat, Request>, id: nat, r: Request)
    requires LoadsOk(servers, requests) && !InFlight(requests, id) && r.server.Some? && r.server.value < |servers|
    ensures LoadsOk(Adjusted(servers, r.server.value, 1), requests[id := r])
  {
    var s, servers' := r.server.value, Adjusted(servers, r.server.value, 1);
    forall x | 0 <= x < |servers'|
      ensures servers'[x].inflight == |Load(requests[id := r], x)|
    {
      LoadPut(requests, id, r, x);
    }
  }

  lemma LoadsSame(servers: seq<Server>, requests: map<nat, Request>, servers': seq<Server>, requests': map<nat, Request>)
    requires LoadsOk(servers, requests) && |servers| == |servers'|
    requires forall s :: 0 <= s < |servers| ==> servers'[s].inflight == servers[s].inflight
    requires forall id :: InFlight(requests, id) <==> InFlight(requests', id)
    requires forall id :: InFlight(requests, id) && InFlight(requests', id) ==> requests'[id].server == requests[id].server
    ensures LoadsOk(servers', requests')
  {
    forall s | 0 <= s < |servers'|
      ensures servers'[s].inflight == |Load(requests', s)|
    {
      forall id
        ensures id in Load(requests', s) <==> id in Load(requests, s)
      {
        assert InFlight(requests, id) <==> InFlight(requests', id);
      }
      assert Load(requests', s) == Load(requests, s);
    }
  }

  lemma ApartPut(requests: map<nat, Request>, id: nat, r: Request)
    requires Apart(requests) && Free(requests, r.transId) && !InFlight(requests, id)
    ensures Apart(requests[id := r])
  {}

  lemma ApartLess(requests: map<nat, Request>, requests': map<nat, Request>)
    requires Apart(requests)
    requires forall id :: InFlight(requests', id) ==> InFlight(requests, id) && requests'[id].transId == requests[id].transId
    ensures Apart(requests')
  {}

  lemma WaitsSame(waiting: seq<nat>, requests: map<nat, Request>, requests': map<nat, Request>)
    requires Waits(waiting, requests)
    requires forall id :: id in requests' && requests'[id].server == None <==> id in requests && requests[id].server == None
    ensures Waits(waiting, requests')
  {}

  // The operations

  /** Puts a request into flight, with transaction number `t`, at a server. */
  function Launch(d: Dns, id: nat, r: Request, ring: seq<nat>): Dns
    requires d.heads != [] && r.server.Some?
  {
    d.(heads := Put(d.heads, id, r.transId), requests := d.requests[id := r], ring := ring,
       servers := Adjusted(d.servers, r.server.value, 1), inflight := d.inflight + 1)
  }

  /** A new request: it goes into flight when there is room and a server, and waits otherwise. */
  function Submit(d: Dns, id: nat, t: nat): Dns
    requires d.heads != []
  {
    var issuing := d.inflight < d.max;
    var c := if issuing then Pick(d.ring, d.servers, d.good) else Choice(None, d.ring);
    var r := Request(if issuing then t else NO_TRANS_ID, c.server, 0);
    if c.server.Some? then Launch(d, id, r, c.ring)
    else
      d.(waiting := d.waiting + [id], requests := d.requests[id := r], ring := c.ring, waitingCount := d.waitingCount + 1)
  }

  /** There is room for the request that has waited longest, and a server for it. */
  predicate CanPromote(d: Dns) {
    d.inflight < d.max && d.waitingCount != 0 && d.waiting != [] && d.ring != []
  }

  /** The request that has waited longest goes into flight. */
  function Promote(d: Dns, t: nat): Dns
    requires d.heads != []
  {
    if !CanPromote(d) then d
    else
      var c := Pick(d.ring, d.servers, d.good);
      var id := d.waiting[0];
      if c.server.Some? && id in d.requests then
        Launch(d.(waiting := d.waiting[1..], waitingCount := d.waitingCount - 1), id, d.requests[id].(transId := t, server := c.server), c.ring)
      else d
  }

  /** A request is over. */
  function Finish(d: Dns, id: nat): Dns
    requires d.heads != [] && id in d.requests
  {
    var r := d.requests[id];
    if r.server.Some? then
      d.(heads := Take(d.heads, id, r.transId), requests := d.requests - {id},
         servers := Adjusted(d.servers, r.server.value, -1), inflight := d.inflight - 1)
    else
      d.(waiting := Remove(d.waiting, id), requests := d.requests - {id}, waitingCount := d.waitingCount - 1)
  }

  /** A request in flight is given to the next server. */
  function Swap(d: Dns, id: nat): Dns
    requires InFlight(d.requests, id)
  {
    var c := Pick(d.ring, d.servers, d.good);
    var r := d.requests[id];
    if c.server.Some? && c.server != r.server then
      d.(ring := c.ring, requests := d.requests[id := r.(server := c.server)],
         servers := Adjusted(Adjusted(d.servers, r.server.value, -1), c.server.value, 1))
    else d.(ring := c.ring)
  }

  /** A request that has not been sent yet to the server that failed. */
  predicate Movable(d: Dns, id: nat, s: nat) {
    InFlight(d.requests, id) && d.requests[id].server == Some(s) && d.requests[id].txCount == 0
  }

  /** The requests of a list that have not been sent yet to the server that failed are given to others. */
  function MoveAll(d: Dns, ids: seq<nat>, s: nat): Dns
    decreases |ids|
  {
    if ids == [] then d
    else
      var last := |ids| - 1;
      var d' := MoveAll(d, ids[..last], s);
      if Movable(d', ids[last], s) then Swap(d', ids[last]) else d'
  }

  function Down(d: Dns, s: nat): Dns
    requires s < |d.servers|
  {
    d.(servers := d.servers[s := d.servers[s].(up := false)], good := d.good - 1)
  }

  /** A server has failed. */
  function Fail(d: Dns, s: nat): Dns
    requires s < |d.servers|
  {
    if !d.servers[s].up then d
    else if d.good == 1 then Down(d, s)
    else MoveAll(Down(d, s), All(d.heads), s)
  }

  /** A server is up again. */
  function Recover(d: Dns, s: nat): Dns
    requires s < |d.servers|
  {
    if d.servers[s].up then d else d.(servers := d.servers[s := d.servers[s].(up := true)], good := d.good + 1)
  }

  /** One more server. */
  function AddServer(d: Dns): Dns {
    d.(ring := WithNew(d.ring, |d.servers|), servers := d.servers + [Server(true, 0)], good := d.good + 1)
  }

  /** How often a request has been sent. */
  function SetTxCount(d: Dns, id: nat, n: nat): Dns
    requires InFlight(d.requests, id)
  {
    d.(requests := d.requests[id := d.requests[id].(txCount := n)])
  }

  /** The requests of a list put into so many buckets. */
  function Rehashed(ids: seq<nat>, requests: map<nat, Request>, n: nat): (heads: seq<seq<nat>>)
    requires n > 0
    ensures |heads| == n
    decreases |ids|
  {
    if ids == [] then Empty(n)
    else
      var last := |ids| - 1;
      var heads := Rehashed(ids[..last], requests, n);
      if ids[last] in requests then Put(heads, ids[last], requests[ids[last]].transId) else heads
  }

  /** The most requests that may be in flight is changed, and the number of buckets with it. */
  function SetMax(d: Dns, max: int): Dns {
    var max' := if max < 1 then 1 else max;
    d.(heads := Rehashed(All(d.heads), d.requests, (max' + 4) / 5), max := max')
  }

  // What they keep

  /** Choosing a server turns the ring, and that there is none that is up when there should be one cannot happen. */
  lemma PickKeeps(d: Dns)
    requires Inv(d)
    ensures Inv(d.(ring := Pick(d.ring, d.servers, d.good).ring))
    ensures d.good != 0 <==> FirstUp(d.ring, d.servers) < |d.ring|
    ensures forall i :: 0 <= i < |d.ring| ==> d.ring[i] < |d.servers|
  {
    hide Index, Waits, Apart, LoadsOk, Total, Pick;
    PickedIsUp(d.ring, d.servers, d.good);
    SomeoneIsUp(d.ring, d.servers, d.good);
    assert forall i :: 0 <= i < |d.ring| ==> d.ring[i] in d.ring;
  }

  /** A new request goes into flight with the number it was given, at the next server in turn, when there is room and a server;
      otherwise it waits as the last one, and nothing else changes. */
  lemma SubmitKeeps(d: Dns, id: nat, t: nat)
    requires Inv(d) && id !in d.requests && (d.inflight < d.max ==> Free(d.requests, t))
    ensures Inv(Submit(d, id, t)) && Submit(d, id, t).requests - {id} == d.requests
    ensures d.inflight < d.max && d.servers != [] ==>
              var d', c := Submit(d, id, t), Pick(d.ring, d.servers, d.good);
              && d'.requests[id] == Request(t, c.server, 0) && InFlight(d'.requests, id) && d'.inflight == d.inflight + 1
              && c.server.value < |d.servers| && (IsUp(d.servers, c.server.value) <==> exists s :: IsUp(d.servers, s))
              && (forall s :: IsUp(d'.servers, s) <==> IsUp(d.servers, s)) && d'.ring == c.ring
              && d'.waiting == d.waiting && d'.max == d.max && |d'.servers| == |d.servers| && d'.good == d.good
    ensures d.inflight >= d.max || d.servers == [] ==>
              Submit(d, id, t) == d.(requests := d.requests[id := Request(if d.inflight < d.max then t else 0xffff, None, 0)],
                                     waiting := d.waiting + [id], waitingCount := d.waitingCount + 1)
  {
    hide Index, Waits, Apart, LoadsOk, RingOk, Pick, Put, Free, Total, IsUp, Adjusted;
    var c := if d.inflight < d.max then Pick(d.ring, d.servers, d.good) else Choice(None, d.ring);
    PickedIsUp(d.ring, d.servers, d.good);
    RingHasServers(d.ring, d.servers, d.good);
    NoneChosen(d);
    var r := Request(if d.inflight < d.max then t else NO_TRANS_ID, c.server, 0);
    if c.server.Some? {
      LaunchKeeps(d, id, r, c.ring);
      WaitsSame(d.waiting, d.requests, d.requests[id := r]);
      AdjustedUp(d.servers, c.server.value, 1);
    } else {
      WaitMore(d.waiting, d.requests, id, r);
      IndexSame(d.heads, d.requests, d.requests[id := r]);
      ApartLess(d.requests, d.requests[id := r]);
      LoadsSame(d.servers, d.requests, d.servers, d.requests[id := r]);
    }
  }

  lemma AdjustedUp(servers: seq<Server>, s: nat, delta: int)
    ensures |Adjusted(servers, s, delta)| == |servers|
    ensures forall x :: IsUp(Adjusted(servers, s, delta), x) <==> IsUp(servers, x)
  {}

  lemma NewOnesDoNotWait(d: Dns, id: nat)
    requires Inv(d) && id !in d.requests
    ensures id !in d.waiting
  {}

  lemma WaitMore(waiting: seq<nat>, requests: map<nat, Request>, id: nat, r: Request)
    requires Waits(waiting, requests) && id !in requests && r.server == None
    ensures Waits(waiting + [id], requests[id := r])
  {
    UniqueAppend(waiting, id);
  }

  lemma WaitLess(waiting: seq<nat>, requests: map<nat, Request>, id: nat, requests': map<nat, Request>)
    requires Waits(waiting, requests) && id in waiting
    requires forall x :: x in requests' && requests'[x].server == None <==> x != id && x in requests && requests[x].server == None
    ensures Waits(Remove(waiting, id), requests') && |Remove(waiting, id)| == |waiting| - 1
  {
    hide Remove;
    RemoveMeaning(waiting, id);
  }

  /** All of the invariant but what it says about waiting. */
  ghost predicate FlightInv(d: Dns) {
    && Index(d.heads, d.requests) && Apart(d.requests)
    && LoadsOk(d.servers, d.requests) && RingOk(d.ring, d.servers, d.good)
    && d.inflight == Total(d.heads) && d.max >= 1 && |d.heads| == (d.max + 4) / 5
  }

  lemma LaunchKeeps(d: Dns, id: nat, r: Request, ring: seq<nat>)
    requires FlightInv(d) && !InFlight(d.requests, id) && r.server.Some? && r.server.value < |d.servers|
    requires Free(d.requests, r.transId) && RingOk(ring, d.servers, d.good)
    ensures FlightInv(Launch(d, id, r, ring))
  {
    hide Index, Apart, LoadsOk, RingOk, Adjusted, Free, Total;
    IndexPut(d.heads, d.requests, id, r);
    ApartPut(d.requests, id, r);
    LoadsPut(d.servers, d.requests, id, r);
    RingAdjusted(ring, d.servers, d.good, r.server.value, 1);
  }

  /** The request that has waited longest goes into flight with the number it was given, at the next server in turn, when there is
      room and a server; otherwise nothing changes. */
  lemma PromoteKeeps(d: Dns, t: nat)
    requires Inv(d) && Free(d.requests, t)
    ensures Inv(Promote(d, t)) && (d.waiting != [] ==> d.waiting[0] in d.requests)
    ensures d.inflight < d.max && d.waiting != [] && d.servers != [] ==>
              var d', c, id := Promote(d, t), Pick(d.ring, d.servers, d.good), d.waiting[0];
              && d'.waiting == d.waiting[1..] && InFlight(d'.requests, id)
              && d'.requests == d.requests[id := d.requests[id].(transId := t, server := c.server)]
              && c.server.value < |d.servers| && (IsUp(d.servers, c.server.value) <==> exists s :: IsUp(d.servers, s))
              && d'.inflight == d.inflight + 1 && d'.max == d.max && d'.ring == c.ring
              && (forall s :: IsUp(d'.servers, s) <==> IsUp(d.servers, s))
              && (forall x :: InFlight(d.requests, x) ==> InFlight(d'.requests, x))
    ensures d.inflight >= d.max || d.waiting == [] || d.servers == [] ==> Promote(d, t) == d
  {
    hide Index, Apart, LoadsOk, RingOk, Pick, Put, Adjusted, Free, Total, IsUp;
    PickedIsUp(d.ring, d.servers, d.good);
    RingHasServers(d.ring, d.servers, d.good);
    assert d.waiting != [] ==> d.waiting[0] in d.waiting;
    if CanPromote(d) {
      var c := Pick(d.ring, d.servers, d.good);
      var id := d.waiting[0];
      var r := d.requests[id].(transId := t, server := c.server);
      LaunchKeeps(d.(waiting := d.waiting[1..], waitingCount := d.waitingCount - 1), id, r, c.ring);
      FirstWaits(d.waiting, d.requests, r);
      AdjustedUp(d.servers, c.server.value, 1);
    }
  }

  lemma RingHasServers(ring: seq<nat>, servers: seq<Server>, good: int)
    requires RingOk(ring, servers, good)
    ensures ring == [] <==> servers == []
  {
    assert ring != [] ==> ring[0] in ring;
    assert servers != [] ==> 0 in ring;
  }

  lemma FirstWaits(waiting: seq<nat>, requests: map<nat, Request>, r: Request)
    requires Waits(waiting, requests) && waiting != [] && r.server.Some?
    ensures Waits(waiting[1..], requests[waiting[0] := r])
  {
    HeadIsNew(waiting);
    assert forall x :: x in waiting <==> x == waiting[0] || x in waiting[1..];
  }

  lemma FinishKeeps(d: Dns, id: nat)
    requires Inv(d) && id in d.requests
    ensures var d' := Finish(d, id);
            && Inv(d') && d'.requests == d.requests - {id}
            && d'.waiting == (if InFlight(d.requests, id) then d.waiting else Remove(d.waiting, id))
            && d'.inflight == (if InFlight(d.requests, id) then d.inflight - 1 else d.inflight)
            && d'.ring == d.ring && d'.max == d.max && forall s :: IsUp(d'.servers, s) <==> IsUp(d.servers, s)
  {
    hide Index, Apart, LoadsOk, RingOk, Adjusted, Take, Total, Remove, IsUp;
    var r, rest := d.requests[id], d.requests - {id};
    ApartLess(d.requests, rest);
    if r.server.Some? {
      IndexTake(d.heads, d.requests, id);
      LoadsTake(d.servers, d.requests, id);
      RingAdjusted(d.ring, d.servers, d.good, r.server.value, -1);
      AdjustedUp(d.servers, r.server.value, -1);
      assert |Take(d.heads, id, r.transId)| == |d.heads| by {
        TakeLength(d.heads, id, r.transId);
      }
    } else {
      WaitLess(d.waiting, d.requests, id, rest);
      IndexSame(d.heads, d.requests, rest);
      LoadsSame(d.servers, d.requests, d.servers, rest);
    }
  }

  lemma TakeLength(heads: seq<seq<nat>>, id: nat, t: nat)
    requires heads != []
    ensures |Take(heads, id, t)| == |heads|
  {}

  lemma SwapKeeps(d: Dns, id: nat)
    requires Inv(d) && InFlight(d.requests, id)
    ensures Inv(Swap(d, id))
    ensures var d' := Swap(d, id);
            && d'.requests.Keys == d.requests.Keys && d'.heads == d.heads && |d'.servers| == |d.servers| && d'.good == d.good
            && (forall x :: x in d.requests && x != id ==> d'.requests[x] == d.requests[x])
            && d'.requests[id].txCount == d.requests[id].txCount && d'.requests[id].transId == d.requests[id].transId
            && (forall s :: IsUp(d'.servers, s) <==> IsUp(d.servers, s))
            && InFlight(d'.requests, id) && (d.good != 0 ==> IsUp(d'.servers, d'.requests[id].server.value))
            // it is given to the next one in turn
            && d'.requests[id].server == Pick(d.ring, d.servers, d.good).server && d'.ring == Pick(d.ring, d.servers, d.good).ring
            && d'.waiting == d.waiting && d'.inflight == d.inflight && d'.max == d.max
  {
    hide Index, Waits, Apart, LoadsOk, RingOk, Pick, Total;
    PickedIsUp(d.ring, d.servers, d.good);
    var c := Pick(d.ring, d.servers, d.good);
    var r := d.requests[id];
    assert r.server.value < |d.servers| by { LoadWithin(d.servers, d.requests, id); }
    if c.server.Some? && c.server != r.server {
      var requests' := d.requests[id := r.(server := c.server)];
      IndexSame(d.heads, d.requests, requests');
      WaitsSame(d.waiting, d.requests, requests');
      ApartLess(d.requests, requests');
      LoadsSwap(d.servers, d.requests, id, c.server.value);
      RingAdjusted(c.ring, d.servers, d.good, r.server.value, -1);
      RingAdjusted(c.ring, Adjusted(d.servers, r.server.value, -1), d.good, c.server.value, 1);
    }
    if d.good != 0 {
      GoodMeansUp(d.ring, d.servers, d.good);
    }
  }

  lemma GoodMeansUp(ring: seq<nat>, servers: seq<Server>, good: int)
    requires RingOk(ring, servers, good) && good != 0
    ensures exists s :: IsUp(servers, s)
  {
    SomeoneIsUp(ring, servers, good);
    assert IsUp(servers, ring[FirstUp(ring, servers)]);
  }

  lemma LoadWithin(servers: seq<Server>, requests: map<nat, Request>, id: nat)
    requires LoadsOk(servers, requests) && InFlight(requests, id)
    ensures requests[id].server.value < |servers|
  {}

  lemma LoadsSwap(servers: seq<Server>, requests: map<nat, Request>, id: nat, s: nat)
    requires LoadsOk(servers, requests) && InFlight(requests, id) && s < |servers|
    ensures LoadsOk(Adjusted(Adjusted(servers, requests[id].server.value, -1), s, 1), requests[id := requests[id].(server := Some(s))])
  {
    hide LoadsOk, Adjusted, Load;
    LoadsTake(servers, requests, id);
    LoadWithin(servers, requests, id);
    var rest, r := requests - {id}, requests[id].(server := Some(s));
    assert |Adjusted(servers, requests[id].server.value, -1)| == |servers| by { AdjustedLength(servers, requests[id].server.value, -1); }
    LoadsPut(Adjusted(servers, requests[id].server.value, -1), rest, id, r);
    assert rest[id := r] == requests[id := r];
  }

  lemma AdjustedLength(servers: seq<Server>, s: nat, delta: int)
    ensures |Adjusted(servers, s, delta)| == |servers|
  {}

  /** The request is where it was, or has been given to a server that is up. */
  ghost predicate MovedUp(d: Dns, d': Dns, id: nat)
    requires id in d.requests
  {
    && id in d'.requests
    && d'.requests[id].txCount == d.requests[id].txCount && d'.requests[id].transId == d.requests[id].transId
    && (d'.requests[id].server == d.requests[id].server
        || (InFlight(d.requests, id) && InFlight(d'.requests, id) && IsUp(d.servers, d'.requests[id].server.value)))
  }

  lemma {:induction false} MoveAllKeeps(d: Dns, ids: seq<nat>, s: nat)
    requires Inv(d) && !IsUp(d.servers, s) && d.good != 0
    ensures var d' := MoveAll(d, ids, s);
            && Inv(d') && d'.heads == d.heads && |d'.servers| == |d.servers| && d'.good == d.good
            && d'.requests.Keys == d.requests.Keys
            && (forall x :: IsUp(d'.servers, x) <==> IsUp(d.servers, x))
            && (forall id :: id in ids && id in d'.requests ==> d'.requests[id].server != Some(s) || d'.requests[id].txCount > 0)
            && (forall id :: id in d.requests && (d.requests[id].server != Some(s) || d.requests[id].txCount > 0) ==>
                  d'.requests[id] == d.requests[id])
            && (forall id :: id in d.requests ==> MovedUp(d, d', id))
    decreases |ids|
  {
    hide Inv, IsUp, Swap;
    if ids != [] {
      var last := |ids| - 1;
      MoveAllKeeps(d, ids[..last], s);
      var d' := MoveAll(d, ids[..last], s);
      assert forall id :: id in ids <==> id == ids[last] || id in ids[..last] by {
        assert ids == ids[..last] + [ids[last]];
      }
      if Movable(d', ids[last], s) {
        SwapKeeps(d', ids[last]);
      }
    }
  }

  lemma DownKeeps(d: Dns, s: nat)
    requires Inv(d) && IsUp(d.servers, s)
    ensures Inv(Down(d, s)) && d.good > 0 && !IsUp(Down(d, s).servers, s)
  {
    hide Index, Waits, Apart, LoadsOk, RingOk, Total;
    StateChanges(d.ring, d.servers, d.good, s, d.servers[s].(up := false));
    LoadsSame(d.servers, d.requests, Down(d, s).servers, d.requests);
    UpIsCounted(d.ring, d.servers, d.good, s);
  }

  lemma UpIsCounted(ring: seq<nat>, servers: seq<Server>, good: int, s: nat)
    requires RingOk(ring, servers, good) && IsUp(servers, s)
    ensures good > 0
  {
    assert s in UpSet(servers);
  }

  /** When a server fails that was up and another one is up, every request that has not been sent yet leaves it, for a server that is
      up; no request that has been sent, or that another server has, is touched; and none is lost. */
  lemma FailKeeps(d: Dns, s: nat)
    requires Inv(d) && s < |d.servers|
    ensures var d' := Fail(d, s);
            && Inv(d') && d'.requests.Keys == d.requests.Keys && |d'.servers| == |d.servers|
            && d'.waiting == d.waiting && d'.inflight == d.inflight && d'.max == d.max
            && (forall x :: IsUp(d'.servers, x) <==> IsUp(d.servers, x) && x != s)
            && (forall id :: id in d.requests ==> MovedUp(d, d', id))
            && (forall id :: id in d.requests && (d.requests[id].server != Some(s) || d.requests[id].txCount > 0) ==>
                  d'.requests[id] == d.requests[id])
            && (!IsUp(d.servers, s) || (forall x :: IsUp(d.servers, x) ==> x == s) ==> d'.requests == d.requests)
            && (IsUp(d.servers, s) && (exists x :: x != s && IsUp(d.servers, x)) ==>
                  forall id :: id in d'.requests && d'.requests[id].server == Some(s) ==> d'.requests[id].txCount > 0)
  {
    hide Index, Waits, Apart, LoadsOk, RingOk, Total, MoveAll, Inv;
    if IsUp(d.servers, s) {
      DownKeeps(d, s);
      OthersUp(d, s);
      if d.good != 1 {
        var down := Down(d, s);
        MoveAllKeeps(down, All(d.heads), s);
        MovingKeepsCounts(down, All(d.heads), s);
        var d' := MoveAll(down, All(d.heads), s);
        forall id | id in d'.requests && d'.requests[id].server == Some(s)
          ensures d'.requests[id].txCount > 0
        {
          AllInFlight(d', id);
        }
      }
    }
  }

  /** The count tells whether another server is up. */
  lemma OthersUp(d: Dns, s: nat)
    requires Inv(d) && IsUp(d.servers, s)
    ensures d.good == 1 <==> forall x :: IsUp(d.servers, x) ==> x == s
  {
    hide Index, Waits, Apart, LoadsOk, Total;
    DownKeeps(d, s);
    var others := UpSet(Down(d, s).servers);
    assert |others| == d.good - 1 by {
      RingCounts(Down(d, s));
    }
    forall x
      ensures x in others <==> IsUp(d.servers, x) && x != s
    {
    }
    if d.good == 1 {
      assert others == {};
    } else {
      assert others != {};
      var x :| x in others;
      assert IsUp(d.servers, x) && x != s;
    }
  }

  lemma RingCounts(d: Dns)
    requires Inv(d)
    ensures d.good == |UpSet(d.servers)|
  {
    hide Index, Waits, Apart, LoadsOk, Total;
  }

  /** Going through all the buckets, one comes by every request in flight. */
  lemma AllInFlight(d: Dns, id: nat)
    requires Inv(d)
    ensures id in All(d.heads) <==> InFlight(d.requests, id)
  {
    hide Waits, Apart, LoadsOk, RingOk, Total, Unique;
    AllMembers(d.heads, id);
    var n := |d.heads|;
    forall b | 0 <= b < n
      ensures Bucket(d.heads[b], b, n, d.requests)
    {}
    if InFlight(d.requests, id) {
      var b := d.requests[id].transId % n;
      assert Bucket(d.heads[b], b, n, d.requests);
    }
  }

  lemma RecoverKeeps(d: Dns, s: nat)
    requires Inv(d) && s < |d.servers|
    ensures var d' := Recover(d, s);
            && Inv(d') && d' == d.(servers := d'.servers, good := d'.good) && d'.servers == d.servers[s := d.servers[s].(up := true)]
  {
    hide Index, Waits, Apart, LoadsOk, RingOk, Total;
    StateChanges(d.ring, d.servers, d.good, s, d.servers[s].(up := true));
    LoadsSame(d.servers, d.requests, Recover(d, s).servers, d.requests);
  }

  lemma AddServerKeeps(d: Dns)
    requires Inv(d)
    ensures var d', n := AddServer(d), |d.servers|;
            && Inv(d') && d' == d.(ring := d'.ring, servers := d'.servers, good := d'.good)
            && |d'.servers| == n + 1 && IsUp(d'.servers, n) && d'.servers[..n] == d.servers
            && d'.ring == if d.ring == [] then [n] else [d.ring[0], n] + d.ring[1..]
  {
    hide Index, Waits, Apart, RingOk, Total;
    OneMore(d.ring, d.servers, d.good, Server(true, 0));
    var servers' := AddServer(d).servers;
    NobodyThere(d.servers, d.requests);
    assert forall s :: 0 <= s < |d.servers| ==> servers'[s] == d.servers[s];
  }

  lemma AddServerInv(d: Dns)
    requires Inv(d)
    ensures Inv(AddServer(d))
  {
    hide Inv, AddServer;
    AddServerKeeps(d);
  }

  lemma NobodyThere(servers: seq<Server>, requests: map<nat, Request>)
    requires LoadsOk(servers, requests)
    ensures Load(requests, |servers|) == {}
  {
    forall id | id in Load(requests, |servers|)
      ensures false
    {
      assert InFlight(requests, id);
    }
  }

  lemma SetTxCountKeeps(d: Dns, id: nat, n: nat)
    requires Inv(d) && InFlight(d.requests, id)
    ensures Inv(SetTxCount(d, id, n))
  {
    hide Index, Waits, Apart, LoadsOk, RingOk, Total;
    var requests' := SetTxCount(d, id, n).requests;
    IndexSame(d.heads, d.requests, requests');
    WaitsSame(d.waiting, d.requests, requests');
    ApartLess(d.requests, requests');
    LoadsSame(d.servers, d.requests, d.servers, requests');
  }

  /** The buckets list the requests of a list. */
  ghost predicate Holds(heads: seq<seq<nat>>, ids: seq<nat>, requests: map<nat, Request>) {
    && |heads| > 0
    && forall b :: 0 <= b < |heads| ==> HoldsAt(heads[b], b, |heads|, ids, requests)
  }

  ghost predicate HoldsAt(q: seq<nat>, b: nat, n: nat, ids: seq<nat>, requests: map<nat, Request>)
    requires n > 0
  {
    Unique(q) && forall id :: id in q <==> id in ids && id in requests && requests[id].transId % n == b
  }

  lemma {:induction false} RehashedHolds(ids: seq<nat>, requests: map<nat, Request>, n: nat)
    requires n > 0 && Unique(ids) && forall id :: id in ids ==> id in requests
    ensures var heads := Rehashed(ids, requests, n); Holds(heads, ids, requests) && Total(heads) == |ids|
    decreases |ids|
  {
    hide Total, Holds, Unique, Put;
    if ids == [] {
      EmptyTotal(n);
      EmptyHolds(n, requests);
    } else {
      var last := |ids| - 1;
      var front, id := ids[..last], ids[last];
      LastIsNew(ids);
      RehashedHolds(front, requests, n);
      HoldsPut(Rehashed(front, requests, n), front, requests, id);
      assert ids == front + [id];
    }
  }

  lemma EmptyHolds(n: nat, requests: map<nat, Request>)
    requires n > 0
    ensures Holds(Empty(n), [], requests)
  {
    var heads := Empty(n);
    forall b | 0 <= b < n
      ensures HoldsAt(heads[b], b, n, [], requests)
    {}
  }

  lemma LastIsNew(q: seq<nat>)
    requires Unique(q) && q != []
    ensures var front := q[..|q| - 1]; Unique(front) && q[|q| - 1] !in front && forall x :: x in q <==> x in front || x == q[|q| - 1]
  {
    assert q == q[..|q| - 1] + [q[|q| - 1]];
  }

  lemma HoldsPut(heads: seq<seq<nat>>, ids: seq<nat>, requests: map<nat, Request>, id: nat)
    requires Holds(heads, ids, requests) && id in requests && id !in ids
    ensures Holds(Put(heads, id, requests[id].transId), ids + [id], requests)
    ensures Total(Put(heads, id, requests[id].transId)) == Total(heads) + 1
  {
    hide Total;
    var n := |heads|;
    var c, heads' := requests[id].transId % n, Put(heads, id, requests[id].transId);
    TotalUpdate(heads, c, heads[c] + [id]);
    forall b | 0 <= b < n
      ensures HoldsAt(heads'[b], b, n, ids + [id], requests)
    {
      assert HoldsAt(heads[b], b, n, ids, requests);
      assert b == c ==> forall x :: x in heads'[b] <==> x in heads[b] || x == id;
    }
  }

  /** Every request in flight is in its bucket, whatever the number of buckets is changed to; and none has come or gone. */
  lemma SetMaxKeeps(d: Dns, max: int)
    requires Inv(d)
    ensures var d' := SetMax(d, max);
            && Inv(d') && d'.max == (if max < 1 then 1 else max) && |d'.heads| == (d'.max + 4) / 5
            && d' == d.(heads := d'.heads, max := d'.max)
  {
    hide Waits, Apart, LoadsOk, RingOk, Rehashed;
    var n := |SetMax(d, max).heads|;
    forall b, c, id | 0 <= b < c < |d.heads| && id in d.heads[b]
      ensures id !in d.heads[c]
    {
      assert Bucket(d.heads[b], b, |d.heads|, d.requests) && Bucket(d.heads[c], c, |d.heads|, d.requests);
    }
    forall b | 0 <= b < |d.heads|
      ensures Unique(d.heads[b])
    {
      assert Bucket(d.heads[b], b, |d.heads|, d.requests);
    }
    AllUnique(d.heads);
    var ids := All(d.heads);
    forall id: nat
      ensures id in ids <==> InFlight(d.requests, id)
    {
      AllInFlight(d, id);
    }
    RehashedHolds(ids, d.requests, n);
    HoldsToIndex(Rehashed(ids, d.requests, n), ids, d.requests);
  }

  lemma HoldsToIndex(heads: seq<seq<nat>>, ids: seq<nat>, requests: map<nat, Request>)
    requires Holds(heads, ids, requests) && forall id :: id in ids <==> InFlight(requests, id)
    ensures Index(heads, requests)
  {
    forall b | 0 <= b < |heads|
      ensures Bucket(heads[b], b, |heads|, requests)
    {
      assert HoldsAt(heads[b], b, |heads|, ids, requests);
    }
  }

  // A free transaction number

  /** The transaction numbers of the requests of a list. */
  ghost function Numbers(ids: seq<nat>, requests: map<nat, Request>): (r: set<nat>)
    ensures |r| <= |ids|
    ensures forall id :: id in ids && id in requests ==> requests[id].transId in r
  {
    if ids == [] then {}
    else
      var rest := Numbers(ids[1..], requests);
      if ids[0] in requests then rest + {requests[ids[0]].transId} else rest
  }

  lemma {:induction false} ManyNumbers(n: nat, s: set<nat>)
    requires forall t: nat :: t < n ==> t in s
    ensures |s| >= n
  {
    if n > 0 {
      ManyNumbers(n - 1, s - {n - 1});
    }
  }

  /** A transaction number is free as long as not all of them are in flight. */
  lemma SomeNumberIsFree(d: Dns)
    requires Inv(d) && d.inflight < NO_TRANS_ID
    ensures exists t :: Free(d.requests, t)
  {
    hide Index, Waits, Apart, LoadsOk, RingOk, Total, Numbers, Free;
    var used := Numbers(All(d.heads), d.requests);
    if forall t: nat :: t < NO_TRANS_ID ==> t in used {
      ManyNumbers(NO_TRANS_ID, used);
    }
    var t: nat :| t < NO_TRANS_ID && t !in used;
    forall id | InFlight(d.requests, id)
      ensures d.requests[id].transId != t
    {
      AllInFlight(d, id);
    }
    UnusedIsFree(d.requests, t);
  }

  lemma UnusedIsFree(requests: map<nat, Request>, t: nat)
    requires t < NO_TRANS_ID && forall id :: InFlight(requests, id) ==> requests[id].transId != t
    ensures Free(requests, t)
  {}

  // Runs

  /** The steps that operations are made of. */
  datatype Step = Submitted(id: nat, transId: nat) | Promoted(transId: nat) | Finished(id: nat) | Swapped(id: nat) | Sent(id: nat, txCount: nat)
                | Failed(server: nat) | Recovered(server: nat) | Added | Limited(max: int)

  /** What a step asks for: a new request is new, a transaction number was found free, and requests and servers are known. */
  ghost predicate CanStep(d: Dns, step: Step) {
    match step
    case Submitted(id, t) => id !in d.requests && (d.inflight < d.max ==> Free(d.requests, t))
    case Promoted(t) => Free(d.requests, t)
    case Finished(id) => id in d.requests
    case Swapped(id) => InFlight(d.requests, id)
    case Sent(id, _) => InFlight(d.requests, id)
    case Failed(s) => s < |d.servers|
    case Recovered(s) => s < |d.servers|
    case Added => true
    case Limited(_) => true
  }

  ghost function Next(d: Dns, step: Step): Dns
    requires d.heads != [] && CanStep(d, step)
  {
    match step
    case Submitted(id, t) => Submit(d, id, t)
    case Promoted(t) => Promote(d, t)
    case Finished(id) => Finish(d, id)
    case Swapped(id) => Swap(d, id)
    case Sent(id, n) => SetTxCount(d, id, n)
    case Failed(s) => Fail(d, s)
    case Recovered(s) => Recover(d, s)
    case Added => AddServer(d)
    case Limited(max) => SetMax(d, max)
  }

  lemma StepKeeps(d: Dns, step: Step)
    requires Inv(d) && CanStep(d, step)
    ensures Inv(Next(d, step))
  {
    hide Inv, Submit, Promote, Finish, Swap, SetTxCount, Fail, Recover, AddServer, SetMax, Free;
    HasHeads(d);
    match step
    case Submitted(id, t) => SubmitKeeps(d, id, t);
    case Promoted(t) => PromoteKeeps(d, t);
    case Finished(id) => FinishKeeps(d, id);
    case Swapped(id) => SwapKeeps(d, id);
    case Sent(id, n) => SetTxCountKeeps(d, id, n);
    case Failed(s) => FailKeeps(d, s);
    case Recovered(s) => RecoverKeeps(d, s);
    case Added => AddServerKeeps(d);
    case Limited(max) => SetMaxKeeps(d, max);
  }

  lemma HasHeads(d: Dns)
    requires Inv(d)
    ensures d.heads != []
  {}

  /** A state reached by a run of steps. */
  ghost predicate Reaches(d: Dns, steps: seq<Step>, d': Dns)
    decreases |steps|
  {
    if steps == [] then d' == d
    else d.heads != [] && CanStep(d, steps[0]) && Reaches(Next(d, steps[0]), steps[1..], d')
  }

  /** Whatever the requests, servers and limits go through, every request in flight is in the bucket of its transaction number,
      no two have the same number, and all counters agree with the lists. */
  lemma {:induction false} RunKeepsInv(d: Dns, steps: seq<Step>, d': Dns)
    requires Inv(d) && Reaches(d, steps, d')
    ensures Inv(d')
    decreases |steps|
  {
    hide Inv, Next, CanStep;
    if steps != [] {
      StepKeeps(d, steps[0]);
      RunKeepsInv(Next(d, steps[0]), steps[1..], d');
    }
  }

  /** The option that sets the limit does not allow more. */
  const MOST_IN_FLIGHT := 65000

  ghost predicate Bounded(d: Dns) {
    d.inflight <= MOST_IN_FLIGHT && d.max <= MOST_IN_FLIGHT
  }

  lemma StepKeepsBound(d: Dns, step: Step)
    requires Inv(d) && Bounded(d) && CanStep(d, step) && (step.Limited? ==> step.max <= MOST_IN_FLIGHT)
    ensures Bounded(Next(d, step))
  {
    hide Index, Waits, Apart, LoadsOk, RingOk, Total, MoveAll, Pick, Put, Take, Rehashed, Free;
    if step.Failed? {
      MovingKeepsCounts(Down(d, step.server), All(d.heads), step.server);
    }
  }

  lemma {:induction false} MovingKeepsCounts(d: Dns, ids: seq<nat>, s: nat)
    ensures MoveAll(d, ids, s).inflight == d.inflight && MoveAll(d, ids, s).max == d.max && MoveAll(d, ids, s).waiting == d.waiting
    decreases |ids|
  {
    hide Pick;
    if ids != [] {
      MovingKeepsCounts(d, ids[..|ids| - 1], s);
    }
  }

  /** In every run that sets no limit above the greatest one that the option allows, a free transaction number can be found. */
  lemma {:induction false} RunKeepsFree(d: Dns, steps: seq<Step>, d': Dns)
    requires Inv(d) && Bounded(d) && Reaches(d, steps, d')
    requires forall step :: step in steps && step.Limited? ==> step.max <= MOST_IN_FLIGHT
    ensures Inv(d') && Bounded(d') && exists t :: Free(d'.requests, t)
    decreases |steps|
  {
    hide Inv, Next, CanStep, Free;
    if steps != [] {
      assert steps[0] in steps;
      StepKeeps(d, steps[0]);
      StepKeepsBound(d, steps[0]);
      RunKeepsFree(Next(d, steps[0]), steps[1..], d');
    } else {
      SomeNumberIsFree(d);
    }
  }

  lemma {:induction false} OneStepMore(d: Dns, steps: seq<Step>, d': Dns, step: Step)
    requires Reaches(d, steps, d') && d'.heads != [] && CanStep(d', step)
    ensures Reaches(d, steps + [step], Next(d', step))
    decreases |steps|
  {
    hide Next, CanStep;
    if steps != [] {
      OneStepMore(Next(d, steps[0]), steps[1..], d', step);
      assert (steps + [step])[1..] == steps[1..] + [step];
    } else {
      assert (steps + [step])[1..] == [];
    }
  }

  // For the loops of the operations

  /** What the loop that lets waiting requests go into flight needs to know. */
  lemma WaitingOnes(d: Dns)
    requires Inv(d)
    ensures d.waitingCount == |d.waiting| && d.heads != [] && (d.ring == [] <==> d.servers == [])
    ensures d.waiting != [] ==> d.waiting[0] in d.requests
  {
    RingHasServers(d.ring, d.servers, d.good);
    assert d.waiting != [] ==> d.waiting[0] in d.waiting;
  }

  /** There is room and somebody waits. */
  predicate CanWait(d: Dns) {
    d.inflight < d.max && d.waitingCount != 0
  }

  lemma NoneChosen(d: Dns)
    requires Inv(d)
    ensures Pick(d.ring, d.servers, d.good).server == None <==> d.servers == []
    ensures Pick(d.ring, d.servers, d.good).server == None ==> Pick(d.ring, d.servers, d.good).ring == d.ring
  {
    PickedIsUp(d.ring, d.servers, d.good);
  }

  // Sending

  /** What comes of sending a packet. */
  datatype SendResult = Delivered | NotNow | Broken

  /** A request has been sent, or its server has failed at that; it is counted as sent all the same. */
  function Transmitted(d: Dns, id: nat, outcome: SendResult): Dns
    requires InFlight(d.requests, id) && d.requests[id].server.value < |d.servers|
  {
    var n := d.requests[id].txCount + 1;
    match outcome
    case NotNow => d
    case Delivered => SetTxCount(d, id, n)
    case Broken =>
      var d' := Fail(d, d.requests[id].server.value);
      if InFlight(d'.requests, id) then SetTxCount(d', id, n) else d'
  }

  function SendSteps(d: Dns, id: nat, outcome: SendResult): seq<Step>
    requires InFlight(d.requests, id)
  {
    var n := d.requests[id].txCount + 1;
    match outcome
    case NotNow => []
    case Delivered => [Sent(id, n)]
    case Broken => [Failed(d.requests[id].server.value), Sent(id, n)]
  }

  /** Sending keeps everything in order and every request where it is. */
  lemma TransmitKeeps(d: Dns, id: nat, outcome: SendResult)
    requires Inv(d) && InFlight(d.requests, id)
    ensures d.requests[id].server.value < |d.servers|
    ensures var d' := Transmitted(d, id, outcome);
            && Inv(d') && d'.requests.Keys == d.requests.Keys && d'.waiting == d.waiting && (Bounded(d) ==> Bounded(d'))
            && d'.inflight == d.inflight && d'.max == d.max && InFlight(d'.requests, id) && d'.requests[id].transId == d.requests[id].transId
            && (forall x :: x in d.requests ==>
                  d'.requests[x].txCount == d.requests[x].txCount + if x == id && outcome != NotNow then 1 else 0)
            && (outcome != Broken ==> d'.servers == d.servers && d'.requests - {id} == d.requests - {id}
                                      && d'.requests[id].server == d.requests[id].server)
  {
    hide Inv, Fail;
    LoadIsPositiveIn(d, id);
    var ns, n := d.requests[id].server.value, d.requests[id].txCount + 1;
    match outcome {
      case NotNow =>
      case Delivered =>
        SentKeeps(d, id, n);
      case Broken =>
        FailedKeeps(d, ns);
        FailKeeps(d, ns);
        assert forall x :: x in d.requests ==> MovedUp(d, Fail(d, ns), x);
        FailKeepsFlight(d, ns, id);
        SentKeeps(Fail(d, ns), id, n);
    }
  }

  /** What comes of a new request that is sent at once. */
  lemma SubmittedAndSent(d: Dns, id: nat, t: nat, outcome: SendResult)
    requires Inv(d) && id !in d.requests && Free(d.requests, t) && d.inflight < d.max && d.servers != []
    ensures var d1 := Submit(d, id, t);
            Inv(d1) && InFlight(d1.requests, id) && d1.requests[id].server.value < |d1.servers|
    ensures var d' := Transmitted(Submit(d, id, t), id, outcome);
            && Inv(d') && InFlight(d'.requests, id) && d'.requests[id].transId == t && d'.waiting == d.waiting
            && d'.inflight == d.inflight + 1 && d'.max == d.max && d'.requests[id].txCount == (if outcome == NotNow then 0 else 1)
            && (outcome != Broken ==>
                  (IsUp(d'.servers, d'.requests[id].server.value) <==> exists s :: IsUp(d.servers, s)) && d'.requests - {id} == d.requests)
  {
    hide Inv, Free, Submit, Transmitted, Pick, IsUp;
    HasHeads(d);
    SubmitKeeps(d, id, t);
    TransmitKeeps(Submit(d, id, t), id, outcome);
  }

  lemma SentKeeps(d: Dns, id: nat, n: nat)
    requires Inv(d) && InFlight(d.requests, id)
    ensures var d' := SetTxCount(d, id, n);
            && Inv(d') && d'.requests.Keys == d.requests.Keys && d'.waiting == d.waiting && (Bounded(d) ==> Bounded(d'))
            && forall x :: InFlight(d.requests, x) ==> InFlight(d'.requests, x)
  {
    hide Inv;
    SetTxCountKeeps(d, id, n);
  }

  lemma FailedKeeps(d: Dns, s: nat)
    requires Inv(d) && s < |d.servers|
    ensures var d' := Fail(d, s);
            && Inv(d') && d'.requests.Keys == d.requests.Keys && d'.waiting == d.waiting && (Bounded(d) ==> Bounded(d'))
            && forall x :: InFlight(d.requests, x) ==> InFlight(d'.requests, x)
  {
    hide Inv, MoveAll;
    FailKeeps(d, s);
    MovingKeepsCounts(Down(d, s), All(d.heads), s);
    forall x | InFlight(d.requests, x)
      ensures InFlight(Fail(d, s).requests, x)
    {
      FailKeepsFlight(d, s, x);
    }
  }

  /** How many requests have gone into flight. */
  function Promotions(steps: seq<Step>): nat {
    if steps == [] then 0
    else Promotions(steps[..|steps| - 1]) + if steps[|steps| - 1].Promoted? then 1 else 0
  }

  /** A number of requests that have waited longest have gone into flight and been sent, and nothing else has happened. */
  ghost predicate Pumped(d: Dns, steps: seq<Step>, d': Dns) {
    && Reaches(d, steps, d') && (forall i :: 0 <= i < |steps| ==> steps[i].Promoted? || steps[i].Sent? || steps[i].Failed?)
    && var n := Promotions(steps);
    && n <= |d.waiting| && d'.waiting == d.waiting[n..]
    && d'.requests.Keys == d.requests.Keys && forall i :: 0 <= i < n ==> InFlight(d'.requests, d.waiting[i])
  }

  /** Of the requests of a list, the first `n` have been sent once more, unless that could not be done just then; no other request
      has been sent. */
  ghost predicate SentOnce(d: Dns, d': Dns, n: nat, sends: nat -> SendResult) {
    && n <= |d.waiting|
    && (forall i :: 0 <= i < n && d.waiting[i] in d.requests && d.waiting[i] in d'.requests ==>
          d'.requests[d.waiting[i]].txCount == d.requests[d.waiting[i]].txCount + if sends(i) == NotNow then 0 else 1)
    && (forall id :: id in d.requests && id in d'.requests && id !in d.waiting[..n] ==> d'.requests[id].txCount == d.requests[id].txCount)
  }

  lemma SentOnceNone(d: Dns, sends: nat -> SendResult)
    ensures SentOnce(d, d, 0, sends)
  {}

  /** One more request has gone into flight and been sent. */
  lemma SentOnceMore(d0: Dns, d: Dns, d': Dns, n: nat, sends: nat -> SendResult)
    requires SentOnce(d0, d, n, sends) && n < |d0.waiting| && Unique(d0.waiting)
    requires d.requests.Keys == d0.requests.Keys && d'.requests.Keys == d0.requests.Keys
    requires forall x :: x in d.requests ==>
               d'.requests[x].txCount == d.requests[x].txCount + if x == d0.waiting[n] && sends(n) != NotNow then 1 else 0
    ensures SentOnce(d0, d', n + 1, sends)
  {
    var w := d0.waiting;
    assert w[..n + 1] == w[..n] + [w[n]];
    assert w[n] !in w[..n] by {
      assert forall i :: 0 <= i < n ==> w[i] != w[n];
    }
  }

  lemma PumpedInOrder(d: Dns, steps: seq<Step>, d': Dns)
    requires Pumped(d, steps, d')
    ensures |d'.waiting| <= |d.waiting| && d'.waiting == d.waiting[|d.waiting| - |d'.waiting|..] && d'.requests.Keys == d.requests.Keys
  {
    hide Reaches;
  }

  /** One turn of the loop that lets waiting requests go. */
  lemma PumpTurn(d0: Dns, steps: seq<Step>, d: Dns, t: nat, sends: nat -> SendResult) returns (req: nat, steps': seq<Step>)
    requires Unique(d0.waiting) && Pumped(d0, steps, d) && Inv(d) && Bounded(d) && CanPromote(d) && Free(d.requests, t)
    requires |d.waiting| <= |d0.waiting| && SentOnce(d0, d, |d0.waiting| - |d.waiting|, sends)
    ensures d.heads != [] && d.waiting != [] && req == d.waiting[0]
    ensures var d1, k := Promote(d, t), |d0.waiting| - |d.waiting|;
            && Inv(d1) && InFlight(d1.requests, req) && d1.requests[req].server.value < |d1.servers|
            && var d2 := Transmitted(d1, req, sends(k));
               && Inv(d2) && Bounded(d2) && Pumped(d0, steps', d2) && d2.waiting == d.waiting[1..] && k < |d0.waiting|
               && SentOnce(d0, d2, k + 1, sends)
  {
    hide Inv, Bounded, Free, Pumped, Promote, Transmitted, SendSteps, SentOnce, Pick, IsUp;
    WaitingOnes(d);
    req := d.waiting[0];
    var d1, k := Promote(d, t), |d0.waiting| - |d.waiting|;
    PromoteKeeps(d, t);
    PumpedInOrder(d0, steps, d);
    PumpedMore(d0, steps, d, t);
    TransmitKeeps(d1, req, sends(k));
    PumpedSent(d0, steps + [Promoted(t)], d1, req, sends(k));
    steps' := steps + [Promoted(t)] + SendSteps(d1, req, sends(k));
    PumpedInOrder(d0, steps', Transmitted(d1, req, sends(k)));
    SentOnceMore(d0, d, Transmitted(d1, req, sends(k)), k, sends);
  }

  lemma WaitingOnce(d: Dns)
    requires Inv(d)
    ensures Unique(d.waiting)
  {}

  lemma BoundedMeans(d: Dns)
    requires Bounded(d)
    ensures d.inflight < NO_TRANS_ID
  {}

  lemma NotPumped(d: Dns)
    ensures Pumped(d, [], d)
  {}

  lemma PumpedMore(d: Dns, steps: seq<Step>, d': Dns, t: nat)
    requires Pumped(d, steps, d') && Inv(d') && Bounded(d') && CanPromote(d') && Free(d'.requests, t)
    ensures Pumped(d, steps + [Promoted(t)], Promote(d', t)) && Bounded(Promote(d', t))
  {
    hide Inv, Reaches, Promote, Free;
    PromoteKeeps(d', t);
    WaitingOnes(d');
    OneStepMore(d, steps, d', Promoted(t));
    var n := Promotions(steps);
    assert (steps + [Promoted(t)])[..|steps|] == steps;
    assert d'.waiting[0] == d.waiting[n];
    assert d.waiting[n..][1..] == d.waiting[n + 1..];
  }

  lemma PumpedOther(d: Dns, steps: seq<Step>, d': Dns, step: Step)
    requires Pumped(d, steps, d') && Inv(d') && CanStep(d', step) && (step.Sent? || step.Failed?)
    ensures d'.heads != [] && Pumped(d, steps + [step], Next(d', step))
  {
    hide Inv, Reaches, Fail, SetTxCount;
    HasHeads(d');
    OneStepMore(d, steps, d', step);
    assert (steps + [step])[..|steps|] == steps;
    if step.Sent? {
      SentKeeps(d', step.id, step.txCount);
    } else {
      FailedKeeps(d', step.server);
    }
  }

  lemma PumpedSent(d: Dns, steps: seq<Step>, d': Dns, id: nat, outcome: SendResult)
    requires Pumped(d, steps, d') && Inv(d') && InFlight(d'.requests, id)
    ensures d'.requests[id].server.value < |d'.servers|
    ensures Pumped(d, steps + SendSteps(d', id, outcome), Transmitted(d', id, outcome))
  {
    hide Inv, Pumped, Fail, SetTxCount;
    LoadIsPositiveIn(d', id);
    var ns, n := d'.requests[id].server.value, d'.requests[id].txCount + 1;
    match outcome {
      case NotNow =>
        assert steps + [] == steps;
      case Delivered =>
        PumpedOther(d, steps, d', Sent(id, n));
      case Broken =>
        PumpedOther(d, steps, d', Failed(ns));
        FailKeepsFlight(d', ns, id);
        FailKeeps(d', ns);
        PumpedOther(d, steps + [Failed(ns)], Fail(d', ns), Sent(id, n));
        assert steps + [Failed(ns)] + [Sent(id, n)] == steps + [Failed(ns), Sent(id, n)];
    }
  }

  lemma SubmittedInParts(d: Dns, id: nat, t: nat)
    requires d.heads != []
    ensures d.inflight < d.max && Pick(d.ring, d.servers, d.good).server.Some? ==>
              var c := Pick(d.ring, d.servers, d.good);
              Submit(d, id, t) == d.(heads := Put(d.heads, id, t), requests := d.requests[id := Request(t, c.server, 0)], ring := c.ring,
                                     servers := Adjusted(d.servers, c.server.value, 1), inflight := d.inflight + 1)
  {}

  lemma PromotedInParts(d: Dns, t: nat)
    requires d.heads != [] && CanPromote(d) && d.waiting[0] in d.requests && Pick(d.ring, d.servers, d.good).server.Some?
    ensures var c := Pick(d.ring, d.servers, d.good);
            var id := d.waiting[0];
            var r := d.requests[id].(transId := t, server := c.server);
            Promote(d, t) == d.(heads := Put(d.heads, id, t), waiting := d.waiting[1..], requests := d.requests[id := r],
                                ring := c.ring, servers := Adjusted(d.servers, c.server.value, 1),
                                inflight := d.inflight + 1, waitingCount := d.waitingCount - 1)
  {}

  lemma LoadIsPositive(servers: seq<Server>, requests: map<nat, Request>, id: nat)
    requires LoadsOk(servers, requests) && InFlight(requests, id)
    ensures requests[id].server.value < |servers| && servers[requests[id].server.value].inflight > 0
  {
    assert id in Load(requests, requests[id].server.value);
  }

  lemma MoveNone(d: Dns, s: nat)
    ensures MoveAll(d, [], s) == d
  {}

  lemma MoveOneMore(d: Dns, ids: seq<nat>, id: nat, s: nat)
    ensures var d' := MoveAll(d, ids, s);
            MoveAll(d, ids + [id], s) == if Movable(d', id, s) then Swap(d', id) else d'
  {
    assert (ids + [id])[..|ids|] == ids;
  }

  lemma InBucket(d: Dns, b: nat, id: nat)
    requires Inv(d) && b < |d.heads| && id in d.heads[b]
    ensures InFlight(d.requests, id)
  {
    assert Bucket(d.heads[b], b, |d.heads|, d.requests);
  }

  lemma RehashNone(requests: map<nat, Request>, n: nat)
    requires n > 0
    ensures Rehashed([], requests, n) == Empty(n)
  {}

  lemma RehashOneMore(ids: seq<nat>, requests: map<nat, Request>, n: nat, id: nat)
    requires n > 0 && id in requests
    ensures Rehashed(ids + [id], requests, n) == Put(Rehashed(ids, requests, n), id, requests[id].transId)
  {
    assert (ids + [id])[..|ids|] == ids;
  }

  lemma PutAt(heads: seq<seq<nat>>, id: nat, t: nat)
    requires heads != []
    ensures Put(heads, id, t) == heads[t % |heads| := heads[t % |heads|] + [id]]
  {}

  lemma LoadIsPositiveIn(d: Dns, id: nat)
    requires Inv(d) && InFlight(d.requests, id)
    ensures d.requests[id].server.value < |d.servers| && d.servers[d.requests[id].server.value].inflight > 0
  {
    LoadIsPositive(d.servers, d.requests, id);
  }

  /** The failure of a server leaves requests in flight, and does not change how often they have been sent. */
  lemma FailKeepsFlight(d: Dns, s: nat, id: nat)
    requires Inv(d) && s < |d.servers| && InFlight(d.requests, id)
    ensures var d' := Fail(d, s); InFlight(d'.requests, id) && d'.requests[id].txCount == d.requests[id].txCount
  {
    hide Inv, MoveAll;
    if IsUp(d.servers, s) && d.good != 1 {
      DownKeeps(d, s);
      MovingKeepsFlight(Down(d, s), All(d.heads), s, id);
    }
  }

  lemma {:induction false} MovingKeepsFlight(d: Dns, ids: seq<nat>, s: nat, id: nat)
    requires InFlight(d.requests, id)
    ensures var d' := MoveAll(d, ids, s); InFlight(d'.requests, id) && d'.requests[id].txCount == d.requests[id].txCount
    decreases |ids|
  {
    hide Pick;
    if ids != [] {
      MovingKeepsFlight(d, ids[..|ids| - 1], s, id);
    }
  }
}
