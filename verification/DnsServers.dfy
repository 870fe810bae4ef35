/** The ring of nameservers: choosing one in turn among those that are up. */
module DnsServers {
  import opened Lists
  import opened Options

  /** A nameserver: whether it is thought to be up, and how many requests it has in flight. */
  datatype Server = Server(up: bool, inflight: int)

  predicate IsUp(servers: seq<Server>, s: nat) {
    s < |servers| && servers[s].up
  }

  /** The servers that are up. */
  ghost function UpSet(servers: seq<Server>): set<nat> {
    set s: nat | s < |servers| && IsUp(servers, s)
  }

  /** Every server is in the ring, once, and so many are up as are said to be. */
  ghost predicate RingOk(ring: seq<nat>, servers: seq<Server>, good: int) {
    && Unique(ring)
    && (forall s: nat :: s in ring <==> s < |servers|)
    && good == |UpSet(servers)|
  }

  lemma NoServers()
    ensures RingOk([], [], 0)
  {
    assert UpSet([]) == {};
  }

  function Rotated(q: seq<nat>, k: nat): (r: seq<nat>)
    requires k <= |q|
    ensures |r| == |q| && forall s :: s in r <==> s in q
  {
    assert q == q[..k] + q[k..];
    q[k..] + q[..k]
  }

  /** Where the first server that is up stands, if there is one. */
  function FirstUp(ring: seq<nat>, servers: seq<Server>): (k: nat)
    ensures k <= |ring| && (k < |ring| ==> IsUp(servers, ring[k]))
    ensures forall i :: 0 <= i < k ==> !IsUp(servers, ring[i])
  {
    if ring == [] || IsUp(servers, ring[0]) then 0 else 1 + FirstUp(ring[1..], servers)
  }

  /** A choice, and the ring from its new head on. */
  datatype Choice = Choice(server: Option<nat>, ring: seq<nat>)

  /** Chooses the next server that is up, or just the next one when none is. */
  function Pick(ring: seq<nat>, servers: seq<Server>, good: int): Choice {
    if ring == [] then Choice(None, [])
    else if good == 0 then Choice(Some(Rotated(ring, 1)[0]), Rotated(ring, 1))
    else
      var k := FirstUp(ring, servers);
      if k < |ring| then Choice(Some(ring[k]), Rotated(ring, k + 1)) else Choice(Some(ring[0]), Rotated(ring, 1))
  }

  lemma RotatedUnique(q: seq<nat>, k: nat)
    requires Unique(q) && k <= |q|
    ensures Unique(Rotated(q, k))
  {
    var r := Rotated(q, k);
    forall i, j | 0 <= i < j < |r|
      ensures r[i] != r[j]
    {
      assert r[i] == q[if i < |q| - k then i + k else i - (|q| - k)];
      assert r[j] == q[if j < |q| - k then j + k else j - (|q| - k)];
    }
  }

  /** As long as the count of servers that are up is right, a search finds one whenever the count is not zero: that all of
      them turn out to be down cannot happen. */
  lemma SomeoneIsUp(ring: seq<nat>, servers: seq<Server>, good: int)
    requires RingOk(ring, servers, good)
    ensures good != 0 <==> FirstUp(ring, servers) < |ring|
  {
    if good != 0 {
      var s :| s in UpSet(servers);
      assert s in ring && IsUp(servers, s);
    } else {
      assert forall s: nat :: IsUp(servers, s) ==> s in UpSet(servers);
    }
  }

  /** A server is chosen whenever there is one, one that is up whenever there is one that is up, and the ring stays a ring. */
  lemma PickedIsUp(ring: seq<nat>, servers: seq<Server>, good: int)
    requires RingOk(ring, servers, good)
    ensures var c := Pick(ring, servers, good);
            && RingOk(c.ring, servers, good)
            && (c.server == None <==> servers == [])
            && (c.server.Some? ==> c.server.value < |servers|)
            && (c.server.Some? ==> (IsUp(servers, c.server.value) <==> exists s :: IsUp(servers, s)))
  {
    SomeoneIsUp(ring, servers, good);
    if ring == [] {
      assert servers != [] ==> 0 in ring;
    } else {
      var k := if good == 0 then 0 else FirstUp(ring, servers);
      RotatedUnique(ring, k + 1);
      assert ring[k] in ring && Rotated(ring, 1)[0] in Rotated(ring, 1);
      if s :| IsUp(servers, s) {
        assert s in UpSet(servers);
      }
    }
  }

  // In turn

  /** The servers of a ring that are up, in order. */
  function Ups(ring: seq<nat>, servers: seq<Server>): seq<nat> {
    if ring == [] then [] else (if IsUp(servers, ring[0]) then [ring[0]] else []) + Ups(ring[1..], servers)
  }

  lemma {:induction false} UpsConcat(a: seq<nat>, b: seq<nat>, servers: seq<Server>)
    ensures Ups(a + b, servers) == Ups(a, servers) + Ups(b, servers)
  {
    hide IsUp;
    if a == [] {
      assert a + b == b;
    } else {
      assert (a + b)[1..] == a[1..] + b && (a + b)[0] == a[0];
      UpsConcat(a[1..], b, servers);
      var first := if IsUp(servers, a[0]) then [a[0]] else [];
      assert first + (Ups(a[1..], servers) + Ups(b, servers)) == first + Ups(a[1..], servers) + Ups(b, servers);
    }
  }

  lemma {:induction false} NoneUp(a: seq<nat>, servers: seq<Server>)
    requires forall i :: 0 <= i < |a| ==> !IsUp(servers, a[i])
    ensures Ups(a, servers) == []
  {
    if a != [] {
      NoneUp(a[1..], servers);
    }
  }

  /** A choice takes the first of the servers that are up and puts it behind the others. */
  lemma PickTakesTheFirst(ring: seq<nat>, servers: seq<Server>, good: int)
    requires good != 0 && FirstUp(ring, servers) < |ring|
    ensures var c := Pick(ring, servers, good);
            var ups := Ups(ring, servers);
            ups != [] && c.server == Some(ups[0]) && Ups(c.ring, servers) == ups[1..] + [ups[0]]
  {
    hide IsUp;
    var k := FirstUp(ring, servers);
    var before, it, after := ring[..k], [ring[k]], ring[k + 1..];
    assert ring == before + (it + after);
    assert Rotated(ring, k + 1) == after + (before + it);
    PiecesInTurn(before, ring[k], after, servers);
  }

  lemma PiecesInTurn(before: seq<nat>, x: nat, after: seq<nat>, servers: seq<Server>)
    requires (forall i :: 0 <= i < |before| ==> !IsUp(servers, before[i])) && IsUp(servers, x)
    ensures Ups(before + ([x] + after), servers) == [x] + Ups(after, servers)
    ensures Ups(after + (before + [x]), servers) == Ups(after, servers) + [x]
  {
    NoneUp(before, servers);
    UpsConcat(before, [x] + after, servers);
    UpsConcat([x], after, servers);
    UpsConcat(before, [x], servers);
    UpsConcat(after, before + [x], servers);
  }

  /** The servers that are chosen one after the other, and the ring after that. */
  function PickTimes(ring: seq<nat>, servers: seq<Server>, good: int, n: nat): (r: (seq<Option<nat>>, seq<nat>))
    ensures |r.0| == n
    decreases n
  {
    if n == 0 then ([], ring)
    else
      var c := Pick(ring, servers, good);
      var rest := PickTimes(c.ring, servers, good, n - 1);
      ([c.server] + rest.0, rest.1)
  }

  /** As long as no server goes up or down, the choices go round the servers that are up. */
  lemma {:induction false} InTurn(ring: seq<nat>, servers: seq<Server>, good: int, n: nat)
    requires RingOk(ring, servers, good) && n <= |Ups(ring, servers)|
    ensures var ups := Ups(ring, servers);
            var (picks, ring') := PickTimes(ring, servers, good, n);
            && (forall i :: 0 <= i < n ==> picks[i] == Some(ups[i]))
            && RingOk(ring', servers, good) && Ups(ring', servers) == ups[n..] + ups[..n]
    decreases n
  {
    hide RingOk, IsUp, FirstUp, Ups, Pick;
    var ups := Ups(ring, servers);
    if n > 0 {
      UpsMeansSome(ring, servers, good);
      PickTakesTheFirst(ring, servers, good);
      PickedIsUp(ring, servers, good);
      var c := Pick(ring, servers, good);
      InTurn(c.ring, servers, good, n - 1);
      var ups' := ups[1..] + [ups[0]];
      assert ups'[n - 1..] + ups'[..n - 1] == ups[n..] + ups[..n];
    } else {
      assert ups[0..] + ups[..0] == ups;
    }
  }

  lemma UpsMeansSome(ring: seq<nat>, servers: seq<Server>, good: int)
    requires RingOk(ring, servers, good) && Ups(ring, servers) != []
    ensures good != 0 && FirstUp(ring, servers) < |ring|
  {
    SomeoneIsUp(ring, servers, good);
    if good == 0 {
      NoneUp(ring, servers);
    }
  }

  /** The servers of a ring that are up are listed once each. */
  lemma {:induction false} UpsAreTheUpOnes(ring: seq<nat>, servers: seq<Server>)
    requires Unique(ring)
    ensures forall s :: s in Ups(ring, servers) <==> s in ring && IsUp(servers, s)
    ensures Unique(Ups(ring, servers))
  {
    hide IsUp;
    if ring != [] {
      HeadIsNew(ring);
      UpsAreTheUpOnes(ring[1..], servers);
      assert forall s :: s in ring <==> s == ring[0] || s in ring[1..];
    }
  }

  /** As many servers are listed as are said to be up. */
  lemma GoodAreListed(ring: seq<nat>, servers: seq<Server>, good: int)
    requires RingOk(ring, servers, good)
    ensures |Ups(ring, servers)| == good && Unique(Ups(ring, servers))
    ensures forall s :: s in Ups(ring, servers) <==> IsUp(servers, s)
  {
    hide Unique;
    UpsAreTheUpOnes(ring, servers);
    var ups := Ups(ring, servers);
    UniqueSize(ups, UpSet(servers));
  }

  /** As long as no server goes up or down, of as many choices in a row as there are servers up exactly one falls on each server
      that is up, wherever the head of the ring stood before. */
  lemma EachOnce(ring: seq<nat>, servers: seq<Server>, good: int, s: nat)
    requires RingOk(ring, servers, good) && IsUp(servers, s)
    ensures good > 0
    ensures var picks := PickTimes(ring, servers, good, good).0;
            exists i :: 0 <= i < good && picks[i] == Some(s) && forall j :: 0 <= j < good && picks[j] == Some(s) ==> j == i
  {
    hide RingOk, IsUp, Ups, PickTimes, Unique;
    GoodAreListed(ring, servers, good);
    InTurn(ring, servers, good, good);
    OnlyOnce(Ups(ring, servers), PickTimes(ring, servers, good, good).0, s);
  }

  lemma OnlyOnce(ups: seq<nat>, picks: seq<Option<nat>>, s: nat)
    requires Unique(ups) && s in ups && |picks| == |ups| && forall i :: 0 <= i < |ups| ==> picks[i] == Some(ups[i])
    ensures exists i :: 0 <= i < |ups| && picks[i] == Some(s) && forall j :: 0 <= j < |ups| && picks[j] == Some(s) ==> j == i
  {
    var i :| 0 <= i < |ups| && ups[i] == s;
    assert picks[i] == Some(s);
  }

  // Changes

  /** A server that goes down or up changes the count by one. */
  lemma StateChanges(ring: seq<nat>, servers: seq<Server>, good: int, s: nat, server': Server)
    requires RingOk(ring, servers, good) && s < |servers|
    ensures RingOk(ring, servers[s := server'], good - (if servers[s].up then 1 else 0) + (if server'.up then 1 else 0))
  {
    var servers' := servers[s := server'];
    var others := UpSet(servers) - {s};
    assert UpSet(servers) == if IsUp(servers, s) then others + {s} else others;
    assert UpSet(servers') == if IsUp(servers', s) then others + {s} else others;
  }

  /** Another server, just after the head of the ring. */
  function WithNew(ring: seq<nat>, s: nat): (r: seq<nat>)
    ensures forall x :: x in r <==> x == s || x in ring
  {
    assert ring != [] ==> ring == [ring[0]] + ring[1..];
    if ring == [] then [s] else [ring[0], s] + ring[1..]
  }

  lemma OneMore(ring: seq<nat>, servers: seq<Server>, good: int, server: Server)
    requires RingOk(ring, servers, good) && server.up
    ensures RingOk(WithNew(ring, |servers|), servers + [server], good + 1)
  {
    var ring', servers' := WithNew(ring, |servers|), servers + [server];
    assert UpSet(servers') == UpSet(servers) + {|servers|};
    NewIsNew(ring, |servers|);
  }

  lemma NewIsNew(ring: seq<nat>, s: nat)
    requires Unique(ring) && s !in ring
    ensures Unique(WithNew(ring, s))
  {
    var r := WithNew(ring, s);
    forall i, j | 0 <= i < j < |r|
      ensures r[i] != r[j]
    {
      assert i > 1 ==> r[i] == ring[i - 1];
      assert j > 1 ==> r[j] == ring[j - 1];
    }
  }
}
