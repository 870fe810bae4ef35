/** The requests in flight, on circular lists. */
module DnsIndex {
  import opened DnsRequests
  import opened Lists
  import opened Options
  import Ring = DnsRing

  /** The numbers of the requests on a list. */
  function Ids(q: seq<Ring.Link>): (ids: seq<nat>)
    ensures |ids| == |q|
  {
    seq(|q|, i requires 0 <= i < |q| => q[i].id)
  }

  function AllIds(rings: seq<seq<Ring.Link>>): (lists: seq<seq<nat>>)
    ensures |lists| == |rings|
  {
    seq(|rings|, b requires 0 <= b < |rings| => Ids(rings[b]))
  }

  /** No two requests have the same number. */
  ghost predicate Different(rings: seq<seq<Ring.Link>>) {
    forall b, c, i, j :: (0 <= b < |rings| && 0 <= c < |rings| && 0 <= i < |rings[b]| && 0 <= j < |rings[c]|
                          && rings[b][i].id == rings[c][j].id) ==> b == c && i == j
  }

  ghost predicate OnNone(rings: seq<seq<Ring.Link>>, id: nat) {
    forall b, i :: 0 <= b < |rings| && 0 <= i < |rings[b]| ==> rings[b][i].id != id
  }

  /** Each head leads round its list. */
  ghost predicate Heads(heads: seq<Ring.Link?>, rings: seq<seq<Ring.Link>>)
    requires |heads| == |rings|
    reads Members(rings)`next, Members(rings)`prev
  {
    forall b :: 0 <= b < |rings| ==> Ring.Lists(heads[b], rings[b])
  }

  ghost function Members(rings: seq<seq<Ring.Link>>): set<Ring.Link> {
    set b, i | 0 <= b < |rings| && 0 <= i < |rings[b]| :: rings[b][i]
  }

  lemma AddedDiffers(rings: seq<seq<Ring.Link>>, b: nat, req: Ring.Link)
    requires b < |rings| && Different(rings) && OnNone(rings, req.id)
    ensures Different(rings[b := rings[b] + [req]])
    ensures AllIds(rings[b := rings[b] + [req]]) == AllIds(rings)[b := AllIds(rings)[b] + [req.id]]
    ensures req !in rings[b] && forall c :: 0 <= c < |rings| && c != b ==> req !in rings[c] && forall l :: l in rings[b] ==> l !in rings[c]
  {
    assert Ids(rings[b] + [req]) == Ids(rings[b]) + [req.id];
  }

  lemma TakenDiffers(rings: seq<seq<Ring.Link>>, b: nat, k: nat)
    requires b < |rings| && k < |rings[b]| && Different(rings)
    ensures var q, id := rings[b], rings[b][k].id;
            var rings' := rings[b := q[..k] + q[k + 1..]];
            && Different(rings') && OnNone(rings', id) && AllIds(rings') == AllIds(rings)[b := Remove(AllIds(rings)[b], id)]
            && forall c :: 0 <= c < |rings| && c != b ==> forall l :: l in q ==> l !in rings[c]
  {
    var q, id := rings[b], rings[b][k].id;
    assert Ids(q)[k] == id;
    var j := IndexOf(Ids(q), id);
    assert q[j].id == rings[b][k].id && j == k;
    assert Remove(Ids(q), id) == Ids(q)[..k] + Ids(q)[k + 1..];
    TakenIds(q, k);
  }

  lemma TakenIds(q: seq<Ring.Link>, k: nat)
    requires k < |q|
    ensures Ids(q[..k] + q[k + 1..]) == Ids(q)[..k] + Ids(q)[k + 1..]
  {}

  lemma HeadsAt(heads: seq<Ring.Link?>, rings: seq<seq<Ring.Link>>, b: nat)
    requires |heads| == |rings| && Heads(heads, rings) && b < |rings|
    ensures Ring.Lists(heads[b], rings[b])
  {}

  /** Another list in one place. */
  lemma HeadsUpdate(heads: seq<Ring.Link?>, rings: seq<seq<Ring.Link>>, b: nat, head: Ring.Link?, q: seq<Ring.Link>)
    requires |heads| == |rings| && b < |rings| && Ring.Lists(head, q)
    requires forall c :: 0 <= c < |rings| && c != b ==> Ring.Lists(heads[c], rings[c])
    ensures Heads(heads[b := head], rings[b := q])
  {
    hide Ring.Lists;
  }

  class RequestIndex {
    const heads: array<Ring.Link?>
    ghost var rings: seq<seq<Ring.Link>>

    ghost predicate Valid()
      reads this, heads, Members(rings)
    {
      0 < heads.Length == |rings| && Heads(heads[..], rings) && Different(rings)
    }

    constructor (n: nat)
      requires n > 0
      ensures Valid() && fresh(heads) && AllIds(rings) == Empty(n)
    {
      heads := new Ring.Link?[n](_ => null);
      rings := seq(n, _ => []);
    }

    /** Puts a request at the end of the list of its transaction number. */
    method Insert(req: Ring.Link, transId: nat)
      requires Valid() && OnNone(rings, req.id)
      modifies this, heads, req, Members(rings)
      ensures Valid() && AllIds(rings) == Put(old(AllIds(rings)), req.id, transId)
    {
      hide Ring.Lists, Heads, Different, OnNone, AllIds;
      var b := transId % heads.Length;
      AddedDiffers(rings, b, req);
      ghost var h := heads[..];
      forall c | 0 <= c < |rings|
        ensures Ring.Lists(h[c], rings[c])
      {
        HeadsAt(h, rings, c);
      }
      assert rings[b] != [] ==> rings[b][0] in rings[b] && rings[b][|rings[b]| - 1] in rings[b];
      var head := Ring.Insert(req, heads[b], rings[b]);
      HeadsUpdate(h, rings, b, head, rings[b] + [req]);
      heads[b] := head;
      assert heads[..] == h[b := head];
      rings := rings[b := rings[b] + [req]];
    }

    /** Takes a request off the list of its transaction number. */
    method Remove(req: Ring.Link, transId: nat)
      requires Valid() && req in rings[transId % heads.Length]
      modifies this, heads, Members(rings)
      ensures Valid() && AllIds(rings) == Take(old(AllIds(rings)), req.id, transId)
      ensures OnNone(rings, req.id) && req.next == null && req.prev == null
    {
      hide Ring.Lists, Heads, Different, OnNone, AllIds, Lists.Remove;
      var b := transId % heads.Length;
      ghost var k :| 0 <= k < |rings[b]| && rings[b][k] == req;
      TakenDiffers(rings, b, k);
      ghost var h := heads[..];
      forall c | 0 <= c < |rings|
        ensures Ring.Lists(h[c], rings[c])
      {
        HeadsAt(h, rings, c);
      }
      label before:
      var head := Ring.Remove(req, heads[b], rings[b], k);
      forall c | 0 <= c < |rings| && c != b
        ensures Ring.Lists(h[c], rings[c])
      {
        assert old@before(Ring.Lists(h[c], rings[c]));
        assert forall l: Ring.Link :: l in rings[c] ==> l !in rings[b] && l.next == old@before(l.next) && l.prev == old@before(l.prev);
      }
      HeadsUpdate(h, rings, b, head, rings[b][..k] + rings[b][k + 1..]);
      heads[b] := head;
      assert heads[..] == h[b := head];
      rings := rings[b := rings[b][..k] + rings[b][k + 1..]];
    }

    /** The request in flight with a transaction number: a walk round one list finds it, if there is one. */
    method FindFromTransId(transId: nat, requests: map<nat, Request>) returns (req: Ring.Link?)
      requires Valid() && Index(AllIds(rings), requests)
      ensures req == null ==> forall id :: InFlight(requests, id) ==> requests[id].transId != transId
      ensures req != null ==> InFlight(requests, req.id) && requests[req.id].transId == transId
    {
      hide Ring.Lists, Different;
      var b := transId % heads.Length;
      req := Ring.Find(heads[b], (l: Ring.Link) => l.id in requests && requests[l.id].transId == transId, rings[b]);
      OnItsList(rings, requests, b);
    }
  }

  /** A list holds just the requests in flight whose number belongs there. */
  lemma OnItsList(rings: seq<seq<Ring.Link>>, requests: map<nat, Request>, b: nat)
    requires Index(AllIds(rings), requests) && b < |rings|
    ensures forall i :: 0 <= i < |rings[b]| ==> InFlight(requests, rings[b][i].id)
    ensures forall id :: InFlight(requests, id) && requests[id].transId % |rings| == b ==>
              exists i :: 0 <= i < |rings[b]| && rings[b][i].id == id
  {
    var q := AllIds(rings)[b];
    assert Bucket(q, b, |rings|, requests);
    forall i | 0 <= i < |rings[b]|
      ensures InFlight(requests, rings[b][i].id)
    {
      assert q[i] in q;
    }
    forall id | InFlight(requests, id) && requests[id].transId % |rings| == b
      ensures exists i :: 0 <= i < |rings[b]| && rings[b][i].id == id
    {
      assert id in q;
      assert rings[b][IndexOf(q, id)].id == id;
    }
  }
}
