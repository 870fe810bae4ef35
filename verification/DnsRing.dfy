/** The circular lists that requests are kept in. */
module DnsRing {
  /** A request, as far as lists are concerned; its number stands for all else that it holds. */
  class Link {
    const id: nat
    var next: Link?
    var prev: Link?

    constructor (id: nat)
      ensures this.id == id && next == null && prev == null
    {
      this.id := id;
      next, prev := null, null;
    }
  }

  ghost predicate Distinct(s: seq<Link>) {
    forall i, j :: 0 <= i < j < |s| ==> s[i] != s[j]
  }

  /** The place after place `i`, going round. */
  function After(i: nat, n: nat): nat {
    if i + 1 < n then i + 1 else 0
  }

  /** Each link leads to the next one and back, the last one to the first. */
  ghost predicate Round(s: seq<Link>)
    reads s`next, s`prev
  {
    && Distinct(s)
    && (forall i :: 0 <= i < |s| ==> s[i].next == s[After(i, |s|)])
    && (forall i :: 0 <= i < |s| ==> s[After(i, |s|)].prev == s[i])
  }

  /** The list that a head leads to. */
  ghost predicate Lists(head: Link?, s: seq<Link>)
    reads s`next, s`prev
  {
    Round(s) && if s == [] then head == null else head == s[0]
  }

  /** Puts a request at the end of a list. */
  method Insert(req: Link, head: Link?, ghost s: seq<Link>) returns (head': Link)
    requires Lists(head, s) && req !in s
    modifies req, (if s == [] then {} else {s[0], s[|s| - 1]})
    ensures Lists(head', s + [req])
  {
    if head == null {
      req.next, req.prev := req, req;
      return req;
    }
    assert head.prev == s[|s| - 1] by {
      assert After(|s| - 1, |s|) == 0;
    }
    req.prev := head.prev;
    req.prev.next := req;
    req.next := head;
    head.prev := req;
    head' := head;
  }

  /** The place after place `i`, leaving out place `k`. */
  function AfterBut(i: nat, k: nat, n: nat): nat {
    if After(i, n) == k then After(k, n) else After(i, n)
  }

  /** Where the members of a list stood before the one at place `k` was taken off. */
  function Before(i: nat, k: nat): nat {
    if i < k then i else i + 1
  }

  lemma TakenOff(s: seq<Link>, k: nat)
    requires k < |s| && Distinct(s)
    ensures var rest := s[..k] + s[k + 1..];
            && Distinct(rest) && |rest| == |s| - 1
            && (forall i: nat :: i < |rest| ==> rest[i] == s[Before(i, k)])
            && (forall i: nat :: i < |rest| ==> Before(After(i, |rest|), k) == AfterBut(Before(i, k), k, |s|))
  {}

  /** Takes the request at place `k` out of the round; its neighbours lead to each other. */
  method Unlink(req: Link, ghost s: seq<Link>, ghost k: nat)
    requires Round(s) && k < |s| && s[k] == req && |s| > 1
    modifies s
    ensures forall i: nat :: i < |s| && i != k ==> s[i].next == s[AfterBut(i, k, |s|)] && s[AfterBut(i, k, |s|)].prev == s[i]
    ensures req.next == null && req.prev == null
  {
    ghost var n := |s|;
    ghost var b: nat := if k > 0 then k - 1 else n - 1;
    assert After(b, n) == k && req.prev == s[b] && req.next == s[After(k, n)];
    req.next.prev := req.prev;
    req.prev.next := req.next;
    req.next, req.prev := null, null;
  }

  /** Takes a request off the list that it is on. */
  method Remove(req: Link, head: Link?, ghost s: seq<Link>, ghost k: nat) returns (head': Link?)
    requires Lists(head, s) && k < |s| && s[k] == req
    modifies s
    ensures Lists(head', s[..k] + s[k + 1..]) && req.next == null && req.prev == null
  {
    head' := head;
    if req.next == req {
      // the ring is its head alone
      assert After(k, |s|) == k;
      head' := null;
      req.next, req.prev := null, null;
    } else {
      if head == req {
        head' := req.next;
      }
      assert k == 0 ==> head' == s[1];
      Unlink(req, s, k);
      TakenOff(s, k);
    }
  }

  /** The first request of a list that `holds` says yes to: a walk that ends when it is back at the head. */
  method Find(head: Link?, holds: Link -> bool, ghost s: seq<Link>) returns (found: Link?)
    requires Lists(head, s)
    ensures found == null ==> forall i :: 0 <= i < |s| ==> !holds(s[i])
    ensures found != null ==> exists i :: 0 <= i < |s| && s[i] == found && holds(s[i]) && forall j :: 0 <= j < i ==> !holds(s[j])
  {
    found := null;
    if head == null {
      return;
    }
    var req: Link := head;
    ghost var k := 0;
    while true
      invariant 0 <= k < |s| && req == s[k] && forall i :: 0 <= i < k ==> !holds(s[i])
      decreases |s| - k
    {
      if holds(req) {
        return req;
      }
      req := req.next;
      if req == head {
        assert After(k, |s|) == 0;
        return;
      }
      k := k + 1;
    }
  }
}
