/** Lists of numbers: the queues of callbacks, requests and servers. */
module Lists {
  ghost predicate Unique(q: seq<nat>) {
    forall i, j :: 0 <= i < j < |q| ==> q[i] != q[j]
  }

  function IndexOf(q: seq<nat>, e: nat): (k: nat)
    requires e in q
    ensures k < |q| && q[k] == e
  {
    if q[0] == e then 0 else 1 + IndexOf(q[1..], e)
  }

  lemma {:induction false} FirstIndex(q: seq<nat>, e: nat, k: nat)
    requires k < |q| && q[k] == e && e !in q[..k]
    ensures IndexOf(q, e) == k
  {
    if k > 0 {
      assert q[..k][0] == q[0] && q[..k][1..] == q[1..][..k - 1];
      FirstIndex(q[1..], e, k - 1);
    }
  }

  /** The queue without `e`. */
  function Remove(q: seq<nat>, e: nat): seq<nat> {
    if e in q then q[..IndexOf(q, e)] + q[IndexOf(q, e) + 1..] else q
  }

  lemma RemoveMeaning(q: seq<nat>, e: nat)
    requires Unique(q)
    ensures Unique(Remove(q, e)) && forall x :: x in Remove(q, e) <==> x in q && x != e
    ensures |Remove(q, e)| == if e in q then |q| - 1 else |q|
  {
    if e in q {
      var k := IndexOf(q, e);
      assert q == q[..k] + [e] + q[k + 1..];
    }
  }

  lemma UniqueAppend(q: seq<nat>, e: nat)
    requires Unique(q) && e !in q
    ensures Unique(q + [e]) && forall x :: x in q + [e] <==> x in q || x == e
  {}

  function Total(queues: seq<seq<nat>>): nat {
    if queues == [] then 0 else |queues[0]| + Total(queues[1..])
  }

  lemma {:induction false} TotalUpdate(queues: seq<seq<nat>>, p: nat, q: seq<nat>)
    requires p < |queues|
    ensures Total(queues[p := q]) == Total(queues) - |queues[p]| + |q| && Total(queues) >= |queues[p]|
  {
    if p > 0 {
      TotalUpdate(queues[1..], p - 1, q);
      assert queues[p := q][1..] == queues[1..][p - 1 := q];
    } else {
      assert queues[p := q][1..] == queues[1..];
    }
  }

  lemma {:induction false} TotalNone(queues: seq<seq<nat>>)
    ensures Total(queues) == 0 <==> forall p :: 0 <= p < |queues| ==> queues[p] == []
  {
    if queues != [] {
      TotalNone(queues[1..]);
      if Total(queues[1..]) != 0 {
        var p :| 0 <= p < |queues[1..]| && queues[1..][p] != [];
        assert queues[p + 1] != [];
      } else {
        forall p | 0 < p < |queues|
          ensures queues[p] == []
        {
          assert queues[p] == queues[1..][p - 1];
        }
      }
    }
  }

  /** The members of all the queues, one queue after the other. */
  function All(queues: seq<seq<nat>>): (r: seq<nat>)
    ensures |r| == Total(queues)
  {
    if queues == [] then [] else queues[0] + All(queues[1..])
  }

  lemma {:induction false} AllMembers(queues: seq<seq<nat>>, x: nat)
    ensures x in All(queues) <==> exists p :: 0 <= p < |queues| && x in queues[p]
  {
    if queues != [] {
      AllMembers(queues[1..], x);
      if x in All(queues[1..]) {
        var p :| 0 <= p < |queues[1..]| && x in queues[1..][p];
        assert x in queues[p + 1];
      } else {
        assert forall p :: 0 < p < |queues| ==> queues[p] == queues[1..][p - 1];
      }
    }
  }

  /** Queues without members in common have all their members once. */
  lemma {:induction false} AllUnique(queues: seq<seq<nat>>)
    requires forall b :: 0 <= b < |queues| ==> Unique(queues[b])
    requires forall b, c, id :: 0 <= b < c < |queues| && id in queues[b] ==> id !in queues[c]
    ensures Unique(All(queues))
  {
    if queues != [] {
      AllUnique(queues[1..]);
      forall id | id in queues[0]
        ensures id !in All(queues[1..])
      {
        AllMembers(queues[1..], id);
      }
      UniqueConcat(queues[0], All(queues[1..]));
    }
  }

  lemma UniqueConcat(a: seq<nat>, b: seq<nat>)
    requires Unique(a) && Unique(b) && forall x :: x in a ==> x !in b
    ensures Unique(a + b)
  {
    var c := a + b;
    forall i, j | 0 <= i < j < |c|
      ensures c[i] != c[j]
    {
      assert i < |a| ==> c[i] == a[i] && c[i] in a;
      assert j >= |a| ==> c[j] == b[j - |a|] && c[j] in b;
      assert i >= |a| ==> c[i] == b[i - |a|];
    }
  }

  lemma {:induction false} AllConcat(a: seq<seq<nat>>, b: seq<seq<nat>>)
    ensures All(a + b) == All(a) + All(b)
  {
    if a == [] {
      assert a + b == b;
    } else {
      assert (a + b)[1..] == a[1..] + b;
      AllConcat(a[1..], b);
    }
  }

  lemma AllOneMore(queues: seq<seq<nat>>, i: nat)
    requires i < |queues|
    ensures All(queues[..i + 1]) == All(queues[..i]) + queues[i]
  {
    assert queues[..i + 1] == queues[..i] + [queues[i]];
    AllConcat(queues[..i], [queues[i]]);
    assert All([queues[i]]) == queues[i];
  }

  lemma HeadIsNew(q: seq<nat>)
    requires Unique(q) && q != []
    ensures q[0] !in q[1..] && Unique(q[1..])
  {}

  lemma {:induction false} UniqueSize(q: seq<nat>, s: set<nat>)
    requires Unique(q) && forall x :: x in s <==> x in q
    ensures |s| == |q|
  {
    if q != [] {
      HeadIsNew(q);
      assert forall x :: x in q <==> x == q[0] || x in q[1..];
      UniqueSize(q[1..], s - {q[0]});
    } else {
      assert s == {};
    }
  }
}
