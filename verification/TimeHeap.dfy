/** The binary min-heap that holds the events with a timeout of their own. */
module TimeHeapModule {
  /** Where the parent of slot `i` is. */
  function Parent(i: nat): (p: nat)
    requires i > 0
    ensures p < i
  {
    (i - 1) / 2
  }

  /** Every event knows its slot. */
  ghost predicate Placed(q: seq<nat>, idx: map<nat, nat>) {
    && (forall e :: e in idx ==> idx[e] < |q| && q[idx[e]] == e)
    && (forall i :: 0 <= i < |q| ==> q[i] in idx && idx[q[i]] == i)
  }

  ghost predicate AllTimed(q: seq<nat>, at: map<nat, int>) {
    forall i :: 0 <= i < |q| ==> q[i] in at
  }

  /** No event is due before its parent. */
  ghost predicate Ordered(q: seq<nat>, at: map<nat, int>)
    requires AllTimed(q, at)
  {
    forall i :: 0 < i < |q| ==> at[q[Parent(i)]] <= at[q[i]]
  }

  /** Ordered but for the event in slot `hole`. */
  ghost predicate OrderedBut(q: seq<nat>, at: map<nat, int>, hole: nat)
    requires AllTimed(q, at)
  {
    && (forall i :: 0 < i < |q| && i != hole && Parent(i) != hole ==> at[q[Parent(i)]] <= at[q[i]])
    && (forall i :: 0 < i < |q| && Parent(i) == hole && 0 < hole < |q| ==> at[q[Parent(hole)]] <= at[q[i]])
  }

  /** The event in slot `hole` is not due after its children. */
  ghost predicate BelowFine(q: seq<nat>, at: map<nat, int>, hole: nat)
    requires AllTimed(q, at)
  {
    forall i :: 0 < i < |q| && Parent(i) == hole ==> at[q[hole]] <= at[q[i]]
  }

  lemma {:induction false} RootIsLeast(q: seq<nat>, at: map<nat, int>, i: nat)
    requires i < |q| && AllTimed(q, at) && Ordered(q, at)
    ensures at[q[0]] <= at[q[i]]
  {
    if i > 0 {
      RootIsLeast(q, at, Parent(i));
    }
  }

  class TimeHeap {
    // The slots allocated, of which the first `n` are in use.
    var p: seq<nat>
    var n: nat
    // Each event's min_heap_idx (absent for -1) and timeout.
    var idx: map<nat, nat>
    var at: map<nat, int>

    ghost predicate Valid()
      reads this
    {
      Heaped(p, n, idx, at)
    }

    constructor ()
      ensures Valid() && at == map[]
    {
      p, n, idx, at := [], 0, map[], map[];
    }

    /** The event that is due first. */
    function Top(): (e: nat)
      requires Valid() && n > 0
      reads this
    {
      p[0]
    }

    lemma TopIsLeast()
      requires Valid()
      ensures n == 0 <==> at == map[]
      ensures n > 0 ==> Top() in at && forall e :: e in at ==> at[Top()] <= at[e]
    {
      forall e | e in at
        ensures n > 0 && at[p[..n][0]] <= at[e]
      {
        RootIsLeast(p[..n], at, idx[e]);
      }
      if n > 0 {
        assert p[..n][0] in at;
      }
    }

    /** Makes sure that there are as many slots, for which memory may be needed. */
    method Reserve(size: nat, memory: bool) returns (ok: bool)
      requires n <= |p|
      modifies this`p
      ensures ok <==> memory || size <= |old(p)|
      ensures if ok then size <= |p| && n <= |p| && p[..n] == old(p[..n]) else p == old(p)
    {
      ok := true;
      if |p| < size {
        if !memory {
          return false;
        }
        var a := if |p| > 0 then |p| * 2 else 8;
        if a < size {
          a := size;
        }
        p := p + seq(a - |p|, _ => 0);
      }
    }

    /** Fills the hole. */
    method Settle(hole: nat, e: nat, ghost gone: set<nat>)
      requires Holed(p, n, idx, at, hole, e, gone) && BelowFine(p[..n][hole := e], at, hole)
      requires hole > 0 ==> p[Parent(hole)] in at && at[p[Parent(hole)]] <= at[e]
      modifies this`p, this`idx
      ensures Heaped(p, n, idx - gone, at) && gone * old(idx.Keys) == gone * idx.Keys
    {
      hide Placed;
      assert p[hole := e][..n] == p[..n][hole := e];
      assert idx[e := hole] - gone == (idx - gone)[e := hole];
      OrderFilled(p[..n][hole := e], at, hole);
      p, idx := p[hole := e], idx[e := hole];
    }

    /** Moves the hole up while the parent is due later than `e`. */
    method ShiftUp(hole0: nat, e: nat, ghost gone: set<nat>)
      requires Holed(p, n, idx, at, hole0, e, gone) && BelowFine(p[..n][hole0 := e], at, hole0)
      modifies this`p, this`idx
      ensures Heaped(p, n, idx - gone, at) && gone * old(idx.Keys) == gone * idx.Keys
    {
      hide Holed, BelowFine;
      var hole := hole0;
      HoledAt(p, n, idx, at, hole, e, gone);
      while hole > 0 && at[p[Parent(hole)]] > at[e]
        invariant Holed(p, n, idx, at, hole, e, gone) && BelowFine(p[..n][hole := e], at, hole)
        invariant e in at && (hole > 0 ==> p[Parent(hole)] in at)
        invariant gone * old(idx.Keys) == gone * idx.Keys
      {
        UpStep(p, n, idx, at, hole, e, gone);
        p, idx := p[hole := p[Parent(hole)]], idx[p[Parent(hole)] := hole];
        hole := Parent(hole);
        HoledAt(p, n, idx, at, hole, e, gone);
      }
      Settle(hole, e, gone);
    }

    /** Moves the hole down while a child is due before `e`. */
    method ShiftDown(hole0: nat, e: nat, ghost gone: set<nat>)
      requires Holed(p, n, idx, at, hole0, e, gone)
      requires hole0 > 0 ==> p[Parent(hole0)] in at && at[p[Parent(hole0)]] <= at[e]
      modifies this`p, this`idx
      ensures Heaped(p, n, idx - gone, at) && gone * old(idx.Keys) == gone * idx.Keys
    {
      hide Holed, BelowFine;
      var hole := hole0;
      HoledAt(p, n, idx, at, hole, e, gone);
      var minChild := 2 * (hole + 1);
      while minChild <= n
        invariant Holed(p, n, idx, at, hole, e, gone) && minChild == 2 * (hole + 1)
        invariant hole > 0 ==> p[Parent(hole)] in at && at[p[Parent(hole)]] <= at[e]
        invariant gone * old(idx.Keys) == gone * idx.Keys
        decreases n - hole
      {
        HoledAt(p, n, idx, at, hole, e, gone);
        if minChild == n || at[p[minChild]] > at[p[minChild - 1]] {
          minChild := minChild - 1;
        }
        if at[e] <= at[p[minChild]] {
          break;
        }
        DownStep(p, n, idx, at, hole, minChild, e, gone);
        p, idx := p[hole := p[minChild]], idx[p[minChild] := hole];
        hole := minChild;
        minChild := 2 * (hole + 1);
        HoledAt(p, n, idx, at, hole, e, gone);
      }
      LeastChild(p, n, idx, at, hole, minChild, e, gone);
      Settle(hole, e, gone);
    }

    /** Adds an event that is due at `time`, unless all slots are taken and there is no memory for more. */
    method Push(e: nat, time: int, memory: bool) returns (ok: bool)
      requires Valid() && e !in at
      modifies this
      ensures Valid() && (ok <==> memory || old(n < |p|))
      ensures at == if ok then old(at)[e := time] else old(at)
    {
      hide Placed, Ordered, OrderedBut;
      ok := Reserve(n + 1, memory);
      if !ok {
        return;
      }
      AddedSlot(p, n, idx, at, e, time);
      at := at[e := time];
      n := n + 1;
      ShiftUp(n - 1, e, {});
      assert idx - {} == idx;
    }

    /** Takes an event out; the last one takes its slot and then finds its own. */
    method Erase(e: nat) returns (found: bool)
      requires Valid()
      modifies this
      ensures Valid() && at == old(at) - {e} && found == old(e in at)
    {
      hide Placed, Ordered, OrderedBut, BelowFine;
      if e !in idx {
        return false;
      }
      RemovedSlot(p, n, idx, at, e);
      n := n - 1;
      var last, hole := p[n], idx[e];
      var up := hole > 0 && at[p[Parent(hole)]] > at[last];
      at := at - {e};
      if up {
        ShiftUp(hole, last, {e});
      } else if hole == n {
        // the event was in the last slot
        assert idx[last := hole] - {e} == idx - {e};
        assert p[hole := last] == p;
        p, idx := p[hole := last], idx[last := hole];
      } else {
        ShiftDown(hole, last, {e});
      }
      idx := idx - {e};
      found := true;
    }
  }

  /** The first `n` slots make a heap. */
  ghost predicate Heaped(p: seq<nat>, n: nat, idx: map<nat, nat>, at: map<nat, int>) {
    n <= |p| && Placed(p[..n], idx) && at.Keys == idx.Keys && AllTimed(p[..n], at) && Ordered(p[..n], at)
  }

  /** With event `e` in slot `hole` the slots make a heap, but for that event.  The events in `gone`
      are on their way out. */
  ghost predicate Holed(p: seq<nat>, n: nat, idx: map<nat, nat>, at: map<nat, int>, hole: nat, e: nat, gone: set<nat>)
    ensures Holed(p, n, idx, at, hole, e, gone) ==> hole < n <= |p| && AllTimed(p[..n][hole := e], at)
  {
    && hole < n <= |p| && e in at && e !in gone && at.Keys == idx.Keys - gone + {e}
    && var q := p[..n][hole := e];
    && Placed(q, (idx - gone)[e := hole]) && AllTimed(q, at) && OrderedBut(q, at, hole)
  }

  lemma HoledAt(p: seq<nat>, n: nat, idx: map<nat, nat>, at: map<nat, int>, hole: nat, e: nat, gone: set<nat>)
    requires Holed(p, n, idx, at, hole, e, gone)
    ensures e in at && forall i :: 0 <= i < n && i != hole ==> p[i] in at && p[i] != e && p[i] !in gone
  {
    var q := p[..n][hole := e];
    forall i | 0 <= i < n && i != hole
      ensures p[i] in at && p[i] != e && p[i] !in gone
    {
      assert q[i] == p[i];
    }
  }

  /** Moving the event in slot `c` into the hole. */
  lemma Swapped(p: seq<nat>, n: nat, idx: map<nat, nat>, hole: nat, c: nat, e: nat, gone: set<nat>)
    requires hole < n <= |p| && c < n && c != hole && e !in gone
    requires Placed(p[..n][hole := e], (idx - gone)[e := hole])
    ensures p[hole := p[c]][..n][c := e] == p[..n][hole := e][hole := p[c]][c := e]
    ensures Placed(p[hole := p[c]][..n][c := e], (idx[p[c] := hole] - gone)[e := c])
    ensures p[c] in idx && p[c] !in gone && p[c] != e
  {
    var q: seq<nat>, x: nat := p[..n][hole := e], p[c];
    assert q[c] == x;
    assert p[hole := x][..n][c := e] == q[hole := x][c := e];
    assert (idx[x := hole] - gone)[e := c] == (idx - gone)[e := hole][x := hole][e := c];
  }

  lemma UpStep(p: seq<nat>, n: nat, idx: map<nat, nat>, at: map<nat, int>, hole: nat, e: nat, gone: set<nat>)
    requires Holed(p, n, idx, at, hole, e, gone) && BelowFine(p[..n][hole := e], at, hole)
    requires hole > 0 && p[Parent(hole)] in at && at[p[Parent(hole)]] > at[e]
    ensures var up, x := Parent(hole), p[Parent(hole)];
            && Holed(p[hole := x], n, idx[x := hole], at, up, e, gone)
            && BelowFine(p[hole := x][..n][up := e], at, up)
            && gone * idx.Keys == gone * idx[x := hole].Keys
  {
    hide Placed;
    Swapped(p, n, idx, hole, Parent(hole), e, gone);
    OrderUp(p[..n][hole := e], at, hole);
  }

  lemma OrderFilled(q: seq<nat>, at: map<nat, int>, hole: nat)
    requires hole < |q| && AllTimed(q, at) && OrderedBut(q, at, hole) && BelowFine(q, at, hole)
    requires hole > 0 ==> at[q[Parent(hole)]] <= at[q[hole]]
    ensures Ordered(q, at)
  {}

  lemma OrderUp(q: seq<nat>, at: map<nat, int>, hole: nat)
    requires 0 < hole < |q| && AllTimed(q, at) && OrderedBut(q, at, hole) && BelowFine(q, at, hole)
    requires at[q[Parent(hole)]] > at[q[hole]]
    ensures var q' := q[hole := q[Parent(hole)]][Parent(hole) := q[hole]];
            AllTimed(q', at) && OrderedBut(q', at, Parent(hole)) && BelowFine(q', at, Parent(hole))
  {}

  /** Moving a hole down to the least child, when that one is due before `e`. */
  lemma DownStep(p: seq<nat>, n: nat, idx: map<nat, nat>, at: map<nat, int>, hole: nat, c: nat, e: nat, gone: set<nat>)
    requires Holed(p, n, idx, at, hole, e, gone)
    requires hole < c < n && Parent(c) == hole && p[c] in at && at[p[c]] < at[e]
    requires forall i :: 0 < i < n && Parent(i) == hole ==> p[i] in at && at[p[c]] <= at[p[i]]
    ensures var x := p[c];
            && Holed(p[hole := x], n, idx[x := hole], at, c, e, gone)
            && p[hole := x][Parent(c)] == x
            && gone * idx.Keys == gone * idx[x := hole].Keys
  {
    hide Placed;
    Swapped(p, n, idx, hole, c, e, gone);
    OrderDown(p[..n][hole := e], at, hole, c);
  }

  lemma OrderDown(q: seq<nat>, at: map<nat, int>, hole: nat, c: nat)
    requires hole < c < |q| && Parent(c) == hole && AllTimed(q, at) && OrderedBut(q, at, hole)
    requires forall i :: 0 < i < |q| && Parent(i) == hole ==> at[q[c]] <= at[q[i]]
    ensures var q' := q[hole := q[c]][c := q[hole]];
            AllTimed(q', at) && OrderedBut(q', at, c)
  {}

  /** When no child of the hole is due before `e`, the hole is where `e` belongs. */
  lemma LeastChild(p: seq<nat>, n: nat, idx: map<nat, nat>, at: map<nat, int>, hole: nat, c: nat, e: nat, gone: set<nat>)
    requires Holed(p, n, idx, at, hole, e, gone)
    requires c > n || (c < n && p[c] in at && at[e] <= at[p[c]] && 2 * hole + 1 <= c <= 2 * hole + 2)
    requires c > n ==> c == 2 * hole + 2
    requires c < n && c == 2 * hole + 1 && c + 1 < n ==> p[c + 1] in at && at[p[c]] <= at[p[c + 1]]
    requires c < n && c == 2 * hole + 2 ==> p[c - 1] in at && at[p[c]] <= at[p[c - 1]]
    ensures BelowFine(p[..n][hole := e], at, hole)
  {}

  /** A new slot at the end, for an event that is due at `time`. */
  lemma AddedSlot(p: seq<nat>, n: nat, idx: map<nat, nat>, at: map<nat, int>, e: nat, time: int)
    requires Heaped(p, n, idx, at) && n < |p| && e !in at
    ensures Holed(p, n + 1, idx, at[e := time], n, e, {})
    ensures BelowFine(p[..n + 1][n := e], at[e := time], n)
  {
    var q := p[..n];
    var q' := q + [e];
    assert p[..n + 1][n := e] == q';
    assert idx - {} == idx;
    assert Placed(q', idx[e := n]);
    forall i | 0 < i < |q'| && i != n && Parent(i) != n
      ensures at[e := time][q'[Parent(i)]] <= at[e := time][q'[i]]
    {
      assert at[q[Parent(i)]] <= at[q[i]];
    }
  }

  /** Without the last slot, and with its event in the place of `e`. */
  lemma RemovedSlot(p: seq<nat>, n: nat, idx: map<nat, nat>, at: map<nat, int>, e: nat)
    requires Heaped(p, n, idx, at) && e in idx
    ensures n > 0 && idx[e] < n
    ensures var last, hole, at' := p[n - 1], idx[e], at - {e};
            && last in at
            && (hole == n - 1 ==> last == e && Heaped(p, n - 1, idx - {e}, at'))
            && (hole < n - 1 ==> last in at' && Holed(p, n - 1, idx, at', hole, last, {e}))
            && (hole > 0 ==> p[Parent(hole)] in at')
            && (hole == n - 1 && hole > 0 ==> at[p[Parent(hole)]] <= at[last])
            && (hole < n - 1 && hole > 0 && at'[p[Parent(hole)]] > at'[last] ==> BelowFine(p[..n - 1][hole := last], at', hole))
  {
    var q := p[..n];
    assert q[n - 1] == p[n - 1];
    assert idx[e] > 0 ==> q[Parent(idx[e])] == p[Parent(idx[e])];
  }
}
