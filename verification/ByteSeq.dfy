/** Byte strings, and byte strings cut into consecutive pieces. */
module ByteSeq {
  type Byte = x: int | 0 <= x < 256

  /** The concatenation of all pieces, in order. */
  function Flatten(ps: seq<seq<Byte>>): seq<Byte> {
    if |ps| == 0 then [] else ps[0] + Flatten(ps[1..])
  }

  /** Every piece from index `k` on is empty. */
  ghost predicate EmptyFrom(ps: seq<seq<Byte>>, k: nat) {
    forall i :: k <= i < |ps| ==> ps[i] == []
  }

  lemma {:induction false} FlattenConcat(a: seq<seq<Byte>>, b: seq<seq<Byte>>)
    ensures Flatten(a + b) == Flatten(a) + Flatten(b)
  {
    if a == [] {
      assert a + b == b;
    } else {
      FlattenConcat(a[1..], b);
      assert (a + b)[1..] == a[1..] + b;
      assert a[0] + (Flatten(a[1..]) + Flatten(b)) == (a[0] + Flatten(a[1..])) + Flatten(b);
    }
  }

  lemma FlattenNil()
    ensures Flatten([]) == []
  {}

  lemma FlattenOne(p: seq<Byte>)
    ensures Flatten([p]) == p
  {
    assert Flatten([p]) == p + Flatten([]);
  }

  lemma {:induction false} FlattenEmpty(ps: seq<seq<Byte>>)
    requires EmptyFrom(ps, 0)
    ensures Flatten(ps) == []
  {
    if ps != [] {
      FlattenEmpty(ps[1..]);
    }
  }

  lemma FlattenSplit(ps: seq<seq<Byte>>, k: nat)
    requires k <= |ps|
    ensures Flatten(ps) == Flatten(ps[..k]) + Flatten(ps[k..])
  {
    assert ps == ps[..k] + ps[k..];
    FlattenConcat(ps[..k], ps[k..]);
  }

  /** Splitting off one piece in the middle. */
  lemma FlattenAt(ps: seq<seq<Byte>>, k: nat)
    requires k < |ps|
    ensures Flatten(ps) == Flatten(ps[..k]) + ps[k] + Flatten(ps[k + 1..])
    ensures |Flatten(ps)| == |Flatten(ps[..k])| + |ps[k]| + |Flatten(ps[k + 1..])|
  {
    FlattenSplit(ps, k);
    assert ps[k..][1..] == ps[k + 1..];
  }

  lemma FlattenPrefix(ps: seq<seq<Byte>>, k: nat)
    requires k < |ps|
    ensures Flatten(ps[..k + 1]) == Flatten(ps[..k]) + ps[k]
  {
    FlattenSplit(ps[..k + 1], k);
    assert ps[..k + 1][..k] == ps[..k] && ps[..k + 1][k..] == [ps[k]];
    FlattenOne(ps[k]);
  }

  /** Dropping the first `k` pieces and `n` bytes of the next. */
  lemma FlattenDrop(ps: seq<seq<Byte>>, k: nat, n: nat)
    requires k < |ps| && n <= |ps[k]|
    ensures |Flatten(ps[..k])| + n <= |Flatten(ps)|
    ensures Flatten(ps[k..][0 := ps[k][n..]]) == Flatten(ps)[|Flatten(ps[..k])| + n..]
  {
    FlattenAt(ps, k);
    var qs := ps[k..][0 := ps[k][n..]];
    assert qs[1..] == ps[k + 1..];
    var a, b, c := Flatten(ps[..k]), ps[k], Flatten(ps[k + 1..]);
    assert (a + b + c)[|a| + n..] == b[n..] + c;
  }

  lemma FlattenFront(ps: seq<seq<Byte>>, n: nat)
    requires ps != [] && n <= |ps[0]|
    ensures n <= |Flatten(ps)| && Flatten(ps)[..n] == ps[0][..n]
    ensures Flatten(ps[0 := ps[0][n..]]) == Flatten(ps)[n..]
  {
    assert ps[0 := ps[0][n..]][1..] == ps[1..];
  }

  /** Cutting the bytes `n` into piece `k`. */
  lemma SplitPoint(ps: seq<seq<Byte>>, k: nat, n: nat)
    requires k < |ps| && n <= |ps[k]|
    ensures var d := |Flatten(ps[..k])| + n;
            && d <= |Flatten(ps)| && n <= |Flatten(ps[k..])|
            && Flatten(ps)[..d] == Flatten(ps[..k]) + Flatten(ps[k..])[..n]
            && Flatten(ps)[d..] == Flatten(ps[k..])[n..]
    ensures k == 0 ==> Flatten(ps[..k]) == [] && ps[k..] == ps
  {
    FlattenSplit(ps, k);
    FlattenFront(ps[k..], n);
  }

  /** Bytes `a..b` of piece `k`, found in the whole. */
  lemma FlattenSlice(ps: seq<seq<Byte>>, k: nat, a: nat, b: nat)
    requires k < |ps| && a <= b <= |ps[k]|
    ensures |Flatten(ps[..k])| + b <= |Flatten(ps)|
    ensures Flatten(ps)[|Flatten(ps[..k])| + a..|Flatten(ps[..k])| + b] == ps[k][a..b]
  {
    FlattenAt(ps, k);
  }

  /** Replacing one piece replaces its bytes and no others. */
  lemma FlattenUpdate(ps: seq<seq<Byte>>, k: nat, p: seq<Byte>)
    requires k < |ps|
    ensures Flatten(ps[k := p]) == Flatten(ps[..k]) + p + Flatten(ps[k + 1..])
  {
    var qs := ps[k := p];
    FlattenAt(qs, k);
    assert qs[..k] == ps[..k];
    assert qs[k + 1..] == ps[k + 1..];
  }

  /** When everything after piece `k` is empty, appending to piece `k` appends to the whole. */
  lemma FlattenAppendAt(ps: seq<seq<Byte>>, k: nat, extra: seq<Byte>)
    requires k < |ps| && EmptyFrom(ps, k + 1)
    ensures Flatten(ps[k := ps[k] + extra]) == Flatten(ps) + extra
  {
    FlattenAt(ps, k);
    FlattenUpdate(ps, k, ps[k] + extra);
    FlattenEmpty(ps[k + 1..]);
  }

  /** The same, for a piece `j` that is `k` or comes after it. */
  lemma FlattenAppendAfter(ps: seq<seq<Byte>>, k: nat, j: nat, extra: seq<Byte>)
    requires k <= j < |ps| && EmptyFrom(ps, k + 1)
    ensures Flatten(ps[j := ps[j] + extra]) == Flatten(ps) + extra
  {
    FlattenAppendAt(ps, j, extra);
  }

  lemma FlattenPrependAt(ps: seq<seq<Byte>>, extra: seq<Byte>)
    requires ps != []
    ensures Flatten(ps[0 := extra + ps[0]]) == extra + Flatten(ps)
  {
    assert ps[0 := extra + ps[0]][1..] == ps[1..];
  }

  /** Dropping empty trailing pieces changes nothing. */
  lemma FlattenTruncate(ps: seq<seq<Byte>>, k: nat)
    requires k <= |ps| && EmptyFrom(ps, k)
    ensures Flatten(ps[..k]) == Flatten(ps)
  {
    FlattenSplit(ps, k);
    FlattenEmpty(ps[k..]);
  }

  lemma Assoc(a: seq<Byte>, b: seq<Byte>, c: seq<Byte>)
    ensures (a + b) + c == a + (b + c)
  {}

  lemma AppendInTwo(s: seq<Byte>, d: seq<Byte>, k: nat)
    requires k <= |d|
    ensures s + d == (s + d[..k]) + d[k..]
    ensures k == 0 ==> s + d == s + d[k..]
  {}

  lemma PrependInTwo(s: seq<Byte>, d: seq<Byte>, k: nat)
    requires k <= |d|
    ensures d[0..] + s == d[..k] + (d[k..] + s)
    ensures k == |d| ==> d[0..] + s == d[..k] + s && s == d[k..] + s
  {}
}
