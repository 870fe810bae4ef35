/** Token buckets, which are refilled as ticks go by and emptied as bytes are read and written. */
module TokenBucketModule {
  const UINT32 := 0x1_0000_0000
  const INT_MAX := 0x7fff_ffff
  const SSIZE_MAX := 0x7fff_ffff_ffff_ffff
  const SIZE_MAX := 0xffff_ffff_ffff_ffff

  /** How many bytes a tick adds, and how many the bucket holds. */
  datatype Cfg = Cfg(readRate: nat, readMaximum: nat, writeRate: nat, writeMaximum: nat)

  /** What ev_token_bucket_cfg_new accepts. */
  predicate CfgOk(c: Cfg) {
    && 1 <= c.readRate <= c.readMaximum <= SSIZE_MAX
    && 1 <= c.writeRate <= c.writeMaximum <= SSIZE_MAX
  }

  predicate IsSsize(n: int) {
    -SSIZE_MAX - 1 <= n <= SSIZE_MAX
  }

  function Min(a: int, b: int): int {
    if a <= b then a else b
  }

  /** How many ticks have gone by, as 32-bit counters tell. */
  function TicksSince(last: nat, now: nat): (n: nat)
    ensures n < UINT32
  {
    (now - last) % UINT32
  }

  /** A step of the clock that the bucket takes notice of. */
  predicate Forward(n: nat) {
    0 < n <= INT_MAX
  }

  /** An unsigned 64-bit value. */
  function AsSize(n: int): (r: nat)
    ensures r <= SIZE_MAX
    ensures 0 <= n <= SIZE_MAX ==> r == n
  {
    n % (SIZE_MAX + 1)
  }

  /** The refill as the code computes it: in unsigned 64-bit numbers, and without a product that could overflow. */
  function Refilled(limit: int, maximum: nat, rate: nat, n: nat): int
    requires n > 0
  {
    if AsSize(maximum - limit) / n < rate then maximum else limit + AsSize(n * rate)
  }

  lemma QuotientBelow(a: nat, n: nat, rate: nat)
    requires n > 0
    ensures a / n < rate <==> a < n * rate
  {
    var q, r := a / n, a % n;
    assert a == n * q + r;
    if q < rate {
      assert n * (q + 1) <= n * rate by { MulMono(n, q + 1, rate); }
      assert n * (q + 1) == n * q + n;
    } else {
      assert n * rate <= n * q by { MulMono(n, rate, q); }
    }
  }

  lemma MulMono(n: nat, a: nat, b: nat)
    requires a <= b
    ensures n * a <= n * b
  {
    assert n * b == n * a + n * (b - a);
  }

  /** For any limit that is not above the maximum, negative ones included, the refill adds what the ticks bring, up to
      the maximum. */
  lemma RefillExact(limit: int, maximum: nat, rate: nat, n: nat)
    requires n > 0 && limit <= maximum <= SSIZE_MAX && IsSsize(limit)
    ensures Refilled(limit, maximum, rate, n) == Min(maximum, limit + n * rate)
    ensures limit <= Refilled(limit, maximum, rate, n) <= maximum
  {
    QuotientBelow(maximum - limit, n, rate);
    assert n * rate >= 0;
  }

  /** For a limit above the maximum the refill is not that: it can add what the ticks bring without a bound. */
  lemma RefillAboveMaximum()
    ensures Refilled(11, 10, 1, 5) == 16 && Min(10, 11 + 5 * 1) == 10
  {
    assert AsSize(10 - 11) == SIZE_MAX;
  }

  /** It is exact just when the limit is not above the maximum, or the difference, wrapped around, is still too small. */
  lemma RefillExactWhen(limit: int, maximum: nat, rate: nat, n: nat)
    requires n > 0 && maximum <= SSIZE_MAX && IsSsize(limit)
    ensures Refilled(limit, maximum, rate, n) == Min(maximum, limit + n * rate) <==>
              limit <= maximum || (SIZE_MAX + 1 - (limit - maximum)) / n < rate
  {
    if limit <= maximum {
      RefillExact(limit, maximum, rate, n);
    } else {
      assert n * rate >= 0;
      assert AsSize(maximum - limit) == SIZE_MAX + 1 - (limit - maximum);
    }
  }

  /** A limit as of a tick: what the ticks since the last update bring is added, up to the maximum, if there have been any. */
  function Topped(limit: int, maximum: nat, rate: nat, last: nat, tick: nat): int {
    var n := TicksSince(last, tick);
    if Forward(n) then Min(maximum, limit + n * rate) else limit
  }

  class TokenBucket {
    var readLimit: int
    var writeLimit: int
    var lastUpdated: nat

    /** Neither side is above its maximum. */
    predicate Within(c: Cfg)
      reads this
    {
      && readLimit <= c.readMaximum && writeLimit <= c.writeMaximum
      && IsSsize(readLimit) && IsSsize(writeLimit) && lastUpdated < UINT32
    }

    constructor (c: Cfg, tick: nat)
      requires CfgOk(c) && tick < UINT32
      ensures Within(c) && readLimit == c.readRate && writeLimit == c.writeRate && lastUpdated == tick
    {
      readLimit, writeLimit, lastUpdated := c.readRate, c.writeRate, tick;
    }

    /** Sets the bucket up; when it has been in use, it is only clipped. */
    method Init(c: Cfg, tick: nat, reinitialize: bool)
      requires CfgOk(c) && tick < UINT32 && IsSsize(readLimit) && IsSsize(writeLimit) && lastUpdated < UINT32
      modifies this
      ensures Within(c)
      ensures reinitialize ==> readLimit == Min(old(readLimit), c.readMaximum) && writeLimit == Min(old(writeLimit), c.writeMaximum)
                               && lastUpdated == old(lastUpdated)
      ensures !reinitialize ==> readLimit == c.readRate && writeLimit == c.writeRate && lastUpdated == tick
    {
      if reinitialize {
        if readLimit > c.readMaximum {
          readLimit := c.readMaximum;
        }
        if writeLimit > c.writeMaximum {
          writeLimit := c.writeMaximum;
        }
      } else {
        readLimit, writeLimit, lastUpdated := c.readRate, c.writeRate, tick;
      }
    }

    /** Adds what the ticks since the last update bring, exactly; a clock that has not moved, or has moved back, brings nothing. */
    method Update(c: Cfg, tick: nat) returns (updated: bool)
      requires CfgOk(c) && Within(c) && tick < UINT32
      modifies this
      ensures Within(c)
      ensures updated == Forward(TicksSince(old(lastUpdated), tick))
      ensures readLimit == Topped(old(readLimit), c.readMaximum, c.readRate, old(lastUpdated), tick)
      ensures writeLimit == Topped(old(writeLimit), c.writeMaximum, c.writeRate, old(lastUpdated), tick)
      ensures lastUpdated == if updated then tick else old(lastUpdated)
      ensures readLimit >= old(readLimit) && writeLimit >= old(writeLimit)
    {
      var n := (tick - lastUpdated) % UINT32;
      if n == 0 || n > INT_MAX {
        return false;
      }
      RefillExact(readLimit, c.readMaximum, c.readRate, n);
      RefillExact(writeLimit, c.writeMaximum, c.writeRate, n);
      if AsSize(c.readMaximum - readLimit) / n < c.readRate {
        readLimit := c.readMaximum;
      } else {
        readLimit := readLimit + AsSize(n * c.readRate);
      }
      if AsSize(c.writeMaximum - writeLimit) / n < c.writeRate {
        writeLimit := c.writeMaximum;
      } else {
        writeLimit := writeLimit + AsSize(n * c.writeRate);
      }
      lastUpdated := tick;
      updated := true;
    }
  }

  // How much can be consumed in a window of ticks

  /** One side of a bucket; the tick it was last updated in is counted without wrapping around. */
  datatype Side = Side(limit: int, last: nat)

  /** At tick `at` the bucket is brought up to date, and then `bytes` are consumed: none by a mere refill, and no more
      than the query has granted by a transfer. */
  datatype Use = Use(at: nat, bytes: nat)

  /** The side as of tick `at`, by way of the wrapped counters. */
  function UpTo(s: Side, maximum: nat, rate: nat, at: nat): Side {
    var n := TicksSince(s.last % UINT32, at % UINT32);
    if Forward(n) then Side(Min(maximum, s.limit + n * rate), at) else s
  }

  function Granted(s: Side): nat {
    if s.limit < 0 then 0 else s.limit
  }

  /** The uses follow each other in time, none more than 2^31 - 1 ticks after the last update, and each gets no more than
      it is granted. */
  ghost predicate Legal(s: Side, maximum: nat, rate: nat, uses: seq<Use>)
    decreases |uses|
  {
    uses == [] ||
    (var u := uses[0];
     && s.last <= u.at <= s.last + INT_MAX
     && u.bytes <= Granted(UpTo(s, maximum, rate, u.at))
     && Legal(After(s, maximum, rate, u), maximum, rate, uses[1..]))
  }

  function After(s: Side, maximum: nat, rate: nat, u: Use): Side {
    var s' := UpTo(s, maximum, rate, u.at);
    s'.(limit := s'.limit - u.bytes)
  }

  function Consumed(uses: seq<Use>): nat {
    if uses == [] then 0 else uses[0].bytes + Consumed(uses[1..])
  }

  /** The wrapped counters tell the ticks that have gone by. */
  lemma TicksAreTicks(last: nat, at: nat)
    requires last <= at <= last + INT_MAX
    ensures TicksSince(last % UINT32, at % UINT32) == at - last
  {
    var a, b := last / UINT32, at / UINT32;
    assert last == a * UINT32 + last % UINT32 && at == b * UINT32 + at % UINT32;
    var d := at - last;
    assert at % UINT32 - last % UINT32 == d - (b - a) * UINT32;
    assert 0 <= b - a <= 1;
  }

  /** Seen from the bucket, whose counters wrap around. */
  lemma UpToIsTopped(s: Side, maximum: nat, rate: nat, at: nat)
    requires s.last <= at <= s.last + INT_MAX
    ensures UpTo(s, maximum, rate, at) == Side(Topped(s.limit, maximum, rate, s.last % UINT32, at % UINT32), at)
    ensures Forward(TicksSince(s.last % UINT32, at % UINT32)) || s.last % UINT32 == at % UINT32
  {
    TicksAreTicks(s.last, at);
  }

  /** The bytes consumed since tick `start` and those that are left are covered by a full bucket and what the ticks have brought;
      so they are after one more use. */
  lemma OneUseMore(s: Side, maximum: nat, rate: nat, u: Use, start: nat, consumed: nat, first: bool)
    requires s.limit <= maximum && s.last <= u.at <= s.last + INT_MAX && start <= u.at && u.bytes <= Granted(UpTo(s, maximum, rate, u.at))
    requires if first then consumed == 0 else start <= s.last && consumed + Granted(s) <= maximum + (s.last - start) * rate
    ensures var s' := After(s, maximum, rate, u);
            && s'.last == u.at && s'.limit <= maximum
            && consumed + u.bytes + Granted(s') <= maximum + (u.at - start) * rate
  {
    hide UpTo, After, Granted;
    OneUse(s, maximum, rate, u);
    if first {
      assert (u.at - start) * rate >= 0;
    } else {
      TicksAddUp(s.last - start, u.at - s.last, rate);
    }
  }

  lemma UpToExact(s: Side, maximum: nat, rate: nat, at: nat)
    requires s.limit <= maximum && s.last <= at <= s.last + INT_MAX
    ensures UpTo(s, maximum, rate, at) == Side(Min(maximum, s.limit + (at - s.last) * rate), at)
  {
    TicksAreTicks(s.last, at);
  }

  /** Bringing a side up to date on the way makes no difference. */
  lemma OnTheWay(s: Side, maximum: nat, rate: nat, a: nat, b: nat)
    requires s.limit <= maximum && s.last <= a <= b <= s.last + INT_MAX
    ensures UpTo(UpTo(s, maximum, rate, a), maximum, rate, b) == UpTo(s, maximum, rate, b)
  {
    hide UpTo;
    UpToExact(s, maximum, rate, a);
    UpToExact(s, maximum, rate, b);
    UpToExact(UpTo(s, maximum, rate, a), maximum, rate, b);
    TicksAddUp(a - s.last, b - a, rate);
  }

  /** What one use takes, and what is left, is covered by what was there and what the ticks have brought. */
  lemma OneUse(s: Side, maximum: nat, rate: nat, u: Use)
    requires s.limit <= maximum && s.last <= u.at <= s.last + INT_MAX && u.bytes <= Granted(UpTo(s, maximum, rate, u.at))
    ensures var s' := After(s, maximum, rate, u);
            && s'.last == u.at && s'.limit <= maximum
            && u.bytes + Granted(s') <= Granted(s) + (u.at - s.last) * rate
            && u.bytes + Granted(s') <= maximum
  {
    UpToExact(s, maximum, rate, u.at);
    assert (u.at - s.last) * rate >= 0;
  }

  /** What is consumed up to tick `end` is covered by what the bucket holds at the beginning and what the ticks bring. */
  lemma {:induction false} ConsumedIsCovered(s: Side, maximum: nat, rate: nat, uses: seq<Use>, end: nat)
    requires s.limit <= maximum && Legal(s, maximum, rate, uses) && s.last <= end
    requires forall u :: u in uses ==> u.at <= end
    ensures Consumed(uses) <= Granted(s) + (end - s.last) * rate
    decreases |uses|
  {
    hide After, UpTo, Granted;
    if uses != [] {
      var u := uses[0];
      OneUse(s, maximum, rate, u);
      assert u in uses && forall x :: x in uses[1..] ==> x in uses;
      ConsumedIsCovered(After(s, maximum, rate, u), maximum, rate, uses[1..], end);
      TicksAddUp(u.at - s.last, end - u.at, rate);
    } else {
      assert (end - s.last) * rate >= 0;
    }
  }

  lemma TicksAddUp(a: nat, b: nat, rate: nat)
    ensures (a + b) * rate == a * rate + b * rate && a * rate >= 0 && b * rate >= 0
  {}

  /** In any window of `k` ticks at most `maximum + k * rate` bytes are consumed, however long ago the bucket was last
      updated. */
  lemma WindowBound(s: Side, maximum: nat, rate: nat, uses: seq<Use>, start: nat, k: nat)
    requires s.limit <= maximum && Legal(s, maximum, rate, uses)
    requires forall u :: u in uses ==> start <= u.at <= start + k
    ensures Consumed(uses) <= maximum + k * rate
  {
    hide After, UpTo, Granted;
    if uses != [] {
      var u := uses[0];
      OneUse(s, maximum, rate, u);
      assert u in uses && forall x :: x in uses[1..] ==> x in uses;
      ConsumedIsCovered(After(s, maximum, rate, u), maximum, rate, uses[1..], start + k);
      TicksAddUp(u.at - start, start + k - u.at, rate);
    } else {
      assert k * rate >= 0;
    }
  }
}
