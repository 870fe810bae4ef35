/** The rate limit of one bufferevent: its bucket, the reasons why it is suspended, and the timer that refills the bucket. */
module RateLimit {
  import opened Options
  import opened TokenBucketModule

  /** A reason to suspend reading or writing. */
  datatype Reason = Watermark | Bandwidth | GroupBandwidth | Lookup | FilterRead

  /** Somebody suspends or unsuspends a side. */
  datatype Turn = Suspends(what: Reason) | Unsuspends(what: Reason)

  /** What the last of the turns about a reason has done, if there is one. */
  function LastAbout(turns: seq<Turn>, what: Reason): Option<Turn> {
    if turns == [] then None
    else if turns[|turns| - 1].what == what then Some(turns[|turns| - 1])
    else LastAbout(turns[..|turns| - 1], what)
  }

  /** A reason stands after some turns, if it `stood` before. */
  predicate Stands(turns: seq<Turn>, what: Reason, stood: bool) {
    match LastAbout(turns, what)
    case None => stood
    case Some(turn) => turn.Suspends?
  }

  /** What happens to the reading side, at a tick that is counted without wrapping around: somebody asks how much may be read and
      reads no more than that, or the timer runs out. */
  datatype Call = Reads(at: nat, wanted: nat) | TimerRunsOut(at: nat)

  /** What the calls read, and the side that they leave, when it is only brought up to date by those who ask. */
  function Served(s: Side, maximum: nat, rate: nat, calls: seq<Call>): (r: (seq<nat>, Side))
    ensures |r.0| == |calls|
    decreases |calls|
  {
    if calls == [] then ([], s)
    else
      var before := Served(s, maximum, rate, calls[..|calls| - 1]);
      match calls[|calls| - 1]
      case TimerRunsOut(_) => (before.0 + [0], before.1)
      case Reads(at, wanted) =>
        var most := Granted(UpTo(before.1, maximum, rate, at));
        var bytes := if wanted < most then wanted else most;
        (before.0 + [bytes], After(before.1, maximum, rate, Use(at, bytes)))
  }

  function Sum(bytes: seq<nat>): nat {
    if bytes == [] then 0 else Sum(bytes[..|bytes| - 1]) + bytes[|bytes| - 1]
  }

  /** The calls come one after the other, from tick `start` to tick `end`. */
  predicate InOrder(calls: seq<Call>, start: nat, end: nat) {
    && (forall i :: 0 <= i < |calls| ==> start <= calls[i].at <= end)
    && (forall i, j :: 0 <= i < j < |calls| ==> calls[i].at <= calls[j].at)
  }

  class BufferEvent {
    // What is set is no longer changed: the bucket of this bufferevent
    const limit: TokenBucket
    var cfg: Option<Cfg>
    var refillPending: bool
    var readSuspended: set<Reason>
    var writeSuspended: set<Reason>
    var readEnabled: bool
    var writeEnabled: bool
    // What the backend has been told to do
    var reading: bool
    var writing: bool

    /** The backend reads and writes just when a side is enabled and nobody has a reason against it. */
    predicate Follows()
      reads this
    {
      && reading == (readEnabled && readSuspended == {})
      && writing == (writeEnabled && writeSuspended == {})
    }

    /** No wedge: as long as a side is suspended for want of bandwidth the bucket is to be refilled, and an empty side
        is suspended.  The backend reads and writes just when it may. */
    predicate Sane()
      reads this, limit
    {
      && Follows()
      && match cfg
         case None => Bandwidth !in readSuspended && Bandwidth !in writeSuspended && !refillPending
         case Some(c) =>
           && CfgOk(c) && IsSsize(limit.readLimit) && IsSsize(limit.writeLimit) && limit.lastUpdated < UINT32
           && (Bandwidth in readSuspended || Bandwidth in writeSuspended ==> refillPending)
           && (limit.readLimit <= 0 ==> Bandwidth in readSuspended)
           && (limit.writeLimit <= 0 ==> Bandwidth in writeSuspended)
    }

    /** Besides, the bucket is not above its maxima; only a user who puts bytes back can lift it there. */
    predicate Valid()
      reads this, limit
    {
      Sane() && (cfg.Some? ==> limit.Within(cfg.value))
    }

    constructor ()
      ensures Valid() && fresh(limit) && cfg == None && readSuspended == {} && writeSuspended == {}
    {
      limit := new TokenBucket(Cfg(1, 1, 1, 1), 0);
      cfg, refillPending, readSuspended, writeSuspended := None, false, {}, {};
      readEnabled, writeEnabled, reading, writing := false, false, false, false;
    }

    /** Adds a reason not to read. */
    method SuspendRead(what: Reason)
      modifies this`readSuspended, this`reading
      // this reason now stands, and the others as before; the backend still does what it may, so it has stopped
      ensures forall reason :: reason in readSuspended <==> reason == what || reason in old(readSuspended)
      ensures old(Follows()) ==> Follows() && !reading
      ensures reading == (old(reading) && old(readSuspended) != {})
    {
      if readSuspended == {} {
        reading := false;
      }
      readSuspended := readSuspended + {what};
    }

    /** Takes a reason not to read away, and reads again if it was the last one. */
    method UnsuspendRead(what: Reason)
      modifies this`readSuspended, this`reading
      // this reason no longer stands, and the others as before; the backend still does what it may
      ensures forall reason :: reason in readSuspended <==> reason != what && reason in old(readSuspended)
      ensures old(Follows()) ==> Follows()
      ensures reading == (old(reading) || (readEnabled && readSuspended == {}))
    {
      readSuspended := readSuspended - {what};
      if readSuspended == {} && readEnabled {
        reading := true;
      }
    }

    method SuspendWrite(what: Reason)
      modifies this`writeSuspended, this`writing
      // this reason now stands, and the others as before; the backend still does what it may, so it has stopped
      ensures forall reason :: reason in writeSuspended <==> reason == what || reason in old(writeSuspended)
      ensures old(Follows()) ==> Follows() && !writing
      ensures writing == (old(writing) && old(writeSuspended) != {})
    {
      if writeSuspended == {} {
        writing := false;
      }
      writeSuspended := writeSuspended + {what};
    }

    method UnsuspendWrite(what: Reason)
      modifies this`writeSuspended, this`writing
      // this reason no longer stands, and the others as before; the backend still does what it may
      ensures forall reason :: reason in writeSuspended <==> reason != what && reason in old(writeSuspended)
      ensures old(Follows()) ==> Follows()
      ensures writing == (old(writing) || (writeEnabled && writeSuspended == {}))
    {
      writeSuspended := writeSuspended - {what};
      if writeSuspended == {} && writeEnabled {
        writing := true;
      }
    }

    /** Reasons do not get in each other's way: however often and by whomever reading has been suspended and unsuspended, a reason
        stands when the last turn about it was to suspend, and the backend reads when it is enabled and no reason stands. */
    method TakeReadTurns(turns: seq<Turn>)
      requires Follows()
      modifies this`readSuspended, this`reading
      ensures Follows()
      ensures forall what :: what in readSuspended <==> Stands(turns, what, what in old(readSuspended))
      ensures reading <==> readEnabled && forall what :: !Stands(turns, what, what in old(readSuspended))
    {
      var i := 0;
      while i < |turns|
        invariant 0 <= i <= |turns| && Follows()
        invariant forall what :: what in readSuspended <==> Stands(turns[..i], what, what in old(readSuspended))
        modifies this`readSuspended, this`reading
      {
        assert turns[..i + 1][..i] == turns[..i];
        match turns[i] {
          case Suspends(what) => SuspendRead(what);
          case Unsuspends(what) => UnsuspendRead(what);
        }
        i := i + 1;
      }
      assert turns[..i] == turns;
    }

    /** The same for writing. */
    method TakeWriteTurns(turns: seq<Turn>)
      requires Follows()
      modifies this`writeSuspended, this`writing
      ensures Follows()
      ensures forall what :: what in writeSuspended <==> Stands(turns, what, what in old(writeSuspended))
      ensures writing <==> writeEnabled && forall what :: !Stands(turns, what, what in old(writeSuspended))
    {
      var i := 0;
      while i < |turns|
        invariant 0 <= i <= |turns| && Follows()
        invariant forall what :: what in writeSuspended <==> Stands(turns[..i], what, what in old(writeSuspended))
        modifies this`writeSuspended, this`writing
      {
        assert turns[..i + 1][..i] == turns[..i];
        match turns[i] {
          case Suspends(what) => SuspendWrite(what);
          case Unsuspends(what) => UnsuspendWrite(what);
        }
        i := i + 1;
      }
      assert turns[..i] == turns;
    }

    /** Enables reading, writing or both; a suspended side waits. */
    method Enable(read: bool, write: bool)
      requires Valid()
      modifies this`readEnabled, this`writeEnabled, this`reading, this`writing
      ensures Valid() && readEnabled == (old(readEnabled) || read) && writeEnabled == (old(writeEnabled) || write)
    {
      var implRead, implWrite := read, write;
      if readSuspended != {} {
        implRead := false;
      }
      if writeSuspended != {} {
        implWrite := false;
      }
      readEnabled, writeEnabled := readEnabled || read, writeEnabled || write;
      reading, writing := reading || implRead, writing || implWrite;
    }

    method Disable(read: bool, write: bool)
      requires Valid()
      modifies this`readEnabled, this`writeEnabled, this`reading, this`writing
      ensures Valid() && readEnabled == (old(readEnabled) && !read) && writeEnabled == (old(writeEnabled) && !write)
    {
      readEnabled, writeEnabled := readEnabled && !read, writeEnabled && !write;
      reading, writing := reading && !read, writing && !write;
    }

    /** Takes bytes that have been read out of the bucket. */
    method DecrementReadBuckets(bytes: int)
      requires Sane() && (cfg.Some? ==> IsSsize(limit.readLimit - bytes))
      modifies this`refillPending, this`readSuspended, this`reading, limit`readLimit
      ensures Sane() && (old(Valid()) && (cfg.Some? ==> limit.readLimit <= cfg.value.readMaximum) ==> Valid())
      ensures limit.readLimit == old(limit.readLimit) - if cfg.Some? then bytes else 0
      ensures cfg.Some? ==> (Bandwidth in readSuspended <==> limit.readLimit <= 0)
      ensures readSuspended - {Bandwidth} == old(readSuspended) - {Bandwidth}
    {
      if cfg.Some? {
        limit.readLimit := limit.readLimit - bytes;
        if limit.readLimit <= 0 {
          SuspendRead(Bandwidth);
          refillPending := true;
        } else if Bandwidth in readSuspended {
          if Bandwidth !in writeSuspended {
            refillPending := false;
          }
          UnsuspendRead(Bandwidth);
        }
      }
    }

    /** Takes bytes that have been written out of the bucket. */
    method DecrementWriteBuckets(bytes: int)
      requires Sane() && (cfg.Some? ==> IsSsize(limit.writeLimit - bytes))
      modifies this`refillPending, this`writeSuspended, this`writing, limit`writeLimit
      ensures Sane() && (old(Valid()) && (cfg.Some? ==> limit.writeLimit <= cfg.value.writeMaximum) ==> Valid())
      ensures limit.writeLimit == old(limit.writeLimit) - if cfg.Some? then bytes else 0
      ensures cfg.Some? ==> (Bandwidth in writeSuspended <==> limit.writeLimit <= 0)
      ensures writeSuspended - {Bandwidth} == old(writeSuspended) - {Bandwidth}
    {
      if cfg.Some? {
        limit.writeLimit := limit.writeLimit - bytes;
        if limit.writeLimit <= 0 {
          SuspendWrite(Bandwidth);
          refillPending := true;
        } else if Bandwidth in writeSuspended {
          if Bandwidth !in readSuspended {
            refillPending := false;
          }
          UnsuspendWrite(Bandwidth);
        }
      }
    }

    /** Takes bytes out of the bucket at the user's request, or puts some back. */
    method DecrementReadLimit(decr: int)
      requires Sane() && cfg.Some? && IsSsize(limit.readLimit - decr)
      modifies this`refillPending, this`readSuspended, this`reading, limit`readLimit
      ensures Sane() && (old(Valid()) && limit.readLimit <= cfg.value.readMaximum ==> Valid())
      ensures limit.readLimit == old(limit.readLimit) - decr
      ensures Bandwidth in readSuspended <==> limit.readLimit <= 0 || (Bandwidth in old(readSuspended) && old(limit.readLimit) > 0)
      ensures readSuspended - {Bandwidth} == old(readSuspended) - {Bandwidth}
    {
      var oldLimit := limit.readLimit;
      limit.readLimit := limit.readLimit - decr;
      var newLimit := limit.readLimit;
      if oldLimit > 0 && newLimit <= 0 {
        SuspendRead(Bandwidth);
        refillPending := true;
      } else if oldLimit <= 0 && newLimit > 0 {
        if Bandwidth !in writeSuspended {
          refillPending := false;
        }
        UnsuspendRead(Bandwidth);
      }
    }

    /** Takes bytes out of the bucket at the user's request, or puts some back. */
    method DecrementWriteLimit(decr: int)
      requires Sane() && cfg.Some? && IsSsize(limit.writeLimit - decr)
      modifies this`refillPending, this`writeSuspended, this`writing, limit`writeLimit
      ensures Sane() && (old(Valid()) && limit.writeLimit <= cfg.value.writeMaximum ==> Valid())
      ensures limit.writeLimit == old(limit.writeLimit) - decr
      ensures Bandwidth in writeSuspended <==> limit.writeLimit <= 0 || (Bandwidth in old(writeSuspended) && old(limit.writeLimit) > 0)
      ensures writeSuspended - {Bandwidth} == old(writeSuspended) - {Bandwidth}
    {
      var oldLimit := limit.writeLimit;
      limit.writeLimit := limit.writeLimit - decr;
      var newLimit := limit.writeLimit;
      if oldLimit > 0 && newLimit <= 0 {
        SuspendWrite(Bandwidth);
        refillPending := true;
      } else if oldLimit <= 0 && newLimit > 0 {
        if Bandwidth !in readSuspended {
          refillPending := false;
        }
        UnsuspendWrite(Bandwidth);
      }
    }

    /** Brings the bucket up to date, if there is one; the result is how much may be read or written by its leave.  Without a
        bucket that is the most for a single read or write, which does not matter otherwise. */
    method QueryLimit(isWrite: bool, maxSingle: nat, tick: nat) returns (most: nat)
      requires Valid() && tick < UINT32
      modifies limit
      ensures Valid()
      ensures most == if cfg == None then maxSingle else var l := if isWrite then limit.writeLimit else limit.readLimit; if l < 0 then 0 else l
      ensures cfg == None ==> limit.readLimit == old(limit.readLimit) && limit.writeLimit == old(limit.writeLimit)
      ensures cfg.Some? ==>
              var c, last := cfg.value, old(limit.lastUpdated);
              && limit.readLimit == Topped(old(limit.readLimit), c.readMaximum, c.readRate, last, tick)
              && limit.writeLimit == Topped(old(limit.writeLimit), c.writeMaximum, c.writeRate, last, tick)
              && limit.lastUpdated == if Forward(TicksSince(last, tick)) then tick else last
    {
      var maxSoFar: int := maxSingle;
      if cfg.Some? {
        if tick != limit.lastUpdated {
          var _ := limit.Update(cfg.value, tick);
        }
        maxSoFar := if isWrite then limit.writeLimit else limit.readLimit;
      }
      if maxSoFar < 0 {
        maxSoFar := 0;
      }
      most := maxSoFar;
    }

    /** The timer has run out: refills the bucket, and waits for another tick if a side is still empty. */
    method RefillCallback(tick: nat)
      requires Valid() && refillPending && tick < UINT32
      modifies this`refillPending, this`readSuspended, this`reading, this`writeSuspended, this`writing, limit
      ensures Valid()
      ensures cfg.Some? ==>
                && (Bandwidth in readSuspended <==> Bandwidth in old(readSuspended) && limit.readLimit <= 0)
                && (Bandwidth in writeSuspended <==> Bandwidth in old(writeSuspended) && limit.writeLimit <= 0)
                && (refillPending <==> Bandwidth in readSuspended || Bandwidth in writeSuspended)
      ensures cfg.Some? ==>
                var c, last := cfg.value, old(limit.lastUpdated);
                && limit.readLimit == Topped(old(limit.readLimit), c.readMaximum, c.readRate, last, tick)
                && limit.writeLimit == Topped(old(limit.writeLimit), c.writeMaximum, c.writeRate, last, tick)
                && limit.lastUpdated == if Forward(TicksSince(last, tick)) then tick else last
    {
      refillPending := false;
      var again := false;
      if cfg == None {
        return;
      }
      var _ := limit.Update(cfg.value, tick);
      if Bandwidth in readSuspended {
        if limit.readLimit > 0 {
          UnsuspendRead(Bandwidth);
        } else {
          again := true;
        }
      }
      if Bandwidth in writeSuspended {
        if limit.writeLimit > 0 {
          UnsuspendWrite(Bandwidth);
        } else {
          again := true;
        }
      }
      if again {
        refillPending := true;
      }
    }

    /** Sets, changes or removes the rate limit.  `same` tells that it is the one that is set. */
    method SetRateLimit(c: Option<Cfg>, same: bool, tick: nat)
      requires Valid() && (c.Some? ==> CfgOk(c.value)) && tick < UINT32
      requires IsSsize(limit.readLimit) && IsSsize(limit.writeLimit) && limit.lastUpdated < UINT32
      requires same ==> c.Some? && cfg == c
      modifies this`cfg, this`refillPending, this`readSuspended, this`reading, this`writeSuspended, this`writing, limit
      ensures Valid() && cfg == c
      ensures c.Some? && !same ==>
                && (Bandwidth in readSuspended <==> limit.readLimit <= 0)
                && (Bandwidth in writeSuspended <==> limit.writeLimit <= 0)
                && (refillPending <==> limit.readLimit <= 0 || limit.writeLimit <= 0)
                // a bucket that has been in use is only clipped
                && limit.readLimit == (if old(cfg).Some? then Min(old(limit.readLimit), c.value.readMaximum) else c.value.readRate)
                && limit.writeLimit == (if old(cfg).Some? then Min(old(limit.writeLimit), c.value.writeMaximum) else c.value.writeRate)
      ensures c == None || same ==> limit.readLimit == old(limit.readLimit) && limit.writeLimit == old(limit.writeLimit)
      ensures same ==> readSuspended == old(readSuspended) && writeSuspended == old(writeSuspended) && refillPending == old(refillPending)
      ensures readSuspended - {Bandwidth} == old(readSuspended) - {Bandwidth}
      ensures writeSuspended - {Bandwidth} == old(writeSuspended) - {Bandwidth}
    {
      if c == None {
        cfg := None;
        UnsuspendRead(Bandwidth);
        UnsuspendWrite(Bandwidth);
        refillPending := false;
        return;
      }
      if same {
        return;
      }
      var suspended := false;
      var reinit := cfg.Some?;
      cfg := c;
      limit.Init(c.value, tick, reinit);
      if reinit {
        refillPending := false;
      }
      if limit.readLimit > 0 {
        UnsuspendRead(Bandwidth);
      } else {
        SuspendRead(Bandwidth);
        suspended := true;
      }
      if limit.writeLimit > 0 {
        UnsuspendWrite(Bandwidth);
      } else {
        SuspendWrite(Bandwidth);
        suspended := true;
      }
      if suspended {
        refillPending := true;
      }
    }

    /** Each call reads what it asks for as far as there is that much in the bucket, brought up to date; the timer makes no difference
        to that.  And in any window of `k` ticks at most `maximum + k * rate` bytes are read, whatever has happened before: the
        bucket was last updated at tick `last`. */
    method ReadInWindow(calls: seq<Call>, start: nat, k: nat, last: nat) returns (read: seq<nat>)
      requires Valid() && cfg.Some? && limit.lastUpdated == last % UINT32 && IsSsize(limit.readLimit)
      requires last <= start && start + k <= last + INT_MAX && InOrder(calls, start, start + k)
      modifies this`refillPending, this`readSuspended, this`reading, this`writeSuspended, this`writing, limit
      ensures Valid() && cfg == old(cfg)
      ensures read == Served(Side(old(limit.readLimit), last), cfg.value.readMaximum, cfg.value.readRate, calls).0
      ensures Sum(read) <= cfg.value.readMaximum + k * cfg.value.readRate
    {
      hide UpTo, After, Topped, InOrder, Served, Granted;
      read := [];
      ghost var c, s := cfg.value, Side(limit.readLimit, last);
      ghost var s0, lazy := s, s;
      NothingServed(s, c.readMaximum, c.readRate);
      CallsInOrder(calls, start, start + k);
      var i := 0;
      while i < |calls|
        invariant 0 <= i <= |calls| && Valid() && cfg == Some(c) && |read| == i && Is(s) && last <= s.last <= start + k
        invariant forall j :: i <= j < |calls| ==> s.last <= calls[j].at
        invariant AsIf(s, lazy, c.readMaximum, c.readRate, s0, calls[..i], read)
        decreases |calls| - i
      {
        CallInOrder(calls, start, start + k, i);
        var bytes;
        ghost var s';
        bytes, s' := Take(calls[i], s);
        lazy := NextServed(s, lazy, c.readMaximum, c.readRate, s0, calls, i, read, bytes, s');
        s, read, i := s', read + [bytes], i + 1;
      }
      assert calls[..i] == calls;
      ServedBound(s0, c.readMaximum, c.readRate, calls, start, k);
    }

    /** The reading side of the bucket, with a tick that is counted without wrapping around. */
    ghost predicate Is(s: Side)
      reads limit
    {
      s.limit == limit.readLimit && limit.lastUpdated == s.last % UINT32 && IsSsize(s.limit)
    }

    /** Takes one call. */
    method Take(call: Call, ghost s: Side) returns (bytes: nat, ghost s': Side)
      requires Valid() && cfg.Some? && Is(s) && s.last <= call.at <= s.last + INT_MAX
      modifies this`refillPending, this`readSuspended, this`reading, this`writeSuspended, this`writing, limit
      ensures Valid() && cfg == old(cfg) && Is(s')
      ensures var c := cfg.value;
              var now := UpTo(s, c.readMaximum, c.readRate, call.at);
              match call
              case Reads(at, wanted) =>
                bytes == (if wanted < Granted(now) then wanted else Granted(now)) && s' == After(s, c.readMaximum, c.readRate, Use(at, bytes))
              case TimerRunsOut(_) => bytes == 0 && s' in {s, now}
    {
      hide UpTo, After, Topped;
      var c := cfg.value;
      UpToIsTopped(s, c.readMaximum, c.readRate, call.at);
      UpToExact(s, c.readMaximum, c.readRate, call.at);
      bytes, s' := 0, s;
      match call {
        case Reads(at, wanted) =>
          var most := QueryLimit(false, 0, at % UINT32);
          bytes := if wanted < most then wanted else most;
          DecrementReadBuckets(bytes);
          AfterIs(s, c.readMaximum, c.readRate, Use(at, bytes));
          s' := After(s, c.readMaximum, c.readRate, Use(at, bytes));
        case TimerRunsOut(at) =>
          if refillPending {
            RefillCallback(at % UINT32);
            s' := UpTo(s, c.readMaximum, c.readRate, at);
          }
      }
    }
  }

  /** The side is as if it had only been brought up to date by those who ask, up to now. */
  ghost predicate AsIf(s: Side, lazy: Side, maximum: nat, rate: nat, s0: Side, calls: seq<Call>, read: seq<nat>) {
    && (read, lazy) == Served(s0, maximum, rate, calls)
    && s0.last <= lazy.last <= s.last && lazy.limit <= maximum && s.limit <= maximum && s == UpTo(lazy, maximum, rate, s.last)
  }

  lemma NothingServed(s: Side, maximum: nat, rate: nat)
    requires s.limit <= maximum
    ensures AsIf(s, s, maximum, rate, s, [], [])
  {
    UpToExact(s, maximum, rate, s.last);
  }

  lemma NextServed(s: Side, lazy: Side, maximum: nat, rate: nat, s0: Side, calls: seq<Call>, i: nat, read: seq<nat>, bytes: nat, s': Side)
    returns (lazy': Side)
    requires i < |calls| && AsIf(s, lazy, maximum, rate, s0, calls[..i], read)
    requires s.last <= calls[i].at <= s0.last + INT_MAX
    requires var now := UpTo(s, maximum, rate, calls[i].at);
             match calls[i]
             case Reads(at, wanted) =>
               bytes == (if wanted < Granted(now) then wanted else Granted(now)) && s' == After(s, maximum, rate, Use(at, bytes))
             case TimerRunsOut(_) => bytes == 0 && s' in {s, now}
    ensures AsIf(s', lazy', maximum, rate, s0, calls[..i + 1], read + [bytes]) && s.last <= s'.last <= calls[i].at
  {
    hide UpTo;
    var at := calls[i].at;
    assert calls[..i + 1][..i] == calls[..i];
    OnTheWay(lazy, maximum, rate, s.last, at);
    UpToExact(s, maximum, rate, at);
    lazy' := lazy;
    if calls[i].Reads? {
      lazy' := s';
      UpToExact(s', maximum, rate, at);
    }
  }

  lemma CallsInOrder(calls: seq<Call>, start: nat, end: nat)
    requires InOrder(calls, start, end)
    ensures forall i :: 0 <= i < |calls| ==> start <= calls[i].at
  {}

  lemma CallInOrder(calls: seq<Call>, start: nat, end: nat, i: nat)
    requires InOrder(calls, start, end) && i < |calls|
    ensures start <= calls[i].at <= end && forall j :: i < j < |calls| ==> calls[i].at <= calls[j].at
  {}

  lemma AfterIs(s: Side, maximum: nat, rate: nat, u: Use)
    ensures After(s, maximum, rate, u) == UpTo(s, maximum, rate, u.at).(limit := UpTo(s, maximum, rate, u.at).limit - u.bytes)
  {}

  /** What the calls of a window read is bounded by the maximum and what the ticks of the window bring. */
  lemma ServedBound(s: Side, maximum: nat, rate: nat, calls: seq<Call>, start: nat, k: nat)
    requires s.limit <= maximum && s.last <= start && start + k <= s.last + INT_MAX && InOrder(calls, start, start + k)
    ensures Sum(Served(s, maximum, rate, calls).0) <= maximum + k * rate
  {
    hide Served;
    ServedSoFar(s, maximum, rate, calls, start, k);
    var after := Served(s, maximum, rate, calls).1;
    if after.last >= start {
      TicksAddUp(after.last - start, start + k - after.last, rate);
    }
    assert k * rate >= 0;
  }

  /** Nothing has been consumed since tick `start`; or what has been and what is left is covered by a full bucket and the ticks that have
      gone by. */
  ghost predicate Covered(s: Side, consumed: nat, maximum: nat, rate: nat, start: nat) {
    consumed == 0 || (start <= s.last && consumed + Granted(s) <= maximum + (s.last - start) * rate)
  }

  lemma CoveredNone(s: Side, maximum: nat, rate: nat, start: nat)
    ensures Covered(s, 0, maximum, rate, start)
  {}

  lemma CoveredMore(s: Side, maximum: nat, rate: nat, u: Use, start: nat, consumed: nat)
    requires s.limit <= maximum && s.last <= u.at <= s.last + INT_MAX && start <= u.at && u.bytes <= Granted(UpTo(s, maximum, rate, u.at))
    requires Covered(s, consumed, maximum, rate, start)
    ensures var s' := After(s, maximum, rate, u);
            s'.last == u.at && s'.limit <= maximum && Covered(s', consumed + u.bytes, maximum, rate, start)
  {
    hide UpTo, After, Granted;
    OneUseMore(s, maximum, rate, u, start, consumed, consumed == 0);
  }

  lemma {:induction false} ServedSoFar(s: Side, maximum: nat, rate: nat, calls: seq<Call>, start: nat, k: nat)
    requires s.limit <= maximum && s.last <= start && start + k <= s.last + INT_MAX && InOrder(calls, start, start + k)
    ensures var (read, after) := Served(s, maximum, rate, calls);
            && after.limit <= maximum && s.last <= after.last <= start + k
            && (calls != [] ==> after.last <= calls[|calls| - 1].at)
            && Covered(after, Sum(read), maximum, rate, start)
    decreases |calls|
  {
    hide UpTo, After, Granted, Covered;
    CoveredNone(s, maximum, rate, start);
    if calls != [] {
      var front, call := calls[..|calls| - 1], calls[|calls| - 1];
      ServedSoFar(s, maximum, rate, front, start, k);
      var (read, after) := Served(s, maximum, rate, front);
      if call.Reads? {
        var most := Granted(UpTo(after, maximum, rate, call.at));
        var bytes := if call.wanted < most then call.wanted else most;
        CoveredMore(after, maximum, rate, Use(call.at, bytes), start, Sum(read));
        assert (read + [bytes])[..|read|] == read;
      } else {
        assert (read + [0])[..|read|] == read;
      }
    }
  }
}
