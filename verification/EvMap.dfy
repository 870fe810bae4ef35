/** The map from file descriptors to the events that watch them, and the list of changes that the kernel has yet to be told of. */
module EvMapModule {
  import opened Options
  import opened EpollTable

  const MAX_EVENTS_PER_FD := 0xffff
  const INT_MAX := 0x7fff_ffff
  // The width of an entry of the map, a pointer
  const ENTRY_SIZE := 8

  datatype Ev = Ev(id: nat, events: Interest)

  /** What is known of a file descriptor: its events, how many of them want what, and the place of its pending change,
      counted from one, or zero. */
  datatype Io = Io(events: seq<Ev>, nread: nat, nwrite: nat, nclose: nat, idxplus1: nat)

  const EMPTY := Io([], 0, 0, 0, 0)

  datatype Kind = Read | Write | Closed

  function Wants(i: Interest, k: Kind): bool {
    match k
    case Read => i.read
    case Write => i.write
    case Closed => i.closed
  }

  /** How many of the events want `k`. */
  function CountOf(events: seq<Ev>, k: Kind): nat {
    if events == [] then 0 else CountOf(events[1..], k) + if Wants(events[0].events, k) then 1 else 0
  }

  ghost predicate Unique(events: seq<Ev>) {
    forall i, j :: 0 <= i < j < |events| ==> events[i].id != events[j].id
  }

  /** The counters agree with the list. */
  ghost predicate Counted(io: Io) {
    && Unique(io.events)
    && io.nread == CountOf(io.events, Read) <= MAX_EVENTS_PER_FD
    && io.nwrite == CountOf(io.events, Write) <= MAX_EVENTS_PER_FD
    && io.nclose == CountOf(io.events, Closed) <= MAX_EVENTS_PER_FD
  }

  /** What the counters say is wanted. */
  function Current(io: Io): Interest {
    Interest(io.nread > 0, io.nwrite > 0, io.nclose > 0)
  }

  /** Something is wanted exactly if some event wants it. */
  lemma {:induction false} CountMeaning(events: seq<Ev>, k: Kind)
    ensures CountOf(events, k) > 0 <==> exists i :: 0 <= i < |events| && Wants(events[i].events, k)
  {
    if events != [] {
      CountMeaning(events[1..], k);
      if CountOf(events[1..], k) > 0 {
        var i :| 0 <= i < |events[1..]| && Wants(events[1..][i].events, k);
        assert Wants(events[i + 1].events, k);
      } else {
        forall i | 0 < i < |events|
          ensures !Wants(events[i].events, k)
        {
          assert !Wants(events[1..][i - 1].events, k);
        }
      }
    }
  }

  function Without(events: seq<Ev>, e: Ev): seq<Ev> {
    if events == [] then [] else if events[0] == e then events[1..] else [events[0]] + Without(events[1..], e)
  }

  lemma {:induction false} WithoutMeaning(events: seq<Ev>, e: Ev, k: Kind)
    requires Unique(events) && e in events
    ensures CountOf(Without(events, e), k) == CountOf(events, k) - (if Wants(e.events, k) then 1 else 0)
    ensures forall x :: x in Without(events, e) <==> x in events && x != e
    ensures Unique(Without(events, e))
  {
    if events[0] == e {
      assert forall x :: x in events <==> x == events[0] || x in events[1..];
      assert e !in events[1..];
    } else {
      WithoutMeaning(events[1..], e, k);
      var rest := Without(events[1..], e);
      assert forall x :: x in events <==> x == events[0] || x in events[1..];
      forall i | 0 <= i < |rest|
        ensures rest[i].id != events[0].id
      {
        assert rest[i] in events[1..];
      }
    }
  }

  // The changes, and where they are found

  function Watched(kernel: map<int, Interest>, fd: int): Interest {
    if fd in kernel then kernel[fd] else NOTHING
  }

  /** Slots and changes refer to each other. */
  ghost predicate Indexed(entries: seq<Option<Io>>, changes: seq<Change>) {
    && (forall fd :: 0 <= fd < |entries| && entries[fd].Some? && entries[fd].value.idxplus1 > 0 ==>
          entries[fd].value.idxplus1 <= |changes| && changes[entries[fd].value.idxplus1 - 1].fd == fd)
    && (forall i :: 0 <= i < |changes| ==> At(entries, changes[i].fd, i + 1))
  }

  ghost predicate At(entries: seq<Option<Io>>, fd: int, idxplus1: nat) {
    0 <= fd < |entries| && entries[fd].Some? && entries[fd].value.idxplus1 == idxplus1
  }

  /** What is pending for a slot will leave the kernel watching what is wanted. */
  ghost predicate InStep(io: Io, changes: seq<Change>, watched: Interest) {
    if io.idxplus1 == 0 then watched == Current(io)
    else io.idxplus1 <= |changes| &&
         var c := changes[io.idxplus1 - 1];
         c.oldEvents == watched && Reducible(c) && Wanted(c) == Current(io)
  }

  ghost predicate AllInStep(entries: seq<Option<Io>>, changes: seq<Change>, kernel: map<int, Interest>) {
    && (forall fd :: 0 <= fd < |entries| && entries[fd].Some? ==>
          Counted(entries[fd].value) && InStep(entries[fd].value, changes, Watched(kernel, fd)))
    && (forall fd :: fd in kernel && kernel[fd] != NOTHING ==> 0 <= fd < |entries| && entries[fd].Some?)
  }

  function ListedIn(entries: seq<Option<Io>>, fd: int): seq<Ev> {
    if 0 <= fd < |entries| && entries[fd].Some? then entries[fd].value.events else []
  }

  /** What may be done to the map; an event is added only when it is not there, and deleted only when it is. */
  datatype Step = Adds(fd: int, ev: Ev) | Deletes(fd: int, ev: Ev)

  predicate IdListed(events: seq<Ev>, id: nat) {
    if events == [] then false else events[0].id == id || IdListed(events[1..], id)
  }

  lemma {:induction false} IdListedMeans(events: seq<Ev>, id: nat)
    ensures IdListed(events, id) <==> exists x :: x in events && x.id == id
  {
    if events != [] {
      IdListedMeans(events[1..], id);
      if IdListed(events, id) {
        if events[0].id == id {
          assert events[0] in events;
        } else {
          var x :| x in events[1..] && x.id == id;
          assert x in events;
        }
      } else {
        assert forall x :: x in events ==> x == events[0] || x in events[1..];
      }
    }
  }

  /** Counts one more event; `res` is what has come to be wanted. */
  method CountUp(io: Io, e: Interest) returns (nread: nat, nwrite: nat, nclose: nat, res: Interest)
    ensures nread == io.nread + One(e.read) && nwrite == io.nwrite + One(e.write) && nclose == io.nclose + One(e.closed)
    ensures res == Gained(io, e)
  {
    nread, nwrite, nclose, res := io.nread, io.nwrite, io.nclose, NOTHING;
    if e.read {
      nread := nread + 1;
      if nread == 1 {
        res := res.(read := true);
      }
    }
    if e.write {
      nwrite := nwrite + 1;
      if nwrite == 1 {
        res := res.(write := true);
      }
    }
    if e.closed {
      nclose := nclose + 1;
      if nclose == 1 {
        res := res.(closed := true);
      }
    }
  }

  /** Counts one event less; `res` is what is no longer wanted. */
  method CountDown(io: Io, e: Interest) returns (nread: nat, nwrite: nat, nclose: nat, res: Interest)
    requires (e.read ==> io.nread > 0) && (e.write ==> io.nwrite > 0) && (e.closed ==> io.nclose > 0)
    ensures nread == io.nread - One(e.read) && nwrite == io.nwrite - One(e.write) && nclose == io.nclose - One(e.closed)
    ensures res == Lost(io, e)
  {
    nread, nwrite, nclose, res := io.nread, io.nwrite, io.nclose, NOTHING;
    if e.read {
      nread := nread - 1;
      if nread == 0 {
        res := res.(read := true);
      }
    }
    if e.write {
      nwrite := nwrite - 1;
      if nwrite == 0 {
        res := res.(write := true);
      }
    }
    if e.closed {
      nclose := nclose - 1;
      if nclose == 0 {
        res := res.(closed := true);
      }
    }
  }

  class EvMap {
    var entries: seq<Option<Io>>
    var changes: seq<Change>
    // The capacity of the array of changes
    var changesSize: nat
    // What the kernel watches
    var kernel: map<int, Interest>

    ghost predicate Valid()
      reads this
    {
      && Indexed(entries, changes) && AllInStep(entries, changes, kernel)
      && |changes| <= changesSize
    }

    /** The events that are watching a file descriptor. */
    ghost function Listed(fd: int): seq<Ev>
      reads this`entries
    {
      ListedIn(entries, fd)
    }

    constructor ()
      ensures Valid() && forall fd :: Listed(fd) == []
    {
      entries, changes, changesSize, kernel := [], [], 0, map[];
    }

    /** Makes room for a slot by doubling the array. */
    method MakeSpace(slot: nat) returns (ok: bool)
      requires Valid()
      modifies this`entries
      ensures Valid() && forall fd :: ListedIn(entries, fd) == ListedIn(old(entries), fd)
      ensures ok ==> slot < |entries|
      ensures !ok ==> slot > INT_MAX / 16 && entries == old(entries)
    {
      hide Indexed, AllInStep;
      if |entries| <= slot {
        var n := if |entries| > 0 then |entries| else 32;
        if slot > INT_MAX / 2 {
          return false;
        }
        while n <= slot
          invariant n >= |entries| && n > 0 && (n <= 2 * slot || n == 32 || n == |entries|)
          decreases slot - n
        {
          n := n * 2;
        }
        if n > INT_MAX / ENTRY_SIZE {
          return false;
        }
        Grown(entries, n - |entries|, changes, kernel);
        entries := entries + seq(n - |entries|, _ => None);
      }
      ok := true;
    }

    /** Finds the pending change of a slot, or makes a new one. */
    method GetOrConstruct(fd: nat, oldEvents: Interest) returns (idx: nat)
      requires Indexed(entries, changes) && fd < |entries| && entries[fd].Some? && |changes| <= changesSize
      modifies this`entries, this`changes, this`changesSize
      ensures |changes| <= changesSize && idx < |changes|
      ensures Recorded(old(entries), old(changes), fd, idx + 1, changes)
      ensures entries == old(entries)[fd := Some(old(entries)[fd].value.(idxplus1 := idx + 1))]
      ensures if old(entries)[fd].value.idxplus1 == 0 then
                idx == |old(changes)| && changes == old(changes) + [Change(fd, oldEvents, Keep, Keep, Keep)]
              else
                idx + 1 == old(entries)[fd].value.idxplus1 && changes == old(changes)
    {
      if entries[fd].value.idxplus1 == 0 {
        assert |changes| <= changesSize;
        if |changes| == changesSize {
          changesSize := if changesSize < 64 then 64 else changesSize * 2;
        }
        idx := |changes|;
        changes := changes + [Change(fd, oldEvents, Keep, Keep, Keep)];
        entries := entries[fd := Some(entries[fd].value.(idxplus1 := idx + 1))];
      } else {
        idx := entries[fd].value.idxplus1 - 1;
        assert changes[idx].fd == fd;
      }
    }

    /** Records that `events` are to be watched from now on. */
    method ChangelistAdd(fd: nat, oldEvents: Interest, events: Interest) returns (idx: nat)
      requires Indexed(entries, changes) && fd < |entries| && entries[fd].Some? && |changes| <= changesSize
      modifies this`entries, this`changes, this`changesSize
      ensures |changes| <= changesSize && idx < |changes| && Recorded(old(entries), old(changes), fd, idx + 1, changes)
      ensures entries == old(entries)[fd := Some(old(entries)[fd].value.(idxplus1 := idx + 1))]
      ensures changes[idx] == Adding(Pending(old(entries), old(changes), fd, oldEvents), events)
    {
      idx := GetOrConstruct(fd, oldEvents);
      var c := changes[idx];
      if events.read {
        c := c.(read := Set);
      }
      if events.write {
        c := c.(write := Set);
      }
      if events.closed {
        c := c.(closed := Set);
      }
      changes := changes[idx := c];
    }

    /** Records that `events` are no longer to be watched; what the kernel does not watch yet need not be given up. */
    method ChangelistDel(fd: nat, oldEvents: Interest, events: Interest) returns (idx: nat)
      requires Indexed(entries, changes) && fd < |entries| && entries[fd].Some? && |changes| <= changesSize
      modifies this`entries, this`changes, this`changesSize
      ensures |changes| <= changesSize && idx < |changes| && Recorded(old(entries), old(changes), fd, idx + 1, changes)
      ensures entries == old(entries)[fd := Some(old(entries)[fd].value.(idxplus1 := idx + 1))]
      ensures changes[idx] == Removing(Pending(old(entries), old(changes), fd, oldEvents), events)
    {
      idx := GetOrConstruct(fd, oldEvents);
      var c := changes[idx];
      if events.read {
        c := c.(read := if c.oldEvents.read then Unset else Keep);
      }
      if events.write {
        c := c.(write := if c.oldEvents.write then Unset else Keep);
      }
      if events.closed {
        c := c.(closed := if c.oldEvents.closed then Unset else Keep);
      }
      changes := changes[idx := c];
    }

    /** Makes sure that there is a slot for a file descriptor. */
    method MakeSlot(fd: nat) returns (ok: bool)
      requires Valid()
      modifies this`entries
      ensures Valid() && forall x :: ListedIn(entries, x) == ListedIn(old(entries), x)
      ensures ok ==> fd < |entries| && entries[fd].Some?
      ensures !ok ==> fd > INT_MAX / 16
    {
      hide Indexed, AllInStep;
      if fd >= |entries| {
        ok := MakeSpace(fd);
        if !ok {
          return;
        }
      }
      if entries[fd] == None {
        EmptySlot(entries, changes, kernel, fd);
        entries := entries[fd := Some(EMPTY)];
      }
      ok := true;
    }

    /** Lets an event watch a file descriptor.  The result is -1 on failure, 1 if what is wanted has changed, else 0. */
    method Add(fd: int, ev: Ev) returns (result: int)
      requires Valid() && forall x :: x in Listed(fd) ==> x.id != ev.id
      modifies this`entries, this`changes, this`changesSize
      ensures Valid()
      ensures forall x :: ListedIn(entries, x) ==
                          (if x == fd && 0 <= fd && result != -1 then [ev] else []) + ListedIn(old(entries), x)
      ensures fd < 0 ==> result == 0
      ensures result == -1 ==> fd > INT_MAX / 16 || |old(Listed(fd))| >= MAX_EVENTS_PER_FD
      ensures 0 <= fd && result != -1 ==> (result == 1 <==> Interests(Listed(fd)) != Interests(old(Listed(fd))))
    {
      hide Indexed, AllInStep;
      if fd < 0 {
        return 0;
      }
      var ok := MakeSlot(fd);
      if !ok {
        return -1;
      }
      result := AddToSlot(fd, ev);
    }

    method AddToSlot(fd: nat, ev: Ev) returns (result: int)
      requires Valid() && fd < |entries| && entries[fd].Some? && forall x :: x in Listed(fd) ==> x.id != ev.id
      modifies this`entries, this`changes, this`changesSize
      ensures Valid()
      ensures forall x :: ListedIn(entries, x) == (if x == fd && result != -1 then [ev] else []) + ListedIn(old(entries), x)
      ensures result == -1 ==> |old(Listed(fd))| >= MAX_EVENTS_PER_FD
      ensures result != -1 ==> (result == 1 <==> Interests(Listed(fd)) != Interests(old(Listed(fd))))
    {
      hide Indexed, AllInStep, Counted, InStep, Recorded, Pending, Adding, Interests, Gained;
      var io := entries[fd].value;
      SlotAt(entries, changes, kernel, fd);
      var before := Interest(io.nread > 0, io.nwrite > 0, io.nclose > 0);
      var nread, nwrite, nclose, res := CountUp(io, ev.events);
      if nread > 0xffff || nwrite > 0xffff || nclose > 0xffff {
        TooMany(io, ev);
        return -1;
      }
      ghost var es, cs := entries, changes;
      result := 0;
      if res != NOTHING {
        var _ := ChangelistAdd(fd, before, res);
        result := 1;
      } else {
        RecordedSame(es, cs, fd);
      }
      var io' := Io([ev] + io.events, nread, nwrite, nclose, entries[fd].value.idxplus1);
      AddedInStep(es, cs, Watched(kernel, fd), fd, ev, io', changes);
      OneSlot(es, cs, kernel, fd, io', changes);
      GainedMeans(io, ev, io');
      assert entries[fd := Some(io')] == es[fd := Some(io')];
      entries := entries[fd := Some(io')];
    }

    /** Lets an event that watches a file descriptor no longer do so.  The result is -1 if no event has ever watched one so
        large, 1 if what is wanted has changed, else 0. */
    method Del(fd: int, ev: Ev) returns (result: int)
      requires Valid() && (0 <= fd < |entries| ==> ev in Listed(fd))
      modifies this`entries, this`changes, this`changesSize
      ensures Valid() && (fd < 0 ==> result == 0) && (result == -1 <==> fd >= |old(entries)|)
      ensures forall x :: ListedIn(entries, x) == if x == fd && 0 <= fd then Without(ListedIn(old(entries), x), ev) else ListedIn(old(entries), x)
      ensures 0 <= fd ==> (result == 1 <==> Interests(Listed(fd)) != Interests(old(Listed(fd))))
    {
      hide Indexed, AllInStep, Counted, InStep, Recorded, Pending, Removing, Interests, Lost;
      if fd < 0 {
        return 0;
      }
      if fd >= |entries| {
        return -1;
      }
      var io := entries[fd].value;
      SlotAt(entries, changes, kernel, fd);
      CountedListed(io, ev);
      var before := Interest(io.nread > 0, io.nwrite > 0, io.nclose > 0);
      var nread, nwrite, nclose, res := CountDown(io, ev.events);
      ghost var es, cs := entries, changes;
      result := 0;
      if res != NOTHING {
        var _ := ChangelistDel(fd, before, res);
        result := 1;
      } else {
        RecordedSame(es, cs, fd);
      }
      var io' := Io(Without(io.events, ev), nread, nwrite, nclose, entries[fd].value.idxplus1);
      RemovedInStep(es, cs, Watched(kernel, fd), fd, ev, io', changes);
      OneSlot(es, cs, kernel, fd, io', changes);
      LostMeans(io, ev, io');
      assert entries[fd := Some(io')] == es[fd := Some(io')];
      entries := entries[fd := Some(io')];
    }

    /** Tells the kernel of every pending change, each with one operation, and forgets the changes.  Then the kernel
        watches just what the events want. */
    method ApplyChanges()
      requires Valid()
      modifies this
      ensures Valid() && changes == []
      ensures forall fd :: ListedIn(entries, fd) == ListedIn(old(entries), fd)
      ensures forall fd :: Watched(kernel, fd) == Interests(ListedIn(entries, fd))
    {
      hide Indexed, AllInStep, Told, UpToDate, TableEntry;
      ghost var kernel0 := kernel;
      var i := 0;
      ToldNone(changes, kernel);
      while i < |changes|
        invariant i <= |changes| && Told(changes, kernel0, kernel, i)
        modifies this`kernel
      {
        var (events, op) := TableEntry(changes[i]);
        ToldMore(entries, changes, kernel0, kernel, i);
        OneOperation(changes[i]);
        assert Accepts(Watched(kernel, changes[i].fd), op);
        kernel := kernel[changes[i].fd := Kernel(Watched(kernel, changes[i].fd), events, op)];
        i := i + 1;
      }
      AllTold(entries, changes, kernel0, kernel);
      RemoveAll();
      KernelKnows(entries, kernel);
    }

    /** Forgets all pending changes, once the kernel knows of them. */
    method RemoveAll()
      requires Indexed(entries, changes) && UpToDate(entries, kernel)
      modifies this`entries, this`changes
      ensures Valid() && changes == []
      ensures forall fd :: ListedIn(entries, fd) == ListedIn(old(entries), fd)
      ensures UpToDate(entries, kernel)
    {
      hide Indexed, Cleared, UpToDate, AllInStep;
      ghost var es := entries;
      var i := 0;
      ClearedNone(es);
      while i < |changes|
        invariant i <= |changes| && Cleared(es, entries, i)
        modifies this`entries
      {
        var fd := changes[i].fd;
        ClearedMore(es, entries, changes, i);
        assert entries[fd].value.idxplus1 == i + 1;
        entries := entries[fd := Some(entries[fd].value.(idxplus1 := 0))];
        i := i + 1;
      }
      ClearedAll(es, entries, changes, kernel);
      changes := [];
    }

    /** Any run of additions and deletions followed by a dispatch leaves each descriptor with the list that the steps make of it,
        one after the other, and the kernel watching just what the listed events want: which is also what it would watch had it
        been told at once at every step.  Steps that ask for what is there already, or that fail, change nothing. */
    method Run(steps: seq<Step>) returns (results: seq<int>)
      requires Valid()
      modifies this
      ensures Valid() && changes == [] && |results| == |steps|
      ensures forall fd :: ListedIn(entries, fd) == ListAfter(ListedIn(old(entries), fd), steps, results, fd)
      ensures forall fd :: Watched(kernel, fd) == Interests(ListedIn(entries, fd))
      ensures forall fd :: Watched(kernel, fd) == ToldAfter(ListedIn(old(entries), fd), steps, results, fd)
      ensures forall i :: 0 <= i < |steps| && results[i] == -1 ==> Fails(ListedIn(old(entries), steps[i].fd), steps, results, i)
    {
      hide Indexed, AllInStep, ListAfter, OneAfter, Fails, Interests, ToldAfter;
      results := [];
      ghost var es := entries;
      NoSteps();
      while |results| < |steps|
        invariant |results| <= |steps| && Valid()
        invariant forall fd :: ListedIn(entries, fd) == ListAfter(ListedIn(es, fd), steps[..|results|], results, fd)
        invariant forall i :: 0 <= i < |results| && results[i] == -1 ==> Fails(ListedIn(es, steps[i].fd), steps, results, i)
      {
        ghost var before := entries;
        var result := TakeStep(steps[|results|]);
        StepsMore(es, before, entries, steps, results, result);
        results := results + [result];
      }
      assert steps[..|results|] == steps;
      ApplyChanges();
      forall fd
        ensures Watched(kernel, fd) == ToldAfter(ListedIn(es, fd), steps, results, fd)
      {
        ListsAreUnique(es, old(changes), old(kernel), fd);
        ToldIsInStep(ListedIn(es, fd), steps, results, fd);
      }
    }

    /** Takes one step, unless it asks for what is there already. */
    method TakeStep(step: Step) returns (result: int)
      requires Valid()
      modifies this`entries, this`changes, this`changesSize
      ensures Valid()
      ensures forall fd :: ListedIn(entries, fd) == OneAfter(ListedIn(old(entries), fd), step, result, fd)
      ensures result == -1 ==> step.Adds? && (step.fd > INT_MAX / 16 || |ListedIn(old(entries), step.fd)| >= MAX_EVENTS_PER_FD)
    {
      hide Indexed, AllInStep, Interests;
      var fd, ev := step.fd, step.ev;
      result := 0;
      IdListedMeans(ListedIn(entries, fd), ev.id);
      if step.Adds? && !IdListed(ListedIn(entries, fd), ev.id) {
        result := Add(fd, ev);
      } else if step.Deletes? && (fd < 0 || ev in ListedIn(entries, fd)) {
        result := Del(fd, ev);
      }
    }

    lemma Grown(es: seq<Option<Io>>, n: nat, changes: seq<Change>, kernel: map<int, Interest>)
      requires Indexed(es, changes) && AllInStep(es, changes, kernel)
      ensures var es' := es + seq(n, _ => None); Indexed(es', changes) && AllInStep(es', changes, kernel)
    {
      var es' := es + seq(n, _ => None);
      forall i | 0 <= i < |changes|
        ensures At(es', changes[i].fd, i + 1)
      {
        assert At(es, changes[i].fd, i + 1);
      }
    }
  }

  // Changing one slot

  /** The change of slot `fd` is among `changes'`, at the place the slot tells; no other change is different. */
  ghost predicate Recorded(es: seq<Option<Io>>, changes: seq<Change>, fd: nat, idxplus1: nat, changes': seq<Change>) {
    && fd < |es| && |changes| <= |changes'| <= |changes| + 1
    && (forall i :: 0 <= i < |changes| ==> changes'[i].fd == changes[i].fd && (changes[i].fd != fd ==> changes'[i] == changes[i]))
    && (if |changes'| > |changes| then
          changes'[|changes|].fd == fd && (es[fd].Some? ==> es[fd].value.idxplus1 == 0) && idxplus1 == |changes'|
        else
          idxplus1 == if es[fd].Some? then es[fd].value.idxplus1 else 0)
  }

  lemma IndexedMore(es: seq<Option<Io>>, changes: seq<Change>, fd: nat, io: Io, changes': seq<Change>)
    requires Indexed(es, changes) && Recorded(es, changes, fd, io.idxplus1, changes')
    ensures Indexed(es[fd := Some(io)], changes')
  {
    var es' := es[fd := Some(io)];
    forall i: nat | i < |changes'|
      ensures At(es', changes'[i].fd, i + 1)
    {
      if i < |changes| {
        assert At(es, changes[i].fd, i + 1);
      }
    }
    forall x: nat | x < |es'| && es'[x].Some? && es'[x].value.idxplus1 > 0
      ensures es'[x].value.idxplus1 <= |changes'| && changes'[es'[x].value.idxplus1 - 1].fd == x
    {
      if x != fd || |changes'| == |changes| {
        assert es[x].Some? && es[x].value.idxplus1 == es'[x].value.idxplus1;
      }
    }
  }

  lemma InStepMore(es: seq<Option<Io>>, changes: seq<Change>, watched: Interest, fd: nat, idxplus1: nat, changes': seq<Change>, x: nat)
    requires Indexed(es, changes) && Recorded(es, changes, fd, idxplus1, changes')
    requires x < |es| && x != fd && es[x].Some? && InStep(es[x].value, changes, watched)
    ensures InStep(es[x].value, changes', watched)
  {}

  /** A slot is changed along with its pending change; all others stay in step. */
  lemma OneSlot(es: seq<Option<Io>>, changes: seq<Change>, kernel: map<int, Interest>, fd: nat, io: Io, changes': seq<Change>)
    requires Indexed(es, changes) && AllInStep(es, changes, kernel)
    requires Recorded(es, changes, fd, io.idxplus1, changes')
    requires Counted(io) && InStep(io, changes', Watched(kernel, fd))
    ensures Indexed(es[fd := Some(io)], changes') && AllInStep(es[fd := Some(io)], changes', kernel)
  {
    hide Counted, InStep, Indexed, Recorded;
    RecordedAt(es, changes, fd, io.idxplus1, changes');
    IndexedMore(es, changes, fd, io, changes');
    var es' := es[fd := Some(io)];
    forall x | 0 <= x < |es'| && es'[x].Some?
      ensures Counted(es'[x].value) && InStep(es'[x].value, changes', Watched(kernel, x))
    {
      if x != fd {
        InStepMore(es, changes, Watched(kernel, x), fd, io.idxplus1, changes', x);
      }
    }
  }

  lemma RecordedAt(es: seq<Option<Io>>, changes: seq<Change>, fd: nat, idxplus1: nat, changes': seq<Change>)
    requires Recorded(es, changes, fd, idxplus1, changes')
    ensures fd < |es|
  {}

  /** The pending change of a slot, or a new one that changes nothing. */
  function Pending(es: seq<Option<Io>>, changes: seq<Change>, fd: nat, oldEvents: Interest): Change
    requires fd < |es| && es[fd].Some? && es[fd].value.idxplus1 <= |changes|
  {
    if es[fd].value.idxplus1 == 0 then Change(fd, oldEvents, Keep, Keep, Keep) else changes[es[fd].value.idxplus1 - 1]
  }

  function Adding(c: Change, events: Interest): Change {
    c.(read := if events.read then Set else c.read, write := if events.write then Set else c.write,
       closed := if events.closed then Set else c.closed)
  }

  function Removing(c: Change, events: Interest): Change {
    c.(read := if !events.read then c.read else if c.oldEvents.read then Unset else Keep,
       write := if !events.write then c.write else if c.oldEvents.write then Unset else Keep,
       closed := if !events.closed then c.closed else if c.oldEvents.closed then Unset else Keep)
  }

  lemma EmptySlot(es: seq<Option<Io>>, changes: seq<Change>, kernel: map<int, Interest>, fd: nat)
    requires Indexed(es, changes) && AllInStep(es, changes, kernel) && fd < |es| && es[fd] == None
    ensures Indexed(es[fd := Some(EMPTY)], changes) && AllInStep(es[fd := Some(EMPTY)], changes, kernel)
  {
    hide Indexed, InStep, Recorded;
    RecordedSame(es, changes, fd);
    NothingWatched(changes, Watched(kernel, fd));
    OneSlot(es, changes, kernel, fd, EMPTY, changes);
  }

  lemma NothingWatched(changes: seq<Change>, watched: Interest)
    requires watched == NOTHING
    ensures InStep(EMPTY, changes, watched) && Counted(EMPTY)
  {}

  lemma RecordedSame(es: seq<Option<Io>>, changes: seq<Change>, fd: nat)
    requires fd < |es|
    ensures Recorded(es, changes, fd, if es[fd].Some? then es[fd].value.idxplus1 else 0, changes)
  {}

  lemma SlotAt(es: seq<Option<Io>>, changes: seq<Change>, kernel: map<int, Interest>, fd: nat)
    requires Indexed(es, changes) && AllInStep(es, changes, kernel) && fd < |es| && es[fd].Some?
    ensures Counted(es[fd].value) && InStep(es[fd].value, changes, Watched(kernel, fd))
    ensures es[fd].value.idxplus1 <= |changes|
    ensures es[fd].value.idxplus1 > 0 ==> changes[es[fd].value.idxplus1 - 1].fd == fd
  {}

  lemma {:induction false} CountBound(events: seq<Ev>)
    ensures CountOf(events, Read) <= |events| && CountOf(events, Write) <= |events| && CountOf(events, Closed) <= |events|
  {
    if events != [] {
      CountBound(events[1..]);
    }
  }

  function One(b: bool): nat {
    if b then 1 else 0
  }

  /** What has to be told to the kernel when an event is added to a slot. */
  function Gained(io: Io, e: Interest): Interest {
    Interest(e.read && io.nread == 0, e.write && io.nwrite == 0, e.closed && io.nclose == 0)
  }

  /** And when one is removed. */
  function Lost(io: Io, e: Interest): Interest {
    Interest(e.read && io.nread == 1, e.write && io.nwrite == 1, e.closed && io.nclose == 1)
  }

  lemma TooMany(io: Io, ev: Ev)
    requires Counted(io)
    ensures io.nread <= |io.events| && io.nwrite <= |io.events| && io.nclose <= |io.events|
  {
    CountBound(io.events);
  }

  lemma CountedListed(io: Io, ev: Ev)
    requires Counted(io) && ev in io.events
    ensures (ev.events.read ==> io.nread > 0) && (ev.events.write ==> io.nwrite > 0) && (ev.events.closed ==> io.nclose > 0)
  {
    CountMeaning(io.events, Read);
    CountMeaning(io.events, Write);
    CountMeaning(io.events, Closed);
  }

  /** The counters of a slot with one more event. */
  ghost predicate Gains(io: Io, ev: Ev, io': Io) {
    && io'.events == [ev] + io.events
    && io'.nread == io.nread + One(ev.events.read) <= MAX_EVENTS_PER_FD
    && io'.nwrite == io.nwrite + One(ev.events.write) <= MAX_EVENTS_PER_FD
    && io'.nclose == io.nclose + One(ev.events.closed) <= MAX_EVENTS_PER_FD
  }

  lemma GainsCounted(io: Io, ev: Ev, io': Io)
    requires Counted(io) && Gains(io, ev, io') && forall x :: x in io.events ==> x.id != ev.id
    ensures Counted(io')
  {
    assert io'.events[1..] == io.events;
    forall i | 0 <= i < |io.events|
      ensures io.events[i].id != ev.id
    {
      assert io.events[i] in io.events;
    }
  }

  /** The counters of a slot with one event less. */
  ghost predicate Loses(io: Io, ev: Ev, io': Io) {
    && io'.events == Without(io.events, ev)
    && io'.nread == io.nread - One(ev.events.read)
    && io'.nwrite == io.nwrite - One(ev.events.write)
    && io'.nclose == io.nclose - One(ev.events.closed)
  }

  lemma LosesCounted(io: Io, ev: Ev, io': Io)
    requires Counted(io) && Loses(io, ev, io') && ev in io.events
    ensures Counted(io')
  {
    hide Unique, Without, CountOf;
    WithoutMeaning(io.events, ev, Read);
    WithoutMeaning(io.events, ev, Write);
    WithoutMeaning(io.events, ev, Closed);
  }

  /** The kernel has to be told of a change exactly when what is wanted changes. */
  lemma GainedMeans(io: Io, ev: Ev, io': Io)
    requires Counted(io) && Counted(io') && Gains(io, ev, io')
    ensures Current(io) == Interests(io.events)
    ensures Gained(io, ev.events) != NOTHING <==> Interests(io'.events) != Interests(io.events)
  {}

  lemma LostMeans(io: Io, ev: Ev, io': Io)
    requires Counted(io) && Counted(io') && Loses(io, ev, io') && ev in io.events
    ensures Current(io) == Interests(io.events)
    ensures Lost(io, ev.events) != NOTHING <==> Interests(io'.events) != Interests(io.events)
  {
    hide Without, CountOf;
    CountedListed(io, ev);
  }

  /** Adding an event to a slot, and to its pending change what has come to be wanted, leaves it in step. */
  lemma AddedInStep(es: seq<Option<Io>>, changes: seq<Change>, watched: Interest, fd: nat, ev: Ev, io': Io, changes': seq<Change>)
    requires fd < |es| && es[fd].Some? && Counted(es[fd].value) && InStep(es[fd].value, changes, watched)
    requires es[fd].value.idxplus1 <= |changes|
    requires forall x :: x in es[fd].value.events ==> x.id != ev.id
    requires Gains(es[fd].value, ev, io')
    requires var io := es[fd].value;
             if Gained(io, ev.events) == NOTHING then io'.idxplus1 == io.idxplus1 && changes' == changes
             else 0 < io'.idxplus1 <= |changes'| &&
                  changes'[io'.idxplus1 - 1] == Adding(Pending(es, changes, fd, Current(io)), Gained(io, ev.events))
    ensures Counted(io') && InStep(io', changes', watched)
  {
    hide Counted;
    GainsCounted(es[fd].value, ev, io');
  }

  /** Removing an event from a slot, and recording in its pending change what is no longer wanted, leaves it in step. */
  lemma RemovedInStep(es: seq<Option<Io>>, changes: seq<Change>, watched: Interest, fd: nat, ev: Ev, io': Io, changes': seq<Change>)
    requires fd < |es| && es[fd].Some? && Counted(es[fd].value) && InStep(es[fd].value, changes, watched)
    requires es[fd].value.idxplus1 <= |changes| && ev in es[fd].value.events
    requires Loses(es[fd].value, ev, io')
    requires var io := es[fd].value;
             if Lost(io, ev.events) == NOTHING then io'.idxplus1 == io.idxplus1 && changes' == changes
             else 0 < io'.idxplus1 <= |changes'| &&
                  changes'[io'.idxplus1 - 1] == Removing(Pending(es, changes, fd, Current(io)), Lost(io, ev.events))
    ensures Counted(io') && InStep(io', changes', watched)
  {
    hide Counted, Without;
    CountedListed(es[fd].value, ev);
    LosesCounted(es[fd].value, ev, io');
  }

  // Telling the kernel

  /** What the events want between them. */
  function Interests(events: seq<Ev>): Interest {
    Interest(CountOf(events, Read) > 0, CountOf(events, Write) > 0, CountOf(events, Closed) > 0)
  }

  /** The kernel has been told of the first `n` changes, and of no others. */
  ghost predicate Told(changes: seq<Change>, kernel0: map<int, Interest>, kernel: map<int, Interest>, n: nat) {
    && n <= |changes|
    && (forall i :: 0 <= i < n ==> Watched(kernel, changes[i].fd) == Wanted(changes[i]))
    && (forall fd :: (forall i :: 0 <= i < n ==> changes[i].fd != fd) ==> Watched(kernel, fd) == Watched(kernel0, fd))
  }

  lemma ToldNone(changes: seq<Change>, kernel: map<int, Interest>)
    ensures Told(changes, kernel, kernel, 0)
  {}

  /** What is pending for the `i`-th change. */
  lemma PendingChange(entries: seq<Option<Io>>, changes: seq<Change>, kernel: map<int, Interest>, i: nat)
    requires Indexed(entries, changes) && AllInStep(entries, changes, kernel) && i < |changes|
    ensures At(entries, changes[i].fd, i + 1)
    ensures changes[i].oldEvents == Watched(kernel, changes[i].fd) && Reducible(changes[i])
    ensures Wanted(changes[i]) == Current(entries[changes[i].fd].value)
  {
    assert At(entries, changes[i].fd, i + 1);
    var io := entries[changes[i].fd].value;
    assert InStep(io, changes, Watched(kernel, changes[i].fd));
  }

  /** The kernel still watches what the next change says it does; telling it of that change is one step on. */
  lemma ToldMore(entries: seq<Option<Io>>, changes: seq<Change>, kernel0: map<int, Interest>, kernel: map<int, Interest>, i: nat)
    requires Indexed(entries, changes) && AllInStep(entries, changes, kernel0) && i < |changes| && Told(changes, kernel0, kernel, i)
    ensures changes[i].oldEvents == Watched(kernel, changes[i].fd) && Reducible(changes[i])
    ensures Told(changes, kernel0, kernel[changes[i].fd := Wanted(changes[i])], i + 1)
  {
    hide AllInStep, Reducible, Wanted;
    PendingChange(entries, changes, kernel0, i);
    forall j | 0 <= j < i
      ensures changes[j].fd != changes[i].fd
    {
      assert At(entries, changes[j].fd, j + 1);
    }
  }

  /** Once the kernel has been told of all changes, it watches what is wanted. */
  lemma AllTold(entries: seq<Option<Io>>, changes: seq<Change>, kernel0: map<int, Interest>, kernel: map<int, Interest>)
    requires Indexed(entries, changes) && AllInStep(entries, changes, kernel0) && Told(changes, kernel0, kernel, |changes|)
    ensures UpToDate(entries, kernel)
  {
    hide Counted, Reducible, Wanted;
    forall fd | 0 <= fd < |entries| && entries[fd].Some?
      ensures Watched(kernel, fd) == Current(entries[fd].value)
    {
      var io := entries[fd].value;
      assert InStep(io, changes, Watched(kernel0, fd));
      if io.idxplus1 > 0 {
        assert changes[io.idxplus1 - 1].fd == fd;
        PendingChange(entries, changes, kernel0, io.idxplus1 - 1);
      } else {
        forall i | 0 <= i < |changes|
          ensures changes[i].fd != fd
        {
          assert At(entries, changes[i].fd, i + 1);
        }
      }
    }
    forall fd | fd in kernel && kernel[fd] != NOTHING
      ensures 0 <= fd < |entries| && entries[fd].Some?
    {
      if i :| 0 <= i < |changes| && changes[i].fd == fd {
        assert At(entries, changes[i].fd, i + 1);
      } else {
        assert Watched(kernel, fd) == Watched(kernel0, fd);
      }
    }
  }

  lemma KernelKnows(entries: seq<Option<Io>>, kernel: map<int, Interest>)
    requires UpToDate(entries, kernel)
    ensures forall fd :: Watched(kernel, fd) == Interests(ListedIn(entries, fd))
  {}

  /** The kernel watches what is wanted of every slot, and nothing else. */
  ghost predicate UpToDate(entries: seq<Option<Io>>, kernel: map<int, Interest>) {
    && (forall fd :: 0 <= fd < |entries| && entries[fd].Some? ==>
          Counted(entries[fd].value) && Watched(kernel, fd) == Current(entries[fd].value))
    && (forall fd :: fd in kernel && kernel[fd] != NOTHING ==> 0 <= fd < |entries| && entries[fd].Some?)
  }

  /** The slots whose changes are among the first `n` have forgotten them. */
  ghost predicate Cleared(es0: seq<Option<Io>>, es: seq<Option<Io>>, n: nat) {
    && |es| == |es0|
    && forall fd :: 0 <= fd < |es| ==>
         es[fd] == if es0[fd].Some? && es0[fd].value.idxplus1 <= n then Some(es0[fd].value.(idxplus1 := 0)) else es0[fd]
  }

  lemma ClearedNone(es: seq<Option<Io>>)
    ensures Cleared(es, es, 0)
  {}

  lemma ClearedMore(es0: seq<Option<Io>>, es: seq<Option<Io>>, changes: seq<Change>, i: nat)
    requires Indexed(es0, changes) && Cleared(es0, es, i) && i < |changes|
    ensures At(es, changes[i].fd, i + 1)
    ensures Cleared(es0, es[changes[i].fd := Some(es[changes[i].fd].value.(idxplus1 := 0))], i + 1)
  {
    assert At(es0, changes[i].fd, i + 1);
  }

  lemma ClearedAll(es0: seq<Option<Io>>, es: seq<Option<Io>>, changes: seq<Change>, kernel: map<int, Interest>)
    requires Indexed(es0, changes) && Cleared(es0, es, |changes|) && UpToDate(es0, kernel)
    ensures Indexed(es, []) && AllInStep(es, [], kernel) && UpToDate(es, kernel)
    ensures forall fd :: ListedIn(es, fd) == ListedIn(es0, fd)
  {
    hide Unique, CountOf;
    forall fd | 0 <= fd < |es| && es[fd].Some?
      ensures es0[fd].Some? && es[fd].value == es0[fd].value.(idxplus1 := 0)
    {}
  }

  /** Telling the kernel at once of what an added event brings leaves it watching what is wanted. */
  lemma AddAtOnce(events: seq<Ev>, ev: Ev)
    ensures var before, after := Interests(events), Interests([ev] + events);
            var e := ev.events;
            var gained := Interest(e.read && !before.read, e.write && !before.write, e.closed && !before.closed);
            var (watched, op) := TableEntry(Adding(Change(0, before, Keep, Keep, Keep), gained));
            Accepts(before, op) && Kernel(before, watched, op) == after
  {
    assert ([ev] + events)[1..] == events;
  }

  /** The same for an event that is removed. */
  lemma DelAtOnce(events: seq<Ev>, ev: Ev)
    requires Unique(events) && ev in events
    ensures var before, after := Interests(events), Interests(Without(events, ev));
            var lost := Interest(before.read && !after.read, before.write && !after.write, before.closed && !after.closed);
            var (watched, op) := TableEntry(Removing(Change(0, before, Keep, Keep, Keep), lost));
            Accepts(before, op) && Kernel(before, watched, op) == after
  {
    WithoutMeaning(events, ev, Read);
    WithoutMeaning(events, ev, Write);
    WithoutMeaning(events, ev, Closed);
  }

  // Runs of steps

  /** What a step makes of the list of a descriptor. */
  function OneAfter(events: seq<Ev>, step: Step, result: int, fd: int): seq<Ev> {
    if step.fd != fd || fd < 0 then events
    else match step {
      case Adds(_, ev) => if !IdListed(events, ev.id) && result != -1 then [ev] + events else events
      case Deletes(_, ev) => if ev in events then Without(events, ev) else events
    }
  }

  /** What some steps with their results make of it, one after the other. */
  function ListAfter(events: seq<Ev>, steps: seq<Step>, results: seq<int>, fd: int): seq<Ev>
    requires |steps| == |results|
    decreases |steps|
  {
    if steps == [] then events
    else
      var last := |steps| - 1;
      OneAfter(ListAfter(events, steps[..last], results[..last], fd), steps[last], results[last], fd)
  }

  /** A step fails only for a descriptor that is too large for the map, or when there are too many events on it. */
  ghost predicate Fails(events: seq<Ev>, steps: seq<Step>, results: seq<int>, i: nat)
    requires i < |steps| && i <= |results|
  {
    && steps[i].Adds?
    && (steps[i].fd > INT_MAX / 16 || |ListAfter(events, steps[..i], results[..i], steps[i].fd)| >= MAX_EVENTS_PER_FD)
  }

  /** The change of one step on its own. */
  function ChangeOf(events: seq<Ev>, events': seq<Ev>, step: Step): Change {
    var before, after := Interests(events), Interests(events');
    var c := Change(step.fd, before, Keep, Keep, Keep);
    var e := step.ev.events;
    if step.Adds? then
      Adding(c, Interest(e.read && !before.read, e.write && !before.write, e.closed && !before.closed))
    else
      Removing(c, Interest(before.read && !after.read, before.write && !after.write, before.closed && !after.closed))
  }

  /** What the kernel watches on a descriptor when it is told at once of each step that changes the list. */
  function ToldAfter(events: seq<Ev>, steps: seq<Step>, results: seq<int>, fd: int): Interest
    requires |steps| == |results|
    decreases |steps|
  {
    if steps == [] then Interests(events)
    else
      var last := |steps| - 1;
      var watched := ToldAfter(events, steps[..last], results[..last], fd);
      var before := ListAfter(events, steps[..last], results[..last], fd);
      var after := OneAfter(before, steps[last], results[last], fd);
      if after == before then watched
      else
        var (wanted, op) := TableEntry(ChangeOf(before, after, steps[last]));
        Kernel(watched, wanted, op)
  }

  lemma NoSteps()
    ensures forall events, fd :: ListAfter(events, [], [], fd) == events
  {}

  lemma OneStepMore(events: seq<Ev>, steps: seq<Step>, results: seq<int>, result: int, fd: int)
    requires |results| < |steps|
    ensures var i := |results|;
            ListAfter(events, steps[..i + 1], results + [result], fd) ==
            OneAfter(ListAfter(events, steps[..i], results, fd), steps[i], result, fd)
  {
    var i := |results|;
    assert steps[..i + 1][..i] == steps[..i] && (results + [result])[..i] == results;
  }

  /** One more step of a run: `es` are the slots at its beginning, and `before` and `after` those around the step. */
  lemma StepsMore(es: seq<Option<Io>>, before: seq<Option<Io>>, after: seq<Option<Io>>, steps: seq<Step>, results: seq<int>, result: int)
    requires |results| < |steps|
    requires forall fd :: ListedIn(before, fd) == ListAfter(ListedIn(es, fd), steps[..|results|], results, fd)
    requires forall fd :: ListedIn(after, fd) == OneAfter(ListedIn(before, fd), steps[|results|], result, fd)
    requires forall i :: 0 <= i < |results| && results[i] == -1 ==> Fails(ListedIn(es, steps[i].fd), steps, results, i)
    requires var step := steps[|results|];
             result == -1 ==> step.Adds? && (step.fd > INT_MAX / 16 || |ListedIn(before, step.fd)| >= MAX_EVENTS_PER_FD)
    ensures var results' := results + [result];
            && (forall fd :: ListedIn(after, fd) == ListAfter(ListedIn(es, fd), steps[..|results'|], results', fd))
            && (forall i :: 0 <= i < |results'| && results'[i] == -1 ==> Fails(ListedIn(es, steps[i].fd), steps, results', i))
  {
    hide ListAfter, OneAfter, ListedIn;
    var results' := results + [result];
    forall fd
      ensures ListedIn(after, fd) == ListAfter(ListedIn(es, fd), steps[..|results'|], results', fd)
    {
      OneStepMore(ListedIn(es, fd), steps, results, result, fd);
    }
    forall i | 0 <= i < |results'| && results'[i] == -1
      ensures Fails(ListedIn(es, steps[i].fd), steps, results', i)
    {
      assert results'[..i] == results[..i];
      if i == |results| {
        assert results[..i] == results;
      }
    }
  }

  lemma ListsAreUnique(es: seq<Option<Io>>, changes: seq<Change>, kernel: map<int, Interest>, fd: int)
    requires AllInStep(es, changes, kernel)
    ensures Unique(ListedIn(es, fd))
  {}

  lemma UniqueStep(events: seq<Ev>, step: Step, result: int, fd: int)
    requires Unique(events)
    ensures Unique(OneAfter(events, step, result, fd))
  {
    var ev := step.ev;
    IdListedMeans(events, ev.id);
    if step.Adds? {
      assert forall i :: 0 <= i < |events| ==> events[i] in events;
    } else if ev in events {
      WithoutMeaning(events, ev, Read);
    }
  }

  /** Telling the kernel at once of every step always leaves it watching just what the listed events want. */
  lemma {:induction false} ToldIsInStep(events: seq<Ev>, steps: seq<Step>, results: seq<int>, fd: int)
    requires |steps| == |results| && Unique(events)
    ensures Unique(ListAfter(events, steps, results, fd))
    ensures ToldAfter(events, steps, results, fd) == Interests(ListAfter(events, steps, results, fd))
    decreases |steps|
  {
    hide Unique, TableEntry, Kernel, Interests, Adding, Removing, Without;
    if steps != [] {
      var last := |steps| - 1;
      ToldIsInStep(events, steps[..last], results[..last], fd);
      var before := ListAfter(events, steps[..last], results[..last], fd);
      UniqueStep(before, steps[last], results[last], fd);
      if OneAfter(before, steps[last], results[last], fd) != before {
        ToldOnce(before, steps[last], results[last], fd);
      }
    }
  }

  /** Telling the kernel of one step leaves it watching what is wanted, and it accepts that. */
  lemma ToldOnce(events: seq<Ev>, step: Step, result: int, fd: int)
    requires Unique(events) && OneAfter(events, step, result, fd) != events
    ensures var events' := OneAfter(events, step, result, fd);
            var (wanted, op) := TableEntry(ChangeOf(events, events', step));
            Accepts(Interests(events), op) && Kernel(Interests(events), wanted, op) == Interests(events')
  {
    if step.Adds? {
      AddAtOnce(events, step.ev);
    } else {
      DelAtOnce(events, step.ev);
    }
  }
}
