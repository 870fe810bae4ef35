/** A group of bufferevents under one rate limit, as a protocol between threads.  The group's lock is taken while a
    bufferevent's lock is held; a thread that holds the group's lock may only try to take a bufferevent's. */
module RateGroup {
  import opened Lists
  import opened Options

  /** What the thread that holds a bufferevent's lock is about; `Free` if no thread does, and `Gone` when the bufferevent is
      being freed. */
  datatype Phase = Free | Held | Joining(suspended: bool) | Leaving | Gone

  /** A walk over the members, by a thread that holds the group's lock, and perhaps the lock of `self`. */
  datatype Walk =
    | NoWalk
    | Suspending(todo: seq<nat>, self: Option<nat>)
    | Unsuspending(todo: seq<nat>, again: bool, self: Option<nat>)

  /** The state of the group in one direction: its members, the bufferevents that carry the group's suspension,
      what each lock is held for, and the group's bucket. */
  datatype Group = Group(members: seq<nat>, marked: set<nat>, phase: map<nat, Phase>, suspended: bool, pending: bool,
                         walk: Walk, limit: int, minShare: nat)

  /** Signed division in C, which rounds towards zero. */
  function Quotient(a: int, n: nat): int
    requires n > 0
  {
    if a >= 0 then a / n else -((-a) / n)
  }

  /** A member's share of the bucket. */
  function Share(g: Group): int
    requires g.members != []
  {
    if g.suspended then 0
    else
      var share := Quotient(g.limit, |g.members|);
      if share < g.minShare then g.minShare else share
  }

  function PhaseOf(g: Group, b: nat): Phase {
    if b in g.phase then g.phase[b] else Free
  }

  /** The thread that walks can take the lock of `b`: nobody has it, or the thread itself has. */
  predicate CanLock(g: Group, b: nat, self: Option<nat>) {
    PhaseOf(g, b) == Free || self == Some(b)
  }

  /** The members from place `k` on, and then those before it. */
  function FromPlace(members: seq<nat>, k: nat): seq<nat>
    requires k <= |members|
  {
    members[k..] + members[..k]
  }

  datatype Step =
    | Lock(b: nat)
    | Unlock(b: nat)
    | Join(b: nat)
    | FinishJoin(b: nat)
    | Leave(b: nat)
    | FinishLeave(b: nat)
    | Quit(b: nat)
    | Query(b: nat)
    | Decrement(self: Option<nat>, bytes: nat, start: nat)
    | DecrementByHand(decr: int, start: nat)
    | Refill(bytes: nat, start: nat)
    | Clip(maximum: nat)
    | SetShare(share: nat)
    | Visit(locks: bool)
    | EndWalk

  /** Puts the lock of `b` to another use. */
  function SetPhase(g: Group, b: nat, p: Phase): Group {
    g.(phase := g.phase[b := p])
  }

  function StartSuspending(g: Group, self: Option<nat>): Group {
    g.(suspended := true, pending := false, walk := Suspending(g.members, self))
  }

  function StartUnsuspending(g: Group, self: Option<nat>, start: nat): Group
    requires start <= |g.members|
  {
    g.(suspended := false, walk := Unsuspending(FromPlace(g.members, start), false, self))
  }

  /** The thread that walks does not use the lock it holds for anything else. */
  predicate Busy(g: Group, b: nat) {
    !g.walk.NoWalk? && g.walk.self == Some(b)
  }

  predicate Enabled(g: Group, s: Step) {
    match s
    case Lock(b) => PhaseOf(g, b) == Free
    case Unlock(b) => PhaseOf(g, b) == Held && !Busy(g, b)
    case Join(b) => PhaseOf(g, b) == Held && g.walk.NoWalk? && b !in g.members
    case FinishJoin(b) => PhaseOf(g, b).Joining?
    case Leave(b) => PhaseOf(g, b) == Held && g.walk.NoWalk? && b in g.members
    case FinishLeave(b) => PhaseOf(g, b) == Leaving
    case Quit(b) => PhaseOf(g, b) == Held && g.walk.NoWalk? && b in g.members
    case Query(b) => PhaseOf(g, b) == Held && g.walk.NoWalk? && b in g.members
    case Decrement(self, _, start) => (self.Some? ==> PhaseOf(g, self.value) == Held) && g.walk.NoWalk? && start <= |g.members|
    case DecrementByHand(_, start) => g.walk.NoWalk? && start <= |g.members|
    case Refill(_, start) => g.walk.NoWalk? && start <= |g.members|
    case Clip(maximum) => g.walk.NoWalk? && maximum >= 1
    case SetShare(_) => true
    case Visit(locks) => !g.walk.NoWalk? && g.walk.todo != [] && (locks ==> CanLock(g, g.walk.todo[0], g.walk.self))
    case EndWalk => !g.walk.NoWalk? && g.walk.todo == []
  }

  /** One step of one thread. */
  function Next(g: Group, s: Step): Group
    requires Enabled(g, s)
  {
    match s
    case Lock(b) => SetPhase(g, b, Held)
    case Unlock(b) => SetPhase(g, b, Free)
    // with both locks held the bufferevent enters the group and learns whether that is suspended
    case Join(b) => SetPhase(g.(members := [b] + g.members), b, Joining(g.suspended))
    // with its own lock only, it acts on what it has learned
    case FinishJoin(b) => SetPhase(if g.phase[b].suspended then g.(marked := g.marked + {b}) else g, b, Held)
    case Leave(b) => SetPhase(g.(members := Remove(g.members, b)), b, Leaving)
    case FinishLeave(b) => SetPhase(g.(marked := g.marked - {b}), b, Held)
    // a bufferevent that is freed leaves without being set going
    case Quit(b) => SetPhase(g.(members := Remove(g.members, b)), b, Gone)
    case Query(b) => if g.suspended then g.(marked := g.marked + {b}) else g
    case Decrement(self, bytes, start) =>
      var g1 := g.(limit := g.limit - bytes);
      if g1.limit <= 0 then StartSuspending(g1, self)
      else if g1.suspended then StartUnsuspending(g1, self, start)
      else g1
    // a user's call acts on the crossing of zero only
    case DecrementByHand(decr, start) =>
      var g1 := g.(limit := g.limit - decr);
      if g.limit > 0 && g1.limit <= 0 then StartSuspending(g1, None)
      else if g.limit <= 0 && g1.limit > 0 then StartUnsuspending(g1, None, start)
      else g1
    case Clip(maximum) => g.(limit := if g.limit > maximum then maximum else g.limit)
    case SetShare(share) => g.(minShare := share)
    case Refill(bytes, start) =>
      var g1 := g.(limit := g.limit + bytes);
      if g1.pending || (g1.suspended && g1.limit >= g1.minShare) then StartUnsuspending(g1, None, start) else g1
    case Visit(locks) =>
      var b := g.walk.todo[0];
      match g.walk {
        case Suspending(todo, self) =>
          g.(marked := if locks then g.marked + {b} else g.marked, walk := Suspending(todo[1..], self))
        case Unsuspending(todo, again, self) =>
          g.(marked := if locks then g.marked - {b} else g.marked, walk := Unsuspending(todo[1..], again || !locks, self))
      }
    case EndWalk =>
      g.(pending := if g.walk.Unsuspending? then g.walk.again else g.pending, walk := NoWalk)
  }

  /** What a query grants. */
  function Granted(g: Group, own: int): nat
    requires g.members != []
  {
    var most := if own > Share(g) then Share(g) else own;
    if most < 0 then 0 else most
  }

  /** The bufferevent carries the suspension, or is about to because the group was suspended when it joined. */
  predicate Stopped(g: Group, b: nat) {
    b in g.marked || PhaseOf(g, b) == Joining(true)
  }

  /** Somebody will see to it that `b` goes on. */
  predicate WillGoOn(g: Group, b: nat) {
    match g.walk
    case Unsuspending(todo, again, _) => b in todo || again
    case _ => g.suspended || g.pending
  }

  /** Nobody is forgotten: whoever is stopped is a member that will go on, or is leaving the group, or being freed. */
  ghost predicate NoneForgotten(g: Group) {
    && (forall b :: b in g.members && Stopped(g, b) ==> WillGoOn(g, b))
    && (forall b :: b !in g.members && Stopped(g, b) ==> PhaseOf(g, b) in {Leaving, Gone})
  }

  /** Only who is no member is leaving or being freed, and only a member is joining. */
  ghost predicate PhasesOk(g: Group) {
    && Unique(g.members)
    && (forall b :: b in g.members ==> PhaseOf(g, b) !in {Leaving, Gone})
    && (forall b :: b !in g.members ==> !PhaseOf(g, b).Joining?)
  }

  ghost predicate WalkOk(g: Group) {
    && (g.pending ==> !g.suspended)
    && match g.walk
       case NoWalk => true
       case Suspending(todo, self) => g.suspended && (forall b :: b in todo ==> b in g.members) && (self.Some? ==> PhaseOf(g, self.value) == Held)
       case Unsuspending(todo, _, self) => !g.suspended && (forall b :: b in todo ==> b in g.members) && (self.Some? ==> PhaseOf(g, self.value) == Held)
  }

  /** An empty bucket stops the group, as long as a member's least share is never set below `floor`, and that is not nothing. */
  ghost predicate BucketOk(g: Group, floor: nat) {
    floor <= g.minShare && (floor >= 1 && g.limit <= 0 ==> g.suspended)
  }

  ghost predicate Inv(g: Group, floor: nat) {
    NoneForgotten(g) && PhasesOk(g) && WalkOk(g) && BucketOk(g, floor)
  }

  /** The least share is not set below `floor`. */
  predicate Respects(s: Step, floor: nat) {
    s.SetShare? ==> s.share >= floor
  }

  lemma FromPlaceMeaning(members: seq<nat>, k: nat)
    requires Unique(members) && k <= |members|
    ensures Unique(FromPlace(members, k)) && forall b :: b in FromPlace(members, k) <==> b in members
  {
    assert members == members[..k] + members[k..];
  }

  /** Changing what one lock is held for. */
  lemma PhaseStep(g: Group, floor: nat, b: nat, p: Phase)
    requires Inv(g, floor) && !Busy(g, b) && PhaseOf(g, b) in {Free, Held} && p in {Free, Held}
    ensures Inv(SetPhase(g, b, p), floor)
  {}

  lemma JoinStep(g: Group, floor: nat, b: nat)
    requires Inv(g, floor) && Enabled(g, Join(b))
    ensures Inv(Next(g, Join(b)), floor)
  {
    assert forall x :: x in [b] + g.members <==> x == b || x in g.members;
  }

  lemma FinishJoinStep(g: Group, floor: nat, b: nat)
    requires Inv(g, floor) && Enabled(g, FinishJoin(b))
    ensures Inv(Next(g, FinishJoin(b)), floor)
  {}

  lemma LeaveStep(g: Group, floor: nat, b: nat)
    requires Inv(g, floor) && Enabled(g, Leave(b))
    ensures Inv(Next(g, Leave(b)), floor)
  {
    RemoveMeaning(g.members, b);
  }

  lemma FinishLeaveStep(g: Group, floor: nat, b: nat)
    requires Inv(g, floor) && Enabled(g, FinishLeave(b))
    ensures Inv(Next(g, FinishLeave(b)), floor)
  {}

  lemma QuitStep(g: Group, floor: nat, b: nat)
    requires Inv(g, floor) && Enabled(g, Quit(b))
    ensures Inv(Next(g, Quit(b)), floor)
  {
    RemoveMeaning(g.members, b);
  }

  lemma QueryStep(g: Group, floor: nat, b: nat)
    requires Inv(g, floor) && Enabled(g, Query(b))
    ensures Inv(Next(g, Query(b)), floor)
  {}

  /** Suspending the group stops nobody for good. */
  lemma SuspendStep(g: Group, floor: nat, self: Option<nat>)
    requires NoneForgotten(g) && PhasesOk(g) && g.walk.NoWalk? && floor <= g.minShare && (self.Some? ==> PhaseOf(g, self.value) == Held)
    ensures Inv(StartSuspending(g, self), floor)
  {}

  lemma UnsuspendStep(g: Group, floor: nat, self: Option<nat>, start: nat)
    requires NoneForgotten(g) && PhasesOk(g) && g.walk.NoWalk? && (self.Some? ==> PhaseOf(g, self.value) == Held)
    requires start <= |g.members| && floor <= g.minShare && (floor >= 1 ==> g.limit > 0)
    ensures Inv(StartUnsuspending(g, self, start), floor)
  {
    hide Unique, FromPlace;
    FromPlaceMeaning(g.members, start);
  }

  lemma LimitStep(g: Group, floor: nat, limit: int)
    requires Inv(g, floor)
    ensures NoneForgotten(g.(limit := limit)) && PhasesOk(g.(limit := limit)) && WalkOk(g.(limit := limit))
    ensures (floor >= 1 && limit <= 0 ==> g.suspended) ==> Inv(g.(limit := limit), floor)
  {}

  lemma DecrementStep(g: Group, floor: nat, s: Step)
    requires Inv(g, floor) && s.Decrement? && Enabled(g, s)
    ensures Inv(Next(g, s), floor)
  {
    hide NoneForgotten, PhasesOk, WalkOk;
    LimitStep(g, floor, g.limit - s.bytes);
    var g1 := g.(limit := g.limit - s.bytes);
    if g1.limit <= 0 {
      SuspendStep(g1, floor, s.self);
    } else if g1.suspended {
      UnsuspendStep(g1, floor, s.self, s.start);
    }
  }

  lemma ByHandStep(g: Group, floor: nat, s: Step)
    requires Inv(g, floor) && s.DecrementByHand? && Enabled(g, s)
    ensures Inv(Next(g, s), floor)
  {
    hide NoneForgotten, PhasesOk, WalkOk;
    LimitStep(g, floor, g.limit - s.decr);
    var g1 := g.(limit := g.limit - s.decr);
    if g.limit > 0 && g1.limit <= 0 {
      SuspendStep(g1, floor, None);
    } else if g.limit <= 0 && g1.limit > 0 {
      UnsuspendStep(g1, floor, None, s.start);
    }
  }

  lemma ClipStep(g: Group, floor: nat, maximum: nat)
    requires Inv(g, floor) && Enabled(g, Clip(maximum))
    ensures Inv(Next(g, Clip(maximum)), floor)
  {
    hide NoneForgotten, PhasesOk, WalkOk;
    LimitStep(g, floor, if g.limit > maximum then maximum else g.limit);
  }

  lemma ShareStep(g: Group, floor: nat, share: nat)
    requires Inv(g, floor) && share >= floor
    ensures Inv(Next(g, SetShare(share)), floor)
  {}

  lemma RefillStep(g: Group, floor: nat, s: Step)
    requires Inv(g, floor) && s.Refill? && Enabled(g, s)
    ensures Inv(Next(g, s), floor)
  {
    hide NoneForgotten, PhasesOk;
    LimitStep(g, floor, g.limit + s.bytes);
    var g1 := g.(limit := g.limit + s.bytes);
    if g1.pending || (g1.suspended && g1.limit >= g1.minShare) {
      UnsuspendStep(g1, floor, None, s.start);
    }
  }

  lemma VisitStep(g: Group, floor: nat, locks: bool)
    requires Inv(g, floor) && Enabled(g, Visit(locks))
    ensures Inv(Next(g, Visit(locks)), floor)
  {
    var todo := g.walk.todo;
    assert forall b :: b in todo <==> b == todo[0] || b in todo[1..];
  }

  lemma EndStep(g: Group, floor: nat)
    requires Inv(g, floor) && Enabled(g, EndWalk)
    ensures Inv(Next(g, EndWalk), floor)
  {}

  lemma NextLock(g: Group, b: nat)
    ensures Enabled(g, Lock(b)) ==> Next(g, Lock(b)) == SetPhase(g, b, Held)
    ensures Enabled(g, Unlock(b)) ==> Next(g, Unlock(b)) == SetPhase(g, b, Free)
  {}

  /** A step of any thread keeps the invariant. */
  lemma StepKeepsInv(g: Group, floor: nat, s: Step)
    requires Inv(g, floor) && Enabled(g, s) && Respects(s, floor)
    ensures Inv(Next(g, s), floor)
  {
    hide NoneForgotten, PhasesOk, BucketOk, Next;
    match s {
      case Lock(b) =>
        NextLock(g, b);
        PhaseStep(g, floor, b, Held);
      case Unlock(b) =>
        NextLock(g, b);
        PhaseStep(g, floor, b, Free);
      case Join(b) => JoinStep(g, floor, b);
      case FinishJoin(b) => FinishJoinStep(g, floor, b);
      case Leave(b) => LeaveStep(g, floor, b);
      case FinishLeave(b) => FinishLeaveStep(g, floor, b);
      case Quit(b) => QuitStep(g, floor, b);
      case Query(b) => QueryStep(g, floor, b);
      case Decrement(_, _, _) => DecrementStep(g, floor, s);
      case DecrementByHand(_, _) => ByHandStep(g, floor, s);
      case Refill(_, _) => RefillStep(g, floor, s);
      case Clip(maximum) => ClipStep(g, floor, maximum);
      case SetShare(share) => ShareStep(g, floor, share);
      case Visit(locks) => VisitStep(g, floor, locks);
      case EndWalk => EndStep(g, floor);
    }
  }

  /** A group without members, whose bucket is filled for one tick. */
  predicate Initial(g: Group) {
    && g.members == [] && g.marked == {} && !g.suspended && !g.pending && g.walk.NoWalk? && g.limit > 0
    && forall b :: b in g.phase ==> g.phase[b] == Free
  }

  /** Every step of a run is enabled when its turn comes. */
  predicate Run(g: Group, steps: seq<Step>)
    decreases |steps|
  {
    steps == [] || (Enabled(g, steps[0]) && Run(Next(g, steps[0]), steps[1..]))
  }

  function End(g: Group, steps: seq<Step>): Group
    requires Run(g, steps)
    decreases |steps|
  {
    if steps == [] then g else End(Next(g, steps[0]), steps[1..])
  }

  /** The least share is never set below `floor`. */
  predicate RunRespects(steps: seq<Step>, floor: nat) {
    forall i :: 0 <= i < |steps| ==> Respects(steps[i], floor)
  }

  lemma {:induction false} RunKeepsInv(g: Group, floor: nat, steps: seq<Step>)
    requires Inv(g, floor) && Run(g, steps) && RunRespects(steps, floor)
    ensures Inv(End(g, steps), floor)
    decreases |steps|
  {
    hide Inv, Enabled, Next, Respects;
    if steps != [] {
      assert Respects(steps[0], floor);
      StepKeepsInv(g, floor, steps[0]);
      RunKeepsInv(Next(g, steps[0]), floor, steps[1..]);
    }
  }

  /** In every interleaving: a member that is stopped, or is about to be, belongs to a group that is suspended, or that
      is to be unsuspended at the next tick, or that is being unsuspended just now. */
  lemma NobodyIsForgotten(g0: Group, steps: seq<Step>, b: nat)
    requires Initial(g0) && Run(g0, steps)
    ensures var g := End(g0, steps);
            b in g.members && Stopped(g, b) ==> g.suspended || g.pending || g.walk.Unsuspending?
    ensures var g := End(g0, steps);
            g.pending && g.walk.NoWalk? ==> Enabled(g, Refill(0, 0)) && Next(g, Refill(0, 0)).walk.Unsuspending?
  {
    RunKeepsInv(g0, 0, steps);
  }

  /** When the group is neither suspended nor to be unsuspended, and nobody walks, every member may go on. */
  lemma NobodyIsStuck(g0: Group, steps: seq<Step>, b: nat)
    requires Initial(g0) && Run(g0, steps)
    ensures var g := End(g0, steps);
            b in g.members && g.walk.NoWalk? && !g.suspended && !g.pending ==> !Stopped(g, b)
  {
    RunKeepsInv(g0, 0, steps);
  }

  /** A bufferevent that has left the group is not held up by it any more, unless it is being freed. */
  lemma NobodyIsHeldBack(g0: Group, steps: seq<Step>, b: nat)
    requires Initial(g0) && Run(g0, steps)
    ensures var g := End(g0, steps);
            b !in g.members && PhaseOf(g, b) !in {Leaving, Gone} ==> !Stopped(g, b)
  {
    RunKeepsInv(g0, 0, steps);
  }

  /** The least share of a member is something from the beginning on. */
  predicate AlwaysAtLeast(g0: Group, steps: seq<Step>, floor: nat) {
    g0.minShare >= floor && RunRespects(steps, floor)
  }

  /** In every run an empty bucket means that the group is suspended, and so that no member is granted anything, when the least
      share of a member is never nothing. */
  lemma NothingGranted(g0: Group, steps: seq<Step>, own: int)
    requires Initial(g0) && Run(g0, steps) && AlwaysAtLeast(g0, steps, 1)
    ensures var g := End(g0, steps);
            && (g.limit <= 0 ==> g.suspended)
            && (g.members != [] && (g.suspended || g.limit <= 0) ==> Granted(g, own) == 0)
  {
    RunKeepsInv(g0, 1, steps);
  }

  /** An empty bucket means that the group is suspended. */
  predicate EmptyIsSuspended(g0: Group, steps: seq<Step>)
    requires Run(g0, steps)
  {
    End(g0, steps).limit <= 0 ==> End(g0, steps).suspended
  }

  /** It does in every run just when the least share of a member is never nothing: otherwise a refill that brings the bucket to
      nothing at all sets the group going. */
  lemma LeastShareDecides(m: nat)
    ensures m >= 1 <==> forall g0, steps :: Initial(g0) && Run(g0, steps) && AlwaysAtLeast(g0, steps, m) ==> EmptyIsSuspended(g0, steps)
  {
    hide Run, RunRespects;
    if m >= 1 {
      forall g0, steps | Initial(g0) && Run(g0, steps) && AlwaysAtLeast(g0, steps, m)
        ensures EmptyIsSuspended(g0, steps)
      {
        MoreThanOne(steps, m);
        NothingGranted(g0, steps, 0);
      }
    } else {
      NoShare();
    }
  }

  lemma MoreThanOne(steps: seq<Step>, m: nat)
    requires m >= 1 && RunRespects(steps, m)
    ensures RunRespects(steps, 1)
  {}

  /** A run with a least share of nothing that ends with an empty bucket and the group going. */
  lemma NoShare()
    ensures exists g0, steps :: Initial(g0) && Run(g0, steps) && AlwaysAtLeast(g0, steps, 0) && !EmptyIsSuspended(g0, steps)
  {
    var g0 := Group([], {}, map[], false, false, NoWalk, 1, 0);
    var steps := [Decrement(None, 6, 0), EndWalk, Refill(5, 0)];
    var g1 := Next(g0, steps[0]);
    var g2 := Next(g1, steps[1]);
    assert steps[1..] == [EndWalk, Refill(5, 0)] && steps[1..][1..] == [Refill(5, 0)] && steps[1..][1..][1..] == [];
    assert Run(g2, [Refill(5, 0)]) && Run(g1, steps[1..]) && Run(g0, steps);
    assert AlwaysAtLeast(g0, steps, 0) && !EmptyIsSuspended(g0, steps);
  }

  // Going on again

  /** What each step does to the bucket, and to whether the group is suspended; all the others leave both alone. */
  lemma StepEffects(g: Group, s: Step)
    requires Enabled(g, s)
    ensures Next(g, s).limit == match s
                                case Decrement(_, bytes, _) => g.limit - bytes
                                case DecrementByHand(decr, _) => g.limit - decr
                                case Refill(bytes, _) => g.limit + bytes
                                case Clip(maximum) => if g.limit > maximum then maximum else g.limit
                                case _ => g.limit
    ensures Next(g, s).suspended == match s
                                    case Decrement(_, bytes, _) => g.limit <= bytes
                                    case DecrementByHand(decr, _) =>
                                      if g.limit > 0 && g.limit <= decr then true
                                      else if g.limit <= 0 && g.limit > decr then false
                                      else g.suspended
                                    case Refill(bytes, _) => g.suspended && !g.pending && g.limit + bytes < g.minShare
                                    case _ => g.suspended
    // a change of that starts a walk over all the members
    ensures !g.suspended && Next(g, s).suspended ==> Next(g, s).walk.Suspending? && Next(g, s).walk.todo == g.members
    ensures g.suspended && !Next(g, s).suspended && s.start <= |g.members| ==>
              Next(g, s).walk.Unsuspending? && Next(g, s).walk.todo == g.members[s.start..] + g.members[..s.start]
    // who is marked
    ensures s.Query? ==> Next(g, s).marked == if g.suspended then g.marked + {s.b} else g.marked
    ensures s.FinishJoin? ==> Next(g, s).marked == if g.phase[s.b].suspended then g.marked + {s.b} else g.marked
    ensures s.FinishLeave? ==> Next(g, s).marked == g.marked - {s.b}
    ensures s.Visit? ==> Next(g, s).marked == if !s.locks then g.marked
                                              else if g.walk.Suspending? then g.marked + {g.walk.todo[0]}
                                              else g.marked - {g.walk.todo[0]}
    ensures !s.Query? && !s.FinishJoin? && !s.FinishLeave? && !s.Visit? ==> Next(g, s).marked == g.marked
  {}

  /** A walk to its end, with whatever other threads do in between. */
  predicate WalksToEnd(steps: seq<Step>) {
    && steps != [] && steps[|steps| - 1].EndWalk?
    && forall i :: 0 <= i < |steps| - 1 ==> !steps[i].EndWalk?
  }

  /** Some member's lock could not be had. */
  predicate SomeFail(steps: seq<Step>) {
    exists i :: 0 <= i < |steps| && steps[i] == Visit(false)
  }

  /** A step while the group is being unsuspended. */
  lemma OneStepOfWalk(g: Group, s: Step)
    requires Inv(g, 0) && g.walk.Unsuspending? && Enabled(g, s) && !s.EndWalk?
    ensures var g' := Next(g, s);
            && Inv(g', 0) && g'.walk.Unsuspending? && g'.members == g.members && !g'.suspended
            && g'.walk.again == (g.walk.again || s == Visit(false))
  {
    hide NoneForgotten, PhasesOk;
    StepKeepsInv(g, 0, s);
  }

  /** Once the group has been unsuspended it is neither suspended nor, unless some lock could not be had, to be unsuspended again, and
      then nobody is stopped. */
  lemma {:induction false} WalkEnds(g: Group, steps: seq<Step>)
    requires Inv(g, 0) && g.walk.Unsuspending? && Run(g, steps) && WalksToEnd(steps)
    ensures var g' := End(g, steps);
            && Inv(g', 0) && g'.walk.NoWalk? && !g'.suspended && g'.members == g.members
            && (g'.pending <==> g.walk.again || SomeFail(steps))
            && (!g'.pending ==> forall b :: b in g'.members ==> !Stopped(g', b))
    decreases |steps|
  {
    hide Inv, Stopped;
    if |steps| == 1 {
      LastStepOfWalk(g, steps);
    } else {
      OneStepOfWalk(g, steps[0]);
      WalkEnds(Next(g, steps[0]), steps[1..]);
      MoreFail(steps);
    }
  }

  lemma MoreFail(steps: seq<Step>)
    requires |steps| > 1
    ensures SomeFail(steps) <==> steps[0] == Visit(false) || SomeFail(steps[1..])
  {
    if SomeFail(steps[1..]) {
      var i :| 0 <= i < |steps[1..]| && steps[1..][i] == Visit(false);
      assert steps[i + 1] == Visit(false);
    }
    assert forall i :: 0 < i < |steps| ==> steps[1..][i - 1] == steps[i];
  }

  lemma LastStepOfWalk(g: Group, steps: seq<Step>)
    requires Inv(g, 0) && g.walk.Unsuspending? && Run(g, steps) && |steps| == 1 && steps[0].EndWalk?
    ensures var g' := End(g, steps);
            && Inv(g', 0) && g'.walk.NoWalk? && !g'.suspended && g'.members == g.members
            && (g'.pending <==> g.walk.again || SomeFail(steps))
            && (!g'.pending ==> forall b :: b in g'.members ==> !Stopped(g', b))
  {
    assert steps[1..] == [];
    EndStep(g, 0);
  }

  /** In every interleaving: when nobody walks and the group is suspended, a refill that brings the bucket to the least share, and
      when the group is to be unsuspended, any refill, sets the group going with a walk over all the members.  At the end of the walk
      the group is not suspended.  If every lock could be had, no member is stopped; if not, the next refill, whatever it brings,
      walks over all the members again. */
  lemma RefillSetsGoing(g0: Group, steps: seq<Step>, bytes: nat, start: nat, walk: seq<Step>)
    requires Initial(g0) && Run(g0, steps) && End(g0, steps).walk.NoWalk? && start <= |End(g0, steps).members|
    requires var g := End(g0, steps); g.pending || (g.suspended && g.limit + bytes >= g.minShare)
    ensures var g, g1 := End(g0, steps), Next(End(g0, steps), Refill(bytes, start));
            && g1.limit == g.limit + bytes && !g1.suspended && g1.members == g.members
            && g1.walk.Unsuspending? && !g1.walk.again && (forall b :: b in g1.walk.todo <==> b in g.members)
            && (Run(g1, walk) && WalksToEnd(walk) ==>
                  var g2 := End(g1, walk);
                  && g2.walk.NoWalk? && !g2.suspended && g2.members == g.members && (g2.pending <==> SomeFail(walk))
                  && (!SomeFail(walk) ==> forall b :: b in g.members ==> !Stopped(g2, b))
                  && (SomeFail(walk) ==> forall more: nat ::
                        Next(g2, Refill(more, 0)).walk == Unsuspending(g.members, false, None)))
  {
    hide Inv, Run, Stopped;
    var g := End(g0, steps);
    InitialInv(g0);
    RunKeepsInv(g0, 0, steps);
    StepKeepsInv(g, 0, Refill(bytes, start));
    MembersOnce(g);
    FromPlaceMeaning(g.members, start);
    var g1 := Next(g, Refill(bytes, start));
    if Run(g1, walk) && WalksToEnd(walk) {
      WalkEnds(g1, walk);
      FromTheFirst(g.members);
    }
  }

  lemma MembersOnce(g: Group)
    requires Inv(g, 0)
    ensures Unique(g.members)
  {}

  lemma FromTheFirst(members: seq<nat>)
    ensures FromPlace(members, 0) == members
  {}

  /** So many visits that all find the lock free. */
  function Visits(n: nat): seq<Step> {
    if n == 0 then [EndWalk] else [Visit(true)] + Visits(n - 1)
  }

  lemma {:induction false} VisitsWalk(n: nat)
    ensures WalksToEnd(Visits(n)) && !SomeFail(Visits(n))
  {
    if n > 0 {
      VisitsWalk(n - 1);
      assert Visits(n)[1..] == Visits(n - 1);
    }
  }

  /** When nobody holds a lock, the walk that a refill starts can be gone to its end. */
  lemma {:induction false} VisitsCanRun(g: Group)
    requires g.walk.Unsuspending? && forall b :: b in g.walk.todo ==> PhaseOf(g, b) == Free
    ensures Run(g, Visits(|g.walk.todo|))
    decreases |g.walk.todo|
  {
    if g.walk.todo != [] {
      var g1 := Next(g, Visit(true));
      assert g.walk.todo[0] in g.walk.todo && forall b :: b in g1.walk.todo ==> b in g.walk.todo;
      VisitsCanRun(g1);
      assert Visits(|g.walk.todo|)[1..] == Visits(|g1.walk.todo|);
    } else {
      assert Visits(0)[1..] == [];
    }
  }

  /** No wedge: from every state that can be reached in which nobody walks or holds a lock, a refill that brings the bucket to the
      least share, and the walk that it starts, lead to a state in which no member is stopped. */
  lemma EverybodyGoesOn(g0: Group, steps: seq<Step>, bytes: nat)
    requires Initial(g0) && Run(g0, steps)
    requires var g := End(g0, steps);
             g.walk.NoWalk? && g.limit + bytes >= g.minShare && forall b :: b in g.members ==> PhaseOf(g, b) == Free
    ensures var g := End(g0, steps);
            g.suspended || g.pending ==>
              var more := [Refill(bytes, 0)] + Visits(|g.members|);
              && Run(g, more) && End(g, more).members == g.members
              && !End(g, more).suspended && !End(g, more).pending && forall b :: b in g.members ==> !Stopped(End(g, more), b)
    ensures var g := End(g0, steps);
            !g.suspended && !g.pending ==> forall b :: b in g.members ==> !Stopped(g, b)
  {
    hide Inv, Stopped;
    var g := End(g0, steps);
    if g.suspended || g.pending {
      var more := [Refill(bytes, 0)] + Visits(|g.members|);
      RefillSetsGoing(g0, steps, bytes, 0, Visits(|g.members|));
      FromTheFirst(g.members);
      var g1 := Next(g, Refill(bytes, 0));
      VisitsCanRun(g1);
      VisitsWalk(|g.members|);
      assert more[1..] == Visits(|g.members|);
    } else {
      forall b | b in g.members
        ensures !Stopped(g, b)
      {
        NobodyIsStuck(g0, steps, b);
      }
    }
  }

  // What is granted

  /** What queries grant to the members, given what their own buckets hold. */
  function TotalGranted(g: Group, own: seq<int>): nat
    requires g.members != []
  {
    if own == [] then 0 else Granted(g, own[0]) + TotalGranted(g, own[1..])
  }

  /** While the group goes on a member's share is its equal part of the bucket, or the least share if that is more. */
  lemma ShareIsEqualPart(g: Group)
    requires g.members != []
    ensures g.suspended ==> Share(g) == 0
    ensures !g.suspended ==> Share(g) >= g.minShare
    ensures !g.suspended && Share(g) != g.minShare ==> |g.members| * Share(g) <= g.limit < |g.members| * (Share(g) + 1)
  {}

  lemma {:induction false} GrantedAtMost(g: Group, own: seq<int>)
    requires g.members != [] && Share(g) >= 0
    ensures TotalGranted(g, own) <= |own| * Share(g)
    decreases |own|
  {
    if own != [] {
      GrantedAtMost(g, own[1..]);
      assert |own| * Share(g) == Share(g) + |own[1..]| * Share(g);
    }
  }

  /** What all the members are granted while the group goes on is no more than the bucket holds, unless the least share has to be
      granted; nobody is granted more than its own bucket holds, nor less than that or its share. */
  lemma SharesFit(g: Group, own: seq<int>)
    requires g.members != [] && |own| == |g.members|
    ensures !g.suspended && Share(g) != g.minShare ==> TotalGranted(g, own) <= g.limit
    ensures forall i :: 0 <= i < |own| && own[i] >= 0 ==> Granted(g, own[i]) == if own[i] <= Share(g) then own[i] else Share(g)
  {
    ShareIsEqualPart(g);
    GrantedAtMost(g, own);
  }

  // Reading and writing together

  /** The group in both directions: its members and the locks are the same in both. */
  datatype Both = Both(read: Group, write: Group)

  datatype BothStep = Common(s: Step) | Reading(s: Step) | Writing(s: Step)

  /** Locking, joining, leaving and the least share concern both directions at once. */
  predicate IsCommon(s: Step) {
    s.Lock? || s.Unlock? || s.Join? || s.FinishJoin? || s.Leave? || s.FinishLeave? || s.Quit? || s.SetShare?
  }

  /** The lock of the group is held for one direction at a time. */
  predicate EnabledBoth(t: Both, s: BothStep) {
    match s
    case Common(s) => IsCommon(s) && Enabled(t.read, s) && Enabled(t.write, s)
    case Reading(s) => !IsCommon(s) && Enabled(t.read, s) && t.write.walk.NoWalk?
    case Writing(s) => !IsCommon(s) && Enabled(t.write, s) && t.read.walk.NoWalk?
  }

  function NextBoth(t: Both, s: BothStep): Both
    requires EnabledBoth(t, s)
  {
    match s
    case Common(s) => Both(Next(t.read, s), Next(t.write, s))
    case Reading(s) => t.(read := Next(t.read, s))
    case Writing(s) => t.(write := Next(t.write, s))
  }

  predicate RunBoth(t: Both, steps: seq<BothStep>)
    decreases |steps|
  {
    steps == [] || (EnabledBoth(t, steps[0]) && RunBoth(NextBoth(t, steps[0]), steps[1..]))
  }

  function EndBoth(t: Both, steps: seq<BothStep>): Both
    requires RunBoth(t, steps)
    decreases |steps|
  {
    if steps == [] then t else EndBoth(NextBoth(t, steps[0]), steps[1..])
  }

  /** The steps that concern reading, or those that concern writing. */
  function Part(steps: seq<BothStep>, reading: bool): seq<Step> {
    if steps == [] then []
    else if (if reading then steps[0].Writing? else steps[0].Reading?) then Part(steps[1..], reading)
    else [steps[0].s] + Part(steps[1..], reading)
  }

  /** What a run in both directions does to each is a run of its own. */
  lemma {:induction false} EachIsARun(t: Both, steps: seq<BothStep>)
    requires RunBoth(t, steps)
    ensures Run(t.read, Part(steps, true)) && EndBoth(t, steps).read == End(t.read, Part(steps, true))
    ensures Run(t.write, Part(steps, false)) && EndBoth(t, steps).write == End(t.write, Part(steps, false))
    decreases |steps|
  {
    hide Enabled, Next;
    if steps != [] {
      var s, rest := steps[0], steps[1..];
      EachIsARun(NextBoth(t, s), rest);
      assert forall q: seq<Step> :: ([s.s] + q)[1..] == q;
    }
  }

  /** Both directions know the same members, hold the same locks for the same ends, and at most one walks. */
  ghost predicate Agree(t: Both) {
    && t.read.members == t.write.members && t.read.minShare == t.write.minShare
    && (t.read.walk.NoWalk? || t.write.walk.NoWalk?)
    && forall b: nat :: SamePhase(PhaseOf(t.read, b), PhaseOf(t.write, b))
  }

  predicate SamePhase(p: Phase, q: Phase) {
    p == q || (p.Joining? && q.Joining?)
  }

  /** What the lock of the bufferevent that a common step is about is held for after it. */
  function NewPhase(g: Group, s: Step): Phase {
    match s
    case Unlock(_) => Free
    case Join(_) => Joining(g.suspended)
    case Leave(_) => Leaving
    case Quit(_) => Gone
    case _ => Held
  }

  lemma CommonStep(g: Group, s: Step)
    requires IsCommon(s) && Enabled(g, s)
    ensures var g' := Next(g, s);
            && g'.walk == g.walk
            && g'.minShare == (if s.SetShare? then s.share else g.minShare)
            && g'.members == (if s.Join? then [s.b] + g.members else if s.Leave? || s.Quit? then Remove(g.members, s.b) else g.members)
            && forall b: nat :: PhaseOf(g', b) == if !s.SetShare? && b == s.b then NewPhase(g, s) else PhaseOf(g, b)
  {
    hide Remove;
  }

  lemma OwnStep(g: Group, s: Step)
    requires !IsCommon(s) && Enabled(g, s)
    ensures var g' := Next(g, s); g'.members == g.members && g'.phase == g.phase && g'.minShare == g.minShare
  {}

  lemma AgreeStep(t: Both, s: BothStep)
    requires Agree(t) && EnabledBoth(t, s)
    ensures Agree(NextBoth(t, s))
  {
    hide Enabled, Next;
    match s {
      case Common(s) =>
        CommonStep(t.read, s);
        CommonStep(t.write, s);
      case Reading(s) => OwnStep(t.read, s);
      case Writing(s) => OwnStep(t.write, s);
    }
  }

  /** In every interleaving of both directions, no member is stopped from reading or from writing when the group goes on in
      that direction and nothing is pending there. */
  lemma {:induction false} NobodyIsStuckEitherWay(t0: Both, steps: seq<BothStep>, b: nat)
    requires Initial(t0.read) && Initial(t0.write) && Agree(t0) && RunBoth(t0, steps)
    ensures var t := EndBoth(t0, steps);
            && Agree(t) && Inv(t.read, 0) && Inv(t.write, 0)
            && forall g :: g in [t.read, t.write] && b in g.members && g.walk.NoWalk? && !g.suspended && !g.pending ==> !Stopped(g, b)
  {
    hide Run, RunBoth, Enabled, EnabledBoth, Agree, Inv;
    EachIsARun(t0, steps);
    BothAgree(t0, steps);
    InitialInv(t0.read);
    InitialInv(t0.write);
    RunKeepsInv(t0.read, 0, Part(steps, true));
    RunKeepsInv(t0.write, 0, Part(steps, false));
    NobodyIsStuck(t0.read, Part(steps, true), b);
    NobodyIsStuck(t0.write, Part(steps, false), b);
  }

  lemma InitialInv(g: Group)
    requires Initial(g)
    ensures Inv(g, 0)
  {}

  lemma {:induction false} BothAgree(t: Both, steps: seq<BothStep>)
    requires Agree(t) && RunBoth(t, steps)
    ensures Agree(EndBoth(t, steps))
    decreases |steps|
  {
    hide Agree, EnabledBoth, NextBoth;
    if steps != [] {
      AgreeStep(t, steps[0]);
      BothAgree(NextBoth(t, steps[0]), steps[1..]);
    }
  }

  /** Goes over the members from the `which`-th one to the end, and then from the first one up to that. */
  method RandomOrder(members: seq<nat>, which: nat) returns (visited: seq<nat>)
    requires Unique(members) && (members == [] || which < |members|)
    ensures visited == FromPlace(members, if members == [] then 0 else which)
    // each member is visited exactly once
    ensures Unique(visited) && |visited| == |members| && forall b :: b in visited <==> b in members
  {
    visited := [];
    // the place of the random element; the end of an empty list
    var first := if members == [] then 0 else which;
    FromPlaceMeaning(members, first);
    var i := first;
    while i < |members|
      invariant first <= i <= |members| && visited == members[first..i]
    {
      visited := visited + [members[i]];
      i := i + 1;
    }
    i := 0;
    while i < |members| && members[i] != members[first]
      invariant i <= first && visited == members[first..] + members[..i]
    {
      visited := visited + [members[i]];
      i := i + 1;
    }
    assert members != [] ==> i == first;
  }
}
