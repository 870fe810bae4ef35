/** The table that turns a batched change of interest in a file descriptor into one epoll operation. */
module EpollTable {
  /** What is asked, or to be watched, of a file descriptor. */
  datatype Interest = Interest(read: bool, write: bool, closed: bool)

  const NOTHING := Interest(false, false, false)

  /** A pending change of one kind of interest. */
  datatype Ch = Keep | Set | Unset

  datatype Change = Change(fd: int, oldEvents: Interest, read: Ch, write: Ch, closed: Ch)

  datatype Op = NoOp | CtlAdd | CtlMod | CtlDel

  function Apply(ch: Ch, was: bool): bool {
    ch == Set || (ch == Keep && was)
  }

  /** The interest once the change has been made. */
  function Wanted(c: Change): Interest {
    Interest(Apply(c.read, c.oldEvents.read), Apply(c.write, c.oldEvents.write), Apply(c.closed, c.oldEvents.closed))
  }

  /** The entry of the table for a change.  The entries for a change that is both an addition and a deletion cannot
      be reached. */
  function TableEntry(c: Change): (r: (Interest, Op)) {
    if c.read == Set || c.write == Set || c.closed == Set then
      (Wanted(c), if c.oldEvents == NOTHING then CtlAdd else CtlMod)
    else if c.read == Unset || c.write == Unset || c.closed == Unset then
      if Wanted(c) != NOTHING then (Wanted(c), CtlMod)
      else (Interest(c.read == Unset, c.write == Unset, c.closed == Unset), CtlDel)
    else
      (NOTHING, NoOp)
  }

  /** What an operation leaves the kernel watching. */
  function Kernel(watched: Interest, events: Interest, op: Op): Interest {
    match op
    case NoOp => watched
    case CtlAdd => events
    case CtlMod => events
    case CtlDel => NOTHING
  }

  /** The kernel only adds what it does not watch yet, and only modifies or deletes what it does. */
  predicate Accepts(watched: Interest, op: Op) {
    match op
    case NoOp => true
    case CtlAdd => watched == NOTHING
    case CtlMod => watched != NOTHING
    case CtlDel => watched != NOTHING
  }

  /** Only what is watched is ever to be given up. */
  predicate Reducible(c: Change) {
    && (c.read == Unset ==> c.oldEvents.read) && (c.write == Unset ==> c.oldEvents.write) && (c.closed == Unset ==> c.oldEvents.closed)
  }

  /** One operation of the kernel makes the whole change, and the kernel accepts it. */
  lemma OneOperation(c: Change)
    requires Reducible(c)
    ensures var (events, op) := TableEntry(c);
            Accepts(c.oldEvents, op) && Kernel(c.oldEvents, events, op) == Wanted(c)
  {}

  /** The table does not meet this for a deletion of what is not watched: the kernel is asked to delete what it does not watch. */
  lemma IrreducibleExample()
    ensures var c := Change(0, NOTHING, Unset, Keep, Keep);
            TableEntry(c).1 == CtlDel && !Accepts(c.oldEvents, TableEntry(c).1)
  {}

  /** It is accepted exactly when something is added, or something is left or was watched, or nothing is asked. */
  lemma AcceptedWhen(c: Change)
    ensures Kernel(c.oldEvents, TableEntry(c).0, TableEntry(c).1) == Wanted(c)
    ensures Accepts(c.oldEvents, TableEntry(c).1) <==>
              c.oldEvents != NOTHING || c.read == Set || c.write == Set || c.closed == Set ||
              (c.read == Keep && c.write == Keep && c.closed == Keep)
  {}
}
