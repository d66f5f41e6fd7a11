/** GC_do_parallel_mark as a state machine: any number of threads share one mark stack.  An action is
    one access to shared memory, or what one thread does between two of them. */
module ParallelState {
  import opened Basics
  import opened MarkWorld
  import opened MarkState
  import opened MarkWork

  const LOCAL_MARK_STACK_SIZE: nat := HBLKSIZE
  const SHARE_BYTES: nat := 2048
  const ENTRIES_TO_GET: nat := 5

  /** Where a thread is in GC_mark_local and the functions it calls. */
  datatype Pc =
    | Out                                      // not marking
    | Top                                      // at the head of the loop
    | Compare(seen: nat)                       // has read GC_first_nonempty
    | Probe                                    // about to read GC_mark_stack_top
    | Recheck                                  // wants the mark lock, to read it again
    | Look                                     // has the lock
    | Check                                    // has the lock, is inactive, about to wait
    | Asleep                                   // in GC_wait_marker
    | Decide                                   // has the lock, is done waiting
    | Steal(myTop: nat, got: nat, max: nat)    // in GC_steal_mark_stack
    | Claim(myTop: nat, got: nat, max: nat, e: Entry)    // has read e, not yet stored 0 over it
    | Mark                                     // in GC_do_local_mark
    | Giving(k: nat)                           // wants the lock, to return k entries
    | Give(k: nat)                             // has the lock
    | Publish(k: nat)                          // has copied them, not yet moved GC_mark_stack_top
    | Finished                                 // GC_do_parallel_mark waits for the helpers
    | Ended                                    // and has returned

  /** `mine` is my_first_nonempty, `local` the local mark stack, `hand` the words of the range being
      scanned that were not considered yet. */
  datatype Thread = Thread(pc: Pc, mine: nat, local: seq<Entry>, hand: iset<int>)

  /** cells is GC_mark_stack, None standing for a zero descriptor; `top` counts the entries, so that
      GC_mark_stack_top is at top - 1; `first` is GC_first_nonempty.  `left` is a history variable:
      some thread has returned from GC_mark_local. */
  datatype Shared = Shared(cells: seq<Option<Entry>>, top: nat, first: nat, lock: Option<nat>,
                           helpWanted: bool, helpers: int, active: int, phase: Phase, marked: set<nat>,
                           threads: seq<Thread>, left: bool)

  datatype Action =
    | Join | LoadFirst | Advance | LoadTop | Lock | LookAgain | CheckWait | Conclude | End
    | LoadCell | ClearCell | Visit | Split | Consider(a: int, stale: bool) | Emptied | Return(k: nat) | Copy | Release

  predicate Inside(pc: Pc) { !pc.Out? && !pc.Finished? && !pc.Ended? }
  predicate Waiting(pc: Pc) { pc.Check? || pc.Asleep? || pc.Decide? }
  predicate IsActive(pc: Pc) { Inside(pc) && !Waiting(pc) }
  predicate HasLock(pc: Pc) { pc.Look? || pc.Check? || pc.Decide? || pc.Give? || pc.Publish? }

  /** Where the local mark stack may be in use. */
  predicate Working(pc: Pc) { pc.Steal? || pc.Claim? || pc.Mark? || pc.Giving? || pc.Give? || pc.Publish? }

  function Entries(n: nat): nat { if n < 2 * ENTRIES_TO_GET then 1 else ENTRIES_TO_GET }

  /** Big entries count for more. */
  function Weight(e: Entry): nat { 1 + if e.descr.Length? then e.descr.n / 256 else 0 }

  function Front(e: Entry): Entry
    requires e.descr.Length?
  {
    Entry(e.start, Length(e.descr.n / 2 / WORD * WORD + WORD))
  }

  function Back(e: Entry): Entry
    requires e.descr.Length?
  {
    Entry(e.start + e.descr.n / 2 / WORD * WORD, Length(e.descr.n - e.descr.n / 2 / WORD * WORD))
  }

  /** The mark bit that PUSH_CONTENTS reads may be stale: then the object is pushed once more. */
  function SeenMarks(w: World, g: Shared, a: int, stale: bool): set<nat> {
    if stale && Target(w, a).Some? then g.marked - {Target(w, a).value} else g.marked
  }

  ghost predicate Enabled(w: World, g: Shared, t: nat, x: Action) {
    t < |g.threads| &&
    var th := g.threads[t];
    match x
    case Join => t != 0 && th.pc.Out? && g.lock.None? && g.helpWanted
    case LoadFirst => th.pc.Top?
    case Advance => th.pc.Compare?
    case LoadTop => th.pc.Probe?
    case Lock => g.lock.None? && (th.pc.Recheck? || th.pc.Asleep? || th.pc.Giving?)
    case LookAgain => th.pc.Look?
    case CheckWait => th.pc.Check?
    case Conclude => th.pc.Decide?
    case End => th.pc.Finished? && g.lock.None? && g.helpers <= 0
    case LoadCell => th.pc.Steal?
    case ClearCell => th.pc.Claim? && th.mine < |g.cells|
    case Visit => th.pc.Mark? && th.hand == iset{} && th.local != []
    case Split =>
      && th.pc.Mark? && th.hand == iset{} && th.local != []
      && th.local[|th.local| - 1].descr.Length? && th.local[|th.local| - 1].descr.n > SHARE_BYTES
      && |th.local| < LOCAL_MARK_STACK_SIZE
    case Consider(a, stale) =>
      && th.pc.Mark? && a in th.hand && |th.local| <= LOCAL_MARK_STACK_SIZE
      && (Target(w, a).Some? ==> IsObj(w, Target(w, a).value)) && Discards(w) <= LOCAL_MARK_STACK_SIZE
    case Emptied => th.pc.Mark? && th.hand == iset{} && th.local == []
    // To return half of the stack GC_do_local_mark also asks whether the shared stack looks empty and
    // helpers wait; whatever it is told, returning entries is safe.
    case Return(k) =>
      && th.pc.Mark? && th.hand == iset{}
      && if k == |th.local| then k > LOCAL_MARK_STACK_SIZE / 2 else |th.local| > 2 && k == (|th.local| - 1) / 2
    case Copy => th.pc.Give? && th.pc.k <= |th.local|
    case Release => th.pc.Publish? && th.pc.k <= |th.local|
  }

  function Set(g: Shared, t: nat, th: Thread): Shared
    requires t < |g.threads|
  {
    g.(threads := g.threads[t := th])
  }

  /** What PUSH_CONTENTS makes of the phase, the marks seen and the local stack. */
  ghost function Pushed(w: World, g: Shared, t: nat, a: int, stale: bool): (Phase, set<nat>, seq<Entry>)
    requires Enabled(w, g, t, Consider(a, stale))
  {
    var th := g.threads[t];
    var seen := SeenMarks(w, g, a, stale);
    match Target(w, a)
    case None => (g.phase, seen, th.local)
    case Some(o) =>
      if o in seen then (g.phase, seen, th.local)
      else if DescrOf(w, o) == Length(0) then (g.phase, seen + {o}, th.local)
      else if |th.local| < LOCAL_MARK_STACK_SIZE then (g.phase, seen + {o}, th.local + [ObjEntry(w, o)])
      else (MsInvalid, seen + {o}, th.local[..LOCAL_MARK_STACK_SIZE - Discards(w)] + [ObjEntry(w, o)])
  }

  ghost function Apply(w: World, g: Shared, t: nat, x: Action): Shared
    requires Enabled(w, g, t, x)
  {
    var th := g.threads[t];
    match x
    case Join =>
      Set(g, t, Thread(Top, g.first, [], iset{})).(helpers := g.helpers + 1, active := g.active + 1)
    case LoadFirst => Set(g, t, th.(pc := Compare(g.first)))
    case Advance =>
      if th.mine < th.pc.seen then Set(g, t, th.(pc := Probe, mine := th.pc.seen))
      else if th.pc.seen < th.mine && g.first == th.pc.seen then Set(g, t, th.(pc := Probe)).(first := th.mine)
      else Set(g, t, th.(pc := Probe))
    case LoadTop =>
      Set(g, t, th.(pc := if g.top <= th.mine then Recheck else Steal(g.top, 0, Entries(g.top - th.mine))))
    case Lock =>
      Set(g, t, th.(pc := if th.pc.Recheck? then Look else if th.pc.Asleep? then Check else Give(th.pc.k))).(lock := Some(t))
    case LookAgain =>
      if g.top <= th.mine then Set(g, t, th.(pc := Check)).(active := g.active - 1)
      else Set(g, t, th.(pc := Steal(g.top, 0, Entries(g.top - th.mine)))).(lock := None)
    case CheckWait =>
      if g.active > 0 && g.first >= g.top then Set(g, t, th.(pc := Asleep)).(lock := None)
      else Set(g, t, th.(pc := Decide))
    case Conclude =>
      if g.active == 0 && g.first >= g.top then
        Set(g, t, th.(pc := if t == 0 then Finished else Out))
        .(helpers := g.helpers - 1, lock := None, left := true, helpWanted := g.helpWanted && t != 0)
      else Set(g, t, th.(pc := Top)).(active := g.active + 1, lock := None)
    case End => Set(g, t, th.(pc := Ended))
    case LoadCell =>
      if th.mine < th.pc.myTop && th.pc.got <= th.pc.max && th.mine < |g.cells| then
        match g.cells[th.mine]
        case None => Set(g, t, th.(mine := th.mine + 1))
        case Some(e) => Set(g, t, th.(pc := Claim(th.pc.myTop, th.pc.got, th.pc.max, e)))
      else Set(g, t, th.(pc := Mark))
    case ClearCell =>
      Set(g, t, th.(pc := Steal(th.pc.myTop, th.pc.got + Weight(th.pc.e), th.pc.max), mine := th.mine + 1,
                    local := th.local + [th.pc.e]))
      .(cells := g.cells[th.mine := None])
    case Visit =>
      var e := th.local[|th.local| - 1];
      Set(g, t, th.(local := th.local[..|th.local| - 1] + Rest(e), hand := Visited(w, e)))
    case Split =>
      var e := th.local[|th.local| - 1];
      Set(g, t, th.(local := th.local[..|th.local| - 1] + [Front(e), Back(e)]))
    case Consider(a, stale) =>
      var p := Pushed(w, g, t, a, stale);
      Set(g, t, th.(local := p.2, hand := th.hand - iset{a})).(phase := p.0, marked := g.marked + p.1)
    case Emptied => Set(g, t, th.(pc := Top))
    case Return(k) => Set(g, t, th.(pc := Giving(k)))
    case Copy =>
      if g.top + th.pc.k > |g.cells| then
        Set(g, t, th.(pc := Mark, local := th.local[th.pc.k..])).(phase := MsInvalid, lock := None)
      else
        Set(g, t, th.(pc := Publish(th.pc.k))).(cells := CopyTo(g.cells, g.top, th.local[..th.pc.k]))
    case Release =>
      Set(g, t, th.(pc := Mark, local := th.local[th.pc.k..])).(top := g.top + th.pc.k, lock := None)
  }

  /** BCOPY. */
  function CopyTo(cells: seq<Option<Entry>>, at: nat, s: seq<Entry>): (r: seq<Option<Entry>>)
    requires at + |s| <= |cells|
    ensures |r| == |cells|
    ensures forall i :: 0 <= i < |cells| ==> r[i] == if at <= i < at + |s| then Some(s[i - at]) else cells[i]
  {
    seq(|cells|, i requires 0 <= i < |cells| => if at <= i < at + |s| then Some(s[i - at]) else cells[i])
  }

  /** Entry e is on the shared stack or on a local one. */
  ghost predicate InPlay(g: Shared, e: Entry) {
    || (exists i :: 0 <= i < g.top && i < |g.cells| && g.cells[i] == Some(e))
    || (exists t :: 0 <= t < |g.threads| && e in g.threads[t].local)
  }

  /** The word at a will still be looked at. */
  ghost predicate Open(w: World, g: Shared, a: int) {
    || (exists t :: 0 <= t < |g.threads| && a in g.threads[t].hand)
    || (exists e :: InPlay(g, e) && InEntry(w, e, a))
  }

  /** There is nothing left to mark from, neither on the shared stack nor with any thread. */
  ghost predicate NoWork(g: Shared) {
    && (forall i :: 0 <= i < g.top && i < |g.cells| ==> g.cells[i] == None)
    && (forall t :: 0 <= t < |g.threads| ==> g.threads[t].local == [] && g.threads[t].hand == iset{} && !g.threads[t].pc.Claim?)
  }

  ghost predicate Done(w: World, g: Shared, a: int) {
    Target(w, a).Some? ==> Target(w, a).value in g.marked || Open(w, g, a)
  }

  /** The invariant of MarkState, with the work spread over all the stacks. */
  ghost predicate Sound(w: World, kept: set<nat>, scan: nat, g: Shared) {
    && g.phase != MsNone
    && kept <= g.marked && MarksReachable(w, kept, g.marked)
    && (forall a :: Open(w, g, a) ==> Harmless(w, kept, a))
    && (forall o, a :: o in g.marked && Field(w, o, a) ==> Excused(w, g.phase, scan, o) || Done(w, g, a))
    && (g.phase == MsRootsPushed ==>
          && w.freeListBases <= g.marked
          && (forall r, a :: r in w.staticRoots && InRange(w, r, a) ==> Done(w, g, a))
          && (forall r, a :: r in w.stackRoots && InRange(w, r, a) && StackTarget(w, a).Some? ==>
                StackTarget(w, a).value in g.marked || (w.allInterior && Done(w, g, a))))
  }

  /** What thread t may be in the middle of. */
  ghost predicate ThreadOk(w: World, kept: set<nat>, g: Shared, t: nat)
    requires t < |g.threads|
  {
    var th := g.threads[t];
    && (HasLock(th.pc) ==> g.lock == Some(t))
    && (!Working(th.pc) ==> th.local == [])
    && (!th.pc.Mark? ==> th.hand == iset{})
    && |th.local| <= LOCAL_MARK_STACK_SIZE
    && (forall e :: e in th.local ==> EntryOk(w, e))
    && (Inside(th.pc) ==> th.mine <= g.top && forall i :: 0 <= i < th.mine && i < |g.cells| ==> g.cells[i] == None)
    && match th.pc
       case Compare(seen) => seen <= g.first
       case Steal(myTop, got, max) => th.mine <= myTop <= g.top && |th.local| <= got && |th.local| <= max + 1 <= 6
       case Claim(myTop, got, max, e) =>
         th.mine < myTop <= g.top && |th.local| <= got <= max <= 5 && EntryOk(w, e)
         && (th.mine < |g.cells| ==> g.cells[th.mine] == Some(e) || g.cells[th.mine] == None)
         && forall a :: InEntry(w, e, a) ==> Harmless(w, kept, a)
       case Giving(k) => k <= |th.local|
       case Give(k) => k <= |th.local|
       case Publish(k) =>
         && k <= |th.local| && g.top + k <= |g.cells|
         && forall i :: g.top <= i < g.top + k ==> g.cells[i] == Some(th.local[i - g.top])
       case _ => true
  }

  function ActiveSet(ts: seq<Thread>): set<int> { set t | 0 <= t < |ts| && IsActive(ts[t].pc) }
  function InsideSet(ts: seq<Thread>): set<int> { set t | 0 <= t < |ts| && Inside(ts[t].pc) }

  ghost predicate StackOk(w: World, g: Shared) {
    && g.first <= g.top <= |g.cells|
    && (forall i :: 0 <= i < g.first ==> g.cells[i] == None)
    && (forall i :: 0 <= i < g.top && g.cells[i].Some? ==> EntryOk(w, g.cells[i].value))
  }

  ghost predicate CountsOk(g: Shared) {
    && g.active == |ActiveSet(g.threads)|
    && g.helpers == |InsideSet(g.threads)|
    && (g.left ==> NoWork(g))
    && (forall t :: 0 <= t < |g.threads| && (g.threads[t].pc.Finished? || g.threads[t].pc.Ended?) ==> t == 0 && g.left && !g.helpWanted)
    && (|g.threads| > 0 && g.threads[0].pc.Ended? ==> g.helpers == 0)
  }

  /** The invariant of the protocol. */
  ghost predicate Good(w: World, kept: set<nat>, scan: nat, g: Shared) {
    && StackOk(w, g) && CountsOk(g) && Sound(w, kept, scan, g)
    && (forall t: nat :: t < |g.threads| ==> ThreadOk(w, kept, g, t))
  }

  /** Between parallel marks: the state in which GC_do_parallel_mark does not abort. */
  ghost predicate Idle(g: Shared) {
    && |g.threads| > 0 && g.lock.None? && !g.helpWanted && g.active == 0 && g.helpers == 0 && g.top <= |g.cells|
    && (forall t :: 0 <= t < |g.threads| ==> g.threads[t] == Thread(Out, 0, [], iset{}))
  }

  /** What the thread that runs GC_do_parallel_mark does before it releases the mark lock. */
  function Begun(g: Shared): Shared
    requires |g.threads| > 0
  {
    Set(g, 0, Thread(Top, 0, [], iset{})).(first := 0, helpers := 1, active := 1, helpWanted := true, left := false)
  }

  /** Whatever the interleaving: the actions `run`, each by the thread named, one after the other. */
  ghost predicate CanRun(w: World, g: Shared, run: seq<(nat, Action)>)
    decreases |run|
  {
    run == [] || (Enabled(w, g, run[0].0, run[0].1) && CanRun(w, Apply(w, g, run[0].0, run[0].1), run[1..]))
  }

  ghost function Run(w: World, g: Shared, run: seq<(nat, Action)>): Shared
    requires CanRun(w, g, run)
    decreases |run|
  {
    if run == [] then g else Run(w, Apply(w, g, run[0].0, run[0].1), run[1..])
  }

  /** The action meets a full stack: an object is to be pushed onto a full local one, or entries are to be
      returned for which the shared one has no room. */
  ghost predicate MeetsFull(w: World, g: Shared, t: nat, x: Action)
    requires Enabled(w, g, t, x)
  {
    match x
    case Consider(a, stale) =>
      && |g.threads[t].local| == LOCAL_MARK_STACK_SIZE && Target(w, a).Some?
      && (stale || Target(w, a).value !in g.marked) && DescrOf(w, Target(w, a).value) != Length(0)
    case Copy => g.top + g.threads[t].pc.k > |g.cells|
    case _ => false
  }

  ghost predicate SomeMeetsFull(w: World, g: Shared, run: seq<(nat, Action)>)
    requires CanRun(w, g, run)
    decreases |run|
  {
    run != [] && (MeetsFull(w, g, run[0].0, run[0].1) || SomeMeetsFull(w, Apply(w, g, run[0].0, run[0].1), run[1..]))
  }
}
