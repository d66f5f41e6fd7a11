/** What is true of the mark bits and the mark stack between any two steps of the marker. */
module MarkState {
  import opened Basics
  import opened MarkWorld

  /** GC_mark_state, without the rescuing phase of incremental collections. */
  datatype Phase = MsNone | MsPushUncollectable | MsRootsPushed | MsPartiallyInvalid | MsInvalid

  /** Some entry of the stack still has the word at a to look at. */
  ghost predicate Pending(w: World, stack: seq<Entry>, a: int) {
    exists e :: e in stack && InEntry(w, e, a)
  }

  /** Examined, on the stack, or in `hand`: taken off the stack by the running scan loop and not
      considered yet. */
  ghost predicate Settled(w: World, marked: set<nat>, stack: seq<Entry>, hand: iset<int>, a: int, t: Option<nat>) {
    t.Some? ==> t.value in marked || Pending(w, stack, a) || a in hand
  }

  /** The phases in which a marked object may have unexamined fields: the heap scan that is still
      to come, at or above the scan pointer (0 when it is NULL), will push the object again. */
  ghost predicate Excused(w: World, phase: Phase, scan: nat, o: nat)
    requires IsObj(w, o)
  {
    var b := w.blocks[w.home(o)];
    match phase
    case MsInvalid => true
    case MsPartiallyInvalid => scan <= b.start
    case MsPushUncollectable => b.kind == Uncollectable && scan <= b.start
    case MsRootsPushed => false
    case MsNone => false
  }

  /** Every field of every marked object has been examined, is on the stack, or is excused. */
  ghost predicate FieldsCovered(w: World, phase: Phase, scan: nat, marked: set<nat>, stack: seq<Entry>, hand: iset<int>) {
    forall o, a :: o in marked && Field(w, o, a) ==>
      Excused(w, phase, scan, o) || Settled(w, marked, stack, hand, a, Target(w, a))
  }

  /** The words of these static ranges have been examined or will be. */
  ghost predicate StaticCovered(w: World, rs: seq<(int, int)>, marked: set<nat>, stack: seq<Entry>, hand: iset<int>) {
    forall r, a :: r in rs && InRange(w, r, a) ==> Settled(w, marked, stack, hand, a, Target(w, a))
  }

  /** The same for thread stacks.  A scan from the mark stack resolves a word as a heap word, which
      is good enough only if interior pointers are recognised everywhere. */
  ghost predicate StackCovered(w: World, rs: seq<(int, int)>, marked: set<nat>, stack: seq<Entry>, hand: iset<int>) {
    forall r, a :: r in rs && InRange(w, r, a) && StackTarget(w, a).Some? ==>
      || StackTarget(w, a).value in marked
      || (w.allInterior && Settled(w, marked, stack, hand, a, Target(w, a)))
  }

  /** Whatever the word at a names is reachable, so marking it marks no garbage. */
  ghost predicate Harmless(w: World, kept: set<nat>, a: int) {
    Target(w, a).Some? ==> Reachable(w, kept, Target(w, a).value)
  }

  ghost predicate MarksReachable(w: World, kept: set<nat>, marked: set<nat>) {
    forall o :: o in marked ==> IsObj(w, o) && Reachable(w, kept, o)
  }

  ghost predicate StackHarmless(w: World, kept: set<nat>, stack: seq<Entry>) {
    && (forall e :: e in stack ==> EntryOk(w, e))
    && (forall e, a :: e in stack && InEntry(w, e, a) ==> Harmless(w, kept, a))
  }

  ghost predicate HandHarmless(w: World, kept: set<nat>, hand: iset<int>) {
    forall a :: a in hand ==> Harmless(w, kept, a)
  }

  /** The part of the invariant that does not mention roots. */
  ghost predicate Core(w: World, kept: set<nat>, phase: Phase, scan: nat, marked: set<nat>,
                       stack: seq<Entry>, hand: iset<int>) {
    && kept <= marked
    && MarksReachable(w, kept, marked)
    && StackHarmless(w, kept, stack)
    && HandHarmless(w, kept, hand)
    && FieldsCovered(w, phase, scan, marked, stack, hand)
  }

  ghost predicate RootsCovered(w: World, marked: set<nat>, stack: seq<Entry>, hand: iset<int>) {
    && w.freeListBases <= marked
    && StaticCovered(w, w.staticRoots, marked, stack, hand)
    && StackCovered(w, w.stackRoots, marked, stack, hand)
  }

  ghost predicate Inv(w: World, kept: set<nat>, phase: Phase, scan: nat, marked: set<nat>,
                      stack: seq<Entry>, hand: iset<int>) {
    && Core(w, kept, phase, scan, marked, stack, hand)
    && (phase == MsRootsPushed || phase == MsNone ==> RootsCovered(w, marked, stack, hand))
    && (phase == MsNone ==> stack == [])
  }

  /** Entries that GC_signal_mark_stack_overflow throws away. */
  function Discards(w: World): nat { w.initialStack / 8 }

  /** What one PUSH_CONTENTS of a word that resolves to t does, with room for cap entries. */
  ghost predicate PushEffect(w: World, cap: nat, t: Option<nat>,
                             phase: Phase, marked: set<nat>, stack: seq<Entry>,
                             phase': Phase, marked': set<nat>, stack': seq<Entry>)
  {
    if t == None || t.value in marked then
      phase' == phase && marked' == marked && stack' == stack
    else
      && IsObj(w, t.value)
      && marked' == marked + {t.value}
      && if DescrOf(w, t.value) == Length(0) then
           phase' == phase && stack' == stack
         else if |stack| < cap then
           phase' == phase && stack' == stack + [ObjEntry(w, t.value)]
         else
           && phase' == MsInvalid
           && Discards(w) <= cap == |stack|
           && stack' == stack[..cap - Discards(w)] + [ObjEntry(w, t.value)]
  }

  /** The words that entry e stands for. */
  ghost function EntryWords(w: World, e: Entry): iset<int> { iset a: int | InEntry(w, e, a) }
}
