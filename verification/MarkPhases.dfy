/** The heap scans and the root scan that the mark phases are made of. */
module MarkPhases {
  import opened Basics
  import opened MarkWorld
  import opened MarkState
  import opened MarkSteps
  import opened MarkWork

  /** GC_clear_marks leaves the mark bit of o alone. */
  predicate KeepsMark(w: World, o: nat) { IsObj(w, o) && IsUncollectable(w.blocks[w.home(o)].kind) }

  ghost predicate KeptOk(w: World, kept: set<nat>) { forall o :: o in kept ==> KeepsMark(w, o) }

  /** Pushing (again) an object that is marked; an overflow makes the state invalid. */
  lemma PushMarkedObject(w: World, kept: set<nat>, phase: Phase, scan: nat, marked: set<nat>, stack: seq<Entry>,
                         n: nat, o: nat, phase': Phase)
    requires WellFormed(w)
    requires Core(w, kept, phase, scan, marked, stack, iset{})
    requires o in marked && n <= |stack|
    requires (n == |stack| && phase' == phase) || phase' == MsInvalid
    ensures IsObj(w, o)
    ensures Core(w, kept, phase', scan, marked, stack[..n] + [ObjEntry(w, o)], iset{})
  {
    StackStaysHarmless(w, kept, stack, n, o);
    if phase' == phase {
      var stack' := stack[..n] + [ObjEntry(w, o)];
      assert stack[..|stack|] == stack;
      assert phase' != MsInvalid ==> stack <= stack';
      forall a, u: Option<nat> | phase' != MsInvalid && Settled(w, marked, stack, iset{}, a, u)
        ensures Settled(w, marked, stack', iset{}, a, u)
      {
        if Pending(w, stack, a) {
          var e :| e in stack && InEntry(w, e, a);
          assert e in stack';
        }
      }
    }
  }

  /** Every object of block k that is marked and may hold pointers is on the stack. */
  ghost predicate BlockOnStack(w: World, k: nat, n: nat, marked: set<nat>, stack: seq<Entry>)
    requires k < |w.blocks| && n <= |w.blocks[k].objs|
  {
    w.blocks[k].descr == Length(0) ||
    forall i :: 0 <= i < n && w.blocks[k].objs[i] in marked ==> Entry(w.blocks[k].objs[i], w.blocks[k].descr) in stack
  }

  /** Block k is the only block that the scan pointer passes over and the current phase looks at. */
  ghost predicate Passes(w: World, phase: Phase, scan: nat, k: nat)
    requires k < |w.blocks|
  {
    forall j :: 0 <= j < |w.blocks| && scan <= w.blocks[j].start < w.blocks[k].start + w.blocks[k].bytes ==>
      j == k || w.blocks[j].free || (phase == MsPushUncollectable && w.blocks[j].kind != Uncollectable)
  }

  /** With the block's marked objects on the stack, the scan pointer may move past the block. */
  lemma ScanPast(w: World, kept: set<nat>, phase: Phase, scan: nat, marked: set<nat>, stack: seq<Entry>, k: nat)
    requires WellFormed(w) && k < |w.blocks|
    requires phase == MsInvalid || phase == MsPartiallyInvalid || phase == MsPushUncollectable
    requires Core(w, kept, phase, scan, marked, stack, iset{})
    requires phase != MsInvalid ==> BlockOnStack(w, k, |w.blocks[k].objs|, marked, stack)
    requires phase != MsInvalid ==> Passes(w, phase, scan, k)
    ensures Core(w, kept, phase, w.blocks[k].start + w.blocks[k].bytes, marked, stack, iset{})
  {
    var scan' := w.blocks[k].start + w.blocks[k].bytes;
    forall o, a | o in marked && Field(w, o, a) && !Excused(w, phase, scan', o)
      ensures Settled(w, marked, stack, iset{}, a, Target(w, a))
    {
      if Excused(w, phase, scan, o) {
        assert w.home(o) == k;
        assert ObjEntry(w, o) in stack;
      }
    }
  }

  /** No block that the phase looks at is left above the scan pointer. */
  ghost predicate ScanDone(w: World, phase: Phase, scan: nat) {
    forall j :: 0 <= j < |w.blocks| && scan <= w.blocks[j].start ==>
      w.blocks[j].free || (phase == MsPushUncollectable && w.blocks[j].kind != Uncollectable)
  }

  /** When the scan is done, nothing is excused any more. */
  lemma ScanFinished(w: World, kept: set<nat>, phase: Phase, scan: nat, marked: set<nat>, stack: seq<Entry>)
    requires WellFormed(w)
    requires phase == MsPartiallyInvalid || phase == MsPushUncollectable
    requires Core(w, kept, phase, scan, marked, stack, iset{})
    requires ScanDone(w, phase, scan)
    ensures Core(w, kept, MsRootsPushed, 0, marked, stack, iset{})
  {
    forall o, a | o in marked && Field(w, o, a)
      ensures Settled(w, marked, stack, iset{}, a, Target(w, a))
    {
      assert !Excused(w, phase, scan, o);
    }
  }

  /** From a state in which only the kept marks are set, the uncollectable blocks come first. */
  lemma StartUncollectable(w: World, kept: set<nat>, scan: nat)
    requires WellFormed(w) && KeptOk(w, kept)
    requires Core(w, kept, MsInvalid, scan, kept, [], iset{})
    ensures Core(w, kept, MsPushUncollectable, 0, kept, [], iset{})
  {
    forall o | o in kept
      ensures IsObj(w, o) && (Excused(w, MsPushUncollectable, 0, o) || forall a :: !Field(w, o, a))
    {
      assert BlockOk(w, w.home(o));
    }
  }

  /** Everything is excused in state MS_INVALID, and the scan that starts over at NULL excuses as much. */
  lemma RestartScan(w: World, kept: set<nat>, phase: Phase, scan: nat, marked: set<nat>, stack: seq<Entry>)
    requires Core(w, kept, phase, scan, marked, stack, iset{})
    ensures Core(w, kept, MsInvalid, scan, marked, stack, iset{})
    ensures Core(w, kept, MsPartiallyInvalid, 0, marked, stack, iset{})
  {
  }

  lemma KeepPushing(w: World, kept: set<nat>, k: nat, i: nat, marked: set<nat>, stack: seq<Entry>, stack': seq<Entry>)
    requires WellFormed(w) && k < |w.blocks| && i < |w.blocks[k].objs|
    requires BlockOnStack(w, k, i, marked, stack) && stack <= stack'
    requires w.blocks[k].objs[i] in marked ==> Entry(w.blocks[k].objs[i], w.blocks[k].descr) in stack'
    ensures BlockOnStack(w, k, i + 1, marked, stack')
  {
  }

  lemma ObjsAreObjects(w: World, k: nat, i: nat)
    requires WellFormed(w) && k < |w.blocks| && i < |w.blocks[k].objs| && !w.blocks[k].free
    ensures IsObj(w, w.blocks[k].objs[i])
    ensures ObjEntry(w, w.blocks[k].objs[i]) == Entry(w.blocks[k].objs[i], w.blocks[k].descr)
  {
    assert BlockOk(w, k);
  }

  lemma FoundIsPassed(w: World, phase: Phase, scan: nat, k: nat)
    requires WellFormed(w)
    requires k == NextAllocated(w, scan, 0)
    ensures k < |w.blocks| ==> Passes(w, phase, scan, k)
    ensures k < |w.blocks| ==> scan < w.blocks[k].start + w.blocks[k].bytes <= HeapEnd(w)
    ensures k == |w.blocks| ==> ScanDone(w, phase, scan)
  {
    if k < |w.blocks| {
      assert BlockOk(w, k);
      if k + 1 < |w.blocks| { BlocksAscend(w, k, |w.blocks| - 1); assert BlockOk(w, |w.blocks| - 1); }
      forall j | 0 <= j < |w.blocks| && scan <= w.blocks[j].start < w.blocks[k].start + w.blocks[k].bytes
        ensures j == k || w.blocks[j].free
      {
        if k < j { BlocksAscend(w, k, j); }
      }
    }
  }

  /** No uncollectable objects between the scan pointer and h. */
  ghost predicate NothingBelow(w: World, scan: nat, h: nat) {
    forall j :: 0 <= j < |w.blocks| && scan <= w.blocks[j].start < h ==>
      w.blocks[j].free || w.blocks[j].kind != Uncollectable
  }

  /** The search for the next block of uncollectable objects. */
  lemma SkipBlock(w: World, scan: nat, h: nat, k: nat)
    requires WellFormed(w) && scan <= h
    requires NothingBelow(w, scan, h)
    requires k == NextAllocated(w, h, 0)
    ensures k == |w.blocks| ==> ScanDone(w, MsPushUncollectable, scan)
    ensures k < |w.blocks| ==>
      && Passes(w, MsPushUncollectable, scan, k)
      && (w.blocks[k].kind != Uncollectable ==> NothingBelow(w, scan, w.blocks[k].start + w.blocks[k].bytes))
      && h < w.blocks[k].start + w.blocks[k].bytes <= HeapEnd(w)
  {
    FoundIsPassed(w, MsInvalid, h, k);
  }

  lemma RestartAnywhere(w: World, kept: set<nat>, scan: nat, marked: set<nat>, stack: seq<Entry>, scan': nat)
    requires Core(w, kept, MsInvalid, scan, marked, stack, iset{})
    ensures Core(w, kept, MsInvalid, scan', marked, stack, iset{})
  {
  }

  lemma RoomForBlock(w: World, cap: nat, k: nat, marked: set<nat>)
    requires k < |w.blocks|
    ensures Roomy(w, cap) ==> PushedBy(w, k, marked) <= cap
  {
    MarkedIsAtMost(w.blocks[k].objs, 0, |w.blocks[k].objs|, marked);
  }

  lemma RoomierToo(w: World, cap: nat, cap': nat)
    requires cap <= cap'
    ensures Roomy(w, cap) ==> Roomy(w, cap')
  {
  }

  /** The heap scan of the phase looks at block k. */
  predicate LooksAt(w: World, phase: Phase, k: nat)
    requires k < |w.blocks|
  {
    !w.blocks[k].free && (phase == MsPushUncollectable ==> w.blocks[k].kind == Uncollectable)
  }

  /** Of the blocks at or above scan0 that the phase looks at, the scan pointer has passed only such as push no
      more than `room` entries. */
  ghost predicate PassedFit(w: World, phase: Phase, scan0: nat, scan: nat, marked: set<nat>, room: int) {
    forall k :: 0 <= k < |w.blocks| && LooksAt(w, phase, k) && scan0 <= w.blocks[k].start ==>
      (scan != 0 && scan <= w.blocks[k].start) || PushedBy(w, k, marked) <= room
  }

  lemma PassOne(w: World, phase: Phase, scan: nat, k: nat, marked: set<nat>, room: int)
    requires k < |w.blocks| && Passes(w, phase, scan, k) && PushedBy(w, k, marked) <= room
    requires 0 < w.blocks[k].start + w.blocks[k].bytes
    ensures PassedFit(w, phase, scan, w.blocks[k].start + w.blocks[k].bytes, marked, room)
  {
    hide PushedBy;
  }

  lemma PassNone(w: World, phase: Phase, scan: nat, marked: set<nat>, room: int)
    requires ScanDone(w, phase, scan)
    ensures PassedFit(w, phase, scan, 0, marked, room)
  {
  }

  /** Block k pushes more entries than a stack of `size` entries holds, and a heap scan that looks at it is
      still ahead. */
  predicate DoomedAt(w: World, k: nat, phase: Phase, objectsAreMarked: bool, scan: nat, marked: set<nat>, size: nat) {
    && k < |w.blocks| && !w.blocks[k].free && size < PushedBy(w, k, marked)
    && match phase
       case MsInvalid => objectsAreMarked || w.blocks[k].kind == Uncollectable
       case MsPushUncollectable => w.blocks[k].kind == Uncollectable && scan <= w.blocks[k].start
       case MsPartiallyInvalid => scan <= w.blocks[k].start
       case MsRootsPushed => false
       case MsNone => false
  }

  ghost predicate Doomed(w: World, phase: Phase, objectsAreMarked: bool, scan: nat, marked: set<nat>, size: nat) {
    exists k :: DoomedAt(w, k, phase, objectsAreMarked, scan, marked, size)
  }

  /** Marking from the stack does not help. */
  lemma DoomedMarks(w: World, phase: Phase, objectsAreMarked: bool, scan: nat, marked: set<nat>, size: nat,
                    phase': Phase, marked': set<nat>)
    requires Doomed(w, phase, objectsAreMarked, scan, marked, size)
    requires marked <= marked' && (phase' == phase || phase' == MsInvalid)
    ensures Doomed(w, phase', true, scan, marked', size)
  {
    var k: nat :| DoomedAt(w, k, phase, objectsAreMarked, scan, marked, size);
    MarkedGrows(w.blocks[k].objs, |w.blocks[k].objs|, marked, marked');
    assert DoomedAt(w, k, phase', true, scan, marked', size);
  }

  lemma DoomedStarts(w: World, marked: set<nat>, size: nat)
    requires Doomed(w, MsInvalid, false, 0, marked, size)
    ensures Doomed(w, MsPushUncollectable, false, 0, marked, size)
  {
    var k: nat :| DoomedAt(w, k, MsInvalid, false, 0, marked, size);
    assert DoomedAt(w, k, MsPushUncollectable, false, 0, marked, size);
  }

  lemma DoomedRestarts(w: World, marked: set<nat>, size: nat)
    requires Doomed(w, MsInvalid, true, 0, marked, size)
    ensures Doomed(w, MsPartiallyInvalid, true, 0, marked, size)
  {
    var k: nat :| DoomedAt(w, k, MsInvalid, true, 0, marked, size);
    assert DoomedAt(w, k, MsPartiallyInvalid, true, 0, marked, size);
  }

  lemma DoomedPhase(w: World, phase: Phase, objectsAreMarked: bool, scan: nat, marked: set<nat>, size: nat)
    requires Doomed(w, phase, objectsAreMarked, scan, marked, size)
    ensures phase != MsRootsPushed && phase != MsNone
  {
  }

  /** The phases in which the whole heap is scanned for marked objects after an overflow. */
  predicate HeapRescan(phase: Phase) { phase == MsInvalid || phase == MsPartiallyInvalid }

  /** The heap scan cannot get past the block without an overflow. */
  lemma DoomedScan(w: World, phase: Phase, objectsAreMarked: bool, scan: nat, marked: set<nat>, size: nat,
                   phase': Phase, objectsAreMarked': bool, scan': nat, room: int)
    requires Doomed(w, phase, objectsAreMarked, scan, marked, size)
    requires objectsAreMarked ==> objectsAreMarked'
    requires (phase' == MsInvalid && objectsAreMarked') || (phase' == phase && PassedFit(w, phase, scan, scan', marked, room))
    requires room <= size
    ensures phase' == MsInvalid || scan' != 0
    ensures Doomed(w, phase', objectsAreMarked', scan', marked, size)
  {
    hide PushedBy;
    var k: nat :| DoomedAt(w, k, phase, objectsAreMarked, scan, marked, size);
    assert DoomedAt(w, k, phase', objectsAreMarked', scan', marked, size);
  }

  lemma SizeOk(w: World)
    requires WellFormed(w)
    ensures 8 <= w.initialStack
  {
  }

  lemma InvIsCore(w: World, kept: set<nat>, phase: Phase, scan: nat, marked: set<nat>, stack: seq<Entry>)
    requires Inv(w, kept, phase, scan, marked, stack, iset{})
    ensures Core(w, kept, phase, scan, marked, stack, iset{})
  {
  }

  lemma CoreIsInv(w: World, kept: set<nat>, phase: Phase, scan: nat, marked: set<nat>, stack: seq<Entry>)
    requires Core(w, kept, phase, scan, marked, stack, iset{})
    requires phase != MsRootsPushed && phase != MsNone
    ensures Inv(w, kept, phase, scan, marked, stack, iset{})
  {
  }

  lemma EmptyStackIsDone(w: World, kept: set<nat>, scan: nat, marked: set<nat>, stack: seq<Entry>)
    requires Inv(w, kept, MsRootsPushed, scan, marked, stack, iset{}) && stack == []
    ensures Inv(w, kept, MsNone, scan, marked, stack, iset{})
  {
  }

  /** o lies in one of the first k blocks and that block's marks are cleared. */
  predicate ClearedBelow(w: World, k: nat, o: nat) {
    w.home(o) < k && w.home(o) < |w.blocks| && !w.blocks[w.home(o)].free && !IsUncollectable(w.blocks[w.home(o)].kind)
  }

  lemma ClearStep(w: World, k: nat, o: nat)
    requires WellFormed(w) && IsObj(w, o) && k < |w.blocks|
    ensures ClearedBelow(w, k + 1, o) <==>
              ClearedBelow(w, k, o) ||
              (!w.blocks[k].free && !IsUncollectable(w.blocks[k].kind) && o in w.blocks[k].objs)
  {
    assert BlockOk(w, k);
  }

  /** When only the marks of uncollectable objects are left, everything is still to be done. */
  lemma FreshMarks(w: World, kept: set<nat>)
    requires WellFormed(w)
    requires forall o :: o in kept ==> IsObj(w, o)
    ensures Inv(w, kept, MsInvalid, 0, kept, [], iset{})
  {
    forall o | o in kept
      ensures Reachable(w, kept, o)
    {
      StartIsReachable(w, kept, o);
    }
  }

  lemma HeapLeft(w: World, scan: nat)
    requires scan <= HeapEnd(w)
    ensures 0 <= HeapEnd(w) - scan
  {
  }

  /** The end of marking: nothing pending, nothing excused, so the marks are closed under pointers. */
  lemma MarkedIsReachable(w: World, kept: set<nat>, scan: nat, marked: set<nat>, stack: seq<Entry>)
    requires WellFormed(w)
    requires Inv(w, kept, MsNone, scan, marked, stack, iset{})
    ensures forall o :: o in marked <==> Reachable(w, kept, o)
    ensures stack == []
  {
    hide WellFormed, Start, Edge, FieldsCovered, RootsCovered;
    forall s | Start(w, kept, s) ensures s in marked { StartsAreMarked(w, kept, marked, s); }
    forall x, t | x in marked && Edge(w, x, t) ensures t in marked { TargetIsMarked(w, scan, marked, x, t); }
    forall o | Reachable(w, kept, o)
      ensures o in marked
    {
      var p :| Chain(w, kept, p) && p[|p| - 1] == o;
      ClosedHasReach(w, kept, marked, p);
    }
  }

  lemma TargetIsMarked(w: World, scan: nat, marked: set<nat>, x: nat, t: nat)
    requires FieldsCovered(w, MsNone, scan, marked, [], iset{}) && x in marked && Edge(w, x, t)
    ensures t in marked
  {
    var a :| Field(w, x, a) && Target(w, a) == Some(t);
    assert !Excused(w, MsNone, scan, x);
    assert Settled(w, marked, [], iset{}, a, Target(w, a));
  }

  lemma StartsAreMarked(w: World, kept: set<nat>, marked: set<nat>, s: nat)
    requires WellFormed(w) && kept <= marked && RootsCovered(w, marked, [], iset{})
    requires Start(w, kept, s)
    ensures s in marked
  {
    if s !in kept && s !in w.freeListBases {
      if a :| StaticRootWord(w, a) && Target(w, a) == Some(s) {
        var r :| r in w.staticRoots && InRange(w, r, a);
        assert Settled(w, marked, [], iset{}, a, Target(w, a));
      } else {
        var a :| StackRootWord(w, a) && StackTarget(w, a) == Some(s);
        var r :| r in w.stackRoots && InRange(w, r, a);
        assert !Pending(w, [], a);
      }
    }
  }
}
