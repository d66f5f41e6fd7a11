/** GC_push_roots: root ranges go onto the stack, or are examined at once. */
module MarkRoots {
  import opened Basics
  import opened MarkWorld
  import opened MarkState
  import opened MarkSteps
  import opened MarkWork

  function RoundDown(w: World, x: int): int { if w.align == 4 then x - x % 4 else x - x % 8 }
  function RoundUp(w: World, x: int): int { RoundDown(w, x + w.align - 1) }

  /** How many of these ranges have a word; the others are not pushed. */
  function NonEmpty(w: World, rs: seq<(int, int)>): nat {
    if rs == [] then 0
    else NonEmpty(w, rs[..|rs| - 1]) + if RoundUp(w, rs[|rs| - 1].0) < RoundDown(w, rs[|rs| - 1].1) then 1 else 0
  }

  /** The static root ranges fit on a stack of cap entries that is a quarter full. */
  predicate FewRoots(w: World, cap: nat) { 4 * NonEmpty(w, w.staticRoots) <= 3 * cap }

  lemma FewRootsFit(w: World, cap: nat, size: nat)
    requires cap <= size
    ensures FewRoots(w, cap) ==> FewRoots(w, size)
    ensures FewRoots(w, size) ==> 4 * NonEmpty(w, w.staticRoots) <= 3 * size
  {
  }

  lemma {:induction false} NonEmptyMore(w: World, rs: seq<(int, int)>, i: nat)
    requires i < |rs|
    ensures NonEmpty(w, rs[..i + 1]) == NonEmpty(w, rs[..i]) + if RoundUp(w, rs[i].0) < RoundDown(w, rs[i].1) then 1 else 0
    ensures NonEmpty(w, rs[..i + 1]) <= NonEmpty(w, rs)
    decreases |rs| - i
  {
    hide RoundUp, RoundDown;
    assert rs[..i + 1][..i] == rs[..i];
    if i + 1 < |rs| { NonEmptyMore(w, rs, i + 1); } else { assert rs[..i + 1] == rs; }
  }

  lemma Rounding4(lo: int, hi: int, a: int)
    ensures (lo + 3 - (lo + 3) % 4) % 4 == 0 && (hi - hi % 4) % 4 == 0
    ensures a % 4 == 0 ==> (lo <= a <==> lo + 3 - (lo + 3) % 4 <= a)
    ensures a % 4 == 0 ==> (a + WORD <= hi <==> a + WORD <= hi - hi % 4)
  {
  }

  lemma Rounding8(lo: int, hi: int, a: int)
    ensures (lo + 7 - (lo + 7) % 8) % 8 == 0 && (hi - hi % 8) % 8 == 0
    ensures a % 8 == 0 ==> (lo <= a <==> lo + 7 - (lo + 7) % 8 <= a)
    ensures a % 8 == 0 ==> (a + WORD <= hi <==> a + WORD <= hi - hi % 8)
  {
  }

  /** Rounding the bounds of a range to ALIGNMENT loses no word of it and adds none. */
  lemma RoundingKeepsWords(w: World, r: (int, int), a: int)
    requires w.align == 4 || w.align == 8
    ensures Aligned(w, RoundUp(w, r.0)) && Aligned(w, RoundDown(w, r.1))
    ensures Aligned(w, a) ==> (r.0 <= a <==> RoundUp(w, r.0) <= a)
    ensures Aligned(w, a) ==> (a + WORD <= r.1 <==> a + WORD <= RoundDown(w, r.1))
  {
    if w.align == 4 { Rounding4(r.0, r.1, a); } else { Rounding8(r.0, r.1, a); }
  }

  /** While roots are being pushed the phase is still that of the scan before; what holds is what
      MS_ROOTS_PUSHED asks for, unless the stack overflowed. */
  function Effective(phase: Phase): Phase { if phase == MsInvalid then MsInvalid else MsRootsPushed }

  lemma EffectiveNotWorse(w: World, phase: Phase, marked: set<nat>, phase': Phase, marked': set<nat>)
    requires NotWorse(w, phase, marked, phase', marked')
    ensures NotWorse(w, Effective(phase), marked, Effective(phase'), marked')
  {
  }

  /** `statics` and `stacks` have been dealt with. */
  ghost predicate Pushing(w: World, kept: set<nat>, phase: Phase, scan: nat, marked: set<nat>, stack: seq<Entry>,
                          statics: seq<(int, int)>, stacks: seq<(int, int)>)
  {
    && Core(w, kept, Effective(phase), scan, marked, stack, iset{})
    && (phase != MsInvalid ==>
          StaticCovered(w, statics, marked, stack, iset{}) && StackCovered(w, stacks, marked, stack, iset{}))
  }

  /** Pushing a range whose words are all harmless. */
  lemma PushRange(w: World, kept: set<nat>, phase: Phase, scan: nat, marked: set<nat>, stack: seq<Entry>,
                  statics: seq<(int, int)>, stacks: seq<(int, int)>, e: Entry)
    requires Pushing(w, kept, phase, scan, marked, stack, statics, stacks)
    requires EntryOk(w, e) && forall a :: InEntry(w, e, a) ==> Harmless(w, kept, a)
    ensures Pushing(w, kept, phase, scan, marked, stack + [e], statics, stacks)
  {
    var stack' := stack + [e];
    forall a | Pending(w, stack, a)
      ensures Pending(w, stack', a)
    {
      var x :| x in stack && InEntry(w, x, a);
      assert x in stack';
    }
    forall a, u: Option<nat> | Settled(w, marked, stack, iset{}, a, u)
      ensures Settled(w, marked, stack', iset{}, a, u)
    {
    }
  }

  lemma StaticWordsHarmless(w: World, kept: set<nat>, r: (int, int), a: int)
    requires r in w.staticRoots && InRange(w, r, a)
    ensures Harmless(w, kept, a)
  {
    if Target(w, a).Some? {
      assert StaticRootWord(w, a);
      StartIsReachable(w, kept, Target(w, a).value);
    }
  }

  lemma StackWordsHarmless(w: World, kept: set<nat>, r: (int, int), a: int)
    requires WellFormed(w) && r in w.stackRoots && InRange(w, r, a)
    ensures StackTarget(w, a).Some? ==> Reachable(w, kept, StackTarget(w, a).value)
    ensures w.allInterior ==> Harmless(w, kept, a)
  {
    if StackTarget(w, a).Some? {
      assert StackRootWord(w, a);
      StartIsReachable(w, kept, StackTarget(w, a).value);
    }
  }

  lemma StaticPushed(w: World, kept: set<nat>, phase: Phase, scan: nat, marked: set<nat>, stack: seq<Entry>,
                     statics: seq<(int, int)>, stacks: seq<(int, int)>, r: (int, int))
    requires Pushing(w, kept, phase, scan, marked, stack, statics, stacks)
    requires forall a :: InRange(w, r, a) ==> Pending(w, stack, a)
    ensures Pushing(w, kept, phase, scan, marked, stack, statics + [r], stacks)
  {
  }

  lemma StackPushed(w: World, kept: set<nat>, phase: Phase, scan: nat, marked: set<nat>, stack: seq<Entry>,
                    statics: seq<(int, int)>, stacks: seq<(int, int)>, r: (int, int))
    requires Pushing(w, kept, phase, scan, marked, stack, statics, stacks)
    requires forall a :: InRange(w, r, a) && StackTarget(w, a).Some? ==>
                           StackTarget(w, a).value in marked || (w.allInterior && Pending(w, stack, a))
    ensures Pushing(w, kept, phase, scan, marked, stack, statics, stacks + [r])
  {
  }

  /** The phase name matters to PUSH_CONTENTS only in that an overflow changes it. */
  lemma EffectiveEffect(w: World, cap: nat, t: Option<nat>, phase: Phase, marked: set<nat>, stack: seq<Entry>,
                        phase': Phase, marked': set<nat>, stack': seq<Entry>)
    requires PushEffect(w, cap, t, phase, marked, stack, phase', marked', stack')
    ensures PushEffect(w, cap, t, Effective(phase), marked, stack, Effective(phase'), marked', stack')
    ensures phase' != MsInvalid ==> stack <= stack'
    ensures NotWorse(w, phase, marked, phase', marked')
    ensures t.Some? ==> t.value in marked'
    ensures marked <= marked'
    ensures phase' == phase || phase' == MsInvalid
  {
    EffectNotBehind(w, cap, t, phase, marked, stack, phase', marked', stack');
  }

  /** One word of a range that is examined at once. */
  lemma EagerWord(w: World, kept: set<nat>, cap: nat, t: Option<nat>, scan: nat,
                  statics: seq<(int, int)>, stacks: seq<(int, int)>,
                  phase: Phase, marked: set<nat>, stack: seq<Entry>,
                  phase': Phase, marked': set<nat>, stack': seq<Entry>)
    requires WellFormed(w)
    requires Pushing(w, kept, phase, scan, marked, stack, statics, stacks)
    requires PushEffect(w, cap, t, phase, marked, stack, phase', marked', stack')
    requires t.Some? ==> Reachable(w, kept, t.value)
    ensures Pushing(w, kept, phase', scan, marked', stack', statics, stacks)
  {
    EffectiveEffect(w, cap, t, phase, marked, stack, phase', marked', stack');
    ghost var none: iset<int> := iset{};
    assert none - none == none;
    PushKeepsCore(w, kept, cap, t, iset{}, scan, Effective(phase), marked, stack, iset{},
                  Effective(phase'), marked', stack');
    if phase' != MsInvalid {
      PushKeepsRanges(w, cap, t, iset{}, statics, stacks, Effective(phase), marked, stack, iset{},
                      Effective(phase'), marked', stack');
    }
  }

  lemma MoreMarks(w: World, phase: Phase, marked: set<nat>, more: set<nat>)
    ensures NotWorse(w, phase, marked, phase, marked + more)
  {
    var left, left' := Objects(w) - marked, Objects(w) - (marked + more);
    assert left' <= left;
    assert left == left' + (left - left') && |left| == |left'| + |left - left'|;
  }

  /** The free-list header arrays are marked but hold no pointers. */
  lemma FreeListsMarked(w: World, kept: set<nat>, phase: Phase, scan: nat, marked: set<nat>, stack: seq<Entry>,
                        statics: seq<(int, int)>, stacks: seq<(int, int)>)
    requires WellFormed(w)
    requires Pushing(w, kept, phase, scan, marked, stack, statics, stacks)
    ensures Pushing(w, kept, phase, scan, marked + w.freeListBases, stack, statics, stacks)
  {
    hide WellFormed, Reachable;
    forall o | o in w.freeListBases
      ensures IsObj(w, o) && Reachable(w, kept, o)
      ensures forall a :: !Field(w, o, a)
    {
      FreeListBase(w, kept, o);
    }
  }

  lemma FreeListBase(w: World, kept: set<nat>, o: nat)
    requires WellFormed(w) && o in w.freeListBases
    ensures IsObj(w, o) && Reachable(w, kept, o)
    ensures forall a :: !Field(w, o, a)
  {
    StartIsReachable(w, kept, o);
  }

  lemma NotWorseSelf(w: World, p0: Phase, m0: set<nat>)
    ensures NotWorse(w, p0, m0, p0, m0)
  {
  }

  lemma NotWorseTwice(w: World, p0: Phase, m0: set<nat>, p1: Phase, m1: set<nat>, p2: Phase, m2: set<nat>)
    requires NotWorse(w, p0, m0, p1, m1) && NotWorse(w, p1, m1, p2, m2)
    ensures NotWorse(w, p0, m0, p2, m2)
  {
  }

  /** The entry that GC_push_all makes of a range has exactly the words of the range. */
  lemma RangeEntry(w: World, r: (int, int))
    requires WellFormed(w)
    ensures var bottom, limit := RoundUp(w, r.0), RoundDown(w, r.1);
      && Aligned(w, bottom) && Aligned(w, limit)
      && (limit <= bottom ==> forall a :: !InRange(w, r, a))
      && (bottom < limit ==>
            && EntryOk(w, Entry(bottom, Length(limit - bottom)))
            && forall a :: InRange(w, r, a) <==> InEntry(w, Entry(bottom, Length(limit - bottom)), a))
  {
    hide RoundUp, RoundDown, WellFormed;
    AlignIs4Or8(w);
    var bottom, limit := RoundUp(w, r.0), RoundDown(w, r.1);
    RoundingKeepsWords(w, r, 0);
    AlignedBoth(w, bottom, limit);
    forall a
      ensures InRange(w, r, a) <==> Aligned(w, a) && bottom <= a && a + WORD <= limit
    {
      RoundingKeepsWords(w, r, a);
    }
  }

  /** The words of r below p have had their objects marked. */
  ghost predicate EagerDone(w: World, r: (int, int), p: int, marked: set<nat>) {
    forall a :: InRange(w, r, a) && a < p && StackTarget(w, a).Some? ==> StackTarget(w, a).value in marked
  }

  lemma EagerInRange(w: World, r: (int, int), p: int)
    requires WellFormed(w) && Aligned(w, p) && RoundUp(w, r.0) <= p <= RoundDown(w, r.1) - WORD
    ensures InRange(w, r, p)
  {
    hide RoundUp, RoundDown, Aligned, WellFormed;
    AlignIs4Or8(w);
    RoundingKeepsWords(w, r, p);
  }

  lemma EagerNext(w: World, r: (int, int), p: int, marked: set<nat>, marked': set<nat>)
    requires WellFormed(w) && Aligned(w, p) && RoundUp(w, r.0) <= p <= RoundDown(w, r.1) - WORD
    requires EagerDone(w, r, p, marked) && marked <= marked'
    requires StackTarget(w, p).Some? ==> StackTarget(w, p).value in marked'
    ensures EagerDone(w, r, p + w.align, marked') && Aligned(w, p + w.align)
  {
    hide RoundUp, RoundDown, Aligned, WellFormed;
    AlignIs4Or8(w);
    AlignedGap(w, p, p);
    forall a | InRange(w, r, a) && a < p + w.align
      ensures a <= p
    {
      AlignedGap(w, a, p);
    }
  }

  lemma EagerEnds(w: World, r: (int, int), p: int, marked: set<nat>)
    requires WellFormed(w)
    ensures EagerDone(w, r, RoundUp(w, r.0), marked) && Aligned(w, RoundUp(w, r.0))
    ensures RoundDown(w, r.1) - WORD < p && EagerDone(w, r, p, marked) ==>
              forall a :: InRange(w, r, a) && StackTarget(w, a).Some? ==> StackTarget(w, a).value in marked
  {
    hide RoundUp, RoundDown, Aligned, WellFormed;
    AlignIs4Or8(w);
    RoundingKeepsWords(w, r, 0);
    forall a | InRange(w, r, a)
      ensures RoundUp(w, r.0) <= a && a + WORD <= RoundDown(w, r.1)
    {
      RoundingKeepsWords(w, r, a);
    }
  }

  lemma BeginRoots(w: World, kept: set<nat>, phase: Phase, marked: set<nat>, stack: seq<Entry>)
    requires Core(w, kept, Effective(phase), 0, marked, stack, iset{})
    ensures Pushing(w, kept, phase, 0, marked, stack, [], [])
  {
  }

  /** With all roots pushed, MS_ROOTS_PUSHED may be entered unless the stack overflowed. */
  lemma RootsDone(w: World, kept: set<nat>, phase: Phase, marked: set<nat>, stack: seq<Entry>)
    requires Pushing(w, kept, phase, 0, marked, stack, w.staticRoots, w.stackRoots)
    requires w.freeListBases <= marked
    ensures Inv(w, kept, Effective(phase), 0, marked, stack, iset{})
  {
  }
}
