/** Whole scan steps: a word considered, an entry taken off the stack, a loop of either. */
module MarkScan {
  import opened Basics
  import opened MarkWorld
  import opened MarkState
  import opened MarkSteps
  import opened MarkWork

  lemma TargetIsObject(w: World, at: int)
    requires WellFormed(w)
    ensures Target(w, at).Some? ==> IsObj(w, Target(w, at).value)
    ensures StackTarget(w, at).Some? ==> IsObj(w, StackTarget(w, at).value) && w.least <= w.word(at) < w.greatest
  {
  }

  /** What PUSH_CONTENTS of the word at `at` does to the state. */
  ghost predicate Considered(w: World, cap: nat, at: int, now: Snap, next: Snap) {
    && PushEffect(w, cap, Target(w, at), now.phase, now.marked, now.stack, next.phase, next.marked, next.stack)
    && next.seen == now.seen + multiset{at}
  }

  lemma ConsiderKeepsInv(w: World, kept: set<nat>, cap: nat, at: int, scan: nat, now: Snap, hand: iset<int>, next: Snap)
    requires WellFormed(w) && now.phase != MsNone
    requires Inv(w, kept, now.phase, scan, now.marked, now.stack, hand)
    requires at in hand
    requires Considered(w, cap, at, now, next)
    ensures Inv(w, kept, next.phase, scan, next.marked, next.stack, hand - iset{at})
  {
    assert Harmless(w, kept, at);
    PushKeepsInv(w, kept, cap, Target(w, at), iset{at}, scan, now.phase, now.marked, now.stack, hand,
                 next.phase, next.marked, next.stack);
  }

  lemma CountStep(before: multiset<int>, seen: multiset<int>, all: iset<int>, hand: iset<int>, at: int)
    requires at in hand && hand <= all && CountedOnce(before, seen, all - hand)
    ensures CountedOnce(before, seen + multiset{at}, all - (hand - iset{at}))
  {
  }

  lemma ScanStep(w: World, kept: set<nat>, cap: nat, at: int, scan: nat,
                 before: Snap, all: iset<int>, now: Snap, hand: iset<int>, next: Snap)
    requires WellFormed(w)
    requires Scanning(w, kept, scan, before, all, now, hand)
    requires at in hand
    requires Considered(w, cap, at, now, next)
    ensures Scanning(w, kept, scan, before, all, next, hand - iset{at})
  {
    ConsiderKeepsInv(w, kept, cap, at, scan, now, hand, next);
    CountStep(before.seen, now.seen, all, hand, at);
    EffectNotBehind(w, cap, Target(w, at), now.phase, now.marked, now.stack, next.phase, next.marked, next.stack);
  }

  /** A word outside the plausible heap bounds needs no PUSH_CONTENTS. */
  lemma DismissStep(w: World, kept: set<nat>, at: int, scan: nat,
                    before: Snap, all: iset<int>, now: Snap, hand: iset<int>)
    requires WellFormed(w)
    requires Scanning(w, kept, scan, before, all, now, hand)
    requires at in hand && !(w.least <= w.word(at) < w.greatest)
    ensures Scanning(w, kept, scan, before, all, now.(seen := now.seen + multiset{at}), hand - iset{at})
  {
    assert w.base(w.word(at)) == None;
    ScanStep(w, kept, 0, at, scan, before, all, now, hand, now.(seen := now.seen + multiset{at}));
  }

  lemma RangeEnds(w: World, lo: int, hi: int)
    requires (w.align == 4 || w.align == 8) && Aligned(w, lo) && Aligned(w, hi) && lo <= hi
    ensures lo in RangeWords(w, lo, hi) && hi in RangeWords(w, lo, hi)
    ensures RangeWords(w, lo, hi) - iset{hi} == RangeWords(w, lo, hi - w.align)
    ensures RangeWords(w, lo, hi) - iset{lo} == RangeWords(w, lo + w.align, hi)
    ensures Aligned(w, hi - w.align) && Aligned(w, lo + w.align)
  {
    AlignedGap(w, lo, hi);
    AlignedGap(w, hi, lo);
    hide Aligned;
    forall a | Aligned(w, a) && lo <= a <= hi
      ensures a == hi || a <= hi - w.align
      ensures a == lo || lo + w.align <= a
    {
      AlignedGap(w, a, hi);
      AlignedGap(w, a, lo);
    }
  }

  lemma BitStep(w: World, e: Entry, i: nat)
    requires e.descr.Bitmap? && i < |e.descr.bits|
    ensures e.descr.bits[i] ==> e.start + 8 * i in BitsFrom(w, e, i)
    ensures BitsFrom(w, e, i + 1) ==
              if e.descr.bits[i] then BitsFrom(w, e, i) - iset{e.start + 8 * i} else BitsFrom(w, e, i)
  {
  }

  lemma BitEnds(w: World, e: Entry)
    requires e.descr.Bitmap?
    ensures BitsFrom(w, e, 0) == Visited(w, e) && BitsFrom(w, e, |e.descr.bits|) == iset{}
  {
  }

  /** A length entry that is visited whole: its words are a range, none if it is shorter than a word. */
  lemma ShortRange(w: World, e: Entry)
    requires WellFormed(w) && EntryOk(w, e) && e.descr.Length? && !IsLong(e)
    ensures Visited(w, e) == RangeWords(w, e.start, e.start + e.descr.n - WORD)
    ensures Aligned(w, e.start + e.descr.n - WORD)
  {
    hide BlockOk, Aligned;
    AlignIs4Or8(w);
    EightsAligned(w, WORD);
    AlignedBoth(w, e.start, e.descr.n);
    AlignedBoth(w, WORD, e.start + e.descr.n);
  }

  lemma LongRange(w: World, e: Entry)
    requires WellFormed(w) && EntryOk(w, e) && IsLong(e)
    ensures Visited(w, e) == RangeWords(w, e.start, e.start + SPLIT_BYTES - w.align)
    ensures Aligned(w, e.start + SPLIT_BYTES - w.align) && e.start <= e.start + SPLIT_BYTES - w.align
  {
    hide BlockOk;
    AlignIs4Or8(w);
    AlignedSplit(w, e.start);
  }

  lemma AlignedSplit(w: World, a: int)
    requires (w.align == 4 || w.align == 8) && Aligned(w, a)
    ensures Aligned(w, a + SPLIT_BYTES - w.align)
  {
  }

  /** Taking the top entry off, or cutting it down, starts a scan of the words taken. */
  lemma BeginScan(w: World, kept: set<nat>, scan: nat, below: seq<Entry>, e: Entry, now: Snap)
    requires WellFormed(w) && now.phase != MsNone
    requires Inv(w, kept, now.phase, scan, now.marked, below + [e], iset{})
    requires now.stack == below + Rest(e)
    ensures EntryOk(w, e)
    ensures Scanning(w, kept, scan, now, Visited(w, e), now, Visited(w, e))
  {
    assert e in below + [e];
    forall a
      ensures InEntry(w, e, a) <==> a in Visited(w, e) || Pending(w, Rest(e), a)
      ensures forall r :: r in Rest(e) ==> EntryOk(w, r)
    {
      SplitIsExact(w, e, a);
    }
    TakeFromTop(w, kept, now.phase, scan, now.marked, below, e, Rest(e), Visited(w, e));
  }

  /** A finished scan has considered each of its words once, and the marker is further on. */
  lemma EndScan(w: World, kept: set<nat>, scan: nat, below: seq<Entry>, e: Entry, before: Snap, all: iset<int>, now: Snap)
    requires Scanning(w, kept, scan, before, all, now, iset{})
    requires before.stack == below + Rest(e)
    ensures now.phase != MsNone && Inv(w, kept, now.phase, scan, now.marked, now.stack, iset{})
    ensures CountedOnce(before.seen, now.seen, all)
    ensures Advanced(w, before.phase, before.marked, below + [e], now.phase, now.marked, now.stack)
  {
    assert all - iset{} == all;
    RestIsSmaller(below, e);
  }

  lemma AdvancedShrinks(w: World, a: Snap, b: Snap)
    requires Advanced(w, a.phase, a.marked, a.stack, b.phase, b.marked, b.stack)
    ensures b.phase == a.phase || b.phase == MsInvalid
    ensures Unmarked(w, b.marked) < Unmarked(w, a.marked)
            || (Unmarked(w, b.marked) == Unmarked(w, a.marked) && Work(b.stack) < Work(a.stack))
  {
  }
}
