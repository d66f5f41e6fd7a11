/** The marker itself: GC_mark_state, the mark stack and the mark bits, changed in place. */
module Marker {
  import opened Basics
  import opened MarkWorld
  import opened MarkState
  import opened MarkWork
  import opened MarkScan
  import opened MarkPhases
  import opened MarkRoots

  class Marker {
    const w: World
    ghost var kept: set<nat>       // uncollectable objects whose marks were not cleared
    var phase: Phase               // GC_mark_state
    var scan: nat                  // GC_scan_ptr, 0 for NULL
    var objectsAreMarked: bool     // GC_objects_are_marked
    var tooSmall: bool             // GC_mark_stack_too_small
    var buf: array<Entry>          // GC_mark_stack .. GC_mark_stack_limit
    var top: int                   // GC_mark_stack_top, -1 when empty
    var marked: set<nat>           // the objects whose mark bit is set
    ghost var seen: multiset<int>  // every word considered so far

    ghost predicate Shape()
      reads this
    {
      WellFormed(w) && -1 <= top < buf.Length && w.initialStack <= buf.Length
    }

    ghost function Stack(): (s: seq<Entry>)
      requires Shape()
      reads this, buf
      ensures |s| == top + 1
    {
      buf[..top + 1]
    }

    ghost predicate Good(hand: iset<int>)
      reads this, buf
    {
      Shape() && Inv(w, kept, phase, scan, marked, Stack(), hand)
    }

    /** GC_mark_init. */
    constructor (world: World)
      requires WellFormed(world)
      ensures w == world && Shape() && top == -1 && marked == {} && phase == MsNone && fresh(buf) && buf.Length == w.initialStack
      ensures kept == {} && scan == 0 && !objectsAreMarked && !tooSmall && seen == multiset{}
    {
      w := world;
      kept, marked, seen := {}, {}, multiset{};
      phase, scan := MsNone, 0;
      objectsAreMarked, tooSmall := false, false;
      buf := new Entry[world.initialStack];
      top := -1;
    }

    /** The last steps of GC_push_obj: store an entry above the top, after discarding the upper
        part of the stack if it is full. */
    method Push(e: Entry)
      requires Shape()
      modifies this`top, this`phase, this`tooSmall, buf
      ensures Shape()
      ensures old(top) + 1 < buf.Length ==>
                phase == old(phase) && tooSmall == old(tooSmall) && Stack() == old(Stack()) + [e]
      ensures old(top) + 1 == buf.Length ==>
                phase == MsInvalid && tooSmall && Stack() == old(Stack())[..buf.Length - Discards(w)] + [e]
      ensures old(top) + 1 == buf.Length ==> top == buf.Length - w.initialStack / 8
    {
      top := top + 1;
      if top >= buf.Length {
        // GC_signal_mark_stack_overflow
        phase := MsInvalid;
        tooSmall := true;
        top := top - Discards(w);
      }
      buf[top] := e;
    }

    /** PUSH_CONTENTS for the object that a word was found to refer to. */
    method PushTarget(t: Option<nat>)
      requires Shape() && (t.Some? ==> IsObj(w, t.value))
      modifies this`top, this`phase, this`tooSmall, this`marked, buf
      ensures Shape()
      ensures PushEffect(w, buf.Length, t, old(phase), old(marked), old(Stack()), phase, marked, Stack())
    {
      if t.Some? && t.value !in marked {
        marked := marked + {t.value};
        if DescrOf(w, t.value) != Length(0) {
          Push(ObjEntry(w, t.value));
        }
      }
    }

    ghost function Now(): Snap
      requires Shape()
      reads this, buf
    {
      Snap(phase, marked, Stack(), seen)
    }

    /** PUSH_CONTENTS for the word at `at`, which the running scan has in hand. */
    method PushContents(at: int, ghost before: Snap, ghost all: iset<int>, ghost hand: iset<int>)
      requires Shape() && Scanning(w, kept, scan, before, all, Now(), hand) && at in hand
      modifies this`top, this`phase, this`tooSmall, this`marked, this`seen, buf
      ensures Shape() && Scanning(w, kept, scan, before, all, Now(), hand - iset{at})
    {
      hide Scanning, WellFormed;
      ghost var now := Now();
      TargetIsObject(w, at);
      PushTarget(w.base(w.word(at)));
      seen := seen + multiset{at};
      ScanStep(w, kept, buf.Length, at, scan, before, all, now, hand, Now());
    }

    /** The word at `at` fails the preliminary pointer validity test. */
    ghost method Dismiss(at: int, before: Snap, all: iset<int>, hand: iset<int>)
      requires Shape() && Scanning(w, kept, scan, before, all, Now(), hand) && at in hand
      requires !(w.least <= w.word(at) < w.greatest)
      modifies this`seen
      ensures Shape() && Scanning(w, kept, scan, before, all, Now(), hand - iset{at})
    {
      hide Scanning, WellFormed;
      DismissStep(w, kept, at, scan, before, all, Now(), hand);
      seen := seen + multiset{at};
    }

    /** The inner loops of GC_mark_from: consider the words p, p + ALIGNMENT, .., limit.  The highest
        plausible one is set aside so that it can be prefetched, and is considered last. */
    method ScanRange(p: int, limit: int, ghost before: Snap, ghost all: iset<int>)
      requires Shape() && Scanning(w, kept, scan, before, all, Now(), RangeWords(w, p, limit))
      requires Aligned(w, p) && Aligned(w, limit) && p <= limit
      modifies this`top, this`phase, this`tooSmall, this`marked, this`seen, buf
      ensures Shape() && Scanning(w, kept, scan, before, all, Now(), iset{})
    {
      hide Scanning, WellFormed, Aligned;
      AlignIs4Or8(w);
      var lim := limit;
      while !(w.least <= w.word(lim) < w.greatest)
        invariant p <= lim && Aligned(w, lim)
        invariant Shape() && Scanning(w, kept, scan, before, all, Now(), RangeWords(w, p, lim))
        decreases lim - p
      {
        RangeEnds(w, p, lim);
        Dismiss(lim, before, all, RangeWords(w, p, lim));
        lim := lim - w.align;
        if p > lim {
          assert RangeWords(w, p, lim) == iset{};
          return;
        }
      }
      RangeEnds(w, p, lim);
      assert RangeWords(w, p, lim) == RangeWords(w, p, lim - w.align) + iset{lim};
      ScanForward(p, lim - w.align, lim, before, all);
    }

    method ScanForward(p: int, lim: int, deferred: int, ghost before: Snap, ghost all: iset<int>)
      requires Shape() && Scanning(w, kept, scan, before, all, Now(), RangeWords(w, p, lim) + iset{deferred})
      requires Aligned(w, p) && Aligned(w, lim) && p - w.align <= lim < deferred
      modifies this`top, this`phase, this`tooSmall, this`marked, this`seen, buf
      ensures Shape() && Scanning(w, kept, scan, before, all, Now(), iset{})
    {
      hide Scanning, WellFormed, Aligned;
      AlignIs4Or8(w);
      var q := p;
      while q <= lim
        invariant Aligned(w, q)
        invariant Shape() && Scanning(w, kept, scan, before, all, Now(), RangeWords(w, q, lim) + iset{deferred})
        decreases lim - q
      {
        ghost var hand := RangeWords(w, q, lim) + iset{deferred};
        RangeEnds(w, q, lim);
        assert hand - iset{q} == RangeWords(w, q + w.align, lim) + iset{deferred};
        if w.least <= w.word(q) < w.greatest {
          PushContents(q, before, all, hand);
        } else {
          Dismiss(q, before, all, hand);
        }
        q := q + w.align;
      }
      ghost var hand := RangeWords(w, q, lim) + iset{deferred};
      assert hand - iset{deferred} == iset{};
      PushContents(deferred, before, all, hand);
    }

    /** The bits of a bitmap descriptor are examined one by one. */
    method ScanBits(e: Entry, ghost before: Snap, ghost all: iset<int>)
      requires e.descr.Bitmap?
      requires Shape() && Scanning(w, kept, scan, before, all, Now(), Visited(w, e))
      modifies this`top, this`phase, this`tooSmall, this`marked, this`seen, buf
      ensures Shape() && Scanning(w, kept, scan, before, all, Now(), iset{})
    {
      hide Scanning, WellFormed, Visited, BitsFrom;
      BitEnds(w, e);
      var i := 0;
      while i < |e.descr.bits|
        invariant 0 <= i <= |e.descr.bits|
        invariant Shape() && Scanning(w, kept, scan, before, all, Now(), BitsFrom(w, e, i))
      {
        BitStep(w, e, i);
        if e.descr.bits[i] {
          var p := e.start + 8 * i;
          if w.least <= w.word(p) < w.greatest {
            PushContents(p, before, all, BitsFrom(w, e, i));
          } else {
            Dismiss(p, before, all, BitsFrom(w, e, i));
          }
        }
        i := i + 1;
      }
    }

    /** One turn of the outer loop of GC_mark_from: scan the top entry, or the next 127 words of it
        if it is long.  The cost is what is taken off the credit. */
    method ScanTop() returns (cost: int)
      requires Good(iset{}) && phase != MsNone && 0 <= top
      modifies this`top, this`phase, this`tooSmall, this`marked, this`seen, buf
      ensures Good(iset{}) && phase != MsNone
      ensures Advanced(w, old(phase), old(marked), old(Stack()), phase, marked, Stack())
      ensures CountedOnce(old(seen), seen, Visited(w, old(Stack())[old(top)]))
      ensures var e := old(Stack())[old(top)];
        cost == if e.descr.Bitmap? then 256 else if e.descr.n < 8 then 0 else if e.descr.n >= 1024 then 1024 - w.align else e.descr.n
    {
      hide Inv, WellFormed, Scanning, Visited, CountedOnce, Advanced;
      ghost var below := Stack()[..top];
      var e := buf[top];
      assert Stack() == below + [e];
      if IsLong(e) {
        buf[top] := Entry(e.start + SPLIT_BYTES, Length(e.descr.n - SPLIT_BYTES));
      } else {
        top := top - 1;
      }
      assert Stack() == below + Rest(e);
      ghost var before := Now();
      BeginScan(w, kept, scan, below, e, before);
      AlignIs4Or8(w);
      if IsLong(e) {
        LongRange(w, e);
        ScanRange(e.start, e.start + SPLIT_BYTES - w.align, before, Visited(w, e));
        cost := SPLIT_BYTES + WORD - w.align;
      } else if e.descr.Bitmap? {
        ScanBits(e, before, Visited(w, e));
        cost := 32 * WORD;
      } else {
        ShortRange(w, e);
        if e.descr.n < WORD {
          assert RangeWords(w, e.start, e.start + e.descr.n - WORD) == iset{};
          cost := 0;
        } else {
          ScanRange(e.start, e.start + e.descr.n - WORD, before, Visited(w, e));
          cost := e.descr.n;
        }
      }
      EndScan(w, kept, scan, below, e, before, Visited(w, e), Now());
    }

    /** GC_mark_from: scan from the top of the stack until it is empty or the credit is spent. */
    method MarkFrom()
      requires Good(iset{}) && phase != MsNone && 0 <= top
      modifies this`top, this`phase, this`tooSmall, this`marked, this`seen, this`objectsAreMarked, buf
      ensures Good(iset{}) && phase != MsNone && objectsAreMarked && (phase == old(phase) || phase == MsInvalid)
      ensures Advanced(w, old(phase), old(marked), old(Stack()), phase, marked, Stack())
    {
      hide Inv, WellFormed, Advanced;
      ghost var before := Now();
      var credit: int := HBLKSIZE;
      objectsAreMarked := true;
      ghost var started := false;
      while 0 <= top && 0 <= credit
        invariant Good(iset{}) && phase != MsNone && objectsAreMarked && (phase == before.phase || phase == MsInvalid)
        invariant !started ==> Now() == before && credit == HBLKSIZE && 0 <= top
        invariant started ==> Advanced(w, before.phase, before.marked, before.stack, phase, marked, Stack())
        decreases Unmarked(w, marked), Work(Stack())
      {
        ghost var now := Now();
        var cost := ScanTop();
        credit := credit - cost;
        AdvancedShrinks(w, now, Now());
        if started { AdvancedTwice(w, before, now, Now()); }
        started := true;
      }
    }

    /** GC_push_obj for object i of block k. */
    method PushObj(k: nat, i: nat)
      requires Shape() && k < |w.blocks| && i < |w.blocks[k].objs| && !w.blocks[k].free
      requires Core(w, kept, phase, scan, marked, Stack(), iset{}) && w.blocks[k].objs[i] in marked
      modifies this`top, this`phase, this`tooSmall, buf
      ensures Shape() && Core(w, kept, phase, scan, marked, Stack(), iset{})
      ensures phase == old(phase) || phase == MsInvalid
      ensures old(phase) != MsInvalid && phase != MsInvalid ==> old(Stack()) <= Stack()
      ensures old(top) + 1 < buf.Length ==> phase == old(phase) && top == old(top) + 1
      ensures old(top) + 1 == buf.Length ==> phase == MsInvalid
      ensures Entry(w.blocks[k].objs[i], w.blocks[k].descr) in Stack()
    {
      hide Core, WellFormed;
      ghost var now, n := Now(), if top + 1 < buf.Length then top + 1 else buf.Length - Discards(w);
      var e := Entry(w.blocks[k].objs[i], w.blocks[k].descr);
      Push(e);
      ObjsAreObjects(w, k, i);
      assert now.stack[..|now.stack|] == now.stack;
      PushMarkedObject(w, kept, now.phase, scan, marked, now.stack, n, w.blocks[k].objs[i], phase);
    }

    /** GC_push_marked: push every marked object of block k that may hold pointers. */
    method PushMarked(k: nat)
      requires Shape() && k < |w.blocks| && !w.blocks[k].free
      requires Core(w, kept, phase, scan, marked, Stack(), iset{})
      modifies this`top, this`phase, this`tooSmall, this`objectsAreMarked, buf
      ensures Shape() && Core(w, kept, phase, scan, marked, Stack(), iset{})
      ensures phase == old(phase) || phase == MsInvalid
      ensures phase != MsInvalid ==> BlockOnStack(w, k, |w.blocks[k].objs|, marked, Stack())
      ensures objectsAreMarked <==> old(objectsAreMarked) || (w.blocks[k].descr != Length(0) && exists o :: o in w.blocks[k].objs && o in marked)
      ensures !objectsAreMarked ==> phase == old(phase) && Stack() == old(Stack())
      ensures old(phase) != MsInvalid ==> (phase == MsInvalid <==> buf.Length <= old(top) + PushedBy(w, k, marked))
    {
      hide Core, WellFormed;
      var b := w.blocks[k];
      if b.descr == Length(0) { return; }
      MarkedIsAtMost(b.objs, 0, |b.objs|, marked);
      if forall o <- b.objs :: o !in marked { return; }    // GC_block_empty
      objectsAreMarked := true;
      for i := 0 to |b.objs|
        invariant Shape() && Core(w, kept, phase, scan, marked, Stack(), iset{})
        invariant objectsAreMarked && (phase == old(phase) || phase == MsInvalid)
        invariant phase != MsInvalid ==> BlockOnStack(w, k, i, marked, Stack())
        invariant old(phase) != MsInvalid && phase != MsInvalid ==> top == old(top) + MarkedUpTo(b.objs, i, marked)
        invariant old(phase) != MsInvalid && phase == MsInvalid ==> buf.Length <= old(top) + MarkedUpTo(b.objs, i, marked)
      {
        ghost var st, ph := Stack(), phase;
        if b.objs[i] in marked {
          PushObj(k, i);
        }
        if ph != MsInvalid && phase != MsInvalid { KeepPushing(w, kept, k, i, marked, st, Stack()); }
      }
    }

    /** GC_push_next_marked: push the next allocated block at or above the scan pointer and move the
        pointer past it; the pointer becomes NULL (0) when there is no such block. */
    method PushNextMarked()
      requires Shape() && (phase == MsInvalid || phase == MsPartiallyInvalid)
      requires Core(w, kept, phase, scan, marked, Stack(), iset{})
      modifies this`top, this`phase, this`tooSmall, this`objectsAreMarked, this`scan, buf
      ensures Shape() && (phase == old(phase) || phase == MsInvalid)
      ensures scan != 0 ==> Core(w, kept, phase, scan, marked, Stack(), iset{}) && old(scan) < scan <= HeapEnd(w)
      ensures scan == 0 ==> phase == old(phase) && Stack() == old(Stack())
      ensures scan == 0 ==> Core(w, kept, Effective(phase), 0, marked, Stack(), iset{})
      ensures old(objectsAreMarked) ==> objectsAreMarked
      ensures Roomy(w, buf.Length) && old(top) == -1 ==> phase == old(phase)
      ensures phase != MsInvalid ==> PassedFit(w, phase, old(scan), scan, marked, buf.Length - (old(top) + 1))
    {
      hide Core, WellFormed, Roomy, BlockOnStack, Passes, ScanDone, PassedFit, PushedBy;
      var k := NextAllocated(w, scan, 0);
      FoundIsPassed(w, phase, scan, k);
      if k == |w.blocks| {
        if phase == MsPartiallyInvalid {
          ScanFinished(w, kept, phase, scan, marked, Stack());
          PassNone(w, phase, scan, marked, buf.Length - (top + 1));
        } else {
          RestartScan(w, kept, phase, scan, marked, Stack());
          RestartAnywhere(w, kept, scan, marked, Stack(), 0);
        }
        scan := 0;
      } else {
        RoomForBlock(w, buf.Length, k, marked);
        PushMarked(k);
        FoundIsPassed(w, phase, scan, k);
        ScanPast(w, kept, phase, scan, marked, Stack(), k);
        if phase != MsInvalid { PassOne(w, phase, scan, k, marked, buf.Length - (old(top) + 1)); }
        scan := w.blocks[k].start + w.blocks[k].bytes;
      }
    }

    /** GC_push_next_marked_uncollectable: the same for UNCOLLECTABLE blocks only. */
    method PushNextMarkedUncollectable()
      requires Shape() && phase == MsPushUncollectable
      requires Core(w, kept, phase, scan, marked, Stack(), iset{})
      modifies this`top, this`phase, this`tooSmall, this`objectsAreMarked, this`scan, buf
      ensures Shape() && (phase == old(phase) || phase == MsInvalid)
      ensures scan != 0 ==> Core(w, kept, phase, scan, marked, Stack(), iset{}) && old(scan) < scan <= HeapEnd(w)
      ensures scan != 0 ==> exists b :: b in w.blocks && !b.free && b.kind == Uncollectable && scan == b.start + b.bytes
      ensures scan == 0 ==> phase == old(phase) && Stack() == old(Stack()) && objectsAreMarked == old(objectsAreMarked)
      ensures scan == 0 ==> Core(w, kept, MsRootsPushed, 0, marked, Stack(), iset{})
      ensures old(objectsAreMarked) ==> objectsAreMarked
      ensures !objectsAreMarked ==> phase == old(phase) && Stack() == old(Stack())
      ensures phase != MsInvalid ==> PassedFit(w, phase, old(scan), scan, marked, buf.Length - (old(top) + 1))
    {
      hide Core, WellFormed, BlockOnStack, Passes, ScanDone, PassedFit, PushedBy;
      var h := scan;
      while true
        invariant Shape() && Core(w, kept, phase, scan, marked, Stack(), iset{})
        invariant phase == old(phase) && Stack() == old(Stack()) && top == old(top)
        invariant objectsAreMarked == old(objectsAreMarked) && scan == old(scan) <= h
        invariant NothingBelow(w, scan, h)
        decreases HeapEnd(w) - h
      {
        var k := NextAllocated(w, h, 0);
        SkipBlock(w, scan, h, k);
        if k == |w.blocks| {
          ScanFinished(w, kept, phase, scan, marked, Stack());
          PassNone(w, phase, scan, marked, buf.Length - (top + 1));
          scan := 0;
          return;
        }
        if w.blocks[k].kind == Uncollectable {
          PushMarked(k);
          ScanPast(w, kept, phase, scan, marked, Stack(), k);
          if phase != MsInvalid { PassOne(w, phase, scan, k, marked, buf.Length - (old(top) + 1)); }
          scan := w.blocks[k].start + w.blocks[k].bytes;
          return;
        }
        h := w.blocks[k].start + w.blocks[k].bytes;
      }
    }

    /** GC_push_all: push a whole root range; FALSE stands for ABORT, when there is no room. */
    method PushAll(r: (int, int), ghost statics: seq<(int, int)>, ghost stacks: seq<(int, int)>) returns (ok: bool)
      requires Shape() && Pushing(w, kept, phase, scan, marked, Stack(), statics, stacks)
      requires forall a :: InRange(w, r, a) ==> Harmless(w, kept, a)
      modifies this`top, buf
      ensures Shape() && top == old(top) + if ok && RoundUp(w, r.0) < RoundDown(w, r.1) then 1 else 0
      ensures ok <==> RoundUp(w, r.0) >= RoundDown(w, r.1) || old(top) + 1 < buf.Length
      ensures ok ==> Pushing(w, kept, phase, scan, marked, Stack(), statics, stacks)
      ensures ok ==> forall a :: InRange(w, r, a) ==> Pending(w, Stack(), a)
    {
      hide Pushing, WellFormed, Harmless, RoundUp, RoundDown;
      var bottom, limit := RoundUp(w, r.0), RoundDown(w, r.1);
      RangeEntry(w, r);
      if bottom >= limit { return true; }
      top := top + 1;
      if top >= buf.Length { top := top - 1; return false; }
      ghost var e := Entry(bottom, Length(limit - bottom));
      buf[top] := Entry(bottom, Length(limit - bottom));
      assert Stack() == old(Stack()) + [e];
      PushRange(w, kept, phase, scan, marked, old(Stack()), statics, stacks, e);
      forall a | InRange(w, r, a)
        ensures Pending(w, Stack(), a)
      {
        assert e in Stack() && InEntry(w, e, a);
      }
      ok := true;
    }

    /** GC_push_all_eager: examine the words of a stack range at once. */
    method PushAllEager(r: (int, int), ghost statics: seq<(int, int)>, ghost stacks: seq<(int, int)>)
      requires Shape() && Pushing(w, kept, phase, scan, marked, Stack(), statics, stacks)
      requires r in w.stackRoots
      modifies this`top, this`phase, this`tooSmall, this`marked, buf
      ensures Shape() && Pushing(w, kept, phase, scan, marked, Stack(), statics, stacks)
      ensures forall a :: InRange(w, r, a) && StackTarget(w, a).Some? ==> StackTarget(w, a).value in marked
      ensures NotWorse(w, old(phase), old(marked), phase, marked) && old(marked) <= marked
      ensures phase == old(phase) || phase == MsInvalid
    {
      hide Pushing, WellFormed, NotWorse, PushEffect, EagerDone, RoundUp, RoundDown, InRange, Aligned;
      ghost var ph0, m0 := phase, marked;
      NotWorseSelf(w, ph0, m0);
      var p := RoundUp(w, r.0);
      EagerEnds(w, r, p, marked);
      AlignIs4Or8(w);
      while p <= RoundDown(w, r.1) - WORD
        invariant Shape() && Pushing(w, kept, phase, scan, marked, Stack(), statics, stacks)
        invariant RoundUp(w, r.0) <= p && Aligned(w, p) && EagerDone(w, r, p, marked)
        invariant NotWorse(w, ph0, m0, phase, marked) && m0 <= marked
        invariant phase == ph0 || phase == MsInvalid
        decreases RoundDown(w, r.1) - p
      {
        ghost var ph, m, st := phase, marked, Stack();
        TargetIsObject(w, p);
        EagerInRange(w, r, p);
        StackWordsHarmless(w, kept, r, p);
        if w.least <= w.word(p) < w.greatest {
          PushTarget(w.stackBase(w.word(p)));
          EffectiveEffect(w, buf.Length, StackTarget(w, p), ph, m, st, phase, marked, Stack());
          EagerWord(w, kept, buf.Length, StackTarget(w, p), scan, statics, stacks, ph, m, st, phase, marked, Stack());
          NotWorseTwice(w, ph0, m0, ph, m, phase, marked);
        }
        EagerNext(w, r, p, m, marked);
        p := p + w.align;
      }
      EagerEnds(w, r, p, marked);
    }

    /** GC_push_roots: static data, the free-list arrays, then stacks and registers. */
    method PushRoots() returns (ok: bool)
      requires Shape() && scan == 0 && Core(w, kept, Effective(phase), 0, marked, Stack(), iset{})
      modifies this`top, this`phase, this`tooSmall, this`marked, buf
      ensures Shape()
      ensures ok <==> old(top) + NonEmpty(w, w.staticRoots) < buf.Length
      ensures ok ==> Inv(w, kept, Effective(phase), 0, marked, Stack(), iset{})
      ensures ok ==> NotWorse(w, old(phase), old(marked), phase, marked)
      ensures ok ==> phase == old(phase) || phase == MsInvalid
    {
      hide Core, Inv, Pushing, WellFormed, NotWorse, InRange, NonEmpty;
      BeginRoots(w, kept, phase, marked, Stack());
      ok := PushStatics();
      if !ok { return; }
      MoreMarks(w, phase, marked, w.freeListBases);
      FreeListsMarked(w, kept, phase, 0, marked, Stack(), w.staticRoots, []);
      marked := marked + w.freeListBases;
      PushStacks(old(phase), old(marked));
      RootsDone(w, kept, phase, marked, Stack());
    }

    /** GC_push_all for every range of static data. */
    method PushStatics() returns (ok: bool)
      requires Shape() && scan == 0 && Pushing(w, kept, phase, 0, marked, Stack(), [], [])
      modifies this`top, buf
      ensures Shape()
      ensures ok <==> old(top) + NonEmpty(w, w.staticRoots) < buf.Length
      ensures ok ==> Pushing(w, kept, phase, 0, marked, Stack(), w.staticRoots, [])
    {
      hide Pushing, WellFormed, InRange, Harmless, RoundUp, RoundDown;
      for i := 0 to |w.staticRoots|
        invariant Shape() && Pushing(w, kept, phase, 0, marked, Stack(), w.staticRoots[..i], [])
        invariant top == old(top) + NonEmpty(w, w.staticRoots[..i])
      {
        var r := w.staticRoots[i];
        forall a | InRange(w, r, a) ensures Harmless(w, kept, a) { StaticWordsHarmless(w, kept, r, a); }
        NonEmptyMore(w, w.staticRoots, i);
        ok := PushAll(r, w.staticRoots[..i], []);
        if !ok { return; }
        StaticPushed(w, kept, phase, 0, marked, Stack(), w.staticRoots[..i], [], r);
        assert w.staticRoots[..i] + [r] == w.staticRoots[..i + 1];
      }
      assert w.staticRoots[..|w.staticRoots|] == w.staticRoots;
      ok := true;
    }

    /** GC_push_all_stack for every thread stack.  A range is pushed whole only while there is room, so
        that this never fails. */
    method PushStacks(ghost phase0: Phase, ghost marked0: set<nat>)
      requires Shape() && scan == 0 && w.freeListBases <= marked
      requires Pushing(w, kept, phase, 0, marked, Stack(), w.staticRoots, [])
      requires NotWorse(w, phase0, marked0, phase, marked) && phase == phase0
      modifies this`top, this`phase, this`tooSmall, this`marked, buf
      ensures Shape()
      ensures Pushing(w, kept, phase, 0, marked, Stack(), w.staticRoots, w.stackRoots)
      ensures w.freeListBases <= marked && NotWorse(w, phase0, marked0, phase, marked)
      ensures phase == phase0 || phase == MsInvalid
    {
      hide Pushing, WellFormed, NotWorse, InRange, Harmless;
      SizeOk(w);
      for i := 0 to |w.stackRoots|
        invariant Shape() && Pushing(w, kept, phase, 0, marked, Stack(), w.staticRoots, w.stackRoots[..i])
        invariant w.freeListBases <= marked && NotWorse(w, phase0, marked0, phase, marked)
        invariant phase == phase0 || phase == MsInvalid
      {
        var r := w.stackRoots[i];
        if w.allInterior && top < buf.Length - w.initialStack / 8 {
          forall a | InRange(w, r, a) ensures Harmless(w, kept, a) { StackWordsHarmless(w, kept, r, a); }
          var ok := PushAll(r, w.staticRoots, w.stackRoots[..i]);
        } else {
          ghost var ph, m := phase, marked;
          PushAllEager(r, w.staticRoots, w.stackRoots[..i]);
          NotWorseTwice(w, phase0, marked0, ph, m, phase, marked);
        }
        StackPushed(w, kept, phase, 0, marked, Stack(), w.staticRoots, w.stackRoots[..i], r);
        assert w.stackRoots[..i] + [r] == w.stackRoots[..i + 1];
      }
      assert w.stackRoots[..|w.stackRoots|] == w.stackRoots;
    }

    /** alloc_mark_stack(2 * GC_mark_stack_size) on an empty stack; it may silently fail. */
    method GrowStack()
      requires Shape() && top == -1
      modifies this`buf, this`tooSmall, this`top
      ensures Shape() && top == -1 && !tooSmall
      ensures buf == old(buf) || (fresh(buf) && buf.Length == 2 * old(buf.Length))
    {
      tooSmall := false;
      if * {
        buf := new Entry[2 * buf.Length];
      }
      top := -1;
    }

    ghost predicate Flags()
      requires Shape()
      reads this, buf
    {
      && scan <= HeapEnd(w)
      && KeptOk(w, kept)
      && (phase == MsRootsPushed || phase == MsNone ==> NonEmpty(w, w.staticRoots) <= buf.Length)
      && (!objectsAreMarked ==>
            && marked == kept && Stack() == []
            && (phase == MsPushUncollectable || (phase == MsInvalid && scan == 0)))
    }

    ghost function ToDo(): Measure
      requires Shape()
      reads this, buf
    {
      Left(w, phase, objectsAreMarked, scan, marked, Stack())
    }

    ghost predicate Ready()
      reads this, buf
    {
      Shape() && Inv(w, kept, phase, scan, marked, Stack(), iset{}) && Flags()
    }

    /** A heap scan still ahead looks at a block whose marked objects do not all fit into the stack. */
    ghost predicate Hopeless()
      requires Shape()
      reads this, buf
    {
      Doomed(w, phase, objectsAreMarked, scan, marked, buf.Length)
    }

    /** The roots are pushed when the scan has reached the end of the heap. */
    method EnterRoots() returns (ok: bool)
      requires Shape() && scan == 0 && Core(w, kept, Effective(phase), 0, marked, Stack(), iset{})
      requires KeptOk(w, kept) && phase != MsNone
      modifies this`top, this`phase, this`objectsAreMarked, this`tooSmall, this`marked, buf
      ensures ok <==> old(top) + NonEmpty(w, w.staticRoots) < buf.Length
      ensures FewRoots(w, buf.Length) && 4 * (old(top) + 1) <= buf.Length ==> ok
      ensures ok ==> Ready() && objectsAreMarked && (phase == MsRootsPushed || phase == MsInvalid)
      ensures ok ==> NotWorse(w, old(Effective(phase)), old(marked), phase, marked)
    {
      hide Inv, Core, WellFormed, FewRoots, NonEmpty, KeptOk, NotWorse;
      SizeOk(w);
      FewRootsFit(w, buf.Length, buf.Length);
      ok := PushRoots();
      if ok { EffectiveNotWorse(w, old(phase), old(marked), phase, marked); }
      objectsAreMarked := true;
      if phase != MsInvalid { phase := MsRootsPushed; }
    }

    /** GC_mark_some in state MS_PUSH_UNCOLLECTABLE. */
    method SomeUncollectable() returns (ok: bool)
      requires Ready() && phase == MsPushUncollectable
      modifies this`top, this`phase, this`scan, this`objectsAreMarked, this`tooSmall, this`marked, this`seen, buf
      ensures FewRoots(w, old(buf.Length)) ==> ok
      ensures ok ==> Ready() && phase != MsNone
      ensures ok ==> Smaller(ToDo(), old(ToDo()))
      ensures old(Hopeless()) ==> ok && Hopeless()
    {
      hide Inv, Core, WellFormed, FewRoots, NonEmpty, Unmarked, KeptOk, Work, Doomed, PassedFit;
      SizeOk(w);
      FewRootsFit(w, buf.Length, buf.Length);
      ok := true;
      ghost var sc, oam, m := scan, objectsAreMarked, marked;
      if top >= buf.Length / 4 {
        MarkFrom();
        if old(Hopeless()) { DoomedMarks(w, old(phase), oam, sc, m, buf.Length, phase, marked); }
      } else {
        InvIsCore(w, kept, phase, scan, marked, Stack());
        PushNextMarkedUncollectable();
        if old(Hopeless()) { DoomedScan(w, old(phase), oam, sc, m, buf.Length, phase, objectsAreMarked, scan, buf.Length - (old(top) + 1)); }
        if scan == 0 {
          ok := EnterRoots();
        } else {
          CoreIsInv(w, kept, phase, scan, marked, Stack());
        }
      }
    }

    /** GC_mark_some in state MS_ROOTS_PUSHED, without parallel marking; TRUE when marking is over. */
    method SomeRootsPushed() returns (done: bool)
      requires Ready() && phase == MsRootsPushed
      modifies this`top, this`phase, this`objectsAreMarked, this`tooSmall, this`marked, this`seen, this`buf, buf
      ensures Ready() && (buf == old(buf) || fresh(buf))
      ensures done <==> phase == MsNone
      ensures old(buf.Length) <= buf.Length
      ensures if done then !tooSmall && (!old(tooSmall) ==> buf == old(buf)) else buf == old(buf)
      ensures !done ==> Smaller(ToDo(), old(ToDo()))
    {
      hide Inv, Core, WellFormed, Unmarked, KeptOk;
      if top >= 0 {
        MarkFrom();
        done := false;
      } else {
        EmptyStackIsDone(w, kept, scan, marked, Stack());
        phase := MsNone;
        if tooSmall { GrowStack(); }
        done := true;
      }
    }

    /** GC_mark_some in states MS_INVALID and MS_PARTIALLY_INVALID. */
    method SomeInvalid() returns (ok: bool)
      requires Ready() && (phase == MsInvalid || phase == MsPartiallyInvalid)
      modifies this`top, this`phase, this`scan, this`objectsAreMarked, this`tooSmall, this`marked, this`seen, this`buf, buf
      ensures buf == old(buf) || fresh(buf)
      ensures FewRoots(w, old(buf.Length)) ==> ok
      ensures ok ==> Ready() && phase != MsNone
      ensures old(buf.Length) <= buf.Length
      ensures ok && Roomy(w, old(buf.Length)) ==> Smaller(ToDo(), old(ToDo()))
      ensures old(Hopeless()) && buf.Length == old(buf.Length) ==> ok && Hopeless()
    {
      hide Inv, Core, WellFormed, Roomy, FewRoots, NonEmpty, Unmarked, KeptOk, Doomed;
      ok := true;
      if !objectsAreMarked {
        InvIsCore(w, kept, phase, scan, marked, Stack());
        StartUncollectable(w, kept, scan);
        if Hopeless() { DoomedStarts(w, marked, buf.Length); }
        phase := MsPushUncollectable;
        CoreIsInv(w, kept, phase, scan, marked, Stack());
      } else if top >= 0 {
        MarkFrom();
        if old(Hopeless()) { DoomedMarks(w, old(phase), true, scan, old(marked), buf.Length, phase, marked); }
      } else {
        ok := SomeRescan();
      }
    }

    /** One step of the scan of the heap for marked objects, with an empty mark stack. */
    method SomeRescan() returns (ok: bool)
      requires Ready() && (phase == MsInvalid || phase == MsPartiallyInvalid) && objectsAreMarked && top == -1
      modifies this`top, this`phase, this`scan, this`objectsAreMarked, this`tooSmall, this`marked, this`buf, buf
      ensures (buf == old(buf) || fresh(buf)) && (!old(tooSmall) ==> buf == old(buf))
      ensures FewRoots(w, old(buf.Length)) ==> ok
      ensures ok ==> Ready() && phase != MsNone
      ensures old(buf.Length) <= buf.Length
      ensures ok && Roomy(w, old(buf.Length)) ==> Smaller(ToDo(), old(ToDo()))
      ensures old(Hopeless()) && buf.Length == old(buf.Length) ==> ok && Hopeless()
    {
      hide Inv, Core, WellFormed, Roomy, FewRoots, NonEmpty, Unmarked, KeptOk, Work, Doomed, PassedFit;
      SizeOk(w);
      ok := true;
      InvIsCore(w, kept, phase, scan, marked, Stack());
      ghost var ph := phase;
      if scan == 0 && phase == MsInvalid {
        if tooSmall { GrowStack(); }
        RestartScan(w, kept, phase, scan, marked, Stack());
        if Hopeless() { DoomedRestarts(w, marked, buf.Length); }
        phase := MsPartiallyInvalid;
        ph := phase;
      }
      RoomierToo(w, old(buf.Length), buf.Length);
      FewRootsFit(w, old(buf.Length), buf.Length);
      ghost var hopeless := Hopeless();
      PushNextMarked();
      if hopeless { DoomedScan(w, ph, true, old(scan), marked, buf.Length, phase, true, scan, buf.Length); }
      if scan == 0 && phase == MsPartiallyInvalid {
        ok := EnterRoots();
      } else {
        CoreIsInv(w, kept, phase, scan, marked, Stack());
      }
    }

    /** GC_mark_some: a small amount of marking; TRUE when a mark phase was just finished. */
    method MarkSome() returns (done: bool, ok: bool)
      requires Ready()
      modifies this`top, this`phase, this`scan, this`objectsAreMarked, this`tooSmall, this`marked, this`seen, this`buf, buf
      ensures buf == old(buf) || fresh(buf)
      ensures FewRoots(w, old(buf.Length)) ==> ok
      ensures ok ==> Ready()
      ensures ok && old(phase) != MsNone ==> (done <==> phase == MsNone)
      ensures old(phase) == MsNone ==> ok && !done && phase == MsNone && marked == old(marked)
      ensures old(buf.Length) <= buf.Length
      ensures ok && !done && old(phase) != MsNone && (Roomy(w, old(buf.Length)) || !HeapRescan(old(phase))) ==>
                Smaller(ToDo(), old(ToDo()))
      ensures old(Hopeless()) && buf.Length == old(buf.Length) ==> ok && !done && Hopeless()
    {
      hide Inv, Core, WellFormed, Roomy, FewRoots, Unmarked, KeptOk, Smaller, Doomed;
      if Hopeless() { DoomedPhase(w, phase, objectsAreMarked, scan, marked, buf.Length); }
      done, ok := false, true;
      match phase {
        case MsNone =>
        case MsPushUncollectable => ok := SomeUncollectable();
        case MsRootsPushed => done := SomeRootsPushed();
        case MsInvalid => ok := SomeInvalid();
        case MsPartiallyInvalid => ok := SomeInvalid();
      }
    }

    /** GC_clear_marks: clear all marks except those of uncollectable objects. */
    method ClearMarks()
      requires Shape() && top == -1 && forall o :: o in marked ==> IsObj(w, o)
      modifies this`marked, this`kept, this`objectsAreMarked, this`phase, this`scan
      ensures Ready() && phase == MsInvalid && scan == 0 && !objectsAreMarked
      ensures marked == kept
      ensures forall o :: o in kept <==> o in old(marked) && KeepsMark(w, o)
      ensures forall o :: o in kept <==> o in old(marked) && IsObj(w, o) && w.blocks[w.home(o)].kind in [Uncollectable, AtomicUncollectable]
    {
      hide WellFormed, BlockOk, Core;
      for k := 0 to |w.blocks|
        invariant forall o :: o in marked <==> o in old(marked) && !ClearedBelow(w, k, o)
      {
        ghost var m := marked;
        if !w.blocks[k].free && !IsUncollectable(w.blocks[k].kind) {
          marked := marked - set o | o in w.blocks[k].objs;
        }
        forall o | o in old(marked)
          ensures o in marked <==> !ClearedBelow(w, k + 1, o)
        {
          ClearStep(w, k, o);
        }
      }
      objectsAreMarked := false;
      phase := MsInvalid;
      scan := 0;
      kept := marked;
      FreshMarks(w, kept);
    }

    /** GC_stopped_mark for a full collection: flush the mark stack, clear the marks and call
        GC_mark_some until it returns TRUE.  The marked objects are then exactly the reachable ones,
        however often the stack overflowed; FALSE stands for ABORT, when a static root range met a full
        stack.  That cannot happen if they fit into three quarters of the initial stack, and must happen
        if they do not fit into the stack as it is at the end. */
    method MarkAll() returns (ok: bool)
      requires Shape() && Roomy(w, buf.Length) && forall o :: o in marked ==> IsObj(w, o)
      modifies this, buf
      ensures forall o :: o in kept <==> o in old(marked) && KeepsMark(w, o)
      ensures forall o :: o in kept <==> o in old(marked) && IsObj(w, o) && w.blocks[w.home(o)].kind in [Uncollectable, AtomicUncollectable]
      ensures FewRoots(w, old(buf.Length)) ==> ok
      ensures NonEmpty(w, w.staticRoots) > buf.Length ==> !ok
      ensures ok ==> Shape() && phase == MsNone && Stack() == []
      ensures ok ==> forall o :: o in marked <==> Reachable(w, kept, o)
    {
      hide Inv, Core, WellFormed, Roomy, FewRoots, Unmarked, Work, Rank, HeapEnd, KeptOk, Reachable, IsObj, KeepsMark;
      // GC_invalidate_mark_state
      phase := MsInvalid;
      top := -1;
      ClearMarks();
      ghost var k0 := kept;
      // GC_initiate_gc
      scan := 0;
      ok := true;
      var done := false;
      while !done
        invariant ok && Ready() && kept == k0 && (done <==> phase == MsNone)
        invariant (buf == old(buf) || fresh(buf)) && old(buf.Length) <= buf.Length
        decreases if done then 0 else 1, ToDo().unmarked, ToDo().rank, ToDo().heap, ToDo().work
      {
        HeapLeft(w, scan);
        RoomierToo(w, old(buf.Length), buf.Length);
        FewRootsFit(w, old(buf.Length), buf.Length);
        done, ok := MarkSome();
        if !ok { return; }
      }
      MarkedIsReachable(w, kept, scan, marked, Stack());
    }

    /** GC_mark_some called n times in a state without hope: unless the stack is grown, marking is not over. */
    method MarkOften(n: nat) returns (done: bool)
      requires Ready() && Hopeless()
      modifies this`top, this`phase, this`scan, this`objectsAreMarked, this`tooSmall, this`marked, this`seen, this`buf, buf
      ensures old(buf.Length) <= buf.Length
      ensures buf.Length == old(buf.Length) ==> Ready() && Hopeless() && !done
    {
      hide Inv, Core, WellFormed, Roomy, FewRoots, NonEmpty, Unmarked, KeptOk, Smaller, Doomed;
      var size := buf.Length;
      done := false;
      for i := 0 to n
        invariant (buf == old(buf) || fresh(buf)) && buf.Length == old(buf.Length) && Ready() && Hopeless() && !done
      {
        var ok;
        done, ok := MarkSome();
        if buf.Length != size { return; }
      }
    }
  }

  /** One block of nine uncollectable objects, and a stack of eight entries. */
  function Nine(): World {
    World(8, [Block(4096, 4096, false, Uncollectable, Length(16), [4096, 4112, 4128, 4144, 4160, 4176, 4192, 4208, 4224])],
          o => 0, a => 0, x => None, x => None, false, 4096, 8192, [], [], {}, 8)
  }

  /** Marking this heap does not end as long as alloc_mark_stack fails. */
  method NineNeverEnd(n: nat) returns (m: Marker, done: bool)
    ensures m.w == Nine() && (m.buf.Length == m.w.initialStack ==> !done)
  {
    hide Inv, Core, Doomed, WellFormed, Nine, KeepsMark, IsObj, KeptOk, NonEmpty;
    NineIsOk();
    m := new Marker(Nine());
    m.marked := set o | o in m.w.blocks[0].objs;
    m.ClearMarks();
    NineAreDoomed(m.marked, m.phase, m.objectsAreMarked, m.scan);
    done := m.MarkOften(n);
  }

  lemma NineIsOk()
    ensures WellFormed(Nine()) && |Nine().blocks| == 1 && Nine().initialStack == 8
    ensures forall o :: o in Nine().blocks[0].objs ==> IsObj(Nine(), o) && KeepsMark(Nine(), o)
  {
    hide Nine;
    NineFacts();
    assert BlockOk(Nine(), 0);
  }

  lemma NineFacts()
    ensures |Nine().blocks| == 1 && Nine().align == 8 && Nine().initialStack == 8 && Nine().freeListBases == {} && !Nine().allInterior
    ensures forall x :: Nine().home(x) == 0 && Nine().base(x) == None && Nine().stackBase(x) == None
    ensures var b := Nine().blocks[0];
      && b.start == b.bytes == 4096 && !b.free && b.kind == Uncollectable && b.descr == Length(16) && |b.objs| == 9
      && forall o :: o in b.objs ==> o % 8 == 0
  {
  }

  lemma NineAreDoomed(marked: set<nat>, phase: Phase, objectsAreMarked: bool, scan: nat)
    requires |Nine().blocks| == 1 && forall o :: o in Nine().blocks[0].objs ==> o in marked
    requires phase == MsInvalid
    ensures Doomed(Nine(), phase, objectsAreMarked, scan, marked, 8)
  {
    hide Nine, MarkedUpTo;
    NineFacts();
    AllMarked(Nine().blocks[0].objs, 9, marked);
    assert DoomedAt(Nine(), 0, phase, objectsAreMarked, scan, marked, 8);
  }

  lemma {:induction false} AllMarked(objs: seq<nat>, n: nat, marked: set<nat>)
    requires n <= |objs| && forall o :: o in objs ==> o in marked
    ensures MarkedUpTo(objs, n, marked) == n
  {
    if n > 0 { AllMarked(objs, n - 1, marked); }
  }
}
