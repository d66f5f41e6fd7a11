/** Every action of the parallel marker: marks, words and counters. */
module ParallelMoves {
  import opened Basics
  import opened MarkWorld
  import opened MarkState
  import opened MarkWork
  import opened ParallelState
  import opened ParallelSteps
  import opened ParallelScan

  lemma ControlSound(w: World, kept: set<nat>, scan: nat, g: Shared, t: nat, x: Action)
    requires t < |g.threads| && ThreadOk(w, kept, g, t) && Sound(w, kept, scan, g) && Enabled(w, g, t, x)
    requires Control(x) || x.LoadCell?
    ensures Sound(w, kept, scan, Apply(w, g, t, x))
  {
    hide Sound, Enabled, Apply, SameWork;
    if Locks(x) { LocksSame(w, kept, g, t, x); } else { WalksSame(w, kept, g, t, x); }
    SameWorkSound(w, kept, scan, g, Apply(w, g, t, x));
  }

  lemma LocksSame(w: World, kept: set<nat>, g: Shared, t: nat, x: Action)
    requires t < |g.threads| && ThreadOk(w, kept, g, t) && Enabled(w, g, t, x) && Locks(x)
    ensures SameWork(g, Apply(w, g, t, x))
  {
    hide Harmless, InEntry, Rest, Visited, Pushed, SeenMarks, EntryOk, Weight, Front, Back, CopyTo;
  }

  lemma WalksSame(w: World, kept: set<nat>, g: Shared, t: nat, x: Action)
    requires t < |g.threads| && ThreadOk(w, kept, g, t) && Enabled(w, g, t, x) && (Walks(x) || x.LoadCell?)
    ensures SameWork(g, Apply(w, g, t, x))
  {
    hide ThreadOk, Enabled, Apply, SameWork;
    if x.Join? || x.LoadFirst? || x.Advance? { EarlySame(w, kept, g, t, x); } else { LateSame(w, kept, g, t, x); }
  }

  lemma EarlySame(w: World, kept: set<nat>, g: Shared, t: nat, x: Action)
    requires t < |g.threads| && ThreadOk(w, kept, g, t) && Enabled(w, g, t, x) && (x.Join? || x.LoadFirst? || x.Advance?)
    ensures SameWork(g, Apply(w, g, t, x))
  {
    hide Harmless, InEntry, Rest, Visited, Pushed, SeenMarks, EntryOk, Weight, Front, Back, CopyTo;
  }

  lemma LateSame(w: World, kept: set<nat>, g: Shared, t: nat, x: Action)
    requires t < |g.threads| && ThreadOk(w, kept, g, t) && Enabled(w, g, t, x) && (x.LoadTop? || x.End? || x.Emptied? || x.Return? || x.LoadCell?)
    ensures SameWork(g, Apply(w, g, t, x))
  {
    hide Harmless, InEntry, Rest, Visited, Pushed, SeenMarks, EntryOk, Weight, Front, Back, CopyTo;
  }

  lemma ClearCellSound(w: World, kept: set<nat>, scan: nat, g: Shared, t: nat)
    requires t < |g.threads| && StackOk(w, g) && ThreadOk(w, kept, g, t) && Sound(w, kept, scan, g) && Enabled(w, g, t, ClearCell)
    ensures Sound(w, kept, scan, Apply(w, g, t, ClearCell))
  {
    hide Sound, Harmless, InEntry, EntryOk, Weight;
    var g', th := Apply(w, g, t, ClearCell), g.threads[t];
    assert th.pc.e in g'.threads[t].local;
    forall e ensures InPlay(g, e) ==> InPlay(g', e) {
      if i :| 0 <= i < g.top && i < |g.cells| && g.cells[i] == Some(e) { assert i == th.mine || g'.cells[i] == Some(e); }
      if u :| 0 <= u < |g.threads| && e in g.threads[u].local { assert e in g'.threads[u].local; }
    }
    EntryMove(w, g, g');
    HarmlessOpen(w, kept, scan, g);
    forall a | Open(w, g', a)
      ensures Harmless(w, kept, a)
    {
      ClearCellBack(w, g, g', t, a);
    }
    StaysSound(w, kept, scan, g, g');
  }

  lemma ClearCellBack(w: World, g: Shared, g': Shared, t: nat, a: int)
    requires Enabled(w, g, t, ClearCell) && g' == Apply(w, g, t, ClearCell) && Open(w, g', a)
    ensures Open(w, g, a) || InEntry(w, g.threads[t].pc.e, a)
  {
    hide InEntry, Weight;
    if u :| 0 <= u < |g'.threads| && a in g'.threads[u].hand {
      assert a in g.threads[u].hand;
    } else {
      var e :| InPlay(g', e) && InEntry(w, e, a);
      if e != g.threads[t].pc.e { assert InPlay(g, e); }
    }
  }

  /** Entries that are given back are on the shared stack from the moment they leave the local one. */
  lemma ReleaseMoves(w: World, kept: set<nat>, g: Shared, t: nat, e: Entry)
    requires t < |g.threads| && StackOk(w, g) && ThreadOk(w, kept, g, t) && Enabled(w, g, t, Release)
    ensures InPlay(g, e) <==> InPlay(Apply(w, g, t, Release), e)
  {
    hide Harmless, InEntry, EntryOk, MarksReachable;
    var g', th, k := Apply(w, g, t, Release), g.threads[t], g.threads[t].pc.k;
    if u :| 0 <= u < |g.threads| && e in g.threads[u].local {
      if u != t { assert e in g'.threads[u].local; }
      else {
        var j :| 0 <= j < |th.local| && th.local[j] == e;
        if j < k { assert g'.cells[g.top + j] == Some(e); } else { assert g'.threads[t].local[j - k] == e; }
      }
    }
    if i :| g.top <= i < g'.top && i < |g'.cells| && g'.cells[i] == Some(e) { assert th.local[i - g.top] == e; }
    if u :| 0 <= u < |g'.threads| && e in g'.threads[u].local { assert e in g.threads[u].local; }
  }

  lemma ReleaseSound(w: World, kept: set<nat>, scan: nat, g: Shared, t: nat)
    requires t < |g.threads| && StackOk(w, g) && ThreadOk(w, kept, g, t) && Sound(w, kept, scan, g) && Enabled(w, g, t, Release)
    ensures Sound(w, kept, scan, Apply(w, g, t, Release))
  {
    hide Sound, Harmless, InEntry, EntryOk;
    var g', th, k := Apply(w, g, t, Release), g.threads[t], g.threads[t].pc.k;
    forall e ensures InPlay(g, e) <==> InPlay(g', e) { ReleaseMoves(w, kept, g, t, e); }
    EntryMove(w, g, g');
    EntryMove(w, g', g);
    HarmlessOpen(w, kept, scan, g);
    StaysSound(w, kept, scan, g, g');
  }

  lemma CopySound(w: World, kept: set<nat>, scan: nat, g: Shared, t: nat)
    requires t < |g.threads| && StackOk(w, g) && ThreadOk(w, kept, g, t) && Sound(w, kept, scan, g) && Enabled(w, g, t, Copy)
    ensures Sound(w, kept, scan, Apply(w, g, t, Copy))
  {
    hide Sound, Harmless, InEntry, EntryOk;
    var g' := Apply(w, g, t, Copy);
    HarmlessOpen(w, kept, scan, g);
    forall e ensures InPlay(g', e) ==> InPlay(g, e) {
      if u :| 0 <= u < |g'.threads| && e in g'.threads[u].local { assert e in g.threads[u].local; }
    }
    EntryMove(w, g', g);
    if g'.phase != MsInvalid {
      forall e ensures InPlay(g, e) ==> InPlay(g', e) {
        if u :| 0 <= u < |g.threads| && e in g.threads[u].local { assert e in g'.threads[u].local; }
      }
      EntryMove(w, g, g');
    }
    StaysSound(w, kept, scan, g, g');
  }

  lemma NumbersStay(w: World, kept: set<nat>, g: Shared, t: nat, x: Action)
    requires t < |g.threads| && Enabled(w, g, t, x)
    requires g.active == |ActiveSet(g.threads)| && g.helpers == |InsideSet(g.threads)|
    ensures var g' := Apply(w, g, t, x); g'.active == |ActiveSet(g'.threads)| && g'.helpers == |InsideSet(g'.threads)|
  {
    hide Harmless, InEntry, Rest, Visited, Pushed, SeenMarks, EntryOk, Weight, Front, Back, CopyTo, NoWork, ActiveSet, InsideSet,
      Enabled, Entries, Apply;
    var g' := Apply(w, g, t, x);
    if Locks(x) { LocksNumbers(w, g, t, x); } else { OtherNumbers(w, g, t, x); }
    CountActive(g.threads, t, g'.threads[t]);
    CountInside(g.threads, t, g'.threads[t]);
  }

  /** The counters follow thread t. */
  ghost predicate Counted(g: Shared, g': Shared, t: nat)
    requires t < |g.threads|
  {
    && |g'.threads| == |g.threads| && g'.threads == g.threads[t := g'.threads[t]]
    && g'.active == g.active + (if IsActive(g'.threads[t].pc) then 1 else 0) - (if IsActive(g.threads[t].pc) then 1 else 0)
    && g'.helpers == g.helpers + (if Inside(g'.threads[t].pc) then 1 else 0) - (if Inside(g.threads[t].pc) then 1 else 0)
  }

  lemma LocksNumbers(w: World, g: Shared, t: nat, x: Action)
    requires t < |g.threads| && Enabled(w, g, t, x) && Locks(x)
    ensures Counted(g, Apply(w, g, t, x), t)
  {
    hide InEntry, Rest, Visited, Pushed, SeenMarks, Weight, Front, Back, CopyTo;
  }

  lemma OtherNumbers(w: World, g: Shared, t: nat, x: Action)
    requires t < |g.threads| && Enabled(w, g, t, x) && !Locks(x)
    ensures Counted(g, Apply(w, g, t, x), t)
  {
    hide Enabled, Apply, Counted;
    if Scans(x) { ScansNumbers(w, g, t, x); } else if Stores(x) { StoresNumbers(w, g, t, x); } else { WalksNumbers(w, g, t, x); }
  }

  lemma WalksNumbers(w: World, g: Shared, t: nat, x: Action)
    requires t < |g.threads| && Enabled(w, g, t, x) && Walks(x)
    ensures Counted(g, Apply(w, g, t, x), t)
  {
    hide InEntry, Rest, Visited, Pushed, SeenMarks, Weight, Front, Back, CopyTo;
  }

  lemma ScansNumbers(w: World, g: Shared, t: nat, x: Action)
    requires t < |g.threads| && Enabled(w, g, t, x) && Scans(x)
    ensures Counted(g, Apply(w, g, t, x), t)
  {
    hide InEntry, Rest, Visited, Pushed, SeenMarks, Weight, Front, Back, CopyTo;
  }

  lemma StoresNumbers(w: World, g: Shared, t: nat, x: Action)
    requires t < |g.threads| && Enabled(w, g, t, x) && Stores(x)
    ensures Counted(g, Apply(w, g, t, x), t)
  {
    hide InEntry, Rest, Visited, Pushed, SeenMarks, Weight, Front, Back, CopyTo;
  }

  /** Once there is no work there never will be any in this parallel mark. */
  lemma NoWorkStays(w: World, kept: set<nat>, g: Shared, t: nat, x: Action)
    requires t < |g.threads| && ThreadOk(w, kept, g, t) && NoWork(g) && Enabled(w, g, t, x)
    ensures NoWork(Apply(w, g, t, x))
  {
    hide NoWork, Enabled, Apply, SameWork;
    if Scans(x) { NoWorkScans(w, kept, g, t, x); }
    else if Stores(x) { NoWorkStores(w, kept, g, t, x); }
    else {
      if Locks(x) { LocksSame(w, kept, g, t, x); } else { WalksSame(w, kept, g, t, x); }
      if Locks(x) { LocksClaim(w, g, t, x); } else { WalksClaim(w, g, t, x); }
      NoWorkSame(g, Apply(w, g, t, x), t);
    }
  }

  lemma NoWorkSame(g: Shared, g': Shared, t: nat)
    requires NoWork(g) && SameWork(g, g') && t < |g.threads| && !g'.threads[t].pc.Claim?
    requires forall u :: 0 <= u < |g.threads| && u != t ==> g'.threads[u] == g.threads[u]
    ensures NoWork(g')
  {
  }

  lemma LocksClaim(w: World, g: Shared, t: nat, x: Action)
    requires t < |g.threads| && Enabled(w, g, t, x) && Locks(x)
    ensures |Apply(w, g, t, x).threads| == |g.threads| && !Apply(w, g, t, x).threads[t].pc.Claim?
    ensures forall u :: 0 <= u < |g.threads| && u != t ==> Apply(w, g, t, x).threads[u] == g.threads[u]
  {
    hide InEntry, Rest, Visited, Pushed, SeenMarks, Weight, Front, Back, CopyTo;
  }

  lemma WalksClaim(w: World, g: Shared, t: nat, x: Action)
    requires t < |g.threads| && Enabled(w, g, t, x) && Walks(x)
    ensures |Apply(w, g, t, x).threads| == |g.threads| && !Apply(w, g, t, x).threads[t].pc.Claim?
    ensures forall u :: 0 <= u < |g.threads| && u != t ==> Apply(w, g, t, x).threads[u] == g.threads[u]
  {
    hide InEntry, Rest, Visited, Pushed, SeenMarks, Weight, Front, Back, CopyTo;
  }

  /** A thread that looks at the shared stack finds nothing. */
  lemma NoWorkScans(w: World, kept: set<nat>, g: Shared, t: nat, x: Action)
    requires t < |g.threads| && ThreadOk(w, kept, g, t) && NoWork(g) && Enabled(w, g, t, x) && Scans(x)
    ensures NoWork(Apply(w, g, t, x))
  {
    hide Harmless, InEntry, Rest, Visited, Pushed, SeenMarks, EntryOk, Weight, Front, Back, CopyTo;
  }

  /** A thread that stores has nothing to store. */
  lemma NoWorkStores(w: World, kept: set<nat>, g: Shared, t: nat, x: Action)
    requires t < |g.threads| && ThreadOk(w, kept, g, t) && NoWork(g) && Enabled(w, g, t, x) && Stores(x)
    ensures NoWork(Apply(w, g, t, x))
  {
    hide Harmless, InEntry, Rest, Visited, Pushed, SeenMarks, EntryOk, Weight, Front, Back;
  }

  /** The thread that runs GC_do_parallel_mark withdraws the call for help when it leaves, and returns
      when nobody is left. */
  lemma EndsStay(w: World, kept: set<nat>, g: Shared, t: nat, x: Action)
    requires t < |g.threads| && CountsOk(g) && Enabled(w, g, t, x)
    ensures var g' := Apply(w, g, t, x);
      && |g'.threads| == |g.threads|
      && (forall u :: 0 <= u < |g'.threads| && (g'.threads[u].pc.Finished? || g'.threads[u].pc.Ended?) ==>
            u == 0 && g'.left && !g'.helpWanted)
      && (g'.threads[0].pc.Ended? ==> g'.helpers == 0)
  {
    hide NoWork, ActiveSet, InsideSet, Enabled, Apply;
    if Inside(g.threads[t].pc) { InInside(g, t); }
    if Locks(x) { LocksEnds(w, g, t, x); } else { OtherEnds(w, g, t, x); }
  }

  /** What thread t does to the end of the parallel mark. */
  ghost predicate Leaves(g: Shared, g': Shared, t: nat)
    requires t < |g.threads|
  {
    && |g'.threads| == |g.threads| && g'.threads == g.threads[t := g'.threads[t]]
    && (g.left ==> g'.left) && (!g.helpWanted ==> !g'.helpWanted)
    && (g'.threads[t].pc.Ended? && !g.threads[t].pc.Ended? ==> g.threads[t].pc.Finished? && g.helpers <= 0)
    && (g'.threads[t].pc.Finished? && !g.threads[t].pc.Finished? ==> t == 0 && g'.left && !g'.helpWanted)
    && (g'.helpers > g.helpers ==> g.helpWanted)
    && (g'.helpers < g.helpers ==> Inside(g.threads[t].pc) && g'.helpers == g.helpers - 1)
  }

  lemma LocksEnds(w: World, g: Shared, t: nat, x: Action)
    requires t < |g.threads| && Enabled(w, g, t, x) && Locks(x)
    ensures Leaves(g, Apply(w, g, t, x), t)
  {
    hide InEntry, Rest, Visited, Pushed, SeenMarks, Weight, Front, Back, CopyTo;
  }

  lemma OtherEnds(w: World, g: Shared, t: nat, x: Action)
    requires t < |g.threads| && Enabled(w, g, t, x) && !Locks(x)
    ensures Leaves(g, Apply(w, g, t, x), t)
  {
    hide Enabled, Apply, Leaves;
    if Scans(x) { ScansEnds(w, g, t, x); } else if Stores(x) { StoresEnds(w, g, t, x); } else { WalksEnds(w, g, t, x); }
  }

  lemma WalksEnds(w: World, g: Shared, t: nat, x: Action)
    requires t < |g.threads| && Enabled(w, g, t, x) && Walks(x)
    ensures Leaves(g, Apply(w, g, t, x), t)
  {
    hide InEntry, Rest, Visited, Pushed, SeenMarks, Weight, Front, Back, CopyTo;
  }

  lemma ScansEnds(w: World, g: Shared, t: nat, x: Action)
    requires t < |g.threads| && Enabled(w, g, t, x) && Scans(x)
    ensures Leaves(g, Apply(w, g, t, x), t)
  {
    hide InEntry, Rest, Visited, Pushed, SeenMarks, Weight, Front, Back, CopyTo;
  }

  lemma StoresEnds(w: World, g: Shared, t: nat, x: Action)
    requires t < |g.threads| && Enabled(w, g, t, x) && Stores(x)
    ensures Leaves(g, Apply(w, g, t, x), t)
  {
    hide InEntry, Rest, Visited, Pushed, SeenMarks, Weight, Front, Back, CopyTo;
  }

  lemma InInside(g: Shared, t: nat)
    requires t < |g.threads| && Inside(g.threads[t].pc)
    ensures |InsideSet(g.threads)| > 0
  {
    assert t in InsideSet(g.threads);
  }

  lemma CountsStay(w: World, kept: set<nat>, scan: nat, g: Shared, t: nat, x: Action)
    requires t < |g.threads| && Good(w, kept, scan, g) && Enabled(w, g, t, x)
    ensures CountsOk(Apply(w, g, t, x))
  {
    hide Sound, StackOk, ThreadOk, NoWork, ActiveSet, InsideSet, Apply, Enabled;
    NumbersStay(w, kept, g, t, x);
    EndsStay(w, kept, g, t, x);
    assert ThreadOk(w, kept, g, t);
    if g.left { NoWorkStays(w, kept, g, t, x); }
    else { LeavingStays(w, kept, scan, g, t, x); }
  }

  lemma LeavingStays(w: World, kept: set<nat>, scan: nat, g: Shared, t: nat, x: Action)
    requires t < |g.threads| && Good(w, kept, scan, g) && Enabled(w, g, t, x) && !g.left
    ensures Apply(w, g, t, x).left ==> NoWork(Apply(w, g, t, x))
  {
    hide Sound, StackOk, ThreadOk, NoWork, ActiveSet, InsideSet, Rest, Visited, Pushed, SeenMarks, Weight, Front, Back, CopyTo;
    if x.Conclude? && g.active == 0 && g.first >= g.top {
      assert ThreadOk(w, kept, g, t);
      IdleMeansNoWork(w, kept, scan, g);
      NoWorkStays(w, kept, g, t, x);
    }
  }

  /** Any action of any thread keeps the invariant. */
  lemma StepKeepsGood(w: World, kept: set<nat>, scan: nat, g: Shared, t: nat, x: Action)
    requires WellFormed(w) && Good(w, kept, scan, g) && Enabled(w, g, t, x)
    ensures Good(w, kept, scan, Apply(w, g, t, x))
  {
    hide Sound, StackOk, ThreadOk, Apply, CountsOk, WellFormed;
    var g' := Apply(w, g, t, x);
    assert ThreadOk(w, kept, g, t);
    CountsStay(w, kept, scan, g, t, x);
    ActsQuietly(w, kept, g, t, x);
    forall u: nat | u < |g.threads| && u != t ensures ThreadOk(w, kept, g', u) { OthersStay(w, kept, scan, g, t, x, u); }
    if x.ClearCell? || x.Copy? || x.Release? {
      StackStays(w, kept, g, t, x);
      MoveStays(w, kept, g, t, x);
      MoveSound(w, kept, scan, g, t, x);
    } else {
      StackSame(w, kept, g, t, x);
      match x
      case Visit => VisitStays(w, kept, scan, g, t);
      case Split => SplitStays(w, kept, scan, g, t);
      case Consider(a, stale) =>
        ConsiderThread(w, kept, g, t, a, stale);
        ConsiderSound(w, kept, scan, g, t, a, stale);
      case LoadCell =>
        LoadCellStays(w, kept, scan, g, t);
        ControlSound(w, kept, scan, g, t, x);
      case _ =>
        ControlSound(w, kept, scan, g, t, x);
        if Locks(x) { LocksStay(w, kept, g, t, x); } else { ControlStays(w, kept, g, t, x); }
    }
  }

  lemma MoveSound(w: World, kept: set<nat>, scan: nat, g: Shared, t: nat, x: Action)
    requires t < |g.threads| && StackOk(w, g) && ThreadOk(w, kept, g, t) && Sound(w, kept, scan, g) && Enabled(w, g, t, x)
    requires x.ClearCell? || x.Copy? || x.Release?
    ensures Sound(w, kept, scan, Apply(w, g, t, x))
  {
    hide Sound, StackOk, ThreadOk, Apply, Enabled;
    match x
    case ClearCell => ClearCellSound(w, kept, scan, g, t);
    case Copy => CopySound(w, kept, scan, g, t);
    case Release => ReleaseSound(w, kept, scan, g, t);
  }
}
