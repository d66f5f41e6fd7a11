/** Every action of every thread keeps the invariant of the parallel marker. */
module ParallelSteps {
  import opened Basics
  import opened MarkWorld
  import opened MarkState
  import opened MarkWork
  import opened ParallelState

  /** If no word is lost and new marks are covered, the marking invariant survives. */
  lemma StaysSound(w: World, kept: set<nat>, scan: nat, g: Shared, g': Shared)
    requires Sound(w, kept, scan, g)
    requires g'.phase == g.phase || g'.phase == MsInvalid
    requires g.marked <= g'.marked && MarksReachable(w, kept, g'.marked)
    requires forall a :: Open(w, g', a) ==> Harmless(w, kept, a)
    requires g'.phase != MsInvalid ==> forall a :: Done(w, g, a) ==> Done(w, g', a)
    requires g'.phase != MsInvalid ==> forall o, a :: o in g'.marked && o !in g.marked && Field(w, o, a) ==> Done(w, g', a)
    ensures Sound(w, kept, scan, g')
  {
    hide Open, Reachable, Done, InRange, Field, Harmless;
    forall o, a | o in g'.marked && Field(w, o, a)
      ensures Excused(w, g'.phase, scan, o) || Done(w, g', a)
    {
      if g'.phase != MsInvalid && o in g.marked { assert Excused(w, g.phase, scan, o) || Done(w, g, a); }
    }
  }

  /** The same entries and words are around. */
  ghost predicate SameWork(g: Shared, g': Shared) {
    && g'.marked == g.marked && g'.phase == g.phase && g'.top == g.top && g'.cells == g.cells && |g'.threads| == |g.threads|
    && forall t :: 0 <= t < |g.threads| ==> g'.threads[t].local == g.threads[t].local && g'.threads[t].hand == g.threads[t].hand
  }

  lemma SameWorkSound(w: World, kept: set<nat>, scan: nat, g: Shared, g': Shared)
    requires Sound(w, kept, scan, g) && SameWork(g, g')
    ensures Sound(w, kept, scan, g')
  {
    hide Sound, Harmless;
    forall e ensures InPlay(g', e) <==> InPlay(g, e) {}
    forall a ensures Open(w, g', a) <==> Open(w, g, a) {}
    HarmlessOpen(w, kept, scan, g);
    StaysSound(w, kept, scan, g, g');
  }

  lemma HarmlessOpen(w: World, kept: set<nat>, scan: nat, g: Shared)
    requires Sound(w, kept, scan, g)
    ensures forall a :: Open(w, g, a) ==> Harmless(w, kept, a)
    ensures MarksReachable(w, kept, g.marked) && g.phase != MsNone
  {
  }

  /** Thread t moves; thread u does not notice. */
  lemma OtherOk(w: World, kept: set<nat>, g: Shared, g': Shared, u: nat)
    requires u < |g.threads| == |g'.threads| && ThreadOk(w, kept, g, u) && g'.threads[u] == g.threads[u]
    requires g.top <= g'.top && g.first <= g'.first && |g'.cells| == |g.cells| && g.top <= |g.cells|
    requires forall i :: 0 <= i < g.top ==> g'.cells[i] == g.cells[i] || g'.cells[i] == None
    requires HasLock(g.threads[u].pc) ==> g'.lock == g.lock && g'.top == g.top && forall i :: g.top <= i < |g.cells| ==> g'.cells[i] == g.cells[i]
    ensures ThreadOk(w, kept, g', u)
  {
  }

  lemma Card(s: set<int>, s': set<int>, t: int, b: bool)
    requires forall x :: x != t ==> (x in s <==> x in s')
    requires t in s' <==> b
    ensures |s'| == |s| + (if b then 1 else 0) - (if t in s then 1 else 0)
  {
    forall x ensures x in s - {t} <==> x in s' - {t} {}
    assert s - {t} == s' - {t};
    if t in s { assert |s| == |s - {t}| + 1; } else { assert s == s - {t}; }
    if t in s' { assert |s'| == |s' - {t}| + 1; } else { assert s' == s' - {t}; }
  }

  lemma CountActive(ts: seq<Thread>, t: nat, th: Thread)
    requires t < |ts|
    ensures |ActiveSet(ts[t := th])| ==
            |ActiveSet(ts)| + (if IsActive(th.pc) then 1 else 0) - (if IsActive(ts[t].pc) then 1 else 0)
  {
    hide IsActive;
    Card(ActiveSet(ts), ActiveSet(ts[t := th]), t, IsActive(th.pc));
  }

  lemma CountInside(ts: seq<Thread>, t: nat, th: Thread)
    requires t < |ts|
    ensures |InsideSet(ts[t := th])| ==
            |InsideSet(ts)| + (if Inside(th.pc) then 1 else 0) - (if Inside(ts[t].pc) then 1 else 0)
  {
    hide Inside;
    Card(InsideSet(ts), InsideSet(ts[t := th]), t, Inside(th.pc));
  }

  /** Nobody is active and everything on the shared stack was taken: there is no work anywhere. */
  lemma IdleMeansNoWork(w: World, kept: set<nat>, scan: nat, g: Shared)
    requires Good(w, kept, scan, g) && g.active == 0 && g.first >= g.top
    ensures NoWork(g)
  {
    hide Sound;
    assert ActiveSet(g.threads) == {};
    forall t: nat | t < |g.threads|
      ensures !IsActive(g.threads[t].pc) && ThreadOk(w, kept, g, t)
    {
      assert IsActive(g.threads[t].pc) <==> t in ActiveSet(g.threads);
    }
  }

  lemma StackStays(w: World, kept: set<nat>, g: Shared, t: nat, x: Action)
    requires t < |g.threads| && StackOk(w, g) && ThreadOk(w, kept, g, t) && Enabled(w, g, t, x)
    requires x.ClearCell? || x.Copy? || x.Release?
    ensures StackOk(w, Apply(w, g, t, x))
  {
    hide Harmless, InEntry, Rest, Visited, Pushed, SeenMarks, EntryOk, Weight, Front, Back;
  }

  lemma StackSame(w: World, kept: set<nat>, g: Shared, t: nat, x: Action)
    requires t < |g.threads| && StackOk(w, g) && ThreadOk(w, kept, g, t) && Enabled(w, g, t, x) && !Stores(x)
    ensures StackOk(w, Apply(w, g, t, x))
  {
    hide StackOk, ThreadOk, Enabled, Apply;
    if Locks(x) { StackLocks(w, kept, g, t, x); } else if Scans(x) { StackScans(w, kept, g, t, x); } else { StackWalks(w, kept, g, t, x); }
  }

  lemma StackLocks(w: World, kept: set<nat>, g: Shared, t: nat, x: Action)
    requires t < |g.threads| && StackOk(w, g) && ThreadOk(w, kept, g, t) && Enabled(w, g, t, x) && Locks(x)
    ensures StackOk(w, Apply(w, g, t, x))
  {
    hide Harmless, InEntry, Rest, Visited, Pushed, SeenMarks, EntryOk, Weight, Front, Back, CopyTo;
  }

  lemma StackWalks(w: World, kept: set<nat>, g: Shared, t: nat, x: Action)
    requires t < |g.threads| && StackOk(w, g) && ThreadOk(w, kept, g, t) && Enabled(w, g, t, x) && Walks(x)
    ensures StackOk(w, Apply(w, g, t, x))
  {
    hide Harmless, InEntry, Rest, Visited, Pushed, SeenMarks, EntryOk, Weight, Front, Back, CopyTo;
  }

  lemma StackScans(w: World, kept: set<nat>, g: Shared, t: nat, x: Action)
    requires t < |g.threads| && StackOk(w, g) && ThreadOk(w, kept, g, t) && Enabled(w, g, t, x) && Scans(x)
    ensures StackOk(w, Apply(w, g, t, x))
  {
    hide Harmless, InEntry, Rest, Visited, Pushed, SeenMarks, EntryOk, Weight, Front, Back, CopyTo;
  }

  /** What the others may notice of an action of thread t. */
  ghost predicate Quiet(g: Shared, g': Shared, t: nat) {
    && |g'.threads| == |g.threads| && (forall u :: 0 <= u < |g.threads| && u != t ==> g'.threads[u] == g.threads[u])
    && g.first <= g'.first && |g'.cells| == |g.cells|
    && (forall i :: 0 <= i < g.top && i < |g.cells| ==> g'.cells[i] == g.cells[i] || g'.cells[i] == None)
    && (g.lock.Some? && g.lock != Some(t) ==>
          g'.lock == g.lock && g'.top == g.top && forall i :: g.top <= i < |g.cells| ==> g'.cells[i] == g.cells[i])
    && g.top <= g'.top
  }

  /** Actions that touch nothing but the program counters and the bookkeeping: those with the lock, and the
      others. */
  predicate Control(x: Action) { !Scans(x) && !Stores(x) }
  predicate Locks(x: Action) { x.Lock? || x.LookAgain? || x.CheckWait? || x.Conclude? }
  predicate Walks(x: Action) { Control(x) && !Locks(x) }

  /** Actions on the local stack, and actions that write to the shared one. */
  predicate Scans(x: Action) { x.LoadCell? || x.Visit? || x.Split? || x.Consider? }
  predicate Stores(x: Action) { x.ClearCell? || x.Copy? || x.Release? }

  lemma ActsQuietly(w: World, kept: set<nat>, g: Shared, t: nat, x: Action)
    requires t < |g.threads| && StackOk(w, g) && ThreadOk(w, kept, g, t) && Enabled(w, g, t, x)
    ensures Quiet(g, Apply(w, g, t, x), t)
  {
    hide StackOk, ThreadOk, Enabled, Apply, Quiet;
    if Locks(x) { LocksQuietly(w, kept, g, t, x); }
    else if Stores(x) { StoresQuietly(w, kept, g, t, x); }
    else if Scans(x) { ScansQuietly(w, kept, g, t, x); }
    else { WalksQuietly(w, kept, g, t, x); }
  }

  lemma LocksQuietly(w: World, kept: set<nat>, g: Shared, t: nat, x: Action)
    requires t < |g.threads| && StackOk(w, g) && ThreadOk(w, kept, g, t) && Enabled(w, g, t, x) && Locks(x)
    ensures Quiet(g, Apply(w, g, t, x), t)
  {
    hide Harmless, InEntry, Rest, Visited, Pushed, SeenMarks, IsActive, EntryOk, Weight, Front, Back, CopyTo;
  }

  lemma WalksQuietly(w: World, kept: set<nat>, g: Shared, t: nat, x: Action)
    requires t < |g.threads| && StackOk(w, g) && ThreadOk(w, kept, g, t) && Enabled(w, g, t, x) && Walks(x)
    ensures Quiet(g, Apply(w, g, t, x), t)
  {
    hide Harmless, InEntry, Rest, Visited, Pushed, SeenMarks, IsActive, EntryOk, Weight, Front, Back, CopyTo;
  }

  lemma ScansQuietly(w: World, kept: set<nat>, g: Shared, t: nat, x: Action)
    requires t < |g.threads| && StackOk(w, g) && ThreadOk(w, kept, g, t) && Enabled(w, g, t, x) && Scans(x)
    ensures Quiet(g, Apply(w, g, t, x), t)
  {
    hide Harmless, InEntry, Rest, Visited, Pushed, SeenMarks, IsActive, EntryOk, Weight, Front, Back, CopyTo, ThreadOk;
  }

  lemma StoresQuietly(w: World, kept: set<nat>, g: Shared, t: nat, x: Action)
    requires t < |g.threads| && StackOk(w, g) && ThreadOk(w, kept, g, t) && Enabled(w, g, t, x) && Stores(x)
    ensures Quiet(g, Apply(w, g, t, x), t)
  {
    hide Harmless, InEntry, Rest, Visited, Pushed, SeenMarks, IsActive, EntryOk, Weight, Front, Back;
  }

  lemma OthersStay(w: World, kept: set<nat>, scan: nat, g: Shared, t: nat, x: Action, u: nat)
    requires t < |g.threads| && Good(w, kept, scan, g) && Enabled(w, g, t, x) && u != t && u < |g.threads|
    ensures |Apply(w, g, t, x).threads| == |g.threads| && ThreadOk(w, kept, Apply(w, g, t, x), u)
  {
    hide Sound, CountsOk, Apply, Enabled;
    assert ThreadOk(w, kept, g, u);
    assert ThreadOk(w, kept, g, t);
    ActsQuietly(w, kept, g, t, x);
    OtherOk(w, kept, g, Apply(w, g, t, x), u);
  }

  lemma OpenEntry(w: World, g: Shared, t: nat, e: Entry)
    requires t < |g.threads| && e in g.threads[t].local
    ensures forall a :: InEntry(w, e, a) ==> Open(w, g, a)
  {
    hide InEntry;
    assert InPlay(g, e);
  }

  lemma OpenCell(w: World, g: Shared, i: nat, e: Entry)
    requires i < g.top && i < |g.cells| && g.cells[i] == Some(e)
    ensures forall a :: InEntry(w, e, a) ==> Open(w, g, a)
  {
    hide InEntry;
    assert InPlay(g, e);
  }

  lemma LocksStay(w: World, kept: set<nat>, g: Shared, t: nat, x: Action)
    requires t < |g.threads| && StackOk(w, g) && ThreadOk(w, kept, g, t) && Enabled(w, g, t, x) && Locks(x)
    ensures |Apply(w, g, t, x).threads| == |g.threads| && ThreadOk(w, kept, Apply(w, g, t, x), t)
  {
    hide Harmless, InEntry, Rest, Visited, Pushed, SeenMarks, EntryOk, Weight, Front, Back, CopyTo;
  }

  lemma ControlStays(w: World, kept: set<nat>, g: Shared, t: nat, x: Action)
    requires t < |g.threads| && StackOk(w, g) && ThreadOk(w, kept, g, t) && Enabled(w, g, t, x) && Walks(x)
    ensures |Apply(w, g, t, x).threads| == |g.threads| && ThreadOk(w, kept, Apply(w, g, t, x), t)
  {
    hide StackOk, ThreadOk, Enabled, Apply;
    if x.Join? || x.LoadFirst? || x.Advance? { EarlyStays(w, kept, g, t, x); } else { LateStays(w, kept, g, t, x); }
  }

  lemma EarlyStays(w: World, kept: set<nat>, g: Shared, t: nat, x: Action)
    requires t < |g.threads| && StackOk(w, g) && ThreadOk(w, kept, g, t) && Enabled(w, g, t, x) && (x.Join? || x.LoadFirst? || x.Advance?)
    ensures |Apply(w, g, t, x).threads| == |g.threads| && ThreadOk(w, kept, Apply(w, g, t, x), t)
  {
    hide Harmless, InEntry, Rest, Visited, Pushed, SeenMarks, EntryOk, Weight, Front, Back, CopyTo;
  }

  lemma LateStays(w: World, kept: set<nat>, g: Shared, t: nat, x: Action)
    requires t < |g.threads| && StackOk(w, g) && ThreadOk(w, kept, g, t) && Enabled(w, g, t, x) && (x.LoadTop? || x.End? || x.Emptied? || x.Return?)
    ensures |Apply(w, g, t, x).threads| == |g.threads| && ThreadOk(w, kept, Apply(w, g, t, x), t)
  {
    hide Harmless, InEntry, Rest, Visited, Pushed, SeenMarks, EntryOk, Weight, Front, Back, CopyTo;
  }

  lemma MoveStays(w: World, kept: set<nat>, g: Shared, t: nat, x: Action)
    requires t < |g.threads| && StackOk(w, g) && ThreadOk(w, kept, g, t) && Enabled(w, g, t, x) && Stores(x)
    ensures |Apply(w, g, t, x).threads| == |g.threads| && ThreadOk(w, kept, Apply(w, g, t, x), t)
  {
    hide StackOk, ThreadOk, Enabled, Apply;
    if x.ClearCell? { ClearCellStays(w, kept, g, t, x); } else if x.Copy? { CopyStays(w, kept, g, t, x); } else { ReleaseStays(w, kept, g, t, x); }
  }

  lemma ClearCellStays(w: World, kept: set<nat>, g: Shared, t: nat, x: Action)
    requires t < |g.threads| && StackOk(w, g) && ThreadOk(w, kept, g, t) && Enabled(w, g, t, x) && x.ClearCell?
    ensures |Apply(w, g, t, x).threads| == |g.threads| && ThreadOk(w, kept, Apply(w, g, t, x), t)
  {
    hide Harmless, InEntry, Rest, Visited, Pushed, SeenMarks, EntryOk, Front, Back;
  }

  lemma CopyStays(w: World, kept: set<nat>, g: Shared, t: nat, x: Action)
    requires t < |g.threads| && StackOk(w, g) && ThreadOk(w, kept, g, t) && Enabled(w, g, t, x) && x.Copy?
    ensures |Apply(w, g, t, x).threads| == |g.threads| && ThreadOk(w, kept, Apply(w, g, t, x), t)
  {
    hide Harmless, InEntry, Rest, Visited, Pushed, SeenMarks, EntryOk, Front, Back;
  }

  lemma ReleaseStays(w: World, kept: set<nat>, g: Shared, t: nat, x: Action)
    requires t < |g.threads| && StackOk(w, g) && ThreadOk(w, kept, g, t) && Enabled(w, g, t, x) && x.Release?
    ensures |Apply(w, g, t, x).threads| == |g.threads| && ThreadOk(w, kept, Apply(w, g, t, x), t)
  {
    hide Harmless, InEntry, Rest, Visited, Pushed, SeenMarks, EntryOk, Front, Back;
  }

  lemma LoadCellStays(w: World, kept: set<nat>, scan: nat, g: Shared, t: nat)
    requires Good(w, kept, scan, g) && Enabled(w, g, t, LoadCell)
    ensures |Apply(w, g, t, LoadCell).threads| == |g.threads| && ThreadOk(w, kept, Apply(w, g, t, LoadCell), t)
  {
    hide Sound, CountsOk, Harmless, InEntry, IsActive, Field, EntryOk, Open;
    assert ThreadOk(w, kept, g, t);
    var th := g.threads[t];
    HarmlessOpen(w, kept, scan, g);
    if th.mine < th.pc.myTop && th.pc.got <= th.pc.max && th.mine < |g.cells| && g.cells[th.mine].Some? {
      OpenCell(w, g, th.mine, g.cells[th.mine].value);
    }
  }

  /** Cutting a range in two at an aligned place loses no word, because the front part extends one
      word past the cut. */
  lemma CutRange(w: World, s: int, n: nat, half: nat, a: int)
    requires w.align == 4 || w.align == 8
    requires half % 8 == 0 && half + WORD <= n && Aligned(w, s) && Aligned(w, n)
    ensures InEntry(w, Entry(s, Length(n)), a) <==>
            InEntry(w, Entry(s, Length(half + WORD)), a) || InEntry(w, Entry(s + half, Length(n - half)), a)
    ensures EntryOk(w, Entry(s, Length(half + WORD))) && EntryOk(w, Entry(s + half, Length(n - half)))
  {
    CutAligned(w, s, n, half);
    hide Aligned;
  }

  lemma CutAligned(w: World, s: int, n: nat, half: nat)
    requires w.align == 4 || w.align == 8
    requires half % 8 == 0 && half <= n && Aligned(w, s) && Aligned(w, n)
    ensures Aligned(w, half + WORD) && Aligned(w, s + half) && Aligned(w, n - half)
  {
    hide Aligned;
    EightsAligned(w, half);
    EightsAligned(w, WORD);
    AlignedBoth(w, half, WORD);
    AlignedBoth(w, s, half);
    AlignedBoth(w, half, n);
  }

  lemma FrontAndBack(w: World, e: Entry, a: int)
    requires w.align == 4 || w.align == 8
    requires e.descr.Length? && e.descr.n > SHARE_BYTES && EntryOk(w, e)
    ensures InEntry(w, e, a) <==> InEntry(w, Front(e), a) || InEntry(w, Back(e), a)
    ensures EntryOk(w, Front(e)) && EntryOk(w, Back(e))
  {
    hide InEntry;
    HalfOf(e.descr.n);
    CutRange(w, e.start, e.descr.n, e.descr.n / 2 / WORD * WORD, a);
  }

  lemma HalfOf(n: nat)
    requires n > SHARE_BYTES
    ensures n / 2 / WORD * WORD % 8 == 0 && n / 2 / WORD * WORD + WORD <= n
  {
  }
}
