/** Parallel marking loses no work and ends only when there is none, under every interleaving. */
module ParallelMark {
  import opened Basics
  import opened MarkWorld
  import opened MarkState
  import opened MarkPhases
  import opened ParallelState
  import opened ParallelSteps
  import opened ParallelMoves

  /** The shared stack holds exactly the entries of `stack`. */
  ghost predicate Filled(g: Shared, stack: seq<Entry>) {
    |stack| == g.top <= |g.cells| && forall i :: 0 <= i < g.top ==> g.cells[i] == Some(stack[i])
  }

  lemma FilledOpen(w: World, g: Shared, stack: seq<Entry>, a: int)
    requires Idle(g) && Filled(g, stack)
    ensures Open(w, Begun(g), a) <==> Pending(w, stack, a)
  {
    hide InEntry;
    if Open(w, Begun(g), a) {
      var e :| InPlay(Begun(g), e) && InEntry(w, e, a);
      assert e in stack;
    }
    if Pending(w, stack, a) {
      var e :| e in stack && InEntry(w, e, a);
      var i :| 0 <= i < |stack| && stack[i] == e;
      assert InPlay(Begun(g), e) by { assert g.cells[i] == Some(e); }
    }
  }

  /** GC_do_parallel_mark starts from what the marker left on the mark stack. */
  lemma StartIsGood(w: World, kept: set<nat>, scan: nat, g: Shared, stack: seq<Entry>)
    requires Idle(g) && Filled(g, stack) && g.phase != MsNone
    requires Inv(w, kept, g.phase, scan, g.marked, stack, iset{})
    ensures Good(w, kept, scan, Begun(g))
  {
    hide InEntry, Field, Reachable, InRange, Open, Pending;
    var b := Begun(g);
    forall a ensures Open(w, b, a) <==> Pending(w, stack, a) { FilledOpen(w, g, stack, a); }
    assert Sound(w, kept, scan, b) by {
      forall a | Open(w, b, a) ensures Harmless(w, kept, a) { PendingHarmless(w, kept, stack, a); }
      forall a ensures Settled(w, g.marked, stack, iset{}, a, Target(w, a)) <==> Done(w, b, a) {}
    }
    assert ActiveSet(b.threads) == {0} == InsideSet(b.threads);
  }

  lemma PendingHarmless(w: World, kept: set<nat>, stack: seq<Entry>, a: int)
    requires StackHarmless(w, kept, stack) && Pending(w, stack, a)
    ensures Harmless(w, kept, a)
  {
  }

  /** .. and leaves the marker's invariant behind, with an empty stack. */
  lemma NoWorkMeansInv(w: World, kept: set<nat>, scan: nat, g: Shared)
    requires Good(w, kept, scan, g) && NoWork(g)
    ensures Inv(w, kept, g.phase, scan, g.marked, [], iset{})
  {
    hide InEntry, Field, Reachable, InRange, StackOk, CountsOk, ThreadOk;
    forall e ensures !InPlay(g, e) {}
    forall a ensures !Open(w, g, a) {}
    forall a | Done(w, g, a) ensures Settled(w, g.marked, [], iset{}, a, Target(w, a)) {}
  }

  lemma {:induction false} RunKeepsGood(w: World, kept: set<nat>, scan: nat, g: Shared, run: seq<(nat, Action)>)
    requires WellFormed(w) && Good(w, kept, scan, g) && CanRun(w, g, run)
    ensures Good(w, kept, scan, Run(w, g, run))
    ensures g.marked <= Run(w, g, run).marked
    ensures Run(w, g, run).phase == g.phase || Run(w, g, run).phase == MsInvalid
    decreases |run|
  {
    hide Good, WellFormed, Enabled, Apply;
    if run != [] {
      StepKeepsGood(w, kept, scan, g, run[0].0, run[0].1);
      StepGrows(w, g, run[0].0, run[0].1);
      RunKeepsGood(w, kept, scan, Apply(w, g, run[0].0, run[0].1), run[1..]);
    }
  }

  lemma StepGrows(w: World, g: Shared, t: nat, x: Action)
    requires Enabled(w, g, t, x)
    ensures g.marked <= Apply(w, g, t, x).marked
    ensures Apply(w, g, t, x).phase == g.phase || Apply(w, g, t, x).phase == MsInvalid
  {
    hide InEntry, CopyTo;
  }

  /** GC_do_parallel_mark may take the place of marking from the mark stack to the end.  When it has
      returned nothing is left on any stack, no helper is inside, and either the marker's invariant
      holds with an empty stack or the phase is MsInvalid, as after any overflow. */
  lemma ParallelMarkIsSafe(w: World, kept: set<nat>, scan: nat, g: Shared, stack: seq<Entry>, run: seq<(nat, Action)>)
    requires WellFormed(w) && Idle(g) && Filled(g, stack) && g.phase != MsNone
    requires Inv(w, kept, g.phase, scan, g.marked, stack, iset{})
    requires CanRun(w, Begun(g), run)
    ensures var g' := Run(w, Begun(g), run);
      && |g'.threads| == |g.threads|
      && Good(w, kept, scan, g')
      && g.marked <= g'.marked
      && (g'.phase == g.phase || g'.phase == MsInvalid)
      && (g'.threads[0].pc.Ended? ==>
            && NoWork(g') && g'.helpers == g'.active == 0 && !g'.helpWanted
            && Inv(w, kept, g'.phase, scan, g'.marked, [], iset{}))
  {
    hide WellFormed, Inv, Sound, StackOk, ThreadOk, NoWork;
    StartIsGood(w, kept, scan, g, stack);
    RunKeepsGood(w, kept, scan, Begun(g), run);
    var g' := Run(w, Begun(g), run);
    RunKeepsCount(w, Begun(g), run);
    if g'.threads[0].pc.Ended? {
      NoWorkMeansInv(w, kept, scan, g');
      ActiveInside(g'.threads);
    }
  }

  lemma {:induction false} RunKeepsCount(w: World, g: Shared, run: seq<(nat, Action)>)
    requires CanRun(w, g, run)
    ensures |Run(w, g, run).threads| == |g.threads|
    decreases |run|
  {
    hide Enabled, Apply;
    if run != [] {
      StepKeepsCount(w, g, run[0].0, run[0].1);
      RunKeepsCount(w, Apply(w, g, run[0].0, run[0].1), run[1..]);
    }
  }

  lemma StepKeepsCount(w: World, g: Shared, t: nat, x: Action)
    requires Enabled(w, g, t, x)
    ensures |Apply(w, g, t, x).threads| == |g.threads|
  {
    hide InEntry, CopyTo;
  }

  lemma ActiveInside(ts: seq<Thread>)
    ensures |ActiveSet(ts)| <= |InsideSet(ts)|
  {
    var a, i := ActiveSet(ts), InsideSet(ts);
    assert a <= i && i == a + (i - a);
  }

  /** From roots pushed: when the parallel mark has returned and nothing overflowed, what is marked is
      exactly what is reachable. */
  lemma ParallelMarksReachable(w: World, kept: set<nat>, scan: nat, g: Shared, stack: seq<Entry>, run: seq<(nat, Action)>)
    requires WellFormed(w) && Idle(g) && Filled(g, stack) && g.phase == MsRootsPushed
    requires Inv(w, kept, MsRootsPushed, scan, g.marked, stack, iset{})
    requires CanRun(w, Begun(g), run)
    requires |Run(w, Begun(g), run).threads| > 0 && Run(w, Begun(g), run).threads[0].pc.Ended?
    requires Run(w, Begun(g), run).phase != MsInvalid
    ensures forall o :: o in Run(w, Begun(g), run).marked <==> Reachable(w, kept, o)
  {
    hide WellFormed, Sound, StackOk, ThreadOk, NoWork, Reachable, Field, InEntry;
    ParallelMarkIsSafe(w, kept, scan, g, stack, run);
    MarkedIsReachable(w, kept, scan, Run(w, Begun(g), run).marked, []);
  }

  /** Nobody is active and GC_first_nonempty is past the top: no thread has anything left to mark
      from, and whatever happens next in this mark phase there never will be anything. */
  lemma QuietIsForever(w: World, kept: set<nat>, scan: nat, g: Shared, run: seq<(nat, Action)>)
    requires WellFormed(w) && Good(w, kept, scan, g) && g.active == 0 && g.first >= g.top && CanRun(w, g, run)
    ensures NoWork(Run(w, g, run)) && Run(w, g, run).marked == g.marked
  {
    hide WellFormed, Good, Enabled, Apply, NoWork;
    IdleMeansNoWork(w, kept, scan, g);
    StaysQuiet(w, kept, scan, g, run);
  }

  lemma {:induction false} StaysQuiet(w: World, kept: set<nat>, scan: nat, g: Shared, run: seq<(nat, Action)>)
    requires WellFormed(w) && Good(w, kept, scan, g) && NoWork(g) && CanRun(w, g, run)
    ensures NoWork(Run(w, g, run)) && Run(w, g, run).marked == g.marked
    decreases |run|
  {
    hide WellFormed, Good, Enabled, Apply, NoWork;
    if run != [] {
      var t, x := run[0].0, run[0].1;
      ThreadIsOk(w, kept, scan, g, t, x);
      NoWorkStays(w, kept, g, t, x);
      NoMarks(w, g, t, x);
      StepKeepsGood(w, kept, scan, g, t, x);
      StaysQuiet(w, kept, scan, Apply(w, g, t, x), run[1..]);
    }
  }

  lemma ThreadIsOk(w: World, kept: set<nat>, scan: nat, g: Shared, t: nat, x: Action)
    requires Good(w, kept, scan, g) && Enabled(w, g, t, x)
    ensures t < |g.threads| && ThreadOk(w, kept, g, t)
  {
    hide ThreadOk, Sound, StackOk, CountsOk;
  }

  lemma NoMarks(w: World, g: Shared, t: nat, x: Action)
    requires NoWork(g) && Enabled(w, g, t, x)
    ensures Apply(w, g, t, x).marked == g.marked
  {
    hide InEntry, CopyTo;
  }
}
