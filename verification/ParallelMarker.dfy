/** GC_do_parallel_mark as a step of the marker. */
module ParallelMarker {
  import opened Basics
  import opened MarkWorld
  import opened MarkState
  import opened MarkWork
  import opened MarkPhases
  import opened MarkRoots
  import opened Marker
  import opened ParallelState
  import opened ParallelMark

  /** GC_mark_some in state MS_ROOTS_PUSHED with parallel marking: any number of threads have shared the
      mark stack in any interleaving, and after is the state that GC_do_parallel_mark returned in.  The
      marker is ready to go on, or is done with exactly the reachable objects marked. */
  method SomeInParallel(m: Marker, ghost g: Shared, ghost run: seq<(nat, Action)>, after: Shared) returns (done: bool)
    requires m.Ready() && m.phase == MsRootsPushed
    requires Idle(g) && Filled(g, m.Stack()) && g.phase == m.phase && g.marked == m.marked
    requires CanRun(m.w, Begun(g), run) && after == Run(m.w, Begun(g), run)
    requires |after.threads| > 0 && after.threads[0].pc.Ended?
    modifies m
    ensures m.Ready() && (done <==> m.phase == MsNone)
    ensures (m.buf == old(m.buf) || fresh(m.buf)) && old(m.buf.Length) <= m.buf.Length
    ensures !done ==> m.phase == MsInvalid
    ensures (done <==> after.phase == MsRootsPushed) && m.marked == after.marked && m.Stack() == []
    ensures !m.tooSmall && (!old(m.tooSmall) ==> m.buf == old(m.buf))
    ensures old(m.marked) <= m.marked && m.kept == old(m.kept)
    ensures done ==> forall o :: o in m.marked <==> Reachable(m.w, m.kept, o)
  {
    hide Inv, WellFormed, Reachable, Good, NoWork, Apply, Enabled, Idle, Filled;
    ParallelMarkIsSafe(m.w, m.kept, m.scan, g, m.Stack(), run);
    m.top := -1;
    m.marked := after.marked;
    m.phase := after.phase;
    if m.tooSmall { m.GrowStack(); }
    done := m.phase == MsRootsPushed;
    if done {
      EmptyStackIsDone(m.w, m.kept, m.scan, m.marked, m.Stack());
      m.phase := MsNone;
      MarkedIsReachable(m.w, m.kept, m.scan, m.marked, m.Stack());
    }
  }

  /** A parallel mark of some number of threads, begun with these marks and this mark stack, has returned in
      state `after`. */
  ghost predicate Returned(w: World, marked: set<nat>, stack: seq<Entry>, after: Shared) {
    exists g, run :: ReturnedFrom(w, marked, stack, g, run, after)
  }

  ghost predicate ReturnedFrom(w: World, marked: set<nat>, stack: seq<Entry>, g: Shared, run: seq<(nat, Action)>, after: Shared) {
    && Idle(g) && Filled(g, stack) && g.phase == MsRootsPushed && g.marked == marked
    && CanRun(w, Begun(g), run) && after == Run(w, Begun(g), run)
    && |after.threads| > 0 && after.threads[0].pc.Ended?
  }

  /** The marker between two calls of GC_mark_some; cap is the size of the mark stack. */
  datatype Moment = Moment(phase: Phase, marked: set<nat>, stack: seq<Entry>, cap: nat, todo: Measure)

  ghost function Here(m: Marker): Moment
    requires m.Shape()
    reads m, m.buf
  {
    Moment(m.phase, m.marked, m.Stack(), m.buf.Length, m.ToDo())
  }

  /** One round: what the parallel mark returned, if there was one; or else one call of GC_mark_some, which ends the
      collection or leaves less to do, in the heap rescan if the stack has room. */
  ghost predicate IsRound(w: World, a: Moment, after: Option<Shared>, b: Moment) {
    if a.phase == MsRootsPushed && after.Some? then
      b.marked == after.value.marked && b.stack == [] && b.phase == if after.value.phase == MsRootsPushed then MsNone else MsInvalid
    else
      b.phase == MsNone || Smaller(b.todo, a.todo) || (HeapRescan(a.phase) && !Roomy(w, a.cap))
  }

  /** A full collection in which serial and parallel marking alternate.  `parallel` says for every call of
      GC_mark_some that finds the phase MS_ROOTS_PUSHED whether the stack is marked from in parallel, and what
      state that returned in; any run of any number of threads will do.  If a call returns TRUE, exactly the
      reachable objects are marked. */
  method MarkInRounds(m: Marker, parallel: (nat, set<nat>, seq<Entry>) -> Option<Shared>, rounds: nat)
    returns (done: bool, ok: bool, ghost trace: seq<Moment>)
    requires m.Shape() && forall o :: o in m.marked ==> IsObj(m.w, o)
    requires forall i: nat, marked, stack ::
               parallel(i, marked, stack).Some? ==> Returned(m.w, marked, stack, parallel(i, marked, stack).value)
    modifies m, m.buf
    ensures forall o :: o in m.kept <==> o in old(m.marked) && KeepsMark(m.w, o)
    ensures FewRoots(m.w, old(m.buf.Length)) ==> ok
    ensures ok ==> m.Ready() && (done <==> m.phase == MsNone)
    ensures 0 < |trace| <= rounds + 1 && trace[0].phase == MsInvalid && trace[0].marked == m.kept && trace[0].stack == []
    ensures ok ==> trace[|trace| - 1] == Here(m) && (!done ==> |trace| == rounds + 1)
    ensures forall i: nat :: i + 1 < |trace| ==> IsRound(m.w, trace[i], parallel(i, trace[i].marked, trace[i].stack), trace[i + 1])
    ensures ok && done ==> m.Stack() == [] && forall o :: o in m.marked <==> Reachable(m.w, m.kept, o)
  {
    hide Inv, Core, WellFormed, FewRoots, Roomy, Unmarked, Work, Rank, HeapEnd, KeptOk, Reachable, IsObj, KeepsMark, Doomed, Smaller, Returned, HeapRescan;
    m.phase := MsInvalid;
    m.top := -1;
    m.ClearMarks();
    ghost var k0 := m.kept;
    done, ok, trace := false, true, [Here(m)];
    var i := 0;
    while i < rounds && !done
      invariant ok && m.Ready() && m.kept == k0 && (done <==> m.phase == MsNone)
      invariant (m.buf == old(m.buf) || fresh(m.buf)) && old(m.buf.Length) <= m.buf.Length
      invariant i <= rounds && |trace| == i + 1 && trace[i] == Here(m)
      invariant trace[0].phase == MsInvalid && trace[0].marked == k0 && trace[0].stack == []
      invariant forall j: nat :: j < i ==> IsRound(m.w, trace[j], parallel(j, trace[j].marked, trace[j].stack), trace[j + 1])
    {
      FewRootsFit(m.w, old(m.buf.Length), m.buf.Length);
      var after := parallel(i, m.marked, m.buf[..m.top + 1]);
      if m.phase == MsRootsPushed && after.Some? {
        done := RoundInParallel(m, after.value);
      } else {
        done, ok := m.MarkSome();
        if !ok { return; }
      }
      trace := trace + [Here(m)];
      i := i + 1;
    }
    if done { MarkedIsReachable(m.w, m.kept, m.scan, m.marked, m.Stack()); }
  }

  /** One of its parallel rounds. */
  method RoundInParallel(m: Marker, after: Shared) returns (done: bool)
    requires m.Ready() && m.phase == MsRootsPushed && Returned(m.w, m.marked, m.Stack(), after)
    modifies m
    ensures m.Ready() && (done <==> m.phase == MsNone) && m.kept == old(m.kept)
    ensures (m.buf == old(m.buf) || fresh(m.buf)) && old(m.buf.Length) <= m.buf.Length
    ensures (done <==> after.phase == MsRootsPushed) && (!done ==> m.phase == MsInvalid) && m.marked == after.marked && m.Stack() == []
  {
    hide Inv, WellFormed, Reachable, Idle, Filled, CanRun;
    ghost var g, run :| ReturnedFrom(m.w, m.marked, m.Stack(), g, run, after);
    done := SomeInParallel(m, g, run, after);
  }
}
