/** No thread of the parallel marker is ever stuck on a guard of the model, and a run in which the count
    of active threads returns from 0 to 1. */
module ParallelRuns {
  import opened Basics
  import opened MarkWorld
  import opened MarkState
  import opened MarkWork
  import opened ParallelState
  import opened ParallelMoves

  /** A thread inside GC_mark_local can always go on unless it waits for the mark lock: what
      Enabled asks for beside the place in the program always holds. */
  lemma NeverStuck(w: World, kept: set<nat>, scan: nat, g: Shared, t: nat)
    requires WellFormed(w) && Good(w, kept, scan, g) && t < |g.threads| && Discards(w) <= LOCAL_MARK_STACK_SIZE
    requires Inside(g.threads[t].pc)
    ensures (exists x :: Enabled(w, g, t, x)) ||
            (g.lock.Some? && (g.threads[t].pc.Recheck? || g.threads[t].pc.Asleep? || g.threads[t].pc.Giving?))
  {
    hide Sound, CountsOk, BlockOk, InEntry, Harmless;
    assert ThreadOk(w, kept, g, t);
    var th := g.threads[t];
    match th.pc
    case Top => assert Enabled(w, g, t, LoadFirst);
    case Compare(_) => assert Enabled(w, g, t, Advance);
    case Probe => assert Enabled(w, g, t, LoadTop);
    case Look => assert Enabled(w, g, t, LookAgain);
    case Check => assert Enabled(w, g, t, CheckWait);
    case Decide => assert Enabled(w, g, t, Conclude);
    case Steal(_, _, _) => assert Enabled(w, g, t, LoadCell);
    case Claim(_, _, _, _) => assert Enabled(w, g, t, ClearCell);
    case Give(_) => assert Enabled(w, g, t, Copy);
    case Publish(_) => assert Enabled(w, g, t, Release);
    case Mark =>
      if a :| a in th.hand { assert Enabled(w, g, t, Consider(a, false)); } else { EmptyHand(th.hand); }
      if th.hand != iset{} {
      } else if th.local == [] { assert Enabled(w, g, t, Emptied); }
      else { assert Enabled(w, g, t, Visit); }
    case Recheck => if g.lock.None? { assert Enabled(w, g, t, Lock); }
    case Asleep => if g.lock.None? { assert Enabled(w, g, t, Lock); }
    case Giving(_) => if g.lock.None? { assert Enabled(w, g, t, Lock); }
  }

  lemma EmptyHand(hand: iset<int>)
    requires forall a: int :: a !in hand
    ensures hand == iset{}
  {
    forall a: int ensures a in hand <==> a in iset{} {}
  }

  lemma First(w: World, g: Shared, t: nat, x: Action, rest: seq<(nat, Action)>)
    requires Enabled(w, g, t, x) && CanRun(w, Apply(w, g, t, x), rest)
    ensures CanRun(w, g, [(t, x)] + rest)
    ensures Run(w, g, [(t, x)] + rest) == Run(w, Apply(w, g, t, x), rest)
  {
    hide Enabled, Apply;
    assert ([(t, x)] + rest)[1..] == rest;
  }

  /** What a thread does when it finds the shared stack empty. */
  function Search(t: nat): seq<(nat, Action)> { [(t, LoadFirst), (t, Advance), (t, LoadTop), (t, Lock), (t, LookAgain)] }

  lemma SearchInVain(w: World, g: Shared, t: nat, rest: seq<(nat, Action)>)
    requires t < |g.threads| && g.threads[t] == Thread(Top, 0, [], iset{}) && g.first == g.top == 0 && g.lock.None?
    requires CanRun(w, Searched(g, t), rest)
    ensures CanRun(w, g, Search(t) + rest)
    ensures Run(w, g, Search(t) + rest) == Run(w, Searched(g, t), rest)
  {
    var th := Thread(Top, 0, [], iset{});
    var g1, g2, g3 := Set(g, t, th.(pc := Compare(0))), Set(g, t, th.(pc := Probe)), Set(g, t, th.(pc := Recheck));
    var g4 := Set(g, t, th.(pc := Look)).(lock := Some(t));
    var r4 := [(t, LookAgain)] + rest;
    var r3, r2 := [(t, Lock)] + r4, [(t, LoadTop)] + ([(t, Lock)] + r4);
    var r1 := [(t, Advance)] + r2;
    assert Apply(w, g4, t, LookAgain) == Searched(g, t);
    First(w, g4, t, LookAgain, rest);
    assert Apply(w, g3, t, Lock) == g4;
    First(w, g3, t, Lock, r4);
    assert Apply(w, g2, t, LoadTop) == g3;
    First(w, g2, t, LoadTop, r3);
    assert Apply(w, g1, t, Advance) == g2;
    First(w, g1, t, Advance, r2);
    assert Apply(w, g, t, LoadFirst) == g1;
    First(w, g, t, LoadFirst, r1);
    assert Search(t) + rest == [(t, LoadFirst)] + r1;
  }

  /** .. and where that leaves it: with the lock, no longer active. */
  function Searched(g: Shared, t: nat): Shared
    requires t < |g.threads|
  {
    Set(g, t, Thread(Check, 0, [], iset{})).(lock := Some(t), active := g.active - 1)
  }

  /** Helper 1 finds nothing while the thread that called for help is asleep, and leaves. */
  lemma HelperLeaves(w: World, g: Shared) returns (run: seq<(nat, Action)>)
    requires |g.threads| > 1 && g.threads[1] == Thread(Top, 0, [], iset{}) && g.first == g.top == 0 && g.lock.None? && g.active == 1
    ensures CanRun(w, g, run)
    ensures Run(w, g, run) == Set(g, 1, Thread(Out, 0, [], iset{})).(helpers := g.helpers - 1, active := 0, left := true)
  {
    var g1 := Searched(g, 1);
    var g2 := Set(g1, 1, Thread(Decide, 0, [], iset{}));
    var g3 := Set(g, 1, Thread(Out, 0, [], iset{})).(helpers := g.helpers - 1, active := 0, left := true);
    assert Enabled(w, g2, 1, Conclude) && Apply(w, g2, 1, Conclude) == g3;
    First(w, g2, 1, Conclude, []);
    run := [(1, Conclude)] + [];
    assert Apply(w, g1, 1, CheckWait) == g2;
    First(w, g1, 1, CheckWait, run);
    run := [(1, CheckWait)] + run;
    SearchInVain(w, g, 1, run);
    run := Search(1) + run;
  }

  /** One helper leaves while the thread that called for help is asleep; a late helper may still join,
      and the count of active threads goes from 0 to 1.  So a count of 0 is not final, although the
      absence of work is. */
  lemma LateHelper(w: World, g: Shared)
    requires Idle(g) && |g.threads| >= 3 && g.top == 0
    ensures exists run :: CanRun(w, Begun(g), run) && Run(w, Begun(g), run).active == 0 &&
                          Enabled(w, Run(w, Begun(g), run), 2, Join) && Apply(w, Run(w, Begun(g), run), 2, Join).active == 1
  {
    var g0 := Begun(g);
    var g1 := Set(g0, 1, Thread(Top, 0, [], iset{})).(helpers := 2, active := 2);
    var g2 := Searched(g1, 0);
    var g3 := Set(g2, 0, Thread(Asleep, 0, [], iset{})).(lock := None);
    var run := HelperLeaves(w, g3);
    assert Apply(w, g2, 0, CheckWait) == g3;
    First(w, g2, 0, CheckWait, run);
    run := [(0, CheckWait)] + run;
    SearchInVain(w, g1, 0, run);
    run := Search(0) + run;
    assert Enabled(w, g0, 1, Join) && Apply(w, g0, 1, Join) == g1;
    First(w, g0, 1, Join, run);
    run := [(1, Join)] + run;
    assert CanRun(w, Begun(g), run) && Run(w, Begun(g), run).active == 0;
  }

  /** While nobody is active only two actions raise the count of active threads: a helper that joins,
      and a waiting thread that finds GC_first_nonempty at or below the top and goes on. */
  predicate Raises(g: Shared, x: Action) { x.Join? || (x.Conclude? && g.first < g.top) }

  lemma WhatRaises(w: World, kept: set<nat>, scan: nat, g: Shared, t: nat, x: Action)
    requires Good(w, kept, scan, g) && g.active == 0 && Enabled(w, g, t, x)
    ensures Apply(w, g, t, x).active == if Raises(g, x) then 1 else 0
    ensures Apply(w, g, t, x).first == g.first && Apply(w, g, t, x).top == g.top
  {
    hide Sound, ThreadOk, StackOk, NoWork, CopyTo, Pushed;
    assert t !in ActiveSet(g.threads);
  }

  /** The count is 0 at every point of the run from g. */
  ghost predicate StaysZero(w: World, g: Shared, run: seq<(nat, Action)>)
    requires CanRun(w, g, run)
    decreases |run|
  {
    g.active == 0 && (run != [] ==> StaysZero(w, Apply(w, g, run[0].0, run[0].1), run[1..]))
  }

  predicate SomeRaises(g: Shared, run: seq<(nat, Action)>) { exists i :: 0 <= i < |run| && Raises(g, run[i].1) }

  /** Exactly when the comment on GC_active_count is right: having returned to 0 the count stays at 0 if
      and only if no helper joins any more and, should GC_first_nonempty not be past the top, no waiting
      thread goes on. */
  lemma {:induction false} CountStaysZero(w: World, kept: set<nat>, scan: nat, g: Shared, run: seq<(nat, Action)>)
    requires WellFormed(w) && Good(w, kept, scan, g) && g.active == 0 && CanRun(w, g, run)
    ensures StaysZero(w, g, run) <==> !SomeRaises(g, run)
    decreases |run|
  {
    hide Good, WellFormed, Enabled, Apply;
    if run != [] {
      var t, x := run[0].0, run[0].1;
      var g' := Apply(w, g, t, x);
      WhatRaises(w, kept, scan, g, t, x);
      if Raises(g, x) {
        assert !StaysZero(w, g', run[1..]);
      } else {
        StepKeepsGood(w, kept, scan, g, t, x);
        CountStaysZero(w, kept, scan, g', run[1..]);
        if SomeRaises(g, run) { var i :| 0 <= i < |run| && Raises(g, run[i].1); assert run[1..][i - 1] == run[i]; }
        if SomeRaises(g', run[1..]) {
          var i :| 0 <= i < |run[1..]| && Raises(g', run[1..][i].1);
          assert run[i + 1] == run[1..][i];
        }
      }
    }
  }

  /** When marking is over, with GC_first_nonempty past the top, that means: no helper joins. */
  lemma OnlyHelpersRaise(w: World, kept: set<nat>, scan: nat, g: Shared, run: seq<(nat, Action)>)
    requires WellFormed(w) && Good(w, kept, scan, g) && g.active == 0 && g.first >= g.top && CanRun(w, g, run)
    ensures StaysZero(w, g, run) <==> forall i :: 0 <= i < |run| ==> !run[i].1.Join?
  {
    hide Good, WellFormed, CanRun, StaysZero;
    CountStaysZero(w, kept, scan, g, run);
    if SomeRaises(g, run) { var i :| 0 <= i < |run| && Raises(g, run[i].1); assert run[i].1.Join?; }
    if i :| 0 <= i < |run| && run[i].1.Join? { assert Raises(g, run[i].1); }
  }

  lemma StepPhase(w: World, g: Shared, t: nat, x: Action)
    requires Enabled(w, g, t, x)
    ensures Apply(w, g, t, x).phase == if MeetsFull(w, g, t, x) then MsInvalid else g.phase
  {
  }

  /** A parallel mark falls back to MS_INVALID only if it must: some action met a full stack. */
  lemma {:induction false} RunPhase(w: World, g: Shared, run: seq<(nat, Action)>)
    requires CanRun(w, g, run) && g.phase != MsInvalid
    ensures Run(w, g, run).phase == if SomeMeetsFull(w, g, run) then MsInvalid else g.phase
    decreases |run|
  {
    hide Enabled, Apply, MeetsFull;
    if run != [] {
      StepPhase(w, g, run[0].0, run[0].1);
      var g1 := Apply(w, g, run[0].0, run[0].1);
      if g1.phase == MsInvalid { StaysInvalid(w, g1, run[1..]); } else { RunPhase(w, g1, run[1..]); }
    }
  }

  lemma {:induction false} StaysInvalid(w: World, g: Shared, run: seq<(nat, Action)>)
    requires CanRun(w, g, run) && g.phase == MsInvalid
    ensures Run(w, g, run).phase == MsInvalid
    decreases |run|
  {
    hide Enabled, Apply, MeetsFull;
    if run != [] {
      StepPhase(w, g, run[0].0, run[0].1);
      StaysInvalid(w, Apply(w, g, run[0].0, run[0].1), run[1..]);
    }
  }

  /** An entry without words. */
  const BLANK: Entry := Entry(0, Bitmap([]))

  /** The states in which the only thread that marks takes the one entry off the stack .. */
  ghost function Taking(g: Shared, pc: Pc, mine: nat, local: seq<Entry>, cells: seq<Option<Entry>>): Shared
    requires |g.threads| > 0
  {
    Set(Begun(g), 0, Thread(pc, mine, local, iset{})).(cells := cells)
  }

  /** .. and those in which it finds that there is nothing left and leaves. */
  ghost function Leaving(g: Shared, pc: Pc, lock: Option<nat>, active: int, helpers: int, wanted: bool): Shared
    requires |g.threads| > 0 && |g.cells| > 0
  {
    Set(Begun(g), 0, Thread(pc, 1, [], iset{})).(cells := g.cells[0 := None], first := 1, lock := lock, active := active,
      helpers := helpers, helpWanted := wanted, left := !wanted)
  }

  ghost predicate OneEntry(g: Shared) {
    Idle(g) && g.top == 1 && |g.cells| > 0 && g.cells[0] == Some(BLANK) && g.phase == MsRootsPushed
  }

  ghost predicate Step(w: World, a: Shared, x: Action, b: Shared) { Enabled(w, a, 0, x) && Apply(w, a, 0, x) == b }

  lemma Before(w: World, a: Shared, x: Action, b: Shared, run: seq<(nat, Action)>, end: Shared)
    requires Step(w, a, x, b) && CanRun(w, b, run) && Run(w, b, run) == end
    ensures CanRun(w, a, [(0, x)] + run) && Run(w, a, [(0, x)] + run) == end
  {
    First(w, a, 0, x, run);
  }

  lemma TakesIt(w: World, g: Shared, c: seq<Option<Entry>>)
    requires OneEntry(g) && c == g.cells
    ensures Step(w, Begun(g), LoadFirst, Taking(g, Compare(0), 0, [], c))
    ensures Step(w, Taking(g, Compare(0), 0, [], c), Advance, Taking(g, Probe, 0, [], c))
    ensures Step(w, Taking(g, Probe, 0, [], c), LoadTop, Taking(g, Steal(1, 0, 1), 0, [], c))
  {
  }

  lemma ClaimsIt(w: World, g: Shared, c: seq<Option<Entry>>, c': seq<Option<Entry>>)
    requires OneEntry(g) && c == g.cells && c' == c[0 := None]
    ensures Step(w, Taking(g, Steal(1, 0, 1), 0, [], c), LoadCell, Taking(g, Claim(1, 0, 1, BLANK), 0, [], c))
    ensures Step(w, Taking(g, Claim(1, 0, 1, BLANK), 0, [], c), ClearCell, Taking(g, Steal(1, 1, 1), 1, [BLANK], c'))
  {
    assert [] + [BLANK] == [BLANK];
  }

  lemma ScansIt(w: World, g: Shared, c': seq<Option<Entry>>)
    requires OneEntry(g) && c' == g.cells[0 := None]
    ensures Step(w, Taking(g, Steal(1, 1, 1), 1, [BLANK], c'), LoadCell, Taking(g, Mark, 1, [BLANK], c'))
    ensures Step(w, Taking(g, Mark, 1, [BLANK], c'), Visit, Taking(g, Mark, 1, [], c'))
  {
    assert Visited(w, BLANK) == iset{} && Rest(BLANK) == [] && [BLANK][..0] + [] == [];
  }

  lemma LooksAgain(w: World, g: Shared, c': seq<Option<Entry>>)
    requires OneEntry(g) && c' == g.cells[0 := None]
    ensures Step(w, Taking(g, Mark, 1, [], c'), Emptied, Taking(g, Top, 1, [], c'))
    ensures Step(w, Taking(g, Top, 1, [], c'), LoadFirst, Taking(g, Compare(0), 1, [], c'))
    ensures Step(w, Taking(g, Compare(0), 1, [], c'), Advance, Leaving(g, Probe, None, 1, 1, true))
  {
  }

  lemma FindsNothing(w: World, g: Shared)
    requires OneEntry(g)
    ensures Step(w, Leaving(g, Probe, None, 1, 1, true), LoadTop, Leaving(g, Recheck, None, 1, 1, true))
    ensures Step(w, Leaving(g, Recheck, None, 1, 1, true), Lock, Leaving(g, Look, Some(0), 1, 1, true))
    ensures Step(w, Leaving(g, Look, Some(0), 1, 1, true), LookAgain, Leaving(g, Check, Some(0), 0, 1, true))
  {
  }

  lemma GoesOut(w: World, g: Shared)
    requires OneEntry(g)
    ensures Step(w, Leaving(g, Check, Some(0), 0, 1, true), CheckWait, Leaving(g, Decide, Some(0), 0, 1, true))
    ensures Step(w, Leaving(g, Decide, Some(0), 0, 1, true), Conclude, Leaving(g, Finished, None, 0, 0, false))
    ensures Step(w, Leaving(g, Finished, None, 0, 0, false), End, Leaving(g, Ended, None, 0, 0, false))
  {
  }

  lemma NoActions(w: World, g: Shared)
    ensures CanRun(w, g, []) && Run(w, g, []) == g
  {
  }

  lemma LeavesAtLast(w: World, g: Shared) returns (r: seq<(nat, Action)>)
    requires OneEntry(g)
    ensures CanRun(w, Leaving(g, Probe, None, 1, 1, true), r)
    ensures Run(w, Leaving(g, Probe, None, 1, 1, true), r) == Leaving(g, Ended, None, 0, 0, false)
  {
    hide Enabled, Apply, CanRun, Run, Step, Leaving, Begun;
    var end := Leaving(g, Ended, None, 0, 0, false);
    FindsNothing(w, g);
    GoesOut(w, g);
    NoActions(w, end);
    r := [];
    Before(w, Leaving(g, Finished, None, 0, 0, false), End, end, r, end);
    r := [(0, End)] + r;
    Before(w, Leaving(g, Decide, Some(0), 0, 1, true), Conclude, Leaving(g, Finished, None, 0, 0, false), r, end);
    r := [(0, Conclude)] + r;
    Before(w, Leaving(g, Check, Some(0), 0, 1, true), CheckWait, Leaving(g, Decide, Some(0), 0, 1, true), r, end);
    r := [(0, CheckWait)] + r;
    Before(w, Leaving(g, Look, Some(0), 1, 1, true), LookAgain, Leaving(g, Check, Some(0), 0, 1, true), r, end);
    r := [(0, LookAgain)] + r;
    Before(w, Leaving(g, Recheck, None, 1, 1, true), Lock, Leaving(g, Look, Some(0), 1, 1, true), r, end);
    r := [(0, Lock)] + r;
    Before(w, Leaving(g, Probe, None, 1, 1, true), LoadTop, Leaving(g, Recheck, None, 1, 1, true), r, end);
    r := [(0, LoadTop)] + r;
  }

  lemma ScansAndLeaves(w: World, g: Shared, c': seq<Option<Entry>>) returns (r: seq<(nat, Action)>)
    requires OneEntry(g) && c' == g.cells[0 := None]
    ensures CanRun(w, Taking(g, Steal(1, 1, 1), 1, [BLANK], c'), r)
    ensures Run(w, Taking(g, Steal(1, 1, 1), 1, [BLANK], c'), r) == Leaving(g, Ended, None, 0, 0, false)
  {
    hide Enabled, Apply, CanRun, Run, Step, Leaving, Taking, Begun;
    var end := Leaving(g, Ended, None, 0, 0, false);
    ScansIt(w, g, c');
    LooksAgain(w, g, c');
    r := LeavesAtLast(w, g);
    Before(w, Taking(g, Compare(0), 1, [], c'), Advance, Leaving(g, Probe, None, 1, 1, true), r, end);
    r := [(0, Advance)] + r;
    Before(w, Taking(g, Top, 1, [], c'), LoadFirst, Taking(g, Compare(0), 1, [], c'), r, end);
    r := [(0, LoadFirst)] + r;
    Before(w, Taking(g, Mark, 1, [], c'), Emptied, Taking(g, Top, 1, [], c'), r, end);
    r := [(0, Emptied)] + r;
    Before(w, Taking(g, Mark, 1, [BLANK], c'), Visit, Taking(g, Mark, 1, [], c'), r, end);
    r := [(0, Visit)] + r;
    Before(w, Taking(g, Steal(1, 1, 1), 1, [BLANK], c'), LoadCell, Taking(g, Mark, 1, [BLANK], c'), r, end);
    r := [(0, LoadCell)] + r;
  }

  /** A parallel mark can end: with no helper at all, the thread that runs it takes the entry off the stack, scans
      it, finds nothing left and returns, with the phase as it was. */
  lemma MayEnd(w: World, g: Shared)
    requires OneEntry(g)
    ensures exists run :: CanRun(w, Begun(g), run) && Run(w, Begun(g), run) == Leaving(g, Ended, None, 0, 0, false)
  {
    hide Enabled, Apply, CanRun, Run, Step, Taking, Leaving, Begun;
    var c, end := g.cells, Leaving(g, Ended, None, 0, 0, false);
    var c' := c[0 := None];
    TakesIt(w, g, c);
    ClaimsIt(w, g, c, c');
    var r := ScansAndLeaves(w, g, c');
    Before(w, Taking(g, Claim(1, 0, 1, BLANK), 0, [], c), ClearCell, Taking(g, Steal(1, 1, 1), 1, [BLANK], c'), r, end);
    r := [(0, ClearCell)] + r;
    Before(w, Taking(g, Steal(1, 0, 1), 0, [], c), LoadCell, Taking(g, Claim(1, 0, 1, BLANK), 0, [], c), r, end);
    r := [(0, LoadCell)] + r;
    Before(w, Taking(g, Probe, 0, [], c), LoadTop, Taking(g, Steal(1, 0, 1), 0, [], c), r, end);
    r := [(0, LoadTop)] + r;
    Before(w, Taking(g, Compare(0), 0, [], c), Advance, Taking(g, Probe, 0, [], c), r, end);
    r := [(0, Advance)] + r;
    Before(w, Begun(g), LoadFirst, Taking(g, Compare(0), 0, [], c), r, end);
  }
}
