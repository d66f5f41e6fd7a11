/** Each small step of the marker keeps the invariant of MarkState. */
module MarkSteps {
  import opened Basics
  import opened MarkWorld
  import opened MarkState

  lemma ObjFieldsHarmless(w: World, kept: set<nat>, o: nat)
    requires WellFormed(w) && IsObj(w, o) && Reachable(w, kept, o)
    ensures forall a :: InEntry(w, ObjEntry(w, o), a) ==> Harmless(w, kept, a)
  {
    forall a | InEntry(w, ObjEntry(w, o), a) && Target(w, a).Some?
      ensures Reachable(w, kept, Target(w, a).value)
    {
      assert Field(w, o, a);
      EdgeExtendsReach(w, kept, o, Target(w, a).value);
    }
  }

  lemma StackStaysHarmless(w: World, kept: set<nat>, stack: seq<Entry>, n: nat, o: nat)
    requires WellFormed(w) && IsObj(w, o) && Reachable(w, kept, o)
    requires StackHarmless(w, kept, stack) && n <= |stack|
    ensures StackHarmless(w, kept, stack[..n] + [ObjEntry(w, o)])
  {
    ObjFieldsHarmless(w, kept, o);
    assert BlockOk(w, w.home(o));
  }

  /** Nothing that was settled is lost by a push that does not overflow; `gone` is the word just
      considered, which referred to t. */
  lemma SettledStays(w: World, cap: nat, t: Option<nat>, gone: iset<int>,
                     phase: Phase, marked: set<nat>, stack: seq<Entry>, hand: iset<int>,
                     phase': Phase, marked': set<nat>, stack': seq<Entry>, a: int, u: Option<nat>)
    requires PushEffect(w, cap, t, phase, marked, stack, phase', marked', stack')
    requires stack <= stack'
    requires Settled(w, marked, stack, hand, a, u)
    requires a in gone ==> u == t
    ensures Settled(w, marked', stack', hand - gone, a, u)
  {
    if Pending(w, stack, a) {
      var e :| e in stack && InEntry(w, e, a);
      assert e in stack';
    }
  }

  /** Considering one word keeps the invariant, overflow or not. */
  lemma PushKeepsFields(w: World, kept: set<nat>, cap: nat, t: Option<nat>, gone: iset<int>, scan: nat,
                        phase: Phase, marked: set<nat>, stack: seq<Entry>, hand: iset<int>,
                        phase': Phase, marked': set<nat>, stack': seq<Entry>)
    requires WellFormed(w)
    requires MarksReachable(w, kept, marked) && MarksReachable(w, kept, marked')
    requires FieldsCovered(w, phase, scan, marked, stack, hand)
    requires PushEffect(w, cap, t, phase, marked, stack, phase', marked', stack')
    requires forall a :: a in gone ==> Target(w, a) == t
    ensures FieldsCovered(w, phase', scan, marked', stack', hand - gone)
  {
    forall o, a | o in marked' && Field(w, o, a) && !Excused(w, phase', scan, o)
      ensures Settled(w, marked', stack', hand - gone, a, Target(w, a))
    {
      assert stack <= stack';
      if o in marked {
        SettledStays(w, cap, t, gone, phase, marked, stack, hand, phase', marked', stack', a, Target(w, a));
      } else {
        assert ObjEntry(w, o) in stack';
      }
    }
  }

  lemma PushKeepsCore(w: World, kept: set<nat>, cap: nat, t: Option<nat>, gone: iset<int>, scan: nat,
                      phase: Phase, marked: set<nat>, stack: seq<Entry>, hand: iset<int>,
                      phase': Phase, marked': set<nat>, stack': seq<Entry>)
    requires WellFormed(w)
    requires Core(w, kept, phase, scan, marked, stack, hand)
    requires PushEffect(w, cap, t, phase, marked, stack, phase', marked', stack')
    requires forall a :: a in gone ==> Target(w, a) == t
    requires t.Some? ==> Reachable(w, kept, t.value)
    ensures Core(w, kept, phase', scan, marked', stack', hand - gone)
  {
    assert MarksReachable(w, kept, marked');
    PushKeepsFields(w, kept, cap, t, gone, scan, phase, marked, stack, hand, phase', marked', stack');
    if stack' != stack {
      var n := if |stack| < cap then |stack| else cap - Discards(w);
      assert stack[..|stack|] == stack;
      StackStaysHarmless(w, kept, stack, n, t.value);
    }
  }

  lemma PushKeepsRanges(w: World, cap: nat, t: Option<nat>, gone: iset<int>, statics: seq<(int, int)>, stacks: seq<(int, int)>,
                        phase: Phase, marked: set<nat>, stack: seq<Entry>, hand: iset<int>,
                        phase': Phase, marked': set<nat>, stack': seq<Entry>)
    requires StaticCovered(w, statics, marked, stack, hand) && StackCovered(w, stacks, marked, stack, hand)
    requires PushEffect(w, cap, t, phase, marked, stack, phase', marked', stack')
    requires stack <= stack'
    requires forall a :: a in gone ==> Target(w, a) == t
    ensures StaticCovered(w, statics, marked', stack', hand - gone)
    ensures StackCovered(w, stacks, marked', stack', hand - gone)
  {
    forall a | Settled(w, marked, stack, hand, a, Target(w, a))
      ensures Settled(w, marked', stack', hand - gone, a, Target(w, a))
    {
      SettledStays(w, cap, t, gone, phase, marked, stack, hand, phase', marked', stack', a, Target(w, a));
    }
  }

  /** One PUSH_CONTENTS keeps the whole invariant. */
  lemma PushKeepsInv(w: World, kept: set<nat>, cap: nat, t: Option<nat>, gone: iset<int>, scan: nat,
                     phase: Phase, marked: set<nat>, stack: seq<Entry>, hand: iset<int>,
                     phase': Phase, marked': set<nat>, stack': seq<Entry>)
    requires WellFormed(w) && phase != MsNone
    requires Inv(w, kept, phase, scan, marked, stack, hand)
    requires PushEffect(w, cap, t, phase, marked, stack, phase', marked', stack')
    requires forall a :: a in gone ==> Target(w, a) == t
    requires t.Some? ==> Reachable(w, kept, t.value)
    ensures Inv(w, kept, phase', scan, marked', stack', hand - gone)
  {
    PushKeepsCore(w, kept, cap, t, gone, scan, phase, marked, stack, hand, phase', marked', stack');
    if phase' == MsRootsPushed {
      PushKeepsRanges(w, cap, t, gone, w.staticRoots, w.stackRoots, phase, marked, stack, hand, phase', marked', stack');
    }
  }

  /** Replacing the top of the stack by other entries and a handful of words loses nothing, as
      long as every word of the old top is in one of the two. */
  lemma TakeFromTop(w: World, kept: set<nat>, phase: Phase, scan: nat, marked: set<nat>,
                    below: seq<Entry>, e: Entry, rest: seq<Entry>, hand: iset<int>)
    requires phase != MsNone
    requires Inv(w, kept, phase, scan, marked, below + [e], iset{})
    requires forall a :: InEntry(w, e, a) ==> a in hand || Pending(w, rest, a)
    requires forall a :: a in hand || Pending(w, rest, a) ==> InEntry(w, e, a)
    requires forall r :: r in rest ==> EntryOk(w, r)
    ensures Inv(w, kept, phase, scan, marked, below + rest, hand)
  {
    forall a, u: Option<nat> | Settled(w, marked, below + [e], iset{}, a, u)
      ensures Settled(w, marked, below + rest, hand, a, u)
    {
      if u.Some? && u.value !in marked {
        var x :| x in below + [e] && InEntry(w, x, a);
        if x in below { assert x in below + rest; }
        else if Pending(w, rest, a) {
          var y :| y in rest && InEntry(w, y, a);
          assert y in below + rest;
        }
      }
    }
    assert e in below + [e];
    forall x, a | x in below + rest && InEntry(w, x, a)
      ensures Harmless(w, kept, a)
    {
      if x in below { assert x in below + [e]; } else { assert x in rest && Pending(w, rest, a); }
    }
    forall x | x in below + rest
      ensures EntryOk(w, x)
    {
      if x in below { assert x in below + [e]; }
    }
  }
}
