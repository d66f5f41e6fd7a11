/** The parallel marker never loses a word, however its threads move entries around and mark from them. */
module ParallelScan {
  import opened Basics
  import opened MarkWorld
  import opened MarkState
  import opened MarkSteps
  import opened MarkWork
  import opened ParallelState
  import opened ParallelSteps

  /** What thread th alone has to look at. */
  ghost predicate LocalOpen(w: World, th: Thread, a: int) { a in th.hand || Pending(w, th.local, a) }

  lemma LocalMove(w: World, g: Shared, g': Shared, t: nat, a: int)
    requires t < |g.threads| == |g'.threads| && g'.cells == g.cells && g'.top == g.top
    requires forall u :: 0 <= u < |g.threads| && u != t ==> g'.threads[u] == g.threads[u]
    requires LocalOpen(w, g.threads[t], a) ==> LocalOpen(w, g'.threads[t], a)
    ensures Open(w, g, a) ==> Open(w, g', a)
  {
    hide InEntry;
    if LocalOpen(w, g.threads[t], a) {
      if a !in g'.threads[t].hand {
        var e :| e in g'.threads[t].local && InEntry(w, e, a);
        assert InPlay(g', e);
      }
    } else if exists u :: 0 <= u < |g.threads| && a in g.threads[u].hand {
    } else if Open(w, g, a) {
      var e :| InPlay(g, e) && InEntry(w, e, a);
      assert InPlay(g', e);
    }
  }

  /** Entries change places, none disappears. */
  lemma EntryMove(w: World, g: Shared, g': Shared)
    requires |g.threads| == |g'.threads|
    requires forall u :: 0 <= u < |g.threads| ==> g'.threads[u].hand == g.threads[u].hand
    requires forall e :: InPlay(g, e) ==> InPlay(g', e)
    ensures forall a :: Open(w, g, a) ==> Open(w, g', a)
  {
    hide InEntry, InPlay;
  }

  /** The top entry is replaced by others with, together with the hand, the same words. */
  lemma Regroup(w: World, kept: set<nat>, scan: nat, g: Shared, g': Shared, t: nat)
    requires Sound(w, kept, scan, g) && g'.marked == g.marked && g'.phase == g.phase
    requires t < |g.threads| == |g'.threads| && g'.cells == g.cells && g'.top == g.top
    requires forall u :: 0 <= u < |g.threads| && u != t ==> g'.threads[u] == g.threads[u]
    requires forall a :: LocalOpen(w, g.threads[t], a) <==> LocalOpen(w, g'.threads[t], a)
    ensures Sound(w, kept, scan, g')
  {
    hide Sound, Open, Harmless, LocalOpen;
    forall a ensures Open(w, g, a) <==> Open(w, g', a) {
      LocalMove(w, g, g', t, a);
      LocalMove(w, g', g, t, a);
    }
    HarmlessOpen(w, kept, scan, g);
    StaysSound(w, kept, scan, g, g');
  }

  lemma TopWords(w: World, below: seq<Entry>, e: Entry, rest: seq<Entry>, hand: iset<int>, a: int)
    requires InEntry(w, e, a) <==> a in hand || Pending(w, rest, a)
    ensures Pending(w, below + [e], a) <==> a in hand || Pending(w, below + rest, a)
  {
    hide InEntry;
    if Pending(w, below + [e], a) {
      var y :| y in below + [e] && InEntry(w, y, a);
      if y in below { assert y in below + rest; }
      else if Pending(w, rest, a) { var z :| z in rest && InEntry(w, z, a); assert z in below + rest; }
    }
    if Pending(w, below + rest, a) {
      var y :| y in below + rest && InEntry(w, y, a);
      if y in below { assert y in below + [e]; } else { assert Pending(w, rest, a); }
    }
    if InEntry(w, e, a) { assert e in below + [e]; }
  }

  lemma VisitStays(w: World, kept: set<nat>, scan: nat, g: Shared, t: nat)
    requires WellFormed(w) && t < |g.threads| && ThreadOk(w, kept, g, t) && Sound(w, kept, scan, g) && Enabled(w, g, t, Visit)
    ensures |Apply(w, g, t, Visit).threads| == |g.threads| && ThreadOk(w, kept, Apply(w, g, t, Visit), t)
    ensures Sound(w, kept, scan, Apply(w, g, t, Visit))
  {
    hide Sound, InEntry, Harmless, Visited, WellFormed, EntryOk, BlockOk;
    var th, g' := g.threads[t], Apply(w, g, t, Visit);
    var below, e := th.local[..|th.local| - 1], th.local[|th.local| - 1];
    assert th.local == below + [e];
    AlignIs4Or8(w);
    forall a ensures LocalOpen(w, th, a) <==> LocalOpen(w, g'.threads[t], a) {
      SplitIsExact(w, e, a);
      TopWords(w, below, e, Rest(e), Visited(w, e), a);
    }
    SplitIsExact(w, e, 0);
    Regroup(w, kept, scan, g, g', t);
  }

  lemma HalvesWords(w: World, e: Entry, a: int)
    requires w.align == 4 || w.align == 8
    requires e.descr.Length? && e.descr.n > SHARE_BYTES && EntryOk(w, e)
    ensures Pending(w, [Front(e), Back(e)], a) <==> InEntry(w, e, a)
  {
    hide InEntry, EntryOk, Front, Back;
    FrontAndBack(w, e, a);
    var rest := [Front(e), Back(e)];
    assert rest[0] in rest && rest[1] in rest;
  }

  lemma SplitStays(w: World, kept: set<nat>, scan: nat, g: Shared, t: nat)
    requires WellFormed(w) && t < |g.threads| && ThreadOk(w, kept, g, t) && Sound(w, kept, scan, g) && Enabled(w, g, t, Split)
    ensures |Apply(w, g, t, Split).threads| == |g.threads| && ThreadOk(w, kept, Apply(w, g, t, Split), t)
    ensures Sound(w, kept, scan, Apply(w, g, t, Split))
  {
    hide Sound, InEntry, Harmless, WellFormed, EntryOk, BlockOk, Front, Back;
    var th, g' := g.threads[t], Apply(w, g, t, Split);
    var below, e := th.local[..|th.local| - 1], th.local[|th.local| - 1];
    var rest := [Front(e), Back(e)];
    assert th.local == below + [e];
    AlignIs4Or8(w);
    forall a ensures LocalOpen(w, th, a) <==> LocalOpen(w, g'.threads[t], a) {
      HalvesWords(w, e, a);
      TopWords(w, below, e, rest, iset{}, a);
    }
    FrontAndBack(w, e, 0);
    Regroup(w, kept, scan, g, g', t);
  }

  /** What PUSH_CONTENTS does, whether or not the mark bit it read was stale. */
  lemma PushedIs(w: World, g: Shared, t: nat, a: int, stale: bool)
    requires WellFormed(w) && Enabled(w, g, t, Consider(a, stale))
    ensures var p, th, u := Pushed(w, g, t, a, stale), g.threads[t], Target(w, a);
      && g.marked + p.1 == (if u.Some? then g.marked + {u.value} else g.marked)
      && (p.0 == g.phase || p.0 == MsInvalid)
      && (p.0 != MsInvalid ==> th.local <= p.2)
      && (forall e :: e in p.2 ==> e in th.local || (u.Some? && e == ObjEntry(w, u.value)))
      && |p.2| <= LOCAL_MARK_STACK_SIZE
      && (p.0 != MsInvalid && u.Some? && u.value !in g.marked ==> DescrOf(w, u.value) == Length(0) || ObjEntry(w, u.value) in p.2)
  {
    hide InEntry, BlockOk;
  }

  lemma ConsiderThread(w: World, kept: set<nat>, g: Shared, t: nat, a: int, stale: bool)
    requires WellFormed(w) && t < |g.threads| && ThreadOk(w, kept, g, t) && Enabled(w, g, t, Consider(a, stale))
    ensures |Apply(w, g, t, Consider(a, stale)).threads| == |g.threads|
    ensures ThreadOk(w, kept, Apply(w, g, t, Consider(a, stale)), t)
  {
    hide InEntry, Pushed, Harmless, BlockOk;
    PushedIs(w, g, t, a, stale);
    if Target(w, a).Some? { assert BlockOk(w, w.home(Target(w, a).value)); ObjIsOk(w, Target(w, a).value); }
  }

  lemma ObjIsOk(w: World, o: nat)
    requires WellFormed(w) && IsObj(w, o)
    ensures EntryOk(w, ObjEntry(w, o))
  {
    assert BlockOk(w, w.home(o));
  }

  lemma ConsiderSound(w: World, kept: set<nat>, scan: nat, g: Shared, t: nat, a: int, stale: bool)
    requires WellFormed(w) && t < |g.threads| && Sound(w, kept, scan, g) && Enabled(w, g, t, Consider(a, stale))
    ensures Sound(w, kept, scan, Apply(w, g, t, Consider(a, stale)))
  {
    hide InEntry, Pushed, Harmless, Reachable, Open, Sound, WellFormed, LocalOpen;
    var g' := Apply(w, g, t, Consider(a, stale));
    var th, th', u := g.threads[t], g'.threads[t], Target(w, a);
    PushedIs(w, g, t, a, stale);
    HarmlessOpen(w, kept, scan, g);
    HandIsOpen(w, g, t, a);
    if u.Some? { NewMarkHarmless(w, kept, a); }
    forall b | Open(w, g', b)
      ensures Harmless(w, kept, b)
    {
      ConsiderBack(w, g, g', t, a, b);
    }
    if g'.phase != MsInvalid {
      forall b | b != a ensures Open(w, g, b) ==> Open(w, g', b) { ConsiderKeeps(w, g, g', t, a, b); }
      forall o, b | o in g'.marked && o !in g.marked && Field(w, o, b)
        ensures Open(w, g', b)
      {
        NewFields(w, g', t, o, b);
      }
    }
    StaysSound(w, kept, scan, g, g');
  }

  lemma HandIsOpen(w: World, g: Shared, t: nat, a: int)
    requires t < |g.threads| && a in g.threads[t].hand
    ensures Open(w, g, a)
  {
  }

  lemma NewMarkHarmless(w: World, kept: set<nat>, a: int)
    requires WellFormed(w) && Harmless(w, kept, a) && Target(w, a).Some?
    ensures var o := Target(w, a).value;
      IsObj(w, o) && Reachable(w, kept, o) && forall b :: InEntry(w, ObjEntry(w, o), b) ==> Harmless(w, kept, b)
  {
    hide Reachable;
    ObjFieldsHarmless(w, kept, Target(w, a).value);
  }

  lemma NewFields(w: World, g: Shared, t: nat, o: nat, b: int)
    requires t < |g.threads| && Field(w, o, b)
    requires DescrOf(w, o) == Length(0) || ObjEntry(w, o) in g.threads[t].local
    ensures Open(w, g, b)
  {
    if ObjEntry(w, o) in g.threads[t].local { OpenEntry(w, g, t, ObjEntry(w, o)); }
  }

  lemma ConsiderKeeps(w: World, g: Shared, g': Shared, t: nat, a: int, b: int)
    requires t < |g.threads| == |g'.threads| && g'.cells == g.cells && g'.top == g.top && b != a
    requires forall u :: 0 <= u < |g.threads| && u != t ==> g'.threads[u] == g.threads[u]
    requires g'.threads[t].hand == g.threads[t].hand - iset{a} && g.threads[t].local <= g'.threads[t].local
    ensures Open(w, g, b) ==> Open(w, g', b)
  {
    hide InEntry, Open;
    if Pending(w, g.threads[t].local, b) {
      var e :| e in g.threads[t].local && InEntry(w, e, b);
      assert e in g'.threads[t].local;
    }
    LocalMove(w, g, g', t, b);
  }

  lemma ConsiderBack(w: World, g: Shared, g': Shared, t: nat, a: int, b: int)
    requires t < |g.threads| == |g'.threads| && g'.cells == g.cells && g'.top == g.top && Open(w, g', b)
    requires forall u :: 0 <= u < |g.threads| && u != t ==> g'.threads[u] == g.threads[u]
    requires g'.threads[t].hand == g.threads[t].hand - iset{a}
    requires Target(w, a).Some? ==> IsObj(w, Target(w, a).value)
    requires forall e :: e in g'.threads[t].local ==>
               e in g.threads[t].local || (Target(w, a).Some? && e == ObjEntry(w, Target(w, a).value))
    ensures Open(w, g, b) || (Target(w, a).Some? && InEntry(w, ObjEntry(w, Target(w, a).value), b))
  {
    hide InEntry, Open;
    if !(Target(w, a).Some? && InEntry(w, ObjEntry(w, Target(w, a).value), b)) { LocalMove(w, g', g, t, b); }
  }
}
