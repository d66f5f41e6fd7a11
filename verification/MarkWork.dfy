/** How the mark stack is cut into scans, and what makes marking finish. */
module MarkWork {
  import opened Basics
  import opened MarkWorld
  import opened MarkState

  /** SPLIT_RANGE_WORDS - 1 words: how far one visit advances in a long range. */
  const SPLIT_BYTES: nat := 127 * WORD

  /** The aligned addresses from lo to hi, both included. */
  ghost function RangeWords(w: World, lo: int, hi: int): iset<int> { iset a: int | Aligned(w, a) && lo <= a <= hi }

  predicate IsLong(e: Entry) { e.descr.Length? && SPLIT_BYTES + WORD <= e.descr.n }

  /** What one visit of an entry scans. */
  ghost function Visited(w: World, e: Entry): iset<int> {
    if IsLong(e) then RangeWords(w, e.start, e.start + SPLIT_BYTES - w.align) else EntryWords(w, e)
  }

  /** The words of bitmap entry e whose bit is at position i or later. */
  ghost function BitsFrom(w: World, e: Entry, i: nat): iset<int> {
    iset a: int | InEntry(w, e, a) && e.start + 8 * i <= a
  }

  /** What it leaves on the stack. */
  function Rest(e: Entry): seq<Entry> {
    if IsLong(e) then [Entry(e.start + SPLIT_BYTES, Length(e.descr.n - SPLIT_BYTES))] else []
  }

  /** A visit and what it leaves behind share no word and together have every word of the entry,
      pointers that straddle the cut included. */
  lemma SplitIsExact(w: World, e: Entry, a: int)
    requires (w.align == 4 || w.align == 8) && EntryOk(w, e)
    ensures InEntry(w, e, a) <==> a in Visited(w, e) || Pending(w, Rest(e), a)
    ensures !(a in Visited(w, e) && Pending(w, Rest(e), a))
    ensures forall r :: r in Rest(e) ==> EntryOk(w, r)
  {
    hide InEntry, EntryOk, Aligned;
    if IsLong(e) {
      var r := Rest(e)[0];
      assert Rest(e) == [r];
      assert Pending(w, Rest(e), a) <==> InEntry(w, r, a);
      RestIsExact(w, e, a);
    }
  }

  lemma RestIsExact(w: World, e: Entry, a: int)
    requires (w.align == 4 || w.align == 8) && EntryOk(w, e) && IsLong(e)
    ensures EntryOk(w, Rest(e)[0])
    ensures InEntry(w, e, a) <==> (a in Visited(w, e) || InEntry(w, Rest(e)[0], a))
    ensures !(a in Visited(w, e) && InEntry(w, Rest(e)[0], a))
  {
    var r := Rest(e)[0];
    assert Aligned(w, r.start) && Aligned(w, r.descr.n);
    if Aligned(w, a) { AlignedGap(w, a, r.start); }
    hide Aligned;
  }

  /** The forms that an entry takes on the stack from visit to visit. */
  function Cuts(e: Entry): seq<Entry>
    decreases Size(e)
  {
    if IsLong(e) then [e] + Cuts(Rest(e)[0]) else [e]
  }

  /** How many of these visits scan the word at a. */
  ghost function Visits(w: World, cuts: seq<Entry>, a: int): nat {
    if cuts == [] then 0 else (if a in Visited(w, cuts[0]) then 1 else 0) + Visits(w, cuts[1..], a)
  }

  /** Over all its visits every word of an entry is scanned exactly once and no other word is. */
  lemma {:induction false} EachWordOnce(w: World, e: Entry, a: int)
    requires (w.align == 4 || w.align == 8) && EntryOk(w, e)
    ensures Visits(w, Cuts(e), a) == if InEntry(w, e, a) then 1 else 0
    decreases Size(e)
  {
    SplitIsExact(w, e, a);
    if IsLong(e) {
      var r := Rest(e)[0];
      assert Pending(w, Rest(e), a) <==> InEntry(w, r, a);
      EachWordOnce(w, r, a);
      assert Cuts(e)[1..] == Cuts(r);
    } else {
      assert Cuts(e)[1..] == [] && !Pending(w, Rest(e), a);
    }
  }

  /** Bytes (or bitmap words) that an entry still stands for. */
  function Size(e: Entry): nat { 1 + (match e.descr case Length(n) => n case Bitmap(bits) => |bits|) }

  function Work(stack: seq<Entry>): nat {
    if stack == [] then 0 else Work(stack[..|stack| - 1]) + Size(stack[|stack| - 1])
  }

  lemma WorkOfTop(below: seq<Entry>, e: Entry)
    ensures Work(below + [e]) == Work(below) + Size(e)
  {
    assert (below + [e])[..|below|] == below;
  }

  lemma RestIsSmaller(below: seq<Entry>, e: Entry)
    ensures Work(below + Rest(e)) < Work(below + [e])
  {
    WorkOfTop(below, e);
    if IsLong(e) { WorkOfTop(below, Rest(e)[0]); } else { assert below + Rest(e) == below; }
  }

  /** The number of objects that are not marked yet. */
  function Unmarked(w: World, marked: set<nat>): nat { |Objects(w) - marked| }

  lemma MarkingShrinks(w: World, marked: set<nat>, o: nat)
    requires IsObj(w, o) && o !in marked
    ensures Unmarked(w, marked + {o}) < Unmarked(w, marked)
  {
    assert Objects(w) - (marked + {o}) == (Objects(w) - marked) - {o};
  }

  /** The marker got somewhere: it marked an object, perhaps overflowing, or kept the phase and has less
      to scan. */
  predicate Advanced(w: World, phase: Phase, marked: set<nat>, stack: seq<Entry>,
                     phase': Phase, marked': set<nat>, stack': seq<Entry>)
  {
    || (Unmarked(w, marked') < Unmarked(w, marked) && marked <= marked' && (phase' == phase || phase' == MsInvalid))
    || (marked' == marked && phase' == phase && Work(stack') < Work(stack))
  }

  /** The same, or nothing at all happened to the phase, the marks and the stack. */
  predicate NotBehind(w: World, phase: Phase, marked: set<nat>, stack: seq<Entry>,
                      phase': Phase, marked': set<nat>, stack': seq<Entry>)
  {
    || (Unmarked(w, marked') < Unmarked(w, marked) && marked <= marked' && (phase' == phase || phase' == MsInvalid))
    || (marked' == marked && phase' == phase && stack' == stack)
  }

  /** Exactly the given words were considered since `before`, each of them once. */
  ghost predicate CountedOnce(before: multiset<int>, after: multiset<int>, words: iset<int>) {
    forall a :: after[a] == before[a] + (if a in words then 1 else 0)
  }

  /** The changing part of the marker's state; `seen` counts the words considered. */
  datatype Snap = Snap(phase: Phase, marked: set<nat>, stack: seq<Entry>, seen: multiset<int>)

  /** A scan of the words `all`, begun at `before`, has all but those in `hand` behind it. */
  ghost predicate Scanning(w: World, kept: set<nat>, scan: nat, before: Snap, all: iset<int>, now: Snap, hand: iset<int>) {
    && now.phase != MsNone
    && Inv(w, kept, now.phase, scan, now.marked, now.stack, hand)
    && hand <= all
    && CountedOnce(before.seen, now.seen, all - hand)
    && NotBehind(w, before.phase, before.marked, before.stack, now.phase, now.marked, now.stack)
  }

  lemma EffectNotBehind(w: World, cap: nat, t: Option<nat>,
                        phase: Phase, marked: set<nat>, stack: seq<Entry>,
                        phase': Phase, marked': set<nat>, stack': seq<Entry>)
    requires PushEffect(w, cap, t, phase, marked, stack, phase', marked', stack')
    ensures NotBehind(w, phase, marked, stack, phase', marked', stack')
  {
    if t.Some? && t.value !in marked { MarkingShrinks(w, marked, t.value); }
  }

  lemma AdvancedTwice(w: World, a: Snap, b: Snap, c: Snap)
    requires Advanced(w, a.phase, a.marked, a.stack, b.phase, b.marked, b.stack)
    requires Advanced(w, b.phase, b.marked, b.stack, c.phase, c.marked, c.stack)
    ensures Advanced(w, a.phase, a.marked, a.stack, c.phase, c.marked, c.stack)
  {
  }

  /** The steps that add entries but no marks keep the phase; those that lose the phase to an
      overflow have marked something. */
  predicate NotWorse(w: World, phase: Phase, marked: set<nat>, phase': Phase, marked': set<nat>) {
    || Unmarked(w, marked') < Unmarked(w, marked)
    || (Unmarked(w, marked') == Unmarked(w, marked) && phase' == phase)
  }

  /** How many of the first n objects are marked. */
  function MarkedUpTo(objs: seq<nat>, n: nat, marked: set<nat>): nat
    requires n <= |objs|
  {
    if n == 0 then 0 else MarkedUpTo(objs, n - 1, marked) + if objs[n - 1] in marked then 1 else 0
  }

  lemma {:induction false} MarkedIsAtMost(objs: seq<nat>, n: nat, m: nat, marked: set<nat>)
    requires n <= m <= |objs|
    ensures MarkedUpTo(objs, n, marked) <= MarkedUpTo(objs, m, marked) <= m
    ensures (forall o :: o in objs ==> o !in marked) ==> MarkedUpTo(objs, m, marked) == 0
    decreases m
  {
    if m > 0 { MarkedIsAtMost(objs, if n < m then n else n - 1, m - 1, marked); }
  }

  lemma {:induction false} MarkedGrows(objs: seq<nat>, n: nat, marked: set<nat>, marked': set<nat>)
    requires n <= |objs| && marked <= marked'
    ensures MarkedUpTo(objs, n, marked) <= MarkedUpTo(objs, n, marked')
  {
    if n > 0 { MarkedGrows(objs, n - 1, marked, marked'); }
  }

  /** The entries that GC_push_marked pushes for block k. */
  function PushedBy(w: World, k: nat, marked: set<nat>): nat
    requires k < |w.blocks|
  {
    if w.blocks[k].descr == Length(0) then 0 else MarkedUpTo(w.blocks[k].objs, |w.blocks[k].objs|, marked)
  }

  /** A mark stack of cap entries has room for all that one block can push. */
  predicate Roomy(w: World, cap: nat) {
    forall k :: 0 <= k < |w.blocks| && w.blocks[k].descr != Length(0) ==> |w.blocks[k].objs| <= cap
  }

  /** How many phases are still ahead if nothing more gets marked. */
  function Rank(phase: Phase, objectsAreMarked: bool, scan: nat): nat {
    match phase
    case MsInvalid => if !objectsAreMarked then 5 else if scan != 0 then 3 else 2
    case MsPushUncollectable => 4
    case MsPartiallyInvalid => 1
    case MsRootsPushed => 0
    case MsNone => 0
  }

  /** Objects left to mark, phases ahead, heap left to scan, stack left to scan. */
  datatype Measure = Measure(unmarked: nat, rank: nat, heap: int, work: nat)

  function Left(w: World, phase: Phase, objectsAreMarked: bool, scan: nat, marked: set<nat>, stack: seq<Entry>): Measure {
    Measure(Unmarked(w, marked), Rank(phase, objectsAreMarked, scan), HeapEnd(w) - scan, Work(stack))
  }

  predicate Smaller(a: Measure, b: Measure) {
    || a.unmarked < b.unmarked
    || (a.unmarked == b.unmarked && a.rank < b.rank)
    || (a.unmarked == b.unmarked && a.rank == b.rank && a.heap < b.heap)
    || (a.unmarked == b.unmarked && a.rank == b.rank && a.heap == b.heap && a.work < b.work)
  }
}
