/** The stopped world that a full collection marks: the blocks of the heap, what every word of
    memory refers to, and the root ranges.  Nothing here changes while marking runs. */
module MarkWorld {
  import opened Basics

  /** Mark descriptors: a byte length, or one bit for each word.  `Length(0)` is pointer-free. */
  datatype Descr = Length(n: nat) | Bitmap(bits: seq<bool>)

  datatype Kind = PtrFree | Normal | Uncollectable | AtomicUncollectable | ClientKind

  /** A header together with its block: address, extent in bytes and the objects' bases. */
  datatype Block = Block(start: nat, bytes: nat, free: bool, kind: Kind, descr: Descr, objs: seq<nat>)

  /** A mark stack entry: memory still to be examined for pointers. */
  datatype Entry = Entry(start: int, descr: Descr)

  datatype World = World(
    align: nat,                     // ALIGNMENT: 4 or 8 bytes
    blocks: seq<Block>,             // in address order
    home: nat -> nat,               // index of the block that holds an object
    word: int -> nat,               // contents of memory
    base: nat -> Option<nat>,       // the object a heap word points to, if any
    stackBase: nat -> Option<nat>,  // the same for a word found on a thread stack
    allInterior: bool,              // GC_all_interior_pointers
    least: nat, greatest: nat,      // plausible heap bounds
    staticRoots: seq<(int, int)>,   // root ranges, exclusions already taken out
    stackRoots: seq<(int, int)>,    // thread stacks and saved registers
    freeListBases: set<nat>,        // free-list header arrays that live in the heap
    initialStack: nat)              // INITIAL_MARK_STACK_SIZE, in entries

  predicate IsUncollectable(k: Kind) { k == Uncollectable || k == AtomicUncollectable }

  predicate Aligned(w: World, a: int) {
    if w.align == 4 then a % 4 == 0 else a % 8 == 0
  }

  /** a is the address of a word that a scan of entry e must look at. */
  predicate InEntry(w: World, e: Entry, a: int) {
    match e.descr
    case Length(n) => Aligned(w, a) && e.start <= a && a + WORD <= e.start + n
    case Bitmap(bits) =>
      e.start <= a && (a - e.start) % 8 == 0 && (a - e.start) / 8 < |bits| && bits[(a - e.start) / 8]
  }

  predicate EntryOk(w: World, e: Entry) {
    Aligned(w, e.start) && (e.descr.Length? ==> Aligned(w, e.descr.n))
  }

  predicate IsObj(w: World, o: nat) {
    w.home(o) < |w.blocks| && !w.blocks[w.home(o)].free && o in w.blocks[w.home(o)].objs
  }

  function DescrOf(w: World, o: nat): Descr
    requires IsObj(w, o)
  {
    w.blocks[w.home(o)].descr
  }

  function ObjEntry(w: World, o: nat): Entry
    requires IsObj(w, o)
  {
    Entry(o, DescrOf(w, o))
  }

  /** The object that the word at address a refers to. */
  function Target(w: World, a: int): Option<nat> { w.base(w.word(a)) }
  function StackTarget(w: World, a: int): Option<nat> { w.stackBase(w.word(a)) }

  ghost predicate BlockOk(w: World, k: nat)
    requires k < |w.blocks|
  {
    var b := w.blocks[k];
    && 0 < b.bytes
    && 0 < b.start
    && (k + 1 < |w.blocks| ==> b.start + b.bytes <= w.blocks[k + 1].start)
    && (b.descr.Length? ==> Aligned(w, b.descr.n))
    && (b.kind == AtomicUncollectable ==> b.descr == Length(0))
    && (forall o :: o in b.objs ==> w.home(o) == k && Aligned(w, o))
  }

  ghost predicate WellFormed(w: World) {
    && (w.align == 4 || w.align == 8)
    && 8 <= w.initialStack
    && (forall k :: 0 <= k < |w.blocks| ==> BlockOk(w, k))
    && (forall x: nat :: w.base(x).Some? ==> IsObj(w, w.base(x).value) && w.least <= x < w.greatest)
    && (forall x: nat :: w.stackBase(x).Some? ==> IsObj(w, w.stackBase(x).value) && w.least <= x < w.greatest)
    && (w.allInterior ==> forall x: nat :: w.stackBase(x) == w.base(x))
    && (forall o :: o in w.freeListBases ==> IsObj(w, o) && DescrOf(w, o) == Length(0))
  }

  /** A word that a scan of object o looks at. */
  predicate Field(w: World, o: nat, a: int) { IsObj(w, o) && InEntry(w, ObjEntry(w, o), a) }

  predicate InRange(w: World, r: (int, int), a: int) { Aligned(w, a) && r.0 <= a && a + WORD <= r.1 }
  ghost predicate StaticRootWord(w: World, a: int) { exists r :: r in w.staticRoots && InRange(w, r, a) }
  ghost predicate StackRootWord(w: World, a: int) { exists r :: r in w.stackRoots && InRange(w, r, a) }

  /** o points to t. */
  ghost predicate Edge(w: World, o: nat, t: nat) {
    exists a :: Field(w, o, a) && Target(w, a) == Some(t)
  }

  /** o is marked or scanned from outside the heap: it is named by a root word, is a free-list
      array, or is in `kept`, the uncollectable objects whose marks survive GC_clear_marks. */
  ghost predicate Start(w: World, kept: set<nat>, o: nat) {
    || o in kept
    || o in w.freeListBases
    || (exists a :: StaticRootWord(w, a) && Target(w, a) == Some(o))
    || (exists a :: StackRootWord(w, a) && StackTarget(w, a) == Some(o))
  }

  /** p is a pointer path that begins at a start object. */
  ghost predicate Chain(w: World, kept: set<nat>, p: seq<nat>) {
    && |p| > 0
    && Start(w, kept, p[0])
    && (forall i :: 1 <= i < |p| ==> Edge(w, p[i - 1], p[i]))
  }

  ghost predicate Reachable(w: World, kept: set<nat>, o: nat) {
    exists p :: Chain(w, kept, p) && p[|p| - 1] == o
  }

  lemma StartIsReachable(w: World, kept: set<nat>, o: nat)
    requires Start(w, kept, o)
    ensures Reachable(w, kept, o)
  {
    assert Chain(w, kept, [o]) && [o][|[o]| - 1] == o;
  }

  lemma EdgeExtendsReach(w: World, kept: set<nat>, o: nat, t: nat)
    requires Reachable(w, kept, o) && Edge(w, o, t)
    ensures Reachable(w, kept, t)
  {
    var p :| Chain(w, kept, p) && p[|p| - 1] == o;
    var q := p + [t];
    forall i | 1 <= i < |q|
      ensures Edge(w, q[i - 1], q[i])
    {
      if i < |p| { assert q[i - 1] == p[i - 1] && q[i] == p[i]; }
    }
    assert Chain(w, kept, q) && q[|q| - 1] == t;
  }

  /** A set that has every start object and is closed under pointers has everything reachable. */
  lemma ClosedHasReach(w: World, kept: set<nat>, m: set<nat>, p: seq<nat>)
    requires forall o :: Start(w, kept, o) ==> o in m
    requires forall o, t :: o in m && Edge(w, o, t) ==> t in m
    requires Chain(w, kept, p)
    ensures p[|p| - 1] in m
  {
    if |p| > 1 {
      var q := p[..|p| - 1];
      assert forall i :: 1 <= i < |q| ==> Edge(w, q[i - 1], q[i]);
      ClosedHasReach(w, kept, m, q);
      assert Edge(w, p[|p| - 2], p[|p| - 1]);
    }
  }

  /** All objects of the heap. */
  function Objects(w: World): set<nat> {
    set k, o | 0 <= k < |w.blocks| && o in w.blocks[k].objs :: o
  }

  /** The least allocated block at index k or later that starts at h or above, |w.blocks| if there
      is none: what HDR(h) or else GC_next_block(h, FALSE) finds. */
  function NextAllocated(w: World, h: nat, k: nat): (r: nat)
    requires k <= |w.blocks|
    ensures k <= r <= |w.blocks|
    ensures r < |w.blocks| ==> !w.blocks[r].free && h <= w.blocks[r].start
    ensures forall j :: k <= j < r ==> w.blocks[j].free || w.blocks[j].start < h
    decreases |w.blocks| - k
  {
    if k == |w.blocks| then k
    else if !w.blocks[k].free && h <= w.blocks[k].start then k
    else NextAllocated(w, h, k + 1)
  }

  lemma BlocksAscend(w: World, j: nat, k: nat)
    requires WellFormed(w) && j < k < |w.blocks|
    ensures w.blocks[j].start + w.blocks[j].bytes <= w.blocks[k].start
    decreases k - j
  {
    assert BlockOk(w, j);
    if j + 1 < k { BlocksAscend(w, j + 1, k); assert BlockOk(w, j + 1); }
  }

  /** The address past the last block. */
  function HeapEnd(w: World): nat {
    if w.blocks == [] then 0 else w.blocks[|w.blocks| - 1].start + w.blocks[|w.blocks| - 1].bytes
  }

  lemma AlignIs4Or8(w: World)
    requires WellFormed(w)
    ensures w.align == 4 || w.align == 8
  {
  }

  /** Sums and differences of aligned numbers are aligned. */
  lemma AlignedBoth(w: World, a: int, b: int)
    requires (w.align == 4 || w.align == 8) && Aligned(w, a) && Aligned(w, b)
    ensures Aligned(w, a + b) && Aligned(w, b - a)
  {
    if w.align == 4 { Both4(a, b); } else { Both8(a, b); }
  }

  lemma Both4(a: int, b: int)
    requires a % 4 == 0 && b % 4 == 0
    ensures (a + b) % 4 == 0 && (b - a) % 4 == 0
  {
    assert a + b == 4 * (a / 4 + b / 4);
    assert b - a == 4 * (b / 4 - a / 4);
  }

  lemma Both8(a: int, b: int)
    requires a % 8 == 0 && b % 8 == 0
    ensures (a + b) % 8 == 0 && (b - a) % 8 == 0
  {
    assert a + b == 8 * (a / 8 + b / 8);
    assert b - a == 8 * (b / 8 - a / 8);
  }

  /** Multiples of 8 are always aligned. */
  lemma EightsAligned(w: World, a: int)
    requires a % 8 == 0
    ensures Aligned(w, a)
  {
    assert a == 4 * (a / 8 * 2);
  }

  /** Two aligned addresses are at least ALIGNMENT bytes apart. */
  lemma AlignedGap(w: World, a: int, b: int)
    requires (w.align == 4 || w.align == 8) && Aligned(w, a) && Aligned(w, b)
    ensures a == b || a + w.align <= b || b + w.align <= a
    ensures Aligned(w, a + w.align) && Aligned(w, a - w.align)
  {
    AlignedBoth(w, a, b);
    AlignedBoth(w, w.align, a);
    AlignedBoth(w, a, w.align);
    if w.align == 4 { Apart4(b - a); } else { Apart8(b - a); }
  }

  lemma Apart4(d: int)
    requires d % 4 == 0
    ensures d <= -4 || d == 0 || 4 <= d
  {
  }

  lemma Apart8(d: int)
    requires d % 8 == 0
    ensures d <= -8 || d == 0 || 8 <= d
  {
  }
}
