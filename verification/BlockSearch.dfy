/** What a search for a block may find: requests, black lists, and how the heap may change meanwhile. */
module BlockSearch {
  import opened Basics
  import opened HeapTiles
  import opened FreeLists
  import opened HeapInv
  import opened GrowSteps

  const MAX_BLACK_LIST_ALLOC: nat := 2 * HBLKSIZE

  /** What GC_allochblk is asked for. */
  datatype Request = Request(sz: nat, kind: Kind, ignoreOffPage: bool)

  function Need(q: Request): nat { HBLKSIZE * Blocks(q.sz) }

  /** Pointer-free small requests and uncollectable ones may be put on black-listed memory. */
  predicate Checked(q: Request) {
    q.kind != Uncollectable && q.kind != AtomicUncollectable && (q.kind != PtrFree || Need(q) > MAX_BLACK_LIST_ALLOC)
  }

  /** How far black-listed memory matters. */
  function Eff(q: Request): nat { if q.ignoreOffPage then HBLKSIZE else Need(q) }

  /** What GC_is_black_listed(h, len) promises. */
  ghost predicate BlackListOk(bl: (nat, nat) -> nat) {
    && (forall h: nat, len: nat :: bl(h, len) != 0 ==> h < bl(h, len))
    && (forall h: nat, len: nat, x: nat :: bl(h, len) != 0 && h <= x < bl(h, len) ==> bl(x, len) != 0)
    && (forall h: nat, len: nat :: HBLKSIZE <= len ==> HBLKSIZE * bl(h, len) <= HBLKSIZE * h + len)
    && (forall h: nat, len: nat, less: nat :: HBLKSIZE <= less <= len && bl(h, len) == 0 ==> bl(h, less) == 0)
  }

  /** Every place for the request inside [lo, lo + avail) is black-listed. */
  ghost predicate AllListed(bl: (nat, nat) -> nat, q: Request, lo: nat, avail: int) {
    forall x: nat :: lo <= x && HBLKSIZE * (x - lo) <= avail - Need(q) ==> bl(x, Eff(q)) != 0
  }

  /** A free block of avail bytes at h that is no good for the request. */
  ghost predicate Hopeless(bl: (nat, nat) -> nat, q: Request, maySplit: bool, h: nat, avail: int) {
    || avail < Need(q)
    || (avail != Need(q) && !maySplit)
    || (Checked(q) && AllListed(bl, q, h, avail))
  }

  /** What is to be done with a block on a free list: go on with the next one because that is
      obviously better, go on, allocate at `at`, or perhaps drop the completely black-listed block. */
  datatype Verdict = NextIsBetter | Skip | Take(at: nat) | Blocked

  /** Allocated memory stays allocated; new allocations are dropped black-listed blocks. */
  ghost predicate AllocGrown(bl: (nat, nat) -> nat, a: map<nat, Tile>, a': map<nat, Tile>) {
    && (forall x :: x in a ==> x in a' && a'[x] == a[x])
    && (forall x :: x in a' && x !in a ==> a'[x] == DROPPED && bl(x, HBLKSIZE) != 0)
  }

  /** Nothing happened but that some free blocks were dropped. */
  ghost predicate OnlyDropped(bl: (nat, nat) -> nat, g: Heap, g': Heap) {
    && AllocGrown(bl, Allocated(g), Allocated(g'))
    && (forall x :: x in g'.tiles && g'.tiles[x].free ==> x in g.tiles && g.tiles[x] == g'.tiles[x])
    && Free(g') <= Free(g)
    && g'.owner.Keys == g.owner.Keys
    && (forall x :: x in g.tiles ==> x in g'.tiles)
    && Shrunk(g.fl.bytes, g'.fl.bytes)
  }

  /** No free list holds more than before. */
  ghost predicate Shrunk(b: seq<nat>, b': seq<nat>) { |b'| == |b| && forall i :: 0 <= i < |b| ==> b'[i] <= b[i] }

  /** Block r was allocated with header t out of free memory, and some free blocks were dropped. */
  ghost predicate Granted(bl: (nat, nat) -> nat, g: Heap, g': Heap, r: nat, t: Tile) {
    && r in Allocated(g') && Allocated(g')[r] == t && r !in Allocated(g)
    && AllocGrown(bl, Allocated(g)[r := t], Allocated(g'))
    && Free(g') <= Free(g)
    && CellsOf(g'.owner, r) <= Free(g) && CellsOf(g'.owner, r) !! Free(g')
    && g'.owner.Keys == g.owner.Keys
  }

  /** Where a checked request was put: not on black-listed memory, unless it is a very large request
      inside an even larger free block that offers nothing better. */
  ghost predicate WellPlaced(bl: (nat, nat) -> nat, blLimit: int, q: Request, tiles: map<nat, Tile>, r: nat) {
    Checked(q) ==>
      || bl(r, Eff(q)) == 0
      || (Need(q) > blLimit && r in tiles && tiles[r].free && tiles[r].sz - Need(q) > blLimit && AllListed(bl, q, r, tiles[r].sz))
  }

  /** No block on list i is any good for the request. */
  ghost predicate NoneIn(bl: (nat, nat) -> nat, q: Request, maySplit: bool, g: Heap, i: nat) {
    i < |g.fl.lists| ==> NoneUpTo(bl, q, maySplit, g.tiles, g.fl.lists[i], |g.fl.lists[i]|)
  }

  ghost predicate NoneUpTo(bl: (nat, nat) -> nat, q: Request, maySplit: bool, tiles: map<nat, Tile>, s: seq<nat>, k: nat) {
    forall j :: 0 <= j < k && j < |s| ==> Hopeless(bl, q, maySplit, s[j], SzOf(tiles, s[j]))
  }

  /** Block h was found to be better than the one before it. */
  ghost predicate Promised(bl: (nat, nat) -> nat, q: Request, maySplit: bool, tiles: map<nat, Tile>, h: nat) {
    maySplit && h in tiles && Need(q) <= tiles[h].sz && bl(h, Need(q)) == 0
  }

  /** Where GC_allochblk splits blocks: anywhere; nowhere, if finalizers free much memory; or only
      while enough large blocks are left. */
  datatype SplitPolicy = WholeHeap | FinalizerHeavy | KeepLarge

  /** May blocks of list i be split?  With KeepLarge: if what was allocated in large blocks, with what is
      free on this list and the later ones, is enough; `bytes` is GC_free_bytes. */
  predicate MayCut(policy: SplitPolicy, bytes: seq<nat>, largeAllocd: nat, maxLarge: nat, i: nat) {
    match policy
    case WholeHeap => true
    case FinalizerHeavy => false
    case KeepLarge => largeAllocd + SumFrom(bytes, i) >= maxLarge
  }

  /** r is inside free block x of list i, which is not split unless it may be. */
  predicate CutFrom(q: Request, maySplit: bool, tiles: map<nat, Tile>, i: nat, x: nat, r: nat) {
    && x in tiles && tiles[x].free && FlIndex(Len(tiles[x])) == i
    && x <= r && r + Blocks(q.sz) <= x + Len(tiles[x])
    && (maySplit || tiles[x].sz == Need(q))
  }

  ghost predicate Cut(q: Request, maySplit: bool, tiles: map<nat, Tile>, i: nat, r: nat) {
    exists x :: CutFrom(q, maySplit, tiles, i, x, r)
  }

  /** Of the free blocks that were left alone, none of exactly the right size, and none on a list before
      i, is any good. */
  ghost predicate NoneBefore(bl: (nat, nat) -> nat, q: Request, tiles: map<nat, Tile>, tiles': map<nat, Tile>, i: nat) {
    forall y :: y in tiles && tiles[y].free && y in tiles' && tiles'[y] == tiles[y] && (tiles[y].sz == Need(q) || FlIndex(Len(tiles[y])) < i) ==>
      Hopeless(bl, q, true, y, tiles[y].sz)
  }

  /** Where a granted block comes from: from a free block of exactly the right size, or else from a list
      whose blocks may be split, after the blocks of the right size and the lists before were of no use. */
  ghost predicate Sourced(bl: (nat, nat) -> nat, q: Request, policy: SplitPolicy, largeAllocd: nat, maxLarge: nat,
                          bytes: seq<nat>, tiles: map<nat, Tile>, tiles': map<nat, Tile>, r: nat) {
    || Cut(q, false, tiles, FlIndex(Blocks(q.sz)), r)
    || exists i: nat :: Cut(q, true, tiles, i, r) && MayCut(policy, bytes, largeAllocd, maxLarge, i) && NoneBefore(bl, q, tiles, tiles', i)
  }

  /** What s[n], s[n + 1], .. amount to. */
  function SumFrom(s: seq<nat>, n: nat): nat
    decreases |s| - n
  {
    if n >= |s| then 0 else s[n] + SumFrom(s, n + 1)
  }
}
