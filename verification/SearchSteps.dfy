/** Dropping blocks during a search: what is kept. */
module SearchSteps {
  import opened Basics
  import opened HeapTiles
  import opened FreeLists
  import opened TileSteps
  import opened FreeListSteps
  import opened HeapInv
  import opened TakeSteps
  import opened HeapSteps
  import opened GrowSteps
  import opened BlockSearch

  lemma DropAllocated(bl: (nat, nat) -> nat, g: Heap, i: nat, k: nat)
    requires Tiled(g.owner, g.tiles)
    requires i < |g.fl.lists| == |g.fl.heads| == |g.fl.bytes| && k < |g.fl.lists[i]| && g.fl.lists[i][k] in g.tiles
    requires g.tiles[g.fl.lists[i][k]].sz <= g.fl.bytes[i] && g.tiles[g.fl.lists[i][k]].free
    requires forall x: nat :: g.fl.lists[i][k] <= x < g.fl.lists[i][k] + Len(g.tiles[g.fl.lists[i][k]]) ==> bl(x, HBLKSIZE) != 0
    ensures var h, g' := g.fl.lists[i][k], DroppedHeap(g, i, k);
      && Allocated(g') == Dropped(Allocated(g), h, Len(g.tiles[h]))
      && AllocGrown(bl, Allocated(g), Allocated(g'))
      && (forall x :: x in g'.tiles && g'.tiles[x].free ==> x in g.tiles && g.tiles[x] == g'.tiles[x])
      && g'.owner.Keys == g.owner.Keys
      && (forall x :: x in g.tiles ==> x in g'.tiles)
      && Shrunk(g.fl.bytes, g'.fl.bytes)
  {
    hide Len, Tiled, Dropped;
    DroppedLen();
    var h: nat := g.fl.lists[i][k];
    var n := Len(g.tiles[h]);
    var g' := DroppedHeap(g, i, k);
    forall x: nat
      ensures x in Allocated(g') <==> x in Dropped(Allocated(g), h, n)
      ensures x in Allocated(g') ==> Allocated(g')[x] == Dropped(Allocated(g), h, n)[x]
      ensures h <= x < h + n ==> x !in Allocated(g)
      ensures x in Allocated(g) ==> x in Allocated(g') && Allocated(g')[x] == Allocated(g)[x]
      ensures x in Allocated(g') && x !in Allocated(g) ==> Allocated(g')[x] == DROPPED && bl(x, HBLKSIZE) != 0
      ensures x in g'.tiles && g'.tiles[x].free ==> x in g.tiles && g.tiles[x] == g'.tiles[x]
      ensures x in g.tiles ==> x in g'.tiles
    {
      DropAt(g.tiles, h, n, x);
      DropAt(Allocated(g), h, n, x);
      if h < x < h + n { NoHeaderInside(g.owner, g.tiles, h, x); }
    }
  }

  lemma DropIsOnlyDrop(bl: (nat, nat) -> nat, g: Heap, i: nat, k: nat)
    requires Sound(g, 0) && i <= N_HBLK_FLS
    requires |g.fl.lists| == |g.fl.heads| == |g.fl.bytes| == N_HBLK_FLS + 1 && k < |g.fl.lists[i]|
    requires g.fl.lists[i][k] in g.tiles && g.tiles[g.fl.lists[i][k]].free
    requires g.tiles[g.fl.lists[i][k]].sz <= g.fl.bytes[i]
    requires forall x: nat :: g.fl.lists[i][k] <= x < g.fl.lists[i][k] + Len(g.tiles[g.fl.lists[i][k]]) ==> bl(x, HBLKSIZE) != 0
    ensures var h, g' := g.fl.lists[i][k], DroppedHeap(g, i, k);
      && Sound(g', 0)
      && OnlyDropped(bl, g, g')
      && Allocated(g') == Dropped(Allocated(g), h, Len(g.tiles[h]))
      && Free(g') == Free(g) - CellsOf(g.owner, h)
  {
    hide Tiled, Indexed, FlOk, SumsOk, Coupled, Len, Allocated, Free, CellsOf, DroppedHeap, AllocGrown, FillsSects, CountersOk,
      NoFreeNeighbours, HeapFits, Dropped;
    DropKeepsSound(g, i, k);
    DropAllocated(bl, g, i, k);
  }

  lemma Same(bl: (nat, nat) -> nat, g: Heap)
    ensures OnlyDropped(bl, g, g)
  {
  }

  lemma DropAgain(bl: (nat, nat) -> nat, g: Heap, g1: Heap, g2: Heap)
    requires OnlyDropped(bl, g, g1) && OnlyDropped(bl, g1, g2)
    ensures OnlyDropped(bl, g, g2)
  {
    hide Allocated, Free;
  }

  /** Drops, then the allocation of r. */
  lemma DropThenTake(bl: (nat, nat) -> nat, g: Heap, g1: Heap, g2: Heap, r: nat, t: Tile)
    requires OnlyDropped(bl, g, g1) && r !in Allocated(g1)
    requires Allocated(g2) == Allocated(g1)[r := t] && g2.owner.Keys == g1.owner.Keys
    requires Free(g2) == Free(g1) - CellsOf(g2.owner, r) && CellsOf(g2.owner, r) <= Free(g1)
    ensures Granted(bl, g, g2, r, t)
  {
    hide Free, CellsOf, Allocated;
    assert r !in Allocated(g);
  }

  lemma DropThenGrant(bl: (nat, nat) -> nat, g: Heap, g1: Heap, g2: Heap, r: nat, t: Tile)
    requires OnlyDropped(bl, g, g1) && Granted(bl, g1, g2, r, t)
    ensures Granted(bl, g, g2, r, t)
  {
    hide Allocated, Free, CellsOf;
    assert Allocated(g2)[r] == t;
    assert r !in Allocated(g) by { assert forall x :: x in Allocated(g) ==> x in Allocated(g1); }
  }

  lemma WellPlacedBefore(bl: (nat, nat) -> nat, blLimit: int, q: Request, g: Heap, g1: Heap, r: nat)
    requires OnlyDropped(bl, g, g1) && WellPlaced(bl, blLimit, q, g1.tiles, r)
    ensures WellPlaced(bl, blLimit, q, g.tiles, r)
  {
    hide Allocated, Free, AllListed, Checked;
  }

  /** The outcome of a search, seen from before some blocks were dropped. */
  lemma DropThenSearch(bl: (nat, nat) -> nat, blLimit: int, q: Request, g: Heap, g1: Heap, g2: Heap, r: nat)
    requires Sound(g, 0) && Sound(g1, 0) && OnlyDropped(bl, g, g1)
    requires r == 0 ==> OnlyDropped(bl, g1, g2)
    requires r != 0 ==> Granted(bl, g1, g2, r, Tile(q.sz, false, q.kind)) && WellPlaced(bl, blLimit, q, g1.tiles, r)
    ensures r == 0 ==> OnlyDropped(bl, g, g2)
    ensures r != 0 ==> Granted(bl, g, g2, r, Tile(q.sz, false, q.kind)) && WellPlaced(bl, blLimit, q, g.tiles, r)
  {
    hide OnlyDropped, Granted, WellPlaced, Sound;
    if r == 0 { DropAgain(bl, g, g1, g2); } else {
      DropThenGrant(bl, g, g1, g2, r, Tile(q.sz, false, q.kind));
      WellPlacedBefore(bl, blLimit, q, g, g1, r);
    }
  }

  /** What is known about the k-th block of a free list. */
  lemma ListedBlock(g: Heap, i: nat, k: nat)
    requires Sound(g, 0) && i <= N_HBLK_FLS
    ensures |g.fl.lists| == |g.fl.heads| == |g.fl.bytes| == N_HBLK_FLS + 1
    ensures g.fl.heads[i] == First(g.fl.lists[i])
    ensures k < |g.fl.lists[i]| ==>
              var h: nat := g.fl.lists[i][k];
              && h != 0 && h in g.tiles && g.tiles[h].free && FlIndex(Len(g.tiles[h])) == i
              && g.tiles[h].sz == HBLKSIZE * Len(g.tiles[h]) && 0 < Len(g.tiles[h])
              && h in g.fl.next && h in g.fl.prev
              && g.fl.next[h] == After(g.fl.lists[i], k) && g.fl.prev[h] == Before(g.fl.lists[i], k)
  {
    hide Tiled, Indexed, SumsOk, CountersOk, FillsSects, HeapFits, NoFreeNeighbours, Len, FlIndex;
    if k < |g.fl.lists[i]| {
      var h: nat := g.fl.lists[i][k];
      LinksOf(g.fl, i, k);
      assert h in g.fl.lists[i];
      SoundParts(g, 0, h);
    }
  }

  /** A search that found nothing on list i: nothing there later either, if only drops happened. */
  lemma NoneStays(bl: (nat, nat) -> nat, q: Request, maySplit: bool, g: Heap, g': Heap, i: nat)
    requires Sound(g, 0) && Sound(g', 0) && OnlyDropped(bl, g, g') && NoneIn(bl, q, maySplit, g, i) && i <= N_HBLK_FLS
    ensures NoneIn(bl, q, maySplit, g', i)
  {
    hide Sound, Hopeless, Len, FlIndex, Allocated, Free;
    ListedBlock(g, i, 0);
    ListedBlock(g', i, 0);
    forall j | 0 <= j < |g'.fl.lists[i]|
      ensures Hopeless(bl, q, maySplit, g'.fl.lists[i][j], SzOf(g'.tiles, g'.fl.lists[i][j]))
    {
      ListedBlock(g', i, j);
      var x := g'.fl.lists[i][j];
      OnList(g, x);
      var l: nat :| l < |g.fl.lists[i]| && g.fl.lists[i][l] == x;
    }
  }

  lemma OnList(g: Heap, x: nat)
    requires Sound(g, 0) && x in g.tiles && g.tiles[x].free
    ensures FlIndex(Len(g.tiles[x])) < |g.fl.lists| && x in g.fl.lists[FlIndex(Len(g.tiles[x]))]
  {
    hide Tiled, Indexed, SumsOk, CountersOk, FillsSects, HeapFits, NoFreeNeighbours, Len, FlIndex, FlOk;
  }

  lemma NextStep(bl: (nat, nat) -> nat, q: Request, maySplit: bool, tiles: map<nat, Tile>, s: seq<nat>, k: nat)
    requires NoneUpTo(bl, q, maySplit, tiles, s, k) && k < |s| && Hopeless(bl, q, maySplit, s[k], SzOf(tiles, s[k]))
    ensures NoneUpTo(bl, q, maySplit, tiles, s, k + 1)
  {
    hide Hopeless;
  }

  /** After the k-th block was dropped the earlier ones are as hopeless as before. */
  lemma NoneUpToStays(bl: (nat, nat) -> nat, q: Request, maySplit: bool, g: Heap, g': Heap, i: nat, k: nat)
    requires Sound(g', 0) && OnlyDropped(bl, g, g') && i <= N_HBLK_FLS && i < |g.fl.lists| == |g'.fl.lists| && k < |g.fl.lists[i]|
    requires g'.fl.lists[i] == Without(g.fl.lists[i], k)
    requires NoneUpTo(bl, q, maySplit, g.tiles, g.fl.lists[i], k)
    ensures NoneUpTo(bl, q, maySplit, g'.tiles, g'.fl.lists[i], k)
  {
    hide Sound, Hopeless, Len, FlIndex, Allocated, Free;
    forall j | 0 <= j < k && j < |g'.fl.lists[i]|
      ensures Hopeless(bl, q, maySplit, g'.fl.lists[i][j], SzOf(g'.tiles, g'.fl.lists[i][j]))
    {
      ListedBlock(g', i, j);
      assert g'.fl.lists[i][j] == g.fl.lists[i][j];
    }
  }

  /** The blocks of a hopeless free block are all black-listed, if one block is wanted. */
  lemma DropsAreListed(bl: (nat, nat) -> nat, q: Request, h: nat, n: nat)
    requires Need(q) == HBLKSIZE && AllListed(bl, q, h, HBLKSIZE * n)
    ensures forall x: nat :: h <= x < h + n ==> bl(x, HBLKSIZE) != 0
  {
    forall x: nat | h <= x < h + n ensures bl(x, HBLKSIZE) != 0 { assert bl(x, Eff(q)) != 0; }
  }

  /** The first list to be searched for blocks to split: not again one with blocks of one size only. */
  function FirstToCut(n: nat): nat { if FlIndex(n) < UNIQUE_THRESHOLD then FlIndex(n) + 1 else FlIndex(n) }

  /** The lists from the one for the request on hold every free block that is large enough. */
  lemma SearchedUpTo(bl: (nat, nat) -> nat, q: Request, g: Heap, hi: nat, x: nat)
    requires Sound(g, 0) && hi <= N_HBLK_FLS + 1
    requires NoneIn(bl, q, false, g, FlIndex(Blocks(q.sz))) && Searched(bl, q, g, FirstToCut(Blocks(q.sz)), hi)
    requires x in g.tiles && g.tiles[x].free && (g.tiles[x].sz == Need(q) || FlIndex(Len(g.tiles[x])) < hi)
    ensures Hopeless(bl, q, true, x, g.tiles[x].sz)
  {
    hide Sound, AllListed, FlIndex, Len, Blocks;
    OnList(g, x);
    SoundParts(g, 0, x);
    var n, i := Blocks(q.sz), FlIndex(Len(g.tiles[x]));
    ListedBlock(g, i, 0);
    if n <= Len(g.tiles[x]) {
      FlIndexMonotone(n, Len(g.tiles[x]));
      FlIndexBound(Len(g.tiles[x]));
      var k: nat :| k < |g.fl.lists[i]| && g.fl.lists[i][k] == x;
      if g.tiles[x].sz == Need(q) {
        assert n == Len(g.tiles[x]);
        assert Hopeless(bl, q, false, x, g.tiles[x].sz);
      } else {
        ExactList(n, Len(g.tiles[x]));
        assert NoneIn(bl, q, true, g, i);
        assert Hopeless(bl, q, true, x, g.tiles[x].sz);
      }
    }
  }

  /** Lists below UNIQUE_THRESHOLD hold blocks of one size only. */
  lemma ExactList(n: nat, len: nat)
    requires n <= len
    ensures FlIndex(n) == FlIndex(len) < UNIQUE_THRESHOLD ==> n == len
  {
  }

  lemma BlockedIsHopeless(bl: (nat, nat) -> nat, q: Request, maySplit: bool, h: nat, avail: int)
    requires Checked(q) && AllListed(bl, q, h, avail)
    ensures Hopeless(bl, q, maySplit, h, avail)
  {
  }

  lemma NoneYet(bl: (nat, nat) -> nat, q: Request, maySplit: bool, tiles: map<nat, Tile>, s: seq<nat>)
    ensures NoneUpTo(bl, q, maySplit, tiles, s, 0)
  {
  }

  /** Lists lo .. hi-1 were searched in vain. */
  ghost predicate Searched(bl: (nat, nat) -> nat, q: Request, g: Heap, lo: nat, hi: nat) {
    forall i: nat :: lo <= i < hi ==> NoneIn(bl, q, true, g, i)
  }

  lemma SearchedStays(bl: (nat, nat) -> nat, q: Request, g: Heap, g': Heap, lo: nat, hi: nat)
    requires Sound(g, 0) && Sound(g', 0) && OnlyDropped(bl, g, g') && Searched(bl, q, g, lo, hi) && hi <= N_HBLK_FLS + 1
    ensures Searched(bl, q, g', lo, hi)
  {
    hide Sound, OnlyDropped, NoneIn;
    forall i: nat | lo <= i < hi
      ensures NoneIn(bl, q, true, g', i)
    {
      assert NoneIn(bl, q, true, g, i);
      NoneStays(bl, q, true, g, g', i);
    }
  }

  lemma SearchedMore(bl: (nat, nat) -> nat, q: Request, g: Heap, lo: nat, hi: nat)
    requires Searched(bl, q, g, lo, hi) && NoneIn(bl, q, true, g, hi)
    ensures Searched(bl, q, g, lo, hi + 1)
  {
    hide NoneIn;
  }

  lemma SearchedNone(bl: (nat, nat) -> nat, q: Request, g: Heap, lo: nat)
    ensures Searched(bl, q, g, lo, lo)
  {
  }

  /** Blocks of exactly the right size, and those on the lists before `hi`, were searched in vain. */
  lemma NothingLeft(bl: (nat, nat) -> nat, q: Request, g: Heap, hi: nat)
    requires Sound(g, 0) && hi <= N_HBLK_FLS + 1
    requires NoneIn(bl, q, false, g, FlIndex(Blocks(q.sz))) && Searched(bl, q, g, FirstToCut(Blocks(q.sz)), hi)
    ensures forall x :: x in g.tiles && g.tiles[x].free && FlIndex(Len(g.tiles[x])) < hi ==> Hopeless(bl, q, true, x, g.tiles[x].sz)
    ensures forall x :: x in g.tiles && g.tiles[x].free ==> Hopeless(bl, q, false, x, g.tiles[x].sz)
  {
    hide Sound, NoneIn, FlIndex, Len, Blocks, AllListed, FirstToCut;
    forall x | x in g.tiles && g.tiles[x].free
      ensures FlIndex(Len(g.tiles[x])) < hi ==> Hopeless(bl, q, true, x, g.tiles[x].sz)
      ensures Hopeless(bl, q, false, x, g.tiles[x].sz)
    {
      if FlIndex(Len(g.tiles[x])) < hi || g.tiles[x].sz == Need(q) { SearchedUpTo(bl, q, g, hi, x); }
    }
  }

  /** A block that is cut out of the heap after some drops could have been before. */
  lemma CutBefore(bl: (nat, nat) -> nat, q: Request, maySplit: bool, g: Heap, g1: Heap, i: nat, r: nat)
    requires OnlyDropped(bl, g, g1) && Cut(q, maySplit, g1.tiles, i, r)
    ensures Cut(q, maySplit, g.tiles, i, r)
  {
    hide Len, FlIndex, Blocks, Allocated, Free, AllocGrown;
    var x :| CutFrom(q, maySplit, g1.tiles, i, x, r);
    assert CutFrom(q, maySplit, g.tiles, i, x, r);
  }

  /** The k-th block of list i as the place r is cut from. */
  lemma CutHere(bl: (nat, nat) -> nat, q: Request, maySplit: bool, g: Heap, g1: Heap, i: nat, k: nat, r: nat)
    requires Sound(g1, 0) && OnlyDropped(bl, g, g1) && i <= N_HBLK_FLS && |g1.fl.lists| == N_HBLK_FLS + 1 && k < |g1.fl.lists[i]|
    requires g1.fl.lists[i][k] in g1.tiles && g1.fl.lists[i][k] <= r
    requires r + Blocks(q.sz) <= g1.fl.lists[i][k] + Len(g1.tiles[g1.fl.lists[i][k]])
    requires maySplit || g1.tiles[g1.fl.lists[i][k]].sz == Need(q)
    ensures Cut(q, maySplit, g.tiles, i, r)
  {
    hide Sound, OnlyDropped, Len, FlIndex, Blocks;
    ListedBlock(g1, i, k);
    assert CutFrom(q, maySplit, g1.tiles, i, g1.fl.lists[i][k], r);
    CutBefore(bl, q, maySplit, g, g1, i, r);
  }

  lemma AllocatedStays(bl: (nat, nat) -> nat, g: Heap, g': Heap, r: nat, t: Tile, y: nat)
    requires Granted(bl, g, g', r, t) && y in g.tiles
    ensures !g.tiles[y].free ==> y in g'.tiles && !g'.tiles[y].free
  {
    hide Free, CellsOf;
    if !g.tiles[y].free { assert y in Allocated(g)[r := t]; }
  }

  /** What a good place is, for memory that may hold pointers and for large pointer-free blocks. */
  lemma PlacedWell(bl: (nat, nat) -> nat, blLimit: int, q: Request, tiles: map<nat, Tile>)
    ensures forall r :: WellPlaced(bl, blLimit, q, tiles, r) && (q.kind == Normal || (q.kind == PtrFree && q.sz > 2 * HBLKSIZE)) ==>
              && (bl(r, if q.ignoreOffPage then HBLKSIZE else HBLKSIZE * Blocks(q.sz)) == 0
                  || (HBLKSIZE * Blocks(q.sz) > blLimit && SzOf(tiles, r) - HBLKSIZE * Blocks(q.sz) > blLimit))
  {
  }

  /** Black lists do not matter to uncollectable memory and small pointer-free blocks: then a block is hopeless
      only because of its size. */
  lemma NoBlackLists(bl: (nat, nat) -> nat, q: Request, maySplit: bool, h: nat, avail: int)
    requires q.kind == Uncollectable || q.kind == AtomicUncollectable || (q.kind == PtrFree && q.sz <= 2 * HBLKSIZE)
    ensures Hopeless(bl, q, maySplit, h, avail) <==> avail < HBLKSIZE * Blocks(q.sz) || (avail != HBLKSIZE * Blocks(q.sz) && !maySplit)
  {
  }

  /** What may be dropped on the way: black-listed blocks, when one block is wanted that may hold pointers. */
  lemma OneBlockOnly(q: Request)
    requires 0 < q.sz
    ensures Need(q) == HBLKSIZE && Checked(q) ==> q.sz <= HBLKSIZE && q.kind == Normal
  {
  }

  /** What was left alone from heap g to heap g2, where a block was granted, was there in between. */
  lemma NoneBeforeGrant(bl: (nat, nat) -> nat, q: Request, g: Heap, g1: Heap, g2: Heap, r: nat, t: Tile, hi: nat)
    requires Sound(g1, 0) && OnlyDropped(bl, g, g1) && Granted(bl, g1, g2, r, t) && hi <= N_HBLK_FLS + 1
    requires NoneIn(bl, q, false, g1, FlIndex(Blocks(q.sz))) && Searched(bl, q, g1, FirstToCut(Blocks(q.sz)), hi)
    ensures NoneBefore(bl, q, g.tiles, g2.tiles, hi)
  {
    hide Sound, NoneIn, Hopeless, FlIndex, Len, Blocks, FirstToCut, Need;
    forall y | y in g.tiles && g.tiles[y].free && y in g2.tiles && g2.tiles[y] == g.tiles[y]
                && (g.tiles[y].sz == Need(q) || FlIndex(Len(g.tiles[y])) < hi)
      ensures Hopeless(bl, q, true, y, g.tiles[y].sz)
    {
      assert y in g1.tiles;
      AllocatedStays(bl, g1, g2, r, t, y);
      SearchedUpTo(bl, q, g1, hi, y);
    }
  }

  lemma {:induction false} SumShrinks(b: seq<nat>, b': seq<nat>, n: nat)
    requires Shrunk(b, b')
    ensures SumFrom(b', n) <= SumFrom(b, n)
    decreases |b| - n
  {
    if n < |b| { SumShrinks(b, b', n + 1); }
  }

  lemma {:induction false} SumFalls(b: seq<nat>, i: nat, n: nat)
    requires i <= n
    ensures SumFrom(b, n) <= SumFrom(b, i)
    decreases n - i
  {
    if i < n { SumFalls(b, i + 1, n); }
  }

  /** The last list whose blocks may be split. */
  ghost predicate Limit(policy: SplitPolicy, bytes: seq<nat>, largeAllocd: nat, maxLarge: nat, n: nat) {
    n <= N_HBLK_FLS && (n > 0 ==> MayCut(policy, bytes, largeAllocd, maxLarge, n))
      && forall m: nat :: n < m <= N_HBLK_FLS ==> !MayCut(policy, bytes, largeAllocd, maxLarge, m)
  }

  /** Before some drops there were at least as many such lists, after more drops there are not more. */
  lemma LimitHolds(policy: SplitPolicy, before: seq<nat>, bytes: seq<nat>, after: seq<nat>, largeAllocd: nat, maxLarge: nat, n: nat, i: nat)
    requires Shrunk(before, bytes) && Shrunk(bytes, after) && Limit(policy, bytes, largeAllocd, maxLarge, n) && 0 < i <= N_HBLK_FLS
    ensures i <= n ==> MayCut(policy, before, largeAllocd, maxLarge, i)
    ensures i > n ==> !MayCut(policy, after, largeAllocd, maxLarge, i)
  {
    SumShrinks(before, bytes, i);
    SumShrinks(bytes, after, i);
    if i <= n { SumFalls(bytes, i, n); } else { assert !MayCut(policy, bytes, largeAllocd, maxLarge, i); }
  }

  /** A grant after the lists up to i were searched. */
  lemma SourcedLate(bl: (nat, nat) -> nat, q: Request, policy: SplitPolicy, largeAllocd: nat, maxLarge: nat,
                    g: Heap, g0: Heap, g1: Heap, g2: Heap, r: nat, t: Tile, i: nat, n: nat)
    requires Sound(g1, 0) && OnlyDropped(bl, g, g1) && OnlyDropped(bl, g, g0) && Granted(bl, g1, g2, r, t)
    requires NoneIn(bl, q, false, g1, FlIndex(Blocks(q.sz))) && Searched(bl, q, g1, FirstToCut(Blocks(q.sz)), i)
    requires Limit(policy, g0.fl.bytes, largeAllocd, maxLarge, n) && 0 < i <= n && Cut(q, true, g1.tiles, i, r)
    ensures Sourced(bl, q, policy, largeAllocd, maxLarge, g.fl.bytes, g.tiles, g2.tiles, r)
  {
    hide Sound, NoneIn, Hopeless, FlIndex, Len, Blocks, FirstToCut, Need, Granted, NoneBefore, Cut, MayCut, Limit;
    CutBefore(bl, q, true, g, g1, i, r);
    LimitTop(policy, g0.fl.bytes, largeAllocd, maxLarge, n);
    NoneBeforeGrant(bl, q, g, g1, g2, r, t, i);
    LimitHolds(policy, g.fl.bytes, g0.fl.bytes, g0.fl.bytes, largeAllocd, maxLarge, n, i);
  }

  lemma LimitTop(policy: SplitPolicy, bytes: seq<nat>, largeAllocd: nat, maxLarge: nat, n: nat)
    requires Limit(policy, bytes, largeAllocd, maxLarge, n)
    ensures n <= N_HBLK_FLS
  {
  }

  /** No block of the right size, and none that may be split, is left. */
  lemma AllSearched(bl: (nat, nat) -> nat, q: Request, policy: SplitPolicy, largeAllocd: nat, maxLarge: nat,
                    g0: Heap, g: Heap, n: nat)
    requires Sound(g, 0) && OnlyDropped(bl, g0, g) && Limit(policy, g0.fl.bytes, largeAllocd, maxLarge, n)
    requires NoneIn(bl, q, false, g, FlIndex(Blocks(q.sz))) && Searched(bl, q, g, FirstToCut(Blocks(q.sz)), n + 1)
    ensures forall x :: x in g.tiles && g.tiles[x].free && MayCut(policy, g.fl.bytes, largeAllocd, maxLarge, FlIndex(Len(g.tiles[x]))) ==>
              Hopeless(bl, q, true, x, g.tiles[x].sz)
    ensures forall x :: x in g.tiles && g.tiles[x].free ==> Hopeless(bl, q, false, x, g.tiles[x].sz)
  {
    hide Sound, NoneIn, Hopeless, FlIndex, Len, Blocks, FirstToCut, MayCut, Limit, Allocated, Free, AllocGrown;
    LimitTop(policy, g0.fl.bytes, largeAllocd, maxLarge, n);
    NothingLeft(bl, q, g, n + 1);
    forall x | x in g.tiles && g.tiles[x].free && MayCut(policy, g.fl.bytes, largeAllocd, maxLarge, FlIndex(Len(g.tiles[x])))
      ensures Hopeless(bl, q, true, x, g.tiles[x].sz)
    {
      FlIndexBound(Len(g.tiles[x]));
      SoundParts(g, 0, x);
      FlIndexPositive(Len(g.tiles[x]));
      LimitHolds(policy, g0.fl.bytes, g0.fl.bytes, g.fl.bytes, largeAllocd, maxLarge, n, FlIndex(Len(g.tiles[x])));
    }
  }

  lemma SourcedAtOnce(bl: (nat, nat) -> nat, q: Request, policy: SplitPolicy, largeAllocd: nat, maxLarge: nat, g: Heap, g2: Heap, r: nat)
    requires Cut(q, false, g.tiles, FlIndex(Blocks(q.sz)), r)
    ensures Sourced(bl, q, policy, largeAllocd, maxLarge, g.fl.bytes, g.tiles, g2.tiles, r)
  {
  }

  lemma LimitIs(policy: SplitPolicy, bytes: seq<nat>, largeAllocd: nat, maxLarge: nat, n: nat)
    requires n <= N_HBLK_FLS
    requires policy.WholeHeap? ==> n == N_HBLK_FLS
    requires policy.FinalizerHeavy? ==> n == 0
    requires policy.KeepLarge? && n > 0 ==> largeAllocd + SumFrom(bytes, n) >= maxLarge
    requires policy.KeepLarge? ==> forall m: nat :: n < m <= N_HBLK_FLS ==> largeAllocd + SumFrom(bytes, m) < maxLarge
    ensures Limit(policy, bytes, largeAllocd, maxLarge, n)
  {
  }

  lemma FirstPositive(q: Request)
    requires 0 < q.sz
    ensures 0 < FirstToCut(Blocks(q.sz)) <= N_HBLK_FLS + 1
  {
  }

  lemma SearchedLess(bl: (nat, nat) -> nat, q: Request, g: Heap, lo: nat, hi: nat, less: nat)
    requires Searched(bl, q, g, lo, hi) && less <= hi
    ensures Searched(bl, q, g, lo, less)
  {
    hide NoneIn;
  }

  lemma FlIndexPositive(n: nat)
    requires n > 0
    ensures FlIndex(n) > 0
  {
  }

  /** Without black lists a block is hopeless only if it is too small. */
  lemma TooSmall(bl: (nat, nat) -> nat, q: Request, h: nat, avail: int)
    requires forall x: nat, len: nat :: bl(x, len) == 0
    ensures Hopeless(bl, q, true, h, avail) <==> avail < Need(q)
  {
    if avail >= Need(q) { assert bl(h, Eff(q)) == 0; }
  }
}
