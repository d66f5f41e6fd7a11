/** GC_freehblk step by step: the block becomes free, is joined with its neighbours and listed. */
module FreeSteps {
  import opened Basics
  import opened HeapTiles
  import opened FreeLists
  import opened TileSteps
  import opened Neighbours
  import opened FreeListSteps
  import opened CouplingSteps
  import opened HeapInv
  import opened TakeSteps
  import opened HeapSteps

  lemma SoundIsFreeable(g: Heap, h: nat)
    requires Sound(g, 0) && h in g.tiles && !g.tiles[h].free
    ensures Freeable(g, h)
  {
    hide FlOk, SumsOk, Coupled, NoFreeNeighbours, Len, TileOk, FillsSects, HeapFits, CountersOk;
    forall y, x | Owns(g.owner, y, x)
      ensures y != 0
    {
      assert Covers(g.tiles, y, x);
      TileStart(g.owner, g.tiles, y);
    }
    forall x | h < x < h + Len(g.tiles[h])
      ensures x in g.jump
    {
      assert Covers(g.tiles, h, x) <==> Owns(g.owner, h, x);
      TileStart(g.owner, g.tiles, h);
      assert SlotOk(g.tiles, g.jump, h, x);
    }
  }

  /** The header of block h as GC_freehblk rewrites it. */
  lemma BeginFree(g: Heap, jump': map<nat, nat>, h: nat)
    requires Freeable(g, h)
    requires CountsCleared(g.jump, jump', h, Len(g.tiles[h]))
    ensures var n := Len(g.tiles[h]);
      var g' := g.(tiles := g.tiles[h := FreeTile(n)], jump := jump');
      && Freeing(g', h, HBLKSIZE * n, Unmerged)
      && Allocated(g') == Allocated(g) - {h}
      && Free(g') == Free(g) + CellsOf(g.owner, h) && CellsOf(g.owner, h) !! Free(g)
  {
    hide Tiled, Indexed, FlOk, SumsOk, Coupled, NoFreeNeighbours, NeighboursAround, Len, TileOk, FillsSects, HeapFits,
      FreeCells, CellsOf, FlIndex, SumAll, FreeTile, CountsCleared;
    var n := Len(g.tiles[h]);
    var t := FreeTile(n);
    TileStart(g.owner, g.tiles, h);
    FreeTileLen(h, n);
    FreeTileSize(n);
    ReuseTiled(g.owner, g.tiles, h, t);
    FreeIndexed(g.owner, g.tiles, g.jump, jump', h, t);
    ReuseFreeCells(g.owner, g.tiles, h, t);
    CellCount(g.owner, g.tiles, h);
    AllocatedUnlisted(g.tiles, g.fl, h);
    CoupledLess(g.tiles, g.fl, {}, {h});
    Recouple(g.tiles, g.tiles[h := t], g.fl, {h}, {h});
    SumsFrame(g.tiles, g.tiles[h := t], g.fl, {h});
    if HeapFits(g.owner) { FreeAround(g.owner, g.tiles, h, t); }
  }

  lemma AllocatedUnlisted(tiles: map<nat, Tile>, f: Fl, h: nat)
    requires Coupled(tiles, f, {}) && h in tiles && !tiles[h].free
    ensures !Listed(f, h)
  {
  }

  /** Joining h with the free block m behind it, the k-th on its list; `keep` is the one of the two
      that is not listed. */
  lemma JoinLists(tiles: map<nat, Tile>, f: Fl, h: nat, m: nat, other: nat, keep: nat, k: nat)
    requires FlOk(f) && SumsOk(tiles, f) && Coupled(tiles, f, {keep}) && !Listed(f, keep)
    requires h in tiles && m in tiles && h != m && tiles[h].free && tiles[m].free
    requires {other, keep} == {h, m}
    requires FlIndex(Len(tiles[other])) < |f.lists| && k < |f.lists[FlIndex(Len(tiles[other]))]|
    requires f.lists[FlIndex(Len(tiles[other]))][k] == other
    ensures |f.lists| == |f.heads| == |f.bytes| && tiles[other].sz <= f.bytes[FlIndex(Len(tiles[other]))]
    ensures var f' := Removed(f, FlIndex(Len(tiles[other])), k, tiles[other].sz);
      && FlOk(f') && SumsOk(Joined(tiles, h, m), f') && Coupled(Joined(tiles, h, m), f', {h}) && !Listed(f', h)
      && SumAll(f'.bytes) + tiles[other].sz == SumAll(f.bytes)
  {
    hide FlOk, SumsOk, Coupled, Len, FlIndex, SumAll, FreeTile, Listed, Removed;
    ListsCount(f);
    var i := FlIndex(Len(tiles[other]));
    RemovedOk(tiles, f, i, k);
    RemovedCoupled(tiles, f, {keep}, i, k, tiles[other].sz);
    var f' := Removed(f, i, k, tiles[other].sz);
    RemovedBytes(f, i, k, tiles[other].sz);
    SumAllUpdate(f.bytes, i, f.bytes[i] - tiles[other].sz);
    assert {keep} + {other} == {h, m};
    SumsFrame(tiles, Joined(tiles, h, m), f', {h, m});
    Recouple(tiles, Joined(tiles, h, m), f', {h, m}, {h});
  }

  lemma RemovedBytes(f: Fl, i: nat, k: nat, sz: nat)
    requires i < |f.lists| == |f.heads| == |f.bytes| && k < |f.lists[i]| && sz <= f.bytes[i]
    ensures Removed(f, i, k, sz).bytes == f.bytes[i := f.bytes[i] - sz]
  {
  }

  /** A free block that is listed can be found. */
  lemma FindListed(tiles: map<nat, Tile>, f: Fl, es: set<nat>, x: nat) returns (k: nat)
    requires FlOk(f) && Coupled(tiles, f, es) && x in tiles && tiles[x].free && x !in es
    ensures FlIndex(Len(tiles[x])) < |f.lists| == |f.heads| == |f.bytes| == N_HBLK_FLS + 1
    ensures k < |f.lists[FlIndex(Len(tiles[x]))]| && f.lists[FlIndex(Len(tiles[x]))][k] == x
  {
    k :| 0 <= k < |f.lists[FlIndex(Len(tiles[x]))]| && f.lists[FlIndex(Len(tiles[x]))][k] == x;
  }

  function JoinedHeap(g: Heap, h: nat, m: nat, f': Fl): Heap
    requires h in g.tiles && m in g.tiles && h != m
  {
    g.(owner := Reown(g.owner, m, m + Len(g.tiles[m]), h), tiles := Joined(g.tiles, h, m), fl := f')
  }

  /** The sizes of two blocks add up to no more than the heap. */
  lemma LowSizes(owner: map<nat, nat>, tiles: map<nat, Tile>, h: nat, m: nat)
    requires Tiled(owner, tiles) && HeapFits(owner)
    requires h in tiles && m in tiles && tiles[h].free && tiles[m].free && m == h + Len(tiles[h])
    ensures tiles[h].sz + tiles[m].sz < SIGNB
  {
    hide Len, CellsOf, Tiled;
    FreeSize(owner, tiles, h);
    FreeSize(owner, tiles, m);
    TwoBlocks(owner, h, m);
  }

  lemma FreeSize(owner: map<nat, nat>, tiles: map<nat, Tile>, h: nat)
    requires Tiled(owner, tiles) && h in tiles && tiles[h].free
    ensures tiles[h].sz == HBLKSIZE * |CellsOf(owner, h)| && 0 < Len(tiles[h])
  {
    CellCount(owner, tiles, h);
    TileStart(owner, tiles, h);
    FreeLen(tiles[h]);
  }

  lemma TwoBlocks(owner: map<nat, nat>, h: nat, m: nat)
    requires h != m
    ensures |CellsOf(owner, h)| + |CellsOf(owner, m)| <= |owner|
  {
    var a, b := CellsOf(owner, h), CellsOf(owner, m);
    assert a !! b && a + b <= owner.Keys;
    assert owner.Keys == (a + b) + (owner.Keys - (a + b));
    assert |owner| == |owner.Keys|;
  }

  lemma JoinNext(g: Heap, h: nat, m: nat, size: nat, k: nat)
    requires Freeing(g, h, size, Unmerged)
    requires m in g.tiles && g.tiles[m].free && m == h + Len(g.tiles[h])
    requires FlIndex(Len(g.tiles[m])) < |g.fl.lists| && k < |g.fl.lists[FlIndex(Len(g.tiles[m]))]|
    requires g.fl.lists[FlIndex(Len(g.tiles[m]))][k] == m
    ensures h < m && |g.fl.lists| == |g.fl.heads| == |g.fl.bytes|
    ensures g.tiles[m].sz <= g.fl.bytes[FlIndex(Len(g.tiles[m]))]
    ensures var g' := JoinedHeap(g, h, m, Removed(g.fl, FlIndex(Len(g.tiles[m])), k, g.tiles[m].sz));
      Freeing(g', h, size, NextMerged) && Allocated(g') == Allocated(g) && Free(g') == Free(g)
  {
    hide Tiled, Indexed, FlOk, SumsOk, Coupled, NoFreeNeighbours, NeighboursAround, Len, TileOk, FillsSects, HeapFits,
      FreeCells, FlIndex, SumAll, FreeTile, Reown, Removed, Listed;
    TileStart(g.owner, g.tiles, h);
    JoinTiled(g.owner, g.tiles, h, m);
    JoinIndexed(g.owner, g.tiles, g.jump, h, m);
    JoinFreeCells(g.owner, g.tiles, h, m);
    JoinLists(g.tiles, g.fl, h, m, m, h, k);
    ReownKeepsFill(g.owner, g.sects, m, m + Len(g.tiles[m]), h);
    JoinedSize(g.owner, g.tiles, h, m);
    if HeapFits(g.owner) { JoinSuccessor(g.owner, g.tiles, h); }
    JoinedAllocated(g, h, m, Removed(g.fl, FlIndex(Len(g.tiles[m])), k, g.tiles[m].sz));
  }

  lemma JoinedSize(owner: map<nat, nat>, tiles: map<nat, Tile>, h: nat, m: nat)
    requires Tiled(owner, tiles) && h in tiles && m in tiles && h != m && tiles[h].free && tiles[m].free
    ensures Joined(tiles, h, m)[h].sz == tiles[h].sz + tiles[m].sz && Joined(tiles, h, m)[h].free
  {
    TileStart(owner, tiles, h);
    TileStart(owner, tiles, m);
    FreeLen(tiles[h]);
    FreeLen(tiles[m]);
    FreeTileSize(Len(tiles[h]) + Len(tiles[m]));
  }

  lemma JoinedAllocated(g: Heap, h: nat, m: nat, f': Fl)
    requires h in g.tiles && m in g.tiles && h != m && g.tiles[h].free && g.tiles[m].free
    ensures Allocated(JoinedHeap(g, h, m, f')) == Allocated(g)
  {
    hide Len;
  }

  /** The block behind h is not free. */
  lemma KeepNext(g: Heap, h: nat, size: nat)
    requires Freeing(g, h, size, Unmerged)
    requires HeapFits(g.owner) ==> !(h + Len(g.tiles[h]) in g.tiles && g.tiles[h + Len(g.tiles[h])].free)
    ensures Freeing(g, h, size, NextMerged)
  {
    hide Indexed, FlOk, SumsOk, Coupled, Len, TileOk, FillsSects, FreeCells, FlIndex, SumAll, Listed, Tiled,
      NeighboursAround, NoFreeNeighbours;
    if HeapFits(g.owner) { NoSuccessor(g.owner, g.tiles, h); }
  }

  lemma JoinPrev(g: Heap, h: nat, size: nat, p: nat, k: nat)
    requires Freeing(g, h, size, NextMerged)
    requires p in g.tiles && g.tiles[p].free && p + Len(g.tiles[p]) == h
    requires FlIndex(Len(g.tiles[p])) < |g.fl.lists| && k < |g.fl.lists[FlIndex(Len(g.tiles[p]))]|
    requires g.fl.lists[FlIndex(Len(g.tiles[p]))][k] == p
    ensures p < h && |g.fl.lists| == |g.fl.heads| == |g.fl.bytes|
    ensures g.tiles[p].sz <= g.fl.bytes[FlIndex(Len(g.tiles[p]))]
    ensures var g' := JoinedHeap(g, p, h, Removed(g.fl, FlIndex(Len(g.tiles[p])), k, g.tiles[p].sz));
      Freeing(g', p, size, Merged) && Allocated(g') == Allocated(g) && Free(g') == Free(g)
  {
    hide Tiled, Indexed, FlOk, SumsOk, Coupled, NoFreeNeighbours, NeighboursAround, Len, TileOk, FillsSects, HeapFits,
      FreeCells, FlIndex, SumAll, FreeTile, Reown, Removed, Listed;
    TileStart(g.owner, g.tiles, p);
    JoinTiled(g.owner, g.tiles, p, h);
    JoinIndexed(g.owner, g.tiles, g.jump, p, h);
    JoinFreeCells(g.owner, g.tiles, p, h);
    JoinLists(g.tiles, g.fl, p, h, p, h, k);
    ReownKeepsFill(g.owner, g.sects, h, h + Len(g.tiles[h]), p);
    JoinedSize(g.owner, g.tiles, p, h);
    if HeapFits(g.owner) { JoinPredecessor(g.owner, g.tiles, p, h); }
    JoinedAllocated(g, p, h, Removed(g.fl, FlIndex(Len(g.tiles[p])), k, g.tiles[p].sz));
  }

  lemma KeepPrev(g: Heap, h: nat, size: nat)
    requires Freeing(g, h, size, NextMerged)
    requires HeapFits(g.owner) ==> forall p :: p in g.tiles && g.tiles[p].free ==> p + Len(g.tiles[p]) != h
    ensures Freeing(g, h, size, Merged)
  {
    hide Indexed, FlOk, SumsOk, Coupled, Len, TileOk, FillsSects, FreeCells, FlIndex, SumAll, Listed, Tiled,
      NeighboursAround, NoFreeNeighbours;
    if HeapFits(g.owner) { NoPredecessor(g.owner, g.tiles, h); }
  }

  /** The joined block goes onto the list for its size. */
  lemma EndFree(g: Heap, h: nat, size: nat)
    requires Freeing(g, h, size, Merged)
    ensures |g.fl.lists| == |g.fl.heads| == |g.fl.bytes| == N_HBLK_FLS + 1
    ensures var g' := g.(fl := Added(g.fl, FlIndex(Len(g.tiles[h])), h, g.tiles[h].sz), largeFree := g.largeFree + size);
      Sound(g', 0) && Allocated(g') == Allocated(g) && Free(g') == Free(g)
  {
    hide Tiled, Indexed, FlOk, SumsOk, Coupled, NoFreeNeighbours, Len, TileOk, FillsSects, HeapFits,
      FreeCells, FlIndex, SumAll, Listed, Added;
    ListsCount(g.fl);
    TileStart(g.owner, g.tiles, h);
    FlIndexBound(Len(g.tiles[h]));
    AddedOk(g.tiles, g.fl, FlIndex(Len(g.tiles[h])), h);
    AddedCoupled(g.tiles, g.fl, {h}, h, g.tiles[h].sz);
    assert {h} - {h} == {};
    AddedBytes(g.fl, FlIndex(Len(g.tiles[h])), h, g.tiles[h].sz);
  }

  lemma AddedBytes(f: Fl, i: nat, h: nat, sz: nat)
    requires i < |f.lists| == |f.heads| == |f.bytes|
    ensures SumAll(Added(f, i, h, sz).bytes) == SumAll(f.bytes) + sz
  {
    SumAllUpdate(f.bytes, i, f.bytes[i] + sz);
  }

  /** One step of the walk back along forwarding counts stays inside the block. */
  lemma JumpBack(owner: map<nat, nat>, tiles: map<nat, Tile>, jump: map<nat, nat>, x: nat)
    requires Tiled(owner, tiles) && Indexed(owner, tiles, jump, 0) && x in jump
    ensures x in owner && 0 < jump[x] && owner[x] <= x - jump[x]
    ensures x - jump[x] in owner && owner[x - jump[x]] == owner[x]
    ensures x !in tiles && owner[x] in tiles && !tiles[owner[x]].free
  {
    OwnerOf(owner, tiles, x);
    var h := owner[x];
    TileStart(owner, tiles, h);
    assert Owns(owner, h, x) && SlotOk(tiles, jump, h, x);
    assert Covers(tiles, h, x - jump[x]) ==> Owns(owner, h, x - jump[x]);
    NoHeaderInside(owner, tiles, h, x);
  }

  /** A slot without header or count is inside a free block, or outside the heap. */
  lemma NilSlot(owner: map<nat, nat>, tiles: map<nat, Tile>, jump: map<nat, nat>, x: nat)
    requires Tiled(owner, tiles) && Indexed(owner, tiles, jump, 0) && x !in jump && x !in tiles
    ensures x in owner ==> owner[x] in tiles && tiles[owner[x]].free && owner[x] == PrevStart(tiles, x)
    ensures var p := PrevStart(tiles, x); p != 0 && p + Len(tiles[p]) > x ==> x in owner && owner[x] == p
  {
    if x in owner {
      OwnerOf(owner, tiles, x);
      var h := owner[x];
      TileStart(owner, tiles, h);
      assert Owns(owner, h, x) && SlotOk(tiles, jump, h, x);
      var p: nat := PrevStart(tiles, x);
      if p != h { NoHeaderInside(owner, tiles, h, p); }
    }
    var p: nat := PrevStart(tiles, x);
    if p != 0 && p + Len(tiles[p]) > x { assert Covers(tiles, p, x) ==> Owns(owner, p, x); }
  }

  /** The block that memory block h - 1 belongs to is the one that ends at block start h. */
  lemma EndsAt(owner: map<nat, nat>, tiles: map<nat, Tile>, h: nat, p: nat)
    requires Tiled(owner, tiles) && h in tiles && 0 < h
    ensures p in tiles && h - 1 in owner && owner[h - 1] == p ==> p + Len(tiles[p]) == h
    ensures p in tiles && p + Len(tiles[p]) == h ==> h - 1 in owner && owner[h - 1] == p
  {
    TileStart(owner, tiles, h);
    if p in tiles {
      TileStart(owner, tiles, p);
      var x: nat := h - 1;
      assert Covers(tiles, p, x) <==> Owns(owner, p, x);
      if h < p + Len(tiles[p]) && p < h { NoHeaderInside(owner, tiles, p, h); }
    }
  }

  lemma WholeBlocks(p: nat, sz: nat, h: nat)
    requires p * HBLKSIZE + sz == h * HBLKSIZE
    ensures Blocks(sz) == h - p
  {
  }

  lemma SameEnd(owner: map<nat, nat>, tiles: map<nat, Tile>, q: nat, p: nat, h: nat)
    requires Tiled(owner, tiles) && q in tiles && p in tiles && q + Len(tiles[q]) == h && p + Len(tiles[p]) == h
    ensures q == p
  {
    OnePredecessor(owner, tiles, q, p, h);
  }

  lemma LenOfTile(p: nat, t: Tile, n: nat)
    requires Blocks(t.sz) == n && TileOk(p, t)
    ensures Len(t) == n
  {
  }

  lemma OwnedIsFound(owner: map<nat, nat>, tiles: map<nat, Tile>, jump: map<nat, nat>, p: nat)
    requires Tiled(owner, tiles) && Indexed(owner, tiles, jump, 0)
    requires p in owner && p !in jump && p !in tiles
    ensures owner[p] in tiles && tiles[owner[p]].free
  {
    NilSlot(owner, tiles, jump, p);
  }

  lemma FreeBytes(owner: map<nat, nat>, tiles: map<nat, Tile>, q: nat, h: nat)
    requires Tiled(owner, tiles) && q in tiles && tiles[q].free && q + Len(tiles[q]) == h
    ensures q * HBLKSIZE + tiles[q].sz == h * HBLKSIZE
  {
    TileStart(owner, tiles, q);
    FreeSizeRounded(q, tiles[q]);
    FreeLen(tiles[q]);
  }

  lemma FreeableParts(g: Heap, h: nat)
    requires Freeable(g, h)
    ensures h in g.tiles && !g.tiles[h].free && Len(g.tiles[h]) == Blocks(g.tiles[h].sz)
    ensures (forall x :: h < x < h + Len(g.tiles[h]) ==> x in g.jump) || (forall x :: h < x < h + Len(g.tiles[h]) ==> x !in g.jump)
    ensures forall x :: h < x < h + Len(g.tiles[h]) ==> x !in g.tiles
  {
    forall x | h < x < h + Len(g.tiles[h]) ensures x !in g.tiles { NoHeaderInside(g.owner, g.tiles, h, x); }
  }

  lemma FreeingParts(g: Heap, h: nat, size: nat, stage: Stage)
    requires Freeing(g, h, size, stage)
    ensures Tiled(g.owner, g.tiles) && Indexed(g.owner, g.tiles, g.jump, 0)
    ensures FlOk(g.fl) && SumsOk(g.tiles, g.fl) && Coupled(g.tiles, g.fl, {h})
    ensures h in g.tiles && g.tiles[h].free && 0 < Len(g.tiles[h])
    ensures |g.fl.lists| == N_HBLK_FLS + 1
  {
    TileStart(g.owner, g.tiles, h);
  }

  lemma FreeIndex(t: Tile)
    requires t.free
    ensures FlIndex(t.sz / HBLKSIZE) == FlIndex(Len(t))
  {
  }

  lemma JoinedTile(owner: map<nat, nat>, tiles: map<nat, Tile>, h: nat, m: nat)
    requires Tiled(owner, tiles) && h in tiles && m in tiles && h != m && tiles[h].free && tiles[m].free
    ensures FreeTile(Len(tiles[h]) + Len(tiles[m])) == Tile(tiles[h].sz + tiles[m].sz, true, PtrFree)
  {
    TileStart(owner, tiles, h);
    TileStart(owner, tiles, m);
    FreeLen(tiles[h]);
    FreeLen(tiles[m]);
  }

  lemma JoinKeys(g: Heap, h: nat, m: nat, f': Fl)
    requires h in g.tiles && m in g.tiles && h != m
    ensures JoinedHeap(g, h, m, f').owner.Keys == g.owner.Keys
    ensures JoinedHeap(g, h, m, f').largeFree == g.largeFree
    ensures m !in JoinedHeap(g, h, m, f').tiles && h in JoinedHeap(g, h, m, f').tiles
    ensures forall x :: x != h && x != m ==> (x in JoinedHeap(g, h, m, f').tiles <==> x in g.tiles)
    ensures forall x :: x != h && x != m && x in g.tiles ==> JoinedHeap(g, h, m, f').tiles[x] == g.tiles[x]
  {
  }

  /** Blocks are joined only if the sum of their sizes does not overflow. */
  lemma JoinFits(g: Heap, h: nat, m: nat, f': Fl)
    requires Tiled(g.owner, g.tiles) && h in g.tiles && m in g.tiles && h != m && g.tiles[h].free && g.tiles[m].free
    requires g.tiles[h].sz + g.tiles[m].sz < SIGNB
    ensures NewFits(g.tiles, JoinedHeap(g, h, m, f').tiles)
  {
    hide Len, FreeTile, Reown;
    JoinedTile(g.owner, g.tiles, h, m);
  }

  lemma SameFits(tiles: map<nat, Tile>)
    ensures NewFits(tiles, tiles)
  {
  }

  /** Coalescing with the successor does not change what ends before h. */
  lemma PrevStays(owner: map<nat, nat>, tiles: map<nat, Tile>, tiles': map<nat, Tile>, h: nat, nxt: nat, prv: nat)
    requires Tiled(owner, tiles) && h in tiles && nxt == h + Len(tiles[h])
    requires forall x :: x != h && x != nxt ==> (x in tiles' <==> x in tiles) && (x in tiles' ==> tiles'[x] == tiles[x])
    requires nxt in tiles' ==> nxt in tiles && tiles'[nxt] == tiles[nxt]
    requires h in tiles' && 0 < Len(tiles'[h])
    requires prv != 0 ==> prv in tiles && tiles[prv].free && prv + Len(tiles[prv]) == h
    requires prv == 0 ==> forall q :: q in tiles && tiles[q].free ==> q + Len(tiles[q]) != h
    ensures prv != 0 ==> prv in tiles' && tiles'[prv].free && prv + Len(tiles'[prv]) == h
    ensures prv == 0 ==> forall q :: q in tiles' && tiles'[q].free ==> q + Len(tiles'[q]) != h
  {
    hide Len, Tiled;
    TileStart(owner, tiles, h);
    if prv != 0 { TileStart(owner, tiles, prv); }
  }
}
