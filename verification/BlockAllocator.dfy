/** The heap block allocator: headers, index slots and free lists, changed in place. */
module BlockAllocator {
  import opened Basics
  import opened HeapTiles
  import opened FreeLists
  import opened TileSteps
  import opened FreeListSteps
  import opened HeapInv
  import opened TakeSteps
  import opened HeapSteps
  import opened FreeSteps
  import opened GrowSteps
  import opened BlockSearch
  import opened SearchSteps

  class HeapBlocks {
    var tiles: map<nat, Tile>     // headers reachable through the index: hb_sz, FREE_BLK, hb_obj_kind
    var jump: map<nat, nat>       // index slots that hold a forwarding count
    var next: map<nat, nat>       // hb_next and hb_prev, 0 for NULL
    var prev: map<nat, nat>
    const heads: array<nat>       // GC_hblkfreelist
    const freeBytes: array<nat>   // GC_free_bytes
    var largeFree: int            // GC_large_free_bytes
    var heapBytes: nat            // GC_heapsize
    var sects: seq<(nat, nat)>    // GC_heap_sects
    var dropped: nat              // GC_bytes_dropped
    var dropCount: nat            // completely black-listed blocks met so far
    var spacing: nat              // GC_black_list_spacing, that is BL_LIMIT
    var findLeak: bool            // GC_find_leak
    ghost var owner: map<nat, nat>
    ghost var lists: seq<seq<nat>>

    ghost predicate Shape() {
      heads.Length == N_HBLK_FLS + 1 && freeBytes.Length == N_HBLK_FLS + 1 && heads != freeBytes
    }

    ghost function F(): Fl
      reads this, heads, freeBytes
    {
      Fl(next, prev, heads[..], freeBytes[..], lists)
    }

    ghost function H(): Heap
      reads this, heads, freeBytes
    {
      Heap(owner, tiles, jump, F(), largeFree, heapBytes, sects)
    }

    constructor ()
      ensures Shape() && Sound(H(), 0) && Allocated(H()) == map[] && Free(H()) == {} && largeFree == dropped == 0
      ensures heapBytes == 0 && sects == [] && dropCount == 0 && spacing == MINHINCR * HBLKSIZE && !findLeak
    {
      tiles, jump, next, prev := map[], map[], map[], map[];
      heads := new nat[N_HBLK_FLS + 1](_ => 0);
      freeBytes := new nat[N_HBLK_FLS + 1](_ => 0);
      largeFree, heapBytes, sects, dropped, dropCount, spacing, findLeak := 0, 0, [], 0, 0, MINHINCR * HBLKSIZE, false;
      owner := map[];
      lists := seq(N_HBLK_FLS + 1, _ => []);
      new;
      EmptySound(H());
    }

    /** GC_remove_from_fl_at. */
    method RemoveFromFlAt(h: nat, index: nat, ghost k: nat)
      requires Shape() && FlOk(F()) && SumsOk(tiles, F())
      requires index <= N_HBLK_FLS && k < |lists[index]| && lists[index][k] == h && h in tiles
      modifies this`next, this`prev, this`lists, heads, freeBytes
      ensures |old(F()).lists| == |old(F()).heads| == |old(F()).bytes| && tiles[h].sz <= old(F()).bytes[index]
      ensures F() == Removed(old(F()), index, k, tiles[h].sz)
    {
      hide FlOk, SumsOk;
      ghost var f := F();
      ListsCount(f);
      SizeFits(tiles, f, index, k);
      LinksOf(f, index, k);
      if prev[h] == 0 {
        heads[index] := next[h];
      } else {
        next := next[prev[h] := next[h]];
      }
      freeBytes[index] := freeBytes[index] - tiles[h].sz;
      if next[h] != 0 {
        prev := prev[next[h] := prev[h]];
      }
      lists := lists[index := Without(lists[index], k)];
    }

    /** GC_add_to_fl: to the front of the list for its size. */
    method AddToFl(h: nat)
      requires Shape() && |lists| == N_HBLK_FLS + 1 && h in tiles && tiles[h].free
      modifies this`next, this`prev, this`lists, heads, freeBytes
      ensures F() == Added(old(F()), FlIndex(Len(tiles[h])), h, tiles[h].sz)
    {
      var index := FlIndex(tiles[h].sz / HBLKSIZE);
      var second := heads[index];
      heads[index] := h;
      freeBytes[index] := freeBytes[index] + tiles[h].sz;
      next := next[h := second];
      prev := prev[h := 0];
      if second != 0 {
        prev := prev[second := h];
      }
      lists := lists[index := [h] + lists[index]];
    }

    /** GC_install_counts. */
    method InstallCounts(h: nat, n: nat)
      modifies this`jump
      ensures CountsSet(old(jump), jump, h, n)
    {
      var x := h + 1;
      while x < h + n
        invariant h < x
        invariant forall y :: if h < y < h + n && y < x then y in jump && jump[y] == Min(y - h, MAX_JUMP)
                              else (y in jump <==> y in old(jump)) && (y in jump ==> jump[y] == old(jump)[y])
      {
        var i := x - h;
        jump := jump[x := if i > MAX_JUMP then MAX_JUMP else i];
        x := x + 1;
      }
    }

    /** GC_remove_counts; nothing is done if the first interior slot is nil. */
    method RemoveCounts(h: nat, n: nat)
      requires forall x :: h < x < h + n ==> x !in tiles
      requires (forall x :: h < x < h + n ==> x in jump) || (forall x :: h < x < h + n ==> x !in jump)
      modifies this`jump
      ensures CountsCleared(old(jump), jump, h, n)
    {
      if n <= 1 { return; }
      if h + 1 !in tiles && h + 1 !in jump { return; }
      var x := h + 1;
      while x < h + n
        invariant h < x
        invariant forall y :: if h < y < h + n && y < x then y !in jump
                              else (y in jump <==> y in old(jump)) && (y in jump ==> jump[y] == old(jump)[y])
      {
        jump := jump - {x};
        x := x + 1;
      }
    }

    /** GC_get_first_part: take block h off its list and return what is behind its first n blocks. */
    method GetFirstPart(h: nat, n: nat, index: nat, ghost k: nat)
      requires Shape() && FlOk(F()) && SumsOk(tiles, F())
      requires index <= N_HBLK_FLS && k < |lists[index]| && lists[index][k] == h && h in tiles
      requires tiles[h].free && tiles[h].sz == HBLKSIZE * Len(tiles[h]) && 0 < n <= Len(tiles[h])
      modifies this`next, this`prev, this`lists, this`tiles, heads, freeBytes
      ensures |old(F()).lists| == |old(F()).heads| == |old(F()).bytes| == N_HBLK_FLS + 1
      ensures SzOf(old(tiles), h) <= old(F()).bytes[index]
      ensures F() == TakenLists(old(tiles), old(F()), index, k, n)
      ensures tiles == if n < Len(old(tiles)[h]) then old(tiles)[h + n := FreeTile(Len(old(tiles)[h]) - n)] else old(tiles)
    {
      hide FlOk, SumsOk, Removed, Added;
      var total := tiles[h].sz;
      ListsCount(F());
      SizeFits(tiles, F(), index, k);
      RemovedLists(F(), index, k, tiles[h].sz);
      RemoveFromFlAt(h, index, k);
      if total == HBLKSIZE * n { return; }
      var rest := h + n;
      tiles := tiles[rest := Tile(total - HBLKSIZE * n, true, PtrFree)];
      assert tiles[rest] == FreeTile(Len(old(tiles)[h]) - n);
      AddToFl(rest);
    }

    /** The tail of GC_allochblk_nth: allocate the first n blocks of h, the k-th block of list index,
        for objects of sz bytes. */
    method TakeBlock(h: nat, n: nat, sz: nat, kind: Kind, index: nat, ghost k: nat, ghost e: nat)
      requires Shape() && Sound(H(), e) && (e == 0 || e == h)
      requires index <= N_HBLK_FLS && k < |lists[index]| && lists[index][k] == h && h in tiles && tiles[h].free
      requires 0 < sz && n == Blocks(sz) && n <= Len(tiles[h])
      modifies this`next, this`prev, this`lists, this`tiles, this`jump, this`largeFree, this`owner, heads, freeBytes
      ensures Sound(H(), 0)
      ensures Allocated(H()) == Allocated(old(H()))[h := Tile(sz, false, kind)]
      ensures Free(H()) == Free(old(H())) - CellsOf(owner, h) && CellsOf(owner, h) <= Free(old(H()))
      ensures largeFree == old(largeFree) - HBLKSIZE * n && owner.Keys == old(owner.Keys)
    {
      hide Sound, Len, FlOk, SumsOk, Removed, Added, Taken, TakenLists, Tiled, CountsSet, FreeTile, Reown;
      ghost var g := H();
      ghost var t := Tile(sz, false, kind);
      SoundParts(g, e, h);
      AllocLen(h, t);
      GetFirstPart(h, n, index, k);
      InstallCounts(h, n);
      tiles := tiles[h := Tile(sz, false, kind)];
      largeFree := largeFree - HBLKSIZE * n;
      TakeKeepsSound(g, jump, e, index, k, n, t);
      TakenSplit(g.tiles, h, n, t);
      ReownKeys(g.owner, h + n, h + Len(g.tiles[h]), h + n);
      owner := Reown(g.owner, h + n, h + Len(g.tiles[h]), h + n);
      assert H() == TakenHeap(g, jump, index, k, n, t);
    }

    /** The first half of GC_split_block: m takes the place of h, the k-th block of list index. */
    method ReplaceOnList(h: nat, m: nat, size: nat, index: nat, ghost k: nat)
      requires Shape() && FlOk(F()) && index <= N_HBLK_FLS && k < |lists[index]| && lists[index][k] == h
      requires size <= freeBytes[index] && m != h
      modifies this`next, this`prev, this`lists, heads, freeBytes
      ensures |old(F()).lists| == |old(F()).heads| == |old(F()).bytes| == N_HBLK_FLS + 1
      ensures F() == Replaced(old(F()), index, k, m, size)
    {
      hide FlOk;
      ListsCount(F());
      LinksOf(F(), index, k);
      var p, a := prev[h], next[h];
      prev := prev[m := p];
      next := next[m := a];
      if p != 0 { next := next[p := m]; } else { heads[index] := m; }
      if a != 0 { prev := prev[a := m]; }
      freeBytes[index] := freeBytes[index] - size;
      ghost var s: seq<nat> := lists[index][k := m];
      lists := lists[index := s];
    }

    /** GC_split_block: free block h, the k-th of list index, is cut in two at m; m takes its place
        on that list, even if the list is not right for its size. */
    method SplitBlock(h: nat, m: nat, index: nat, ghost k: nat)
      requires Shape() && Sound(H(), 0)
      requires index <= N_HBLK_FLS && k < |lists[index]| && lists[index][k] == h && h in tiles && tiles[h].free
      requires h < m < h + Len(tiles[h])
      modifies this`next, this`prev, this`lists, this`tiles, this`owner, heads, freeBytes
      ensures Sound(H(), m) && |lists| == N_HBLK_FLS + 1 && m in lists[index] && m in tiles && tiles[m].free
      ensures Len(tiles[m]) == h + Len(old(tiles)[h]) - m
      ensures Allocated(H()) == Allocated(old(H())) && Free(H()) == Free(old(H())) && owner.Keys == old(owner.Keys)
    {
      hide Sound, FlOk, SumsOk, Added, Tiled, Reown, FreeTile, Len, Allocated, Free, Replaced, FlIndex;
      ghost var g := H();
      SoundParts(g, 0, h);
      SplitKeepsSound(g, index, k, m);
      ghost var end := h + Len(tiles[h]);
      SplitSizes(h, m, end);
      var size := HBLKSIZE * (m - h);
      ReplaceOnList(h, m, size, index, k);
      tiles := tiles[m := Tile(tiles[h].sz - size, true, PtrFree)];
      tiles := tiles[h := Tile(size, true, PtrFree)];
      ReplacedCount(g.fl, index, k, m, size);
      FlIndexBound(Len(tiles[h]));
      AddedCount(F(), FlIndex(Len(tiles[h])), h, tiles[h].sz);
      AddToFl(h);
      ReownKeys(g.owner, m, end, m);
      owner := Reown(owner, m, end, m);
      assert tiles == g.tiles[h := FreeTile(m - h)][m := FreeTile(end - m)];
      assert H() == SplitHeap(g, index, k, m);
    }

    /** get_block_ending_at: the block that ends where block h starts, 0 if there is none. */
    method GetBlockEndingAt(h: nat) returns (p: nat)
      requires Tiled(owner, tiles) && Indexed(owner, tiles, jump, 0) && h in tiles
      ensures p != 0 ==> p in tiles && p + Len(tiles[p]) == h
      ensures p == 0 ==> forall q :: q in tiles ==> q + Len(tiles[q]) != h
    {
      hide Tiled, Indexed, Len, Blocks;
      TileStart(owner, tiles, h);
      TilesNonZero(owner, tiles);
      p := h - 1;
      while p in jump
        invariant p < h
        invariant p == h - 1 || (h - 1 in owner && p in owner && owner[p] == owner[h - 1] && owner[p] in tiles && !tiles[owner[p]].free)
        decreases p
      {
        JumpBack(owner, tiles, jump, p);
        p := p - jump[p];
      }
      if p in tiles {
        TileStart(owner, tiles, p);
        forall q | q in tiles ensures (q + Len(tiles[q]) == h) <==> q == p { EndsAt(owner, tiles, h, q); EndsAt(owner, tiles, h, p); }
        return;
      }
      assert p == h - 1 by { if p in owner { OwnedIsFound(owner, tiles, jump, p); } }
      NilSlot(owner, tiles, jump, p);
      forall q | q in tiles && q + Len(tiles[q]) == h
        ensures q == PrevStart(tiles, h - 1) && q * HBLKSIZE + tiles[q].sz == h * HBLKSIZE
      {
        EndsAt(owner, tiles, h, q);
        FreeBytes(owner, tiles, q, h);
      }
      p := PrevStart(tiles, h - 1);
      if p != 0 && p * HBLKSIZE + tiles[p].sz == h * HBLKSIZE {
        WholeBlocks(p, tiles[p].sz, h);
        TileStart(owner, tiles, p);
        LenOfTile(p, tiles[p], h - p);
        return;
      }
      p := 0;
    }

    /** GC_free_block_ending_at. */
    method FreeBlockEndingAt(h: nat) returns (p: nat)
      requires Tiled(owner, tiles) && Indexed(owner, tiles, jump, 0) && h in tiles
      ensures p != 0 ==> p in tiles && tiles[p].free && p + Len(tiles[p]) == h
      ensures p == 0 ==> forall q :: q in tiles && tiles[q].free ==> q + Len(tiles[q]) != h
    {
      hide Tiled, Indexed, Len;
      p := GetBlockEndingAt(h);
      if p != 0 && !tiles[p].free {
        forall q | q in tiles && q + Len(tiles[q]) == h ensures q == p {
          SameEnd(owner, tiles, q, p, h);
        }
        p := 0;
      }
    }

    /** GC_remove_from_fl for the neighbour `other` of the block being freed, joined as h .. m. */
    method Merge(h: nat, m: nat, other: nat, ghost keep: nat, ghost k: nat)
      requires Shape() && FlOk(F()) && SumsOk(tiles, F())
      requires h in tiles && m in tiles && h != m && tiles[h].free && tiles[m].free && other in tiles
      requires Tiled(owner, tiles)
      requires FlIndex(Len(tiles[other])) <= N_HBLK_FLS && FlIndex(Len(tiles[other])) < |lists|
      requires k < |lists[FlIndex(Len(tiles[other]))]| && lists[FlIndex(Len(tiles[other]))][k] == other
      requires tiles[other].free
      modifies this`next, this`prev, this`lists, this`tiles, this`owner, heads, freeBytes
      ensures |old(F()).lists| == |old(F()).heads| == |old(F()).bytes|
      ensures old(tiles)[other].sz <= old(F()).bytes[FlIndex(Len(old(tiles)[other]))]
      ensures H() == JoinedHeap(old(H()), h, m, Removed(old(F()), FlIndex(Len(old(tiles)[other])), k, old(tiles)[other].sz))
    {
      hide FlOk, SumsOk, Tiled, Removed, Len, FreeTile, Reown, FlIndex;
      ghost var g := H();
      FreeIndex(tiles[other]);
      RemoveFromFlAt(other, FlIndex(tiles[other].sz / HBLKSIZE), k);
      JoinedTile(owner, tiles, h, m);
      tiles := tiles[h := Tile(tiles[h].sz + tiles[m].sz, true, PtrFree)];
      tiles := tiles - {m};    // GC_remove_header
      owner := Reown(owner, m, m + Len(g.tiles[m]), h);
      assert tiles == Joined(g.tiles, h, m);
    }

    /** GC_freehblk coalesces with the successor, if possible. */
    method CoalesceNext(h: nat, nxt: nat, ghost prv: nat, ghost size: nat)
      requires Shape() && Freeing(H(), h, size, Unmerged) && h in tiles && nxt == h + Len(tiles[h])
      requires prv != 0 ==> prv in tiles && tiles[prv].free && prv + Len(tiles[prv]) == h
      requires prv == 0 ==> forall q :: q in tiles && tiles[q].free ==> q + Len(tiles[q]) != h
      modifies this`next, this`prev, this`lists, this`tiles, this`owner, heads, freeBytes
      ensures Freeing(H(), h, size, NextMerged) && h in tiles
      ensures NewFits(old(tiles), tiles)
      ensures Allocated(H()) == Allocated(old(H())) && Free(H()) == Free(old(H())) && owner.Keys == old(owner.Keys)
      ensures prv != 0 ==> prv in tiles && tiles[prv].free && prv + Len(tiles[prv]) == h
      ensures prv == 0 ==> forall q :: q in tiles && tiles[q].free ==> q + Len(tiles[q]) != h
    {
      hide Freeing, Tiled, Indexed, FlOk, SumsOk, Coupled, Len, FreeTile, Removed, FlIndex, Reown, Allocated, Free, HeapFits,
        JoinedHeap;
      FreeingParts(H(), h, size, Unmerged);
      ghost var g := H();
      if nxt in tiles && tiles[nxt].free && tiles[h].sz + tiles[nxt].sz < SIGNB {
        ghost var k := FindListed(tiles, F(), {h}, nxt);
        JoinNext(H(), h, nxt, size, k);
        JoinKeys(H(), h, nxt, Removed(F(), FlIndex(Len(tiles[nxt])), k, tiles[nxt].sz));
        JoinFits(H(), h, nxt, Removed(F(), FlIndex(Len(tiles[nxt])), k, tiles[nxt].sz));
        Merge(h, nxt, nxt, h, k);
        FreeingParts(H(), h, size, NextMerged);
        PrevStays(g.owner, g.tiles, tiles, h, nxt, prv);
      } else {
        if nxt in tiles && tiles[nxt].free && HeapFits(owner) { LowSizes(owner, tiles, h, nxt); }
        KeepNext(H(), h, size);
        SameFits(tiles);
      }
    }

    /** .. and with the predecessor, if possible; the joined block is returned. */
    method CoalescePrev(h: nat, prv: nat, ghost size: nat) returns (block: nat)
      requires Shape() && Freeing(H(), h, size, NextMerged) && h in tiles
      requires prv != 0 ==> prv in tiles && tiles[prv].free && prv + Len(tiles[prv]) == h
      requires prv == 0 ==> forall q :: q in tiles && tiles[q].free ==> q + Len(tiles[q]) != h
      modifies this`next, this`prev, this`lists, this`tiles, this`owner, heads, freeBytes
      ensures Freeing(H(), block, size, Merged) && NewFits(old(tiles), tiles)
      ensures Allocated(H()) == Allocated(old(H())) && Free(H()) == Free(old(H())) && owner.Keys == old(owner.Keys)
    {
      hide Freeing, Tiled, Indexed, FlOk, SumsOk, Coupled, Len, FreeTile, Removed, FlIndex, Reown, Allocated, Free, HeapFits,
        JoinedHeap;
      FreeingParts(H(), h, size, NextMerged);
      block := h;
      if prv != 0 && tiles[h].sz + tiles[prv].sz < SIGNB {
        ghost var k := FindListed(tiles, F(), {h}, prv);
        JoinPrev(H(), h, size, prv, k);
        JoinKeys(H(), prv, h, Removed(F(), FlIndex(Len(tiles[prv])), k, tiles[prv].sz));
        JoinFits(H(), prv, h, Removed(F(), FlIndex(Len(tiles[prv])), k, tiles[prv].sz));
        Merge(prv, h, prv, h, k);
        block := prv;
      } else {
        if prv != 0 && HeapFits(owner) { LowSizes(owner, tiles, prv, h); }
        KeepPrev(H(), h, size);
        SameFits(tiles);
      }
    }

    /** The first part of GC_freehblk: the header of h says it is free; what ends before h is found. */
    method BeginFreeing(h: nat, n: nat) returns (prv: nat)
      requires Shape() && Freeable(H(), h) && h in tiles && n == Blocks(tiles[h].sz)
      modifies this`tiles, this`jump
      ensures Freeing(H(), h, HBLKSIZE * n, Unmerged) && h in tiles && h + Len(tiles[h]) == h + n
      ensures Allocated(H()) == Allocated(old(H())) - {h}
      ensures Free(H()) == Free(old(H())) + CellsOf(owner, h) && CellsOf(owner, h) !! Free(old(H()))
      ensures prv != 0 ==> prv in tiles && tiles[prv].free && prv + Len(tiles[prv]) == h
      ensures prv == 0 ==> forall q :: q in tiles && tiles[q].free ==> q + Len(tiles[q]) != h
      ensures HBLKSIZE * n < SIGNB ==> NewFits(old(tiles), tiles)
    {
      hide Freeable, Freeing, Tiled, Indexed, FlOk, SumsOk, Coupled, Len, TileOk, FreeTile, Allocated, Free, CellsOf, CountsCleared;
      FreeableParts(H(), h);
      ghost var g := H();
      RemoveCounts(h, n);
      BeginFree(g, jump, h);
      FreeTileIs(n);
      FreeTileLen(h, n);
      tiles := tiles[h := Tile(HBLKSIZE * n, true, PtrFree)];
      FreeingParts(H(), h, HBLKSIZE * n, Unmerged);
      prv := FreeBlockEndingAt(h);
    }

    /** GC_freehblk; FALSE stands for ABORT, on a block freed twice or larger than half the address
        space. */
    method Freehblk(block: nat) returns (ok: bool)
      requires Shape() && block in tiles && (tiles[block].free || Freeable(H(), block))
      modifies this`next, this`prev, this`lists, this`tiles, this`jump, this`largeFree, this`owner, heads, freeBytes
      ensures ok <==> !old(tiles)[block].free && HBLKSIZE * Blocks(old(tiles)[block].sz) < SIGNB
      ensures ok ==> Sound(H(), 0)
      ensures ok ==> Allocated(H()) == Allocated(old(H())) - {block}
      ensures ok ==> Free(H()) == Free(old(H())) + CellsOf(old(owner), block) && CellsOf(old(owner), block) !! Free(old(H()))
      ensures ok ==> largeFree == old(largeFree) + HBLKSIZE * Blocks(old(tiles)[block].sz)
      ensures ok ==> owner.Keys == old(owner.Keys)
      ensures ok ==> NewFits(old(tiles), tiles)
    {
      hide Freeable, Freeing, Tiled, Indexed, FlOk, SumsOk, Coupled, Len, TileOk, FreeTile, Added, Removed, FlIndex, Reown,
        Allocated, Free, HeapFits, Sound, JoinedHeap, CellsOf, CountsCleared, Blocks, NoFreeNeighbours, PrevStart, FreeCells;
      var h := block;
      var n := Blocks(tiles[h].sz);
      var size := HBLKSIZE * n;
      if size >= SIGNB || tiles[h].free { return false; }
      var prv := BeginFreeing(h, n);
      CoalesceNext(h, h + n, prv, size);
      h := CoalescePrev(h, prv, size);
      FreeingParts(H(), h, size, Merged);
      EndFree(H(), h, size);
      largeFree := largeFree + size;
      AddToFl(h);
      ok := true;
    }

    /** GC_allochblk_nth gives up free block h, the k-th of list index: it is made to look like
        allocated pointer-free blocks of one memory block each. */
    method DropBlock(ghost bl: (nat, nat) -> nat, h: nat, index: nat, ghost k: nat)
      requires Shape() && Sound(H(), 0)
      requires index <= N_HBLK_FLS && k < |lists[index]| && lists[index][k] == h && h in tiles && tiles[h].free
      requires forall x: nat :: h <= x < h + Len(tiles[h]) ==> bl(x, HBLKSIZE) != 0
      modifies this`next, this`prev, this`lists, this`tiles, this`largeFree, this`dropped, this`owner, heads, freeBytes
      ensures Sound(H(), 0) && OnlyDropped(bl, old(H()), H())
      ensures Allocated(H()) == Dropped(Allocated(old(H())), h, Len(old(tiles)[h]))
      ensures Free(H()) == Free(old(H())) - CellsOf(old(owner), h)
      ensures dropped == old(dropped) + old(tiles)[h].sz && largeFree == old(largeFree) - old(tiles)[h].sz
      ensures |lists| == |old(lists)| && index < |lists| && lists[index] == Without(old(lists[index]), k)
    {
      hide Sound, FlOk, SumsOk, Removed, Dropped, DropOwner, Tiled, Len, Allocated, Free, OnlyDropped, CellsOf, FlIndex;
      ghost var g := H();
      ListedBlock(g, index, k);
      SoundParts(g, 0, h);
      SizeFits(tiles, F(), index, k);
      DropIsOnlyDrop(bl, g, index, k);
      RemovedLists(F(), index, k, tiles[h].sz);
      var total := tiles[h].sz;
      largeFree := largeFree - total;
      dropped := dropped + total;
      RemoveFromFlAt(h, index, k);
      MarkDropped(h, total / HBLKSIZE);
      owner := DropOwner(owner, h, total / HBLKSIZE);
      assert H() == DroppedHeap(g, index, k);
    }

    /** GC_install_header and setup_header for each memory block of a block that is dropped. */
    method MarkDropped(h: nat, n: nat)
      modifies this`tiles
      ensures tiles == Dropped(old(tiles), h, n)
    {
      var x := h;
      while x < h + n
        invariant h <= x <= h + n && tiles == Dropped(old(tiles), h, x - h)
      {
        tiles := tiles[x := Tile(HBLKSIZE, false, PtrFree)];
        x := x + 1;
      }
    }

    /** GC_allochblk_nth looks at hbp, the k-th block of free list index. */
    method Examine(bl: (nat, nat) -> nat, q: Request, maySplit: bool, hbp: nat, index: nat, ghost k: nat) returns (v: Verdict)
      requires Shape() && Sound(H(), 0) && BlackListOk(bl) && 0 < q.sz
      requires index <= N_HBLK_FLS && k < |lists[index]| && lists[index][k] == hbp
      ensures hbp in tiles && tiles[hbp].free && tiles[hbp].sz == HBLKSIZE * Len(tiles[hbp])
      ensures v.NextIsBetter? <==>
                && maySplit && tiles[hbp].sz > Need(q) && k + 1 < |lists[index]|
                && Need(q) <= SzOf(tiles, lists[index][k + 1]) < tiles[hbp].sz && bl(lists[index][k + 1], Need(q)) == 0
      ensures v.NextIsBetter? ==> Promised(bl, q, maySplit, tiles, lists[index][k + 1])
      ensures v.Skip? ==> Hopeless(bl, q, maySplit, hbp, tiles[hbp].sz)
      ensures v.Skip? && tiles[hbp].sz >= Need(q) && (maySplit || tiles[hbp].sz == Need(q)) ==>
                Need(q) != HBLKSIZE && !(Need(q) > spacing && tiles[hbp].sz - Need(q) > spacing)
      ensures v.Blocked? ==> Need(q) == HBLKSIZE && Checked(q) && AllListed(bl, q, hbp, tiles[hbp].sz)
      ensures v.Blocked? ==> !(Need(q) > spacing && tiles[hbp].sz - Need(q) > spacing)
      ensures v.Take? ==> hbp <= v.at && v.at + Blocks(q.sz) <= hbp + Len(tiles[hbp])
      ensures v.Take? && !Checked(q) ==> v.at == hbp
      ensures v.Take? && Checked(q) ==> forall x: nat :: hbp <= x < v.at ==> bl(x, Eff(q)) != 0
      ensures v.Take? && !maySplit ==> tiles[hbp].sz == Need(q)
      ensures v.Take? ==> WellPlaced(bl, spacing, q, tiles, v.at)
      ensures v.Take? && v.at + Blocks(q.sz) < hbp + Len(tiles[hbp]) ==> maySplit
      ensures Promised(bl, q, maySplit, tiles, hbp) ==> v.Take? || v.NextIsBetter?
    {
      hide Sound, Len, FlIndex;
      ListedBlock(H(), index, k);
      ListedBlock(H(), index, k + 1);
      var need := Need(q);
      var avail := tiles[hbp].sz;
      if avail < need { return Skip; }
      if avail != need {
        if !maySplit { return Skip; }
        var other := next[hbp];
        if other != 0 {
          var nextSize := tiles[other].sz;
          if nextSize < avail && nextSize >= need && bl(other, need) == 0 { return NextIsBetter; }
        }
      }
      if !Checked(q) { return Take(hbp); }
      var last := hbp;
      while HBLKSIZE * (last - hbp) <= avail - need && bl(last, Eff(q)) != 0
        invariant hbp <= last
        invariant forall x: nat :: hbp <= x < last ==> bl(x, Eff(q)) != 0
        invariant bl(hbp, Eff(q)) == 0 ==> last == hbp
        invariant Need(q) == HBLKSIZE ==> HBLKSIZE * (last - hbp) <= avail
        decreases avail - HBLKSIZE * (last - hbp)
      {
        last := bl(last, Eff(q));
      }
      var left := avail - HBLKSIZE * (last - hbp);
      if left >= need { return Take(last); }
      if need > spacing && avail - need > spacing { return Take(hbp); }
      if left == 0 && need == HBLKSIZE { return Blocked; }
      return Skip;
    }

    /** GC_allochblk_nth allocates at `at` inside hbp, the k-th block of list index. */
    method TakeAt(q: Request, hbp: nat, at: nat, index: nat, ghost k: nat)
      requires Shape() && Sound(H(), 0) && 0 < q.sz
      requires index <= N_HBLK_FLS && k < |lists[index]| && lists[index][k] == hbp && hbp in tiles && tiles[hbp].free
      requires hbp <= at && at + Blocks(q.sz) <= hbp + Len(tiles[hbp])
      modifies this`next, this`prev, this`lists, this`tiles, this`jump, this`largeFree, this`owner, heads, freeBytes
      ensures Sound(H(), 0)
      ensures at !in Allocated(old(H())) && Allocated(H()) == Allocated(old(H()))[at := Tile(q.sz, false, q.kind)]
      ensures Free(H()) == Free(old(H())) - CellsOf(owner, at) && CellsOf(owner, at) <= Free(old(H()))
      ensures largeFree == old(largeFree) - Need(q) && owner.Keys == old(owner.Keys)
    {
      hide Sound, Len, Free, CellsOf, FlIndex;
      AllocLen(hbp + 1, Tile(q.sz, false, q.kind));
      if at != hbp {
        SplitBlock(hbp, at, index, k);
        ghost var j: nat :| j < |lists[index]| && lists[index][j] == at;
        TakeBlock(at, Blocks(q.sz), q.sz, q.kind, index, j, at);
      } else {
        TakeBlock(at, Blocks(q.sz), q.sz, q.kind, index, k, 0);
      }
    }

    /** Every fourth time a block is completely black-listed it is dropped.  The search goes on behind
        the block before it. */
    method DropSome(ghost bl: (nat, nat) -> nat, ghost q: Request, ghost maySplit: bool, hbp: nat, index: nat, ghost k: nat)
      returns (gone: bool, before: nat)
      requires Shape() && Sound(H(), 0)
      requires index <= N_HBLK_FLS && k < |lists[index]| && lists[index][k] == hbp && hbp in tiles && tiles[hbp].free
      requires tiles[hbp].sz == HBLKSIZE * Len(tiles[hbp]) && Need(q) == HBLKSIZE && AllListed(bl, q, hbp, tiles[hbp].sz)
      requires NoneUpTo(bl, q, maySplit, tiles, lists[index], k + 1)
      modifies this`next, this`prev, this`lists, this`tiles, this`largeFree, this`dropped, this`dropCount, this`owner,
        heads, freeBytes
      ensures Sound(H(), 0) && OnlyDropped(bl, old(H()), H()) && |lists| == N_HBLK_FLS + 1
      ensures largeFree + dropped == old(largeFree) + old(dropped)
      ensures gone ==> lists[index] == Without(old(lists[index]), k) && before == Before(old(lists[index]), k)
      ensures NoneUpTo(bl, q, maySplit, tiles, lists[index], if gone then k else k + 1)
      ensures dropCount == old(dropCount) + 1 && (gone <==> dropCount % 4 == 0)
      ensures dropped == old(dropped) + if gone then old(tiles)[hbp].sz else 0
      ensures !gone ==> lists == old(lists) && hbp in next && next[hbp] == After(lists[index], k)
    {
      hide Sound, Len, Free, CellsOf, FlIndex, Allocated, OnlyDropped, Hopeless, AllListed, BlackListOk, Checked, Need, Dropped;
      ghost var g := H();
      ListedBlock(g, index, k);
      Same(bl, g);
      gone, before := false, 0;
      dropCount := dropCount + 1;
      if dropCount % 4 == 0 {
        gone, before := true, prev[hbp];
        DropsAreListed(bl, q, hbp, Len(tiles[hbp]));
        DropBlock(bl, hbp, index, k);
        NoneUpToStays(bl, q, maySplit, g, H(), index, k);
      }
    }

    /** The allocation after some blocks may have been dropped since heap g. */
    method GrantAt(ghost bl: (nat, nat) -> nat, q: Request, ghost g: Heap, hbp: nat, at: nat, index: nat, ghost k: nat)
      requires Shape() && Sound(H(), 0) && 0 < q.sz && OnlyDropped(bl, g, H())
      requires index <= N_HBLK_FLS && k < |lists[index]| && lists[index][k] == hbp && hbp in tiles && tiles[hbp].free
      requires hbp <= at && at + Blocks(q.sz) <= hbp + Len(tiles[hbp]) && WellPlaced(bl, spacing, q, tiles, at)
      modifies this`next, this`prev, this`lists, this`tiles, this`jump, this`largeFree, this`owner, heads, freeBytes
      ensures Sound(H(), 0)
      ensures Granted(bl, g, H(), at, Tile(q.sz, false, q.kind)) && WellPlaced(bl, spacing, q, g.tiles, at)
      ensures largeFree == old(largeFree) - Need(q)
    {
      hide Sound, Len, Free, CellsOf, FlIndex, Allocated, OnlyDropped, Granted, WellPlaced;
      ghost var g1 := H();
      WellPlacedBefore(bl, spacing, q, g, g1, at);
      TakeAt(q, hbp, at, index, k);
      DropThenTake(bl, g, g1, H(), at, Tile(q.sz, false, q.kind));
    }

    /** GC_allochblk_nth does not take hbp: it goes on with the next block, perhaps after dropping hbp.  If
        the first block of the list was dropped the search starts again. */
    method PassBlock(ghost bl: (nat, nat) -> nat, ghost q: Request, ghost maySplit: bool, v: Verdict, hbp: nat, index: nat, ghost k: nat)
      returns (restart: bool, nxt: nat, ghost at: nat)
      requires Shape() && Sound(H(), 0) && !v.Take?
      requires index <= N_HBLK_FLS && k < |lists[index]| && lists[index][k] == hbp && hbp in tiles && tiles[hbp].free
      requires tiles[hbp].sz == HBLKSIZE * Len(tiles[hbp])
      requires v.Blocked? ==> Need(q) == HBLKSIZE && AllListed(bl, q, hbp, tiles[hbp].sz)
      requires if v.NextIsBetter? then k + 1 < |lists[index]| && Promised(bl, q, maySplit, tiles, lists[index][k + 1])
               else NoneUpTo(bl, q, maySplit, tiles, lists[index], k + 1)
      modifies this`next, this`prev, this`lists, this`tiles, this`largeFree, this`dropped, this`dropCount, this`owner,
        heads, freeBytes
      ensures Sound(H(), 0) && OnlyDropped(bl, old(H()), H()) && |lists| == N_HBLK_FLS + 1
      ensures largeFree + dropped == old(largeFree) + old(dropped)
      ensures !v.Blocked? || findLeak ==> H() == old(H()) && dropCount == old(dropCount) && dropped == old(dropped)
      ensures v.Blocked? && !findLeak ==> dropCount == old(dropCount) + 1
      ensures v.Blocked? && !findLeak ==> dropped == old(dropped) + if dropCount % 4 == 0 then old(tiles)[hbp].sz else 0
      ensures restart <==> v.Blocked? && !findLeak && dropCount % 4 == 0 && k == 0
      ensures restart ==> |lists[index]| < old(|lists[index]|)
      ensures |lists[index]| < old(|lists[index]|) || (|lists[index]| == old(|lists[index]|) && at == k + 1)
      ensures !restart ==> at <= |lists[index]| && nxt == (if at < |lists[index]| then lists[index][at] else 0)
      ensures !restart && v.NextIsBetter? ==> nxt != 0 && Promised(bl, q, maySplit, tiles, nxt)
      ensures !restart && !v.NextIsBetter? ==> NoneUpTo(bl, q, maySplit, tiles, lists[index], at)
    {
      hide Sound, Len, Free, CellsOf, FlIndex, Allocated, OnlyDropped, AllListed, Promised, NoneUpTo, Need;
      restart, at := false, k + 1;
      var here := hbp;
      if k > 0 { ListedBlock(H(), index, k - 1); }
      Same(bl, H());
      if v.Blocked? && !findLeak {
        var gone, before := DropSome(bl, q, maySplit, hbp, index, k);
        if gone {
          if before == 0 { return true, 0, 0; }
          here := before;
          at := k;
        }
      }
      ListedBlock(H(), index, at - 1);
      ListedBlock(H(), index, at);
      nxt := next[here];
    }

    /** GC_allochblk_nth: search free list index; 0 if nothing there is good enough.  bl stands for
        GC_is_black_listed with the black lists as they are. */
    method AllochblkNth(bl: (nat, nat) -> nat, q: Request, index: nat, maySplit: bool) returns (r: nat)
      requires Shape() && Sound(H(), 0) && BlackListOk(bl) && 0 < q.sz && index <= N_HBLK_FLS
      modifies this`next, this`prev, this`lists, this`tiles, this`jump, this`largeFree, this`dropped, this`dropCount, this`owner,
        heads, freeBytes
      ensures Sound(H(), 0)
      ensures findLeak || q.sz > HBLKSIZE || q.kind != Normal ==> dropped == old(dropped)
      ensures r != 0 ==> Granted(bl, old(H()), H(), r, Tile(q.sz, false, q.kind)) && WellPlaced(bl, spacing, q, old(tiles), r)
      ensures r != 0 ==> Cut(q, maySplit, old(tiles), index, r)
      ensures r == 0 ==> OnlyDropped(bl, old(H()), H()) && NoneIn(bl, q, maySplit, H(), index)
      ensures largeFree + dropped == old(largeFree) + old(dropped) - if r == 0 then 0 else Need(q)
      decreases |lists[index]|
    {
      hide Sound, Len, Free, CellsOf, FlIndex, Allocated, OnlyDropped, Granted, WellPlaced, Hopeless, AllListed, Promised,
        BlackListOk, NoneUpTo, Checked, Need, Blocks, Cut;
      ghost var g := H();
      ghost var k: nat := 0;
      ghost var promised := false;
      Same(bl, g);
      ListedBlock(g, index, 0);
      NoneYet(bl, q, maySplit, tiles, lists[index]);
      OneBlockOnly(q);
      var hbp := heads[index];
      while hbp != 0
        invariant Shape() && Sound(H(), 0) && OnlyDropped(bl, g, H()) && |lists| == N_HBLK_FLS + 1
        invariant k <= |lists[index]| && hbp == (if k < |lists[index]| then lists[index][k] else 0)
        invariant |lists[index]| <= |old(lists)[index]|
        invariant largeFree + dropped == old(largeFree) + old(dropped)
        invariant findLeak || q.sz > HBLKSIZE || q.kind != Normal ==> dropped == old(dropped)
        invariant promised ==> hbp != 0
        invariant if promised then Promised(bl, q, maySplit, tiles, hbp) else NoneUpTo(bl, q, maySplit, tiles, lists[index], k)
        decreases |lists[index]|, |lists[index]| - k
      {
        ghost var g1 := H();
        var v := Examine(bl, q, maySplit, hbp, index, k);
        if v.Take? {
          CutHere(bl, q, maySplit, g, H(), index, k, v.at);
          GrantAt(bl, q, g, hbp, v.at, index, k);
          return v.at;
        }
        promised := v.NextIsBetter?;
        if v.Blocked? { BlockedIsHopeless(bl, q, maySplit, hbp, tiles[hbp].sz); }
        if !promised { NextStep(bl, q, maySplit, tiles, lists[index], k); }
        var restart, nxt;
        ghost var at;
        restart, nxt, at := PassBlock(bl, q, maySplit, v, hbp, index, k);
        DropAgain(bl, g, g1, H());
        if restart {
          ghost var g2 := H();
          r := AllochblkNth(bl, q, index, maySplit);
          DropThenSearch(bl, spacing, q, g, g2, H(), r);
          if r != 0 { CutBefore(bl, q, maySplit, g, g2, index, r); }
          return;
        }
        hbp, k := nxt, at;
      }
      ListedBlock(H(), index, k);
      return 0;
    }

    /** GC_enough_large_bytes_left: the last list such that it and the later ones hold enough. */
    method EnoughLargeBytesLeft(largeAllocd: nat, maxLarge: nat) returns (n: nat)
      requires Shape()
      ensures n <= N_HBLK_FLS
      ensures n > 0 ==> largeAllocd + SumFrom(freeBytes[..], n) >= maxLarge
      ensures forall m: nat :: n < m <= N_HBLK_FLS ==> largeAllocd + SumFrom(freeBytes[..], m) < maxLarge
    {
      var bytes := largeAllocd;
      n := N_HBLK_FLS + 1;
      while n > 0
        invariant n <= N_HBLK_FLS + 1 && bytes == largeAllocd + SumFrom(freeBytes[..], n)
        invariant forall m: nat :: n <= m <= N_HBLK_FLS ==> largeAllocd + SumFrom(freeBytes[..], m) < maxLarge
      {
        n := n - 1;
        bytes := bytes + freeBytes[n];
        if bytes >= maxLarge { return; }
      }
    }

    /** GC_allochblk: the address of a new heap block for objects of q.sz bytes, 0 if there is none. */
    method Allochblk(bl: (nat, nat) -> nat, q: Request, policy: SplitPolicy, largeAllocd: nat, maxLarge: nat) returns (r: nat)
      requires Shape() && Sound(H(), 0) && BlackListOk(bl) && 0 < q.sz
      modifies this`next, this`prev, this`lists, this`tiles, this`jump, this`largeFree, this`dropped, this`dropCount, this`owner,
        heads, freeBytes
      ensures Sound(H(), 0)
      ensures findLeak || q.sz > HBLKSIZE || q.kind != Normal ==> dropped == old(dropped)
      ensures r != 0 ==> Granted(bl, old(H()), H(), r, Tile(q.sz, false, q.kind)) && WellPlaced(bl, spacing, q, old(tiles), r)
      ensures r == 0 ==> OnlyDropped(bl, old(H()), H())
      ensures r != 0 && (q.kind == Normal || (q.kind == PtrFree && q.sz > 2 * HBLKSIZE)) ==>
                && (bl(r, if q.ignoreOffPage then HBLKSIZE else HBLKSIZE * Blocks(q.sz)) == 0
                    || (HBLKSIZE * Blocks(q.sz) > spacing && old(SzOf(tiles, r)) - HBLKSIZE * Blocks(q.sz) > spacing))
      ensures r != 0 ==> Sourced(bl, q, policy, largeAllocd, maxLarge, old(freeBytes[..]), old(tiles), tiles, r)
      ensures r == 0 && Need(q) < SIGNB ==>
                forall x :: x in tiles && tiles[x].free ==> Hopeless(bl, q, false, x, tiles[x].sz)
      ensures r == 0 && Need(q) < SIGNB ==>
                forall x :: x in tiles && tiles[x].free && MayCut(policy, freeBytes[..], largeAllocd, maxLarge, FlIndex(Len(tiles[x]))) ==>
                  Hopeless(bl, q, true, x, tiles[x].sz)
      ensures r != 0 ==> Need(q) < SIGNB
      ensures largeFree + dropped == old(largeFree) + old(dropped) - if r == 0 then 0 else Need(q)
    {
      hide Sound, Len, Free, CellsOf, FlIndex, Allocated, OnlyDropped, Granted, WellPlaced, Hopeless, AllListed, NoneIn,
        BlackListOk, Checked, Blocks, Searched, Cut, Sourced, MayCut, Limit, SumFrom;
      ghost var g := H();
      Same(bl, g);
      PlacedWell(bl, spacing, q, tiles);
      var blocks := Blocks(q.sz);
      if HBLKSIZE * blocks >= SIGNB { return 0; }
      FlIndexBound(blocks);
      var list := FlIndex(blocks);
      ghost var start := list;
      r := AllochblkNth(bl, q, list, false);
      if r != 0 {
        SourcedAtOnce(bl, q, policy, largeAllocd, maxLarge, g, H(), r);
        return;
      }
      ghost var g0 := H();
      var limit: nat;
      match policy {
        case WholeHeap => limit := N_HBLK_FLS;
        case FinalizerHeavy => limit := 0;
        case KeepLarge => limit := EnoughLargeBytesLeft(largeAllocd, maxLarge);
      }
      LimitIs(policy, freeBytes[..], largeAllocd, maxLarge, limit);
      if list < UNIQUE_THRESHOLD { list := list + 1; }
      ghost var first := FirstToCut(blocks);
      SearchedNone(bl, q, H(), first);
      Same(bl, g0);
      FirstPositive(q);
      while list <= limit
        invariant Shape() && Sound(H(), 0) && OnlyDropped(bl, g, H()) && OnlyDropped(bl, g0, H()) && 0 < first <= list
        invariant largeFree + dropped == old(largeFree) + old(dropped)
        invariant findLeak || q.sz > HBLKSIZE || q.kind != Normal ==> dropped == old(dropped)
        invariant NoneIn(bl, q, false, H(), start) && Searched(bl, q, H(), first, list)
        invariant list <= N_HBLK_FLS + 1
      {
        ghost var g1 := H();
        r := AllochblkNth(bl, q, list, true);
        DropThenSearch(bl, spacing, q, g, g1, H(), r);
        if r != 0 {
          SourcedLate(bl, q, policy, largeAllocd, maxLarge, g, g0, g1, H(), r, Tile(q.sz, false, q.kind), list, limit);
          return;
        }
        DropAgain(bl, g0, g1, H());
        NoneStays(bl, q, false, g1, H(), start);
        SearchedStays(bl, q, g1, H(), first, list);
        SearchedMore(bl, q, H(), first, list);
        list := list + 1;
      }
      SearchedLess(bl, q, H(), first, list, limit + 1);
      AllSearched(bl, q, policy, largeAllocd, maxLarge, g0, H(), limit);
      return 0;
    }

    /** GC_add_to_heap cannot use memory near address 0 nor memory that wraps around: m usable blocks
        from lo remain. */
    static method Clip(p: nat, n: nat) returns (lo: nat, m: nat)
      requires 0 < n < SPACE && p < SPACE
      ensures m == 0 ==> Usable(p, n) == {}
      ensures m > 0 ==> Usable(p, n) == Interval(lo, m) && 2 <= lo
    {
      hide Usable, Interval;
      lo, m := p, n;
      while lo <= 1
        invariant (lo == p || lo <= 2) && lo + m == p + n && 0 < m
        decreases 2 - lo
      {
        lo := lo + 1;
        m := m - 1;
        if m == 0 { UsableNone(p, n); return; }
      }
      var end: nat := if lo + m >= SPACE then lo + m - SPACE else lo + m;
      while end <= lo
        invariant 0 < m && end < SPACE && lo < SPACE && (lo == p || lo <= 2)
        invariant if end <= lo then lo + m == end + SPACE && lo + m <= p + n
                  else lo + m == if p + n < SPACE - 1 then p + n else SPACE - 1
        decreases m
      {
        m := m - 1;
        if m == 0 { UsableNone(p, n); return; }
        end := if end == 0 then SPACE - 1 else end - 1;
      }
      UsableIs(p, n, lo, m);
    }

    /** GC_add_to_heap when the address range is known to be usable. */
    method AddSection(lo: nat, m: nat) returns (ok: bool)
      requires Shape() && Sound(H(), 0) && 0 < m && 0 < lo
      requires forall x :: lo <= x < lo + m ==> x !in owner
      modifies this`next, this`prev, this`lists, this`tiles, this`jump, this`largeFree, this`owner, this`sects, this`heapBytes,
        heads, freeBytes
      ensures ok <==> HBLKSIZE * m < SIGNB
      ensures ok ==> Sound(H(), 0)
      ensures ok ==> Allocated(H()) == Allocated(old(H())) && Free(H()) == Free(old(H())) + Interval(lo, m)
      ensures ok ==> owner.Keys == old(owner.Keys) + Interval(lo, m) && heapBytes == old(heapBytes) + HBLKSIZE * m
    {
      hide Sound, Len, Free, CellsOf, FlIndex, Allocated, Freeable, Interval, Blocks, Tiled;
      ghost var g := H();
      SectionEntered(g, lo, m);
      EnterSection(lo, m);
      ok := Freehblk(lo);
    }

    /** The new section is entered as a block that does not look free. */
    method EnterSection(lo: nat, m: nat)
      modifies this`tiles, this`owner, this`sects, this`heapBytes
      ensures H() == GrownHeap(old(H()), lo, m)
    {
      hide GrowOwner;
      sects := sects + [(lo, m)];
      tiles := tiles[lo := Tile(HBLKSIZE * m, false, PtrFree)];
      heapBytes := heapBytes + HBLKSIZE * m;    // the source does this after GC_freehblk
      owner := GrowOwner(owner, lo, m);
    }

    /** GC_add_to_heap for n blocks of memory at block p; FALSE stands for ABORT. */
    method AddToHeap(p: nat, n: nat) returns (ok: bool)
      requires Shape() && Sound(H(), 0) && 0 < n < SPACE && p < SPACE
      requires forall x :: x in Usable(p, n) ==> x !in owner
      modifies this`next, this`prev, this`lists, this`tiles, this`jump, this`largeFree, this`owner, this`sects, this`heapBytes,
        heads, freeBytes
      ensures ok <==> HBLKSIZE * |Usable(p, n)| < SIGNB
      ensures ok ==> Sound(H(), 0)
      ensures ok ==> Allocated(H()) == Allocated(old(H())) && Free(H()) == Free(old(H())) + Usable(p, n)
      ensures ok ==> owner.Keys == old(owner.Keys) + Usable(p, n)
      ensures ok ==> heapBytes == old(heapBytes) + HBLKSIZE * |Usable(p, n)|
    {
      hide Sound, Free, Allocated, Usable, Interval;
      var lo, m := Clip(p, n);
      if m == 0 { return true; }
      ok := AddSection(lo, m);
    }
  }
}
