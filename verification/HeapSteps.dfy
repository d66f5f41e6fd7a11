/** Each operation of the block allocator, taken as a whole, keeps the invariant. */
module HeapSteps {
  import opened Basics
  import opened HeapTiles
  import opened FreeLists
  import opened TileSteps
  import opened Neighbours
  import opened FreeListSteps
  import opened CouplingSteps
  import opened HeapInv
  import opened TakeSteps

  lemma ReownKeepsFill(owner: map<nat, nat>, sects: seq<(nat, nat)>, lo: nat, hi: nat, o: nat)
    requires FillsSects(owner, sects)
    ensures FillsSects(Reown(owner, lo, hi, o), sects)
    ensures |Reown(owner, lo, hi, o)| == |owner|
    ensures HeapFits(Reown(owner, lo, hi, o)) <==> HeapFits(owner)
  {
    assert Reown(owner, lo, hi, o).Keys == owner.Keys;
  }

  lemma ExceptMore(tiles: map<nat, Tile>, e: nat, h: nat)
    requires NoFreeNeighbours(tiles, e) && (e == 0 || e == h)
    requires forall g :: g in tiles ==> g != 0
    ensures NoFreeNeighbours(tiles, h)
  {
  }

  lemma TilesNonZero(owner: map<nat, nat>, tiles: map<nat, Tile>)
    requires Tiled(owner, tiles)
    ensures forall g :: g in tiles ==> g != 0
  {
    forall g | g in tiles ensures g != 0 { TileStart(owner, tiles, g); }
  }

  /** GC_get_first_part, GC_install_counts and setup_header for block h, the k-th on list i. */
  function TakenHeap(g: Heap, jump': map<nat, nat>, i: nat, k: nat, n: nat, t: Tile): Heap
    requires |g.fl.lists| == |g.fl.heads| == |g.fl.bytes| == N_HBLK_FLS + 1 && i <= N_HBLK_FLS
    requires k < |g.fl.lists[i]| && g.fl.lists[i][k] in g.tiles && n <= Len(g.tiles[g.fl.lists[i][k]])
    requires SzOf(g.tiles, g.fl.lists[i][k]) <= g.fl.bytes[i]
  {
    var h := g.fl.lists[i][k];
    Heap(Reown(g.owner, h + n, h + Len(g.tiles[h]), h + n), Taken(g.tiles, h, n, t), jump',
         TakenLists(g.tiles, g.fl, i, k, n), g.largeFree - HBLKSIZE * n, g.heapBytes, g.sects)
  }

  lemma TakeKeepsSound(g: Heap, jump': map<nat, nat>, e: nat, i: nat, k: nat, n: nat, t: Tile)
    requires Sound(g, e) && i <= N_HBLK_FLS && k < |g.fl.lists[i]|
    requires g.fl.lists[i][k] in g.tiles && g.tiles[g.fl.lists[i][k]].free && (e == 0 || e == g.fl.lists[i][k])
    requires 0 < n <= Len(g.tiles[g.fl.lists[i][k]])
    requires !t.free && Len(t) == n && TileOk(g.fl.lists[i][k], t)
    requires CountsSet(g.jump, jump', g.fl.lists[i][k], n)
    ensures |g.fl.heads| == |g.fl.bytes| == N_HBLK_FLS + 1
    ensures SzOf(g.tiles, g.fl.lists[i][k]) <= g.fl.bytes[i]
    ensures var h, g' := g.fl.lists[i][k], TakenHeap(g, jump', i, k, n, t);
      && Sound(g', 0)
      && Allocated(g') == Allocated(g)[h := t]
      && Free(g') == Free(g) - CellsOf(g'.owner, h)
      && CellsOf(g'.owner, h) <= Free(g)
  {
    hide Tiled, Indexed, FlOk, SumsOk, Coupled, NoFreeNeighbours, Len, TileOk, CountsSet, FillsSects, HeapFits, FreeCells, CellsOf,
      FlIndex, SumAll, FreeTile, Taken, Reown;
    ListsCount(g.fl);
    var h: nat := g.fl.lists[i][k];
    TakenTiled(g.owner, g.tiles, g.jump, jump', h, n, t);
    TakeLists(g.tiles, g.fl, i, k, n, t, if e == 0 then {} else {e});
    TileStart(g.owner, g.tiles, h);
    TakeSumOk(g.owner, g.tiles, g.fl, i, k, n);
    ReownKeepsFill(g.owner, g.sects, h + n, h + Len(g.tiles[h]), h + n);
    if HeapFits(g.owner) {
      TilesNonZero(g.owner, g.tiles);
      ExceptMore(g.tiles, e, h);
      TakenApart(g.owner, g.tiles, h, n, t);
    }
    TakenAllocated(g, jump', i, k, n, t);
  }

  lemma TakeSumOk(owner: map<nat, nat>, tiles: map<nat, Tile>, f: Fl, i: nat, k: nat, n: nat)
    requires FlOk(f) && SumsOk(tiles, f) && i <= N_HBLK_FLS && k < |f.lists[i]| && Tiled(owner, tiles)
    requires f.lists[i][k] in tiles && 0 < n <= Len(tiles[f.lists[i][k]]) && tiles[f.lists[i][k]].free
    ensures SzOf(tiles, f.lists[i][k]) <= f.bytes[i]
    ensures SumAll(TakenLists(tiles, f, i, k, n).bytes) == SumAll(f.bytes) - HBLKSIZE * n
  {
    hide FlOk, SumsOk, FlIndex, SumAll;
    ListsCount(f);
    TileStart(owner, tiles, f.lists[i][k]);
    TakeSum(tiles, f, i, k, n);
  }

  lemma TakenAllocated(g: Heap, jump': map<nat, nat>, i: nat, k: nat, n: nat, t: Tile)
    requires |g.fl.lists| == |g.fl.heads| == |g.fl.bytes| == N_HBLK_FLS + 1 && i <= N_HBLK_FLS
    requires k < |g.fl.lists[i]| && g.fl.lists[i][k] in g.tiles && 0 < n <= Len(g.tiles[g.fl.lists[i][k]])
    requires SzOf(g.tiles, g.fl.lists[i][k]) <= g.fl.bytes[i]
    requires n < Len(g.tiles[g.fl.lists[i][k]]) ==> g.fl.lists[i][k] + n !in g.tiles
    requires !t.free
    ensures Allocated(TakenHeap(g, jump', i, k, n, t)) == Allocated(g)[g.fl.lists[i][k] := t]
  {
    hide Len, TakenLists;
  }

  /** GC_split_block: m takes the place of the k-th block h of list i, the front part of h goes to
      its own list. */
  function SplitLists(f: Fl, i: nat, k: nat, m: nat): Fl
    requires |f.lists| == |f.heads| == |f.bytes| == N_HBLK_FLS + 1 && i <= N_HBLK_FLS && k < |f.lists[i]|
    requires f.lists[i][k] < m && HBLKSIZE * (m - f.lists[i][k]) <= f.bytes[i]
  {
    var h := f.lists[i][k];
    var t := FreeTile(m - h);
    Added(Replaced(f, i, k, m, t.sz), FlIndex(Len(t)), h, t.sz)
  }

  function SplitHeap(g: Heap, i: nat, k: nat, m: nat): Heap
    requires |g.fl.lists| == |g.fl.heads| == |g.fl.bytes| == N_HBLK_FLS + 1 && i <= N_HBLK_FLS
    requires k < |g.fl.lists[i]| && g.fl.lists[i][k] in g.tiles
    requires g.fl.lists[i][k] < m <= g.fl.lists[i][k] + Len(g.tiles[g.fl.lists[i][k]])
    requires HBLKSIZE * (m - g.fl.lists[i][k]) <= g.fl.bytes[i]
  {
    var h := g.fl.lists[i][k];
    var end := h + Len(g.tiles[h]);
    g.(owner := Reown(g.owner, m, end, m), tiles := g.tiles[h := FreeTile(m - h)][m := FreeTile(end - m)],
       fl := SplitLists(g.fl, i, k, m))
  }

  lemma SplitListsOk(tiles: map<nat, Tile>, tiles': map<nat, Tile>, f: Fl, i: nat, k: nat, m: nat)
    requires FlOk(f) && SumsOk(tiles, f) && Coupled(tiles, f, {}) && i <= N_HBLK_FLS && k < |f.lists[i]|
    requires f.lists[i][k] in tiles && tiles[f.lists[i][k]].free && tiles[f.lists[i][k]].sz % HBLKSIZE == 0
    requires 0 < f.lists[i][k] < m < f.lists[i][k] + Len(tiles[f.lists[i][k]]) && m !in tiles
    requires tiles' == tiles[f.lists[i][k] := FreeTile(m - f.lists[i][k])][m := FreeTile(f.lists[i][k] + Len(tiles[f.lists[i][k]]) - m)]
    ensures |f.lists| == |f.heads| == |f.bytes| == N_HBLK_FLS + 1
    ensures HBLKSIZE * (m - f.lists[i][k]) <= f.bytes[i]
    ensures var f' := SplitLists(f, i, k, m);
      && FlOk(f') && SumsOk(tiles', f') && Coupled(tiles', f', {m}) && m in f'.lists[i]
      && SumAll(f'.bytes) == SumAll(f.bytes)
  {
    hide Len, FreeTile, FlOk, SumsOk, Coupled, Listed, FlIndex, SumAll, Replaced, Added;
    ListsCount(f);
    var h: nat := f.lists[i][k];
    var end := h + Len(tiles[h]);
    var t := FreeTile(m - h);
    FreeTileSize(m - h);
    FreeTileSize(end - m);
    FreeTileLen(h, m - h);
    FreeLen(tiles[h]);
    Unlisted(tiles, f, {}, m);
    var less: nat := t.sz;
    ReplacedOk(tiles, tiles', f, i, k, m, less);
    ReplacedCoupled(tiles, f, i, k, m, less);
    var f1 := Replaced(f, i, k, m, less);
    ListsCount(f1);
    Recouple(tiles, tiles', f1, {h, m}, {h, m});
    FlIndexBound(Len(t));
    AddedOk(tiles', f1, FlIndex(Len(t)), h);
    AddedCoupled(tiles', f1, {h, m}, h, t.sz);
    assert {h, m} - {h} == {m};
    SplitSum(f, i, k, m, less, FlIndex(Len(t)), h);
  }

  lemma FreeTileSize(n: nat)
    ensures FreeTile(n).sz == HBLKSIZE * n
  {
  }

  lemma SplitSum(f: Fl, i: nat, k: nat, m: nat, less: nat, j: nat, h: nat)
    requires |f.lists| == |f.heads| == |f.bytes| == N_HBLK_FLS + 1 && i <= N_HBLK_FLS && j <= N_HBLK_FLS
    requires k < |f.lists[i]| && less <= f.bytes[i] && m in Replaced(f, i, k, m, less).lists[i]
    ensures SumAll(Added(Replaced(f, i, k, m, less), j, h, less).bytes) == SumAll(f.bytes)
    ensures m in Added(Replaced(f, i, k, m, less), j, h, less).lists[i]
  {
    hide SumAll;
    SumAllUpdate(f.bytes, i, f.bytes[i] - less);
    var b := f.bytes[i := f.bytes[i] - less];
    SumAllUpdate(b, j, b[j] + less);
  }

  lemma SplitKeepsSound(g: Heap, i: nat, k: nat, m: nat)
    requires Sound(g, 0) && i <= N_HBLK_FLS && k < |g.fl.lists[i]|
    requires g.fl.lists[i][k] in g.tiles && g.tiles[g.fl.lists[i][k]].free
    requires g.fl.lists[i][k] < m < g.fl.lists[i][k] + Len(g.tiles[g.fl.lists[i][k]])
    ensures |g.fl.heads| == |g.fl.bytes| == N_HBLK_FLS + 1
    ensures HBLKSIZE * (m - g.fl.lists[i][k]) <= g.fl.bytes[i]
    ensures var g' := SplitHeap(g, i, k, m);
      && Sound(g', m)
      && m in g'.fl.lists[i] && m !in g.tiles
      && Allocated(g') == Allocated(g) && Free(g') == Free(g)
  {
    hide Tiled, Indexed, FlOk, SumsOk, Coupled, NoFreeNeighbours, Len, TileOk, FillsSects, HeapFits, FreeCells,
      FlIndex, SumAll, FreeTile, Reown, SplitLists;
    ListsCount(g.fl);
    var h: nat := g.fl.lists[i][k];
    var end := h + Len(g.tiles[h]);
    TileStart(g.owner, g.tiles, h);
    FreeSizeRounded(h, g.tiles[h]);
    SplitTiled(g.owner, g.tiles, h, m);
    SplitIndexed(g.owner, g.tiles, g.jump, h, m, 0);
    SplitFreeCells(g.owner, g.tiles, h, m);
    var tiles' := g.tiles[h := FreeTile(m - h)][m := FreeTile(end - m)];
    FreeTileLen(h, m - h);
    FreeTileLen(m, end - m);
    SplitListsOk(g.tiles, tiles', g.fl, i, k, m);
    ReownKeepsFill(g.owner, g.sects, m, end, m);
    if HeapFits(g.owner) { SplitApart(g.owner, g.tiles, h, m); }
  }

  lemma FreeSizeRounded(h: nat, t: Tile)
    requires TileOk(h, t) && t.free
    ensures t.sz % HBLKSIZE == 0 && 0 < h
  {
  }

  lemma SoundParts(g: Heap, e: nat, h: nat)
    requires Sound(g, e) && h in g.tiles
    ensures FlOk(g.fl) && SumsOk(g.tiles, g.fl) && Tiled(g.owner, g.tiles)
    ensures g.tiles[h].free ==> g.tiles[h].sz == HBLKSIZE * Len(g.tiles[h])
    ensures 0 < h && 0 < Len(g.tiles[h])
  {
    TileStart(g.owner, g.tiles, h);
    if g.tiles[h].free { FreeLen(g.tiles[h]); }
  }

  lemma AllocLen(h: nat, t: Tile)
    requires 0 < h && 0 < t.sz && !t.free
    ensures Len(t) == Blocks(t.sz) && TileOk(h, t) && 0 < Len(t)
  {
  }

  lemma ReownKeys(owner: map<nat, nat>, lo: nat, hi: nat, o: nat)
    ensures Reown(owner, lo, hi, o).Keys == owner.Keys
  {
  }

  lemma TakenSplit(tiles: map<nat, Tile>, h: nat, n: nat, t: Tile)
    requires h in tiles && 0 < n <= Len(tiles[h])
    ensures Taken(tiles, h, n, t) ==
            (if n < Len(tiles[h]) then tiles[h + n := FreeTile(Len(tiles[h]) - n)] else tiles)[h := t]
  {
  }

  lemma FreeTileIs(n: nat)
    ensures FreeTile(n) == Tile(HBLKSIZE * n, true, PtrFree)
  {
  }

  lemma ReplacedCount(f: Fl, i: nat, k: nat, m: nat, less: nat)
    requires i < |f.lists| == |f.heads| == |f.bytes| && k < |f.lists[i]| && less <= f.bytes[i]
    ensures |Replaced(f, i, k, m, less).lists| == |f.lists|
  {
  }

  lemma SplitSizes(h: nat, m: nat, end: nat)
    requires h < m < end
    ensures FreeTile(m - h) == Tile(HBLKSIZE * (m - h), true, PtrFree)
    ensures FreeTile(end - m) == Tile(HBLKSIZE * (end - h) - HBLKSIZE * (m - h), true, PtrFree)
    ensures Len(FreeTile(m - h)) == m - h && Len(FreeTile(end - m)) == end - m
  {
  }

  lemma AddedCount(f: Fl, i: nat, h: nat, sz: nat)
    requires i < |f.lists| == |f.heads| == |f.bytes|
    ensures |Added(f, i, h, sz).lists| == |f.lists|
  {
  }
}
