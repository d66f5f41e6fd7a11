/** New memory for the heap, and free blocks that are given up as black-listed. */
module GrowSteps {
  import opened Basics
  import opened HeapTiles
  import opened FreeLists
  import opened TileSteps
  import opened FreeListSteps
  import opened CouplingSteps
  import opened HeapInv
  import opened TakeSteps
  import opened HeapSteps

  /** How a dropped block is made to look: pointer-free and allocated. */
  const DROPPED := Tile(HBLKSIZE, false, PtrFree)

  function Dropped(tiles: map<nat, Tile>, h: nat, n: nat): map<nat, Tile> {
    if n == 0 then tiles else Dropped(tiles, h, n - 1)[h + n - 1 := DROPPED]
  }

  function DropOwner(owner: map<nat, nat>, h: nat, n: nat): map<nat, nat> {
    map x | x in owner :: if h <= x < h + n then x else owner[x]
  }

  lemma {:induction false} DropAt(tiles: map<nat, Tile>, h: nat, n: nat, x: nat)
    ensures x in Dropped(tiles, h, n) <==> x in tiles || h <= x < h + n
    ensures h <= x < h + n ==> Dropped(tiles, h, n)[x] == DROPPED
    ensures !(h <= x < h + n) && x in tiles ==> Dropped(tiles, h, n)[x] == tiles[x]
  {
    if n > 0 { DropAt(tiles, h, n - 1, x); }
  }

  lemma DroppedLen()
    ensures Len(DROPPED) == 1 && !DROPPED.free
    ensures forall h :: 0 < h ==> TileOk(h, DROPPED)
  {
  }

  lemma DropTiled(owner: map<nat, nat>, tiles: map<nat, Tile>, h: nat)
    requires Tiled(owner, tiles) && h in tiles
    ensures Tiled(DropOwner(owner, h, Len(tiles[h])), Dropped(tiles, h, Len(tiles[h])))
  {
    hide Dropped, Len, TileOk;
    DroppedLen();
    TileStart(owner, tiles, h);
    var n := Len(tiles[h]);
    var owner', tiles' := DropOwner(owner, h, n), Dropped(tiles, h, n);
    forall g: nat, x: nat
      ensures Covers(tiles', g, x) <==> Owns(owner', g, x)
    {
      DropAt(tiles, h, n, g);
      assert Covers(tiles, g, x) <==> Owns(owner, g, x);
      assert Covers(tiles, h, x) <==> Owns(owner, h, x);
      assert Covers(tiles, h, g) <==> Owns(owner, h, g);
      if h < g < h + n { NoHeaderInside(owner, tiles, h, g); }
    }
    forall g | g in tiles'
      ensures TileOk(g, tiles'[g])
    {
      DropAt(tiles, h, n, g);
    }
  }

  /** Memory outside block h belongs to blocks outside h. */
  lemma OwnerOutside(owner: map<nat, nat>, tiles: map<nat, Tile>, h: nat, x: nat)
    requires Tiled(owner, tiles) && h in tiles && x in owner && !(h <= x < h + Len(tiles[h]))
    ensures owner[x] in tiles && !(h <= owner[x] < h + Len(tiles[h]))
  {
    hide Len, TileOk;
    OwnerOf(owner, tiles, x);
    assert Covers(tiles, h, x) <==> Owns(owner, h, x);
    assert Covers(tiles, h, owner[x]) <==> Owns(owner, h, owner[x]);
    TileStart(owner, tiles, owner[x]);
  }

  lemma DropIndexed(owner: map<nat, nat>, tiles: map<nat, Tile>, jump: map<nat, nat>, h: nat)
    requires Tiled(owner, tiles) && Indexed(owner, tiles, jump, 0) && h in tiles && tiles[h].free
    ensures Indexed(DropOwner(owner, h, Len(tiles[h])), Dropped(tiles, h, Len(tiles[h])), jump, 0)
  {
    hide Dropped, Len, TileOk;
    TileStart(owner, tiles, h);
    var n := Len(tiles[h]);
    var owner', tiles' := DropOwner(owner, h, n), Dropped(tiles, h, n);
    forall g: nat, x: nat | Owns(owner', g, x) && g != 0
      ensures SlotOk(tiles', jump, g, x)
    {
      if !(h <= x < h + n) {
        OwnerOutside(owner, tiles, h, x);
        DropAt(tiles, h, n, g);
        assert Owns(owner, g, x);
      }
    }
    forall x | x in jump
      ensures owner'[x] < x
    {
      assert Covers(tiles, h, x) <==> Owns(owner, h, x);
      assert Owns(owner, h, x) ==> SlotOk(tiles, jump, h, x);
    }
  }

  lemma DropFreeCells(owner: map<nat, nat>, tiles: map<nat, Tile>, h: nat)
    requires Tiled(owner, tiles) && h in tiles && tiles[h].free
    ensures FreeCells(DropOwner(owner, h, Len(tiles[h])), Dropped(tiles, h, Len(tiles[h]))) ==
            FreeCells(owner, tiles) - CellsOf(owner, h)
    ensures CellsOf(owner, h) <= FreeCells(owner, tiles) && |CellsOf(owner, h)| == Len(tiles[h])
  {
    hide Dropped, Len, TileOk;
    CellCount(owner, tiles, h);
    DroppedLen();
    var n := Len(tiles[h]);
    var owner', tiles' := DropOwner(owner, h, n), Dropped(tiles, h, n);
    forall x | x in owner
      ensures owner[x] == h <==> h <= x < h + n
      ensures owner[x] == h ==> owner'[x] in tiles' && !tiles'[owner'[x]].free
      ensures owner[x] != h ==> owner'[x] == owner[x] && owner[x] in tiles && owner[x] in tiles' && tiles'[owner[x]] == tiles[owner[x]]
    {
      assert Covers(tiles, h, x) <==> Owns(owner, h, x);
      DropAt(tiles, h, n, owner'[x]);
      if !(h <= x < h + n) { OwnerOutside(owner, tiles, h, x); }
    }
  }

  lemma DropApart(owner: map<nat, nat>, tiles: map<nat, Tile>, h: nat)
    requires Tiled(owner, tiles) && NoFreeNeighbours(tiles, 0) && h in tiles
    ensures NoFreeNeighbours(Dropped(tiles, h, Len(tiles[h])), 0)
  {
    hide Len, TileOk, Dropped, Tiled;
    DroppedLen();
    var n := Len(tiles[h]);
    var tiles' := Dropped(tiles, h, n);
    forall g | g in tiles' && tiles'[g].free && g + Len(tiles'[g]) in tiles'
      ensures !tiles'[g + Len(tiles'[g])].free
    {
      DropAt(tiles, h, n, g);
      DropAt(tiles, h, n, g + Len(tiles[g]));
      TileStart(owner, tiles, g);
    }
  }

  function DroppedHeap(g: Heap, i: nat, k: nat): Heap
    requires i < |g.fl.lists| == |g.fl.heads| == |g.fl.bytes| && k < |g.fl.lists[i]| && g.fl.lists[i][k] in g.tiles
    requires g.tiles[g.fl.lists[i][k]].sz <= g.fl.bytes[i]
  {
    var h := g.fl.lists[i][k];
    var n := Len(g.tiles[h]);
    g.(owner := DropOwner(g.owner, h, n), tiles := Dropped(g.tiles, h, n),
       fl := Removed(g.fl, i, k, g.tiles[h].sz), largeFree := g.largeFree - g.tiles[h].sz)
  }

  lemma DropKeepsSound(g: Heap, i: nat, k: nat)
    requires Sound(g, 0) && i <= N_HBLK_FLS && k < |g.fl.lists[i]|
    requires g.fl.lists[i][k] in g.tiles && g.tiles[g.fl.lists[i][k]].free
    ensures |g.fl.lists| == |g.fl.heads| == |g.fl.bytes| == N_HBLK_FLS + 1
    ensures g.tiles[g.fl.lists[i][k]].sz <= g.fl.bytes[i]
    ensures var h, g' := g.fl.lists[i][k], DroppedHeap(g, i, k);
      && Sound(g', 0)
      && Free(g') == Free(g) - CellsOf(g.owner, h) && CellsOf(g.owner, h) <= Free(g)
  {
    hide Tiled, Indexed, FlOk, SumsOk, Coupled, NoFreeNeighbours, Len, TileOk, FillsSects, HeapFits, FreeCells,
      FlIndex, SumAll, Removed, Listed, CellsOf, Dropped, DropOwner;
    ListsCount(g.fl);
    var h: nat := g.fl.lists[i][k];
    TileStart(g.owner, g.tiles, h);
    DropTiled(g.owner, g.tiles, h);
    DropIndexed(g.owner, g.tiles, g.jump, h);
    DropFreeCells(g.owner, g.tiles, h);
    DropLists(g.owner, g.tiles, g.fl, i, k);
    DropFills(g.owner, g.sects, h, Len(g.tiles[h]));
    if HeapFits(g.owner) { DropApart(g.owner, g.tiles, h); }
  }

  lemma DropFills(owner: map<nat, nat>, sects: seq<(nat, nat)>, h: nat, n: nat)
    requires FillsSects(owner, sects)
    ensures FillsSects(DropOwner(owner, h, n), sects)
    ensures |DropOwner(owner, h, n)| == |owner|
    ensures HeapFits(DropOwner(owner, h, n)) <==> HeapFits(owner)
  {
    assert DropOwner(owner, h, n).Keys == owner.Keys;
  }

  lemma DropLists(owner: map<nat, nat>, tiles: map<nat, Tile>, f: Fl, i: nat, k: nat)
    requires Tiled(owner, tiles) && FlOk(f) && SumsOk(tiles, f) && Coupled(tiles, f, {})
    requires i <= N_HBLK_FLS && k < |f.lists[i]| && f.lists[i][k] in tiles && tiles[f.lists[i][k]].free
    ensures tiles[f.lists[i][k]].sz <= f.bytes[i] && |f.heads| == |f.bytes| == |f.lists|
    ensures var h, f' := f.lists[i][k], Removed(f, i, k, tiles[f.lists[i][k]].sz);
      && FlOk(f') && SumsOk(Dropped(tiles, h, Len(tiles[h])), f') && Coupled(Dropped(tiles, h, Len(tiles[h])), f', {})
      && SumAll(f'.bytes) == SumAll(f.bytes) - tiles[h].sz
      && tiles[h].sz == HBLKSIZE * Len(tiles[h])
  {
    hide FlOk, SumsOk, Coupled, Len, TileOk, FlIndex, SumAll, Removed, Listed, Tiled, Dropped;
    ListsCount(f);
    var h: nat := f.lists[i][k];
    var n := Len(tiles[h]);
    TileStart(owner, tiles, h);
    FreeSizeRounded(h, tiles[h]);
    FreeLen(tiles[h]);
    RemovedOk(tiles, f, i, k);
    RemovedCoupled(tiles, f, {}, i, k, tiles[h].sz);
    var f' := Removed(f, i, k, tiles[h].sz);
    RemovedSum(f, i, k, tiles[h].sz);
    var es := Interval(h, n);
    forall x | x in es
      ensures !Listed(f', x)
    {
      if x != h {
        DropInside(owner, tiles, f, h, x);
      }
    }
    assert {} + {h} == {h} && h in es;
    forall x: nat
      ensures x !in es ==> (x in Dropped(tiles, h, n) <==> x in tiles) && (x in tiles ==> Dropped(tiles, h, n)[x] == tiles[x])
      ensures x in es && x in Dropped(tiles, h, n) ==> !Dropped(tiles, h, n)[x].free
    {
      DropAt(tiles, h, n, x);
      DroppedLen();
    }
    CoupledLess(tiles, f', {h}, es);
    Recouple(tiles, Dropped(tiles, h, n), f', es, {});
    SumsFrame(tiles, Dropped(tiles, h, n), f', es);
  }

  lemma RemovedSum(f: Fl, i: nat, k: nat, sz: nat)
    requires i < |f.lists| == |f.heads| == |f.bytes| && k < |f.lists[i]| && sz <= f.bytes[i]
    ensures SumAll(Removed(f, i, k, sz).bytes) == SumAll(f.bytes) - sz
  {
    SumAllUpdate(f.bytes, i, f.bytes[i] - sz);
  }

  lemma DropInside(owner: map<nat, nat>, tiles: map<nat, Tile>, f: Fl, h: nat, x: nat)
    requires Tiled(owner, tiles) && Coupled(tiles, f, {}) && h in tiles && h < x < h + Len(tiles[h])
    ensures !Listed(f, x)
  {
    NoHeaderInside(owner, tiles, h, x);
    Unlisted(tiles, f, {}, x);
  }

  function GrowOwner(owner: map<nat, nat>, p: nat, n: nat): map<nat, nat> {
    if n == 0 then owner else GrowOwner(owner, p, n - 1)[p + n - 1 := p]
  }

  lemma {:induction false} GrowAt(owner: map<nat, nat>, p: nat, n: nat, x: nat)
    ensures x in GrowOwner(owner, p, n) <==> x in owner || p <= x < p + n
    ensures p <= x < p + n ==> GrowOwner(owner, p, n)[x] == p
    ensures !(p <= x < p + n) && x in owner ==> GrowOwner(owner, p, n)[x] == owner[x]
  {
    if n > 0 { GrowAt(owner, p, n - 1, x); }
  }

  lemma {:induction false} GrowSize(owner: map<nat, nat>, p: nat, n: nat)
    requires forall x :: p <= x < p + n ==> x !in owner
    ensures |GrowOwner(owner, p, n)| == |owner| + n
  {
    if n > 0 {
      GrowSize(owner, p, n - 1);
      GrowAt(owner, p, n - 1, p + n - 1);
    }
  }

  /** n blocks of new memory at p, not in the heap before, with a header that does not look free. */
  function GrownHeap(g: Heap, p: nat, n: nat): Heap {
    g.(owner := GrowOwner(g.owner, p, n),
       tiles := g.tiles[p := Tile(HBLKSIZE * n, false, PtrFree)],
       heapBytes := g.heapBytes + HBLKSIZE * n, sects := g.sects + [(p, n)])
  }

  lemma GrownLen(n: nat)
    ensures Len(Tile(HBLKSIZE * n, false, PtrFree)) == n
  {
  }

  lemma GrownBlocks(n: nat)
    ensures Blocks(HBLKSIZE * n) == n
  {
  }

  lemma GrowTiled(g: Heap, p: nat, n: nat)
    requires Tiled(g.owner, g.tiles) && 0 < p && 0 < n
    requires forall x :: p <= x < p + n ==> x !in g.owner
    ensures Tiled(GrownHeap(g, p, n).owner, GrownHeap(g, p, n).tiles)
    ensures p !in g.tiles
  {
    hide Len, GrowOwner;
    GrownLen(n);
    var g' := GrownHeap(g, p, n);
    if p in g.tiles { TileStart(g.owner, g.tiles, p); }
    forall h: nat, x: nat
      ensures Covers(g'.tiles, h, x) <==> Owns(g'.owner, h, x)
    {
      GrowAt(g.owner, p, n, x);
      assert Covers(g.tiles, h, x) <==> Owns(g.owner, h, x);
    }
  }

  lemma GrowIndexed(g: Heap, p: nat, n: nat)
    requires Tiled(g.owner, g.tiles) && Indexed(g.owner, g.tiles, g.jump, 0) && 0 < p && 0 < n && p !in g.tiles
    requires forall x :: p <= x < p + n ==> x !in g.owner
    ensures Indexed(GrownHeap(g, p, n).owner, GrownHeap(g, p, n).tiles, g.jump, p)
    ensures forall x :: p <= x < p + n ==> x !in g.jump
  {
    hide Len, GrowOwner;
    var g' := GrownHeap(g, p, n);
    forall h, x | Owns(g'.owner, h, x) && h != p
      ensures SlotOk(g'.tiles, g.jump, h, x)
    {
      GrowAt(g.owner, p, n, x);
      assert Owns(g.owner, h, x);
      assert Covers(g.tiles, h, x);
      TileStart(g.owner, g.tiles, h);
      assert SlotOk(g.tiles, g.jump, h, x);
    }
    forall x | x in g.jump ensures x in g'.owner && g'.owner[x] < x { GrowAt(g.owner, p, n, x); }
  }

  lemma GrowCells(g: Heap, p: nat, n: nat)
    requires Tiled(g.owner, g.tiles) && p !in g.tiles
    requires forall x :: p <= x < p + n ==> x !in g.owner
    ensures var g' := GrownHeap(g, p, n);
      && FreeCells(g'.owner, g'.tiles) == FreeCells(g.owner, g.tiles)
      && |g'.owner| == |g.owner| + n
      && CellsOf(g'.owner, p) == Interval(p, n)
  {
    hide Len, GrowOwner, Tiled;
    GrowSize(g.owner, p, n);
    var g' := GrownHeap(g, p, n);
    forall x: nat
      ensures x in g'.owner <==> x in g.owner || p <= x < p + n
      ensures p <= x < p + n ==> g'.owner[x] == p
      ensures x in g.owner ==> g'.owner[x] == g.owner[x] && g.owner[x] != p
    {
      GrowAt(g.owner, p, n, x);
      if x in g.owner { OwnerOf(g.owner, g.tiles, x); }
    }
  }

  lemma GrowFills(g: Heap, p: nat, n: nat)
    requires FillsSects(g.owner, g.sects)
    ensures FillsSects(GrownHeap(g, p, n).owner, GrownHeap(g, p, n).sects)
  {
    hide GrowOwner;
    var g' := GrownHeap(g, p, n);
    forall x: nat
      ensures x in g'.owner <==> InSects(g'.sects, x)
    {
      GrowAt(g.owner, p, n, x);
      if InSects(g.sects, x) {
        var i :| 0 <= i < |g.sects| && g.sects[i].0 <= x < g.sects[i].0 + g.sects[i].1;
        assert g'.sects[i] == g.sects[i];
      }
      if p <= x < p + n { assert g'.sects[|g.sects|] == (p, n); }
    }
  }

  /** The new block is ready to be freed. */
  lemma GrowKeepsFreeable(g: Heap, p: nat, n: nat)
    requires Sound(g, 0) && 0 < p && 0 < n
    requires forall x :: p <= x < p + n ==> x !in g.owner
    ensures var g' := GrownHeap(g, p, n);
      && Freeable(g', p) && Len(g'.tiles[p]) == n
      && Allocated(g') - {p} == Allocated(g) && Free(g') == Free(g) && CellsOf(g'.owner, p) == Interval(p, n)
  {
    hide Tiled, Indexed, FlOk, SumsOk, Coupled, Len, TileOk, FillsSects, FreeCells, FlIndex, SumAll, CellsOf,
      NoFreeNeighbours, HeapFits, GrowOwner, Interval, Listed;
    GrowTiled(g, p, n);
    GrowIndexed(g, p, n);
    GrowCells(g, p, n);
    GrowFills(g, p, n);
    GrownLen(n);
    GrowLists(g.tiles, g.fl, p, Tile(HBLKSIZE * n, false, PtrFree));
    GrowApart(g, p, n);
    GrowAllocated(g, p, n);
  }

  lemma GrowLists(tiles: map<nat, Tile>, f: Fl, p: nat, t: Tile)
    requires Coupled(tiles, f, {}) && SumsOk(tiles, f) && p !in tiles && !t.free
    ensures Coupled(tiles[p := t], f, {}) && SumsOk(tiles[p := t], f)
  {
    hide Coupled, SumsOk, Listed;
    Unlisted(tiles, f, {}, p);
    CoupledLess(tiles, f, {}, {p});
    Recouple(tiles, tiles[p := t], f, {p}, {});
    SumsFrame(tiles, tiles[p := t], f, {p});
  }

  lemma GrowAllocated(g: Heap, p: nat, n: nat)
    requires p !in g.tiles
    ensures Allocated(GrownHeap(g, p, n)) - {p} == Allocated(g)
  {
  }

  lemma GrowApart(g: Heap, p: nat, n: nat)
    requires HeapFits(g.owner) ==> NoFreeNeighbours(g.tiles, 0)
    requires p !in g.tiles
    ensures HeapFits(GrownHeap(g, p, n).owner) && (forall x :: p <= x < p + n ==> x !in g.owner) ==>
              NoFreeNeighbours(GrownHeap(g, p, n).tiles, 0)
  {
    hide Len, GrowOwner;
    var g' := GrownHeap(g, p, n);
    if HeapFits(g'.owner) && forall x :: p <= x < p + n ==> x !in g.owner {
      GrowSize(g.owner, p, n);
      assert |g'.owner| == |g.owner| + n;
    }
  }

  /** New memory p .. p + n - 1 without the two lowest and the highest block of the address space. */
  ghost function Usable(p: nat, n: nat): set<nat> { set x | x in Interval(p, n) && 2 <= x < SPACE - 1 }

  lemma UsableIs(p: nat, n: nat, lo: nat, m: nat)
    requires lo == (if p < 2 then 2 else p) && lo + m == (if p + n < SPACE - 1 then p + n else SPACE - 1)
    ensures Usable(p, n) == Interval(lo, m)
  {
  }

  lemma UsableNone(p: nat, n: nat)
    requires p + n <= 2 || p >= SPACE - 1
    ensures Usable(p, n) == {}
  {
  }

  lemma GrownKeys(owner: map<nat, nat>, p: nat, n: nat)
    ensures GrowOwner(owner, p, n).Keys == owner.Keys + Interval(p, n)
  {
    hide GrowOwner;
    forall x: nat ensures x in GrowOwner(owner, p, n) <==> x in owner || x in Interval(p, n) { GrowAt(owner, p, n, x); }
  }

  /** What GC_freehblk needs to know about the section. */
  lemma SectionEntered(g: Heap, p: nat, n: nat)
    requires Sound(g, 0) && 0 < p && 0 < n && forall x :: p <= x < p + n ==> x !in g.owner
    ensures var g' := GrownHeap(g, p, n);
      && Freeable(g', p) && p in g'.tiles && !g'.tiles[p].free && Blocks(g'.tiles[p].sz) == n
      && Allocated(g') - {p} == Allocated(g) && Free(g') == Free(g) && CellsOf(g'.owner, p) == Interval(p, n)
      && g'.owner.Keys == g.owner.Keys + Interval(p, n) && g'.heapBytes == g.heapBytes + HBLKSIZE * n
  {
    hide Sound, Len, Free, CellsOf, Allocated, Freeable, Interval, GrowOwner, Blocks;
    GrownBlocks(n);
    GrowKeepsFreeable(g, p, n);
    GrownKeys(g.owner, p, n);
  }

  lemma EmptySound(g: Heap)
    requires g.owner == map[] && g.tiles == map[] && g.jump == map[] && g.sects == [] && g.largeFree == g.heapBytes == 0
    requires |g.fl.heads| == |g.fl.bytes| == |g.fl.lists| == N_HBLK_FLS + 1
    requires forall i: nat :: i <= N_HBLK_FLS ==> g.fl.heads[i] == 0 && g.fl.bytes[i] == 0 && g.fl.lists[i] == []
    ensures Sound(g, 0) && Allocated(g) == map[] && Free(g) == {}
  {
    hide FlIndex, SumAll;
    assert forall h: nat, x: nat :: !Covers(g.tiles, h, x) && !Owns(g.owner, h, x);
    ZeroSum(g.fl.bytes);
    forall x ensures !InSects(g.sects, x) {}
    assert FreeCells(g.owner, g.tiles) == {};
  }

  lemma {:induction false} ZeroSum(s: seq<nat>)
    requires forall i :: 0 <= i < |s| ==> s[i] == 0
    ensures SumAll(s) == 0
  {
    if s != [] { ZeroSum(s[1..]); }
  }
}
