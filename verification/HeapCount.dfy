/** Conservation: what is allocated and what is free make up the heap. */
module HeapCount {
  import opened Basics
  import opened HeapTiles
  import opened FreeLists
  import opened TileSteps
  import opened HeapInv

  /** OBJ_SZ_TO_BLOCKS(hb_sz), summed up over the allocated ones of the blocks hs. */
  ghost function UsedBlocks(tiles: map<nat, Tile>, hs: set<nat>): nat
    requires hs <= tiles.Keys
  {
    if hs == {} then 0 else
      var h :| h in hs;
      (if tiles[h].free then 0 else Blocks(tiles[h].sz)) + UsedBlocks(tiles, hs - {h})
  }

  /** The memory of the allocated ones of the blocks hs. */
  ghost function UsedCells(owner: map<nat, nat>, tiles: map<nat, Tile>, hs: set<nat>): set<nat> {
    set x | x in owner && owner[x] in hs && owner[x] in tiles && !tiles[owner[x]].free
  }

  lemma UsedWithout(owner: map<nat, nat>, tiles: map<nat, Tile>, hs: set<nat>, h: nat)
    requires Tiled(owner, tiles) && hs <= tiles.Keys && h in hs
    ensures |UsedCells(owner, tiles, hs)| ==
            |UsedCells(owner, tiles, hs - {h})| + if tiles[h].free then 0 else Blocks(tiles[h].sz)
  {
    hide Tiled;
    var rest := UsedCells(owner, tiles, hs - {h});
    if tiles[h].free {
      assert UsedCells(owner, tiles, hs) == rest;
    } else {
      CellCount(owner, tiles, h);
      assert UsedCells(owner, tiles, hs) == rest + CellsOf(owner, h);
      assert rest !! CellsOf(owner, h);
    }
  }

  lemma {:induction false} CountUsed(owner: map<nat, nat>, tiles: map<nat, Tile>, hs: set<nat>)
    requires Tiled(owner, tiles) && hs <= tiles.Keys
    ensures |UsedCells(owner, tiles, hs)| == UsedBlocks(tiles, hs)
  {
    hide Tiled, UsedCells, Blocks;
    if hs == {} {
      NoneUsed(owner, tiles);
    } else {
      var h :| h in hs && UsedBlocks(tiles, hs) == (if tiles[h].free then 0 else Blocks(tiles[h].sz)) + UsedBlocks(tiles, hs - {h});
      CountUsed(owner, tiles, hs - {h});
      UsedWithout(owner, tiles, hs, h);
    }
  }

  lemma NoneUsed(owner: map<nat, nat>, tiles: map<nat, Tile>)
    ensures UsedCells(owner, tiles, {}) == {}
  {
  }

  lemma UsedOrFree(owner: map<nat, nat>, tiles: map<nat, Tile>)
    requires Tiled(owner, tiles)
    ensures |owner| == |FreeCells(owner, tiles)| + |UsedCells(owner, tiles, tiles.Keys)|
  {
    hide Tiled;
    forall x | x in owner ensures owner[x] in tiles { OwnerOf(owner, tiles, x); }
    assert owner.Keys == UsedCells(owner, tiles, tiles.Keys) + FreeCells(owner, tiles);
    assert UsedCells(owner, tiles, tiles.Keys) !! FreeCells(owner, tiles);
    assert |owner| == |owner.Keys|;
  }

  /** What GC_check_blocks checks: the sizes of all allocated blocks, rounded up, plus
      GC_large_free_bytes make up GC_heapsize. */
  lemma UsedPlusFree(g: Heap)
    requires Sound(g, 0)
    ensures HBLKSIZE * UsedBlocks(g.tiles, g.tiles.Keys) + g.largeFree == g.heapBytes
  {
    hide Tiled, Indexed, FlOk, SumsOk, Coupled, NoFreeNeighbours, FillsSects, HeapFits, UsedBlocks, UsedCells, FreeCells;
    CountUsed(g.owner, g.tiles, g.tiles.Keys);
    UsedOrFree(g.owner, g.tiles);
    assert CountersOk(g);
  }
}
