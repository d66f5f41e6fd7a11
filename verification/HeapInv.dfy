/** The state of the block allocator and its invariant. */
module HeapInv {
  import opened Basics
  import opened HeapTiles
  import opened FreeLists

  /** owner is a ghost; tiles and jump are the headers and the index, fl the free lists, largeFree is
      GC_large_free_bytes, heapBytes GC_heapsize and sects GC_heap_sects as (start, blocks). */
  datatype Heap = Heap(owner: map<nat, nat>, tiles: map<nat, Tile>, jump: map<nat, nat>, fl: Fl,
                       largeFree: int, heapBytes: nat, sects: seq<(nat, nat)>)

  ghost predicate InSects(sects: seq<(nat, nat)>, x: nat) {
    exists i :: 0 <= i < |sects| && sects[i].0 <= x < sects[i].0 + sects[i].1
  }

  ghost predicate FillsSects(owner: map<nat, nat>, sects: seq<(nat, nat)>) {
    forall x :: x in owner <==> InSects(sects, x)
  }

  /** The byte counters agree with the blocks they count. */
  ghost predicate CountersOk(g: Heap) {
    && g.largeFree == SumAll(g.fl.bytes)
    && g.largeFree == HBLKSIZE * |FreeCells(g.owner, g.tiles)|
    && g.heapBytes == HBLKSIZE * |g.owner|
  }

  /** The invariant.  Inside an allocation the block e that is about to be allocated may be on the
      wrong free list and behind a free block; between operations e is 0. */
  ghost predicate Sound(g: Heap, e: nat) {
    && Tiled(g.owner, g.tiles)
    && Indexed(g.owner, g.tiles, g.jump, 0)
    && FillsSects(g.owner, g.sects)
    && (HeapFits(g.owner) ==> NoFreeNeighbours(g.tiles, e))
    && FlOk(g.fl)
    && SumsOk(g.tiles, g.fl)
    && Coupled(g.tiles, g.fl, if e == 0 then {} else {e})
    && CountersOk(g)
  }

  /** The allocated blocks and their headers. */
  ghost function Allocated(g: Heap): map<nat, Tile> { map h | h in g.tiles && !g.tiles[h].free :: g.tiles[h] }

  /** The memory that is free. */
  ghost function Free(g: Heap): set<nat> { FreeCells(g.owner, g.tiles) }

  /** What GC_freehblk has to be done with next: look behind h, look before h, or h is final. */
  datatype Stage = Unmerged | NextMerged | Merged

  /** In the middle of GC_freehblk: h is free but on no list, `size` bytes are not counted yet. */
  ghost predicate Freeing(g: Heap, h: nat, size: nat, stage: Stage) {
    && Tiled(g.owner, g.tiles)
    && Indexed(g.owner, g.tiles, g.jump, 0)
    && FillsSects(g.owner, g.sects)
    && FlOk(g.fl) && SumsOk(g.tiles, g.fl) && Coupled(g.tiles, g.fl, {h}) && !Listed(g.fl, h)
    && h in g.tiles && g.tiles[h].free
    && SumAll(g.fl.bytes) + g.tiles[h].sz == g.largeFree + size
    && g.largeFree + size == HBLKSIZE * |FreeCells(g.owner, g.tiles)|
    && g.heapBytes == HBLKSIZE * |g.owner|
    && (HeapFits(g.owner) ==>
          match stage
          case Unmerged => NeighboursAround(g.tiles, h)
          case NextMerged => NoFreeNeighbours(g.tiles, h)
          case Merged => NoFreeNeighbours(g.tiles, 0))
  }

  /** Block h is allocated and its forwarding counts are all there or all missing. */
  ghost predicate Freeable(g: Heap, h: nat) {
    && Tiled(g.owner, g.tiles)
    && Indexed(g.owner, g.tiles, g.jump, h)
    && FillsSects(g.owner, g.sects)
    && (HeapFits(g.owner) ==> NoFreeNeighbours(g.tiles, 0))
    && FlOk(g.fl) && SumsOk(g.tiles, g.fl) && Coupled(g.tiles, g.fl, {})
    && h in g.tiles && !g.tiles[h].free
    && CountersOk(g)
    && ((forall x :: h < x < h + Len(g.tiles[h]) ==> x in g.jump) || (forall x :: h < x < h + Len(g.tiles[h]) ==> x !in g.jump))
  }
}
