/** The heap as blocks: what a header records, and what it means that headers tile the heap. */
module HeapTiles {
  import opened Basics

  const MAX_JUMP: nat := HBLKSIZE - 1

  /** The sign bit of a word: sizes that reach it count as overflow. */
  const SIGNB: nat := 0x8000_0000_0000_0000

  /** There are 2^52 memory blocks in the address space. */
  const SPACE: nat := 0x10_0000_0000_0000

  datatype Kind = PtrFree | Normal | Uncollectable | AtomicUncollectable

  /** A header: hb_sz, the FREE_BLK flag and hb_obj_kind.  For a free block hb_sz is the whole
      extent in bytes; for an allocated one it is the object size. */
  datatype Tile = Tile(sz: nat, free: bool, kind: Kind)

  /** OBJ_SZ_TO_BLOCKS. */
  function Blocks(sz: nat): nat { (sz + HBLKSIZE - 1) / HBLKSIZE }

  /** The extent in blocks. */
  function Len(t: Tile): nat { if t.free then t.sz / HBLKSIZE else Blocks(t.sz) }

  predicate TileOk(h: nat, t: Tile) { 0 < h && 0 < t.sz && (t.free ==> t.sz % HBLKSIZE == 0) }

  /** Blocks are named by number (address / HBLKSIZE).  x is one of the blocks of memory that the
      heap block at h extends over. */
  predicate Covers(tiles: map<nat, Tile>, h: nat, x: nat) { h in tiles && h <= x < h + Len(tiles[h]) }

  predicate Owns(owner: map<nat, nat>, h: nat, x: nat) { x in owner && owner[x] == h }

  /** `owner` gives, for all memory in the heap, the start of the heap block it belongs to.  The
      headers agree with it exactly: they do not overlap and leave nothing out. */
  ghost predicate Tiled(owner: map<nat, nat>, tiles: map<nat, Tile>) {
    && (forall h, x :: Covers(tiles, h, x) <==> Owns(owner, h, x))
    && (forall h :: h in tiles ==> TileOk(h, tiles[h]))
  }

  function Min(a: nat, b: nat): nat { if a < b then a else b }

  /** What the slot of memory block x holds when x is inside the heap block at h. */
  predicate SlotOk(tiles: map<nat, Tile>, jump: map<nat, nat>, h: nat, x: nat) {
    h in tiles && h < x ==>
      if tiles[h].free then x !in jump else x in jump && jump[x] == Min(x - h, MAX_JUMP)
  }

  /** What the index holds besides headers: a forwarding count in every interior slot of an allocated
      block, nil everywhere else.  The counts of block `e` may not have been installed. */
  ghost predicate Indexed(owner: map<nat, nat>, tiles: map<nat, Tile>, jump: map<nat, nat>, e: nat) {
    && (forall h, x :: Owns(owner, h, x) && h != e ==> SlotOk(tiles, jump, h, x))
    && (forall x :: x in jump ==> x in owner && owner[x] < x)
  }

  /** Two free blocks are never adjacent, except that the second may be e (0: no exception). */
  ghost predicate NoFreeNeighbours(tiles: map<nat, Tile>, e: nat) {
    forall h :: h in tiles && tiles[h].free && h + Len(tiles[h]) in tiles && h + Len(tiles[h]) != e ==>
      !tiles[h + Len(tiles[h])].free
  }

  /** The same except that either of the two may be e. */
  ghost predicate NeighboursAround(tiles: map<nat, Tile>, e: nat) {
    forall h :: h in tiles && tiles[h].free && h != e && h + Len(tiles[h]) in tiles && h + Len(tiles[h]) != e ==>
      !tiles[h + Len(tiles[h])].free
  }

  /** The heap is smaller than half the address space, so that no size overflows. */
  ghost predicate HeapFits(owner: map<nat, nat>) { HBLKSIZE * |owner| < SIGNB }

  /** No free block has come into being whose size looks like an overflow. */
  ghost predicate NewFits(tiles: map<nat, Tile>, tiles': map<nat, Tile>) {
    forall x :: x in tiles' && tiles'[x].free ==> tiles'[x].sz < SIGNB || (x in tiles && tiles[x] == tiles'[x])
  }

  /** The same owners except that lo .. hi-1 now belong to o. */
  function Reown(owner: map<nat, nat>, lo: nat, hi: nat, o: nat): map<nat, nat> {
    map x | x in owner :: if lo <= x < hi then o else owner[x]
  }

  function FreeTile(n: nat): Tile { Tile(HBLKSIZE * n, true, PtrFree) }

  /** The headers after the first n blocks of free block h have been allocated as t. */
  function Taken(tiles: map<nat, Tile>, h: nat, n: nat, t: Tile): map<nat, Tile>
    requires h in tiles && n <= Len(tiles[h])
  {
    if n == Len(tiles[h]) then tiles[h := t] else tiles[h + n := FreeTile(Len(tiles[h]) - n)][h := t]
  }

  ghost function FreeCells(owner: map<nat, nat>, tiles: map<nat, Tile>): set<nat> {
    set x | x in owner && owner[x] in tiles && tiles[owner[x]].free
  }

  /** The memory of heap block h. */
  ghost function CellsOf(owner: map<nat, nat>, h: nat): set<nat> { set x | x in owner && owner[x] == h }

  /** The greatest block start at or below x, 0 if there is none: what GC_prev_block returns. */
  function PrevStart(tiles: map<nat, Tile>, x: nat): (h: nat)
    ensures h <= x && (h != 0 ==> h in tiles)
    ensures forall g :: g in tiles && g <= x ==> g <= h
  {
    if x == 0 then 0 else if x in tiles then x else PrevStart(tiles, x - 1)
  }
}
