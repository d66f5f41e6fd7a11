/** What the header index and the small objects get from the block allocator. */
module HeapClients {
  import opened HeapTiles
  import opened HeapInv
  import opened TileSteps
  import opened BlockSearch
  import opened IndexSpec
  import opened SmallSpec

  /** Every block that small and large objects live in is allocated, with the length they think it has. */
  ghost predicate Backed(used: map<nat, Tile>, blocks: map<nat, Blk>) {
    forall b :: b in blocks ==> b in used && Len(used[b]) == blocks[b].len
  }

  /** Two blocks of a tiling do not overlap. */
  lemma BlocksApart(owner: map<nat, nat>, tiles: map<nat, Tile>, b: nat, c: nat)
    requires Tiled(owner, tiles) && b in tiles && c in tiles && b != c
    ensures b + Len(tiles[b]) <= c || c + Len(tiles[c]) <= b
  {
    if b < c < b + Len(tiles[b]) { NoHeaderInside(owner, tiles, b, c); }
    if c < b < c + Len(tiles[c]) { NoHeaderInside(owner, tiles, c, b); }
  }

  /** The block that GC_allochblk grants is one that no object lives in, as GC_new_hblk and GC_alloc_large
      need it; and the blocks in use are still backed when it is added. */
  lemma GrantServesObjects(bl: (nat, nat) -> nat, g: Heap, g': Heap, r: nat, t: Tile, blocks: map<nat, Blk>, blk: Blk)
    requires Sound(g', 0) && Granted(bl, g, g', r, t) && Backed(Allocated(g), blocks) && blk.len == Len(t)
    ensures Unused(blocks, r, Len(t)) && Backed(Allocated(g'), blocks[r := blk])
  {
    hide Len, Tiled, Indexed, FillsSects, NoFreeNeighbours, CountersOk;
    var a, a' := Allocated(g), Allocated(g');
    assert Tiled(g'.owner, g'.tiles);
    TileStart(g'.owner, g'.tiles, r);
    forall c | c in blocks
      ensures c in a' && a'[c] == a[c]
      ensures r + Len(t) <= c || c + blocks[c].len <= r
    {
      assert c in a[r := t];
      BlocksApart(g'.owner, g'.tiles, r, c);
    }
  }

  /** Dropping black-listed blocks takes nothing away from objects. */
  lemma DropsServeObjects(bl: (nat, nat) -> nat, g: Heap, g': Heap, blocks: map<nat, Blk>)
    requires OnlyDropped(bl, g, g') && Backed(Allocated(g), blocks)
    ensures Backed(Allocated(g'), blocks)
  {
    hide Len, Allocated;
  }

  /** Nor does GC_freehblk for a block whose object is gone. */
  lemma FreeServesObjects(a: map<nat, Tile>, blocks: map<nat, Blk>, b: nat)
    requires Backed(a, blocks)
    ensures Backed(a - {b}, blocks - {b})
  {
    hide Len;
  }

  /** The index describes the heap again when a header was installed. */
  lemma HeaderDescribed(pages: map<nat, seq<Slot>>, pages': map<nat, seq<Slot>>, tiles: map<nat, Tile>, jump: map<nat, nat>, h: nat, t: Tile)
    requires Describes(pages, tiles, jump)
    requires forall y: nat :: SlotAt(pages', y) == if y == h then Hdr(t) else SlotAt(pages, y)
    ensures Describes(pages', tiles[h := t], jump)
  {
    hide SlotAt;
  }

  /** .. removed .. */
  lemma RemovalDescribed(pages: map<nat, seq<Slot>>, pages': map<nat, seq<Slot>>, tiles: map<nat, Tile>, jump: map<nat, nat>, h: nat)
    requires Describes(pages, tiles, jump) && h !in jump
    requires forall y: nat :: SlotAt(pages', y) == if y == h then Nil else SlotAt(pages, y)
    ensures Describes(pages', tiles - {h}, jump)
  {
    hide SlotAt;
  }

  /** .. when forwarding counts were installed inside a block .. */
  lemma CountsDescribed(pages: map<nat, seq<Slot>>, pages': map<nat, seq<Slot>>, tiles: map<nat, Tile>, jump: map<nat, nat>,
                        jump': map<nat, nat>, h: nat, n: nat)
    requires Describes(pages, tiles, jump) && CountsSet(jump, jump', h, n) && forall y :: h < y < h + n ==> y !in tiles
    requires forall y: nat :: SlotAt(pages', y) == if h < y < h + n then Jump(Min(y - h, MAX_JUMP)) else SlotAt(pages, y)
    ensures Describes(pages', tiles, jump')
  {
    hide SlotAt;
  }

  /** .. and when they were removed, or were never there. */
  lemma ClearedDescribed(pages: map<nat, seq<Slot>>, pages': map<nat, seq<Slot>>, tiles: map<nat, Tile>, jump: map<nat, nat>,
                         jump': map<nat, nat>, h: nat, n: nat)
    requires Describes(pages, tiles, jump) && CountsCleared(jump, jump', h, n) && forall y :: h < y < h + n ==> y !in tiles
    requires (forall y :: h < y < h + n ==> y in jump) || (forall y :: h < y < h + n ==> y !in jump)
    requires forall y: nat :: SlotAt(pages', y) ==
               if n > 1 && SlotAt(pages, h + 1) != Nil && h < y < h + n then Nil else SlotAt(pages, y)
    ensures Describes(pages', tiles, jump')
  {
    hide SlotAt;
    if n > 1 {
      assert h < h + 1 < h + n;
      assert SlotAt(pages, h + 1) != Nil <==> h + 1 in jump;
    }
  }
}
