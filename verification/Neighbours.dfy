/** Free blocks are kept apart: what splitting, allocating and coalescing do to adjacency. */
module Neighbours {
  import opened HeapTiles
  import opened TileSteps

  lemma TakenApart(owner: map<nat, nat>, tiles: map<nat, Tile>, h: nat, n: nat, t: Tile)
    requires Tiled(owner, tiles) && NoFreeNeighbours(tiles, h)
    requires h in tiles && tiles[h].free && 0 < n <= Len(tiles[h]) && !t.free
    ensures NoFreeNeighbours(Taken(tiles, h, n, t), 0)
  {
    hide Len, FreeTile, TileOk;
    var end, tiles' := h + Len(tiles[h]), Taken(tiles, h, n, t);
    FreeTileLen(h + n, Len(tiles[h]) - n);
    TileStart(owner, tiles, h);
    if n < Len(tiles[h]) { NoHeaderInside(owner, tiles, h, h + n); }
    forall g | g in tiles' && tiles'[g].free && g + Len(tiles'[g]) in tiles'
      ensures !tiles'[g + Len(tiles'[g])].free
    {
      if g == h + n && n < Len(tiles[h]) {
        TileStart(owner, tiles, h);
      } else {
        TileStart(owner, tiles, g);
        if n < Len(tiles[h]) { EndsOutside(owner, tiles, g, h, h + n); }
      }
    }
  }

  /** No other block ends inside block h. */
  lemma EndsOutside(owner: map<nat, nat>, tiles: map<nat, Tile>, g: nat, h: nat, m: nat)
    requires Tiled(owner, tiles) && g in tiles && g != h && Covers(tiles, h, m) && h < m
    ensures g + Len(tiles[g]) != m
  {
    hide Len, TileOk;
    TileStart(owner, tiles, g);
    var y: nat := m - 1;
    assert Covers(tiles, g, y) <==> Owns(owner, g, y);
    assert Covers(tiles, h, y) <==> Owns(owner, h, y);
  }

  lemma SplitApart(owner: map<nat, nat>, tiles: map<nat, Tile>, h: nat, m: nat)
    requires Tiled(owner, tiles) && NoFreeNeighbours(tiles, 0)
    requires h in tiles && tiles[h].free && h < m < h + Len(tiles[h])
    ensures NoFreeNeighbours(tiles[h := FreeTile(m - h)][m := FreeTile(h + Len(tiles[h]) - m)], m)
  {
    hide Len, FreeTile, TileOk;
    var end := h + Len(tiles[h]);
    var tiles' := tiles[h := FreeTile(m - h)][m := FreeTile(end - m)];
    FreeTileLen(h, m - h);
    FreeTileLen(m, end - m);
    NoHeaderInside(owner, tiles, h, m);
    TileStart(owner, tiles, h);
    forall g | g in tiles' && tiles'[g].free && g + Len(tiles'[g]) in tiles' && g + Len(tiles'[g]) != m
      ensures !tiles'[g + Len(tiles'[g])].free
    {
      if g == m {
        assert end in tiles && end != h;
      } else if g != h {
        TileStart(owner, tiles, g);
        assert tiles'[g] == tiles[g];
      }
    }
  }

  lemma FreeAround(owner: map<nat, nat>, tiles: map<nat, Tile>, h: nat, t: Tile)
    requires Tiled(owner, tiles) && NoFreeNeighbours(tiles, 0) && h in tiles && Len(t) == Len(tiles[h])
    ensures NeighboursAround(tiles[h := t], h)
  {
    hide Len;
  }

  lemma NoSuccessor(owner: map<nat, nat>, tiles: map<nat, Tile>, h: nat)
    requires NeighboursAround(tiles, h) && h in tiles && Tiled(owner, tiles)
    requires !(h + Len(tiles[h]) in tiles && tiles[h + Len(tiles[h])].free)
    ensures NoFreeNeighbours(tiles, h)
  {
    hide Len;
  }

  lemma JoinSuccessor(owner: map<nat, nat>, tiles: map<nat, Tile>, h: nat)
    requires NeighboursAround(tiles, h) && Tiled(owner, tiles)
    requires h in tiles && tiles[h].free && h + Len(tiles[h]) in tiles && tiles[h + Len(tiles[h])].free
    ensures h < h + Len(tiles[h])
    ensures NoFreeNeighbours(Joined(tiles, h, h + Len(tiles[h])), h)
  {
    hide Len, FreeTile, TileOk;
    var m: nat := h + Len(tiles[h]);
    TileStart(owner, tiles, h);
    TileStart(owner, tiles, m);
    FreeTileLen(h, Len(tiles[h]) + Len(tiles[m]));
    var tiles' := Joined(tiles, h, m);
    forall g | g in tiles' && tiles'[g].free && g + Len(tiles'[g]) in tiles' && g + Len(tiles'[g]) != h
      ensures !tiles'[g + Len(tiles'[g])].free
    {
      if g == h {
        assert m + Len(tiles[m]) != h && m != h;
      }
    }
  }

  lemma JoinPredecessor(owner: map<nat, nat>, tiles: map<nat, Tile>, p: nat, h: nat)
    requires NoFreeNeighbours(tiles, h) && Tiled(owner, tiles)
    requires h in tiles && tiles[h].free && p in tiles && tiles[p].free && p + Len(tiles[p]) == h && p < h
    ensures NoFreeNeighbours(Joined(tiles, p, h), 0)
  {
    hide Len, FreeTile, TileOk;
    TileStart(owner, tiles, h);
    TileStart(owner, tiles, p);
    FreeTileLen(p, Len(tiles[p]) + Len(tiles[h]));
    var tiles' := Joined(tiles, p, h);
    forall g | g in tiles' && tiles'[g].free && g + Len(tiles'[g]) in tiles'
      ensures !tiles'[g + Len(tiles'[g])].free
    {
      if g == p {
        assert h + Len(tiles[h]) != h;
      } else {
        OnePredecessor(owner, tiles, g, p, h);
      }
    }
  }

  /** Two blocks that end at the same place are the same block. */
  lemma OnePredecessor(owner: map<nat, nat>, tiles: map<nat, Tile>, g: nat, p: nat, h: nat)
    requires Tiled(owner, tiles) && g in tiles && p in tiles && p + Len(tiles[p]) == h
    ensures g + Len(tiles[g]) == h ==> g == p
  {
    hide Len, TileOk;
    TileStart(owner, tiles, g);
    TileStart(owner, tiles, p);
    if g + Len(tiles[g]) == h {
      assert Covers(tiles, g, h - 1) && Covers(tiles, p, h - 1);
      assert Owns(owner, g, h - 1) && Owns(owner, p, h - 1);
    }
  }

  lemma NoPredecessor(owner: map<nat, nat>, tiles: map<nat, Tile>, h: nat)
    requires NoFreeNeighbours(tiles, h) && Tiled(owner, tiles)
    requires forall p :: p in tiles && tiles[p].free ==> p + Len(tiles[p]) != h
    ensures NoFreeNeighbours(tiles, 0)
  {
    hide Len;
  }
}
