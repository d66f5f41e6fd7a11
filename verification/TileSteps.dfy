/** Splitting, joining, allocating and freeing keep the tiling and the index in agreement. */
module TileSteps {
  import opened Basics
  import opened HeapTiles

  lemma FreeTileLen(h: nat, n: nat)
    ensures Len(FreeTile(n)) == n && FreeTile(n).free
    ensures 0 < h && 0 < n ==> TileOk(h, FreeTile(n))
  {
  }

  lemma FreeLen(t: Tile)
    requires t.free && t.sz % HBLKSIZE == 0
    ensures t.sz == HBLKSIZE * Len(t)
    ensures 0 < t.sz <==> 0 < Len(t)
  {
  }

  lemma TileStart(owner: map<nat, nat>, tiles: map<nat, Tile>, h: nat)
    requires Tiled(owner, tiles) && h in tiles
    ensures TileOk(h, tiles[h])
    ensures 0 < h && 0 < Len(tiles[h]) && h in owner && owner[h] == h
  {
    assert TileOk(h, tiles[h]);
    assert Covers(tiles, h, h) ==> Owns(owner, h, h);
  }

  /** No header lies inside another block. */
  lemma NoHeaderInside(owner: map<nat, nat>, tiles: map<nat, Tile>, h: nat, m: nat)
    requires Tiled(owner, tiles) && Covers(tiles, h, m)
    ensures m in owner && owner[m] == h
    ensures h < m ==> m !in tiles
  {
    assert Owns(owner, h, m);
    if m in tiles { TileStart(owner, tiles, m); }
  }

  lemma OwnerOf(owner: map<nat, nat>, tiles: map<nat, Tile>, x: nat)
    requires Tiled(owner, tiles) && x in owner
    ensures Covers(tiles, owner[x], x)
  {
    assert Owns(owner, owner[x], x);
  }

  /** Free block h becomes two free blocks, h .. m-1 and m .. */
  lemma SplitTiled(owner: map<nat, nat>, tiles: map<nat, Tile>, h: nat, m: nat)
    requires Tiled(owner, tiles)
    requires h in tiles && tiles[h].free && h < m < h + Len(tiles[h])
    ensures var n := h + Len(tiles[h]);
      && Tiled(Reown(owner, m, n, m), tiles[h := FreeTile(m - h)][m := FreeTile(n - m)])
      && m !in tiles
  {
    hide Len, FreeTile, TileOk;
    var n := h + Len(tiles[h]);
    FreeTileLen(h, m - h);
    FreeTileLen(m, n - m);
    TileStart(owner, tiles, h);
    NoHeaderInside(owner, tiles, h, m);
    var owner', tiles' := Reown(owner, m, n, m), tiles[h := FreeTile(m - h)][m := FreeTile(n - m)];
    forall g, x
      ensures Covers(tiles', g, x) <==> Owns(owner', g, x)
    {
      assert Covers(tiles, g, x) <==> Owns(owner, g, x);
      assert Covers(tiles, h, x) <==> Owns(owner, h, x);
    }
  }

  lemma SplitIndexed(owner: map<nat, nat>, tiles: map<nat, Tile>, jump: map<nat, nat>, h: nat, m: nat, e: nat)
    requires Tiled(owner, tiles) && Indexed(owner, tiles, jump, e)
    requires h in tiles && tiles[h].free && h < m < h + Len(tiles[h]) && e != h && m !in tiles
    ensures var n := h + Len(tiles[h]);
      Indexed(Reown(owner, m, n, m), tiles[h := FreeTile(m - h)][m := FreeTile(n - m)], jump, e)
  {
    hide Len, TileOk;
    var n := h + Len(tiles[h]);
    var owner', tiles' := Reown(owner, m, n, m), tiles[h := FreeTile(m - h)][m := FreeTile(n - m)];
    forall g, x | Owns(owner', g, x) && g != e
      ensures SlotOk(tiles', jump, g, x)
    {
      assert Covers(tiles, g, x) <==> Owns(owner, g, x);
      assert Covers(tiles, h, x) <==> Owns(owner, h, x);
      assert Owns(owner, h, x) ==> SlotOk(tiles, jump, h, x);
    }
    forall x | x in jump
      ensures owner'[x] < x
    {
      assert Owns(owner, owner[x], x);
      assert Covers(tiles, h, x) <==> Owns(owner, h, x);
      assert Owns(owner, h, x) ==> SlotOk(tiles, jump, h, x);
    }
  }

  lemma SplitFreeCells(owner: map<nat, nat>, tiles: map<nat, Tile>, h: nat, m: nat)
    requires Tiled(owner, tiles)
    requires h in tiles && tiles[h].free && h < m < h + Len(tiles[h]) && m !in tiles
    ensures var n := h + Len(tiles[h]);
      FreeCells(Reown(owner, m, n, m), tiles[h := FreeTile(m - h)][m := FreeTile(n - m)]) == FreeCells(owner, tiles)
  {
    hide Len, TileOk;
    var n := h + Len(tiles[h]);
    forall x | x in owner
      ensures m <= x < n ==> owner[x] == h
      ensures owner[x] != m
    {
      assert Covers(tiles, h, x) <==> Owns(owner, h, x);
      assert Covers(tiles, m, x) <==> Owns(owner, m, x);
    }
  }

  function Joined(tiles: map<nat, Tile>, h: nat, m: nat): map<nat, Tile>
    requires h in tiles && m in tiles && h != m
  {
    (tiles - {m})[h := FreeTile(Len(tiles[h]) + Len(tiles[m]))]
  }

  /** Free blocks h and m, m right behind h, become one. */
  lemma JoinTiled(owner: map<nat, nat>, tiles: map<nat, Tile>, h: nat, m: nat)
    requires Tiled(owner, tiles)
    requires h in tiles && m in tiles && m == h + Len(tiles[h]) && h < m
    ensures Tiled(Reown(owner, m, m + Len(tiles[m]), h), Joined(tiles, h, m))
  {
    hide Len, FreeTile, TileOk;
    FreeTileLen(h, Len(tiles[h]) + Len(tiles[m]));
    TileStart(owner, tiles, h);
    TileStart(owner, tiles, m);
    var owner', tiles' := Reown(owner, m, m + Len(tiles[m]), h), Joined(tiles, h, m);
    forall g, x
      ensures Covers(tiles', g, x) <==> Owns(owner', g, x)
    {
      assert Covers(tiles, g, x) <==> Owns(owner, g, x);
      assert Covers(tiles, h, x) <==> Owns(owner, h, x);
      assert Covers(tiles, m, x) <==> Owns(owner, m, x);
    }
  }

  lemma JoinIndexed(owner: map<nat, nat>, tiles: map<nat, Tile>, jump: map<nat, nat>, h: nat, m: nat)
    requires Tiled(owner, tiles) && Indexed(owner, tiles, jump, 0)
    requires h in tiles && m in tiles && m == h + Len(tiles[h]) && h < m && tiles[h].free && tiles[m].free
    ensures Indexed(Reown(owner, m, m + Len(tiles[m]), h), Joined(tiles, h, m), jump, 0)
  {
    hide Len, TileOk;
    TileStart(owner, tiles, h);
    TileStart(owner, tiles, m);
    var owner', tiles' := Reown(owner, m, m + Len(tiles[m]), h), Joined(tiles, h, m);
    forall g, x | Owns(owner', g, x) && g != 0
      ensures SlotOk(tiles', jump, g, x)
    {
      assert Covers(tiles, g, x) <==> Owns(owner, g, x);
      assert Covers(tiles, m, x) <==> Owns(owner, m, x);
      assert Owns(owner, m, x) ==> SlotOk(tiles, jump, m, x);
      assert Owns(owner, g, x) ==> SlotOk(tiles, jump, g, x);
    }
    forall x | x in jump
      ensures owner'[x] < x
    {
      assert Owns(owner, owner[x], x);
    }
  }

  lemma JoinFreeCells(owner: map<nat, nat>, tiles: map<nat, Tile>, h: nat, m: nat)
    requires Tiled(owner, tiles)
    requires h in tiles && m in tiles && m == h + Len(tiles[h]) && h < m && tiles[h].free && tiles[m].free
    ensures FreeCells(Reown(owner, m, m + Len(tiles[m]), h), Joined(tiles, h, m)) == FreeCells(owner, tiles)
  {
    hide Len, TileOk;
    forall x | x in owner
      ensures owner[x] == m <==> m <= x < m + Len(tiles[m])
    {
      assert Covers(tiles, m, x) <==> Owns(owner, m, x);
    }
  }

  /** Changing what block h is used for, not its extent. */
  lemma ReuseTiled(owner: map<nat, nat>, tiles: map<nat, Tile>, h: nat, t: Tile)
    requires Tiled(owner, tiles) && h in tiles && TileOk(h, t) && Len(t) == Len(tiles[h])
    ensures Tiled(owner, tiles[h := t])
  {
    hide Len, TileOk;
    forall g, x
      ensures Covers(tiles[h := t], g, x) <==> Owns(owner, g, x)
    {
      assert Covers(tiles, g, x) <==> Owns(owner, g, x);
    }
  }

  /** jump' has the forwarding counts of an allocated block h of n blocks, and is otherwise jump. */
  ghost predicate CountsSet(jump: map<nat, nat>, jump': map<nat, nat>, h: nat, n: nat) {
    forall x :: if h < x < h + n then x in jump' && jump'[x] == Min(x - h, MAX_JUMP)
                else (x in jump' <==> x in jump) && (x in jump ==> jump'[x] == jump[x])
  }

  ghost predicate CountsCleared(jump: map<nat, nat>, jump': map<nat, nat>, h: nat, n: nat) {
    forall x :: if h < x < h + n then x !in jump'
                else (x in jump' <==> x in jump) && (x in jump ==> jump'[x] == jump[x])
  }

  /** Allocating block h: its counts are installed and its header set up. */
  lemma AllocIndexed(owner: map<nat, nat>, tiles: map<nat, Tile>, jump: map<nat, nat>, jump': map<nat, nat>, h: nat, t: Tile)
    requires Tiled(owner, tiles) && Indexed(owner, tiles, jump, 0)
    requires h in tiles && !t.free && Len(t) == Len(tiles[h])
    requires CountsSet(jump, jump', h, Len(t))
    ensures Indexed(owner, tiles[h := t], jump', 0)
  {
    hide Len, TileOk;
    forall g, x | Owns(owner, g, x) && g != 0
      ensures SlotOk(tiles[h := t], jump', g, x)
    {
      assert Covers(tiles, g, x) <==> Owns(owner, g, x);
      assert Covers(tiles, h, x) <==> Owns(owner, h, x);
      assert SlotOk(tiles, jump, g, x);
    }
    forall x | x in jump'
      ensures x in owner && owner[x] < x
    {
      assert Covers(tiles, h, x) <==> Owns(owner, h, x);
    }
  }

  /** Freeing block h, whose counts are gone. */
  lemma FreeIndexed(owner: map<nat, nat>, tiles: map<nat, Tile>, jump: map<nat, nat>, jump': map<nat, nat>, h: nat, t: Tile)
    requires Tiled(owner, tiles) && Indexed(owner, tiles, jump, h)
    requires h in tiles && t.free && Len(t) == Len(tiles[h])
    requires CountsCleared(jump, jump', h, Len(t))
    ensures Indexed(owner, tiles[h := t], jump', 0)
  {
    hide Len, TileOk;
    forall g, x | Owns(owner, g, x) && g != 0
      ensures SlotOk(tiles[h := t], jump', g, x)
    {
      assert Covers(tiles, g, x) <==> Owns(owner, g, x);
      assert Covers(tiles, h, x) <==> Owns(owner, h, x);
      assert g != h ==> SlotOk(tiles, jump, g, x);
    }
  }

  lemma ReuseFreeCells(owner: map<nat, nat>, tiles: map<nat, Tile>, h: nat, t: Tile)
    requires Tiled(owner, tiles) && h in tiles
    ensures FreeCells(owner, tiles[h := t]) ==
            (if t.free then FreeCells(owner, tiles) + CellsOf(owner, h) else FreeCells(owner, tiles) - CellsOf(owner, h))
    ensures tiles[h].free ==> CellsOf(owner, h) <= FreeCells(owner, tiles)
    ensures !tiles[h].free ==> CellsOf(owner, h) !! FreeCells(owner, tiles)
  {
  }

  /** lo, lo + 1, .., lo + n - 1. */
  function Interval(lo: nat, n: nat): (s: set<nat>)
    ensures forall x :: x in s <==> lo <= x < lo + n
    ensures |s| == n
  {
    if n == 0 then {} else Interval(lo, n - 1) + {lo + n - 1}
  }

  /** A block has as many blocks of memory as its header says. */
  lemma CellCount(owner: map<nat, nat>, tiles: map<nat, Tile>, h: nat)
    requires Tiled(owner, tiles) && h in tiles
    ensures |CellsOf(owner, h)| == Len(tiles[h])
  {
    hide Len;
    forall x
      ensures x in CellsOf(owner, h) <==> x in Interval(h, Len(tiles[h]))
    {
      assert Covers(tiles, h, x) <==> Owns(owner, h, x);
    }
    assert CellsOf(owner, h) == Interval(h, Len(tiles[h]));
  }

  /** Allocating the front of a free block: split if it is too long, then reuse. */
  lemma TakenTiled(owner: map<nat, nat>, tiles: map<nat, Tile>, jump: map<nat, nat>, jump': map<nat, nat>, h: nat, n: nat, t: Tile)
    requires Tiled(owner, tiles) && Indexed(owner, tiles, jump, 0)
    requires h in tiles && tiles[h].free && 0 < n <= Len(tiles[h])
    requires !t.free && Len(t) == n && TileOk(h, t) && CountsSet(jump, jump', h, n)
    ensures var end := h + Len(tiles[h]);
      var owner' := Reown(owner, h + n, end, h + n);
      && Tiled(owner', Taken(tiles, h, n, t))
      && Indexed(owner', Taken(tiles, h, n, t), jump', 0)
      && FreeCells(owner', Taken(tiles, h, n, t)) == FreeCells(owner, tiles) - CellsOf(owner', h)
      && CellsOf(owner', h) <= FreeCells(owner, tiles) && |CellsOf(owner', h)| == n
      && (n < Len(tiles[h]) ==> h + n !in tiles)
  {
    hide Len, TileOk, FreeTile, Tiled, Indexed, CountsSet, FreeCells, CellsOf;
    var end := h + Len(tiles[h]);
    var owner' := Reown(owner, h + n, end, h + n);
    TileStart(owner, tiles, h);
    FreeTileLen(h, n);
    if n == Len(tiles[h]) {
      assert owner' == owner;
      ReuseTiled(owner, tiles, h, t);
      AllocIndexed(owner, tiles, jump, jump', h, t);
      ReuseFreeCells(owner, tiles, h, t);
      CellCount(owner, tiles, h);
    } else {
      var tiles1 := tiles[h := FreeTile(n)][h + n := FreeTile(end - (h + n))];
      SplitTiled(owner, tiles, h, h + n);
      SplitIndexed(owner, tiles, jump, h, h + n, 0);
      SplitFreeCells(owner, tiles, h, h + n);
      assert tiles1[h := t] == Taken(tiles, h, n, t);
      ReuseTiled(owner', tiles1, h, t);
      AllocIndexed(owner', tiles1, jump, jump', h, t);
      ReuseFreeCells(owner', tiles1, h, t);
      CellCount(owner', tiles1, h);
    }
  }
}
