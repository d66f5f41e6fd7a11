/** Allocation out of a free block: the lists and the counters. */
module TakeSteps {
  import opened Basics
  import opened HeapTiles
  import opened FreeLists
  import opened TileSteps
  import opened FreeListSteps
  import opened CouplingSteps
  import opened HeapInv

  /** The free lists after the k-th block h of list i was removed and its rest, if any, returned. */
  function TakenLists(tiles: map<nat, Tile>, f: Fl, i: nat, k: nat, n: nat): Fl
    requires i < |f.lists| == |f.heads| == |f.bytes| == N_HBLK_FLS + 1 && k < |f.lists[i]|
    requires SzOf(tiles, f.lists[i][k]) <= f.bytes[i] && f.lists[i][k] in tiles
  {
    var h: nat := f.lists[i][k];
    var f1 := Removed(f, i, k, tiles[h].sz);
    if n < Len(tiles[h]) then
      var r := FreeTile(Len(tiles[h]) - n);
      Added(f1, FlIndex(Len(r)), h + n, r.sz)
    else f1
  }

  lemma Unlisted(tiles: map<nat, Tile>, f: Fl, es: set<nat>, x: nat)
    requires Coupled(tiles, f, es) && x !in tiles && x !in es
    ensures !Listed(f, x)
  {
  }

  lemma RestAdded(tiles: map<nat, Tile>, f: Fl, h: nat, r: nat, n: nat)
    requires FlOk(f) && SumsOk(tiles, f) && Coupled(tiles, f, {h}) && !Listed(f, h)
    requires r !in tiles && r != 0 && r != h && 0 < n
    ensures var t := FreeTile(n);
      var tiles', f' := tiles[r := t], Added(f, FlIndex(Len(t)), r, t.sz);
      && FlOk(f') && SumsOk(tiles', f') && Coupled(tiles', f', {h}) && !Listed(f', h)
  {
    hide Len, FreeTile, FlOk, SumsOk, Coupled, Listed, FlIndex, Added;
    var t := FreeTile(n);
    var tiles' := tiles[r := t];
    FreeTileLen(r, n);
    Unlisted(tiles, f, {h}, r);
    CoupledLess(tiles, f, {h}, {h, r});
    Recouple(tiles, tiles', f, {h, r}, {h, r});
    SumsFrame(tiles, tiles', f, {r});
    FlIndexBound(Len(t));
    ListsCount(f);
    AddedOk(tiles', f, FlIndex(Len(t)), r);
    AddedCoupled(tiles', f, {h, r}, r, t.sz);
    assert {h, r} - {r} == {h};
  }

  lemma FlIndexBound(n: nat)
    ensures FlIndex(n) <= N_HBLK_FLS
  {
  }

  lemma ListsCount(f: Fl)
    requires FlOk(f)
    ensures |f.lists| == |f.heads| == |f.bytes| == N_HBLK_FLS + 1
  {
  }

  lemma TakeLists(tiles: map<nat, Tile>, f: Fl, i: nat, k: nat, n: nat, t: Tile, es: set<nat>)
    requires FlOk(f) && SumsOk(tiles, f) && Coupled(tiles, f, es)
    requires i <= N_HBLK_FLS && k < |f.lists[i]| && es <= {f.lists[i][k]}
    requires f.lists[i][k] in tiles && !t.free && 0 < n <= Len(tiles[f.lists[i][k]])
    requires n < Len(tiles[f.lists[i][k]]) ==> f.lists[i][k] + n !in tiles
    ensures var h := f.lists[i][k];
      && SzOf(tiles, h) <= f.bytes[i]
      && FlOk(TakenLists(tiles, f, i, k, n))
      && SumsOk(Taken(tiles, h, n, t), TakenLists(tiles, f, i, k, n))
      && Coupled(Taken(tiles, h, n, t), TakenLists(tiles, f, i, k, n), {})
  {
    hide Len, FlOk, SumsOk, Coupled, Listed, FlIndex, Added, Removed, FreeTile;
    ListsCount(f);
    var h: nat := f.lists[i][k];
    RemovedOk(tiles, f, i, k);
    RemovedCoupled(tiles, f, es, i, k, tiles[h].sz);
    var f1 := Removed(f, i, k, tiles[h].sz);
    assert es + {h} == {h};
    var tiles1 := if n < Len(tiles[h]) then tiles[h + n := FreeTile(Len(tiles[h]) - n)] else tiles;
    if n < Len(tiles[h]) { RestAdded(tiles, f1, h, h + n, Len(tiles[h]) - n); }
    var g := TakenLists(tiles, f, i, k, n);
    assert Taken(tiles, h, n, t) == tiles1[h := t];
    Recouple(tiles1, tiles1[h := t], g, {h}, {});
    SumsFrame(tiles1, tiles1[h := t], g, {h});
  }

  lemma TakeSum(tiles: map<nat, Tile>, f: Fl, i: nat, k: nat, n: nat)
    requires FlOk(f) && SumsOk(tiles, f) && i <= N_HBLK_FLS && k < |f.lists[i]|
    requires f.lists[i][k] in tiles && 0 < n <= Len(tiles[f.lists[i][k]])
    requires tiles[f.lists[i][k]].free && tiles[f.lists[i][k]].sz % HBLKSIZE == 0
    ensures SzOf(tiles, f.lists[i][k]) <= f.bytes[i]
    ensures SumAll(TakenLists(tiles, f, i, k, n).bytes) == SumAll(f.bytes) - HBLKSIZE * n
  {
    hide FlOk, SumsOk, FlIndex, SumAll;
    ListsCount(f);
    SizeFits(tiles, f, i, k);
    var h: nat := f.lists[i][k];
    FreeLen(tiles[h]);
    SumAllUpdate(f.bytes, i, f.bytes[i] - tiles[h].sz);
    if n < Len(tiles[h]) {
      var r := FreeTile(Len(tiles[h]) - n);
      FlIndexBound(Len(r));
      var b := f.bytes[i := f.bytes[i] - tiles[h].sz];
      SumAllUpdate(b, FlIndex(Len(r)), b[FlIndex(Len(r))] + r.sz);
    }
  }
}
