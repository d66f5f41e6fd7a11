/** Which free list a block is on, through every change of the lists and the headers. */
module CouplingSteps {
  import opened HeapTiles
  import opened FreeLists
  import opened FreeListSteps

  lemma RemovedCoupled(tiles: map<nat, Tile>, f: Fl, es: set<nat>, i: nat, k: nat, sz: nat)
    requires FlOk(f) && i <= N_HBLK_FLS && k < |f.lists[i]| && sz <= f.bytes[i]
    requires Coupled(tiles, f, es)
    ensures Coupled(tiles, Removed(f, i, k, sz), es + {f.lists[i][k]})
    ensures !Listed(Removed(f, i, k, sz), f.lists[i][k])
    ensures forall x :: Listed(Removed(f, i, k, sz), x) ==> Listed(f, x)
  {
    hide Len;
    var h, g := f.lists[i][k], Removed(f, i, k, sz);
    assert DList(f.next, f.prev, f.heads[i], f.lists[i]);
    assert h in f.lists[i];
    forall j: nat, x | j < |g.lists|
      ensures x in g.lists[j] <==> x in f.lists[j] && !(j == i && x == h)
    {
      if j == i { InWithout(f.lists[i], k, x); }
    }
  }

  lemma AddedCoupled(tiles: map<nat, Tile>, f: Fl, es: set<nat>, h: nat, sz: nat)
    requires FlOk(f) && Coupled(tiles, f, es)
    requires h in es && h in tiles && tiles[h].free && !Listed(f, h)
    ensures Coupled(tiles, Added(f, FlIndex(Len(tiles[h])), h, sz), es - {h})
    ensures forall x :: Listed(Added(f, FlIndex(Len(tiles[h])), h, sz), x) ==> x == h || Listed(f, x)
  {
    hide Len;
    var i := FlIndex(Len(tiles[h]));
    var g := Added(f, i, h, sz);
    forall j: nat, x | j < |g.lists|
      ensures x in g.lists[j] <==> x in f.lists[j] || (j == i && x == h)
    {
    }
  }

  lemma ReplacedCoupled(tiles: map<nat, Tile>, f: Fl, i: nat, k: nat, n: nat, less: nat)
    requires FlOk(f) && Coupled(tiles, f, {})
    requires i <= N_HBLK_FLS && k < |f.lists[i]| && less <= f.bytes[i] && !Listed(f, n)
    ensures Coupled(tiles, Replaced(f, i, k, n, less), {f.lists[i][k], n})
    ensures n in Replaced(f, i, k, n, less).lists[i]
  {
    hide Len;
    var h, g := f.lists[i][k], Replaced(f, i, k, n, less);
    assert DList(f.next, f.prev, f.heads[i], f.lists[i]);
    assert g.lists[i][k] == n;
    forall j: nat, x | j < |g.lists|
      ensures x != h && x != n ==> (x in g.lists[j] <==> x in f.lists[j])
    {
      if j == i && x in f.lists[i] && x != h {
        var m :| 0 <= m < |f.lists[i]| && f.lists[i][m] == x;
        assert g.lists[i][m] == x;
      }
    }
  }

  /** Headers change only inside es; those leaving es are neither listed nor free. */
  lemma Recouple(tiles: map<nat, Tile>, tiles': map<nat, Tile>, f: Fl, es: set<nat>, es': set<nat>)
    requires Coupled(tiles, f, es)
    requires forall x :: x !in es ==> (x in tiles' <==> x in tiles) && (x in tiles ==> tiles'[x] == tiles[x])
    requires es' <= es
    requires forall x :: x in es && x !in es' ==> !Listed(f, x) && (x in tiles' ==> !tiles'[x].free)
    ensures Coupled(tiles', f, es')
  {
    hide Len;
  }

  /** More blocks may be left out of account. */
  lemma CoupledLess(tiles: map<nat, Tile>, f: Fl, es: set<nat>, es': set<nat>)
    requires Coupled(tiles, f, es) && es <= es'
    ensures Coupled(tiles, f, es')
  {
    hide Len;
  }

  lemma SumsFrame(tiles: map<nat, Tile>, tiles': map<nat, Tile>, f: Fl, es: set<nat>)
    requires SumsOk(tiles, f)
    requires forall x :: x !in es ==> SzOf(tiles', x) == SzOf(tiles, x)
    requires forall x :: x in es ==> !Listed(f, x)
    ensures SumsOk(tiles', f)
  {
    forall i: nat | i < |f.lists|
      ensures f.bytes[i] == SumSz(tiles', f.lists[i])
    {
      SumFrame(tiles, tiles', f.lists[i]);
    }
  }
}
