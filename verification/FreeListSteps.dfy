/** Relinking keeps the free lists well formed and their byte counts right. */
module FreeListSteps {
  import opened HeapTiles
  import opened FreeLists

  lemma DListFrame(next: map<nat, nat>, prev: map<nat, nat>, next': map<nat, nat>, prev': map<nat, nat>, head: nat, s: seq<nat>)
    requires DList(next, prev, head, s)
    requires forall x :: x in s ==> (x in next ==> x in next' && next'[x] == next[x]) && (x in prev ==> x in prev' && prev'[x] == prev[x])
    ensures DList(next', prev', head, s)
  {
    forall k: nat | k < |s|
      ensures Node(next', prev', s, k)
    {
      assert Node(next, prev, s, k) && s[k] in s;
    }
  }

  /** The links after GC_remove_from_fl_at. */
  function UnlinkNext(next: map<nat, nat>, p: nat, n: nat): map<nat, nat> { if p == 0 then next else next[p := n] }
  function UnlinkPrev(prev: map<nat, nat>, p: nat, n: nat): map<nat, nat> { if n == 0 then prev else prev[n := p] }

  lemma RemoveDList(next: map<nat, nat>, prev: map<nat, nat>, head: nat, s: seq<nat>, k: nat)
    requires DList(next, prev, head, s) && k < |s|
    ensures var p, n := Before(s, k), After(s, k);
      && Node(next, prev, s, k)
      && DList(UnlinkNext(next, p, n), UnlinkPrev(prev, p, n), if p == 0 then n else head, Without(s, k))
  {
    var p, n, t := Before(s, k), After(s, k), Without(s, k);
    var next', prev' := UnlinkNext(next, p, n), UnlinkPrev(prev, p, n);
    assert Node(next, prev, s, k);
    if 0 < k { assert Node(next, prev, s, k - 1); }
    if k + 1 < |s| { assert Node(next, prev, s, k + 1); }
    forall j: nat | j < |t|
      ensures Node(next', prev', t, j)
    {
      var i := if j < k then j else j + 1;
      assert t[j] == s[i] && Node(next, prev, s, i);
    }
  }

  lemma InsertDList(next: map<nat, nat>, prev: map<nat, nat>, head: nat, s: seq<nat>, h: nat)
    requires DList(next, prev, head, s) && h != 0 && h !in s
    ensures DList(next[h := head], (if head == 0 then prev[h := 0] else prev[h := 0][head := h]), h, [h] + s)
  {
    var t := [h] + s;
    var next', prev' := next[h := head], if head == 0 then prev[h := 0] else prev[h := 0][head := h];
    forall j: nat | j < |t|
      ensures Node(next', prev', t, j)
    {
      if 0 < j { assert Node(next, prev, s, j - 1) && s[j - 1] in s; }
    }
  }

  /** n takes the place of the k-th block. */
  lemma ReplaceDList(next: map<nat, nat>, prev: map<nat, nat>, head: nat, s: seq<nat>, k: nat, n: nat)
    requires DList(next, prev, head, s) && k < |s| && n != 0 && n !in s
    ensures var p, a := Before(s, k), After(s, k);
      var next', prev' := next[n := a], prev[n := p];
      && Node(next, prev, s, k)
      && (p != 0 ==> p in next) && (a != 0 ==> a in prev)
      && DList(if p == 0 then next' else next'[p := n], if a == 0 then prev' else prev'[a := n],
               if p == 0 then n else head, s[k := n])
  {
    var p, a, t := Before(s, k), After(s, k), s[k := n];
    var next', prev' := if p == 0 then next[n := a] else next[n := a][p := n], if a == 0 then prev[n := p] else prev[n := p][a := n];
    assert Node(next, prev, s, k);
    if 0 < k { assert Node(next, prev, s, k - 1); }
    if k + 1 < |s| { assert Node(next, prev, s, k + 1); }
    forall j: nat | j < |t|
      ensures Node(next', prev', t, j)
    {
      assert Node(next, prev, s, j) && s[j] in s;
    }
  }

  lemma InWithout(s: seq<nat>, k: nat, x: nat)
    requires NoDup(s) && k < |s|
    ensures x in Without(s, k) <==> x in s && x != s[k]
  {
    if x in s && x != s[k] {
      var i :| 0 <= i < |s| && s[i] == x;
      assert Without(s, k)[if i < k then i else i - 1] == x;
    }
  }

  lemma {:induction false} SumWithout(tiles: map<nat, Tile>, s: seq<nat>, k: nat)
    requires k < |s|
    ensures SumSz(tiles, s) == SumSz(tiles, Without(s, k)) + SzOf(tiles, s[k])
  {
    if k == 0 {
      assert Without(s, 0) == s[1..];
    } else {
      SumWithout(tiles, s[1..], k - 1);
      assert Without(s, k)[1..] == Without(s[1..], k - 1) && Without(s, k)[0] == s[0];
    }
  }

  lemma {:induction false} SumFrame(tiles: map<nat, Tile>, tiles': map<nat, Tile>, s: seq<nat>)
    requires forall x :: x in s ==> SzOf(tiles', x) == SzOf(tiles, x)
    ensures SumSz(tiles', s) == SumSz(tiles, s)
  {
    if s != [] { SumFrame(tiles, tiles', s[1..]); }
  }

  lemma SumInsert(tiles: map<nat, Tile>, s: seq<nat>, h: nat)
    ensures SumSz(tiles, [h] + s) == SzOf(tiles, h) + SumSz(tiles, s)
  {
    assert ([h] + s)[1..] == s;
  }

  lemma {:induction false} SumAllUpdate(s: seq<nat>, i: nat, v: nat)
    requires i < |s|
    ensures SumAll(s[i := v]) == SumAll(s) - s[i] + v
  {
    if i == 0 { assert s[0 := v][1..] == s[1..]; }
    else {
      SumAllUpdate(s[1..], i - 1, v);
      assert s[i := v][1..] == s[1..][i - 1 := v];
    }
  }

  /** GC_remove_from_fl_at for the k-th block of list i. */
  function Removed(f: Fl, i: nat, k: nat, sz: nat): Fl
    requires i < |f.lists| == |f.heads| == |f.bytes| && k < |f.lists[i]| && sz <= f.bytes[i]
  {
    var s := f.lists[i];
    var p, n := Before(s, k), After(s, k);
    Fl(UnlinkNext(f.next, p, n), UnlinkPrev(f.prev, p, n),
       if p == 0 then f.heads[i := n] else f.heads, f.bytes[i := f.bytes[i] - sz], f.lists[i := Without(s, k)])
  }

  lemma SizeFits(tiles: map<nat, Tile>, f: Fl, i: nat, k: nat)
    requires SumsOk(tiles, f) && i < |f.lists| && k < |f.lists[i]|
    ensures SzOf(tiles, f.lists[i][k]) <= f.bytes[i]
  {
    SumWithout(tiles, f.lists[i], k);
  }

  lemma RemovedOk(tiles: map<nat, Tile>, f: Fl, i: nat, k: nat)
    requires FlOk(f) && SumsOk(tiles, f) && i <= N_HBLK_FLS && k < |f.lists[i]|
    ensures SzOf(tiles, f.lists[i][k]) <= f.bytes[i]
    ensures FlOk(Removed(f, i, k, SzOf(tiles, f.lists[i][k])))
    ensures SumsOk(tiles, Removed(f, i, k, SzOf(tiles, f.lists[i][k])))
  {
    hide DList, SumSz;
    SumWithout(tiles, f.lists[i], k);
    var g := Removed(f, i, k, SzOf(tiles, f.lists[i][k]));
    forall j: nat | j <= N_HBLK_FLS
      ensures DList(g.next, g.prev, g.heads[j], g.lists[j])
    {
      RemoveDList(f.next, f.prev, f.heads[i], f.lists[i], k);
      if j != i { OtherList(f, i, k, j); }
    }
    forall j: nat, x | j <= N_HBLK_FLS && x in g.lists[j]
      ensures x in f.lists[j]
    {
    }
  }

  /** Removing from list i does not touch list j. */
  lemma OtherList(f: Fl, i: nat, k: nat, j: nat)
    requires FlOk(f) && i <= N_HBLK_FLS && j <= N_HBLK_FLS && i != j && k < |f.lists[i]|
    ensures var p, n := Before(f.lists[i], k), After(f.lists[i], k);
      DList(UnlinkNext(f.next, p, n), UnlinkPrev(f.prev, p, n), f.heads[j], f.lists[j])
  {
    hide DList;
    var s := f.lists[i];
    var p, n := Before(s, k), After(s, k);
    assert p != 0 ==> p in s;
    assert n != 0 ==> n in s;
    DListFrame(f.next, f.prev, UnlinkNext(f.next, p, n), UnlinkPrev(f.prev, p, n), f.heads[j], f.lists[j]);
  }

  /** GC_add_to_fl for a block h on list i. */
  function Added(f: Fl, i: nat, h: nat, sz: nat): Fl
    requires i < |f.lists| == |f.heads| == |f.bytes|
  {
    var second := f.heads[i];
    Fl(f.next[h := second], if second == 0 then f.prev[h := 0] else f.prev[h := 0][second := h],
       f.heads[i := h], f.bytes[i := f.bytes[i] + sz], f.lists[i := [h] + f.lists[i]])
  }

  lemma AddedOk(tiles: map<nat, Tile>, f: Fl, i: nat, h: nat)
    requires FlOk(f) && SumsOk(tiles, f) && i <= N_HBLK_FLS && h != 0 && !Listed(f, h)
    ensures FlOk(Added(f, i, h, SzOf(tiles, h)))
    ensures SumsOk(tiles, Added(f, i, h, SzOf(tiles, h)))
  {
    hide DList, SumSz;
    SumInsert(tiles, f.lists[i], h);
    var g := Added(f, i, h, SzOf(tiles, h));
    assert h !in f.lists[i];
    assert DList(f.next, f.prev, f.heads[i], f.lists[i]);
    InsertDList(f.next, f.prev, f.heads[i], f.lists[i], h);
    HeadListed(f, i);
    forall j: nat | j <= N_HBLK_FLS
      ensures DList(g.next, g.prev, g.heads[j], g.lists[j])
    {
      if j != i { DListFrame(f.next, f.prev, g.next, g.prev, f.heads[j], f.lists[j]); }
    }
    forall j: nat, x | j <= N_HBLK_FLS && x in g.lists[j]
      ensures x in f.lists[j] || (j == i && x == h)
    {
    }
  }

  lemma HeadListed(f: Fl, i: nat)
    requires FlOk(f) && i <= N_HBLK_FLS
    ensures f.heads[i] == First(f.lists[i])
    ensures f.heads[i] != 0 ==> f.heads[i] in f.lists[i]
  {
    assert DList(f.next, f.prev, f.heads[i], f.lists[i]);
  }

  /** The first half of GC_split_block: n takes h's place on list i, and GC_free_bytes loses what
      n is smaller than h. */
  function Replaced(f: Fl, i: nat, k: nat, n: nat, less: nat): Fl
    requires i < |f.lists| == |f.heads| == |f.bytes| && k < |f.lists[i]| && less <= f.bytes[i]
  {
    var p, a := Before(f.lists[i], k), After(f.lists[i], k);
    var s: seq<nat> := f.lists[i][k := n];
    Fl(if p == 0 then f.next[n := a] else f.next[n := a][p := n],
       if a == 0 then f.prev[n := p] else f.prev[n := p][a := n],
       if p == 0 then f.heads[i := n] else f.heads, f.bytes[i := f.bytes[i] - less], f.lists[i := s])
  }

  lemma ReplacedOk(tiles: map<nat, Tile>, tiles': map<nat, Tile>, f: Fl, i: nat, k: nat, n: nat, less: nat)
    requires FlOk(f) && SumsOk(tiles, f) && i <= N_HBLK_FLS && k < |f.lists[i]| && n != 0 && !Listed(f, n)
    requires forall x :: x != n && x != f.lists[i][k] ==> SzOf(tiles', x) == SzOf(tiles, x)
    requires SzOf(tiles', n) + less == SzOf(tiles, f.lists[i][k])
    ensures less <= f.bytes[i]
    ensures FlOk(Replaced(f, i, k, n, less))
    ensures SumsOk(tiles', Replaced(f, i, k, n, less))
    ensures !Listed(Replaced(f, i, k, n, less), f.lists[i][k])
  {
    hide DList, SumSz;
    SizeFits(tiles, f, i, k);
    var g, h := Replaced(f, i, k, n, less), f.lists[i][k];
    assert n !in f.lists[i];
    assert DList(f.next, f.prev, f.heads[i], f.lists[i]);
    ReplaceDList(f.next, f.prev, f.heads[i], f.lists[i], k, n);
    ReplaceSum(tiles, tiles', f.lists[i], f.next, f.prev, f.heads[i], k, n);
    forall j: nat | j <= N_HBLK_FLS
      ensures DList(g.next, g.prev, g.heads[j], g.lists[j])
      ensures g.bytes[j] == SumSz(tiles', g.lists[j])
      ensures h !in g.lists[j]
    {
      ReplaceElsewhere(f, i, k, n, j);
      if j != i { SumFrame(tiles, tiles', f.lists[j]); }
      else { NotTwice(f.lists[i], f.next, f.prev, f.heads[i], k, n); }
    }
    forall j: nat, x | j <= N_HBLK_FLS && x in g.lists[j]
      ensures x in f.lists[j] || (j == i && x == n)
    {
    }
  }

  lemma NotTwice(s: seq<nat>, next: map<nat, nat>, prev: map<nat, nat>, head: nat, k: nat, n: nat)
    requires DList(next, prev, head, s) && k < |s| && n !in s
    ensures s[k] !in s[k := n]
  {
  }

  lemma ReplaceSum(tiles: map<nat, Tile>, tiles': map<nat, Tile>, s: seq<nat>,
                   next: map<nat, nat>, prev: map<nat, nat>, head: nat, k: nat, n: nat)
    requires DList(next, prev, head, s) && k < |s| && n !in s
    requires forall x :: x != n && x != s[k] ==> SzOf(tiles', x) == SzOf(tiles, x)
    ensures SumSz(tiles', s[k := n]) == SumSz(tiles, s) - SzOf(tiles, s[k]) + SzOf(tiles', n)
  {
    SumWithout(tiles, s, k);
    SumWithout(tiles', s[k := n], k);
    assert Without(s[k := n], k) == Without(s, k);
    forall x | x in Without(s, k)
      ensures x != s[k] && x in s
    {
      InWithout(s, k, x);
    }
    SumFrame(tiles, tiles', Without(s, k));
  }

  lemma ReplaceElsewhere(f: Fl, i: nat, k: nat, n: nat, j: nat)
    requires FlOk(f) && i <= N_HBLK_FLS && j <= N_HBLK_FLS && k < |f.lists[i]| && !Listed(f, n)
    requires f.bytes[i] >= 0
    ensures j != i ==> DList(Replaced(f, i, k, n, 0).next, Replaced(f, i, k, n, 0).prev, f.heads[j], f.lists[j])
    ensures j != i ==> f.lists[i][k] !in f.lists[j]
    ensures n !in f.lists[j]
  {
    hide DList;
    assert f.lists[i][k] in f.lists[i];
    if j != i {
      var s := f.lists[i];
      var p, a := Before(s, k), After(s, k);
      assert p != 0 ==> p in s;
      assert a != 0 ==> a in s;
      var g := Replaced(f, i, k, n, 0);
      DListFrame(f.next, f.prev, g.next, g.prev, f.heads[j], f.lists[j]);
    }
  }

  /** The links of the k-th block of list i. */
  lemma LinksOf(f: Fl, i: nat, k: nat)
    requires FlOk(f) && i <= N_HBLK_FLS && k < |f.lists[i]|
    ensures var h := f.lists[i][k];
      && h in f.next && h in f.prev && h != 0
      && f.next[h] == After(f.lists[i], k) && f.prev[h] == Before(f.lists[i], k)
      && f.prev[h] != h && f.next[h] != h
  {
    assert DList(f.next, f.prev, f.heads[i], f.lists[i]);
    assert Node(f.next, f.prev, f.lists[i], k);
  }

  lemma RemovedLists(f: Fl, i: nat, k: nat, sz: nat)
    requires i < |f.lists| == |f.heads| == |f.bytes| && k < |f.lists[i]| && sz <= f.bytes[i]
    ensures |Removed(f, i, k, sz).lists| == |f.lists| && Removed(f, i, k, sz).lists[i] == Without(f.lists[i], k)
  {
  }
}
