/** Facts about the index and its links. */
module IndexSteps {
  import opened Basics
  import opened HeapTiles
  import opened TileSteps
  import opened IndexSpec

  lemma SetSlotAt(pages: map<nat, seq<Slot>>, x: nat, s: Slot)
    requires PagesOk(pages) && x / BOTTOM_SZ in pages
    ensures PagesOk(SetSlot(pages, x, s)) && SetSlot(pages, x, s).Keys == pages.Keys
    ensures forall y: nat :: SlotAt(SetSlot(pages, x, s), y) == if y == x then s else SlotAt(pages, y)
  {
    forall y: nat | y != x && y / BOTTOM_SZ == x / BOTTOM_SZ
      ensures y % BOTTOM_SZ != x % BOTTOM_SZ
    {
      Split(x);
      Split(y);
    }
  }

  lemma Split(x: nat)
    ensures x == x / BOTTOM_SZ * BOTTOM_SZ + x % BOTTOM_SZ && x % BOTTOM_SZ < BOTTOM_SZ
  {
  }

  lemma Join(key: nat, j: nat)
    requires j < BOTTOM_SZ
    ensures (key * BOTTOM_SZ + j) / BOTTOM_SZ == key && (key * BOTTOM_SZ + j) % BOTTOM_SZ == j
  {
  }

  /** A fresh bottom index changes no slot. */
  lemma NewPage(pages: map<nat, seq<Slot>>, key: nat, page: seq<Slot>)
    requires PagesOk(pages) && key !in pages && |page| == BOTTOM_SZ && forall j :: 0 <= j < |page| ==> page[j] == Nil
    ensures PagesOk(pages[key := page])
    ensures forall y: nat :: SlotAt(pages[key := page], y) == SlotAt(pages, y)
  {
  }

  function Spliced(order: seq<nat>, hi: nat, i: nat): seq<nat>
    requires i <= |order|
  {
    order[..i] + [hi] + order[i..]
  }

  lemma SplicedAt(order: seq<nat>, hi: nat, i: nat)
    requires i <= |order|
    ensures |Spliced(order, hi, i)| == |order| + 1
    ensures forall k :: 0 <= k < i ==> Spliced(order, hi, i)[k] == order[k]
    ensures Spliced(order, hi, i)[i] == hi
    ensures forall k :: i < k <= |order| ==> Spliced(order, hi, i)[k] == order[k - 1]
  {
  }

  /** Splicing a key into both linked lists, behind the first i keys. */
  lemma Splice(asc: map<nat, Option<nat>>, desc: map<nat, Option<nat>>, first: Option<nat>, last: Option<nat>, order: seq<nat>,
               hi: nat, i: nat, asc': map<nat, Option<nat>>, desc': map<nat, Option<nat>>, first': Option<nat>, last': Option<nat>)
    requires LinksOk(asc, desc, first, last, order) && i <= |order|
    requires forall k :: 0 <= k < i ==> order[k] < hi
    requires forall k :: i <= k < |order| ==> hi < order[k]
    requires asc' == (if 0 < i then asc[order[i - 1] := Some(hi)] else asc)[hi := At(order, i)]
    requires desc' == (if i < |order| then desc[order[i] := Some(hi)] else desc)[hi := Ahead(order, i)]
    requires first' == (if 0 < i then first else Some(hi)) && last' == (if i < |order| then last else Some(hi))
    ensures LinksOk(asc', desc', first', last', Spliced(order, hi, i))
  {
    hide Spliced, LinkAt;
    SplicedAt(order, hi, i);
    var order' := Spliced(order, hi, i);
    forall k: nat | k < |order'|
      ensures LinkAt(asc', desc', order', k)
    {
      SpliceAt(asc, desc, order, hi, i, asc', desc', k);
    }
  }

  lemma SpliceAt(asc: map<nat, Option<nat>>, desc: map<nat, Option<nat>>, order: seq<nat>,
                 hi: nat, i: nat, asc': map<nat, Option<nat>>, desc': map<nat, Option<nat>>, k: nat)
    requires i <= |order| && k <= |order| && Increasing(order)
    requires forall j: nat :: j < |order| ==> LinkAt(asc, desc, order, j)
    requires forall j :: 0 <= j < i ==> order[j] < hi
    requires forall j :: i <= j < |order| ==> hi < order[j]
    requires asc' == (if 0 < i then asc[order[i - 1] := Some(hi)] else asc)[hi := At(order, i)]
    requires desc' == (if i < |order| then desc[order[i] := Some(hi)] else desc)[hi := Ahead(order, i)]
    ensures LinkAt(asc', desc', Spliced(order, hi, i), k)
  {
    hide Spliced;
    SplicedAt(order, hi, i);
    if k < i { assert LinkAt(asc, desc, order, k); }
    if k > i { assert LinkAt(asc, desc, order, k - 1); }
  }

  lemma SpliceKeys(order: seq<nat>, hi: nat, i: nat, keys: set<nat>)
    requires i <= |order| && forall k :: k in order <==> k in keys
    ensures forall k :: k in Spliced(order, hi, i) <==> k in keys + {hi}
  {
    assert order == order[..i] + order[i..];
  }

  /** A forwarding count leads over interior slots only, and not past the block's start. */
  lemma JumpSkips(owner: map<nat, nat>, tiles: map<nat, Tile>, jump: map<nat, nat>, x: nat)
    requires Tiled(owner, tiles) && Indexed(owner, tiles, jump, 0) && x in jump
    ensures 0 < jump[x] <= x && x !in tiles
    ensures forall y: nat :: x - jump[x] < y <= x ==> y !in tiles
  {
    OwnerOf(owner, tiles, x);
    var h := owner[x];
    TileStart(owner, tiles, h);
    assert Owns(owner, h, x) && SlotOk(tiles, jump, h, x);
    assert Covers(tiles, h, x);
    forall y: nat | x - jump[x] < y <= x
      ensures y !in tiles
    {
      NoHeaderInside(owner, tiles, h, y);
    }
  }

  /** Nothing starts inside a block. */
  lemma BlockSkips(owner: map<nat, nat>, tiles: map<nat, Tile>, h: nat)
    requires Tiled(owner, tiles) && h in tiles
    ensures 0 < Len(tiles[h])
    ensures forall y: nat :: h < y < h + Len(tiles[h]) ==> y !in tiles
  {
    TileStart(owner, tiles, h);
    forall y: nat | h < y < h + Len(tiles[h]) ensures y !in tiles { NoHeaderInside(owner, tiles, h, y); }
  }

  /** A block start has its slot in some bottom index. */
  lemma StartHasPage(pages: map<nat, seq<Slot>>, tiles: map<nat, Tile>, jump: map<nat, nat>, h: nat)
    requires Describes(pages, tiles, jump) && h in tiles
    ensures h / BOTTOM_SZ in pages
  {
    assert SlotAt(pages, h).Hdr?;
  }

  /** A new key is put in front of its hash chain. */
  lemma TopMore(top: seq<seq<nat>>, keys: set<nat>, hi: nat)
    requires TopOk(top, keys)
    ensures hi % TOP_SZ < |top| && TopOk(top[hi % TOP_SZ := [hi] + top[hi % TOP_SZ]], keys + {hi})
  {
  }

  /** Steps of BOTTOM_SZ blocks from h, and the last block, meet every bottom index that h .. h + n - 1 need. */
  lemma StepsMeetAll(h: nat, n: nat, x: nat, keys: set<nat>)
    requires 0 < n && h <= x && (x - h) % BOTTOM_SZ == 0
    requires x >= h + n || (x / BOTTOM_SZ == (h + n - 1) / BOTTOM_SZ)
    requires forall y: nat :: h <= y < x && (y - h) % BOTTOM_SZ == 0 ==> y / BOTTOM_SZ in keys
    requires (h + n - 1) / BOTTOM_SZ in keys
    ensures forall y: nat :: h <= y < h + n ==> y / BOTTOM_SZ in keys
  {
    forall y: nat | h <= y < h + n
      ensures y / BOTTOM_SZ in keys
    {
      var z := h + (y - h) / BOTTOM_SZ * BOTTOM_SZ;
      var last := h + n - 1;
      if y / BOTTOM_SZ != last / BOTTOM_SZ {
        if z < x && z / BOTTOM_SZ != y / BOTTOM_SZ {
          assert y / BOTTOM_SZ == (z + BOTTOM_SZ) / BOTTOM_SZ;
          assert (z + BOTTOM_SZ - h) % BOTTOM_SZ == 0;
        }
      }
    }
  }

  lemma AppendCalls(s: seq<nat>, t: seq<nat>)
    requires NoRepeats(s) && NoRepeats(t) && forall h :: h in s ==> h !in t
    ensures NoRepeats(s + t) && forall h :: h in s + t <==> h in s || h in t
  {
    var c := s + t;
    forall a, b | 0 <= a < b < |c|
      ensures c[a] != c[b]
    {
      if a < |s| <= b { assert c[a] in s && c[b] in t; }
    }
  }

  lemma AppendCall(s: seq<nat>, h: nat)
    requires NoRepeats(s) && h !in s
    ensures NoRepeats(s + [h]) && forall x :: x in s + [h] <==> x in s || x == h
  {
  }

  /** What a slot says about the heap. */
  lemma SlotSays(pages: map<nat, seq<Slot>>, owner: map<nat, nat>, tiles: map<nat, Tile>, jump: map<nat, nat>, x: nat)
    requires Tiled(owner, tiles) && Indexed(owner, tiles, jump, 0) && Describes(pages, tiles, jump)
    ensures match SlotAt(pages, x)
            case Hdr(t) => x in tiles && tiles[x] == t && 0 < Len(t)
            case Jump(n) => 0 < n <= x && forall y: nat :: x - n < y <= x ==> y !in tiles
            case Nil => x !in tiles
  {
    if x in tiles { TileStart(owner, tiles, x); }
    else if x in jump { JumpSkips(owner, tiles, jump, x); }
  }

  lemma SlotHere(pages: map<nat, seq<Slot>>, key: nat, j: nat)
    requires PagesOk(pages) && key in pages && j < BOTTOM_SZ
    ensures |pages[key]| == BOTTOM_SZ && SlotAt(pages, key * BOTTOM_SZ + j) == pages[key][j]
  {
    Join(key, j);
  }

  lemma StartsPositive(owner: map<nat, nat>, tiles: map<nat, Tile>)
    requires Tiled(owner, tiles)
    ensures 0 !in tiles
  {
    if 0 in tiles { TileStart(owner, tiles, 0); }
  }

  /** A block behind bottom index i is in a later one. */
  lemma LaterPage(order: seq<nat>, i: nat, y: nat)
    requires Increasing(order) && i < |order| && y / BOTTOM_SZ in order && (order[i] + 1) * BOTTOM_SZ <= y
    ensures i + 1 < |order| && order[i + 1] * BOTTOM_SZ <= y
  {
    Split(y);
    var k :| 0 <= k < |order| && order[k] == y / BOTTOM_SZ;
    assert order[i] < order[k];
  }

  /** A block in front of bottom index i is in an earlier one. */
  lemma EarlierPage(order: seq<nat>, i: nat, y: nat)
    requires Increasing(order) && i < |order| && y / BOTTOM_SZ in order && y < order[i] * BOTTOM_SZ
    ensures 0 < i && y < (order[i - 1] + 1) * BOTTOM_SZ
  {
    Split(y);
    var k :| 0 <= k < |order| && order[k] == y / BOTTOM_SZ;
    assert order[k] < order[i];
  }

  /** The first bottom index at or above that of h has, or comes before, every block from h on. */
  lemma PageFrom(order: seq<nat>, i: nat, h: nat, y: nat)
    requires Increasing(order) && i <= |order| && y / BOTTOM_SZ in order && h <= y
    requires (forall k :: 0 <= k < i ==> order[k] < h / BOTTOM_SZ)
    ensures i < |order| && order[i] * BOTTOM_SZ <= y
  {
    Split(y);
    Split(h);
    var k :| 0 <= k < |order| && order[k] == y / BOTTOM_SZ;
    assert i <= k;
  }

  /** The last bottom index below that of h has, or comes after, every block up to h that is not in h's. */
  lemma PageUpTo(order: seq<nat>, i: nat, h: nat, y: nat)
    requires Increasing(order) && i <= |order| && y / BOTTOM_SZ in order && y <= h
    requires (forall k :: i <= k < |order| ==> h / BOTTOM_SZ < order[k])
    ensures 0 < i && y < (order[i - 1] + 1) * BOTTOM_SZ
  {
    Split(y);
    Split(h);
    var k :| 0 <= k < |order| && order[k] == y / BOTTOM_SZ;
    assert k < i;
  }

  lemma Greatest(tiles: map<nat, Tile>, h: nat, r: nat)
    requires r <= h && (r != 0 ==> r in tiles) && forall y: nat :: y <= h && y in tiles ==> y <= r
    ensures r == PrevStart(tiles, h)
  {
  }

  lemma NextKey(order: seq<nat>, i: nat)
    requires Increasing(order)
    ensures i + 1 < |order| ==> order[i] < order[i + 1]
  {
  }

  lemma NothingYet(tiles: map<nat, Tile>, allowFree: bool, h: nat)
    ensures NothingBefore(tiles, allowFree, h, Some(h)) && NothingAfter(tiles, h, Some(h))
  {
  }

  lemma NextPage(tiles: map<nat, Tile>, allowFree: bool, order: seq<nat>, h: nat, lo: nat, i: nat)
    requires Increasing(order) && AllIndexed(tiles, order) && i < |order| && NothingBefore(tiles, allowFree, h, Some(lo))
    requires forall y: nat :: lo <= y < (order[i] + 1) * BOTTOM_SZ ==> !Eligible(tiles, allowFree, y)
    ensures NothingBefore(tiles, allowFree, h, Low(order, i + 1))
    ensures i + 1 < |order| && h < (order[i] + 1) * BOTTOM_SZ ==> h <= order[i + 1] * BOTTOM_SZ
  {
    NextKey(order, i);
    forall y: nat | h <= y && Eligible(tiles, allowFree, y) ensures Low(order, i + 1).Some? && Low(order, i + 1).value <= y { LaterPage(order, i, y); }
  }

  lemma FirstPage(tiles: map<nat, Tile>, allowFree: bool, order: seq<nat>, h: nat, i: nat)
    requires Increasing(order) && AllIndexed(tiles, order) && i <= |order|
    requires forall k :: 0 <= k < i ==> order[k] < h / BOTTOM_SZ
    ensures NothingBefore(tiles, allowFree, h, Low(order, i))
  {
    forall y: nat | h <= y && Eligible(tiles, allowFree, y) ensures Low(order, i).Some? && Low(order, i).value <= y { PageFrom(order, i, h, y); }
  }

  lemma PreviousPage(tiles: map<nat, Tile>, order: seq<nat>, h: nat, hi: nat, i: nat)
    requires Increasing(order) && AllIndexed(tiles, order) && 0 < i <= |order| && NothingAfter(tiles, h, Some(hi))
    requires forall y: nat :: order[i - 1] * BOTTOM_SZ <= y <= hi ==> y !in tiles
    ensures NothingAfter(tiles, h, High(order, i - 1))
    ensures 1 < i && order[i - 1] * BOTTOM_SZ <= h ==> order[i - 2] * BOTTOM_SZ + BOTTOM_SZ - 1 <= h
  {
    if 1 < i { NextKey(order, i - 2); }
    forall y: nat | y <= h && y in tiles ensures High(order, i - 1).Some? && y <= High(order, i - 1).value { EarlierPage(order, i - 1, y); }
  }

  lemma LastPage(tiles: map<nat, Tile>, order: seq<nat>, h: nat, i: nat)
    requires Increasing(order) && AllIndexed(tiles, order) && i <= |order|
    requires forall k :: i <= k < |order| ==> h / BOTTOM_SZ < order[k]
    ensures NothingAfter(tiles, h, High(order, i))
  {
    forall y: nat | y <= h && y in tiles ensures High(order, i).Some? && y <= High(order, i).value { PageUpTo(order, i, h, y); }
  }

  lemma FoundPrevious(tiles: map<nat, Tile>, h: nat, hi: nat, r: nat)
    requires NothingAfter(tiles, h, Some(hi)) && r <= hi <= h && r in tiles && forall y: nat :: r < y <= hi ==> y !in tiles
    ensures r == PrevStart(tiles, h)
  {
    Greatest(tiles, h, r);
  }

  lemma NoPrevious(tiles: map<nat, Tile>, h: nat)
    requires NothingAfter(tiles, h, None)
    ensures PrevStart(tiles, h) == 0
  {
    Greatest(tiles, h, 0);
  }

  lemma FoundNext(tiles: map<nat, Tile>, allowFree: bool, h: nat, lo: nat, r: nat)
    requires NothingBefore(tiles, allowFree, h, Some(lo)) && forall y: nat :: lo <= y < r ==> !Eligible(tiles, allowFree, y)
    ensures forall y: nat :: h <= y < r ==> !Eligible(tiles, allowFree, y)
  {
  }

  lemma NoNext(tiles: map<nat, Tile>, allowFree: bool, h: nat)
    requires NothingBefore(tiles, allowFree, h, None)
    ensures forall y: nat :: h <= y ==> !Eligible(tiles, allowFree, y)
  {
  }

  lemma KeyBelow(key: nat, h: nat)
    requires key < h / BOTTOM_SZ
    ensures key * BOTTOM_SZ + BOTTOM_SZ - 1 <= h
  {
    Split(h);
  }
}
