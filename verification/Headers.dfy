/** The index from addresses to headers, changed and walked in place. */
module Headers {
  import opened Basics
  import opened HeapTiles
  import opened IndexSpec
  import opened IndexSteps

  class BlockIndex {
    var pages: map<nat, seq<Slot>>       // the bottom indices, by key
    var asc: map<nat, Option<nat>>       // asc_link and desc_link: the key of another bottom index
    var desc: map<nat, Option<nat>>
    var first: Option<nat>               // GC_all_bottom_indices
    var last: Option<nat>                // GC_all_bottom_indices_end
    var top: seq<seq<nat>>               // the hash chains of GC_top_index
    ghost var order: seq<nat>

    ghost predicate Valid()
      reads this
    {
      && PagesOk(pages) && LinksOk(asc, desc, first, last, order) && TopOk(top, pages.Keys)
      && forall k :: k in order <==> k in pages
    }

    /** What the index holds for block x. */
    function Get(x: nat): Slot
      reads this
    {
      SlotAt(pages, x)
    }

    constructor ()
      ensures Valid() && forall x: nat :: Get(x) == Nil
    {
      pages, asc, desc, first, last, order := map[], map[], map[], None, None, [];
      top := seq(TOP_SZ, _ => []);
    }

    /** GET_BI: whether there is a bottom index for this key. */
    method HasIndex(hi: nat) returns (found: bool)
      requires Valid()
      ensures found <==> hi in pages
    {
      hide LinksOk, PagesOk;
      var chain := top[hi % TOP_SZ];
      var i := 0;
      while i < |chain|
        invariant i <= |chain| && hi !in chain[..i]
      {
        if chain[i] == hi { return true; }
        i := i + 1;
      }
      assert chain[..i] == chain;
      found := false;
    }

    /** get_index: make sure there is a bottom index for key hi; no slot changes. */
    method GetIndex(hi: nat, memory: bool) returns (ok: bool)
      requires Valid()
      modifies this
      ensures Valid() && ok == (memory || hi in old(pages))
      ensures pages.Keys == if ok then old(pages.Keys) + {hi} else old(pages.Keys)
      ensures forall x: nat :: Get(x) == old(Get(x))
    {
      hide LinksOk, PagesOk, TopOk;
      var found := HasIndex(hi);
      if found { return true; }
      if !memory { return false; }
      var p, pi, i := FindPlace(hi);
      ghost var keys, was := pages.Keys, order;
      asc := (if pi.Some? then asc[pi.value := Some(hi)] else asc)[hi := p];
      desc := (if p.Some? then desc[p.value := Some(hi)] else desc)[hi := pi];
      first := if pi.Some? then first else Some(hi);
      last := if p.Some? then last else Some(hi);
      order := Spliced(order, hi, i);
      Splice(old(asc), old(desc), old(first), old(last), was, hi, i, asc, desc, first, last);
      SpliceKeys(was, hi, i, keys);
      var page := seq(BOTTOM_SZ, _ => Nil);
      NewPage(pages, hi, page);
      TopMore(top, keys, hi);
      assert pages[hi := page].Keys == keys + {hi};
      pages := pages[hi := page];
      top := top[hi % TOP_SZ := [hi] + top[hi % TOP_SZ]];
      ok := true;
    }

    /** The place of a new key in ascending order: between pi and p. */
    method FindPlace(hi: nat) returns (p: Option<nat>, pi: Option<nat>, ghost i: nat)
      requires Valid() && hi !in pages
      ensures i <= |order| && p == At(order, i) && pi == Ahead(order, i)
      ensures forall k :: 0 <= k < i ==> order[k] < hi
      ensures forall k :: i <= k < |order| ==> hi < order[k]
    {
      p, pi, i := first, None, 0;
      while p.Some? && p.value < hi
        invariant i <= |order| && p == At(order, i) && pi == Ahead(order, i)
        invariant forall k :: 0 <= k < i ==> order[k] < hi
        decreases |order| - i
      {
        assert LinkAt(asc, desc, order, i);
        pi := p;
        p := asc[p.value];
        i := i + 1;
      }
      if i < |order| { assert order[i] in order; }
    }

    /** SET_HDR. */
    method Set(x: nat, s: Slot)
      requires Valid() && x / BOTTOM_SZ in pages
      modifies this`pages
      ensures Valid() && pages.Keys == old(pages.Keys)
      ensures forall y: nat :: Get(y) == if y == x then s else old(Get(y))
    {
      hide LinksOk;
      SetSlotAt(pages, x, s);
      pages := pages[x / BOTTOM_SZ := pages[x / BOTTOM_SZ][x % BOTTOM_SZ := s]];
    }

    /** GC_install_header. */
    method InstallHeader(h: nat, t: Tile, memory: bool) returns (ok: bool)
      requires Valid()
      modifies this
      ensures Valid() && ok == (memory || h / BOTTOM_SZ in old(pages))
      ensures forall y: nat :: Get(y) == if y == h && ok then Hdr(t) else old(Get(y))
    {
      hide LinksOk, PagesOk, TopOk;
      ok := GetIndex(h / BOTTOM_SZ, memory);
      if ok { Set(h, Hdr(t)); }
    }

    /** GC_remove_header. */
    method RemoveHeader(h: nat)
      requires Valid() && h / BOTTOM_SZ in pages
      modifies this`pages
      ensures Valid() && pages.Keys == old(pages.Keys)
      ensures forall y: nat :: Get(y) == if y == h then Nil else old(Get(y))
    {
      hide LinksOk, PagesOk, TopOk;
      Set(h, Nil);
    }

    /** GC_install_counts makes sure that all bottom indices it needs are there. */
    method IndexRange(h: nat, n: nat, memory: bool) returns (ok: bool)
      requires Valid() && 0 < n && h + n <= SPACE
      modifies this
      ensures Valid() && (memory ==> ok)
      ensures ok ==> forall y: nat :: h <= y < h + n ==> y / BOTTOM_SZ in pages
      ensures forall y: nat :: Get(y) == old(Get(y))
    {
      hide LinksOk, PagesOk, TopOk, SlotAt;
      var x := h;
      while x < h + n
        invariant Valid() && h <= x && (x - h) % BOTTOM_SZ == 0
        invariant forall y: nat :: h <= y < x && (y - h) % BOTTOM_SZ == 0 ==> y / BOTTOM_SZ in pages
        invariant forall y: nat :: Get(y) == old(Get(y))
        decreases h + n - x
      {
        ok := GetIndex(x / BOTTOM_SZ, memory);
        if !ok { return; }
        if x + BOTTOM_SZ >= SPACE { break; }    // the addition would wrap around
        NoWrap(x + BOTTOM_SZ);
        x := (x + BOTTOM_SZ) % SPACE;
      }
      ok := GetIndex((h + n - 1) / BOTTOM_SZ, memory);
      if ok { StepsMeetAll(h, n, x, pages.Keys); }
    }

    /** GC_install_counts. */
    method InstallCounts(h: nat, n: nat, memory: bool) returns (ok: bool)
      requires Valid() && 0 < n && h + n <= SPACE
      modifies this
      ensures Valid() && (memory ==> ok)
      ensures forall y: nat :: Get(y) == if ok && h < y < h + n then Jump(Min(y - h, MAX_JUMP)) else old(Get(y))
    {
      hide LinksOk, PagesOk, TopOk, SlotAt;
      ok := IndexRange(h, n, memory);
      if !ok { return; }
      var x := h + 1;
      while x < h + n
        invariant Valid() && h < x <= h + n
        invariant forall y: nat :: h <= y < h + n ==> y / BOTTOM_SZ in pages
        invariant forall y: nat :: Get(y) == if h < y < x then Jump(Min(y - h, MAX_JUMP)) else old(Get(y))
      {
        var i := x - h;
        Set(x, Jump(if i > MAX_JUMP then MAX_JUMP else i));
        x := x + 1;
      }
    }

    /** GC_remove_counts; nothing is done if the first interior slot is nil. */
    method RemoveCounts(h: nat, n: nat)
      requires Valid()
      requires n > 1 && Get(h + 1) != Nil ==> forall y: nat :: h < y < h + n ==> y / BOTTOM_SZ in pages
      modifies this`pages
      ensures Valid()
      ensures forall y: nat :: Get(y) == if n > 1 && old(Get(h + 1)) != Nil && h < y < h + n then Nil else old(Get(y))
    {
      hide LinksOk, PagesOk, TopOk, SlotAt;
      if n <= 1 || Get(h + 1) == Nil { return; }
      var x := h + 1;
      while x < h + n
        invariant Valid() && h < x <= h + n && pages.Keys == old(pages.Keys)
        invariant forall y: nat :: Get(y) == if h < y < x then Nil else old(Get(y))
      {
        Set(x, Nil);
        x := x + 1;
      }
    }

    /** The index describes the given heap. */
    ghost predicate Shows(owner: map<nat, nat>, tiles: map<nat, Tile>, jump: map<nat, nat>)
      reads this
    {
      Tiled(owner, tiles) && Indexed(owner, tiles, jump, 0) && Describes(pages, tiles, jump)
    }

    /** GC_apply_to_all_blocks for one bottom index, from the top down; `calls` are the blocks that the
        function is applied to. */
    method ApplyToPage(key: nat, ghost owner: map<nat, nat>, ghost tiles: map<nat, Tile>, ghost jump: map<nat, nat>)
      returns (calls: seq<nat>)
      requires PagesOk(pages) && key in pages && Shows(owner, tiles, jump)
      ensures NoRepeats(calls) && forall h: nat :: h in calls <==> IsAllocated(tiles, h) && h / BOTTOM_SZ == key
    {
      hide Tiled, Indexed, Describes, SlotAt, PagesOk, Len;
      var base := key * BOTTOM_SZ;
      calls := [];
      var j := BOTTOM_SZ - 1;
      while j >= 0
        invariant j < BOTTOM_SZ && NoRepeats(calls) && forall h :: h in calls ==> base <= h
        invariant forall h: nat :: h in calls <==> IsAllocated(tiles, h) && base + j < h < base + BOTTOM_SZ
      {
        SlotHere(pages, key, j);
        SlotSays(pages, owner, tiles, jump, base + j);
        match pages[key][j] {
          case Hdr(t) =>
            if !t.free {
              AppendCall(calls, base + j);
              calls := calls + [base + j];
            }
            j := j - 1;
          case Nil => j := j - 1;
          case Jump(n) => j := j - n;
        }
      }
      forall h: nat ensures h / BOTTOM_SZ == key <==> base <= h < base + BOTTOM_SZ { Split(h); }
    }

    /** GC_apply_to_all_blocks: the function is applied to every allocated block exactly once. */
    method ApplyToAllBlocks(ghost owner: map<nat, nat>, ghost tiles: map<nat, Tile>, ghost jump: map<nat, nat>)
      returns (calls: seq<nat>)
      requires Valid() && Shows(owner, tiles, jump)
      ensures NoRepeats(calls) && forall h :: h in calls <==> IsAllocated(tiles, h)
    {
      hide Tiled, Indexed, PagesOk, LinkAt;
      calls := [];
      var p := first;
      ghost var i: nat := 0;
      while p.Some?
        invariant i <= |order| && p == At(order, i) && NoRepeats(calls)
        invariant forall h: nat :: h in calls <==> IsAllocated(tiles, h) && h / BOTTOM_SZ in order[..i]
        decreases |order| - i
      {
        assert order[i] in order && order[..i + 1] == order[..i] + [order[i]];
        var more := ApplyToPage(p.value, owner, tiles, jump);
        AppendCalls(calls, more);
        calls := calls + more;
        p := Next(p.value, i);
        i := i + 1;
      }
      assert order[..i] == order;
      forall h | h in tiles ensures h / BOTTOM_SZ in order { StartHasPage(pages, tiles, jump, h); }
    }

    /** asc_link. */
    method Next(key: nat, ghost i: nat) returns (p: Option<nat>)
      requires LinksOk(asc, desc, first, last, order) && i < |order| && order[i] == key
      ensures p == At(order, i + 1)
    {
      assert LinkAt(asc, desc, order, i);
      p := asc[key];
    }

    /** desc_link. */
    method Previous(key: nat, ghost i: nat) returns (p: Option<nat>)
      requires LinksOk(asc, desc, first, last, order) && i < |order| && order[i] == key
      ensures p == Ahead(order, i)
    {
      assert LinkAt(asc, desc, order, i);
      p := desc[key];
    }

    /** The first bottom index whose key is at least hi. */
    method FirstFrom(hi: nat) returns (p: Option<nat>, ghost i: nat)
      requires Valid()
      ensures i <= |order| && p == At(order, i)
      ensures forall k :: 0 <= k < i ==> order[k] < hi
      ensures i < |order| ==> hi <= order[i]
    {
      p, i := first, 0;
      while p.Some? && p.value < hi
        invariant i <= |order| && p == At(order, i)
        invariant forall k :: 0 <= k < i ==> order[k] < hi
        decreases |order| - i
      {
        p := Next(p.value, i);
        i := i + 1;
      }
    }

    /** GC_next_block searches one bottom index from slot j0 on. */
    method NextInPage(key: nat, j0: nat, allowFree: bool, ghost owner: map<nat, nat>, ghost tiles: map<nat, Tile>, ghost jump: map<nat, nat>)
      returns (found: bool, r: nat)
      requires PagesOk(pages) && key in pages && Shows(owner, tiles, jump)
      ensures found ==> key * BOTTOM_SZ + j0 <= r && Eligible(tiles, allowFree, r)
      ensures found ==> forall y: nat :: key * BOTTOM_SZ + j0 <= y < r ==> !Eligible(tiles, allowFree, y)
      ensures !found ==> forall y: nat :: key * BOTTOM_SZ + j0 <= y < (key + 1) * BOTTOM_SZ ==> !Eligible(tiles, allowFree, y)
    {
      hide Tiled, Indexed, Describes, SlotAt, PagesOk, Blocks;
      var base := key * BOTTOM_SZ;
      var j := j0;
      while j < BOTTOM_SZ
        invariant j0 <= j
        invariant forall y: nat :: base + j0 <= y < base + j ==> !Eligible(tiles, allowFree, y)
        decreases BOTTOM_SZ - j
      {
        SlotHere(pages, key, j);
        SlotSays(pages, owner, tiles, jump, base + j);
        match pages[key][j] {
          case Hdr(t) =>
            if allowFree || !t.free { return true, base + j; }
            BlockSkips(owner, tiles, base + j);
            j := j + t.sz / HBLKSIZE;
          case Nil => j := j + 1;
          case Jump(_) => j := j + 1;
        }
      }
      return false, 0;
    }

    /** What walking the index relies on. */
    lemma WalkFacts(owner: map<nat, nat>, tiles: map<nat, Tile>, jump: map<nat, nat>)
      requires Valid() && Shows(owner, tiles, jump)
      ensures Increasing(order) && AllIndexed(tiles, order) && 0 !in tiles
    {
      StartsPositive(owner, tiles);
      forall y: nat | y in tiles ensures y / BOTTOM_SZ in order { StartHasPage(pages, tiles, jump, y); }
    }

    /** Where GC_next_block begins: in the bottom index of h, or at the start of the first one behind. */
    method StartNext(h: nat, ghost allowFree: bool, ghost tiles: map<nat, Tile>) returns (bi: Option<nat>, j: nat, ghost i: nat)
      requires Valid() && Increasing(order) && AllIndexed(tiles, order)
      ensures i <= |order| && bi == At(order, i) && j < BOTTOM_SZ && (bi.Some? ==> h <= bi.value * BOTTOM_SZ + j)
      ensures NothingBefore(tiles, allowFree, h, if bi.Some? then Some(bi.value * BOTTOM_SZ + j) else None)
    {
      hide PagesOk, LinksOk, SlotAt, TopOk, Increasing, AllIndexed, NothingBefore;
      Split(h);
      NothingYet(tiles, allowFree, h);
      j := h % BOTTOM_SZ;
      bi := Some(h / BOTTOM_SZ);
      var has := HasIndex(h / BOTTOM_SZ);
      if has {
        i :| i < |order| && order[i] == h / BOTTOM_SZ;
      } else {
        bi, i := FirstFrom(h / BOTTOM_SZ);
        j := 0;
        FirstPage(tiles, allowFree, order, h, i);
      }
    }

    /** GC_next_block: the least eligible block start at or above h, 0 if there is none. */
    method NextBlock(h: nat, allowFree: bool, ghost owner: map<nat, nat>, ghost tiles: map<nat, Tile>, ghost jump: map<nat, nat>)
      returns (r: nat)
      requires Valid() && Shows(owner, tiles, jump)
      ensures r != 0 ==> h <= r && Eligible(tiles, allowFree, r)
      ensures forall y: nat :: h <= y && (r == 0 || y < r) ==> !Eligible(tiles, allowFree, y)
    {
      hide Tiled, Indexed, PagesOk, LinksOk, SlotAt, Describes, TopOk, Increasing, AllIndexed, NothingBefore;
      WalkFacts(owner, tiles, jump);
      var bi: Option<nat>, j: nat;
      ghost var i: nat;
      bi, j, i := StartNext(h, allowFree, tiles);
      while bi.Some?
        invariant i <= |order| && bi == At(order, i)
        invariant bi.Some? ==> h <= bi.value * BOTTOM_SZ + j && j < BOTTOM_SZ
        invariant NothingBefore(tiles, allowFree, h, if bi.Some? then Some(bi.value * BOTTOM_SZ + j) else None)
        decreases |order| - i
      {
        var found;
        found, r := NextInPage(bi.value, j, allowFree, owner, tiles, jump);
        if found {
          FoundNext(tiles, allowFree, h, bi.value * BOTTOM_SZ + j, r);
          return;
        }
        NextPage(tiles, allowFree, order, h, bi.value * BOTTOM_SZ + j, i);
        j := 0;
        bi := Next(bi.value, i);
        i := i + 1;
      }
      NoNext(tiles, allowFree, h);
      return 0;
    }

    /** The last bottom index whose key is at most hi; its position is i - 1. */
    method LastUpTo(hi: nat) returns (p: Option<nat>, ghost i: nat)
      requires Valid()
      ensures i <= |order| && p == Ahead(order, i)
      ensures forall k :: i <= k < |order| ==> hi < order[k]
      ensures i > 0 ==> order[i - 1] <= hi && (hi !in pages ==> order[i - 1] < hi)
    {
      p, i := last, |order|;
      while p.Some? && p.value > hi
        invariant i <= |order| && p == Ahead(order, i)
        invariant forall k :: i <= k < |order| ==> hi < order[k]
        decreases i
      {
        p := Previous(p.value, i - 1);
        i := i - 1;
      }
    }

    /** GC_prev_block searches one bottom index from slot j0 down. */
    method PreviousInPage(key: nat, j0: nat, ghost owner: map<nat, nat>, ghost tiles: map<nat, Tile>, ghost jump: map<nat, nat>)
      returns (found: bool, r: nat)
      requires PagesOk(pages) && key in pages && Shows(owner, tiles, jump) && j0 < BOTTOM_SZ
      ensures found ==> r <= key * BOTTOM_SZ + j0 && r in tiles
      ensures found ==> forall y: nat :: r < y <= key * BOTTOM_SZ + j0 ==> y !in tiles
      ensures !found ==> forall y: nat :: key * BOTTOM_SZ <= y <= key * BOTTOM_SZ + j0 ==> y !in tiles
    {
      hide Tiled, Indexed, Describes, SlotAt, PagesOk, Len;
      var base := key * BOTTOM_SZ;
      var j: int := j0;
      while j >= 0
        invariant j <= j0
        invariant forall y: nat :: base + j < y <= base + j0 ==> y !in tiles
        decreases j
      {
        SlotHere(pages, key, j);
        SlotSays(pages, owner, tiles, jump, base + j);
        match pages[key][j] {
          case Nil => j := j - 1;
          case Jump(n) => j := j - n;
          case Hdr(_) => return true, base + j;
        }
      }
      return false, 0;
    }

    /** Where GC_prev_block begins: in the bottom index of h, or at the end of the last one before. */
    method StartPrevious(h: nat, ghost tiles: map<nat, Tile>) returns (bi: Option<nat>, j: nat, ghost i: nat)
      requires Valid() && Increasing(order) && AllIndexed(tiles, order)
      ensures i <= |order| && bi == Ahead(order, i) && j < BOTTOM_SZ && (bi.Some? ==> bi.value * BOTTOM_SZ + j <= h)
      ensures NothingAfter(tiles, h, if bi.Some? then Some(bi.value * BOTTOM_SZ + j) else None)
    {
      hide PagesOk, LinksOk, SlotAt, TopOk, Increasing, AllIndexed, NothingAfter;
      Split(h);
      NothingYet(tiles, true, h);
      j := h % BOTTOM_SZ;
      bi := Some(h / BOTTOM_SZ);
      var has := HasIndex(h / BOTTOM_SZ);
      if has {
        ghost var k: nat :| k < |order| && order[k] == h / BOTTOM_SZ;
        i := k + 1;
      } else {
        bi, i := LastUpTo(h / BOTTOM_SZ);
        j := BOTTOM_SZ - 1;
        LastPage(tiles, order, h, i);
        if bi.Some? { KeyBelow(bi.value, h); }
      }
    }

    /** GC_prev_block: the greatest block start at or below h, 0 if there is none. */
    method PrevBlock(h: nat, ghost owner: map<nat, nat>, ghost tiles: map<nat, Tile>, ghost jump: map<nat, nat>) returns (r: nat)
      requires Valid() && Shows(owner, tiles, jump)
      ensures r == PrevStart(tiles, h)
    {
      hide Tiled, Indexed, PagesOk, LinksOk, SlotAt, Describes, TopOk, Increasing, AllIndexed, NothingAfter, PrevStart;
      WalkFacts(owner, tiles, jump);
      var bi: Option<nat>, j: nat;
      ghost var i: nat;
      bi, j, i := StartPrevious(h, tiles);
      while bi.Some?
        invariant i <= |order| && bi == Ahead(order, i) && j < BOTTOM_SZ
        invariant bi.Some? ==> bi.value * BOTTOM_SZ + j <= h
        invariant NothingAfter(tiles, h, if bi.Some? then Some(bi.value * BOTTOM_SZ + j) else None)
        decreases i
      {
        var found;
        found, r := PreviousInPage(bi.value, j, owner, tiles, jump);
        if found {
          FoundPrevious(tiles, h, bi.value * BOTTOM_SZ + j, r);
          return;
        }
        PreviousPage(tiles, order, h, bi.value * BOTTOM_SZ + j, i);
        j := BOTTOM_SZ - 1;
        bi := Previous(bi.value, i - 1);
        i := i - 1;
      }
      NoPrevious(tiles, h);
      return 0;
    }
  }

  lemma NoWrap(x: nat)
    requires x < SPACE
    ensures x % SPACE == x
  {
  }
}
