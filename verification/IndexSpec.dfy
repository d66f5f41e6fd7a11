/** The two-level index from blocks of memory to headers. */
module IndexSpec {
  import opened Basics
  import opened HeapTiles

  const BOTTOM_SZ: nat := 1024
  const TOP_SZ: nat := 2048

  /** Slots of a bottom index: nil, a forwarding count, or a header. */
  datatype Slot = Nil | Jump(n: nat) | Hdr(tile: Tile)

  /** What the index holds for memory block x. */
  function SlotAt(pages: map<nat, seq<Slot>>, x: nat): Slot {
    if x / BOTTOM_SZ in pages && x % BOTTOM_SZ < |pages[x / BOTTOM_SZ]| then pages[x / BOTTOM_SZ][x % BOTTOM_SZ] else Nil
  }

  /** Every bottom index has all its slots. */
  ghost predicate PagesOk(pages: map<nat, seq<Slot>>) { forall k :: k in pages ==> |pages[k]| == BOTTOM_SZ }

  predicate Increasing(s: seq<nat>) { forall i, j :: 0 <= i < j < |s| ==> s[i] < s[j] }

  function Behind(s: seq<nat>, i: nat): Option<nat> { if i + 1 < |s| then Some(s[i + 1]) else None }
  function Ahead(s: seq<nat>, i: nat): Option<nat> { if 0 < i <= |s| then Some(s[i - 1]) else None }
  function At(s: seq<nat>, i: nat): Option<nat> { if i < |s| then Some(s[i]) else None }

  /** asc_link and desc_link of the i-th bottom index. */
  predicate LinkAt(asc: map<nat, Option<nat>>, desc: map<nat, Option<nat>>, order: seq<nat>, i: nat) {
    i < |order| ==>
      && order[i] in asc && order[i] in desc
      && asc[order[i]] == Behind(order, i) && desc[order[i]] == Ahead(order, i)
  }

  /** The bottom indices are linked in ascending and in descending order of their keys; `order` is
      what the links spell out. */
  ghost predicate LinksOk(asc: map<nat, Option<nat>>, desc: map<nat, Option<nat>>, first: Option<nat>, last: Option<nat>,
                          order: seq<nat>) {
    && Increasing(order)
    && first == At(order, 0) && last == Ahead(order, |order|)
    && (forall i: nat :: i < |order| ==> LinkAt(asc, desc, order, i))
  }

  /** The hash chains of the top index hold exactly the keys of the bottom indices. */
  ghost predicate TopOk(top: seq<seq<nat>>, keys: set<nat>) {
    |top| == TOP_SZ && forall k: nat :: k in keys <==> k in top[k % TOP_SZ]
  }

  /** The index describes the heap: headers at block starts, counts where `jump` has them, nil elsewhere. */
  ghost predicate Describes(pages: map<nat, seq<Slot>>, tiles: map<nat, Tile>, jump: map<nat, nat>) {
    forall x: nat :: SlotAt(pages, x) == if x in tiles then Hdr(tiles[x]) else if x in jump then Jump(jump[x]) else Nil
  }

  /** Blocks GC_apply_to_all_blocks is to visit. */
  predicate IsAllocated(tiles: map<nat, Tile>, h: nat) { h in tiles && !tiles[h].free }

  /** Blocks GC_next_block may return. */
  predicate Eligible(tiles: map<nat, Tile>, allowFree: bool, h: nat) { h in tiles && (allowFree || !tiles[h].free) }

  /** Pages with slot x changed. */
  function SetSlot(pages: map<nat, seq<Slot>>, x: nat, s: Slot): map<nat, seq<Slot>>
    requires x / BOTTOM_SZ in pages && |pages[x / BOTTOM_SZ]| == BOTTOM_SZ
  {
    pages[x / BOTTOM_SZ := pages[x / BOTTOM_SZ][x % BOTTOM_SZ := s]]
  }

  predicate NoRepeats(s: seq<nat>) { forall a, b :: 0 <= a < b < |s| ==> s[a] != s[b] }

  /** From h on there is nothing to find before block lo; None: nothing at all. */
  ghost predicate NothingBefore(tiles: map<nat, Tile>, allowFree: bool, h: nat, lo: Option<nat>) {
    forall y: nat :: h <= y && Eligible(tiles, allowFree, y) ==> lo.Some? && lo.value <= y
  }

  /** Up to h no block starts above hi; None: none at all. */
  ghost predicate NothingAfter(tiles: map<nat, Tile>, h: nat, hi: Option<nat>) {
    forall y: nat :: y <= h && y in tiles ==> hi.Some? && y <= hi.value
  }

  /** Every block start has its slot in one of the bottom indices. */
  ghost predicate AllIndexed(tiles: map<nat, Tile>, order: seq<nat>) { forall y: nat :: y in tiles ==> y / BOTTOM_SZ in order }

  /** The first and the last block that bottom index i stands for. */
  function Low(order: seq<nat>, i: nat): Option<nat> { if i < |order| then Some(order[i] * BOTTOM_SZ) else None }
  function High(order: seq<nat>, i: nat): Option<nat> { if 0 < i <= |order| then Some(order[i - 1] * BOTTOM_SZ + BOTTOM_SZ - 1) else None }
}
