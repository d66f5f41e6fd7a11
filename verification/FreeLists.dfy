/** The segregated free lists: GC_hblkfreelist, the links in the headers and GC_free_bytes. */
module FreeLists {
  import opened HeapTiles

  const UNIQUE_THRESHOLD: nat := 32
  const HUGE_THRESHOLD: nat := 256
  const FL_COMPRESSION: nat := 8
  const N_HBLK_FLS: nat := (HUGE_THRESHOLD - UNIQUE_THRESHOLD) / FL_COMPRESSION + UNIQUE_THRESHOLD

  /** GC_hblk_fl_from_blocks. */
  function FlIndex(blocks: nat): (i: nat)
    ensures i <= N_HBLK_FLS
    ensures i < UNIQUE_THRESHOLD ==> i == blocks
  {
    if blocks <= UNIQUE_THRESHOLD then blocks
    else if blocks >= HUGE_THRESHOLD then N_HBLK_FLS
    else (blocks - UNIQUE_THRESHOLD) / FL_COMPRESSION + UNIQUE_THRESHOLD
  }

  /** Larger blocks are on later lists. */
  lemma FlIndexMonotone(a: nat, b: nat)
    requires a <= b
    ensures FlIndex(a) <= FlIndex(b)
  {
  }

  /** Lists 1 .. 31 hold blocks of one size, list 32 those of 32 to 39 memory blocks, and so on in steps
      of 8 up to list 59; the last list holds all that are larger. */
  lemma ListSizes(blocks: nat)
    ensures blocks < 32 ==> FlIndex(blocks) == blocks
    ensures 32 <= blocks < 256 ==> 32 <= FlIndex(blocks) < 60 && 8 * FlIndex(blocks) <= blocks + 224 < 8 * FlIndex(blocks) + 8
    ensures 256 <= blocks ==> FlIndex(blocks) == 60
  {
  }

  function After(s: seq<nat>, k: nat): nat { if k + 1 < |s| then s[k + 1] else 0 }
  function Before(s: seq<nat>, k: nat): nat { if 0 < k <= |s| then s[k - 1] else 0 }
  function First(s: seq<nat>): nat { if s == [] then 0 else s[0] }

  /** hb_next and hb_prev of the k-th block of list s. */
  predicate Node(next: map<nat, nat>, prev: map<nat, nat>, s: seq<nat>, k: nat) {
    k < |s| ==>
      && s[k] != 0 && s[k] in next && s[k] in prev
      && next[s[k]] == After(s, k) && prev[s[k]] == Before(s, k)
  }

  ghost predicate NoDup(s: seq<nat>) { forall j, k :: 0 <= j < k < |s| ==> s[j] != s[k] }

  /** The links spell out exactly the list s, forwards and backwards. */
  ghost predicate DList(next: map<nat, nat>, prev: map<nat, nat>, head: nat, s: seq<nat>) {
    head == First(s) && NoDup(s) && forall k: nat :: k < |s| ==> Node(next, prev, s, k)
  }

  /** All free-list data; `lists` is what the links spell out. */
  datatype Fl = Fl(next: map<nat, nat>, prev: map<nat, nat>, heads: seq<nat>, bytes: seq<nat>, lists: seq<seq<nat>>)

  ghost predicate FlOk(f: Fl) {
    && |f.heads| == |f.bytes| == |f.lists| == N_HBLK_FLS + 1
    && (forall i: nat :: i <= N_HBLK_FLS ==> DList(f.next, f.prev, f.heads[i], f.lists[i]))
    && (forall i: nat, j: nat, x :: i <= N_HBLK_FLS && j <= N_HBLK_FLS && x in f.lists[i] && x in f.lists[j] ==> i == j)
  }

  function SzOf(tiles: map<nat, Tile>, x: nat): nat { if x in tiles then tiles[x].sz else 0 }

  function SumSz(tiles: map<nat, Tile>, s: seq<nat>): nat {
    if s == [] then 0 else SzOf(tiles, s[0]) + SumSz(tiles, s[1..])
  }

  function SumAll(s: seq<nat>): nat { if s == [] then 0 else s[0] + SumAll(s[1..]) }

  /** GC_free_bytes counts what is on the lists. */
  ghost predicate SumsOk(tiles: map<nat, Tile>, f: Fl) {
    |f.bytes| == |f.lists| && forall i: nat :: i < |f.lists| ==> f.bytes[i] == SumSz(tiles, f.lists[i])
  }

  function Without(s: seq<nat>, k: nat): seq<nat>
    requires k < |s|
  {
    s[..k] + s[k + 1..]
  }

  ghost predicate Listed(f: Fl, x: nat) { exists i: nat :: i < |f.lists| && x in f.lists[i] }

  /** Every free block outside es is on the list for its size, and apart from es only free blocks are. */
  ghost predicate Coupled(tiles: map<nat, Tile>, f: Fl, es: set<nat>) {
    && (forall i: nat, x :: i < |f.lists| && x in f.lists[i] && x !in es ==>
          x in tiles && tiles[x].free && FlIndex(Len(tiles[x])) == i)
    && (forall x :: x in tiles && tiles[x].free && x !in es ==>
          FlIndex(Len(tiles[x])) < |f.lists| && x in f.lists[FlIndex(Len(tiles[x]))])
  }
}
