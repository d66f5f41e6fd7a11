/** Small objects: words of memory, free lists threaded through them, and who owns which object. */
module SmallSpec {
  import opened Basics
  import opened HeapTiles
  import opened FreeLists

  /** Memory is addressed by words here. */
  const HBLK_WORDS: nat := 512         // HBLKSIZE / WORD
  const WORDS_PER_GRANULE: nat := 2
  const MAX_OBJ_WORDS: nat := 256      // half a block

  type Memory = map<nat, nat>

  function Read(m: Memory, a: nat): nat { if a in m then m[a] else 0 }

  /** a is where an object of sz words starts that lies in the block whose first word is h. */
  predicate IsStart(h: nat, sz: nat, a: nat) { 0 < sz && h <= a && (a - h) % sz == 0 && a + sz <= h + HBLK_WORDS }

  /** What the word at a holds after a free list was built in the block at h. */
  function BuiltWord(m: Memory, h: nat, sz: nat, clear: bool, list: nat, a: nat): nat {
    if a < h || a >= h + HBLK_WORDS then Read(m, a)
    else if IsStart(h, sz, a) then if a == h then list else a - sz
    else if clear then 0 else Read(m, a)
  }

  /** A free list of all objects of sz words that fit was built in the block at h, in front of `list`. */
  ghost predicate Built(m: Memory, m': Memory, h: nat, sz: nat, clear: bool, list: nat) {
    forall a: nat :: Read(m', a) == BuiltWord(m, h, sz, clear, list, a)
  }

  /** The objects of the block from r down to the first, which is at h. */
  function StartsDown(h: nat, sz: nat, r: nat): seq<nat>
    requires 0 < sz
    decreases r
  {
    if r < h + sz then [r] else [r] + StartsDown(h, sz, r - sz)
  }

  /** The links starting at head spell out s. */
  ghost predicate FList(m: Memory, head: nat, s: seq<nat>) {
    head == First(s) && forall k: nat :: k < |s| ==> s[k] != 0 && Read(m, s[k]) == After(s, k)
  }

  /** An allocated heap block: its length in heap blocks and the size of its objects in words.  A block
      of small objects has length 1. */
  datatype Blk = Blk(len: nat, words: nat, kind: Kind)

  datatype ListId = ListId(words: nat, kind: Kind)

  /** The list for the objects of a block. */
  function IdOf(b: Blk): ListId { ListId(b.words, b.kind) }

  function Members(s: seq<nat>): set<nat> { set i | 0 <= i < |s| :: s[i] }

  predicate IsSmall(b: Blk) { b.words <= MAX_OBJ_WORDS }

  /** ok_init: objects of this kind are cleared. */
  predicate Init(k: Kind) { k == Normal || k == Uncollectable }

  predicate BlkOk(b: Blk) { 0 < b.len && 0 < b.words <= b.len * HBLK_WORDS && (IsSmall(b) ==> b.len == 1) }

  /** The object at o lies in a block of objects of this size and kind. */
  predicate ObjOf(blocks: map<nat, Blk>, o: nat, b: Blk) {
    && o / HBLK_WORDS in blocks && blocks[o / HBLK_WORDS] == b
    && if IsSmall(b) then IsStart(o / HBLK_WORDS * HBLK_WORDS, b.words, o) else o % HBLK_WORDS == 0
  }

  predicate IsObj(blocks: map<nat, Blk>, o: nat) { o / HBLK_WORDS in blocks && ObjOf(blocks, o, blocks[o / HBLK_WORDS]) }

  function SizeOf(blocks: map<nat, Blk>, o: nat): nat { if o / HBLK_WORDS in blocks then blocks[o / HBLK_WORDS].words else 0 }
  function KindOf(blocks: map<nat, Blk>, o: nat): Option<Kind> {
    if o / HBLK_WORDS in blocks then Some(blocks[o / HBLK_WORDS].kind) else None
  }

  /** Heap blocks do not overlap. */
  ghost predicate BlocksOk(blocks: map<nat, Blk>) {
    && (forall b :: b in blocks ==> 0 < b && BlkOk(blocks[b]))
    && (forall b, c :: b in blocks && c in blocks && b < c ==> b + blocks[b].len <= c)
  }

  function ListOf(lists: map<ListId, seq<nat>>, id: ListId): seq<nat> { if id in lists then lists[id] else [] }
  function HeadOf(heads: map<ListId, nat>, id: ListId): nat { if id in heads then heads[id] else 0 }

  /** The object at o is cleared except for its first word. */
  ghost predicate Cleared(m: Memory, o: nat, sz: nat) { forall a :: o < a < o + sz ==> Read(m, a) == 0 }

  ghost predicate AllZero(m: Memory, o: nat, sz: nat) { forall a :: o <= a < o + sz ==> Read(m, a) == 0 }

  /** One free list: well-formed, acyclic, made of objects of the right size and kind, cleared if the
      kind asks for it. */
  ghost predicate ListOk(m: Memory, blocks: map<nat, Blk>, heads: map<ListId, nat>, lists: map<ListId, seq<nat>>, id: ListId) {
    var s := ListOf(lists, id);
    && FList(m, HeadOf(heads, id), s)
    && NoDup(s)
    && (forall o :: o in s ==> id.words <= MAX_OBJ_WORDS && ObjOf(blocks, o, Blk(1, id.words, id.kind)))
    && (forall o :: o in s && Init(id.kind) ==> Cleared(m, o, id.words))
  }

  /** All that is known about small objects.  `client` are the objects that were handed out. */
  datatype Store = Store(m: Memory, blocks: map<nat, Blk>, heads: map<ListId, nat>, lists: map<ListId, seq<nat>>, client: set<nat>)

  ghost predicate StoreOk(st: Store) {
    && BlocksOk(st.blocks)
    && (forall id :: ListOk(st.m, st.blocks, st.heads, st.lists, id))
    && (forall id, id', o :: o in ListOf(st.lists, id) && o in ListOf(st.lists, id') ==> id == id')
    && (forall o :: o in st.client ==> IsObj(st.blocks, o))
    && (forall o, id :: o in st.client ==> o !in ListOf(st.lists, id))
  }

  /** Every object of the block at b is handed out or free. */
  ghost predicate Covered(st: Store, b: nat) {
    b in st.blocks ==>
      forall o :: o / HBLK_WORDS == b && IsObj(st.blocks, o) ==>
        o in st.client || o in ListOf(st.lists, ListId(st.blocks[b].words, st.blocks[b].kind))
  }

  /** No object is lost: each one in a block in use is handed out or free. */
  ghost predicate NothingLost(st: Store) { forall b :: b in st.blocks ==> Covered(st, b) }

  /** Only the list of class id may have changed. */
  ghost predicate OthersListed(lists: map<ListId, seq<nat>>, lists': map<ListId, seq<nat>>, id: ListId) {
    forall i :: i != id ==> ListOf(lists', i) == ListOf(lists, i)
  }

  /** The words of client objects other than o are as before. */
  ghost predicate OthersKept(st: Store, st': Store, o: nat) {
    forall p, a :: p in st.client && p != o && p <= a < p + SizeOf(st.blocks, p) ==> Read(st'.m, a) == Read(st.m, a)
  }

  /** Heap block b is not part of any block in use. */
  predicate Unused(blocks: map<nat, Blk>, b: nat, len: nat) {
    0 < b && forall c :: c in blocks ==> b + len <= c || c + blocks[c].len <= b
  }

  function Popped(st: Store, id: ListId): Store
    requires ListOf(st.lists, id) != []
  {
    var o := ListOf(st.lists, id)[0];
    st.(m := st.m[o := 0], heads := st.heads[id := Read(st.m, o)], lists := st.lists[id := ListOf(st.lists, id)[1..]],
        client := st.client + {o})
  }

  /** Memory after o became the first object of a list and was perhaps cleared. */
  ghost predicate PushedMemory(m: Memory, m': Memory, o: nat, words: nat, clear: bool, head: nat) {
    forall x: nat :: Read(m', x) == if x == o then head else if clear && o < x < o + words then 0 else Read(m, x)
  }

  function PushedStore(st: Store, id: ListId, o: nat, m': Memory): Store {
    st.(m := m', heads := st.heads[id := o], lists := st.lists[id := [o] + ListOf(st.lists, id)], client := st.client - {o})
  }

  function NewStore(st: Store, id: ListId, b: nat, m': Memory, r: nat): Store
    requires 0 < id.words
  {
    st.(m := m', blocks := st.blocks[b := Blk(1, id.words, id.kind)], heads := st.heads[id := r],
        lists := st.lists[id := StartsDown(b * HBLK_WORDS, id.words, r) + ListOf(st.lists, id)])
  }

  /** Objects that are still handed out have their size and their contents. */
  ghost predicate Survives(st: Store, st': Store) {
    && st'.client <= st.client
    && (forall p :: p in st'.client ==> SizeOf(st'.blocks, p) == SizeOf(st.blocks, p))
    && (forall p, a :: p in st'.client && p <= a < p + SizeOf(st.blocks, p) ==> Read(st'.m, a) == Read(st.m, a))
  }

  /** Objects of list id that were handed out, none twice. */
  predicate HandedOut(client: set<nat>, blocks: map<nat, Blk>, id: ListId, dead: seq<nat>) {
    && (forall i, j :: 0 <= i < j < |dead| ==> dead[i] != dead[j])
    && forall o :: o in dead ==> o in client && ObjOf(blocks, o, Blk(1, id.words, id.kind))
  }

  function Backwards(s: seq<nat>): seq<nat> { if s == [] then [] else Backwards(s[1..]) + [s[0]] }

  /** What one attempt to get an object brings: the objects that the sweep finds dead, and the block of
      memory that GC_allochblk has. */
  datatype Attempt = Attempt(dead: seq<nat>, block: Option<nat>)

  ghost predicate AttemptsOk(client: set<nat>, blocks: map<nat, Blk>, id: ListId, tries: seq<Attempt>) {
    forall t :: t in tries ==> HandedOut(client, blocks, id, t.dead) && (t.block.Some? ==> Unused(blocks, t.block.value, 1))
  }

  /** All that attempts find dead. */
  ghost function AllDead(tries: seq<Attempt>): set<nat> { set t, o | t in tries && o in t.dead :: o }

  function LargeStore(st: Store, b: nat, blk: Blk, m': Memory): Store {
    st.(m := m', blocks := st.blocks[b := blk], client := st.client + {b * HBLK_WORDS})
  }

  function FreedLarge(st: Store, b: nat): Store {
    st.(blocks := st.blocks - {b}, client := st.client - {b * HBLK_WORDS})
  }
}
