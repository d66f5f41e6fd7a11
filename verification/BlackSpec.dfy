/** Black lists: bitmaps over hashed heap blocks. */
module BlackSpec {
  import opened Basics

  const WORDSZ: nat := 64
  const PHT_ENTRIES: nat := 0x4_0000
  const PHT_SIZE: nat := 4096
  const MAXHINCR: nat := 2048

  /** A bitmap: each word is the set of its one bits. */
  type Bits = seq<set<nat>>

  /** PHT_HASH for block number h. */
  function Hash(h: nat): nat { h % PHT_ENTRIES }

  /** get_pht_entry_from_index. */
  predicate Bit(bl: Bits, index: nat)
    requires |bl| == PHT_SIZE && index < PHT_ENTRIES
  {
    index % WORDSZ in bl[index / WORDSZ]
  }

  /** The black lists in use. */
  datatype Lists = Lists(oldNormal: Bits, newNormal: Bits, oldStack: Bits, newStack: Bits, allInterior: bool)

  predicate ListsOk(t: Lists) {
    |t.oldNormal| == |t.newNormal| == |t.oldStack| == |t.newStack| == PHT_SIZE
  }

  /** Block h as such is on a list for false pointers to object starts; not used if interior pointers
      count everywhere. */
  predicate NormalListed(t: Lists, h: nat)
    requires ListsOk(t)
  {
    !t.allInterior && (Bit(t.oldNormal, Hash(h)) || Bit(t.newNormal, Hash(h)))
  }

  /** Block h is on a list for false pointers from the stack. */
  predicate StackListed(t: Lists, h: nat)
    requires ListsOk(t)
  {
    Bit(t.oldStack, Hash(h)) || Bit(t.newStack, Hash(h))
  }

  /** How many blocks a length of len bytes is taken to need. */
  function Span(len: nat): (n: nat)
    ensures n > 0
  {
    if len < HBLKSIZE then 1 else len / HBLKSIZE
  }

  /** x is one of the blocks from h on that len bytes fill, or h itself. */
  predicate Asked(h: nat, len: nat, x: nat) { h <= x && (x == h || 4096 * (x - h + 1) <= len) }

  /** h is black-listed for len: because of itself, or because of one of its blocks. */
  ghost predicate Listed(t: Lists, h: nat, len: nat)
    requires ListsOk(t)
  {
    NormalListed(t, h) || exists x :: h <= x < h + Span(len) && StackListed(t, x)
  }

  /** The block behind the first stack-listed one of h + i .. h + n - 1, 0 if there is none: bit by bit. */
  function Scan(t: Lists, h: nat, n: nat, i: nat): nat
    requires ListsOk(t)
    decreases n - i
  {
    if i >= n then 0 else if StackListed(t, h + i) then h + i + 1 else Scan(t, h, n, i + 1)
  }

  /** What GC_is_black_listed is to return. */
  function FirstPlausible(t: Lists, h: nat, len: nat): nat
    requires ListsOk(t)
  {
    if NormalListed(t, h) then h + 1 else Scan(t, h, Span(len), 0)
  }

  /** How many of the n blocks from h on are in the bitmap. */
  function CountListed(bl: Bits, h: nat, n: nat): nat
    requires |bl| == PHT_SIZE
  {
    if n == 0 then 0 else CountListed(bl, h, n - 1) + if Bit(bl, Hash(h + n - 1)) then 1 else 0
  }

  /** The same for sections of the heap, given as (start, blocks). */
  function CountInSects(bl: Bits, sects: seq<(nat, nat)>): nat
    requires |bl| == PHT_SIZE
  {
    if sects == [] then 0
    else CountInSects(bl, sects[..|sects| - 1]) + CountListed(bl, sects[|sects| - 1].0, sects[|sects| - 1].1)
  }

  /** How far apart black-listed blocks are on average, within bounds. */
  function Spacing(before: nat, heapBytes: nat, total: nat): nat {
    var s := if total != 0 then HBLKSIZE * (heapBytes / total) else before;
    if s < 3 * HBLKSIZE then 3 * HBLKSIZE else if s > MAXHINCR * HBLKSIZE then MAXHINCR * HBLKSIZE else s
  }

  /** The bitmap with the bit for block h set. */
  function WithBit(bl: Bits, h: nat): Bits
    requires |bl| == PHT_SIZE
  {
    bl[Hash(h) / WORDSZ := bl[Hash(h) / WORDSZ] + {Hash(h) % WORDSZ}]
  }

  const NO_BITS: Bits := seq(PHT_SIZE, _ => {})
}
