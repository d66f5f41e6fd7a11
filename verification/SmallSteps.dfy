/** Objects do not overlap, and what the operations on free lists keep. */
module SmallSteps {
  import opened SmallSpec

  lemma ModNext(d: nat, sz: nat)
    requires 0 < sz && d % sz == 0
    ensures (d + sz) % sz == 0
  {
    assert d == d / sz * sz;
    assert d + sz == (d / sz + 1) * sz;
    ModTimes(d / sz + 1, sz);
  }

  lemma ModTimes(k: nat, sz: nat)
    requires 0 < sz
    ensures (k * sz) % sz == 0 && (k * sz) / sz == k
  {
    DivUnique(k * sz, sz, k, 0);
  }

  lemma {:induction false} MulLess(a: nat, b: nat, n: nat)
    ensures a < b ==> a * n + n <= b * n
  {
    if a + 1 < b {
      MulLess(a, b - 1, n);
      assert b * n == (b - 1) * n + n;
    } else if a + 1 == b {
      assert b * n == a * n + n;
    }
  }

  lemma DivUnique(a: nat, n: nat, q: nat, r: nat)
    requires r < n && a == q * n + r
    ensures a / n == q && a % n == r
  {
    var d, m := a / n, a % n;
    assert a == d * n + m && m < n;
    MulLess(d, q, n);
    MulLess(q, d, n);
  }

  /** Multiples of sz are at least sz apart. */
  lemma MultiplesApart(d: nat, e: nat, sz: nat)
    requires 0 < sz && d % sz == 0 && e % sz == 0 && d < e
    ensures d + sz <= e
  {
    var i, j := d / sz, e / sz;
    assert d == i * sz && e == j * sz;
    MulLess(i, j, sz);
    MulLess(j, i, sz);
  }

  lemma BlockOf(a: nat)
    ensures a == a / HBLK_WORDS * HBLK_WORDS + a % HBLK_WORDS && a % HBLK_WORDS < HBLK_WORDS
  {
  }

  /** The words of an object are in its block. */
  lemma ObjInside(blocks: map<nat, Blk>, o: nat)
    requires BlocksOk(blocks) && IsObj(blocks, o)
    ensures 0 < o && 0 < SizeOf(blocks, o)
    ensures o + SizeOf(blocks, o) <= (o / HBLK_WORDS + blocks[o / HBLK_WORDS].len) * HBLK_WORDS
  {
    BlockOf(o);
    var b := o / HBLK_WORDS;
    assert (b + blocks[b].len) * HBLK_WORDS == b * HBLK_WORDS + blocks[b].len * HBLK_WORDS;
  }

  /** Two objects, free or handed out, share no word. */
  lemma ObjectsDisjoint(blocks: map<nat, Blk>, o: nat, p: nat)
    requires BlocksOk(blocks) && IsObj(blocks, o) && IsObj(blocks, p) && o < p
    ensures o + SizeOf(blocks, o) <= p
  {
    hide BlkOk;
    BlockOf(o);
    BlockOf(p);
    var b, c := o / HBLK_WORDS, p / HBLK_WORDS;
    if b == c { SameBlock(blocks, o, p); } else {
      hide BlocksOk, IsObj, ObjOf;
      ObjInside(blocks, o);
      BlocksApart(blocks, b, c, o, p);
    }
  }

  lemma SameBlock(blocks: map<nat, Blk>, o: nat, p: nat)
    requires IsObj(blocks, o) && IsObj(blocks, p) && o < p && o / HBLK_WORDS == p / HBLK_WORDS
    ensures o + SizeOf(blocks, o) <= p
  {
    BlockOf(o);
    BlockOf(p);
    var h := o / HBLK_WORDS * HBLK_WORDS;
    if IsSmall(blocks[o / HBLK_WORDS]) { MultiplesApart(o - h, p - h, blocks[o / HBLK_WORDS].words); }
  }

  lemma BlocksApart(blocks: map<nat, Blk>, b: nat, c: nat, o: nat, p: nat)
    requires BlocksOk(blocks) && b in blocks && c in blocks && b != c && o < p && b == o / HBLK_WORDS && c == p / HBLK_WORDS
    ensures (b + blocks[b].len) * HBLK_WORDS <= p
  {
    BlockOf(o);
    BlockOf(p);
    assert b < c;
    assert b + blocks[b].len <= c;
  }

  /** What the word at a holds while the general loop of GC_build_fl is at p: the first link is still
      to be stored. */
  function Partly(m: Memory, h: nat, sz: nat, clear: bool, p: nat, a: nat): nat {
    if h < a < p && a < h + HBLK_WORDS && IsStart(h, sz, a) then a - sz
    else if clear && h <= a < h + HBLK_WORDS then 0 else Read(m, a)
  }

  lemma StartsApart(h: nat, sz: nat, p: nat, a: nat)
    requires IsStart(h, sz, p) && IsStart(h, sz, a) && p < a
    ensures p + sz <= a
  {
    MultiplesApart(p - h, a - h, sz);
  }

  lemma FirstStart(h: nat, sz: nat)
    requires 0 < sz <= HBLK_WORDS
    ensures IsStart(h, sz, h)
    ensures forall a: nat :: h < a && IsStart(h, sz, a) ==> h + sz <= a
  {
    forall a: nat | h < a && IsStart(h, sz, a) ensures h + sz <= a { StartsApart(h, sz, h, a); }
  }

  lemma NextStart(h: nat, sz: nat, p: nat)
    requires IsStart(h, sz, p)
    ensures p + 2 * sz <= h + HBLK_WORDS ==> IsStart(h, sz, p + sz)
    ensures forall a: nat :: p < a && IsStart(h, sz, a) ==> p + sz <= a
  {
    ModNext(p - h, sz);
    forall a: nat | p < a && IsStart(h, sz, a) ensures p + sz <= a { StartsApart(h, sz, p, a); }
  }

  lemma PartlyMore(m: Memory, h: nat, sz: nat, clear: bool, p: nat)
    requires h + sz <= p && p + sz <= h + HBLK_WORDS && IsStart(h, sz, p - sz)
    ensures IsStart(h, sz, p)
    ensures forall a: nat :: Partly(m, h, sz, clear, p + sz, a) == if a == p then p - sz else Partly(m, h, sz, clear, p, a)
  {
    NextStart(h, sz, p - sz);
    forall a: nat
      ensures Partly(m, h, sz, clear, p + sz, a) == if a == p then p - sz else Partly(m, h, sz, clear, p, a)
    {
      if p < a < p + sz && IsStart(h, sz, a) { StartsApart(h, sz, p, a); }
    }
  }

  lemma PartlyAll(m: Memory, h: nat, sz: nat, clear: bool, list: nat, p: nat)
    requires h + sz <= p && p + sz > h + HBLK_WORDS && IsStart(h, sz, p - sz)
    ensures forall a: nat :: BuiltWord(m, h, sz, clear, list, a) == if a == h then list else Partly(m, h, sz, clear, p, a)
  {
    NextStart(h, sz, p - sz);
    FirstStart(h, sz);
  }

  lemma BuiltOutside(m: Memory, h: nat, sz: nat, clear: bool, list: nat)
    ensures forall a: nat :: a < h || h + HBLK_WORDS <= a ==> BuiltWord(m, h, sz, clear, list, a) == Read(m, a)
  {
  }

  /** What the unrolled loops write: two objects at a time. */
  lemma TwoObjects(m: Memory, h: nat, sz: nat, clear: bool, list: nat, p: nat)
    requires (sz == 2 || sz == 4) && h <= p && (p - h) % (2 * sz) == 0 && p + 2 * sz <= h + HBLK_WORDS
    ensures forall a: nat :: p <= a < p + 2 * sz ==>
              BuiltWord(m, h, sz, clear, list, a) ==
                if a == p then if p == h then list else p - sz
                else if a == p + sz then p else if clear then 0 else Read(m, a)
  {
    hide Read;
    var k := (p - h) / (2 * sz);
    if sz == 2 { Starts2(h, p, k); } else { Starts4(h, p, k); }
  }

  lemma Starts2(h: nat, p: nat, k: nat)
    requires p == h + 4 * k && p + 4 <= h + HBLK_WORDS
    ensures forall a: nat :: p <= a < p + 4 ==> (IsStart(h, 2, a) <==> a == p || a == p + 2)
  {
  }

  lemma Starts4(h: nat, p: nat, k: nat)
    requires p == h + 8 * k && p + 8 <= h + HBLK_WORDS
    ensures forall a: nat :: p <= a < p + 8 ==> (IsStart(h, 4, a) <==> a == p || a == p + 4)
  {
  }
}
