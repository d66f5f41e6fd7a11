/** What the bit-by-bit scan finds. */
module BlackSteps {
  import opened Basics
  import opened BlockSearch
  import opened BlackSpec

  lemma {:induction false} ScanFinds(t: Lists, h: nat, n: nat, i: nat)
    requires ListsOk(t) && i <= n
    ensures Scan(t, h, n, i) == 0 <==> forall x :: h + i <= x < h + n ==> !StackListed(t, x)
    ensures Scan(t, h, n, i) != 0 ==> h + i < Scan(t, h, n, i) <= h + n && StackListed(t, Scan(t, h, n, i) - 1)
    decreases n - i
  {
    if i < n && !StackListed(t, h + i) { ScanFinds(t, h, n, i + 1); }
  }

  /** What the scan finds, by the blocks that are asked about. */
  lemma AskedIs(t: Lists, h: nat, len: nat)
    requires ListsOk(t)
    ensures var r := FirstPlausible(t, h, len);
      && (r == 0 <==> !NormalListed(t, h) && forall x :: Asked(h, len, x) ==> !StackListed(t, x))
      && (r != 0 && NormalListed(t, h) ==> r == h + 1)
      && (r != 0 && !NormalListed(t, h) ==>
            h < r && Asked(h, len, r - 1) && StackListed(t, r - 1) && forall x :: h <= x < r - 1 ==> !StackListed(t, x))
  {
    hide NormalListed, StackListed;
    forall x: nat ensures Asked(h, len, x) <==> h <= x < h + Span(len) {}
    ScanFinds(t, h, Span(len), 0);
    ScanFirst(t, h, Span(len), 0);
  }

  lemma {:induction false} ScanFirst(t: Lists, h: nat, n: nat, i: nat)
    requires ListsOk(t) && i <= n
    ensures forall x :: h + i <= x < Scan(t, h, n, i) - 1 ==> !StackListed(t, x)
    decreases n - i
  {
    hide StackListed;
    if i < n && !StackListed(t, h + i) { ScanFirst(t, h, n, i + 1); }
  }

  /** 0 exactly if (h, len) is not listed; otherwise every start before the result is listed as well. */
  lemma PlausibleIsRight(t: Lists, h: nat, len: nat)
    requires ListsOk(t)
    ensures FirstPlausible(t, h, len) == 0 <==> !Listed(t, h, len)
    ensures FirstPlausible(t, h, len) != 0 ==> h < FirstPlausible(t, h, len)
    ensures forall x :: h <= x < FirstPlausible(t, h, len) ==> Listed(t, x, len)
  {
    ScanFinds(t, h, Span(len), 0);
    var r := FirstPlausible(t, h, len);
    forall x | h <= x < r ensures Listed(t, x, len) {
      if !NormalListed(t, h) { assert x <= r - 1 < x + Span(len) && StackListed(t, r - 1); }
    }
  }

  /** So the black lists are what the block allocator relies on. */
  lemma ServesAllocator(t: Lists)
    requires ListsOk(t)
    ensures BlackListOk((h, len) => FirstPlausible(t, h, len))
  {
    var bl: (nat, nat) -> nat := (h, len) => FirstPlausible(t, h, len);
    forall h: nat, len: nat | bl(h, len) != 0 ensures h < bl(h, len) { PlausibleIsRight(t, h, len); }
    forall h: nat, len: nat, x: nat | bl(h, len) != 0 && h <= x < bl(h, len) ensures bl(x, len) != 0 {
      PlausibleIsRight(t, h, len);
      PlausibleIsRight(t, x, len);
    }
    forall h: nat, len: nat | HBLKSIZE <= len ensures HBLKSIZE * bl(h, len) <= HBLKSIZE * h + len { ScanFinds(t, h, Span(len), 0); }
    forall h: nat, len: nat, less: nat | HBLKSIZE <= less <= len && bl(h, len) == 0 ensures bl(h, less) == 0 {
      PlausibleIsRight(t, h, len);
      PlausibleIsRight(t, h, less);
      ShorterSpan(less, len);
    }
  }

  lemma ShorterSpan(less: nat, len: nat)
    requires HBLKSIZE <= less <= len
    ensures Span(less) <= Span(len)
  {
  }

  /** From i up to the next word boundary of the bitmaps nothing is listed if both words are zero. */
  lemma ZeroWord(t: Lists, h: nat, i: nat)
    requires ListsOk(t)
    requires t.oldStack[Hash(h + i) / WORDSZ] == {} && t.newStack[Hash(h + i) / WORDSZ] == {}
    ensures forall x :: h + i <= x < h + i + WORDSZ - Hash(h + i) % WORDSZ ==> !StackListed(t, x)
  {
    forall x | h + i <= x < h + i + WORDSZ - Hash(h + i) % WORDSZ
      ensures !StackListed(t, x)
    {
      SameWord(h + i, x);
    }
  }

  lemma SameWord(a: nat, x: nat)
    requires a <= x < a + WORDSZ - Hash(a) % WORDSZ
    ensures Hash(x) / WORDSZ == Hash(a) / WORDSZ
  {
    var d := x - a;
    assert Hash(a) + d < PHT_ENTRIES;
    assert Hash(x) == Hash(a) + d;
  }

  lemma {:induction false} ScanSkips(t: Lists, h: nat, n: nat, i: nat, j: nat)
    requires ListsOk(t) && i <= j && forall x :: h + i <= x < h + j ==> !StackListed(t, x)
    ensures Scan(t, h, n, i) == Scan(t, h, n, j)
    decreases j - i
  {
    if i < j && i < n { ScanSkips(t, h, n, i + 1, j); }
  }

  lemma BitIs(t: Lists, h: nat)
    requires ListsOk(t)
    ensures Hash(h) / WORDSZ < PHT_SIZE
    ensures NormalListed(t, h) <==>
            !t.allInterior && (Hash(h) % WORDSZ in t.oldNormal[Hash(h) / WORDSZ] || Hash(h) % WORDSZ in t.newNormal[Hash(h) / WORDSZ])
    ensures StackListed(t, h) <==>
            Hash(h) % WORDSZ in t.oldStack[Hash(h) / WORDSZ] || Hash(h) % WORDSZ in t.newStack[Hash(h) / WORDSZ]
  {
  }

  lemma ScanHere(t: Lists, h: nat, n: nat, i: nat)
    requires ListsOk(t) && i < n && StackListed(t, h + i)
    ensures Scan(t, h, n, i) == h + i + 1
  {
  }

  lemma ScanEnds(t: Lists, h: nat, n: nat, i: nat)
    requires ListsOk(t) && i >= n
    ensures Scan(t, h, n, i) == 0
  {
  }

  /** Exactly the blocks that hash to the same entry as h become listed. */
  lemma WithBitSets(bl: Bits, h: nat, x: nat)
    requires |bl| == PHT_SIZE
    ensures |WithBit(bl, h)| == PHT_SIZE
    ensures Bit(WithBit(bl, h), Hash(x)) <==> Bit(bl, Hash(x)) || Hash(x) == Hash(h)
  {
    var i, j := Hash(h), Hash(x);
    assert i == i / WORDSZ * WORDSZ + i % WORDSZ && j == j / WORDSZ * WORDSZ + j % WORDSZ;
  }

  /** After a promotion a block is listed exactly if it was recorded since the promotion before. */
  lemma PromotedLists(t: Lists, t': Lists, x: nat)
    requires ListsOk(t) && ListsOk(t') && t'.allInterior == t.allInterior
    requires t'.oldStack == t.newStack && t'.newStack == NO_BITS
    requires !t.allInterior ==> t'.oldNormal == t.newNormal && t'.newNormal == NO_BITS
    ensures StackListed(t', x) <==> Bit(t.newStack, Hash(x))
    ensures NormalListed(t', x) <==> !t.allInterior && Bit(t.newNormal, Hash(x))
  {
  }

  /** Undoing a promotion lists nothing that is not on the older lists. */
  lemma UnpromotedLists(t: Lists, t': Lists, x: nat)
    requires ListsOk(t) && ListsOk(t') && t'.allInterior == t.allInterior
    requires t'.oldStack == t.oldStack == t'.newStack && t'.oldNormal == t.oldNormal
    requires !t.allInterior ==> t'.newNormal == t.oldNormal
    ensures StackListed(t', x) <==> Bit(t.oldStack, Hash(x))
    ensures NormalListed(t', x) <==> !t.allInterior && Bit(t.oldNormal, Hash(x))
  {
  }
}
