/** The black lists, changed in place. */
module BlackLists {
  import opened Basics
  import opened BlackSpec
  import opened BlackSteps

  class BlackList {
    var oldNormal: array<set<nat>>    // GC_old_normal_bl and so on
    var newNormal: array<set<nat>>
    var oldStack: array<set<nat>>
    var newStack: array<set<nat>>
    const allInterior: bool           // GC_all_interior_pointers
    var totalListed: nat              // GC_total_stack_black_listed
    var spacing: nat                  // GC_black_list_spacing

    ghost predicate Valid()
      reads this
    {
      && oldNormal.Length == newNormal.Length == oldStack.Length == newStack.Length == PHT_SIZE
      && oldNormal != newNormal && oldNormal != oldStack && oldNormal != newStack
      && newNormal != oldStack && newNormal != newStack && oldStack != newStack
    }

    ghost function T(): Lists
      reads this, oldNormal, newNormal, oldStack, newStack
    {
      Lists(oldNormal[..], newNormal[..], oldStack[..], newStack[..], allInterior)
    }

    constructor (allInterior: bool)
      ensures Valid() && this.allInterior == allInterior
      ensures fresh(oldNormal) && fresh(newNormal) && fresh(oldStack) && fresh(newStack)
      ensures forall h, len :: !Listed(T(), h, len)
      ensures totalListed == 0 && spacing == MINHINCR * HBLKSIZE
    {
      this.allInterior, totalListed, spacing := allInterior, 0, MINHINCR * HBLKSIZE;
      oldNormal := new set<nat>[PHT_SIZE](_ => {});
      newNormal := new set<nat>[PHT_SIZE](_ => {});
      oldStack := new set<nat>[PHT_SIZE](_ => {});
      newStack := new set<nat>[PHT_SIZE](_ => {});
    }

    /** GC_is_black_listed: skipping whole zero words finds what the bit-by-bit scan finds. */
    method IsBlackListed(h: nat, len: nat) returns (r: nat)
      requires Valid()
      ensures r == FirstPlausible(T(), h, len)
      ensures r == 0 <==> !NormalListed(T(), h) && forall x :: Asked(h, len, x) ==> !StackListed(T(), x)
      ensures r != 0 && NormalListed(T(), h) ==> r == h + 1
      ensures r != 0 && !NormalListed(T(), h) ==>
                h < r && Asked(h, len, r - 1) && StackListed(T(), r - 1) && forall x :: h <= x < r - 1 ==> !StackListed(T(), x)
    {
      hide Scan, StackListed, Bit, Asked;
      AskedIs(T(), h, len);
      var index := Hash(h);
      if !allInterior && (index % WORDSZ in oldNormal[index / WORDSZ] || index % WORDSZ in newNormal[index / WORDSZ]) {
        BitIs(T(), h);
        return h + 1;
      }
      BitIs(T(), h);
      var nblocks := len / HBLKSIZE;
      var i := 0;
      while true
        invariant index == Hash(h + i) && i < Span(len)
        invariant Scan(T(), h, Span(len), 0) == Scan(T(), h, Span(len), i)
        decreases Span(len) - i
      {
        ghost var i0 := i;
        BitIs(T(), h + i);
        if oldStack[index / WORDSZ] == {} && newStack[index / WORDSZ] == {} {
          i := i + WORDSZ - index % WORDSZ;
          ZeroWord(T(), h, i0);
        } else {
          if index % WORDSZ in oldStack[index / WORDSZ] || index % WORDSZ in newStack[index / WORDSZ] {
            ScanHere(T(), h, Span(len), i);
            return h + i + 1;
          }
          i := i + 1;
        }
        ScanSkips(T(), h, Span(len), i0, i);
        if i >= nblocks { break; }
        index := Hash(h + i);
      }
      ScanEnds(T(), h, Span(len), i);
      return 0;
    }

    /** GC_clear_bl. */
    static method Clear(doomed: array<set<nat>>)
      requires doomed.Length == PHT_SIZE
      modifies doomed
      ensures doomed[..] == NO_BITS
    {
      var i := 0;
      while i < PHT_SIZE
        invariant i <= PHT_SIZE && forall k :: 0 <= k < i ==> doomed[k] == {}
      {
        doomed[i] := {};
        i := i + 1;
      }
    }

    /** GC_copy_bl. */
    static method Copy(from: array<set<nat>>, dest: array<set<nat>>)
      requires from.Length == dest.Length == PHT_SIZE && from != dest
      modifies dest
      ensures dest[..] == from[..]
    {
      var i := 0;
      while i < PHT_SIZE
        invariant i <= PHT_SIZE && forall k :: 0 <= k < i ==> dest[k] == from[k]
      {
        dest[i] := from[i];
        i := i + 1;
      }
    }

    /** GC_number_stack_black_listed; it looks at the old list only. */
    method NumberListed(h: nat, n: nat) returns (r: nat)
      requires Valid()
      ensures r == CountListed(oldStack[..], h, n)
    {
      r := 0;
      var x := 0;
      while x < n
        invariant x <= n && r == CountListed(oldStack[..], h, x)
      {
        var index := Hash(h + x);
        if index % WORDSZ in oldStack[index / WORDSZ] { r := r + 1; }
        x := x + 1;
      }
    }

    /** total_stack_black_listed. */
    method TotalListed(sects: seq<(nat, nat)>) returns (r: nat)
      requires Valid()
      ensures r == CountInSects(oldStack[..], sects) * HBLKSIZE
    {
      var total, i := 0, 0;
      while i < |sects|
        invariant i <= |sects| && total == CountInSects(oldStack[..], sects[..i])
      {
        var n := NumberListed(sects[i].0, sects[i].1);
        assert sects[..i + 1][..i] == sects[..i];
        total := total + n;
        i := i + 1;
      }
      assert sects[..i] == sects;
      r := total * HBLKSIZE;
    }

    /** GC_promote_black_lists: what was recorded since the last promotion becomes the lists in use. */
    method Promote(heapBytes: nat, sects: seq<(nat, nat)>)
      requires Valid()
      modifies this`oldNormal, this`newNormal, this`oldStack, this`newStack, this`totalListed, this`spacing, oldNormal, oldStack
      ensures Valid()
      ensures {oldNormal, newNormal, oldStack, newStack} == old({oldNormal, newNormal, oldStack, newStack})
      ensures T().oldStack == old(T().newStack) && T().newStack == NO_BITS
      ensures T().oldNormal == old(T().newNormal)
      ensures T().newNormal == if allInterior then old(T().oldNormal) else NO_BITS
      ensures totalListed == CountInSects(oldStack[..], sects) * HBLKSIZE
      ensures spacing == Spacing(old(spacing), heapBytes, totalListed)
    {
      var veryOldNormal, veryOldStack := oldNormal, oldStack;
      oldNormal := newNormal;
      oldStack := newStack;
      if !allInterior { Clear(veryOldNormal); }
      Clear(veryOldStack);
      newNormal := veryOldNormal;
      newStack := veryOldStack;
      totalListed := TotalListed(sects);
      if totalListed != 0 { spacing := HBLKSIZE * (heapBytes / totalListed); }
      if spacing < 3 * HBLKSIZE { spacing := 3 * HBLKSIZE; }
      if spacing > MAXHINCR * HBLKSIZE { spacing := MAXHINCR * HBLKSIZE; }
    }

    /** GC_unpromote_black_lists. */
    method Unpromote()
      requires Valid()
      modifies newNormal, newStack
      ensures T().oldStack == old(T().oldStack) == T().newStack && T().oldNormal == old(T().oldNormal)
      ensures T().newNormal == if allInterior then old(T().newNormal) else old(T().oldNormal)
    {
      if !allInterior { Copy(oldNormal, newNormal); }
      Copy(oldStack, newStack);
    }

    /** GC_add_to_black_list_stack for a false pointer into block h. */
    method AddStack(h: nat, hasHeader: bool)
      requires Valid()
      modifies newStack
      ensures T() == old(T()).(newStack := if !hasHeader || Bit(old(T().oldStack), Hash(h)) then WithBit(old(T().newStack), h) else old(T().newStack))
    {
      var index := Hash(h);
      if !hasHeader || index % WORDSZ in oldStack[index / WORDSZ] {
        newStack[index / WORDSZ] := newStack[index / WORDSZ] + {index % WORDSZ};
      }
    }
  }
}
