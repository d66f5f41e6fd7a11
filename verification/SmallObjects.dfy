/** Building free lists inside heap blocks, and allocating from them, in place. */
module SmallObjects {
  import opened Basics
  import opened HeapTiles
  import opened SmallSpec
  import opened SmallSteps
  import opened StoreSteps
  import opened SizeClasses

  class SmallHeap {
    var m: Memory
    var blocks: map<nat, Blk>            // allocated heap blocks, by number
    var heads: map<ListId, nat>          // ok_freelist
    ghost var lists: map<ListId, seq<nat>>
    var client: set<nat>                 // history variable: the objects that are handed out
    const sizeMap: SizeMap
    const debugging: bool                // GC_debugging_started

    ghost function St(): Store
      reads this
    {
      Store(m, blocks, heads, lists, client)
    }

    constructor (extra: nat, debugging: bool)
      requires extra <= 1
      ensures StoreOk(St()) && NothingLost(St()) && client == {} && sizeMap.Valid() && fresh(sizeMap) && fresh(sizeMap.sizes)
    {
      m, blocks, heads, lists, client, this.debugging := map[], map[], map[], map[], {}, debugging;
      var s := new SizeMap(extra);
      sizeMap := s;
    }

    method Write(a: nat, v: nat)
      modifies this`m
      ensures m == old(m)[a := v]
      ensures forall x: nat :: Read(m, x) == if x == a then v else Read(old(m), x)
    {
      m := m[a := v];
    }

    /** p[0] = v0; p[1] = v1; p[2] = v2; p[3] = v3. */
    method Write4(p: nat, v0: nat, v1: nat, v2: nat, v3: nat)
      modifies this`m
      ensures forall x: nat :: Read(m, x) ==
                if x == p then v0 else if x == p + 1 then v1 else if x == p + 2 then v2 else if x == p + 3 then v3 else Read(old(m), x)
    {
      m := m[p := v0][p + 1 := v1][p + 2 := v2][p + 3 := v3];
    }

    /** GC_build_fl_clear2. */
    method BuildFlClear2(h: nat, ofl: nat) returns (r: nat)
      modifies this`m
      ensures Built(old(m), m, h, 2, true, ofl) && r == h + HBLK_WORDS - 2
    {
      hide BuiltWord;
      var p, lim := h, h + HBLK_WORDS;
      BuiltOutside(m, h, 2, true, ofl);
      TwoObjects(m, h, 2, true, ofl, p);
      Write4(p, ofl, 0, p, 0);
      p := p + 4;
      while p < lim
        invariant p <= lim && (p - h) % 4 == 0 && h + 4 <= p
        invariant forall a: nat :: Read(m, a) == if a < p then BuiltWord(old(m), h, 2, true, ofl, a) else Read(old(m), a)
      {
        TwoObjects(old(m), h, 2, true, ofl, p);
        Write4(p, p - 2, 0, p, 0);
        p := p + 4;
      }
      r := p - 2;
    }

    /** GC_build_fl_clear4. */
    method BuildFlClear4(h: nat, ofl: nat) returns (r: nat)
      modifies this`m
      ensures Built(old(m), m, h, 4, true, ofl) && r == h + HBLK_WORDS - 4
    {
      var p, lim := h, h + HBLK_WORDS;
      Write4(p, ofl, 0, 0, 0);
      p := p + 4;
      while p < lim
        invariant p <= lim && (p - h) % 4 == 0 && h + 4 <= p
        invariant forall a: nat :: Read(m, a) == if a < p then BuiltWord(old(m), h, 4, true, ofl, a) else Read(old(m), a)
      {
        Write4(p, p - 4, 0, 0, 0);
        p := p + 4;
      }
      r := p - 4;
    }

    /** GC_build_fl2. */
    method BuildFl2(h: nat, ofl: nat) returns (r: nat)
      modifies this`m
      ensures Built(old(m), m, h, 2, false, ofl) && r == h + HBLK_WORDS - 2
    {
      hide BuiltWord;
      var p, lim := h, h + HBLK_WORDS;
      BuiltOutside(m, h, 2, false, ofl);
      TwoObjects(m, h, 2, false, ofl, p);
      Write(p, ofl);
      Write(p + 2, p);
      p := p + 4;
      while p < lim
        invariant p <= lim && (p - h) % 4 == 0 && h + 4 <= p
        invariant forall a: nat :: Read(m, a) == if a < p then BuiltWord(old(m), h, 2, false, ofl, a) else Read(old(m), a)
      {
        TwoObjects(old(m), h, 2, false, ofl, p);
        Write(p, p - 2);
        Write(p + 2, p);
        p := p + 4;
      }
      r := p - 2;
    }

    /** GC_build_fl4. */
    method BuildFl4(h: nat, ofl: nat) returns (r: nat)
      modifies this`m
      ensures Built(old(m), m, h, 4, false, ofl) && r == h + HBLK_WORDS - 4
    {
      hide BuiltWord;
      var p, lim := h, h + HBLK_WORDS;
      BuiltOutside(m, h, 4, false, ofl);
      TwoObjects(m, h, 4, false, ofl, p);
      Write(p, ofl);
      Write(p + 4, p);
      p := p + 8;
      while p < lim
        invariant p <= lim && (p - h) % 8 == 0 && h + 8 <= p
        invariant forall a: nat :: Read(m, a) == if a < p then BuiltWord(old(m), h, 4, false, ofl, a) else Read(old(m), a)
      {
        TwoObjects(old(m), h, 4, false, ofl, p);
        Write(p, p - 4);
        Write(p + 4, p);
        p := p + 8;
      }
      r := p - 4;
    }

    /** BZERO of n words. */
    method Zero(a: nat, n: nat)
      modifies this`m
      ensures forall x: nat :: Read(m, x) == if a <= x < a + n then 0 else Read(old(m), x)
    {
      var x := a;
      while x < a + n
        invariant a <= x <= a + n
        invariant forall y: nat :: Read(m, y) == if a <= y < x then 0 else Read(old(m), y)
      {
        Write(x, 0);
        x := x + 1;
      }
    }

    /** GC_build_fl: the two cases with unrolled loops build the same list as the general one. */
    method BuildFl(h: nat, sz: nat, clear: bool, list: nat) returns (r: nat)
      requires 0 < sz <= HBLK_WORDS
      modifies this`m
      ensures Built(old(m), m, h, sz, clear, list)
      ensures IsStart(h, sz, r) && r + 2 * sz > h + HBLK_WORDS
    {
      if sz == 2 {
        if clear { r := BuildFlClear2(h, list); } else { r := BuildFl2(h, list); }
        return;
      }
      if sz == 4 {
        if clear { r := BuildFlClear4(h, list); } else { r := BuildFl4(h, list); }
        return;
      }
      r := BuildFlAny(h, sz, clear, list);
    }

    /** The general case of GC_build_fl. */
    method BuildFlAny(h: nat, sz: nat, clear: bool, list: nat) returns (r: nat)
      requires 0 < sz <= HBLK_WORDS
      modifies this`m
      ensures Built(old(m), m, h, sz, clear, list)
      ensures IsStart(h, sz, r) && r + 2 * sz > h + HBLK_WORDS
    {
      if clear { Zero(h, HBLK_WORDS); }
      ghost var m0 := old(m);
      var p := h + sz;
      var prev := h;
      var lastObject := h + HBLK_WORDS - sz;
      FirstStart(h, sz);
      while p <= lastObject
        invariant prev + sz == p && IsStart(h, sz, prev)
        invariant forall a: nat :: Read(m, a) == Partly(m0, h, sz, clear, p, a)
        decreases lastObject + sz - p
      {
        PartlyMore(m0, h, sz, clear, p);
        Write(p, prev);
        prev := p;
        p := p + sz;
      }
      PartlyAll(m0, h, sz, clear, list, p);
      p := p - sz;
      Write(h, list);
      return p;
    }

    /** GC_new_hblk; b is the block that GC_allochblk returned, if any. */
    method NewHblk(id: ListId, b: Option<nat>)
      requires StoreOk(St()) && 0 < id.words <= MAX_OBJ_WORDS && (b.Some? ==> Unused(blocks, b.value, 1))
      modifies this`m, this`blocks, this`heads, this`lists
      ensures StoreOk(St()) && Survives(old(St()), St()) && client == old(client)
      ensures b.Some? ==> HeadOf(heads, id) != 0 && Covered(St(), b.value)
      ensures old(NothingLost(St())) ==> NothingLost(St())
      ensures OthersListed(old(lists), lists, id)
      ensures forall c :: c in blocks <==> c in old(blocks) || b == Some(c)
      ensures b.None? ==> St() == old(St())
    {
      hide StoreOk, Built, Covered, IsStart, Unused, NothingLost;
      if b.None? {
        SurvivesItself(St());
        return;
      }
      ghost var st := St();
      var clear := Init(id.kind) || debugging;
      var h := b.value * HBLK_WORDS;
      var r := BuildFl(h, id.words, clear, HeadOf(heads, id));
      NewKeepsOk(st, id, b.value, m, r, clear);
      if NothingLost(st) { NewLosesNothing(st, id, b.value, m, r); }
      blocks := blocks[b.value := Blk(1, id.words, id.kind)];
      heads := heads[id := r];
      lists := lists[id := StartsDown(h, id.words, r) + ListOf(lists, id)];
      assert St() == NewStore(st, id, b.value, m, r);
      NewSurvives(st, id, b.value, m, r);
      ListOfNew(st, id, b.value, m, r);
    }

    /** The first object of a non-empty list is taken off and its link cleared. */
    method Take(id: ListId) returns (o: nat)
      requires StoreOk(St()) && HeadOf(heads, id) != 0
      modifies this`m, this`heads, this`lists, this`client
      ensures StoreOk(St()) && o != 0 && client == old(client) + {o} && o !in old(client)
      ensures Survives(old(St()), St().(client := old(client))) && blocks == old(blocks)
      ensures old(NothingLost(St())) ==> NothingLost(St())
      ensures OthersListed(old(lists), lists, id)
      ensures o == old(HeadOf(heads, id)) && [o] + ListOf(lists, id) == ListOf(old(lists), id)
      ensures SizeOf(blocks, o) == id.words && KindOf(blocks, o) == Some(id.kind) && ((id.kind == Normal || id.kind == Uncollectable) ==> AllZero(m, o, id.words))
    {
      hide StoreOk, ListOk, FList, Survives, OthersKept, AllZero, NothingLost;
      ghost var st := St();
      EmptyHead(st, id);
      HeadKind(st, id);
      PopKeepsOk(st, id);
      PopSurvives(st, id);
      if NothingLost(st) { PopLosesNothing(st, id); }
      o := HeadOf(heads, id);
      heads := heads[id := Read(m, o)];
      m := m[o := 0];
      lists := lists[id := ListOf(lists, id)[1..]];
      client := client + {o};
      assert St() == Popped(st, id);
    }

    /** GC_free for a small object: it goes to the front of its list, cleared if its kind asks for it. */
    method GiveBack(o: nat, id: ListId)
      requires StoreOk(St()) && o in client && id.words <= MAX_OBJ_WORDS && ObjOf(blocks, o, Blk(1, id.words, id.kind))
      modifies this`m, this`heads, this`lists, this`client
      ensures StoreOk(St()) && Survives(old(St()), St()) && client == old(client) - {o} && blocks == old(blocks)
      ensures old(NothingLost(St())) ==> NothingLost(St())
      ensures OthersListed(old(lists), lists, id)
      ensures ListOf(lists, id) == [o] + ListOf(old(lists), id)
    {
      hide StoreOk, ListOk, FList, Survives, OthersKept, ObjOf, NothingLost;
      ghost var st := St();
      if Init(id.kind) && id.words > 1 { Zero(o + 1, id.words - 1); }
      Write(o, HeadOf(heads, id));
      PushKeepsOk(st, id, o, m);
      PushSurvives(st, id, o, m);
      if NothingLost(st) { PushLosesNothing(st, id, o, m); }
      heads := heads[id := o];
      lists := lists[id := [o] + ListOf(lists, id)];
      client := client - {o};
      assert St() == PushedStore(st, id, o, m);
    }

    /** GC_continue_reclaim, by its contract: objects that were found to be dead go to their list. */
    method Reclaim(id: ListId, dead: seq<nat>)
      requires StoreOk(St()) && HandedOut(client, blocks, id, dead) && id.words <= MAX_OBJ_WORDS
      modifies this`m, this`heads, this`lists, this`client
      ensures StoreOk(St()) && Survives(old(St()), St()) && blocks == old(blocks)
      ensures old(NothingLost(St())) ==> NothingLost(St())
      ensures OthersListed(old(lists), lists, id)
      ensures client == old(client) - Members(dead)
      ensures ListOf(lists, id) == Backwards(dead) + ListOf(old(lists), id)
      ensures dead == [] ==> St() == old(St())
    {
      hide StoreOk, Survives, HandedOut, ObjOf, NothingLost;
      var rest := dead;
      SurvivesItself(St());
      while rest != []
        invariant StoreOk(St()) && HandedOut(client, blocks, id, rest) && Survives(old(St()), St()) && blocks == old(blocks)
        invariant old(client) - Members(dead) == client - Members(rest)
        invariant Backwards(dead) + ListOf(old(lists), id) == Backwards(rest) + ListOf(lists, id)
        invariant (old(NothingLost(St())) ==> NothingLost(St())) && OthersListed(old(lists), lists, id)
        invariant rest == dead ==> St() == old(St())
        decreases |rest|
      {
        ghost var st := St();
        FirstMember(rest);
        HandedOutFirst(st, id, rest);
        GiveBack(rest[0], id);
        HandedOutLess(st, id, rest, St());
        SurvivesBoth(old(St()), st, St());
        rest := rest[1..];
      }
    }

    /** GC_allocobj: make the free list non-empty, by sweeping, with a new block, or after a collection
        or an expansion of the heap: one attempt after the other, as long as GC_collect_or_expand
        succeeds.  There is an object exactly if some attempt brings one.  Only what an attempt finds
        dead is ever taken away from the client. */
    method AllocObj(id: ListId, tries: seq<Attempt>) returns (o: nat)
      requires StoreOk(St()) && id.words <= MAX_OBJ_WORDS && AttemptsOk(client, blocks, id, tries)
      modifies this`m, this`blocks, this`heads, this`lists, this`client
      ensures StoreOk(St()) && Survives(old(St()), St())
      ensures old(client) - AllDead(tries) <= client
      ensures old(NothingLost(St())) ==> NothingLost(St())
      ensures OthersListed(old(lists), lists, id)
      ensures o == HeadOf(heads, id)
      ensures old(HeadOf(heads, id)) != 0 ==> St() == old(St())
      ensures o == 0 ==> St() == old(St())
      ensures id.words > 0 && old(HeadOf(heads, id)) == 0 ==> (o == 0 <==> forall t :: t in tries ==> t.dead == [] && t.block.None?)
    {
      hide StoreOk, Survives, HandedOut, Unused, Covered, NothingLost;
      SurvivesItself(St());
      if id.words == 0 {
        NoListOfZero(St(), id.kind);
        EmptyHead(St(), id);
        return 0;
      }
      var i := 0;
      while HeadOf(heads, id) == 0
        invariant i <= |tries| && St() == old(St())
        invariant forall j :: 0 <= j < i ==> tries[j].dead == [] && tries[j].block.None?
        decreases |tries| - i
      {
        ghost var st := St();
        if i == |tries| { return 0; }
        assert tries[i] in tries;
        DeadMembers(tries, i);
        Reclaim(id, tries[i].dead);
        EmptyHead(St(), id);
        if HeadOf(heads, id) != 0 { break; }
        assert St() == st;
        NewHblk(id, tries[i].block);
        if HeadOf(heads, id) != 0 { break; }
        i := i + 1;
      }
      return HeadOf(heads, id);
    }

    /** GC_alloc_large_and_clear, for more bytes than small objects have; b is the outcome of
        GC_allochblk, perhaps after collections or expansions of the heap. */
    method AllocLarge(lb: nat, kind: Kind, b: Option<nat>) returns (o: nat)
      requires StoreOk(St()) && lb > MAXOBJBYTES
      requires b.Some? ==> Unused(blocks, b.value, Blocks(lb))
      modifies this`m, this`blocks, this`client
      ensures StoreOk(St())
      ensures old(NothingLost(St())) ==> NothingLost(St())
      ensures b.None? ==> o == 0 && St() == old(St())
      ensures b.Some? ==> o != 0 && o == b.value * HBLK_WORDS && blocks.Keys == old(blocks.Keys) + {b.value}
      ensures o != 0 ==> client == old(client) + {o} && o !in old(client) && Survives(old(St()), St().(client := old(client)))
      ensures o != 0 ==> lb <= SizeOf(blocks, o) * WORD < lb + GRANULE_BYTES && KindOf(blocks, o) == Some(kind)
      ensures b.Some? ==> lb <= HBLKSIZE * blocks[b.value].len < lb + HBLKSIZE
      ensures o != 0 && (kind == Normal || kind == Uncollectable) ==> AllZero(m, o, SizeOf(blocks, o))
      ensures kind != Normal && kind != Uncollectable && !debugging ==> m == old(m)
    {
      hide StoreOk, Survives, Unused, BlkOk, AllZero, Blocks, NothingLost;
      var size := (lb + GRANULE_BYTES - 1) / GRANULE_BYTES * GRANULE_BYTES;
      var n := Blocks(size);
      GranulesFit(lb, size);
      if b.None? { return 0; }
      var blk := Blk(n, size / WORD, kind);
      LargeBlk(size, n, kind);
      ghost var st := St();
      o := b.value * HBLK_WORDS;
      if Init(kind) || debugging { Zero(o, n * HBLK_WORDS); }
      LargeKeepsOk(st, b.value, blk, m);
      UnusedPositive(blocks, b.value, n);
      if Init(kind) { ZeroedAll(m, o, n * HBLK_WORDS, blk.words); }
      LargeKeepsBlocks(st, b.value, n);
      if NothingLost(st) { LargeLosesNothing(st, b.value, blk, m); }
      blocks := blocks[b.value := blk];
      client := client + {o};
      assert St() == LargeStore(st, b.value, blk, m);
    }

    /** Requests whose entry of the size map is missing are not tiny. */
    ghost predicate TinyFilled()
      reads sizeMap, sizeMap.sizes
      requires sizeMap.Valid()
    {
      forall j: nat :: j + sizeMap.extra <= MAXOBJBYTES && sizeMap.sizes[j] == 0 ==>
        0 < j && Preserved(j, sizeMap.extra) - Preserved(j, sizeMap.extra) / 8 <= j
    }

    /** The size class of a small request, with the size map extended if necessary. */
    method SizeClass(lb: nat) returns (lg: nat)
      requires sizeMap.Valid() && TinyFilled() && lb + sizeMap.extra <= MAXOBJBYTES
      modifies sizeMap.sizes
      ensures sizeMap.Valid() && TinyFilled()
      ensures lg == sizeMap.sizes[lb] && 0 < lg <= MAXOBJGRANULES && lb + sizeMap.extra <= lg * GRANULE_BYTES
      ensures old(sizeMap.sizes[lb]) != 0 ==> sizeMap.sizes[..] == old(sizeMap.sizes[..])
    {
      lg := sizeMap.sizes[lb];
      if lg == 0 {
        sizeMap.Extend(lb);
        lg := sizeMap.sizes[lb];
      }
    }

    /** GC_generic_malloc_inner: an object of at least lb bytes, and EXTRA_BYTES more, that shares no
        memory with any object handed out before.  A small one is the first on the list of its class; if
        there is none, attempts are made to get some.  A large one needs a block from GC_allochblk. */
    method GenericMallocInner(lb: nat, kind: Kind, tries: ListId -> seq<Attempt>, large: Option<nat>) returns (op: nat)
      requires StoreOk(St()) && sizeMap.Valid() && TinyFilled()
      requires forall id :: AttemptsOk(client, blocks, id, tries(id))
      requires large.Some? ==> Unused(blocks, large.value, Blocks(lb + sizeMap.extra))
      modifies this`m, this`blocks, this`heads, this`lists, this`client, sizeMap.sizes
      ensures StoreOk(St()) && sizeMap.Valid() && TinyFilled()
      ensures old(NothingLost(St())) ==> NothingLost(St())
      ensures lb + sizeMap.extra <= MAXOBJBYTES ==>
                var id := ListId(sizeMap.sizes[lb] * 2, kind);
                && (old(HeadOf(heads, id)) != 0 ==> op == old(HeadOf(heads, id)) && blocks == old(blocks) && client == old(client) + {op})
                && (old(HeadOf(heads, id)) == 0 ==> (op == 0 <==> forall t :: t in tries(id) ==> t.dead == [] && t.block.None?))
                && OthersListed(old(lists), lists, id)
                && old(client) - AllDead(tries(id)) <= client && op !in old(client) - AllDead(tries(id))
      ensures lb + sizeMap.extra <= MAXOBJBYTES && old(sizeMap.sizes[lb]) != 0 ==> sizeMap.sizes[..] == old(sizeMap.sizes[..])
      ensures lb + sizeMap.extra > MAXOBJBYTES ==>
                && (op == 0 <==> large.None?) && old(client) <= client && op !in old(client)
                && sizeMap.sizes[..] == old(sizeMap.sizes[..]) && lists == old(lists)
      ensures op == 0 ==> St() == old(St()) && Survives(old(St()), St())
      ensures op != 0 ==> op in client && Survives(old(St()), St().(client := client - {op}))
      ensures op != 0 ==> lb + sizeMap.extra <= SizeOf(blocks, op) * WORD && KindOf(blocks, op) == Some(kind)
      ensures op != 0 && (kind == Normal || kind == Uncollectable) ==> AllZero(m, op, SizeOf(blocks, op))
    {
      hide StoreOk, Survives, AllZero, AttemptsOk, Unused, Blocks, NothingLost;
      NullIsNoObject(St());
      ghost var st := St();
      SurvivesItself(st);
      if lb + sizeMap.extra <= MAXOBJBYTES {
        var lg := SizeClass(lb);
        var id := ListId(lg * WORDS_PER_GRANULE, kind);
        op := HeadOf(heads, id);
        if op == 0 {
          op := AllocObj(id, tries(id));
          if op == 0 { return; }
        }
        ghost var st1 := St();
        op := Take(id);
        TakenSurvives(st, st1, St(), op);
      } else {
        op := AllocLarge(lb + sizeMap.extra, kind, large);
        if op != 0 { TakenSurvives(st, st, St(), op); }
      }
    }

    /** GC_free for an object that the client holds, or NULL. */
    method Free(p: nat)
      requires StoreOk(St()) && (p != 0 ==> p in client)
      modifies this`m, this`blocks, this`heads, this`lists, this`client
      ensures StoreOk(St()) && Survives(old(St()), St()) && client == old(client) - {p}
      ensures old(NothingLost(St())) ==> NothingLost(St())
      ensures p == 0 ==> St() == old(St())
      ensures p != 0 ==> p / HBLK_WORDS in old(blocks)
      ensures p != 0 && old(blocks)[p / HBLK_WORDS].words <= MAX_OBJ_WORDS ==>
                var id := IdOf(old(blocks)[p / HBLK_WORDS]);
                blocks == old(blocks) && OthersListed(old(lists), lists, id) && ListOf(lists, id) == [p] + ListOf(old(lists), id)
      ensures p != 0 && old(blocks)[p / HBLK_WORDS].words > MAX_OBJ_WORDS ==>
                blocks == old(blocks) - {p / HBLK_WORDS} && m == old(m) && lists == old(lists)
    {
      hide StoreOk, Survives, ObjOf, BlkOk, NothingLost;
      ghost var st := St();
      SurvivesItself(st);
      if p == 0 {
        NullIsNoObject(st);
        return;
      }
      ClientPositive(st, p);
      var b := p / HBLK_WORDS;
      var blk := blocks[b];
      if IsSmall(blk) {
        SmallClient(st, p);
        GiveBack(p, IdOf(blk));
      } else {
        FreeLargeKeepsOk(st, p);
        if NothingLost(st) { FreedLosesNothing(st, b); }
        blocks := blocks - {b};
        client := client - {p};
        assert St() == FreedLarge(st, b);
      }
    }
  }
}
