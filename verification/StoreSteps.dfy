/** Taking an object from a free list, giving one back and adding a block keep everything apart. */
module StoreSteps {
  import opened Basics
  import opened HeapTiles
  import opened FreeLists
  import opened SmallSpec
  import opened SmallSteps
  import opened SizeClasses

  lemma FListFrame(m: Memory, m': Memory, head: nat, s: seq<nat>)
    requires FList(m, head, s) && forall o :: o in s ==> Read(m', o) == Read(m, o)
    ensures FList(m', head, s)
  {
    forall k: nat | k < |s| ensures Read(m', s[k]) == After(s, k) { assert s[k] in s; }
  }

  lemma ClearedFrame(m: Memory, m': Memory, o: nat, sz: nat)
    requires Cleared(m, o, sz) && forall a: nat :: o <= a < o + sz ==> Read(m', a) == Read(m, a)
    ensures Cleared(m', o, sz)
  {
    forall a: nat | o < a < o + sz ensures Read(m', a) == 0 { assert Read(m, a) == 0; }
  }

  /** The words of the objects on list id are the same in m'. */
  ghost predicate ListKept(st: Store, m': Memory, id: ListId) {
    forall o, a: nat :: o in ListOf(st.lists, id) && o <= a < o + id.words ==> Read(m', a) == Read(st.m, a)
  }

  /** A list whose objects are not touched stays as it is. */
  lemma ListFrame(st: Store, st': Store, id: ListId)
    requires ListOk(st.m, st.blocks, st.heads, st.lists, id)
    requires ListOf(st'.lists, id) == ListOf(st.lists, id) && HeadOf(st'.heads, id) == HeadOf(st.heads, id)
    requires forall o :: o in ListOf(st.lists, id) ==> ObjOf(st'.blocks, o, Blk(1, id.words, id.kind))
    requires ListKept(st, st'.m, id)
    ensures ListOk(st'.m, st'.blocks, st'.heads, st'.lists, id)
  {
    hide ObjOf, FList, NoDup, Cleared, Read;
    var s := ListOf(st.lists, id);
    forall o | o in s ensures Read(st'.m, o) == Read(st.m, o) { SizePositive(st, id, o); }
    FListFrame(st.m, st'.m, HeadOf(st.heads, id), s);
    forall o | o in s && Init(id.kind) ensures Cleared(st'.m, o, id.words) { ClearedFrame(st.m, st'.m, o, id.words); }
  }

  lemma SizePositive(st: Store, id: ListId, o: nat)
    requires ListOk(st.m, st.blocks, st.heads, st.lists, id) && o in ListOf(st.lists, id)
    ensures 0 < id.words
  {
  }

  lemma ListWords(st: Store, id: ListId, k: nat)
    requires ListOk(st.m, st.blocks, st.heads, st.lists, id) && k < |ListOf(st.lists, id)|
    ensures 0 < id.words && Read(st.m, ListOf(st.lists, id)[k]) == After(ListOf(st.lists, id), k)
    ensures ListOf(st.lists, id)[k] != 0
  {
    assert ListOf(st.lists, id)[k] in ListOf(st.lists, id);
  }

  /** The facts about one list. */
  lemma ListFacts(st: Store, id: ListId, o: nat)
    requires StoreOk(st) && o in ListOf(st.lists, id)
    ensures ListOk(st.m, st.blocks, st.heads, st.lists, id) && BlocksOk(st.blocks)
    ensures id.words <= MAX_OBJ_WORDS && ObjOf(st.blocks, o, Blk(1, id.words, id.kind)) && IsObj(st.blocks, o)
    ensures SizeOf(st.blocks, o) == id.words && 0 < id.words && o !in st.client
    ensures Init(id.kind) ==> Cleared(st.m, o, id.words)
  {
    assert ListOk(st.m, st.blocks, st.heads, st.lists, id);
  }

  /** Objects on free lists are apart from any other object. */
  lemma ListedApart(st: Store, id: ListId, o: nat, p: nat)
    requires StoreOk(st) && o in ListOf(st.lists, id) && IsObj(st.blocks, p) && o != p
    ensures o + id.words <= p || p + SizeOf(st.blocks, p) <= o
  {
    hide StoreOk, ListOk, ObjOf;
    ListFacts(st, id, o);
    if o < p { ObjectsDisjoint(st.blocks, o, p); } else { ObjectsDisjoint(st.blocks, p, o); }
  }

  lemma PopList(st: Store, id: ListId)
    requires ListOk(st.m, st.blocks, st.heads, st.lists, id) && ListOf(st.lists, id) != []
    ensures ListOk(Popped(st, id).m, st.blocks, Popped(st, id).heads, Popped(st, id).lists, id)
  {
    hide ObjOf, FList, NoDup, Cleared;
    var s := ListOf(st.lists, id);
    ListWordsHere(st, id);
    TailList(st.m, HeadOf(st.heads, id), s);
    FListFrame(st.m, Popped(st, id).m, First(s[1..]), s[1..]);
    forall p | p in s[1..] ensures ObjOf(st.blocks, p, Blk(1, id.words, id.kind)) { assert p in s; }
    forall p | p in s[1..] && Init(id.kind) ensures Cleared(Popped(st, id).m, p, id.words) {
      assert p in s && Cleared(st.m, p, id.words);
      StillCleared(st.m, s[0], p, id.words);
    }
  }

  lemma TailList(m: Memory, head: nat, s: seq<nat>)
    requires FList(m, head, s) && s != []
    ensures FList(m, First(s[1..]), s[1..])
  {
    assert forall k: nat :: k < |s| - 1 ==> s[1..][k] == s[k + 1] && After(s[1..], k) == After(s, k + 1);
  }

  lemma StillCleared(m: Memory, o: nat, p: nat, sz: nat)
    requires Cleared(m, p, sz)
    ensures Cleared(m[o := 0], p, sz)
  {
    var m' := m[o := 0];
    forall a: nat | p < a < p + sz ensures Read(m', a) == 0 { assert Read(m, a) == 0; }
  }

  lemma ListWordsHere(st: Store, id: ListId)
    requires ListOk(st.m, st.blocks, st.heads, st.lists, id) && ListOf(st.lists, id) != []
    ensures var s := ListOf(st.lists, id);
      Read(st.m, s[0]) == First(s[1..]) && NoDup(s[1..]) && forall p :: p in s[1..] ==> p != s[0]
  {
    ListWords(st, id, 0);
    var s := ListOf(st.lists, id);
    assert forall k :: 0 <= k < |s| - 1 ==> s[1..][k] == s[k + 1];
  }

  /** Taking the first object off a list. */
  lemma PopKeepsOk(st: Store, id: ListId)
    requires StoreOk(st) && ListOf(st.lists, id) != []
    ensures StoreOk(Popped(st, id)) && ListOf(st.lists, id)[0] != 0
    ensures OthersKept(st, Popped(st, id), ListOf(st.lists, id)[0])
    ensures Init(id.kind) ==> AllZero(Popped(st, id).m, ListOf(st.lists, id)[0], id.words)
  {
    hide ListOk, ObjOf, IsObj, BlocksOk, FList, NoDup, Cleared;
    var s := ListOf(st.lists, id);
    var o, st' := s[0], Popped(st, id);
    ListFacts(st, id, o);
    NoDupHead(st, id);
    ListIsOk(st, id);
    PopList(st, id);
    ListWordsOf(st, id);
    forall id' | id' != id
      ensures ListOk(st'.m, st'.blocks, st'.heads, st'.lists, id')
    {
      ListIsOk(st, id');
      assert ListKept(st, st'.m, id') by {
        forall p, a: nat | p in ListOf(st.lists, id') && p <= a < p + id'.words ensures Read(st'.m, a) == Read(st.m, a) {
          ListFacts(st, id', p);
          ListedApart(st, id', p, o);
        }
      }
      forall p | p in ListOf(st.lists, id') ensures ObjOf(st.blocks, p, Blk(1, id'.words, id'.kind)) { ListFacts(st, id', p); }
      ListFrame(st, st', id');
    }
    forall p, a | p in st.client && p != o && p <= a < p + SizeOf(st.blocks, p)
      ensures Read(st'.m, a) == Read(st.m, a)
    {
      ListedApart(st, id, o, p);
    }
    if Init(id.kind) { ClearedAll(st, o, id.words); }
    forall p, id' | p in st'.client ensures p !in ListOf(st'.lists, id') && IsObj(st.blocks, p) { StillApart(st, id, id', p); }
    forall p, id', id'' | p in ListOf(st'.lists, id') && p in ListOf(st'.lists, id'') ensures id' == id'' { PoppedListed(st, id, id', p); PoppedListed(st, id, id'', p); }
  }

  lemma PoppedListed(st: Store, id: ListId, id': ListId, p: nat)
    requires ListOf(st.lists, id) != []
    ensures p in ListOf(Popped(st, id).lists, id') ==> p in ListOf(st.lists, id')
    ensures id' == id ==> ListOf(Popped(st, id).lists, id') == ListOf(st.lists, id)[1..]
    ensures p in Popped(st, id).client <==> p in st.client || p == ListOf(st.lists, id)[0]
  {
  }

  lemma StillApart(st: Store, id: ListId, id': ListId, p: nat)
    requires StoreOk(st) && ListOf(st.lists, id) != [] && p in Popped(st, id).client
    ensures p !in ListOf(Popped(st, id).lists, id') && IsObj(st.blocks, p)
  {
    hide ListOk, ObjOf, IsObj, Popped;
    NoDupHead(st, id);
    PoppedListed(st, id, id', p);
    ListFacts(st, id, ListOf(st.lists, id)[0]);
  }

  lemma ClearedAll(st: Store, o: nat, words: nat)
    requires Cleared(st.m, o, words)
    ensures AllZero(st.m[o := 0], o, words)
  {
    var m' := st.m[o := 0];
    forall a: nat | o <= a < o + words ensures Read(m', a) == 0 { if a != o { assert Read(st.m, a) == 0; } }
  }

  lemma ListIsOk(st: Store, id: ListId)
    requires StoreOk(st)
    ensures ListOk(st.m, st.blocks, st.heads, st.lists, id)
  {
    hide ListOk;
  }

  lemma NoDupHead(st: Store, id: ListId)
    requires StoreOk(st) && ListOf(st.lists, id) != []
    ensures ListOf(st.lists, id)[0] !in ListOf(st.lists, id)[1..]
  {
    assert ListOk(st.m, st.blocks, st.heads, st.lists, id);
    var s := ListOf(st.lists, id);
    assert forall k :: 0 <= k < |s| - 1 ==> s[1..][k] == s[k + 1];
  }

  lemma ListWordsOf(st: Store, id: ListId)
    requires StoreOk(st) && ListOf(st.lists, id) != []
    ensures ListOf(st.lists, id)[0] != 0 && HeadOf(st.heads, id) == ListOf(st.lists, id)[0]
  {
    assert ListOk(st.m, st.blocks, st.heads, st.lists, id);
    ListWords(st, id, 0);
  }

  /** Giving object o back to its list. */
  lemma PushList(st: Store, id: ListId, o: nat, m': Memory)
    requires ListOk(st.m, st.blocks, st.heads, st.lists, id) && o != 0 && o !in ListOf(st.lists, id)
    requires id.words <= MAX_OBJ_WORDS && ObjOf(st.blocks, o, Blk(1, id.words, id.kind))
    requires PushedMemory(st.m, m', o, id.words, Init(id.kind), HeadOf(st.heads, id)) && ListKept(st, m', id)
    ensures var st' := PushedStore(st, id, o, m'); ListOk(st'.m, st'.blocks, st'.heads, st'.lists, id)
  {
    hide ObjOf, FList, NoDup, Cleared, Read;
    var s := ListOf(st.lists, id);
    forall p | p in s ensures Read(m', p) == Read(st.m, p) { SizePositive(st, id, p); }
    FListFrame(st.m, m', HeadOf(st.heads, id), s);
    ListHead(st.m, HeadOf(st.heads, id), s);
    ConsList(m', o, s);
    forall p | p in [o] + s && Init(id.kind) ensures Cleared(m', p, id.words) {
      if p == o { PushedIsCleared(st.m, m', o, id.words, HeadOf(st.heads, id)); } else { assert p in s; ClearedFrame(st.m, m', p, id.words); }
    }
    forall p | p in [o] + s ensures ObjOf(st.blocks, p, Blk(1, id.words, id.kind)) { if p != o { assert p in s; } }
  }

  lemma ListHead(m: Memory, head: nat, s: seq<nat>)
    requires FList(m, head, s)
    ensures head == First(s)
  {
  }

  lemma PushedIsCleared(m: Memory, m': Memory, o: nat, sz: nat, head: nat)
    requires PushedMemory(m, m', o, sz, true, head)
    ensures Cleared(m', o, sz)
  {
    forall a: nat | o < a < o + sz ensures Read(m', a) == 0 {}
  }

  lemma ConsList(m: Memory, o: nat, s: seq<nat>)
    requires FList(m, First(s), s) && NoDup(s) && o != 0 && o !in s && Read(m, o) == First(s)
    ensures FList(m, o, [o] + s) && NoDup([o] + s)
  {
    var t := [o] + s;
    forall k: nat | k < |t| ensures t[k] != 0 && Read(m, t[k]) == After(t, k) { if k > 0 { assert t[k] == s[k - 1] && After(t, k) == After(s, k - 1); } }
  }

  /** Giving a client's object back. */
  lemma PushKeepsOk(st: Store, id: ListId, o: nat, m': Memory)
    requires StoreOk(st) && o in st.client && id.words <= MAX_OBJ_WORDS && ObjOf(st.blocks, o, Blk(1, id.words, id.kind))
    requires PushedMemory(st.m, m', o, id.words, Init(id.kind), HeadOf(st.heads, id))
    ensures StoreOk(PushedStore(st, id, o, m')) && OthersKept(st, PushedStore(st, id, o, m'), o)
  {
    hide ListOk, ObjOf, IsObj, BlocksOk, ListKept, Read;
    var st' := PushedStore(st, id, o, m');
    ClientFacts(st, id, o);
    forall id' ensures ListKept(st, m', id') { PushKeepsWords(st, id, o, m', id'); }
    ListIsOk(st, id);
    PushList(st, id, o, m');
    forall id' | id' != id
      ensures ListOk(st'.m, st'.blocks, st'.heads, st'.lists, id')
    {
      ListIsOk(st, id');
      forall p | p in ListOf(st.lists, id') ensures ObjOf(st.blocks, p, Blk(1, id'.words, id'.kind)) { ListFacts(st, id', p); }
      ListFrame(st, st', id');
    }
    forall p, a | p in st.client && p != o && p <= a < p + SizeOf(st.blocks, p)
      ensures Read(st'.m, a) == Read(st.m, a)
    {
      ObjectsApart(st.blocks, o, p);
    }
    forall id' ensures forall p :: p in ListOf(st'.lists, id') <==> p in ListOf(st.lists, id') || (p == o && id' == id) { PushedListed(st, id, o, m', id'); }
  }

  lemma PushedListed(st: Store, id: ListId, o: nat, m': Memory, id': ListId)
    ensures forall p :: p in ListOf(PushedStore(st, id, o, m').lists, id') <==> p in ListOf(st.lists, id') || (p == o && id' == id)
  {
  }

  lemma ObjectsApart(blocks: map<nat, Blk>, o: nat, p: nat)
    requires BlocksOk(blocks) && IsObj(blocks, o) && IsObj(blocks, p) && o != p
    ensures o + SizeOf(blocks, o) <= p || p + SizeOf(blocks, p) <= o
  {
    hide BlocksOk, IsObj;
    if o < p { ObjectsDisjoint(blocks, o, p); } else { ObjectsDisjoint(blocks, p, o); }
  }

  lemma ClientFacts(st: Store, id: ListId, o: nat)
    requires StoreOk(st) && o in st.client && ObjOf(st.blocks, o, Blk(1, id.words, id.kind))
    ensures IsObj(st.blocks, o) && SizeOf(st.blocks, o) == id.words && o != 0 && BlocksOk(st.blocks)
    ensures forall id' :: o !in ListOf(st.lists, id')
    ensures forall p :: p in st.client ==> IsObj(st.blocks, p)
  {
    hide ListOk;
    ObjInside(st.blocks, o);
  }

  lemma PushKeepsWords(st: Store, id: ListId, o: nat, m': Memory, id': ListId)
    requires StoreOk(st) && o in st.client && ObjOf(st.blocks, o, Blk(1, id.words, id.kind))
    requires PushedMemory(st.m, m', o, id.words, Init(id.kind), HeadOf(st.heads, id))
    ensures ListKept(st, m', id')
  {
    hide StoreOk, ListOk, ObjOf, IsObj, BlocksOk, Read;
    ClientFacts(st, id, o);
    forall p, a: nat | p in ListOf(st.lists, id') && p <= a < p + id'.words ensures Read(m', a) == Read(st.m, a) {
      ListFacts(st, id', p);
      ListedApart(st, id', p, o);
    }
  }

  /** The list of a block's objects has exactly the places where an object fits, none twice. */
  lemma {:induction false} DownHas(h: nat, sz: nat, r: nat)
    requires IsStart(h, sz, r)
    ensures forall a: nat :: a in StartsDown(h, sz, r) <==> IsStart(h, sz, a) && a <= r
    ensures NoDup(StartsDown(h, sz, r))
    decreases r
  {
    hide IsStart, NoDup;
    if r < h + sz {
      OnlyFirst(h, sz, r);
    } else {
      StartBefore(h, sz, r);
      DownHas(h, sz, r - sz);
      var t := StartsDown(h, sz, r - sz);
      assert StartsDown(h, sz, r) == [r] + t;
      SizeOfStart(h, sz, r);
      MoreDown(r, t);
      forall a: nat ensures a in [r] + t <==> IsStart(h, sz, a) && a <= r {
        if IsStart(h, sz, a) && a < r { StartsApart(h, sz, a, r); }
      }
    }
  }

  lemma OnlyFirst(h: nat, sz: nat, r: nat)
    requires IsStart(h, sz, r) && r < h + sz
    ensures forall a: nat :: a in StartsDown(h, sz, r) <==> IsStart(h, sz, a) && a <= r
    ensures NoDup(StartsDown(h, sz, r))
  {
    FirstStart(h, sz);
    assert r == h;
    assert StartsDown(h, sz, r) == [h];
  }

  lemma SizeOfStart(h: nat, sz: nat, r: nat)
    requires IsStart(h, sz, r)
    ensures 0 < sz && h <= r
  {
  }

  lemma MoreDown(r: nat, t: seq<nat>)
    requires NoDup(t) && r !in t
    ensures NoDup([r] + t)
  {
    var u := [r] + t;
    forall j, k | 0 <= j < k < |u| ensures u[j] != u[k] { assert u[k] == t[k - 1]; if j > 0 { assert u[j] == t[j - 1]; } }
  }

  lemma StartBefore(h: nat, sz: nat, r: nat)
    requires IsStart(h, sz, r) && h + sz <= r
    ensures IsStart(h, sz, r - sz)
  {
    var i := (r - h) / sz;
    assert r - h == i * sz;
    assert r - sz - h == (i - 1) * sz;
    ModTimes(i - 1, sz);
  }

  /** The links of a block that was just built spell out that list, in front of the old one. */
  lemma {:induction false} DownList(m: Memory, m': Memory, h: nat, sz: nat, clear: bool, list: nat, r: nat, s: seq<nat>)
    requires Built(m, m', h, sz, clear, list) && IsStart(h, sz, r) && 0 < h && list == First(s) && FList(m', list, s)
    ensures FList(m', r, StartsDown(h, sz, r) + s)
    decreases r
  {
    hide FList, Built;
    BuiltAt(m, m', h, sz, clear, list, r);
    if r < h + sz {
      if r != h { StartsApart(h, sz, h, r); }
      ConsLink(m', r, s);
    } else {
      StartBefore(h, sz, r);
      DownList(m, m', h, sz, clear, list, r - sz, s);
      var t := StartsDown(h, sz, r - sz);
      assert StartsDown(h, sz, r) + s == [r] + (t + s);
      ConsLink(m', r, t + s);
    }
  }

  lemma BuiltAt(m: Memory, m': Memory, h: nat, sz: nat, clear: bool, list: nat, a: nat)
    requires Built(m, m', h, sz, clear, list)
    ensures Read(m', a) == BuiltWord(m, h, sz, clear, list, a)
  {
  }

  lemma ConsLink(m: Memory, o: nat, s: seq<nat>)
    requires FList(m, First(s), s) && o != 0 && Read(m, o) == First(s)
    ensures FList(m, o, [o] + s)
  {
    var t := [o] + s;
    forall k: nat | k < |t| ensures t[k] != 0 && Read(m, t[k]) == After(t, k) { if k > 0 { assert t[k] == s[k - 1] && After(t, k) == After(s, k - 1); } }
  }

  lemma FirstDown(h: nat, sz: nat, r: nat, s: seq<nat>)
    requires 0 < sz
    ensures First(StartsDown(h, sz, r) + s) == r
  {
  }

  /** An object of an old block is not in the new one, which was unused. */
  lemma NotInNew(blocks: map<nat, Blk>, b: nat, o: nat)
    requires BlocksOk(blocks) && Unused(blocks, b, 1) && IsObj(blocks, o)
    ensures o / HBLK_WORDS != b && (o + SizeOf(blocks, o) <= b * HBLK_WORDS || b * HBLK_WORDS + HBLK_WORDS <= o)
  {
    ObjInside(blocks, o);
    BlockOf(o);
  }

  lemma StartIsObj(b: nat, words: nat, a: nat)
    requires IsStart(b * HBLK_WORDS, words, a)
    ensures a / HBLK_WORDS == b
  {
    BlockOf(a);
  }

  /** The list that gets the objects of a new block. */
  lemma NewList(st: Store, id: ListId, b: nat, m': Memory, r: nat, clear: bool)
    requires ListOk(st.m, st.blocks, st.heads, st.lists, id) && ListKept(st, m', id)
    requires 0 < id.words <= MAX_OBJ_WORDS && 0 < b && (Init(id.kind) ==> clear)
    requires Built(st.m, m', b * HBLK_WORDS, id.words, clear, HeadOf(st.heads, id)) && IsStart(b * HBLK_WORDS, id.words, r)
    requires forall o :: o in ListOf(st.lists, id) ==> o / HBLK_WORDS != b
    ensures var st' := NewStore(st, id, b, m', r); ListOk(st'.m, st'.blocks, st'.heads, st'.lists, id)
  {
    hide FList, Cleared, Read, Built, IsStart;
    var st', h := NewStore(st, id, b, m', r), b * HBLK_WORDS;
    var s, t := ListOf(st.lists, id), StartsDown(h, id.words, r);
    forall p | p in s ensures Read(m', p) == Read(st.m, p) { SizePositive(st, id, p); }
    FListFrame(st.m, m', HeadOf(st.heads, id), s);
    ListHead(st.m, HeadOf(st.heads, id), s);
    DownList(st.m, m', h, id.words, clear, HeadOf(st.heads, id), r, s);
    FirstDown(h, id.words, r, s);
    DownHas(h, id.words, r);
    forall p | p in t ensures p / HBLK_WORDS == b { StartIsObj(b, id.words, p); }
    NoDupBoth(t, s);
    forall p | p in t + s
      ensures ObjOf(st'.blocks, p, Blk(1, id.words, id.kind)) && (Init(id.kind) ==> Cleared(m', p, id.words))
    {
      if p in t {
        if Init(id.kind) { BuiltIsCleared(st.m, m', h, id.words, HeadOf(st.heads, id), p); }
      } else {
        assert p in s;
        if Init(id.kind) { ClearedFrame(st.m, m', p, id.words); }
      }
    }
  }

  lemma NoDupBoth(t: seq<nat>, s: seq<nat>)
    requires NoDup(t) && NoDup(s) && forall p :: p in t ==> p !in s
    ensures NoDup(t + s)
  {
    var u := t + s;
    forall j, k | 0 <= j < k < |u| ensures u[j] != u[k] { if j < |t| <= k { assert u[j] in t && u[k] in s; } }
  }

  lemma BuiltIsCleared(m: Memory, m': Memory, h: nat, sz: nat, list: nat, o: nat)
    requires Built(m, m', h, sz, true, list) && IsStart(h, sz, o)
    ensures Cleared(m', o, sz)
  {
    forall a: nat | o < a < o + sz ensures Read(m', a) == 0 {
      BuiltAt(m, m', h, sz, true, list, a);
      if IsStart(h, sz, a) { StartsApart(h, sz, o, a); }
    }
  }

  /** Adding a block of free objects. */
  lemma NewKeepsOk(st: Store, id: ListId, b: nat, m': Memory, r: nat, clear: bool)
    requires StoreOk(st) && Unused(st.blocks, b, 1) && 0 < id.words <= MAX_OBJ_WORDS && (Init(id.kind) ==> clear)
    requires Built(st.m, m', b * HBLK_WORDS, id.words, clear, HeadOf(st.heads, id))
    requires IsStart(b * HBLK_WORDS, id.words, r) && r + 2 * id.words > b * HBLK_WORDS + HBLK_WORDS
    ensures StoreOk(NewStore(st, id, b, m', r)) && OthersKept(st, NewStore(st, id, b, m', r), 0)
    ensures Covered(NewStore(st, id, b, m', r), b) && b !in st.blocks
  {
    hide ListOk, ListKept, Read, Built, Cleared, ObjOf, IsStart;
    var st', h := NewStore(st, id, b, m', r), b * HBLK_WORDS;
    forall id' ensures ListKept(st, m', id') && forall o :: o in ListOf(st.lists, id') ==> o / HBLK_WORDS != b { NewKeepsWords(st, id, b, m', clear, id'); }
    ListIsOk(st, id);
    NewList(st, id, b, m', r, clear);
    NewBlocks(st.blocks, b, Blk(1, id.words, id.kind));
    DownHas(h, id.words, r);
    forall id' | id' != id
      ensures ListOk(st'.m, st'.blocks, st'.heads, st'.lists, id')
    {
      ListIsOk(st, id');
      forall p | p in ListOf(st.lists, id') ensures ObjOf(st'.blocks, p, Blk(1, id'.words, id'.kind)) {
        ListFacts(st, id', p);
        SameElsewhere(st.blocks, b, Blk(1, id.words, id.kind), p, Blk(1, id'.words, id'.kind));
      }
      ListFrame(st, st', id');
    }
    NewApart(st, id, b, m', r);
    NewCovers(st, id, b, m', r);
    NewKeepsClient(st, id, b, m', r, clear);
  }

  lemma SameElsewhere(blocks: map<nat, Blk>, b: nat, blk: Blk, o: nat, c: Blk)
    requires o / HBLK_WORDS != b
    ensures ObjOf(blocks[b := blk], o, c) <==> ObjOf(blocks, o, c)
    ensures IsObj(blocks[b := blk], o) <==> IsObj(blocks, o)
  {
  }

  lemma NewBlocks(blocks: map<nat, Blk>, b: nat, blk: Blk)
    requires BlocksOk(blocks) && Unused(blocks, b, blk.len) && BlkOk(blk)
    ensures BlocksOk(blocks[b := blk]) && b !in blocks
  {
  }

  lemma NewKeepsWords(st: Store, id: ListId, b: nat, m': Memory, clear: bool, id': ListId)
    requires StoreOk(st) && Unused(st.blocks, b, 1)
    requires Built(st.m, m', b * HBLK_WORDS, id.words, clear, HeadOf(st.heads, id))
    ensures ListKept(st, m', id') && forall o :: o in ListOf(st.lists, id') ==> o / HBLK_WORDS != b
  {
    hide StoreOk, ListOk, Read, Built, BlocksOk, Unused, IsObj, ObjOf;
    forall o | o in ListOf(st.lists, id')
      ensures o / HBLK_WORDS != b && forall a: nat :: o <= a < o + id'.words ==> Read(m', a) == Read(st.m, a)
    {
      ListFacts(st, id', o);
      NotInNew(st.blocks, b, o);
      forall a: nat | o <= a < o + id'.words ensures Read(m', a) == Read(st.m, a) {
        BuiltAt(st.m, m', b * HBLK_WORDS, id.words, clear, HeadOf(st.heads, id), a);
      }
    }
  }

  lemma NewKeepsClient(st: Store, id: ListId, b: nat, m': Memory, r: nat, clear: bool)
    requires StoreOk(st) && Unused(st.blocks, b, 1) && 0 < id.words
    requires Built(st.m, m', b * HBLK_WORDS, id.words, clear, HeadOf(st.heads, id))
    ensures OthersKept(st, NewStore(st, id, b, m', r), 0)
  {
    hide ListOk, Read, Built, BlocksOk, Unused, IsObj, ObjOf;
    forall p, a | p in st.client && p != 0 && p <= a < p + SizeOf(st.blocks, p)
      ensures Read(m', a) == Read(st.m, a)
    {
      NotInNew(st.blocks, b, p);
      BuiltAt(st.m, m', b * HBLK_WORDS, id.words, clear, HeadOf(st.heads, id), a);
    }
  }

  /** Objects of the new block are on the new list only. */
  lemma NewApart(st: Store, id: ListId, b: nat, m': Memory, r: nat)
    requires StoreOk(st) && Unused(st.blocks, b, 1) && 0 < id.words && IsStart(b * HBLK_WORDS, id.words, r)
    requires forall id' :: forall o :: o in ListOf(st.lists, id') ==> o / HBLK_WORDS != b
    ensures var st' := NewStore(st, id, b, m', r);
      && (forall id', id'', o :: o in ListOf(st'.lists, id') && o in ListOf(st'.lists, id'') ==> id' == id'')
      && (forall o :: o in st'.client ==> IsObj(st'.blocks, o))
      && (forall o, id' :: o in st'.client ==> o !in ListOf(st'.lists, id'))
  {
    hide ListOk, Read, IsStart, ObjOf, BlocksOk;
    var st' := NewStore(st, id, b, m', r);
    DownHas(b * HBLK_WORDS, id.words, r);
    forall p | p in StartsDown(b * HBLK_WORDS, id.words, r) ensures p / HBLK_WORDS == b { StartIsObj(b, id.words, p); }
    forall o | o in st.client ensures IsObj(st'.blocks, o) && o / HBLK_WORDS != b {
      NotInNew(st.blocks, b, o);
      SameElsewhere(st.blocks, b, Blk(1, id.words, id.kind), o, Blk(1, id.words, id.kind));
    }
    forall id' ensures forall p :: p in ListOf(st'.lists, id') ==> p in ListOf(st.lists, id') || (id' == id && p / HBLK_WORDS == b) { }
  }

  lemma NewCovers(st: Store, id: ListId, b: nat, m': Memory, r: nat)
    requires 0 < id.words <= MAX_OBJ_WORDS && IsStart(b * HBLK_WORDS, id.words, r) && r + 2 * id.words > b * HBLK_WORDS + HBLK_WORDS
    ensures Covered(NewStore(st, id, b, m', r), b)
  {
    DownHas(b * HBLK_WORDS, id.words, r);
    forall o | o / HBLK_WORDS == b && IsStart(b * HBLK_WORDS, id.words, o)
      ensures o in StartsDown(b * HBLK_WORDS, id.words, r)
    {
      if r < o { StartsApart(b * HBLK_WORDS, id.words, r, o); }
    }
  }

  lemma SurvivesItself(st: Store)
    ensures Survives(st, st)
  {
  }

  lemma SurvivesBoth(st: Store, st1: Store, st2: Store)
    requires Survives(st, st1) && Survives(st1, st2)
    ensures Survives(st, st2)
  {
    forall p, a | p in st2.client && p <= a < p + SizeOf(st.blocks, p) ensures Read(st2.m, a) == Read(st.m, a) {
      assert p in st1.client && SizeOf(st1.blocks, p) == SizeOf(st.blocks, p);
      assert Read(st2.m, a) == Read(st1.m, a);
    }
  }

  lemma NewSurvives(st: Store, id: ListId, b: nat, m': Memory, r: nat)
    requires StoreOk(st) && 0 < id.words && b !in st.blocks && OthersKept(st, NewStore(st, id, b, m', r), 0)
    ensures Survives(st, NewStore(st, id, b, m', r))
  {
    hide ListOk;
    var st' := NewStore(st, id, b, m', r);
    forall p | p in st.client ensures SizeOf(st'.blocks, p) == SizeOf(st.blocks, p) && p != 0 { ClientPositive(st, p); }
  }

  lemma ClientPositive(st: Store, p: nat)
    requires StoreOk(st) && p in st.client
    ensures p != 0 && p / HBLK_WORDS in st.blocks && IsObj(st.blocks, p) && BlocksOk(st.blocks)
  {
    hide ListOk;
    ObjInside(st.blocks, p);
  }

  lemma ListOfNew(st: Store, id: ListId, b: nat, m': Memory, r: nat)
    requires 0 < id.words && StoreOk(NewStore(st, id, b, m', r))
    ensures HeadOf(NewStore(st, id, b, m', r).heads, id) == r && r != 0
  {
    var st' := NewStore(st, id, b, m', r);
    assert ListOk(st'.m, st'.blocks, st'.heads, st'.lists, id);
    ListWordsOf(st', id);
  }

  lemma PushSurvives(st: Store, id: ListId, o: nat, m': Memory)
    requires OthersKept(st, PushedStore(st, id, o, m'), o)
    ensures Survives(st, PushedStore(st, id, o, m'))
  {
  }

  lemma HandedOutLess(st: Store, id: ListId, dead: seq<nat>, st': Store)
    requires HandedOut(st.client, st.blocks, id, dead) && dead != [] && st'.blocks == st.blocks && st'.client == st.client - {dead[0]}
    ensures HandedOut(st'.client, st'.blocks, id, dead[1..])
  {
    assert forall j :: 0 <= j < |dead| - 1 ==> dead[1..][j] == dead[j + 1];
  }

  lemma HandedOutFirst(st: Store, id: ListId, dead: seq<nat>)
    requires HandedOut(st.client, st.blocks, id, dead) && dead != []
    ensures dead[0] in st.client && ObjOf(st.blocks, dead[0], Blk(1, id.words, id.kind))
  {
  }

  lemma DeadMembers(tries: seq<Attempt>, i: nat)
    requires i < |tries|
    ensures Members(tries[i].dead) <= AllDead(tries)
  {
    forall o | o in Members(tries[i].dead) ensures o in AllDead(tries) { assert tries[i] in tries && o in tries[i].dead; }
  }

  /** What taking an object off its list means for everybody. */
  lemma PopSurvives(st: Store, id: ListId)
    requires StoreOk(st) && ListOf(st.lists, id) != []
    requires OthersKept(st, Popped(st, id), ListOf(st.lists, id)[0])
    ensures var o, st' := ListOf(st.lists, id)[0], Popped(st, id);
      Survives(st, st'.(client := st.client)) && o !in st.client && SizeOf(st.blocks, o) == id.words
  {
    hide ListOk, ObjOf;
    ListFacts(st, id, ListOf(st.lists, id)[0]);
  }

  lemma EmptyHead(st: Store, id: ListId)
    requires StoreOk(st)
    ensures HeadOf(st.heads, id) == 0 <==> ListOf(st.lists, id) == []
    ensures ListOf(st.lists, id) != [] ==> HeadOf(st.heads, id) == ListOf(st.lists, id)[0]
  {
    ListIsOk(st, id);
    if ListOf(st.lists, id) != [] { ListWordsOf(st, id); }
  }

  lemma HeadKind(st: Store, id: ListId)
    requires StoreOk(st) && ListOf(st.lists, id) != []
    ensures KindOf(st.blocks, ListOf(st.lists, id)[0]) == Some(id.kind)
  {
    hide ListOk;
    ListFacts(st, id, ListOf(st.lists, id)[0]);
  }

  lemma FirstMember(s: seq<nat>)
    requires s != []
    ensures Members(s) == {s[0]} + Members(s[1..])
  {
    assert s == [s[0]] + s[1..];
  }

  lemma NoListOfZero(st: Store, kind: Kind)
    requires StoreOk(st)
    ensures ListOf(st.lists, ListId(0, kind)) == []
  {
    hide ListOk;
    var s := ListOf(st.lists, ListId(0, kind));
    if s != [] { ListFacts(st, ListId(0, kind), s[0]); }
  }

  /** A block for one large object. */
  lemma LargeKeepsOk(st: Store, b: nat, blk: Blk, m': Memory)
    requires StoreOk(st) && Unused(st.blocks, b, blk.len) && BlkOk(blk) && 0 < blk.len && !IsSmall(blk)
    requires forall a: nat :: a < b * HBLK_WORDS || (b + blk.len) * HBLK_WORDS <= a ==> Read(m', a) == Read(st.m, a)
    ensures StoreOk(LargeStore(st, b, blk, m')) && Survives(st, LargeStore(st, b, blk, m').(client := st.client))
    ensures b * HBLK_WORDS !in st.client && SizeOf(LargeStore(st, b, blk, m').blocks, b * HBLK_WORDS) == blk.words
  {
    hide ListOk, Read, ObjOf, IsObj, ListKept, BlkOk;
    var st' := LargeStore(st, b, blk, m');
    NewBlocks(st.blocks, b, blk);
    forall o: nat | IsObj(st.blocks, o)
      ensures o / HBLK_WORDS != b && (o + SizeOf(st.blocks, o) <= b * HBLK_WORDS || (b + blk.len) * HBLK_WORDS <= o)
    {
      NotInLarge(st.blocks, b, blk.len, o);
    }
    forall id
      ensures ListOk(m', st'.blocks, st'.heads, st'.lists, id)
    {
      ListIsOk(st, id);
      forall o | o in ListOf(st.lists, id)
        ensures o / HBLK_WORDS != b && ObjOf(st'.blocks, o, Blk(1, id.words, id.kind))
        ensures forall a: nat :: o <= a < o + id.words ==> Read(m', a) == Read(st.m, a)
      {
        ListFacts(st, id, o);
        SameElsewhere(st.blocks, b, blk, o, Blk(1, id.words, id.kind));
      }
      assert ListKept(st, m', id) by { KeptWords(st, m', id); }
      ListFrame(st, st', id);
    }
    LargeIsObj(st'.blocks, b);
    forall o | o in st.client ensures IsObj(st'.blocks, o) && o != b * HBLK_WORDS && SizeOf(st'.blocks, o) == SizeOf(st.blocks, o) {
      SameElsewhere(st.blocks, b, blk, o, blk);
    }
    forall id | b * HBLK_WORDS in ListOf(st.lists, id) ensures false { ListFacts(st, id, b * HBLK_WORDS); }
  }

  lemma KeptWords(st: Store, m': Memory, id: ListId)
    requires forall o, a: nat :: o in ListOf(st.lists, id) && o <= a < o + id.words ==> Read(m', a) == Read(st.m, a)
    ensures ListKept(st, m', id)
  {
  }

  lemma LargeIsObj(blocks: map<nat, Blk>, b: nat)
    requires b in blocks && !IsSmall(blocks[b])
    ensures IsObj(blocks, b * HBLK_WORDS) && b * HBLK_WORDS / HBLK_WORDS == b
  {
    BlockOf(b * HBLK_WORDS);
  }

  lemma NotInLarge(blocks: map<nat, Blk>, b: nat, len: nat, o: nat)
    requires BlocksOk(blocks) && Unused(blocks, b, len) && IsObj(blocks, o) && 0 < len
    ensures o / HBLK_WORDS != b && (o + SizeOf(blocks, o) <= b * HBLK_WORDS || (b + len) * HBLK_WORDS <= o)
  {
    ObjInside(blocks, o);
    BlockOf(o);
  }

  /** Freeing a large object returns its block. */
  lemma FreeLargeKeepsOk(st: Store, o: nat)
    requires StoreOk(st) && o in st.client && !IsSmall(st.blocks[o / HBLK_WORDS])
    ensures StoreOk(FreedLarge(st, o / HBLK_WORDS)) && Survives(st, FreedLarge(st, o / HBLK_WORDS))
    ensures o / HBLK_WORDS * HBLK_WORDS == o
  {
    hide ListOk, Read, ObjOf, ListKept, BlkOk;
    var b := o / HBLK_WORDS;
    ClientPositive(st, o);
    BlockOf(o);
    LargeStart(st.blocks, o);
    var st' := FreedLarge(st, b);
    forall p | p in st'.client ensures p / HBLK_WORDS != b && IsObj(st'.blocks, p) {
      ClientPositive(st, p);
      OneLarge(st.blocks, b, p);
      StillObj(st.blocks, b, p, st.blocks[p / HBLK_WORDS]);
    }
    forall id
      ensures ListOk(st.m, st'.blocks, st'.heads, st'.lists, id)
    {
      ListIsOk(st, id);
      forall p | p in ListOf(st.lists, id)
        ensures ObjOf(st'.blocks, p, Blk(1, id.words, id.kind))
      {
        ListFacts(st, id, p);
        SmallElsewhere(st.blocks, b, p, id);
        StillObj(st.blocks, b, p, Blk(1, id.words, id.kind));
      }
      assert ListKept(st, st.m, id) by { KeptWords(st, st.m, id); }
      ListFrame(st, st', id);
    }
  }

  lemma LargeStart(blocks: map<nat, Blk>, o: nat)
    requires IsObj(blocks, o) && !IsSmall(blocks[o / HBLK_WORDS])
    ensures o % HBLK_WORDS == 0
  {
  }

  lemma OneLarge(blocks: map<nat, Blk>, b: nat, p: nat)
    requires b in blocks && !IsSmall(blocks[b]) && IsObj(blocks, p) && p != b * HBLK_WORDS
    ensures p / HBLK_WORDS != b
  {
    BlockOf(p);
  }

  lemma SmallElsewhere(blocks: map<nat, Blk>, b: nat, p: nat, id: ListId)
    requires b in blocks && !IsSmall(blocks[b]) && id.words <= MAX_OBJ_WORDS && ObjOf(blocks, p, Blk(1, id.words, id.kind))
    ensures p / HBLK_WORDS != b
  {
  }

  lemma StillObj(blocks: map<nat, Blk>, b: nat, p: nat, c: Blk)
    requires p / HBLK_WORDS != b
    ensures ObjOf(blocks, p, c) ==> ObjOf(blocks - {b}, p, c)
    ensures IsObj(blocks, p) ==> IsObj(blocks - {b}, p)
  {
  }

  lemma LargeBlk(size: nat, n: nat, kind: Kind)
    requires size % GRANULE_BYTES == 0 && size > MAXOBJBYTES && n == Blocks(size)
    ensures BlkOk(Blk(n, size / WORD, kind)) && !IsSmall(Blk(n, size / WORD, kind)) && 0 < n && size == size / WORD * WORD
  {
  }

  /** Rounding up to granules takes no further block. */
  lemma GranulesFit(lb: nat, size: nat)
    requires size == (lb + GRANULE_BYTES - 1) / GRANULE_BYTES * GRANULE_BYTES
    ensures Blocks(size) == Blocks(lb) && lb <= HBLKSIZE * Blocks(lb) < lb + HBLKSIZE
    ensures size % GRANULE_BYTES == 0 && lb <= size < lb + GRANULE_BYTES && size == size / WORD * WORD
  {
    hide Blocks;
    var g := (lb + GRANULE_BYTES - 1) / GRANULE_BYTES;
    GranulesUp(lb, g);
    WholeGranules(g, size);
    WholeWords(g, size);
    BlocksHold(lb);
    FewBlocks(lb, g, Blocks(lb));
    BlocksAre(size, Blocks(lb));
  }

  lemma GranulesUp(lb: nat, g: nat)
    requires g == (lb + GRANULE_BYTES - 1) / GRANULE_BYTES
    ensures lb <= g * GRANULE_BYTES < lb + GRANULE_BYTES
  {
  }

  lemma WholeGranules(g: nat, size: nat)
    requires size == g * GRANULE_BYTES
    ensures size % GRANULE_BYTES == 0
  {
  }

  lemma WholeWords(g: nat, size: nat)
    requires size == g * GRANULE_BYTES
    ensures size == size / WORD * WORD
  {
    TwoWords(g);
  }

  lemma TwoWords(g: nat)
    ensures 16 * g / 8 == 2 * g
  {
  }

  lemma FewBlocks(lb: nat, g: nat, n: nat)
    requires lb <= g * GRANULE_BYTES < lb + GRANULE_BYTES && lb <= HBLKSIZE * n < lb + HBLKSIZE
    ensures g * GRANULE_BYTES <= HBLKSIZE * n < g * GRANULE_BYTES + HBLKSIZE
  {
    GranulesInBlocks(lb, g, n);
  }

  lemma GranulesInBlocks(lb: nat, g: nat, n: nat)
    requires lb <= 16 * g < lb + 16 && lb <= 4096 * n < lb + 4096
    ensures 16 * g <= 4096 * n < 16 * g + 4096
  {
    var k := 256 * n;
    assert 16 * g < 16 * k + 16;
    assert g <= k;
  }

  lemma BlocksHold(lb: nat)
    ensures lb <= HBLKSIZE * Blocks(lb) < lb + HBLKSIZE
  {
  }

  lemma BlocksAre(size: nat, n: nat)
    requires size <= HBLKSIZE * n < size + HBLKSIZE
    ensures Blocks(size) == n
  {
  }

  lemma UnusedPositive(blocks: map<nat, Blk>, b: nat, n: nat)
    requires Unused(blocks, b, n)
    ensures 0 < b
  {
  }

  lemma ZeroedAll(m: Memory, o: nat, n: nat, words: nat)
    requires words <= n && forall a: nat :: o <= a < o + n ==> Read(m, a) == 0
    ensures AllZero(m, o, words)
  {
    forall a: nat | o <= a < o + words ensures Read(m, a) == 0 {}
  }

  lemma TakenSurvives(st: Store, st1: Store, st2: Store, o: nat)
    requires Survives(st, st1) && Survives(st1, st2.(client := st1.client)) && st2.client == st1.client + {o} && o !in st1.client
    ensures Survives(st, st2.(client := st2.client - {o}))
  {
    SurvivesBoth(st, st1, st2.(client := st1.client));
    assert st2.client - {o} == st1.client;
  }

  lemma NullIsNoObject(st: Store)
    requires StoreOk(st)
    ensures 0 !in st.client && st.client - {0} == st.client
  {
    hide ListOk;
    if 0 in st.client { ClientPositive(st, 0); }
  }

  lemma SmallClient(st: Store, p: nat)
    requires StoreOk(st) && p in st.client && p / HBLK_WORDS in st.blocks && IsSmall(st.blocks[p / HBLK_WORDS])
    ensures var b := st.blocks[p / HBLK_WORDS]; b.words <= MAX_OBJ_WORDS && ObjOf(st.blocks, p, Blk(1, b.words, b.kind))
  {
    hide ListOk;
  }

  /** Whatever was handed out or is on a free list overlaps nothing else that is. */
  lemma NothingOverlaps(st: Store, o: nat, p: nat, ido: ListId, idp: ListId)
    requires StoreOk(st) && o != p
    requires o in st.client || o in ListOf(st.lists, ido)
    requires p in st.client || p in ListOf(st.lists, idp)
    ensures IsObj(st.blocks, o) && IsObj(st.blocks, p)
    ensures o + SizeOf(st.blocks, o) <= p || p + SizeOf(st.blocks, p) <= o
  {
    hide StoreOk, ListOk, IsObj, ObjOf, BlocksOk;
    if o in st.client { ClientPositive(st, o); } else { ListFacts(st, ido, o); }
    if p in st.client { ClientPositive(st, p); } else { ListFacts(st, idp, p); }
    ObjectsApart(st.blocks, o, p);
  }

  lemma NewLosesNothing(st: Store, id: ListId, b: nat, m': Memory, r: nat)
    requires NothingLost(st) && 0 < id.words && b !in st.blocks && Covered(NewStore(st, id, b, m', r), b)
    ensures NothingLost(NewStore(st, id, b, m', r))
  {
    var st' := NewStore(st, id, b, m', r);
    forall c, o | c in st'.blocks && c != b && o / HBLK_WORDS == c && IsObj(st'.blocks, o)
      ensures o in st'.client || o in ListOf(st'.lists, ListId(st'.blocks[c].words, st'.blocks[c].kind))
    {
      assert Covered(st, c) && IsObj(st.blocks, o);
    }
  }

  lemma PopLosesNothing(st: Store, id: ListId)
    requires NothingLost(st) && ListOf(st.lists, id) != []
    ensures NothingLost(Popped(st, id))
  {
    hide ObjOf;
    var st', s := Popped(st, id), ListOf(st.lists, id);
    forall c, o | c in st'.blocks && o / HBLK_WORDS == c && IsObj(st'.blocks, o)
      ensures o in st'.client || o in ListOf(st'.lists, ListId(st'.blocks[c].words, st'.blocks[c].kind))
    {
      assert Covered(st, c);
      assert s == [s[0]] + s[1..];
    }
  }

  lemma PushLosesNothing(st: Store, id: ListId, o: nat, m': Memory)
    requires NothingLost(st) && ObjOf(st.blocks, o, Blk(1, id.words, id.kind))
    ensures NothingLost(PushedStore(st, id, o, m'))
  {
    var st' := PushedStore(st, id, o, m');
    forall c, p | c in st'.blocks && p / HBLK_WORDS == c && IsObj(st'.blocks, p)
      ensures p in st'.client || p in ListOf(st'.lists, ListId(st'.blocks[c].words, st'.blocks[c].kind))
    {
      assert Covered(st, c);
    }
  }

  lemma LargeLosesNothing(st: Store, b: nat, blk: Blk, m': Memory)
    requires NothingLost(st) && !IsSmall(blk) && b !in st.blocks
    ensures NothingLost(LargeStore(st, b, blk, m'))
  {
    var st' := LargeStore(st, b, blk, m');
    forall c, o | c in st'.blocks && o / HBLK_WORDS == c && IsObj(st'.blocks, o)
      ensures o in st'.client || o in ListOf(st'.lists, ListId(st'.blocks[c].words, st'.blocks[c].kind))
    {
      if c != b { assert Covered(st, c) && IsObj(st.blocks, o); } else { assert o == b * HBLK_WORDS; }
    }
  }

  lemma FreedLosesNothing(st: Store, b: nat)
    requires NothingLost(st)
    ensures NothingLost(FreedLarge(st, b))
  {
    var st' := FreedLarge(st, b);
    forall c, o | c in st'.blocks && o / HBLK_WORDS == c && IsObj(st'.blocks, o)
      ensures o in st'.client || o in ListOf(st'.lists, ListId(st'.blocks[c].words, st'.blocks[c].kind))
    {
      assert Covered(st, c) && IsObj(st.blocks, o);
    }
  }

  lemma LargeKeepsBlocks(st: Store, b: nat, len: nat)
    requires StoreOk(st) && Unused(st.blocks, b, len) && 0 < len
    ensures b !in st.blocks
  {
    hide ListOk, ObjOf, IsObj;
  }
}
