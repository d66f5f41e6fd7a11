/** What changing one entry of the root table does to the ranges covered, their size and the index. */
module RootListSteps {
  import opened RootTables

  lemma RootAt(t: seq<Root>, k: nat, r: Root, a: int)
    requires k < |t| && t[k].s == r.s && t[k].e <= r.e
    ensures RootWord(t[k := r], a) <==> RootWord(t, a) || r.s <= a < r.e
    ensures (t[k].tmp || !r.tmp) && PermanentWord(t, a) ==> PermanentWord(t[k := r], a)
    ensures !r.tmp && r.s <= a < r.e ==> PermanentWord(t[k := r], a)
    ensures PermanentWord(t[k := r], a) ==> PermanentWord(t, a) || (!r.tmp && r.s <= a < r.e)
    ensures r.s <= a < t[k].e ==> InRootFrom(t, r.s, a)
    ensures !t[k].tmp && r.s <= a < t[k].e ==> PermanentWord(t, a)
  {
    var u := t[k := r];
    if i :| 0 <= i < |u| && !u[i].tmp && u[i].s <= a < u[i].e { if i != k { assert !t[i].tmp && t[i].s <= a < t[i].e; } }
    if r.s <= a < r.e { assert u[k].s <= a < u[k].e; }
    if i :| 0 <= i < |u| && u[i].s <= a < u[i].e { if i != k { assert t[i].s <= a < t[i].e; } }
    if i :| 0 <= i < |t| && t[i].s <= a < t[i].e { assert u[i].s <= a < u[i].e; }
    if i :| 0 <= i < |t| && !t[i].tmp && t[i].s <= a < t[i].e { if i != k { assert !u[i].tmp && u[i].s <= a < u[i].e; } }
  }

  lemma {:induction false} BytesSet(t: seq<Root>, k: nat, r: Root)
    requires k < |t|
    ensures Bytes(t[k := r]) == Bytes(t) - (t[k].e - t[k].s) + (r.e - r.s)
  {
    var n := |t| - 1;
    if k < n {
      BytesSet(t[..n], k, r);
      assert t[k := r][..n] == t[..n][k := r];
    } else {
      assert t[k := r][..n] == t[..n];
    }
  }

  lemma IndexSet(index: seq<seq<nat>>, t: seq<Root>, k: nat, r: Root)
    requires IndexOk(index, t) && k < |t| && t[k].s == r.s
    ensures IndexOk(index, t[k := r])
  {
    hide RtHash;
    var u := t[k := r];
    forall h: nat | h < RT_SIZE ensures ChainOk(index[h], u, h) { assert ChainOk(index[h], t, h); }
    forall i: nat | i < |u| ensures InChain(index, u, i) { assert InChain(index, t, i); }
  }

  /** The k-th root gets a later end, or becomes permanent. */
  lemma ReplacedAll(t: seq<Root>, index: seq<seq<nat>>, k: nat, r: Root)
    requires IndexOk(index, t) && k < |t| && t[k].s == r.s && t[k].e <= r.e && (t[k].tmp || !r.tmp)
    ensures IndexOk(index, t[k := r]) && Bytes(t[k := r]) == Bytes(t) + (r.e - t[k].e)
  {
    hide IndexOk, Bytes;
    IndexSet(index, t, k, r);
    BytesSet(t, k, r);
  }

  /** The words from b to e are covered already. */
  lemma NothingNew(t: seq<Root>, k: nat, b: nat, e: nat)
    requires k < |t| && t[k].s == b && e <= t[k].e
    ensures forall a :: b <= a < e ==> RootWord(t, a)
  {
    forall a | b <= a < e ensures RootWord(t, a) { assert t[k].s <= a < t[k].e; }
  }

  lemma AppendedAt(t: seq<Root>, r: Root, a: int)
    ensures RootWord(t + [r], a) <==> RootWord(t, a) || r.s <= a < r.e
    ensures PermanentWord(t + [r], a) <==> PermanentWord(t, a) || (!r.tmp && r.s <= a < r.e)
  {
    var u := t + [r];
    assert u[|t|] == r && forall i :: 0 <= i < |t| ==> u[i] == t[i];
    if i :| 0 <= i < |t| && t[i].s <= a < t[i].e { assert u[i].s <= a < u[i].e; }
    if i :| 0 <= i < |t| && !t[i].tmp && t[i].s <= a < t[i].e { assert !u[i].tmp && u[i].s <= a < u[i].e; }
  }

  lemma IndexMore(index: seq<seq<nat>>, t: seq<Root>, r: Root)
    requires IndexOk(index, t)
    ensures IndexOk(index[RtHash(r.s) := [|t|] + index[RtHash(r.s)]], t + [r])
  {
    hide RtHash;
    HashBound(r.s);
    var u, g := t + [r], RtHash(r.s);
    var index' := index[g := [|t|] + index[g]];
    forall h: nat | h < RT_SIZE ensures ChainOk(index'[h], u, h) {
      assert ChainOk(index[h], t, h);
      if h == g { assert forall j :: 1 <= j < |index'[h]| ==> index'[h][j] == index[h][j - 1]; }
    }
    forall i: nat | i < |u| ensures InChain(index', u, i) { if i < |t| { assert InChain(index, t, i) && u[i] == t[i]; } }
  }

  lemma IndexLength(index: seq<seq<nat>>, t: seq<Root>)
    requires IndexOk(index, t)
    ensures |index| == RT_SIZE
  {
  }

  lemma HashBound(a: nat)
    ensures RtHash(a) < RT_SIZE
  {
  }

  /** A root is added at the end of the table. */
  lemma AppendedAll(t: seq<Root>, index: seq<seq<nat>>, r: Root)
    requires IndexOk(index, t)
    ensures |index| == RT_SIZE && IndexOk(index[RtHash(r.s) := [|t|] + index[RtHash(r.s)]], t + [r])
    ensures Bytes(t + [r]) == Bytes(t) + (r.e - r.s)
  {
    hide RtHash, IndexOk;
    IndexLength(index, t);
    IndexMore(index, t, r);
    assert (t + [r])[..|t|] == t;
  }

  lemma ReplacedGrows(t: seq<Root>, k: nat, r: Root, b: nat, e: nat, tmp: bool)
    requires k < |t| && t[k].s == r.s == b && t[k].e <= r.e && e <= r.e && (r.e == e || r.e == t[k].e)
    requires r.tmp == (t[k].tmp && tmp) && (r.e == t[k].e || r.tmp == tmp)
    ensures Grown(t, t[k := r], b, e, tmp)
  {
    hide RootWord, PermanentWord, InRootFrom;
    NothingNew(t, k, b, t[k].e);
    var u := t[k := r];
    forall a
      ensures RootWord(u, a) <==> RootWord(t, a) || b <= a < e
    {
      RootAt(t, k, r, a);
    }
    forall a
      ensures PermanentWord(t, a) || (!tmp && b <= a < e) ==> PermanentWord(u, a)
      ensures PermanentWord(u, a) ==> PermanentWord(t, a) || (!tmp && (b <= a < e || InRootFrom(t, b, a)))
    {
      RootAt(t, k, r, a);
    }
  }

  lemma AppendedGrows(t: seq<Root>, r: Root, b: nat, tmp: bool)
    requires r.tmp == tmp && b <= r.s && forall a :: b <= a < r.s ==> RootWord(t, a) && (!tmp ==> PermanentWord(t, a))
    ensures Grown(t, t + [r], b, r.e, tmp)
  {
    hide RootWord, PermanentWord;
    forall a
      ensures RootWord(t + [r], a) <==> RootWord(t, a) || b <= a < r.e
      ensures PermanentWord(t, a) || (!tmp && b <= a < r.e) ==> PermanentWord(t + [r], a)
      ensures PermanentWord(t + [r], a) ==> PermanentWord(t, a) || (!tmp && b <= a < r.e)
    {
      AppendedAt(t, r, a);
    }
  }

  lemma RemovedFacts(t: seq<Root>, k: nat)
    requires k < |t|
    ensures |RemovedAt(t, k)| == |t| - 1 && Bytes(RemovedAt(t, k)) == Bytes(t) - (t[k].e - t[k].s)
    ensures RemovedAt(t, k)[..k] == t[..k]
    ensures forall i :: 0 <= i < |t| - 1 ==> RemovedAt(t, k)[i] in t
  {
    BytesSet(t, k, t[|t| - 1]);
  }

  lemma RemovedMultiset(t: seq<Root>, k: nat)
    requires k < |t|
    ensures multiset(RemovedAt(t, k)) + multiset{t[k]} == multiset(t)
  {
    var n := |t| - 1;
    var v, u := t[k := t[n]], RemovedAt(t, k);
    assert v == u + [t[n]];
    assert multiset(u + [t[n]]) == multiset(u) + multiset{t[n]};
    assert multiset(v) == multiset(t) - multiset{t[k]} + multiset{t[n]};
    assert t[k] in multiset(t);
    Replaced(multiset(u), multiset(t), t[k], t[n]);
  }

  lemma Replaced<T>(u: multiset<T>, t: multiset<T>, x: T, y: T)
    requires u + multiset{y} == t - multiset{x} + multiset{y} && x in t
    ensures u + multiset{x} == t
  {
    forall z ensures (u + multiset{x})[z] == t[z] {
      assert (u + multiset{y})[z] == (t - multiset{x} + multiset{y})[z];
      assert (u + multiset{y})[z] == u[z] + multiset{y}[z];
    }
  }

  lemma SortedRemove(t0: seq<Root>, t: seq<Root>, removed: multiset<Root>, i: nat, gone: Root -> bool)
    requires Sorted(t0, t, removed, i, gone) && i < |t| && gone(t[i])
    ensures Sorted(t0, RemovedAt(t, i), removed + multiset{t[i]}, i, gone)
  {
    hide Bytes, RemovedAt;
    RemovedMultiset(t, i);
    RemovedFacts(t, i);
    var u := RemovedAt(t, i);
    assert multiset(u) + (removed + multiset{t[i]}) == (multiset(u) + multiset{t[i]}) + removed;
    forall j | 0 <= j < i && j < |u| ensures !gone(u[j]) { assert u[j] == u[..i][j] == t[..i][j]; }
  }

  lemma SortedStay(t0: seq<Root>, t: seq<Root>, removed: multiset<Root>, i: nat, gone: Root -> bool)
    requires Sorted(t0, t, removed, i, gone) && i < |t| && !gone(t[i])
    ensures Sorted(t0, t, removed, i + 1, gone)
  {
  }

  lemma SortedStart(t: seq<Root>, gone: Root -> bool)
    ensures Sorted(t, t, multiset{}, 0, gone)
  {
  }

  lemma NoChains(t: seq<Root>)
    ensures IndexOk(seq(RT_SIZE, _ => []), t[..0])
  {
  }

  /** All that is left of t0 and what was removed make up t0; everything in front is to stay. */
  lemma LeftAll(t0: seq<Root>, t: seq<Root>, removed: multiset<Root>, gone: Root -> bool)
    requires Sorted(t0, t, removed, |t|, gone)
    ensures Left(t0, t, gone)
  {
    forall r
      ensures multiset(t)[r] == if gone(r) then 0 else multiset(t0)[r]
    {
      assert (multiset(t) + removed)[r] == multiset(t0)[r];
      if gone(r) { assert r !in t; } else { assert r !in removed; }
    }
  }

  /** Rounding inwards gives exactly the words inside. */
  lemma WordsInside(b: nat, e: nat)
    ensures forall a: nat :: WordInside(a, b, e) <==> RoundUpWord(b) <= a < RoundDownWord(e)
  {
  }

  lemma GrownInside(t: seq<Root>, t': seq<Root>, b: nat, e: nat, tmp: bool)
    requires Grown(t, t', RoundUpWord(b), RoundDownWord(e), tmp)
    ensures forall a: nat :: RootWord(t', a) <==> RootWord(t, a) || WordInside(a, b, e)
    ensures !tmp ==> forall a: nat :: WordInside(a, b, e) ==> PermanentWord(t', a)
  {
    hide RootWord, PermanentWord, RoundUpWord, RoundDownWord, WordInside;
    WordsInside(b, e);
  }
}
