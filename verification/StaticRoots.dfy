/** The table of static root ranges and its hash index, changed in place (not on Windows). */
module StaticRoots {
  import opened Basics
  import opened RootTables
  import opened RootListSteps

  class RootSets {
    const roots: array<Root>         // GC_static_roots
    var n: nat                       // n_root_sets
    var index: seq<seq<nat>>         // GC_root_index, as positions
    var rootSize: int                // GC_root_size

    ghost predicate Counted()
      reads this, roots
    {
      n <= roots.Length && rootSize == Bytes(roots[..n]) && forall i :: 0 <= i < n ==> roots[i].s < roots[i].e
    }

    ghost predicate Valid()
      reads this, roots
    {
      Counted() && IndexOk(index, roots[..n])
    }

    constructor (max: nat)
      ensures Valid() && fresh(roots) && n == 0 && roots.Length == max
    {
      roots := new Root[max](_ => Root(0, 0, false));
      n, index, rootSize := 0, seq(RT_SIZE, _ => []), 0;
    }

    /** GC_roots_present: a root that starts at b. */
    method Present(b: nat) returns (pos: Option<nat>)
      requires Valid()
      ensures pos.Some? ==> pos.value < n && roots[pos.value].s == b
      ensures pos.None? ==> forall i :: 0 <= i < n ==> roots[i].s != b
    {
      hide RtHash;
      HashBound(b);
      var chain := index[RtHash(b)];
      assert ChainOk(chain, roots[..n], RtHash(b));
      var k := 0;
      while k < |chain|
        invariant k <= |chain| && forall l :: 0 <= l < k ==> roots[chain[l]].s != b
      {
        if roots[chain[k]].s == b { return Some(chain[k]); }
        k := k + 1;
      }
      forall i: nat | i < n ensures roots[i].s != b { assert InChain(index, roots[..n], i); }
      pos := None;
    }

    /** GC_add_roots_inner, given rounded bounds: what is covered grows by exactly [b, e), no permanent
        root becomes temporary, and [b, e) is permanent unless tmp is set.  Full stands for ABORT. */
    method Add(b0: nat, e: nat, tmp: bool) returns (r: Outcome)
      requires Valid() && b0 < e
      modifies this`n, this`index, this`rootSize, roots
      ensures Valid() && r != Overlap
      ensures r.Added? ==> Grown(old(roots[..n]), roots[..n], b0, e, tmp)
      ensures r.Full? ==> roots[..] == old(roots[..]) && n == old(n) == roots.Length
      ensures r.Added? && n > old(n) ==> n == old(n) + 1 && roots[..old(n)] == old(roots[..n]) && roots[old(n)].e == e && roots[old(n)].tmp == tmp
      ensures r.Added? && n > old(n) ==>
                if forall i :: 0 <= i < old(n) ==> old(roots[i].s) != b0 then roots[old(n)].s == b0
                else exists i :: 0 <= i < old(n) && old(roots[i].s) == b0 && old(roots[i].e) == roots[old(n)].s && tmp && !old(roots[i].tmp)
    {
      hide RtHash, Bytes, IndexOk, RootWord, PermanentWord, Grown;
      var b := b0;
      var pos := Present(b);
      ghost var t := roots[..n];
      if pos.Some? {
        var k := pos.value;
        var was := roots[k];
        if e <= was.e {
          ReplacedAll(t, index, k, Root(b, was.e, was.tmp && tmp));
          ReplacedGrows(t, k, Root(b, was.e, was.tmp && tmp), b, e, tmp);
          roots[k] := Root(b, was.e, was.tmp && tmp);
          assert roots[..n] == t[k := Root(b, was.e, was.tmp && tmp)];
          return Added;
        }
        if was.tmp == tmp || !tmp {
          ReplacedAll(t, index, k, Root(b, e, tmp));
          ReplacedGrows(t, k, Root(b, e, tmp), b, e, tmp);
          rootSize := rootSize + (e - was.e);
          roots[k] := Root(b, e, tmp);
          assert roots[..n] == t[k := Root(b, e, tmp)];
          return Added;
        }
        NothingNew(t, k, b, was.e);
        b := was.e;
      }
      if n == roots.Length { return Full; }
      AppendedAll(t, index, Root(b, e, tmp));
      AppendedGrows(t, Root(b, e, tmp), b0, tmp);
      roots[n] := Root(b, e, tmp);
      index := index[RtHash(b) := [n] + index[RtHash(b)]];
      rootSize := rootSize + (e - b);
      n := n + 1;
      assert roots[..n] == t + [Root(b, e, tmp)];
      return Added;
    }

    /** GC_add_roots: bounds are rounded inwards to words. */
    method AddRoots(b: nat, e: nat, tmp: bool) returns (r: Outcome)
      requires Valid()
      modifies this`n, this`index, this`rootSize, roots
      ensures Valid() && r != Overlap
      ensures r.Added? && RoundUpWord(b) < RoundDownWord(e) ==>
                Grown(old(roots[..n]), roots[..n], RoundUpWord(b), RoundDownWord(e), tmp)
      ensures RoundUpWord(b) >= RoundDownWord(e) ==> r.Added? && roots[..] == old(roots[..]) && n == old(n)
      ensures r.Added? ==> forall a: nat :: RootWord(roots[..n], a) <==> old(RootWord(roots[..n], a)) || WordInside(a, b, e)
      ensures r.Added? && !tmp ==> forall a: nat :: WordInside(a, b, e) ==> PermanentWord(roots[..n], a)
      ensures !r.Added? ==> roots[..] == old(roots[..]) && n == old(n) == roots.Length
    {
      hide Grown, IndexOk;
      WordsInside(b, e);
      var s, f := RoundUpWord(b), RoundDownWord(e);
      if s >= f { return Added; }
      r := Add(s, f, tmp);
      if r.Added? { GrownInside(old(roots[..n]), roots[..n], b, e, tmp); }
    }

    /** GC_remove_root_at_pos; the index has to be rebuilt afterwards. */
    method RemoveAt(k: nat)
      requires Counted() && k < n
      modifies this`n, this`rootSize, roots
      ensures Counted() && n == old(n) - 1 && roots[..n] == RemovedAt(old(roots[..n]), k)
    {
      hide Bytes;
      ghost var t := roots[..n];
      RemovedFacts(t, k);
      rootSize := rootSize - (roots[k].e - roots[k].s);
      roots[k] := roots[n - 1];
      n := n - 1;
      assert roots[..n] == RemovedAt(old(roots[..n]), k);
    }

    /** GC_rebuild_root_index. */
    method RebuildIndex()
      requires Counted()
      modifies this`index
      ensures Valid() && n == old(n)
    {
      hide Bytes, RtHash, IndexOk;
      ghost var t := roots[..n];
      NoChains(t);
      index := seq(RT_SIZE, _ => []);
      var i := 0;
      while i < n
        invariant i <= n == old(n) && IndexOk(index, t[..i]) && Counted()
      {
        IndexLength(index, t[..i]);
        HashBound(roots[i].s);
        IndexMore(index, t[..i], t[i]);
        assert t[..i] + [t[i]] == t[..i + 1];
        var h := RtHash(roots[i].s);
        index := index[h := [i] + index[h]];
        i := i + 1;
      }
      assert t[..i] == t;
    }

    /** The loops of GC_remove_tmp_roots and GC_remove_roots_inner. */
    method RemoveAll(gone: Root -> bool)
      requires Valid()
      modifies this`n, this`index, this`rootSize, roots
      ensures Valid() && Left(old(roots[..n]), roots[..n], gone)
    {
      hide Bytes, IndexOk, RemovedAt, Left, Sorted;
      ghost var t0 := roots[..n];
      ghost var removed: multiset<Root> := multiset{};
      var before := n;
      var i := 0;
      SortedStart(t0, gone);
      while i < n
        invariant Counted() && i <= n <= before && (n == before ==> roots[..n] == t0 && index == old(index))
        invariant Sorted(t0, roots[..n], removed, i, gone)
        decreases n - i
      {
        if gone(roots[i]) {
          SortedRemove(t0, roots[..n], removed, i, gone);
          removed := removed + multiset{roots[i]};
          RemoveAt(i);
        } else {
          SortedStay(t0, roots[..n], removed, i, gone);
          i := i + 1;
        }
      }
      LeftAll(t0, roots[..n], removed, gone);
      if n < before { RebuildIndex(); }
    }

    /** GC_remove_tmp_roots. */
    method RemoveTmp()
      requires Valid()
      modifies this`n, this`index, this`rootSize, roots
      ensures Valid() && Left(old(roots[..n]), roots[..n], (r: Root) => r.tmp)
    {
      RemoveAll((r: Root) => r.tmp);
    }

    /** GC_remove_roots_inner: only roots that lie in [b, e) as a whole are removed. */
    method Remove(b: nat, e: nat)
      requires Valid()
      modifies this`n, this`index, this`rootSize, roots
      ensures Valid() && Left(old(roots[..n]), roots[..n], (r: Root) => b <= r.s && r.e <= e)
    {
      RemoveAll((r: Root) => b <= r.s && r.e <= e);
    }
  }
}
