/** Inserting into and extending sorted disjoint ranges. */
module RootSteps {
  import opened RootTables

  lemma EndsAscend(t: seq<Range>, i: nat, j: nat)
    requires Ascending(t) && i <= j < |t|
    ensures t[i].e <= t[j].e && t[i].s <= t[j].s && t[i].s < t[i].e
  {
    if i < j { assert t[i].e <= t[j].s; }
  }

  /** The k-th range is extended backwards to s; the ranges before it end at or before s. */
  lemma Extended(t: seq<Range>, k: nat, s: nat)
    requires Ascending(t) && k < |t| && s < t[k].s && forall j :: 0 <= j < k ==> t[j].e <= s
    ensures Ascending(t[k := Range(s, t[k].e)])
    ensures forall a :: InSome(t[k := Range(s, t[k].e)], a) <==> InSome(t, a) || s <= a < t[k].s
  {
    forall a ensures InSome(t[k := Range(s, t[k].e)], a) <==> InSome(t, a) || s <= a < t[k].s { ExtendedAt(t, k, s, a); }
  }

  lemma ExtendedAt(t: seq<Range>, k: nat, s: nat, a: int)
    requires k < |t| && s < t[k].s && t[k].s < t[k].e
    ensures InSome(t[k := Range(s, t[k].e)], a) <==> InSome(t, a) || s <= a < t[k].s
  {
    var u := t[k := Range(s, t[k].e)];
    assert InRange(u[k], a) <==> InRange(t[k], a) || s <= a < t[k].s;
    if i :| 0 <= i < |u| && InRange(u[i], a) { if i != k { assert InRange(t[i], a); } }
    if i :| 0 <= i < |t| && InRange(t[i], a) { if i != k { assert InRange(u[i], a); } }
  }

  function Insert(t: seq<Range>, k: nat, r: Range): seq<Range>
    requires k <= |t|
  {
    t[..k] + [r] + t[k..]
  }

  lemma InsertedIs(t: seq<Range>, k: nat, r: Range)
    requires k <= |t|
    ensures |Insert(t, k, r)| == |t| + 1 && Insert(t, k, r)[k] == r
    ensures forall i :: 0 <= i < k ==> Insert(t, k, r)[i] == t[i]
    ensures forall i :: k < i <= |t| ==> Insert(t, k, r)[i] == t[i - 1]
  {
  }

  /** A range is inserted in front of the k-th. */
  lemma Inserted(t: seq<Range>, k: nat, r: Range)
    requires Ascending(t) && k <= |t| && r.s < r.e
    requires forall j :: 0 <= j < k ==> t[j].e <= r.s
    requires forall j :: k <= j < |t| ==> r.e <= t[j].s
    ensures Ascending(Insert(t, k, r))
    ensures forall a :: InSome(Insert(t, k, r), a) <==> InSome(t, a) || InRange(r, a)
  {
    hide Insert, InSome;
    InsertedIs(t, k, r);
    forall a ensures InSome(Insert(t, k, r), a) <==> InSome(t, a) || InRange(r, a) { InsertedAt(t, k, r, a); }
  }

  lemma InsertedAt(t: seq<Range>, k: nat, r: Range, a: int)
    requires k <= |t|
    ensures InSome(Insert(t, k, r), a) <==> InSome(t, a) || InRange(r, a)
  {
    hide Insert;
    InsertedIs(t, k, r);
    var u := Insert(t, k, r);
    if i :| 0 <= i < |u| && InRange(u[i], a) { if i != k { assert InRange(t[if i < k then i else i - 1], a); } }
    if i :| 0 <= i < |t| && InRange(t[i], a) { assert InRange(u[if i < k then i else i + 1], a); }
    if InRange(r, a) { assert InRange(u[k], a); }
  }

  /** Some excluded range has a word in common with [s, e). */
  ghost predicate Overlaps(t: seq<Range>, s: nat, e: nat) { exists i :: 0 <= i < |t| && t[i].s < e && s < t[i].e }

  /** .. is an excluded address there. */
  lemma OverlapsWord(t: seq<Range>, s: nat, e: nat)
    requires Ascending(t) && s < e
    ensures Overlaps(t, s, e) <==> exists a: nat :: InSome(t, a) && s <= a < e
  {
    if Overlaps(t, s, e) {
      var i :| 0 <= i < |t| && t[i].s < e && s < t[i].e;
      var a := if t[i].s <= s then s else t[i].s;
      assert InRange(t[i], a) && InSome(t, a);
    }
    if a: nat :| InSome(t, a) && s <= a < e {
      var i :| 0 <= i < |t| && InRange(t[i], a);
      assert t[i].s < e && s < t[i].e;
    }
  }

  /** It is enough to look at the first range that reaches beyond s. */
  lemma OneCheckIsEnough(t: seq<Range>, s: nat, e: nat, k: nat)
    requires Ascending(t) && k <= |t| && s < e
    requires forall j :: 0 <= j < k ==> t[j].e <= s
    requires k < |t| ==> s < t[k].e
    ensures Overlaps(t, s, e) <==> k < |t| && t[k].s < e
    ensures k < |t| && e <= t[k].s ==> forall j :: k <= j < |t| ==> e <= t[j].s
  {
    forall j | k <= j < |t| ensures t[k].s <= t[j].s { EndsAscend(t, k, j); }
  }

  /** If the first range that ends behind an address starts behind `finish`, none starts there. */
  lemma StartsApart(t: seq<Range>, finish: nat, k: nat)
    requires Ascending(t) && k < |t| && finish < t[k].s && forall j :: 0 <= j < k ==> t[j].e <= finish
    ensures forall j :: 0 <= j < |t| ==> t[j].s != finish
  {
  }

  /** Between the ranges before k and the k-th nothing is excluded. */
  lemma Gap(t: seq<Range>, k: nat, lo: nat, hi: nat)
    requires Ascending(t) && k <= |t| && forall j :: 0 <= j < k ==> t[j].e <= lo
    requires k < |t| ==> hi <= t[k].s
    ensures forall a :: lo <= a < hi ==> !InSome(t, a)
  {
    forall a, i | lo <= a < hi && 0 <= i < |t| ensures !InRange(t[i], a) { if i >= k { EndsAscend(t, k, i); } }
  }

  lemma Inside(t: seq<Range>, k: nat)
    requires k < |t|
    ensures forall a :: t[k].s <= a < t[k].e ==> InSome(t, a)
  {
    forall a | t[k].s <= a < t[k].e ensures InSome(t, a) { assert InRange(t[k], a); }
  }

  lemma Appended(t: seq<Range>, lo: nat, hi: nat)
    requires Ascending(t) && lo < hi && forall j :: 0 <= j < |t| ==> t[j].e <= lo
    ensures Ascending(t + [Range(lo, hi)])
    ensures forall a :: InSome(t + [Range(lo, hi)], a) <==> InSome(t, a) || lo <= a < hi
  {
    Inserted(t, |t|, Range(lo, hi));
    assert Insert(t, |t|, Range(lo, hi)) == t + [Range(lo, hi)];
  }
}
