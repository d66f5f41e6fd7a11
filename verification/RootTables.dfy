/** Root ranges and the ranges excluded from them. */
module RootTables {
  import opened Basics
  import opened ChainSpec

  /** [s, e). */
  datatype Range = Range(s: nat, e: nat)

  predicate InRange(r: Range, a: int) { r.s <= a < r.e }
  ghost predicate InSome(t: seq<Range>, a: int) { exists i :: 0 <= i < |t| && InRange(t[i], a) }

  /** Not empty, in ascending order, and disjoint. */
  ghost predicate Ascending(t: seq<Range>) {
    && (forall i :: 0 <= i < |t| ==> t[i].s < t[i].e)
    && (forall i, j :: 0 <= i < j < |t| ==> t[i].e <= t[j].s)
  }

  datatype Outcome = Added | Overlap | Full

  /** GC_static_roots entry. */
  datatype Root = Root(s: nat, e: nat, tmp: bool)

  ghost predicate RootWord(t: seq<Root>, a: int) { exists i :: 0 <= i < |t| && t[i].s <= a < t[i].e }
  ghost predicate PermanentWord(t: seq<Root>, a: int) { exists i :: 0 <= i < |t| && !t[i].tmp && t[i].s <= a < t[i].e }

  function Bytes(t: seq<Root>): int { if t == [] then 0 else Bytes(t[..|t| - 1]) + (t[|t| - 1].e - t[|t| - 1].s) }

  const LOG_RT_SIZE: nat := 6
  const RT_SIZE: nat := 64

  function Fold(x: nat, n: nat): nat { Xor(x, ShiftRight(x, n)) }

  /** rt_hash, for 64-bit words. */
  function RtHash(addr: nat): (h: nat)
    ensures h < RT_SIZE
  {
    Fold(Fold(Fold(Fold(addr, 8 * LOG_RT_SIZE), 4 * LOG_RT_SIZE), 2 * LOG_RT_SIZE), LOG_RT_SIZE) % RT_SIZE
  }

  predicate ChainOk(chain: seq<nat>, t: seq<Root>, h: nat) {
    forall j :: 0 <= j < |chain| ==> chain[j] < |t| && RtHash(t[chain[j]].s) == h
  }

  predicate InChain(index: seq<seq<nat>>, t: seq<Root>, k: nat)
    requires k < |t|
  {
    RtHash(t[k].s) < |index| && k in index[RtHash(t[k].s)]
  }

  /** The chains of GC_root_index hold the positions of all roots, each in the chain of its start. */
  ghost predicate IndexOk(index: seq<seq<nat>>, t: seq<Root>) {
    && |index| == RT_SIZE
    && (forall h: nat :: h < RT_SIZE ==> ChainOk(index[h], t, h))
    && (forall k: nat :: k < |t| ==> InChain(index, t, k))
  }

  function RoundUpWord(a: nat): nat { (a + WORD - 1) / WORD * WORD }
  function RoundDownWord(a: nat): nat { a / WORD * WORD }

  /** The aligned machine word that address a is in lies in [b, e) as a whole. */
  predicate WordInside(a: nat, b: nat, e: nat) { b <= a - a % 8 && a - a % 8 + 8 <= e }

  /** Some byte of it lies in [b, e). */
  predicate WordMeets(a: nat, b: nat, e: nat) { b < a - a % 8 + 8 && a - a % 8 < e }

  /** A root that starts at b has the word. */
  ghost predicate InRootFrom(t: seq<Root>, b: nat, a: int) { exists i :: 0 <= i < |t| && t[i].s == b && b <= a < t[i].e }

  /** The words covered grew by exactly [b, e); what was permanent still is, and [b, e) is unless tmp.
      Nothing else becomes permanent, except the rest of a root that starts at b. */
  ghost predicate Grown(t: seq<Root>, t': seq<Root>, b: nat, e: nat, tmp: bool) {
    && (forall a :: RootWord(t', a) <==> RootWord(t, a) || b <= a < e)
    && (forall a :: PermanentWord(t, a) || (!tmp && b <= a < e) ==> PermanentWord(t', a))
    && (forall a :: PermanentWord(t', a) ==> PermanentWord(t, a) || (!tmp && (b <= a < e || InRootFrom(t, b, a))))
  }

  /** GC_remove_root_at_pos: the last root takes the place of the k-th. */
  function RemovedAt(t: seq<Root>, k: nat): seq<Root>
    requires k < |t|
  {
    t[k := t[|t| - 1]][..|t| - 1]
  }

  /** Exactly the roots in `gone` have left the table. */
  ghost predicate Left(t: seq<Root>, t': seq<Root>, gone: Root -> bool) {
    forall r :: multiset(t')[r] == if gone(r) then 0 else multiset(t)[r]
  }

  /** The first i roots of t are to stay; the removed ones were to go, and with t make up t0. */
  ghost predicate Sorted(t0: seq<Root>, t: seq<Root>, removed: multiset<Root>, i: nat, gone: Root -> bool) {
    && multiset(t) + removed == multiset(t0)
    && (forall r :: r in removed ==> gone(r))
    && (forall j :: 0 <= j < i && j < |t| ==> !gone(t[j]))
  }
}
