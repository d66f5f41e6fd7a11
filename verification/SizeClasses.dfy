/** The size map: from request sizes in bytes to object sizes in granules. */
module SizeClasses {
  const GRANULE_BYTES: nat := 16
  const MAXOBJBYTES: nat := 2048
  const MAXOBJGRANULES: nat := 128
  const HBLK_GRANULES: nat := 256

  /** ROUNDED_UP_GRANULES; extra is EXTRA_BYTES. */
  function RoundedUp(i: nat, extra: nat): nat { (i + GRANULE_BYTES - 1 + extra) / GRANULE_BYTES }

  /** The size that GC_extend_size_map tries to preserve, in bytes. */
  function Preserved(i: nat, extra: nat): nat { RoundedUp(i, extra) * GRANULE_BYTES }

  function EvenUp(g: nat): nat { (g + 1) / 2 * 2 }
  function EvenDown(g: nat): nat { g / 2 * 2 }

  /** The largest even size with as many objects in a block. */
  function Stretched(g: nat): (r: nat)
    requires 0 < g <= HBLK_GRANULES
  {
    EvenDown(HBLK_GRANULES / (HBLK_GRANULES / g))
  }

  lemma {:induction false} StretchKeepsCount(g: nat)
    requires 0 < g <= MAXOBJGRANULES && g % 2 == 0
    ensures g <= Stretched(g) <= MAXOBJGRANULES && Stretched(g) % 2 == 0
    ensures HBLK_GRANULES / Stretched(g) == HBLK_GRANULES / g
  {
    hide Stretched, EvenDown;
    var n := HBLK_GRANULES / g;
    Remainder(HBLK_GRANULES, g);
    var q := HBLK_GRANULES / n;
    StretchIs(g);
    ShareFits(g, n);
    Remainder(HBLK_GRANULES, n);
    Monotone(g, q, n);
    EvenBetween(g, q);
    Fits(g, EvenDown(q), q, n);
    Quotient(HBLK_GRANULES, EvenDown(q), n);
    Twice(g, n);
    Halved(q, n);
  }

  lemma ShareFits(g: nat, n: nat)
    requires 0 < g <= MAXOBJGRANULES && n == HBLK_GRANULES / g
    ensures n <= HBLK_GRANULES
  {
    Remainder(HBLK_GRANULES, g);
    Product(1, g, n);
  }

  lemma EvenBetween(g: nat, q: nat)
    requires g <= q && g % 2 == 0
    ensures g <= EvenDown(q) <= q && EvenDown(q) % 2 == 0
  {
  }

  lemma Remainder(a: nat, b: nat)
    requires 0 < b <= a
    ensures 0 < a / b && a / b * b <= a < a / b * b + b
  {
  }

  lemma Fits(g: nat, r: nat, q: nat, n: nat)
    requires g <= r <= q && q * n <= HBLK_GRANULES < n * g + g
    ensures r * n <= HBLK_GRANULES < r * n + r
  {
    Product(r, q, n);
    Product(g, r, n + 1);
    Next(n, g);
    Next(n, r);
  }

  /** .. and nothing larger would do. */
  lemma {:induction false} StretchIsLargest(g: nat, s: nat)
    requires 0 < g <= MAXOBJGRANULES && s % 2 == 0 && s > Stretched(g)
    ensures HBLK_GRANULES / s < HBLK_GRANULES / g
  {
    var n := HBLK_GRANULES / g;
    Remainder(HBLK_GRANULES, g);
    var q := HBLK_GRANULES / n;
    Division(HBLK_GRANULES, n);
    assert s >= q + 1;
    var k := HBLK_GRANULES / s;
    Division(HBLK_GRANULES, s);
    if k >= n {
      Product(n, k, s);
      Product(q + 1, s, n);
      Next(q, n);
      assert false;
    }
  }

  lemma StretchIs(g: nat)
    requires 0 < g <= HBLK_GRANULES
    ensures 0 < HBLK_GRANULES / g && Stretched(g) == EvenDown(HBLK_GRANULES / (HBLK_GRANULES / g))
  {
  }

  lemma Monotone(g: nat, q: nat, n: nat)
    requires n * g <= HBLK_GRANULES < q * n + n && 0 < n
    ensures g <= q
  {
    Next(q, n);
    Product(q + 1, g, n);
  }

  lemma Product(a: nat, b: nat, n: nat)
    ensures a <= b ==> a * n <= b * n
  {
    if a <= b { assert b * n == a * n + (b - a) * n; }
  }

  lemma Next(a: nat, n: nat)
    ensures (a + 1) * n == a * n + n
  {
  }

  lemma Quotient(a: nat, r: nat, n: nat)
    requires 0 < r && r * n <= a < r * n + r
    ensures a / r == n
  {
    var q := a / r;
    Division(a, r);
    Product(q + 1, n, r);
    Next(q, r);
    Product(n + 1, q, r);
    Next(n, r);
  }

  lemma Division(a: nat, r: nat)
    requires 0 < r
    ensures a / r * r <= a < a / r * r + r
  {
  }

  lemma Twice(g: nat, n: nat)
    requires 0 < g <= MAXOBJGRANULES && HBLK_GRANULES < n * g + g
    ensures 2 <= n
  {
    Product(n, 1, g);
  }

  lemma Halved(q: nat, n: nat)
    requires 2 <= n && q * n <= HBLK_GRANULES
    ensures q <= MAXOBJGRANULES
  {
    Product(2, n, q);
  }

  /** No entry promises more than its objects hold. */
  predicate MapOk(map_: seq<nat>, extra: nat) {
    |map_| == MAXOBJBYTES + 1 &&
    forall j :: 0 <= j < |map_| && map_[j] != 0 ==> map_[j] <= MAXOBJGRANULES && j + extra <= map_[j] * GRANULE_BYTES
  }

  /** g is the size for requests of i bytes before it is stretched; `free` says that the entry an eighth
      below the size to preserve is missing. */
  predicate IsChoice(i: nat, extra: nat, free: bool, g: nat) {
    && 0 < g <= MAXOBJGRANULES && g % 2 == 0
    && EvenUp(RoundedUp(i, extra)) <= g <= EvenUp(RoundedUp(i, extra) + RoundedUp(i, extra) / 8)
    && (free ==> g == EvenUp(RoundedUp(i, extra)))
  }

  /** Exactly that size: for i itself, or an eighth more than for the first missing entry if that is more;
      but an even number of granules, and not more than small objects have. */
  ghost predicate IsChosen(i: nat, extra: nat, free: bool, low: nat, g: nat) {
    exists r, s ::
      && (r - 1) * GRANULE_BYTES < i + extra <= r * GRANULE_BYTES
      && (s - 1) * GRANULE_BYTES < low + extra <= s * GRANULE_BYTES
      && var best := if free || s + s / 8 < r then r else s + s / 8;
         best >= g - 1 && (g == MAXOBJGRANULES || (best <= g && g % 2 == 0))
  }

  /** low is the first entry missing, from an entry on. */
  ghost predicate FirstMissing(map_: seq<nat>, start: nat, low: nat) {
    start <= low < |map_| && map_[low] == 0 && forall j :: start <= j < low ==> map_[j] != 0
  }

  /** The map after GC_extend_size_map(i) filled it from low on, for as long as the size is enough. */
  ghost predicate FilledIn(map0: seq<nat>, map1: seq<nat>, i: nat, extra: nat, low: nat, g: nat) {
    && 0 < g <= MAXOBJGRANULES && g % 2 == 0 && Preserved(i, extra) - Preserved(i, extra) / 8 < |map0|
    && var free := map0[Preserved(i, extra) - Preserved(i, extra) / 8] == 0;
    && FirstMissing(map0, FillFrom(i, extra, free), low) && IsChosen(i, extra, free, low, g)
    && |map1| == |map0|
    && forall j :: 0 <= j < |map0| ==> map1[j] == if low <= j && j + extra <= Stretched(g) * GRANULE_BYTES then Stretched(g) else map0[j]
  }

  /** GC_extend_size_map leaves no entry missing from here on. */
  function FillFrom(i: nat, extra: nat, free: bool): nat {
    if free then Preserved(i, extra) - Preserved(i, extra) / 4 else Preserved(i, extra) - Preserved(i, extra) / 8 + 1
  }

  class SizeMap {
    const sizes: array<nat>      // GC_size_map
    const extra: nat             // EXTRA_BYTES

    ghost predicate Valid()
      reads this, sizes
    {
      extra <= 1 && MapOk(sizes[..], extra)
    }

    constructor (extra: nat)
      requires extra <= 1
      ensures Valid() && this.extra == extra && fresh(sizes) && forall j :: 0 <= j <= MAXOBJBYTES ==> sizes[j] == 0
    {
      this.extra := extra;
      sizes := new nat[MAXOBJBYTES + 1](_ => 0);
    }

    /** GC_extend_size_map: fill in entries around the i-th. */
    method Extend(i: nat)
      requires Valid() && i + extra <= MAXOBJBYTES && 0 < i && sizes[i] == 0
      requires Preserved(i, extra) - Preserved(i, extra) / 8 <= i
      modifies sizes
      ensures Valid() && sizes[i] != 0
      ensures exists g :: IsChoice(i, extra, old(sizes[Smaller(i)]) == 0, g) && sizes[i] == Stretched(g)
      ensures exists low, g :: FilledIn(old(sizes[..]), sizes[..], i, extra, low, g)
      ensures forall j :: 0 <= j < sizes.Length ==> sizes[j] == old(sizes[j]) || (sizes[j] == sizes[i] && sizes[j] % 2 == 0)
      ensures forall j :: i <= j && j + extra <= sizes[i] * GRANULE_BYTES ==> sizes[j] == sizes[i]
      ensures forall j :: FillFrom(i, extra, old(sizes[Smaller(i)]) == 0) <= j && j + extra <= sizes[i] * GRANULE_BYTES ==>
                sizes[j] != 0
      ensures forall j :: 0 <= j < FillFrom(i, extra, old(sizes[Smaller(i)]) == 0) && j < sizes.Length ==>
                sizes[j] == old(sizes[j])
      ensures forall j :: 0 <= j < sizes.Length && sizes[i] * GRANULE_BYTES < j + extra ==> sizes[j] == old(sizes[j])
    {
      hide Stretched, RoundedUp, EvenUp, EvenDown, IsChoice, IsChosen, Preserved, FillFrom;
      ghost var map0 := sizes[..];
      ghost var free := sizes[Smaller(i)] == 0;
      var low, g := Choose(i);
      ChoiceHolds(i, extra, free, g);
      StretchKeepsCount(g);
      StretchIs(g);
      ghost var choice := g;
      var n := HBLK_GRANULES / g;
      g := EvenDown(HBLK_GRANULES / n);
      var byteSz := g * GRANULE_BYTES - extra;
      ghost var start := low;
      while low <= byteSz
        invariant start <= low <= byteSz + 1
        invariant forall j :: 0 <= j < sizes.Length ==> sizes[j] == if start <= j < low then g else old(sizes[j])
      {
        sizes[low] := g;
        low := low + 1;
      }
      assert IsChoice(i, extra, free, choice) && sizes[i] == Stretched(choice);
      assert FilledIn(map0, sizes[..], i, extra, start, choice);
    }

    /** smaller_than_i */
    function Smaller(i: nat): (r: nat)
      requires extra <= 1 && i + extra <= MAXOBJBYTES
      ensures r <= MAXOBJBYTES
    {
      Preserved(i, extra) - Preserved(i, extra) / 8
    }

    /** Where GC_extend_size_map begins to fill in, and the even number of granules it starts from. */
    method Choose(i: nat) returns (low: nat, g: nat)
      requires Valid() && i + extra <= MAXOBJBYTES && 0 < i && sizes[i] == 0
      requires Preserved(i, extra) - Preserved(i, extra) / 8 <= i
      ensures low <= i && IsChoice(i, extra, sizes[Smaller(i)] == 0, g)
      ensures sizes[low] == 0 && IsChosen(i, extra, sizes[Smaller(i)] == 0, low, g)
      ensures var start := FillFrom(i, extra, sizes[Smaller(i)] == 0);
        start <= low && forall j :: start <= j < low ==> sizes[j] != 0
    {
      hide RoundedUp, EvenUp, IsChoice, IsChosen;
      ChoiceBounds(i, extra);
      var orig := RoundedUp(i, extra);
      var byteSz := orig * GRANULE_BYTES;
      var smaller := byteSz - byteSz / 8;
      if sizes[smaller] == 0 {
        low := FirstZero(byteSz - byteSz / 4, i);
        g := orig;
      } else {
        low := FirstZero(smaller + 1, i);
        RoundedMonotone(low, i, extra);
        g := RoundedUp(low, extra);
        g := g + g / 8;
        if g < orig { g := orig; }
      }
      EvenMonotone(orig, g);
      EvenMonotone(g, orig + orig / 8);
      g := EvenUp(g);
      if g > MAXOBJGRANULES { g := MAXOBJGRANULES; }
      ChosenIs(i, extra, sizes[smaller] == 0, low, g);
      assert IsChoice(i, extra, sizes[smaller] == 0, g) by { ChoiceIs(i, extra, sizes[smaller] == 0, g); }
    }

    /** The first entry that is not filled in, from `low` on; i is known not to be. */
    method FirstZero(low0: nat, i: nat) returns (low: nat)
      requires low0 <= i < sizes.Length && sizes[i] == 0
      ensures low0 <= low <= i && sizes[low] == 0 && forall j :: low0 <= j < low ==> sizes[j] != 0
    {
      low := low0;
      while sizes[low] != 0
        invariant low0 <= low <= i && forall j :: low0 <= j < low ==> sizes[j] != 0
        decreases i - low
      {
        low := low + 1;
      }
    }
  }

  lemma ChoiceBounds(i: nat, extra: nat)
    requires extra <= 1 && 0 < i && i + extra <= MAXOBJBYTES
    ensures 0 < RoundedUp(i, extra) <= MAXOBJGRANULES && EvenUp(RoundedUp(i, extra)) <= MAXOBJGRANULES
    ensures i + extra <= Preserved(i, extra) < i + extra + GRANULE_BYTES
  {
  }

  lemma RoundedMonotone(low: nat, i: nat, extra: nat)
    requires low <= i
    ensures RoundedUp(low, extra) <= RoundedUp(i, extra)
  {
  }

  lemma EvenMonotone(a: nat, b: nat)
    ensures a <= EvenUp(a) <= a + 1 && EvenUp(a) % 2 == 0
    ensures a <= b ==> EvenUp(a) <= EvenUp(b)
  {
  }

  lemma ChoiceIs(i: nat, extra: nat, free: bool, g: nat)
    requires 0 < g <= MAXOBJGRANULES && g % 2 == 0
    requires EvenUp(RoundedUp(i, extra)) <= g <= EvenUp(RoundedUp(i, extra) + RoundedUp(i, extra) / 8)
    requires free ==> g == EvenUp(RoundedUp(i, extra))
    ensures IsChoice(i, extra, free, g)
  {
  }

  lemma ChosenIs(i: nat, extra: nat, free: bool, low: nat, g: nat)
    requires var r, s := RoundedUp(i, extra), RoundedUp(low, extra);
      var best := EvenUp(if free || s + s / 8 < r then r else s + s / 8);
      g == if best > MAXOBJGRANULES then MAXOBJGRANULES else best
    ensures IsChosen(i, extra, free, low, g)
  {
    hide RoundedUp;
    var r, s := RoundedUp(i, extra), RoundedUp(low, extra);
    RoundedUpIs(i, extra);
    RoundedUpIs(low, extra);
    assert (r - 1) * GRANULE_BYTES < i + extra <= r * GRANULE_BYTES;
    assert (s - 1) * GRANULE_BYTES < low + extra <= s * GRANULE_BYTES;
  }

  lemma RoundedUpIs(i: nat, extra: nat)
    ensures (RoundedUp(i, extra) - 1) * GRANULE_BYTES < i + extra <= RoundedUp(i, extra) * GRANULE_BYTES
  {
  }

  lemma ChoiceHolds(i: nat, extra: nat, free: bool, g: nat)
    requires IsChoice(i, extra, free, g)
    ensures 0 < g <= MAXOBJGRANULES && g % 2 == 0 && i + extra <= g * GRANULE_BYTES
  {
  }

  /** For requests that are not tiny the size preserved is close enough. */
  lemma NotTiny(i: nat, extra: nat)
    requires extra <= 1 && 7 * GRANULE_BYTES + extra <= i + extra
    ensures Preserved(i, extra) - Preserved(i, extra) / 8 <= i
  {
  }
}
