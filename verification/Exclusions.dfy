/** The table of excluded ranges, kept sorted in place, and pushing what is not excluded. */
module Exclusions {
  import opened Basics
  import opened RootTables
  import opened RootSteps

  const WORD_SPACE: nat := 0x1_0000_0000_0000_0000

  class ExclusionTable {
    const table: array<Range>     // GC_excl_table
    var entries: nat              // GC_excl_table_entries

    ghost predicate Valid()
      reads this, table
    {
      entries <= table.Length && Ascending(table[..entries])
    }

    /** The address is in an excluded range. */
    ghost predicate Excluded(a: int)
      reads this, table
      requires entries <= table.Length
    {
      InSome(table[..entries], a)
    }

    constructor (max: nat)
      ensures Valid() && fresh(table) && entries == 0 && table.Length == max
    {
      table := new Range[max](_ => Range(0, 0));
      entries := 0;
    }

    /** GC_next_exclusion: the first excluded range that reaches beyond start. */
    method NextExclusion(start: nat) returns (next: Option<nat>)
      requires Valid() && entries > 0
      ensures next.Some? ==> next.value < entries && start < table[next.value].e
      ensures forall j :: 0 <= j < (if next.Some? then next.value else entries) ==> table[j].e <= start
    {
      var low: nat, high: nat := 0, entries - 1;
      while high > low
        invariant low <= high < entries && (high == entries - 1 || start < table[high].e)
        invariant forall j :: 0 <= j < low ==> table[j].e <= start
      {
        var mid := (low + high) / 2;
        if table[mid].e <= start {
          forall j: nat | j <= mid ensures table[j].e <= start { EndsAscend(table[..entries], j, mid); }
          low := mid + 1;
        } else {
          high := mid;
        }
      }
      if table[low].e <= start {
        forall j: nat | j < entries ensures table[j].e <= start { EndsAscend(table[..entries], j, low); }
        return None;
      }
      return Some(low);
    }

    /** GC_exclude_static_roots_inner: the check for overlaps is complete, given a sorted table. */
    method ExcludeInner(start: nat, finish: nat) returns (r: Outcome)
      requires Valid() && start < finish
      modifies this`entries, table
      ensures Valid()
      ensures r.Overlap? <==> Overlaps(old(table[..entries]), start, finish)
      ensures r.Added? ==> forall a :: Excluded(a) <==> old(Excluded(a)) || start <= a < finish
      ensures !r.Added? ==> entries == old(entries) && table[..] == old(table[..])
      ensures r.Full? <==> !r.Overlap? && old(entries) == table.Length && forall i :: 0 <= i < table.Length ==> old(table[i]).s != finish
    {
      var next: Option<nat> := None;
      if entries > 0 { next := NextExclusion(start); }
      ghost var t := table[..entries];
      ghost var k := if next.Some? then next.value else entries;
      OneCheckIsEnough(t, start, finish, k);
      if next.Some? {
        if table[next.value].s < finish { return Overlap; }
        if table[next.value].s == finish {
          Extended(t, next.value, start);
          table[next.value] := Range(start, table[next.value].e);
          assert table[..entries] == t[next.value := Range(start, t[next.value].e)];
          return Added;
        }
      }
      if next.Some? { StartsApart(t, finish, k); }
      if entries >= table.Length { return Full; }
      Inserted(t, k, Range(start, finish));
      Put(if next.Some? then next.value else entries, Range(start, finish));
      return Added;
    }

    /** Later entries move up, and the new one is put in their place. */
    method Put(at: nat, r: Range)
      requires at <= entries < table.Length
      modifies this`entries, table
      ensures entries == old(entries) + 1 && table[..entries] == Insert(old(table[..entries]), at, r)
    {
      ghost var t := table[..entries];
      var i := entries;
      while i > at
        invariant at <= i <= entries < table.Length && entries == old(entries)
        invariant forall j :: 0 <= j < i ==> table[j] == t[j]
        invariant forall j :: i < j <= entries ==> table[j] == t[j - 1]
      {
        table[i] := table[i - 1];
        i := i - 1;
      }
      table[at] := r;
      entries := entries + 1;
    }

    /** GC_exclude_static_roots: bounds are rounded outwards to words; an end that would wrap becomes the
        last word of the address space. */
    method Exclude(b: nat, e: nat) returns (r: Outcome)
      requires Valid() && b <= e < WORD_SPACE && (b < e ==> b < WORD_SPACE - WORD)
      modifies this`entries, table
      ensures Valid()
      ensures b == e ==> r.Added? && entries == old(entries) && table[..] == old(table[..])
      ensures b < e ==> (r.Overlap? <==> Overlaps(old(table[..entries]), RoundDownWord(b), LastWord(e)))
      ensures b < e && r.Added? ==> forall a :: Excluded(a) <==> old(Excluded(a)) || RoundDownWord(b) <= a < LastWord(e)
      ensures r.Added? ==> forall a: nat :: Excluded(a) <==> old(Excluded(a)) || (b < e && WordMeets(a, b, e) && a < WORD_SPACE - WORD)
      ensures r.Overlap? <==> exists a: nat :: old(Excluded(a)) && b < e && WordMeets(a, b, e) && a < WORD_SPACE - WORD
      ensures r.Added? ==> forall a :: b <= a < e && a < WORD_SPACE - WORD ==> Excluded(a)
      ensures !r.Added? ==> entries == old(entries) && table[..] == old(table[..])
      ensures r.Full? ==> old(entries) == table.Length
    {
      hide WordMeets, RoundDownWord, LastWord, InSome, Overlaps, Ascending;
      if b == e { return Added; }
      WordsMeet(b, e);
      ghost var t := table[..entries];
      OverlapsWord(t, RoundDownWord(b), LastWord(e));
      var s, f := RoundDownWord(b), LastWord(e);
      r := ExcludeInner(s, f);
      if r.Overlap? {
        ghost var a: nat :| InSome(t, a) && s <= a < f;
        assert old(Excluded(a)) && WordMeets(a, b, e);
      }
      if r.Added? { forall a | b <= a < e && a < WORD_SPACE - WORD ensures Excluded(a) { assert WordMeets(a, b, e); } }
    }

    /** Rounding outwards gives exactly the words that [b, e) has a part of. */
    static lemma WordsMeet(b: nat, e: nat)
      requires b < e < WORD_SPACE && b < WORD_SPACE - WORD
      ensures RoundDownWord(b) < LastWord(e)
      ensures forall a: nat :: WordMeets(a, b, e) && a < WORD_SPACE - WORD <==> RoundDownWord(b) <= a < LastWord(e)
      ensures forall a: nat :: b <= a < e ==> WordMeets(a, b, e)
    {
    }

    static function LastWord(e: nat): nat { if RoundUpWord(e) == WORD_SPACE then WORD_SPACE - WORD else RoundUpWord(e) }

    /** GC_push_conditional_with_exclusions: exactly what is not excluded is pushed, as disjoint ranges
        in ascending order. */
    method PushWithExclusions(bottom0: nat, top: nat) returns (pushed: seq<Range>)
      requires Valid() && entries > 0
      ensures Ascending(pushed)
      ensures forall a :: InSome(pushed, a) <==> bottom0 <= a < top && !Excluded(a)
    {
      var bottom := bottom0;
      pushed := [];
      while bottom < top
        invariant bottom0 <= bottom && Ascending(pushed) && forall i :: 0 <= i < |pushed| ==> pushed[i].e <= bottom
        invariant forall a :: InSome(pushed, a) <==> bottom0 <= a < bottom && a < top && !Excluded(a)
        decreases top - bottom
      {
        var next := NextExclusion(bottom);
        if next.None? || table[next.value].s >= top {
          Gap(table[..entries], if next.Some? then next.value else entries, bottom, top);
          Appended(pushed, bottom, top);
          pushed := pushed + [Range(bottom, top)];
          return;
        }
        Gap(table[..entries], next.value, bottom, table[next.value].s);
        Inside(table[..entries], next.value);
        if table[next.value].s > bottom {
          Appended(pushed, bottom, table[next.value].s);
          pushed := pushed + [Range(bottom, table[next.value].s)];
        }
        bottom := table[next.value].e;
      }
    }
  }
}
