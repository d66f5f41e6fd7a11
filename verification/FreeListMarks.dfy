/** Mark bits of objects on free lists are set before sweeping and cleared again, with their counts. */
module FreeListMarks {
  import opened SmallSpec

  /** The marked objects of heap block b. */
  function MarksIn(marks: set<nat>, b: nat): set<nat> { set o | o in marks && o / HBLK_WORDS == b }

  function CountOf(counts: map<nat, nat>, b: nat): nat { if b in counts then counts[b] else 0 }

  /** Block b had marks, all of them on objects of the list. */
  predicate Emptied(marks: set<nat>, list: set<nat>, b: nat) { MarksIn(marks, b) != {} && MarksIn(marks, b) <= list }

  lemma EmptiedIs(marks: set<nat>, list: set<nat>, b: nat)
    ensures Emptied(marks, list, b) <==> |MarksIn(marks - list, b)| == 0 < |MarksIn(marks, b)|
  {
    var m := MarksIn(marks, b);
    assert MarksIn(marks - list, b) == m - list;
    if m - list == {} {
      forall o | o in m ensures o in list { assert o !in m - list; }
    }
  }

  /** hb_n_marks is the number of marked objects of each block. */
  ghost predicate Counted(marks: set<nat>, counts: map<nat, nat>) {
    forall b :: CountOf(counts, b) == |MarksIn(marks, b)|
  }

  lemma OneMore(marks: set<nat>, o: nat, c: nat)
    requires o !in marks
    ensures |MarksIn(marks + {o}, c)| == |MarksIn(marks, c)| + (if c == o / HBLK_WORDS then 1 else 0)
  {
    assert MarksIn(marks + {o}, c) == if c == o / HBLK_WORDS then MarksIn(marks, c) + {o} else MarksIn(marks, c);
  }

  lemma MarkOne(marks: set<nat>, counts: map<nat, nat>, o: nat)
    requires Counted(marks, counts) && o !in marks
    ensures Counted(marks + {o}, counts[o / HBLK_WORDS := CountOf(counts, o / HBLK_WORDS) + 1])
  {
    hide MarksIn;
    forall c ensures |MarksIn(marks + {o}, c)| == |MarksIn(marks, c)| + (if c == o / HBLK_WORDS then 1 else 0) { OneMore(marks, o, c); }
  }

  lemma UnmarkOne(marks: set<nat>, counts: map<nat, nat>, o: nat)
    requires Counted(marks, counts) && o in marks
    ensures CountOf(counts, o / HBLK_WORDS) > 0
    ensures Counted(marks - {o}, counts[o / HBLK_WORDS := CountOf(counts, o / HBLK_WORDS) - 1])
  {
    hide MarksIn;
    assert marks == (marks - {o}) + {o};
    forall c ensures |MarksIn(marks, c)| == |MarksIn(marks - {o}, c)| + (if c == o / HBLK_WORDS then 1 else 0) { OneMore(marks - {o}, o, c); }
  }

  lemma MembersMore(s: seq<nat>, k: nat)
    requires k < |s|
    ensures Members(s[..k + 1]) == Members(s[..k]) + {s[k]}
  {
    assert s[..k + 1] == s[..k] + [s[k]];
    forall i | 0 <= i < k ensures s[i] in Members(s[..k]) { assert s[..k][i] == s[i]; }
  }

  class MarkBits {
    var marks: set<nat>           // objects whose mark bit is set
    var counts: map<nat, nat>     // hb_n_marks by heap block
    const parallel: bool          // GC_parallel

    constructor (parallel: bool)
      ensures Counted(marks, counts) && marks == {} && this.parallel == parallel
    {
      marks, counts, this.parallel := {}, map[], parallel;
    }

    /** GC_set_fl_marks: every object on the free list that starts at q is marked. */
    method SetFlMarks(m: Memory, q: nat, ghost s: seq<nat>)
      requires FList(m, q, s) && Counted(marks, counts)
      modifies this
      ensures marks == old(marks) + Members(s) && Counted(marks, counts)
    {
      hide Counted, FList;
      var p := q;
      ghost var k: nat := 0;
      StartAt(m, q, s);
      while p != 0
        invariant k <= |s| && p == (if k < |s| then s[k] else 0)
        invariant marks == old(marks) + Members(s[..k]) && Counted(marks, counts)
        decreases |s| - k
      {
        NextAt(m, q, s, k);
        MembersMore(s, k);
        var b := p / HBLK_WORDS;
        if p !in marks {
          MarkOne(marks, counts, p);
          marks := marks + {p};
          counts := counts[b := CountOf(counts, b) + 1];
        }
        p := Read(m, p);
        k := k + 1;
      }
      EndAt(m, q, s, k);
    }

    /** GC_clear_fl_marks: they are unmarked again.  While marking is parallel a count is not taken down
        to 0: it ends at 1 for the blocks that had marks, all of them on objects of the list. */
    method ClearFlMarks(m: Memory, q: nat, ghost s: seq<nat>)
      requires FList(m, q, s) && Counted(marks, counts)
      modifies this
      ensures marks == old(marks) - Members(s)
      ensures !parallel ==> Counted(marks, counts)
      ensures forall b :: CountOf(counts, b) == (if parallel && Emptied(old(marks), Members(s), b) then 1 else |MarksIn(marks, b)|)
    {
      hide Counted, FList, Emptied, MarksIn;
      var p := q;
      ghost var k: nat := 0;
      ghost var exact: map<nat, nat> := counts;
      StartAt(m, q, s);
      while p != 0
        invariant k <= |s| && p == (if k < |s| then s[k] else 0)
        invariant marks == old(marks) - Members(s[..k]) && Counted(marks, exact)
        invariant !parallel ==> counts == exact
        invariant forall b :: CountOf(exact, b) <= CountOf(old(counts), b)
        invariant forall b :: CountOf(counts, b) == (if parallel && CountOf(exact, b) == 0 < CountOf(old(counts), b) then 1 else CountOf(exact, b))
        decreases |s| - k
      {
        NextAt(m, q, s, k);
        MembersMore(s, k);
        var b := p / HBLK_WORDS;
        if p in marks {
          UnmarkOne(marks, exact, p);
          marks := marks - {p};
          var n := CountOf(counts, b) - 1;
          if n != 0 || !parallel { counts := counts[b := n]; }
          exact := exact[b := CountOf(exact, b) - 1];
        }
        p := Read(m, p);
        k := k + 1;
      }
      EndAt(m, q, s, k);
      CountsBound(marks, exact);
      CountsBound(old(marks), old(counts));
      forall b ensures Emptied(old(marks), Members(s), b) <==> |MarksIn(marks, b)| == 0 < |MarksIn(old(marks), b)| {
        EmptiedIs(old(marks), Members(s), b);
      }
    }
  }

  lemma StartAt(m: Memory, q: nat, s: seq<nat>)
    requires FList(m, q, s)
    ensures q == (if 0 < |s| then s[0] else 0) && Members(s[..0]) == {}
  {
  }

  lemma NextAt(m: Memory, q: nat, s: seq<nat>, k: nat)
    requires FList(m, q, s) && k < |s|
    ensures Read(m, s[k]) == (if k + 1 < |s| then s[k + 1] else 0)
  {
  }

  lemma EndAt(m: Memory, q: nat, s: seq<nat>, k: nat)
    requires FList(m, q, s) && k <= |s|
    ensures k < |s| ==> s[k] != 0
    ensures k == |s| ==> s[..k] == s
  {
  }

  lemma CountsBound(marks: set<nat>, exact: map<nat, nat>)
    requires Counted(marks, exact)
    ensures forall b :: CountOf(exact, b) == |MarksIn(marks, b)|
  {
  }
}
