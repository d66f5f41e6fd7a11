/** Facts about pointer paths and closed sets. */
module FinalizeSteps {
  import opened Basics
  import opened ChainSpec
  import opened ChainSteps
  import opened FinalizeSpec

  lemma TargetsAre(h: Graph, o: nat)
    ensures forall t :: t in Targets(h, o) <==> Points(h, o, t)
  {
  }

  lemma LeadsSelf(h: Graph, o: nat)
    ensures Leads(h, o, o)
  {
    assert Path(h, [o]) && [o][0] == o && [o][|[o]| - 1] == o;
  }

  lemma LeadsMore(h: Graph, s: nat, o: nat, t: nat)
    requires Leads(h, s, o) && Points(h, o, t)
    ensures Leads(h, s, t)
  {
    var p :| Path(h, p) && p[0] == s && p[|p| - 1] == o;
    var q := p + [t];
    assert Path(h, q) && q[0] == s && q[|q| - 1] == t;
  }

  lemma LeadsBoth(h: Graph, s: nat, o: nat, t: nat)
    requires Leads(h, s, o) && Leads(h, o, t)
    ensures Leads(h, s, t)
  {
    var p :| Path(h, p) && p[0] == s && p[|p| - 1] == o;
    var q :| Path(h, q) && q[0] == o && q[|q| - 1] == t;
    var r := p + q[1..];
    forall i | 0 <= i < |r| - 1
      ensures Points(h, r[i], r[i + 1])
    {
      if i < |p| - 1 { assert r[i] == p[i] && r[i + 1] == p[i + 1]; }
      else { assert r[i] == q[i - |p| + 1] && r[i + 1] == q[i - |p| + 2]; }
    }
    assert r[|r| - 1] == t;
    assert Path(h, r);
  }

  /** Nothing leads out of a closed set. */
  lemma {:induction false} StaysInside(h: Graph, m: set<nat>, p: seq<nat>)
    requires Closed(h, m) && Path(h, p) && p[0] in m
    ensures p[|p| - 1] in m
  {
    if |p| > 1 {
      var q := p[..|p| - 1];
      forall i | 0 <= i < |q| - 1 ensures Points(h, q[i], q[i + 1]) { assert q[i] == p[i] && q[i + 1] == p[i + 1]; }
      StaysInside(h, m, q);
      assert Points(h, p[|p| - 2], p[|p| - 1]);
    }
  }

  lemma ClosedLeads(h: Graph, m: set<nat>, s: nat, o: nat)
    requires Closed(h, m) && s in m && Leads(h, s, o)
    ensures o in m
  {
    var p :| Path(h, p) && p[0] == s && p[|p| - 1] == o;
    StaysInside(h, m, p);
  }

  /** Marking an object whose pushed fields are marked keeps the marked objects closed. */
  lemma MarkCovered(h: Graph, m: set<nat>, n: Node<Fin>)
    requires Closed(h, m) && Covered(h, m, n) && !n.value.proc.NoMark?
    ensures Closed(h, m + {n.key})
  {
    TargetsAre(h, n.key);
  }

  /** A marked object of a closed set is covered. */
  lemma MarkedIsCovered(h: Graph, m: set<nat>, n: Node<Fin>)
    requires Closed(h, m) && n.key in m
    ensures Covered(h, m, n)
  {
    TargetsAre(h, n.key);
  }

  lemma ReachesFromTarget(h: Graph, s: nat, t: nat, o: nat)
    requires t in Targets(h, s) && Leads(h, t, o)
    ensures Reaches(h, s, o)
  {
    TargetsAre(h, s);
  }

  /** With mark procedures that follow all pointers a registered object stays unmarked exactly if it may be finalized and its
      own mark procedure did not overflow the mark stack. */
  lemma ExactlyFinalizable(h: Graph, head: seq<seq<Node<Fin>>>, m: set<nat>, m': set<nat>, full: set<nat>, k: nat)
    requires AllFollow(head) && m <= m' && Closed(h, m') && full <= m' && NoMoreThan(h, head, m, m', full)
    requires forall n :: InTable(head, n) ==> Covered(h, m', n)
    ensures k !in m' && (exists n :: InTable(head, n) && n.key == k) <==> Finalizable(h, head, m, k) && k !in full
  {
    forall n | InTable(head, n) && Reaches(h, n.key, k)
      ensures k in m'
    {
      var t :| Points(h, n.key, t) && Leads(h, t, k);
      TargetsAre(h, n.key);
      assert Covered(h, m', n);
      ClosedLeads(h, m', t, k);
    }
  }

  lemma Shuffle<T>(a: multiset<T>, x: multiset<T>, b: multiset<T>, y: multiset<T>, z: multiset<T>)
    requires a + x == b + y
    ensures (a + z) + x == (b + z) + y
  {
    assert (a + z) + x == (a + x) + z;
    assert (b + z) + y == (b + y) + z;
  }

  lemma {:induction false} NodesSet<V>(head: seq<seq<Node<V>>>, i: nat, s: seq<Node<V>>)
    requires i < |head|
    ensures Nodes(head[i := s]) + multiset(head[i]) == Nodes(head) + multiset(s)
  {
    var n := |head| - 1;
    var c := head[i := s];
    assert Nodes(c) == Nodes(c[..n]) + multiset(c[n]) && Nodes(head) == Nodes(head[..n]) + multiset(head[n]);
    if i < n {
      NodesSet(head[..n], i, s);
      assert c[..n] == head[..n][i := s] && c[n] == head[n] && head[..n][i] == head[i];
      Shuffle(Nodes(c[..n]), multiset(head[i]), Nodes(head[..n]), multiset(s), multiset(head[n]));
    } else {
      assert c[..n] == head[..n];
    }
  }

  lemma TodoMore(h: Graph, m: set<nat>, starts: set<nat>, o: nat, t: nat)
    requires Closed(h, m) && (o in m || exists s :: s in starts && Leads(h, s, o)) && t in Targets(h, o)
    ensures t in m || exists s :: s in starts && Leads(h, s, t)
  {
    TargetsAre(h, o);
    if o !in m {
      var s :| s in starts && Leads(h, s, o);
      LeadsMore(h, s, o, t);
    }
  }

  lemma Shrinks(all: set<nat>, m: set<nat>, o: nat)
    requires o in all && o !in m
    ensures |all - (m + {o})| < |all - m|
  {
    assert all - (m + {o}) == (all - m) - {o};
  }

  lemma FromStart(h: Graph, k: nat, s: nat, o: nat)
    requires s in Targets(h, k) || s == k
    requires Leads(h, s, o)
    ensures o == k || Reaches(h, k, o)
  {
    if s in Targets(h, k) { ReachesFromTarget(h, k, s, o); }
    else {
      var p :| Path(h, p) && p[0] == s && p[|p| - 1] == o;
      if |p| > 1 {
        var q := p[1..];
        forall i | 0 <= i < |q| - 1 ensures Points(h, q[i], q[i + 1]) { assert q[i] == p[i + 1] && q[i + 1] == p[i + 2]; }
        assert Path(h, q) && q[0] == p[1] && q[|q| - 1] == o;
        assert Points(h, p[0], p[1]) && Leads(h, p[1], o);
      }
    }
  }

  lemma CoveredMore(h: Graph, m: set<nat>, m': set<nat>)
    requires m <= m'
    ensures forall n :: Covered(h, m, n) ==> Covered(h, m', n)
  {
    hide Pushes;
  }

  /** Everything in m is in m0 or reached from the starts. */
  ghost predicate ReachedOnly(h: Graph, m0: set<nat>, starts: set<nat>, m: set<nat>) {
    forall o :: o in m ==> o in m0 || exists s :: s in starts && Leads(h, s, o)
  }

  lemma ReachedStart(h: Graph, m0: set<nat>, starts: set<nat>)
    ensures ReachedOnly(h, m0, starts, m0 + starts)
  {
    hide Leads;
    forall s | s in starts ensures Leads(h, s, s) { LeadsSelf(h, s); }
  }

  lemma ReachedMore(h: Graph, m0: set<nat>, starts: set<nat>, m: set<nat>, o: nat)
    requires Closed(h, m0) && ReachedOnly(h, m0, starts, m) && o in m
    ensures ReachedOnly(h, m0, starts, m + Targets(h, o))
  {
    hide Leads, Targets, Closed;
    forall t | t in Targets(h, o)
      ensures t in m0 || exists s :: s in starts && Leads(h, s, t)
    {
      TodoMore(h, m0, starts, o, t);
    }
  }

  /** When nothing is left to do the marks are closed, and exactly what is reached. */
  lemma MarkedAll(h: Graph, m0: set<nat>, starts: set<nat>, m: set<nat>)
    requires m0 + starts <= m && ReachedOnly(h, m0, starts, m) && Closed(h, m)
    ensures MarksFrom(h, m0, starts, m)
  {
    hide Leads, Closed;
    forall s, o | s in starts && Leads(h, s, o) ensures o in m { ClosedLeads(h, m, s, o); }
  }

  lemma TargetsInside(h: Graph, o: nat)
    requires GraphOk(h)
    ensures Targets(h, o) <= h.slots.Keys
  {
  }

  lemma TargetsClosed(h: Graph, m: set<nat>)
    ensures Closed(h, m) <==> forall o :: o in m ==> Targets(h, o) <= m
  {
    hide Targets, Points;
    forall o ensures forall t :: t in Targets(h, o) <==> Points(h, o, t) { TargetsAre(h, o); }
  }

  /** Marking from `starts` in a heap with marks m0: m are the marks so far, todo is on the mark stack. */
  ghost predicate Marking(h: Graph, m0: set<nat>, starts: set<nat>, m: set<nat>, todo: set<nat>) {
    && m0 <= m <= h.slots.Keys && todo <= h.slots.Keys && starts <= m + todo
    && ReachedOnly(h, m0, starts, m + todo)
    && forall o :: o in m ==> Targets(h, o) <= m + todo
  }

  lemma StartMarking(h: Graph, m: set<nat>, starts: set<nat>)
    requires Closed(h, m) && m <= h.slots.Keys && starts <= h.slots.Keys
    ensures Marking(h, m, starts, m, starts)
  {
    hide Targets, ReachedOnly, Closed;
    ReachedStart(h, m, starts);
    TargetsClosed(h, m);
  }

  lemma MarkOneMore(h: Graph, m0: set<nat>, starts: set<nat>, m: set<nat>, todo: set<nat>, o: nat)
    requires GraphOk(h) && Closed(h, m0) && Marking(h, m0, starts, m, todo) && o in todo && o !in m
    ensures Marking(h, m0, starts, m + {o}, todo - {o} + Targets(h, o))
    ensures |h.slots.Keys - (m + {o})| < |h.slots.Keys - m|
  {
    hide Targets, ReachedOnly, Closed, GraphOk;
    var all, m', todo' := m + todo, m + {o}, todo - {o} + Targets(h, o);
    TargetsInside(h, o);
    ReachedMore(h, m0, starts, all, o);
    Shrinks(h.slots.Keys, m, o);
    assert m' + todo' == all + Targets(h, o);
  }

  lemma MarkNothing(h: Graph, m0: set<nat>, starts: set<nat>, m: set<nat>, todo: set<nat>, o: nat)
    requires Marking(h, m0, starts, m, todo) && o in todo && o in m
    ensures Marking(h, m0, starts, m, todo - {o}) && |todo - {o}| < |todo|
  {
    hide Targets, ReachedOnly;
    assert m + (todo - {o}) == m + todo;
  }

  lemma EndMarking(h: Graph, m0: set<nat>, starts: set<nat>, m: set<nat>)
    requires Marking(h, m0, starts, m, {})
    ensures Closed(h, m) && m <= h.slots.Keys && MarksFrom(h, m0, starts, m)
  {
    hide Targets, ReachedOnly, Closed, MarksFrom;
    assert m + {} == m;
    TargetsClosed(h, m);
    MarkedAll(h, m0, starts, m);
  }

  lemma StartExploring(h: Graph, m: set<nat>, k: nat)
    requires GraphOk(h) && m <= h.slots.Keys && k in h.slots
    ensures Exploring(h, m, k, Targets(h, k), m, [Pending(k, h.slots[k])], {}, false)
    ensures h.slots[k] == {} ==> Exploring(h, m, k, Targets(h, k), m, [], {}, false)
  {
    hide LedFrom, Named;
    var stack := [Pending(k, h.slots[k])];
    forall t | t in Targets(h, k) ensures LedFrom(h, Targets(h, k), t) && Owed(h, stack, {}, t) {
      LedSelf(h, Targets(h, k), t);
      assert stack[0] in stack;
    }
    NothingNamed(h);
    forall t | Owed(h, stack, {}, t) ensures t in Targets(h, k) {}
  }

  lemma StartIgnoringSelf(h: Graph, m: set<nat>, k: nat, fields: set<nat>)
    requires GraphOk(h) && m <= h.slots.Keys && k in h.slots
    requires fields == set a | a in h.slots[k] && !(a in h.mem && h.mem[a] == k)
    ensures Exploring(h, m, k, Targets(h, k) - {k}, m, [], fields, false)
  {
    hide LedFrom;
    forall t | t in Targets(h, k) - {k} ensures LedFrom(h, Targets(h, k) - {k}, t) { LedSelf(h, Targets(h, k) - {k}, t); }
    forall t ensures t in Named(h, fields) <==> t in Targets(h, k) - {k} {}
  }

  lemma NothingNamed(h: Graph)
    ensures Named(h, {}) == {}
  {
  }

  lemma LedSelf(h: Graph, starts: set<nat>, t: nat)
    requires t in starts
    ensures LedFrom(h, starts, t)
  {
    LeadsSelf(h, t);
  }

  lemma LedMore(h: Graph, starts: set<nat>, o: nat, t: nat)
    requires LedFrom(h, starts, o) && t in Targets(h, o)
    ensures LedFrom(h, starts, t)
  {
    TargetsAre(h, o);
    var x :| x in starts && Leads(h, x, o);
    LeadsMore(h, x, o, t);
  }

  lemma MarkedStart(h: Graph, m: set<nat>)
    ensures MarkedFrom(h, m, m)
  {
    forall o | o in m ensures LedFrom(h, m, o) { LedSelf(h, m, o); }
  }

  /** What was marked from an object and from marks that came from the starts. */
  lemma MarkedOn(h: Graph, starts: set<nat>, m: set<nat>, ks: set<nat>, m': set<nat>)
    requires MarkedFrom(h, starts, m) && MarkedFrom(h, m + ks, m')
    ensures MarkedFrom(h, starts + ks, m')
  {
    forall o | o in m'
      ensures LedFrom(h, starts + ks, o)
    {
      var s :| s in m + ks && Leads(h, s, o);
      if s in m {
        var x :| x in starts && Leads(h, x, s);
        LeadsBoth(h, x, s, o);
      }
    }
  }

  /** What k's pointers lead to comes from k. */
  lemma MarkedByKey(h: Graph, m0: set<nat>, k: nat, due: set<nat>, m: set<nat>)
    requires due <= Targets(h, k) && forall o :: o in m ==> o in m0 || LedFrom(h, due, o)
    ensures MarkedFrom(h, m0 + {k}, m)
  {
    TargetsAre(h, k);
    forall o | o in m
      ensures LedFrom(h, m0 + {k}, o)
    {
      if o in m0 { LedSelf(h, m0 + {k}, o); } else {
        var x :| x in due && Leads(h, x, o);
        LeadsSelf(h, k);
        LeadsMore(h, k, k, x);
        LeadsBoth(h, k, x, o);
      }
    }
  }

  lemma MarkedAfter(h: Graph, m0: set<nat>, k: nat, due: set<nat>, m: set<nat>, m': set<nat>)
    requires due <= Targets(h, k) && forall o :: o in m ==> o in m0 || LedFrom(h, due, o)
    requires MarksFrom(h, {}, m + {k}, m')
    ensures MarkedFrom(h, m0 + {k}, m')
  {
    hide Targets;
    MarkedByKey(h, m0, k, due, m);
    assert MarkedFrom(h, m + {k}, m');
    MarkedOn(h, m0 + {k}, m, {k}, m');
    assert m0 + {k} + {k} == m0 + {k};
  }

  lemma MarkedWithin(h: Graph, m0: set<nat>, k: nat, due: set<nat>, m: set<nat>, stack: seq<Pending>, hand: set<nat>, full: bool)
    requires Exploring(h, m0, k, due, m, stack, hand, full)
    ensures due <= Targets(h, k) && forall o :: o in m ==> o in m0 || LedFrom(h, due, o)
  {
  }

  /** One more chain was marked from. */
  lemma LedByMore(h: Graph, m0: set<nat>, head: seq<seq<Node<Fin>>>, i: nat, m: set<nat>, m': set<nat>)
    requires i < |head| && (forall o :: o in m ==> LedByChains(h, m0, head, i, o)) && MarkedFrom(h, m + Keys(head[i]), m')
    ensures forall o :: o in m' ==> LedByChains(h, m0, head, i + 1, o)
  {
    hide Leads;
    forall o | o in m'
      ensures LedByChains(h, m0, head, i + 1, o)
    {
      var s :| s in m + Keys(head[i]) && Leads(h, s, o);
      if s in m {
        if LedFrom(h, m0, s) { LedOn(h, m0, s, o); } else {
          var k, n :| 0 <= k < i && k < |head| && n in head[k] && Leads(h, n.key, s);
          LeadsBoth(h, n.key, s, o);
        }
      } else {
        var j :| 0 <= j < |head[i]| && head[i][j].key == s;
        assert head[i][j] in head[i];
      }
    }
  }

  lemma LedByNone(h: Graph, m: set<nat>, head: seq<seq<Node<Fin>>>)
    ensures forall o :: o in m ==> LedByChains(h, m, head, 0, o)
  {
    forall o | o in m ensures LedByChains(h, m, head, 0, o) { LedSelf(h, m, o); }
  }

  lemma NoKeysYet(chain: seq<Node<Fin>>)
    ensures Keys(chain[..0]) == {}
  {
  }

  lemma KeysOfMore(chain: seq<Node<Fin>>, j: nat)
    requires j < |chain|
    ensures Keys(chain[..j + 1]) == Keys(chain[..j]) + {chain[j].key}
  {
    forall k | k in Keys(chain[..j]) ensures k in Keys(chain[..j + 1]) {
      var i :| 0 <= i < j && chain[..j][i].key == k;
      assert chain[..j + 1][i].key == k;
    }
    assert chain[..j + 1][j] == chain[j];
  }

  lemma LedOn(h: Graph, starts: set<nat>, s: nat, o: nat)
    requires LedFrom(h, starts, s) && Leads(h, s, o)
    ensures LedFrom(h, starts, o)
  {
    var x :| x in starts && Leads(h, x, s);
    LeadsBoth(h, x, s, o);
  }

  /** What k's pointers lead to is reached. */
  lemma LedIsReached(h: Graph, k: nat, starts: set<nat>, o: nat)
    requires LedFrom(h, starts, o) && starts <= Targets(h, k)
    ensures Reaches(h, k, o)
  {
    var x :| x in starts && Leads(h, x, o);
    ReachesFromTarget(h, k, x, o);
  }

  /** A path that begins at k leads to k again or from something else that k points to. */
  lemma {:induction false} LedBySelf(h: Graph, k: nat, due: set<nat>, p: seq<nat>)
    requires Path(h, p) && p[0] == k && Targets(h, k) - {k} <= due
    ensures p[|p| - 1] == k || LedFrom(h, due, p[|p| - 1])
    decreases |p|
  {
    if |p| > 1 {
      var q := p[1..];
      TargetsAre(h, k);
      assert Points(h, p[0], p[1]);
      forall i | 0 <= i < |q| - 1 ensures Points(h, q[i], q[i + 1]) { assert q[i] == p[i + 1] && q[i + 1] == p[i + 2]; }
      if q[0] == k { LedBySelf(h, k, due, q); } else { assert Leads(h, q[0], p[|p| - 1]); }
    }
  }

  /** Field a points nowhere or to a marked object. */
  lemma FieldDone(h: Graph, m0: set<nat>, k: nat, due: set<nat>, m: set<nat>, stack: seq<Pending>, hand: set<nat>, full: bool, a: nat)
    requires Exploring(h, m0, k, due, m, stack, hand, full) && a in hand && (a in h.mem ==> h.mem[a] in m)
    ensures Exploring(h, m0, k, due, m, stack, hand - {a}, full)
  {
    hide LedFrom, Wanted;
    forall t | Owed(h, stack, hand, t) ensures t in m || Owed(h, stack, hand - {a}, t) {}
    forall t | Owed(h, stack, hand - {a}, t) ensures Owed(h, stack, hand, t) {}
  }

  /** Field a points to an unmarked object; it is marked and, if it has fields, pushed on `below`, which
      is the whole stack unless that is full. */
  lemma FieldMarked(h: Graph, m0: set<nat>, k: nat, due: set<nat>, m: set<nat>, stack: seq<Pending>, hand: set<nat>, full: bool, a: nat,
                    below: seq<Pending>, full': bool)
    requires GraphOk(h) && Exploring(h, m0, k, due, m, stack, hand, full)
    requires a in hand && a in h.mem && h.mem[a] !in m && h.mem[a] in h.slots
    requires below <= stack && (full ==> full') && (!full' ==> below == stack)
    ensures var t := h.mem[a]; var e := Pending(t, h.slots[t]);
      Exploring(h, m0, k, due, m + {t}, if h.slots[t] == {} then below else below + [e], hand - {a}, full')
  {
    hide LedFrom, Wanted, Owed;
    var t := h.mem[a];
    var e, m' := Pending(t, h.slots[t]), m + {t};
    var stack' := if h.slots[t] == {} then below else below + [e];
    NothingNamed(h);
    HandIsOwed(h, stack, hand, a);
    assert m' - m0 == (m - m0) + {t};
    forall x | Owed(h, stack', hand - {a}, x)
      ensures LedFrom(h, due, x)
    {
      OwedBefore(h, stack, stack', hand, a, e, x);
      if x in Targets(h, t) { LedMore(h, due, t, x); }
    }
    if !full' {
      forall x | Wanted(h, m0, due, m', x)
        ensures x in m' || Owed(h, stack', hand - {a}, x)
      {
        WantedLess(h, m0, due, m, t, x);
        if x in Targets(h, t) {
          if h.slots[t] != {} { EntryIsOwed(h, stack', hand - {a}, e, x); }
        } else if x !in m' {
          OwedStill(h, stack, stack', hand, a, x);
        }
      }
    }
  }

  lemma HandIsOwed(h: Graph, stack: seq<Pending>, hand: set<nat>, a: nat)
    requires a in hand && a in h.mem
    ensures Owed(h, stack, hand, h.mem[a])
  {
  }

  lemma EntryIsOwed(h: Graph, stack: seq<Pending>, hand: set<nat>, e: Pending, x: nat)
    requires e in stack && x in Named(h, e.left)
    ensures Owed(h, stack, hand, x)
  {
  }

  lemma OwedBefore(h: Graph, stack: seq<Pending>, stack': seq<Pending>, hand: set<nat>, a: nat, e: Pending, x: nat)
    requires Owed(h, stack', hand - {a}, x) && forall y :: y in stack' ==> y in stack || y == e
    ensures Owed(h, stack, hand, x) || x in Named(h, e.left)
  {
  }

  lemma WantedLess(h: Graph, m0: set<nat>, due: set<nat>, m: set<nat>, t: nat, x: nat)
    requires Wanted(h, m0, due, m + {t}, x)
    ensures x in Targets(h, t) || Wanted(h, m0, due, m, x)
  {
    hide Targets;
  }

  lemma OwedStill(h: Graph, stack: seq<Pending>, stack': seq<Pending>, hand: set<nat>, a: nat, x: nat)
    requires Owed(h, stack, hand, x) && stack <= stack' && (a in h.mem ==> x != h.mem[a])
    ensures Owed(h, stack', hand - {a}, x)
  {
    if x !in Named(h, hand) { var e :| e in stack && x in Named(h, e.left); assert e in stack'; }
  }

  /** Some fields of the top entry are taken in hand. */
  lemma TakeFields(h: Graph, m0: set<nat>, k: nat, due: set<nat>, m: set<nat>, below: seq<Pending>, e: Pending, part: set<nat>, full: bool)
    requires Exploring(h, m0, k, due, m, below + [e], {}, full) && part <= e.left
    ensures Exploring(h, m0, k, due, m, LeftOver(below, e, part), part, full) && |LeftOver(below, e, part)| <= |below| + 1
  {
    hide LedFrom, Wanted;
    var rest := Pending(e.obj, e.left - part);
    var stack' := if part == e.left then below else below + [rest];
    NothingNamed(h);
    forall t ensures Owed(h, below + [e], {}, t) <==> Owed(h, stack', part, t) {
      assert t in Named(h, e.left) <==> t in Named(h, part) || t in Named(h, rest.left);
      if Owed(h, below + [e], {}, t) {
        var x :| x in below + [e] && t in Named(h, x.left);
        if x in below { assert x in stack'; } else if part != e.left { assert rest in stack'; }
      }
      if Owed(h, stack', part, t) {
        if t in Named(h, part) { assert e in below + [e]; } else {
          var x :| x in stack' && t in Named(h, x.left);
          if x in below { assert x in below + [e]; } else { assert e in below + [e]; }
        }
      }
    }
  }

  /** The stack was never full: all that had to be marked is. */
  lemma EndExploring(h: Graph, m0: set<nat>, k: nat, due: set<nat>, m: set<nat>)
    requires Exploring(h, m0, k, due, m, [], {}, false)
    ensures due <= m && NewlyClosed(h, m0, m)
    ensures Closed(h, m0) ==> Closed(h, m)
  {
    hide LedFrom, Targets, Points;
    NothingNamed(h);
    forall t ensures !Owed(h, [], {}, t) {}
    forall o, t | o in m && o !in m0 && Points(h, o, t)
      ensures t in m
    {
      TargetsAre(h, o);
      assert Wanted(h, m0, due, m, t);
    }
    assert forall t :: t in due ==> Wanted(h, m0, due, m, t);
  }

  /** A push onto a full stack: at least that many unmarked objects are reached. */
  lemma FullMeansMany(h: Graph, m0: set<nat>, k: nat, due: set<nat>, m: set<nat>, stack: seq<Pending>, hand: set<nat>, full: bool, t: nat)
    requires Exploring(h, m0, k, due, m, stack, hand, full) && t in h.slots && t !in m && Owed(h, stack, hand, t)
    ensures |stack| <= |Fresh(h, m0, k)|
  {
    hide Reaches, LedFrom, Owed;
    var more := (m - m0) + {t};
    forall o | o in more ensures o in Fresh(h, m0, k) { LedIsReached(h, k, due, o); }
    SubsetSize(more, Fresh(h, m0, k));
  }

  /** One more field is scanned: what was marked are the objects named, and what was pushed are those of them
      that had no mark and have fields. */
  lemma FieldCounted(h: Graph, m: set<nat>, done: set<nat>, a: nat, before: set<nat>, after: set<nat>)
    requires before == m + Named(h, done) && (a in h.mem ==> h.mem[a] in h.slots)
    requires after == before + if a in h.mem then {h.mem[a]} else {}
    ensures after == m + Named(h, done + {a}) && (after == m ==> before == m)
    ensures |Unscanned(h, m, Named(h, done + {a}))| ==
            |Unscanned(h, m, Named(h, done))| + if a in h.mem && h.mem[a] !in before && h.slots[h.mem[a]] != {} then 1 else 0
  {
    hide Named, Unscanned;
    NamedMore(h, done, a);
    MarkedMore(m, Named(h, done), before, Named(h, done + {a}), after, if a in h.mem then {h.mem[a]} else {});
    if a in h.mem { UnscannedWith(h, m, Named(h, done), h.mem[a]); } else { assert Named(h, done + {a}) == Named(h, done); }
  }

  lemma MarkedMore(m: set<nat>, ts: set<nat>, before: set<nat>, ts': set<nat>, after: set<nat>, t: set<nat>)
    requires before == m + ts && after == before + t && ts' == ts + t
    ensures after == m + ts' && before <= after && (after == m ==> before == m && after == before)
  {
  }

  lemma NamedMore(h: Graph, done: set<nat>, a: nat)
    ensures Named(h, done + {a}) == Named(h, done) + if a in h.mem then {h.mem[a]} else {}
  {
    if a in h.mem {
      assert Named(h, done + {a}) == Named(h, done) + {h.mem[a]};
    } else {
      assert Named(h, done + {a}) == Named(h, done);
    }
  }

  lemma UnscannedWith(h: Graph, m: set<nat>, ts: set<nat>, t: nat)
    ensures |Unscanned(h, m, ts + {t})| == |Unscanned(h, m, ts)| + if t !in m + ts && t in h.slots && h.slots[t] != {} then 1 else 0
  {
    if t !in m + ts && t in h.slots && h.slots[t] != {} {
      assert Unscanned(h, m, ts + {t}) == Unscanned(h, m, ts) + {t};
    } else {
      assert Unscanned(h, m, ts + {t}) == Unscanned(h, m, ts);
    }
  }

  lemma CrowdedHasFields(h: Graph, m: set<nat>, k: nat, cap: nat)
    requires Crowded(h, m, k, cap)
    ensures h.slots[k] != {}
  {
    NothingUnscanned(h, m);
  }

  lemma CrowdedMeans(h: Graph, m: set<nat>, k: nat, cap: nat)
    requires Crowded(h, m, k, cap)
    ensures |h.slots[k]| <= RANGE_FIELDS && cap < |Unscanned(h, m, Named(h, h.slots[k]))|
  {
  }

  lemma CrowdedFills(h: Graph, m: set<nat>, k: nat, cap: nat, stack0: seq<Pending>, below: seq<Pending>, e: Pending, part: set<nat>,
                     stack: seq<Pending>, full: bool)
    requires stack0 == below + [e] && (|e.left| <= RANGE_FIELDS ==> part == e.left) && |stack| <= cap
    requires !full ==> |stack| == |LeftOver(below, e, part)| + |Unscanned(h, m, Named(h, part))|
    ensures k in h.slots && stack0 == [Pending(k, h.slots[k])] && Crowded(h, m, k, cap) ==> full
  {
    hide Named, Unscanned, Crowded;
    if k in h.slots && stack0 == [Pending(k, h.slots[k])] && Crowded(h, m, k, cap) {
      CrowdedMeans(h, m, k, cap);
      assert below == [] && e == stack0[0];
    }
  }

  lemma MoveOne(fields: set<nat>, rest: set<nat>, done: set<nat>, a: nat)
    requires rest + done == fields && a in rest
    ensures (rest - {a}) + (done + {a}) == fields
  {
  }

  lemma ChainMore(chain: seq<Node<Fin>>, j: nat, q0: multiset<Node<Fin>>, q: multiset<Node<Fin>>, q': multiset<Node<Fin>>)
    requires j < |chain| && q == q0 + multiset(chain[..j]) && q' == multiset{chain[j]} + q
    ensures q' == q0 + multiset(chain[..j + 1])
  {
    assert chain[..j + 1] == chain[..j] + [chain[j]];
  }

  lemma NothingClosed(h: Graph)
    ensures Closed(h, {})
  {
  }

  lemma NothingNew(h: Graph, m: set<nat>)
    ensures NewlyClosed(h, m, m)
  {
  }

  lemma NothingUnscanned(h: Graph, m: set<nat>)
    ensures Unscanned(h, m, Named(h, {})) == {}
  {
  }

  lemma FieldTarget(h: Graph, a: nat)
    requires GraphOk(h) && a in h.mem
    ensures h.mem[a] in h.slots
  {
  }

  lemma MarksInside(h: Graph, m0: set<nat>, k: nat, due: set<nat>, m: set<nat>, stack: seq<Pending>, hand: set<nat>, full: bool)
    requires Exploring(h, m0, k, due, m, stack, hand, full)
    ensures m0 <= m <= h.slots.Keys
  {
  }

  lemma ReachedFrom(h: Graph, m0: set<nat>, k: nat, due: set<nat>, m: set<nat>)
    requires Exploring(h, m0, k, due, m, [], {}, false)
    ensures m0 <= m <= h.slots.Keys && forall o :: o in m ==> o in m0 || LedFrom(h, due, o)
  {
  }

  /** How many fields the entries of a stack still stand for, and the entries themselves. */
  function FieldsLeft(stack: seq<Pending>): nat {
    if stack == [] then 0 else FieldsLeft(stack[..|stack| - 1]) + 1 + |stack[|stack| - 1].left|
  }

  lemma FewerFields(below: seq<Pending>, e: Pending, part: set<nat>)
    requires part <= e.left && (part == e.left || part != {})
    ensures FieldsLeft(LeftOver(below, e, part)) < FieldsLeft(below + [e])
  {
    var rest := Pending(e.obj, e.left - part);
    assert (below + [e])[..|below|] == below && (below + [rest])[..|below|] == below;
    assert |e.left| == |part| + |e.left - part| by { assert e.left == part + (e.left - part); }
  }

  lemma MoreMarked(all: set<nat>, m: set<nat>, m': set<nat>)
    requires m <= m' <= all
    ensures m == m' || |all - m'| < |all - m|
  {
    if m == m' { return; }
    var o :| o in m' && o !in m;
    Shrinks(all, m, o);
    SubsetSize(all - m', all - (m + {o}));
  }

  lemma NodeInTable(head: seq<seq<Node<Fin>>>, i: nat, j: nat)
    requires i < |head| && j < |head[i]|
    ensures InTable(head, head[i][j])
  {
  }

  lemma PushesAreCovered(h: Graph, m: set<nat>, n: Node<Fin>)
    requires Pushes(h, n.key, n.value.proc) <= m
    ensures Covered(h, m, n)
  {
  }

  lemma NothingServed(h: Graph, head: seq<seq<Node<Fin>>>, m: set<nat>, cap: nat)
    ensures LedOnly(h, head, m, m, {}) && Overfull(h, m, cap, {}) && FullFrom(head, {})
  {
  }

  lemma StartServing(h: Graph, head: seq<seq<Node<Fin>>>, m: set<nat>, cap: nat)
    ensures CoveredUpTo(h, head, 0, m) && SureUpTo(h, head, m, cap, 0, {}) && EmptyUpTo(head, 0)
  {
  }

  /** Chain i has been served. */
  lemma ChainServed(h: Graph, head: seq<seq<Node<Fin>>>, m0: set<nat>, cap: nat, i: nat, m: set<nat>, full: set<nat>, m': set<nat>,
                    full': set<nat>)
    requires i < |head| && m <= m' && full <= full' && CoveredUpTo(h, head, i, m) && SureUpTo(h, head, m0, cap, i, full)
    requires forall n :: n in head[i] ==> Covered(h, m', n)
    requires EmptyUpTo(head, i) && head[i] != [] && Sure(h, m0, cap, head[i][0]) ==> head[i][0].key in full'
    ensures CoveredUpTo(h, head, i + 1, m') && SureUpTo(h, head, m0, cap, i + 1, full')
    ensures EmptyUpTo(head, i + 1) ==> EmptyUpTo(head, i) && head[i] == []
  {
    hide Covered, Sure;
    CoveredMore(h, m, m');
    forall l, n | 0 <= l < i + 1 && FirstIn(head, l, n) && Sure(h, m0, cap, n)
      ensures n.key in full'
    {
      if l == i { assert EmptyUpTo(head, i); }
    }
  }

  lemma AllServed(h: Graph, head: seq<seq<Node<Fin>>>, m0: set<nat>, cap: nat, m: set<nat>, full: set<nat>)
    requires CoveredUpTo(h, head, |head|, m) && SureUpTo(h, head, m0, cap, |head|, full)
    ensures forall n :: InTable(head, n) ==> Covered(h, m, n)
    ensures forall n :: FirstNode(head, n) && Sure(h, m0, cap, n) ==> n.key in full
  {
    hide Covered, Sure;
    forall n | FirstNode(head, n) && Sure(h, m0, cap, n) ensures n.key in full { var i :| FirstIn(head, i, n); }
  }

  lemma FreshLess(h: Graph, m0: set<nat>, m: set<nat>, k: nat)
    requires m0 <= m
    ensures |Fresh(h, m, k)| <= |Fresh(h, m0, k)|
  {
    SubsetSize(Fresh(h, m, k), Fresh(h, m0, k));
  }

  /** Marking from the unmarked object of n does not mark more than may be. */
  lemma ServedMore(h: Graph, head: seq<seq<Node<Fin>>>, m0: set<nat>, cap: nat, m: set<nat>, full: set<nat>, c: nat,
                   n: Node<Fin>, m': set<nat>, full': set<nat>)
    requires m0 <= m && LedOnly(h, head, m0, m, full) && Overfull(h, m0, cap, full) && cap <= c
    requires InTable(head, n) && n.key !in m
    requires forall o :: o in m' ==> o in m || LedFrom(h, Pushes(h, n.key, n.value.proc), o) || (o == n.key && o in full')
    requires full' == full || (full' == full + {n.key} && c <= |Fresh(h, m, n.key)|)
    requires FullFrom(head, full) && (n.value.proc.NoMark? ==> full' == full)
    ensures LedOnly(h, head, m0, m', full') && Overfull(h, m0, cap, full') && FullFrom(head, full')
  {
    hide InTable, LedFrom, Pushes, Fresh;
    FreshLess(h, m0, m, n.key);
  }

  lemma SubsetSize(a: set<nat>, b: set<nat>)
    requires a <= b
    ensures |a| <= |b|
  {
    assert b == a + (b - a);
  }

  /** After the stack was full the object itself is marked, and everything reached from marked objects. */
  lemma AfterOverflow(h: Graph, m0: set<nat>, k: nat, due: set<nat>, m: set<nat>, stack: seq<Pending>, hand: set<nat>, m': set<nat>)
    requires Exploring(h, m0, k, due, m, stack, hand, true) && MarksFrom(h, {}, m + {k}, m') && Closed(h, m')
    requires Targets(h, k) - {k} <= due
    ensures m <= m' && k in m' && Targets(h, k) <= m' && NewlyClosed(h, m0, m')
    ensures Closed(h, m0) ==> forall o :: o in m' ==> o in m0 || o == k || LedFrom(h, due, o)
  {
    hide Targets, LedFrom;
    forall s | s in m + {k} ensures s in m' { LeadsSelf(h, s); }
    TargetsAre(h, k);
    if Closed(h, m0) {
      forall o | o in m'
        ensures o in m0 || o == k || LedFrom(h, due, o)
      {
        var s :| s in m + {k} && Leads(h, s, o);
        if s in m0 { ClosedLeads(h, m0, s, o); }
        else if s == k {
          var p :| Path(h, p) && p[0] == s && p[|p| - 1] == o;
          LedBySelf(h, k, due, p);
        }
        else { LedOn(h, due, s, o); }
      }
    }
  }

  lemma {:induction false} HasPart(s: set<nat>, n: nat)
    requires n <= |s|
    ensures exists p :: p <= s && |p| == n
  {
    if n == 0 {
      assert s - s <= s && |s - s| == 0;
    } else {
      var a :| a in s;
      HasPart(s - {a}, n - 1);
      var p :| p <= s - {a} && |p| == n - 1;
      assert p + {a} <= s && |p + {a}| == n;
    }
  }

  lemma {:induction false} InNodes<V>(head: seq<seq<Node<V>>>, n: Node<V>)
    ensures InTable(head, n) <==> n in Nodes(head)
  {
    if head != [] {
      var h := head[..|head| - 1];
      InNodes(h, n);
      if InTable(head, n) && n !in head[|head| - 1] {
        var i :| 0 <= i < |head| && n in head[i];
        assert n in h[i];
      }
      if InTable(h, n) {
        var i :| 0 <= i < |h| && n in h[i];
        assert n in head[i];
      }
    }
  }

  lemma DropNode<V>(head: seq<seq<Node<V>>>, log: nat, i: nat, j: nat)
    requires Placed(head, log) && i < |head| && j < |head[i]|
    ensures var c := head[i := Without(head[i], j)];
      && Placed(c, log) && Count(c) + 1 == Count(head) && Nodes(c) + multiset{head[i][j]} == Nodes(head)
  {
    hide Hash, Nodes, Count, Without;
    var s := Without(head[i], j);
    WithoutAt(head[i], j);
    CountSet(head, i, s);
    NodesSet(head, i, s);
    WithoutNodes(head[i], j);
    var c: seq<seq<Node<V>>> := head[i := s];
    forall k, l | 0 <= k < |c| && 0 <= l < |c[k]|
      ensures Hash(c[k][l].key, log) == k
    {
      if k == i && l >= j { assert c[k][l] == head[i][l + 1]; } else { assert c[k][l] == head[k][l]; }
    }
    Cancel(Nodes(c), multiset(head[i]), Nodes(head), multiset(s), multiset{head[i][j]});
  }

  lemma WithoutNodes<V>(s: seq<Node<V>>, j: nat)
    requires j < |s|
    ensures multiset(Without(s, j)) + multiset{s[j]} == multiset(s)
  {
    assert s == s[..j] + ([s[j]] + s[j + 1..]);
  }

  lemma Cancel<T>(a: multiset<T>, x: multiset<T>, b: multiset<T>, y: multiset<T>, z: multiset<T>)
    requires a + x == b + y && y + z == x
    ensures a + z == b
  {
    forall t: T ensures (a + z)[t] == b[t] { assert (a + x)[t] == (b + y)[t] && (y + z)[t] == x[t]; }
  }

  lemma AddNode<V>(head: seq<seq<Node<V>>>, log: nat, n: Node<V>)
    requires Placed(head, log) && head != []
    ensures Hash(n.key, log) < |head|
    ensures var i := Hash(n.key, log); var c := head[i := [n] + head[i]];
      && Placed(c, log) && Count(c) == Count(head) + 1 && Nodes(c) == Nodes(head) + multiset{n}
  {
    hide Hash, Nodes, Count;
    var i := Hash(n.key, log);
    var c: seq<seq<Node<V>>> := head[i := [n] + head[i]];
    CountSet(head, i, [n] + head[i]);
    NodesSet(head, i, [n] + head[i]);
    assert multiset([n] + head[i]) == multiset{n} + multiset(head[i]);
    forall k, l | 0 <= k < |c| && 0 <= l < |c[k]|
      ensures Hash(c[k][l].key, log) == k
    {
      if k == i && l > 0 { assert c[k][l] == head[i][l - 1]; }
    }
    Cancel(Nodes(head), multiset([n] + head[i]), Nodes(c), multiset(head[i]), multiset{n});
  }

  lemma EnqueueOne(java: bool, head0: seq<seq<Node<Fin>>>, m0: set<nat>, head: seq<seq<Node<Fin>>>, m: set<nat>,
                   news: seq<Node<Fin>>, log: nat, i: nat, j: nat)
    requires Enqueued(java, head0, m0, head, m, news) && Placed(head, log)
    requires i < |head| && j < |head[i]| && head[i][j].key !in m
    ensures var n, c := head[i][j], head[i := Without(head[i], j)];
      && Placed(c, log) && Count(c) + 1 == Count(head)
      && Enqueued(java, head0, m0, c, if java then m else m + {n.key}, [n] + news)
  {
    hide Hash, Nodes, Count, Without, Placed;
    DropNode(head, log, i, j);
    var n := head[i][j];
    assert multiset([n] + news) == multiset{n} + multiset(news);
    KeysMore(n, news);
  }

  lemma KeysMore(n: Node<Fin>, news: seq<Node<Fin>>)
    ensures Keys([n] + news) == Keys(news) + {n.key}
  {
    var q := [n] + news;
    assert q[0] == n;
    forall i | 0 <= i < |news| ensures news[i].key in Keys(q) { assert q[i + 1] == news[i]; }
  }

  /** Everything left in the table is marked, so what was enqueued is exactly what was not. */
  lemma EnqueuedExactly(java: bool, head0: seq<seq<Node<Fin>>>, m0: set<nat>, head: seq<seq<Node<Fin>>>, m: set<nat>,
                        news: seq<Node<Fin>>, k: nat)
    requires Enqueued(java, head0, m0, head, m, news)
    requires forall n :: InTable(head, n) ==> n.key in m
    ensures k in Keys(news) <==> k !in m0 && exists n :: InTable(head0, n) && n.key == k
  {
    hide Nodes, InTable;
    if k in Keys(news) {
      var i :| 0 <= i < |news| && news[i].key == k;
      assert news[i] in news && news[i] in Nodes(head0) by { assert news[i] in multiset(news); }
      InNodes(head0, news[i]);
    }
    if k !in m0 && exists n :: InTable(head0, n) && n.key == k {
      var n :| InTable(head0, n) && n.key == k;
      InNodes(head0, n);
      InNodes(head, n);
      if n !in Nodes(head) {
        assert n in multiset(news);
        var i :| 0 <= i < |news| && news[i] == n;
      }
    }
  }

  lemma NothingEnqueued(java: bool, head: seq<seq<Node<Fin>>>, m: set<nat>)
    ensures Enqueued(java, head, m, head, m, [])
  {
    assert m + Keys([]) == m;
  }

  /** Clearing words leaves closed marks closed. */
  lemma ClearedClosed(h: Graph, m: set<nat>, gone: set<nat>)
    requires GraphOk(h) && Closed(h, m)
    ensures GraphOk(h.(mem := h.mem - gone)) && Closed(h.(mem := h.mem - gone), m)
  {
    var h' := h.(mem := h.mem - gone);
    forall o, t | Points(h', o, t)
      ensures Points(h, o, t)
    {
      var a :| a in h'.slots[o] && a in h'.mem && h'.mem[a] == t;
      assert a in h.mem && h.mem[a] == t;
    }
  }

  /** If the node of every chain may stay, so may every binding. */
  lemma AllStay(head: seq<seq<Node<nat>>>, log: nat, base: nat -> Option<nat>, m: set<nat>, dangling: bool)
    requires head == [] || TableOk(head, log)
    requires forall i, j :: 0 <= i < |head| && 0 <= j < |head[i]| ==> Keeps(base, m, dangling, head[i][j].key, head[i][j].value)
    ensures forall k :: k in View(head) ==> Keeps(base, m, dangling, k, View(head)[k])
  {
    hide Hash, View, BucketView, Keeps;
    if head == [] { EmptyTable(head); } else {
      forall k | k in View(head)
        ensures Keeps(base, m, dangling, k, View(head)[k])
      {
        ViewAt(head, log, k);
        var i := Hash(k, log);
        BucketIs(head, log, i);
        InBucket(head[i], k);
        var j :| 0 <= j < |head[i]| && head[i][j].key == k;
      }
    }
  }

  lemma KeptIs(base: nat -> Option<nat>, m: set<nat>, dangling: bool, b: map<nat, nat>, gone: set<nat>)
    requires gone <= b.Keys && forall k :: k in gone ==> !Keeps(base, m, dangling, k, b[k])
    requires forall k :: k in b && k !in gone ==> Keeps(base, m, dangling, k, b[k])
    ensures b - gone == Kept(base, m, dangling, b)
    ensures gone == b.Keys - Kept(base, m, dangling, b).Keys
  {
    hide Keeps;
  }

  /** An unmarked finalizable object, seen as an ordinary one: its own fields are marked. */
  lemma MarkAsNormal(h: Graph, m: set<nat>, n: Node<Fin>)
    requires Closed(h, m) && Pushes(h, n.key, NormalMark) <= m
    ensures Closed(h, m + {n.key})
  {
    MarkCovered(h, m, Node(n.key, n.value.(proc := NormalMark)));
  }

  /** The i-th node of the queue goes back into the table. */
  lemma ReviveOne(h: Graph, head0: seq<seq<Node<Fin>>>, q0: seq<Node<Fin>>, head: seq<seq<Node<Fin>>>, q: seq<Node<Fin>>,
                  revived: seq<Node<Fin>>, log: nat, i: nat, m0: set<nat>, m: set<nat>)
    requires i < |q| && head != [] && Placed(head, log) && Ready(h, m, q) && Passed(q, i, m0, m)
    requires q[i].value.proc.WhenUnreachable? && q[i].key in m && RevivedFrom(head0, q0, head, q, revived, m)
    ensures Hash(q[i].key, log) < |head|
    ensures var n, k := q[i], Hash(q[i].key, log); var c, r, q' := head[k := [n] + head[k]], [n] + revived, q[..i] + q[i + 1..];
      && Placed(c, log) && Count(c) == Count(head) + 1 && c != []
      && RevivedFrom(head0, q0, c, q', r, m) && Ready(h, m, q') && Passed(q', i, m0, m) && |q'| == |q| - 1
  {
    hide Hash, Nodes, Count, Placed, Covered;
    var n := q[i];
    WithoutNodes(q, i);
    AddNode(head, log, n);
    assert multiset([n] + revived) == multiset{n} + multiset(revived);
    var q' := q[..i] + q[i + 1..];
    forall x | x in q' ensures x in q { }
  }

  /** The i-th node of the queue is left there, marked. */
  lemma StayInQueue(h: Graph, head0: seq<seq<Node<Fin>>>, q0: seq<Node<Fin>>, head: seq<seq<Node<Fin>>>, q: seq<Node<Fin>>,
                    revived: seq<Node<Fin>>, i: nat, m0: set<nat>, m: set<nat>)
    requires i < |q| && Closed(h, m) && Ready(h, m, q) && Passed(q, i, m0, m) && m0 <= m
    requires !q[i].value.proc.WhenUnreachable? || q[i].key !in m
    requires RevivedFrom(head0, q0, head, q, revived, m)
    ensures Closed(h, m + {q[i].key}) && Ready(h, m + {q[i].key}, q) && Passed(q, i + 1, m0, m + {q[i].key})
    ensures !q[i].value.proc.WhenUnreachable? ==> m + {q[i].key} == m
    ensures RevivedFrom(head0, q0, head, q, revived, m + {q[i].key})
  {
    hide Covered, Closed, Nodes;
    var n := q[i];
    assert n in q;
    if n.key !in m { MarkCovered(h, m, n); } else { assert m + {n.key} == m; }
    CoveredMore(h, m, m + {n.key});
  }

  /** Marks have been explained by the table, by overflows and by `own`: an enqueued object and what it reaches
      are marked too. */
  lemma ExplainedMore(h: Graph, head0: seq<seq<Node<Fin>>>, m0: set<nat>, m: set<nat>, own: set<nat>, n: Node<Fin>, m': set<nat>)
    requires NoMoreThan(h, head0, m0, m, own) && InTable(head0, n) && n.key !in m0 && n.key in own
    requires forall o :: o in m' ==> o in m || Reaches(h, n.key, o) || o == n.key
    ensures NoMoreThan(h, head0, m0, m', own)
  {
    hide InTable, Reaches;
  }

  lemma ExplainedBy(h: Graph, head0: seq<seq<Node<Fin>>>, m0: set<nat>, m: set<nat>, own: set<nat>, m': set<nat>, own': set<nat>)
    requires NoMoreThan(h, head0, m0, m, own) && own <= own' && m' <= m + own'
    ensures NoMoreThan(h, head0, m0, m', own')
  {
    hide InTable, Reaches;
  }

  lemma QueuedKeys(news: seq<Node<Fin>>, q0: seq<Node<Fin>>)
    ensures Keys(news) <= Keys(news + q0)
  {
    forall i | 0 <= i < |news| ensures news[i].key in Keys(news + q0) { assert (news + q0)[i] == news[i]; }
  }

  /** The next entry of the queue stays. */
  lemma KeysNext(q: seq<Node<Fin>>, i: nat)
    requires i < |q|
    ensures Keys(q[..i + 1]) == Keys(q[..i]) + {q[i].key}
  {
    forall l | 0 <= l < i ensures q[l].key in Keys(q[..i + 1]) { assert q[..i + 1][l] == q[l]; }
    assert q[..i + 1][i] == q[i];
    forall l | 0 <= l < i ensures q[l].key in Keys(q[..i]) { assert q[..i][l] == q[l]; }
  }

  lemma StayingAre(q: seq<Node<Fin>>, n: Node<Fin>)
    requires n in q && !n.value.proc.WhenUnreachable?
    ensures n.key in Staying(q)
  {
    var i :| 0 <= i < |q| && q[i] == n;
  }

  /** What never goes back is still in the queue after the others have gone. */
  lemma StayingStay(q0: seq<Node<Fin>>, q: seq<Node<Fin>>, revived: seq<Node<Fin>>)
    requires multiset(q) + multiset(revived) == multiset(q0) && forall n :: n in revived ==> n.value.proc.WhenUnreachable?
    ensures Staying(q0) <= Keys(q)
  {
    forall k | k in Staying(q0)
      ensures k in Keys(q)
    {
      var i :| 0 <= i < |q0| && !q0[i].value.proc.WhenUnreachable? && q0[i].key == k;
      var n := q0[i];
      assert n in multiset(q0);
      assert n !in revived;
      assert n in multiset(q);
      var j :| 0 <= j < |q| && q[j] == n;
    }
  }

  lemma RevivedAre(head0: seq<seq<Node<Fin>>>, q0: seq<Node<Fin>>, head: seq<seq<Node<Fin>>>, q: seq<Node<Fin>>,
                   revived: seq<Node<Fin>>, m: set<nat>)
    requires RevivedFrom(head0, q0, head, q, revived, m)
    ensures Staying(q0) <= Keys(q)
  {
    hide Nodes, Keys, Staying;
    StayingStay(q0, q, revived);
  }

  lemma StartRevive(h: Graph, head: seq<seq<Node<Fin>>>, q: seq<Node<Fin>>, m: set<nat>)
    ensures RevivedFrom(head, q, head, q, [], m) && Passed(q, 0, m, m)
  {
  }

  lemma EndRevive(head0: seq<seq<Node<Fin>>>, q0: seq<Node<Fin>>, head: seq<seq<Node<Fin>>>, q: seq<Node<Fin>>,
                  revived: seq<Node<Fin>>, m0: set<nat>, m: set<nat>)
    requires RevivedFrom(head0, q0, head, q, revived, m) && Passed(q, |q|, m0, m)
    ensures forall n :: n in q ==> n in q0 && n.key in m && (n.value.proc.WhenUnreachable? ==> n.key !in m0)
  {
    forall n | n in q ensures n in q0 { assert n in multiset(q) && n in multiset(q0); }
  }

  /** What was enqueued came from the table. */
  lemma NewsFromTable(java: bool, head0: seq<seq<Node<Fin>>>, m0: set<nat>, head: seq<seq<Node<Fin>>>, m: set<nat>,
                      news: seq<Node<Fin>>)
    requires Enqueued(java, head0, m0, head, m, news)
    ensures forall n :: n in news ==> InTable(head0, n)
    ensures forall n :: InTable(head, n) ==> InTable(head0, n)
    ensures m0 <= m <= m0 + Keys(news) && (java ==> m == m0)
    ensures forall n :: n in news && !java ==> n.key in m
  {
    hide Nodes, InTable;
    forall n | n in news ensures InTable(head0, n) {
      assert n in multiset(news) && n in Nodes(head0);
      InNodes(head0, n);
    }
    forall n | InTable(head, n) ensures InTable(head0, n) { InNodes(head, n); InNodes(head0, n); }
    forall n | n in news && !java ensures n.key in m { var i :| 0 <= i < |news| && news[i] == n; assert n.key in Keys(news); }
  }

  /** Marking the enqueued objects themselves keeps the marks closed if all of them were marked from. */
  lemma {:induction false} MarkNews(h: Graph, m: set<nat>, news: seq<Node<Fin>>)
    requires Closed(h, m) && forall n :: n in news ==> Covered(h, m, n) && !n.value.proc.NoMark?
    ensures Closed(h, m + Keys(news))
  {
    hide Covered, Closed;
    if news == [] {
      assert m + Keys(news) == m;
    } else {
      assert news == [news[0]] + news[1..];
      KeysMore(news[0], news[1..]);
      MarkNews(h, m, news[1..]);
      CoveredMore(h, m, m + Keys(news[1..]));
      MarkCovered(h, m + Keys(news[1..]), news[0]);
      assert m + Keys(news) == (m + Keys(news[1..])) + {news[0].key};
    }
  }

  lemma KeysInside(news: seq<Node<Fin>>, s: set<nat>)
    requires forall n :: n in news ==> n.key in s
    ensures Keys(news) <= s
  {
  }

  /** The two ends of the queue together. */
  lemma QueueOf(news: seq<Node<Fin>>, q0: seq<Node<Fin>>)
    ensures multiset(news + q0) == multiset(news) + multiset(q0)
    ensures forall n :: n in news + q0 <==> n in news || n in q0
  {
  }

  /** When the queue has been marked from, all that its entries reach is marked. */
  lemma ReadyCloses(h: Graph, m: set<nat>, q: seq<Node<Fin>>, q': seq<Node<Fin>>)
    requires Closed(h, m) && Ready(h, m, q) && forall n :: n in q' ==> n in q && (n.value.proc.WhenUnreachable? ==> n.key !in m)
    ensures Unreached(h, q')
  {
    hide Closed;
    forall n, n' | n in q' && n' in q' && n.value.proc.WhenUnreachable?
      ensures !Reaches(h, n'.key, n.key)
    {
      EntryCloses(h, m, n', n.key);
    }
  }

  lemma EntryCloses(h: Graph, m: set<nat>, n: Node<Fin>, k: nat)
    requires Closed(h, m) && (n.key in m || (n.value.proc.WhenUnreachable? && Covered(h, m, n)))
    ensures Reaches(h, n.key, k) ==> k in m
  {
    hide Closed;
    if Reaches(h, n.key, k) {
      var t :| Points(h, n.key, t) && Leads(h, t, k);
      TargetsAre(h, n.key);
      if n.key in m { TargetsClosedAt(h, m, n.key, t); }
      ClosedLeads(h, m, t, k);
    }
  }

  lemma TargetsClosedAt(h: Graph, m: set<nat>, o: nat, t: nat)
    requires Closed(h, m) && o in m && Points(h, o, t)
    ensures t in m
  {
  }

  lemma ReadyMeansMarked(h: Graph, m: set<nat>, q: seq<Node<Fin>>)
    requires Ready(h, m, q) && forall n :: n in q ==> !n.value.proc.WhenUnreachable?
    ensures forall n :: n in q ==> n.key in m
  {
  }

  /** Ordered finalization never enqueues what an unmarked registered object reaches by one or more pointers:
      nothing on a pointer cycle, nothing behind another object; only a pointer of an object to itself may be
      ignored, if it was registered that way. */
  lemma CyclesAreNot(h: Graph, head0: seq<seq<Node<Fin>>>, m0: set<nat>, m1: set<nat>, java: bool,
                     head: seq<seq<Node<Fin>>>, m: set<nat>, news: seq<Node<Fin>>, n: Node<Fin>, k: nat)
    requires AllOrdered(head0) && Closed(h, m1) && InTable(head0, n) && Covered(h, m1, n)
    requires Enqueued(java, head0, m1, head, m, news)
    requires Reaches(h, n.key, k) && (n.value.proc.IgnoreSelf? ==> k != n.key)
    ensures k !in Keys(news)
  {
    hide Closed, InTable, Nodes, Enqueued;
    assert !n.value.proc.NoMark?;
    var t :| Points(h, n.key, t) && Leads(h, t, k);
    var p :| Path(h, p) && p[0] == t && p[|p| - 1] == k;
    LeavesSelf(h, m1, n, p);
    if k in Keys(news) {
      var i :| 0 <= i < |news| && news[i].key == k;
      NotMarkedBefore(java, head0, m1, head, m, news, i);
    }
  }

  lemma NotMarkedBefore(java: bool, head0: seq<seq<Node<Fin>>>, m0: set<nat>, head: seq<seq<Node<Fin>>>, m: set<nat>,
                        news: seq<Node<Fin>>, i: nat)
    requires Enqueued(java, head0, m0, head, m, news) && i < |news|
    ensures news[i].key !in m0
  {
  }

  /** A path that begins with a pointer of n's object ends at a marked object. */
  lemma {:induction false} LeavesSelf(h: Graph, m: set<nat>, n: Node<Fin>, p: seq<nat>)
    requires Closed(h, m) && Covered(h, m, n) && !n.value.proc.NoMark?
    requires Path(h, p) && Points(h, n.key, p[0]) && (n.value.proc.IgnoreSelf? ==> p[|p| - 1] != n.key)
    ensures p[|p| - 1] in m
    decreases |p|
  {
    hide Closed;
    TargetsAre(h, n.key);
    if p[0] == n.key && n.value.proc.IgnoreSelf? {
      var q := p[1..];
      assert Points(h, p[0], p[1]);
      forall i | 0 <= i < |q| - 1 ensures Points(h, q[i], q[i + 1]) { assert q[i] == p[i + 1] && q[i + 1] == p[i + 2]; }
      LeavesSelf(h, m, n, q);
    } else {
      StaysInside(h, m, p);
    }
  }

  /** How much stack is enough: an object that reaches fewer unmarked objects than the stack has entries is
      enqueued exactly if it may be finalized. */
  lemma EnoughStack(h: Graph, head0: seq<seq<Node<Fin>>>, m0: set<nat>, m1: set<nat>, cap: nat, full: set<nat>, java: bool,
                    head: seq<seq<Node<Fin>>>, m: set<nat>, news: seq<Node<Fin>>)
    requires AllFollow(head0) && m0 <= m1 && Closed(h, m1) && full <= m1 && NoMoreThan(h, head0, m0, m1, full)
    requires Overfull(h, m0, cap, full) && forall n :: InTable(head0, n) ==> Covered(h, m1, n)
    requires Enqueued(java, head0, m1, head, m, news) && forall n :: InTable(head, n) ==> n.key in m
    ensures forall k :: |Fresh(h, m0, k)| < cap ==> (k in Keys(news) <==> Finalizable(h, head0, m0, k))
  {
    hide InTable, Finalizable, Closed, NoMoreThan, Enqueued, AllFollow, Covered, Keys, Fresh;
    ExactNews(h, head0, m0, m1, full, java, head, m, news);
  }

  lemma LastPoints(h: Graph, s: nat, o: nat)
    requires Reaches(h, s, o)
    ensures exists x :: Points(h, x, o)
  {
    var t :| Points(h, s, t) && Leads(h, t, o);
    var p :| Path(h, p) && p[0] == t && p[|p| - 1] == o;
    if |p| > 1 { assert Points(h, p[|p| - 2], p[|p| - 1]); }
  }

  /** An object that nothing points to is not reached. */
  lemma NotPointedTo(h: Graph, s: nat, o: nat)
    requires forall a :: a in h.mem ==> h.mem[a] != o
    ensures !Reaches(h, s, o)
  {
    if Reaches(h, s, o) { LastPoints(h, s, o); }
  }

  /** A table with one binding has one node. */
  lemma OneNode(head: seq<seq<Node<Fin>>>, log: nat, n: Node<Fin>)
    requires TableOk(head, log) && View(head) == map[n.key := n.value]
    ensures FirstNode(head, n) && InTable(head, n)
    ensures forall x :: InTable(head, x) ==> x == n
  {
    hide Hash, View, BucketView, TableOk;
    forall i, j | 0 <= i < |head| && 0 <= j < |head[i]|
      ensures head[i][j] == n
    {
      FoundValue(head, log, i, j);
      NodeKey(head, log, i, j);
    }
    ViewAt(head, log, n.key);
    var i := Hash(n.key, log);
    BucketIs(head, log, i);
    InBucket(head[i], n.key);
    var j :| 0 <= j < |head[i]| && head[i][j].key == n.key;
    forall l: nat | l < |head| && l != i ensures head[l] == [] { EmptyElsewhere(head, log, l, n); }
    assert FirstIn(head, i, n);
  }

  lemma EmptyElsewhere<V>(head: seq<seq<Node<V>>>, log: nat, l: nat, n: Node<V>)
    requires TableOk(head, log) && l < |head| && l != Hash(n.key, log) && forall j :: 0 <= j < |head[l]| ==> head[l][j] == n
    ensures head[l] == []
  {
    if head[l] != [] { ChainOfNode(head, log, l, 0); }
  }

  lemma ChainOfNode<V>(head: seq<seq<Node<V>>>, log: nat, i: nat, j: nat)
    requires TableOk(head, log) && i < |head| && j < |head[i]|
    ensures Hash(head[i][j].key, log) == i
  {
    hide Hash;
    BucketIs(head, log, i);
  }

  lemma TableIsPlaced<V>(head: seq<seq<Node<V>>>, log: nat)
    requires TableOk(head, log)
    ensures Placed(head, log)
  {
    hide Hash;
    forall i: nat | i < |head| ensures BucketOk(head[i], log, i) { BucketIs(head, log, i); }
  }

  lemma NodeKey<V>(head: seq<seq<Node<V>>>, log: nat, i: nat, j: nat)
    requires TableOk(head, log) && i < |head| && j < |head[i]|
    ensures head[i][j].key in View(head) && View(head)[head[i][j].key] == head[i][j].value
  {
    hide Hash, View, BucketView;
    BucketIs(head, log, i);
    InBucket(head[i], head[i][j].key);
    ViewAt(head, log, head[i][j].key);
  }

  lemma BothClosed(h: Graph, m0: set<nat>, m: set<nat>, m': set<nat>)
    requires m0 <= m <= m' && NewlyClosed(h, m0, m) && NewlyClosed(h, m, m')
    ensures NewlyClosed(h, m0, m')
  {
    hide Points;
  }

  /** .. and an object whose fields are all marked may be marked. */
  lemma NewerClosed(h: Graph, m0: set<nat>, m: set<nat>, m': set<nat>, k: nat)
    requires m0 <= m <= m' && NewlyClosed(h, m0, m) && NewlyClosed(h, m, m') && Targets(h, k) <= m'
    ensures NewlyClosed(h, m0, m' + {k})
  {
    hide Points, Targets;
    TargetsAre(h, k);
  }

  /** Marking from the table is marking what the mark procedures of unmarked objects lead to. */
  lemma ServedExactly(h: Graph, head: seq<seq<Node<Fin>>>, m: set<nat>, m': set<nat>, full: set<nat>, k: nat)
    requires m <= m' && Closed(h, m') && full <= m' && LedOnly(h, head, m, m', full)
    requires forall n :: InTable(head, n) ==> Covered(h, m', n)
    ensures k in m' <==> k in m || k in full || LedTo(h, head, m, k)
  {
    hide InTable, Closed, Pushes;
    if LedTo(h, head, m, k) {
      var n :| InTable(head, n) && n.key !in m && LedFrom(h, Pushes(h, n.key, n.value.proc), k);
      var s :| s in Pushes(h, n.key, n.value.proc) && Leads(h, s, k);
      assert Covered(h, m', n);
      ClosedLeads(h, m', s, k);
    }
  }

  lemma PushesInTargets(h: Graph, k: nat, proc: Proc)
    ensures Pushes(h, k, proc) <= Targets(h, k)
  {
  }

  lemma PushedIsReached(h: Graph, k: nat, m: set<nat>, m': set<nat>, full: set<nat>)
    requires forall o :: o in m' ==> o in m || LedFrom(h, Pushes(h, k, NormalMark), o) || (o == k && o in full)
    ensures forall o :: o in m' ==> o in m || Reaches(h, k, o) || o == k
  {
    hide Pushes, Reaches, LedFrom;
    PushesInTargets(h, k, NormalMark);
    forall o | o in m' && LedFrom(h, Pushes(h, k, NormalMark), o) ensures Reaches(h, k, o) { LedIsReached(h, k, Pushes(h, k, NormalMark), o); }
  }

  lemma LedMeansReached(h: Graph, head: seq<seq<Node<Fin>>>, m: set<nat>, m': set<nat>, full: set<nat>)
    requires LedOnly(h, head, m, m', full)
    ensures NoMoreThan(h, head, m, m', full)
  {
    hide InTable, Pushes, Reaches, LedFrom;
    forall o | o in m' && o !in m && o !in full
      ensures exists n :: InTable(head, n) && n.key !in m && Reaches(h, n.key, o)
    {
      assert LedTo(h, head, m, o);
      var n :| InTable(head, n) && n.key !in m && LedFrom(h, Pushes(h, n.key, n.value.proc), o);
      PushesInTargets(h, n.key, n.value.proc);
      LedIsReached(h, n.key, Pushes(h, n.key, n.value.proc), o);
    }
  }

  /** What is enqueued from any table. */
  lemma UnclaimedNews(h: Graph, head0: seq<seq<Node<Fin>>>, m0: set<nat>, m1: set<nat>, full: set<nat>, java: bool,
                      head: seq<seq<Node<Fin>>>, m: set<nat>, news: seq<Node<Fin>>)
    requires m0 <= m1 && Closed(h, m1) && full <= m1 && LedOnly(h, head0, m0, m1, full)
    requires forall n :: InTable(head0, n) ==> Covered(h, m1, n)
    requires Enqueued(java, head0, m1, head, m, news) && forall n :: InTable(head, n) ==> n.key in m
    ensures forall k :: k in Keys(news) <==> Unclaimed(h, head0, m0, full, k)
    ensures !java ==> forall o :: o in m <==> o in m0 || o in full || LedTo(h, head0, m0, o) || o in Keys(news)
  {
    hide InTable, Closed, LedOnly, LedTo, Enqueued, Covered, Keys;
    EnqueuedMarks(java, head0, m1, head, m, news);
    forall k: nat
      ensures k in Keys(news) <==> Unclaimed(h, head0, m0, full, k)
      ensures k in m1 <==> k in m0 || k in full || LedTo(h, head0, m0, k)
    {
      EnqueuedExactly(java, head0, m1, head, m, news, k);
      ServedExactly(h, head0, m0, m1, full, k);
    }
  }

  lemma EnqueuedMarks(java: bool, head0: seq<seq<Node<Fin>>>, m0: set<nat>, head: seq<seq<Node<Fin>>>, m: set<nat>, news: seq<Node<Fin>>)
    requires Enqueued(java, head0, m0, head, m, news)
    ensures m == if java then m0 else m0 + Keys(news)
  {
    hide Nodes, Keys;
  }

  lemma RightNewsHold(h: Graph, head0: seq<seq<Node<Fin>>>, m0: set<nat>, m1: set<nat>, cap: nat, full: set<nat>, java: bool,
                      head: seq<seq<Node<Fin>>>, m: set<nat>, news: seq<Node<Fin>>)
    requires m0 <= m1 && Closed(h, m1) && full <= m1 && LedOnly(h, head0, m0, m1, full)
    requires Overfull(h, m0, cap, full) && FullFrom(head0, full) && forall n :: InTable(head0, n) ==> Covered(h, m1, n)
    requires forall n :: FirstNode(head0, n) && Sure(h, m0, cap, n) ==> n.key in full
    requires Enqueued(java, head0, m1, head, m, news) && forall n :: InTable(head, n) ==> n.key in m
    ensures RightNews(h, head0, m0, cap, full, news)
    ensures !java ==> forall o :: o in m <==> o in m0 || o in full || LedTo(h, head0, m0, o) || o in Keys(news)
  {
    hide InTable, Finalizable, Closed, NoMoreThan, Enqueued, AllFollow, AllOrdered, Covered, Keys, Overfull, FirstNode, Sure, Reaches, Fresh,
      LedOnly, LedTo, Unclaimed, FullFrom;
    LedMeansReached(h, head0, m0, m1, full);
    UnclaimedNews(h, head0, m0, m1, full, java, head, m, news);
    if AllFollow(head0) {
      ExactNews(h, head0, m0, m1, full, java, head, m, news);
      EnoughStack(h, head0, m0, m1, cap, full, java, head, m, news);
    }
    forall n: Node<Fin>, k | AllOrdered(head0) && InTable(head0, n) && Reaches(h, n.key, k) && (n.value.proc.IgnoreSelf? ==> k != n.key)
      ensures k !in Keys(news)
    {
      CyclesAreNot(h, head0, m0, m1, java, head, m, news, n, k);
    }
  }

  /** Objects registered without order wait for nothing: if all are, all unmarked ones are enqueued, whatever
      points to them. */
  lemma NoOrderNews(h: Graph, head0: seq<seq<Node<Fin>>>, m0: set<nat>, cap: nat, full: set<nat>, news: seq<Node<Fin>>, k: nat)
    requires RightNews(h, head0, m0, cap, full, news) && forall n :: InTable(head0, n) ==> n.value.proc.NoMark?
    ensures k in Keys(news) <==> k !in m0 && exists n :: InTable(head0, n) && n.key == k
  {
    hide InTable, Keys, Finalizable, Overfull;
    assert k in Keys(news) <==> Unclaimed(h, head0, m0, full, k);
  }

  lemma {:induction false} ReturningAre(q: seq<Node<Fin>>, n: Node<Fin>)
    ensures Returning(q)[n] == if n.value.proc.WhenUnreachable? then multiset(q)[n] else 0
  {
    if q != [] {
      ReturningAre(q[1..], n);
      assert q == [q[0]] + q[1..];
      assert multiset(q) == multiset{q[0]} + multiset(q[1..]);
    }
  }

  /** An intact table has no two nodes with the same key. */
  lemma IntactIsUnique(head: seq<seq<Node<Fin>>>, log: nat)
    requires TableOk(head, log)
    ensures UniqueKeys(Nodes(head))
  {
    hide Hash, Nodes, TableOk;
    forall n, n' | n in Nodes(head) && n' in Nodes(head) && n.key == n'.key ensures n == n' {
      InNodes(head, n);
      InNodes(head, n');
      SameKey(head, log, n, n');
    }
    forall n | n in Nodes(head) ensures Nodes(head)[n] == 1 { OnceInTable(head, log, |head|, n); assert head[..|head|] == head; }
  }

  lemma SameKey(head: seq<seq<Node<Fin>>>, log: nat, n: Node<Fin>, n': Node<Fin>)
    requires TableOk(head, log) && InTable(head, n) && InTable(head, n') && n.key == n'.key
    ensures n == n'
  {
    hide Hash, View, TableOk;
    var i: nat :| i < |head| && n in head[i];
    var j: nat :| j < |head[i]| && head[i][j] == n;
    var k: nat :| k < |head| && n' in head[k];
    var l: nat :| l < |head[k]| && head[k][l] == n';
    NodeKey(head, log, i, j);
    NodeKey(head, log, k, l);
  }

  lemma {:induction false} OnceInTable(head: seq<seq<Node<Fin>>>, log: nat, i: nat, n: Node<Fin>)
    requires TableOk(head, log) && i <= |head|
    ensures Nodes(head[..i])[n] <= if Hash(n.key, log) < i then 1 else 0
    decreases i
  {
    hide Hash, TableOk;
    if i > 0 {
      OnceInTable(head, log, i - 1, n);
      NodesMore(head, i - 1);
      OnceInChain(head, log, i - 1, n);
    }
  }

  lemma OnceInChain(head: seq<seq<Node<Fin>>>, log: nat, i: nat, n: Node<Fin>)
    requires TableOk(head, log) && i < |head|
    ensures multiset(head[i])[n] <= if Hash(n.key, log) == i then 1 else 0
  {
    hide Hash;
    BucketIs(head, log, i);
    if n in head[i] {
      var j: nat :| j < |head[i]| && head[i][j] == n;
      assert head[i] == head[i][..j] + [n] + head[i][j + 1..];
      assert n !in head[i][..j] && n !in head[i][j + 1..];
    }
  }

  /** When the table of finalizers stays intact: exactly if it and the entries that come back to it from the
      queue have different keys.  An object that is registered again while a finalizer of it that is to run
      only when it is unreachable is still queued breaks the table. */
  lemma IntactAfter(java: bool, head0: seq<seq<Node<Fin>>>, log: nat, m0: set<nat>, q0: seq<Node<Fin>>, head: seq<seq<Node<Fin>>>,
                    q: seq<Node<Fin>>, news: seq<Node<Fin>>, revived: seq<Node<Fin>>, m: set<nat>)
    requires Moved(java, head0, m0, q0, head, q, news, revived, m) && UniqueKeys(Nodes(head0))
    requires forall n :: n in q0 ==> n.key in m0
    requires Placed(head, log) && head != []
    ensures TableOk(head, log) <==> !java || UniqueKeys(Nodes(head0) + Returning(q0))
  {
    hide Placed, TableOk, UniqueKeys, Nodes, Moved, Hash;
    if TableOk(head, log) { IntactIsUnique(head, log); }
    if UniqueKeys(Nodes(head)) { UniqueMeansIntact(head, log); }
    forall n
      ensures Nodes(head)[n] <= Nodes(head0)[n] + Returning(q0)[n]
      ensures n.key in m0 && java ==> Nodes(head)[n] == Nodes(head0)[n] + Returning(q0)[n]
      ensures !java ==> Nodes(head)[n] <= Nodes(head0)[n]
    {
      ReturningAre(q0, n);
      HowMany(java, head0, m0, q0, head, q, news, revived, m, n);
    }
    if java {
      forall n | n in Returning(q0) ensures n.key in m0 { ReturningAre(q0, n); assert n in multiset(q0); }
      UniqueBoth(Nodes(head0), Returning(q0), Nodes(head), m0);
    } else {
      UniqueLess(Nodes(head), Nodes(head0));
    }
  }

  lemma HowMany(java: bool, head0: seq<seq<Node<Fin>>>, m0: set<nat>, q0: seq<Node<Fin>>, head: seq<seq<Node<Fin>>>,
                q: seq<Node<Fin>>, news: seq<Node<Fin>>, revived: seq<Node<Fin>>, m: set<nat>, n: Node<Fin>)
    requires Moved(java, head0, m0, q0, head, q, news, revived, m) && forall x :: x in q0 ==> x.key in m0
    ensures n.key !in m0 ==> Nodes(head)[n] <= Nodes(head0)[n]
    ensures n.key in m0 && java ==> Nodes(head)[n] == Nodes(head0)[n] + if n.value.proc.WhenUnreachable? then multiset(q0)[n] else 0
    ensures !java ==> Nodes(head)[n] <= Nodes(head0)[n]
  {
    hide Nodes;
    assert (Nodes(head) + multiset(q))[n] == (Nodes(head0) + multiset(q0))[n];
    assert (multiset(q) + multiset(revived))[n] == (multiset(news) + multiset(q0))[n];
    if n !in q0 { assert multiset(q0)[n] == 0; }
    if n !in revived { assert multiset(revived)[n] == 0; }
    if n !in news { assert multiset(news)[n] == 0; }
    if n !in q { assert multiset(q)[n] == 0; }
    if !java { assert multiset(q) == multiset(news) + multiset(q0); }
  }

  lemma UniqueLess(a: multiset<Node<Fin>>, b: multiset<Node<Fin>>)
    requires UniqueKeys(b) && forall n :: a[n] <= b[n]
    ensures UniqueKeys(a)
  {
    forall n | n in a ensures a[n] == 1 { assert n in b; }
    forall n, n' | n in a && n' in a && n.key == n'.key ensures n == n' { assert n in b && n' in b; }
  }

  lemma UniqueBoth(a: multiset<Node<Fin>>, b: multiset<Node<Fin>>, c: multiset<Node<Fin>>, m0: set<nat>)
    requires UniqueKeys(a) && (forall n: Node<Fin> :: c[n] <= a[n] + b[n]) && (forall n: Node<Fin> :: n.key in m0 ==> c[n] == a[n] + b[n])
    requires forall n :: n in b ==> n.key in m0
    ensures UniqueKeys(c) <==> UniqueKeys(a + b)
  {
    forall n ensures (a + b)[n] == a[n] + b[n] {}
    if UniqueKeys(a + b) { UniqueLess(c, a + b); }
    if UniqueKeys(c) {
      forall n | n in a + b ensures (a + b)[n] == 1 { if n.key !in m0 { assert n !in b && n in a; } else { assert n in c; } }
      forall n, n' | n in a + b && n' in a + b && n.key == n'.key
        ensures n == n'
      {
        if n.key in m0 { assert n in c && n' in c; } else { assert n in a && n' in a; }
      }
    }
  }

  /** Finalizers only come from the table or the queue. */
  lemma MovedInside(java: bool, head0: seq<seq<Node<Fin>>>, m0: set<nat>, q0: seq<Node<Fin>>, head: seq<seq<Node<Fin>>>,
                    q: seq<Node<Fin>>, news: seq<Node<Fin>>, revived: seq<Node<Fin>>, m: set<nat>)
    requires Moved(java, head0, m0, q0, head, q, news, revived, m)
    ensures forall n :: n in q || InTable(head, n) ==> n in q0 || InTable(head0, n)
    ensures head0 == [] && q0 == [] ==> q == []
  {
    hide InTable, Nodes;
    forall n | n in q || InTable(head, n)
      ensures n in q0 || InTable(head0, n)
    {
      InNodes(head, n);
      InNodes(head0, n);
      assert n in q ==> n in multiset(q);
      assert n in Nodes(head) + multiset(q);
      assert n in Nodes(head0) + multiset(q0);
    }
    if q != [] {
      assert q[0] in q;
      InNodes(head0, q[0]);
      NothingIn(head0, q[0]);
    }
  }

  lemma NothingReturns(head: seq<seq<Node<Fin>>>, q: seq<Node<Fin>>)
    requires head == [] && q == []
    ensures UniqueKeys(Nodes(head) + Returning(q))
  {
  }

  lemma NothingIn(head: seq<seq<Node<Fin>>>, n: Node<Fin>)
    ensures head == [] ==> !InTable(head, n)
  {
  }

  /** The nodes of a table are its bindings. */
  lemma NodesAreBindings(head: seq<seq<Node<Fin>>>, log: nat, n: Node<Fin>)
    requires TableOk(head, log)
    ensures InTable(head, n) <==> n.key in View(head) && View(head)[n.key] == n.value
  {
    hide Hash, View, BucketView, TableOk;
    if InTable(head, n) {
      var i: nat :| i < |head| && n in head[i];
      var j: nat :| j < |head[i]| && head[i][j] == n;
      NodeKey(head, log, i, j);
    }
    if n.key in View(head) && View(head)[n.key] == n.value {
      ViewAt(head, log, n.key);
      var i := Hash(n.key, log);
      BucketIs(head, log, i);
      InBucket(head[i], n.key);
      var j :| 0 <= j < |head[i]| && head[i][j].key == n.key;
      NodeKey(head, log, i, j);
      assert head[i][j] == n;
    }
  }

  /** When only the binding of obj may have changed, all other nodes of the table were there before. */
  lemma RegisteredOnly(head0: seq<seq<Node<Fin>>>, log0: nat, head: seq<seq<Node<Fin>>>, log: nat, obj: nat, proc: Proc)
    requires (head0 == [] || TableOk(head0, log0)) && (head == [] || TableOk(head, log))
    requires forall k :: k in View(head) && k != obj ==> k in View(head0) && View(head)[k] == View(head0)[k]
    requires obj in View(head) && View(head)[obj].proc != proc ==> obj in View(head0) && View(head)[obj] == View(head0)[obj]
    ensures forall n :: InTable(head, n) ==> InTable(head0, n) || (n.key == obj && n.value.proc == proc)
    ensures head == [] || Placed(head, log)
  {
    hide Hash, View, TableOk, InTable;
    forall n | InTable(head, n)
      ensures InTable(head0, n) || (n.key == obj && n.value.proc == proc)
    {
      NothingIn(head, n);
      NodesAreBindings(head, log, n);
      if head0 == [] { EmptyTable(head0); } else { NodesAreBindings(head0, log0, n); }
    }
    if head != [] { TableIsPlaced(head, log); }
  }

  /** If a long link was cleared, every short link to its object was. */
  lemma LongImpliesShort(short: map<nat, nat>, long: map<nat, nat>, m: set<nat>, m': set<nat>, l: nat, s: nat)
    requires m <= m' && l in Unlinked(long, m') && s in short && short[s] == long[l]
    ensures s in Unlinked(short, m)
  {
  }

  /** What is enqueued is exactly what may be finalized, except objects whose own mark procedure overflowed
      the mark stack. */
  lemma ExactNews(h: Graph, head0: seq<seq<Node<Fin>>>, m0: set<nat>, m1: set<nat>, full: set<nat>, java: bool,
                  head: seq<seq<Node<Fin>>>, m: set<nat>, news: seq<Node<Fin>>)
    requires AllFollow(head0) && m0 <= m1 && Closed(h, m1) && full <= m1 && NoMoreThan(h, head0, m0, m1, full)
    requires forall n :: InTable(head0, n) ==> Covered(h, m1, n)
    requires Enqueued(java, head0, m1, head, m, news) && forall n :: InTable(head, n) ==> n.key in m
    ensures forall k :: k in Keys(news) <==> Finalizable(h, head0, m0, k) && k !in full
  {
    hide InTable, Finalizable, Closed, NoMoreThan, Enqueued, AllFollow, Covered, Keys;
    forall k: nat
      ensures k in Keys(news) <==> Finalizable(h, head0, m0, k) && k !in full
    {
      EnqueuedExactly(java, head0, m1, head, m, news, k);
      ExactlyFinalizable(h, head0, m0, m1, full, k);
    }
  }

  /** The marks after ordinary finalization are closed. */
  lemma OrderedClosed(h: Graph, head0: seq<seq<Node<Fin>>>, m1: set<nat>, head: seq<seq<Node<Fin>>>, m: set<nat>,
                      news: seq<Node<Fin>>)
    requires Enqueued(false, head0, m1, head, m, news) && AllOrdered(head0) && Closed(h, m1)
    requires forall n :: InTable(head0, n) ==> Covered(h, m1, n)
    ensures Closed(h, m)
  {
    hide InTable, Nodes, Closed, Covered;
    NewsFromTable(false, head0, m1, head, m, news);
    MarkNews(h, m1, news);
  }

  /** Conservation through enqueueing and revival. */
  lemma Conserved(java: bool, head0: seq<seq<Node<Fin>>>, m0: set<nat>, m1: set<nat>, head1: seq<seq<Node<Fin>>>, m2: set<nat>,
                  news: seq<Node<Fin>>, q0: seq<Node<Fin>>, q1: seq<Node<Fin>>,
                  head: seq<seq<Node<Fin>>>, q: seq<Node<Fin>>, revived: seq<Node<Fin>>, m: set<nat>)
    requires Enqueued(java, head0, m1, head1, m2, news) && q1 == news + q0 && m0 <= m1 <= m2
    requires RevivedFrom(head1, q1, head, q, revived, m) && (!java ==> q == q1)
    requires java ==> forall n :: n in q && n.value.proc.WhenUnreachable? ==> n.key !in m2
    ensures Moved(java, head0, m0, q0, head, q, news, revived, m)
  {
    hide Nodes, Keys;
    QueueOf(news, q0);
    assert Nodes(head) + multiset(q) == Nodes(head1) + (multiset(q) + multiset(revived));
  }

  lemma UnlinkedIs(base: nat -> Option<nat>, m: set<nat>, b: map<nat, nat>)
    ensures b.Keys - Kept(base, m, false, b).Keys == Unlinked(b, m)
  {
  }

  /** What both passes over a table of links keep. */
  lemma TwiceKept(base: nat -> Option<nat>, m: set<nat>, m': set<nat>, b: map<nat, nat>)
    ensures forall k :: k in Kept(base, m', true, Kept(base, m, false, b)) <==>
              k in b && b[k] in m && (base(k).None? || base(k).value in m')
  {
  }

  lemma ClearedOk(h: Graph, gone: set<nat>)
    requires GraphOk(h)
    ensures GraphOk(h.(mem := h.mem - gone))
  {
  }

  lemma {:induction false} ChainInNodes<V>(head: seq<seq<Node<V>>>, i: nat)
    requires i < |head|
    ensures multiset(head[i]) <= Nodes(head)
  {
    if i < |head| - 1 { ChainInNodes(head[..|head| - 1], i); }
  }

  lemma TwiceInChain<V>(s: seq<Node<V>>, j: nat, k: nat)
    requires j < k < |s| && s[j] == s[k]
    ensures multiset(s)[s[j]] >= 2
  {
    assert s == s[..k] + ([s[k]] + s[k + 1..]);
    assert s[..k][j] == s[j];
    assert s[j] in multiset(s[..k]);
  }

  /** A table whose nodes are all in the right chain and have different keys is intact. */
  lemma UniqueMeansIntact(head: seq<seq<Node<Fin>>>, log: nat)
    requires Placed(head, log) && head != [] && UniqueKeys(Nodes(head))
    ensures TableOk(head, log)
  {
    hide Hash, Nodes;
    forall i: nat | i < |head|
      ensures BucketOk(head[i], log, i)
    {
      ChainInNodes(head, i);
      forall j: nat, k: nat | j < k < |head[i]|
        ensures head[i][j].key != head[i][k].key
      {
        assert head[i][j] in multiset(head[i]) && head[i][k] in multiset(head[i]);
        if head[i][j] == head[i][k] { TwiceInChain(head[i], j, k); }
      }
    }
  }

  lemma ChainEmptied(head: seq<seq<Node<Fin>>>, log: nat, i: nat)
    requires Placed(head, log) && i < |head|
    ensures Placed(head[i := []], log) && forall n :: n in head[i] ==> InTable(head, n)
  {
    hide Hash;
  }

  lemma StartEmptying<V>(head: seq<seq<Node<V>>>)
    ensures Nodes(head[..0]) == multiset{}
  {
  }

  lemma NodesMore<V>(head: seq<seq<Node<V>>>, i: nat)
    requires i < |head|
    ensures Nodes(head[..i + 1]) == Nodes(head[..i]) + multiset(head[i])
  {
    assert head[..i + 1][..i] == head[..i];
  }

  lemma {:induction false} EmptyNodes<V>(head: seq<seq<Node<V>>>)
    requires forall k :: 0 <= k < |head| ==> head[k] == []
    ensures Nodes(head) == multiset{} && Count(head) == 0
  {
    if head != [] { EmptyNodes(head[..|head| - 1]); }
  }
}
