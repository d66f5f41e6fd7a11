/** GC_finalize: weak links disappear, unreachable objects with finalizers are enqueued. */
module Finalization {
  import opened Basics
  import opened ChainSpec
  import opened ChainSteps
  import opened ChainTable
  import opened FinalizeSpec
  import opened FinalizeSteps

  class Finalizers {
    const slots: map<nat, set<nat>>      // the objects of the client and the addresses of their fields
    const base: nat -> Option<nat>       // GC_base
    const java: bool                     // GC_java_finalization
    const fos: Table<Fin>                // GC_fnlz_roots.fo_head, GC_log_fo_table_size, GC_fo_entries
    const short: Table<nat>              // GC_dl_hashtbl
    const long: Table<nat>               // GC_ll_hashtbl
    var mem: map<nat, nat>               // which object the word at an address points to
    var marked: set<nat>
    var queue: seq<Node<Fin>>            // GC_fnlz_roots.finalize_now
    var needUnreachable: bool            // need_unreachable_finalization
    const initialStack: nat              // INITIAL_MARK_STACK_SIZE
    var capacity: nat                    // GC_mark_stack_size
    ghost var overflowed: set<nat>       // objects whose own mark procedure overflowed the mark stack

    ghost predicate Shape()
      reads this
    {
      short != long && (fos as object) != short && (fos as object) != long
    }

    function G(): Graph
      reads this
    {
      Graph(slots, mem)
    }

    ghost predicate MarksIn()
      reads this
    {
      GraphOk(G()) && marked <= slots.Keys && 8 <= initialStack <= capacity
    }

    ghost predicate MarksOk()
      reads this
    {
      MarksIn() && Closed(G(), marked)
    }

    constructor (slots: map<nat, set<nat>>, base: nat -> Option<nat>, java: bool, initialStack: nat)
      requires 8 <= initialStack
      ensures this.initialStack == capacity == initialStack && mem == map[] && marked == {} && !needUnreachable
      ensures this.slots == slots && this.base == base && this.java == java && Shape() && MarksOk()
      ensures fos.Valid() && short.Valid() && long.Valid() && fresh(fos) && fresh(short) && fresh(long)
      ensures fos.Bindings() == map[] && short.Bindings() == map[] && long.Bindings() == map[] && queue == []
    {
      this.slots, this.base, this.java, this.initialStack, capacity := slots, base, java, initialStack, initialStack;
      var f := new Table<Fin>();
      var s := new Table<nat>();
      var l := new Table<nat>();
      fos, short, long := f, s, l;
      mem, marked, queue, needUnreachable, overflowed := map[], {}, [], false, {};
    }

    /** GC_mark_some, after an overflow, until it returns TRUE: a scan of the heap marks everything that
        marked objects reach. */
    method Rescan(k: nat)
      requires MarksIn() && k in slots
      modifies this`marked, this`capacity
      ensures MarksOk() && old(capacity) <= capacity
      ensures MarksFrom(G(), {}, old(marked) + {k}, marked)
      ensures capacity == old(capacity) || capacity == 2 * old(capacity)
    {
      hide Targets, Marking, MarksFrom, Closed, GraphOk;
      var done: set<nat>, todo := {}, marked + {k};
      ghost var h := G();
      StartMarking(h, {}, todo) by { NothingClosed(h); }
      while todo != {}
        invariant Marking(h, {}, old(marked) + {k}, done, todo) && marked == old(marked) && capacity == old(capacity)
        decreases |slots.Keys - done|, |todo|
      {
        var o :| o in todo;
        if o !in done {
          NothingClosed(h);
          MarkOneMore(h, {}, old(marked) + {k}, done, todo, o);
          done := done + {o};
          todo := todo - {o} + Targets(G(), o);
        } else {
          MarkNothing(h, {}, old(marked) + {k}, done, todo, o);
          todo := todo - {o};
        }
      }
      EndMarking(h, {}, old(marked) + {k}, done);
      marked := done;
      if * { capacity := 2 * capacity; }    // alloc_mark_stack, which may fail
    }

    /** PUSH_CONTENTS for one field: an unmarked object is marked, and pushed if it has fields itself.  A
        push onto a full stack discards part of it. */
    method PushField(ghost m0: set<nat>, ghost k: nat, ghost due: set<nat>, a: nat, ghost rest: set<nat>, stack0: seq<Pending>, full0: bool)
      returns (stack: seq<Pending>, full: bool)
      requires MarksIn() && Exploring(G(), m0, k, due, marked, stack0, rest, full0) && |stack0| <= capacity && a in rest
      modifies this`marked
      ensures MarksIn() && Exploring(G(), m0, k, due, marked, stack, rest - {a}, full) && |stack| <= capacity
      ensures marked == old(marked) + if a in mem then {mem[a]} else {}
      ensures marked == old(marked) ==> stack == stack0 && full == full0
      ensures (full0 ==> full) && (full ==> full0 || capacity <= |Fresh(G(), m0, k)|)
      ensures !full ==> |stack| == |stack0| + if a in mem && mem[a] !in old(marked) && mem[a] in slots && slots[mem[a]] != {} then 1 else 0
      ensures a in mem ==> mem[a] in slots
      ensures |stack0| == capacity && a in mem && mem[a] !in old(marked) && slots[mem[a]] != {} ==>
                full && |stack| == capacity - initialStack / 8 + 1
    {
      hide GraphOk, Exploring, Fresh;
      ghost var h := G();
      stack, full := stack0, full0;
      if a in mem { FieldTarget(h, a); }
      if a in mem && mem[a] !in marked {
        var t := mem[a];
        HandIsOwed(h, stack, rest, a);
        FullMeansMany(h, m0, k, due, marked, stack, rest, full, t);
        if slots[t] != {} && |stack| == capacity {
          full := true;
          stack := stack[..capacity - initialStack / 8];
        }
        FieldMarked(h, m0, k, due, marked, stack0, rest, full0, a, stack, full);
        marked := marked + {t};
        if slots[t] != {} { stack := stack + [Pending(t, slots[t])]; }
        MarksInside(h, m0, k, due, marked, stack, rest - {a}, full);
      } else {
        FieldDone(h, m0, k, due, marked, stack, rest, full, a);
      }
    }

    /** The same for some fields of an object. */
    method PushFields(ghost m0: set<nat>, ghost k: nat, ghost due: set<nat>, fields: set<nat>, stack0: seq<Pending>, full0: bool)
      returns (stack: seq<Pending>, full: bool)
      requires MarksIn() && Exploring(G(), m0, k, due, marked, stack0, fields, full0) && |stack0| <= capacity
      modifies this`marked
      ensures MarksIn() && Exploring(G(), m0, k, due, marked, stack, {}, full) && |stack| <= capacity
      ensures marked == old(marked) + Named(G(), fields)
      ensures marked == old(marked) ==> stack == stack0 && full == full0
      ensures (full0 ==> full) && (full ==> full0 || capacity <= |Fresh(G(), m0, k)|)
      ensures !full ==> |stack| == |stack0| + |Unscanned(G(), old(marked), Named(G(), fields))|
    {
      hide GraphOk, Exploring, Fresh, Named, Unscanned;
      stack, full := stack0, full0;
      var rest := fields;
      ghost var h, m, done: set<nat> := G(), marked, {};
      NothingNamed(h);
      NothingUnscanned(h, m);
      while rest != {}
        invariant rest + done == fields && MarksIn() && |stack| <= capacity
        invariant Exploring(h, m0, k, due, marked, stack, rest, full)
        invariant marked == m + Named(h, done)
        invariant marked == m ==> stack == stack0 && full == full0
        invariant (full0 ==> full) && (full ==> full0 || capacity <= |Fresh(h, m0, k)|)
        invariant !full ==> |stack| == |stack0| + |Unscanned(h, m, Named(h, done))|
      {
        var a :| a in rest;
        ghost var before := marked;
        stack, full := PushField(m0, k, due, a, rest, stack, full);
        FieldCounted(h, m, done, a, before, marked);
        MoveOne(fields, rest, done, a);
        rest, done := rest - {a}, done + {a};
      }
    }

    /** GC_MARK_FO.  When the mark stack overflows the object itself is marked too, and all that it
        points to with it. */
    method MarkFo(n: Node<Fin>, proc: Proc)
      requires MarksIn() && n.key in slots
      modifies this`marked, this`overflowed, this`capacity
      ensures MarksIn() && old(marked) <= marked && Pushes(G(), n.key, proc) <= marked && old(capacity) <= capacity
      ensures NewlyClosed(G(), old(marked), marked)
      ensures old(MarksOk()) ==> MarksOk()
      ensures MarkedFrom(G(), old(marked) + {n.key}, marked)
      ensures proc.NoMark? ==> marked == old(marked) && overflowed == old(overflowed) && capacity == old(capacity)
      ensures old(MarksOk()) ==> forall o :: o in marked ==>
                o in old(marked) || LedFrom(G(), Pushes(G(), n.key, proc), o) || (o == n.key && o in overflowed)
      ensures overflowed == old(overflowed) ||
              (overflowed == old(overflowed) + {n.key} && n.key in marked && old(capacity) <= |Fresh(G(), old(marked), n.key)|)
      ensures (proc.NormalMark? || proc.WhenUnreachable?) && Crowded(G(), old(marked), n.key, old(capacity)) ==> n.key in overflowed
    {
      hide GraphOk, Closed, Exploring, Fresh, NewlyClosed, MarksFrom, MarkedFrom, Named, LedFrom;
      ghost var h, m0, due := G(), marked, Pushes(G(), n.key, proc);
      var stack, full := [], false;
      match proc {
        case NoMark =>
          NothingNew(h, marked);
          MarkedByKey(h, marked, n.key, {}, marked);
          return;
        case IgnoreSelf =>
          var fields := set a | a in slots[n.key] && !(a in mem && mem[a] == n.key);
          StartIgnoringSelf(h, marked, n.key, fields);
          stack, full := PushFields(m0, n.key, due, fields, stack, full);
        case _ =>
          StartExploring(h, marked, n.key);
          if Crowded(h, marked, n.key, capacity) { CrowdedHasFields(h, marked, n.key, capacity); }
          if slots[n.key] != {} { stack := [Pending(n.key, slots[n.key])]; }
      }
      full := Drain(m0, n.key, due, stack, full);
      if full {
        overflowed := overflowed + {n.key};
        ghost var m := marked;
        MarkedWithin(h, m0, n.key, due, m, [], {}, true);
        MarksInside(h, m0, n.key, due, m, [], {}, true);
        Rescan(n.key);
        AfterOverflow(h, m0, n.key, due, m, [], {}, marked);
        MarkedAfter(h, m0, n.key, due, m, marked);
      } else {
        EndExploring(h, m0, n.key, due, marked);
        ReachedFrom(h, m0, n.key, due, marked);
        MarkedWithin(h, m0, n.key, due, marked, [], {}, false);
        MarkedByKey(h, m0, n.key, due, marked);
      }
    }

    /** GC_mark_from until the stack is empty. */
    method Drain(ghost m0: set<nat>, ghost k: nat, ghost due: set<nat>, stack0: seq<Pending>, full0: bool) returns (full: bool)
      requires MarksIn() && Exploring(G(), m0, k, due, marked, stack0, {}, full0) && |stack0| <= capacity
      requires full0 ==> capacity <= |Fresh(G(), m0, k)|
      modifies this`marked
      ensures MarksIn() && Exploring(G(), m0, k, due, marked, [], {}, full)
      ensures full ==> capacity <= |Fresh(G(), m0, k)|
      ensures k in slots && stack0 == [Pending(k, slots[k])] && Crowded(G(), old(marked), k, capacity) ==> full
    {
      hide GraphOk, Exploring, Fresh, Crowded, FieldsLeft;
      var stack := stack0;
      full := full0;
      ghost var first := true;
      while stack != []
        invariant MarksIn() && Exploring(G(), m0, k, due, marked, stack, {}, full) && |stack| <= capacity
        invariant full ==> capacity <= |Fresh(G(), m0, k)|
        invariant first ==> marked == old(marked) && stack == stack0
        invariant !first && k in slots && stack0 == [Pending(k, slots[k])] && Crowded(G(), old(marked), k, capacity) ==> full
        decreases |slots.Keys - marked|, FieldsLeft(stack)
      {
        stack, full := DrainTop(m0, k, due, stack, full);
        first := false;
      }
    }

    /** One turn of it: at most RANGE_FIELDS fields are taken off the top entry. */
    method DrainTop(ghost m0: set<nat>, ghost k: nat, ghost due: set<nat>, stack0: seq<Pending>, full0: bool)
      returns (stack: seq<Pending>, full: bool)
      requires MarksIn() && Exploring(G(), m0, k, due, marked, stack0, {}, full0) && |stack0| <= capacity && stack0 != []
      requires full0 ==> capacity <= |Fresh(G(), m0, k)|
      modifies this`marked
      ensures MarksIn() && Exploring(G(), m0, k, due, marked, stack, {}, full) && |stack| <= capacity
      ensures (full0 ==> full) && (full ==> capacity <= |Fresh(G(), m0, k)|)
      ensures |slots.Keys - marked| < |slots.Keys - old(marked)| || (marked == old(marked) && FieldsLeft(stack) < FieldsLeft(stack0))
      ensures k in slots && stack0 == [Pending(k, slots[k])] && Crowded(G(), old(marked), k, capacity) ==> full
    {
      hide GraphOk, Exploring, Fresh, Crowded, FieldsLeft, Named, Unscanned, LeftOver;
      var e, below := stack0[|stack0| - 1], stack0[..|stack0| - 1];
      assert stack0 == below + [e];
      var part := TakePart(e.left);
      TakeFields(G(), m0, k, due, marked, below, e, part, full0);
      FewerFields(below, e, part);
      stack, full := PushFields(m0, k, due, part, LeftOver(below, e, part), full0);
      MoreMarked(slots.Keys, old(marked), marked);
      CrowdedFills(G(), old(marked), k, capacity, stack0, below, e, part, stack, full);
    }

    /** What is taken off an entry at once. */
    method TakePart(left: set<nat>) returns (part: set<nat>)
      ensures part <= left && (part == left || part != {}) && (|left| <= RANGE_FIELDS ==> part == left)
      ensures |left| > RANGE_FIELDS ==> |part| == RANGE_FIELDS
    {
      part := left;
      if |left| > RANGE_FIELDS {
        HasPart(left, RANGE_FIELDS);
        part :| part <= left && |part| == RANGE_FIELDS;
      }
    }

    /** What marking from the finalizable objects has achieved since marks m0 and stack size cap. */
    ghost predicate Served(m0: set<nat>, cap: nat)
      reads this, fos
    {
      && m0 <= marked && overflowed <= marked && cap <= capacity
      && LedOnly(G(), fos.head, m0, marked, overflowed)
      && Overfull(G(), m0, cap, overflowed) && FullFrom(fos.head, overflowed)
    }

    /** GC_finalize marks from the objects of chain i. */
    method ServeChain(i: nat, ghost m0: set<nat>, ghost cap: nat)
      requires MarksOk() && i < |fos.head| && Served(m0, cap)
      requires forall n :: InTable(fos.head, n) ==> n.key in slots
      modifies this`marked, this`overflowed, this`capacity
      ensures MarksOk() && old(marked) <= marked && old(overflowed) <= overflowed && Served(m0, cap)
      ensures forall n :: n in fos.head[i] ==> Covered(G(), marked, n)
      ensures fos.head[i] == [] ==> marked == old(marked) && overflowed == old(overflowed) && capacity == old(capacity)
      ensures fos.head[i] != [] && Sure(G(), old(marked), old(capacity), fos.head[i][0]) ==> fos.head[i][0].key in overflowed
    {
      hide Closed, GraphOk, Covered, LedOnly, FullFrom, Overfull, Crowded, LedFrom, Pushes, InTable;
      var j := 0;
      while j < |fos.head[i]|
        invariant MarksOk() && old(marked) <= marked && old(overflowed) <= overflowed && j <= |fos.head[i]|
        invariant forall l :: 0 <= l < j ==> Covered(G(), marked, fos.head[i][l])
        invariant Served(m0, cap)
        invariant j == 0 ==> marked == old(marked) && overflowed == old(overflowed) && capacity == old(capacity)
        invariant j > 0 && Sure(G(), old(marked), old(capacity), fos.head[i][0]) ==> fos.head[i][0].key in overflowed
      {
        var n := fos.head[i][j];
        ghost var m, f, c := marked, overflowed, capacity;
        NodeInTable(fos.head, i, j);
        if n.key !in marked {
          MarkFo(n, n.value.proc);
          PushesAreCovered(G(), marked, n);
          ServedMore(G(), fos.head, m0, cap, m, f, c, n, marked, overflowed);
          CoveredMore(G(), m, marked);
        } else {
          MarkedIsCovered(G(), marked, n);
        }
        j := j + 1;
      }
    }

    /** .. and of the whole table. */
    method ServeAll()
      requires MarksOk() && overflowed == {}
      requires forall n :: InTable(fos.head, n) ==> n.key in slots
      modifies this`marked, this`overflowed, this`capacity
      ensures MarksOk() && Served(old(marked), old(capacity))
      ensures forall n :: InTable(fos.head, n) ==> Covered(G(), marked, n)
      ensures forall n :: FirstNode(fos.head, n) && Sure(G(), old(marked), old(capacity), n) ==> n.key in overflowed
    {
      hide Closed, GraphOk, Covered, CoveredUpTo, Sure, SureUpTo, EmptyUpTo, FirstNode, InTable, LedOnly, FullFrom, Overfull;
      var i := 0;
      NothingServed(G(), fos.head, marked, capacity);
      StartServing(G(), fos.head, marked, capacity);
      while i < |fos.head|
        invariant MarksOk() && i <= |fos.head| && Served(old(marked), old(capacity))
        invariant CoveredUpTo(G(), fos.head, i, marked) && SureUpTo(G(), fos.head, old(marked), old(capacity), i, overflowed)
        invariant EmptyUpTo(fos.head, i) ==> marked == old(marked) && overflowed == {} && capacity == old(capacity)
      {
        ghost var m, f := marked, overflowed;
        ServeChain(i, old(marked), old(capacity));
        ChainServed(G(), fos.head, old(marked), old(capacity), i, m, f, marked, overflowed);
        i := i + 1;
      }
      AllServed(G(), fos.head, old(marked), old(capacity), marked, overflowed);
    }

    /** The table of finalizers is intact. */
    ghost predicate FosOk()
      reads this, fos
    {
      Placed(fos.head, fos.logSize) && fos.entries == Count(fos.head)
    }

    /** GC_finalize enqueues what is not marked in chain i. */
    method EnqueueChain(i: nat, ghost head0: seq<seq<Node<Fin>>>, ghost m0: set<nat>, ghost news0: seq<Node<Fin>>,
                        ghost rest: seq<Node<Fin>>) returns (ghost news: seq<Node<Fin>>)
      requires FosOk() && i < |fos.head| && Enqueued(java, head0, m0, fos.head, marked, news0) && queue == news0 + rest
      modifies this`marked, this`queue, fos
      ensures FosOk() && fos.logSize == old(fos.logSize)
      ensures Enqueued(java, head0, m0, fos.head, marked, news) && queue == news + rest
      ensures |fos.head| == |old(fos.head)| && forall k :: 0 <= k < |fos.head| && k != i ==> fos.head[k] == old(fos.head[k])
      ensures forall n :: n in fos.head[i] ==> n.key in marked
      ensures old(marked) <= marked
    {
      hide Enqueued, Placed, Nodes, Count, Hash, Keys;
      news := news0;
      var j := 0;
      while j < |fos.head[i]|
        invariant FosOk() && fos.logSize == old(fos.logSize) && queue == news + rest
        invariant Enqueued(java, head0, m0, fos.head, marked, news)
        invariant |fos.head| == |old(fos.head)| && j <= |fos.head[i]|
        invariant forall k :: 0 <= k < |fos.head| && k != i ==> fos.head[k] == old(fos.head[k])
        invariant forall l :: 0 <= l < j ==> fos.head[i][l].key in marked
        invariant old(marked) <= marked
        decreases |fos.head[i]| - j
      {
        var n := fos.head[i][j];
        if n.key !in marked {
          EnqueueOne(java, head0, m0, fos.head, marked, news, fos.logSize, i, j);
          if !java { marked := marked + {n.key}; }
          fos.head := fos.head[i := fos.head[i][..j] + fos.head[i][j + 1..]];
          fos.entries := fos.entries - 1;
          queue := [n] + queue;
          news := [n] + news;
        } else {
          j := j + 1;
        }
      }
    }

    /** .. and in the whole table. */
    method EnqueueAll() returns (ghost news: seq<Node<Fin>>)
      requires FosOk()
      modifies this`marked, this`queue, fos
      ensures FosOk() && fos.logSize == old(fos.logSize) && |fos.head| == |old(fos.head)| && (fos.head == [] ==> news == [])
      ensures Enqueued(java, old(fos.head), old(marked), fos.head, marked, news) && queue == news + old(queue)
      ensures forall n :: InTable(fos.head, n) ==> n.key in marked
    {
      hide Enqueued, Placed, Nodes, Count, Hash, Keys;
      news := [];
      NothingEnqueued(java, fos.head, marked);
      var i := 0;
      while i < |fos.head|
        invariant FosOk() && fos.logSize == old(fos.logSize) && queue == news + old(queue) && |fos.head| == |old(fos.head)|
        invariant Enqueued(java, old(fos.head), old(marked), fos.head, marked, news)
        invariant i == 0 ==> news == []
        invariant i <= |fos.head| && forall k, n :: 0 <= k < i && n in fos.head[k] ==> n.key in marked
      {
        news := EnqueueChain(i, old(fos.head), old(marked), news, old(queue));
        i := i + 1;
      }
    }

    /** In Java mode GC_finalize marks what is enqueued, except objects that are to be finalized only
        when nothing that is finalized reaches them. */
    method MarkQueue(ghost head0: seq<seq<Node<Fin>>>, ghost m0: set<nat>, ghost full: set<nat>)
      requires MarksOk() && forall n :: n in queue ==> n.key in slots && (n.key in marked || Covered(G(), marked, n))
      requires NoMoreThan(G(), head0, m0, marked, full)
      requires forall n :: n in queue && n.key !in marked ==> InTable(head0, n) && n.key !in m0
      modifies this`marked, this`overflowed, this`capacity
      ensures MarksOk() && old(marked) <= marked && old(capacity) <= capacity
      ensures Ready(G(), marked, queue)
      ensures NoMoreThan(G(), head0, m0, marked, full + Staying(queue))
    {
      hide Covered, Closed, GraphOk, Reaches, LedFrom, Pushes, NoMoreThan, Staying, InTable;
      ExplainedBy(G(), head0, m0, marked, full, marked, full + Staying(queue));
      var i := 0;
      while i < |queue|
        invariant MarksOk() && old(marked) <= marked && i <= |queue| && old(capacity) <= capacity
        invariant forall n :: n in queue ==> n.key in marked || Covered(G(), marked, n)
        invariant forall l :: 0 <= l < i ==> queue[l].key in marked || queue[l].value.proc.WhenUnreachable?
        invariant NoMoreThan(G(), head0, m0, marked, full + Staying(queue))
      {
        var n := queue[i];
        ghost var m := marked;
        if !n.value.proc.WhenUnreachable? { StayingAre(queue, n); }
        if n.key !in marked {
          if n.value.proc.NoMark? {
            MarkFo(n, NormalMark);
            PushedIsReached(G(), n.key, m, marked, overflowed);
            MarkAsNormal(G(), marked, n);
          } else {
            MarkCovered(G(), marked, n);
          }
          if !n.value.proc.WhenUnreachable? {
            marked := marked + {n.key};
            ExplainedMore(G(), head0, m0, m, full + Staying(queue), n, marked);
          }
        }
        CoveredMore(G(), m, marked);
        i := i + 1;
      }
    }

    /** Then it revives the finalize-when-unreachable objects that are marked after all: they go back
        into the table. */
    method Revive(ghost head0: seq<seq<Node<Fin>>>, ghost m0: set<nat>, ghost own: set<nat>) returns (ghost revived: seq<Node<Fin>>)
      requires NoMoreThan(G(), head0, m0, marked, own)
      requires MarksOk() && FosOk() && (queue != [] ==> fos.head != []) && Ready(G(), marked, queue)
      requires forall n :: n in queue ==> n.key in slots
      modifies this`marked, this`queue, fos
      ensures MarksOk() && FosOk() && old(marked) <= marked
      ensures fos.logSize == old(fos.logSize) && |fos.head| == |old(fos.head)|
      ensures RevivedFrom(old(fos.head), old(queue), fos.head, queue, revived, marked)
      ensures forall n :: n in queue ==>
                n in old(queue) && n.key in marked && (n.value.proc.WhenUnreachable? ==> n.key !in old(marked))
      ensures NoMoreThan(G(), head0, m0, marked, own + Keys(queue))
    {
      hide Closed, GraphOk, Nodes, Hash, Count, Placed, Ready, RevivedFrom, Passed, NoMoreThan, Keys;
      ExplainedBy(G(), head0, m0, marked, own, marked, own + Keys([]));
      revived := [];
      var i := 0;
      StartRevive(G(), fos.head, queue, marked);
      while i < |queue|
        invariant MarksOk() && FosOk() && old(marked) <= marked && i <= |queue|
        invariant fos.logSize == old(fos.logSize) && |fos.head| == |old(fos.head)|
        invariant Ready(G(), marked, queue) && Passed(queue, i, old(marked), marked)
        invariant queue != [] ==> fos.head != []
        invariant RevivedFrom(old(fos.head), old(queue), fos.head, queue, revived, marked)
        invariant forall n :: n in queue ==> n.key in slots
        invariant NoMoreThan(G(), head0, m0, marked, own + Keys(queue[..i]))
        decreases |queue| - i
      {
        var n := queue[i];
        if n.value.proc.WhenUnreachable? && n.key in marked {
          ReviveOne(G(), old(fos.head), old(queue), fos.head, queue, revived, fos.logSize, i, old(marked), marked);
          assert (queue[..i] + queue[i + 1..])[..i] == queue[..i];
          queue := queue[..i] + queue[i + 1..];
          var h := Hash(n.key, fos.logSize);
          fos.head := fos.head[h := [n] + fos.head[h]];
          fos.entries := fos.entries + 1;
          revived := [n] + revived;
        } else {
          StayInQueue(G(), old(fos.head), old(queue), fos.head, queue, revived, i, old(marked), marked);
          KeysNext(queue, i);
          ghost var m := marked;
          if n.value.proc.WhenUnreachable? { marked := marked + {n.key}; }
          ExplainedBy(G(), head0, m0, m, own + Keys(queue[..i]), marked, own + Keys(queue[..i + 1]));
          i := i + 1;
        }
      }
      assert queue[..i] == queue;
      EndRevive(old(fos.head), old(queue), fos.head, queue, revived, old(marked), marked);
    }

    /** GC_make_disappearing_links_disappear for chain i; `gone` are the links removed so far. */
    method DisappearChain(t: Table<nat>, i: nat, dangling: bool, ghost b0: map<nat, nat>, ghost mem0: map<nat, nat>,
                          ghost gone0: set<nat>) returns (ghost gone: set<nat>)
      requires t.Valid() && i < |t.head| && (t as object) != this
      requires t.Bindings() == b0 - gone0 && gone0 <= b0.Keys && forall k :: k in gone0 ==> !Keeps(base, marked, dangling, k, b0[k])
      requires mem == if dangling then mem0 else mem0 - gone0
      modifies this`mem, t
      ensures t.Valid() && t.logSize == old(t.logSize) && |t.head| == |old(t.head)|
      ensures forall k :: 0 <= k < |t.head| && k != i ==> t.head[k] == old(t.head[k])
      ensures t.Bindings() == b0 - gone && gone <= b0.Keys && forall k :: k in gone ==> !Keeps(base, marked, dangling, k, b0[k])
      ensures mem == if dangling then mem0 else mem0 - gone
      ensures forall j :: 0 <= j < |t.head[i]| ==> Keeps(base, marked, dangling, t.head[i][j].key, t.head[i][j].value)
    {
      hide View, BucketView, TableOk, Count, Hash, Keeps;
      gone := gone0;
      var j := 0;
      while j < |t.head[i]|
        invariant t.Valid() && t.logSize == old(t.logSize) && |t.head| == |old(t.head)| && j <= |t.head[i]|
        invariant forall k :: 0 <= k < |t.head| && k != i ==> t.head[k] == old(t.head[k])
        invariant t.Bindings() == b0 - gone && gone <= b0.Keys && forall k :: k in gone ==> !Keeps(base, marked, dangling, k, b0[k])
        invariant mem == if dangling then mem0 else mem0 - gone
        invariant forall l :: 0 <= l < j ==> Keeps(base, marked, dangling, t.head[i][l].key, t.head[i][l].value)
        decreases |t.head[i]| - j
      {
        var n := t.head[i][j];
        FoundValue(t.head, t.logSize, i, j);
        if Keeps(base, marked, dangling, n.key, n.value) {
          j := j + 1;
        } else {
          if !dangling { mem := mem - {n.key}; }
          t.DeleteAt(i, j);
          gone := gone + {n.key};
        }
      }
    }

    /** GC_make_disappearing_links_disappear: links to unmarked objects are cleared, or, if `dangling`,
        links that are themselves inside unmarked objects are forgotten. */
    method MakeDisappear(t: Table<nat>, dangling: bool)
      requires t.Valid() && (t as object) != this
      modifies this`mem, t
      ensures t.Valid()
      ensures t.Bindings() == Kept(base, marked, dangling, old(t.Bindings()))
      ensures mem == if dangling then old(mem) else old(mem) - (old(t.Bindings()).Keys - t.Bindings().Keys)
    {
      hide View, BucketView, TableOk, Count, Hash, Keeps, Kept;
      ghost var gone := {};
      ghost var b0 := t.Bindings();
      var i := 0;
      while i < |t.head|
        invariant t.Valid() && t.logSize == old(t.logSize) && |t.head| == |old(t.head)| && i <= |t.head|
        invariant t.Bindings() == b0 - gone && gone <= b0.Keys && forall k :: k in gone ==> !Keeps(base, marked, dangling, k, b0[k])
        invariant mem == if dangling then old(mem) else old(mem) - gone
        invariant forall k, j :: 0 <= k < i && 0 <= j < |t.head[k]| ==> Keeps(base, marked, dangling, t.head[k][j].key, t.head[k][j].value)
      {
        gone := DisappearChain(t, i, dangling, b0, old(mem), gone);
        i := i + 1;
      }
      AllStay(t.head, t.logSize, base, marked, dangling);
      forall k | k in b0 && k !in gone ensures Keeps(base, marked, dangling, k, b0[k]) { assert k in t.Bindings(); }
      KeptIs(base, marked, dangling, b0, gone);
    }

    /** Between collections: the tables are intact, registered objects are objects, what is enqueued
        is marked, since the queue is a root. */
    ghost predicate Consistent()
      reads this, fos, short, long
    {
      && Shape() && MarksOk() && FosOk() && short.Valid() && long.Valid()
      && (forall n :: InTable(fos.head, n) ==> n.key in slots)
      && (forall n :: n in queue ==> n.key in slots && n.key in marked)
      && (queue != [] ==> fos.head != [])
      && (!needUnreachable ==> forall n :: n in queue || InTable(fos.head, n) ==> !n.value.proc.WhenUnreachable?)
    }

    /** What FinalizeObjects promises about marks, table and queue, begun with a mark stack of cap entries;
        `full` are the objects whose own mark procedure overflowed it. */
    ghost predicate Finalized(h: Graph, head0: seq<seq<Node<Fin>>>, m0: set<nat>, q0: seq<Node<Fin>>, cap: nat,
                              full: set<nat>, news: seq<Node<Fin>>, revived: seq<Node<Fin>>)
      reads this, fos
    {
      && m0 <= marked <= slots.Keys && 8 <= initialStack <= capacity
      && (java || AllOrdered(head0) ==> Closed(h, marked))
      && (forall n :: n in queue ==> n.key in marked)
      && Moved(java, head0, m0, q0, fos.head, queue, news, revived, marked)
      && RightNews(h, head0, m0, cap, full, news)
      && (!java ==> forall o :: o in marked <==> o in m0 || o in full || LedTo(h, head0, m0, o) || o in Keys(news))
      && NoMoreThan(h, head0, m0, marked, full + Keys(queue))
      && (java ==> Unreached(h, queue))
    }

    /** In Java mode everything on the queue ends up marked, with what it points to. */
    method FinishJava(ghost news: seq<Node<Fin>>, ghost head0: seq<seq<Node<Fin>>>, ghost m0: set<nat>, ghost full: set<nat>)
      returns (ghost revived: seq<Node<Fin>>)
      requires NoMoreThan(G(), head0, m0, marked, full)
      requires forall n :: n in queue && n.key !in marked ==> InTable(head0, n) && n.key !in m0
      requires MarksOk() && FosOk() && (queue != [] ==> fos.head != [])
      requires forall n :: n in queue ==> n.key in slots && (n.key in marked || Covered(G(), marked, n))
      requires !needUnreachable ==> forall n :: n in queue ==> !n.value.proc.WhenUnreachable?
      modifies this`marked, this`queue, this`overflowed, this`capacity, fos
      ensures MarksOk() && FosOk() && old(marked) <= marked
      ensures fos.logSize == old(fos.logSize) && |fos.head| == |old(fos.head)|
      ensures forall n :: n in queue ==> n in old(queue) && n.key in marked
      ensures forall n :: n in queue && n.value.proc.WhenUnreachable? ==> n.key !in old(marked)
      ensures RevivedFrom(old(fos.head), old(queue), fos.head, queue, revived, marked)
      ensures old(capacity) <= capacity
      ensures NoMoreThan(G(), head0, m0, marked, full + Keys(queue)) && Unreached(G(), queue)
    {
      hide Covered, Closed, GraphOk, Nodes, Hash, Count, Placed, Ready, RevivedFrom, NoMoreThan, InTable, Keys, Staying, Unreached;
      ghost var q0, head1 := queue, fos.head;
      MarkQueue(head0, m0, full);
      ghost var m2 := marked;
      revived := [];
      if needUnreachable {
        revived := Revive(head0, m0, full + Staying(queue));
        RevivedAre(head1, q0, fos.head, queue, revived, marked);
        ExplainedBy(G(), head0, m0, marked, full + Staying(q0) + Keys(queue), marked, full + Keys(queue));
      } else {
        StartRevive(G(), fos.head, queue, marked);
        RevivedAre(fos.head, queue, fos.head, queue, [], marked);
        ExplainedBy(G(), head0, m0, marked, full + Staying(queue), marked, full + Keys(queue));
        ReadyMeansMarked(G(), marked, queue);
        StartRevive(G(), fos.head, queue, marked);
      }
      ReadyCloses(G(), m2, q0, queue);
    }

    /** The part of GC_finalize that is about finalizers. */
    method FinalizeObjects() returns (ghost full: set<nat>, ghost news: seq<Node<Fin>>, ghost revived: seq<Node<Fin>>)
      requires Consistent()
      modifies this`marked, this`queue, this`overflowed, this`capacity, fos
      ensures FosOk() && Finalized(G(), old(fos.head), old(marked), old(queue), old(capacity), full, news, revived)
      ensures fos.logSize == old(fos.logSize) && |fos.head| == |old(fos.head)| && (queue != [] ==> fos.head != [])
    {
      hide Covered, Closed, GraphOk, Nodes, Hash, Count, Placed, Enqueued, NoMoreThan, Ready, RevivedFrom, InTable, AllOrdered, Keys,
        Overfull, FirstNode, Sure, RightNews, Moved, LedOnly, LedTo, FullFrom, Unreached;
      revived := [];
      overflowed := {};
      ghost var head0, m0, q0, h := fos.head, marked, queue, G();
      ServeAll();
      ghost var m1 := marked;
      full := overflowed;
      LedMeansReached(h, head0, m0, m1, full);
      news := EnqueueAll();
      NewsFromTable(java, head0, m1, fos.head, marked, news);
      QueueOf(news, q0);
      KeysInside(news, slots.Keys);
      RightNewsHold(h, head0, m0, m1, old(capacity), full, java, fos.head, marked, news);
      ghost var head1, m2, q1 := fos.head, marked, queue;
      if java {
        revived := FinishJava(news, head0, m0, full);
      } else {
        QueuedKeys(news, q0);
        ExplainedBy(h, head0, m0, m1, full, marked, full + Keys(queue));
        if AllOrdered(head0) { OrderedClosed(h, head0, m1, fos.head, marked, news); }
        StartRevive(h, fos.head, queue, marked);
      }
      Conserved(java, head0, m0, m1, head1, m2, news, q0, q1, fos.head, queue, revived, marked);
      MovedInside(java, head0, m0, q0, fos.head, queue, news, revived, marked);
    }

    /** A link at address k is in no object, or in a marked one. */
    predicate Holder(m: set<nat>, k: nat) { base(k).None? || base(k).value in m }

    /** GC_finalize.  h1 is the heap after the short links have disappeared, which is when marking from
        finalizable objects begins.  Toggle-references are not part of the model. */
    method Finalize() returns (ghost h1: Graph, ghost full: set<nat>, ghost news: seq<Node<Fin>>, ghost revived: seq<Node<Fin>>)
      requires Consistent()
      modifies this`mem, this`marked, this`queue, this`overflowed, this`capacity, fos, short, long
      ensures FosOk() && short.Valid() && long.Valid() && GraphOk(G())
      ensures h1 == Graph(slots, old(mem) - Unlinked(old(short.Bindings()), old(marked)))
      ensures mem == h1.mem - Unlinked(old(long.Bindings()), marked)
      ensures short.Bindings() == Kept(base, marked, true, Kept(base, old(marked), false, old(short.Bindings())))
      ensures long.Bindings() == Kept(base, marked, true, Kept(base, marked, false, old(long.Bindings())))
      ensures forall k :: k in short.Bindings() <==> k in old(short.Bindings()) && old(short.Bindings()[k] in marked) && Holder(marked, k)
      ensures forall k :: k in long.Bindings() <==> k in old(long.Bindings()) && old(long.Bindings())[k] in marked && Holder(marked, k)
      ensures Finalized(h1, old(fos.head), old(marked), old(queue), old(capacity), full, news, revived)
      ensures java || AllOrdered(old(fos.head)) ==> Consistent()
      ensures old(fos.Valid()) ==> (fos.Valid() <==> !java || UniqueKeys(Nodes(old(fos.head)) + Returning(old(queue))))
    {
      hide Closed, GraphOk, Nodes, Hash, Count, Placed, InTable, AllOrdered, View, TableOk, Kept, Unlinked, UniqueKeys, Moved, RightNews,
        Returning;
      ghost var s0, l0 := short.Bindings(), long.Bindings();
      MakeDisappear(short, false);
      UnlinkedIs(base, marked, s0);
      ClearedClosed(old(G()), marked, Unlinked(s0, marked));
      h1 := G();
      full, news, revived := FinalizeObjects();
      MakeDisappear(short, true);
      MakeDisappear(long, false);
      UnlinkedIs(base, marked, l0);
      MakeDisappear(long, true);
      TwiceKept(base, old(marked), marked, s0);
      TwiceKept(base, marked, marked, l0);
      ClearedOk(h1, Unlinked(l0, marked));
      if java || AllOrdered(old(fos.head)) { ClearedClosed(h1, marked, Unlinked(l0, marked)); }
      MovedInside(java, old(fos.head), old(marked), old(queue), fos.head, queue, news, revived, marked);
      if fos.head == [] {
        NothingReturns(old(fos.head), old(queue));
      } else if old(fos.Valid()) {
        IntactIsUnique(old(fos.head), fos.logSize);
        IntactAfter(java, old(fos.head), fos.logSize, old(marked), old(queue), fos.head, queue, news, revived, marked);
      }
    }

    /** GC_register_finalizer_inner for finalizer fin.  size is the object's size in bytes, None if it is not in
        the heap; `room` and `memory` say whether a larger table and a new node can be had. */
    method RegisterFinalizer(obj: nat, fin: Fin, size: Option<nat>, room: bool, memory: bool, incremental: bool)
      returns (ok: bool, before: Option<(nat, nat)>)
      requires fos.Valid() && (fos as object) != this
      modifies this`needUnreachable, fos
      ensures fos.Valid()
      ensures ok <==> old(fos.head) != [] || room
      ensures ok ==> fos.head != []
      ensures fos.Bindings() == if ok then Registered(old(fos.Bindings()), obj, fin, size, memory) else old(fos.Bindings())
      ensures before == if ok then Reported(old(fos.Bindings()), obj, fin, size, memory) else None
      ensures fos.GrownFrom(old(fos.head), old(fos.logSize), old(fos.entries), room, incremental)
      ensures needUnreachable == (old(needUnreachable) || fin.proc.WhenUnreachable?)
      ensures old(Consistent()) && obj in slots ==> Consistent()
    {
      hide Hash, View, TableOk, Placed, Count, InTable, Closed, GraphOk;
      if fin.proc.WhenUnreachable? { needUnreachable := true; }
      ghost var head0, log0 := fos.head, fos.logSize;
      ok, before := EnterFinalizer(obj, fin, size, room, memory, incremental);
      RegisteredOnly(head0, log0, fos.head, fos.logSize, obj, fin.proc);
    }

    /** .. on the table. */
    method EnterFinalizer(obj: nat, fin: Fin, size: Option<nat>, room: bool, memory: bool, incremental: bool)
      returns (ok: bool, before: Option<(nat, nat)>)
      requires fos.Valid() && (fos as object) != this
      modifies fos
      ensures fos.Valid()
      ensures ok <==> old(fos.head) != [] || room
      ensures ok ==> fos.head != []
      ensures fos.Bindings() == if ok then Registered(old(fos.Bindings()), obj, fin, size, memory) else old(fos.Bindings())
      ensures before == if ok then Reported(old(fos.Bindings()), obj, fin, size, memory) else None
      ensures fos.GrownFrom(old(fos.head), old(fos.logSize), old(fos.entries), room, incremental)
    {
      hide Hash, View, TableOk, Count;
      ok, before := true, None;
      if fos.head == [] || fos.entries > Pow2(fos.logSize) {
        ok := fos.Grow(room, incremental);
        if !ok { return; }
      }
      var i, found, j := fos.Find(obj);
      if found {
        FoundValue(fos.head, fos.logSize, i, j);
        var f := fos.head[i][j].value;
        before := Some((f.fn, f.clientData));
        if fin.fn == 0 {
          fos.DeleteAt(i, j);
        } else {
          fos.SetAt(i, j, fin.(size := f.size));
        }
        return;
      }
      if fin.fn == 0 || size.None? { return true, Some((0, 0)); }
      if !memory { return; }
      before := Some((0, 0));
      fos.Push(obj, fin.(size := size.value));
    }

    /** GC_enqueue_all_finalizers for one finalizer. */
    method EnqueueMarked(n: Node<Fin>)
      requires MarksIn() && n.key in slots
      modifies this`marked, this`queue, this`overflowed, this`capacity
      ensures MarksIn() && old(marked) <= marked && NewlyClosed(G(), old(marked), marked) && (old(MarksOk()) ==> MarksOk())
      ensures queue == [n] + old(queue) && n.key in marked && Targets(G(), n.key) <= marked
      ensures MarkedFrom(G(), old(marked) + {n.key}, marked)
    {
      hide Closed, GraphOk, Reaches, Targets, NewlyClosed, Crowded, Fresh, LedFrom;
      LedSelf(G(), marked + {n.key}, n.key);
      NothingNew(G(), marked);
      MarkFo(n, NormalMark);
      NewerClosed(G(), old(marked), old(marked), marked, n.key);
      if Closed(G(), marked) { MarkAsNormal(G(), marked, n); }
      marked := marked + {n.key};
      queue := [n] + queue;
    }

    /** GC_enqueue_all_finalizers for one chain, which has been taken out of the table. */
    method EnqueueWholeChain(chain: seq<Node<Fin>>)
      requires MarksIn() && forall n :: n in chain ==> n.key in slots
      modifies this`marked, this`queue, this`overflowed, this`capacity
      ensures MarksIn() && old(marked) <= marked && NewlyClosed(G(), old(marked), marked) && (old(MarksOk()) ==> MarksOk())
      ensures multiset(queue) == multiset(old(queue)) + multiset(chain)
      ensures forall n :: n in chain ==> n.key in marked && Targets(G(), n.key) <= marked
      ensures MarkedFrom(G(), old(marked) + Keys(chain), marked)
    {
      hide Closed, GraphOk, Targets, NewlyClosed, MarkedFrom, Keys;
      NothingNew(G(), marked);
      MarkedStart(G(), marked);
      NoKeysYet(chain);
      assert marked + Keys(chain[..0]) == marked;
      var j := 0;
      while j < |chain|
        invariant MarksIn() && old(marked) <= marked && NewlyClosed(G(), old(marked), marked) && j <= |chain|
        invariant old(MarksOk()) ==> MarksOk()
        invariant multiset(queue) == multiset(old(queue)) + multiset(chain[..j])
        invariant MarkedFrom(G(), old(marked) + Keys(chain[..j]), marked)
        invariant forall l :: 0 <= l < j ==> chain[l].key in marked && Targets(G(), chain[l].key) <= marked
      {
        ghost var m, q := marked, queue;
        EnqueueMarked(chain[j]);
        MarkedOn(G(), old(marked) + Keys(chain[..j]), m, {chain[j].key}, marked);
        KeysOfMore(chain, j);
        assert old(marked) + Keys(chain[..j]) + {chain[j].key} == old(marked) + Keys(chain[..j + 1]);
        BothClosed(G(), old(marked), m, marked);
        ChainMore(chain, j, multiset(old(queue)), multiset(q), multiset(queue));
        j := j + 1;
      }
      assert chain[..j] == chain;
    }

    /** GC_enqueue_all_finalizers: every finalizer moves from the table to the queue.  The program may have
        run since the marks were closed under pointers: what is newly marked is. */
    method EnqueueAllFinalizers()
      requires Shape() && MarksIn() && FosOk() && forall n :: InTable(fos.head, n) ==> n.key in slots
      modifies this`marked, this`queue, this`overflowed, this`capacity, fos
      ensures MarksIn() && FosOk() && old(marked) <= marked && fos.entries == 0 && Nodes(fos.head) == multiset{}
      ensures NewlyClosed(G(), old(marked), marked) && (old(MarksOk()) ==> MarksOk())
      ensures multiset(queue) == multiset(old(queue)) + Nodes(old(fos.head))
      ensures forall n :: InTable(old(fos.head), n) ==> n.key in marked && Targets(G(), n.key) <= marked
      ensures forall o :: o in marked ==> LedByChains(G(), old(marked), old(fos.head), |old(fos.head)|, o)
    {
      hide Closed, GraphOk, Hash, Nodes, Count, NewlyClosed, Targets, Placed, LedByChains, MarkedFrom, Keys;
      ghost var head0 := fos.head;
      LedByNone(G(), marked, head0);
      var i := 0;
      NothingNew(G(), marked);
      StartEmptying(head0);
      while i < |fos.head|
        invariant MarksIn() && old(marked) <= marked && NewlyClosed(G(), old(marked), marked) && (old(MarksOk()) ==> MarksOk())
        invariant i <= |fos.head| && Placed(fos.head, fos.logSize)
        invariant |fos.head| == |head0| && forall k :: 0 <= k < |head0| ==> fos.head[k] == if k < i then [] else head0[k]
        invariant multiset(queue) == multiset(old(queue)) + Nodes(head0[..i])
        invariant forall o :: o in marked ==> LedByChains(G(), old(marked), head0, i, o)
        invariant forall k, n: Node<Fin> :: 0 <= k < i && n in head0[k] ==> n.key in marked && Targets(G(), n.key) <= marked
      {
        var chain := fos.head[i];
        ChainEmptied(fos.head, fos.logSize, i);
        fos.head := fos.head[i := []];
        ghost var m := marked;
        EnqueueWholeChain(chain);
        LedByMore(G(), old(marked), head0, i, m, marked);
        BothClosed(G(), old(marked), m, marked);
        NodesMore(head0, i);
        i := i + 1;
      }
      assert head0[..i] == head0;
      EmptyNodes(fos.head);
      fos.entries := 0;
    }
  }

  /** Object 1 has nine fields, each pointing to an object with a field of its own. */
  function Wide(): Graph {
    Graph(map[1 := {11, 12, 13, 14, 15, 16, 17, 18, 19},
              2 := {20}, 3 := {21}, 4 := {22}, 5 := {23}, 6 := {24}, 7 := {25}, 8 := {26}, 9 := {27}, 10 := {28}],
          map[11 := 2, 12 := 3, 13 := 4, 14 := 5, 15 := 6, 16 := 7, 17 := 8, 18 := 9, 19 := 10])
  }

  /** What the documentation of GC_register_finalizer says fails: object 1 is the only one with a finalizer, it
      is unmarked, and nothing points to it, but with a mark stack of eight entries it is not enqueued. */
  method WideIsKeptBack() returns (table: seq<seq<Node<Fin>>>, queue: seq<Node<Fin>>)
    ensures AllFollow(table) && Finalizable(Wide(), table, {}, 1) && queue == []
  {
    hide Hash, View, BucketView, TableOk, Placed, Count, Nodes, Reaches, Wide, GraphOk, Closed, Crowded, Fresh, FirstNode, InTable, Overfull,
      Keys;
    var h := Wide();
    WideIsCrowded();
    var f := new Finalizers(h.slots, _ => None, false, 8);
    var ok, before := f.RegisterFinalizer(1, Fin(7, 0, 16, NormalMark), Some(16), true, true, false);
    f.mem := h.mem;
    assert f.G() == h;
    ghost var n := Node(1, Fin(7, 0, 16, NormalMark));
    table := f.fos.head;
    OneNode(table, f.fos.logSize, n);
    TableIsPlaced(table, f.fos.logSize);
    NotPointedTo(h, 1, 1);
    assert Finalizable(h, table, {}, 1);
    ghost var full, news, revived;
    full, news, revived := f.FinalizeObjects();
    queue := f.queue;
    assert 1 in full;
    assert queue == news;
    NoKeys(news);
  }

  /** In Java mode a finalizer that is to run only when its object is unreachable has been enqueued by a
      collection, and before it runs the object is registered again: then the next collection puts the object
      into the table a second time. */
  method QueuedAndRegistered() returns (f: Finalizers)
    ensures !f.fos.Valid()
  {
    hide Hash, View, BucketView, TableOk, Placed, Count, Nodes, GraphOk, Closed, InTable, UniqueKeys, Returning, Moved, RightNews, Kept,
      NoMoreThan, Keys;
    f := new Finalizers(map[1 := {}], _ => None, true, 8);
    var ok, before := f.RegisterFinalizer(1, Fin(7, 0, 16, WhenUnreachable), Some(16), true, true, false);
    ghost var n0, head0, cap0 := Node(1, Fin(7, 0, 16, WhenUnreachable)), f.fos.head, f.capacity;
    OneNode(head0, f.fos.logSize, n0);
    TableIsPlaced(head0, f.fos.logSize);
    IntactIsUnique(head0, f.fos.logSize);
    NothingReturnsYet(head0);
    NothingPoints(f.G());
    ghost var h1, full, news, revived := f.Finalize();
    LoneIsEnqueued(h1, head0, n0, cap0, full, f.fos.head, f.queue, news, revived, f.marked);
    NoBindings(f.fos.head, f.fos.logSize);
    ok, before := f.RegisterFinalizer(1, Fin(8, 0, 16, WhenUnreachable), Some(16), true, true, false);
    ghost var n := Node(1, Fin(8, 0, 16, WhenUnreachable));
    OneNode(f.fos.head, f.fos.logSize, n);
    TwoOfOne(f.fos.head, f.queue, n);
    h1, full, news, revived := f.Finalize();
  }

  lemma NothingReturnsYet(head: seq<seq<Node<Fin>>>)
    ensures Nodes(head) + Returning([]) == Nodes(head)
  {
  }

  lemma NoBindings(head: seq<seq<Node<Fin>>>, log: nat)
    requires Nodes(head) == multiset{} && (head == [] || TableOk(head, log))
    ensures View(head) == map[]
  {
    hide View, Nodes, TableOk, BucketView, Hash;
    if head == [] { EmptyTable(head); } else {
      forall k | k in View(head) ensures false {
        ViewAt(head, log, k);
        var i := Hash(k, log);
        BucketIs(head, log, i);
        InBucket(head[i], k);
        var j :| 0 <= j < |head[i]| && head[i][j].key == k;
        InNodes(head, head[i][j]);
      }
    }
  }

  /** The only object of a heap without pointers is enqueued and stays in the queue. */
  lemma LoneIsEnqueued(h: Graph, head0: seq<seq<Node<Fin>>>, n: Node<Fin>, cap: nat, full: set<nat>, head: seq<seq<Node<Fin>>>,
                       q: seq<Node<Fin>>, news: seq<Node<Fin>>, revived: seq<Node<Fin>>, m: set<nat>)
    requires h.mem == map[] && cap > 0 && n.value.proc.WhenUnreachable?
    requires InTable(head0, n) && UniqueKeys(Nodes(head0)) && forall x :: InTable(head0, x) ==> x == n
    requires Moved(true, head0, {}, [], head, q, news, revived, m) && RightNews(h, head0, {}, cap, full, news)
    requires NoMoreThan(h, head0, {}, m, full + Keys(q))
    ensures q == [n] && Nodes(head) == multiset{}
  {
    hide Nodes, InTable, Keys, Reaches, Fresh;
    forall k, o ensures !Reaches(h, k, o) { NotPointedTo(h, k, o); }
    forall k ensures |Fresh(h, {}, k)| == 0 { NothingFresh(h, k); }
    assert Finalizable(h, head0, {}, n.key);
    assert n.key in Keys(news);
    NewsNotEmpty(news, n.key);
    InNodes(head0, n);
    forall x | x in Nodes(head0) ensures x == n { InNodes(head0, x); }
    assert Nodes(head0) == multiset{n};
    if q == [] {
      QueueOf(q, revived);
      QueueOf(news, []);
      assert q + revived == revived && news + [] == news;
      assert multiset(revived) == multiset(news);
      assert news[0] in multiset(revived);
      var x := news[0];
      assert x in revived && x.key in m;
      NoKeysOf(q);
    }
    assert q[0] in multiset(q);
    assert q == [q[0]] + q[1..];
    assert Nodes(head) + multiset(q) == multiset{n};
    OnlyOne(Nodes(head), q, n);
  }

  lemma OnlyOne(a: multiset<Node<Fin>>, q: seq<Node<Fin>>, n: Node<Fin>)
    requires a + multiset(q) == multiset{n} && q != []
    ensures q == [n] && a == multiset{}
  {
    assert q == [q[0]] + q[1..];
    assert multiset(q) == multiset{q[0]} + multiset(q[1..]);
    assert (a + multiset(q))[q[0]] == multiset{n}[q[0]];
    forall x ensures a[x] == 0 && multiset(q[1..])[x] == 0 { assert (a + multiset(q))[x] == multiset{n}[x]; }
    FirstIsThere(q[1..]);
  }

  lemma FirstIsThere(q: seq<Node<Fin>>)
    ensures q != [] ==> multiset(q)[q[0]] > 0
  {
    if q != [] { assert q[0] in q; }
  }

  lemma NothingFresh(h: Graph, k: nat)
    requires forall o :: !Reaches(h, k, o)
    ensures |Fresh(h, {}, k)| == 0
  {
    assert Fresh(h, {}, k) == {};
  }

  lemma NewsNotEmpty(news: seq<Node<Fin>>, k: nat)
    requires k in Keys(news)
    ensures news != []
  {
  }

  lemma NoKeysOf(q: seq<Node<Fin>>)
    requires q == []
    ensures Keys(q) == {}
  {
  }

  lemma NothingPoints(h: Graph)
    requires h.mem == map[]
    ensures GraphOk(h) && forall m :: Closed(h, m)
  {
  }

  lemma TwoOfOne(head: seq<seq<Node<Fin>>>, q: seq<Node<Fin>>, n: Node<Fin>)
    requires InTable(head, n) && |q| == 1 && q[0].key == n.key && q[0] != n && q[0].value.proc.WhenUnreachable?
    ensures !UniqueKeys(Nodes(head) + Returning(q))
  {
    InNodes(head, n);
    ReturningAre(q, q[0]);
    assert q[0] in multiset(q);
    assert n in Nodes(head) + Returning(q) && q[0] in Nodes(head) + Returning(q);
  }

  lemma NoKeys(news: seq<Node<Fin>>)
    ensures Keys(news) == {} ==> news == []
  {
    if news != [] { assert news[0].key in Keys(news); }
  }

  lemma WideIsCrowded()
    ensures GraphOk(Wide()) && Closed(Wide(), {}) && Crowded(Wide(), {}, 1, 8) && 1 in Wide().slots
    ensures forall a :: a in Wide().mem ==> Wide().mem[a] != 1
  {
    hide Wide, Targets;
    WideIsOk();
    var all := Unscanned(Wide(), {}, Targets(Wide(), 1));
    forall t | 2 <= t <= 10 ensures t in all { WideTarget(t); }
    NineAtLeast(all);
  }

  lemma NineAtLeast(all: set<nat>)
    requires forall t :: 2 <= t <= 10 ==> t in all
    ensures |all| > 8
  {
    var few: set<nat> := {2, 3, 4, 5, 6, 7, 8, 9, 10};
    SubsetSize(few, all);
  }

  lemma WideIsOk()
    ensures GraphOk(Wide()) && Closed(Wide(), {}) && 1 in Wide().slots && |Wide().slots[1]| <= 9
    ensures forall a :: a in Wide().mem ==> Wide().mem[a] != 1
  {
  }

  lemma WideTarget(t: nat)
    requires 2 <= t <= 10
    ensures t in Targets(Wide(), 1) && t in Wide().slots && Wide().slots[t] != {}
  {
    hide Targets;
    WideField(t);
    assert t + 18 in Wide().slots[t];
    NamesField(Wide(), 1, t + 9);
  }

  lemma WideField(t: nat)
    requires 2 <= t <= 10
    ensures 1 in Wide().slots && t + 9 in Wide().slots[1] && t + 9 in Wide().mem && Wide().mem[t + 9] == t
    ensures t in Wide().slots && t + 18 in Wide().slots[t]
  {
  }

  lemma NamesField(h: Graph, o: nat, a: nat)
    requires o in h.slots && a in h.slots[o] && a in h.mem
    ensures h.mem[a] in Targets(h, o)
  {
  }
}
