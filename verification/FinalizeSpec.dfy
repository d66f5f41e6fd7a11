/** Finalizers: objects, pointers between them, and what marking from a finalizable object reaches. */
module FinalizeSpec {
  import opened Basics
  import opened ChainSpec

  /** fo_mark_proc. */
  datatype Proc = NormalMark | IgnoreSelf | NoMark | WhenUnreachable

  /** A finalizer, without its object: that is the key of its node. */
  datatype Fin = Fin(fn: nat, clientData: nat, size: nat, proc: Proc)

  /** The client's objects with the addresses of their fields, and what is stored where. */
  datatype Graph = Graph(slots: map<nat, set<nat>>, mem: map<nat, nat>)

  ghost predicate GraphOk(h: Graph) { forall a :: a in h.mem ==> h.mem[a] in h.slots }

  /** Object o has a pointer to object t. */
  ghost predicate Points(h: Graph, o: nat, t: nat) {
    o in h.slots && exists a :: a in h.slots[o] && a in h.mem && h.mem[a] == t
  }

  /** p is a pointer path. */
  ghost predicate Path(h: Graph, p: seq<nat>) {
    |p| > 0 && forall i :: 0 <= i < |p| - 1 ==> Points(h, p[i], p[i + 1])
  }

  /** o is reached from s by zero or more pointers. */
  ghost predicate Leads(h: Graph, s: nat, o: nat) { exists p :: Path(h, p) && p[0] == s && p[|p| - 1] == o }

  /** o is reached from s by one or more pointers. */
  ghost predicate Reaches(h: Graph, s: nat, o: nat) { exists t :: Points(h, s, t) && Leads(h, t, o) }

  ghost predicate Closed(h: Graph, m: set<nat>) { forall o, t :: o in m && Points(h, o, t) ==> t in m }

  /** o is reached from one of the starts by zero or more pointers. */
  ghost predicate LedFrom(h: Graph, starts: set<nat>, o: nat) { exists s :: s in starts && Leads(h, s, o) }

  /** All these marks come from the starts. */
  ghost predicate MarkedFrom(h: Graph, starts: set<nat>, m: set<nat>) { forall o :: o in m ==> LedFrom(h, starts, o) }

  /** o is reached from a marked object, or from the object of a node in the first i chains. */
  ghost predicate LedByChains(h: Graph, m: set<nat>, head: seq<seq<Node<Fin>>>, i: nat, o: nat) {
    LedFrom(h, m, o) || exists k, n :: 0 <= k < i && k < |head| && n in head[k] && Leads(h, n.key, o)
  }

  /** m' is m with everything marked that is reached from `starts`. */
  ghost predicate MarksFrom(h: Graph, m: set<nat>, starts: set<nat>, m': set<nat>) {
    forall o :: o in m' <==> o in m || exists s :: s in starts && Leads(h, s, o)
  }

  /** What these fields point to. */
  function Named(h: Graph, fields: set<nat>): set<nat> { set a | a in fields && a in h.mem :: h.mem[a] }

  /** What object o points to. */
  function Targets(h: Graph, o: nat): set<nat> { if o in h.slots then Named(h, h.slots[o]) else {} }

  /** What the mark procedure of a finalizer pushes. */
  function Pushes(h: Graph, o: nat, proc: Proc): set<nat> {
    match proc
    case NormalMark => Targets(h, o)
    case WhenUnreachable => Targets(h, o)
    case IgnoreSelf => Targets(h, o) - {o}
    case NoMark => {}
  }

  /** What that mark procedure pushes is marked. */
  ghost predicate Covered(h: Graph, m: set<nat>, n: Node<Fin>) { Pushes(h, n.key, n.value.proc) <= m }

  /** o is reached from what the own mark procedure of some unmarked registered object pushes. */
  ghost predicate LedTo(h: Graph, head: seq<seq<Node<Fin>>>, m: set<nat>, o: nat) {
    exists n :: InTable(head, n) && n.key !in m && LedFrom(h, Pushes(h, n.key, n.value.proc), o)
  }

  /** .. and nothing else is marked in m' that is not in m, except objects in `full`. */
  ghost predicate LedOnly(h: Graph, head: seq<seq<Node<Fin>>>, m: set<nat>, m': set<nat>, full: set<nat>) {
    forall o :: o in m' ==> o in m || o in full || LedTo(h, head, m, o)
  }

  /** k is registered and may be enqueued: it is not marked, and no mark procedure leads to it. */
  ghost predicate Unclaimed(h: Graph, head: seq<seq<Node<Fin>>>, m: set<nat>, full: set<nat>, k: nat) {
    (exists n :: InTable(head, n) && n.key == k) && k !in m && k !in full && !LedTo(h, head, m, k)
  }

  /** All marks in m' that are not in m are for objects in `full` or come from objects of the table that
      are not in m. */
  ghost predicate NoMoreThan(h: Graph, head: seq<seq<Node<Fin>>>, m: set<nat>, m': set<nat>, full: set<nat>) {
    forall o :: o in m' ==> o in m || o in full || exists n :: InTable(head, n) && n.key !in m && Reaches(h, n.key, o)
  }

  /** The unmarked objects that k reaches. */
  ghost function Fresh(h: Graph, m: set<nat>, k: nat): set<nat> { set o | o in h.slots && o !in m && Reaches(h, k, o) }

  /** The objects whose own mark procedure overflowed a stack of at least cap entries; each of them
      reaches that many unmarked objects. */
  ghost predicate Overfull(h: Graph, m: set<nat>, cap: nat, full: set<nat>) {
    forall k :: k in full ==> k !in m && cap <= |Fresh(h, m, k)|
  }

  /** They are registered with a mark procedure that marks something. */
  ghost predicate FullFrom(head: seq<seq<Node<Fin>>>, full: set<nat>) {
    forall k :: k in full ==> exists n :: InTable(head, n) && n.key == k && !n.value.proc.NoMark?
  }

  /** Fields that are scanned at one go. */
  const RANGE_FIELDS: nat := 127

  /** Those of the objects ts that are unmarked and have fields: marking pushes them. */
  function Unscanned(h: Graph, m: set<nat>, ts: set<nat>): set<nat> { set t | t in ts && t !in m && t in h.slots && h.slots[t] != {} }

  /** k points to so many of them that marking from it has to overflow a stack of cap entries. */
  predicate Crowded(h: Graph, m: set<nat>, k: nat, cap: nat) {
    k in h.slots && |h.slots[k]| <= RANGE_FIELDS && cap < |Unscanned(h, m, Targets(h, k))|
  }

  /** An object from which an overflow is certain when it is the first that is marked from. */
  ghost predicate Sure(h: Graph, m0: set<nat>, cap: nat, n: Node<Fin>) {
    n.key !in m0 && (n.value.proc.NormalMark? || n.value.proc.WhenUnreachable?) && Crowded(h, m0, n.key, cap)
  }

  /** An entry of the mark stack: an object and the fields of it that are still to be scanned. */
  datatype Pending = Pending(obj: nat, left: set<nat>)

  /** The stack after some fields were taken off its top entry. */
  function LeftOver(below: seq<Pending>, e: Pending, part: set<nat>): seq<Pending> {
    if part == e.left then below else below + [Pending(e.obj, e.left - part)]
  }

  /** t will still be looked at. */
  ghost predicate Owed(h: Graph, stack: seq<Pending>, hand: set<nat>, t: nat) {
    t in Named(h, hand) || exists e :: e in stack && t in Named(h, e.left)
  }

  /** t has to be marked: it is in `due`, or a newly marked object points to it. */
  ghost predicate Wanted(h: Graph, m0: set<nat>, due: set<nat>, m: set<nat>, t: nat) {
    t in due || exists o :: o in m && o !in m0 && t in Targets(h, o)
  }

  /** Marking from object k, begun with marks m0, has arrived at marks m; the fields in `hand` and on the
      stack are still to be scanned.  Nothing has been lost unless the stack was ever full. */
  ghost predicate Exploring(h: Graph, m0: set<nat>, k: nat, due: set<nat>, m: set<nat>, stack: seq<Pending>, hand: set<nat>, full: bool) {
    && m0 <= m <= h.slots.Keys
    && due <= Targets(h, k)
    && (forall o :: o in m ==> o in m0 || LedFrom(h, due, o))
    && (forall t :: Owed(h, stack, hand, t) ==> LedFrom(h, due, t))
    && (!full ==> forall t :: Wanted(h, m0, due, m, t) ==> t in m || Owed(h, stack, hand, t))
    && |stack| <= 1 + |m - m0|
  }

  /** The objects marked since m0 are closed under pointers. */
  ghost predicate NewlyClosed(h: Graph, m0: set<nat>, m: set<nat>) {
    forall o, t :: o in m && o !in m0 && Points(h, o, t) ==> t in m
  }

  /** The first node of the table. */
  ghost predicate FirstNode(head: seq<seq<Node<Fin>>>, n: Node<Fin>) { exists i :: FirstIn(head, i, n) }

  ghost predicate FirstIn(head: seq<seq<Node<Fin>>>, i: nat, n: Node<Fin>) {
    i < |head| && head[i] != [] && head[i][0] == n && forall l :: 0 <= l < i ==> head[l] == []
  }

  /** The nodes of a table. */
  ghost predicate InTable<V>(head: seq<seq<Node<V>>>, n: Node<V>) { exists i :: 0 <= i < |head| && n in head[i] }

  /** Every node is in the chain for its key. */
  ghost predicate Placed<V>(head: seq<seq<Node<V>>>, log: nat) {
    head == [] || (|head| == Pow2(log) && forall i, j :: 0 <= i < |head| && 0 <= j < |head[i]| ==> Hash(head[i][j].key, log) == i)
  }

  /** A weak link is removed from its table unless this holds: the object it names is marked, or, in
      the pass over dangling links, what holds the link is not a collectable unmarked object. */
  predicate Keeps(base: nat -> Option<nat>, marked: set<nat>, dangling: bool, link: nat, obj: nat) {
    if dangling then base(link).None? || base(link).value in marked else obj in marked
  }

  ghost function Kept(base: nat -> Option<nat>, marked: set<nat>, dangling: bool, b: map<nat, nat>): map<nat, nat> {
    map k | k in b && Keeps(base, marked, dangling, k, b[k]) :: b[k]
  }

  /** Registered, not marked, and not reached by one or more pointers from anything registered and not
      marked, itself included. */
  ghost predicate Finalizable(h: Graph, head: seq<seq<Node<Fin>>>, m: set<nat>, k: nat) {
    && k !in m
    && (exists n :: InTable(head, n) && n.key == k)
    && (forall n :: InTable(head, n) && n.key !in m ==> !Reaches(h, n.key, k))
  }

  /** Every mark procedure of the table follows all pointers of its object. */
  ghost predicate AllFollow(head: seq<seq<Node<Fin>>>) {
    forall n :: InTable(head, n) ==> n.value.proc.NormalMark? || n.value.proc.WhenUnreachable?
  }

  /** No finalizer of the table was registered without a mark procedure. */
  ghost predicate AllOrdered(head: seq<seq<Node<Fin>>>) { forall n :: InTable(head, n) ==> !n.value.proc.NoMark? }

  function Keys(q: seq<Node<Fin>>): set<nat> { set i | 0 <= i < |q| :: q[i].key }

  /** The keys of the entries that never go back to the table. */
  function Staying(q: seq<Node<Fin>>): set<nat> { set i | 0 <= i < |q| && !q[i].value.proc.WhenUnreachable? :: q[i].key }

  /** The nodes `news` have left the table for the queue; unless Java is meant they were marked. */
  ghost predicate Enqueued(java: bool, head0: seq<seq<Node<Fin>>>, m0: set<nat>,
                           head: seq<seq<Node<Fin>>>, m: set<nat>, news: seq<Node<Fin>>) {
    && Nodes(head) + multiset(news) == Nodes(head0)
    && m == (if java then m0 else m0 + Keys(news))
    && (forall n :: n in news ==> n.key !in m0)
  }

  /** What MarkQueue leaves to Revive: only objects to be finalized when unreachable may be unmarked. */
  ghost predicate Ready(h: Graph, m: set<nat>, q: seq<Node<Fin>>) {
    forall n :: n in q ==> n.key in m || (n.value.proc.WhenUnreachable? && Covered(h, m, n))
  }

  /** What is to be finalized only when unreachable is not reached by anything that is enqueued. */
  ghost predicate Unreached(h: Graph, q: seq<Node<Fin>>) {
    forall n, n' :: n in q && n' in q && n.value.proc.WhenUnreachable? ==> !Reaches(h, n'.key, n.key)
  }

  /** Nodes `revived` went from the queue, q0 before, back into the table, head0 before: they were
      to be finalized only when unreachable, and were marked. */
  ghost predicate RevivedFrom(head0: seq<seq<Node<Fin>>>, q0: seq<Node<Fin>>, head: seq<seq<Node<Fin>>>, q: seq<Node<Fin>>,
                              revived: seq<Node<Fin>>, m: set<nat>) {
    && Nodes(head) == Nodes(head0) + multiset(revived)
    && multiset(q) + multiset(revived) == multiset(q0)
    && (forall n :: n in revived ==> n.value.proc.WhenUnreachable? && n.key in m)
  }

  /** The first i nodes of the queue are marked; those to be finalized when unreachable were not in m0. */
  ghost predicate Passed(q: seq<Node<Fin>>, i: nat, m0: set<nat>, m: set<nat>) {
    forall l :: 0 <= l < i && l < |q| ==> q[l].key in m && (q[l].value.proc.WhenUnreachable? ==> q[l].key !in m0)
  }

  /** The links to objects that are not in m. */
  ghost function Unlinked(b: map<nat, nat>, m: set<nat>): set<nat> { set k | k in b && b[k] !in m }

  /** No two of these nodes have the same key. */
  ghost predicate UniqueKeys(ns: multiset<Node<Fin>>) {
    (forall n :: n in ns ==> ns[n] == 1) && forall n, n' :: n in ns && n' in ns && n.key == n'.key ==> n == n'
  }

  /** What is enqueued, begun with a mark stack of cap entries; `full` are the objects whose own mark procedure
      overflowed it. */
  ghost predicate RightNews(h: Graph, head0: seq<seq<Node<Fin>>>, m0: set<nat>, cap: nat, full: set<nat>, news: seq<Node<Fin>>) {
    && (forall k :: k in Keys(news) <==> Unclaimed(h, head0, m0, full, k))
    && (AllFollow(head0) ==> forall k :: k in Keys(news) <==> Finalizable(h, head0, m0, k) && k !in full)
    && (AllFollow(head0) ==> forall k :: |Fresh(h, m0, k)| < cap ==> (k in Keys(news) <==> Finalizable(h, head0, m0, k)))
    && (AllOrdered(head0) ==> forall n, k :: InTable(head0, n) && Reaches(h, n.key, k) && (n.value.proc.IgnoreSelf? ==> k != n.key) ==>
          k !in Keys(news))
    && Overfull(h, m0, cap, full) && FullFrom(head0, full)
    && (forall n :: FirstNode(head0, n) && Sure(h, m0, cap, n) ==> n.key in full)
  }

  /** Where finalizers went: news from the table, head0 before and head now, to the queue, q0 before and q now,
      and revived back. */
  ghost predicate Moved(java: bool, head0: seq<seq<Node<Fin>>>, m0: set<nat>, q0: seq<Node<Fin>>, head: seq<seq<Node<Fin>>>,
                        q: seq<Node<Fin>>, news: seq<Node<Fin>>, revived: seq<Node<Fin>>, m: set<nat>) {
    && Nodes(head) + multiset(q) == Nodes(head0) + multiset(q0)
    && multiset(q) + multiset(revived) == multiset(news) + multiset(q0)
    && (!java ==> q == news + q0)
    && (forall n :: n in revived ==> n.value.proc.WhenUnreachable? && n.key in m)
    && (forall n :: n in news ==> n.key !in m0)
    && (java ==> forall n :: n in q && n.value.proc.WhenUnreachable? ==> n.key !in m0)
  }

  /** The entries of the queue that are to be finalized only when unreachable. */
  function Returning(q: seq<Node<Fin>>): multiset<Node<Fin>> {
    if q == [] then multiset{}
    else (if q[0].value.proc.WhenUnreachable? then multiset{q[0]} else multiset{}) + Returning(q[1..])
  }

  /** The finalizers after a registration for obj, which is in the heap with its size in `size`; `memory` says
      whether a new node can be had.  fn == 0 asks for removal. */
  function Registered(b: map<nat, Fin>, obj: nat, fin: Fin, size: Option<nat>, memory: bool): map<nat, Fin> {
    if obj in b then
      if fin.fn == 0 then b - {obj} else b[obj := fin.(size := b[obj].size)]
    else if fin.fn != 0 && size.Some? && memory then b[obj := fin.(size := size.value)]
    else b
  }

  /** What is reported as registered before; None if the caller's variable is left unchanged. */
  function Reported(b: map<nat, Fin>, obj: nat, fin: Fin, size: Option<nat>, memory: bool): Option<(nat, nat)> {
    if obj in b then Some((b[obj].fn, b[obj].clientData))
    else if fin.fn != 0 && size.Some? && !memory then None
    else Some((0, 0))
  }

  /** The nodes of the first i chains are covered by marks m. */
  ghost predicate CoveredUpTo(h: Graph, head: seq<seq<Node<Fin>>>, i: nat, m: set<nat>) {
    forall l, n :: 0 <= l < i && l < |head| && n in head[l] ==> Covered(h, m, n)
  }

  /** If the first node of the table is in one of the first i chains and is sure to overflow the stack, it has. */
  ghost predicate SureUpTo(h: Graph, head: seq<seq<Node<Fin>>>, m0: set<nat>, cap: nat, i: nat, full: set<nat>) {
    forall l, n :: 0 <= l < i && FirstIn(head, l, n) && Sure(h, m0, cap, n) ==> n.key in full
  }

  ghost predicate EmptyUpTo(head: seq<seq<Node<Fin>>>, i: nat) { forall l :: 0 <= l < i && l < |head| ==> head[l] == [] }
}
