/** The hash tables of finalize.c, changed in place, as finite maps. */
module ChainTable {
  import opened ChainSpec
  import opened ChainSteps

  datatype Status = Success | Duplicate | NoMemory | NotFound | Abort

  /** GC_ON_GROW_LOG_SIZE_MIN. */
  const GROW_LOG_SIZE_MIN: nat := 12

  class Table<V> {
    var head: seq<seq<Node<V>>>    // the chains; [] stands for NULL
    var logSize: nat
    var entries: nat

    ghost predicate Valid()
      reads this
    {
      && (if head == [] then logSize == 0 else TableOk(head, logSize))
      && entries == Count(head)
    }

    ghost function Bindings(): map<nat, V>
      reads this
    {
      View(head)
    }

    constructor ()
      ensures Valid() && Bindings() == map[]
    {
      head, logSize, entries := [], 0, 0;
    }

    /** The number of entries is the number of keys. */
    lemma EntriesCountKeys()
      requires Valid()
      ensures entries == |Bindings()|
    {
      if head != [] { TableSize(head, logSize); }
    }

    /** The position of key in its chain, if it is there. */
    method Find(key: nat) returns (i: nat, found: bool, j: nat)
      requires head != [] && TableOk(head, logSize)
      ensures i == Hash(key, logSize) && i < |head|
      ensures found <==> key in Bindings()
      ensures found ==> j < |head[i]| && head[i][j].key == key
    {
      hide Hash, View, BucketView, TableOk;
      i := Hash(key, logSize);
      ViewAt(head, logSize, key);
      BucketIs(head, logSize, i);
      InBucket(head[i], key);
      j := 0;
      while j < |head[i]|
        invariant j <= |head[i]| && forall l :: 0 <= l < j ==> head[i][l].key != key
      {
        if head[i][j].key == key { return i, true, j; }
        j := j + 1;
      }
      found := false;
    }

    /** GC_grow_table puts the nodes of chain i into the new table. */
    method Rehash(new0: seq<seq<Node<V>>>, newLog: nat, i: nat) returns (newHead: seq<seq<Node<V>>>)
      requires TableOk(head, logSize) && i < |head|
      requires TableOk(new0, newLog) && View(new0) == View(head[..i]) && Count(new0) == Count(head[..i])
      ensures TableOk(newHead, newLog) && View(newHead) == View(head[..i + 1]) && Count(newHead) == Count(head[..i + 1])
    {
      hide Hash, View, BucketView, TableOk, Count;
      newHead := new0;
      var p := head[i];
      ghost var j := 0;
      EmptyBucket(head[i]);
      while p != []
        invariant j <= |head[i]| && p == head[i][j..]
        invariant TableOk(newHead, newLog) && Count(newHead) == Count(head[..i]) + j
        invariant View(newHead) == View(head[..i]) + BucketView(head[i][..j])
        decreases |p|
      {
        var n := p[0];
        NotBefore(head, logSize, i, j);
        Pushed(newHead, newLog, n);
        var h := Hash(n.key, newLog);
        CountSet(newHead, h, [n] + newHead[h]);
        newHead := newHead[h := [n] + newHead[h]];
        p := p[1..];
        j := j + 1;
      }
      assert head[i][..j] == head[i];
      ViewMore(head, i);
    }

    /** A large table need not grow if a quarter of its entries is free; this is not tried when collection is
        incremental. */
    static ghost predicate Spared(log: nat, entries: nat, incremental: bool) {
      log >= GROW_LOG_SIZE_MIN && !incremental && entries + entries / 4 < Pow2(log)
    }

    /** What Register and the like do to the size of the table: it grows, if it can, when there is none or when
        it has more entries than chains. */
    ghost predicate GrownFrom(head0: seq<seq<Node<V>>>, log0: nat, entries0: nat, room: bool, incremental: bool)
      reads this
    {
      logSize == if (head0 == [] || entries0 > Pow2(log0)) && room && !Spared(log0, entries0, incremental) then log0 + 1 else log0
    }

    /** GC_grow_table: no binding changes.  FALSE stands for ABORT.  A collection that it may force
        first is not part of the model. */
    method Grow(memory: bool, incremental: bool) returns (ok: bool)
      requires Valid()
      modifies this
      ensures Valid() && Bindings() == old(Bindings()) && entries == old(entries)
      ensures ok <==> memory || old(head) != []
      ensures ok ==> head != []
      ensures !memory || Spared(old(logSize), old(entries), incremental) ==> head == old(head) && logSize == old(logSize)
      ensures memory && !Spared(old(logSize), old(entries), incremental) ==> logSize == old(logSize) + 1
    {
      hide Hash, View, BucketView, TableOk, Count;
      if logSize >= GROW_LOG_SIZE_MIN && !incremental && entries < Pow2(logSize) - entries / 4 { return true; }
      if !memory { return head != []; }
      var newLog := logSize + 1;
      var newHead := seq(Pow2(newLog), _ => []);
      FreshTable(newHead, newLog);
      NoChains(head);
      var i := 0;
      while i < |head|
        invariant i <= |head| && head == old(head) && logSize == old(logSize) && entries == old(entries)
        invariant TableOk(newHead, newLog) && View(newHead) == View(head[..i]) && Count(newHead) == Count(head[..i])
      {
        newHead := Rehash(newHead, newLog, i);
        i := i + 1;
      }
      assert head[..i] == head;
      TableLength(newHead, newLog);
      logSize := newLog;
      head := newHead;
      ok := true;
    }

    /** A node goes to the front of its chain. */
    method Push(key: nat, value: V)
      requires Valid() && head != [] && key !in Bindings()
      modifies this
      ensures Valid() && head != [] && Bindings() == old(Bindings())[key := value] && entries == old(entries) + 1
      ensures logSize == old(logSize)
    {
      hide Hash, View, BucketView, TableOk, Count;
      var h := Hash(key, logSize);
      Pushed(head, logSize, Node(key, value));
      CountSet(head, h, [Node(key, value)] + head[h]);
      head := head[h := [Node(key, value)] + head[h]];
      entries := entries + 1;
    }

    /** The j-th node of chain i is taken out. */
    method DeleteAt(i: nat, j: nat)
      requires Valid() && i < |head| && j < |head[i]|
      modifies this
      ensures Valid() && head != [] && Bindings() == old(Bindings()) - {old(head)[i][j].key} && entries == old(entries) - 1
      ensures logSize == old(logSize) && head == old(head)[i := Without(old(head)[i], j)]
    {
      hide Hash, View, BucketView, TableOk, Count;
      Removed(head, logSize, i, j);
      WithoutAt(head[i], j);
      CountSet(head, i, Without(head[i], j));
      head := head[i := head[i][..j] + head[i][j + 1..]];
      entries := entries - 1;
    }

    /** The j-th node of chain i gets a new value. */
    method SetAt(i: nat, j: nat, value: V)
      requires Valid() && i < |head| && j < |head[i]|
      modifies this
      ensures Valid() && head != [] && Bindings() == old(Bindings())[old(head)[i][j].key := value] && entries == old(entries)
      ensures logSize == old(logSize)
    {
      hide Hash, View, BucketView, TableOk, Count;
      Rebound(head, logSize, i, j, value);
      CountSet(head, i, head[i][j := Node(head[i][j].key, value)]);
      head := head[i := head[i][j := Node(head[i][j].key, value)]];
    }

    /** GC_register_disappearing_link_inner: insert or update; `room` and `memory` say whether a larger
        table and a new node can be had. */
    method Register(key: nat, value: V, room: bool, memory: bool, incremental: bool) returns (status: Status)
      requires Valid()
      modifies this
      ensures Valid()
      ensures status.Abort? <==> old(head) == [] && !room
      ensures status.Duplicate? <==> !status.Abort? && key in old(Bindings())
      ensures status.NoMemory? <==> !status.Abort? && key !in old(Bindings()) && !memory
      ensures status.Success? <==> !status.Abort? && key !in old(Bindings()) && memory
      ensures Bindings() == if status.Success? || status.Duplicate? then old(Bindings())[key := value] else old(Bindings())
      ensures GrownFrom(old(head), old(logSize), old(entries), room, incremental)
    {
      hide Hash, View, BucketView, TableOk, Count;
      if head == [] || entries > Pow2(logSize) {
        var ok := Grow(room, incremental);
        if !ok { return Abort; }
      }
      var i, found, j := Find(key);
      if found {
        SetAt(i, j, value);
        return Duplicate;
      }
      if !memory { return NoMemory; }
      Push(key, value);
      return Success;
    }

    /** GC_unregister_disappearing_link_inner: delete. */
    method Unregister(key: nat) returns (found: bool)
      requires Valid()
      modifies this
      ensures Valid() && Bindings() == old(Bindings()) - {key}
      ensures found <==> key in old(Bindings())
    {
      hide Hash, BucketView, TableOk, Count;
      if head == [] { return false; }
      var i, ok, j := Find(key);
      if !ok { return false; }
      DeleteAt(i, j);
      return true;
    }

    /** GC_move_disappearing_link_inner: rename. */
    method Move(key: nat, newKey: nat) returns (status: Status)
      requires Valid()
      modifies this
      ensures Valid()
      ensures status.NotFound? <==> key !in old(Bindings())
      ensures status.Duplicate? <==> key in old(Bindings()) && key != newKey && newKey in old(Bindings())
      ensures !status.NotFound? && !status.Duplicate? ==> status.Success?
      ensures Bindings() == if status.Success? then (old(Bindings()) - {key})[newKey := old(Bindings())[key]] else old(Bindings())
      ensures entries == old(entries)
    {
      hide Hash, BucketView, TableOk, Count;
      if head == [] { return NotFound; }
      var i, found, j := Find(key);
      if !found { return NotFound; }
      FoundValue(head, logSize, i, j);
      if key == newKey { return Success; }
      var i1, taken, j1 := Find(newKey);
      if taken { return Duplicate; }
      var value := head[i][j].value;
      DeleteAt(i, j);
      Push(newKey, value);
      return Success;
    }
  }
}
