/** What changing one chain does to the map that a hash table stands for. */
module ChainSteps {
  import opened ChainSpec

  lemma {:induction false} InBucket<V>(s: seq<Node<V>>, k: nat)
    requires forall i, j :: 0 <= i < j < |s| ==> s[i].key != s[j].key
    ensures k in BucketView(s) <==> exists j :: 0 <= j < |s| && s[j].key == k
    ensures forall j :: 0 <= j < |s| ==> s[j].key in BucketView(s) && BucketView(s)[s[j].key] == s[j].value
    ensures |BucketView(s)| == |s|
  {
    if s != [] {
      InBucket(s[1..], k);
      assert forall j :: 1 <= j < |s| ==> s[j] == s[1..][j - 1];
      InBucket(s[1..], s[0].key);
    }
  }

  /** A key is bound in the table iff it is bound in its own chain. */
  lemma {:induction false} ViewUpTo<V>(head: seq<seq<Node<V>>>, log: nat, n: nat, k: nat)
    requires TableOk(head, log) && n <= |head|
    ensures k in View(head[..n]) <==> Hash(k, log) < n && k in BucketView(head[Hash(k, log)])
    ensures k in View(head[..n]) ==> View(head[..n])[k] == BucketView(head[Hash(k, log)])[k]
    decreases n
  {
    hide Hash, TableOk, BucketOk, BucketView;
    TableLength(head, log);
    if n > 0 {
      ViewUpTo(head, log, n - 1, k);
      assert head[..n][..n - 1] == head[..n - 1] && head[..n][n - 1] == head[n - 1];
      NotInBucket(head, log, n - 1, k);
    }
  }

  /** A key is bound in its own chain only. */
  lemma NotInBucket<V>(head: seq<seq<Node<V>>>, log: nat, i: nat, k: nat)
    requires TableOk(head, log) && i < |head|
    ensures k in BucketView(head[i]) ==> Hash(k, log) == i
  {
    hide Hash;
    assert BucketOk(head[i], log, i);
    InBucket(head[i], k);
  }

  lemma ViewAt<V>(head: seq<seq<Node<V>>>, log: nat, k: nat)
    requires TableOk(head, log)
    ensures Hash(k, log) < |head|
    ensures k in View(head) <==> k in BucketView(head[Hash(k, log)])
    ensures k in View(head) ==> View(head)[k] == BucketView(head[Hash(k, log)])[k]
  {
    ViewUpTo(head, log, |head|, k);
    assert head[..|head|] == head;
  }

  lemma BucketIs<V>(head: seq<seq<Node<V>>>, log: nat, i: nat)
    requires TableOk(head, log) && i < |head|
    ensures BucketOk(head[i], log, i)
  {
  }

  lemma BucketSize<V>(s: seq<Node<V>>, log: nat, i: nat)
    requires BucketOk(s, log, i)
    ensures |BucketView(s)| == |s|
    ensures forall k :: k in BucketView(s) ==> Hash(k, log) == i
  {
    hide Hash;
    forall k ensures k in BucketView(s) ==> Hash(k, log) == i { InBucket(s, k); }
    InBucket(s, 0);
  }

  lemma DisjointSize<V>(a: map<nat, V>, b: map<nat, V>)
    requires a.Keys !! b.Keys
    ensures |a + b| == |a| + |b|
  {
    assert (a + b).Keys == a.Keys + b.Keys;
    assert |(a + b).Keys| == |a.Keys| + |b.Keys|;
  }

  /** The table has as many bindings as nodes. */
  lemma {:induction false} SizeUpTo<V>(head: seq<seq<Node<V>>>, log: nat, n: nat)
    requires TableOk(head, log) && n <= |head|
    ensures |View(head[..n])| == Count(head[..n])
    decreases n
  {
    hide Hash, BucketView, TableOk, BucketOk;
    if n > 0 {
      SizeUpTo(head, log, n - 1);
      assert head[..n][..n - 1] == head[..n - 1] && head[..n][n - 1] == head[n - 1];
      BucketIs(head, log, n - 1);
      BucketSize(head[n - 1], log, n - 1);
      forall k: nat ensures k in View(head[..n - 1]) ==> Hash(k, log) < n - 1 { ViewUpTo(head, log, n - 1, k); }
      DisjointSize(View(head[..n - 1]), BucketView(head[n - 1]));
    }
  }

  lemma TableSize<V>(head: seq<seq<Node<V>>>, log: nat)
    requires TableOk(head, log)
    ensures |View(head)| == Count(head)
  {
    SizeUpTo(head, log, |head|);
    assert head[..|head|] == head;
  }

  lemma {:induction false} CountSet<V>(head: seq<seq<Node<V>>>, i: nat, s: seq<Node<V>>)
    requires i < |head|
    ensures Count(head[i := s]) == Count(head) - |head[i]| + |s|
    ensures |head[i]| <= Count(head)
  {
    var n := |head| - 1;
    if i < n {
      CountSet(head[..n], i, s);
      assert head[i := s][..n] == head[..n][i := s];
    } else {
      assert head[i := s][..n] == head[..n];
    }
  }

  /** One chain is replaced. */
  lemma ChainReplaced<V>(head: seq<seq<Node<V>>>, log: nat, i: nat, s: seq<Node<V>>)
    requires TableOk(head, log) && i < |head| && BucketOk(s, log, i)
    ensures TableOk(head[i := s], log)
    ensures forall k :: k in View(head[i := s]) <==> if Hash(k, log) == i then k in BucketView(s) else k in View(head)
    ensures forall k :: k in View(head[i := s]) ==>
              View(head[i := s])[k] == if Hash(k, log) == i then BucketView(s)[k] else View(head)[k]
  {
    hide Hash, BucketOk;
    assert TableOk(head[i := s], log);
    forall k: nat
      ensures k in View(head[i := s]) <==> if Hash(k, log) == i then k in BucketView(s) else k in View(head)
      ensures k in View(head[i := s]) ==>
                View(head[i := s])[k] == if Hash(k, log) == i then BucketView(s)[k] else View(head)[k]
    {
      ViewAt(head[i := s], log, k);
      ViewAt(head, log, k);
    }
  }

  /** What binds or unbinds a key in one chain does so in the table. */
  lemma LocalChange<V>(head: seq<seq<Node<V>>>, log: nat, i: nat, s: seq<Node<V>>, view: map<nat, V>)
    requires TableOk(head, log) && i < |head| && BucketOk(s, log, i)
    requires forall k: nat :: Hash(k, log) != i ==> (k in view <==> k in View(head)) && (k in view ==> view[k] == View(head)[k])
    requires forall k: nat :: Hash(k, log) == i ==> (k in view <==> k in BucketView(s)) && (k in view ==> view[k] == BucketView(s)[k])
    ensures TableOk(head[i := s], log) && View(head[i := s]) == view
  {
    hide Hash, View, BucketView, TableOk, BucketOk;
    ChainReplaced(head, log, i, s);
    assert View(head[i := s]) == view;
  }

  lemma InView<V>(head: seq<seq<Node<V>>>, log: nat, i: nat)
    requires TableOk(head, log) && i < |head|
    ensures forall k: nat :: Hash(k, log) == i ==>
              (k in View(head) <==> k in BucketView(head[i])) && (k in View(head) ==> View(head)[k] == BucketView(head[i])[k])
  {
    hide Hash, View, BucketView, TableOk;
    forall k: nat | Hash(k, log) == i
      ensures (k in View(head) <==> k in BucketView(head[i])) && (k in View(head) ==> View(head)[k] == BucketView(head[i])[k])
    {
      ViewAt(head, log, k);
    }
  }

  lemma PushBucket<V>(s: seq<Node<V>>, log: nat, i: nat, n: Node<V>)
    requires BucketOk(s, log, i) && Hash(n.key, log) == i && n.key !in BucketView(s)
    ensures BucketOk([n] + s, log, i) && BucketView([n] + s) == BucketView(s)[n.key := n.value]
  {
    hide Hash;
    InBucket(s, n.key);
    assert ([n] + s)[1..] == s;
  }

  /** A node in front of its chain binds its key. */
  lemma Pushed<V>(head: seq<seq<Node<V>>>, log: nat, n: Node<V>)
    requires TableOk(head, log) && n.key !in View(head)
    ensures Hash(n.key, log) < |head|
    ensures var i := Hash(n.key, log); TableOk(head[i := [n] + head[i]], log)
    ensures var i := Hash(n.key, log); View(head[i := [n] + head[i]]) == View(head)[n.key := n.value]
  {
    hide Hash, View, BucketView, TableOk, BucketOk;
    var i := Hash(n.key, log);
    ViewAt(head, log, n.key);
    BucketIs(head, log, i);
    PushBucket(head[i], log, i, n);
    InView(head, log, i);
    LocalChange(head, log, i, [n] + head[i], View(head)[n.key := n.value]);
  }

  lemma RemoveBucket<V>(s: seq<Node<V>>, log: nat, i: nat, j: nat)
    requires BucketOk(s, log, i) && j < |s|
    ensures BucketOk(Without(s, j), log, i) && BucketView(Without(s, j)) == BucketView(s) - {s[j].key}
    ensures s[j].key in BucketView(s) && BucketView(s)[s[j].key] == s[j].value
  {
    hide Hash, BucketView;
    var r := Without(s, j);
    WithoutAt(s, j);
    forall k: nat
      ensures k in BucketView(r) <==> k != s[j].key && k in BucketView(s)
      ensures k in BucketView(r) ==> BucketView(r)[k] == BucketView(s)[k]
    {
      StillBound(s, j, k);
    }
    assert BucketView(r) == BucketView(s) - {s[j].key};
    InBucket(s, s[j].key);
  }

  lemma WithoutAt<V>(s: seq<Node<V>>, j: nat)
    requires j < |s|
    ensures |Without(s, j)| == |s| - 1
    ensures forall l :: 0 <= l < j ==> Without(s, j)[l] == s[l]
    ensures forall l :: j <= l < |s| - 1 ==> Without(s, j)[l] == s[l + 1]
  {
  }

  lemma StillBound<V>(s: seq<Node<V>>, j: nat, k: nat)
    requires j < |s| && forall l, m :: 0 <= l < m < |s| ==> s[l].key != s[m].key
    ensures k in BucketView(Without(s, j)) <==> k != s[j].key && k in BucketView(s)
    ensures k in BucketView(Without(s, j)) ==> BucketView(Without(s, j))[k] == BucketView(s)[k]
  {
    hide BucketView, Without;
    var r := Without(s, j);
    WithoutAt(s, j);
    InBucket(s, k);
    InBucket(r, k);
    if k in BucketView(r) {
      var l: nat :| l < |r| && r[l].key == k;
      assert r[l] == if l < j then s[l] else s[l + 1];
    }
    if k != s[j].key && k in BucketView(s) {
      var l: nat :| l < |s| && s[l].key == k;
      assert s[l] == if l < j then r[l] else r[l - 1];
    }
  }

  /** Taking out the j-th node of a chain unbinds its key. */
  lemma Removed<V>(head: seq<seq<Node<V>>>, log: nat, i: nat, j: nat)
    requires TableOk(head, log) && i < |head| && j < |head[i]|
    ensures TableOk(head[i := Without(head[i], j)], log)
    ensures head[i][j].key in View(head) && View(head)[head[i][j].key] == head[i][j].value && Hash(head[i][j].key, log) == i
    ensures View(head[i := Without(head[i], j)]) == View(head) - {head[i][j].key}
  {
    hide Hash, View, BucketView, TableOk, Without;
    BucketIs(head, log, i);
    RemoveBucket(head[i], log, i, j);
    InView(head, log, i);
    LocalChange(head, log, i, Without(head[i], j), View(head) - {head[i][j].key});
  }

  lemma RebindBucket<V>(s: seq<Node<V>>, log: nat, i: nat, j: nat, v: V)
    requires BucketOk(s, log, i) && j < |s|
    ensures var r := s[j := Node(s[j].key, v)]; BucketOk(r, log, i) && BucketView(r) == BucketView(s)[s[j].key := v]
  {
    hide Hash, BucketView;
    var r := s[j := Node(s[j].key, v)];
    forall k: nat
      ensures k in BucketView(r) <==> k in BucketView(s)
      ensures k in BucketView(r) ==> BucketView(r)[k] == BucketView(s)[s[j].key := v][k]
    {
      InBucket(s, k);
      InBucket(r, k);
      if k in BucketView(r) { var l :| 0 <= l < |r| && r[l].key == k; assert s[l].key == k; }
      if l :| 0 <= l < |s| && s[l].key == k { assert r[l].key == k; }
    }
    InBucket(s, s[j].key);
    assert BucketView(r) == BucketView(s)[s[j].key := v];
  }

  /** Changing the value in the j-th node of a chain rebinds its key. */
  lemma Rebound<V>(head: seq<seq<Node<V>>>, log: nat, i: nat, j: nat, v: V)
    requires TableOk(head, log) && i < |head| && j < |head[i]|
    ensures head[i][j].key in View(head) && View(head)[head[i][j].key] == head[i][j].value
    ensures TableOk(head[i := head[i][j := Node(head[i][j].key, v)]], log)
    ensures View(head[i := head[i][j := Node(head[i][j].key, v)]]) == View(head)[head[i][j].key := v]
  {
    hide Hash, View, BucketView, TableOk;
    BucketIs(head, log, i);
    RemoveBucket(head[i], log, i, j);
    RebindBucket(head[i], log, i, j, v);
    InView(head, log, i);
    LocalChange(head, log, i, head[i][j := Node(head[i][j].key, v)], View(head)[head[i][j].key := v]);
  }

  lemma {:induction false} EmptyTable<V>(head: seq<seq<Node<V>>>)
    requires forall i :: 0 <= i < |head| ==> head[i] == []
    ensures View(head) == map[] && Count(head) == 0
  {
    if head != [] { EmptyTable(head[..|head| - 1]); }
  }

  /** The j-th node of chain i is not among those before it. */
  lemma NotBefore<V>(head: seq<seq<Node<V>>>, log: nat, i: nat, j: nat)
    requires TableOk(head, log) && i < |head| && j < |head[i]|
    ensures head[i][j].key !in View(head[..i]) && head[i][j].key !in BucketView(head[i][..j])
    ensures BucketView(head[i][..j + 1]) == BucketView(head[i][..j])[head[i][j].key := head[i][j].value]
  {
    hide Hash, View, BucketView;
    var k := head[i][j].key;
    BucketIs(head, log, i);
    ViewUpTo(head, log, i, k);
    InBucket(head[i][..j], k);
    TakeMore(head[i], j);
  }

  lemma {:induction false} TakeMore<V>(s: seq<Node<V>>, j: nat)
    requires j < |s| && forall l, m :: 0 <= l < m < |s| ==> s[l].key != s[m].key
    ensures BucketView(s[..j + 1]) == BucketView(s[..j])[s[j].key := s[j].value]
  {
    if j == 0 {
      assert s[..1] == [s[0]] && [s[0]][1..] == [];
      assert BucketView(s[..1]) == map[s[0].key := s[0].value];
      assert s[..0] == [];
    } else {
      TakeMore(s[1..], j - 1);
      assert s[..j + 1][1..] == s[1..][..j] && s[..j][1..] == s[1..][..j - 1];
      assert s[1..][j - 1] == s[j] && s[..j + 1][0] == s[0] && s[..j][0] == s[0];
      assert s[0].key != s[j].key;
    }
  }

  lemma ViewMore<V>(head: seq<seq<Node<V>>>, i: nat)
    requires i < |head|
    ensures View(head[..i + 1]) == View(head[..i]) + BucketView(head[i])
    ensures Count(head[..i + 1]) == Count(head[..i]) + |head[i]|
  {
    assert head[..i + 1][..i] == head[..i];
  }

  lemma FreshTable<V>(head: seq<seq<Node<V>>>, log: nat)
    requires |head| == Pow2(log) && forall i :: 0 <= i < |head| ==> head[i] == []
    ensures TableOk(head, log) && View(head) == map[] && Count(head) == 0
  {
    hide Hash, View;
    EmptyTable(head);
  }

  lemma EmptyBucket<V>(s: seq<Node<V>>)
    ensures BucketView(s[..0]) == map[]
  {
  }

  lemma NoChains<V>(head: seq<seq<Node<V>>>)
    ensures View(head[..0]) == map[] && Count(head[..0]) == 0
  {
  }

  lemma TableLength<V>(head: seq<seq<Node<V>>>, log: nat)
    requires TableOk(head, log)
    ensures |head| == Pow2(log) && 0 < |head|
  {
  }

  lemma FoundValue<V>(head: seq<seq<Node<V>>>, log: nat, i: nat, j: nat)
    requires TableOk(head, log) && i < |head| && j < |head[i]|
    ensures head[i][j].key in View(head) && View(head)[head[i][j].key] == head[i][j].value
  {
    hide Hash, View, BucketView, TableOk;
    Removed(head, log, i, j);
  }
}
