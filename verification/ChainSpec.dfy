/** Hash tables of chained nodes, and the finite map that such a table stands for. */
module ChainSpec {
  /** A hash_chain_entry with what it belongs to: the obj of a disappearing link, or the finalizer of
      a finalizable object.  The key is what hidden_key hides. */
  datatype Node<V> = Node(key: nat, value: V)

  function Pow2(n: nat): (r: nat)
    ensures 0 < r
  {
    if n == 0 then 1 else 2 * Pow2(n - 1)
  }

  function ShiftRight(a: nat, n: nat): nat { if n == 0 then a else ShiftRight(a / 2, n - 1) }

  /** Bitwise exclusive or. */
  function Xor(a: nat, b: nat): nat
    decreases a + b
  {
    if a == 0 && b == 0 then 0 else 2 * Xor(a / 2, b / 2) + (a + b) % 2
  }

  /** HASH3: the chain that key belongs to in a table of size 2^log. */
  function Hash(key: nat, log: nat): (h: nat)
    ensures h < Pow2(log)
  {
    Xor(ShiftRight(key, 3), ShiftRight(key, 3 + log)) % Pow2(log)
  }

  /** The chain s is the i-th of a table: its keys belong there and differ. */
  ghost predicate BucketOk<V>(s: seq<Node<V>>, log: nat, i: nat) {
    && (forall j :: 0 <= j < |s| ==> Hash(s[j].key, log) == i)
    && (forall j, k :: 0 <= j < k < |s| ==> s[j].key != s[k].key)
  }

  ghost predicate TableOk<V>(head: seq<seq<Node<V>>>, log: nat) {
    |head| == Pow2(log) && forall i: nat :: i < |head| ==> BucketOk(head[i], log, i)
  }

  function Count<V>(head: seq<seq<Node<V>>>): nat {
    if head == [] then 0 else Count(head[..|head| - 1]) + |head[|head| - 1]|
  }

  /** The bindings of one chain. */
  function BucketView<V>(s: seq<Node<V>>): map<nat, V> {
    if s == [] then map[] else BucketView(s[1..])[s[0].key := s[0].value]
  }

  /** The bindings of a table. */
  function View<V>(head: seq<seq<Node<V>>>): map<nat, V> {
    if head == [] then map[] else View(head[..|head| - 1]) + BucketView(head[|head| - 1])
  }

  /** All nodes of a chain or table, however often. */
  function Nodes<V(==)>(head: seq<seq<Node<V>>>): multiset<Node<V>> {
    if head == [] then multiset{} else Nodes(head[..|head| - 1]) + multiset(head[|head| - 1])
  }

  function Without<V>(s: seq<Node<V>>, j: nat): seq<Node<V>>
    requires j < |s|
  {
    s[..j] + s[j + 1..]
  }
}
