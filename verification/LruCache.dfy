/** The pointer-based cache of `h1_lru.verified.js`: a hash map into a doubly
    linked list between two sentinels, refined to a sequence of entries. */
module LruCache {

  /** Keys are only compared, never computed with; values are numbers, because
      `get` answers -1 for an absent key. */
  type Key = int
  type Entry = (Key, int)

  // ---------- the abstract cache: entries in list order, head side first ----------

  ghost predicate Distinct(s: seq<Entry>) {
    forall i, j :: 0 <= i < j < |s| ==> s[i].0 != s[j].0
  }

  /** First position at or after `from` that holds `k`, or `|s|`. */
  function IndexFrom(s: seq<Entry>, k: Key, from: nat): (i: nat)
    requires from <= |s|
    ensures from <= i <= |s|
    ensures i < |s| ==> s[i].0 == k
    ensures forall j :: from <= j < i ==> s[j].0 != k
    decreases |s| - from
  {
    if from == |s| || s[from].0 == k then from else IndexFrom(s, k, from + 1)
  }

  /** Position of `k`, or `|s|` when it is absent. */
  function IndexOf(s: seq<Entry>, k: Key): nat {
    IndexFrom(s, k, 0)
  }

  predicate Has(s: seq<Entry>, k: Key) {
    IndexOf(s, k) < |s|
  }

  lemma {:induction false} UpdateToEnd<T>(s: seq<T>, i: nat, e: T)
    requires i < |s|
    ensures ToEnd(s[i := e], i) == s[..i] + s[i + 1..] + [e]
  {
  }

  function ToEnd<T>(s: seq<T>, i: nat): seq<T>
    requires i < |s|
  {
    s[..i] + s[i + 1..] + [s[i]]
  }

  function Lookup(s: seq<Entry>, k: Key): int {
    if Has(s, k) then s[IndexOf(s, k)].1 else -1
  }

  /** A hit moves the entry to the tail side. */
  function AfterGet(s: seq<Entry>, k: Key): seq<Entry> {
    if Has(s, k) then ToEnd(s, IndexOf(s, k)) else s
  }

  /** What `put` does to the list. After an eviction that leaves more than one
      entry, the new entry goes to the head side. */
  function AfterPut(s: seq<Entry>, cap: nat, k: Key, v: int): seq<Entry> {
    if Has(s, k) then ToEnd(s[IndexOf(s, k) := (k, v)], IndexOf(s, k))
    else if |s| < cap || s == [] then s + [(k, v)]
    else if |s| > 2 then [(k, v)] + s[1..]
    else s[1..] + [(k, v)]
  }

  lemma {:induction false} PutOfAbsent(s: seq<Entry>, cap: nat, k: Key, v: int)
    requires !Has(s, k) && 0 < cap && |s| <= cap
    ensures var rest := if |s| >= cap then s[1..] else s;
      AfterPut(s, cap, k, v) == if |s| >= cap && |rest| > 1 then [(k, v)] + rest else rest + [(k, v)]
  {
  }

  // ---------- the heap ----------

  class Node {
    var key: Key
    var value: int
    var prev: Node?
    var next: Node?

    constructor (key: Key, value: int)
      ensures this.key == key && this.value == value
      ensures prev == null && next == null
    {
      this.key := key;
      this.value := value;
      prev := null;
      next := null;
    }
  }

  /** The entries held by a list of nodes. */
  ghost function EntriesOf(ns: seq<Node>): (s: seq<Entry>)
    reads ns
    ensures |s| == |ns|
    ensures forall i :: 0 <= i < |s| ==> s[i] == (ns[i].key, ns[i].value)
  {
    seq(|ns|, i requires 0 <= i < |ns| reads ns => (ns[i].key, ns[i].value))
  }

  lemma {:induction false} EntriesAppend(a: seq<Node>, b: seq<Node>)
    ensures EntriesOf(a + b) == EntriesOf(a) + EntriesOf(b)
  {
  }

  lemma {:induction false} EntriesWithout(ns: seq<Node>, i: nat)
    requires i < |ns|
    ensures EntriesOf(ns[..i] + ns[i + 1..]) == EntriesOf(ns)[..i] + EntriesOf(ns)[i + 1..]
  {
  }

  lemma {:induction false} RemovedNodes(was: seq<Node>, now: seq<Node>, i: nat)
    requires 0 < i < |was| - 1 && now == was[..i] + was[i + 1..]
    ensures forall n :: n in now || n == was[i] <==> n in was
    ensures now[1..|now| - 1] == was[1..|was| - 1][..i - 1] + was[1..|was| - 1][i..]
  {
    forall j | 0 <= j < |was| ensures was[j] in now || was[j] == was[i] {
      assert j != i ==> was[j] == now[if j < i then j else j - 1];
    }
  }

  class LRUCache {
    const capacity: nat
    var table: map<Key, Node>
    const head: Node
    const tail: Node
    /** All nodes in list order, the two sentinels included. */
    ghost var chain: seq<Node>

    /** The links run through the chain in both directions and no node occurs twice. */
    ghost predicate Linked()
      reads this`chain, chain
    {
      && 2 <= |chain| && chain[0] == head && chain[|chain| - 1] == tail
      && (forall i, j :: 0 <= i < j < |chain| ==> chain[i] != chain[j])
      && (forall i {:trigger chain[i].next} :: 0 <= i < |chain| - 1 ==> chain[i].next == chain[i + 1])
      && (forall i {:trigger chain[i].prev} :: 0 < i < |chain| ==> chain[i].prev == chain[i - 1])
    }

    /** The table holds exactly the listed nodes, each under its own key. */
    ghost predicate Indexed()
      reads this, chain
    {
      && |table| + 2 == |chain|
      && (forall n :: n in chain && n != head && n != tail ==> n.key in table && table[n.key] == n)
      && (forall k :: k in table ==> table[k] in chain && table[k] != head && table[k] != tail && table[k].key == k)
    }

    ghost predicate Valid()
      reads this, chain
    {
      0 < capacity && Linked() && Indexed() && |table| <= capacity
    }

    ghost function Entries(): seq<Entry>
      requires 2 <= |chain|
      reads this`chain, chain
    {
      EntriesOf(chain[1..|chain| - 1])
    }

    constructor (capacity: nat)
      requires 0 < capacity
      ensures Valid() && this.capacity == capacity && Entries() == []
      ensures fresh(chain)
    {
      this.capacity := capacity;
      table := map[];
      var h := new Node(0, 0);
      var t := new Node(0, 0);
      h.next := t;
      t.prev := h;
      head := h;
      tail := t;
      chain := [h, t];
    }

    /** Unlinks a listed node; its own pointers are left as they were. */
    method Remove(node: Node, ghost i: nat)
      requires Linked() && 0 < i < |chain| - 1 && chain[i] == node
      modifies chain`next, chain`prev, this`chain
      ensures Linked() && |chain| == |old(chain)| - 1
      ensures Entries() == old(Entries())[..i - 1] + old(Entries())[i..]
      ensures node !in chain && forall n :: n in chain || n == node <==> n in old(chain)
    {
      ghost var was, s := chain, Entries();
      ghost var listed := was[1..|was| - 1];
      assert was[i - 1] == node.prev && was[i + 1] == node.next;
      node.prev.next := node.next;
      node.next.prev := node.prev;
      chain := was[..i] + was[i + 1..];
      RemovedNodes(was, chain, i);
      assert EntriesOf(listed) == s;
      EntriesWithout(listed, i - 1);
    }

    method AddToHead(node: Node)
      requires Linked() && node !in chain
      modifies chain`next, chain`prev, node`next, node`prev, this`chain
      ensures Linked() && |chain| == |old(chain)| + 1
      ensures Entries() == [(node.key, node.value)] + old(Entries())
      ensures forall n :: n in chain <==> n in old(chain) || n == node
    {
      ghost var was, s := chain, Entries();
      ghost var listed := was[1..|was| - 1];
      node.next := head.next;
      node.prev := head;
      head.next.prev := node;
      head.next := node;
      chain := was[..1] + [node] + was[1..];
      assert chain[1..|chain| - 1] == [node] + listed;
      assert EntriesOf(listed) == s;
      EntriesAppend([node], listed);
    }

    method AddToTail(node: Node)
      requires Linked() && node !in chain
      modifies chain`next, chain`prev, node`next, node`prev, this`chain
      ensures Linked() && |chain| == |old(chain)| + 1
      ensures Entries() == old(Entries()) + [(node.key, node.value)]
      ensures forall n :: n in chain <==> n in old(chain) || n == node
    {
      ghost var was, s := chain, Entries();
      ghost var listed := was[1..|was| - 1];
      node.prev := tail.prev;
      node.next := tail;
      tail.prev.next := node;
      tail.prev := node;
      chain := was[..|was| - 1] + [node, tail];
      assert chain[1..|chain| - 1] == listed + [node];
      assert EntriesOf(listed) == s;
      EntriesAppend(listed, [node]);
    }

    method MoveToTail(node: Node, ghost i: nat)
      requires Linked() && 0 < i < |chain| - 1 && chain[i] == node
      modifies chain`next, chain`prev, this`chain
      ensures Linked() && |chain| == |old(chain)|
      ensures forall n :: n in chain <==> n in old(chain)
      ensures Entries() == ToEnd(old(Entries()), i - 1)
    {
      Remove(node, i);
      assert forall j :: 0 <= j < |chain| ==> chain[j] in old(chain);
      AddToTail(node);
    }

    /** Where a key's node stands in the list is where its entry stands. */
    lemma {:induction false} Position(k: Key)
      requires Valid()
      ensures Has(Entries(), k) <==> k in table
      ensures k in table ==> chain[IndexOf(Entries(), k) + 1] == table[k]
    {
      var s := Entries();
      if k in table {
        var i :| 0 < i < |chain| - 1 && chain[i] == table[k];
        assert s[i - 1].0 == k;
      }
    }

    method Get(key: Key) returns (value: int)
      requires Valid()
      modifies chain`next, chain`prev, this`chain
      ensures Valid() && table == old(table)
      ensures value == Lookup(old(Entries()), key)
      ensures Entries() == AfterGet(old(Entries()), key)
      ensures forall n :: n in chain <==> n in old(chain)
    {
      Position(key);
      if key !in table {
        return -1;
      }
      var node := table[key];
      MoveToTail(node, IndexOf(Entries(), key) + 1);
      return node.value;
    }

    /** `put` on a present key. */
    method Update(key: Key, value: int)
      requires Valid() && key in table
      modifies chain, this`chain
      ensures Valid()
      ensures forall n :: n in chain <==> n in old(chain)
      ensures Entries() == AfterPut(old(Entries()), capacity, key, value)
    {
      Position(key);
      var node := table[key];
      ghost var i, s := IndexOf(Entries(), key), Entries();
      node.value := value;
      assert Entries() == s[i := (key, value)];
      MoveToTail(node, i + 1);
    }

    /** The first half of an overflowing `put`: drops the entry at the head side. */
    method Evict()
      requires Linked() && Indexed() && 2 < |chain|
      modifies chain`next, chain`prev, this`chain, this`table
      ensures Linked() && Indexed() && |table| == old(|table|) - 1
      ensures table.Keys <= old(table.Keys)
      ensures forall n :: n in chain ==> n in old(chain)
      ensures Entries() == old(Entries())[1..]
    {
      var lru := head.next;
      assert lru == chain[1];
      assert forall n :: n in chain && n != head && n != tail && n != lru ==> n.key != lru.key;
      ghost var s := Entries();
      Remove(lru, 1);
      assert Entries() == s[1..];
      table := table - {lru.key};
    }

    /** The second half of `put` for an absent key. */
    method Insert(key: Key, value: int, insertAtHead: bool)
      requires Linked() && Indexed() && key !in table
      modifies chain`next, chain`prev, this`chain, this`table
      ensures Linked() && Indexed() && |table| == old(|table|) + 1
      ensures Entries() == if insertAtHead then [(key, value)] + old(Entries()) else old(Entries()) + [(key, value)]
      ensures forall n :: n in chain ==> n in old(chain) || fresh(n)
    {
      ghost var s := Entries();
      var node := new Node(key, value);
      assert forall n :: n in chain && n != head && n != tail ==> n.key != key;
      table := table[key := node];
      assert Entries() == s;
      if insertAtHead {
        AddToHead(node);
      } else {
        AddToTail(node);
      }
    }

    method Put(key: Key, value: int)
      requires Valid()
      modifies this, chain
      ensures Valid()
      ensures forall n :: n in chain ==> n in old(chain) || fresh(n)
      ensures Entries() == AfterPut(old(Entries()), capacity, key, value)
    {
      Position(key);
      if key in table {
        Update(key, value);
        return;
      }
      ghost var s := Entries();
      PutOfAbsent(s, capacity, key, value);
      var insertAtHead := false;
      if |table| >= capacity {
        Evict();
        insertAtHead := |table| > 1;
      }
      assert Entries() == if |s| >= capacity then s[1..] else s;
      assert forall j :: 0 <= j < |chain| ==> chain[j] in old(chain);
      Insert(key, value, insertAtHead);
    }
  }
}
