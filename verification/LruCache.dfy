/** The LRU cache of `lru_cache.c`: a doubly linked list between two sentinels, indexed by key. */
module LruCache {

  class Node {
    var key: int
    var val: int
    var prev: Node?
    var next: Node?

    /** `node_create` */
    constructor (key: int, val: int)
      ensures this.key == key && this.val == val && prev == null && next == null
    {
      this.key, this.val, prev, next := key, val, null, null;
    }
  }

  // ---------------------------------------------------------------- linked chains

  /** The nodes are all different and linked both ways in this order. */
  ghost predicate Linked(c: seq<Node>)
    reads c
  {
    (forall i, j | 0 <= i < j < |c| :: c[i] != c[j]) &&
    (forall i {:trigger c[i].next} | 0 <= i < |c| - 1 :: c[i].next == c[i + 1]) &&
    (forall i {:trigger c[i].prev} | 0 < i < |c| :: c[i].prev == c[i - 1])
  }

  function Without<T>(c: seq<T>, i: nat): (r: seq<T>)
    requires i < |c|
    ensures |r| == |c| - 1
    ensures forall j: nat {:trigger r[j]} | j < |r| :: r[j] == c[if j < i then j else j + 1]
  {
    c[..i] + c[i + 1..]
  }

  function InsertSecond<T>(c: seq<T>, x: T): (r: seq<T>)
    requires |c| >= 1
    ensures |r| == |c| + 1
    ensures forall j: nat {:trigger r[j]} | j < |r| :: r[j] == if j == 0 then c[0] else if j == 1 then x else c[j - 1]
  {
    [c[0], x] + c[1..]
  }

  /** `remove_node`: the node's neighbours close up over it. */
  method RemoveNode(node: Node, ghost c: seq<Node>, ghost i: nat)
    requires Linked(c) && 0 < i < |c| - 1 && c[i] == node
    modifies c`next, c`prev
    ensures Linked(Without(c, i))
  {
    node.prev.next := node.next;
    node.next.prev := node.prev;
  }

  /** `add_to_head`: the node goes between the head sentinel and the first node. */
  method AddToHead(head: Node, node: Node, ghost c: seq<Node>)
    requires Linked(c) && |c| >= 2 && c[0] == head && node !in c
    modifies node`prev, node`next, c`next, c`prev
    ensures Linked(InsertSecond(c, node))
  {
    node.prev := head;
    node.next := head.next;
    head.next.prev := node;
    head.next := node;
  }

  // ---------------------------------------------------------------- the cache as a list, most recently used first

  datatype Entry = Entry(key: int, val: int)

  /** Position of the key in the list, or -1. */
  function IndexOf(es: seq<Entry>, key: int): (i: int)
    ensures -1 <= i < |es|
    ensures i >= 0 ==> es[i].key == key
    ensures i < 0 ==> forall j | 0 <= j < |es| :: es[j].key != key
  {
    if es == [] then -1
    else if es[|es| - 1].key == key then |es| - 1
    else IndexOf(es[..|es| - 1], key)
  }

  /** Entry i, replaced by e, in front of the others. */
  function Promoted(es: seq<Entry>, i: nat, e: Entry): (r: seq<Entry>)
    requires i < |es|
  {
    [e] + Without(es, i)
  }

  /** What `get` leaves: a hit moves to the front. */
  function AfterGet(es: seq<Entry>, key: int): seq<Entry>
  {
    var i := IndexOf(es, key);
    if i < 0 then es else Promoted(es, i, es[i])
  }

  /** What `put` leaves: a known key moves to the front with the new value; a new one goes there, and
      the last entry is dropped if that makes one too many. */
  function AfterPut(es: seq<Entry>, key: int, val: int, capacity: int): seq<Entry>
  {
    var i := IndexOf(es, key);
    if i >= 0 then Promoted(es, i, Entry(key, val))
    else if |es| + 1 > capacity then ([Entry(key, val)] + es)[..|es|]
    else [Entry(key, val)] + es
  }

  const KEYS := 10000

  /** The index: the node of every listed key, and nothing else. */
  ghost predicate IndexOk(index: seq<Node?>, chain: seq<Node>, es: seq<Entry>)
  {
    |index| == KEYS && |chain| == |es| + 2 &&
    (forall i: nat {:trigger es[i]} | i < |es| :: 0 <= es[i].key < KEYS && index[es[i].key] == chain[i + 1]) &&
    (forall k | 0 <= k < KEYS && index[k] != null :: IndexOf(es, k) >= 0)
  }

  /** The inner nodes carry the entries. */
  ghost predicate Labelled(chain: seq<Node>, es: seq<Entry>)
    reads chain
  {
    |chain| == |es| + 2 &&
    forall i: nat {:trigger es[i]} | i < |es| :: chain[i + 1].key == es[i].key && chain[i + 1].val == es[i].val
  }

  lemma LabelledPromoted(chain: seq<Node>, es: seq<Entry>, i: nat)
    requires Labelled(chain, es) && i < |es|
    ensures Labelled(InsertSecond(Without(chain, i + 1), chain[i + 1]), Promoted(es, i, es[i]))
  {
  }

  /** `remove_node` followed by `add_to_head` */
  method Relink(head: Node, node: Node, ghost c: seq<Node>, ghost i: nat, ghost es: seq<Entry>)
    requires Linked(c) && i < |es| && Labelled(c, es) && c[i + 1] == node && c[0] == head
    modifies c`next, c`prev
    ensures Linked(InsertSecond(Without(c, i + 1), node))
    ensures Labelled(InsertSecond(Without(c, i + 1), node), Promoted(es, i, es[i]))
  {
    hide Linked, Promoted;
    NotInRest(c, i + 1);
    RemoveNode(node, c, i + 1);
    AddToHead(head, node, Without(c, i + 1));
    LabelledPromoted(c, es, i);
  }

  /** `add_to_head` for a node that is not in the list */
  method LinkFirst(head: Node, node: Node, ghost c: seq<Node>, ghost es: seq<Entry>)
    requires Linked(c) && Labelled(c, es) && c[0] == head && node !in c
    modifies node`prev, node`next, c`next, c`prev
    ensures Linked(InsertSecond(c, node)) && Labelled(InsertSecond(c, node), [Entry(node.key, node.val)] + es)
  {
    hide Linked;
    AddToHead(head, node, c);
  }

  lemma LastNode(c: seq<Node>, es: seq<Entry>)
    requires Linked(c) && Labelled(c, es) && |es| >= 1
    ensures c[|c| - 1].prev == c[|es|] && c[|es|].key == es[|es| - 1].key
  {
  }

  /** `remove_node` for the last node before the tail */
  method UnlinkLast(node: Node, ghost c: seq<Node>, ghost es: seq<Entry>)
    requires Linked(c) && Labelled(c, es) && |es| >= 1 && node == c[|es|]
    modifies c`next, c`prev
    ensures Linked(Without(c, |es|)) && Labelled(Without(c, |es|), es[..|es| - 1])
  {
    hide Linked;
    RemoveNode(node, c, |es|);
  }

  ghost predicate Within(c: seq<Node>, was: seq<Node>)
  {
    forall i | 0 <= i < |c| :: c[i] in was
  }

  lemma RelinkedNodes(c: seq<Node>, i: nat)
    requires 0 < i < |c| - 1
    ensures var r := InsertSecond(Without(c, i), c[i]);
            |r| == |c| && r[0] == c[0] && r[|c| - 1] == c[|c| - 1] && Within(r, c)
  {
  }

  lemma NotInRest(c: seq<Node>, i: nat)
    requires i < |c| && Linked(c)
    ensures c[i] !in Without(c, i)
  {
  }

  /** The order is that of last use. */
  ghost predicate OrderOk(es: seq<Entry>, lastUse: map<int, int>, clock: int)
  {
    (forall i: nat {:trigger es[i]} | i < |es| :: es[i].key in lastUse && lastUse[es[i].key] <= clock) &&
    (forall i: nat, j: nat | i < j < |es| :: lastUse[es[i].key] > lastUse[es[j].key])
  }

  lemma IndexPromoted(index: seq<Node?>, chain: seq<Node>, es: seq<Entry>, i: nat)
    requires IndexOk(index, chain, es) && i < |es|
    ensures IndexOk(index, InsertSecond(Without(chain, i + 1), chain[i + 1]), Promoted(es, i, es[i]))
  {
    var es' := Promoted(es, i, es[i]);
    hide IndexOf;
    forall k | 0 <= k < KEYS && index[k] != null ensures IndexOf(es', k) >= 0 {
      var j := IndexOf(es, k);
      assert es'[if j == i then 0 else if j < i then j + 1 else j].key == k;
    }
  }

  lemma OrderPromoted(es: seq<Entry>, lastUse: map<int, int>, clock: int, i: nat)
    requires OrderOk(es, lastUse, clock) && i < |es| && forall j: nat | j < |es| && j != i :: es[j].key != es[i].key
    ensures OrderOk(Promoted(es, i, es[i]), lastUse[es[i].key := clock + 1], clock + 1)
  {
  }

  /** Listed keys differ, because their nodes do. */
  lemma KeysDiffer(index: seq<Node?>, chain: seq<Node>, es: seq<Entry>)
    requires IndexOk(index, chain, es) && forall i, j | 0 <= i < j < |chain| :: chain[i] != chain[j]
    ensures forall i: nat, j: nat | i < j < |es| :: es[i].key != es[j].key
  {
    forall i: nat, j: nat | i < j < |es| ensures es[i].key != es[j].key {
      assert chain[i + 1] != chain[j + 1];
    }
  }

  class LRUCache {
    const capacity: int
    var count: int
    const head: Node
    const tail: Node
    const index: array<Node?>   // `map`
    ghost var chain: seq<Node>
    ghost var entries: seq<Entry>
    ghost var clock: int
    ghost var lastUse: map<int, int>

    /** The list: head, one node for each entry in order, tail. */
    ghost predicate ListOk()
      reads this, chain
    {
      |chain| == |entries| + 2 && chain[0] == head && chain[|chain| - 1] == tail && Linked(chain) && Labelled(chain, entries)
    }

    ghost predicate Core()
      reads this, index, chain
    {
      index.Length == KEYS && ListOk() && IndexOk(index[..], chain, entries) && OrderOk(entries, lastUse, clock) && count == |entries|
    }

    ghost predicate Valid()
      reads this, index, chain
    {
      Core() && count <= if capacity > 0 then capacity else 0
    }

    /** `cache_create` */
    constructor (capacity: int)
      ensures Valid() && entries == [] && this.capacity == capacity && fresh(index) && fresh(set n | n in chain)
    {
      this.capacity := capacity;
      count := 0;
      var h := new Node(0, 0);
      var t := new Node(0, 0);
      h.next := t;
      t.prev := h;
      head, tail := h, t;
      index := new Node?[KEYS](_ => null);
      chain, entries, clock, lastUse := [h, t], [], 0, map[];
    }

    /** A hit: the node's place in the list. */
    lemma HitAt(key: int) returns (i: nat)
      requires Core() && 0 <= key < KEYS && index[key] != null
      ensures i < |entries| && entries[i].key == key && i == IndexOf(entries, key) && chain[i + 1] == index[key] && index[key].val == entries[i].val
    {
      i := IndexOf(entries, key);
    }

    lemma Miss(key: int)
      requires Core() && 0 <= key < KEYS && index[key] == null
      ensures IndexOf(entries, key) == -1
    {
    }

    /** Unlinking a node and putting it first; now it is the most recently used. */
    method MoveToFront(node: Node, ghost i: nat)
      requires Core() && i < |entries| && chain[i + 1] == node
      modifies this`chain, this`entries, this`clock, this`lastUse, chain`next, chain`prev
      ensures Core() && entries == Promoted(old(entries), i, old(entries[i]))
      ensures clock == old(clock) + 1 && lastUse == old(lastUse)[old(entries[i]).key := clock]
      ensures Within(chain, old(chain))
    {
      hide IndexOk, OrderOk, Promoted, Linked, Labelled, InsertSecond, Without, Within;
      ghost var e := entries[i];
      PromotionKeeps(i);
      RelinkedNodes(chain, i + 1);
      Relink(head, node, chain, i, entries);
      chain := InsertSecond(Without(chain, i + 1), node);
      entries := Promoted(entries, i, e);
      clock := clock + 1;
      lastUse := lastUse[e.key := clock];
    }

    /** `get` */
    method Get(key: int) returns (val: int)
      requires Valid() && 0 <= key < KEYS
      modifies this, chain
      ensures Valid() && entries == AfterGet(old(entries), key) && Within(chain, old(chain))
      ensures var i := IndexOf(old(entries), key);
              if i < 0 then val == -1 && lastUse == old(lastUse)
              else val == old(entries)[i].val && clock > old(clock) && lastUse == old(lastUse)[key := clock]
    {
      hide Linked, Labelled, IndexOk, OrderOk, IndexOf;
      var node := index[key];
      if node != null {
        ghost var i := HitAt(key);
        MoveToFront(node, i);
        PromotedSize(old(entries), i, old(entries)[i]);
        return node.val;
      }
      Miss(key);
      return -1;
    }

    /** The new value of a listed key. */
    method SetVal(node: Node, ghost i: nat, val: int)
      requires Core() && i < |entries| && chain[i + 1] == node
      modifies this`entries, node`val
      ensures Core() && entries == old(entries)[i := Entry(old(entries)[i].key, val)]
    {
      ghost var was := entries;
      node.val := val;
      entries := entries[i := Entry(entries[i].key, val)];
      SameKeys(was, entries, index[..], chain, lastUse, clock);
    }

    /** A new node in front. */
    method AddNew(key: int, val: int)
      requires Core() && 0 <= key < KEYS && index[key] == null
      modifies this, index, chain`next, chain`prev
      ensures Core() && entries == [Entry(key, val)] + old(entries)
      ensures clock == old(clock) + 1 && lastUse == old(lastUse)[key := clock]
      ensures forall i | 0 <= i < |chain| :: chain[i] in old(chain) || fresh(chain[i])
    {
      hide IndexOk, OrderOk, Linked, Labelled;
      var node := new Node(key, val);
      AdditionKeeps(node, key, val);
      ghost var was := index[..];
      index[key] := node;
      assert index[..] == was[key := node];
      LinkFirst(head, node, chain, entries);
      chain := InsertSecond(chain, node);
      entries := [Entry(key, val)] + entries;
      clock := clock + 1;
      lastUse := lastUse[key := clock];
      count := count + 1;
    }

    /** A new entry in front keeps the index and the order. */
    lemma AdditionKeeps(node: Node, key: int, val: int)
      requires Core() && 0 <= key < KEYS && index[key] == null
      ensures IndexOk(index[..][key := node], InsertSecond(chain, node), [Entry(key, val)] + entries)
      ensures OrderOk([Entry(key, val)] + entries, lastUse[key := clock + 1], clock + 1)
    {
      hide Linked, Labelled;
      Miss(key);
      IndexAdded(index[..], chain, entries, node, key, val);
      OrderAdded(entries, lastUse, clock, key, val);
    }

    /** Dropping the last node: no remaining entry was used less recently. */
    method EvictLast()
      requires Core() && |entries| >= 1
      modifies this, index, chain`next, chain`prev
      ensures Core() && entries == old(entries)[..|old(entries)| - 1]
      ensures Within(chain, old(chain))
      ensures lastUse == old(lastUse) && clock == old(clock)
      ensures var e := old(entries)[|old(entries)| - 1];
              e.key in lastUse && forall i: nat | i < |entries| :: entries[i].key in lastUse && lastUse[entries[i].key] > lastUse[e.key]
    {
      hide IndexOk, OrderOk, Linked, Labelled;
      ghost var n := |entries|;
      DropKeeps();
      LastNode(chain, entries);
      var lru := tail.prev;
      UnlinkLast(lru, chain, entries);
      ghost var was := index[..];
      index[lru.key] := null;
      assert index[..] == was[lru.key := null];
      chain := Without(chain, n);
      entries := entries[..n - 1];
      count := count - 1;
    }

    /** Dropping the last entry keeps the index and the order, and that entry was the least recently used. */
    lemma DropKeeps()
      requires Core() && |entries| >= 1
      ensures var n := |entries|; var e := entries[n - 1];
              0 <= e.key < KEYS && IndexOk(index[..][e.key := null], Without(chain, n), entries[..n - 1]) &&
              OrderOk(entries[..n - 1], lastUse, clock) && e.key in lastUse &&
              forall i: nat | i < n - 1 :: entries[i].key in lastUse && lastUse[entries[i].key] > lastUse[e.key]
    {
      IndexDropped(index[..], chain, entries);
    }

    /** `put` */
    method Put(key: int, val: int)
      requires Valid() && 0 <= key < KEYS
      modifies this, index, chain
      ensures Valid() && entries == AfterPut(old(entries), key, val, capacity)
      ensures clock > old(clock) && lastUse == old(lastUse)[key := clock]
      ensures forall i | 0 <= i < |chain| :: chain[i] in old(chain) || fresh(chain[i])
    {
      hide Linked, Labelled, IndexOk, OrderOk, IndexOf;
      var node := index[key];
      if node != null {
        ghost var i := HitAt(key);
        SetVal(node, i, val);
        PromotedAfterSet(entries, old(entries), i, Entry(key, val));
        MoveToFront(node, i);
      } else {
        Miss(key);
        AddNew(key, val);
        if count > capacity {
          EvictLast();
        }
      }
    }

    /** Promoting an entry keeps the index and the order. */
    lemma PromotionKeeps(i: nat)
      requires Core() && i < |entries|
      ensures var es := Promoted(entries, i, entries[i]);
              |es| == |entries| && IndexOk(index[..], InsertSecond(Without(chain, i + 1), chain[i + 1]), es) &&
              OrderOk(es, lastUse[entries[i].key := clock + 1], clock + 1)
    {
      KeysDiffer(index[..], chain, entries);
      IndexPromoted(index[..], chain, entries, i);
      OrderPromoted(entries, lastUse, clock, i);
      PromotedSize(entries, i, entries[i]);
    }
  }

  lemma PromotedSize(es: seq<Entry>, i: nat, e: Entry)
    requires i < |es|
    ensures |Promoted(es, i, e)| == |es|
  {
  }

  lemma PromotedAfterSet(es: seq<Entry>, was: seq<Entry>, i: nat, e: Entry)
    requires i < |was| && es == was[i := e]
    ensures Promoted(es, i, es[i]) == Promoted(was, i, e) && |Promoted(was, i, e)| == |was|
  {
    assert Without(es, i) == Without(was, i);
  }

  /** The index and the order depend on the keys alone. */
  lemma SameKeys(was: seq<Entry>, es: seq<Entry>, index: seq<Node?>, chain: seq<Node>, lastUse: map<int, int>, clock: int)
    requires |was| == |es| && forall i | 0 <= i < |es| :: es[i].key == was[i].key
    requires IndexOk(index, chain, was) && OrderOk(was, lastUse, clock)
    ensures IndexOk(index, chain, es) && OrderOk(es, lastUse, clock)
  {
    hide IndexOf;
    forall k | 0 <= k < KEYS && index[k] != null ensures IndexOf(es, k) >= 0 {
      var j := IndexOf(was, k);
      assert es[j].key == k;
    }
  }

  lemma IndexAdded(index: seq<Node?>, chain: seq<Node>, es: seq<Entry>, node: Node, key: int, val: int)
    requires IndexOk(index, chain, es) && 0 <= key < KEYS && IndexOf(es, key) < 0
    ensures IndexOk(index[key := node], InsertSecond(chain, node), [Entry(key, val)] + es)
  {
    var es' := [Entry(key, val)] + es;
    hide IndexOf;
    forall k | 0 <= k < KEYS && index[key := node][k] != null ensures IndexOf(es', k) >= 0 {
      assert es'[if k == key then 0 else IndexOf(es, k) + 1].key == k;
    }
  }

  lemma OrderAdded(es: seq<Entry>, lastUse: map<int, int>, clock: int, key: int, val: int)
    requires OrderOk(es, lastUse, clock) && IndexOf(es, key) < 0
    ensures OrderOk([Entry(key, val)] + es, lastUse[key := clock + 1], clock + 1)
  {
    hide IndexOf;
  }

  lemma IndexDropped(index: seq<Node?>, chain: seq<Node>, es: seq<Entry>)
    requires IndexOk(index, chain, es) && |es| >= 1 && forall i, j | 0 <= i < j < |chain| :: chain[i] != chain[j]
    ensures var n := |es|; IndexOk(index[es[n - 1].key := null], Without(chain, n), es[..n - 1])
  {
    var n := |es|;
    KeysDiffer(index, chain, es);
    hide IndexOf;
    forall k | 0 <= k < KEYS && k != es[n - 1].key && index[k] != null ensures IndexOf(es[..n - 1], k) >= 0 {
      assert es[..n - 1][IndexOf(es, k)].key == k;
    }
  }

  // ---------------------------------------------------------------- what the list operations mean

  ghost predicate DistinctKeys(es: seq<Entry>)
  {
    forall i, j | 0 <= i < j < |es| :: es[i].key != es[j].key
  }

  datatype Binding = Absent | Bound(val: int)

  function Lookup(es: seq<Entry>, key: int): Binding
  {
    var i := IndexOf(es, key);
    if i < 0 then Absent else Bound(es[i].val)
  }

  lemma LookupAt(es: seq<Entry>, i: nat)
    requires i < |es| && DistinctKeys(es)
    ensures Lookup(es, es[i].key) == Bound(es[i].val)
  {
  }

  /** Reading changes no binding. */
  lemma GetKeepsBindings(es: seq<Entry>, key: int, k: int)
    requires DistinctKeys(es)
    ensures DistinctKeys(AfterGet(es, key)) && Lookup(AfterGet(es, key), k) == Lookup(es, k)
  {
    var i := IndexOf(es, key);
    if i >= 0 {
      PromotedBindings(es, i, es[i], k);
    }
  }

  lemma PromotedBindings(es: seq<Entry>, i: nat, e: Entry, k: int)
    requires i < |es| && e.key == es[i].key && DistinctKeys(es)
    ensures var r := Promoted(es, i, e); DistinctKeys(r) && Lookup(r, k) == if k == e.key then Bound(e.val) else Lookup(es, k)
  {
    var r := Promoted(es, i, e);
    hide IndexOf;
    assert DistinctKeys(r);
    var j := IndexOf(es, k);
    if k == e.key {
      LookupAt(r, 0);
    } else if j >= 0 {
      LookupAt(r, if j < i then j + 1 else j);
    }
  }

  /** Writing binds the key, and unbinds at most the last listed one, and only to make room for a new key; a cache
      without capacity stays empty. */
  lemma PutBindings(es: seq<Entry>, key: int, val: int, capacity: int, k: int)
    requires DistinctKeys(es) && |es| <= if capacity > 0 then capacity else 0
    ensures var r := AfterPut(es, key, val, capacity);
            DistinctKeys(r) && |r| <= (if capacity > 0 then capacity else 0) &&
            Lookup(r, k) == if capacity <= 0 then Absent
                            else if k == key then Bound(val)
                            else if |es| == capacity && IndexOf(es, key) < 0 && k == es[|es| - 1].key then Absent
                            else Lookup(es, k)
  {
    if capacity <= 0 {
      assert AfterPut(es, key, val, capacity) == [];
    } else {
      PutBindingsWithRoom(es, key, val, capacity, k);
    }
  }

  lemma PutBindingsWithRoom(es: seq<Entry>, key: int, val: int, capacity: int, k: int)
    requires DistinctKeys(es) && |es| <= capacity && capacity > 0
    ensures var r := AfterPut(es, key, val, capacity);
            DistinctKeys(r) && |r| <= capacity &&
            Lookup(r, k) == if k == key then Bound(val)
                            else if |es| == capacity && IndexOf(es, key) < 0 && k == es[|es| - 1].key then Absent
                            else Lookup(es, k)
  {
    hide IndexOf, DistinctKeys, Lookup, Promoted;
    var i := IndexOf(es, key);
    if i >= 0 {
      PromotedBindings(es, i, Entry(key, val), k);
      PromotedSize(es, i, Entry(key, val));
    } else {
      AddedBindings(es, key, val, if |es| == capacity then |es| else |es| + 1, k);
      assert ([Entry(key, val)] + es)[..|es| + 1] == [Entry(key, val)] + es;
    }
  }

  /** A new entry in front, of which the first n entries stay. */
  lemma AddedBindings(es: seq<Entry>, key: int, val: int, n: nat, k: int)
    requires DistinctKeys(es) && IndexOf(es, key) < 0 && 1 <= n && |es| <= n <= |es| + 1
    ensures var r := ([Entry(key, val)] + es)[..n];
            DistinctKeys(r) &&
            Lookup(r, k) == if k == key then Bound(val) else if n == |es| && k == es[|es| - 1].key then Absent else Lookup(es, k)
  {
    hide IndexOf, DistinctKeys;
    var r := ([Entry(key, val)] + es)[..n];
    AddedDistinct(es, key, val, n);
    var j := IndexOf(es, k);
    if k == key {
      LookupAt(r, 0);
    } else if 0 <= j < n - 1 {
      LookupAt(r, j + 1);
      KeysApart(es, j, |es| - 1);
    } else {
      AddedMiss(es, key, val, n, k);
    }
  }

  lemma KeysApart(es: seq<Entry>, i: nat, j: nat)
    requires DistinctKeys(es) && i < |es| && j < |es|
    ensures es[i].key == es[j].key <==> i == j
  {
  }

  lemma AddedDistinct(es: seq<Entry>, key: int, val: int, n: nat)
    requires DistinctKeys(es) && IndexOf(es, key) < 0 && n <= |es| + 1
    ensures DistinctKeys(([Entry(key, val)] + es)[..n])
  {
    hide IndexOf;
  }

  lemma AddedMiss(es: seq<Entry>, key: int, val: int, n: nat, k: int)
    requires DistinctKeys(es) && k != key && 1 <= n && |es| <= n <= |es| + 1 && (IndexOf(es, k) < 0 || IndexOf(es, k) >= n - 1)
    ensures Lookup(([Entry(key, val)] + es)[..n], k) == Absent && (IndexOf(es, k) >= 0 ==> n == |es| && k == es[|es| - 1].key)
    ensures n == |es| && k == es[|es| - 1].key ==> IndexOf(es, k) >= 0
  {
    hide IndexOf;
  }
}
