/** The tombstoned open-addressing map of `hashmap_bench.c`, as a finite map over every run. */
module HashMap {
  import opened ProbeTable

  datatype Entry = Entry(key: int, val: int)

  function Keys(es: seq<Entry>): (ks: seq<int>)
    ensures |ks| == |es| && forall i | 0 <= i < |es| :: ks[i] == es[i].key
  {
    if es == [] then [] else Keys(es[..|es| - 1]) + [es[|es| - 1].key]
  }

  /** The full slots hold exactly the bindings of m. */
  ghost predicate Holds(ctrl: seq<int>, es: seq<Entry>, m: map<int, int>)
    requires |ctrl| == |es|
  {
    (forall i | 0 <= i < |ctrl| && ctrl[i] >= 0 :: es[i].key in m && m[es[i].key] == es[i].val) &&
    (forall k | k in m :: exists i: nat :: Stores(ctrl, Keys(es), k, i))
  }

  /** The whole invariant of a table that represents m. */
  ghost predicate Represents(ctrl: seq<int>, es: seq<Entry>, hash: Hash, m: map<int, int>)
  {
    |ctrl| == |es| && Table(ctrl, Keys(es), hash) && Holds(ctrl, es, m)
  }

  lemma FindsBinding(ctrl: seq<int>, es: seq<Entry>, hash: Hash, m: map<int, int>, i: nat)
    requires Represents(ctrl, es, hash, m) && i < |ctrl| && ctrl[i] >= 0
    ensures es[i].key in m && m[es[i].key] == es[i].val
  {
  }

  lemma FindsNothing(ctrl: seq<int>, es: seq<Entry>, hash: Hash, m: map<int, int>, key: int)
    requires Represents(ctrl, es, hash, m) && forall i: nat :: !Stores(ctrl, Keys(es), key, i)
    ensures key !in m
  {
  }

  lemma KeysUpdate(es: seq<Entry>, idx: nat, e: Entry)
    requires idx < |es|
    ensures Keys(es[idx := e]) == Keys(es)[idx := e.key]
  {
    hide Keys;
  }

  /** Overwriting the value of a stored key. */
  lemma OverwriteRepresents(ctrl: seq<int>, es: seq<Entry>, hash: Hash, m: map<int, int>, idx: nat, val: int)
    requires Represents(ctrl, es, hash, m) && idx < |ctrl| && ctrl[idx] >= 0
    ensures Represents(ctrl, es[idx := Entry(es[idx].key, val)], hash, m[es[idx].key := val])
  {
    hide Keys, Table, Holds;
    KeysUpdate(es, idx, Entry(es[idx].key, val));
    assert Keys(es)[idx := es[idx].key] == Keys(es);
    OverwriteHolds(ctrl, es, hash, m, idx, val);
  }

  lemma OverwriteHolds(ctrl: seq<int>, es: seq<Entry>, hash: Hash, m: map<int, int>, idx: nat, val: int)
    requires Represents(ctrl, es, hash, m) && idx < |ctrl| && ctrl[idx] >= 0
    ensures Holds(ctrl, es[idx := Entry(es[idx].key, val)], m[es[idx].key := val])
  {
    hide Keys, Table;
    var es', m' := es[idx := Entry(es[idx].key, val)], m[es[idx].key := val];
    KeysUpdate(es, idx, es'[idx]);
    assert Keys(es') == Keys(es);
    forall i | 0 <= i < |ctrl| && ctrl[i] >= 0 ensures es'[i].key in m' && m'[es'[i].key] == es'[i].val {
      if i != idx {
        NoTwice(ctrl, es, hash, m, i, idx);
      }
    }
    assert Stores(ctrl, Keys(es), es[idx].key, idx);
  }

  lemma NoTwice(ctrl: seq<int>, es: seq<Entry>, hash: Hash, m: map<int, int>, i: nat, j: nat)
    requires Represents(ctrl, es, hash, m) && i < |ctrl| && j < |ctrl| && ctrl[i] >= 0 && ctrl[j] >= 0 && i != j
    ensures es[i].key != es[j].key
  {
    hide Keys, Holds;
    assert Keys(es)[i] == es[i].key && Keys(es)[j] == es[j].key;
  }

  /** Storing an absent key in an unused slot that its probe reaches. */
  lemma StoreRepresents(ctrl: seq<int>, es: seq<Entry>, hash: Hash, m: map<int, int>, key: int, val: int, n: nat, idx: nat)
    requires Represents(ctrl, es, hash, m) && idx < |ctrl| && ctrl[idx] < 0 && key !in m
    requires var h := Home(hash, key, |ctrl|); Dist(h, idx, |ctrl|) <= n && Passed(ctrl, Keys(es), key, h, n)
    requires forall i: nat :: !Stores(ctrl, Keys(es), key, i)
    ensures Represents(ctrl[idx := Tag(hash, key)], es[idx := Entry(key, val)], hash, m[key := val])
  {
    hide Keys, Table, Holds, Passed;
    KeysUpdate(es, idx, Entry(key, val));
    StoreKeeps(ctrl, Keys(es), hash, key, n, idx);
    StoreHolds(ctrl, es, m, key, val, idx, Tag(hash, key));
  }

  lemma StoreHolds(ctrl: seq<int>, es: seq<Entry>, m: map<int, int>, key: int, val: int, idx: nat, tag: nat)
    requires |ctrl| == |es| && Holds(ctrl, es, m) && idx < |ctrl| && ctrl[idx] < 0 && key !in m
    ensures Holds(ctrl[idx := tag], es[idx := Entry(key, val)], m[key := val])
  {
    hide Keys;
    var ctrl', es', m' := ctrl[idx := tag], es[idx := Entry(key, val)], m[key := val];
    KeysUpdate(es, idx, es'[idx]);
    forall k | k in m' ensures exists i: nat :: Stores(ctrl', Keys(es'), k, i) {
      if k == key {
        assert Stores(ctrl', Keys(es'), k, idx);
      } else {
        var i: nat :| Stores(ctrl, Keys(es), k, i);
        assert Stores(ctrl', Keys(es'), k, i);
      }
    }
  }

  /** Turning a full slot into a tombstone removes its binding. */
  lemma DeleteRepresents(ctrl: seq<int>, es: seq<Entry>, hash: Hash, m: map<int, int>, idx: nat)
    requires Represents(ctrl, es, hash, m) && idx < |ctrl| && ctrl[idx] >= 0
    ensures Represents(ctrl[idx := CTRL_DELETED], es, hash, m - {es[idx].key})
  {
    hide Keys, Table;
    var ctrl', m' := ctrl[idx := CTRL_DELETED], m - {es[idx].key};
    DeleteKeeps(ctrl, Keys(es), hash, idx);
    forall i | 0 <= i < |ctrl'| && ctrl'[i] >= 0 ensures es[i].key in m' && m'[es[i].key] == es[i].val {
      NoTwice(ctrl, es, hash, m, i, idx);
    }
    forall k | k in m' ensures exists i: nat :: Stores(ctrl', Keys(es), k, i) {
      var i: nat :| Stores(ctrl, Keys(es), k, i);
      assert Stores(ctrl', Keys(es), k, i);
    }
  }

  class HashMap {
    const hash: Hash
    var ctrl: array<int>
    var entries: array<Entry>
    var len: int
    var cap: int
    var growthLeft: int
    ghost var contents: map<int, int>

    /** Besides representing `contents`, the table keeps its accounts: `growth_left`, the full slots and the
        tombstones make up the load limit. */
    ghost predicate Valid()
      reads this, ctrl, entries
    {
      ctrl.Length == entries.Length == cap && (cap == 0 || cap >= INITIAL_CAP) &&
      Represents(ctrl[..], entries[..], hash, contents) &&
      len == |contents| == Full(ctrl[..], cap) &&
      growthLeft >= 0 && growthLeft + Used(ctrl[..], cap) == MaxLoad(cap)
    }

    /** `hashmap_new` */
    constructor (hash: Hash, minCap: int)
      ensures Valid() && contents == map[] && this.hash == hash && fresh(ctrl) && fresh(entries)
      ensures minCap <= 0 ==> cap == 0
      ensures minCap > 0 ==> cap >= minCap && (cap == 8 || cap < 2 * minCap)
    {
      var c := 0;
      if minCap > 0 {
        c := INITIAL_CAP;
        while c < minCap
          invariant c >= INITIAL_CAP && (c == 8 || c < 2 * minCap)
        {
          c := c * 2;
        }
      }
      this.hash := hash;
      ctrl := new int[c](_ => CTRL_EMPTY);
      entries := new Entry[c](_ => Entry(0, 0));
      len, cap, growthLeft, contents := 0, c, MaxLoad(c), map[];
      new;
      AllEmpty(ctrl[..], cap);
    }

    /** The load account, in eighths of the capacity. */
    lemma LoadAccount()
      requires Valid()
      ensures var load := growthLeft + Used(ctrl[..], cap); 8 * load <= 7 * cap < 8 * load + 8
    {
      MaxLoadIs(cap);
    }

    /** A table that is not empty has an empty slot, because the load limit is below the capacity. */
    lemma EmptySlot()
      requires Valid() && cap > 0
      ensures CTRL_EMPTY in ctrl[..]
    {
      HasEmpty(ctrl[..], cap);
      assert ctrl[..][..cap] == ctrl[..];
    }

    /** `hashmap_get` */
    method Get(key: int) returns (val: int)
      requires Valid()
      ensures val == if key in contents then contents[key] else 0
    {
      hide Represents, Full, Used, MaxLoad, Keys, Home;
      if cap == 0 {
        assert key !in contents by { NothingStored(); }
        return 0;
      }
      var tag := Tag(hash, key);
      var idx := Home(hash, key, cap);
      ghost var h, ks := idx, Keys(entries[..]);
      var probes := 0;
      while probes < cap
        invariant 0 <= probes <= cap && 0 <= idx < cap && Passed(ctrl[..], ks, key, h, probes)
        invariant probes < cap ==> Dist(h, idx, cap) == probes
      {
        var c := ctrl[idx];
        TagsAgree(idx, key);
        if c == tag {
          if entries[idx].key == key {
            FindsBinding(ctrl[..], entries[..], hash, contents, idx);
            return entries[idx].val;
          }
        }
        if c == CTRL_EMPTY {
          Absent(key, probes, idx);
          return 0;
        }
        PassedNext(ctrl[..], ks, key, h, probes, idx);
        idx := Next(idx, cap);
        probes := probes + 1;
      }
      EmptySlot();
      NotAllPassed(ctrl[..], ks, key, h);
      assert false;  // the loop never runs out
    }

    lemma NothingStored()
      requires Valid() && cap == 0
      ensures contents == map[]
    {
    }

    /** A slot stores the key exactly when its tag and its key match. */
    lemma TagsAgree(idx: nat, key: int)
      requires Valid() && idx < cap
      ensures Stores(ctrl[..], Keys(entries[..]), key, idx) <==> ctrl[idx] == Tag(hash, key) && entries[idx].key == key
    {
      assert SlotOk(ctrl[..], Keys(entries[..]), hash, idx);
    }

    /** An empty slot on the probe path: the key is not in the map. */
    lemma Absent(key: int, probes: nat, idx: nat)
      requires Valid() && idx < cap && ctrl[idx] == CTRL_EMPTY
      requires var h := Home(hash, key, cap); Dist(h, idx, cap) == probes && Passed(ctrl[..], Keys(entries[..]), key, h, probes)
      ensures key !in contents && forall i: nat :: !Stores(ctrl[..], Keys(entries[..]), key, i)
    {
      EmptyMeansAbsent(ctrl[..], Keys(entries[..]), hash, key, probes, idx);
      FindsNothing(ctrl[..], entries[..], hash, contents, key);
    }

    /** `hashmap_remove` */
    method Remove(key: int) returns (removed: bool)
      requires Valid()
      modifies this, ctrl
      ensures Valid() && ctrl == old(ctrl) && entries == old(entries)
      ensures removed <==> key in old(contents)
      ensures contents == old(contents) - {key}
    {
      hide Represents, Full, Used, MaxLoad, Keys, Home;
      if cap == 0 {
        assert contents == map[] by { NothingStored(); }
        return false;
      }
      var tag := Tag(hash, key);
      var idx := Home(hash, key, cap);
      ghost var h, ks := idx, Keys(entries[..]);
      var probes := 0;
      while probes < cap
        invariant 0 <= probes <= cap && 0 <= idx < cap && Passed(ctrl[..], ks, key, h, probes)
        invariant probes < cap ==> Dist(h, idx, cap) == probes
        invariant ctrl[..] == old(ctrl[..]) && unchanged(this)
      {
        var c := ctrl[idx];
        TagsAgree(idx, key);
        if c == tag {
          if entries[idx].key == key {
            FindsBinding(ctrl[..], entries[..], hash, contents, idx);
            DeleteRepresents(ctrl[..], entries[..], hash, contents, idx);
            CountsAfter(ctrl[..], idx, CTRL_DELETED, cap);
            ghost var was := ctrl[..];
            ctrl[idx] := CTRL_DELETED;
            assert ctrl[..] == was[idx := CTRL_DELETED];
            len := len - 1;
            contents := contents - {key};
            return true;
          }
        }
        if c == CTRL_EMPTY {
          Absent(key, probes, idx);
          assert contents - {key} == contents;
          return false;
        }
        PassedNext(ctrl[..], ks, key, h, probes, idx);
        idx := Next(idx, cap);
        probes := probes + 1;
      }
      EmptySlot();
      NotAllPassed(ctrl[..], ks, key, h);
      assert false;  // the loop never runs out
    }

    /** The probe loop of `hashmap_insert`; the fall-through on lines 135 to 140 is never reached. */
    method InsertProbe(key: int, val: int)
      requires Valid() && cap > 0 && growthLeft > 0
      modifies this, ctrl, entries
      ensures Valid() && ctrl == old(ctrl) && entries == old(entries)
      ensures contents == old(contents)[key := val]
    {
      hide Represents, Full, Used, MaxLoad, Keys, Home;
      var tag := Tag(hash, key);
      var idx := Home(hash, key, cap);
      ghost var h, ks := idx, Keys(entries[..]);
      var firstDeleted := -1;
      var probes := 0;
      while probes < cap
        invariant ctrl[..] == old(ctrl[..]) && entries[..] == old(entries[..]) && unchanged(this)
        invariant 0 <= probes <= cap && 0 <= idx < cap && Passed(ctrl[..], ks, key, h, probes)
        invariant probes < cap ==> Dist(h, idx, cap) == probes
        invariant firstDeleted == -1 || (0 <= firstDeleted < cap && ctrl[firstDeleted] == CTRL_DELETED && Dist(h, firstDeleted, cap) < probes)
      {
        var c := ctrl[idx];
        TagsAgree(idx, key);
        if c == tag {
          if entries[idx].key == key {
            Overwrite(idx, val);
            return;
          }
        }
        if c == CTRL_DELETED && firstDeleted == -1 {
          firstDeleted := idx;
        }
        if c == CTRL_EMPTY {
          Absent(key, probes, idx);
          var insertIdx := if firstDeleted >= 0 then firstDeleted else idx;
          Store(insertIdx, key, val, probes);
          if firstDeleted < 0 {
            growthLeft := growthLeft - 1;
          }
          return;
        }
        PassedNext(ctrl[..], ks, key, h, probes, idx);
        idx := Next(idx, cap);
        probes := probes + 1;
      }
      EmptySlot();
      NotAllPassed(ctrl[..], ks, key, h);
      assert false;  // the loop never runs out
    }

    method Overwrite(idx: nat, val: int)
      requires Valid() && idx < cap && ctrl[idx] >= 0
      modifies this`contents, entries
      ensures Valid() && contents == old(contents)[old(entries[idx].key) := val]
    {
      hide Represents, Full, Used, MaxLoad, Keys, Home;
      FindsBinding(ctrl[..], entries[..], hash, contents, idx);
      OverwriteRepresents(ctrl[..], entries[..], hash, contents, idx, val);
      ghost var was := entries[..];
      contents := contents[entries[idx].key := val];
      entries[idx] := Entry(entries[idx].key, val);
      assert entries[..] == was[idx := Entry(was[idx].key, val)];
    }

    /** Writing a new binding into an unused slot; only the load account is still to be settled. */
    method Store(idx: nat, key: int, val: int, ghost n: nat)
      requires Valid() && idx < cap && ctrl[idx] < 0 && key !in contents
      requires growthLeft > 0
      requires var h := Home(hash, key, cap); Dist(h, idx, cap) <= n && Passed(ctrl[..], Keys(entries[..]), key, h, n)
      requires forall i: nat :: !Stores(ctrl[..], Keys(entries[..]), key, i)
      modifies this`len, this`contents, ctrl, entries
      ensures contents == old(contents)[key := val]
      ensures ctrl.Length == entries.Length == cap && Represents(ctrl[..], entries[..], hash, contents)
      ensures len == |contents| == Full(ctrl[..], cap)
      ensures growthLeft + Used(ctrl[..], cap) == MaxLoad(cap) + if old(ctrl[idx]) == CTRL_EMPTY then 1 else 0
    {
      hide Represents, Full, Used, MaxLoad, Keys, Home;
      StoreRepresents(ctrl[..], entries[..], hash, contents, key, val, n, idx);
      CountsAfter(ctrl[..], idx, Tag(hash, key), cap);
      ghost var was, wasEntries := ctrl[..], entries[..];
      ctrl[idx] := Tag(hash, key);
      entries[idx] := Entry(key, val);
      assert ctrl[..] == was[idx := Tag(hash, key)] && entries[..] == wasEntries[idx := Entry(key, val)];
      len := len + 1;
      contents := contents[key := val];
    }

    /** `hashmap_insert` */
    method Insert(key: int, val: int)
      requires Valid()
      modifies this, ctrl, entries
      ensures Valid() && contents == old(contents)[key := val]
      ensures (ctrl == old(ctrl) || fresh(ctrl)) && (entries == old(entries) || fresh(entries))
    {
      if growthLeft == 0 {
        Grow();
      }
      InsertProbe(key, val);
    }

    /** The inner loop of `hashmap_grow`: an entry whose key is new goes to the first empty slot of its probe. */
    method Rehash(newCtrl: array<int>, newEntries: array<Entry>, e: Entry, ghost m: map<int, int>)
      requires newCtrl.Length == newEntries.Length > 0 && Represents(newCtrl[..], newEntries[..], hash, m)
      requires e.key !in m && Used(newCtrl[..], newCtrl.Length) < newCtrl.Length
      modifies newCtrl, newEntries
      ensures Represents(newCtrl[..], newEntries[..], hash, m[e.key := e.val])
      ensures Full(newCtrl[..], newCtrl.Length) == old(Full(newCtrl[..], newCtrl.Length)) + 1
      ensures Used(newCtrl[..], newCtrl.Length) == old(Used(newCtrl[..], newCtrl.Length)) + 1
    {
      hide Represents, Full, Used, Keys, Home;
      var newCap := newCtrl.Length;
      var newIdx := Home(hash, e.key, newCap);
      ghost var h, ks := newIdx, Keys(newEntries[..]);
      ghost var probes := 0;
      ghost var was, wasEntries := newCtrl[..], newEntries[..];
      NeverStored(newCtrl[..], newEntries[..], hash, m, e.key);
      HasEmpty(newCtrl[..], newCap);
      assert newCtrl[..][..newCap] == newCtrl[..];
      while newCtrl[newIdx] != CTRL_EMPTY
        invariant newCtrl[..] == was && newEntries[..] == wasEntries
        invariant 0 <= newIdx < newCap && 0 <= probes < newCap && Dist(h, newIdx, newCap) == probes
        invariant Passed(newCtrl[..], ks, e.key, h, probes)
        decreases newCap - probes
      {
        PassedNext(newCtrl[..], ks, e.key, h, probes, newIdx);
        if probes + 1 == newCap {
          NotAllPassed(newCtrl[..], ks, e.key, h);
        }
        newIdx := Next(newIdx, newCap);
        probes := probes + 1;
      }
      StoreRepresents(newCtrl[..], newEntries[..], hash, m, e.key, e.val, probes, newIdx);
      CountsAfter(newCtrl[..], newIdx, Tag(hash, e.key), newCap);
      newCtrl[newIdx] := Tag(hash, e.key);
      newEntries[newIdx] := e;
      assert newCtrl[..] == was[newIdx := Tag(hash, e.key)] && newEntries[..] == wasEntries[newIdx := e];
    }

    /** The bindings of the first i slots. */
    ghost predicate Moved(i: nat, m: map<int, int>)
      requires i <= ctrl.Length == entries.Length
      reads this, ctrl, entries
    {
      (forall j | 0 <= j < i && ctrl[j] >= 0 :: entries[j].key in m) &&
      (forall k | k in m :: k in contents && m[k] == contents[k]) &&
      (forall k | k in m :: exists j :: 0 <= j < i && ctrl[j] >= 0 && entries[j].key == k)
    }

    lemma MovedNext(i: nat, m: map<int, int>)
      requires Valid() && i < cap && Moved(i, m)
      ensures ctrl[i] < 0 ==> Moved(i + 1, m)
      ensures ctrl[i] >= 0 ==> entries[i].key !in m && Moved(i + 1, m[entries[i].key := entries[i].val])
    {
      hide Represents, Full, Used, MaxLoad;
      if ctrl[i] >= 0 {
        FindsBinding(ctrl[..], entries[..], hash, contents, i);
        if entries[i].key in m {
          var j :| 0 <= j < i && ctrl[j] >= 0 && entries[j].key == entries[i].key;
          StoredOnce(i, j);
        }
        var m' := m[entries[i].key := entries[i].val];
        forall k | k in m' ensures exists j :: 0 <= j < i + 1 && ctrl[j] >= 0 && entries[j].key == k {
          if k != entries[i].key {
            var j :| 0 <= j < i && ctrl[j] >= 0 && entries[j].key == k;
          }
        }
      }
    }

    lemma MovedAll(m: map<int, int>)
      requires Valid() && Moved(cap, m)
      ensures m == contents
    {
      hide Represents, Full, Used, MaxLoad;
      forall k | k in contents ensures k in m {
        var i := StoredAt(k);
        assert entries[i].key in m;
      }
      assert forall k | k in contents :: k in m;
      assert forall k | k in m :: k in contents;
      assert forall k | k in m :: m[k] == contents[k];
      assert m.Keys == contents.Keys;
    }

    lemma StoredAt(k: int) returns (i: nat)
      requires Valid() && k in contents
      ensures i < cap && ctrl[i] >= 0 && entries[i].key == k
    {
      hide Table, Full, Used, MaxLoad;
      i :| Stores(ctrl[..], Keys(entries[..]), k, i);
    }

    lemma StoredOnce(i: nat, j: nat)
      requires Valid() && i < cap && j < cap && ctrl[i] >= 0 && ctrl[j] >= 0 && entries[i].key == entries[j].key
      ensures i == j
    {
      hide Holds, Full, Used, MaxLoad;
      assert Keys(entries[..])[i] == Keys(entries[..])[j];
    }

    /** `hashmap_grow`: all entries survive, no tombstone does. */
    method Grow()
      requires Valid() && growthLeft == 0
      modifies this
      ensures Valid() && contents == old(contents) && fresh(ctrl) && fresh(entries)
      ensures growthLeft > 0 && cap == if old(cap) == 0 then INITIAL_CAP else 2 * old(cap)
      ensures Used(ctrl[..], cap) == Full(ctrl[..], cap)
    {
      hide Represents, Full, Used, Keys, Home, Moved;
      var newCap := if cap == 0 then INITIAL_CAP else cap * 2;
      var newCtrl := new int[newCap](_ => CTRL_EMPTY);
      var newEntries := new Entry[newCap](_ => Entry(0, 0));
      ghost var m: map<int, int> := map[];
      AllEmpty(newCtrl[..], newCap);
      FreshTable(newCtrl[..], newEntries[..], hash);
      assert Moved(0, m) && Full(ctrl[..], 0) == 0 by { MovedNone(); }
      for i := 0 to cap
        invariant Valid() && unchanged(this) && unchanged(ctrl) && unchanged(entries)
        invariant Represents(newCtrl[..], newEntries[..], hash, m) && Moved(i, m)
        invariant Full(newCtrl[..], newCap) == Used(newCtrl[..], newCap) == Full(ctrl[..], i)
      {
        FullStep(ctrl[..], i);
        MovedNext(i, m);
        if ctrl[i] >= 0 {
          var e := entries[i];
          Rehash(newCtrl, newEntries, e, m);
          m := m[e.key := e.val];
        }
      }
      MovedAll(m);
      FullIsUsed(ctrl[..], cap);
      ctrl, entries, cap := newCtrl, newEntries, newCap;
      growthLeft := newCap * 7 / 8 - len;
    }

    lemma MovedNone()
      requires ctrl.Length == entries.Length
      ensures Moved(0, map[]) && Full(ctrl[..], 0) == 0
    {
    }
  }

  lemma FullStep(ctrl: seq<int>, i: nat)
    requires i < |ctrl|
    ensures Full(ctrl, i + 1) == Full(ctrl, i) + if ctrl[i] >= 0 then 1 else 0
    ensures Full(ctrl, i) <= i
  {
  }

  lemma FreshTable(ctrl: seq<int>, es: seq<Entry>, hash: Hash)
    requires |ctrl| == |es| && forall i | 0 <= i < |ctrl| :: ctrl[i] == CTRL_EMPTY
    ensures Represents(ctrl, es, hash, map[])
  {
  }

  lemma NeverStored(ctrl: seq<int>, es: seq<Entry>, hash: Hash, m: map<int, int>, key: int)
    requires Represents(ctrl, es, hash, m) && key !in m
    ensures forall i: nat :: !Stores(ctrl, Keys(es), key, i)
  {
  }
}
