/** The insert-only hash set of `longest_consecutive.c` and the algorithm on top of it. */
module LongestConsecutive {
  import opened ProbeTable

  /** The full slots hold exactly the elements of s. */
  ghost predicate Represents(ctrl: seq<int>, keys: seq<int>, hash: Hash, s: set<int>)
  {
    Table(ctrl, keys, hash) &&
    (forall i: nat | i < |ctrl| && ctrl[i] >= 0 :: keys[i] in s) &&
    (forall k | k in s :: exists i: nat :: Stores(ctrl, keys, k, i))
  }

  lemma StoreRepresents(ctrl: seq<int>, keys: seq<int>, hash: Hash, s: set<int>, key: int, n: nat, idx: nat)
    requires Represents(ctrl, keys, hash, s) && idx < |ctrl| && ctrl[idx] < 0
    requires var h := Home(hash, key, |ctrl|); Dist(h, idx, |ctrl|) <= n && Passed(ctrl, keys, key, h, n)
    requires forall i: nat :: !Stores(ctrl, keys, key, i)
    ensures Represents(ctrl[idx := Tag(hash, key)], keys[idx := key], hash, s + {key})
  {
    var ctrl', keys' := ctrl[idx := Tag(hash, key)], keys[idx := key];
    StoreKeeps(ctrl, keys, hash, key, n, idx);
    forall k | k in s + {key} ensures exists i: nat :: Stores(ctrl', keys', k, i) {
      if k == key {
        assert Stores(ctrl', keys', k, idx);
      } else {
        var i: nat :| Stores(ctrl, keys, k, i);
        assert Stores(ctrl', keys', k, i);
      }
    }
  }

  lemma AbsentFrom(ctrl: seq<int>, keys: seq<int>, hash: Hash, s: set<int>, key: int)
    requires Represents(ctrl, keys, hash, s)
    ensures key !in s <==> forall i: nat :: !Stores(ctrl, keys, key, i)
  {
  }

  lemma FreshTable(ctrl: seq<int>, keys: seq<int>, hash: Hash)
    requires |ctrl| == |keys| && forall i | 0 <= i < |ctrl| :: ctrl[i] == CTRL_EMPTY
    ensures Represents(ctrl, keys, hash, {})
  {
  }

  /** Where the key is stored, or the empty slot at which its probe ends: the loop every operation runs. */
  ghost predicate Probed(ctrl: seq<int>, keys: seq<int>, hash: Hash, key: int, n: nat, idx: nat)
    requires |ctrl| > 0
  {
    idx < |ctrl| && n < |ctrl| && Dist(Home(hash, key, |ctrl|), idx, |ctrl|) == n &&
    Passed(ctrl, keys, key, Home(hash, key, |ctrl|), n)
  }

  /** Moving on from a used slot that does not store the key; with an empty slot in the table there is always a next. */
  lemma ProbeOn(ctrl: seq<int>, keys: seq<int>, hash: Hash, key: int, n: nat, idx: nat)
    requires |ctrl| > 0 && Probed(ctrl, keys, hash, key, n, idx)
    requires ctrl[idx] != CTRL_EMPTY && !Stores(ctrl, keys, key, idx) && CTRL_EMPTY in ctrl
    ensures Probed(ctrl, keys, hash, key, n + 1, Next(idx, |ctrl|))
  {
    PassedNext(ctrl, keys, key, Home(hash, key, |ctrl|), n, idx);
    if n + 1 == |ctrl| {
      NotAllPassed(ctrl, keys, key, Home(hash, key, |ctrl|));
    }
  }

  class HashSet {
    const hash: Hash
    var ctrl: array<int>
    var keys: array<int>
    var len: int
    var cap: int
    var growthLeft: int
    ghost var contents: set<int>

    ghost predicate Valid()
      reads this, ctrl, keys
    {
      ctrl != keys && ctrl.Length == keys.Length == cap && cap >= INITIAL_CAP &&
      Represents(ctrl[..], keys[..], hash, contents) &&
      len == Full(ctrl[..], cap) == Used(ctrl[..], cap) &&
      growthLeft >= 0 && growthLeft + len == MaxLoad(cap)
    }

    /** `hashset_new` */
    constructor (hash: Hash, minCap: int)
      ensures Valid() && contents == {} && this.hash == hash && fresh(ctrl) && fresh(keys) && cap >= minCap && (cap == 8 || cap < 2 * minCap)
    {
      var c := INITIAL_CAP;
      while c < minCap
        invariant c >= INITIAL_CAP && (c == 8 || c < 2 * minCap)
      {
        c := c * 2;
      }
      this.hash := hash;
      ctrl := new int[c](_ => CTRL_EMPTY);
      keys := new int[c](_ => 0);
      len, cap, growthLeft, contents := 0, c, MaxLoad(c), {};
      new;
      AllEmpty(ctrl[..], cap);
    }

    lemma EmptySlot()
      requires Valid()
      ensures CTRL_EMPTY in ctrl[..]
    {
      HasEmpty(ctrl[..], cap);
      assert ctrl[..][..cap] == ctrl[..];
    }

    lemma TagsAgree(idx: nat, key: int)
      requires Valid() && idx < cap
      ensures Stores(ctrl[..], keys[..], key, idx) <==> ctrl[idx] == Tag(hash, key) && keys[idx] == key
      ensures Stores(ctrl[..], keys[..], key, idx) ==> key in contents
    {
      assert SlotOk(ctrl[..], keys[..], hash, idx);
    }

    lemma Absent(key: int, n: nat, idx: nat)
      requires Valid() && Probed(ctrl[..], keys[..], hash, key, n, idx) && ctrl[idx] == CTRL_EMPTY
      ensures key !in contents && forall i: nat :: !Stores(ctrl[..], keys[..], key, i)
    {
      EmptyMeansAbsent(ctrl[..], keys[..], hash, key, n, idx);
      AbsentFrom(ctrl[..], keys[..], hash, contents, key);
    }

    /** `hashset_contains` */
    method Contains(key: int) returns (found: bool)
      requires Valid()
      ensures found <==> key in contents
    {
      hide Represents, Full, Used, MaxLoad, Home;
      var tag := Tag(hash, key);
      var idx := Home(hash, key, cap);
      EmptySlot();
      var probes := 0;
      while probes < cap
        invariant 0 <= idx && 0 <= probes && Probed(ctrl[..], keys[..], hash, key, probes, idx)
      {
        TagsAgree(idx, key);
        if ctrl[idx] == CTRL_EMPTY {
          Absent(key, probes, idx);
          return false;
        }
        if ctrl[idx] == tag && keys[idx] == key {
          return true;
        }
        ProbeOn(ctrl[..], keys[..], hash, key, probes, idx);
        idx := Next(idx, cap);
        probes := probes + 1;
      }
      assert false;  // the loop never runs out
    }

    /** Filling the empty slot at which the key's probe ended. */
    method Fill(idx: nat, key: int, ghost n: nat)
      requires Valid() && growthLeft > 0 && Probed(ctrl[..], keys[..], hash, key, n, idx) && ctrl[idx] == CTRL_EMPTY
      modifies this, ctrl, keys
      ensures Valid() && ctrl == old(ctrl) && keys == old(keys) && contents == old(contents) + {key} && growthLeft == old(growthLeft) - 1
    {
      hide Represents, Full, Used, MaxLoad, Home;
      Absent(key, n, idx);
      StoreRepresents(ctrl[..], keys[..], hash, contents, key, n, idx);
      CountsAfter(ctrl[..], idx, Tag(hash, key), cap);
      ghost var was, wasKeys := ctrl[..], keys[..];
      ctrl[idx] := Tag(hash, key);
      keys[idx] := key;
      assert ctrl[..] == was[idx := Tag(hash, key)] && keys[..] == wasKeys[idx := key];
      len := len + 1;
      growthLeft := growthLeft - 1;
      contents := contents + {key};
    }

    /** `hashset_insert` */
    method Insert(key: int)
      requires Valid()
      modifies this, ctrl, keys
      ensures Valid() && contents == old(contents) + {key}
      ensures (ctrl == old(ctrl) || fresh(ctrl)) && (keys == old(keys) || fresh(keys))
    {
      hide Represents, Full, Used, MaxLoad, Home;
      if growthLeft == 0 {
        Grow();
      }
      label Probing:
      var tag := Tag(hash, key);
      var idx := Home(hash, key, cap);
      ghost var n := 0;
      while ctrl[idx] != CTRL_EMPTY
        invariant unchanged@Probing(this) && unchanged@Probing(ctrl) && unchanged@Probing(keys)
        invariant 0 <= idx && Probed(ctrl[..], keys[..], hash, key, n, idx)
        decreases cap - n
      {
        EmptySlot();
        TagsAgree(idx, key);
        if ctrl[idx] == tag && keys[idx] == key {
          assert contents + {key} == contents;
          return;
        }
        ProbeOn(ctrl[..], keys[..], hash, key, n, idx);
        idx := Next(idx, cap);
        n := n + 1;
      }
      Fill(idx, key, n);
    }

    /** `hashset_grow`: the same elements in a table of twice the size. */
    method Grow()
      requires Valid() && growthLeft == 0
      modifies this
      ensures Valid() && contents == old(contents) && growthLeft > 0 && fresh(ctrl) && fresh(keys)
    {
      hide Represents, Full, Used, Home;
      var oldCtrl, oldKeys, oldCap := ctrl, keys, cap;
      ghost var all := contents;
      ghost var oc, ok := oldCtrl[..], oldKeys[..];
      var newCap := oldCap * 2;
      ctrl := new int[newCap](_ => CTRL_EMPTY);
      keys := new int[newCap](_ => 0);
      len, cap, growthLeft := 0, newCap, MaxLoad(newCap);
      contents := {};
      AllEmpty(ctrl[..], cap);
      FreshTable(ctrl[..], keys[..], hash);
      assert Moved(oc, ok, 0, {}, all) && Full(oc, 0) == 0 by { MovedNone(oc, ok, all); }
      for i := 0 to oldCap
        invariant Valid() && cap == newCap && fresh(ctrl) && fresh(keys)
        invariant oldCtrl[..] == oc && oldKeys[..] == ok
        invariant len == Full(oc, i) && Moved(oc, ok, i, contents, all)
      {
        FullStep(oc, i, oldCap);
        MovedNext(oc, ok, hash, i, contents, all);
        if oldCtrl[i] >= 0 {
          Rehash(oldKeys[i]);
        }
      }
      MovedAll(oc, ok, hash, contents, all);
    }

    /** The inner loop of `hashset_grow`, for a key that is not in the new table yet. */
    method Rehash(key: int)
      requires Valid() && growthLeft > 0 && key !in contents
      modifies this, ctrl, keys
      ensures Valid() && ctrl == old(ctrl) && keys == old(keys) && cap == old(cap)
      ensures contents == old(contents) + {key} && len == old(len) + 1
    {
      hide Represents, Full, Used, MaxLoad, Home;
      var idx := Home(hash, key, cap);
      ghost var n := 0;
      while ctrl[idx] != CTRL_EMPTY
        invariant unchanged(this) && unchanged(ctrl) && unchanged(keys)
        invariant 0 <= idx && Probed(ctrl[..], keys[..], hash, key, n, idx)
        decreases cap - n
      {
        EmptySlot();
        AbsentFrom(ctrl[..], keys[..], hash, contents, key);
        ProbeOn(ctrl[..], keys[..], hash, key, n, idx);
        idx := Next(idx, cap);
        n := n + 1;
      }
      Fill(idx, key, n);
    }
  }

  // ---------------------------------------------------------------- moving the elements

  /** The elements of the first i slots. */
  ghost predicate Moved(ctrl: seq<int>, keys: seq<int>, i: nat, s: set<int>, all: set<int>)
    requires i <= |ctrl| == |keys|
  {
    s <= all && (forall j: nat | j < i && ctrl[j] >= 0 :: keys[j] in s) &&
    forall k | k in s :: exists j: nat :: j < i && Stores(ctrl, keys, k, j)
  }

  lemma MovedNone(ctrl: seq<int>, keys: seq<int>, all: set<int>)
    requires |ctrl| == |keys|
    ensures Moved(ctrl, keys, 0, {}, all) && Full(ctrl, 0) == 0
  {
  }

  lemma MovedNext(ctrl: seq<int>, keys: seq<int>, hash: Hash, i: nat, s: set<int>, all: set<int>)
    requires Represents(ctrl, keys, hash, all) && i < |ctrl| && Moved(ctrl, keys, i, s, all)
    ensures ctrl[i] < 0 ==> Moved(ctrl, keys, i + 1, s, all)
    ensures ctrl[i] >= 0 ==> keys[i] !in s && Moved(ctrl, keys, i + 1, s + {keys[i]}, all)
  {
    if ctrl[i] >= 0 {
      assert forall j: nat | j < i :: !Stores(ctrl, keys, keys[i], j);
      forall k | k in s + {keys[i]} ensures exists j: nat :: j < i + 1 && Stores(ctrl, keys, k, j) {
        if k in s {
          var j: nat :| j < i && Stores(ctrl, keys, k, j);
        }
      }
    } else {
      forall k | k in s ensures exists j: nat :: j < i + 1 && Stores(ctrl, keys, k, j) {
        var j: nat :| j < i && Stores(ctrl, keys, k, j);
      }
    }
  }

  lemma MovedAll(ctrl: seq<int>, keys: seq<int>, hash: Hash, s: set<int>, all: set<int>)
    requires Represents(ctrl, keys, hash, all) && Moved(ctrl, keys, |ctrl|, s, all)
    ensures s == all
  {
    forall k | k in all ensures k in s {
      var i: nat :| Stores(ctrl, keys, k, i);
    }
  }

  /** One more slot counted, and room for it in a table of twice the size. */
  lemma FullStep(ctrl: seq<int>, i: nat, cap: nat)
    requires i < |ctrl| == cap
    ensures Full(ctrl, i + 1) == Full(ctrl, i) + if ctrl[i] >= 0 then 1 else 0
    ensures cap >= 8 ==> Full(ctrl, i) < MaxLoad(2 * cap)
  {
  }

  // ---------------------------------------------------------------- the longest run

  /** a, a + 1, ..., a + n - 1 all belong to s. */
  ghost predicate Run(s: set<int>, a: int, n: nat)
  {
    forall x | a <= x < a + n :: x in s
  }

  /** A run is no longer than the set is large. */
  lemma {:induction false} RunFits(s: set<int>, a: int, n: nat)
    requires Run(s, a, n)
    ensures n <= |s|
    decreases n
  {
    if n > 0 {
      var last := a + (n - 1);
      assert last in s;
      RunFits(s - {last}, a, n - 1);
    }
  }

  /** Every element belongs to a run that nothing precedes. */
  lemma {:induction false} RunStart(s: set<int>, a: int, n: nat) returns (b: int, m: nat)
    requires n >= 1 && Run(s, a, n)
    ensures m >= n && Run(s, b, m) && b - 1 !in s && b in s
    decreases |s| - n
  {
    RunFits(s, a, n);
    if a - 1 in s {
      RunFits(s, a - 1, n + 1);
      b, m := RunStart(s, a - 1, n + 1);
    } else {
      b, m := a, n;
    }
  }

  ghost function Elements(nums: seq<int>): (s: set<int>)
    ensures forall x :: x in s <==> x in nums
  {
    set x | x in nums
  }

  /** Filling the set. */
  method Collect(nums: seq<int>, hash: Hash) returns (set_: HashSet)
    ensures fresh(set_) && fresh(set_.ctrl) && fresh(set_.keys) && set_.Valid() && set_.contents == Elements(nums)
  {
    set_ := new HashSet(hash, |nums|);
    for i := 0 to |nums|
      invariant fresh(set_) && fresh(set_.ctrl) && fresh(set_.keys) && set_.Valid()
      invariant set_.contents == Elements(nums[..i])
    {
      set_.Insert(nums[i]);
      assert nums[..i + 1] == nums[..i] + [nums[i]];
    }
    assert nums[..|nums|] == nums;
  }

  /** The loop that counts upwards from a number that starts a run. */
  method RunLength(set_: HashSet, num: int) returns (len: nat)
    requires set_.Valid() && num in set_.contents
    ensures len >= 1 && Run(set_.contents, num, len)
    ensures forall n: nat | Run(set_.contents, num, n) :: n <= len
  {
    len := 1;
    RunFits(set_.contents, num, len);
    var more := set_.Contains(num + len);
    while more
      invariant len >= 1 && Run(set_.contents, num, len) && len <= |set_.contents| && (more <==> num + len in set_.contents)
      decreases |set_.contents| - len
    {
      len := len + 1;
      RunFits(set_.contents, num, len);
      more := set_.Contains(num + len);
    }
    RunStops(set_.contents, num, len);
  }

  lemma RunStops(s: set<int>, a: int, len: nat)
    requires a + len !in s
    ensures forall n: nat | Run(s, a, n) :: n <= len
  {
  }

  /** `longest_consecutive`: the largest L such that some a .. a + L - 1 all occur in the input. */
  method LongestConsecutive(nums: seq<int>, hash: Hash) returns (best: nat)
    ensures exists a :: Run(Elements(nums), a, best)
    ensures forall a, n: nat | Run(Elements(nums), a, n) :: n <= best
  {
    hide HashSet.Valid, Elements, Run, StartBounded;
    ghost var s := Elements(nums);
    best := 0;
    assert Run(s, 0, 0) by { EmptyRun(s, 0); }
    if |nums| == 0 {
      BestOfAll(nums, 0);
      return;
    }
    var set_ := Collect(nums, hash);
    for i := 0 to |nums|
      invariant set_.Valid() && set_.contents == s
      invariant exists a :: Run(s, a, best)
      invariant forall j | 0 <= j < i :: StartBounded(s, nums[j], best)
    {
      var num := nums[i];
      var preceded := set_.Contains(num - 1);
      if !preceded {
        var len := RunLength(set_, num);
        BoundsStart(s, num, if len > best then len else best);
        if len > best {
          LargerBound(s, nums, i, best, len);
          best := len;
        }
      } else {
        NoStart(s, num, best);
      }
    }
    BestOfAll(nums, best);
  }

  /** If nothing precedes a, the runs that start at a are no longer than best. */
  ghost predicate StartBounded(s: set<int>, a: int, best: nat)
  {
    a - 1 !in s ==> forall n: nat | Run(s, a, n) :: n <= best
  }

  lemma EmptyRun(s: set<int>, a: int)
    ensures Run(s, a, 0)
  {
  }

  lemma BoundsStart(s: set<int>, a: int, best: nat)
    requires forall n: nat | Run(s, a, n) :: n <= best
    ensures StartBounded(s, a, best)
  {
  }

  lemma NoStart(s: set<int>, a: int, best: nat)
    requires a - 1 in s
    ensures StartBounded(s, a, best)
  {
  }

  lemma LargerBound(s: set<int>, nums: seq<int>, i: nat, best: nat, len: nat)
    requires i <= |nums| && best <= len && forall j | 0 <= j < i :: StartBounded(s, nums[j], best)
    ensures forall j | 0 <= j < i :: StartBounded(s, nums[j], len)
  {
    forall j | 0 <= j < i ensures StartBounded(s, nums[j], len) {
      assert StartBounded(s, nums[j], best);
    }
  }

  /** A bound on the runs that start at elements nothing precedes bounds all runs. */
  lemma BestOfAll(nums: seq<int>, best: nat)
    requires forall j | 0 <= j < |nums| :: StartBounded(Elements(nums), nums[j], best)
    ensures forall a, n: nat | Run(Elements(nums), a, n) :: n <= best
  {
    var s := Elements(nums);
    forall a, n: nat | Run(s, a, n) ensures n <= best {
      if n >= 1 {
        var b, m := RunStart(s, a, n);
        var j :| 0 <= j < |nums| && nums[j] == b;
        assert StartBounded(s, nums[j], best);
      }
    }
  }
}
