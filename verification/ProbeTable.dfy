/** Open addressing with linear probing and tombstones: what every reachable table satisfies.

    A table is its control bytes and its keys.  The hash is an arbitrary function of the key, of which the
    low seven bits are the tag stored in the control byte and the rest choose the first slot to probe. */
module ProbeTable {

  const CTRL_EMPTY := -128
  const CTRL_DELETED := -2
  const INITIAL_CAP := 8

  type Hash = int -> nat

  function Tag(hash: Hash, key: int): (t: nat)
    ensures t < 128
  {
    hash(key) % 128
  }

  /** The first slot probed. */
  function Home(hash: Hash, key: int, cap: nat): (h: nat)
    requires cap > 0
    ensures h < cap
  {
    (hash(key) / 128) % cap
  }

  /** The next slot probed. */
  function Next(i: nat, cap: nat): (j: nat)
    requires i < cap
    ensures j == if i + 1 == cap then 0 else i + 1
  {
    (i + 1) % cap
  }

  /** How many steps of probing lead from h to i. */
  function Dist(h: nat, i: nat, cap: nat): int
  {
    if i >= h then i - h else i - h + cap
  }

  /** The load limit. */
  function MaxLoad(cap: nat): nat
  {
    cap * 7 / 8
  }

  /** Seven eighths of the capacity, rounded down. */
  lemma MaxLoadIs(cap: nat)
    ensures 8 * MaxLoad(cap) <= 7 * cap < 8 * MaxLoad(cap) + 8
  {
  }

  /** The hash is split into the tag, of seven bits, and the rest, whose remainder is the first slot. */
  lemma HashSplit(hash: Hash, key: int, cap: nat) returns (q: nat, d: nat)
    requires cap > 0
    ensures hash(key) == 128 * q + Tag(hash, key) && q == d * cap + Home(hash, key, cap)
  {
    q := hash(key) / 128;
    d := q / cap;
  }

  /** A slot is empty, deleted, or full with the tag of its key. */
  ghost predicate SlotOk(ctrl: seq<int>, keys: seq<int>, hash: Hash, i: nat)
    requires i < |ctrl| == |keys|
  {
    ctrl[i] == CTRL_EMPTY || ctrl[i] == CTRL_DELETED || ctrl[i] == Tag(hash, keys[i])
  }

  /** No key is stored twice, and no stored key is hidden behind an empty slot on its probe path. */
  ghost predicate Table(ctrl: seq<int>, keys: seq<int>, hash: Hash)
  {
    |ctrl| == |keys| &&
    (forall i: nat | i < |ctrl| :: SlotOk(ctrl, keys, hash, i)) &&
    (forall i: nat, j: nat | i < |ctrl| && j < |ctrl| && ctrl[i] >= 0 && ctrl[j] >= 0 && keys[i] == keys[j] :: i == j) &&
    (forall i: nat, j: nat | i < |ctrl| && j < |ctrl| && ctrl[i] >= 0 && Before(hash, keys[i], j, i, |ctrl|) :: ctrl[j] != CTRL_EMPTY)
  }

  /** Slot j is probed for the key before slot i. */
  ghost predicate Before(hash: Hash, key: int, j: nat, i: nat, cap: nat)
    requires cap > 0
  {
    var h := Home(hash, key, cap);
    Dist(h, j, cap) < Dist(h, i, cap)
  }

  ghost predicate Stores(ctrl: seq<int>, keys: seq<int>, key: int, i: nat)
  {
    i < |ctrl| && i < |keys| && ctrl[i] >= 0 && keys[i] == key
  }

  // ---------------------------------------------------------------- probing

  /** The first n slots probed from h hold neither the key nor an empty slot. */
  ghost predicate Passed(ctrl: seq<int>, keys: seq<int>, key: int, h: nat, n: nat)
  {
    forall j: nat | j < |ctrl| && Dist(h, j, |ctrl|) < n :: ctrl[j] != CTRL_EMPTY && !Stores(ctrl, keys, key, j)
  }

  lemma PassedNext(ctrl: seq<int>, keys: seq<int>, key: int, h: nat, n: nat, idx: nat)
    requires h < |ctrl| && idx < |ctrl| && Dist(h, idx, |ctrl|) == n && Passed(ctrl, keys, key, h, n)
    requires ctrl[idx] != CTRL_EMPTY && !Stores(ctrl, keys, key, idx)
    ensures Passed(ctrl, keys, key, h, n + 1)
    ensures n + 1 < |ctrl| ==> Dist(h, Next(idx, |ctrl|), |ctrl|) == n + 1
  {
  }

  /** An empty slot on the path ends the search: the key is stored nowhere. */
  lemma EmptyMeansAbsent(ctrl: seq<int>, keys: seq<int>, hash: Hash, key: int, n: nat, idx: nat)
    requires Table(ctrl, keys, hash) && idx < |ctrl|
    requires var h := Home(hash, key, |ctrl|); Dist(h, idx, |ctrl|) == n && Passed(ctrl, keys, key, h, n)
    requires ctrl[idx] == CTRL_EMPTY
    ensures forall i: nat :: !Stores(ctrl, keys, key, i)
  {
    forall i: nat ensures !Stores(ctrl, keys, key, i) {
      if Stores(ctrl, keys, key, i) {
        assert Before(hash, key, idx, i, |ctrl|);
      }
    }
  }

  /** A probe that passed every slot would have met no empty one. */
  lemma NotAllPassed(ctrl: seq<int>, keys: seq<int>, key: int, h: nat)
    requires h < |ctrl| && Passed(ctrl, keys, key, h, |ctrl|)
    ensures CTRL_EMPTY !in ctrl
  {
    forall j: nat | j < |ctrl| ensures ctrl[j] != CTRL_EMPTY {
      assert Dist(h, j, |ctrl|) < |ctrl|;
    }
  }

  // ---------------------------------------------------------------- changing a slot

  /** Storing an absent key in an unused slot that its probe reaches keeps the table. */
  lemma StoreKeeps(ctrl: seq<int>, keys: seq<int>, hash: Hash, key: int, n: nat, idx: nat)
    requires Table(ctrl, keys, hash) && idx < |ctrl| && ctrl[idx] < 0
    requires var h := Home(hash, key, |ctrl|); Dist(h, idx, |ctrl|) <= n && Passed(ctrl, keys, key, h, n)
    requires forall i: nat :: !Stores(ctrl, keys, key, i)
    ensures Table(ctrl[idx := Tag(hash, key)], keys[idx := key], hash)
  {
    var ctrl', keys' := ctrl[idx := Tag(hash, key)], keys[idx := key];
    forall i: nat | i < |ctrl'| ensures SlotOk(ctrl', keys', hash, i) {
      assert SlotOk(ctrl, keys, hash, i);
    }
    forall i: nat, j: nat | i < |ctrl'| && j < |ctrl'| && ctrl'[i] >= 0 && ctrl'[j] >= 0 && keys'[i] == keys'[j] ensures i == j {
      assert !Stores(ctrl, keys, key, i) && !Stores(ctrl, keys, key, j);
    }
    forall i: nat, j: nat | i < |ctrl'| && j < |ctrl'| && ctrl'[i] >= 0 && Before(hash, keys'[i], j, i, |ctrl'|) ensures ctrl'[j] != CTRL_EMPTY {
      if i != idx {
        assert Before(hash, keys[i], j, i, |ctrl|);
      }
    }
  }

  /** Deleting leaves a tombstone, which hides nothing. */
  lemma DeleteKeeps(ctrl: seq<int>, keys: seq<int>, hash: Hash, idx: nat)
    requires Table(ctrl, keys, hash) && idx < |ctrl| && ctrl[idx] >= 0
    ensures Table(ctrl[idx := CTRL_DELETED], keys, hash)
  {
    var ctrl' := ctrl[idx := CTRL_DELETED];
    forall i: nat | i < |ctrl'| ensures SlotOk(ctrl', keys, hash, i) {
      assert SlotOk(ctrl, keys, hash, i);
    }
  }

  // ---------------------------------------------------------------- counting slots

  /** Full slots among the first n. */
  function Full(ctrl: seq<int>, n: nat): (c: nat)
    requires n <= |ctrl|
    ensures c <= n
  {
    if n == 0 then 0 else Full(ctrl, n - 1) + if ctrl[n - 1] >= 0 then 1 else 0
  }

  /** Full slots and tombstones among the first n. */
  function Used(ctrl: seq<int>, n: nat): (c: nat)
    requires n <= |ctrl|
    ensures c <= n
  {
    if n == 0 then 0 else Used(ctrl, n - 1) + if ctrl[n - 1] != CTRL_EMPTY then 1 else 0
  }

  lemma {:induction false} CountsAfter(ctrl: seq<int>, idx: nat, v: int, n: nat)
    requires idx < |ctrl| && n <= |ctrl|
    ensures Full(ctrl[idx := v], n) - Full(ctrl, n) ==
            if idx >= n then 0 else (if v >= 0 then 1 else 0) - (if ctrl[idx] >= 0 then 1 else 0)
    ensures Used(ctrl[idx := v], n) - Used(ctrl, n) ==
            if idx >= n then 0 else (if v != CTRL_EMPTY then 1 else 0) - (if ctrl[idx] != CTRL_EMPTY then 1 else 0)
  {
    if n > 0 {
      CountsAfter(ctrl, idx, v, n - 1);
    }
  }

  lemma {:induction false} FullIsUsed(ctrl: seq<int>, n: nat)
    requires n <= |ctrl|
    ensures Full(ctrl, n) <= Used(ctrl, n)
  {
    if n > 0 {
      FullIsUsed(ctrl, n - 1);
    }
  }

  lemma {:induction false} AllEmpty(ctrl: seq<int>, n: nat)
    requires n <= |ctrl| && forall i | 0 <= i < |ctrl| :: ctrl[i] == CTRL_EMPTY
    ensures Full(ctrl, n) == Used(ctrl, n) == 0
  {
    if n > 0 {
      AllEmpty(ctrl, n - 1);
    }
  }

  /** A table that is not all used has an empty slot. */
  lemma {:induction false} HasEmpty(ctrl: seq<int>, n: nat)
    requires n <= |ctrl| && Used(ctrl, n) < n
    ensures CTRL_EMPTY in ctrl[..n]
  {
    if ctrl[n - 1] != CTRL_EMPTY {
      HasEmpty(ctrl, n - 1);
      assert ctrl[..n] == ctrl[..n - 1] + [ctrl[n - 1]];
    } else {
      assert ctrl[..n][n - 1] == CTRL_EMPTY;
    }
  }
}
