/** The fannkuch benchmark: counting prefix reversals over all permutations. */
module Fannkuch {
  import opened Bits
  import opened Permutations

  // ---------------------------------------------------------------- flipping

  /** The first k + 1 elements in reverse order: what position a then holds. */
  function FlippedAt(p: Perm, k: nat, a: nat): int
    requires k < |p| && a < |p|
  {
    if a <= k then p[k - a] else p[a]
  }

  /** The first n elements of that. */
  function FlipPrefix(p: Perm, k: nat, n: nat): (r: Perm)
    requires k < |p| && n <= |p|
    ensures |r| == n && forall a: nat {:trigger r[a]} | a < n :: r[a] == FlippedAt(p, k, a)
  {
    if n == 0 then [] else FlipPrefix(p, k, n - 1) + [FlippedAt(p, k, n - 1)]
  }

  /** One flip: the first element says how many follow it into the reversal. */
  function Flip(p: Perm): (q: Perm)
    requires IsPerm(p) && p != []
    ensures |q| == |p| && IsPerm(q)
  {
    FlipPrefix(p, p[0], |p|)
  }

  /** The fixed points among positions 1 .. n - 1, weighted by 2^position. */
  function Potential(p: Perm, n: nat): nat
    requires n <= |p|
  {
    if n <= 1 then 0 else Potential(p, n - 1) + if p[n - 1] == n - 1 then Pow2(n - 1) else 0
  }

  lemma {:induction false} PotentialBound(p: Perm, n: nat)
    requires 1 <= n <= |p|
    ensures Potential(p, n) + 2 <= Pow2(n)
  {
    if n > 1 {
      PotentialBound(p, n - 1);
    }
  }

  lemma {:induction false} PotentialTail(p: Perm, q: Perm, m: nat, n: nat)
    requires 1 <= m <= n <= |p| == |q| && forall i | m <= i < n :: p[i] == q[i]
    ensures Potential(q, n) - Potential(q, m) == Potential(p, n) - Potential(p, m)
    decreases n
  {
    if m < n {
      PotentialTail(p, q, m, n - 1);
    }
  }

  /** A flip puts its first element k in place: that is worth more than all lower positions together. */
  lemma {:induction false} FlipRaises(p: Perm)
    requires IsPerm(p) && p != [] && p[0] != 0
    ensures Potential(Flip(p), |p|) > Potential(p, |p|)
  {
    var k, q := p[0], Flip(p);
    PotentialTail(p, q, k + 1, |p|);
    PotentialBound(p, k);
    assert q[k] == p[0] == k && p[k] != k;
  }

  /** How many flips bring 0 to the front. */
  function Flips(p: Perm): (f: nat)
    requires IsPerm(p) && p != []
    decreases Pow2(|p|) - Potential(p, |p|)
  {
    PotentialBound(p, |p|);
    if p[0] == 0 then 0
    else
      FlipRaises(p);
      PotentialBound(Flip(p), |p|);
      1 + Flips(Flip(p))
  }

  /** The potential bounds the flips still to come, and so 2^n bounds them all. */
  lemma {:induction false} FlipsBound(p: Perm)
    requires IsPerm(p) && p != []
    ensures Flips(p) + Potential(p, |p|) + 2 <= Pow2(|p|)
    decreases Pow2(|p|) - Potential(p, |p|)
  {
    PotentialBound(p, |p|);
    if p[0] != 0 {
      FlipRaises(p);
      PotentialBound(Flip(p), |p|);
      FlipsBound(Flip(p));
    }
  }

  /** The permutation after k flips. */
  function Flipped(p: Perm, k: nat): (q: Perm)
    requires IsPerm(p) && p != []
    ensures |q| == |p| && IsPerm(q)
    decreases k
  {
    if k == 0 then p
    else Flip(Flipped(p, k - 1))
  }

  lemma {:induction false} FlippedLater(p: Perm, k: nat)
    requires IsPerm(p) && p != [] && IsPerm(Flip(p))
    ensures Flipped(p, k + 1) == Flipped(Flip(p), k)
    decreases k
  {
    hide Flip, IsPerm;
    if k > 0 {
      FlippedLater(p, k - 1);
    }
  }

  /** The flip count is the first number of flips that brings 0 to the front. */
  lemma {:induction false} FlipsIsFirst(p: Perm)
    requires IsPerm(p) && p != []
    ensures Flipped(p, Flips(p))[0] == 0 && forall k: nat | k < Flips(p) :: Flipped(p, k)[0] != 0
    decreases Pow2(|p|) - Potential(p, |p|)
  {
    PotentialBound(p, |p|);
    if p[0] != 0 {
      FlipRaises(p);
      PotentialBound(Flip(p), |p|);
      FlipsIsFirst(Flip(p));
      FlippedLater(p, Flips(Flip(p)));
      forall k: nat | k < Flips(p) ensures Flipped(p, k)[0] != 0 {
        if k > 0 {
          FlippedLater(p, k - 1);
        }
      }
    }
  }

  /** The inner loop: reversal in place. */
  method Reverse(perm: array<int>, k: nat)
    requires k < perm.Length
    modifies perm
    ensures perm[..] == FlipPrefix(old(perm[..]), k, perm.Length)
  {
    var i, j := 0, k;
    while i < j
      invariant i + j == k && i <= j + 1
      invariant forall a | 0 <= a < i :: perm[a] == old(perm[k - a]) && perm[k - a] == old(perm[a])
      invariant forall a | i <= a <= j :: perm[a] == old(perm[a])
      invariant forall a | k < a < perm.Length :: perm[a] == old(perm[a])
    {
      perm[i], perm[j] := perm[j], perm[i];
      i, j := i + 1, j - 1;
    }
    forall a | 0 <= a < perm.Length ensures perm[a] == FlippedAt(old(perm[..]), k, a) {
      if j < a <= k {
        assert perm[k - (k - a)] == old(perm[k - a]);
      }
    }
  }

  /** The flip loop: it ends on every permutation. */
  method CountFlips(perm: array<int>) returns (flips: nat)
    requires perm.Length >= 1 && IsPerm(perm[..])
    modifies perm
    ensures flips == Flips(old(perm[..]))
  {
    flips := 0;
    while perm[0] != 0
      invariant IsPerm(perm[..]) && flips + Flips(perm[..]) == Flips(old(perm[..]))
      decreases Pow2(perm.Length) - Potential(perm[..], perm.Length)
    {
      ghost var p := perm[..];
      FlipRaises(p);
      PotentialBound(Flip(p), |p|);
      Reverse(perm, perm[0]);
      flips := flips + 1;
    }
  }

  // ---------------------------------------------------------------- the permutation odometer

  /** Counters of levels r, r + 1, ...: how many rotations each still has to make, the last one bringing it back. */
  ghost predicate Counters(c: seq<int>, r: nat)
  {
    forall j | 0 <= j < |c| :: 1 <= c[j] <= r + j + 1
  }

  /** What is visited after the current run of the prefix of length r, with the permutation at p. */
  ghost function Rest(p: Perm, c: seq<int>, r: nat): seq<Perm>
    requires r >= 1 && |c| + r == |p| && Counters(c, r)
    decreases |c|, if c == [] then 0 else c[0]
  {
    if c == [] then []
    else
      var q := Rotated(p, r + 1, 1);
      if c[0] > 1 then Gen(q, r) + Rest(q, [c[0] - 1] + c[1..], r) else Rest(q, c[1..], r + 1)
  }

  /** The permutation when all of that is over. */
  ghost function Final(p: Perm, c: seq<int>, r: nat): Perm
    requires r >= 1 && |c| + r == |p| && Counters(c, r)
    decreases |c|, if c == [] then 0 else c[0]
  {
    if c == [] then p
    else
      var q := Rotated(p, r + 1, 1);
      if c[0] > 1 then Final(q, [c[0] - 1] + c[1..], r) else Final(q, c[1..], r + 1)
  }

  /** A level with r - t rotations left, at rotation t, runs through the blocks that remain and comes back. */
  lemma {:induction false} Unroll(p: Perm, c: seq<int>, r: nat, t: nat)
    requires 2 <= r && t < r && |c| + r == |p| && Counters(c, r)
    ensures Counters([r - t] + c, r - 1)
    ensures Gen(Rotated(p, r, t), r - 1) + Rest(Rotated(p, r, t), [r - t] + c, r - 1) == Blocks(p, r, t) + Rest(p, c, r)
    ensures Final(Rotated(p, r, t), [r - t] + c, r - 1) == Final(p, c, r)
    decreases r - t
  {
    var now, d := Rotated(p, r, t), [r - t] + c;
    assert d[1..] == c;
    assert Counters(d, r - 1) by {
      forall j | 0 <= j < |d| ensures 1 <= d[j] <= r - 1 + j + 1 {
        assert j > 0 ==> d[j] == c[j - 1];
      }
    }
    RotateOnce(p, r, t);
    RotatedEnds(p, r);
    if t < r - 1 {
      Unroll(p, c, r, t + 1);
    } else {
      assert Blocks(p, r, r) == [];
    }
  }

  /** Resetting a counter opens the next lower level without changing what is to come. */
  lemma {:induction false} ResetStep(p: Perm, c: seq<int>, r: nat)
    requires 2 <= r && |c| + r == |p| && Counters(c, r)
    ensures Counters([r] + c, r - 1)
    ensures Gen(p, r - 1) + Rest(p, [r] + c, r - 1) == Gen(p, r) + Rest(p, c, r)
    ensures Final(p, [r] + c, r - 1) == Final(p, c, r)
  {
    Unroll(p, c, r, 0);
    RotatedEnds(p, r);
  }

  /** The loop that resets the counters below r. */
  method ResetCounters(count: array<int>, r0: nat, ghost p: Perm)
    requires 1 <= r0 <= count.Length == |p| && Counters(count[r0..], r0)
    modifies count
    ensures Counters(count[1..], 1)
    ensures Gen(p, 1) + Rest(p, count[1..], 1) == Gen(p, r0) + Rest(p, old(count[r0..]), r0)
    ensures Final(p, count[1..], 1) == Final(p, old(count[r0..]), r0)
  {
    var r := r0;
    while r != 1
      invariant 1 <= r <= count.Length && Counters(count[r..], r)
      invariant Gen(p, r) + Rest(p, count[r..], r) == Gen(p, r0) + Rest(p, old(count[r0..]), r0)
      invariant Final(p, count[r..], r) == Final(p, old(count[r0..]), r0)
    {
      ghost var c := count[r..];
      ResetStep(p, c, r);
      count[r - 1] := r;
      r := r - 1;
      assert count[r..] == [r + 1] + c;
    }
  }

  /** The loop that shifts the prefix left by one place. */
  method Rotate(perm1: array<int>, r: nat)
    requires r < perm1.Length
    modifies perm1
    ensures perm1[..] == Rotated(old(perm1[..]), r + 1, 1)
  {
    var perm0 := perm1[0];
    for i := 0 to r
      invariant forall a | 0 <= a < i :: perm1[a] == old(perm1[a + 1])
      invariant forall a | i <= a < perm1.Length :: perm1[a] == old(perm1[a])
    {
      perm1[i] := perm1[i + 1];
    }
    perm1[r] := perm0;
  }

  /** The loop that generates the next permutation. */
  method NextPermutation(perm1: array<int>, count: array<int>) returns (r: nat, done: bool)
    requires count != perm1 && count.Length == perm1.Length >= 1 && Counters(count[1..], 1)
    modifies perm1, count
    ensures 1 <= r <= count.Length && Counters(count[r..], r)
    ensures done ==> old(Rest(perm1[..], count[1..], 1)) == [] && perm1[..] == old(Final(perm1[..], count[1..], 1))
    ensures !done ==> old(Rest(perm1[..], count[1..], 1)) == Gen(perm1[..], r) + Rest(perm1[..], count[r..], r)
    ensures !done ==> old(Final(perm1[..], count[1..], 1)) == Final(perm1[..], count[r..], r)
  {
    r := 1;
    while true
      invariant 1 <= r <= count.Length && Counters(count[r..], r)
      invariant Rest(perm1[..], count[r..], r) == old(Rest(perm1[..], count[1..], 1))
      invariant Final(perm1[..], count[r..], r) == old(Final(perm1[..], count[1..], 1))
      decreases count.Length - r
    {
      if r == count.Length {
        return r, true;
      }
      ghost var c := count[r..];
      Rotate(perm1, r);
      count[r] := count[r] - 1;
      assert count[r..] == [c[0] - 1] + c[1..] && count[r + 1..] == c[1..];
      if count[r] > 0 {
        return r, false;
      }
      r := r + 1;
    }
  }

  // ---------------------------------------------------------------- the benchmark

  ghost predicate AllPerms(s: seq<Perm>)
  {
    forall i | 0 <= i < |s| :: IsPerm(s[i]) && s[i] != []
  }

  /** Flip counts added and subtracted in turn. */
  ghost function Checksum(s: seq<Perm>): int
    requires AllPerms(s)
  {
    if s == [] then 0
    else
      var n := |s| - 1;
      if n % 2 == 0 then Checksum(s[..n]) + Flips(s[n]) else Checksum(s[..n]) - Flips(s[n])
  }

  /** Flip counts are added at even positions and subtracted at odd ones. */
  lemma ChecksumSigns(s: seq<Perm>, p: Perm, q: Perm)
    requires AllPerms(s) && IsPerm(p) && p != [] && IsPerm(q) && q != [] && |s| % 2 == 0
    ensures AllPerms(s + [p]) && AllPerms(s + [p] + [q])
    ensures Checksum(s + [p]) == Checksum(s) + Flips(p) && Checksum(s + [p] + [q]) == Checksum(s) + Flips(p) - Flips(q)
  {
    hide IsPerm, Flips, AllPerms, Checksum;
    AllPermsExtend(s, p);
    AllPermsExtend(s + [p], q);
    AccountSum(s, p);
    AccountSum(s + [p], q);
  }

  /** For two elements the identity comes first, and the checksum is -1. */
  lemma TwoElements()
    ensures var all := Gen(Identity(2), 2); all == [[0, 1], [1, 0]] && AllPerms(all) && Checksum(all) == -1
  {
    var id: Perm, swapped: Perm := [0, 1], [1, 0];
    TwoRotations(id, swapped);
    assert Identity(0) == [] && Identity(1) == [0] && Identity(2) == id;
    TwoFlips(id, swapped);
    ChecksumSigns([], id, swapped);
    assert [] + [id] + [swapped] == [id, swapped];
  }

  lemma TwoRotations(id: Perm, swapped: Perm)
    requires id == [0, 1] && swapped == [1, 0]
    ensures Gen(id, 2) == [id, swapped]
  {
    assert Rotated(id, 2, 0) == id && Rotated(id, 2, 1) == swapped;
    assert Blocks(id, 2, 2) == [] && Blocks(id, 2, 1) == [swapped] && Blocks(id, 2, 0) == [id] + [swapped];
  }

  lemma TwoFlips(id: Perm, swapped: Perm)
    requires id == [0, 1] && swapped == [1, 0]
    ensures IsPerm(id) && IsPerm(swapped) && Flips(id) == 0 && Flips(swapped) == 1
  {
    assert Flip(swapped) == id;
  }

  /** m is the largest flip count of s, or 0 if s is empty. */
  ghost predicate IsMaxFlips(s: seq<Perm>, m: nat)
    requires AllPerms(s)
  {
    (forall i | 0 <= i < |s| :: Flips(s[i]) <= m) && ((s == [] && m == 0) || exists i :: 0 <= i < |s| && Flips(s[i]) == m)
  }

  /** m is the largest flip count of all permutations of n elements. */
  ghost predicate IsFannkuchMax(m: nat, n: nat)
    requires n >= 1
  {
    (forall q: Perm | |q| == n && IsPerm(q) :: Flips(q) <= m) && exists q: Perm :: |q| == n && IsPerm(q) && Flips(q) == m
  }

  lemma AllPermsExtend(s: seq<Perm>, p: Perm)
    requires IsPerm(p) && p != [] && AllPerms(s)
    ensures AllPerms(s + [p])
  {
    hide IsPerm;
  }

  /** One more permutation: the checksum after it. */
  lemma AccountSum(s: seq<Perm>, p: Perm)
    requires IsPerm(p) && p != [] && AllPerms(s) && AllPerms(s + [p])
    ensures Checksum(s + [p]) == if |s| % 2 == 0 then Checksum(s) + Flips(p) else Checksum(s) - Flips(p)
  {
    hide IsPerm, AllPerms, Flips;
    var t := s + [p];
    assert t[..|s|] == s && t[|s|] == p;
  }

  /** One more permutation: the maximum after it. */
  lemma AccountMax(s: seq<Perm>, p: Perm, m: nat)
    requires IsPerm(p) && p != [] && AllPerms(s) && AllPerms(s + [p]) && IsMaxFlips(s, m)
    ensures IsMaxFlips(s + [p], if Flips(p) > m then Flips(p) else m)
  {
    hide IsPerm, Flips;
    var t := s + [p];
    var m' := if Flips(p) > m then Flips(p) else m;
    forall i | 0 <= i < |t| ensures Flips(t[i]) <= m' {
      assert t[i] == if i < |s| then s[i] else p;
    }
    if Flips(p) > m || s == [] {
      assert t[|s|] == p;
    } else {
      var i :| 0 <= i < |s| && Flips(s[i]) == m;
      assert t[i] == s[i];
    }
  }

  /** The running maximum and checksum of what was visited. */
  ghost predicate Tally(s: seq<Perm>, m: nat, sum: int)
  {
    AllPerms(s) && IsMaxFlips(s, m) && sum == Checksum(s)
  }

  lemma TallyStep(s: seq<Perm>, p: Perm, m: nat, sum: int)
    requires IsPerm(p) && p != [] && Tally(s, m, sum)
    ensures var f := Flips(p); Tally(s + [p], if f > m then f else m, if |s| % 2 == 0 then sum + f else sum - f)
  {
    hide IsPerm, Flips, AllPerms, IsMaxFlips, Checksum;
    AllPermsExtend(s, p);
    AccountSum(s, p);
    AccountMax(s, p, m);
  }

  /** The state between two visits: what was visited, and what the odometer will still visit, is everything. */
  ghost predicate OnTrack(visited: seq<Perm>, p: Perm, c: seq<int>, r: nat, all: seq<Perm>, id: Perm)
  {
    r >= 1 && |c| + r == |p| && Counters(c, r) && visited + (Gen(p, r) + Rest(p, c, r)) == all && Final(p, c, r) == id
  }

  /** The same just after p was visited, with all counters set. */
  ghost predicate AfterVisit(visited: seq<Perm>, p: Perm, c: seq<int>, all: seq<Perm>, id: Perm)
  {
    |c| + 1 == |p| && Counters(c, 1) && visited + Rest(p, c, 1) == all && Final(p, c, 1) == id
  }

  lemma Visit(visited: seq<Perm>, p: Perm, c: seq<int>, all: seq<Perm>, id: Perm)
    requires OnTrack(visited, p, c, 1, all, id)
    ensures p in all && |visited| < |all| && AfterVisit(visited + [p], p, c, all, id)
  {
    assert Gen(p, 1) == [p];
    assert all[|visited|] == p;
    assert visited + ([p] + Rest(p, c, 1)) == visited + [p] + Rest(p, c, 1);
  }

  method SetIdentity(perm1: array<int>)
    modifies perm1
    ensures perm1[..] == Identity(perm1.Length)
  {
    for i := 0 to perm1.Length
      invariant forall a | 0 <= a < i :: perm1[a] == a
    {
      perm1[i] := i;
    }
  }

  /** Setting the counters and visiting: the outer loop up to the flip count. */
  method Arrive(perm1: array<int>, count: array<int>, r: nat, ghost visited: seq<Perm>, ghost all: seq<Perm>, ghost id: Perm)
    requires perm1 != count && perm1.Length == count.Length && 1 <= r <= count.Length
    requires OnTrack(visited, perm1[..], count[r..], r, all, id)
    modifies count
    ensures perm1[..] in all && |visited| < |all|
    ensures AfterVisit(visited + [perm1[..]], perm1[..], count[1..], all, id)
  {
    ResetCounters(count, r, perm1[..]);
    Visit(visited, perm1[..], count[1..], all, id);
  }

  /** Moving on: either the odometer has run out, at the identity, or the track continues. */
  method Depart(perm1: array<int>, count: array<int>, ghost visited: seq<Perm>, ghost all: seq<Perm>, ghost id: Perm)
    returns (r: nat, done: bool)
    requires perm1 != count && perm1.Length == count.Length >= 1
    requires AfterVisit(visited, perm1[..], count[1..], all, id)
    modifies perm1, count
    ensures 1 <= r <= count.Length
    ensures if done then visited == all && perm1[..] == id else OnTrack(visited, perm1[..], count[r..], r, all, id)
  {
    r, done := NextPermutation(perm1, count);
  }

  /** Copying the permutation and counting its flips. */
  method FlipsOf(perm: array<int>, perm1: array<int>) returns (flips: nat)
    requires perm != perm1 && perm.Length == perm1.Length >= 1 && IsPerm(perm1[..])
    modifies perm
    ensures flips == Flips(perm1[..])
  {
    for i := 0 to perm1.Length
      invariant perm[..i] == perm1[..i]
    {
      perm[i] := perm1[i];
    }
    assert perm[..] == perm1[..];
    flips := CountFlips(perm);
  }

  /** The flips of one more permutation: maximum and checksum. */
  method Account(perm: array<int>, perm1: array<int>, maxFlips: nat, checksum: int, permCount: nat, ghost visited: seq<Perm>)
    returns (maxFlips': nat, checksum': int)
    requires perm != perm1 && perm.Length == perm1.Length >= 1 && IsPerm(perm1[..])
    requires permCount == |visited| && Tally(visited, maxFlips, checksum)
    modifies perm
    ensures Tally(visited + [perm1[..]], maxFlips', checksum')
  {
    hide Flips, IsPerm, Tally;
    maxFlips', checksum' := maxFlips, checksum;
    var flips := FlipsOf(perm, perm1);
    TallyStep(visited, perm1[..], maxFlips, checksum);
    if flips > maxFlips {
      maxFlips' := flips;
    }
    if permCount % 2 == 0 {
      checksum' := checksum + flips;
    } else {
      checksum' := checksum - flips;
    }
  }

  /** `fannkuch`: n! permutations are visited, each exactly once, and the generator ends where it began; the
      result packs the alternating sum of their flip counts and the largest flip count of any permutation. */
  method Fannkuch(n: nat)
    returns (result: int, maxFlips: nat, checksum: int, permCount: nat, last: Perm, ghost visited: seq<Perm>)
    requires n >= 1
    ensures visited == Gen(Identity(n), n) && EachOnce(visited, n) && permCount == Factorial(n) && last == Identity(n)
    ensures AllPerms(visited) && checksum == Checksum(visited)
    ensures IsFannkuchMax(maxFlips, n) && maxFlips < Pow2(n)
    ensures result == checksum * 1000 + maxFlips
  {
    hide Identity, Gen, Rest, Final, Flips, Factorial, Checksum, OnTrack, AfterVisit, IsPerm, EachOnce, Tally, AllPerms, IsFannkuchMax;
    VisitsEachOnce(n);
    ghost var id := Identity(n);
    ghost var all := Gen(id, n);
    StartOfRun(id, all);
    var perm, perm1, count := new int[n], new int[n], new int[n];
    maxFlips, checksum, permCount := 0, 0, 0;
    visited := [];
    SetIdentity(perm1);
    var r := n;
    assert count[n..] == [];
    while true
      invariant 1 <= r <= n && OnTrack(visited, perm1[..], count[r..], r, all, id)
      invariant permCount == |visited| && Tally(visited, maxFlips, checksum)
      decreases |all| - |visited|
    {
      Arrive(perm1, count, r, visited, all, id);
      ghost var now := perm1[..];
      MemberIsPerm(all, n, now);
      maxFlips, checksum := Account(perm, perm1, maxFlips, checksum, permCount, visited);
      permCount := permCount + 1;
      visited := visited + [now];
      var done;
      r, done := Depart(perm1, count, visited, all, id);
      if done {
        break;
      }
    }
    MaxOverAll(visited, n, maxFlips, checksum);
    last := perm1[..];
    result := checksum * 1000 + maxFlips;
  }

  lemma StartOfRun(id: Perm, all: seq<Perm>)
    requires |id| >= 1 && all == Gen(id, |id|)
    ensures OnTrack([], id, [], |id|, all, id) && Tally([], 0, 0)
  {
    assert [] + (Gen(id, |id|) + []) == all;
  }

  lemma MemberIsPerm(all: seq<Perm>, n: nat, p: Perm)
    requires EachOnce(all, n) && p in all
    ensures IsPerm(p) && |p| == n
  {
  }

  /** The largest count over a list of all permutations is the largest of all. */
  lemma MaxOverAll(s: seq<Perm>, n: nat, m: nat, sum: int)
    requires n >= 1 && Tally(s, m, sum) && EachOnce(s, n)
    ensures AllPerms(s) && sum == Checksum(s)
    ensures IsFannkuchMax(m, n) && m < Pow2(n) && |s| == Factorial(n)
  {
    var i :| 0 <= i < |s| && Flips(s[i]) == m;
    assert s[i] in s;
    FlipsBound(s[i]);
    forall q: Perm | |q| == n && IsPerm(q) ensures Flips(q) <= m {
      assert q in s;
    }
  }
}
