/** The order in which rotations of ever longer prefixes visit all permutations. */
module Permutations {

  type Perm = seq<int>

  predicate Distinct(p: seq<int>)
  {
    forall i, j | 0 <= i < j < |p| :: p[i] != p[j]
  }

  /** A permutation of 0 .. |p| - 1. */
  predicate IsPerm(p: Perm)
  {
    Distinct(p) && forall i | 0 <= i < |p| :: 0 <= p[i] < |p|
  }

  function Identity(n: nat): (p: Perm)
    ensures |p| == n && forall i | 0 <= i < n :: p[i] == i
  {
    if n == 0 then [] else Identity(n - 1) + [n - 1]
  }

  function Factorial(n: nat): (f: nat)
    ensures f >= 1
  {
    if n == 0 then 1 else n * Factorial(n - 1)
  }

  /** The prefix of length m rotated left by t places. */
  function Rotated(p: Perm, m: nat, t: nat): (r: Perm)
    requires t <= m <= |p|
    ensures |r| == |p|
  {
    p[t..m] + p[..t] + p[m..]
  }

  lemma RotatedEnds(p: Perm, m: nat)
    requires m <= |p|
    ensures Rotated(p, m, 0) == p == Rotated(p, m, m)
  {
  }

  lemma RotateOnce(p: Perm, m: nat, t: nat)
    requires t < m <= |p|
    ensures Rotated(Rotated(p, m, t), m, 1) == Rotated(p, m, t + 1)
  {
    var r := Rotated(p, m, t);
    assert r[1..m] == p[t + 1..m] + p[..t];
    assert r[..1] == [p[t]];
    assert r[m..] == p[m..];
    assert p[..t] + [p[t]] == p[..t + 1];
  }

  /** Everything visited when the prefix of length m runs through its arrangements, starting from p. */
  function Gen(p: Perm, m: nat): seq<Perm>
    requires 1 <= m <= |p|
    decreases m, m + 1
  {
    if m == 1 then [p] else Blocks(p, m, 0)
  }

  /** The part of that which follows the first t rotations of the prefix. */
  function Blocks(p: Perm, m: nat, t: nat): seq<Perm>
    requires 2 <= m <= |p| && t <= m
    decreases m, m - t
  {
    if t == m then [] else Gen(Rotated(p, m, t), m - 1) + Blocks(p, m, t + 1)
  }

  // ---------------------------------------------------------------- how many

  lemma {:induction false} GenCount(p: Perm, m: nat)
    requires 1 <= m <= |p|
    ensures |Gen(p, m)| == Factorial(m)
    decreases m, m + 1
  {
    if m == 1 {
      assert Factorial(1) == 1 * Factorial(0);
    } else {
      BlocksCount(p, m, 0);
    }
  }

  lemma {:induction false} BlocksCount(p: Perm, m: nat, t: nat)
    requires 2 <= m <= |p| && t <= m
    ensures |Blocks(p, m, t)| == (m - t) * Factorial(m - 1)
    decreases m, m - t
  {
    if t < m {
      GenCount(Rotated(p, m, t), m - 1);
      BlocksCount(p, m, t + 1);
      var f := Factorial(m - 1);
      assert (m - t) * f == f + (m - (t + 1)) * f;
    }
  }

  // ---------------------------------------------------------------- in which order

  /** A position in the factorial number system: for each level from m down to 2 a number of rotations below the level. */
  ghost predicate IsPosition(m: nat, ds: seq<nat>)
    requires m >= 1
    decreases m
  {
    if m == 1 then ds == [] else ds != [] && ds[0] < m && IsPosition(m - 1, ds[1..])
  }

  function Position(m: nat, ds: seq<nat>): nat
    requires m >= 1 && IsPosition(m, ds)
    decreases m
  {
    if m == 1 then 0 else ds[0] * Factorial(m - 1) + Position(m - 1, ds[1..])
  }

  /** The permutation at a position: each level rotates its prefix as often as its digit says. */
  function RotatedBy(p: Perm, m: nat, ds: seq<nat>): Perm
    requires 1 <= m <= |p| && IsPosition(m, ds)
    decreases m
  {
    if m == 1 then p else RotatedBy(Rotated(p, m, ds[0]), m - 1, ds[1..])
  }

  /** What is visited at each position. */
  lemma {:induction false} GenAt(p: Perm, m: nat, ds: seq<nat>)
    requires 1 <= m <= |p| && IsPosition(m, ds)
    ensures Position(m, ds) < |Gen(p, m)| && Gen(p, m)[Position(m, ds)] == RotatedBy(p, m, ds)
    decreases m
  {
    hide Rotated, Factorial;
    if m > 1 {
      GenAt(Rotated(p, m, ds[0]), m - 1, ds[1..]);
      BlocksAt(p, m, 0, ds[0], Position(m - 1, ds[1..]));
    }
  }

  lemma {:induction false} BlocksAt(p: Perm, m: nat, t: nat, j: nat, k: nat)
    requires 2 <= m <= |p| && t <= j < m && k < |Gen(Rotated(p, m, j), m - 1)|
    ensures var at := (j - t) * Factorial(m - 1) + k; at < |Blocks(p, m, t)| && Blocks(p, m, t)[at] == Gen(Rotated(p, m, j), m - 1)[k]
    decreases j - t
  {
    hide Rotated, Gen, Factorial;
    if t < j {
      GenCount(Rotated(p, m, t), m - 1);
      BlocksAt(p, m, t + 1, j, k);
      var f := Factorial(m - 1);
      assert (j - t) * f == f + (j - (t + 1)) * f;
    }
  }

  /** Every number below m! is a position. */
  lemma {:induction false} EveryPosition(m: nat, k: nat) returns (ds: seq<nat>)
    requires m >= 1 && k < Factorial(m)
    ensures IsPosition(m, ds) && Position(m, ds) == k
    decreases m
  {
    if m == 1 {
      ds := [];
      assert Factorial(1) == 1 * Factorial(0);
    } else {
      var f := Factorial(m - 1);
      assert Factorial(m) == m * f;
      var t, r := Quotient(k, f, m);
      var rest := EveryPosition(m - 1, r);
      ds := [t] + rest;
      PositionOf(m, t, rest);
    }
  }

  lemma PositionOf(m: nat, t: nat, rest: seq<nat>)
    requires m >= 2 && t < m && IsPosition(m - 1, rest)
    ensures IsPosition(m, [t] + rest) && Position(m, [t] + rest) == t * Factorial(m - 1) + Position(m - 1, rest)
  {
    hide Factorial;
    assert ([t] + rest)[1..] == rest;
  }

  lemma {:induction false} Quotient(k: nat, f: nat, m: nat) returns (t: nat, r: nat)
    requires f >= 1 && k < m * f
    ensures t < m && r < f && k == t * f + r
    decreases m
  {
    if k < f {
      t, r := 0, k;
    } else {
      assert m * f == (m - 1) * f + f;
      t, r := Quotient(k - f, f, m - 1);
      assert (t + 1) * f == t * f + f;
      t := t + 1;
    }
  }

  // ---------------------------------------------------------------- which ones

  /** q arranges the same elements as p and agrees with it from position m on. */
  ghost predicate Rearranges(q: Perm, p: Perm, m: nat)
    requires m <= |p|
  {
    |q| == |p| && q[m..] == p[m..] && multiset(q) == multiset(p)
  }

  lemma RotatedRearranges(p: Perm, m: nat, t: nat)
    requires t <= m <= |p|
    ensures Rearranges(Rotated(p, m, t), p, m)
  {
    assert p == p[..t] + p[t..m] + p[m..];
    assert Rotated(p, m, t)[m..] == p[m..];
  }

  /** Only rearrangements of the prefix are visited. */
  lemma {:induction false} GenSound(p: Perm, m: nat, q: Perm)
    requires 1 <= m <= |p| && q in Gen(p, m)
    ensures Rearranges(q, p, m)
    decreases m, m + 1
  {
    if m > 1 {
      var t := BlocksSound(p, m, 0, q);
    }
  }

  /** A visited arrangement belongs to one of the rotations. */
  lemma {:induction false} BlocksSound(p: Perm, m: nat, t: nat, q: Perm) returns (u: nat)
    requires 2 <= m <= |p| && t <= m && q in Blocks(p, m, t)
    ensures t <= u < m && Rearranges(q, Rotated(p, m, u), m - 1) && Rearranges(q, p, m)
    decreases m, m - t
  {
    if q in Gen(Rotated(p, m, t), m - 1) {
      u := t;
      GenSound(Rotated(p, m, t), m - 1, q);
      RotatedRearranges(p, m, t);
      assert q[m..] == q[m - 1..][1..] && Rotated(p, m, t)[m..] == Rotated(p, m, t)[m - 1..][1..];
    } else {
      u := BlocksSound(p, m, t + 1, q);
    }
  }

  /** The element a rotation brings to the end of the prefix. */
  lemma LastOfRotated(p: Perm, m: nat, t: nat)
    requires t < m <= |p|
    ensures Rotated(p, m, t)[m - 1] == if t == 0 then p[m - 1] else p[t - 1]
  {
  }

  lemma SamePrefixElements(q: Perm, p: Perm, m: nat)
    requires m <= |p| && Rearranges(q, p, m)
    ensures multiset(q[..m]) == multiset(p[..m])
  {
    assert q == q[..m] + q[m..] && p == p[..m] + p[m..];
    assert multiset(q[..m]) == multiset(q) - multiset(q[m..]);
    assert multiset(p[..m]) == multiset(p) - multiset(p[m..]);
  }

  /** Where p has the element that q has at the end of the prefix. */
  lemma FindLast(q: Perm, p: Perm, m: nat) returns (k: nat)
    requires 1 <= m <= |p| && Rearranges(q, p, m)
    ensures k < m && p[k] == q[m - 1]
  {
    SamePrefixElements(q, p, m);
    assert q[..m][m - 1] in multiset(q[..m]);
    assert q[m - 1] in p[..m];
    k :| k < m && p[..m][k] == q[m - 1];
  }

  /** Every rearrangement of the prefix is visited. */
  lemma {:induction false} GenComplete(p: Perm, m: nat, q: Perm)
    requires 1 <= m <= |p| && Rearranges(q, p, m)
    ensures q in Gen(p, m)
    decreases m
  {
    var k := FindLast(q, p, m);
    if m == 1 {
      assert q == [q[0]] + q[1..] && p == [p[0]] + p[1..];
    } else {
      var t := if k == m - 1 then 0 else k + 1;
      LastOfRotated(p, m, t);
      RotatedRearranges(p, m, t);
      var r := Rotated(p, m, t);
      hide Rotated;
      assert q[m - 1..] == [q[m - 1]] + q[m..] && r[m - 1..] == [r[m - 1]] + r[m..];
      GenComplete(r, m - 1, q);
      InBlocks(p, m, 0, t, q);
    }
  }

  lemma {:induction false} InBlocks(p: Perm, m: nat, t: nat, u: nat, q: Perm)
    requires 2 <= m <= |p| && t <= u < m && q in Gen(Rotated(p, m, u), m - 1)
    ensures q in Blocks(p, m, t)
    decreases u - t
  {
    if t < u {
      InBlocks(p, m, t + 1, u, q);
    }
  }

  // ---------------------------------------------------------------- only once

  predicate NoRepeats(s: seq<Perm>)
  {
    forall i, j | 0 <= i < j < |s| :: s[i] != s[j]
  }

  lemma RotatedDistinct(p: Perm, m: nat, t: nat)
    requires t <= m <= |p| && Distinct(p)
    ensures Distinct(Rotated(p, m, t))
  {
  }

  /** Distinct elements make distinct visits. */
  lemma {:induction false} GenOnce(p: Perm, m: nat)
    requires 1 <= m <= |p| && Distinct(p)
    ensures NoRepeats(Gen(p, m))
    decreases m, m + 1
  {
    if m > 1 {
      BlocksOnce(p, m, 0);
    }
  }

  lemma SameLast(q: Perm, r: Perm, m: nat)
    requires 1 <= m <= |r| && Rearranges(q, r, m - 1)
    ensures q[m - 1] == r[m - 1]
  {
    assert q[m - 1..][0] == r[m - 1..][0];
  }

  /** Different rotations end the prefix with different elements, so they share no arrangement. */
  lemma {:induction false} BlocksApart(p: Perm, m: nat, t: nat, q: Perm)
    requires 2 <= m <= |p| && t < m && Distinct(p) && q in Gen(Rotated(p, m, t), m - 1)
    ensures q !in Blocks(p, m, t + 1)
  {
    if q in Blocks(p, m, t + 1) {
      GenSound(Rotated(p, m, t), m - 1, q);
      var u := BlocksSound(p, m, t + 1, q);
      SameLast(q, Rotated(p, m, t), m);
      SameLast(q, Rotated(p, m, u), m);
      LastOfRotated(p, m, t);
      LastOfRotated(p, m, u);
    }
  }

  lemma {:induction false} BlocksOnce(p: Perm, m: nat, t: nat)
    requires 2 <= m <= |p| && t <= m && Distinct(p)
    ensures NoRepeats(Blocks(p, m, t))
    decreases m, m - t
  {
    if t < m {
      var a, b := Gen(Rotated(p, m, t), m - 1), Blocks(p, m, t + 1);
      RotatedDistinct(p, m, t);
      GenOnce(Rotated(p, m, t), m - 1);
      BlocksOnce(p, m, t + 1);
      forall q | q in a ensures q !in b {
        if q in b {
          BlocksApart(p, m, t, q);
        }
      }
      NoRepeatsConcat(a, b);
    }
  }

  lemma NoRepeatsConcat(a: seq<Perm>, b: seq<Perm>)
    requires NoRepeats(a) && NoRepeats(b) && forall q | q in a :: q !in b
    ensures NoRepeats(a + b)
  {
    var s := a + b;
    forall i, j | 0 <= i < j < |s| ensures s[i] != s[j] {
      if j < |a| {
        assert s[i] == a[i] && s[j] == a[j];
      } else if i < |a| {
        assert s[i] == a[i] && s[j] == b[j - |a|];
        assert a[i] in a && b[j - |a|] in b;
      } else {
        assert s[i] == b[i - |a|] && s[j] == b[j - |a|];
      }
    }
  }

  // ---------------------------------------------------------------- permutations as multisets

  lemma {:induction false} DistinctCounts(p: seq<int>)
    requires Distinct(p)
    ensures forall x :: multiset(p)[x] == if x in p then 1 else 0
    decreases |p|
  {
    if p != [] {
      var n := |p| - 1;
      assert p == p[..n] + [p[n]];
      DistinctCounts(p[..n]);
    }
  }

  lemma {:induction false} DistinctSize(p: seq<int>)
    requires Distinct(p)
    ensures |set x | x in p| == |p|
    decreases |p|
  {
    if p != [] {
      var n := |p| - 1;
      DistinctSize(p[..n]);
      assert (set x | x in p) == (set x | x in p[..n]) + {p[n]};
    }
  }

  lemma SubsetFills(a: set<int>, b: set<int>)
    requires a <= b && |a| == |b|
    ensures a == b
  {
    assert |b - a| == 0;
  }

  lemma PermHasAll(p: Perm, id: Perm)
    requires IsPerm(p) && id == Identity(|p|)
    ensures forall x :: x in p <==> x in id
  {
    DistinctSize(id);
    DistinctSize(p);
    var a, b := set x | x in p, set x | x in id;
    forall x | x in p ensures x in id {
      assert id[x] == x;
    }
    SubsetFills(a, b);
    forall x ensures x in p <==> x in id {
      assert x in p <==> x in a;
      assert x in id <==> x in b;
    }
  }

  lemma PermToElements(p: Perm)
    requires IsPerm(p)
    ensures multiset(p) == multiset(Identity(|p|))
  {
    var id := Identity(|p|);
    PermHasAll(p, id);
    DistinctCounts(id);
    DistinctCounts(p);
  }

  lemma TwiceCounts(p: seq<int>, i: nat, j: nat)
    requires i < j < |p| && p[i] == p[j]
    ensures multiset(p)[p[i]] >= 2
  {
    assert p == p[..j] + p[j..];
    assert p[..j][i] in multiset(p[..j]);
    assert p[j..][0] in multiset(p[j..]);
  }

  lemma ElementsToPerm(p: Perm)
    requires multiset(p) == multiset(Identity(|p|))
    ensures IsPerm(p)
  {
    var id := Identity(|p|);
    DistinctCounts(id);
    forall i | 0 <= i < |p| ensures 0 <= p[i] < |p| {
      assert p[i] in multiset(p);
      assert p[i] in id;
    }
    forall i, j | 0 <= i < j < |p| ensures p[i] != p[j] {
      if p[i] == p[j] {
        TwiceCounts(p, i, j);
      }
    }
  }

  /** Being a permutation of 0 .. n - 1 is having the elements of the identity. */
  lemma PermIffSameElements(p: Perm)
    ensures IsPerm(p) <==> multiset(p) == multiset(Identity(|p|))
  {
    if IsPerm(p) {
      PermToElements(p);
    }
    if multiset(p) == multiset(Identity(|p|)) {
      ElementsToPerm(p);
    }
  }

  /** The list holds every permutation of 0 .. n - 1 exactly once, and so has n! entries. */
  ghost predicate EachOnce(visited: seq<Perm>, n: nat)
  {
    |visited| == Factorial(n) && NoRepeats(visited) && forall q: Perm :: q in visited <==> |q| == n && IsPerm(q)
  }

  /** Rotating ever longer prefixes of the identity visits every permutation of 0 .. n - 1 exactly once. */
  lemma VisitsEachOnce(n: nat)
    requires n >= 1
    ensures EachOnce(Gen(Identity(n), n), n)
  {
    var id := Identity(n);
    GenCount(id, n);
    GenOnce(id, n);
    forall q: Perm ensures q in Gen(id, n) <==> |q| == n && IsPerm(q) {
      PermIffSameElements(q);
      if q in Gen(id, n) {
        GenSound(id, n, q);
      }
      if |q| == n && IsPerm(q) {
        assert q[n..] == id[n..];
        GenComplete(id, n, q);
      }
    }
  }
}
