/** Canonical Huffman codes (section 3.2.2 of RFC 1951), independent of any table. */
module Canonical {
  import opened Wrappers
  import opened Bits

  /** Code lengths as `stbi__zbuild_huffman` receives them: 0 means the symbol is absent. */
  ghost predicate ValidLengths(lens: seq<nat>)
  {
    |lens| <= 288 && forall i | 0 <= i < |lens| :: lens[i] <= 15
  }

  /** How many of the first n symbols have code length l. */
  function CountTo(lens: seq<nat>, n: nat, l: nat): (c: nat)
    requires n <= |lens|
    ensures c <= n
  {
    if n == 0 then 0 else CountTo(lens, n - 1, l) + if lens[n - 1] == l then 1 else 0
  }

  function Count(lens: seq<nat>, l: nat): nat
  {
    CountTo(lens, |lens|, l)
  }

  /** The first code of length l: step 2 of the RFC's algorithm. */
  function FirstCode(lens: seq<nat>, l: nat): nat
    requires l >= 1
    decreases l, lens
  {
    if l == 1 then 0 else 2 * (FirstCode(lens, l - 1) + Count(lens, l - 1))
  }

  /** One past the last code of length l. */
  function EndCode(lens: seq<nat>, l: nat): nat
    requires l >= 1
  {
    FirstCode(lens, l) + Count(lens, l)
  }

  /** Codes of one length go to the symbols in increasing order: step 3 of the RFC's algorithm. */
  function Code(lens: seq<nat>, i: nat): nat
    requires i < |lens| && lens[i] > 0
  {
    FirstCode(lens, lens[i]) + CountTo(lens, i, lens[i])
  }

  /** The first n symbols' share of the code space, in units of 2^-15. */
  function KraftSum(lens: seq<nat>, n: nat): nat
    requires n <= |lens| && forall i | 0 <= i < |lens| :: lens[i] <= 15
  {
    if n == 0 then 0 else KraftSum(lens, n - 1) + if lens[n - 1] == 0 then 0 else Pow2(15 - lens[n - 1])
  }

  /** The Kraft inequality: the sum of 2^-length over the present symbols is at most 1. */
  ghost predicate Kraft(lens: seq<nat>)
    requires ValidLengths(lens)
  {
    KraftSum(lens, |lens|) <= Pow2(15)
  }

  /** The code of symbol i is a prefix of the stream at p. */
  ghost predicate Matches(lens: seq<nat>, i: nat, data: seq<Byte>, p: nat)
  {
    i < |lens| && lens[i] > 0 && Msb(data, p, lens[i]) == Code(lens, i)
  }

  // ---------------------------------------------------------------- counting

  lemma {:induction false} CountMono(lens: seq<nat>, m: nat, n: nat, l: nat)
    requires m <= n <= |lens|
    ensures CountTo(lens, m, l) <= CountTo(lens, n, l)
    ensures m < n && lens[m] == l ==> CountTo(lens, m, l) < CountTo(lens, n, l)
    decreases n
  {
    if m < n {
      CountMono(lens, m, n - 1, l);
    }
  }

  /** The symbol that is number k among the first n of length l. */
  lemma {:induction false} NthOfLength(lens: seq<nat>, n: nat, l: nat, k: nat) returns (i: nat)
    requires n <= |lens| && k < CountTo(lens, n, l)
    ensures i < n && lens[i] == l && CountTo(lens, i, l) == k
  {
    if lens[n - 1] == l && CountTo(lens, n - 1, l) == k {
      i := n - 1;
    } else {
      i := NthOfLength(lens, n - 1, l, k);
    }
  }

  lemma {:induction false} CodeRange(lens: seq<nat>, i: nat)
    requires i < |lens| && lens[i] > 0
    ensures FirstCode(lens, lens[i]) <= Code(lens, i) < EndCode(lens, lens[i])
  {
    CountMono(lens, i, |lens|, lens[i]);
  }

  // ---------------------------------------------------------------- the Kraft inequality

  /** The share of the symbols of length 1 to l among the first n. */
  function KraftUpTo(lens: seq<nat>, n: nat, l: nat): nat
    requires n <= |lens| && l <= 15
  {
    if n == 0 then 0 else KraftUpTo(lens, n - 1, l) + if 1 <= lens[n - 1] <= l then Pow2(15 - lens[n - 1]) else 0
  }

  lemma {:induction false} KraftUpToAll(lens: seq<nat>, n: nat)
    requires n <= |lens| && forall i | 0 <= i < |lens| :: lens[i] <= 15
    ensures KraftUpTo(lens, n, 15) == KraftSum(lens, n)
  {
    if n > 0 {
      KraftUpToAll(lens, n - 1);
    }
  }

  lemma {:induction false} KraftUpToStep(lens: seq<nat>, n: nat, l: nat)
    requires n <= |lens| && 1 <= l <= 15
    ensures KraftUpTo(lens, n, l) == KraftUpTo(lens, n, l - 1) + Shl(CountTo(lens, n, l), 15 - l)
  {
    ShlOne(15 - l);
    if n > 0 {
      KraftUpToStep(lens, n - 1, l);
      ShlAdd(CountTo(lens, n - 1, l), 1, 15 - l);
    }
  }

  lemma {:induction false} KraftUpToZero(lens: seq<nat>, n: nat)
    requires n <= |lens|
    ensures KraftUpTo(lens, n, 0) == 0
  {
    if n > 0 {
      KraftUpToZero(lens, n - 1);
    }
  }

  /** The end of the codes of length l marks the code space used by lengths 1 to l. */
  lemma {:induction false} EndCodeIsKraft(lens: seq<nat>, l: nat)
    requires 1 <= l <= 15
    ensures Shl(EndCode(lens, l), 15 - l) == KraftUpTo(lens, |lens|, l)
    decreases l
  {
    KraftUpToStep(lens, |lens|, l);
    ShlAdd(FirstCode(lens, l), Count(lens, l), 15 - l);
    if l == 1 {
      KraftUpToZero(lens, |lens|);
      ShlOne(14);
    } else {
      EndCodeIsKraft(lens, l - 1);
      ShlShl(EndCode(lens, l - 1), 1, 15 - l);
      assert Shl(EndCode(lens, l - 1), 1) == 2 * Shl(EndCode(lens, l - 1), 0);
    }
  }

  lemma {:induction false} KraftUpToMono(lens: seq<nat>, n: nat, l: nat)
    requires n <= |lens| && l <= 15
    ensures KraftUpTo(lens, n, l) <= KraftUpTo(lens, n, 15)
  {
    if n > 0 {
      KraftUpToMono(lens, n - 1, l);
    }
  }

  lemma {:induction false} FitsIffShare(c: nat, l: nat)
    requires l <= 15
    ensures c <= Pow2(l) <==> Shl(c, 15 - l) <= Pow2(15)
  {
    ShlOne(l);
    ShlShl(1, l, 15 - l);
    ShlOne(15);
    ShlOrder(c, Pow2(l), 15 - l);
    ShlOrder(Pow2(l), c, 15 - l);
  }

  /** Under the Kraft inequality every length's codes fit in that many bits, and conversely the
      longest length alone decides. */
  lemma {:induction false} KraftIffFits(lens: seq<nat>, l: nat)
    requires ValidLengths(lens) && 1 <= l <= 15
    ensures Kraft(lens) ==> EndCode(lens, l) <= Pow2(l)
    ensures EndCode(lens, 15) <= Pow2(15) <==> Kraft(lens)
  {
    KraftUpToAll(lens, |lens|);
    KraftUpToMono(lens, |lens|, l);
    EndCodeIsKraft(lens, l);
    EndCodeIsKraft(lens, 15);
    FitsIffShare(EndCode(lens, l), l);
    FitsIffShare(EndCode(lens, 15), 15);
  }

  // ---------------------------------------------------------------- codes as intervals

  /** c is the top of the n-bit extension k exactly when k lies in c's interval. */
  lemma {:induction false} PrefixIsInterval(k: nat, c: nat, n: nat)
    ensures Shr(k, n) == c <==> Shl(c, n) <= k < Shl(c + 1, n)
    ensures Shr(k, n) < c <==> k < Shl(c, n)
  {
    SplitAt(k, n);
    ShlAdd(c, 1, n);
    ShlOne(n);
    ShlOrder(Shr(k, n), c, n);
    ShlOrder(c, Shr(k, n), n);
    ShlOrder(Shr(k, n), c + 1, n);
    ShlOrder(c + 1, Shr(k, n), n);
  }

  /** The intervals of longer codes start where those of shorter ones end. */
  lemma {:induction false} LengthsInOrder(lens: seq<nat>, l: nat, m: nat, w: nat)
    requires 1 <= l < m <= w
    ensures Shl(EndCode(lens, l), w - l) <= Shl(FirstCode(lens, m), w - m)
    decreases m
  {
    ShlShl(EndCode(lens, m - 1), 1, w - m);
    assert Shl(EndCode(lens, m - 1), 1) == 2 * Shl(EndCode(lens, m - 1), 0);
    assert Shl(FirstCode(lens, m), w - m) == Shl(EndCode(lens, m - 1), w - (m - 1));
    if l < m - 1 {
      LengthsInOrder(lens, l, m - 1, w);
      ShlOrder(FirstCode(lens, m - 1), EndCode(lens, m - 1), w - (m - 1));
    }
  }

  /** The two rules of section 3.2.2.  Codes of one length are consecutive, in the order of their symbols. */
  lemma {:induction false} Consecutive(lens: seq<nat>, i: nat, j: nat)
    requires i < j < |lens| && lens[i] == lens[j] > 0 && forall k | i < k < j :: lens[k] != lens[i]
    ensures Code(lens, j) == Code(lens, i) + 1
  {
    NoneBetween(lens, i + 1, j, lens[i]);
  }

  lemma {:induction false} NoneBetween(lens: seq<nat>, i: nat, j: nat, l: nat)
    requires i <= j <= |lens| && forall k | i <= k < j :: lens[k] != l
    ensures CountTo(lens, j, l) == CountTo(lens, i, l)
    decreases j
  {
    if i < j {
      NoneBetween(lens, i, j - 1, l);
    }
  }

  /** Shorter codes come before longer ones, also when they are continued by ones. */
  lemma ShorterFirst(lens: seq<nat>, i: nat, j: nat)
    requires i < |lens| && j < |lens| && 0 < lens[i] < lens[j]
    ensures Shl(Code(lens, i) + 1, lens[j] - lens[i]) <= Code(lens, j)
  {
    CodeRange(lens, i);
    CodeRange(lens, j);
    LengthsInOrder(lens, lens[i], lens[j], lens[j]);
    ShlOrder(Code(lens, i) + 1, EndCode(lens, lens[i]), lens[j] - lens[i]);
    assert Shl(FirstCode(lens, lens[j]), 0) == FirstCode(lens, lens[j]);
  }

  /** No code is a prefix of another: at most one symbol's code starts a given word. */
  lemma {:induction false} PrefixFree(lens: seq<nat>, i: nat, j: nat, k: nat, w: nat)
    requires i < |lens| && j < |lens| && 1 <= lens[i] <= lens[j] <= w
    requires Shr(k, w - lens[i]) == Code(lens, i) && Shr(k, w - lens[j]) == Code(lens, j)
    ensures i == j
  {
    CodeRange(lens, i);
    CodeRange(lens, j);
    if lens[i] == lens[j] {
      if i < j {
        CountMono(lens, i, j, lens[i]);
      } else if j < i {
        CountMono(lens, j, i, lens[i]);
      }
    } else {
      PrefixIsInterval(k, Code(lens, i), w - lens[i]);
      PrefixIsInterval(k, Code(lens, j), w - lens[j]);
      LengthsInOrder(lens, lens[i], lens[j], w);
      ShlOrder(Code(lens, i) + 1, EndCode(lens, lens[i]), w - lens[i]);
      ShlOrder(FirstCode(lens, lens[j]), Code(lens, j), w - lens[j]);
    }
  }

  /** The codes of length up to l fill the code space from 0 without gaps. */
  lemma {:induction false} NoGaps(lens: seq<nat>, l: nat, k: nat, w: nat) returns (i: nat)
    requires 1 <= l <= w && k < Shl(EndCode(lens, l), w - l)
    ensures i < |lens| && 1 <= lens[i] <= l && Shr(k, w - lens[i]) == Code(lens, i)
    decreases l
  {
    var c := Shr(k, w - l);
    PrefixIsInterval(k, EndCode(lens, l), w - l);
    if c >= FirstCode(lens, l) {
      i := NthOfLength(lens, |lens|, l, c - FirstCode(lens, l));
    } else {
      PrefixIsInterval(k, FirstCode(lens, l), w - l);
      ShlShl(EndCode(lens, l - 1), 1, w - l);
      assert Shl(EndCode(lens, l - 1), 1) == 2 * Shl(EndCode(lens, l - 1), 0);
      i := NoGaps(lens, l - 1, k, w);
    }
  }

  /** A word past the end of the length-l codes starts with no code of length up to l. */
  lemma {:induction false} PastTheEnd(lens: seq<nat>, i: nat, l: nat, k: nat, w: nat)
    requires i < |lens| && 1 <= lens[i] <= l <= w && k >= Shl(EndCode(lens, l), w - l)
    ensures Shr(k, w - lens[i]) != Code(lens, i)
  {
    CodeRange(lens, i);
    PrefixIsInterval(k, Code(lens, i), w - lens[i]);
    ShlOrder(Code(lens, i) + 1, EndCode(lens, lens[i]), w - lens[i]);
    if lens[i] < l {
      LengthsInOrder(lens, lens[i], l, w);
      ShlOrder(FirstCode(lens, l), EndCode(lens, l), w - l);
    }
  }

  /** At most one symbol matches the stream at a position. */
  lemma {:induction false} MatchIsUnique(lens: seq<nat>, i: nat, j: nat, data: seq<Byte>, p: nat)
    requires Matches(lens, i, data, p) && Matches(lens, j, data, p)
    ensures i == j
  {
    var w := lens[i] + lens[j];
    MsbPrefix(data, p, lens[i], w);
    MsbPrefix(data, p, lens[j], w);
    if lens[i] <= lens[j] {
      PrefixFree(lens, i, j, Msb(data, p, w), w);
    } else {
      PrefixFree(lens, j, i, Msb(data, p, w), w);
    }
  }

  /** The symbol whose code starts at p, or -1 if there is none. */
  ghost function SymbolAt(lens: seq<nat>, data: seq<Byte>, p: nat): (s: int)
    ensures s == -1 || (0 <= s < |lens| && Matches(lens, s, data, p))
  {
    if exists i: nat :: Matches(lens, i, data, p) then
      var i: nat :| Matches(lens, i, data, p); i
    else -1
  }

  lemma {:induction false} SymbolAtIs(lens: seq<nat>, i: nat, data: seq<Byte>, p: nat)
    requires Matches(lens, i, data, p)
    ensures SymbolAt(lens, data, p) == i
  {
    var s := SymbolAt(lens, data, p);
    MatchIsUnique(lens, s, i, data, p);
  }
}
