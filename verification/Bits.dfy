/** Bits of numbers and of byte streams.

    A DEFLATE stream is read least significant bit first (section 3.1.1 of RFC 1951), except
    that Huffman codes are packed most significant bit first.  `Take` gives the first reading of
    a stretch of the stream, `Msb` the second, and `Rev` turns one into the other.  Past the end
    of the input the stream continues with zero bits, as the decoder's byte reader does.

    Shifts and masks are defined bit by bit, so that reasoning about them stays linear.
 */
module Bits {
  import opened Wrappers

  // ---------------------------------------------------------------- shifts and masks

  function Pow2(n: nat): (r: nat)
    ensures r >= 1
  {
    if n == 0 then 1 else 2 * Pow2(n - 1)
  }

  /** v << n */
  function Shl(v: nat, n: nat): nat
  {
    if n == 0 then v else 2 * Shl(v, n - 1)
  }

  /** v >> n */
  function Shr(v: nat, n: nat): nat
  {
    if n == 0 then v else Shr(v / 2, n - 1)
  }

  /** v & ((1 << n) - 1) */
  function Low(v: nat, n: nat): nat
  {
    if n == 0 then 0 else v % 2 + 2 * Low(v / 2, n - 1)
  }

  /** v & m */
  function And(v: nat, m: nat): nat
  {
    if v == 0 || m == 0 then 0 else (if v % 2 == 1 && m % 2 == 1 then 1 else 0) + 2 * And(v / 2, m / 2)
  }

  /** v | m */
  function Or(v: nat, m: nat): nat
    decreases v + m
  {
    if v == 0 then m else if m == 0 then v
    else (if v % 2 == 1 || m % 2 == 1 then 1 else 0) + 2 * Or(v / 2, m / 2)
  }

  function BitOf(v: nat, i: nat): (b: nat)
    ensures b < 2
  {
    Shr(v, i) % 2
  }

  /** The low n bits of v in the opposite order. */
  function Rev(v: nat, n: nat): nat
  {
    if n == 0 then 0 else Shl(v % 2, n - 1) + Rev(v / 2, n - 1)
  }

  lemma {:induction false} Pow2Mono(a: nat, b: nat)
    requires a <= b
    ensures Pow2(a) <= Pow2(b)
    decreases b
  {
    if a < b {
      Pow2Mono(a, b - 1);
    }
  }

  lemma {:induction false} ShlOne(n: nat)
    ensures Shl(1, n) == Pow2(n) && Shl(0, n) == 0
  {
    if n > 0 {
      ShlOne(n - 1);
    }
  }

  lemma {:induction false} ShlAdd(v: nat, w: nat, n: nat)
    ensures Shl(v + w, n) == Shl(v, n) + Shl(w, n)
  {
    if n > 0 {
      ShlAdd(v, w, n - 1);
    }
  }

  lemma {:induction false} ShlShl(v: nat, a: nat, b: nat)
    ensures Shl(Shl(v, a), b) == Shl(v, a + b)
  {
    if b > 0 {
      ShlShl(v, a, b - 1);
    }
  }

  /** Shifting keeps the order, and a shifted number leaves Pow2(n) - 1 of slack. */
  lemma {:induction false} ShlOrder(v: nat, w: nat, n: nat)
    ensures v < w ==> Shl(v, n) + Pow2(n) <= Shl(w, n)
    ensures v <= w ==> Shl(v, n) <= Shl(w, n)
  {
    if n > 0 {
      ShlOrder(v, w, n - 1);
    }
  }

  /** Shifting right undoes shifting left, whatever the low bits. */
  lemma {:induction false} ShrShl(v: nat, r: nat, n: nat)
    requires r < Pow2(n)
    ensures Shr(Shl(v, n) + r, n) == v
    decreases n
  {
    if n > 0 {
      ShrShl(v, r / 2, n - 1);
      assert (Shl(v, n) + r) / 2 == Shl(v, n - 1) + r / 2;
    }
  }

  lemma {:induction false} ShrStep(v: nat, n: nat)
    ensures Shr(v, n + 1) == Shr(v, n) / 2
    decreases n
  {
    if n > 0 {
      ShrStep(v / 2, n - 1);
    }
  }

  lemma {:induction false} ShrShr(v: nat, a: nat, b: nat)
    ensures Shr(Shr(v, a), b) == Shr(v, a + b)
    decreases a
  {
    if a > 0 {
      ShrShr(v / 2, a - 1, b);
    }
  }

  lemma {:induction false} ShrSmall(v: nat, n: nat)
    requires v < Pow2(n)
    ensures Shr(v, n) == 0
    decreases n
  {
    if n > 0 {
      ShrSmall(v / 2, n - 1);
    }
  }

  /** A number is its low bits and its high bits. */
  lemma {:induction false} SplitAt(v: nat, n: nat)
    ensures v == Low(v, n) + Shl(Shr(v, n), n)
    ensures Low(v, n) < Pow2(n)
    decreases n
  {
    if n > 0 {
      SplitAt(v / 2, n - 1);
    }
  }

  lemma {:induction false} LowOfLow(v: nat, a: nat, b: nat)
    requires a <= b
    ensures Low(Low(v, b), a) == Low(v, a)
    decreases a
  {
    if a > 0 {
      LowOfLow(v / 2, a - 1, b - 1);
    }
  }

  lemma {:induction false} LowSmall(v: nat, n: nat)
    requires v < Pow2(n)
    ensures Low(v, n) == v
    decreases n
  {
    if n > 0 {
      LowSmall(v / 2, n - 1);
    }
  }

  /** Oring in a number shifted above the occupied bits adds it. */
  lemma {:induction false} OrDisjoint(v: nat, w: nat, n: nat)
    requires v < Pow2(n)
    ensures Or(v, Shl(w, n)) == v + Shl(w, n)
    decreases n
  {
    if n > 0 {
      OrDisjoint(v / 2, w, n - 1);
    }
  }

  // ---------------------------------------------------------------- reversal

  lemma {:induction false} RevBound(v: nat, n: nat)
    ensures Rev(v, n) < Pow2(n)
    decreases n
  {
    if n > 0 {
      RevBound(v / 2, n - 1);
      ShlOne(n - 1);
    }
  }

  lemma {:induction false} RevSplit(v: nat, a: nat, b: nat)
    ensures Rev(v, a + b) == Shl(Rev(v, a), b) + Rev(Shr(v, a), b)
    decreases a
  {
    if a == 0 {
      ShlOne(b);
    } else {
      RevSplit(v / 2, a - 1, b);
      ShlShl(v % 2, a - 1, b);
      ShlAdd(Shl(v % 2, a - 1), Rev(v / 2, a - 1), b);
    }
  }

  lemma {:induction false} RevLow(v: nat, n: nat)
    ensures Rev(Low(v, n), n) == Rev(v, n)
    decreases n
  {
    if n > 0 {
      RevLow(v / 2, n - 1);
    }
  }

  lemma {:induction false} LowShl(v: nat, r: nat, n: nat)
    requires r < Pow2(n)
    ensures Low(Shl(v, n) + r, n) == r
    decreases n
  {
    if n > 0 {
      LowShl(v, r / 2, n - 1);
      assert (Shl(v, n) + r) / 2 == Shl(v, n - 1) + r / 2;
    }
  }

  /** Reversing twice restores an n-bit number. */
  lemma {:induction false} RevRev(v: nat, n: nat)
    requires v < Pow2(n)
    ensures Rev(Rev(v, n), n) == v
    decreases n
  {
    if n > 0 {
      var b, w := v % 2, Rev(v / 2, n - 1);
      RevBound(v / 2, n - 1);
      RevRev(v / 2, n - 1);
      RevSplit(Rev(v, n), n - 1, 1);
      ShrShl(b, w, n - 1);
      LowShl(b, w, n - 1);
      RevLow(Rev(v, n), n - 1);
      assert Rev(b, 1) == Shl(b, 0) + Rev(0, 0);
      assert Shl(v / 2, 1) == 2 * Shl(v / 2, 0);
    }
  }

  /** The parts of a number put together from its lowest bit and the others. */
  lemma Parts(b: nat, w: nat)
    requires b < 2
    ensures (b + 2 * w) % 2 == b && (b + 2 * w) / 2 == w
  {
  }

  lemma {:induction false} LowBit(v: nat, n: nat, i: nat)
    requires i < n
    ensures BitOf(Low(v, n), i) == BitOf(v, i)
    decreases n
  {
    Parts(v % 2, Low(v / 2, n - 1));
    if i > 0 {
      LowBit(v / 2, n - 1, i - 1);
    }
  }

  lemma {:induction false} RevBit(v: nat, n: nat, i: nat)
    requires i < n
    ensures BitOf(Rev(v, n), i) == BitOf(v, n - 1 - i)
    decreases n
  {
    var b, w := v % 2, Rev(v / 2, n - 1);
    RevBound(v / 2, n - 1);
    ShrShl(b, w, n - 1);
    if i < n - 1 {
      RevBit(v / 2, n - 1, i);
      LowShl(b, w, n - 1);
      LowBit(Rev(v, n), n - 1, i);
    }
  }

  /** Numbers below 2^n with the same n bits are equal. */
  lemma {:induction false} BitsDetermine(v: nat, w: nat, n: nat)
    requires v < Pow2(n) && w < Pow2(n)
    requires forall i: nat | i < n :: BitOf(v, i) == BitOf(w, i)
    ensures v == w
    decreases n
  {
    if n > 0 {
      assert BitOf(v, 0) == BitOf(w, 0);
      forall i: nat | i < n - 1 ensures BitOf(v / 2, i) == BitOf(w / 2, i) {
        assert BitOf(v, i + 1) == BitOf(w, i + 1);
      }
      BitsDetermine(v / 2, w / 2, n - 1);
    }
  }

  // ---------------------------------------------------------------- the masked-swap reversal

  /** One round: the bits under `hi` move down k, those under `lo` move up k. */
  function SwapRound(n: nat, hi: nat, lo: nat, k: nat): nat
  {
    Or(Shr(And(n, hi), k), Shl(And(n, lo), k))
  }

  /** `stbi__bitreverse16` */
  function BitReverse16(n: nat): nat
  {
    var n1 := SwapRound(n, 0xAAAA, 0x5555, 1);
    var n2 := SwapRound(n1, 0xCCCC, 0x3333, 2);
    var n3 := SwapRound(n2, 0xF0F0, 0x0F0F, 4);
    SwapRound(n3, 0xFF00, 0x00FF, 8)
  }

  /** `stbi__bit_reverse` */
  function BitReverse(v: nat, bits: nat): nat
    requires bits <= 16
  {
    Shr(BitReverse16(v), 16 - bits)
  }

  lemma {:induction false} AndBit(v: nat, m: nat, i: nat)
    ensures BitOf(And(v, m), i) == if BitOf(v, i) == 1 && BitOf(m, i) == 1 then 1 else 0
    decreases i
  {
    if i > 0 {
      AndBit(v / 2, m / 2, i - 1);
      if v == 0 || m == 0 {
        ZeroBit(i);
      } else {
        assert And(v, m) / 2 == And(v / 2, m / 2);
      }
    }
  }

  lemma {:induction false} OrBit(v: nat, m: nat, i: nat)
    ensures BitOf(Or(v, m), i) == if BitOf(v, i) == 1 || BitOf(m, i) == 1 then 1 else 0
    decreases i
  {
    if i > 0 {
      OrBit(v / 2, m / 2, i - 1);
      if v == 0 || m == 0 {
        ZeroBit(i);
      } else {
        assert Or(v, m) / 2 == Or(v / 2, m / 2);
      }
    }
  }

  lemma {:induction false} ZeroBit(i: nat)
    ensures BitOf(0, i) == 0
  {
    if i > 0 {
      ZeroBit(i - 1);
    }
  }

  lemma {:induction false} ShlBit(v: nat, k: nat, i: nat)
    ensures BitOf(Shl(v, k), i) == if i < k then 0 else BitOf(v, i - k)
    decreases i
  {
    if k > 0 && i > 0 {
      ShlBit(v, k - 1, i - 1);
      assert Shl(v, k) / 2 == Shl(v, k - 1);
    }
  }

  lemma {:induction false} RoundBit(n: nat, hi: nat, lo: nat, k: nat, i: nat)
    ensures BitOf(SwapRound(n, hi, lo, k), i) ==
            if (BitOf(n, i + k) == 1 && BitOf(hi, i + k) == 1) || (i >= k && BitOf(n, i - k) == 1 && BitOf(lo, i - k) == 1)
            then 1 else 0
  {
    OrBit(Shr(And(n, hi), k), Shl(And(n, lo), k), i);
    ShrShr(And(n, hi), k, i);
    AndBit(n, hi, i + k);
    ShlBit(And(n, lo), k, i);
    if i >= k {
      AndBit(n, lo, i - k);
    }
  }

  lemma {:induction false} HighBit(v: nat, n: nat, i: nat)
    requires v < Pow2(n) && n <= i
    ensures BitOf(v, i) == 0
  {
    Pow2Mono(n, i);
    ShrSmall(v, i);
  }

  /** The powers of two that occur as literals. */
  lemma {:induction false} Pow2Values()
    ensures Pow2(0) == 1 && Pow2(8) == 256 && Pow2(9) == 512 && Pow2(15) == 32768 && Pow2(16) == 65536
  {
    assert Pow2(4) == 16;
    assert Pow2(8) == 256;
    assert Pow2(12) == 4096;
  }

  /** Moving one nibble down. */
  lemma {:induction false} NibbleBit(m: nat, j: nat)
    ensures j >= 4 ==> BitOf(m, j) == BitOf(m / 16, j - 4)
    ensures BitOf(m, 0) == m % 2 && BitOf(m, 1) == m / 2 % 2 && BitOf(m, 2) == m / 4 % 2 && BitOf(m, 3) == m / 8 % 2
  {
    ShrStep(m, 0);
    ShrStep(m, 1);
    ShrStep(m, 2);
    ShrStep(m, 3);
    if j >= 4 {
      ShrShr(m, 4, j - 4);
    }
  }

  /** Bit j of a 16-bit mask, found in the right nibble; m1, m2 and m3 are its upper parts. */
  lemma {:induction false} MaskBit(m: nat, m1: nat, m2: nat, m3: nat, j: nat)
    requires j < 16 && m1 == m / 16 && m2 == m1 / 16 && m3 == m2 / 16
    ensures BitOf(m, j) == BitOf(if j < 4 then m else if j < 8 then m1 else if j < 12 then m2 else m3, j % 4)
  {
    NibbleBit(m, j);
    if j >= 4 {
      NibbleBit(m1, j - 4);
    }
    if j >= 8 {
      NibbleBit(m2, j - 8);
    }
  }

  lemma {:induction false} MaskNibbles(m: nat, m1: nat, m2: nat, m3: nat, j: nat)
    requires j < 16 && m1 == m / 16 && m2 == m1 / 16 && m3 == m2 / 16
    ensures var n := if j < 4 then m else if j < 8 then m1 else if j < 12 then m2 else m3;
            var i := j % 4;
            BitOf(m, j) == if i == 0 then n % 2 else if i == 1 then n / 2 % 2 else if i == 2 then n / 4 % 2 else n / 8 % 2
  {
    MaskBit(m, m1, m2, m3, j);
    NibbleBit(if j < 4 then m else if j < 8 then m1 else if j < 12 then m2 else m3, 0);
  }

  /** The binary digit of weight k of a position below 16. */
  function Digit(j: nat, k: nat): (d: nat)
    ensures d < 2
  {
    if k == 1 then j % 2 else if k == 2 then j / 2 % 2 else if k == 4 then j / 4 % 2 else j / 8 % 2
  }

  /** hi holds the positions below 16 whose digit of weight k is 1, and lo the others. */
  ghost predicate Masks(hi: nat, lo: nat, k: nat)
  {
    hi < 65536 && lo < 65536 &&
    forall j: nat | j < 16 :: BitOf(hi, j) == Digit(j, k) && BitOf(lo, j) == 1 - Digit(j, k)
  }

  lemma {:induction false} Masks1()
    ensures Masks(0xAAAA, 0x5555, 1)
  {
    hide BitOf;
    forall j: nat | j < 16 ensures BitOf(0xAAAA, j) == Digit(j, 1) && BitOf(0x5555, j) == 1 - Digit(j, 1) {
      MaskNibbles(0xAAAA, 0xAAA, 0xAA, 0xA, j);
      MaskNibbles(0x5555, 0x555, 0x55, 0x5, j);
    }
  }

  lemma {:induction false} Masks2()
    ensures Masks(0xCCCC, 0x3333, 2)
  {
    hide BitOf;
    forall j: nat | j < 16 ensures BitOf(0xCCCC, j) == Digit(j, 2) && BitOf(0x3333, j) == 1 - Digit(j, 2) {
      MaskNibbles(0xCCCC, 0xCCC, 0xCC, 0xC, j);
      MaskNibbles(0x3333, 0x333, 0x33, 0x3, j);
    }
  }

  lemma {:induction false} Masks4()
    ensures Masks(0xF0F0, 0x0F0F, 4)
  {
    hide BitOf;
    forall j: nat | j < 16 ensures BitOf(0xF0F0, j) == Digit(j, 4) && BitOf(0x0F0F, j) == 1 - Digit(j, 4) {
      MaskNibbles(0xF0F0, 0xF0F, 0xF0, 0xF, j);
      MaskNibbles(0x0F0F, 0x0F0, 0x0F, 0, j);
    }
  }

  lemma {:induction false} Masks8()
    ensures Masks(0xFF00, 0x00FF, 8)
  {
    hide BitOf;
    forall j: nat | j < 16 ensures BitOf(0xFF00, j) == Digit(j, 8) && BitOf(0x00FF, j) == 1 - Digit(j, 8) {
      MaskNibbles(0xFF00, 0xFF0, 0xFF, 0xF, j);
      MaskNibbles(0x00FF, 0x00F, 0, 0, j);
    }
  }

  /** The position that differs from i in the digit of weight k. */
  function Flip(i: nat, k: nat): (f: nat)
    requires i < 16 && k in {1, 2, 4, 8}
    ensures f < 16
  {
    if Digit(i, k) == 1 then i - k else i + k
  }

  lemma {:induction false} DigitFlips(i: nat, k: nat)
    requires k in {1, 2, 4, 8} && i < 16
    ensures i + k < 16 ==> Digit(i + k, k) == 1 - Digit(i, k)
    ensures i >= k ==> Digit(i - k, k) == 1 - Digit(i, k)
    ensures i < k ==> Digit(i, k) == 0
    ensures i + k >= 16 ==> Digit(i, k) == 1
  {
    if k == 8 {
    } else if k == 4 {
      assert i / 4 < 4 && (i + 4) / 4 == i / 4 + 1;
    } else if k == 2 {
      assert i / 2 < 8 && (i + 2) / 2 == i / 2 + 1;
    }
  }

  /** A round exchanges each bit with the one at the flipped position. */
  lemma {:induction false} RoundSwaps(n: nat, hi: nat, lo: nat, k: nat, i: nat)
    requires k in {1, 2, 4, 8} && i < 16 && Masks(hi, lo, k)
    ensures BitOf(SwapRound(n, hi, lo, k), i) == BitOf(n, Flip(i, k))
  {
    RoundBit(n, hi, lo, k, i);
    DigitFlips(i, k);
    if i + k >= 16 {
      Pow2Values();
      HighBit(hi, 16, i + k);
    }
  }

  lemma {:induction false} AndBound(v: nat, m: nat, n: nat)
    requires m < Pow2(n)
    ensures And(v, m) < Pow2(n)
    decreases n
  {
    if v != 0 && m != 0 {
      AndBound(v / 2, m / 2, n - 1);
    }
  }

  lemma {:induction false} OrBound(v: nat, m: nat, n: nat)
    requires v < Pow2(n) && m < Pow2(n)
    ensures Or(v, m) < Pow2(n)
    decreases n
  {
    if v != 0 && m != 0 {
      OrBound(v / 2, m / 2, n - 1);
    }
  }

  lemma {:induction false} ByteShifted(x: nat)
    requires x < 256
    ensures Shl(x, 8) < 65536
  {
    Pow2Values();
    ShlOrder(x, 256, 8);
    ShlOne(8);
    ShlShl(1, 8, 8);
    ShlOne(16);
  }

  lemma {:induction false} LastRoundBound(n: nat)
    ensures SwapRound(n, 0xFF00, 0x00FF, 8) < Pow2(16)
  {
    Pow2Values();
    AndBound(n, 0xFF00, 16);
    SplitAt(And(n, 0xFF00), 8);
    ShlOrder(0, Shr(And(n, 0xFF00), 8), 8);
    ShlGrows(Shr(And(n, 0xFF00), 8), 8);
    AndBound(n, 0x00FF, 8);
    ByteShifted(And(n, 0x00FF));
    OrBound(Shr(And(n, 0xFF00), 8), Shl(And(n, 0x00FF), 8), 16);
  }

  lemma {:induction false} ShlGrows(v: nat, n: nat)
    ensures v <= Shl(v, n)
  {
    if n > 0 {
      ShlGrows(v, n - 1);
    }
  }

  lemma {:induction false} FlipAll(i: nat)
    requires i < 16
    ensures Flip(Flip(Flip(Flip(i, 8), 4), 2), 1) == 15 - i
  {
  }

  /** Four masked swaps reverse the low 16 bits. */
  lemma {:induction false} BitReverse16IsRev(v: nat)
    ensures BitReverse16(v) == Rev(v, 16)
  {
    var n1 := SwapRound(v, 0xAAAA, 0x5555, 1);
    var n2 := SwapRound(n1, 0xCCCC, 0x3333, 2);
    var n3 := SwapRound(n2, 0xF0F0, 0x0F0F, 4);
    Masks1();
    Masks2();
    Masks4();
    Masks8();
    forall i: nat | i < 16 ensures BitOf(BitReverse16(v), i) == BitOf(Rev(v, 16), i) {
      RoundSwaps(n3, 0xFF00, 0x00FF, 8, i);
      RoundSwaps(n2, 0xF0F0, 0x0F0F, 4, Flip(i, 8));
      RoundSwaps(n1, 0xCCCC, 0x3333, 2, Flip(Flip(i, 8), 4));
      RoundSwaps(v, 0xAAAA, 0x5555, 1, Flip(Flip(Flip(i, 8), 4), 2));
      FlipAll(i);
      RevBit(v, 16, i);
    }
    LastRoundBound(n3);
    RevBound(v, 16);
    BitsDetermine(BitReverse16(v), Rev(v, 16), 16);
  }

  /** Reversing 16 bits and shifting reverses the low `bits` bits of a number that has no others. */
  lemma {:induction false} BitReverseIsRev(v: nat, bits: nat)
    requires bits <= 16 && v < Pow2(bits)
    ensures BitReverse(v, bits) == Rev(v, bits)
  {
    BitReverse16IsRev(v);
    RevSplit(v, bits, 16 - bits);
    RevBound(Shr(v, bits), 16 - bits);
    ShrShl(Rev(v, bits), Rev(Shr(v, bits), 16 - bits), 16 - bits);
  }

  // ---------------------------------------------------------------- the bit stream

  /** Bit p of the zero-padded stream. */
  function StreamBit(data: seq<Byte>, p: nat): (b: nat)
    ensures b < 2
  {
    if p / 8 < |data| then BitOf(data[p / 8], p % 8) else 0
  }

  /** The number whose bit i is stream bit p + i, for i < n. */
  function Take(data: seq<Byte>, p: nat, n: nat): nat
    decreases n, p, data
  {
    if n == 0 then 0 else StreamBit(data, p) + 2 * Take(data, p + 1, n - 1)
  }

  /** The same n bits with the first one most significant. */
  function Msb(data: seq<Byte>, p: nat, n: nat): nat
  {
    if n == 0 then 0 else 2 * Msb(data, p, n - 1) + StreamBit(data, p + n - 1)
  }

  lemma {:induction false} TakeBound(data: seq<Byte>, p: nat, n: nat)
    ensures Take(data, p, n) < Pow2(n)
    decreases n
  {
    if n > 0 {
      TakeBound(data, p + 1, n - 1);
    }
  }

  lemma {:induction false} MsbBound(data: seq<Byte>, p: nat, n: nat)
    ensures Msb(data, p, n) < Pow2(n)
  {
    if n > 0 {
      MsbBound(data, p, n - 1);
    }
  }

  /** The low bits of a buffered stretch are its beginning, shifting them out leaves the rest. */
  lemma {:induction false} TakeLowShr(data: seq<Byte>, p: nat, a: nat, n: nat)
    requires a <= n
    ensures Low(Take(data, p, n), a) == Take(data, p, a)
    ensures Shr(Take(data, p, n), a) == Take(data, p + a, n - a)
    decreases a
  {
    if a > 0 {
      hide StreamBit;
      Parts(StreamBit(data, p), Take(data, p + 1, n - 1));
      TakeLowShr(data, p + 1, a - 1, n - 1);
    }
  }

  lemma {:induction false} TakeAppend(data: seq<Byte>, p: nat, a: nat, b: nat)
    ensures Take(data, p, a + b) == Take(data, p, a) + Shl(Take(data, p + a, b), a)
    decreases a
  {
    if a > 0 {
      TakeAppend(data, p + 1, a - 1, b);
    }
  }

  lemma {:induction false} TakePadding(data: seq<Byte>, p: nat, n: nat)
    requires p >= 8 * |data|
    ensures Take(data, p, n) == 0
    decreases n
  {
    if n > 0 {
      TakePadding(data, p + 1, n - 1);
    }
  }

  lemma {:induction false} TakeByteTail(data: seq<Byte>, i: nat, k: nat)
    requires i < |data| && k <= 8
    ensures Take(data, 8 * i + k, 8 - k) == Shr(data[i], k)
    decreases 8 - k
  {
    if k == 8 {
      Pow2Values();
      ShrSmall(data[i], 8);
    } else {
      TakeByteTail(data, i, k + 1);
      ShrStep(data[i], k);
    }
  }

  /** Eight stream bits at a byte boundary are that byte, or zero past the end. */
  lemma {:induction false} TakeByte(data: seq<Byte>, i: nat)
    ensures Take(data, 8 * i, 8) == if i < |data| then data[i] else 0
  {
    if i < |data| {
      TakeByteTail(data, i, 0);
    } else {
      TakePadding(data, 8 * i, 8);
    }
  }

  lemma {:induction false} MsbSplit(data: seq<Byte>, p: nat, a: nat, b: nat)
    ensures Msb(data, p, a + b) == Shl(Msb(data, p, a), b) + Msb(data, p + a, b)
    decreases b
  {
    if b > 0 {
      MsbSplit(data, p, a, b - 1);
    }
  }

  /** The first s of n bits, most significant first, are the top bits. */
  lemma {:induction false} MsbPrefix(data: seq<Byte>, p: nat, s: nat, n: nat)
    requires s <= n
    ensures Shr(Msb(data, p, n), n - s) == Msb(data, p, s)
  {
    MsbSplit(data, p, s, n - s);
    MsbBound(data, p + s, n - s);
    ShrShl(Msb(data, p, s), Msb(data, p + s, n - s), n - s);
  }

  lemma {:induction false} RevTake(data: seq<Byte>, p: nat, n: nat)
    ensures Rev(Take(data, p, n), n) == Msb(data, p, n)
    decreases n
  {
    if n > 0 {
      RevTake(data, p + 1, n - 1);
      MsbSplit(data, p, 1, n - 1);
      assert Msb(data, p, 1) == 2 * Msb(data, p, 0) + StreamBit(data, p);
    }
  }
}
