/** The decoding tables of `stbi__zhuffman` and their construction in `stbi__zbuild_huffman`. */
module Huffman {
  import opened Bits
  import opened Canonical

  const ZFAST_BITS := 9
  const ZNSYMS := 288

  datatype ZHuffman = ZHuffman(
    fast: seq<nat>, firstcode: seq<nat>, maxcode: seq<nat>, firstsymbol: seq<nat>, size: seq<nat>, value: seq<nat>)

  datatype BuildResult = Built(z: ZHuffman) | BadSizes

  // ---------------------------------------------------------------- symbol slots

  /** The slot of the first symbol of length l, symbols being sorted by length and then by index. */
  function FirstSymbol(lens: seq<nat>, l: nat): nat
    requires l >= 1
    decreases l, lens
  {
    if l == 1 then 0 else FirstSymbol(lens, l - 1) + Count(lens, l - 1)
  }

  function Slot(lens: seq<nat>, i: nat): nat
    requires i < |lens| && lens[i] > 0
  {
    FirstSymbol(lens, lens[i]) + CountTo(lens, i, lens[i])
  }

  /** Present symbols among the first n that are shorter than l. */
  function ShorterTo(lens: seq<nat>, n: nat, l: nat): (c: nat)
    requires n <= |lens|
    ensures c <= n
  {
    if n == 0 then 0 else ShorterTo(lens, n - 1, l) + if 1 <= lens[n - 1] < l then 1 else 0
  }

  lemma {:induction false} ShorterStep(lens: seq<nat>, n: nat, l: nat)
    requires n <= |lens| && l >= 1
    ensures ShorterTo(lens, n, l + 1) == ShorterTo(lens, n, l) + CountTo(lens, n, l)
    ensures ShorterTo(lens, n, 1) == 0
  {
    if n > 0 {
      ShorterStep(lens, n - 1, l);
    }
  }

  lemma {:induction false} FirstSymbolCounts(lens: seq<nat>, l: nat)
    requires l >= 1
    ensures FirstSymbol(lens, l) == ShorterTo(lens, |lens|, l)
    decreases l
  {
    ShorterStep(lens, |lens|, l);
    if l > 1 {
      FirstSymbolCounts(lens, l - 1);
      ShorterStep(lens, |lens|, l - 1);
    }
  }

  lemma {:induction false} SlotBound(lens: seq<nat>, i: nat)
    requires i < |lens| && lens[i] > 0
    ensures Slot(lens, i) < |lens|
  {
    FirstSymbolCounts(lens, lens[i] + 1);
    CountMono(lens, i, |lens|, lens[i]);
  }

  lemma {:induction false} FirstSymbolMono(lens: seq<nat>, l: nat, m: nat)
    requires 1 <= l <= m
    ensures FirstSymbol(lens, l) <= FirstSymbol(lens, m)
    decreases m
  {
    if l < m {
      FirstSymbolMono(lens, l, m - 1);
    }
  }

  lemma {:induction false} SlotInjective(lens: seq<nat>, i: nat, j: nat)
    requires i < j < |lens| && lens[i] > 0 && lens[j] > 0
    ensures Slot(lens, i) != Slot(lens, j)
  {
    if lens[i] == lens[j] {
      CountMono(lens, i, j, lens[i]);
    } else {
      CountMono(lens, i, |lens|, lens[i]);
      CountMono(lens, j, |lens|, lens[j]);
      if lens[i] < lens[j] {
        FirstSymbolMono(lens, lens[i] + 1, lens[j]);
      } else {
        FirstSymbolMono(lens, lens[j] + 1, lens[i]);
      }
    }
  }

  // ---------------------------------------------------------------- what the tables must hold

  /** `(s << 9) | i` */
  function FastEntry(s: nat, i: nat): nat
  {
    Or(Shl(s, ZFAST_BITS), i)
  }

  lemma {:induction false} OrComm(v: nat, w: nat)
    ensures Or(v, w) == Or(w, v)
    decreases v + w
  {
    if v != 0 && w != 0 {
      OrComm(v / 2, w / 2);
    }
  }

  /** A nonzero length keeps an entry nonzero, and both parts can be read back. */
  lemma {:induction false} FastEntryParts(s: nat, i: nat)
    requires s >= 1 && i < 512
    ensures FastEntry(s, i) != 0
    ensures Shr(FastEntry(s, i), ZFAST_BITS) == s && Low(FastEntry(s, i), ZFAST_BITS) == i
  {
    Pow2Values();
    OrComm(Shl(s, 9), i);
    OrDisjoint(i, s, 9);
    ShrShl(s, i, 9);
    LowShl(s, i, 9);
    ShlGrows(s, 9);
  }

  /** Symbol i has a short code and index j of the fast table begins with it. */
  ghost predicate FastMatch(lens: seq<nat>, i: nat, j: nat)
  {
    i < |lens| && 1 <= lens[i] <= ZFAST_BITS && Low(j, lens[i]) == Rev(Code(lens, i), lens[i])
  }

  ghost predicate LengthTables(lens: seq<nat>, firstcode: seq<nat>, maxcode: seq<nat>, firstsymbol: seq<nat>, n: nat)
    requires n <= 16
  {
    |firstcode| == 16 && |maxcode| == 17 && |firstsymbol| == 16 &&
    (forall l: nat {:trigger firstcode[l]} | 1 <= l < n :: firstcode[l] == FirstCode(lens, l)) &&
    (forall l: nat {:trigger firstsymbol[l]} | 1 <= l < n :: firstsymbol[l] == FirstSymbol(lens, l)) &&
    (forall l: nat {:trigger maxcode[l]} | 1 <= l < n :: maxcode[l] == Shl(EndCode(lens, l), 16 - l))
  }

  ghost predicate SlotTables(lens: seq<nat>, size: seq<nat>, value: seq<nat>, n: nat)
    requires n <= |lens|
  {
    |size| == |value| == ZNSYMS &&
    forall i: nat | i < n && lens[i] > 0 ::
      Slot(lens, i) < ZNSYMS && size[Slot(lens, i)] == lens[i] && value[Slot(lens, i)] == i
  }

  /** Every entry names the one short-coded symbol among the first n that it begins with, or is 0. */
  ghost predicate FastTable(lens: seq<nat>, fast: seq<nat>, n: nat)
    requires n <= |lens|
  {
    |fast| == 512 &&
    (forall i: nat, j: nat | i < n && j < 512 && FastMatch(lens, i, j) :: fast[j] == FastEntry(lens[i], i)) &&
    (forall j: nat | j < 512 && fast[j] != 0 :: exists i: nat :: i < n && FastMatch(lens, i, j))
  }

  ghost predicate Tables(lens: seq<nat>, z: ZHuffman)
  {
    ValidLengths(lens) && Kraft(lens) &&
    LengthTables(lens, z.firstcode, z.maxcode, z.firstsymbol, 16) && z.maxcode[16] == 65536 &&
    SlotTables(lens, z.size, z.value, |lens|) && FastTable(lens, z.fast, |lens|)
  }

  // ---------------------------------------------------------------- construction

  /** Lines that count the lengths; `sizes[0]` is cleared afterwards. */
  method CountSizes(lens: seq<nat>) returns (sizes: array<nat>)
    requires ValidLengths(lens)
    ensures fresh(sizes) && sizes.Length == 17
    ensures forall l: nat {:trigger sizes[l]} | 1 <= l < 16 :: sizes[l] == Count(lens, l)
  {
    sizes := new nat[17](_ => 0);
    for i := 0 to |lens|
      invariant forall l: nat | l < 16 :: sizes[l] == CountTo(lens, i, l)
    {
      sizes[lens[i]] := sizes[lens[i]] + 1;
    }
    sizes[0] := 0;
  }

  /** The first rejecting loop; what it rejects breaks the Kraft inequality. */
  method SizesFit(lens: seq<nat>, sizes: array<nat>) returns (ok: bool)
    requires ValidLengths(lens) && sizes.Length == 17
    requires forall l: nat {:trigger sizes[l]} | 1 <= l < 16 :: sizes[l] == Count(lens, l)
    ensures ok <==> forall l: nat | 1 <= l < 16 :: Count(lens, l) <= Pow2(l)
    ensures Kraft(lens) ==> ok
  {
    hide Kraft, ValidLengths, Count, Pow2, Shl;
    for i := 1 to 16
      invariant forall l: nat | 1 <= l < i :: Count(lens, l) <= Pow2(l)
    {
      ShlOne(i);
      if sizes[i] > Shl(1, i) {
        KraftIffFits(lens, i);
        return false;
      }
    }
    return true;
  }

  /** `(stbi__uint16) v` */
  function Cast16(v: nat): nat
  {
    v % 65536
  }

  /** A length with codes to give passes the test on line 4144 exactly when they fit; one without
      inherits the answer from the length before. */
  lemma {:induction false} LengthTest(lens: seq<nat>, i: nat)
    requires ValidLengths(lens) && 1 <= i <= 15
    requires i > 1 ==> EndCode(lens, i - 1) <= Pow2(i - 1)
    ensures Shl(1, i) == Pow2(i)
    ensures Cast16(FirstCode(lens, i)) == FirstCode(lens, i) && Cast16(FirstSymbol(lens, i)) == FirstSymbol(lens, i)
    ensures Count(lens, i) != 0 && EndCode(lens, i) - 1 >= Pow2(i) ==> !Kraft(lens)
    ensures Count(lens, i) == 0 || EndCode(lens, i) - 1 < Pow2(i) ==> EndCode(lens, i) <= Pow2(i)
  {
    ShlOne(i);
    KraftIffFits(lens, i);
    Pow2Mono(i, 15);
    Pow2Values();
    FirstSymbolCounts(lens, i);
  }

  /** The loop that assigns codes: the lengths are accepted exactly when they satisfy the Kraft inequality.
      The 16-bit casts of the source are written out; they never lose anything. */
  method AssignCodes(lens: seq<nat>, sizes: array<nat>, nextCode: array<nat>)
    returns (ok: bool, firstcode: array<nat>, maxcode: array<nat>, firstsymbol: array<nat>)
    requires ValidLengths(lens) && sizes.Length == 17 && nextCode.Length == 16 && nextCode != sizes
    requires forall l: nat {:trigger sizes[l]} | 1 <= l < 16 :: sizes[l] == Count(lens, l)
    modifies nextCode
    ensures ok <==> Kraft(lens)
    ensures firstcode.Length == 16 && maxcode.Length == 17 && firstsymbol.Length == 16
    ensures ok ==> maxcode[16] == 65536
    ensures fresh(firstcode) && fresh(maxcode) && fresh(firstsymbol)
    ensures ok ==> forall l: nat {:trigger nextCode[l]} | 1 <= l < 16 :: nextCode[l] == FirstCode(lens, l)
    ensures ok ==> forall l: nat {:trigger firstcode[l]} | 1 <= l < 16 :: firstcode[l] == FirstCode(lens, l)
    ensures ok ==> forall l: nat {:trigger firstsymbol[l]} | 1 <= l < 16 :: firstsymbol[l] == FirstSymbol(lens, l)
    ensures ok ==> forall l: nat {:trigger maxcode[l]} | 1 <= l < 16 :: maxcode[l] == Shl(EndCode(lens, l), 16 - l)
  {
    hide ValidLengths, Kraft, Count, Pow2, Shl, Cast16;
    firstcode, maxcode, firstsymbol := new nat[16], new nat[17], new nat[16];
    var code, k := 0, 0;
    for i := 1 to 16
      invariant code == FirstCode(lens, i) && k == FirstSymbol(lens, i)
      invariant i > 1 ==> EndCode(lens, i - 1) <= Pow2(i - 1)
      invariant forall l: nat {:trigger sizes[l]} | 1 <= l < 16 :: sizes[l] == Count(lens, l)
      invariant forall l: nat {:trigger nextCode[l]} | 1 <= l < i :: nextCode[l] == FirstCode(lens, l)
      invariant forall l: nat {:trigger firstcode[l]} | 1 <= l < i :: firstcode[l] == FirstCode(lens, l)
      invariant forall l: nat {:trigger firstsymbol[l]} | 1 <= l < i :: firstsymbol[l] == FirstSymbol(lens, l)
      invariant forall l: nat {:trigger maxcode[l]} | 1 <= l < i :: maxcode[l] == Shl(EndCode(lens, l), 16 - l)
    {
      LengthTest(lens, i);
      nextCode[i], firstcode[i], firstsymbol[i] := code, Cast16(code), Cast16(k);
      code := code + sizes[i];
      if sizes[i] != 0 && code - 1 >= Shl(1, i) {
        return false, firstcode, maxcode, firstsymbol;
      }
      maxcode[i] := Shl(code, 16 - i);
      code := 2 * code;
      k := k + sizes[i];
    }
    KraftIffFits(lens, 15);
    maxcode[16] := 0x10000;
    ok := true;
  }

  // ---------------------------------------------------------------- filling the tables

  /** Stepping by 2^s from the reversed code meets every index with those low bits and no other. */
  lemma {:induction false} StrideMeets(j: nat, r: nat, m: nat, s: nat)
    requires r < Pow2(s)
    ensures Low(r + Shl(m, s), s) == r
    ensures r + Shl(m, s) < j < r + Shl(m + 1, s) ==> Low(j, s) != r
    ensures j < r ==> Low(j, s) != r
    ensures Shl(m + 1, s) == Shl(m, s) + Shl(1, s)
    ensures Shl(1, s) >= 1
  {
    LowShl(m, r, s);
    SplitAt(j, s);
    ShlAdd(m, 1, s);
    ShlOne(s);
    ShlOrder(m, Shr(j, s), s);
    ShlOrder(Shr(j, s), m, s);
    ShlOrder(m + 1, Shr(j, s), s);
    ShlOrder(Shr(j, s), m + 1, s);
  }

  lemma {:induction false} StrideGap(r: nat, m: nat, s: nat)
    requires r < Pow2(s)
    ensures Low(r + Shl(m, s), s) == r
    ensures forall j: nat | r + Shl(m, s) < j < r + Shl(m + 1, s) :: Low(j, s) != r
    ensures forall j: nat | j < r :: Low(j, s) != r
    ensures Shl(m + 1, s) == Shl(m, s) + Shl(1, s) && Shl(1, s) >= 1 && Shl(0, s) == 0
  {
    ShlOne(s);
    StrideMeets(0, r, m, s);
    forall j: nat
      ensures r + Shl(m, s) < j < r + Shl(m + 1, s) ==> Low(j, s) != r
      ensures j < r ==> Low(j, s) != r
    {
      StrideMeets(j, r, m, s);
    }
  }

  /** The inner loop that stores one short code: it writes `fastv` at exactly the indices that begin with it. */
  method FillFast(fast: array<nat>, start: nat, s: nat, fastv: nat)
    requires fast.Length == 512 && start < Pow2(s)
    modifies fast
    ensures forall j: nat | j < 512 :: fast[j] == if Low(j, s) == start then fastv else old(fast[j])
  {
    var j := start;
    ghost var m := 0;
    StrideGap(start, 0, s);
    while j < 512
      invariant j == start + Shl(m, s)
      invariant forall i: nat | i < j && i < 512 :: fast[i] == if Low(i, s) == start then fastv else old(fast[i])
      invariant forall i: nat | j <= i < 512 :: fast[i] == old(fast[i])
      decreases 512 - j
    {
      fast[j] := fastv;
      StrideGap(start, m, s);
      j := j + Shl(1, s);
      m := m + 1;
    }
  }

  /** In terms of most-significant-first words, a fast match is a code prefix. */
  lemma {:induction false} FastMatchIsPrefix(lens: seq<nat>, i: nat, j: nat)
    requires ValidLengths(lens) && Kraft(lens) && FastMatch(lens, i, j)
    ensures Shr(Rev(j, 9), 9 - lens[i]) == Code(lens, i)
  {
    var l := lens[i];
    CodeFits(lens, i);
    RevSplit(j, l, 9 - l);
    RevBound(Shr(j, l), 9 - l);
    ShrShl(Rev(j, l), Rev(Shr(j, l), 9 - l), 9 - l);
    RevLow(j, l);
    RevRev(Code(lens, i), l);
  }

  /** Under the Kraft inequality a code fits in its length. */
  lemma {:induction false} CodeFits(lens: seq<nat>, i: nat)
    requires ValidLengths(lens) && Kraft(lens) && i < |lens| && lens[i] > 0
    ensures Code(lens, i) < Pow2(lens[i])
  {
    CodeRange(lens, i);
    KraftIffFits(lens, lens[i]);
  }

  lemma {:induction false} FastMatchUnique(lens: seq<nat>, i: nat, i': nat, j: nat)
    requires ValidLengths(lens) && Kraft(lens) && FastMatch(lens, i, j) && FastMatch(lens, i', j)
    ensures i == i'
  {
    FastMatchIsPrefix(lens, i, j);
    FastMatchIsPrefix(lens, i', j);
    if lens[i] <= lens[i'] {
      PrefixFree(lens, i, i', Rev(j, 9), 9);
    } else {
      PrefixFree(lens, i', i, Rev(j, 9), 9);
    }
  }

  /** Storing symbol i's short code takes the fast table from the first i symbols to the first i + 1. */
  lemma {:induction false} FastTableStep(lens: seq<nat>, i: nat, before: seq<nat>, after: seq<nat>)
    requires ValidLengths(lens) && Kraft(lens) && i < |lens| && 1 <= lens[i] <= ZFAST_BITS
    requires FastTable(lens, before, i) && |after| == 512
    requires forall j: nat | j < 512 ::
               after[j] == if Low(j, lens[i]) == Rev(Code(lens, i), lens[i]) then FastEntry(lens[i], i) else before[j]
    ensures FastTable(lens, after, i + 1)
  {
    forall i': nat, j: nat | i' < i + 1 && j < 512 && FastMatch(lens, i', j) ensures after[j] == FastEntry(lens[i'], i') {
      if FastMatch(lens, i, j) {
        FastMatchUnique(lens, i, i', j);
      }
    }
    forall j: nat | j < 512 && after[j] != 0 ensures exists i': nat :: i' < i + 1 && FastMatch(lens, i', j) {
      if Low(j, lens[i]) == Rev(Code(lens, i), lens[i]) {
        assert FastMatch(lens, i, j);
      }
    }
  }

  /** A symbol without a short code leaves the fast table alone. */
  lemma {:induction false} FastTableSkip(lens: seq<nat>, i: nat, fast: seq<nat>)
    requires i < |lens| && !(1 <= lens[i] <= ZFAST_BITS) && FastTable(lens, fast, i)
    ensures FastTable(lens, fast, i + 1)
  {
    forall j: nat | j < 512 && fast[j] != 0 ensures exists i': nat :: i' < i + 1 && FastMatch(lens, i', j) {
      var i': nat :| i' < i && FastMatch(lens, i', j);
    }
  }

  /** Storing symbol i in its slot disturbs no earlier symbol. */
  lemma {:induction false} SlotTablesStep(lens: seq<nat>, i: nat, size: seq<nat>, value: seq<nat>)
    requires ValidLengths(lens) && i < |lens| && lens[i] > 0 && SlotTables(lens, size, value, i)
    ensures Slot(lens, i) < ZNSYMS
    ensures SlotTables(lens, size[Slot(lens, i) := lens[i]], value[Slot(lens, i) := i], i + 1)
  {
    SlotBound(lens, i);
    forall i': nat | i' < i && lens[i'] > 0 ensures Slot(lens, i') != Slot(lens, i) {
      SlotInjective(lens, i', i);
    }
  }

  /** `stbi__zbuild_huffman` */
  method BuildHuffman(lens: seq<nat>) returns (r: BuildResult)
    requires ValidLengths(lens)
    ensures r.Built? <==> Kraft(lens)
    ensures r.Built? ==> Tables(lens, r.z)
  {
    hide Kraft, ValidLengths, Count, Pow2, Shl, SlotTables, FastTable;
    var sizes := CountSizes(lens);
    var sane := SizesFit(lens, sizes);
    if !sane {
      return BadSizes;
    }
    var nextCode := new nat[16];
    var ok, firstcode, maxcode, firstsymbol := AssignCodes(lens, sizes, nextCode);
    if !ok {
      return BadSizes;
    }
    var fast := new nat[512](_ => 0);
    var size, value := new nat[ZNSYMS], new nat[ZNSYMS];
    FillTables(lens, nextCode, firstcode, firstsymbol, fast, size, value);
    r := Built(ZHuffman(fast[..], firstcode[..], maxcode[..], firstsymbol[..], size[..], value[..]));
  }

  /** The part of the last loop that enters symbol i into the fast table. */
  method StoreFast(lens: seq<nat>, i: nat, code: nat, fast: array<nat>)
    requires ValidLengths(lens) && Kraft(lens) && i < |lens| && lens[i] > 0 && code == Code(lens, i)
    requires FastTable(lens, fast[..], i)
    modifies fast
    ensures FastTable(lens, fast[..], i + 1)
  {
    var s := lens[i];
    var fastv := FastEntry(s, i);
    if s <= ZFAST_BITS {
      ghost var before := fast[..];
      CodeFits(lens, i);
      BitReverseIsRev(code, s);
      RevBound(code, s);
      var j := BitReverse(code, s);
      FillFast(fast, j, s, fastv);
      FastTableStep(lens, i, before, fast[..]);
    } else {
      FastTableSkip(lens, i, fast[..]);
    }
  }

  /** The last loop of `stbi__zbuild_huffman`. */
  method FillTables(lens: seq<nat>, nextCode: array<nat>, firstcode: array<nat>, firstsymbol: array<nat>,
                    fast: array<nat>, size: array<nat>, value: array<nat>)
    requires ValidLengths(lens) && Kraft(lens)
    requires nextCode.Length == firstcode.Length == firstsymbol.Length == 16
    requires fast.Length == 512 && size.Length == value.Length == ZNSYMS
    requires {nextCode, fast, size, value} !! {firstcode, firstsymbol}
    requires nextCode != fast && nextCode != size && nextCode != value && fast != size && fast != value && size != value
    requires forall l: nat {:trigger nextCode[l]} | 1 <= l < 16 :: nextCode[l] == FirstCode(lens, l)
    requires forall l: nat {:trigger firstcode[l]} | 1 <= l < 16 :: firstcode[l] == FirstCode(lens, l)
    requires forall l: nat {:trigger firstsymbol[l]} | 1 <= l < 16 :: firstsymbol[l] == FirstSymbol(lens, l)
    requires forall j | 0 <= j < 512 :: fast[j] == 0
    modifies nextCode, fast, size, value
    ensures SlotTables(lens, size[..], value[..], |lens|) && FastTable(lens, fast[..], |lens|)
  {
    hide Kraft, FirstCode, FirstSymbol;
    for i := 0 to |lens|
      invariant forall l: nat {:trigger nextCode[l]} | 1 <= l < 16 :: nextCode[l] == FirstCode(lens, l) + CountTo(lens, i, l)
      invariant SlotTables(lens, size[..], value[..], i)
      invariant FastTable(lens, fast[..], i)
    {
      var s := lens[i];
      if s != 0 {
        var c := nextCode[s] - firstcode[s] + firstsymbol[s];
        SlotTablesStep(lens, i, size[..], value[..]);
        size[c] := s;
        value[c] := i;
        StoreFast(lens, i, nextCode[s], fast);
        nextCode[s] := nextCode[s] + 1;
      } else {
        FastTableSkip(lens, i, fast[..]);
      }
    }
  }
}
