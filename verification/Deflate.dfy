/** The DEFLATE format as sections 3.2.3 to 3.2.7 of RFC 1951 describe it: what a stretch of the bit
    stream means, with no tables, buffers or growth.  Reading is a relation between a position and
    output before and after, so that it says nothing about streams that never end. */
module Deflate {
  import opened Wrappers
  import opened Bits
  import opened Canonical

  // ---------------------------------------------------------------- lengths and distances

  /** Length symbol 257 + i stands for lengths from here on. */
  function LengthBase(i: nat): (b: nat)
    requires i < 29
    ensures b >= 3
  {
    [3, 4, 5, 6, 7, 8, 9, 10, 11, 13, 15, 17, 19, 23, 27, 31, 35, 43, 51, 59, 67, 83, 99, 115, 131, 163, 195, 227, 258][i]
  }

  function LengthExtra(i: nat): (b: nat)
    requires i < 29
    ensures b <= 5
  {
    [0, 0, 0, 0, 0, 0, 0, 0, 1, 1, 1, 1, 2, 2, 2, 2, 3, 3, 3, 3, 4, 4, 4, 4, 5, 5, 5, 5, 0][i]
  }

  /** Distance symbol i stands for distances from here on. */
  function DistBase(i: nat): (b: nat)
    requires i < 30
    ensures b >= 1
  {
    [1, 2, 3, 4, 5, 7, 9, 13, 17, 25, 33, 49, 65, 97, 129, 193, 257, 385, 513, 769, 1025, 1537, 2049, 3073,
     4097, 6145, 8193, 12289, 16385, 24577][i]
  }

  function DistExtra(i: nat): (b: nat)
    requires i < 30
    ensures b <= 13
  {
    [0, 0, 0, 0, 1, 1, 2, 2, 3, 3, 4, 4, 5, 5, 6, 6, 7, 7, 8, 8, 9, 9, 10, 10, 11, 11, 12, 12, 13, 13][i]
  }

  /** The rule behind the length table of section 3.2.5: from eight symbols without extra bits on, four symbols for
      each number of extra bits, one range after the other, and a last symbol of its own for the length 258. */
  lemma LengthTable(i: nat)
    requires i < 29
    ensures LengthExtra(i) == if i < 8 || i == 28 then 0 else (i - 4) / 4
    ensures i == 0 ==> LengthBase(i) == 3
    ensures i < 27 ==> LengthBase(i + 1) == LengthBase(i) + Pow2(LengthExtra(i))
    ensures i == 28 ==> LengthBase(i) == 258
  {
    hide Pow2;
    LengthExtraRule(i);
    if i < 27 {
      hide LengthExtra;
      LengthRanges(i);
    }
  }

  lemma LengthExtraRule(i: nat)
    requires i < 29
    ensures LengthExtra(i) == if i < 8 || i == 28 then 0 else (i - 4) / 4
  {
    if i >= 8 {
      assert i == 4 * ((i - 4) / 4) + 4 + i % 4;
    }
  }

  lemma LengthRanges(i: nat)
    requires i < 27
    ensures LengthBase(i + 1) == LengthBase(i) + Pow2(LengthExtra(i))
  {
    hide Pow2;
    SmallPowers();
  }

  /** The rule behind the distance table: from four symbols without extra bits on, two symbols for each number of
      extra bits, one range after the other. */
  lemma DistTable(i: nat)
    requires i < 30
    ensures DistExtra(i) == if i < 4 then 0 else (i - 2) / 2
    ensures i == 0 ==> DistBase(i) == 1
    ensures i < 29 ==> DistBase(i + 1) == DistBase(i) + Pow2(DistExtra(i))
  {
    hide Pow2;
    ExtraRule(i);
    if i < 29 {
      hide DistExtra;
      DistRanges(i);
    }
  }

  lemma ExtraRule(i: nat)
    requires i < 30
    ensures DistExtra(i) == if i < 4 then 0 else (i - 2) / 2
  {
    if i >= 4 {
      assert i == 2 * ((i - 2) / 2) + 2 + i % 2;
    }
  }

  lemma DistRanges(i: nat)
    requires i < 29
    ensures DistBase(i + 1) == DistBase(i) + Pow2(DistExtra(i))
  {
    hide Pow2;
    SmallPowers();
    LargePowers();
  }

  lemma SmallPowers()
    ensures Pow2(0) == 1 && Pow2(1) == 2 && Pow2(2) == 4 && Pow2(3) == 8 && Pow2(4) == 16 && Pow2(5) == 32
  {
  }

  lemma LargePowers()
    ensures Pow2(6) == 64 && Pow2(7) == 128 && Pow2(8) == 256 && Pow2(9) == 512 && Pow2(10) == 1024
    ensures Pow2(11) == 2048 && Pow2(12) == 4096 && Pow2(13) == 8192
  {
    SmallPowers();
  }

  // ---------------------------------------------------------------- tokens and their expansion

  datatype Token = Literal(b: Byte) | Copy(len: nat, dist: nat)

  /** Append len bytes, each equal to the byte dist back; the source may overlap what is being written. */
  function CopyBack(out: seq<Byte>, len: nat, dist: nat): (r: seq<Byte>)
    requires 1 <= dist <= |out|
    decreases len
  {
    if len == 0 then out else CopyBack(out + [out[|out| - dist]], len - 1, dist)
  }

  predicate Fits(out: seq<Byte>, t: Token)
  {
    t.Copy? ==> 1 <= t.dist <= |out|
  }

  function Apply(out: seq<Byte>, t: Token): seq<Byte>
    requires Fits(out, t)
  {
    match t
    case Literal(b) => out + [b]
    case Copy(len, dist) => CopyBack(out, len, dist)
  }

  datatype Step = Tok(t: Token, q: nat) | EndOfBlock(q: nat) | Corrupt

  /** The token at p: section 3.2.5. */
  ghost function NextToken(ll: seq<nat>, dl: seq<nat>, data: seq<Byte>, p: nat): Step
    requires |ll| <= 288
  {
    var s := SymbolAt(ll, data, p);
    if s < 0 then Corrupt
    else if s < 256 then Tok(Literal(s), p + ll[s])
    else if s == 256 then EndOfBlock(p + ll[s])
    else if s >= 286 then Corrupt
    else DistanceToken(s - 257, dl, data, p + ll[s])
  }

  /** The rest of a copy token whose length symbol was 257 + i. */
  ghost function DistanceToken(i: nat, dl: seq<nat>, data: seq<Byte>, p: nat): Step
    requires i < 29
  {
    var len := LengthBase(i) + Take(data, p, LengthExtra(i));
    var p2 := p + LengthExtra(i);
    var d := SymbolAt(dl, data, p2);
    if d < 0 || d >= 30 then Corrupt
    else
      var p3 := p2 + dl[d];
      Tok(Copy(len, DistBase(d) + Take(data, p3, DistExtra(d))), p3 + DistExtra(d))
  }

  // ---------------------------------------------------------------- reading a compressed block

  /** A position and the output so far, while reading or when the end was read. */
  datatype Outcome = Running(p: nat, out: seq<Byte>) | Done(p: nat, out: seq<Byte>) | Failed

  ghost function ReadToken(ll: seq<nat>, dl: seq<nat>, data: seq<Byte>, p: nat, out: seq<Byte>): Outcome
    requires |ll| <= 288
  {
    match NextToken(ll, dl, data, p)
    case Tok(t, q) => if Fits(out, t) then Running(q, Apply(out, t)) else Failed
    case EndOfBlock(q) => Done(q, out)
    case Corrupt => Failed
  }

  /** What section 3.2.5 forbids is refused: literal/length symbols 286 and 287, distance symbols 30 and 31, and
      distances that reach before the output. */
  lemma TokenRefused(ll: seq<nat>, dl: seq<nat>, data: seq<Byte>, p: nat, out: seq<Byte>)
    requires |ll| <= 288
    ensures SymbolAt(ll, data, p) in {-1, 286, 287} ==> ReadToken(ll, dl, data, p, out).Failed?
    ensures var s := SymbolAt(ll, data, p);
            257 <= s < 286 && SymbolAt(dl, data, p + ll[s] + LengthExtra(s - 257)) in {-1, 30, 31} ==> ReadToken(ll, dl, data, p, out).Failed?
    ensures var t := NextToken(ll, dl, data, p);
            t.Tok? && t.t.Copy? && t.t.dist > |out| ==> ReadToken(ll, dl, data, p, out).Failed?
  {
    hide SymbolAt, LengthBase, LengthExtra, DistBase, DistExtra, Take;
  }

  /** Where reading up to n tokens from p leads. */
  ghost function ReadTokens(ll: seq<nat>, dl: seq<nat>, data: seq<Byte>, p: nat, out: seq<Byte>, n: nat): Outcome
    requires |ll| <= 288
    decreases n
  {
    if n == 0 then Running(p, out)
    else
      match ReadTokens(ll, dl, data, p, out, n - 1)
      case Running(q, o) => ReadToken(ll, dl, data, q, o)
      case r => r
  }

  /** The meaning of a compressed block at p: its end and output, or Failed if it has none. */
  ghost function CompressedBlock(ll: seq<nat>, dl: seq<nat>, data: seq<Byte>, p: nat, out: seq<Byte>): (r: Outcome)
    requires |ll| <= 288
    ensures !r.Running?
  {
    if exists n: nat :: ReadTokens(ll, dl, data, p, out, n).Done? then
      var n: nat :| ReadTokens(ll, dl, data, p, out, n).Done?;
      ReadTokens(ll, dl, data, p, out, n)
    else Failed
  }

  lemma {:induction false} CopyBackGrows(out: seq<Byte>, len: nat, dist: nat)
    requires 1 <= dist <= |out|
    ensures |CopyBack(out, len, dist)| == |out| + len && out <= CopyBack(out, len, dist)
    decreases len
  {
    if len > 0 {
      CopyBackGrows(out + [out[|out| - dist]], len - 1, dist);
    }
  }

  /** Reading a token moves forward in the stream and extends the output. */
  lemma {:induction false} ReadTokenGrows(ll: seq<nat>, dl: seq<nat>, data: seq<Byte>, p: nat, out: seq<Byte>)
    requires |ll| <= 288
    ensures var r := ReadToken(ll, dl, data, p, out); !r.Failed? ==> r.p >= p && |r.out| >= |out|
  {
    var t := NextToken(ll, dl, data, p);
    if t.Tok? && t.t.Copy? && Fits(out, t.t) {
      CopyBackGrows(out, t.t.len, t.t.dist);
    }
  }

  /** Once reading has ended it stays ended; until then it only moves forward. */
  lemma {:induction false} ReadTokensMono(ll: seq<nat>, dl: seq<nat>, data: seq<Byte>, p: nat, out: seq<Byte>, m: nat, n: nat)
    requires |ll| <= 288 && m <= n
    ensures var r, r' := ReadTokens(ll, dl, data, p, out, m), ReadTokens(ll, dl, data, p, out, n);
            if !r.Running? then r' == r else r'.Failed? || (r'.p >= r.p && |r'.out| >= |r.out|)
    decreases n
  {
    hide ReadToken;
    if m < n {
      ReadTokensMono(ll, dl, data, p, out, m, n - 1);
      var r := ReadTokens(ll, dl, data, p, out, n - 1);
      if r.Running? {
        ReadTokenGrows(ll, dl, data, r.p, r.out);
      }
    }
  }

  /** A block has one meaning: the first end that is met. */
  lemma {:induction false} BlockMeaning(ll: seq<nat>, dl: seq<nat>, data: seq<Byte>, p: nat, out: seq<Byte>, n: nat)
    requires |ll| <= 288
    ensures var r, b := ReadTokens(ll, dl, data, p, out, n), CompressedBlock(ll, dl, data, p, out);
            if !r.Running? then b == r else b.Failed? || (b.p >= r.p && |b.out| >= |r.out|)
  {
    var b := CompressedBlock(ll, dl, data, p, out);
    if exists k: nat :: ReadTokens(ll, dl, data, p, out, k).Done? {
      var k: nat :| ReadTokens(ll, dl, data, p, out, k).Done? && b == ReadTokens(ll, dl, data, p, out, k);
      if k <= n {
        ReadTokensMono(ll, dl, data, p, out, k, n);
      } else {
        ReadTokensMono(ll, dl, data, p, out, n, k);
      }
    }
  }

  /** Every byte of a copy equals the byte dist before it, overlapping or not. */
  lemma {:induction false} CopyBackBytes(out: seq<Byte>, len: nat, dist: nat, i: nat)
    requires 1 <= dist <= |out| && |out| <= i < |out| + len
    ensures |CopyBack(out, len, dist)| == |out| + len
    ensures CopyBack(out, len, dist)[i] == CopyBack(out, len, dist)[i - dist]
    decreases len
  {
    CopyBackGrows(out, len, dist);
    var o := out + [out[|out| - dist]];
    if i == |out| {
      CopyBackGrows(o, len - 1, dist);
      assert o[i] == o[i - dist];
    } else {
      CopyBackBytes(o, len - 1, dist, i);
    }
  }

  // ---------------------------------------------------------------- dynamic code lengths (section 3.2.7)

  function Repeat(v: nat, n: nat): (r: seq<nat>)
    ensures |r| == n && forall i | 0 <= i < n :: r[i] == v
    decreases n, v
  {
    if n == 0 then [] else [v] + Repeat(v, n - 1)
  }

  /** The order in which the lengths of the code length alphabet are sent. */
  function CodeOrder(i: nat): (s: nat)
    requires i < 19
    ensures s < 19
  {
    [16, 17, 18, 0, 8, 7, 9, 6, 10, 5, 11, 4, 12, 3, 13, 2, 14, 1, 15][i]
  }

  /** The order of section 3.2.7: the repetitions and 0, then outwards from 8 and 7, up and down in turn. */
  lemma OrderTable(k: nat)
    ensures CodeOrder(0) == 16 && CodeOrder(1) == 17 && CodeOrder(2) == 18 && CodeOrder(3) == 0
    ensures k < 8 ==> CodeOrder(4 + 2 * k) == 8 + k
    ensures k < 7 ==> CodeOrder(5 + 2 * k) == 7 - k
  {
  }

  /** The lengths of the code length alphabet when n of them are sent, three bits each, from p on. */
  function CodeLengthSizes(data: seq<Byte>, p: nat, n: nat): (r: seq<nat>)
    requires n <= 19
    ensures |r| == 19 && ValidLengths(r) && forall i | 0 <= i < 19 :: r[i] <= 7
    decreases n, p, data
  {
    if n == 0 then Repeat(0, 19)
    else
      TakeBound(data, p + 3 * (n - 1), 3);
      assert Pow2(3) == 8;
      CodeLengthSizes(data, p, n - 1)[CodeOrder(n - 1) := Take(data, p + 3 * (n - 1), 3)]
  }

  /** Code lengths read so far, and where reading continues. */
  datatype Lengths = Lengths(p: nat, lens: seq<nat>) | BadLengths

  /** The extra bits of a repetition symbol. */
  function RepeatExtra(c: nat): nat
  {
    if c == 16 then 2 else if c == 17 then 3 else 7
  }

  /** What a repetition symbol counts from. */
  function RepeatBase(c: nat): nat
  {
    if c == 18 then 11 else 3
  }

  /** The repetitions that the symbols can say: 3 to 6 times, 3 to 10 times, 11 to 138 times. */
  lemma RepeatRange(c: nat, n: nat)
    requires 16 <= c <= 18
    ensures RepeatBase(c) <= n < RepeatBase(c) + Pow2(RepeatExtra(c)) <==>
            if c == 16 then 3 <= n <= 6 else if c == 17 then 3 <= n <= 10 else 11 <= n <= 138
  {
    hide Pow2;
    SmallPowers();
    LargePowers();
  }

  /** One code length symbol: a length, or a repetition that may not overshoot the total. */
  ghost function LengthSymbol(cl: seq<nat>, data: seq<Byte>, p: nat, lens: seq<nat>, total: nat): (r: Lengths)
    requires |lens| < total && forall i | 0 <= i < |lens| :: lens[i] <= 15
    ensures r.Lengths? ==> |lens| < |r.lens| <= total && r.p >= p && forall i | 0 <= i < |r.lens| :: r.lens[i] <= 15
  {
    var c := SymbolAt(cl, data, p);
    if c < 0 || c >= 19 || (c == 16 && lens == []) then BadLengths
    else if c < 16 then Lengths(p + cl[c], lens + [c])
    else
      var extra := RepeatExtra(c);
      var times := Take(data, p + cl[c], extra) + RepeatBase(c);
      var fill := if c == 16 then lens[|lens| - 1] else 0;
      if total - |lens| < times then BadLengths
      else Lengths(p + cl[c] + extra, lens + Repeat(fill, times))
  }

  /** A repetition without a length before it, or beyond the total, is refused. */
  lemma RepeatRefused(cl: seq<nat>, data: seq<Byte>, p: nat, lens: seq<nat>, total: nat)
    requires |lens| < total && forall i | 0 <= i < |lens| :: lens[i] <= 15
    ensures SymbolAt(cl, data, p) == 16 && lens == [] ==> LengthSymbol(cl, data, p, lens, total).BadLengths?
    ensures var c := SymbolAt(cl, data, p);
            16 <= c < 19 && |lens| + RepeatBase(c) + Take(data, p + cl[c], RepeatExtra(c)) > total ==> LengthSymbol(cl, data, p, lens, total).BadLengths?
  {
    hide SymbolAt, Take, RepeatBase, RepeatExtra;
  }

  ghost function ReadLengths(cl: seq<nat>, data: seq<Byte>, p: nat, lens: seq<nat>, total: nat): (r: Lengths)
    requires |lens| <= total && forall i | 0 <= i < |lens| :: lens[i] <= 15
    ensures r.Lengths? ==> |r.lens| == total && r.p >= p && forall i | 0 <= i < |r.lens| :: r.lens[i] <= 15
    decreases total - |lens|
  {
    if |lens| == total then Lengths(p, lens)
    else
      match LengthSymbol(cl, data, p, lens, total)
      case BadLengths => BadLengths
      case Lengths(q, l) => ReadLengths(cl, data, q, l, total)
  }

  /** The code lengths of the two alphabets of a block. */
  datatype Codes = Codes(p: nat, ll: seq<nat>, dl: seq<nat>) | BadCodes

  ghost function DynamicCodes(data: seq<Byte>, p: nat): (r: Codes)
    ensures r.Codes? ==> ValidLengths(r.ll) && ValidLengths(r.dl) && Kraft(r.ll) && Kraft(r.dl) && r.p >= p
  {
    var hlit, hdist, hclen := Take(data, p, 5) + 257, Take(data, p + 5, 5) + 1, Take(data, p + 10, 4) + 4;
    HeaderCounts(data, p);
    var cl := CodeLengthSizes(data, p + 14, hclen);
    if !Kraft(cl) then BadCodes
    else
      match ReadLengths(cl, data, p + 14 + 3 * hclen, [], hlit + hdist)
      case BadLengths => BadCodes
      case Lengths(q, lens) =>
        if Kraft(lens[..hlit]) && Kraft(lens[hlit..]) then Codes(q, lens[..hlit], lens[hlit..]) else BadCodes
  }

  lemma HeaderCounts(data: seq<Byte>, p: nat)
    ensures Take(data, p, 5) < 32 && Take(data, p + 5, 5) < 32 && Take(data, p + 10, 4) < 16
  {
    TakeBound(data, p, 5);
    TakeBound(data, p + 5, 5);
    TakeBound(data, p + 10, 4);
    assert Pow2(4) == 16 && Pow2(5) == 32;
  }

  // ---------------------------------------------------------------- fixed code lengths (section 3.2.6)

  const FIXED_LL: seq<nat> := Repeat(8, 144) + Repeat(9, 112) + Repeat(7, 24) + Repeat(8, 8)
  const FIXED_DL: seq<nat> := Repeat(5, 32)

  /** The fixed lengths of section 3.2.6, symbol by symbol. */
  lemma FixedLengths(i: nat)
    ensures |FIXED_LL| == 288 && |FIXED_DL| == 32
    ensures i < 288 ==> FIXED_LL[i] == if i <= 143 then 8 else if i <= 255 then 9 else if i <= 279 then 7 else 8
    ensures i < 32 ==> FIXED_DL[i] == 5
  {
    hide Repeat;
  }

  lemma {:induction false} FixedShare(n: nat)
    requires n <= 288
    ensures KraftSum(FIXED_LL, n) ==
            if n <= 144 then 128 * n else if n <= 256 then 18432 + 64 * (n - 144)
            else if n <= 280 then 25600 + 256 * (n - 256) else 31744 + 128 * (n - 280)
  {
    if n > 0 {
      FixedShare(n - 1);
      assert Pow2(6) == 64 && Pow2(7) == 128 && Pow2(8) == 256;
    }
  }

  lemma {:induction false} FixedDistShare(n: nat)
    requires n <= 32
    ensures KraftSum(FIXED_DL, n) == 1024 * n
  {
    if n > 0 {
      FixedDistShare(n - 1);
      assert Pow2(10) == 1024;
    }
  }

  lemma {:induction false} FixedLengthsValid()
    ensures ValidLengths(FIXED_LL) && ValidLengths(FIXED_DL) && |FIXED_LL| == 288 && |FIXED_DL| == 32
  {
  }

  /** The fixed codes fill their code spaces exactly. */
  lemma {:induction false} FixedCodesComplete()
    ensures ValidLengths(FIXED_LL) && ValidLengths(FIXED_DL)
    ensures KraftSum(FIXED_LL, |FIXED_LL|) == KraftSum(FIXED_DL, |FIXED_DL|) == Pow2(15)
  {
    FixedLengthsValid();
    hide KraftSum, FIXED_LL, FIXED_DL;
    Pow2Values();
    FixedShare(|FIXED_LL|);
    FixedDistShare(|FIXED_DL|);
  }

  // ---------------------------------------------------------------- blocks (section 3.2.3)

  function PaddedByte(data: seq<Byte>, i: nat): Byte
  {
    if i < |data| then data[i] else 0
  }

  function LittleEndian(lo: Byte, hi: Byte): nat
  {
    lo + 256 * hi
  }

  function Word(data: seq<Byte>, i: nat): (w: nat)
    ensures w <= 65535
  {
    LittleEndian(PaddedByte(data, i), PaddedByte(data, i + 1))
  }

  /** A stored block whose header starts at byte a: section 3.2.4. */
  function StoredBlock(data: seq<Byte>, a: nat, out: seq<Byte>): Outcome
  {
    var len := Word(data, a);
    if Word(data, a + 2) != 65535 - len || a + 4 + len > |data| then Failed
    else Done(8 * (a + 4 + len), out + data[a + 4..a + 4 + len])
  }

  /** Both length words of a stored block must agree, as each other's complement, and its bytes must be there. */
  lemma StoredIs(data: seq<Byte>, a: nat, out: seq<Byte>)
    ensures var b, len := StoredBlock(data, a, out), Word(data, a);
            (b.Done? <==> Word(data, a) + Word(data, a + 2) == 65535 && a + 4 + len <= |data|) &&
            (b.Done? ==> b.p == 8 * (a + 4 + len) && b.out == out + data[a + 4..a + 4 + len])
  {
    hide Word;
  }

  /** The body of a block of the given type. */
  ghost function BlockBody(kind: nat, data: seq<Byte>, p: nat, out: seq<Byte>): Outcome
  {
    if kind == 0 then StoredBlock(data, (p + 7) / 8, out)
    else if kind == 1 then CompressedBlock(FIXED_LL, FIXED_DL, data, p, out)
    else if kind == 2 then
      match DynamicCodes(data, p)
      case BadCodes => Failed
      case Codes(q, ll, dl) => CompressedBlock(ll, dl, data, q, out)
    else Failed
  }

  /** The reserved block type is refused. */
  lemma ReservedKind(data: seq<Byte>, p: nat, out: seq<Byte>)
    requires Take(data, p + 1, 2) == 3
    ensures ReadBlock(data, p, out).Failed?
  {
    hide Take;
  }

  /** The block at p; the stream is done if this is the final one. */
  ghost function ReadBlock(data: seq<Byte>, p: nat, out: seq<Byte>): Outcome
  {
    match BlockBody(Take(data, p + 1, 2), data, p + 3, out)
    case Done(q, o) => if Take(data, p, 1) == 1 then Done(q, o) else Running(q, o)
    case _ => Failed
  }

  ghost function ReadBlocks(data: seq<Byte>, p: nat, out: seq<Byte>, n: nat): Outcome
    decreases n
  {
    if n == 0 then Running(p, out)
    else
      match ReadBlocks(data, p, out, n - 1)
      case Running(q, o) => ReadBlock(data, q, o)
      case r => r
  }

  /** The meaning of a DEFLATE stream that starts at bit p. */
  ghost function Inflated(data: seq<Byte>, p: nat): (r: Outcome)
    ensures !r.Running?
  {
    if exists n: nat :: ReadBlocks(data, p, [], n).Done? then
      var n: nat :| ReadBlocks(data, p, [], n).Done?;
      ReadBlocks(data, p, [], n)
    else Failed
  }

  lemma BlockGrows(ll: seq<nat>, dl: seq<nat>, data: seq<Byte>, p: nat, out: seq<Byte>)
    requires |ll| <= 288
    ensures var b := CompressedBlock(ll, dl, data, p, out); b.Done? ==> b.p >= p && |b.out| >= |out|
  {
    hide CompressedBlock;
    BlockMeaning(ll, dl, data, p, out, 0);
  }

  /** A block moves forward in the stream and extends the output. */
  lemma {:induction false} ReadBlockGrows(data: seq<Byte>, p: nat, out: seq<Byte>)
    ensures var r := ReadBlock(data, p, out); !r.Failed? ==> r.p >= p + 3 && |r.out| >= |out|
  {
    hide Take, CompressedBlock, DynamicCodes, FIXED_LL, FIXED_DL, Word, ReadTokens;
    FixedLengthsValid();
    var kind := Take(data, p + 1, 2);
    if kind == 1 {
      BlockGrows(FIXED_LL, FIXED_DL, data, p + 3, out);
    } else if kind == 2 {
      var c := DynamicCodes(data, p + 3);
      if c.Codes? {
        BlockGrows(c.ll, c.dl, data, c.p, out);
      }
    }
  }

  lemma {:induction false} ReadBlocksMono(data: seq<Byte>, p: nat, out: seq<Byte>, m: nat, n: nat)
    requires m <= n
    ensures var r, r' := ReadBlocks(data, p, out, m), ReadBlocks(data, p, out, n);
            if !r.Running? then r' == r else r'.Failed? || (r'.p >= r.p && |r'.out| >= |r.out|)
    decreases n
  {
    hide ReadBlock;
    if m < n {
      ReadBlocksMono(data, p, out, m, n - 1);
      var r := ReadBlocks(data, p, out, n - 1);
      if r.Running? {
        ReadBlockGrows(data, r.p, r.out);
      }
    }
  }

  /** A stream has one meaning. */
  lemma {:induction false} StreamMeaning(data: seq<Byte>, p: nat, n: nat)
    ensures var r, b := ReadBlocks(data, p, [], n), Inflated(data, p);
            if !r.Running? then b == r else b.Failed? || (b.p >= r.p && |b.out| >= |r.out|)
  {
    var b := Inflated(data, p);
    if exists k: nat :: ReadBlocks(data, p, [], k).Done? {
      var k: nat :| ReadBlocks(data, p, [], k).Done? && b == ReadBlocks(data, p, [], k);
      if k <= n {
        ReadBlocksMono(data, p, [], k, n);
      } else {
        ReadBlocksMono(data, p, [], n, k);
      }
    }
  }

  /** In the padding there is only a stored block without a header: nothing can be read there. */
  lemma {:induction false} NothingInThePadding(data: seq<Byte>, p: nat, out: seq<Byte>)
    requires p >= 8 * |data|
    ensures ReadBlock(data, p, out).Failed?
  {
    TakePadding(data, p + 1, 2);
  }

  /** A final block of the fixed codes that says nothing but that it ends. */
  ghost predicate EmptyFixedBlock(data: seq<Byte>, p: nat)
  {
    Take(data, p, 1) == 1 && Take(data, p + 1, 2) == 1 && SymbolAt(FIXED_LL, data, p + 3) == 256
  }

  lemma {:induction false} EmptyFixedMeaning(data: seq<Byte>, p: nat)
    requires EmptyFixedBlock(data, p)
    ensures Inflated(data, p) == Done(p + 10, [])
  {
    hide FIXED_LL, FIXED_DL, Inflated, CompressedBlock, Take, SymbolAt;
    FixedLengthsValid();
    EndSymbol();
    assert ReadTokens(FIXED_LL, FIXED_DL, data, p + 3, [], 0) == Running(p + 3, []);
    assert ReadTokens(FIXED_LL, FIXED_DL, data, p + 3, [], 1) == Done(p + 10, []);
    BlockMeaning(FIXED_LL, FIXED_DL, data, p + 3, [], 1);
    ReadOneBlock(data, p, []);
    StreamMeaning(data, p, 1);
  }

  /** The end-of-block symbol has the first code of the shortest length, seven zeros. */
  lemma EndSymbol()
    ensures |FIXED_LL| == 288 && FIXED_LL[256] == 7 && Code(FIXED_LL, 256) == 0
  {
    hide FIXED_LL, FirstCode, CountTo;
    EndLength();
    NoneShorter(7);
    LengthsBySymbol();
    NoneOf(FIXED_LL, 256, 7);
  }

  lemma EndLength()
    ensures |FIXED_LL| == 288 && FIXED_LL[256] == 7
  {
    hide Repeat;
  }

  lemma {:induction false} NoneShorter(l: nat)
    requires 1 <= l <= 7
    ensures FirstCode(FIXED_LL, l) == 0
  {
    hide FIXED_LL;
    if l > 1 {
      NoneShorter(l - 1);
      LengthsBySymbol();
      NoneOf(FIXED_LL, |FIXED_LL|, l - 1);
    }
  }

  /** The fixed lengths are 7 or more, and 8 or more for the literals. */
  lemma LengthsBySymbol()
    ensures |FIXED_LL| == 288 && forall i | 0 <= i < 288 :: FIXED_LL[i] >= if i < 256 then 8 else 7
  {
    hide Repeat;
  }

  lemma {:induction false} NoneOf(lens: seq<nat>, n: nat, l: nat)
    requires n <= |lens| && forall i | 0 <= i < n :: lens[i] != l
    ensures CountTo(lens, n, l) == 0
  {
    if n > 0 {
      NoneOf(lens, n - 1, l);
    }
  }

  /** One byte that stops inside the end-of-block code. */
  const TRUNCATED: seq<Byte> := [3]

  /** It begins with two ones; then come zeros, the padding included. */
  lemma TruncatedBits(p: nat)
    ensures StreamBit(TRUNCATED, p) == if p < 2 then 1 else 0
  {
    if p < 8 {
      assert p / 8 == 0 && p % 8 == p;
      ThreeShifted(p);
    }
  }

  lemma {:induction false} ThreeShifted(p: nat)
    ensures BitOf(3, p) == if p < 2 then 1 else 0
  {
    if p >= 2 {
      ZeroShifted(p - 2);
      assert Shr(3, p) == Shr(1, p - 1) == Shr(0, p - 2);
    } else {
      assert Shr(3, 0) == 3 && Shr(3, 1) == Shr(1, 0) == 1;
    }
  }

  lemma {:induction false} ZeroShifted(p: nat)
    ensures Shr(0, p) == 0
  {
    if p > 0 {
      ZeroShifted(p - 1);
    }
  }

  lemma {:induction false} OnlyZeros(p: nat, n: nat)
    requires p >= 2
    ensures Msb(TRUNCATED, p, n) == 0
  {
    if n > 0 {
      OnlyZeros(p, n - 1);
      TruncatedBits(p + n - 1);
    }
  }

  /** Only the padding makes it a stream. */
  lemma TruncatedExample()
    ensures EmptyFixedBlock(TRUNCATED, 0) && Inflated(TRUNCATED, 0) == Done(10, [])
  {
    hide FIXED_LL, Code, SymbolAt, Msb, Take, Inflated, StreamBit, TRUNCATED;
    SevenZeros();
    FirstBits(TRUNCATED, 0);
    TruncatedBits(0);
    TruncatedBits(1);
    TruncatedBits(2);
    EmptyFixedMeaning(TRUNCATED, 0);
  }

  lemma SevenZeros()
    ensures SymbolAt(FIXED_LL, TRUNCATED, 3) == 256
  {
    hide FIXED_LL, Code, SymbolAt, Msb, TRUNCATED;
    EndSymbol();
    OnlyZeros(3, 7);
    SymbolAtIs(FIXED_LL, 256, TRUNCATED, 3);
  }

  lemma FirstBits(data: seq<Byte>, p: nat)
    ensures Take(data, p, 1) == StreamBit(data, p)
    ensures Take(data, p + 1, 2) == StreamBit(data, p + 1) + 2 * StreamBit(data, p + 2)
  {
    assert Take(data, p + 1, 2) == StreamBit(data, p + 1) + 2 * Take(data, p + 2, 1);
  }

  // ---------------------------------------------------------------- an encoder, and the round trip

  /** A stored block holding the chunk, starting on a byte boundary. */
  function StoredChunk(chunk: seq<Byte>, last: bool): (r: seq<Byte>)
    requires |chunk| <= 65535
    ensures |r| == 5 + |chunk|
  {
    var lo: Byte, hi: Byte := |chunk| % 256, |chunk| / 256;
    [if last then 1 else 0, lo, hi, 255 - lo, 255 - hi] + chunk
  }

  /** A DEFLATE stream of stored blocks, one for each chunk. */
  function StoredStream(chunks: seq<seq<Byte>>): seq<Byte>
    requires forall i | 0 <= i < |chunks| :: |chunks[i]| <= 65535
  {
    if chunks == [] then [] else StoredChunk(chunks[0], |chunks| == 1) + StoredStream(chunks[1..])
  }

  function Concat(chunks: seq<seq<Byte>>): seq<Byte>
  {
    if chunks == [] then [] else chunks[0] + Concat(chunks[1..])
  }

  /** The three header bits of a stored block that starts on a byte boundary. */
  lemma {:induction false} StoredHeaderBits(data: seq<Byte>, i: nat)
    requires i < |data| && data[i] < 2
    ensures Take(data, 8 * i, 1) == data[i] && Take(data, 8 * i + 1, 2) == 0
  {
    TakeByte(data, i);
    TakeLowShr(data, 8 * i, 1, 8);
    TakeLowShr(data, 8 * i + 1, 2, 7);
    var b := data[i];
    assert Low(b, 1) == b % 2 + 2 * Low(b / 2, 0);
    assert Shr(b, 1) == Shr(b / 2, 0) == 0;
    assert Low(0, 2) == 0;
  }

  /** Reading one stored chunk. */
  lemma {:induction false} ReadStoredChunk(pre: seq<Byte>, chunk: seq<Byte>, last: bool, post: seq<Byte>, out: seq<Byte>)
    requires |chunk| <= 65535
    ensures var data, q := pre + StoredChunk(chunk, last) + post, 8 * (|pre| + 5 + |chunk|);
            ReadBlock(data, 8 * |pre|, out) == if last then Done(q, out + chunk) else Running(q, out + chunk)
  {
    var i := |pre|;
    var data := pre + StoredChunk(chunk, last) + post;
    assert data[i] == (if last then 1 else 0) && data[i + 1] == |chunk| % 256 && data[i + 2] == |chunk| / 256;
    assert data[i + 3] == 255 - |chunk| % 256 && data[i + 4] == 255 - |chunk| / 256;
    StoredHeaderBits(data, i);
    assert (8 * i + 3 + 7) / 8 == i + 1;
    assert Word(data, i + 1) == |chunk| && Word(data, i + 3) == 65535 - |chunk|;
    assert data[i + 5..i + 5 + |chunk|] == chunk;
    assert StoredBlock(data, i + 1, out) == Done(8 * (i + 5 + |chunk|), out + chunk);
  }

  /** Reading block by block from the front. */
  lemma ReadOneBlock(data: seq<Byte>, p: nat, out: seq<Byte>)
    ensures ReadBlocks(data, p, out, 1) == ReadBlock(data, p, out)
  {
    hide ReadBlock;
    assert ReadBlocks(data, p, out, 0) == Running(p, out);
  }

  lemma {:induction false} ReadBlocksFront(data: seq<Byte>, p: nat, out: seq<Byte>, n: nat)
    requires ReadBlock(data, p, out).Running?
    ensures var r := ReadBlock(data, p, out); ReadBlocks(data, p, out, n + 1) == ReadBlocks(data, r.p, r.out, n)
    decreases n
  {
    hide ReadBlock;
    if n == 0 {
      ReadOneBlock(data, p, out);
    } else {
      ReadBlocksFront(data, p, out, n - 1);
    }
  }

  lemma StoredParts(pre: seq<Byte>, chunks: seq<seq<Byte>>, out: seq<Byte>)
    requires chunks != [] && forall i | 0 <= i < |chunks| :: |chunks[i]| <= 65535
    ensures var first, rest := StoredChunk(chunks[0], |chunks| == 1), StoredStream(chunks[1..]);
            pre + StoredStream(chunks) == pre + first + rest && out + Concat(chunks) == out + chunks[0] + Concat(chunks[1..]) &&
            (|chunks| == 1 ==> rest == [] && out + Concat(chunks) == out + chunks[0])
  {
    hide StoredChunk;
    if |chunks| == 1 {
      assert chunks[1..] == [];
    }
  }

  lemma {:induction false} ReadStoredStream(pre: seq<Byte>, chunks: seq<seq<Byte>>, out: seq<Byte>)
    requires chunks != [] && forall i | 0 <= i < |chunks| :: |chunks[i]| <= 65535
    ensures var data := pre + StoredStream(chunks);
            ReadBlocks(data, 8 * |pre|, out, |chunks|) == Done(8 * |data|, out + Concat(chunks))
    decreases |chunks|
  {
    hide ReadBlock, ReadBlocks, StoredChunk, StoredStream, Concat;
    var first, rest := StoredChunk(chunks[0], |chunks| == 1), StoredStream(chunks[1..]);
    var data := pre + StoredStream(chunks);
    StoredParts(pre, chunks, out);
    ReadStoredChunk(pre, chunks[0], |chunks| == 1, rest, out);
    var mid := out + chunks[0];
    if |chunks| == 1 {
      ReadOneBlock(data, 8 * |pre|, out);
    } else {
      ReadBlocksFront(data, 8 * |pre|, out, |chunks| - 1);
      ReadStoredStream(pre + first, chunks[1..], mid);
    }
  }

  /** Decoding a stream of stored blocks gives back the stored bytes. */
  lemma {:induction false} StoredRoundTrip(chunks: seq<seq<Byte>>)
    requires chunks != [] && forall i | 0 <= i < |chunks| :: |chunks[i]| <= 65535
    ensures Inflated(StoredStream(chunks), 0) == Done(8 * |StoredStream(chunks)|, Concat(chunks))
  {
    ReadStoredStream([], chunks, []);
    assert [] + StoredStream(chunks) == StoredStream(chunks);
    StreamMeaning(StoredStream(chunks), 0, |chunks|);
  }
}
