/** A DEFLATE encoder for token sequences, written bit by bit, and the round trip through the decoder. */
module DeflateEncoder {
  import opened Wrappers
  import opened Bits
  import opened Canonical
  import opened Huffman
  import opened Deflate
  import opened Refill
  import opened Inflate

  // ---------------------------------------------------------------- bits in a stream

  type Bit = b: int | 0 <= b < 2

  /** The n bits of v, most significant first: how Huffman codes are packed. */
  function MsbBits(v: nat, n: nat): (r: seq<Bit>)
    ensures |r| == n
  {
    if n == 0 then [] else MsbBits(v / 2, n - 1) + [v % 2]
  }

  /** The n bits of v, least significant first: how all other numbers are packed. */
  function LsbBits(v: nat, n: nat): (r: seq<Bit>)
    ensures |r| == n
  {
    if n == 0 then [] else [v % 2] + LsbBits(v / 2, n - 1)
  }

  /** From bit p on, the stream holds these bits. */
  ghost predicate Carries(data: seq<Byte>, p: nat, bs: seq<Bit>)
  {
    forall i: nat | i < |bs| :: StreamBit(data, p + i) == bs[i]
  }

  lemma CarriesParts(data: seq<Byte>, p: nat, a: seq<Bit>, b: seq<Bit>)
    requires Carries(data, p, a + b)
    ensures Carries(data, p, a) && Carries(data, p + |a|, b)
  {
    forall i: nat | i < |a| ensures StreamBit(data, p + i) == a[i] {
      assert (a + b)[i] == a[i];
    }
    forall i: nat | i < |b| ensures StreamBit(data, p + |a| + i) == b[i] {
      assert (a + b)[|a| + i] == b[i];
    }
  }

  lemma {:induction false} MsbCarried(data: seq<Byte>, p: nat, v: nat, n: nat)
    requires v < Pow2(n) && Carries(data, p, MsbBits(v, n))
    ensures Msb(data, p, n) == v
    decreases n
  {
    if n > 0 {
      CarriesParts(data, p, MsbBits(v / 2, n - 1), [v % 2]);
      MsbCarried(data, p, v / 2, n - 1);
      assert StreamBit(data, p + (n - 1) + 0) == [v % 2][0];
    }
  }

  lemma {:induction false} LsbCarried(data: seq<Byte>, p: nat, v: nat, n: nat)
    requires v < Pow2(n) && Carries(data, p, LsbBits(v, n))
    ensures Take(data, p, n) == v
    decreases n
  {
    if n > 0 {
      CarriesParts(data, p, [v % 2], LsbBits(v / 2, n - 1));
      LsbCarried(data, p + 1, v / 2, n - 1);
      assert StreamBit(data, p + 0) == [v % 2][0];
    }
  }

  // ---------------------------------------------------------------- length and distance codes

  /** Every length symbol begins no later than where the one before it ends. */
  lemma LengthSteps(i: nat)
    requires i < 28
    ensures LengthBase(i) < LengthBase(i + 1) <= LengthBase(i) + Pow2(LengthExtra(i))
  {
    hide Pow2, LengthBase, LengthExtra;
    LengthTable(i);
    LengthTable(i + 1);
    if i == 27 {
      LastLengths();
    }
  }

  /** The ranges of the length symbols before the last go on to 258. */
  lemma LastLengths()
    ensures LengthBase(27) == 227 && LengthBase(27) + Pow2(LengthExtra(27)) == 259
  {
    hide Pow2;
    SmallPowers();
  }

  /** Every distance symbol begins exactly where the one before it ends. */
  lemma DistSteps(i: nat)
    requires i < 29
    ensures DistBase(i + 1) == DistBase(i) + Pow2(DistExtra(i))
  {
    DistTable(i);
  }

  /** The last length symbol, from i on, that begins at or before the length. */
  function LengthCode(len: nat, i: nat): (r: nat)
    requires i < 29 && LengthBase(i) <= len <= 258
    ensures i <= r < 29 && LengthBase(r) <= len < LengthBase(r) + Pow2(LengthExtra(r))
    decreases 29 - i
  {
    if i == 28 then assert Pow2(0) == 1; i
    else if LengthBase(i + 1) <= len then LengthCode(len, i + 1)
    else LengthSteps(i); i
  }

  function DistCode(dist: nat, i: nat): (r: nat)
    requires i < 30 && DistBase(i) <= dist <= 32768
    ensures i <= r < 30 && DistBase(r) <= dist < DistBase(r) + Pow2(DistExtra(r))
    decreases 30 - i
  {
    if i == 29 then LargePowers(); i
    else if DistBase(i + 1) <= dist then DistCode(dist, i + 1)
    else DistSteps(i); i
  }

  /** The symbol (less 257) for a length. */
  function LengthIndex(len: nat): (r: nat)
    requires 3 <= len <= 258
    ensures r < 29 && LengthBase(r) <= len < LengthBase(r) + Pow2(LengthExtra(r))
  {
    LengthCode(len, 0)
  }

  /** The symbol for a distance. */
  function DistIndex(dist: nat): (r: nat)
    requires 1 <= dist <= 32768
    ensures r < 30 && DistBase(r) <= dist < DistBase(r) + Pow2(DistExtra(r))
  {
    DistCode(dist, 0)
  }

  /** What DEFLATE can say: lengths 3 to 258 and distances 1 to 32768 (section 3.2.5). */
  predicate InRange(t: Token)
  {
    t.Copy? ==> 3 <= t.len <= 258 && 1 <= t.dist <= 32768
  }

  // ---------------------------------------------------------------- tokens

  function CodeBits(lens: seq<nat>, i: nat): (r: seq<Bit>)
    requires i < |lens| && lens[i] > 0
    ensures |r| == lens[i]
  {
    MsbBits(Code(lens, i), lens[i])
  }

  /** The codes have a symbol for what the token needs. */
  predicate Encodable(ll: seq<nat>, dl: seq<nat>, t: Token)
  {
    InRange(t) &&
    match t
    case Literal(b) => b < |ll| && ll[b] > 0
    case Copy(len, dist) =>
      var i, d := 257 + LengthIndex(len), DistIndex(dist);
      i < |ll| && ll[i] > 0 && d < |dl| && dl[d] > 0
  }

  function TokenBits(ll: seq<nat>, dl: seq<nat>, t: Token): seq<Bit>
    requires Encodable(ll, dl, t)
  {
    match t
    case Literal(b) => CodeBits(ll, b)
    case Copy(len, dist) =>
      var i, d := LengthIndex(len), DistIndex(dist);
      CodeBits(ll, 257 + i) + RestBits(dl, i, d, len, dist)
  }

  /** Where a symbol was written, it is read. */
  lemma SymbolRead(lens: seq<nat>, i: nat, data: seq<Byte>, p: nat)
    requires ValidLengths(lens) && Kraft(lens) && i < |lens| && lens[i] > 0 && Carries(data, p, CodeBits(lens, i))
    ensures SymbolAt(lens, data, p) == i
  {
    hide Code, SymbolAt, Msb, MsbBits, Carries;
    CodeFits(lens, i);
    MsbCarried(data, p, Code(lens, i), lens[i]);
    SymbolAtIs(lens, i, data, p);
  }

  /** The bits of a copy after its length symbol. */
  function RestBits(dl: seq<nat>, i: nat, d: nat, len: nat, dist: nat): (r: seq<Bit>)
    requires i < 29 && d < 30 && LengthBase(i) <= len && DistBase(d) <= dist && d < |dl| && dl[d] > 0
    ensures |r| == LengthExtra(i) + dl[d] + DistExtra(d)
  {
    LsbBits(len - LengthBase(i), LengthExtra(i)) + (CodeBits(dl, d) + LsbBits(dist - DistBase(d), DistExtra(d)))
  }

  lemma RestRead(dl: seq<nat>, data: seq<Byte>, p: nat, i: nat, d: nat, len: nat, dist: nat)
    requires ValidLengths(dl) && Kraft(dl) && i < 29 && d < 30 && d < |dl| && dl[d] > 0
    requires LengthBase(i) <= len < LengthBase(i) + Pow2(LengthExtra(i)) && DistBase(d) <= dist < DistBase(d) + Pow2(DistExtra(d))
    requires Carries(data, p, RestBits(dl, i, d, len, dist))
    ensures DistanceToken(i, dl, data, p) == Tok(Copy(len, dist), p + |RestBits(dl, i, d, len, dist)|)
  {
    hide Kraft, ValidLengths, Carries, CodeBits, LsbBits, Pow2, LengthBase, LengthExtra, DistBase, DistExtra, SymbolAt, Take;
    var lenBits, distBits := LsbBits(len - LengthBase(i), LengthExtra(i)), LsbBits(dist - DistBase(d), DistExtra(d));
    CarriesParts(data, p, lenBits, CodeBits(dl, d) + distBits);
    LsbCarried(data, p, len - LengthBase(i), LengthExtra(i));
    var p2 := p + LengthExtra(i);
    CarriesParts(data, p2, CodeBits(dl, d), distBits);
    SymbolRead(dl, d, data, p2);
    LsbCarried(data, p2 + dl[d], dist - DistBase(d), DistExtra(d));
  }

  /** Where a copy was written, it is read. */
  lemma CopyRead(ll: seq<nat>, dl: seq<nat>, data: seq<Byte>, p: nat, t: Token)
    requires ValidLengths(ll) && Kraft(ll) && ValidLengths(dl) && Kraft(dl)
    requires Encodable(ll, dl, t) && t.Copy? && Carries(data, p, TokenBits(ll, dl, t))
    ensures NextToken(ll, dl, data, p) == Tok(t, p + |TokenBits(ll, dl, t)|)
  {
    hide Kraft, ValidLengths, Carries, CodeBits, RestBits, Pow2, LengthBase, LengthExtra, DistBase, DistExtra, LengthIndex, DistIndex, SymbolAt, DistanceToken;
    var Copy(len, dist) := t;
    var i, d := LengthIndex(len), DistIndex(dist);
    CarriesParts(data, p, CodeBits(ll, 257 + i), RestBits(dl, i, d, len, dist));
    SymbolRead(ll, 257 + i, data, p);
    RestRead(dl, data, p + ll[257 + i], i, d, len, dist);
  }

  lemma TokenRead(ll: seq<nat>, dl: seq<nat>, data: seq<Byte>, p: nat, t: Token)
    requires ValidLengths(ll) && Kraft(ll) && ValidLengths(dl) && Kraft(dl)
    requires Encodable(ll, dl, t) && Carries(data, p, TokenBits(ll, dl, t))
    ensures NextToken(ll, dl, data, p) == Tok(t, p + |TokenBits(ll, dl, t)|)
  {
    if t.Literal? {
      SymbolRead(ll, t.b, data, p);
    } else {
      CopyRead(ll, dl, data, p, t);
    }
  }

  // ---------------------------------------------------------------- blocks

  ghost predicate AllEncodable(ll: seq<nat>, dl: seq<nat>, ts: seq<Token>)
  {
    forall i | 0 <= i < |ts| :: Encodable(ll, dl, ts[i])
  }

  function TokensBits(ll: seq<nat>, dl: seq<nat>, ts: seq<Token>): seq<Bit>
    requires AllEncodable(ll, dl, ts)
  {
    if ts == [] then []
    else
      var n := |ts| - 1;
      TokensBits(ll, dl, ts[..n]) + TokenBits(ll, dl, ts[n])
  }

  /** What the tokens stand for, if every copy reaches back into what is there. */
  function Expanded(out: seq<Byte>, ts: seq<Token>): (r: Option<seq<Byte>>)
  {
    if ts == [] then Some(out)
    else
      var n := |ts| - 1;
      match Expanded(out, ts[..n])
      case None => None
      case Some(o) => if Fits(o, ts[n]) then Some(Apply(o, ts[n])) else None
  }

  lemma {:induction false} TokensRead(ll: seq<nat>, dl: seq<nat>, data: seq<Byte>, p: nat, out: seq<Byte>, ts: seq<Token>)
    requires ValidLengths(ll) && Kraft(ll) && ValidLengths(dl) && Kraft(dl)
    requires AllEncodable(ll, dl, ts) && Carries(data, p, TokensBits(ll, dl, ts)) && Expanded(out, ts).Some?
    ensures ReadTokens(ll, dl, data, p, out, |ts|) == Running(p + |TokensBits(ll, dl, ts)|, Expanded(out, ts).value)
    decreases |ts|
  {
    hide Kraft, Carries, Encodable, TokenBits, NextToken;
    if ts != [] {
      var n := |ts| - 1;
      var before := TokensBits(ll, dl, ts[..n]);
      CarriesParts(data, p, before, TokenBits(ll, dl, ts[n]));
      TokensRead(ll, dl, data, p, out, ts[..n]);
      TokenRead(ll, dl, data, p + |before|, ts[n]);
    }
  }

  /** A block of tokens, ended by the end-of-block symbol. */
  function BlockBits(ll: seq<nat>, dl: seq<nat>, ts: seq<Token>): seq<Bit>
    requires AllEncodable(ll, dl, ts) && 256 < |ll| && ll[256] > 0
  {
    TokensBits(ll, dl, ts) + CodeBits(ll, 256)
  }

  /** For any two codes and any tokens they can say: a block that was written means what its tokens stand for. */
  lemma BlockRead(ll: seq<nat>, dl: seq<nat>, data: seq<Byte>, p: nat, out: seq<Byte>, ts: seq<Token>)
    requires ValidLengths(ll) && Kraft(ll) && ValidLengths(dl) && Kraft(dl) && 256 < |ll| && ll[256] > 0
    requires AllEncodable(ll, dl, ts) && Carries(data, p, BlockBits(ll, dl, ts)) && Expanded(out, ts).Some?
    ensures CompressedBlock(ll, dl, data, p, out) == Done(p + |BlockBits(ll, dl, ts)|, Expanded(out, ts).value)
  {
    hide Kraft, Carries, CodeBits, TokensBits, CompressedBlock, SymbolAt, ReadTokens, Expanded, AllEncodable;
    var bits := TokensBits(ll, dl, ts);
    CarriesParts(data, p, bits, CodeBits(ll, 256));
    TokensRead(ll, dl, data, p, out, ts);
    SymbolRead(ll, 256, data, p + |bits|);
    EndRead(ll, dl, data, p, out, |ts|);
  }

  /** Tokens followed by the end-of-block symbol are a block. */
  lemma EndRead(ll: seq<nat>, dl: seq<nat>, data: seq<Byte>, p: nat, out: seq<Byte>, n: nat)
    requires 256 < |ll| <= 288
    requires var r := ReadTokens(ll, dl, data, p, out, n); r.Running? && SymbolAt(ll, data, r.p) == 256
    ensures var r := ReadTokens(ll, dl, data, p, out, n); CompressedBlock(ll, dl, data, p, out) == Done(r.p + ll[256], r.out)
  {
    hide CompressedBlock, SymbolAt, DistanceToken;
    BlockMeaning(ll, dl, data, p, out, n + 1);
  }

  // ---------------------------------------------------------------- bytes

  function BitAt(bs: seq<Bit>, i: nat): Bit
  {
    if i < |bs| then bs[i] else 0
  }

  /** The number whose bits are bs[p], bs[p + 1], ..., n of them. */
  function FromBits(bs: seq<Bit>, p: nat, n: nat): nat
    decreases n
  {
    if n == 0 then 0 else BitAt(bs, p) + 2 * FromBits(bs, p + 1, n - 1)
  }

  lemma {:induction false} FromBitsBound(bs: seq<Bit>, p: nat, n: nat)
    ensures FromBits(bs, p, n) < Pow2(n)
    decreases n
  {
    if n > 0 {
      FromBitsBound(bs, p + 1, n - 1);
    }
  }

  lemma {:induction false} FromBitsAt(bs: seq<Bit>, p: nat, n: nat, i: nat)
    requires i < n
    ensures BitOf(FromBits(bs, p, n), i) == BitAt(bs, p + i)
    decreases n
  {
    if i > 0 {
      FromBitsAt(bs, p + 1, n - 1, i - 1);
    }
  }

  /** The first m bytes of the packed bits; the last byte is filled up with zeros. */
  function Packed(bs: seq<Bit>, m: nat): (r: seq<Byte>)
    ensures |r| == m
  {
    if m == 0 then []
    else
      Pow2Values();
      FromBitsBound(bs, 8 * (m - 1), 8);
      Packed(bs, m - 1) + [FromBits(bs, 8 * (m - 1), 8)]
  }

  lemma {:induction false} PackedAt(bs: seq<Bit>, m: nat, j: nat)
    requires j < m
    ensures Packed(bs, m)[j] == FromBits(bs, 8 * j, 8)
  {
    if j < m - 1 {
      PackedAt(bs, m - 1, j);
    }
  }

  function Pack(bs: seq<Bit>): (r: seq<Byte>)
    ensures |bs| <= 8 * |r| < |bs| + 8
  {
    Packed(bs, (|bs| + 7) / 8)
  }

  /** Packing puts every bit where reading looks for it. */
  lemma PackCarries(bs: seq<Bit>)
    ensures Carries(Pack(bs), 0, bs)
  {
    hide StreamBit, Pack;
    forall i: nat | i < |bs| ensures StreamBit(Pack(bs), 0 + i) == bs[i] {
      PackBit(bs, i / 8, i % 8);
    }
  }

  lemma PackBit(bs: seq<Bit>, j: nat, k: nat)
    requires k < 8 && 8 * j + k < |bs|
    ensures StreamBit(Pack(bs), 8 * j + k) == bs[8 * j + k]
  {
    hide BitOf, FromBits, Packed;
    PackedAt(bs, (|bs| + 7) / 8, j);
    FromBitsAt(bs, 8 * j, 8, k);
  }

  // ---------------------------------------------------------------- code lengths (section 3.2.7)

  /** A way of writing code lengths: one length, the last one again, or zeros. */
  datatype LengthOp = Length(v: nat) | Again(n: nat) | Zeros(n: nat)

  function OpSymbol(op: LengthOp): nat
  {
    match op
    case Length(v) => v
    case Again(_) => 16
    case Zeros(n) => if n <= 10 then 17 else 18
  }

  /** The lengths it stands for, after those written so far. */
  function OpLengths(lens: seq<nat>, op: LengthOp): seq<nat>
    requires op.Again? ==> lens != []
  {
    match op
    case Length(v) => [v]
    case Again(n) => Repeat(lens[|lens| - 1], n)
    case Zeros(n) => Repeat(0, n)
  }

  /** The code length code has the symbol, and the repetition is one that it can say. */
  predicate OpWritable(cl: seq<nat>, lens: seq<nat>, op: LengthOp)
  {
    OpSymbol(op) < |cl| && cl[OpSymbol(op)] > 0 &&
    match op
    case Length(v) => v <= 15
    case Again(n) => 3 <= n <= 6 && lens != []
    case Zeros(n) => 3 <= n <= 138
  }

  function OpExtra(op: LengthOp): nat
  {
    match op
    case Length(_) => 0
    case Again(n) => if n < 3 then 0 else n - 3
    case Zeros(n) => if n <= 10 then (if n < 3 then 0 else n - 3) else n - 11
  }

  function OpBits(cl: seq<nat>, op: LengthOp): seq<Bit>
    requires OpSymbol(op) < |cl| && cl[OpSymbol(op)] > 0
  {
    CodeBits(cl, OpSymbol(op)) + if op.Length? then [] else LsbBits(OpExtra(op), RepeatExtra(OpSymbol(op)))
  }

  ghost predicate OpsWritable(cl: seq<nat>, lens: seq<nat>, ops: seq<LengthOp>)
    decreases |ops|
  {
    ops == [] || (OpWritable(cl, lens, ops[0]) && OpsWritable(cl, lens + OpLengths(lens, ops[0]), ops[1..]))
  }

  function Written(cl: seq<nat>, lens: seq<nat>, ops: seq<LengthOp>): (r: seq<nat>)
    requires OpsWritable(cl, lens, ops)
    ensures |r| >= |lens|
    decreases |ops|
  {
    if ops == [] then lens else Written(cl, lens + OpLengths(lens, ops[0]), ops[1..])
  }

  function OpsBits(cl: seq<nat>, lens: seq<nat>, ops: seq<LengthOp>): seq<Bit>
    requires OpsWritable(cl, lens, ops)
    decreases |ops|
  {
    if ops == [] then [] else OpBits(cl, ops[0]) + OpsBits(cl, lens + OpLengths(lens, ops[0]), ops[1..])
  }

  lemma OpExtraFits(op: LengthOp, cl: seq<nat>, lens: seq<nat>)
    requires OpWritable(cl, lens, op) && !op.Length?
    ensures OpExtra(op) < Pow2(RepeatExtra(OpSymbol(op)))
  {
    SmallPowers();
    assert Pow2(7) == 128 by { LargePowers(); }
  }

  /** Where a code length symbol was written, it is read. */
  lemma OpRead(cl: seq<nat>, data: seq<Byte>, p: nat, lens: seq<nat>, total: nat, op: LengthOp)
    requires ValidLengths(cl) && Kraft(cl) && OpWritable(cl, lens, op) && Carries(data, p, OpBits(cl, op))
    requires (forall i | 0 <= i < |lens| :: lens[i] <= 15) && |lens| + |OpLengths(lens, op)| <= total && |lens| < total
    ensures LengthSymbol(cl, data, p, lens, total) == Lengths(p + |OpBits(cl, op)|, lens + OpLengths(lens, op))
  {
    hide Kraft, Carries, CodeBits, LsbBits, SymbolAt, Take, Pow2;
    var c := OpSymbol(op);
    if op.Length? {
      assert CodeBits(cl, c) + [] == CodeBits(cl, c);
      SymbolRead(cl, c, data, p);
    } else {
      CarriesParts(data, p, CodeBits(cl, c), LsbBits(OpExtra(op), RepeatExtra(c)));
      SymbolRead(cl, c, data, p);
      OpExtraFits(op, cl, lens);
      LsbCarried(data, p + cl[c], OpExtra(op), RepeatExtra(c));
    }
  }

  lemma OpGrows(cl: seq<nat>, lens: seq<nat>, op: LengthOp)
    requires OpWritable(cl, lens, op) && forall i | 0 <= i < |lens| :: lens[i] <= 15
    ensures |OpLengths(lens, op)| >= 1 && forall i | 0 <= i < |lens + OpLengths(lens, op)| :: (lens + OpLengths(lens, op))[i] <= 15
  {
  }

  /** However code lengths were written, they are read. */
  lemma {:induction false} LengthsRead(cl: seq<nat>, data: seq<Byte>, p: nat, lens: seq<nat>, ops: seq<LengthOp>)
    requires ValidLengths(cl) && Kraft(cl) && OpsWritable(cl, lens, ops) && Carries(data, p, OpsBits(cl, lens, ops))
    requires forall i | 0 <= i < |lens| :: lens[i] <= 15
    ensures ReadLengths(cl, data, p, lens, |Written(cl, lens, ops)|) ==
            Lengths(p + |OpsBits(cl, lens, ops)|, Written(cl, lens, ops))
    decreases |ops|
  {
    hide Kraft, Carries, OpBits, LengthSymbol, OpLengths;
    if ops != [] {
      var lens' := lens + OpLengths(lens, ops[0]);
      CarriesParts(data, p, OpBits(cl, ops[0]), OpsBits(cl, lens', ops[1..]));
      OpGrows(cl, lens, ops[0]);
      OpRead(cl, data, p, lens, |Written(cl, lens, ops)|, ops[0]);
      LengthsRead(cl, data, p + |OpBits(cl, ops[0])|, lens', ops[1..]);
    }
  }

  /** Where the length of a code length symbol is sent. */
  function OrderOf(s: nat): (i: nat)
    requires s < 19
    ensures i < 19 && CodeOrder(i) == s
  {
    [3, 17, 15, 13, 11, 9, 7, 5, 4, 6, 8, 10, 12, 14, 16, 18, 0, 1, 2][s]
  }

  lemma OrderUnique(i: nat)
    requires i < 19
    ensures OrderOf(CodeOrder(i)) == i
  {
  }

  /** All nineteen lengths of the code length code, three bits each, in their order. */
  function SizesBits(cl: seq<nat>, n: nat): (r: seq<Bit>)
    requires |cl| == 19 && n <= 19
    ensures |r| == 3 * n
  {
    if n == 0 then [] else SizesBits(cl, n - 1) + LsbBits(cl[CodeOrder(n - 1)], 3)
  }

  lemma {:induction false} SizesRead(cl: seq<nat>, data: seq<Byte>, p: nat, n: nat, s: nat)
    requires |cl| == 19 && (forall i | 0 <= i < 19 :: cl[i] <= 7) && n <= 19 && s < 19 && Carries(data, p, SizesBits(cl, n))
    ensures CodeLengthSizes(data, p, n)[s] == if OrderOf(s) < n then cl[s] else 0
    decreases n
  {
    hide Carries, LsbBits, CodeOrder, OrderOf, Take;
    if n > 0 {
      CarriesParts(data, p, SizesBits(cl, n - 1), LsbBits(cl[CodeOrder(n - 1)], 3));
      SizesRead(cl, data, p, n - 1, s);
      assert Pow2(3) == 8 by { SmallPowers(); }
      LsbCarried(data, p + 3 * (n - 1), cl[CodeOrder(n - 1)], 3);
      OrderUnique(n - 1);
    }
  }

  lemma AllSizesRead(cl: seq<nat>, data: seq<Byte>, p: nat)
    requires |cl| == 19 && (forall i | 0 <= i < 19 :: cl[i] <= 7) && Carries(data, p, SizesBits(cl, 19))
    ensures CodeLengthSizes(data, p, 19) == cl
  {
    hide Carries, SizesBits, CodeLengthSizes, OrderOf;
    forall s: nat | s < 19 ensures CodeLengthSizes(data, p, 19)[s] == cl[s] {
      SizesRead(cl, data, p, 19, s);
    }
  }

  // ---------------------------------------------------------------- a whole stream

  /** A block of the fixed codes, or of two codes with a way of writing their lengths. */
  datatype Block = FixedBlock(ts: seq<Token>)
                 | DynamicBlock(ll: seq<nat>, dl: seq<nat>, cl: seq<nat>, ops: seq<LengthOp>, ts: seq<Token>)

  ghost predicate IsCode(lens: seq<nat>)
  {
    ValidLengths(lens) && Kraft(lens)
  }

  /** The lengths of the two codes are what the operations write. */
  ghost predicate HeaderWritable(ll: seq<nat>, dl: seq<nat>, cl: seq<nat>, ops: seq<LengthOp>)
  {
    IsCode(ll) && IsCode(dl) && IsCode(cl) && 257 <= |ll| <= 288 && 1 <= |dl| <= 32 &&
    |cl| == 19 && (forall i | 0 <= i < 19 :: cl[i] <= 7) && OpsWritable(cl, [], ops) && Written(cl, [], ops) == ll + dl
  }

  ghost predicate Writable(b: Block)
  {
    match b
    case FixedBlock(ts) => forall i | 0 <= i < |ts| :: InRange(ts[i])
    case DynamicBlock(ll, dl, cl, ops, ts) => HeaderWritable(ll, dl, cl, ops) && ll[256] > 0 && AllEncodable(ll, dl, ts)
  }

  /** A code length code of four bits for every length, without repetitions. */
  const PLAIN: seq<nat> := Repeat(4, 16) + Repeat(0, 3)

  function PlainOps(lens: seq<nat>): seq<LengthOp>
  {
    if lens == [] then [] else [Length(lens[0])] + PlainOps(lens[1..])
  }

  lemma {:induction false} PlainShare(n: nat)
    requires n <= 19
    ensures |PLAIN| == 19 && (forall i | 0 <= i < 19 :: PLAIN[i] <= 7) && KraftSum(PLAIN, n) == if n <= 16 then 2048 * n else 32768
  {
    if n > 0 {
      PlainShare(n - 1);
      assert Pow2(11) == 2048 by { LargePowers(); }
    }
  }

  lemma PlainSymbols()
    ensures |PLAIN| == 19 && forall v | 0 <= v < 16 :: PLAIN[v] == 4
  {
    hide Repeat;
  }

  lemma {:induction false} PlainWritten(pre: seq<nat>, lens: seq<nat>)
    requires forall i | 0 <= i < |lens| :: lens[i] <= 15
    ensures OpsWritable(PLAIN, pre, PlainOps(lens)) && Written(PLAIN, pre, PlainOps(lens)) == pre + lens
    decreases |lens|
  {
    hide PLAIN;
    PlainSymbols();
    if lens == [] {
      assert pre + [] == pre;
    } else {
      PlainWritten(pre + [lens[0]], lens[1..]);
      assert pre + [lens[0]] + lens[1..] == pre + lens;
    }
  }

  /** So every two codes can be written. */
  lemma EveryCodeWritable(ll: seq<nat>, dl: seq<nat>)
    requires IsCode(ll) && IsCode(dl) && 257 <= |ll| <= 288 && 1 <= |dl| <= 32
    ensures HeaderWritable(ll, dl, PLAIN, PlainOps(ll + dl))
  {
    hide KraftSum, OpsWritable, Written, PLAIN, Repeat;
    PlainShare(19);
    Pow2Values();
    PlainWritten([], ll + dl);
    assert [] + (ll + dl) == ll + dl;
  }

  /** The counts, the code length code and the lengths. */
  function HeaderBits(ll: seq<nat>, dl: seq<nat>, cl: seq<nat>, ops: seq<LengthOp>): seq<Bit>
    requires HeaderWritable(ll, dl, cl, ops)
  {
    LsbBits(|ll| - 257, 5) + (LsbBits(|dl| - 1, 5) + (LsbBits(15, 4) + (SizesBits(cl, 19) + OpsBits(cl, [], ops))))
  }

  lemma HeaderRead(data: seq<Byte>, p: nat, ll: seq<nat>, dl: seq<nat>, cl: seq<nat>, ops: seq<LengthOp>)
    requires HeaderWritable(ll, dl, cl, ops) && Carries(data, p, HeaderBits(ll, dl, cl, ops))
    ensures DynamicCodes(data, p) == Codes(p + |HeaderBits(ll, dl, cl, ops)|, ll, dl)
  {
    hide Carries, LsbBits, SizesBits, OpsBits, OpsWritable, Kraft, Take, CodeLengthSizes, ReadLengths, Written, Pow2;
    var opsBits := OpsBits(cl, [], ops);
    var tail := SizesBits(cl, 19) + opsBits;
    CarriesParts(data, p, LsbBits(|ll| - 257, 5), LsbBits(|dl| - 1, 5) + (LsbBits(15, 4) + tail));
    CarriesParts(data, p + 5, LsbBits(|dl| - 1, 5), LsbBits(15, 4) + tail);
    CarriesParts(data, p + 10, LsbBits(15, 4), tail);
    CarriesParts(data, p + 14, SizesBits(cl, 19), opsBits);
    SmallPowers();
    LsbCarried(data, p, |ll| - 257, 5);
    LsbCarried(data, p + 5, |dl| - 1, 5);
    LsbCarried(data, p + 10, 15, 4);
    AllSizesRead(cl, data, p + 14);
    LengthsRead(cl, data, p + 71, [], ops);
    assert (ll + dl)[..|ll|] == ll && (ll + dl)[|ll|..] == dl;
  }

  /** The fixed codes have every symbol, so they can say every token. */
  lemma FixedSaysAll(t: Token)
    requires InRange(t)
    ensures Encodable(FIXED_LL, FIXED_DL, t)
  {
    hide LengthIndex, DistIndex, FIXED_LL, FIXED_DL;
    FixedLengthsValid();
    FixedPresent();
  }

  lemma FixedPresent()
    ensures |FIXED_LL| == 288 && (forall i | 0 <= i < 288 :: FIXED_LL[i] > 0) && |FIXED_DL| == 32 && forall i | 0 <= i < 32 :: FIXED_DL[i] > 0
  {
    hide Repeat;
  }

  lemma AllFixed(ts: seq<Token>)
    requires forall i | 0 <= i < |ts| :: InRange(ts[i])
    ensures AllEncodable(FIXED_LL, FIXED_DL, ts) && |FIXED_LL| == 288 && FIXED_LL[256] > 0
  {
    hide Encodable, InRange, FIXED_LL, FIXED_DL;
    FixedPresent();
    forall i | 0 <= i < |ts| ensures Encodable(FIXED_LL, FIXED_DL, ts[i]) {
      FixedSaysAll(ts[i]);
    }
  }

  lemma FixedKraft()
    ensures IsCode(FIXED_LL) && IsCode(FIXED_DL)
  {
    hide FIXED_LL, FIXED_DL, KraftSum;
    FixedCodesComplete();
  }

  function Kind(b: Block): nat
  {
    if b.FixedBlock? then 1 else 2
  }

  function BodyBits(b: Block): seq<Bit>
    requires Writable(b)
  {
    match b
    case FixedBlock(ts) => AllFixed(ts); BlockBits(FIXED_LL, FIXED_DL, ts)
    case DynamicBlock(ll, dl, cl, ops, ts) => HeaderBits(ll, dl, cl, ops) + BlockBits(ll, dl, ts)
  }

  lemma BodyRead(data: seq<Byte>, p: nat, out: seq<Byte>, b: Block)
    requires Writable(b) && Carries(data, p, BodyBits(b)) && Expanded(out, b.ts).Some?
    ensures BlockBody(Kind(b), data, p, out) == Done(p + |BodyBits(b)|, Expanded(out, b.ts).value)
  {
    hide FIXED_LL, FIXED_DL, BlockBits, HeaderBits, CompressedBlock, DynamicCodes, Expanded, Kraft, InRange, Carries, AllEncodable, OpsWritable, Written;
    match b
    case FixedBlock(ts) =>
      AllFixed(ts);
      FixedKraft();
      BlockRead(FIXED_LL, FIXED_DL, data, p, out, ts);
    case DynamicBlock(ll, dl, cl, ops, ts) =>
      CarriesParts(data, p, HeaderBits(ll, dl, cl, ops), BlockBits(ll, dl, ts));
      HeaderRead(data, p, ll, dl, cl, ops);
      BlockRead(ll, dl, data, p + |HeaderBits(ll, dl, cl, ops)|, out, ts);
  }

  /** A block with its three header bits. */
  function WholeBits(b: Block, last: bool): seq<Bit>
    requires Writable(b)
  {
    LsbBits(if last then 1 else 0, 1) + (LsbBits(Kind(b), 2) + BodyBits(b))
  }

  lemma WholeRead(data: seq<Byte>, p: nat, out: seq<Byte>, b: Block, last: bool)
    requires Writable(b) && Carries(data, p, WholeBits(b, last)) && Expanded(out, b.ts).Some?
    ensures var q, o := p + |WholeBits(b, last)|, Expanded(out, b.ts).value;
            ReadBlock(data, p, out) == if last then Done(q, o) else Running(q, o)
  {
    hide Writable, BodyBits, BlockBody, Expanded, Carries, LsbBits, Take, Pow2;
    var final := if last then 1 else 0;
    CarriesParts(data, p, LsbBits(final, 1), LsbBits(Kind(b), 2) + BodyBits(b));
    CarriesParts(data, p + 1, LsbBits(Kind(b), 2), BodyBits(b));
    SmallPowers();
    LsbCarried(data, p, final, 1);
    LsbCarried(data, p + 1, Kind(b), 2);
    BodyRead(data, p + 3, out, b);
  }

  ghost predicate AllWritable(bs: seq<Block>)
  {
    forall i | 0 <= i < |bs| :: Writable(bs[i])
  }

  /** The blocks one after the other, the last one marked as final. */
  function StreamBits(bs: seq<Block>): seq<Bit>
    requires AllWritable(bs)
  {
    if bs == [] then [] else WholeBits(bs[0], |bs| == 1) + StreamBits(bs[1..])
  }

  /** What the blocks stand for; copies may reach back into earlier blocks. */
  function Meaning(out: seq<Byte>, bs: seq<Block>): Option<seq<Byte>>
    decreases |bs|
  {
    if bs == [] then Some(out)
    else
      match Expanded(out, bs[0].ts)
      case None => None
      case Some(o) => Meaning(o, bs[1..])
  }

  lemma {:induction false} StreamRead(data: seq<Byte>, p: nat, out: seq<Byte>, bs: seq<Block>)
    requires bs != [] && AllWritable(bs) && Carries(data, p, StreamBits(bs)) && Meaning(out, bs).Some?
    ensures ReadBlocks(data, p, out, |bs|) == Done(p + |StreamBits(bs)|, Meaning(out, bs).value)
    decreases |bs|
  {
    hide Writable, WholeBits, Expanded, Carries, ReadBlock, ReadBlocks;
    var last := |bs| == 1;
    CarriesParts(data, p, WholeBits(bs[0], last), StreamBits(bs[1..]));
    WholeRead(data, p, out, bs[0], last);
    if last {
      assert StreamBits(bs) == WholeBits(bs[0], last) + [];
      ReadOneBlock(data, p, out);
    } else {
      ReadBlocksFront(data, p, out, |bs| - 1);
      StreamRead(data, p + |WholeBits(bs[0], last)|, Expanded(out, bs[0].ts).value, bs[1..]);
    }
  }

  /** For every sequence of fixed and dynamic blocks that stands for something, the packed stream means exactly that. */
  lemma EncodeRoundTrip(bs: seq<Block>)
    requires bs != [] && AllWritable(bs) && Meaning([], bs).Some?
    ensures var bits := StreamBits(bs); Inflated(Pack(bits), 0) == Done(|bits|, Meaning([], bs).value)
  {
    hide AllWritable, StreamBits, Inflated, Meaning, Pack, Carries, ReadBlocks;
    var bits := StreamBits(bs);
    PackCarries(bits);
    StreamRead(Pack(bits), 0, [], bs);
    StreamMeaning(Pack(bits), 0, |bs|);
  }

  /** And the decoder returns it, from any initial size of a growing buffer. */
  method EncodeAndInflate(bs: seq<Block>, initialSize: nat) returns (ok: bool, out: seq<Byte>)
    requires bs != [] && AllWritable(bs) && 1 <= initialSize <= UINT_MAX
    requires Meaning([], bs).Some? && |Meaning([], bs).value| <= 0x8000_0000
    ensures ok && out == Meaning([], bs).value
  {
    hide AllWritable, StreamBits, Inflated, StreamSupply, Meaning, Packed;
    EncodeRoundTrip(bs);
    InsideIsSupplied(Pack(StreamBits(bs)), 0);
    ok, out := DoZlib(Pack(StreamBits(bs)), initialSize, true, false);
  }
}
