/** A stream means the same, and exhausts the supply of bits in the same way, wherever in the input it starts:
    in front of it there may be any bytes, such as the two of the zlib header. */
module Shift {
  import opened Wrappers
  import opened Bits
  import opened Canonical
  import opened Deflate
  import opened Refill

  // ---------------------------------------------------------------- what is read

  lemma BitShift(pre: seq<Byte>, d: seq<Byte>, p: nat)
    ensures StreamBit(pre + d, p + 8 * |pre|) == StreamBit(d, p)
  {
    var k := |pre|;
    assert (p + 8 * k) / 8 == p / 8 + k && (p + 8 * k) % 8 == p % 8;
  }

  lemma {:induction false} TakeShift(pre: seq<Byte>, d: seq<Byte>, p: nat, n: nat)
    ensures Take(pre + d, p + 8 * |pre|, n) == Take(d, p, n)
    decreases n
  {
    hide StreamBit;
    if n > 0 {
      BitShift(pre, d, p);
      TakeShift(pre, d, p + 1, n - 1);
    }
  }

  lemma {:induction false} MsbShift(pre: seq<Byte>, d: seq<Byte>, p: nat, n: nat)
    ensures Msb(pre + d, p + 8 * |pre|, n) == Msb(d, p, n)
    decreases n
  {
    hide StreamBit;
    if n > 0 {
      BitShift(pre, d, p + n - 1);
      MsbShift(pre, d, p, n - 1);
    }
  }

  lemma SymbolShift(lens: seq<nat>, pre: seq<Byte>, d: seq<Byte>, p: nat)
    ensures SymbolAt(lens, pre + d, p + 8 * |pre|) == SymbolAt(lens, d, p)
  {
    hide SymbolAt, Code, Msb;
    var s, t := SymbolAt(lens, d, p), SymbolAt(lens, pre + d, p + 8 * |pre|);
    if s >= 0 {
      MsbShift(pre, d, p, lens[s]);
      SymbolAtIs(lens, s, pre + d, p + 8 * |pre|);
    } else if t >= 0 {
      MsbShift(pre, d, p, lens[t]);
      SymbolAtIs(lens, t, d, p);
    }
  }

  function StepOn(t: Step, s: nat): Step
  {
    match t
    case Tok(tok, q) => Tok(tok, q + s)
    case EndOfBlock(q) => EndOfBlock(q + s)
    case Corrupt => Corrupt
  }

  function OutcomeOn(r: Outcome, s: nat): Outcome
  {
    match r
    case Running(q, o) => Running(q + s, o)
    case Done(q, o) => Done(q + s, o)
    case Failed => Failed
  }

  lemma DistanceShift(i: nat, dl: seq<nat>, pre: seq<Byte>, d: seq<Byte>, p: nat)
    requires i < 29
    ensures DistanceToken(i, dl, pre + d, p + 8 * |pre|) == StepOn(DistanceToken(i, dl, d, p), 8 * |pre|)
  {
    hide SymbolAt, Take, LengthBase, LengthExtra, DistBase, DistExtra;
    var p2 := p + LengthExtra(i);
    TakeShift(pre, d, p, LengthExtra(i));
    SymbolShift(dl, pre, d, p2);
    var s := SymbolAt(dl, d, p2);
    if 0 <= s < 30 {
      TakeShift(pre, d, p2 + dl[s], DistExtra(s));
    }
  }

  lemma TokenShift(ll: seq<nat>, dl: seq<nat>, pre: seq<Byte>, d: seq<Byte>, p: nat)
    requires |ll| <= 288
    ensures NextToken(ll, dl, pre + d, p + 8 * |pre|) == StepOn(NextToken(ll, dl, d, p), 8 * |pre|)
  {
    hide SymbolAt, DistanceToken;
    SymbolShift(ll, pre, d, p);
    var s := SymbolAt(ll, d, p);
    if 257 <= s < 286 {
      DistanceShift(s - 257, dl, pre, d, p + ll[s]);
    }
  }

  lemma {:induction false} TokensShift(ll: seq<nat>, dl: seq<nat>, pre: seq<Byte>, d: seq<Byte>, p: nat, out: seq<Byte>, n: nat)
    requires |ll| <= 288
    ensures ReadTokens(ll, dl, pre + d, p + 8 * |pre|, out, n) == OutcomeOn(ReadTokens(ll, dl, d, p, out, n), 8 * |pre|)
    decreases n
  {
    hide NextToken;
    if n > 0 {
      TokensShift(ll, dl, pre, d, p, out, n - 1);
      var r := ReadTokens(ll, dl, d, p, out, n - 1);
      if r.Running? {
        TokenShift(ll, dl, pre, d, r.p);
      }
    }
  }

  lemma CompressedShift(ll: seq<nat>, dl: seq<nat>, pre: seq<Byte>, d: seq<Byte>, p: nat, out: seq<Byte>)
    requires |ll| <= 288
    ensures CompressedBlock(ll, dl, pre + d, p + 8 * |pre|, out) == OutcomeOn(CompressedBlock(ll, dl, d, p, out), 8 * |pre|)
  {
    hide ReadTokens;
    var D, q := pre + d, p + 8 * |pre|;
    if exists n: nat :: ReadTokens(ll, dl, d, p, out, n).Done? {
      var n: nat :| ReadTokens(ll, dl, d, p, out, n).Done?;
      TokensShift(ll, dl, pre, d, p, out, n);
      BlockMeaning(ll, dl, d, p, out, n);
      BlockMeaning(ll, dl, D, q, out, n);
    } else if exists n: nat :: ReadTokens(ll, dl, D, q, out, n).Done? {
      var n: nat :| ReadTokens(ll, dl, D, q, out, n).Done?;
      TokensShift(ll, dl, pre, d, p, out, n);
    }
  }

  lemma {:induction false} SizesShift(pre: seq<Byte>, d: seq<Byte>, p: nat, n: nat)
    requires n <= 19
    ensures CodeLengthSizes(pre + d, p + 8 * |pre|, n) == CodeLengthSizes(d, p, n)
    decreases n
  {
    hide Take, CodeOrder;
    if n > 0 {
      SizesShift(pre, d, p, n - 1);
      TakeShift(pre, d, p + 3 * (n - 1), 3);
    }
  }

  function LengthsOn(r: Lengths, s: nat): Lengths
  {
    match r
    case Lengths(q, l) => Lengths(q + s, l)
    case BadLengths => BadLengths
  }

  lemma LengthShift(cl: seq<nat>, pre: seq<Byte>, d: seq<Byte>, p: nat, lens: seq<nat>, total: nat)
    requires |lens| < total && forall i | 0 <= i < |lens| :: lens[i] <= 15
    ensures LengthSymbol(cl, pre + d, p + 8 * |pre|, lens, total) == LengthsOn(LengthSymbol(cl, d, p, lens, total), 8 * |pre|)
  {
    hide SymbolAt, Take, RepeatExtra, RepeatBase;
    SymbolShift(cl, pre, d, p);
    var c := SymbolAt(cl, d, p);
    if 16 <= c < 19 {
      TakeShift(pre, d, p + cl[c], RepeatExtra(c));
    }
  }

  lemma {:induction false} LengthsShift(cl: seq<nat>, pre: seq<Byte>, d: seq<Byte>, p: nat, lens: seq<nat>, total: nat)
    requires |lens| <= total && forall i | 0 <= i < |lens| :: lens[i] <= 15
    ensures ReadLengths(cl, pre + d, p + 8 * |pre|, lens, total) == LengthsOn(ReadLengths(cl, d, p, lens, total), 8 * |pre|)
    decreases total - |lens|
  {
    hide LengthSymbol;
    if |lens| < total {
      LengthShift(cl, pre, d, p, lens, total);
      var r := LengthSymbol(cl, d, p, lens, total);
      if r.Lengths? {
        LengthsShift(cl, pre, d, r.p, r.lens, total);
      }
    }
  }

  function CodesOn(c: Codes, s: nat): Codes
  {
    match c
    case Codes(q, ll, dl) => Codes(q + s, ll, dl)
    case BadCodes => BadCodes
  }

  lemma CountsShift(pre: seq<Byte>, d: seq<Byte>, p: nat)
    ensures var s := 8 * |pre|;
            Take(pre + d, p + s, 5) == Take(d, p, 5) && Take(pre + d, p + s + 5, 5) == Take(d, p + 5, 5) &&
            Take(pre + d, p + s + 10, 4) == Take(d, p + 10, 4)
  {
    hide Take;
    TakeShift(pre, d, p, 5);
    TakeShift(pre, d, p + 5, 5);
    TakeShift(pre, d, p + 10, 4);
  }

  lemma CodesShift(pre: seq<Byte>, d: seq<Byte>, p: nat)
    ensures DynamicCodes(pre + d, p + 8 * |pre|) == CodesOn(DynamicCodes(d, p), 8 * |pre|)
  {
    hide Take, CodeLengthSizes, ReadLengths, Kraft;
    HeaderCounts(d, p);
    CountsShift(pre, d, p);
    var total, hclen := Take(d, p, 5) + 257 + (Take(d, p + 5, 5) + 1), Take(d, p + 10, 4) + 4;
    SizesShift(pre, d, p + 14, hclen);
    LengthsShift(CodeLengthSizes(d, p + 14, hclen), pre, d, p + 14 + 3 * hclen, [], total);
  }

  lemma WordShift(pre: seq<Byte>, d: seq<Byte>, a: nat)
    ensures Word(pre + d, a + |pre|) == Word(d, a)
  {
  }

  lemma StoredShift(pre: seq<Byte>, d: seq<Byte>, a: nat, out: seq<Byte>)
    ensures StoredBlock(pre + d, a + |pre|, out) == OutcomeOn(StoredBlock(d, a, out), 8 * |pre|)
  {
    hide Word;
    WordShift(pre, d, a);
    WordShift(pre, d, a + 2);
    var len := Word(d, a);
    if a + 4 + len <= |d| {
      assert (pre + d)[a + |pre| + 4..a + |pre| + 4 + len] == d[a + 4..a + 4 + len];
    }
  }

  lemma BodyShift(kind: nat, pre: seq<Byte>, d: seq<Byte>, p: nat, out: seq<Byte>)
    ensures BlockBody(kind, pre + d, p + 8 * |pre|, out) == OutcomeOn(BlockBody(kind, d, p, out), 8 * |pre|)
  {
    hide StoredBlock, CompressedBlock, DynamicCodes, FIXED_LL, FIXED_DL;
    FixedLengthsValid();
    assert (p + 8 * |pre| + 7) / 8 == (p + 7) / 8 + |pre|;
    if kind == 0 {
      StoredShift(pre, d, (p + 7) / 8, out);
    } else if kind == 1 {
      CompressedShift(FIXED_LL, FIXED_DL, pre, d, p, out);
    } else if kind == 2 {
      CodesShift(pre, d, p);
      var c := DynamicCodes(d, p);
      if c.Codes? {
        CompressedShift(c.ll, c.dl, pre, d, c.p, out);
      }
    }
  }

  lemma BlockShift(pre: seq<Byte>, d: seq<Byte>, p: nat, out: seq<Byte>)
    ensures ReadBlock(pre + d, p + 8 * |pre|, out) == OutcomeOn(ReadBlock(d, p, out), 8 * |pre|)
  {
    hide BlockBody, Take;
    TakeShift(pre, d, p, 1);
    TakeShift(pre, d, p + 1, 2);
    BodyShift(Take(d, p + 1, 2), pre, d, p + 3, out);
  }

  lemma {:induction false} BlocksShift(pre: seq<Byte>, d: seq<Byte>, p: nat, out: seq<Byte>, n: nat)
    ensures ReadBlocks(pre + d, p + 8 * |pre|, out, n) == OutcomeOn(ReadBlocks(d, p, out, n), 8 * |pre|)
    decreases n
  {
    hide ReadBlock;
    if n > 0 {
      BlocksShift(pre, d, p, out, n - 1);
      var r := ReadBlocks(d, p, out, n - 1);
      if r.Running? {
        BlockShift(pre, d, r.p, r.out);
      }
    }
  }

  /** The meaning of a stream does not depend on where it starts. */
  lemma MeaningShift(pre: seq<Byte>, d: seq<Byte>, p: nat)
    ensures Inflated(pre + d, p + 8 * |pre|) == OutcomeOn(Inflated(d, p), 8 * |pre|)
  {
    hide ReadBlocks;
    var D, q := pre + d, p + 8 * |pre|;
    if exists n: nat :: ReadBlocks(d, p, [], n).Done? {
      var n: nat :| ReadBlocks(d, p, [], n).Done?;
      BlocksShift(pre, d, p, [], n);
      StreamMeaning(d, p, n);
      StreamMeaning(D, q, n);
    } else if exists n: nat :: ReadBlocks(D, q, [], n).Done? {
      var n: nat :| ReadBlocks(D, q, [], n).Done?;
      BlocksShift(pre, d, p, [], n);
    }
  }

  // ---------------------------------------------------------------- how the supply lasts

  function SupplyOn(w: Supply, k: nat): Supply
  {
    if w.Dry? then Dry else w.(bytes := w.bytes + k)
  }

  lemma ReceiveOn(w: Supply, p: nat, n: nat, k: nat)
    ensures ReceiveSupply(SupplyOn(w, k), p + 8 * k, n) == SupplyOn(ReceiveSupply(w, p, n), k)
  {
    assert (p + 8 * k) / 8 == p / 8 + k;
  }

  lemma DecodeOn(pre: seq<Byte>, d: seq<Byte>, w: Supply, p: nat)
    ensures DecodeSupply(pre + d, SupplyOn(w, |pre|), p + 8 * |pre|) == SupplyOn(DecodeSupply(d, w, p), |pre|)
  {
    assert (p + 8 * |pre|) / 8 == p / 8 + |pre|;
  }

  lemma EndOn(w: Supply, p: nat, k: nat)
    ensures EndSupply(SupplyOn(w, k), p + 8 * k) == SupplyOn(EndSupply(w, p), k)
  {
  }

  lemma DistanceOn(i: nat, dl: seq<nat>, pre: seq<Byte>, d: seq<Byte>, p: nat, w: Supply)
    requires i < 29
    ensures DistanceSupply(i, dl, pre + d, p + 8 * |pre|, SupplyOn(w, |pre|)) == SupplyOn(DistanceSupply(i, dl, d, p, w), |pre|)
  {
    hide SymbolAt, ReceiveSupply, DecodeSupply, LengthExtra, DistExtra, SupplyOn;
    var p2 := p + LengthExtra(i);
    ReceiveOn(w, p, LengthExtra(i), |pre|);
    var w2 := ReceiveSupply(w, p, LengthExtra(i));
    DecodeOn(pre, d, w2, p2);
    SymbolShift(dl, pre, d, p2);
    var s := SymbolAt(dl, d, p2);
    if 0 <= s < 30 {
      ReceiveOn(DecodeSupply(d, w2, p2), p2 + dl[s], DistExtra(s), |pre|);
    }
  }

  lemma TokenOn(ll: seq<nat>, dl: seq<nat>, pre: seq<Byte>, d: seq<Byte>, p: nat, w: Supply)
    requires |ll| <= 288
    ensures TokenSupply(ll, dl, pre + d, p + 8 * |pre|, SupplyOn(w, |pre|)) == SupplyOn(TokenSupply(ll, dl, d, p, w), |pre|)
  {
    hide SymbolAt, DecodeSupply, EndSupply, DistanceSupply, SupplyOn;
    DecodeOn(pre, d, w, p);
    SymbolShift(ll, pre, d, p);
    var w1, s := DecodeSupply(d, w, p), SymbolAt(ll, d, p);
    if s == 256 {
      EndOn(w1, p + ll[s], |pre|);
    } else if 257 <= s < 286 {
      DistanceOn(s - 257, dl, pre, d, p + ll[s], w1);
    }
  }

  lemma {:induction false} TokensOn(ll: seq<nat>, dl: seq<nat>, pre: seq<Byte>, d: seq<Byte>, p: nat, out: seq<Byte>, w: Supply, n: nat)
    requires |ll| <= 288
    ensures TokensSupply(ll, dl, pre + d, p + 8 * |pre|, out, SupplyOn(w, |pre|), n) == SupplyOn(TokensSupply(ll, dl, d, p, out, w, n), |pre|)
    decreases n
  {
    hide TokenSupply, ReadToken, SupplyOn;
    if n > 0 {
      TokensOn(ll, dl, pre, d, p, out, w, n - 1);
      TokensShift(ll, dl, pre, d, p, out, n - 1);
      var r := ReadTokens(ll, dl, d, p, out, n - 1);
      if r.Running? {
        TokenOn(ll, dl, pre, d, r.p, TokensSupply(ll, dl, d, p, out, w, n - 1));
      }
    }
  }

  lemma CompressedOn(ll: seq<nat>, dl: seq<nat>, pre: seq<Byte>, d: seq<Byte>, p: nat, out: seq<Byte>, w: Supply)
    requires |ll| <= 288
    ensures CompressedSupply(ll, dl, pre + d, p + 8 * |pre|, out, SupplyOn(w, |pre|)) == SupplyOn(CompressedSupply(ll, dl, d, p, out, w), |pre|)
  {
    hide ReadTokens, TokensSupply, SupplyOn;
    var D, q, w' := pre + d, p + 8 * |pre|, SupplyOn(w, |pre|);
    if exists n: nat :: ReadTokens(ll, dl, d, p, out, n).Done? {
      var n: nat :| ReadTokens(ll, dl, d, p, out, n).Done?;
      TokensShift(ll, dl, pre, d, p, out, n);
      TokensOn(ll, dl, pre, d, p, out, w, n);
      CompressedSupplyIs(ll, dl, d, p, out, w, n);
      CompressedSupplyIs(ll, dl, D, q, out, w', n);
    } else if exists n: nat :: ReadTokens(ll, dl, D, q, out, n).Done? {
      var n: nat :| ReadTokens(ll, dl, D, q, out, n).Done?;
      TokensShift(ll, dl, pre, d, p, out, n);
    }
  }

  lemma {:induction false} SizesOn(w: Supply, p: nat, n: nat, k: nat)
    ensures SizesSupply(SupplyOn(w, k), p + 8 * k, n) == SupplyOn(SizesSupply(w, p, n), k)
    decreases n
  {
    hide ReceiveSupply, SupplyOn;
    if n > 0 {
      SizesOn(w, p, n - 1, k);
      ReceiveOn(SizesSupply(w, p, n - 1), p + 3 * (n - 1), 3, k);
    }
  }

  lemma LengthOn(cl: seq<nat>, pre: seq<Byte>, d: seq<Byte>, p: nat, w: Supply)
    ensures LengthSupply(cl, pre + d, p + 8 * |pre|, SupplyOn(w, |pre|)) == SupplyOn(LengthSupply(cl, d, p, w), |pre|)
  {
    hide SymbolAt, DecodeSupply, ReceiveSupply, SupplyOn, RepeatExtra;
    DecodeOn(pre, d, w, p);
    SymbolShift(cl, pre, d, p);
    var c := SymbolAt(cl, d, p);
    if 16 <= c < 19 {
      ReceiveOn(DecodeSupply(d, w, p), p + cl[c], RepeatExtra(c), |pre|);
    }
  }

  lemma {:induction false} LengthsSupplyOn(cl: seq<nat>, pre: seq<Byte>, d: seq<Byte>, p: nat, lens: seq<nat>, total: nat, w: Supply)
    requires |lens| <= total && forall i | 0 <= i < |lens| :: lens[i] <= 15
    ensures LengthsSupply(cl, pre + d, p + 8 * |pre|, lens, total, SupplyOn(w, |pre|)) == SupplyOn(LengthsSupply(cl, d, p, lens, total, w), |pre|)
    decreases total - |lens|
  {
    hide LengthSymbol, LengthSupply, SupplyOn;
    if |lens| < total {
      LengthShift(cl, pre, d, p, lens, total);
      LengthOn(cl, pre, d, p, w);
      var r := LengthSymbol(cl, d, p, lens, total);
      if r.Lengths? {
        LengthsSupplyOn(cl, pre, d, r.p, r.lens, total, LengthSupply(cl, d, p, w));
      }
    }
  }

  lemma CountsOn(w: Supply, p: nat, k: nat)
    ensures CountsSupply(SupplyOn(w, k), p + 8 * k) == SupplyOn(CountsSupply(w, p), k)
  {
    hide ReceiveSupply, SupplyOn;
    ReceiveOn(w, p, 5, k);
    ReceiveOn(ReceiveSupply(w, p, 5), p + 5, 5, k);
    ReceiveOn(ReceiveSupply(ReceiveSupply(w, p, 5), p + 5, 5), p + 10, 4, k);
  }

  lemma CodesSupplyOn(pre: seq<Byte>, d: seq<Byte>, p: nat, w: Supply)
    ensures CodesSupply(pre + d, p + 8 * |pre|, SupplyOn(w, |pre|)) == SupplyOn(CodesSupply(d, p, w), |pre|)
  {
    hide Take, CodeLengthSizes, LengthsSupply, SizesSupply, CountsSupply, SupplyOn;
    HeaderCounts(d, p);
    CountsShift(pre, d, p);
    var total, hclen := Take(d, p, 5) + 257 + (Take(d, p + 5, 5) + 1), Take(d, p + 10, 4) + 4;
    CountsOn(w, p, |pre|);
    SizesOn(CountsSupply(w, p), p + 14, hclen, |pre|);
    SizesShift(pre, d, p + 14, hclen);
    LengthsSupplyOn(CodeLengthSizes(d, p + 14, hclen), pre, d, p + 14 + 3 * hclen, [], total, SizesSupply(CountsSupply(w, p), p + 14, hclen));
  }

  lemma BodyOn(kind: nat, pre: seq<Byte>, d: seq<Byte>, p: nat, out: seq<Byte>, w: Supply)
    ensures BodySupply(kind, pre + d, p + 8 * |pre|, out, SupplyOn(w, |pre|)) == SupplyOn(BodySupply(kind, d, p, out, w), |pre|)
  {
    hide StoredBlock, CompressedSupply, CodesSupply, DynamicCodes, FIXED_LL, FIXED_DL;
    FixedLengthsValid();
    if kind == 0 {
      StoredOn(pre, d, p, out, w);
    } else if kind == 1 {
      CompressedOn(FIXED_LL, FIXED_DL, pre, d, p, out, w);
    } else if kind == 2 {
      CodesShift(pre, d, p);
      CodesSupplyOn(pre, d, p, w);
      var c := DynamicCodes(d, p);
      if c.Codes? {
        CompressedOn(c.ll, c.dl, pre, d, c.p, out, CodesSupply(d, p, w));
      }
    }
  }

  lemma StoredOn(pre: seq<Byte>, d: seq<Byte>, p: nat, out: seq<Byte>, w: Supply)
    ensures BodySupply(0, pre + d, p + 8 * |pre|, out, SupplyOn(w, |pre|)) == SupplyOn(BodySupply(0, d, p, out, w), |pre|)
  {
    hide StoredBlock;
    assert (p + 8 * |pre| + 7) / 8 == (p + 7) / 8 + |pre|;
    StoredShift(pre, d, (p + 7) / 8, out);
    var b := StoredBlock(d, (p + 7) / 8, out);
    if b.Done? {
      assert (b.p + 8 * |pre|) / 8 == b.p / 8 + |pre|;
    }
  }

  lemma BlockOn(pre: seq<Byte>, d: seq<Byte>, p: nat, out: seq<Byte>, w: Supply)
    ensures BlockSupply(pre + d, p + 8 * |pre|, out, SupplyOn(w, |pre|)) == SupplyOn(BlockSupply(d, p, out, w), |pre|)
  {
    hide BodySupply, Take, ReceiveSupply, SupplyOn;
    TakeShift(pre, d, p + 1, 2);
    ReceiveOn(w, p, 1, |pre|);
    ReceiveOn(ReceiveSupply(w, p, 1), p + 1, 2, |pre|);
    BodyOn(Take(d, p + 1, 2), pre, d, p + 3, out, ReceiveSupply(ReceiveSupply(w, p, 1), p + 1, 2));
  }

  lemma {:induction false} BlocksOn(pre: seq<Byte>, d: seq<Byte>, p: nat, out: seq<Byte>, w: Supply, n: nat)
    ensures BlocksSupply(pre + d, p + 8 * |pre|, out, SupplyOn(w, |pre|), n) == SupplyOn(BlocksSupply(d, p, out, w, n), |pre|)
    decreases n
  {
    hide BlockSupply, ReadBlock, SupplyOn;
    if n > 0 {
      BlocksOn(pre, d, p, out, w, n - 1);
      BlocksShift(pre, d, p, out, n - 1);
      var r := ReadBlocks(d, p, out, n - 1);
      if r.Running? {
        BlockOn(pre, d, r.p, r.out, BlocksSupply(d, p, out, w, n - 1));
      }
    }
  }

  /** Nor does the supply along it. */
  lemma StreamOn(pre: seq<Byte>, d: seq<Byte>)
    ensures StreamSupply(pre + d, 8 * |pre|) == SupplyOn(StreamSupply(d, 0), |pre|)
  {
    hide ReadBlocks, BlocksSupply;
    var D, s := pre + d, 8 * |pre|;
    assert s / 8 == |pre|;
    if exists n: nat :: ReadBlocks(d, 0, [], n).Done? {
      var n: nat :| ReadBlocks(d, 0, [], n).Done?;
      BlocksShift(pre, d, 0, [], n);
      BlocksOn(pre, d, 0, [], Loaded(0, false), n);
      StreamSupplyIs(d, 0, n);
      StreamSupplyIs(D, s, n);
    } else if exists n: nat :: ReadBlocks(D, s, [], n).Done? {
      var n: nat :| ReadBlocks(D, s, [], n).Done?;
      BlocksShift(pre, d, 0, [], n);
    }
  }
}
