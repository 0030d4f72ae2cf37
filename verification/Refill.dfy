/** When the decoder runs out of bits.  The bit buffer is refilled a byte at a time, also past the end of the
    input; a Huffman decode that finds fewer than 16 bits after the end adds 16 zero bits once, and fails the
    second time; the end of a compressed block is refused if some of those 16 bits were used.  All this depends
    on the input alone: here it is a function of the stream and of the positions that the format reads. */
module Refill {
  import opened Wrappers
  import opened Bits
  import opened Canonical
  import opened Deflate

  /** How many bytes have entered the buffer, padding included, and whether the 16 bits were added; or that
      the decoder has given up for want of bits. */
  datatype Supply = Loaded(bytes: nat, hit: bool) | Dry

  /** The bits that are buffered at position p. */
  function Buffered(w: Supply, p: nat): int
    requires w.Loaded?
  {
    8 * w.bytes - p
  }

  /** Refilling at p leaves 25 to 32 bits. */
  function Refilled(w: Supply, p: nat): Supply
    requires w.Loaded?
  {
    w.(bytes := p / 8 + 4)
  }

  /** After a plain read of n bits at p. */
  function ReceiveSupply(w: Supply, p: nat, n: nat): Supply
  {
    if w.Dry? || n <= Buffered(w, p) then w else Refilled(w, p)
  }

  /** After a Huffman decode at p. */
  function DecodeSupply(data: seq<Byte>, w: Supply, p: nat): Supply
  {
    if w.Dry? || Buffered(w, p) >= 16 then w
    else if w.bytes < |data| then Refilled(w, p)
    else if !w.hit then Loaded(w.bytes + 2, true)
    else Dry
  }

  /** After the test at the end of a compressed block that ends at p. */
  function EndSupply(w: Supply, p: nat): Supply
  {
    if w.Loaded? && w.hit && Buffered(w, p) < 16 then Dry else w
  }

  /** A decode gives up exactly when the input is used up, the two extra bytes were added, and it finds fewer than
      16 bits; otherwise it has 16. */
  lemma DecodeTest(data: seq<Byte>, w: Supply, p: nat)
    requires w.Loaded? && 0 <= Buffered(w, p) <= 32
    ensures var v := DecodeSupply(data, w, p);
            (v.Dry? <==> w.hit && w.bytes >= |data| && p + 16 > 8 * w.bytes) && (v.Loaded? ==> p + 16 <= 8 * v.bytes)
  {
  }

  /** The end of a block is refused exactly when it lies in the two bytes that were added last. */
  lemma EndTest(w: Supply, p: nat)
    requires w.Loaded? && w.bytes >= 2
    ensures EndSupply(w, p).Dry? <==> w.hit && p > 8 * (w.bytes - 2)
  {
  }

  // ---------------------------------------------------------------- along a compressed block

  /** Along the rest of a copy token. */
  ghost function DistanceSupply(i: nat, dl: seq<nat>, data: seq<Byte>, p: nat, w: Supply): Supply
    requires i < 29
  {
    var w2, p2 := ReceiveSupply(w, p, LengthExtra(i)), p + LengthExtra(i);
    var w3, d := DecodeSupply(data, w2, p2), SymbolAt(dl, data, p2);
    if 0 <= d < 30 then ReceiveSupply(w3, p2 + dl[d], DistExtra(d)) else w3
  }

  /** Along one token, or the end of the block. */
  ghost function TokenSupply(ll: seq<nat>, dl: seq<nat>, data: seq<Byte>, p: nat, w: Supply): Supply
    requires |ll| <= 288
  {
    var w1, s := DecodeSupply(data, w, p), SymbolAt(ll, data, p);
    if s == 256 then EndSupply(w1, p + ll[s])
    else if 257 <= s < 286 then DistanceSupply(s - 257, dl, data, p + ll[s], w1)
    else w1
  }

  /** Along the first n tokens. */
  ghost function TokensSupply(ll: seq<nat>, dl: seq<nat>, data: seq<Byte>, p: nat, out: seq<Byte>, w: Supply, n: nat): Supply
    requires |ll| <= 288
    decreases n
  {
    if n == 0 then w
    else
      var w' := TokensSupply(ll, dl, data, p, out, w, n - 1);
      match ReadTokens(ll, dl, data, p, out, n - 1)
      case Running(q, _) => TokenSupply(ll, dl, data, q, w')
      case _ => w'
  }

  /** Along a compressed block that has a meaning. */
  ghost function CompressedSupply(ll: seq<nat>, dl: seq<nat>, data: seq<Byte>, p: nat, out: seq<Byte>, w: Supply): Supply
    requires |ll| <= 288
  {
    if exists n: nat :: ReadTokens(ll, dl, data, p, out, n).Done? then
      var n: nat :| ReadTokens(ll, dl, data, p, out, n).Done?;
      TokensSupply(ll, dl, data, p, out, w, n)
    else w
  }

  // ---------------------------------------------------------------- along the code lengths

  /** Along n code lengths of three bits each. */
  function SizesSupply(w: Supply, p: nat, n: nat): Supply
  {
    if n == 0 then w else ReceiveSupply(SizesSupply(w, p, n - 1), p + 3 * (n - 1), 3)
  }

  /** Along one code length symbol. */
  ghost function LengthSupply(cl: seq<nat>, data: seq<Byte>, p: nat, w: Supply): Supply
  {
    var w1, c := DecodeSupply(data, w, p), SymbolAt(cl, data, p);
    if 16 <= c < 19 then ReceiveSupply(w1, p + cl[c], RepeatExtra(c)) else w1
  }

  ghost function LengthsSupply(cl: seq<nat>, data: seq<Byte>, p: nat, lens: seq<nat>, total: nat, w: Supply): Supply
    requires |lens| <= total && forall i | 0 <= i < |lens| :: lens[i] <= 15
    decreases total - |lens|
  {
    if |lens| == total then w
    else
      match LengthSymbol(cl, data, p, lens, total)
      case BadLengths => LengthSupply(cl, data, p, w)
      case Lengths(q, l) => LengthsSupply(cl, data, q, l, total, LengthSupply(cl, data, p, w))
  }

  /** Along the counts at the start of a dynamic block. */
  function CountsSupply(w: Supply, p: nat): Supply
  {
    ReceiveSupply(ReceiveSupply(ReceiveSupply(w, p, 5), p + 5, 5), p + 10, 4)
  }

  /** Along all that precedes the tokens of a dynamic block. */
  ghost function CodesSupply(data: seq<Byte>, p: nat, w: Supply): Supply
  {
    HeaderCounts(data, p);
    var total, hclen := Take(data, p, 5) + 257 + (Take(data, p + 5, 5) + 1), Take(data, p + 10, 4) + 4;
    var w1 := SizesSupply(CountsSupply(w, p), p + 14, hclen);
    LengthsSupply(CodeLengthSizes(data, p + 14, hclen), data, p + 14 + 3 * hclen, [], total, w1)
  }

  // ---------------------------------------------------------------- along the blocks

  ghost function BodySupply(kind: nat, data: seq<Byte>, p: nat, out: seq<Byte>, w: Supply): Supply
  {
    if kind == 0 then
      match StoredBlock(data, (p + 7) / 8, out)
      case Done(q, _) => if w.Dry? then w else w.(bytes := q / 8)
      case _ => w
    else if kind == 1 then FixedLengthsValid(); CompressedSupply(FIXED_LL, FIXED_DL, data, p, out, w)
    else if kind == 2 then
      match DynamicCodes(data, p)
      case BadCodes => w
      case Codes(q, ll, dl) => CompressedSupply(ll, dl, data, q, out, CodesSupply(data, p, w))
    else w
  }

  /** Along one block, its three header bits included. */
  ghost function BlockSupply(data: seq<Byte>, p: nat, out: seq<Byte>, w: Supply): Supply
  {
    BodySupply(Take(data, p + 1, 2), data, p + 3, out, ReceiveSupply(ReceiveSupply(w, p, 1), p + 1, 2))
  }

  /** Along the first n blocks. */
  ghost function BlocksSupply(data: seq<Byte>, p: nat, out: seq<Byte>, w: Supply, n: nat): Supply
    decreases n
  {
    if n == 0 then w
    else
      var w' := BlocksSupply(data, p, out, w, n - 1);
      match ReadBlocks(data, p, out, n - 1)
      case Running(q, o) => BlockSupply(data, q, o, w')
      case _ => w'
  }

  /** Along a stream that starts at bit p, on a byte boundary, with an empty buffer. */
  ghost function StreamSupply(data: seq<Byte>, p: nat): Supply
  {
    var w := Loaded(p / 8, false);
    if exists n: nat :: ReadBlocks(data, p, [], n).Done? then
      var n: nat :| ReadBlocks(data, p, [], n).Done?;
      BlocksSupply(data, p, [], w, n)
    else w
  }

  // ---------------------------------------------------------------- one supply for each stretch

  lemma TokenSupplyDry(ll: seq<nat>, dl: seq<nat>, data: seq<Byte>, p: nat)
    requires |ll| <= 288
    ensures TokenSupply(ll, dl, data, p, Dry) == Dry
  {
    hide SymbolAt;
  }

  /** A token whose first decode runs dry is dry. */
  lemma TokenSupplyAfter(ll: seq<nat>, dl: seq<nat>, data: seq<Byte>, p: nat, w: Supply)
    requires |ll| <= 288
    ensures DecodeSupply(data, w, p).Dry? ==> TokenSupply(ll, dl, data, p, w).Dry?
  {
    hide SymbolAt;
  }

  lemma {:induction false} TokensSupplyMono(ll: seq<nat>, dl: seq<nat>, data: seq<Byte>, p: nat, out: seq<Byte>, w: Supply, m: nat, n: nat)
    requires |ll| <= 288 && m <= n
    ensures var v, v' := TokensSupply(ll, dl, data, p, out, w, m), TokensSupply(ll, dl, data, p, out, w, n);
            (v.Dry? ==> v'.Dry?) && (!ReadTokens(ll, dl, data, p, out, m).Running? ==> v' == v)
    decreases n
  {
    hide TokenSupply, ReadToken;
    if m < n {
      TokensSupplyMono(ll, dl, data, p, out, w, m, n - 1);
      ReadTokensMono(ll, dl, data, p, out, m, n - 1);
      var r := ReadTokens(ll, dl, data, p, out, n - 1);
      if r.Running? {
        TokenSupplyDry(ll, dl, data, r.p);
      }
    }
  }

  /** The supply of a block is that at its end; if it runs dry on the way, it is dry. */
  lemma {:induction false} CompressedSupplyIs(ll: seq<nat>, dl: seq<nat>, data: seq<Byte>, p: nat, out: seq<Byte>, w: Supply, n: nat)
    requires |ll| <= 288
    ensures var v, b := TokensSupply(ll, dl, data, p, out, w, n), CompressedSupply(ll, dl, data, p, out, w);
            (ReadTokens(ll, dl, data, p, out, n).Done? ==> b == v) &&
            (v.Dry? && CompressedBlock(ll, dl, data, p, out).Done? ==> b.Dry?)
  {
    hide TokensSupply, ReadTokens;
    if exists k: nat :: ReadTokens(ll, dl, data, p, out, k).Done? {
      var k: nat :| ReadTokens(ll, dl, data, p, out, k).Done? && CompressedSupply(ll, dl, data, p, out, w) == TokensSupply(ll, dl, data, p, out, w, k);
      if k <= n {
        TokensSupplyMono(ll, dl, data, p, out, w, k, n);
      } else {
        TokensSupplyMono(ll, dl, data, p, out, w, n, k);
      }
    }
  }

  lemma CompressedSupplyDry(ll: seq<nat>, dl: seq<nat>, data: seq<Byte>, p: nat, out: seq<Byte>)
    requires |ll| <= 288
    ensures CompressedSupply(ll, dl, data, p, out, Dry) == Dry
  {
    hide TokenSupply, ReadToken;
    if exists n: nat :: ReadTokens(ll, dl, data, p, out, n).Done? {
      var n: nat :| ReadTokens(ll, dl, data, p, out, n).Done? && CompressedSupply(ll, dl, data, p, out, Dry) == TokensSupply(ll, dl, data, p, out, Dry, n);
      assert TokensSupply(ll, dl, data, p, out, Dry, 0) == Dry;
      TokensSupplyMono(ll, dl, data, p, out, Dry, 0, n);
    }
  }

  lemma {:induction false} LengthsSupplyDry(cl: seq<nat>, data: seq<Byte>, p: nat, lens: seq<nat>, total: nat)
    requires |lens| <= total && forall i | 0 <= i < |lens| :: lens[i] <= 15
    ensures LengthsSupply(cl, data, p, lens, total, Dry) == Dry
    decreases total - |lens|
  {
    hide SymbolAt, LengthSymbol;
    if |lens| < total {
      var r := LengthSymbol(cl, data, p, lens, total);
      if r.Lengths? {
        LengthsSupplyDry(cl, data, r.p, r.lens, total);
      }
    }
  }

  lemma {:induction false} SizesSupplyDry(p: nat, n: nat)
    ensures SizesSupply(Dry, p, n) == Dry
  {
    if n > 0 {
      SizesSupplyDry(p, n - 1);
    }
  }

  lemma BlockSupplyDry(data: seq<Byte>, p: nat, out: seq<Byte>)
    ensures BlockSupply(data, p, out, Dry) == Dry
  {
    hide CompressedSupply, LengthsSupply, SizesSupply, FIXED_LL, FIXED_DL, Take, DynamicCodes, StoredBlock, CodeLengthSizes;
    var kind, q := Take(data, p + 1, 2), p + 3;
    FixedLengthsValid();
    HeaderCounts(data, q);
    if kind == 1 {
      CompressedSupplyDry(FIXED_LL, FIXED_DL, data, q, out);
    } else if kind == 2 {
      var hclen := Take(data, q + 10, 4) + 4;
      SizesSupplyDry(q + 14, hclen);
      LengthsSupplyDry(CodeLengthSizes(data, q + 14, hclen), data, q + 14 + 3 * hclen, [], Take(data, q, 5) + 257 + (Take(data, q + 5, 5) + 1));
      var c := DynamicCodes(data, q);
      if c.Codes? {
        CompressedSupplyDry(c.ll, c.dl, data, c.p, out);
      }
    }
  }

  lemma {:induction false} BlocksSupplyMono(data: seq<Byte>, p: nat, out: seq<Byte>, w: Supply, m: nat, n: nat)
    requires m <= n
    ensures var v, v' := BlocksSupply(data, p, out, w, m), BlocksSupply(data, p, out, w, n);
            (v.Dry? ==> v'.Dry?) && (!ReadBlocks(data, p, out, m).Running? ==> v' == v)
    decreases n
  {
    hide BlockSupply, ReadBlock;
    if m < n {
      BlocksSupplyMono(data, p, out, w, m, n - 1);
      ReadBlocksMono(data, p, out, m, n - 1);
      var r := ReadBlocks(data, p, out, n - 1);
      if r.Running? {
        BlockSupplyDry(data, r.p, r.out);
      }
    }
  }

  /** The supply of a stream is that at its end; if it runs dry on the way, it is dry. */
  lemma {:induction false} StreamSupplyIs(data: seq<Byte>, p: nat, n: nat)
    ensures var v, b := BlocksSupply(data, p, [], Loaded(p / 8, false), n), StreamSupply(data, p);
            (ReadBlocks(data, p, [], n).Done? ==> b == v) && (v.Dry? && Inflated(data, p).Done? ==> b.Dry?)
  {
    hide BlocksSupply, ReadBlocks;
    var w := Loaded(p / 8, false);
    if exists k: nat :: ReadBlocks(data, p, [], k).Done? {
      var k: nat :| ReadBlocks(data, p, [], k).Done? && StreamSupply(data, p) == BlocksSupply(data, p, [], w, k);
      if k <= n {
        BlocksSupplyMono(data, p, [], w, k, n);
      } else {
        BlocksSupplyMono(data, p, [], w, n, k);
      }
    }
  }

  // ---------------------------------------------------------------- inside the input the supply never runs dry

  /** At position p between 0 and 32 bits are buffered; the 16 bits were added only after the end; and the
      supply ran dry only past the end. */
  ghost predicate Sound(data: seq<Byte>, w: Supply, p: nat)
  {
    if w.Dry? then p > 8 * |data| else 0 <= Buffered(w, p) <= 32 && (w.hit ==> w.bytes >= |data| + 2)
  }

  lemma SoundReceive(data: seq<Byte>, w: Supply, p: nat, n: nat)
    requires Sound(data, w, p) && n <= 25
    ensures Sound(data, ReceiveSupply(w, p, n), p + n)
  {
  }

  lemma SoundDecode(data: seq<Byte>, w: Supply, p: nat, l: nat)
    requires Sound(data, w, p) && l <= 15
    ensures Sound(data, DecodeSupply(data, w, p), p + l)
  {
  }

  lemma SoundEnd(data: seq<Byte>, w: Supply, p: nat)
    requires Sound(data, w, p)
    ensures Sound(data, EndSupply(w, p), p)
  {
  }

  lemma SoundToken(ll: seq<nat>, dl: seq<nat>, data: seq<Byte>, p: nat, w: Supply)
    requires ValidLengths(ll) && ValidLengths(dl) && Sound(data, w, p)
    ensures var t, v := NextToken(ll, dl, data, p), TokenSupply(ll, dl, data, p, w);
            !t.Corrupt? ==> Sound(data, v, t.q) && p <= t.q <= p + 48
  {
    hide Sound, DecodeSupply, ReceiveSupply, EndSupply, SymbolAt, Take, LengthBase, DistBase, LengthExtra, DistExtra;
    var s := SymbolAt(ll, data, p);
    if 0 <= s < 286 {
      SoundDecode(data, w, p, ll[s]);
      var w1, p1 := DecodeSupply(data, w, p), p + ll[s];
      if s == 256 {
        SoundEnd(data, w1, p1);
      } else if s > 256 {
        var i := s - 257;
        SoundReceive(data, w1, p1, LengthExtra(i));
        var w2, p2 := ReceiveSupply(w1, p1, LengthExtra(i)), p1 + LengthExtra(i);
        var d := SymbolAt(dl, data, p2);
        if 0 <= d < 30 {
          SoundDecode(data, w2, p2, dl[d]);
          SoundReceive(data, DecodeSupply(data, w2, p2), p2 + dl[d], DistExtra(d));
        }
      }
    }
  }

  lemma {:induction false} SoundTokens(ll: seq<nat>, dl: seq<nat>, data: seq<Byte>, p: nat, out: seq<Byte>, w: Supply, n: nat)
    requires ValidLengths(ll) && ValidLengths(dl) && Sound(data, w, p)
    ensures var r := ReadTokens(ll, dl, data, p, out, n);
            !r.Failed? ==> Sound(data, TokensSupply(ll, dl, data, p, out, w, n), r.p)
    decreases n
  {
    hide Sound, TokenSupply, NextToken;
    if n > 0 {
      SoundTokens(ll, dl, data, p, out, w, n - 1);
      var r := ReadTokens(ll, dl, data, p, out, n - 1);
      if r.Running? {
        SoundToken(ll, dl, data, r.p, TokensSupply(ll, dl, data, p, out, w, n - 1));
      }
    }
  }

  lemma SoundCompressed(ll: seq<nat>, dl: seq<nat>, data: seq<Byte>, p: nat, out: seq<Byte>, w: Supply)
    requires ValidLengths(ll) && ValidLengths(dl) && Sound(data, w, p)
    ensures var b := CompressedBlock(ll, dl, data, p, out); b.Done? ==> Sound(data, CompressedSupply(ll, dl, data, p, out, w), b.p)
  {
    hide Sound, TokensSupply, ReadTokens, CompressedSupply;
    if CompressedBlock(ll, dl, data, p, out).Done? {
      var n: nat :| ReadTokens(ll, dl, data, p, out, n).Done?;
      BlockMeaning(ll, dl, data, p, out, n);
      CompressedSupplyIs(ll, dl, data, p, out, w, n);
      SoundTokens(ll, dl, data, p, out, w, n);
    }
  }

  lemma {:induction false} SoundSizes(data: seq<Byte>, w: Supply, p: nat, n: nat)
    requires Sound(data, w, p)
    ensures Sound(data, SizesSupply(w, p, n), p + 3 * n)
  {
    hide Sound, ReceiveSupply;
    if n > 0 {
      SoundSizes(data, w, p, n - 1);
      SoundReceive(data, SizesSupply(w, p, n - 1), p + 3 * (n - 1), 3);
    }
  }

  /** Code length symbols, whose codes have at most seven bits. */
  ghost predicate ShortCodes(cl: seq<nat>)
  {
    forall i | 0 <= i < |cl| :: cl[i] <= 7
  }

  lemma SoundLength(cl: seq<nat>, data: seq<Byte>, p: nat, lens: seq<nat>, total: nat, w: Supply)
    requires ShortCodes(cl) && Sound(data, w, p) && |lens| < total && forall i | 0 <= i < |lens| :: lens[i] <= 15
    ensures var r := LengthSymbol(cl, data, p, lens, total); r.Lengths? ==> Sound(data, LengthSupply(cl, data, p, w), r.p)
  {
    hide Sound, DecodeSupply, ReceiveSupply, SymbolAt, Take;
    var c := SymbolAt(cl, data, p);
    if 0 <= c < 19 {
      SoundDecode(data, w, p, cl[c]);
      if c >= 16 {
        SoundReceive(data, DecodeSupply(data, w, p), p + cl[c], RepeatExtra(c));
      }
    }
  }

  /** How far past the input the buffer can be loaded while code lengths are read. */
  ghost predicate Near(data: seq<Byte>, w: Supply)
  {
    w.Loaded? ==> 8 * w.bytes <= 8 * |data| + 105 + if w.hit then 16 else 0
  }

  lemma NearLength(cl: seq<nat>, data: seq<Byte>, p: nat, w: Supply)
    requires ShortCodes(cl) && Sound(data, w, p) && Near(data, w)
    ensures Near(data, LengthSupply(cl, data, p, w))
  {
    hide SymbolAt;
    var w1, c := DecodeSupply(data, w, p), SymbolAt(cl, data, p);
    assert Near(data, w1) && (w1.Loaded? ==> Buffered(w1, p) >= 16);
    if 16 <= c < 19 {
      assert cl[c] + RepeatExtra(c) <= 14;
    }
  }

  lemma {:induction false} SoundLengths(cl: seq<nat>, data: seq<Byte>, p: nat, lens: seq<nat>, total: nat, w: Supply)
    requires ShortCodes(cl) && Sound(data, w, p) && |lens| <= total && forall i | 0 <= i < |lens| :: lens[i] <= 15
    ensures var r, v := ReadLengths(cl, data, p, lens, total), LengthsSupply(cl, data, p, lens, total, w);
            r.Lengths? ==> Sound(data, v, r.p) && (Near(data, w) ==> Near(data, v))
    decreases total - |lens|
  {
    hide Sound, Near, ShortCodes, LengthSymbol, LengthSupply;
    if |lens| < total {
      var r := LengthSymbol(cl, data, p, lens, total);
      SoundLength(cl, data, p, lens, total, w);
      if Near(data, w) {
        NearLength(cl, data, p, w);
      }
      if r.Lengths? {
        SoundLengths(cl, data, r.p, r.lens, total, LengthSupply(cl, data, p, w));
      }
    }
  }

  lemma SoundCounts(data: seq<Byte>, w: Supply, p: nat)
    requires Sound(data, w, p)
    ensures Sound(data, CountsSupply(w, p), p + 14)
  {
    hide Sound, ReceiveSupply;
    SoundReceive(data, w, p, 5);
    SoundReceive(data, ReceiveSupply(w, p, 5), p + 5, 5);
    SoundReceive(data, ReceiveSupply(ReceiveSupply(w, p, 5), p + 5, 5), p + 10, 4);
  }

  /** The codes of a dynamic block: the supply is sound, and they end soon after the input if the block began in it. */
  lemma SoundCodes(data: seq<Byte>, p: nat, w: Supply)
    requires Sound(data, w, p)
    ensures var c, v := DynamicCodes(data, p), CodesSupply(data, p, w);
            c.Codes? ==> Sound(data, v, c.p) && (v.Loaded? && p < 8 * |data| + 3 ==> c.p <= 8 * |data| + 121)
  {
    hide Kraft, ReadLengths, LengthsSupply, SizesSupply, CountsSupply, CodeLengthSizes, Take;
    HeaderCounts(data, p);
    var total, hclen := Take(data, p, 5) + 257 + (Take(data, p + 5, 5) + 1), Take(data, p + 10, 4) + 4;
    var q := p + 14 + 3 * hclen;
    var w1 := SizesSupply(CountsSupply(w, p), p + 14, hclen);
    SoundCounts(data, w, p);
    SoundSizes(data, CountsSupply(w, p), p + 14, hclen);
    assert q <= p + 71;
    SoundLengths(CodeLengthSizes(data, p + 14, hclen), data, q, [], total, w1);
  }

  // ---------------------------------------------------------------- blocks

  lemma SoundBlock(data: seq<Byte>, p: nat, out: seq<Byte>, w: Supply)
    requires Sound(data, w, p)
    ensures var r := ReadBlock(data, p, out); !r.Failed? ==> Sound(data, BlockSupply(data, p, out, w), r.p)
  {
    hide Sound, ReceiveSupply, CompressedSupply, CompressedBlock, CodesSupply, FIXED_LL, FIXED_DL, Take, DynamicCodes;
    var w3, q := ReceiveSupply(ReceiveSupply(w, p, 1), p + 1, 2), p + 3;
    SoundReceive(data, w, p, 1);
    SoundReceive(data, ReceiveSupply(w, p, 1), p + 1, 2);
    var kind := Take(data, p + 1, 2);
    FixedLengthsValid();
    if kind == 0 {
      SoundStored(data, q, out, w3);
    } else if kind == 1 {
      SoundCompressed(FIXED_LL, FIXED_DL, data, q, out, w3);
    } else if kind == 2 {
      var c := DynamicCodes(data, q);
      SoundCodes(data, q, w3);
      if c.Codes? {
        SoundCompressed(c.ll, c.dl, data, c.p, out, CodesSupply(data, q, w3));
      }
    }
  }

  lemma SoundStored(data: seq<Byte>, p: nat, out: seq<Byte>, w: Supply)
    requires Sound(data, w, p)
    ensures var b := StoredBlock(data, (p + 7) / 8, out); b.Done? ==> Sound(data, BodySupply(0, data, p, out, w), b.p)
  {
    hide Word;
  }

  lemma {:induction false} SoundBlocks(data: seq<Byte>, p: nat, out: seq<Byte>, w: Supply, n: nat)
    requires Sound(data, w, p)
    ensures var r := ReadBlocks(data, p, out, n); !r.Failed? ==> Sound(data, BlocksSupply(data, p, out, w, n), r.p)
    decreases n
  {
    hide Sound, BlockSupply, ReadBlock;
    if n > 0 {
      SoundBlocks(data, p, out, w, n - 1);
      var r := ReadBlocks(data, p, out, n - 1);
      if r.Running? {
        SoundBlock(data, r.p, r.out, BlocksSupply(data, p, out, w, n - 1));
      }
    }
  }

  /** A stream whose meaning ends inside the input is never short of bits. */
  lemma {:induction false} InsideIsSupplied(data: seq<Byte>, p: nat)
    requires p % 8 == 0
    ensures var b := Inflated(data, p); b.Done? && b.p <= 8 * |data| ==> StreamSupply(data, p).Loaded?
  {
    hide BlocksSupply, ReadBlocks, StreamSupply;
    if Inflated(data, p).Done? {
      var n: nat :| ReadBlocks(data, p, [], n).Done?;
      StreamMeaning(data, p, n);
      StreamSupplyIs(data, p, n);
      SoundBlocks(data, p, [], Loaded(p / 8, false), n);
    }
  }

  /** An empty fixed block at the start is never short of bits, even if the input stops inside it. */
  lemma EmptyFixedSupplied(data: seq<Byte>, p: nat)
    requires p % 8 == 0 && EmptyFixedBlock(data, p)
    ensures StreamSupply(data, p) == Loaded(p / 8 + 4, false)
  {
    hide StreamSupply, BlocksSupply, BlockSupply, ReadBlock, ReadBlocks, EmptyFixedBlock;
    EmptyFixedBlockSupply(data, p);
    OneBlockSupply(data, p, Loaded(p / 8, false));
    ReadOneBlock(data, p, []);
    StreamSupplyIs(data, p, 1);
  }

  lemma EmptyFixedBlockSupply(data: seq<Byte>, p: nat)
    requires p % 8 == 0 && EmptyFixedBlock(data, p)
    ensures BlockSupply(data, p, [], Loaded(p / 8, false)) == Loaded(p / 8 + 4, false) && ReadBlock(data, p, []).Done?
  {
    hide FIXED_LL, FIXED_DL, CompressedSupply, CompressedBlock, Take, SymbolAt, ReceiveSupply;
    FixedLengthsValid();
    FirstRefill(p);
    EndOnly(FIXED_LL, FIXED_DL, data, p + 3, Loaded(p / 8 + 4, false));
  }

  lemma FirstRefill(p: nat)
    requires p % 8 == 0
    ensures ReceiveSupply(ReceiveSupply(Loaded(p / 8, false), p, 1), p + 1, 2) == Loaded(p / 8 + 4, false)
  {
  }

  /** A block that is at its end, with 16 bits buffered and none of them added. */
  lemma EndOnly(ll: seq<nat>, dl: seq<nat>, data: seq<Byte>, p: nat, w: Supply)
    requires |ll| <= 288 && SymbolAt(ll, data, p) == 256 && w.Loaded? && Buffered(w, p) >= 16 && !w.hit
    ensures CompressedSupply(ll, dl, data, p, [], w) == w && CompressedBlock(ll, dl, data, p, []) == Done(p + ll[256], [])
  {
    hide SymbolAt, CompressedSupply, CompressedBlock, DistanceSupply, DistanceToken;
    assert ReadTokens(ll, dl, data, p, [], 0) == Running(p, []) && TokensSupply(ll, dl, data, p, [], w, 0) == w;
    BlockMeaning(ll, dl, data, p, [], 1);
    CompressedSupplyIs(ll, dl, data, p, [], w, 1);
  }

  lemma OneBlockSupply(data: seq<Byte>, p: nat, w: Supply)
    ensures BlocksSupply(data, p, [], w, 1) == BlockSupply(data, p, [], w)
  {
    hide BlockSupply, ReadBlock;
    assert BlocksSupply(data, p, [], w, 0) == w && ReadBlocks(data, p, [], 0) == Running(p, []);
  }

  // ---------------------------------------------------------------- accepted streams end soon after the input

  lemma {:induction false} MsbPadding(data: seq<Byte>, p: nat, n: nat)
    requires p >= 8 * |data|
    ensures Msb(data, p, n) == 0
  {
    if n > 0 {
      MsbPadding(data, p, n - 1);
    }
  }

  /** In the padding every position reads the same symbol. */
  lemma PaddingSymbol(lens: seq<nat>, data: seq<Byte>, p: nat, q: nat)
    requires p >= 8 * |data| && q >= 8 * |data|
    ensures SymbolAt(lens, data, p) == SymbolAt(lens, data, q)
  {
    hide SymbolAt, Code;
    var s, t := SymbolAt(lens, data, p), SymbolAt(lens, data, q);
    if s >= 0 {
      MsbPadding(data, p, lens[s]);
      MsbPadding(data, q, lens[s]);
      SymbolAtIs(lens, s, data, q);
    } else if t >= 0 {
      MsbPadding(data, p, lens[t]);
      MsbPadding(data, q, lens[t]);
      SymbolAtIs(lens, t, data, p);
    }
  }

  /** A block ends where it began or within a token of the input, and its end-of-block code. */
  lemma {:induction false} TokensEnd(ll: seq<nat>, dl: seq<nat>, data: seq<Byte>, p: nat, out: seq<Byte>, n: nat)
    requires ValidLengths(ll) && ValidLengths(dl)
    ensures var r := ReadTokens(ll, dl, data, p, out, n); r.Done? ==> r.p <= p + 15 || r.p <= 8 * |data| + 62
    decreases n
  {
    hide SymbolAt, DistanceToken;
    if n > 0 && ReadTokens(ll, dl, data, p, out, n).Done? {
      var r := ReadTokens(ll, dl, data, p, out, n - 1);
      if r.Done? {
        TokensEnd(ll, dl, data, p, out, n - 1);
      } else {
        EndIsSymbol(ll, dl, data, r.p);
        if n > 1 {
          LastToken(ll, dl, data, p, out, n - 2);
        }
      }
    }
  }

  lemma EndIsSymbol(ll: seq<nat>, dl: seq<nat>, data: seq<Byte>, p: nat)
    requires ValidLengths(ll)
    ensures var t := NextToken(ll, dl, data, p); t.EndOfBlock? ==> SymbolAt(ll, data, p) == 256 && t.q <= p + 15
  {
    hide SymbolAt;
  }

  /** Only the end of the block can follow a token that ended in the padding. */
  lemma LastToken(ll: seq<nat>, dl: seq<nat>, data: seq<Byte>, p: nat, out: seq<Byte>, n: nat)
    requires ValidLengths(ll) && ValidLengths(dl)
    requires var r := ReadTokens(ll, dl, data, p, out, n + 1); r.Running? && SymbolAt(ll, data, r.p) == 256
    ensures ReadTokens(ll, dl, data, p, out, n + 1).p <= 8 * |data| + 47
  {
    hide SymbolAt, DistanceToken, TokenSupply, Sound;
    var r, r' := ReadTokens(ll, dl, data, p, out, n), ReadTokens(ll, dl, data, p, out, n + 1);
    assert r.Running? && NextToken(ll, dl, data, r.p).Tok?;
    TokenSpan(ll, dl, data, r.p);
    if r.p >= 8 * |data| {
      PaddingSymbol(ll, data, r.p, r'.p);
      assert false;
    }
  }

  lemma TokenSpan(ll: seq<nat>, dl: seq<nat>, data: seq<Byte>, p: nat)
    requires ValidLengths(ll) && ValidLengths(dl)
    ensures var t := NextToken(ll, dl, data, p); !t.Corrupt? ==> p <= t.q <= p + 48
  {
    var bytes := p / 8 + 4;
    SoundToken(ll, dl, data, p, Loaded(bytes, false));
  }

  lemma BlockEnds(data: seq<Byte>, p: nat, out: seq<Byte>, w: Supply)
    requires Sound(data, w, p)
    ensures var r := ReadBlock(data, p, out);
            !r.Failed? && BlockSupply(data, p, out, w).Loaded? ==> p < 8 * |data| && r.p <= 8 * |data| + 136
  {
    hide Sound, ReceiveSupply, BodySupply, BlockBody, Take;
    if p >= 8 * |data| {
      NothingInThePadding(data, p, out);
    } else {
      SoundReceive(data, w, p, 1);
      SoundReceive(data, ReceiveSupply(w, p, 1), p + 1, 2);
      BodyEnds(Take(data, p + 1, 2), data, p + 3, out, ReceiveSupply(ReceiveSupply(w, p, 1), p + 1, 2));
    }
  }

  lemma BodyEnds(kind: nat, data: seq<Byte>, p: nat, out: seq<Byte>, w: Supply)
    requires Sound(data, w, p) && p < 8 * |data| + 3
    ensures var b := BlockBody(kind, data, p, out);
            b.Done? && BodySupply(kind, data, p, out, w).Loaded? ==> b.p <= 8 * |data| + 136
  {
    hide Sound, CompressedSupply, CompressedBlock, CodesSupply, FIXED_LL, FIXED_DL, DynamicCodes, Word;
    FixedLengthsValid();
    if kind == 1 {
      CompressedEnds(FIXED_LL, FIXED_DL, data, p, out);
    } else if kind == 2 {
      var c := DynamicCodes(data, p);
      SoundCodes(data, p, w);
      if c.Codes? {
        CompressedEnds(c.ll, c.dl, data, c.p, out);
        CompressedSupplyDry(c.ll, c.dl, data, c.p, out);
      }
    }
  }

  lemma CompressedEnds(ll: seq<nat>, dl: seq<nat>, data: seq<Byte>, p: nat, out: seq<Byte>)
    requires ValidLengths(ll) && ValidLengths(dl)
    ensures var b := CompressedBlock(ll, dl, data, p, out); b.Done? ==> b.p <= p + 15 || b.p <= 8 * |data| + 62
  {
    hide ReadTokens;
    if CompressedBlock(ll, dl, data, p, out).Done? {
      var n: nat :| ReadTokens(ll, dl, data, p, out, n).Done?;
      BlockMeaning(ll, dl, data, p, out, n);
      TokensEnd(ll, dl, data, p, out, n);
    }
  }

  lemma {:induction false} BlocksEnd(data: seq<Byte>, p: nat, out: seq<Byte>, w: Supply, n: nat)
    requires Sound(data, w, p)
    ensures var r := ReadBlocks(data, p, out, n);
            r.Done? && BlocksSupply(data, p, out, w, n).Loaded? ==> r.p <= 8 * |data| + 136
    decreases n
  {
    hide Sound, BlockSupply, ReadBlock;
    if n > 0 {
      BlocksEnd(data, p, out, w, n - 1);
      SoundBlocks(data, p, out, w, n - 1);
      var r := ReadBlocks(data, p, out, n - 1);
      if r.Running? {
        BlockEnds(data, r.p, r.out, BlocksSupply(data, p, out, w, n - 1));
      }
    }
  }

  /** A stream that is never short of bits ends at most 136 bits past the input. */
  lemma {:induction false} SuppliedEndsSoon(data: seq<Byte>, p: nat)
    requires p % 8 == 0
    ensures var b := Inflated(data, p); b.Done? && StreamSupply(data, p).Loaded? ==> b.p <= 8 * |data| + 136
  {
    hide BlocksSupply, ReadBlocks, StreamSupply;
    if Inflated(data, p).Done? {
      var n: nat :| ReadBlocks(data, p, [], n).Done?;
      StreamMeaning(data, p, n);
      StreamSupplyIs(data, p, n);
      BlocksEnd(data, p, [], Loaded(p / 8, false), n);
    }
  }
}
