/** The inflating side of `stbi__zbuf`: the growing output buffer and the block parsers. */
module Inflate {
  import opened Wrappers
  import opened Bits
  import opened Canonical
  import opened Huffman
  import opened BitReader
  import opened Deflate
  import opened Refill
  import opened Shift

  const UINT_MAX := 0xFFFF_FFFF

  /** Where doubling from n stops: above half of the range of `unsigned int`. */
  function Cap(n: nat): (c: nat)
    requires 1 <= n <= UINT_MAX
    ensures n <= c <= UINT_MAX && c >= 0x8000_0000
    decreases UINT_MAX - n
  {
    if n > UINT_MAX / 2 then n else Cap(2 * n)
  }

  class ZBuf {
    const bits: BitBuffer
    const expandable: bool
    var zout: array<Byte>   // zout_start .. zout_end
    var n: nat              // zout - zout_start

    ghost predicate Valid()
      reads this, bits
    {
      bits.Valid() && n <= zout.Length <= UINT_MAX && (expandable ==> zout.Length >= 1)
    }

    ghost function Out(): seq<Byte>
      requires Valid()
      reads this, bits, zout
    {
      zout[..n]
    }

    /** The outputs that find room are those up to this size. */
    ghost function Room(): nat
      requires Valid()
      reads this, bits
    {
      if expandable then Cap(zout.Length) else zout.Length
    }

    /** The state `stbi__do_zlib` sets up, reading from byte `start` of the input. */
    constructor (input: seq<Byte>, start: nat, initialSize: nat, expandable: bool)
      requires start <= |input| && initialSize <= UINT_MAX && (expandable ==> initialSize >= 1)
      ensures Valid() && fresh(bits) && fresh(zout) && n == 0 && zout.Length == initialSize && this.expandable == expandable
      ensures bits.data == input && bits.at == 8 * start && bits.Stock() == Loaded(start, false)
    {
      this.expandable := expandable;
      bits := new BitBuffer(input, start);
      zout := new Byte[initialSize](_ => 0);
      n := 0;
    }

    /** `stbi__zexpand`, with an allocator that succeeds. */
    method Expand(k: nat) returns (ok: bool)
      requires Valid()
      modifies this`zout
      ensures Valid() && Room() == old(Room()) && (zout == old(zout) || fresh(zout))
      ensures Out() == old(Out())
      ensures ok <==> expandable && n + k <= Room()
      ensures ok ==> n + k <= zout.Length
    {
      if !expandable {
        return false;
      }
      var limit := zout.Length;
      if UINT_MAX - n < k {
        return false;
      }
      while n + k > limit
        invariant zout.Length <= limit <= UINT_MAX && Cap(limit) == Cap(zout.Length)
        decreases n + k - limit
      {
        if limit > UINT_MAX / 2 {
          return false;
        }
        limit := 2 * limit;
      }
      var grown := new Byte[limit](_ => 0);
      forall i | 0 <= i < n {
        grown[i] := zout[i];
      }
      zout := grown;
      ok := true;
    }

    /** The literal branch of `stbi__parse_huffman_block`. */
    method PutLiteral(b: Byte) returns (ok: bool)
      requires Valid()
      modifies this`zout, this`n, zout
      ensures Valid() && Room() == old(Room()) && (zout == old(zout) || fresh(zout))
      ensures ok <==> old(n) + 1 <= Room()
      ensures ok ==> Out() == old(Out()) + [b]
    {
      if n >= zout.Length {
        ok := Expand(1);
        if !ok {
          return;
        }
      }
      zout[n] := b;
      n := n + 1;
      ok := true;
    }

    /** The copy loops: a run of one byte for distance 1, otherwise byte by byte from the source.  Both
        append what the RFC's byte-by-byte reading gives. */
    method CopyMatch(len: nat, dist: nat)
      requires Valid() && 1 <= dist <= n && n + len <= zout.Length
      modifies this`n, zout
      ensures Valid() && Out() == CopyBack(old(Out()), len, dist)
    {
      hide BitBuffer.Valid;
      ghost var was := Out();
      var left := len;
      if dist == 1 {
        var v := zout[n - 1];
        while left > 0
          invariant Valid() && n + left <= zout.Length && n >= |was| && zout[n - 1] == v
          invariant CopyBack(Out(), left, 1) == CopyBack(was, len, 1)
        {
          ghost var o := Out();
          zout[n] := v;
          n := n + 1;
          left := left - 1;
          assert Out() == o + [o[|o| - 1]];
        }
      } else {
        var p := n - dist;
        while left > 0
          invariant Valid() && n + left <= zout.Length && n >= |was| && p == n - dist >= 0
          invariant CopyBack(Out(), left, dist) == CopyBack(was, len, dist)
        {
          ghost var o := Out();
          zout[n] := zout[p];
          n, p := n + 1, p + 1;
          left := left - 1;
          assert Out() == o + [o[|o| - dist]];
        }
      }
    }

    /** The rest of a copy token: extra length bits, the distance symbol and its extra bits. */
    method ReadDistance(i: nat, zd: ZHuffman, ghost dl: seq<nat>) returns (ok: bool, len: nat, dist: nat)
      requires Valid() && i < 29 && Tables(dl, zd)
      modifies bits
      ensures Valid()
      ensures var t, w := DistanceToken(i, dl, bits.data, old(bits.at)), DistanceSupply(i, dl, bits.data, old(bits.at), old(bits.Stock()));
              !t.EndOfBlock? && (ok <==> t.Tok? && w.Loaded?) &&
              (ok ==> t == Tok(Copy(len, dist), bits.at) && bits.Stock() == w && len >= 1 && dist >= 1)
    {
      hide Tables, SymbolAt, BitBuffer.Valid, LengthBase, LengthExtra, DistBase, DistExtra, DecodeSupply, Take;
      ok, dist := false, 0;
      len := LengthBase(i);
      bits.ReceiveNothing();
      if LengthExtra(i) != 0 {
        var e := bits.Receive(LengthExtra(i));
        len := len + e;
      }
      var d := bits.Decode(zd, dl);
      if d < 0 || d >= 30 {
        return;
      }
      dist := DistBase(d);
      bits.ReceiveNothing();
      if DistExtra(d) != 0 {
        var e := bits.Receive(DistExtra(d));
        dist := dist + e;
      }
      ok := true;
    }

    /** One copy token: refuse a distance that reaches before the output, make room, copy. */
    method PutCopy(len: nat, dist: nat) returns (ok: bool)
      requires Valid() && dist >= 1
      modifies this`zout, this`n, zout
      ensures Valid() && Room() == old(Room()) && (zout == old(zout) || fresh(zout))
      ensures ok <==> dist <= old(n) && old(n) + len <= Room()
      ensures ok ==> Out() == CopyBack(old(Out()), len, dist) && n == old(n) + len
    {
      if n < dist {
        return false;
      }
      if len > zout.Length - n {
        ok := Expand(len);
        if !ok {
          return;
        }
      }
      CopyBackGrows(Out(), len, dist);
      CopyMatch(len, dist);
      ok := true;
    }

    /** The copy branch of `stbi__parse_huffman_block`. */
    method CopyToken(i: nat, zd: ZHuffman, ghost dl: seq<nat>) returns (ok: bool)
      requires Valid() && i < 29 && Tables(dl, zd)
      modifies this`zout, this`n, zout, bits
      ensures Valid() && Room() == old(Room()) && (zout == old(zout) || fresh(zout))
      ensures var t, w := DistanceToken(i, dl, bits.data, old(bits.at)), DistanceSupply(i, dl, bits.data, old(bits.at), old(bits.Stock()));
              !t.EndOfBlock? &&
              (ok <==> t.Tok? && w.Loaded? && Fits(old(Out()), t.t) && |Apply(old(Out()), t.t)| <= Room()) &&
              (ok ==> t.q == bits.at && Out() == Apply(old(Out()), t.t) && n > old(n) && bits.Stock() == w)
    {
      hide Tables, BitBuffer.Valid, DistanceToken, DistanceSupply, Cap;
      var len, dist;
      ok, len, dist := ReadDistance(i, zd, dl);
      if ok {
        if n >= dist {
          CopyBackGrows(Out(), len, dist);
        }
        ok := PutCopy(len, dist);
      }
    }

    /** One round of the loop in `stbi__parse_huffman_block`, against one step of the format. */
    method OneToken(zl: ZHuffman, zd: ZHuffman, ghost ll: seq<nat>, ghost dl: seq<nat>) returns (r: Round)
      requires Valid() && |ll| <= 288 && Tables(ll, zl) && Tables(dl, zd)
      modifies this`zout, this`n, zout, bits
      ensures Valid() && Room() == old(Room()) && (zout == old(zout) || fresh(zout))
      ensures var t, w := ReadToken(ll, dl, bits.data, old(bits.at), old(Out())), TokenSupply(ll, dl, bits.data, old(bits.at), old(bits.Stock()));
              if t.Failed? || w.Dry? || |t.out| > Room() then r == Bad
              else r == (if t.Done? then End else More) && bits.at == t.p && Out() == t.out && bits.Stock() == w && (r == More ==> n > old(n))
    {
      hide Tables, SymbolAt, BitBuffer.Valid, DistanceToken, DistanceSupply, DecodeSupply, Cap;
      ReadTokenGrows(ll, dl, bits.data, bits.at, Out());
      var ok;
      var z := bits.Decode(zl, ll);
      if z < 256 {
        if z < 0 {
          TokenSupplyAfter(ll, dl, bits.data, old(bits.at), old(bits.Stock()));
          return Bad;
        }
        ok := PutLiteral(z);
      } else if z == 256 {
        bits.BufferedIs();
        return if bits.hitZeofOnce && bits.numBits < 16 then Bad else End;
      } else {
        if z >= 286 {
          return Bad;
        }
        ok := CopyToken(z - 257, zd, dl);
      }
      r := if ok then More else Bad;
    }

    /** `stbi__parse_huffman_block`: on success the block's meaning has been appended; it fails exactly
        when the block has no meaning, the supply of bits runs dry, or the output does not fit. */
    method HuffmanBlock(zl: ZHuffman, zd: ZHuffman, ghost ll: seq<nat>, ghost dl: seq<nat>) returns (ok: bool)
      requires Valid() && |ll| <= 288 && Tables(ll, zl) && Tables(dl, zd)
      modifies this`zout, this`n, zout, bits
      ensures Valid() && Room() == old(Room()) && (zout == old(zout) || fresh(zout))
      ensures var b, w := CompressedBlock(ll, dl, bits.data, old(bits.at), old(Out())), CompressedSupply(ll, dl, bits.data, old(bits.at), old(Out()), old(bits.Stock()));
              (ok <==> b.Done? && w.Loaded? && |b.out| <= Room()) && (ok ==> b == Done(bits.at, Out()) && bits.Stock() == w)
    {
      hide Tables, CompressedBlock, CompressedSupply, ReadToken, TokenSupply, Cap;
      ghost var p0, out0, w0 := bits.at, Out(), bits.Stock();
      ghost var k: nat := 0;
      while true
        invariant Valid() && Room() == old(Room()) && (zout == old(zout) || fresh(zout))
        invariant ReadTokens(ll, dl, bits.data, p0, out0, k) == Running(bits.at, Out())
        invariant TokensSupply(ll, dl, bits.data, p0, out0, w0, k) == bits.Stock()
        decreases UINT_MAX - n
      {
        BlockMeaning(ll, dl, bits.data, p0, out0, k);
        BlockMeaning(ll, dl, bits.data, p0, out0, k + 1);
        CompressedSupplyIs(ll, dl, bits.data, p0, out0, w0, k + 1);
        var r := OneToken(zl, zd, ll, dl);
        if !r.More? {
          return r.End?;
        }
        k := k + 1;
      }
    }
  
    /** The first part of `stbi__compute_huffman_codes`: the lengths of the code length alphabet. */
    method CodeLengthCode(hclen: nat) returns (sizes: seq<nat>)
      requires Valid() && hclen <= 19
      modifies bits
      ensures Valid() && bits.at == old(bits.at) + 3 * hclen
      ensures sizes == CodeLengthSizes(bits.data, old(bits.at), hclen)
      ensures bits.Stock() == SizesSupply(old(bits.Stock()), old(bits.at), hclen)
    {
      hide BitBuffer.Valid, CodeOrder, ReceiveSupply, Take;
      var a := new nat[19](_ => 0);
      ghost var p := bits.at;
      for i := 0 to hclen
        invariant Valid() && bits.at == p + 3 * i
        invariant a[..] == CodeLengthSizes(bits.data, p, i) && bits.Stock() == SizesSupply(old(bits.Stock()), p, i)
      {
        var s := bits.Receive(3);
        ghost var was := a[..];
        a[CodeOrder(i)] := s;
        assert a[..] == was[CodeOrder(i) := s];
      }
      sizes := a[..];
    }

    /** How often a repetition symbol repeats. */
    method RepeatTimes(c: nat) returns (times: nat)
      requires Valid() && 16 <= c <= 18
      modifies bits
      ensures Valid() && bits.at == old(bits.at) + RepeatExtra(c)
      ensures times == Take(bits.data, old(bits.at), RepeatExtra(c)) + RepeatBase(c)
      ensures bits.Stock() == ReceiveSupply(old(bits.Stock()), old(bits.at), RepeatExtra(c))
    {
      if c == 16 {
        times := bits.Receive(2);
        times := times + 3;
      } else if c == 17 {
        times := bits.Receive(3);
        times := times + 3;
      } else {
        times := bits.Receive(7);
        times := times + 11;
      }
    }

    /** One round of the loop that reads code lengths into `lencodes`. */
    method OneLength(zc: ZHuffman, ghost cl: seq<nat>, lencodes: array<nat>, m: nat, total: nat) returns (ok: bool, m': nat)
      requires Valid() && Tables(cl, zc) && m < total <= lencodes.Length
      requires forall i | 0 <= i < m :: lencodes[i] <= 15
      modifies bits, lencodes
      ensures Valid() && (ok ==> m < m')
      ensures var r, w := LengthSymbol(cl, bits.data, old(bits.at), old(lencodes[..m]), total), LengthSupply(cl, bits.data, old(bits.at), old(bits.Stock()));
              (ok <==> r.Lengths? && w.Loaded?) &&
              (ok ==> m' <= total && r == Lengths(bits.at, lencodes[..m']) && bits.Stock() == w)
    {
      hide Tables, SymbolAt, BitBuffer.Valid, DecodeSupply, Take;
      ok, m' := false, m;
      var c := bits.Decode(zc, cl);
      if c < 0 || c >= 19 {
        return;
      }
      ghost var was := lencodes[..m];
      if c < 16 {
        lencodes[m] := c;
        m' := m + 1;
        assert lencodes[..m'] == was + [c];
      } else {
        var times := RepeatTimes(c);
        if c == 16 && m == 0 {
          return;
        }
        var fill := if c == 16 then lencodes[m - 1] else 0;
        if total - m < times {
          return;
        }
        forall i | m <= i < m + times {
          lencodes[i] := fill;
        }
        m' := m + times;
        assert lencodes[..m'] == was + Repeat(fill, times);
      }
      ok := true;
    }
  
    /** The loop that reads the code lengths of both alphabets. */
    method CodeLengths(zc: ZHuffman, ghost cl: seq<nat>, total: nat) returns (ok: bool, lens: seq<nat>)
      requires Valid() && Tables(cl, zc) && total <= 320
      modifies bits
      ensures Valid()
      ensures var r, w := ReadLengths(cl, bits.data, old(bits.at), [], total), LengthsSupply(cl, bits.data, old(bits.at), [], total, old(bits.Stock()));
              (ok <==> r.Lengths? && w.Loaded?) && (ok ==> r == Lengths(bits.at, lens) && bits.Stock() == w)
    {
      hide Tables, LengthSymbol, LengthSupply, BitBuffer.Valid;
      var lencodes := new nat[286 + 32 + 137](_ => 0);
      var m := 0;
      ghost var p, w := bits.at, bits.Stock();
      while m < total
        invariant Valid() && m <= total && forall i | 0 <= i < m :: lencodes[i] <= 15
        invariant ReadLengths(cl, bits.data, p, [], total) == ReadLengths(cl, bits.data, bits.at, lencodes[..m], total)
        invariant LengthsSupply(cl, bits.data, p, [], total, w) == LengthsSupply(cl, bits.data, bits.at, lencodes[..m], total, bits.Stock())
        decreases total - m
      {
        ghost var next := LengthSymbol(cl, bits.data, bits.at, lencodes[..m], total);
        if next.Lengths? {
          LengthsSupplyDry(cl, bits.data, next.p, next.lens, total);
        }
        ok, m := OneLength(zc, cl, lencodes, m, total);
        if !ok {
          return false, [];
        }
      }
      return true, lencodes[..total];
    }

    /** `stbi__compute_huffman_codes` */
    method ComputeCodes() returns (ok: bool, zl: ZHuffman, zd: ZHuffman, ghost ll: seq<nat>, ghost dl: seq<nat>)
      requires Valid()
      modifies bits
      ensures Valid()
      ensures var c, w := DynamicCodes(bits.data, old(bits.at)), CodesSupply(bits.data, old(bits.at), old(bits.Stock()));
              (ok <==> c.Codes? && w.Loaded?) &&
              (ok ==> c == Codes(bits.at, ll, dl) && bits.Stock() == w && Tables(ll, zl) && Tables(dl, zd))
    {
      hide Tables, ReadLengths, LengthsSupply, ReceiveSupply, SizesSupply, BitBuffer.Valid, CodeLengthSizes, Kraft, Take;
      var none := ZHuffman([], [], [], [], [], []);
      ok, zl, zd, ll, dl := false, none, none, [], [];
      HeaderCounts(bits.data, bits.at);
      var hlit := bits.Receive(5);
      var hdist := bits.Receive(5);
      var hclen := bits.Receive(4);
      hlit, hdist, hclen := hlit + 257, hdist + 1, hclen + 4;
      var sizes := CodeLengthCode(hclen);
      var c := BuildHuffman(sizes);
      if c.BadSizes? {
        return;
      }
      var read, lens := CodeLengths(c.z, sizes, hlit + hdist);
      if !read {
        return;
      }
      ll, dl := lens[..hlit], lens[hlit..];
      var l := BuildHuffman(lens[..hlit]);
      if l.BadSizes? {
        return;
      }
      var d := BuildHuffman(lens[hlit..]);
      if d.BadSizes? {
        return;
      }
      return true, l.z, d.z, ll, dl;
    }

    /** `stbi__parse_uncompressed_block` */
    method StoredBlockBody() returns (ok: bool)
      requires Valid()
      modifies this`zout, this`n, zout, bits
      ensures Valid() && Room() == old(Room()) && (zout == old(zout) || fresh(zout))
      ensures var b := StoredBlock(bits.data, (old(bits.at) + 7) / 8, old(Out()));
              (ok <==> b.Done? && |b.out| <= Room()) && (ok ==> b == Done(bits.at, Out()) && bits.Stock() == old(bits.Stock()).(bytes := b.p / 8))
    {
      hide BitBuffer.Valid, StoredBlock, Word, Cap;
      ghost var a := (bits.at + 7) / 8;
      var header := bits.AlignAndDrain();
      assert bits.at == 8 * (a + |header|);
      var len, nlen := bits.StoredHeader(header, a);
      if nlen != 65535 - len {
        StoredRefused(a, Out());
        return false;
      }
      if bits.pos + len > |bits.data| {
        StoredRefused(a, Out());
        return false;
      }
      HeaderInside(a, len);
      StoredMeaning(a, len, Out());
      ok := PutStored(len);
      if ok {
        bits.SkipBytes(len);
      }
    }

    /** A header that ends past the input has zeros for its last byte, so its length does not fit either. */
    lemma HeaderInside(a: nat, len: nat)
      requires len == Word(bits.data, a) && Word(bits.data, a + 2) == 65535 - len
      requires (if a + 4 <= |bits.data| then a + 4 else |bits.data|) + len <= |bits.data|
      ensures a + 4 + len <= |bits.data|
    {
    }

    lemma StoredRefused(a: nat, out: seq<Byte>)
      requires Word(bits.data, a + 2) != 65535 - Word(bits.data, a) || a + 4 + Word(bits.data, a) > |bits.data|
      ensures StoredBlock(bits.data, a, out) == Failed
    {
    }

    /** What a stored block with a consistent header means. */
    lemma StoredMeaning(a: nat, len: nat, out: seq<Byte>)
      requires len == Word(bits.data, a) && Word(bits.data, a + 2) == 65535 - len && a + 4 + len <= |bits.data|
      ensures StoredBlock(bits.data, a, out) == Done(8 * (a + 4 + len), out + bits.data[a + 4..a + 4 + len])
    {
    }

    /** Copying `len` bytes of the input to the output. */
    method PutStored(len: nat) returns (ok: bool)
      requires Valid() && bits.pos + len <= |bits.data|
      modifies this`zout, this`n, zout
      ensures Valid() && Room() == old(Room()) && (zout == old(zout) || fresh(zout))
      ensures Out() == if ok then old(Out()) + bits.data[bits.pos..bits.pos + len] else old(Out())
      ensures ok <==> old(n) + len <= Room()
    {
      hide BitBuffer.Valid, Cap;
      if n + len > zout.Length {
        ok := Expand(len);
        if !ok {
          return;
        }
      }
      ghost var out := Out();
      forall i | 0 <= i < len {
        zout[n + i] := bits.data[bits.pos + i];
      }
      n := n + len;
      assert Out() == out + bits.data[bits.pos..bits.pos + len];
      ok := true;
    }

    /** The tables of the fixed codes, which are always accepted. */
    method FixedTables() returns (zl: ZHuffman, zd: ZHuffman)
      ensures Tables(FIXED_LL, zl) && Tables(FIXED_DL, zd)
    {
      FixedCodesComplete();
      hide Tables, KraftSum, FIXED_LL, FIXED_DL;
      var l := BuildHuffman(FIXED_LL);
      var d := BuildHuffman(FIXED_DL);
      zl, zd := l.z, d.z;
    }

    /** The body of one block, by type. */
    method BlockOf(kind: nat) returns (ok: bool)
      requires Valid()
      modifies this`zout, this`n, zout, bits
      ensures Valid() && Room() == old(Room()) && (zout == old(zout) || fresh(zout))
      ensures var b, w := BlockBody(kind, bits.data, old(bits.at), old(Out())), BodySupply(kind, bits.data, old(bits.at), old(Out()), old(bits.Stock()));
              (ok <==> b.Done? && w.Loaded? && |b.out| <= Room()) && (ok ==> b == Done(bits.at, Out()) && bits.Stock() == w)
    {
      hide Tables, BitBuffer.Valid, StoredBlock, CompressedBlock, CompressedSupply, CodesSupply, DynamicCodes, FIXED_LL, FIXED_DL, Cap;
      FixedLengthsValid();
      if kind == 0 {
        ok := StoredBlockBody();
      } else if kind == 1 {
        var zl, zd := FixedTables();
        ok := HuffmanBlock(zl, zd, FIXED_LL, FIXED_DL);
      } else if kind == 2 {
        var zl, zd;
        ghost var ll, dl;
        ghost var c := DynamicCodes(bits.data, bits.at);
        if c.Codes? {
          CompressedSupplyDry(c.ll, c.dl, bits.data, c.p, Out());
        }
        ok, zl, zd, ll, dl := ComputeCodes();
        if ok {
          ok := HuffmanBlock(zl, zd, ll, dl);
        }
      } else {
        ok := false;
      }
    }

    /** The block loop of `stbi__parse_zlib`; it ends because no block starts in the padding. */
    method Blocks() returns (ok: bool)
      requires Valid() && n == 0 && bits.Stock() == Loaded(bits.at / 8, false)
      modifies this`zout, this`n, zout, bits
      ensures Valid() && Room() == old(Room()) && (zout == old(zout) || fresh(zout))
      ensures var b, w := Inflated(bits.data, old(bits.at)), StreamSupply(bits.data, old(bits.at));
              (ok <==> b.Done? && w.Loaded? && |b.out| <= Room()) && (ok ==> b == Done(bits.at, Out()))
    {
      hide BitBuffer.Valid, BlockBody, BodySupply, ReceiveSupply, Inflated, StreamSupply, Take, Cap;
      ghost var p0, w0 := bits.at, bits.Stock();
      ghost var k: nat := 0;
      while true
        invariant Valid() && Room() == old(Room()) && (zout == old(zout) || fresh(zout))
        invariant ReadBlocks(bits.data, p0, [], k) == Running(bits.at, Out())
        invariant BlocksSupply(bits.data, p0, [], w0, k) == bits.Stock()
        decreases if bits.at < 8 * |bits.data| then 8 * |bits.data| - bits.at else 0
      {
        StreamMeaning(bits.data, p0, k + 1);
        StreamSupplyIs(bits.data, p0, k + 1);
        ReadBlockGrows(bits.data, bits.at, Out());
        if bits.at >= 8 * |bits.data| {
          NothingInThePadding(bits.data, bits.at, Out());
        }
        var final := bits.Receive(1);
        var kind := bits.Receive(2);
        ok := BlockOf(kind);
        if !ok {
          return;
        }
        if final == 1 {
          return;
        }
        k := k + 1;
      }
    }
  }

  datatype Round = More | End | Bad

  /** The zlib wrapper `stbi__parse_zlib_header` accepts: a method of 8, a good check value, no preset
      dictionary, and at least one byte after the two header bytes. */
  predicate HeaderOk(input: seq<Byte>)
  {
    |input| > 2 && (256 * (input[0] as int) + input[1]) % 31 == 0 && BitOf(input[1], 5) == 0 && Low(input[0], 4) == 8
  }

  /** The outputs that fit: a growing buffer can be doubled until it is past half the range of its size. */
  function Capacity(initialSize: nat, expandable: bool): (c: nat)
    requires initialSize <= UINT_MAX && (expandable ==> initialSize >= 1)
    ensures expandable ==> c >= 0x8000_0000
  {
    if expandable then Cap(initialSize) else initialSize
  }

  /** `stbi__do_zlib`, on every input: it succeeds exactly when the wrapper is good, the stream has a meaning
      that fits, and the supply of bits does not run dry, and then it returns that meaning. */
  method DoZlib(input: seq<Byte>, initialSize: nat, expandable: bool, parseHeader: bool) returns (ok: bool, out: seq<Byte>)
    requires initialSize <= UINT_MAX && (expandable ==> initialSize >= 1)
    ensures var p := if parseHeader then 16 else 0;
            var b := Inflated(input, p);
            (ok <==> (parseHeader ==> HeaderOk(input)) && b.Done? && |b.out| <= Capacity(initialSize, expandable) && StreamSupply(input, p).Loaded?) &&
            (ok ==> out == b.out && b.p <= 8 * |input| + 136)
  {
    hide Inflated, StreamSupply, HeaderOk, Cap;
    if parseHeader && !HeaderOk(input) {
      return false, [];
    }
    assert parseHeader ==> |input| > 2 by { HeaderHasBytes(input); }
    var a := new ZBuf(input, if parseHeader then 2 else 0, initialSize, expandable);
    SuppliedEndsSoon(input, a.bits.at);
    ok := a.Blocks();
    out := a.zout[..a.n];
  }

  /** The initial size of a growing buffer makes no difference, unless the output is larger than 2^31 bytes. */
  method InitialSizeIsIrrelevant(input: seq<Byte>, size1: nat, size2: nat, parseHeader: bool)
    returns (ok1: bool, out1: seq<Byte>, ok2: bool, out2: seq<Byte>)
    requires 1 <= size1 <= UINT_MAX && 1 <= size2 <= UINT_MAX
    ensures var b := Inflated(input, if parseHeader then 16 else 0);
            (b.Done? ==> |b.out| <= 0x8000_0000) ==> ok1 == ok2 && (ok1 ==> out1 == out2)
  {
    hide Inflated, StreamSupply, HeaderOk;
    ok1, out1 := DoZlib(input, size1, true, parseHeader);
    ok2, out2 := DoZlib(input, size2, true, parseHeader);
  }

  /** A stream that stops before the end of its only block is accepted, although its meaning needs two
      bits of padding: the end-of-block test does not count the zero bytes that refilling the buffer adds. */
  method AcceptsTruncated() returns (ok: bool, out: seq<Byte>)
    ensures ok && out == [] && Inflated(TRUNCATED, 0) == Done(10, []) && 10 > 8 * |TRUNCATED|
  {
    hide Inflated, StreamSupply, EmptyFixedBlock;
    TruncatedExample();
    EmptyFixedSupplied(TRUNCATED, 0);
    ok, out := DoZlib(TRUNCATED, 1, true, false);
  }

  /** The two bytes in front of a zlib stream (section 2.2 of RFC 1950): method and window size, then level and
      dictionary bit with the check bits that make the two a multiple of 31. */
  function ZlibHeader(cm: nat, cinfo: nat, level: nat, dictionary: bool): (h: seq<Byte>)
    requires cm < 16 && cinfo < 16 && level < 4
    ensures |h| == 2
  {
    var cmf := 16 * cinfo + cm;
    var flags := 64 * level + if dictionary then 32 else 0;
    [cmf, flags + (31 - (256 * cmf + flags) % 31) % 31]
  }

  /** What the header test looks at: four bits for the method, one for the dictionary, and the check value. */
  lemma HeaderBits(input: seq<Byte>)
    ensures HeaderOk(input) <==>
            |input| > 2 && input[0] % 16 == 8 && input[1] / 32 % 2 == 0 && (256 * (input[0] as int) + input[1]) % 31 == 0
  {
    if |input| > 2 {
      LowNibble(input[0]);
      BitFive(input[1]);
    }
  }

  lemma LowNibble(v: nat)
    ensures Low(v, 4) == v % 16
  {
    hide Low, Shr;
    SplitAt(v, 4);
    SmallShifts(Shr(v, 4));
  }

  lemma BitFive(v: nat)
    ensures BitOf(v, 5) == v / 32 % 2
  {
    hide Low, Shr;
    SplitAt(v, 5);
    SmallShifts(Shr(v, 5));
  }

  lemma SmallShifts(w: nat)
    ensures Pow2(4) == 16 && Shl(w, 4) == 16 * w && Pow2(5) == 32 && Shl(w, 5) == 32 * w
  {
    assert Shl(w, 0) == w;
    assert Shl(w, 1) == 2 * w;
    assert Shl(w, 2) == 4 * w;
    assert Shl(w, 3) == 8 * w;
    assert Shl(w, 4) == 16 * w;
    SmallPowers();
  }

  /** A header with good check bits is accepted for method 8 without a dictionary, and for nothing else. */
  lemma HeaderDecides(cm: nat, cinfo: nat, level: nat, dictionary: bool, rest: seq<Byte>)
    requires cm < 16 && cinfo < 16 && level < 4
    ensures HeaderOk(ZlibHeader(cm, cinfo, level, dictionary) + rest) <==> cm == 8 && !dictionary && rest != []
  {
    hide HeaderOk;
    var h := ZlibHeader(cm, cinfo, level, dictionary);
    var cmf, flags := 16 * cinfo + cm, 64 * level + if dictionary then 32 else 0;
    HeaderBits(h + rest);
    CheckBits(256 * cmf + flags);
    assert (h + rest)[0] == cmf && (h + rest)[1] == flags + (31 - (256 * cmf + flags) % 31) % 31;
    FlagBits(level, dictionary, (31 - (256 * cmf + flags) % 31) % 31);
  }

  lemma CheckBits(n: nat)
    ensures (n + (31 - n % 31) % 31) % 31 == 0
  {
    var q, r := n / 31, n % 31;
    assert n == 31 * q + r;
    if r > 0 {
      assert n + (31 - r) == 31 * (q + 1);
    }
  }

  lemma FlagBits(level: nat, dictionary: bool, check: nat)
    requires check < 32
    ensures (64 * level + (if dictionary then 32 else 0) + check) / 32 % 2 == if dictionary then 1 else 0
  {
    var d := if dictionary then 1 else 0;
    assert 64 * level + 32 * d + check == 32 * (2 * level + d) + check;
  }

  /** Nothing can be read from an empty input. */
  lemma EmptyInput()
    ensures Inflated([], 0).Failed?
  {
    hide ReadBlock, ReadBlocks;
    NothingInThePadding([], 0, []);
    ReadOneBlock([], 0, []);
    StreamMeaning([], 0, 1);
  }

  /** The wrapper changes nothing: behind a header for method 8 a stream is decoded as it is alone. */
  method DecodeWrapped(data: seq<Byte>, cinfo: nat, level: nat, initialSize: nat, expandable: bool)
    returns (ok1: bool, out1: seq<Byte>, ok2: bool, out2: seq<Byte>)
    requires cinfo < 16 && level < 4 && initialSize <= UINT_MAX && (expandable ==> initialSize >= 1)
    ensures ok1 == ok2 && (ok1 ==> out1 == out2)
  {
    hide Inflated, StreamSupply, HeaderOk, ZlibHeader;
    var h := ZlibHeader(8, cinfo, level, false);
    HeaderDecides(8, cinfo, level, false, data);
    MeaningShift(h, data, 0);
    StreamOn(h, data);
    EmptyInput();
    ok1, out1 := DoZlib(h + data, initialSize, expandable, true);
    ok2, out2 := DoZlib(data, initialSize, expandable, false);
  }

  /** A header for another method, or with a dictionary, is refused whatever follows. */
  method RefuseOther(data: seq<Byte>, cm: nat, cinfo: nat, level: nat, dictionary: bool, initialSize: nat, expandable: bool)
    returns (ok: bool, out: seq<Byte>)
    requires cm < 16 && cinfo < 16 && level < 4 && initialSize <= UINT_MAX && (expandable ==> initialSize >= 1)
    requires cm != 8 || dictionary
    ensures !ok
  {
    hide Inflated, StreamSupply, HeaderOk, ZlibHeader;
    HeaderDecides(cm, cinfo, level, dictionary, data);
    ok, out := DoZlib(ZlibHeader(cm, cinfo, level, dictionary) + data, initialSize, expandable, true);
  }

  lemma HeaderHasBytes(input: seq<Byte>)
    ensures HeaderOk(input) ==> |input| > 2
  {
  }
}
