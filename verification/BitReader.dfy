/** The bit buffer of `stbi__zbuf`: refilling, plain reads, Huffman decoding and byte drains. */
module BitReader {
  import opened Wrappers
  import opened Bits
  import opened Canonical
  import opened Huffman
  import opened Deflate
  import opened Refill

  // ---------------------------------------------------------------- what a table lookup finds

  /** With nine buffered bits as index, the fast table's matches are the short codes at p. */
  lemma {:induction false} FastIffMatch(lens: seq<nat>, i: nat, data: seq<Byte>, p: nat)
    requires ValidLengths(lens) && Kraft(lens) && i < |lens| && 1 <= lens[i] <= ZFAST_BITS
    ensures FastMatch(lens, i, Take(data, p, ZFAST_BITS)) <==> Matches(lens, i, data, p)
  {
    var l := lens[i];
    CodeFits(lens, i);
    TakeLowShr(data, p, l, ZFAST_BITS);
    TakeBound(data, p, l);
    RevTake(data, p, l);
    RevRev(Take(data, p, l), l);
    RevRev(Code(lens, i), l);
  }

  /** A nonzero fast entry gives the matching symbol and its length. */
  lemma {:induction false} FastHit(lens: seq<nat>, z: ZHuffman, data: seq<Byte>, p: nat)
    requires Tables(lens, z)
    ensures Take(data, p, ZFAST_BITS) < 512
    ensures var b := z.fast[Take(data, p, ZFAST_BITS)];
            b != 0 ==> var i := Low(b, ZFAST_BITS); Matches(lens, i, data, p) && lens[i] == Shr(b, ZFAST_BITS) <= ZFAST_BITS
  {
    Pow2Values();
    TakeBound(data, p, ZFAST_BITS);
    var j := Take(data, p, ZFAST_BITS);
    if z.fast[j] != 0 {
      var i: nat :| i < |lens| && FastMatch(lens, i, j);
      FastIffMatch(lens, i, data, p);
      FastEntryParts(lens[i], i);
    }
  }

  /** A zero fast entry means the next 16 bits lie past all codes of up to nine bits. */
  lemma {:induction false} FastMiss(lens: seq<nat>, z: ZHuffman, data: seq<Byte>, p: nat)
    requires Tables(lens, z) && Take(data, p, ZFAST_BITS) < 512 && z.fast[Take(data, p, ZFAST_BITS)] == 0
    ensures z.maxcode[9] <= Msb(data, p, 16)
  {
    var k := Msb(data, p, 16);
    if k < Shl(EndCode(lens, 9), 16 - 9) {
      var i := NoGaps(lens, 9, k, 16);
      MsbPrefix(data, p, lens[i], 16);
      FastIffMatch(lens, i, data, p);
      FastEntryParts(lens[i], i);
    }
  }

  /** The first length whose codes reach past k holds k's code, in the slot the source computes. */
  lemma {:induction false} SlowHit(lens: seq<nat>, z: ZHuffman, data: seq<Byte>, p: nat, s: nat) returns (i: nat)
    requires Tables(lens, z) && 10 <= s <= 15 && z.maxcode[s - 1] <= Msb(data, p, 16) < z.maxcode[s]
    ensures Matches(lens, i, data, p) && lens[i] == s
    ensures Slot(lens, i) == Shr(Msb(data, p, 16), 16 - s) - z.firstcode[s] + z.firstsymbol[s]
    ensures Slot(lens, i) < ZNSYMS && z.size[Slot(lens, i)] == s && z.value[Slot(lens, i)] == i
  {
    var k := Msb(data, p, 16);
    i := NoGaps(lens, s, k, 16);
    MsbPrefix(data, p, lens[i], 16);
    if lens[i] < s {
      PastTheEnd(lens, i, s - 1, k, 16);
    }
  }

  /** Past the longest codes nothing matches. */
  lemma {:induction false} SlowMiss(lens: seq<nat>, z: ZHuffman, data: seq<Byte>, p: nat)
    requires Tables(lens, z) && z.maxcode[15] <= Msb(data, p, 16)
    ensures SymbolAt(lens, data, p) == -1
  {
    var s := SymbolAt(lens, data, p);
    if s >= 0 {
      MsbPrefix(data, p, lens[s], 16);
      PastTheEnd(lens, s, 15, Msb(data, p, 16), 16);
    }
  }

  /** Reversing the low 16 buffered bits reads them most significant first. */
  lemma {:induction false} TopBits(data: seq<Byte>, p: nat, n: nat)
    requires n >= 16
    ensures BitReverse(Take(data, p, n), 16) == Msb(data, p, 16) < 65536
  {
    Pow2Values();
    BitReverse16IsRev(Take(data, p, n));
    TakeLowShr(data, p, 16, n);
    RevLow(Take(data, p, n), 16);
    RevTake(data, p, 16);
    MsbBound(data, p, 16);
  }

  class BitBuffer {
    const data: seq<Byte>
    var pos: nat            // zbuffer: the next input byte
    var numBits: int
    var codeBuffer: nat
    var hitZeofOnce: bool
    ghost var at: nat       // stream bits consumed so far
    ghost var loaded: nat   // stream bytes that have entered the buffer, padding included

    /** The buffer holds the next `numBits` bits of the zero-padded stream.  Bytes enter whole, so the
        buffered stretch ends on a byte boundary: the read position until the input ends, and a place in
        the padding afterwards, at least two bytes in once the speculative padding was added. */
    ghost predicate Valid()
      reads this
    {
      0 <= numBits <= 32 && pos <= |data| &&
      codeBuffer == Take(data, at, numBits) &&
      at + numBits == 8 * loaded && loaded >= pos && (pos < |data| ==> loaded == pos) &&
      (hitZeofOnce ==> pos == |data| && loaded >= |data| + 2)
    }

    /** How far the buffer has been loaded. */
    ghost function Stock(): Supply
      reads this
    {
      Loaded(loaded, hitZeofOnce)
    }

    lemma BufferedIs()
      requires Valid()
      ensures numBits == Buffered(Stock(), at)
    {
    }

    lemma ReceiveNothing()
      requires Valid()
      ensures ReceiveSupply(Stock(), at, 0) == Stock() && Take(data, at, 0) == 0
    {
    }

    constructor (input: seq<Byte>, start: nat)
      requires start <= |input|
      ensures Valid() && data == input && pos == start && numBits == 0 && at == 8 * start && Stock() == Loaded(start, false)
    {
      data, pos, numBits, codeBuffer, hitZeofOnce := input, start, 0, 0, false;
      at, loaded := 8 * start, start;
    }

    predicate Eof()
      reads this
    {
      pos >= |data|
    }

    /** `stbi__zget8` */
    method Get8() returns (b: Byte)
      requires pos <= |data|
      modifies this`pos
      ensures pos == if old(pos) < |data| then old(pos) + 1 else old(pos)
      ensures b == if old(pos) < |data| then data[old(pos)] else 0
    {
      if Eof() {
        b := 0;
      } else {
        b := data[pos];
        pos := pos + 1;
      }
    }

    /** The invariant makes the guard on line 4205 false. */
    lemma NoStrayBits()
      requires Valid()
      ensures codeBuffer < Shl(1, numBits) == Pow2(numBits)
    {
      TakeBound(data, at, numBits);
      ShlOne(numBits);
    }

    /** One more byte on top of the buffered bits. */
    lemma AppendByte(b: Byte)
      requires Valid()
      requires b == if loaded < |data| then data[loaded] else 0
      ensures Or(codeBuffer, Shl(b, numBits)) == Take(data, at, numBits + 8)
    {
      NoStrayBits();
      OrDisjoint(codeBuffer, b, numBits);
      TakeByte(data, loaded);
      TakeAppend(data, at, numBits, 8);
    }

    /** `stbi__fill_bits`: at least 25 bits are buffered afterwards and none was consumed. */
    method FillBits()
      requires Valid() && numBits <= 24
      modifies this`pos, this`numBits, this`codeBuffer, this`loaded
      ensures Valid() && 25 <= numBits <= 32 && loaded == at / 8 + 4
    {
      while true
        invariant Valid() && numBits <= 24
        decreases 24 - numBits
      {
        NoStrayBits();
        if codeBuffer >= Shl(1, numBits) {
          assert false;  // line 4205, the "treat this as EOF" branch: never taken
        }
        AppendByte(if loaded < |data| then data[loaded] else 0);
        var b := Get8();
        loaded := loaded + 1;
        codeBuffer := Or(codeBuffer, Shl(b, numBits));
        numBits := numBits + 8;
        if numBits > 24 {
          break;
        }
      }
    }

    /** Shifting out n buffered bits consumes them. */
    method Drop(n: nat)
      requires Valid() && n <= numBits
      modifies this`numBits, this`codeBuffer, this`at
      ensures Valid() && at == old(at) + n && numBits == old(numBits) - n
    {
      TakeLowShr(data, at, n, numBits);
      codeBuffer := Shr(codeBuffer, n);
      numBits := numBits - n;
      at := at + n;
    }

    /** `stbi__zreceive`: the next n stream bits, least significant first. */
    method Receive(n: nat) returns (k: nat)
      requires Valid() && n <= 25
      modifies this`pos, this`numBits, this`codeBuffer, this`at, this`loaded
      ensures Valid() && k == Take(data, old(at), n) && at == old(at) + n
      ensures n <= old(numBits) ==> pos == old(pos) && numBits == old(numBits) - n
      ensures Stock() == ReceiveSupply(old(Stock()), old(at), n)
    {
      if numBits < n {
        FillBits();
      }
      TakeLowShr(data, at, n, numBits);
      k := Low(codeBuffer, n);
      Drop(n);
    }

    /** `stbi__zhuffman_decode_slowpath` */
    method DecodeSlow(z: ZHuffman, ghost lens: seq<nat>) returns (r: int)
      requires Valid() && numBits >= 16 && Tables(lens, z) && z.maxcode[9] <= Msb(data, at, 16)
      modifies this`numBits, this`codeBuffer, this`at
      ensures Valid() && r == SymbolAt(lens, data, old(at))
      ensures at == if r < 0 then old(at) else old(at) + lens[r]
    {
      hide SymbolAt, Msb, BitReverse, Shr, Slot, Matches, FastTable, Kraft, ValidLengths;
      TopBits(data, at, numBits);
      var k := BitReverse(codeBuffer, 16);
      var s := ZFAST_BITS + 1;
      while !(k < z.maxcode[s])
        invariant 10 <= s <= 16 && z.maxcode[s - 1] <= k
        decreases 16 - s
      {
        s := s + 1;
      }
      if s >= 16 {
        SlowMiss(lens, z, data, at);
        return -1;
      }
      ghost var i := SlowHit(lens, z, data, at, s);
      SymbolAtIs(lens, i, data, at);
      var b := Shr(k, 16 - s) - z.firstcode[s] + z.firstsymbol[s];
      if b >= ZNSYMS {
        assert false;  // line 4236: never taken
      }
      if z.size[b] != s {
        assert false;  // line 4237: never taken
      }
      Drop(s);
      r := z.value[b];
    }

    /** The first time the input runs out, 16 zero bits are taken as read. */
    method PadOnce()
      requires Valid() && numBits < 16 && Eof()
      modifies this`hitZeofOnce, this`numBits, this`loaded
      ensures Valid() && 16 <= numBits < 32 && hitZeofOnce && loaded == old(loaded) + 2
    {
      hitZeofOnce := true;
      TakeAppend(data, at, numBits, 16);
      TakePadding(data, at + numBits, 16);
      ShlOne(numBits);
      numBits := numBits + 16;
      loaded := loaded + 2;
    }

    /** The first part of `stbi__zhuffman_decode`: 16 bits, or the supply runs dry. */
    method Provide() returns (ok: bool)
      requires Valid()
      modifies this`pos, this`numBits, this`codeBuffer, this`loaded, this`hitZeofOnce
      ensures Valid()
      ensures var w := DecodeSupply(data, old(Stock()), at);
              if ok then numBits >= 16 && Stock() == w else w.Dry? && at > 8 * |data|
    {
      hide Take;
      if numBits < 16 {
        if Eof() {
          if !hitZeofOnce {
            PadOnce();
          } else {
            return false;
          }
        } else {
          FillBits();
        }
      }
      ok := true;
    }

    /** The second part: the fast table, then the slow search. */
    method Lookup(z: ZHuffman, ghost lens: seq<nat>) returns (r: int)
      requires Valid() && numBits >= 16 && Tables(lens, z)
      modifies this`numBits, this`codeBuffer, this`at
      ensures Valid() && r == SymbolAt(lens, data, old(at))
      ensures at == if r < 0 then old(at) else old(at) + lens[r]
    {
      TakeLowShr(data, at, ZFAST_BITS, numBits);
      FastHit(lens, z, data, at);
      var b := z.fast[Low(codeBuffer, ZFAST_BITS)];
      if b != 0 {
        var s := Shr(b, ZFAST_BITS);
        SymbolAtIs(lens, Low(b, ZFAST_BITS), data, at);
        Drop(s);
        r := Low(b, ZFAST_BITS);
      } else {
        FastMiss(lens, z, data, at);
        r := DecodeSlow(z, lens);
      }
    }

    /** `stbi__zhuffman_decode`: the one symbol whose canonical code comes next, or -1.  A -1 also
        reports that the bits run out a second time, which happens exactly when the supply does. */
    method Decode(z: ZHuffman, ghost lens: seq<nat>) returns (r: int)
      requires Valid() && Tables(lens, z)
      modifies this
      ensures Valid()
      ensures var w := DecodeSupply(data, old(Stock()), old(at));
              if w.Dry? then r == -1 && at > 8 * |data| else Stock() == w && r == SymbolAt(lens, data, old(at))
      ensures at == if r < 0 then old(at) else old(at) + lens[r]
    {
      hide SymbolAt, Tables, DecodeSupply;
      var ok := Provide();
      if !ok {
        return -1;
      }
      r := Lookup(z, lens);
    }

    /** The start of `stbi__parse_uncompressed_block`: skip to a byte boundary and drain the buffered
        bytes, which are the next bytes of the padded stream; then the buffer is empty. */
    method AlignAndDrain() returns (header: seq<Byte>)
      requires Valid()
      modifies this`pos, this`numBits, this`codeBuffer, this`at, this`loaded
      ensures Valid() && numBits == 0 && pos == old(pos) && loaded == old(loaded)
      ensures |header| <= 4 && at == 8 * loaded && old(at) <= at - 8 * |header| < old(at) + 8
      ensures forall j: nat | j < |header| :: header[j] == PaddedByte(data, loaded - |header| + j)
    {
      var r := numBits % 8;
      ghost var m := numBits / 8;
      assert numBits == 8 * m + r && 0 <= r < 8;
      if r != 0 {
        var discarded := Receive(r);
      }
      header := Drain(m);
    }

    /** Draining whole bytes out of the buffer. */
    method Drain(ghost m: nat) returns (header: seq<Byte>)
      requires Valid() && numBits == 8 * m
      modifies this`numBits, this`codeBuffer, this`at
      ensures Valid() && numBits == 0
      ensures |header| == m && at == old(at) + 8 * m
      ensures forall j: nat | j < |header| :: header[j] == PaddedByte(data, loaded - |header| + j)
    {
      header := [];
      ghost var start := loaded - m;
      while numBits > 0
        invariant Valid() && numBits == 8 * (m - |header|) && at == 8 * (start + |header|)
        invariant forall j: nat | j < |header| :: header[j] == PaddedByte(data, start + j)
        decreases numBits
      {
        TakeLowShr(data, at, 8, numBits);
        TakeByte(data, start + |header|);
        header := header + [Low(codeBuffer, 8)];
        Drop(8);
      }
      if numBits < 0 {
        assert false;  // line 4422: never taken
      }
    }

    /** Filling the stored-block header from the input after the drained bytes. */
    method StoredHeader(drained: seq<Byte>, ghost a: nat) returns (len: nat, nlen: nat)
      requires Valid() && numBits == 0 && |drained| <= 4 && loaded == a + |drained|
      requires forall j: nat | j < |drained| :: drained[j] == PaddedByte(data, a + j)
      modifies this`pos, this`at, this`loaded
      ensures Valid() && loaded == a + 4 && pos == if loaded <= |data| then loaded else |data|
      ensures len == Word(data, a) && nlen == Word(data, a + 2)
    {
      var header := drained;
      while |header| < 4
        invariant Valid() && |header| <= 4 && loaded == a + |header|
        invariant forall j: nat | j < |header| :: header[j] == PaddedByte(data, a + j)
        decreases 4 - |header|
      {
        var b := Get8();
        header := header + [b];
        at, loaded := at + 8, loaded + 1;
      }
      len := LittleEndian(header[0], header[1]);
      nlen := LittleEndian(header[2], header[3]);
    }

    /** Bytes copied out directly are consumed whole. */
    method SkipBytes(k: nat)
      requires Valid() && numBits == 0 && loaded == pos && pos + k <= |data|
      modifies this`pos, this`at, this`loaded
      ensures Valid() && loaded == pos == old(pos) + k && at == 8 * pos
    {
      pos := pos + k;
      at, loaded := at + 8 * k, loaded + k;
    }
  }
}
