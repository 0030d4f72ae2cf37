/** The chunked transfer decoder of `rust_http_parser`, against section 7.1 of RFC 9112. */
module Chunked {
  import opened Wrappers

  const CR: Byte := 13
  const LF: Byte := 10
  const USIZE: nat := 0x1_0000_0000_0000_0000

  /** A decoded body, or a panic on slicing with a wrapped end. */
  datatype Outcome = Body(bytes: seq<Byte>) | Panic

  /** `hex_val` */
  function HexVal(b: Byte): (v: nat)
    ensures v < 16
  {
    if 48 <= b <= 57 then b - 48 else if 97 <= b <= 102 then b - 97 + 10 else if 65 <= b <= 70 then b - 65 + 10 else 0
  }

  const LOWER: seq<Byte> := [48, 49, 50, 51, 52, 53, 54, 55, 56, 57, 97, 98, 99, 100, 101, 102]   // "0123456789abcdef"
  const UPPER: seq<Byte> := [48, 49, 50, 51, 52, 53, 54, 55, 56, 57, 65, 66, 67, 68, 69, 70]      // "0123456789ABCDEF"

  /** b is the hexadecimal digit for v, in either case. */
  ghost predicate IsDigit(b: Byte, v: nat)
  {
    v < 16 && (b == LOWER[v] || b == UPPER[v])
  }

  /** Every digit has its value, in either case, and every other byte counts as 0. */
  lemma HexValIs(b: Byte, v: nat)
    ensures IsDigit(b, v) ==> HexVal(b) == v
    ensures (forall w: nat :: !IsDigit(b, w)) ==> HexVal(b) == 0
  {
    if HexVal(b) != 0 {
      assert IsDigit(b, HexVal(b));
    }
  }

  // ---------------------------------------------------------------- what the loops compute

  /** The size line from i on: where the data begins, and the size, which wraps at 64 bits. */
  function SizeLine(data: seq<Byte>, i: nat, size: nat): (r: (nat, nat))
    requires i <= |data| && size < USIZE
    ensures i <= r.0 <= |data| && r.1 < USIZE && (i < |data| ==> i < r.0)
    decreases |data| - i
  {
    if i == |data| then (i, size)
    else if data[i] == CR then SizeLine(data, i + 1, size)
    else if data[i] == LF then (i + 1, size)
    else SizeLine(data, i + 1, (size * 16 + HexVal(data[i])) % USIZE)
  }

  /** `std::cmp::min(i + size, data.len())`, with the addition wrapping. */
  function ChunkEnd(data: seq<Byte>, i: nat, size: nat): (r: nat)
    ensures r <= |data| && r <= (i + size) % USIZE && (r == |data| || r == (i + size) % USIZE)
  {
    var end := (i + size) % USIZE;
    if end < |data| then end else |data|
  }

  /** After a chunk, at most one CR and then at most one LF are skipped. */
  function SkipCrLf(data: seq<Byte>, i: nat): (j: nat)
    requires i <= |data|
    ensures i <= j <= |data|
  {
    var j := if i < |data| && data[i] == CR then i + 1 else i;
    if j < |data| && data[j] == LF then j + 1 else j
  }

  /** Whatever line end follows a chunk, in full, in part or none, is skipped and nothing else. */
  lemma SkipsLineEnd(data: seq<Byte>, i: nat, e: seq<Byte>)
    requires i + |e| <= |data| && data[i..i + |e|] == e && (e == [] || e == [CR] || e == [LF] || e == [CR, LF])
    requires i + |e| == |data| || (data[i + |e|] != CR && data[i + |e|] != LF)
    ensures SkipCrLf(data, i) == i + |e|
  {
    forall k | 0 <= k < |e| ensures data[i + k] == e[k] {
      assert data[i..i + |e|][k] == e[k];
    }
  }

  function Decoded(data: seq<Byte>, i: nat): (r: Outcome)
    requires i <= |data|
    ensures r.Body? ==> |r.bytes| <= |data| - i
    decreases |data| - i
  {
    if i == |data| then Body([])
    else
      var (start, size) := SizeLine(data, i, 0);
      var end := ChunkEnd(data, start, size);
      if size == 0 then Body([])
      else if end < start then Panic
      else
        match Decoded(data, SkipCrLf(data, end))
        case Panic => Panic
        case Body(rest) => Body(data[start..end] + rest)
  }

  /** The inner loop of `decode_chunked`. */
  method ReadSize(data: seq<Byte>, i0: nat) returns (i: nat, size: nat)
    requires i0 <= |data|
    ensures (i, size) == SizeLine(data, i0, 0)
  {
    i, size := i0, 0;
    while i < |data|
      invariant i0 <= i <= |data| && size < USIZE && SizeLine(data, i, size) == SizeLine(data, i0, 0)
    {
      var b := data[i];
      if b == CR {
        i := i + 1;
        continue;
      }
      if b == LF {
        i := i + 1;
        break;
      }
      size := (size * 16 + HexVal(b)) % USIZE;
      i := i + 1;
    }
  }

  /** `decode_chunked` */
  method DecodeChunked(data: seq<Byte>) returns (r: Outcome)
    ensures r == Decoded(data, 0)
  {
    hide Decoded, SizeLine, SkipCrLf, ChunkEnd;
    var result: seq<Byte> := [];
    var i := 0;
    ThenNothing(result, data);
    while i < |data|
      invariant i <= |data| && Then(result, Decoded(data, i)) == Decoded(data, 0)
      decreases |data| - i
    {
      DecodedStep(data, i);
      var size;
      i, size := ReadSize(data, i);
      if size == 0 {
        assert result + [] == result;
        return Body(result);
      }
      var end := ChunkEnd(data, i, size);
      if end < i {
        return Panic;
      }
      SkipsTo(data, end);
      ThenChunk(result, data[i..end], Decoded(data, SkipCrLf(data, end)));
      result := result + data[i..end];
      i := end;
      if i < |data| && data[i] == CR {
        i := i + 1;
      }
      if i < |data| && data[i] == LF {
        i := i + 1;
      }
    }
    ThenNothing(result, data);
    return Body(result);
  }

  lemma DecodedStep(data: seq<Byte>, i: nat)
    requires i < |data|
    ensures var (start, size) := SizeLine(data, i, 0);
            var end := ChunkEnd(data, start, size);
            i < start <= |data| && end <= |data| &&
            Decoded(data, i) == if size == 0 then Body([])
                                else if end < start then Panic
                                else Then(data[start..end], Decoded(data, SkipCrLf(data, end)))
  {
    hide SizeLine;
  }

  lemma SkipsTo(data: seq<Byte>, i: nat)
    requires i <= |data|
    ensures var j := if i < |data| && data[i] == CR then i + 1 else i;
            SkipCrLf(data, i) == if j < |data| && data[j] == LF then j + 1 else j
  {
  }

  lemma ThenNothing(result: seq<Byte>, data: seq<Byte>)
    ensures Then(result, Decoded(data, |data|)) == Body(result)
    ensures Then([], Decoded(data, 0)) == Decoded(data, 0)
  {
    assert result + [] == result;
    if Decoded(data, 0).Body? {
      assert [] + Decoded(data, 0).bytes == Decoded(data, 0).bytes;
    }
  }

  /** What was decoded so far, followed by the rest. */
  function Then(bytes: seq<Byte>, rest: Outcome): Outcome
  {
    if rest.Panic? then Panic else Body(bytes + rest.bytes)
  }

  lemma ThenChunk(a: seq<Byte>, b: seq<Byte>, rest: Outcome)
    ensures Then(a, Then(b, rest)) == Then(a + b, rest)
  {
    if rest.Body? {
      assert a + (b + rest.bytes) == a + b + rest.bytes;
    }
  }

  // ---------------------------------------------------------------- panics

  /** At every size line the decoder reaches, the announced chunk ends below 2^64. */
  ghost predicate SizesFit(data: seq<Byte>, i: nat)
    requires i <= |data|
    decreases |data| - i
  {
    i == |data| ||
    var (start, size) := SizeLine(data, i, 0);
    size == 0 || (start + size < USIZE && SizesFit(data, SkipCrLf(data, ChunkEnd(data, start, size))))
  }

  /** The decoder panics exactly when an announced chunk would end at or above 2^64 (a Rust slice is shorter than 2^63). */
  lemma {:induction false} PanicsIff(data: seq<Byte>, i: nat)
    requires i <= |data| < USIZE / 2
    ensures Decoded(data, i).Panic? <==> !SizesFit(data, i)
    decreases |data| - i
  {
    if i < |data| {
      var (start, size) := SizeLine(data, i, 0);
      if size != 0 && start + size < USIZE {
        PanicsIff(data, SkipCrLf(data, ChunkEnd(data, start, size)));
      }
    }
  }

  // ---------------------------------------------------------------- the round trip

  predicate IsHex(b: Byte)
  {
    48 <= b <= 57 || 97 <= b <= 102 || 65 <= b <= 70
  }

  /** The digits of a number in base 16, each in either case. */
  ghost predicate Spells(h: seq<Byte>, digits: seq<nat>)
  {
    |h| == |digits| && forall i | 0 <= i < |h| :: IsDigit(h[i], digits[i])
  }

  /** The number that digits add to s, most significant first. */
  function Number(s: nat, digits: seq<nat>): (n: nat)
    ensures n >= s
    decreases |digits|
  {
    if digits == [] then s else Number(s * 16 + digits[0], digits[1..])
  }

  /** The number that the bytes add to s as `hex_val` reads them. */
  function HexNumber(s: nat, h: seq<Byte>): (n: nat)
    ensures n >= s
    decreases |h|
  {
    if h == [] then s else HexNumber(s * 16 + HexVal(h[0]), h[1..])
  }

  lemma {:induction false} SpelledNumber(s: nat, h: seq<Byte>, digits: seq<nat>)
    requires Spells(h, digits)
    ensures HexNumber(s, h) == Number(s, digits) && forall i | 0 <= i < |h| :: IsHex(h[i])
    decreases |h|
  {
    if h != [] {
      HexValIs(h[0], digits[0]);
      SpelledNumber(s * 16 + digits[0], h[1..], digits[1..]);
    }
  }

  /** A chunk with a spelling of its size: at least one digit, either case, leading zeros allowed. */
  datatype Chunk = Chunk(size: seq<Byte>, bytes: seq<Byte>)

  /** A spelling of n in hexadecimal digits. */
  ghost predicate IsSize(h: seq<Byte>, n: nat)
  {
    |h| >= 1 && exists digits: seq<nat> :: Spells(h, digits) && Number(0, digits) == n
  }

  ghost predicate ValidChunks(cs: seq<Chunk>)
  {
    forall i | 0 <= i < |cs| :: IsSize(cs[i].size, |cs[i].bytes|) && |cs[i].bytes| > 0
  }

  /** chunked-body of section 7.1 of RFC 9112, without extensions and trailers. */
  function Encoded(cs: seq<Chunk>, last: seq<Byte>): seq<Byte>
  {
    if cs == [] then last + [CR, LF] + [CR, LF]
    else cs[0].size + [CR, LF] + (cs[0].bytes + [CR, LF] + Encoded(cs[1..], last))
  }

  function AllBytes(cs: seq<Chunk>): seq<Byte>
  {
    if cs == [] then [] else cs[0].bytes + AllBytes(cs[1..])
  }

  /** A size line is read to its end and to its number. */
  lemma {:induction false} ReadsSize(data: seq<Byte>, i: nat, h: seq<Byte>, s: nat)
    requires i + |h| + 2 <= |data| && data[i..i + |h|] == h && data[i + |h|] == CR && data[i + |h| + 1] == LF
    requires (forall j | 0 <= j < |h| :: IsHex(h[j])) && HexNumber(s, h) < USIZE
    ensures SizeLine(data, i, s) == (i + |h| + 2, HexNumber(s, h))
    decreases |h|
  {
    if h == [] {
      assert SizeLine(data, i, s) == SizeLine(data, i + 1, s);
    } else {
      assert data[i] == h[0];
      assert data[i + 1..i + 1 + |h[1..]|] == h[1..];
      ReadsSize(data, i + 1, h[1..], s * 16 + HexVal(h[0]));
    }
  }

  /** Reading one chunk. */
  lemma ReadsChunk(pre: seq<Byte>, h: seq<Byte>, b: seq<Byte>, rest: seq<Byte>)
    requires IsSize(h, |b|) && |b| > 0 && |pre + (h + [CR, LF] + (b + [CR, LF] + rest))| < USIZE / 2
    ensures var pre' := pre + h + [CR, LF] + b + [CR, LF];
            Decoded(pre + (h + [CR, LF] + (b + [CR, LF] + rest)), |pre|) == Then(b, Decoded(pre' + rest, |pre'|))
  {
    hide *;
    var data := pre + (h + [CR, LF] + (b + [CR, LF] + rest));
    Layout(pre, h, b, rest);
    ReadsWholeSize(data, |pre|, h, |b|);
    StepChunk(data, |pre|, |pre| + |h| + 2, |b|);
  }

  lemma ReadsWholeSize(data: seq<Byte>, i: nat, h: seq<Byte>, n: nat)
    requires i + |h| + 2 <= |data| && data[i..i + |h|] == h && data[i + |h|] == CR && data[i + |h| + 1] == LF
    requires IsSize(h, n) && n < USIZE
    ensures SizeLine(data, i, 0) == (i + |h| + 2, n)
  {
    hide SizeLine, HexNumber, IsHex;
    var digits :| Spells(h, digits) && Number(0, digits) == n;
    SpelledNumber(0, h, digits);
    ReadsSize(data, i, h, 0);
  }

  lemma StepChunk(data: seq<Byte>, i: nat, start: nat, size: nat)
    requires i < |data| < USIZE / 2 && SizeLine(data, i, 0) == (start, size) && size > 0 && start + size + 2 <= |data|
    requires data[start + size] == CR && data[start + size + 1] == LF
    ensures Decoded(data, i) == Then(data[start..start + size], Decoded(data, start + size + 2))
  {
    hide SizeLine, Decoded, Then;
    DecodedStep(data, i);
  }

  /** Decoding any chunked body gives the concatenated chunks. */
  lemma {:induction false} RoundTrip(pre: seq<Byte>, cs: seq<Chunk>, last: seq<Byte>)
    requires ValidChunks(cs) && IsSize(last, 0) && |pre + Encoded(cs, last)| < USIZE / 2
    ensures Decoded(pre + Encoded(cs, last), |pre|) == Body(AllBytes(cs))
    decreases |cs|
  {
    hide Decoded, SizeLine, HexNumber;
    if cs == [] {
      EndOfBody(pre, last);
    } else {
      var h, b, rest := cs[0].size, cs[0].bytes, Encoded(cs[1..], last);
      EncodedChunk(cs, last);
      Layout(pre, h, b, rest);
      ReadsChunk(pre, h, b, rest);
      RoundTrip(pre + h + [CR, LF] + b + [CR, LF], cs[1..], last);
    }
  }

  lemma EndOfBody(pre: seq<Byte>, last: seq<Byte>)
    requires IsSize(last, 0)
    ensures Decoded(pre + Encoded([], last), |pre|) == Body([])
  {
    hide Decoded, SizeLine, HexNumber;
    var data, i := pre + (last + [CR, LF] + [CR, LF]), |pre|;
    assert data[i..i + |last|] == last && data[i + |last|] == CR && data[i + |last| + 1] == LF;
    ReadsWholeSize(data, i, last, 0);
    DecodedStep(data, i);
  }

  lemma EncodedChunk(cs: seq<Chunk>, last: seq<Byte>)
    requires cs != []
    ensures Encoded(cs, last) == cs[0].size + [CR, LF] + (cs[0].bytes + [CR, LF] + Encoded(cs[1..], last))
  {
  }

  /** Where the parts of a chunk lie. */
  lemma Layout(pre: seq<Byte>, h: seq<Byte>, b: seq<Byte>, rest: seq<Byte>)
    ensures var data, i := pre + (h + [CR, LF] + (b + [CR, LF] + rest)), |pre|;
            var start, end := i + |h| + 2, i + |h| + 2 + |b|;
            data[i..i + |h|] == h && data[i + |h|] == CR && data[i + |h| + 1] == LF && data[start..end] == b &&
            data[end] == CR && data[end + 1] == LF && |data| == end + 2 + |rest| &&
            data == pre + h + [CR, LF] + b + [CR, LF] + rest && end + 2 == |pre + h + [CR, LF] + b + [CR, LF]|
  {
    var data, i := pre + (h + [CR, LF] + (b + [CR, LF] + rest)), |pre|;
    assert data == pre + h + [CR, LF] + b + [CR, LF] + rest;
  }

  // ---------------------------------------------------------------- a body that is cut off

  /** Chunks, and then one of which only a part is there. */
  function Cut(cs: seq<Chunk>, h: seq<Byte>, part: seq<Byte>): seq<Byte>
  {
    if cs == [] then h + [CR, LF] + part
    else cs[0].size + [CR, LF] + (cs[0].bytes + [CR, LF] + Cut(cs[1..], h, part))
  }

  /** A body that ends inside a chunk gives the whole chunks and the part that is there. */
  lemma {:induction false} CutOff(pre: seq<Byte>, cs: seq<Chunk>, h: seq<Byte>, n: nat, part: seq<Byte>)
    requires ValidChunks(cs) && IsSize(h, n) && |part| < n < USIZE / 2 && |pre + Cut(cs, h, part)| < USIZE / 2
    ensures Decoded(pre + Cut(cs, h, part), |pre|) == Body(AllBytes(cs) + part)
    decreases |cs|
  {
    hide Decoded, SizeLine, HexNumber, IsSize;
    if cs == [] {
      LastPart(pre, h, n, part);
      assert [] + part == part;
    } else {
      var size, b, rest := cs[0].size, cs[0].bytes, Cut(cs[1..], h, part);
      Layout(pre, size, b, rest);
      ReadsChunk(pre, size, b, rest);
      CutOff(pre + size + [CR, LF] + b + [CR, LF], cs[1..], h, n, part);
      assert b + (AllBytes(cs[1..]) + part) == b + AllBytes(cs[1..]) + part;
    }
  }

  lemma LastPart(pre: seq<Byte>, h: seq<Byte>, n: nat, part: seq<Byte>)
    requires IsSize(h, n) && |part| < n < USIZE / 2 && |pre + (h + [CR, LF] + part)| < USIZE / 2
    ensures Decoded(pre + (h + [CR, LF] + part), |pre|) == Body(part)
  {
    hide Decoded, SizeLine, IsSize;
    var data, i := pre + (h + [CR, LF] + part), |pre|;
    var start := i + |h| + 2;
    assert data[i..i + |h|] == h && data[i + |h|] == CR && data[i + |h| + 1] == LF && data[start..] == part;
    ReadsWholeSize(data, i, h, n);
    DecodedStep(data, i);
    ThenNothing(part, data);
    assert data[start..|data|] == part;
  }

  // ---------------------------------------------------------------- a body that panics

  function Fs(n: nat): (h: seq<Byte>)
    ensures |h| == n
  {
    if n == 0 then [] else [102] + Fs(n - 1)
  }

  function Fifteens(n: nat): (d: seq<nat>)
    ensures |d| == n
  {
    if n == 0 then [] else [15] + Fifteens(n - 1)
  }

  function Pow16(n: nat): nat
  {
    if n == 0 then 1 else 16 * Pow16(n - 1)
  }

  lemma {:induction false} FsNumber(s: nat, n: nat)
    ensures Spells(Fs(n), Fifteens(n)) && Number(s, Fifteens(n)) + 1 == (s + 1) * Pow16(n)
    decreases n
  {
    if n > 0 {
      FsNumber(s * 16 + 15, n - 1);
      assert Fifteens(n)[1..] == Fifteens(n - 1);
      assert (s * 16 + 16) * Pow16(n - 1) == (s + 1) * (16 * Pow16(n - 1));
    }
  }

  lemma SixteenDigits()
    ensures Pow16(16) == USIZE
  {
    assert Pow16(2) == 0x100;
    assert Pow16(4) == 0x10000;
    assert Pow16(6) == 0x1000000;
    assert Pow16(8) == 0x100000000;
    assert Pow16(10) == 0x10000000000;
    assert Pow16(12) == 0x1000000000000;
    assert Pow16(14) == 0x100000000000000;
    assert Pow16(16) == 0x10000000000000000;
  }

  /** A size of sixteen f's announces an end that wraps, whatever follows. */
  lemma WrappedEnd(digits: seq<Byte>, rest: seq<Byte>)
    requires |digits| == 16 && IsSize(digits, USIZE - 1) && rest != []
    ensures Decoded(digits + [CR, LF] + rest, 0) == Panic
  {
    hide Decoded, SizeLine, HexNumber;
    var data := digits + [CR, LF] + rest;
    assert data[0..16] == digits && data[16] == CR && data[17] == LF;
    ReadsWholeSize(data, 0, digits, USIZE - 1);
    DecodedStep(data, 0);
  }

  /** Not every input is decoded. */
  lemma PanicExample()
    ensures Decoded(Fs(16) + [CR, LF] + [0], 0) == Panic
  {
    hide Decoded, Number, Fs, Fifteens, Pow16;
    FsNumber(0, 16);
    SixteenDigits();
    WrappedEnd(Fs(16), [0]);
  }
}
