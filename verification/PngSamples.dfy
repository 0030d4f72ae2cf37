/** From the bytes of a scanline to pixels: the last part of `stbi__create_png_image_raw`, for every sample depth,
    with and without an added alpha channel. */
module PngSamples {
  import opened Wrappers
  import opened Bits

  /** `img_n` channels of `depth` bits; samples below 8 bits are scaled up in greyscale images (`color == 0`); an
      alpha channel is added when `out_n` is `img_n + 1`. */
  datatype Format = Format(channels: nat, depth: nat, grey: bool, alpha: bool)

  /** The samples of a pixel, as they are put out. */
  type Pixel = seq<nat>

  predicate ValidFormat(f: Format)
  {
    1 <= f.channels <= 4 && f.depth in {1, 2, 4, 8, 16} && (f.alpha ==> f.channels == 1 || f.channels == 3)
  }

  /** i times c, counted in steps of c. */
  function First(i: nat, c: nat): nat
  {
    if i == 0 then 0 else First(i - 1, c) + c
  }

  lemma {:induction false} Multiples(i: nat)
    ensures First(i, 1) == i && First(i, 2) == 2 * i && First(i, 3) == 3 * i && First(i, 4) == 4 * i
  {
    if i > 0 {
      Multiples(i - 1);
    }
  }

  /** The bytes that n samples of d bits need: their number times d, and 7, divided by 8. */
  function BytesFor(d: nat, n: nat): nat
  {
    ((if d == 16 then 16 * n else if d == 8 then 8 * n else if d == 4 then 4 * n else if d == 2 then 2 * n else n) + 7) / 8
  }

  /** `img_width_bytes` */
  function RowBytes(f: Format, x: nat): nat
  {
    BytesFor(f.depth, First(x, f.channels))
  }

  /** `filter_bytes` */
  function FilterBytes(f: Format): (r: nat)
    ensures ValidFormat(f) ==> r >= 1
  {
    if f.depth < 8 then 1 else if f.depth == 8 then f.channels else 2 * f.channels
  }

  lemma PixelFits(f: Format, x: nat)
    requires ValidFormat(f) && x >= 1
    ensures 1 <= FilterBytes(f) <= RowBytes(f, x)
  {
    var n := First(x, f.channels);
    assert n == First(x - 1, f.channels) + f.channels;
    hide First;
    assert BytesFor(16, n) == 2 * n && BytesFor(8, n) == n;
  }

  /** The bits of a scanline of x pixels. */
  function RowBits(f: Format, x: nat): nat
  {
    if x == 0 then 0 else RowBits(f, x - 1) + PixelBits(f)
  }

  /** The bits of a pixel: the depth for each channel. */
  function PixelBits(f: Format): nat
  {
    f.channels * f.depth
  }

  /** The filters reach back by the bytes of a whole pixel, or by one byte if a pixel has less (section 9.2). */
  lemma FilterBytesIs(f: Format)
    requires ValidFormat(f)
    ensures if f.depth >= 8 then 8 * FilterBytes(f) == PixelBits(f) else FilterBytes(f) == 1
  {
  }

  /** A scanline has as many bytes as its bits need, and no more. */
  lemma RowBytesIs(f: Format, x: nat)
    requires ValidFormat(f)
    ensures 8 * RowBytes(f, x) - 8 < RowBits(f, x) <= 8 * RowBytes(f, x)
  {
    hide First, RowBits;
    BitsOfRow(f, x);
  }

  lemma {:induction false} BitsOfRow(f: Format, x: nat)
    requires ValidFormat(f)
    ensures var n := First(x, f.channels);
            RowBits(f, x) == if f.depth == 16 then 16 * n else if f.depth == 8 then 8 * n else if f.depth == 4 then 4 * n
                             else if f.depth == 2 then 2 * n else n
  {
    if x > 0 {
      BitsOfRow(f, x - 1);
    }
  }

  // ---------------------------------------------------------------- samples below 8 bits

  /** How many values a sample of d bits has. */
  function Levels(d: nat): (l: nat)
    ensures l >= 1
  {
    if d == 1 then 2 else if d == 2 then 4 else if d == 4 then 16 else if d == 8 then 256 else 65536
  }

  /** The sample of d bits that starts t bits from the top of a byte: the leftmost one is in the high-order bits. */
  function Field(d: nat, b: Byte, t: nat): nat
    requires t + d <= 8
  {
    Low(Shr(b, 8 - d - t), d)
  }

  /** Sample s of a scanline. */
  function Raw(d: nat, row: seq<Byte>, s: nat): nat
  {
    if d == 16 then (if 2 * s + 1 < |row| then 256 * (row[2 * s] as nat) + row[2 * s + 1] else 0)
    else if d == 8 then (if s < |row| then row[s] else 0)
    else if d == 4 then (if s / 2 < |row| then Field(4, row[s / 2], 4 * (s % 2)) else 0)
    else if d == 2 then (if s / 4 < |row| then Field(2, row[s / 4], 2 * (s % 4)) else 0)
    else (if s / 8 < |row| then Field(1, row[s / 8], s % 8) else 0)
  }

  /** `stbi__depth_scale_table`, for greyscale images. */
  function Scale(f: Format): (s: nat)
    ensures s >= 1
  {
    if f.grey && f.depth == 1 then 0xff else if f.grey && f.depth == 2 then 0x55 else if f.grey && f.depth == 4 then 0x11 else 1
  }

  /** Scaling is the exact linear one: the highest sample becomes 255. */
  lemma ScaleIsExact(f: Format, v: nat)
    requires f.depth in {1, 2, 4} && v < Levels(f.depth)
    ensures Scale(f) * v <= 255 && (f.grey ==> Scale(f) * v * (Levels(f.depth) - 1) == 255 * v)
  {
  }

  /** Sample s as it is put out. */
  function Out(f: Format, row: seq<Byte>, s: nat): nat
  {
    if f.depth < 8 then Scale(f) * Raw(f.depth, row, s) % 256 else Raw(f.depth, row, s)
  }

  /** Only greyscale samples below 8 bits are scaled; palette indices and all other samples are put out as they are. */
  lemma OutUnscaled(f: Format, row: seq<Byte>, s: nat)
    requires ValidFormat(f) && (!f.grey || f.depth >= 8)
    ensures Out(f, row, s) == Raw(f.depth, row, s)
  {
    hide Raw;
    if f.depth < 8 {
      RawBelow(f.depth, row, s);
    }
  }

  lemma RawBelow(d: nat, row: seq<Byte>, s: nat)
    requires d in {1, 2, 4, 8, 16}
    ensures Raw(d, row, s) < Levels(d)
  {
    hide Low, Shr;
    if d < 8 {
      SmallLevels(d);
      if d == 4 && s / 2 < |row| {
        SplitAt(Shr(row[s / 2], 4 - 4 * (s % 2)), 4);
      } else if d == 2 && s / 4 < |row| {
        SplitAt(Shr(row[s / 4], 6 - 2 * (s % 4)), 2);
      } else if d == 1 && s / 8 < |row| {
        SplitAt(Shr(row[s / 8], 7 - s % 8), 1);
      }
    }
  }

  /** Opaque is the highest value of an output sample: 8 bits, or 16 for a depth of 16; scaling reaches it. */
  lemma OpaqueIsTop(f: Format, row: seq<Byte>, s: nat)
    requires ValidFormat(f)
    ensures Opaque(f) + 1 == (if f.depth == 16 then 65536 else 256) && Out(f, row, s) <= Opaque(f)
    ensures f.grey || f.depth >= 8 ==> Opaque(f) == Scale(f) * (Levels(f.depth) - 1)
  {
    hide Raw;
    RawBelow(f.depth, row, s);
  }

  // ---------------------------------------------------------------- samples as bits

  /** Bit p of a scanline, most significant bits of each byte first. */
  function RowBit(row: seq<Byte>, p: nat): (b: nat)
    ensures b < 2
  {
    if p / 8 < |row| then BitOf(row[p / 8], 7 - p % 8) else 0
  }

  /** The number that n bits from p on spell, most significant first. */
  function Spelled(row: seq<Byte>, p: nat, n: nat): nat
  {
    if n == 0 then 0 else 2 * Spelled(row, p, n - 1) + RowBit(row, p + n - 1)
  }

  /** Section 7.2 in one rule for every depth: sample s is what its depth bits spell, one sample after the other. */
  lemma RawIsSpelled(d: nat, row: seq<Byte>, s: nat)
    requires d in {1, 2, 4, 8, 16} && 8 * |row| >= d * s + d
    ensures Raw(d, row, s) == Spelled(row, d * s, d)
  {
    hide Low, Shr, Spelled;
    if d == 1 {
      assert s / 8 == (d * s) / 8;
      SpelledField(row, s / 8, s % 8, 1);
    } else if d == 2 {
      assert 2 * s == 8 * (s / 4) + 2 * (s % 4);
      SpelledField(row, s / 4, 2 * (s % 4), 2);
    } else if d == 4 {
      assert 4 * s == 8 * (s / 2) + 4 * (s % 2);
      SpelledField(row, s / 2, 4 * (s % 2), 4);
    } else if d == 8 {
      SpelledByte(row, s);
    } else {
      SpelledByte(row, 2 * s);
      SpelledByte(row, 2 * s + 1);
      SpelledSplit(row, 16 * s, 8, 8);
      ByteUp(row[2 * s]);
    }
  }

  lemma ByteUp(v: nat)
    ensures Shl(v, 8) == 256 * v
  {
    assert Shl(v, 0) == v;
    assert Shl(v, 2) == 4 * v;
    assert Shl(v, 4) == 16 * v;
    assert Shl(v, 6) == 64 * v;
  }

  /** Part of one byte. */
  lemma {:induction false} SpelledField(row: seq<Byte>, j: nat, t: nat, d: nat)
    requires j < |row| && t + d <= 8
    ensures Spelled(row, 8 * j + t, d) == Field(d, row[j], t)
    decreases d
  {
    if d > 0 {
      SpelledField(row, j, t, d - 1);
      var p := 8 * j + t + d - 1;
      assert p / 8 == j && p % 8 == t + d - 1;
      var v, m := row[j], 8 - d - t;
      LowGrows(Shr(v, m), d - 1);
      ShrStep(v, m);
      assert BitOf(v, m) == Shr(v, m) % 2;
    }
  }

  lemma LowGrows(v: nat, d: nat)
    ensures Low(v, d + 1) == v % 2 + 2 * Low(v / 2, d)
  {
  }

  lemma SpelledByte(row: seq<Byte>, j: nat)
    requires j < |row|
    ensures Spelled(row, 8 * j, 8) == row[j]
  {
    hide Spelled, Low;
    SpelledField(row, j, 0, 8);
    WholeByte(row[j]);
  }

  lemma {:induction false} SpelledSplit(row: seq<Byte>, p: nat, a: nat, b: nat)
    ensures Spelled(row, p, a + b) == Shl(Spelled(row, p, a), b) + Spelled(row, p + a, b)
    decreases b
  {
    hide RowBit;
    if b > 0 {
      SpelledSplit(row, p, a, b - 1);
    }
  }

  /** An opaque alpha. */
  function Opaque(f: Format): nat
  {
    if f.depth == 16 then 0xffff else 255
  }

  function Outs(f: Format, row: seq<Byte>, s: nat, n: nat): (r: seq<nat>)
    ensures |r| == n && forall k: nat {:trigger r[k]} | k < n :: r[k] == Out(f, row, s + k)
  {
    if n == 0 then [] else Outs(f, row, s, n - 1) + [Out(f, row, s + n - 1)]
  }

  /** Pixel i of a scanline. */
  function PixelOf(f: Format, row: seq<Byte>, i: nat): Pixel
  {
    Outs(f, row, First(i, f.channels), f.channels) + if f.alpha then [Opaque(f)] else []
  }

  /** The samples of a pixel follow each other in the line; the alpha sample comes last. */
  lemma PixelSamples(f: Format, row: seq<Byte>, i: nat, k: nat)
    requires k < f.channels
    ensures |PixelOf(f, row, i)| == f.channels + (if f.alpha then 1 else 0)
    ensures PixelOf(f, row, i)[k] == Out(f, row, i * f.channels + k)
    ensures f.alpha ==> PixelOf(f, row, i)[f.channels] == Opaque(f)
  {
    FirstIs(i, f.channels);
    hide First, Out;
  }

  lemma {:induction false} FirstIs(i: nat, c: nat)
    ensures First(i, c) == i * c
  {
    if i > 0 {
      FirstIs(i - 1, c);
      assert i * c == (i - 1) * c + c;
    }
  }

  // ---------------------------------------------------------------- the unpacking loops

  /** What is left of a byte, at the top, when t bits have been shifted out of it. */
  function Left(b: Byte, t: nat): nat
    requires t <= 8
  {
    Shl(Low(b, 8 - t), t)
  }

  lemma {:induction false} ShrOfLow(b: nat, m: nat, d: nat)
    ensures Shr(Low(b, m + d), m) == Low(Shr(b, m), d)
    decreases m
  {
    if m > 0 {
      Parts(b % 2, Low(b / 2, m + d - 1));
      ShrOfLow(b / 2, m - 1, d);
    }
  }

  lemma ShlBound(r: nat, m: nat, t: nat)
    requires r < Pow2(m)
    ensures Shl(r, t) < Pow2(m + t)
  {
    ShlOrder(r, Pow2(m), t);
    ShlOne(m);
    ShlOne(m + t);
    ShlShl(1, m, t);
  }

  /** The top bits of what is left are the next sample; shifting them out, with the truncation to a byte, leaves the rest. */
  lemma ShiftOut(b: Byte, t: nat, d: nat)
    requires t + d <= 8
    ensures Left(b, 0) == b
    ensures Shr(Left(b, t), 8 - d) == Field(d, b, t) && Low(Shl(Left(b, t), d), 8) == Left(b, t + d)
  {
    hide Pow2, Shl, Shr, Low;
    var m := 8 - t - d;
    var y := Low(b, m + d);
    var top, rest := Shr(y, m), Low(b, m);
    WholeByte(b);
    SplitAt(y, m);
    LowOfLow(b, m, m + d);
    ShrOfLow(b, m, d);
    ShlAdd(rest, Shl(top, m), t);
    ShlShl(top, m, t);
    assert Left(b, t) == Shl(top, 8 - d) + Shl(rest, t);
    ShlBound(rest, m, t);
    ShrShl(top, Shl(rest, t), 8 - d);
    ShlAdd(Shl(top, 8 - d), Shl(rest, t), d);
    ShlShl(top, 8 - d, d);
    ShlShl(rest, t, d);
    assert Shl(Left(b, t), d) == Shl(top, 8) + Shl(rest, t + d);
    ShlBound(rest, m, t + d);
    LowShl(top, Shl(rest, t + d), 8);
  }

  lemma WholeByte(b: Byte)
    ensures Low(b, 8) == b && Shl(b, 0) == b
  {
    Pow2Values();
    LowSmall(b, 8);
  }

  /** The first n samples have been put out. */
  ghost predicate Unpacked(f: Format, row: seq<Byte>, dest: seq<nat>, n: nat)
  {
    n <= |dest| && forall s: nat | s < n :: dest[s] == Out(f, row, s)
  }

  /** Where the next sample of a byte is, or that it starts the next byte. */
  lemma Slots2(i: nat)
    ensures if i % 2 == 1 then (i + 1) % 2 == 0 && (i + 1) / 2 == i / 2 + 1 else (i + 1) % 2 == i % 2 + 1 && (i + 1) / 2 == i / 2
    ensures (i + 1) / 2 == if i % 2 == 0 then i / 2 else i / 2 + 1
  {
  }

  lemma Slots4(i: nat)
    ensures if i % 4 == 3 then (i + 1) % 4 == 0 && (i + 1) / 4 == i / 4 + 1 else (i + 1) % 4 == i % 4 + 1 && (i + 1) / 4 == i / 4
    ensures (i + 3) / 4 == if i % 4 == 0 then i / 4 else i / 4 + 1
  {
  }

  lemma Slots8(i: nat)
    ensures if i % 8 == 7 then (i + 1) % 8 == 0 && (i + 1) / 8 == i / 8 + 1 else (i + 1) % 8 == i % 8 + 1 && (i + 1) / 8 == i / 8
    ensures (i + 7) / 8 == if i % 8 == 0 then i / 8 else i / 8 + 1
  {
  }

  /** The loop for four bits. */
  method Unpack4(f: Format, row: seq<Byte>, n: nat, dest: array<nat>)
    requires f.depth == 4 && n <= dest.Length && |row| >= BytesFor(4, n)
    modifies dest
    ensures Unpacked(f, row, dest[..], n)
  {
    hide Left, Field, Scale, Shl, Shr, Low;
    var pos: nat, inb: nat := 0, 0;
    for i := 0 to n
      invariant Unpacked(f, row, dest[..], i) && pos == i / 2 + (if i % 2 == 0 then 0 else 1)
      invariant i % 2 != 0 ==> inb == Left(row[i / 2], 4 * (i % 2))
    {
      Slots2(i);
      ShiftOut(row[i / 2], 4 * (i % 2), 4);
      if i % 2 == 0 {
        inb := row[pos];
        pos := pos + 1;
      }
      dest[i] := Scale(f) * Shr(inb, 4) % 256;
      inb := Low(Shl(inb, 4), 8);
      assert Unpacked(f, row, dest[..], i);
    }
  }

  /** The loop for two bits. */
  method Unpack2(f: Format, row: seq<Byte>, n: nat, dest: array<nat>)
    requires f.depth == 2 && n <= dest.Length && |row| >= BytesFor(2, n)
    modifies dest
    ensures Unpacked(f, row, dest[..], n)
  {
    hide Left, Field, Scale, Shl, Shr, Low;
    var pos: nat, inb: nat := 0, 0;
    for i := 0 to n
      invariant Unpacked(f, row, dest[..], i) && pos == i / 4 + (if i % 4 == 0 then 0 else 1)
      invariant i % 4 != 0 ==> inb == Left(row[i / 4], 2 * (i % 4))
    {
      Slots4(i);
      ShiftOut(row[i / 4], 2 * (i % 4), 2);
      if i % 4 == 0 {
        inb := row[pos];
        pos := pos + 1;
      }
      dest[i] := Scale(f) * Shr(inb, 6) % 256;
      inb := Low(Shl(inb, 2), 8);
      assert Unpacked(f, row, dest[..], i);
    }
  }

  /** The loop for one bit. */
  method Unpack1(f: Format, row: seq<Byte>, n: nat, dest: array<nat>)
    requires f.depth == 1 && n <= dest.Length && |row| >= BytesFor(1, n)
    modifies dest
    ensures Unpacked(f, row, dest[..], n)
  {
    hide Left, Field, Scale, Shl, Shr, Low;
    var pos: nat, inb: nat := 0, 0;
    for i := 0 to n
      invariant Unpacked(f, row, dest[..], i) && pos == i / 8 + (if i % 8 == 0 then 0 else 1)
      invariant i % 8 != 0 ==> inb == Left(row[i / 8], i % 8)
    {
      Slots8(i);
      ShiftOut(row[i / 8], i % 8, 1);
      if i % 8 == 0 {
        inb := row[pos];
        pos := pos + 1;
      }
      dest[i] := Scale(f) * Shr(inb, 7) % 256;
      inb := Low(Shl(inb, 1), 8);
      assert Unpacked(f, row, dest[..], i);
    }
  }

  // ---------------------------------------------------------------- copying and adding alpha

  /** With alpha, every pixel is followed by an opaque sample. */
  ghost predicate WithAlpha(dest: seq<nat>, flat: seq<nat>, x: nat, n: nat, full: nat)
    requires n == 1 || n == 3
  {
    if n == 1 then 2 * x <= |dest| && x <= |flat| && forall q: nat {:trigger dest[q]} | q < 2 * x :: dest[q] == Paired(flat, q, full)
    else 4 * x <= |dest| && 3 * x <= |flat| && forall q: nat {:trigger dest[q]} | q < 4 * x :: dest[q] == Fourth(flat, q, full)
  }

  /** Sample q when one sample is followed by an opaque one. */
  function Paired(flat: seq<nat>, q: nat, full: nat): nat
    requires q / 2 < |flat|
  {
    if q % 2 == 0 then flat[q / 2] else full
  }

  /** Sample q when three samples are followed by an opaque one. */
  function Fourth(flat: seq<nat>, q: nat, full: nat): nat
    requires 3 * (q / 4) + 2 < |flat|
  {
    if q % 4 == 3 then full else flat[3 * (q / 4) + q % 4]
  }

  lemma FourthAt(flat: seq<nat>, i: nat, full: nat)
    requires 3 * i + 2 < |flat|
    ensures (4 * i) / 4 == (4 * i + 1) / 4 == (4 * i + 2) / 4 == (4 * i + 3) / 4 == i
    ensures Fourth(flat, 4 * i, full) == flat[3 * i] && Fourth(flat, 4 * i + 1, full) == flat[3 * i + 1]
    ensures Fourth(flat, 4 * i + 2, full) == flat[3 * i + 2] && Fourth(flat, 4 * i + 3, full) == full
  {
    FourParts(4 * i, i, 0);
    FourParts(4 * i + 1, i, 1);
    FourParts(4 * i + 2, i, 2);
    FourParts(4 * i + 3, i, 3);
  }

  lemma FourParts(q: nat, i: nat, k: nat)
    requires k < 4 && q == 4 * i + k
    ensures q / 4 == i && q % 4 == k
  {
  }

  /** `stbi__create_png_alpha_expand8` for one channel; the two buffers may be the same, because it works backwards. */
  method AlphaExpand1(dest: array<nat>, src: array<nat>, x: nat)
    requires 2 * x <= dest.Length && x <= src.Length
    modifies dest
    ensures WithAlpha(dest[..], old(src[..]), x, 1, 255)
  {
    ghost var flat := src[..];
    var i := x;
    while i > 0
      invariant i <= x
      invariant forall s: nat {:trigger src[s]} | s < i :: src[s] == flat[s]
      invariant forall q: nat {:trigger dest[q]} | 2 * i <= q < 2 * x :: dest[q] == Paired(flat, q, 255)
    {
      i := i - 1;
      dest[i * 2 + 1] := 255;
      dest[i * 2] := src[i];
    }
  }

  /** And for three channels. */
  method AlphaExpand3(dest: array<nat>, src: array<nat>, x: nat)
    requires 4 * x <= dest.Length && 3 * x <= src.Length
    modifies dest
    ensures WithAlpha(dest[..], old(src[..]), x, 3, 255)
  {
    hide Fourth;
    ghost var flat := src[..];
    var i := x;
    while i > 0
      invariant i <= x
      invariant forall s: nat {:trigger src[s]} | s < 3 * i :: src[s] == flat[s]
      invariant forall q: nat {:trigger dest[q]} | 4 * i <= q < 4 * x :: dest[q] == Fourth(flat, q, 255)
    {
      i := i - 1;
      FourthAt(flat, i, 255);
      dest[i * 4 + 3] := 255;
      dest[i * 4 + 2] := src[i * 3 + 2];
      dest[i * 4 + 1] := src[i * 3 + 1];
      dest[i * 4] := src[i * 3];
    }
  }

  method AlphaExpand(dest: array<nat>, src: array<nat>, x: nat, n: nat)
    requires (n == 1 && 2 * x <= dest.Length && x <= src.Length) || (n == 3 && 4 * x <= dest.Length && 3 * x <= src.Length)
    modifies dest
    ensures WithAlpha(dest[..], old(src[..]), x, n, 255)
  {
    if n == 1 {
      AlphaExpand1(dest, src, x);
    } else {
      AlphaExpand3(dest, src, x);
    }
  }

  /** The 16-bit loops: big-endian to native. */
  method Wide(f: Format, row: seq<Byte>, x: nat, dest: array<nat>)
    requires f.depth == 16 && ValidFormat(f) && !f.alpha && |row| >= 2 * First(x, f.channels) && First(x, f.channels) <= dest.Length
    modifies dest
    ensures Unpacked(f, row, dest[..], First(x, f.channels))
  {
    for i := 0 to First(x, f.channels)
      invariant Unpacked(f, row, dest[..], i)
    {
      dest[i] := 256 * (row[2 * i] as nat) + row[2 * i + 1];
    }
  }

  method WideAlpha1(f: Format, row: seq<Byte>, x: nat, dest: array<nat>, ghost flat: seq<nat>)
    requires f.depth == 16 && |row| >= 2 * x && 2 * x <= dest.Length && Unpacked(f, row, flat, x)
    modifies dest
    ensures WithAlpha(dest[..], flat, x, 1, 0xffff)
  {
    for i := 0 to x
      invariant forall q: nat {:trigger dest[q]} | q < 2 * i :: dest[q] == Paired(flat, q, 0xffff)
    {
      dest[2 * i] := 256 * (row[2 * i] as nat) + row[2 * i + 1];
      dest[2 * i + 1] := 0xffff;
      assert flat[i] == Out(f, row, i);
    }
  }

  method WideAlpha3(f: Format, row: seq<Byte>, x: nat, dest: array<nat>, ghost flat: seq<nat>)
    requires f.depth == 16 && |row| >= 6 * x && 4 * x <= dest.Length && Unpacked(f, row, flat, 3 * x)
    modifies dest
    ensures WithAlpha(dest[..], flat, x, 3, 0xffff)
  {
    hide Fourth;
    for i := 0 to x
      invariant forall q: nat {:trigger dest[q]} | q < 4 * i :: dest[q] == Fourth(flat, q, 0xffff)
    {
      FourthAt(flat, i, 0xffff);
      dest[4 * i] := 256 * (row[6 * i] as nat) + row[6 * i + 1];
      dest[4 * i + 1] := 256 * (row[6 * i + 2] as nat) + row[6 * i + 3];
      dest[4 * i + 2] := 256 * (row[6 * i + 4] as nat) + row[6 * i + 5];
      dest[4 * i + 3] := 0xffff;
      assert flat[3 * i] == Out(f, row, 3 * i) && flat[3 * i + 1] == Out(f, row, 3 * i + 1) && flat[3 * i + 2] == Out(f, row, 3 * i + 2);
    }
  }

  // ---------------------------------------------------------------- one scanline

  function OutN(f: Format): nat
  {
    f.channels + if f.alpha then 1 else 0
  }

  /** The samples of pixel i in the output buffer are those of the pixel. */
  ghost predicate PixelsOut(f: Format, row: seq<Byte>, dest: seq<nat>, x: nat)
  {
    First(x, OutN(f)) <= |dest| &&
    forall i: nat | i < x :: First(i, OutN(f)) + OutN(f) <= |dest| && dest[First(i, OutN(f))..First(i, OutN(f)) + OutN(f)] == PixelOf(f, row, i)
  }

  lemma {:induction false} FirstStep(i: nat, x: nat, c: nat)
    requires i < x
    ensures First(i, c) + c <= First(x, c)
    decreases x
  {
    if i < x - 1 {
      FirstStep(i, x - 1, c);
    }
  }

  lemma PlainPixels(f: Format, row: seq<Byte>, dest: seq<nat>, x: nat)
    requires !f.alpha && Unpacked(f, row, dest, First(x, f.channels))
    ensures PixelsOut(f, row, dest, x)
  {
    hide Out;
    forall i: nat | i < x ensures First(i, OutN(f)) + OutN(f) <= |dest| && dest[First(i, OutN(f))..First(i, OutN(f)) + OutN(f)] == PixelOf(f, row, i) {
      FirstStep(i, x, f.channels);
      PlainPixel(f, row, dest, First(i, f.channels), First(x, f.channels));
    }
  }

  lemma PlainPixel(f: Format, row: seq<Byte>, dest: seq<nat>, s: nat, n: nat)
    requires !f.alpha && Unpacked(f, row, dest, n) && s + f.channels <= n
    ensures dest[s..s + f.channels] == Outs(f, row, s, f.channels) + []
  {
    hide Out;
  }

  lemma AlphaPixel1(f: Format, row: seq<Byte>, dest: seq<nat>, flat: seq<nat>, x: nat, i: nat)
    requires f.channels == 1 && f.alpha && Unpacked(f, row, flat, x) && WithAlpha(dest, flat, x, 1, Opaque(f)) && i < x
    ensures First(i, 2) == 2 * i && dest[2 * i..2 * i + 2] == PixelOf(f, row, i)
  {
    hide Out;
    Multiples(i);
    assert PixelOf(f, row, i) == [Out(f, row, i), Opaque(f)];
    assert dest[2 * i..2 * i + 2] == [dest[2 * i], dest[2 * i + 1]];
  }

  lemma AlphaPixel3(f: Format, row: seq<Byte>, dest: seq<nat>, flat: seq<nat>, x: nat, i: nat)
    requires f.channels == 3 && f.alpha && Unpacked(f, row, flat, 3 * x) && WithAlpha(dest, flat, x, 3, Opaque(f)) && i < x
    ensures First(i, 4) == 4 * i && dest[4 * i..4 * i + 4] == PixelOf(f, row, i)
  {
    hide Out, Fourth;
    Multiples(i);
    FourthAt(flat, i, Opaque(f));
    assert PixelOf(f, row, i) == [Out(f, row, 3 * i), Out(f, row, 3 * i + 1), Out(f, row, 3 * i + 2), Opaque(f)];
    assert dest[4 * i..4 * i + 4] == [dest[4 * i], dest[4 * i + 1], dest[4 * i + 2], dest[4 * i + 3]];
  }

  lemma AlphaPixels(f: Format, row: seq<Byte>, dest: seq<nat>, flat: seq<nat>, x: nat)
    requires ValidFormat(f) && f.alpha && Unpacked(f, row, flat, First(x, f.channels)) && WithAlpha(dest, flat, x, f.channels, Opaque(f))
    ensures PixelsOut(f, row, dest, x)
  {
    hide Out, Unpacked, PixelOf;
    Multiples(x);
    forall i: nat | i < x ensures First(i, OutN(f)) + OutN(f) <= |dest| && dest[First(i, OutN(f))..First(i, OutN(f)) + OutN(f)] == PixelOf(f, row, i) {
      if f.channels == 1 {
        AlphaPixel1(f, row, dest, flat, x, i);
      } else {
        AlphaPixel3(f, row, dest, flat, x, i);
      }
    }
  }

  /** The samples that the bytes of a scanline hold, all of them. */
  lemma EnoughBytes(f: Format, row: seq<Byte>, x: nat)
    requires ValidFormat(f) && |row| >= RowBytes(f, x)
    ensures var n := First(x, f.channels);
            |row| >= BytesFor(f.depth, n) && (f.depth == 8 ==> |row| >= n) && (f.depth == 16 ==> |row| >= 2 * n)
  {
  }

  /** The samples of a scanline below 8 bits, one after the other. */
  method Unpack(f: Format, row: seq<Byte>, n: nat, dest: array<nat>)
    requires ValidFormat(f) && f.depth < 8 && n <= dest.Length && |row| >= BytesFor(f.depth, n)
    modifies dest
    ensures Unpacked(f, row, dest[..], n)
  {
    if f.depth == 4 {
      Unpack4(f, row, n, dest);
    } else if f.depth == 2 {
      Unpack2(f, row, n, dest);
    } else {
      Unpack1(f, row, n, dest);
    }
  }

  /** The line as an array, as the filter buffer holds it. */
  method Line(row: seq<Byte>) returns (cur: array<nat>)
    ensures fresh(cur) && cur.Length == |row| && forall i | 0 <= i < |row| :: cur[i] == row[i]
  {
    cur := new nat[|row|](i requires 0 <= i < |row| => row[i]);
  }

  /** 16-bit samples with an alpha channel. */
  method WideAlpha(f: Format, row: seq<Byte>, x: nat, dest: array<nat>)
    requires ValidFormat(f) && f.depth == 16 && f.alpha && |row| >= RowBytes(f, x) && dest.Length == First(x, OutN(f))
    modifies dest
    ensures PixelsOut(f, row, dest[..], x)
  {
    EnoughBytes(f, row, x);
    Multiples(x);
    ghost var flat := Outs(f, row, 0, First(x, f.channels));
    assert Unpacked(f, row, flat, First(x, f.channels));
    hide Unpacked, PixelsOut;
    if f.channels == 1 {
      WideAlpha1(f, row, x, dest, flat);
    } else {
      WideAlpha3(f, row, x, dest, flat);
    }
    AlphaPixels(f, row, dest[..], flat, x);
  }

  /** Samples of up to 8 bits with an alpha channel: expanded in place after unpacking, or out of the filter buffer. */
  method NarrowAlpha(f: Format, row: seq<Byte>, x: nat, dest: array<nat>)
    requires ValidFormat(f) && f.depth <= 8 && f.alpha && |row| >= RowBytes(f, x) && dest.Length == First(x, OutN(f))
    modifies dest
    ensures PixelsOut(f, row, dest[..], x)
  {
    EnoughBytes(f, row, x);
    Multiples(x);
    var n := First(x, f.channels);
    ghost var flat;
    if f.depth < 8 {
      Unpack(f, row, n, dest);
      flat := dest[..];
      AlphaExpand(dest, dest, x, f.channels);
    } else {
      var cur := Line(row);
      flat := cur[..];
      assert Unpacked(f, row, flat, n);
      AlphaExpand(dest, cur, x, f.channels);
    }
    AlphaPixels(f, row, dest[..], flat, x);
  }

  /** Without an alpha channel. */
  method NoAlpha(f: Format, row: seq<Byte>, x: nat, dest: array<nat>)
    requires ValidFormat(f) && !f.alpha && |row| >= RowBytes(f, x) && dest.Length == First(x, OutN(f))
    modifies dest
    ensures PixelsOut(f, row, dest[..], x)
  {
    EnoughBytes(f, row, x);
    var n := First(x, f.channels);
    if f.depth < 8 {
      Unpack(f, row, n, dest);
    } else if f.depth == 8 {
      forall i | 0 <= i < n {
        dest[i] := row[i];
      }
    } else {
      Wide(f, row, x, dest);
    }
    hide Unpacked;
    PlainPixels(f, row, dest[..], x);
  }

  /** The last part of the scanline loop: the pixels of a reconstructed line of x pixels. */
  method ExpandRow(f: Format, row: seq<Byte>, x: nat) returns (pixels: seq<Pixel>)
    requires ValidFormat(f) && |row| >= RowBytes(f, x)
    ensures |pixels| == x && forall i: nat | i < x :: pixels[i] == PixelOf(f, row, i)
  {
    hide PixelOf, RowBytes;
    var dest := new nat[First(x, OutN(f))](_ => 0);
    if !f.alpha {
      NoAlpha(f, row, x, dest);
    } else if f.depth == 16 {
      WideAlpha(f, row, x, dest);
    } else {
      NarrowAlpha(f, row, x, dest);
    }
    var out, n := dest[..], OutN(f);
    pixels := [];
    for i := 0 to x
      invariant |pixels| == i && forall j: nat | j < i :: pixels[j] == PixelOf(f, row, j)
    {
      FirstStep(i, x, n);
      assert out[First(i, n)..First(i, n) + n] == PixelOf(f, row, i);
      pixels := pixels + [out[First(i, n)..First(i, n) + n]];
    }
  }

  // ---------------------------------------------------------------- packing, and the round trip

  /** The sample that is put out as v. */
  function Unscaled(f: Format, v: nat): nat
  {
    v / Scale(f)
  }

  /** A sample that the format can put out. */
  predicate ValidSample(f: Format, v: nat)
  {
    v % Scale(f) == 0 && v / Scale(f) < Levels(f.depth)
  }

  ghost predicate ValidPixel(f: Format, px: Pixel)
  {
    |px| == OutN(f) && (forall k | 0 <= k < f.channels :: ValidSample(f, px[k])) && (f.alpha ==> px[f.channels] == Opaque(f))
  }

  /** The samples of the pixels, one after the other. */
  function Flat(f: Format, pixels: seq<Pixel>): (r: seq<nat>)
    requires forall i | 0 <= i < |pixels| :: |pixels[i]| >= f.channels
    ensures |r| == First(|pixels|, f.channels)
  {
    if pixels == [] then [] else Flat(f, pixels[..|pixels| - 1]) + Raws(f, pixels[|pixels| - 1], f.channels)
  }

  function Raws(f: Format, px: Pixel, n: nat): (r: seq<nat>)
    requires n <= |px|
    ensures |r| == n && forall k: nat {:trigger r[k]} | k < n :: r[k] == Unscaled(f, px[k])
  {
    if n == 0 then [] else Raws(f, px, n - 1) + [Unscaled(f, px[n - 1])]
  }

  lemma {:induction false} FlatAt(f: Format, pixels: seq<Pixel>, i: nat, k: nat)
    requires (forall j | 0 <= j < |pixels| :: |pixels[j]| >= f.channels) && i < |pixels| && k < f.channels
    ensures First(i, f.channels) + k < |Flat(f, pixels)| && Flat(f, pixels)[First(i, f.channels) + k] == Unscaled(f, pixels[i][k])
    decreases |pixels|
  {
    hide Unscaled;
    var n := |pixels| - 1;
    FirstStep(i, |pixels|, f.channels);
    if i < n {
      FlatAt(f, pixels[..n], i, k);
    }
  }

  /** Sample s, or 0 beyond the last. */
  function At(raws: seq<nat>, s: nat): nat
  {
    if s < |raws| then raws[s] else 0
  }

  /** n samples from s on. */
  function Group(raws: seq<nat>, s: nat, n: nat): (a: seq<nat>)
    ensures |a| == n && forall k: nat {:trigger a[k]} | k < n :: a[k] == At(raws, s + k)
  {
    if n == 0 then [] else Group(raws, s, n - 1) + [At(raws, s + n - 1)]
  }

  /** Samples of d bits side by side, the first one on top. */
  function Joined(d: nat, a: seq<nat>): nat
  {
    if a == [] then 0 else Shl(Joined(d, a[..|a| - 1]), d) + a[|a| - 1]
  }

  ghost predicate Below(a: seq<nat>, l: nat)
  {
    forall k | 0 <= k < |a| :: a[k] < l
  }

  lemma {:induction false} JoinedBound(d: nat, a: seq<nat>)
    requires Below(a, Pow2(d))
    ensures Joined(d, a) < Pow2(First(|a|, d))
    decreases |a|
  {
    if a != [] {
      var n := |a| - 1;
      var v := Joined(d, a[..n]);
      JoinedBound(d, a[..n]);
      var p := First(n, d);
      ShlOrder(v, Pow2(p), d);
      ShlOne(p);
      ShlOne(p + d);
      ShlShl(1, p, d);
    }
  }

  /** Each sample is found where it was put. */
  lemma {:induction false} JoinedAt(d: nat, a: seq<nat>, k: nat)
    requires Below(a, Pow2(d)) && k < |a|
    ensures Low(Shr(Joined(d, a), First(|a| - 1 - k, d)), d) == a[k]
    decreases |a|
  {
    var n := |a| - 1;
    var v := Joined(d, a[..n]);
    if k == n {
      LowShl(v, a[n], d);
    } else {
      ShrShl(v, a[n], d);
      ShrShr(Joined(d, a), d, First(n - 1 - k, d));
      JoinedAt(d, a[..n], k);
    }
  }

  /** Byte j of the packed samples; an unfinished byte is filled up with zeros. */
  function PackedByte(d: nat, raws: seq<nat>, j: nat): nat
  {
    if d == 16 then (if j % 2 == 0 then At(raws, j / 2) / 256 else At(raws, j / 2) % 256)
    else if d == 8 then At(raws, j)
    else if d == 4 then Joined(4, Group(raws, 2 * j, 2))
    else if d == 2 then Joined(2, Group(raws, 4 * j, 4))
    else Joined(1, Group(raws, 8 * j, 8))
  }

  /** A byte of n samples of d bits. */
  lemma JoinedByte(d: nat, raws: seq<nat>, s: nat, n: nat)
    requires d in {1, 2, 4} && Below(raws, Levels(d)) && First(n, d) == 8
    ensures Levels(d) == Pow2(d) && Joined(d, Group(raws, s, n)) < 256 && Below(Group(raws, s, n), Pow2(d))
  {
    hide Joined;
    SmallLevels(d);
    JoinedBound(d, Group(raws, s, n));
    Pow2Values();
  }

  lemma SmallLevels(d: nat)
    requires d in {1, 2, 4}
    ensures Levels(d) == Pow2(d)
  {
    assert Pow2(1) == 2 && Pow2(2) == 4 && Pow2(4) == 16;
  }

  lemma PackedByteFits(d: nat, raws: seq<nat>, j: nat)
    requires d in {1, 2, 4, 8, 16} && Below(raws, Levels(d))
    ensures PackedByte(d, raws, j) < 256
  {
    hide Joined;
    if d == 4 {
      Multiples(2);
      JoinedByte(d, raws, 2 * j, 2);
    } else if d == 2 {
      Multiples(4);
      JoinedByte(d, raws, 4 * j, 4);
    } else if d == 1 {
      Multiples(8);
      JoinedByte(d, raws, 8 * j, 8);
    }
  }

  /** The first m bytes. */
  function PackBytes(d: nat, raws: seq<nat>, m: nat): (r: seq<Byte>)
    requires d in {1, 2, 4, 8, 16} && Below(raws, Levels(d))
    ensures |r| == m
    decreases m
  {
    if m == 0 then []
    else
      PackedByteFits(d, raws, m - 1);
      PackBytes(d, raws, m - 1) + [PackedByte(d, raws, m - 1)]
  }

  lemma {:induction false} PackBytesAt(d: nat, raws: seq<nat>, m: nat, j: nat)
    requires d in {1, 2, 4, 8, 16} && Below(raws, Levels(d)) && j < m
    ensures PackBytes(d, raws, m)[j] == PackedByte(d, raws, j)
    decreases m
  {
    hide PackedByte;
    if j < m - 1 {
      PackBytesAt(d, raws, m - 1, j);
    }
  }

  lemma RawPacked4(raws: seq<nat>, s: nat)
    requires Below(raws, 16) && s < |raws|
    ensures Raw(4, PackBytes(4, raws, BytesFor(4, |raws|)), s) == raws[s]
  {
    hide PackBytes, Joined, Group, Low, Shr;
    var j, k := s / 2, s % 2;
    assert s == 2 * j + k && j < BytesFor(4, |raws|);
    PackBytesAt(4, raws, BytesFor(4, |raws|), j);
    Multiples(2);
    JoinedByte(4, raws, 2 * j, 2);
    JoinedAt(4, Group(raws, 2 * j, 2), k);
    Multiples(1 - k);
  }

  lemma RawPacked2(raws: seq<nat>, s: nat)
    requires Below(raws, 4) && s < |raws|
    ensures Raw(2, PackBytes(2, raws, BytesFor(2, |raws|)), s) == raws[s]
  {
    hide PackBytes, Joined, Group, Low, Shr;
    var j, k := s / 4, s % 4;
    assert s == 4 * j + k && j < BytesFor(2, |raws|);
    PackBytesAt(2, raws, BytesFor(2, |raws|), j);
    Multiples(4);
    JoinedByte(2, raws, 4 * j, 4);
    JoinedAt(2, Group(raws, 4 * j, 4), k);
    Multiples(3 - k);
  }

  lemma RawPacked1(raws: seq<nat>, s: nat)
    requires Below(raws, 2) && s < |raws|
    ensures Raw(1, PackBytes(1, raws, BytesFor(1, |raws|)), s) == raws[s]
  {
    hide PackBytes, Joined, Group, Low, Shr;
    var j, k := s / 8, s % 8;
    assert s == 8 * j + k && j < BytesFor(1, |raws|);
    PackBytesAt(1, raws, BytesFor(1, |raws|), j);
    Multiples(8);
    JoinedByte(1, raws, 8 * j, 8);
    JoinedAt(1, Group(raws, 8 * j, 8), k);
    Multiples(7 - k);
  }

  lemma RawPacked8(raws: seq<nat>, s: nat)
    requires Below(raws, 256) && s < |raws|
    ensures Raw(8, PackBytes(8, raws, BytesFor(8, |raws|)), s) == raws[s]
  {
    hide PackBytes;
    PackBytesAt(8, raws, BytesFor(8, |raws|), s);
  }

  lemma RawPacked16(raws: seq<nat>, s: nat)
    requires Below(raws, 65536) && s < |raws|
    ensures Raw(16, PackBytes(16, raws, BytesFor(16, |raws|)), s) == raws[s]
  {
    hide PackBytes, PackedByte;
    var m := BytesFor(16, |raws|);
    assert m == 2 * |raws|;
    PackBytesAt(16, raws, m, 2 * s);
    PackBytesAt(16, raws, m, 2 * s + 1);
    WordBytes(raws, s);
  }

  lemma WordBytes(raws: seq<nat>, s: nat)
    requires s < |raws|
    ensures PackedByte(16, raws, 2 * s) == raws[s] / 256 && PackedByte(16, raws, 2 * s + 1) == raws[s] % 256
  {
    assert (2 * s) / 2 == s && (2 * s) % 2 == 0 && (2 * s + 1) / 2 == s && (2 * s + 1) % 2 == 1;
  }

  /** Every sample is read back from where it was packed. */
  lemma RawPacked(d: nat, raws: seq<nat>, s: nat)
    requires d in {1, 2, 4, 8, 16} && Below(raws, Levels(d)) && s < |raws|
    ensures Raw(d, PackBytes(d, raws, BytesFor(d, |raws|)), s) == raws[s]
  {
    hide PackBytes, Raw;
    if d == 16 {
      RawPacked16(raws, s);
    } else if d == 8 {
      RawPacked8(raws, s);
    } else if d == 4 {
      RawPacked4(raws, s);
    } else if d == 2 {
      RawPacked2(raws, s);
    } else {
      RawPacked1(raws, s);
    }
  }

  lemma {:induction false} FlatBelow(f: Format, pixels: seq<Pixel>)
    requires ValidFormat(f) && forall i | 0 <= i < |pixels| :: ValidPixel(f, pixels[i])
    ensures forall i | 0 <= i < |pixels| :: |pixels[i]| >= f.channels
    ensures Below(Flat(f, pixels), Levels(f.depth))
    decreases |pixels|
  {
    hide Levels, Scale;
    if pixels != [] {
      FlatBelow(f, pixels[..|pixels| - 1]);
    }
  }

  /** A scanline that holds the pixels. */
  function PackRow(f: Format, pixels: seq<Pixel>): (row: seq<Byte>)
    requires ValidFormat(f) && forall i | 0 <= i < |pixels| :: ValidPixel(f, pixels[i])
    ensures |row| == RowBytes(f, |pixels|)
  {
    FlatBelow(f, pixels);
    PackBytes(f.depth, Flat(f, pixels), RowBytes(f, |pixels|))
  }

  /** Scaling undoes unscaling. */
  lemma SampleRestored(f: Format, v: nat)
    requires ValidFormat(f) && ValidSample(f, v)
    ensures v == if f.depth < 8 then Scale(f) * Unscaled(f, v) % 256 else Unscaled(f, v)
  {
  }

  /** For every format, every pixel comes back from the scanline that it was packed into. */
  lemma PackedPixel(f: Format, pixels: seq<Pixel>, i: nat)
    requires ValidFormat(f) && (forall j | 0 <= j < |pixels| :: ValidPixel(f, pixels[j])) && i < |pixels|
    ensures PixelOf(f, PackRow(f, pixels), i) == pixels[i]
  {
    hide Flat, PackBytes, Raw, Unscaled, ValidSample, Scale, Levels;
    var flat, row, px := Flat(f, pixels), PackRow(f, pixels), pixels[i];
    var s := First(i, f.channels);
    forall k: nat | k < f.channels ensures Out(f, row, s + k) == px[k] {
      FlatAt(f, pixels, i, k);
      FlatBelow(f, pixels);
      RawPacked(f.depth, flat, s + k);
      SampleRestored(f, px[k]);
    }
    assert PixelOf(f, row, i) == px;
  }
}
