/** Adam7 interlacing (section 8.2 of the PNG specification, Second Edition) as `stbi__create_png_image` undoes it. */
module Adam7 {
  import opened Wrappers
  import opened Bits
  import opened PngFilter
  import opened PngSamples

  // ---------------------------------------------------------------- the seven passes

  function XOrig(p: nat): nat { if p == 1 then 4 else if p == 3 then 2 else if p == 5 then 1 else 0 }

  function YOrig(p: nat): nat { if p == 2 then 4 else if p == 4 then 2 else if p == 6 then 1 else 0 }

  function XSpc(p: nat): (s: nat)
    ensures s >= 1
  {
    if p <= 1 then 8 else if p <= 3 then 4 else if p <= 5 then 2 else 1
  }

  function YSpc(p: nat): (s: nat)
    ensures s >= 1
  {
    if p <= 2 then 8 else if p <= 4 then 4 else 2
  }

  /** Column of sample i of pass p in the image, and row of its scanline j. */
  function OutX(p: nat, i: nat): nat { i * XSpc(p) + XOrig(p) }

  function OutY(p: nat, j: nat): nat { j * YSpc(p) + YOrig(p) }

  /** Unsigned 32-bit arithmetic. */
  function U32(x: int): nat { x % 0x1_0000_0000 }

  /** The pass sizes as the source computes them: each operation wraps. */
  function PassSize(size: nat, orig: nat, spc: nat): nat
    requires spc == 1 || spc == 2 || spc == 4 || spc == 8
  {
    var n := U32(U32(U32(size - orig) + spc) - 1);
    if spc == 8 then n / 8 else if spc == 4 then n / 4 else if spc == 2 then n / 2 else n  // n / spc
  }

  function PassWidth(p: nat, w: nat): nat { PassSize(w, XOrig(p), XSpc(p)) }

  function PassHeight(p: nat, h: nat): nat { PassSize(h, YOrig(p), YSpc(p)) }

  /** The matrix of the specification: which pass (1 to 7) transmits each pixel of an 8 by 8 tile. */
  const MATRIX: seq<seq<nat>> := [
    [1, 6, 4, 6, 2, 6, 4, 6],
    [7, 7, 7, 7, 7, 7, 7, 7],
    [5, 6, 5, 6, 5, 6, 5, 6],
    [7, 7, 7, 7, 7, 7, 7, 7],
    [3, 6, 4, 6, 3, 6, 4, 6],
    [7, 7, 7, 7, 7, 7, 7, 7],
    [5, 6, 5, 6, 5, 6, 5, 6],
    [7, 7, 7, 7, 7, 7, 7, 7]]

  /** The pass (0 to 6) of a pixel. */
  function PassOf(x: nat, y: nat): nat
  {
    if y % 2 == 1 then 6 else if x % 2 == 1 then 5 else if y % 4 == 2 then 4 else if x % 4 == 2 then 3
    else if y % 8 == 4 then 2 else if x % 8 == 4 then 1 else 0
  }

  lemma PassOfIsMatrix(x: nat, y: nat)
    ensures PassOf(x, y) + 1 == MATRIX[y % 8][x % 8]
  {
    Residues(x);
    Residues(y);
    Residues(x % 8);
    Residues(y % 8);
    assert PassOf(x, y) == PassOf(x % 8, y % 8);
    hide PassOf;
    TileIsMatrix(x % 8, y % 8);
  }

  lemma TileIsMatrix(c: nat, r: nat)
    requires c < 8 && r < 8
    ensures PassOf(c, r) + 1 == MATRIX[r][c]
  {
  }

  /** Where a pixel of pass p sits in that pass. */
  function Col(p: nat, x: nat): nat
  {
    if x < XOrig(p) then 0 else (x - XOrig(p)) / XSpc(p)
  }

  function Line(p: nat, y: nat): nat
  {
    if y < YOrig(p) then 0 else (y - YOrig(p)) / YSpc(p)
  }

  lemma WrapCancels(size: nat, orig: nat, spc: nat)
    requires 1 <= size <= 0x100_0000 && orig < spc <= 8
    ensures U32(U32(U32(size - orig) + spc) - 1) == size - orig + spc - 1
  {
    var a := U32(size - orig);
    assert a == if size >= orig then size - orig else size - orig + 0x1_0000_0000;
    var b := U32(a + spc);
    assert b == size - orig + spc;
  }

  lemma SizeExact(size: nat, orig: nat, spc: nat, i: nat)
    requires 1 <= size <= 0x100_0000 && orig < spc && (spc == 1 || spc == 2 || spc == 4 || spc == 8)
    ensures i < PassSize(size, orig, spc) <==> i * spc + orig < size
  {
    WrapCancels(size, orig, spc);
    var n := size - orig + spc - 1;
    hide U32;
    if spc == 8 {
      assert PassSize(size, orig, spc) == n / 8 && i * spc == 8 * i;
    } else if spc == 4 {
      assert PassSize(size, orig, spc) == n / 4 && i * spc == 4 * i;
    } else if spc == 2 {
      assert PassSize(size, orig, spc) == n / 2 && i * spc == 2 * i;
    }
  }

  /** Sizes: exactly the samples that land inside the image are counted, wrap-around or not. */
  lemma SizesExact(p: nat, size: nat, i: nat)
    requires p < 7 && 1 <= size <= 0x100_0000
    ensures i < PassWidth(p, size) <==> OutX(p, i) < size
    ensures i < PassHeight(p, size) <==> OutY(p, i) < size
  {
    SizeExact(size, XOrig(p), XSpc(p), i);
    SizeExact(size, YOrig(p), YSpc(p), i);
    hide PassSize;
  }

  /** x is a column of pass p, and y a line of it. */
  predicate OnX(p: nat, x: nat)
  {
    if p <= 1 then x % 8 == XOrig(p) else if p <= 3 then x % 4 == XOrig(p) else if p <= 5 then x % 2 == XOrig(p) else true
  }

  predicate OnY(p: nat, y: nat)
  {
    if p <= 2 then y % 8 == YOrig(p) else if p <= 4 then y % 4 == YOrig(p) else y % 2 == YOrig(p)
  }

  lemma Residues(x: nat)
    ensures x % 4 == (x % 8) % 4 && x % 2 == (x % 8) % 2
  {
    var q, r := x / 8, x % 8;
    assert x == 8 * q + r;
    if r < 4 {
      FourTimes(2 * q, r);
    } else {
      FourTimes(2 * q + 1, r - 4);
    }
    TwoTimes(4 * q + r / 2, r % 2);
  }

  lemma FourTimes(k: nat, r: nat)
    requires r < 4
    ensures (4 * k + r) % 4 == r
  {
  }

  lemma TwoTimes(k: nat, r: nat)
    requires r < 2
    ensures (2 * k + r) % 2 == r
  {
  }

  lemma OnOwnPass(x: nat, y: nat)
    ensures PassOf(x, y) < 7 && OnX(PassOf(x, y), x) && OnY(PassOf(x, y), y)
  {
    Residues(x);
    Residues(y);
  }

  lemma OnNoOtherPass(p: nat, x: nat, y: nat)
    requires p < 7 && OnX(p, x) && OnY(p, y)
    ensures PassOf(x, y) == p
  {
    Residues(x);
    Residues(y);
  }

  /** Every pixel belongs to exactly one pass. */
  lemma OnePass(p: nat, x: nat, y: nat)
    requires p < 7
    ensures PassOf(x, y) == p <==> OnX(p, x) && OnY(p, y)
  {
    OnOwnPass(x, y);
    if OnX(p, x) && OnY(p, y) {
      OnNoOtherPass(p, x, y);
    }
    hide PassOf, OnX, OnY;
  }

  /** A number on the lattice of spacing 8 and offset o, and its place there; the same for 4 and 2. */
  lemma Lattice8(x: nat, o: nat, i: nat)
    requires o < 8
    ensures x % 8 == o && x >= o && (x - o) / 8 == i <==> 8 * i + o == x
  {
  }

  lemma Lattice4(x: nat, o: nat, i: nat)
    requires o < 4
    ensures x % 4 == o && x >= o && (x - o) / 4 == i <==> 4 * i + o == x
  {
  }

  lemma Lattice2(x: nat, o: nat, i: nat)
    requires o < 2
    ensures x % 2 == o && x >= o && (x - o) / 2 == i <==> 2 * i + o == x
  {
  }

  lemma Columns(p: nat, x: nat, i: nat)
    requires p < 7
    ensures OnX(p, x) && Col(p, x) == i <==> OutX(p, i) == x
  {
    if p <= 1 {
      Lattice8(x, XOrig(p), i);
      assert XSpc(p) == 8;
    } else if p <= 3 {
      Lattice4(x, XOrig(p), i);
      assert XSpc(p) == 4;
    } else if p <= 5 {
      Lattice2(x, XOrig(p), i);
      assert XSpc(p) == 2;
    } else {
      assert XSpc(p) == 1 && XOrig(p) == 0;
    }
  }

  lemma Lines(p: nat, y: nat, j: nat)
    requires p < 7
    ensures OnY(p, y) && Line(p, y) == j <==> OutY(p, j) == y
  {
    if p <= 2 {
      Lattice8(y, YOrig(p), j);
      assert YSpc(p) == 8;
    } else if p <= 4 {
      Lattice4(y, YOrig(p), j);
      assert YSpc(p) == 4;
    } else {
      Lattice2(y, YOrig(p), j);
      assert YSpc(p) == 2;
    }
  }

  // ---------------------------------------------------------------- placing samples

  /** Position of a pixel in a row-major image of width w. */
  function Idx(y: nat, x: nat, w: nat): nat { y * w + x }

  lemma {:induction false} RowsApart(y: nat, y': nat, w: nat)
    requires y < y'
    ensures y * w + w <= y' * w
    decreases y'
  {
    assert y' * w == (y' - 1) * w + w;
    if y < y' - 1 {
      RowsApart(y, y' - 1, w);
    }
  }

  lemma IdxBound(y: nat, x: nat, w: nat, h: nat)
    requires x < w && y < h
    ensures Idx(y, x, w) < w * h
  {
    RowsApart(y, h, w);
  }

  lemma IdxInjective(y: nat, x: nat, y': nat, x': nat, w: nat)
    requires x < w && x' < w && Idx(y, x, w) == Idx(y', x', w)
    ensures y == y' && x == x'
  {
    if y < y' {
      RowsApart(y, y', w);
    } else if y' < y {
      RowsApart(y', y, w);
    }
  }

  /** Entry i, if there is one. */
  function At(pixels: seq<Pixel>, i: nat): Pixel
  {
    if i < |pixels| then pixels[i] else []
  }

  /** The pixel at (x, y) is written with sample i of line j of pass p. */
  ghost predicate IsSample(p: nat, i: nat, j: nat, x: nat, y: nat)
  {
    PassOf(x, y) == p && Col(p, x) == i && Line(p, y) == j
  }

  /** The samples and the pixels correspond one to one, inside the image as well. */
  lemma PassesPartition(p: nat, i: nat, j: nat, x: nat, y: nat, w: nat, h: nat)
    requires p < 7 && 1 <= w <= 0x100_0000 && 1 <= h <= 0x100_0000
    ensures IsSample(p, i, j, x, y) <==> OutX(p, i) == x && OutY(p, j) == y
    ensures x < w && y < h && IsSample(p, i, j, x, y) ==> i < PassWidth(p, w) && j < PassHeight(p, h)
    ensures i < PassWidth(p, w) && j < PassHeight(p, h) && IsSample(p, i, j, x, y) ==> x < w && y < h
  {
    OnePass(p, x, y);
    Columns(p, x, i);
    Lines(p, y, j);
    SizesExact(p, w, i);
    SizesExact(p, h, j);
    hide PassOf, Col, Line, PassWidth, PassHeight, OnX, OnY;
  }

  /** Within a pass samples go from left to right and lines from top to bottom. */
  lemma PassOrder(p: nat, i: nat, i': nat)
    requires p < 7 && i < i'
    ensures OutX(p, i) < OutX(p, i') && OutY(p, i) < OutY(p, i')
  {
  }

  /** The image is stored from left to right and from top to bottom, without gaps. */
  lemma RowMajor(y: nat, x: nat, w: nat)
    requires w >= 1
    ensures Idx(0, 0, w) == 0 && Idx(y, x + 1, w) == Idx(y, x, w) + 1 && Idx(y + 1, 0, w) == Idx(y, w - 1, w) + 1
  {
  }

  /** Scanline j of pass p: its pixels go to their places and nothing else changes. */
  method CopyLine(final: array<Pixel>, w: nat, h: nat, p: nat, row: seq<Pixel>, j: nat)
    requires p < 7 && 1 <= w <= 0x100_0000 && 1 <= h <= 0x100_0000 && final.Length == w * h && j < PassHeight(p, h) && |row| == PassWidth(p, w)
    modifies final
    ensures forall x: nat, y: nat | x < w && y < h ::
              Idx(y, x, w) < final.Length &&
              final[Idx(y, x, w)] == if PassOf(x, y) == p && Line(p, y) == j then At(row, Col(p, x))
                                     else old(final[Idx(y, x, w)])
  {
    hide PassOf, Col, Line, PassWidth, PassHeight, Idx, OutX, OutY, XSpc, YSpc, XOrig, YOrig;
    forall x: nat, y: nat | x < w && y < h ensures Idx(y, x, w) < final.Length {
      IdxBound(y, x, w, h);
    }
    for i := 0 to PassWidth(p, w)
      invariant forall x: nat, y: nat | x < w && y < h ::
                  final[Idx(y, x, w)] == if PassOf(x, y) == p && Line(p, y) == j && Col(p, x) < i then At(row, Col(p, x))
                                         else old(final[Idx(y, x, w)])
    {
      var outY, outX := j * YSpc(p) + YOrig(p), i * XSpc(p) + XOrig(p);
      LandsAt(p, i, j, outX, outY, w, h);
      final[Idx(outY, outX, w)] := row[i];
      forall x: nat, y: nat | x < w && y < h
        ensures Idx(y, x, w) == Idx(outY, outX, w) <==> PassOf(x, y) == p && Line(p, y) == j && Col(p, x) == i
      {
        PassesPartition(p, i, j, x, y, w, h);
        if Idx(y, x, w) == Idx(outY, outX, w) {
          IdxInjective(y, x, outY, outX, w);
        }
        assert OutX(p, i) == outX && OutY(p, j) == outY by { LandsAt(p, i, j, outX, outY, w, h); }
      }
    }
    forall x: nat, y: nat | x < w && y < h && PassOf(x, y) == p && Line(p, y) == j ensures Col(p, x) < PassWidth(p, w) {
      PassesPartition(p, Col(p, x), j, x, y, w, h);
    }
  }

  lemma LandsAt(p: nat, i: nat, j: nat, x: nat, y: nat, w: nat, h: nat)
    requires p < 7 && 1 <= w <= 0x100_0000 && 1 <= h <= 0x100_0000
    requires i < PassWidth(p, w) && j < PassHeight(p, h)
    requires x == i * XSpc(p) + XOrig(p) && y == j * YSpc(p) + YOrig(p)
    ensures x < w && y < h && x == OutX(p, i) && y == OutY(p, j)
  {
    PassesPartition(p, i, j, x, y, w, h);
  }

  // ---------------------------------------------------------------- reading the passes

  /** The scanlines of passes p to 6, read one after the other; a pass without samples is absent from the data. */
  function ReadPasses(data: seq<Byte>, w: nat, h: nat, f: Format, p: nat): (r: Option<seq<seq<seq<Byte>>>>)
    requires ValidFormat(f)
    ensures r.Some? && p <= 7 ==> |r.value| == 7 - p
    decreases 7 - p
  {
    if p >= 7 then Some([])
    else
      var x, y := PassWidth(p, w), PassHeight(p, h);
      if x == 0 || y == 0 then Push([], ReadPasses(data, w, h, f, p + 1))
      else if |data| < RowsSize(RowBytes(f, x), y) then None
      else
        match ReconRows(data, RowBytes(f, x), FilterBytes(f), y, Zeros(RowBytes(f, x)))
        case None => None
        case Some(rows) => Push(rows, ReadPasses(data[RowsSize(RowBytes(f, x), y)..], w, h, f, p + 1))
  }

  function Push(rows: seq<seq<Byte>>, rest: Option<seq<seq<seq<Byte>>>>): Option<seq<seq<seq<Byte>>>>
  {
    if rest.None? then None else Some([rows] + rest.value)
  }

  /** The pixel at (x, y), from the scanlines of all passes. */
  function PixelAt(passes: seq<seq<seq<Byte>>>, x: nat, y: nat, f: Format): Pixel
  {
    var p := PassOf(x, y);
    if p < |passes| && Line(p, y) < |passes[p]| then PixelOf(f, passes[p][Line(p, y)], Col(p, x)) else []
  }

  /** The copying loops of one pass. */
  method CopyPass(final: array<Pixel>, w: nat, h: nat, p: nat, rows: seq<seq<Pixel>>)
    requires p < 7 && 1 <= w <= 0x100_0000 && 1 <= h <= 0x100_0000 && final.Length == w * h && |rows| == PassHeight(p, h)
    requires forall j | 0 <= j < |rows| :: |rows[j]| == PassWidth(p, w)
    modifies final
    ensures forall x: nat, y: nat | x < w && y < h ::
              Idx(y, x, w) < final.Length &&
              final[Idx(y, x, w)] == if PassOf(x, y) == p then
                                       if Line(p, y) < |rows| then At(rows[Line(p, y)], Col(p, x)) else []
                                     else old(final[Idx(y, x, w)])
  {
    hide PassOf, Col, Line, PassWidth, PassHeight, Idx, OutX, OutY, XSpc, YSpc, XOrig, YOrig;
    forall x: nat, y: nat | x < w && y < h ensures Idx(y, x, w) < final.Length {
      IdxBound(y, x, w, h);
    }
    for j := 0 to |rows|
      invariant forall x: nat, y: nat | x < w && y < h ::
                  final[Idx(y, x, w)] == if PassOf(x, y) == p && Line(p, y) < j then At(rows[Line(p, y)], Col(p, x))
                                         else old(final[Idx(y, x, w)])
    {
      CopyLine(final, w, h, p, rows[j], j);
    }
    forall x: nat, y: nat | x < w && y < h && PassOf(x, y) == p ensures Line(p, y) < |rows| {
      PassesPartition(p, Col(p, x), Line(p, y), x, y, w, h);
    }
  }

  /** The lines of a pass, expanded to pixels. */
  method ExpandRows(f: Format, rows: seq<seq<Byte>>, x: nat) returns (pixels: seq<seq<Pixel>>)
    requires ValidFormat(f) && forall j | 0 <= j < |rows| :: |rows[j]| == RowBytes(f, x)
    ensures Shows(f, pixels, rows, x)
  {
    hide PixelOf, RowBytes;
    pixels := [];
    for k := 0 to |rows|
      invariant |pixels| == k
      invariant forall j: nat | j < k :: |pixels[j]| == x && forall i: nat | i < x :: pixels[j][i] == PixelOf(f, rows[j], i)
    {
      var line := ExpandRow(f, rows[k], x);
      pixels := pixels + [line];
    }
  }

  /** The pixels of a pass or a whole image are those of its scanlines. */
  ghost predicate Shows(f: Format, pixels: seq<seq<Pixel>>, rows: seq<seq<Byte>>, x: nat)
  {
    |pixels| == |rows| && forall j: nat | j < |rows| :: |pixels[j]| == x && forall i: nat | i < x :: pixels[j][i] == PixelOf(f, rows[j], i)
  }

  /** `stbi__create_png_image_raw`: reconstruction of the scanlines, and their pixels. */
  method RawImage(raw: seq<Byte>, f: Format, x: nat, y: nat) returns (r: Option<seq<seq<Pixel>>>)
    requires ValidFormat(f) && x >= 1
    ensures if |raw| < RowsSize(RowBytes(f, x), y) then r.None?
            else match ReconRows(raw, RowBytes(f, x), FilterBytes(f), y, Zeros(RowBytes(f, x)))
              case None => r.None?
              case Some(rows) => r.Some? && Shows(f, r.value, rows, x)
  {
    hide RowBytes, FilterBytes, ReconRows, Zeros, RowsSize, PixelOf;
    PixelFits(f, x);
    var rows := Unfilter(raw, RowBytes(f, x), FilterBytes(f), y);
    if rows.None? {
      return None;
    }
    ReconRowsShape(raw, RowBytes(f, x), FilterBytes(f), y, Zeros(RowBytes(f, x)));
    var pixels := ExpandRows(f, rows.value, x);
    r := Some(pixels);
  }

  /** One pass, from its pixels to the image. */
  method PlacePass(final: array<Pixel>, w: nat, h: nat, p: nat, pixels: seq<seq<Pixel>>, ghost rows: seq<seq<Byte>>, f: Format)
    requires p < 7 && 1 <= w <= 0x100_0000 && 1 <= h <= 0x100_0000 && final.Length == w * h
    requires |rows| == PassHeight(p, h) && Shows(f, pixels, rows, PassWidth(p, w))
    modifies final
    ensures forall x: nat, y: nat | x < w && y < h ::
              Idx(y, x, w) < final.Length &&
              final[Idx(y, x, w)] == if PassOf(x, y) == p then
                                       if Line(p, y) < |rows| then PixelOf(f, rows[Line(p, y)], Col(p, x)) else []
                                     else old(final[Idx(y, x, w)])
  {
    hide PassOf, Col, Line, PassWidth, PassHeight, Idx, PixelOf, RowBytes, OutX, OutY;
    CopyPass(final, w, h, p, pixels);
    forall x: nat, y: nat | x < w && y < h && PassOf(x, y) == p ensures Line(p, y) < |rows| && Col(p, x) < PassWidth(p, w) {
      PassesPartition(p, Col(p, x), Line(p, y), x, y, w, h);
    }
  }

  function Append(done: seq<seq<seq<Byte>>>, rest: Option<seq<seq<seq<Byte>>>>): Option<seq<seq<seq<Byte>>>>
  {
    if rest.None? then None else Some(done + rest.value)
  }

  lemma PushIsAppend(done: seq<seq<seq<Byte>>>, rows: seq<seq<Byte>>, rest: Option<seq<seq<seq<Byte>>>>)
    ensures Append(done, Push(rows, rest)) == Append(done + [rows], rest)
    ensures Append([], rest) == rest && Append(done, Some([])) == Some(done)
  {
    if rest.Some? {
      assert done + ([rows] + rest.value) == done + [rows] + rest.value;
      assert [] + rest.value == rest.value;
    }
    assert done + [] == done;
  }

  /** The image holds the pixels of the first p passes. */
  ghost predicate Placed(final: seq<Pixel>, w: nat, h: nat, f: Format, p: nat, done: seq<seq<seq<Byte>>>)
  {
    forall x: nat, y: nat | x < w && y < h && PassOf(x, y) < p ::
      Idx(y, x, w) < |final| && final[Idx(y, x, w)] == PixelAt(done, x, y, f)
  }

  /** Copying pass p completes the pixels of that pass and keeps the earlier ones. */
  lemma PlacedStep(was: seq<Pixel>, final: seq<Pixel>, w: nat, h: nat, f: Format, p: nat, done: seq<seq<seq<Byte>>>, rows: seq<seq<Byte>>)
    requires |done| == p && |was| == |final| && Placed(was, w, h, f, p, done)
    requires forall x: nat, y: nat | x < w && y < h ::
               Idx(y, x, w) < |final| &&
               final[Idx(y, x, w)] == if PassOf(x, y) == p then
                                        if Line(p, y) < |rows| then PixelOf(f, rows[Line(p, y)], Col(p, x)) else []
                                      else was[Idx(y, x, w)]
    ensures Placed(final, w, h, f, p + 1, done + [rows])
  {
    hide PassOf, Col, Line, Idx, PixelOf;
  }

  /** A pass without samples has no pixels either. */
  lemma PlacedSkip(final: seq<Pixel>, w: nat, h: nat, f: Format, p: nat, done: seq<seq<seq<Byte>>>)
    requires p < 7 && 1 <= w <= 0x100_0000 && 1 <= h <= 0x100_0000
    requires |done| == p && Placed(final, w, h, f, p, done) && (PassWidth(p, w) == 0 || PassHeight(p, h) == 0)
    ensures Placed(final, w, h, f, p + 1, done + [[]])
  {
    hide PassOf, Col, Line, Idx, PixelOf, PassWidth, PassHeight;
    forall x: nat, y: nat | x < w && y < h ensures PassOf(x, y) != p {
      PassesPartition(p, Col(p, x), Line(p, y), x, y, w, h);
    }
  }

  /** `stbi__create_png_image` for an interlaced image of any format: it fails exactly when a pass
      cannot be read, and otherwise every pixel comes from its own sample. */
  method Deinterlace(data: seq<Byte>, w: nat, h: nat, f: Format) returns (r: Option<seq<Pixel>>)
    requires ValidFormat(f) && 1 <= w <= 0x100_0000 && 1 <= h <= 0x100_0000
    ensures var passes := ReadPasses(data, w, h, f, 0);
            if passes.None? then r.None? else r.Some? && |r.value| == w * h && Placed(r.value, w, h, f, 7, passes.value)
  {
    hide PassOf, Col, Line, Idx, PixelOf, PassWidth, PassHeight, RowBytes, FilterBytes, ReconRows, RowsSize, ReadPasses, Placed, Append, Push, Zeros, Shows;
    var final := new Pixel[w * h](_ => []);
    var off := 0;
    ghost var done := [];
    PassesFrom(data, w, h, f);
    assert Placed(final[..], w, h, f, 0, done) by { PlacedNone(final[..], w, h, f); }
    for p := 0 to 7
      invariant |done| == p && 0 <= off <= |data| && final.Length == w * h
      invariant Append(done, ReadPasses(data[off..], w, h, f, p)) == ReadPasses(data, w, h, f, 0)
      invariant Placed(final[..], w, h, f, p, done)
    {
      var x, y := PassWidth(p, w), PassHeight(p, h);
      PassStep(data, off, w, h, f, p, done);
      if x != 0 && y != 0 {
        var imgLen := RowsSize(RowBytes(f, x), y);
        var image := RawImage(data[off..], f, x, y);
        if image.None? {
          return None;
        }
        ghost var rows := ReconRows(data[off..], RowBytes(f, x), FilterBytes(f), y, Zeros(RowBytes(f, x)));
        ReconRowsShape(data[off..], RowBytes(f, x), FilterBytes(f), y, Zeros(RowBytes(f, x)));
        ghost var was := final[..];
        PlacePass(final, w, h, p, image.value, rows.value, f);
        PlacedStep(was, final[..], w, h, f, p, done, rows.value);
        done := done + [rows.value];
        off := off + imgLen;
      } else {
        PlacedSkip(final[..], w, h, f, p, done);
        done := done + [[]];
      }
    }
    PassesDone(data[off..], w, h, f, 7, done);
    r := Some(final[..]);
  }

  lemma PassesFrom(data: seq<Byte>, w: nat, h: nat, f: Format)
    requires ValidFormat(f)
    ensures Append([], ReadPasses(data[0..], w, h, f, 0)) == ReadPasses(data, w, h, f, 0)
  {
    hide ReadPasses;
    assert data[0..] == data;
    PushIsAppend([], [], ReadPasses(data, w, h, f, 0));
  }

  lemma PassesDone(data: seq<Byte>, w: nat, h: nat, f: Format, p: nat, done: seq<seq<seq<Byte>>>)
    requires ValidFormat(f) && p >= 7
    ensures Append(done, ReadPasses(data, w, h, f, p)) == Some(done)
  {
    PushIsAppend(done, [], None);
  }

  /** One round of the pass loop: what was read so far followed by what remains is always the whole. */
  lemma {:induction false} PassStep(data: seq<Byte>, off: nat, w: nat, h: nat, f: Format, p: nat, done: seq<seq<seq<Byte>>>)
    requires ValidFormat(f) && off <= |data| && p < 7
    ensures var x, y := PassWidth(p, w), PassHeight(p, h);
            var whole := Append(done, ReadPasses(data[off..], w, h, f, p));
            if x == 0 || y == 0 then whole == Append(done + [[]], ReadPasses(data[off..], w, h, f, p + 1))
            else if |data| - off < RowsSize(RowBytes(f, x), y) then whole == None
            else match ReconRows(data[off..], RowBytes(f, x), FilterBytes(f), y, Zeros(RowBytes(f, x)))
              case None => whole == None
              case Some(rows) => whole == Append(done + [rows], ReadPasses(data[off + RowsSize(RowBytes(f, x), y)..], w, h, f, p + 1))
  {
    hide PassWidth, PassHeight, ReconRows, RowsSize, Push, Zeros;
    var x, y := PassWidth(p, w), PassHeight(p, h);
    var imgLen := RowsSize(RowBytes(f, x), y);
    if x == 0 || y == 0 {
      PushIsAppend(done, [], ReadPasses(data[off..], w, h, f, p + 1));
    } else if imgLen <= |data| - off {
      var rows := ReconRows(data[off..], RowBytes(f, x), FilterBytes(f), y, Zeros(RowBytes(f, x)));
      assert data[off..][imgLen..] == data[off + imgLen..];
      if rows.Some? {
        PushIsAppend(done, rows.value, ReadPasses(data[off + imgLen..], w, h, f, p + 1));
      }
    }
  }

  lemma PlacedNone(final: seq<Pixel>, w: nat, h: nat, f: Format)
    ensures Placed(final, w, h, f, 0, [])
  {
  }

  // ---------------------------------------------------------------- an interlacing encoder, and the round trip

  /** The first n pixels of line j of pass p. */
  function PassPixels(img: seq<Pixel>, w: nat, p: nat, j: nat, n: nat): (r: seq<Pixel>)
    ensures |r| == n && forall i: nat {:trigger r[i]} | i < n :: r[i] == At(img, Idx(OutY(p, j), OutX(p, i), w))
  {
    if n == 0 then [] else PassPixels(img, w, p, j, n - 1) + [At(img, Idx(OutY(p, j), OutX(p, n - 1), w))]
  }

  /** An image of w by h pixels of the format. */
  ghost predicate ValidImage(img: seq<Pixel>, w: nat, h: nat, f: Format)
  {
    ValidFormat(f) && 1 <= w <= 0x100_0000 && 1 <= h <= 0x100_0000 && |img| == w * h && forall i | 0 <= i < |img| :: ValidPixel(f, img[i])
  }

  /** A filter type for every line of every pass. */
  ghost predicate ValidFilters(filters: seq<seq<nat>>, w: nat, h: nat)
  {
    |filters| == 7 &&
    forall p: nat | p < 7 :: |filters[p]| == PassHeight(p, h) && forall j | 0 <= j < |filters[p]| :: filters[p][j] <= 4
  }

  /** A sample of a pass is a pixel of the image. */
  lemma SampleInside(img: seq<Pixel>, w: nat, h: nat, f: Format, p: nat, i: nat, j: nat)
    requires ValidImage(img, w, h, f) && p < 7 && i < PassWidth(p, w) && j < PassHeight(p, h)
    ensures ValidPixel(f, At(img, Idx(OutY(p, j), OutX(p, i), w)))
  {
    hide ValidPixel, Idx;
    LandsAt(p, i, j, OutX(p, i), OutY(p, j), w, h);
    IdxBound(OutY(p, j), OutX(p, i), w, h);
  }

  lemma PassPixelsValid(img: seq<Pixel>, w: nat, h: nat, f: Format, p: nat, j: nat, n: nat)
    requires ValidImage(img, w, h, f) && p < 7 && n <= PassWidth(p, w) && j < PassHeight(p, h)
    ensures forall i | 0 <= i < n :: ValidPixel(f, PassPixels(img, w, p, j, n)[i])
  {
    hide ValidPixel, ValidImage, Idx, OutX, OutY, PassWidth, PassHeight, At;
    forall i | 0 <= i < n ensures ValidPixel(f, PassPixels(img, w, p, j, n)[i]) {
      SampleInside(img, w, h, f, p, i, j);
    }
  }

  /** Line j of pass p. */
  function PassRow(img: seq<Pixel>, w: nat, h: nat, f: Format, p: nat, j: nat): (row: seq<Byte>)
    requires ValidImage(img, w, h, f) && p < 7 && j < PassHeight(p, h)
    ensures |row| == RowBytes(f, PassWidth(p, w))
  {
    PassPixelsValid(img, w, h, f, p, j, PassWidth(p, w));
    PackRow(f, PassPixels(img, w, p, j, PassWidth(p, w)))
  }

  /** The first n lines of pass p. */
  function PassRows(img: seq<Pixel>, w: nat, h: nat, f: Format, p: nat, n: nat): (r: seq<seq<Byte>>)
    requires ValidImage(img, w, h, f) && p < 7 && n <= PassHeight(p, h)
    ensures |r| == n && forall j: nat | j < n :: r[j] == PassRow(img, w, h, f, p, j)
    decreases n
  {
    if n == 0 then [] else PassRows(img, w, h, f, p, n - 1) + [PassRow(img, w, h, f, p, n - 1)]
  }

  lemma PixelOfPassRow(img: seq<Pixel>, w: nat, h: nat, f: Format, p: nat, j: nat, i: nat)
    requires ValidImage(img, w, h, f) && p < 7 && i < PassWidth(p, w) && j < PassHeight(p, h)
    ensures PixelOf(f, PassRow(img, w, h, f, p, j), i) == At(img, Idx(OutY(p, j), OutX(p, i), w))
  {
    hide PixelOf, PackRow, ValidPixel, Idx, OutX, OutY, PassWidth, PassHeight, At;
    PassPixelsValid(img, w, h, f, p, j, PassWidth(p, w));
    PackedPixel(f, PassPixels(img, w, p, j, PassWidth(p, w)), i);
  }

  /** The lines of a pass; none if it has no samples. */
  function PassLines(img: seq<Pixel>, w: nat, h: nat, f: Format, p: nat): (r: seq<seq<Byte>>)
    requires ValidImage(img, w, h, f) && p < 7
    ensures forall j | 0 <= j < |r| :: |r[j]| == RowBytes(f, PassWidth(p, w))
    ensures PassWidth(p, w) != 0 && PassHeight(p, h) != 0 ==> |r| == PassHeight(p, h)
  {
    if PassWidth(p, w) == 0 || PassHeight(p, h) == 0 then [] else PassRows(img, w, h, f, p, PassHeight(p, h))
  }

  /** The data of passes p to 6, filtered line by line. */
  function Interlaced(img: seq<Pixel>, w: nat, h: nat, f: Format, filters: seq<seq<nat>>, p: nat): seq<Byte>
    requires ValidImage(img, w, h, f) && ValidFilters(filters, w, h)
    decreases 7 - p
  {
    if p >= 7 then []
    else
      var x, y := PassWidth(p, w), PassHeight(p, h);
      var rest := Interlaced(img, w, h, f, filters, p + 1);
      if x == 0 || y == 0 then rest
      else FilterRows(PassLines(img, w, h, f, p), filters[p], FilterBytes(f), Zeros(RowBytes(f, x))) + rest
  }

  /** The lines of passes p to 6. */
  function AllPasses(img: seq<Pixel>, w: nat, h: nat, f: Format, p: nat): (r: seq<seq<seq<Byte>>>)
    requires ValidImage(img, w, h, f)
    ensures p <= 7 ==> |r| == 7 - p
    decreases 7 - p
  {
    if p >= 7 then [] else [PassLines(img, w, h, f, p)] + AllPasses(img, w, h, f, p + 1)
  }

  lemma {:induction false} AllPassesStep(img: seq<Pixel>, w: nat, h: nat, f: Format, p: nat)
    requires ValidImage(img, w, h, f) && p < 7
    ensures AllPasses(img, w, h, f, p) == [PassLines(img, w, h, f, p)] + AllPasses(img, w, h, f, p + 1)
  {
    hide ValidImage, PassLines;
  }

  lemma {:induction false} AllPassesAt(img: seq<Pixel>, w: nat, h: nat, f: Format, p: nat, q: nat)
    requires ValidImage(img, w, h, f) && p <= q < 7
    ensures AllPasses(img, w, h, f, p)[q - p] == PassLines(img, w, h, f, q)
    decreases q - p
  {
    hide ValidImage, PassLines, AllPasses;
    AllPassesStep(img, w, h, f, p);
    if p < q {
      AllPassesAt(img, w, h, f, p + 1, q);
    }
  }

  /** Reading undoes interlacing and filtering, whatever the filter types. */
  lemma {:induction false} PassesRoundTrip(img: seq<Pixel>, w: nat, h: nat, f: Format, filters: seq<seq<nat>>, p: nat)
    requires ValidImage(img, w, h, f) && ValidFilters(filters, w, h) && p <= 7
    ensures ReadPasses(Interlaced(img, w, h, f, filters, p), w, h, f, p) == Some(AllPasses(img, w, h, f, p))
    decreases 7 - p
  {
    hide ValidPixel, PassRow, PassRows, RowBytes, FilterBytes, FilterRows, ReconRows, Zeros, RowsSize, PassWidth, PassHeight;
    if p < 7 {
      PassesRoundTrip(img, w, h, f, filters, p + 1);
      var x, y := PassWidth(p, w), PassHeight(p, h);
      var rest := Interlaced(img, w, h, f, filters, p + 1);
      if x != 0 && y != 0 {
        var rows := PassLines(img, w, h, f, p);
        var enc := FilterRows(rows, filters[p], FilterBytes(f), Zeros(RowBytes(f, x)));
        RowsRoundTrip(rows, filters[p], FilterBytes(f), Zeros(RowBytes(f, x)), rest);
        assert (enc + rest)[RowsSize(RowBytes(f, x), y)..] == rest;
      }
    }
  }

  /** De-interlacing what was interlaced restores the image, for every size, format and filter choice. */
  lemma {:induction false} InterlaceRoundTrip(img: seq<Pixel>, w: nat, h: nat, f: Format, filters: seq<seq<nat>>, final: seq<Pixel>)
    requires ValidImage(img, w, h, f) && ValidFilters(filters, w, h) && |final| == w * h
    requires var passes := ReadPasses(Interlaced(img, w, h, f, filters, 0), w, h, f, 0);
             passes.Some? ==> Placed(final, w, h, f, 7, passes.value)
    ensures ReadPasses(Interlaced(img, w, h, f, filters, 0), w, h, f, 0).Some? && final == img
  {
    hide PassOf, Col, Line, Idx, OnX, OnY, AllPasses, PixelAt, ValidPixel, ReadPasses, Interlaced;
    PassesRoundTrip(img, w, h, f, filters, 0);
    forall k | 0 <= k < w * h ensures final[k] == img[k] {
      var x, y := Unindex(k, w, h);
      OnOwnPass(x, y);
      PixelRestored(img, w, h, f, x, y);
    }
  }

  lemma PixelRestored(img: seq<Pixel>, w: nat, h: nat, f: Format, x: nat, y: nat)
    requires ValidImage(img, w, h, f) && x < w && y < h
    ensures PixelAt(AllPasses(img, w, h, f, 0), x, y, f) == At(img, Idx(y, x, w))
  {
    hide PassOf, Col, Line, PassWidth, PassHeight, PassRow, OutX, OutY, Idx, PixelOf, AllPasses, OnX, OnY, At, ValidPixel;
    var p := PassOf(x, y);
    var i, j := Col(p, x), Line(p, y);
    OnOwnPass(x, y);
    PassesPartition(p, i, j, x, y, w, h);
    AllPassesAt(img, w, h, f, 0, p);
    PixelOfPassRow(img, w, h, f, p, j, i);
  }

  /** Every position of the image is the position of a pixel. */
  lemma Unindex(k: nat, w: nat, h: nat) returns (x: nat, y: nat)
    requires k < w * h
    ensures x < w && y < h && Idx(y, x, w) == k
  {
    assert w >= 1;
    x, y := k % w, k / w;
    assert k == y * w + x;
    if y > h {
      RowsApart(h, y, w);
    }
  }

  /** Interlacing, filtering and decoding: the decoder gives the image back. */
  method InterlaceAndDecode(img: seq<Pixel>, w: nat, h: nat, f: Format, filters: seq<seq<nat>>) returns (r: Option<seq<Pixel>>)
    requires ValidImage(img, w, h, f) && ValidFilters(filters, w, h)
    ensures r == Some(img)
  {
    hide ReadPasses, Interlaced, Placed, ValidFilters;
    assert ValidFormat(f) && 1 <= w <= 0x100_0000 && 1 <= h <= 0x100_0000;
    r := Deinterlace(Interlaced(img, w, h, f, filters, 0), w, h, f);
    PassesRoundTrip(img, w, h, f, filters, 0);
    InterlaceRoundTrip(img, w, h, f, filters, r.value);
  }

  // ---------------------------------------------------------------- images without interlacing

  /** The scanlines of an image, packed. */
  function PackRows(f: Format, img: seq<seq<Pixel>>, x: nat): (rows: seq<seq<Byte>>)
    requires ValidFormat(f) && forall j | 0 <= j < |img| :: |img[j]| == x && forall i | 0 <= i < x :: ValidPixel(f, img[j][i])
    ensures |rows| == |img| && forall j: nat | j < |img| :: rows[j] == PackRow(f, img[j]) && |rows[j]| == RowBytes(f, x)
  {
    if img == [] then [] else PackRows(f, img[..|img| - 1], x) + [PackRow(f, img[|img| - 1])]
  }

  /** Packing, filtering and decoding an image without interlacing gives it back, whatever data follows. */
  method FilterAndDecode(img: seq<seq<Pixel>>, f: Format, x: nat, filters: seq<nat>, extra: seq<Byte>) returns (r: Option<seq<seq<Pixel>>>)
    requires ValidFormat(f) && x >= 1 && |filters| == |img| && forall j | 0 <= j < |filters| :: filters[j] <= 4
    requires forall j | 0 <= j < |img| :: |img[j]| == x && forall i | 0 <= i < x :: ValidPixel(f, img[j][i])
    ensures r == Some(img)
  {
    hide RowBytes, FilterBytes, FilterRows, ReconRows, Zeros, RowsSize, PixelOf, PackRow, ValidPixel, Shows;
    var rows := PackRows(f, img, x);
    var zeros := Zeros(RowBytes(f, x));
    RowsRoundTrip(rows, filters, FilterBytes(f), zeros, extra);
    r := RawImage(FilterRows(rows, filters, FilterBytes(f), zeros) + extra, f, x, |img|);
    ShownImage(f, r.value, rows, img, x);
  }

  lemma ShownImage(f: Format, pixels: seq<seq<Pixel>>, rows: seq<seq<Byte>>, img: seq<seq<Pixel>>, x: nat)
    requires ValidFormat(f) && forall j | 0 <= j < |img| :: |img[j]| == x && forall i | 0 <= i < x :: ValidPixel(f, img[j][i])
    requires rows == PackRows(f, img, x) && Shows(f, pixels, rows, x)
    ensures pixels == img
  {
    hide PixelOf, PackRow, ValidPixel, PackRows;
    forall j: nat | j < |img| ensures pixels[j] == img[j] {
      forall i: nat | i < x ensures pixels[j][i] == img[j][i] {
        PackedPixel(f, img[j], i);
      }
    }
  }
}
