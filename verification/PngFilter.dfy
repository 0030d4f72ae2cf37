/** PNG scanline filtering: the reference of section 9 of the PNG specification (Second Edition), and the
    unfiltering loops of `stbi__create_png_image_raw`. */
module PngFilter {
  import opened Wrappers
  import opened Bits

  // ---------------------------------------------------------------- the reference

  function Abs(x: int): nat
  {
    if x < 0 then -x else x
  }

  /** Section 9.4: the neighbour closest to a + b - c, ties going to a, then b. */
  function PaethPredictor(a: int, b: int, c: int): int
  {
    var p := a + b - c;
    var pa, pb, pc := Abs(p - a), Abs(p - b), Abs(p - c);
    if pa <= pb && pa <= pc then a else if pb <= pc then b else c
  }

  const NONE := 0
  const SUB := 1
  const UP := 2
  const AVG := 3
  const PAETH := 4
  const AVG_FIRST := 5   // the decoder's synthetic filter: average with a zero byte above

  /** What a filter type predicts from the bytes to the left, above, and above left. */
  function Predict(f: nat, a: Byte, b: Byte, c: Byte): (p: Byte)
    requires f <= 5
  {
    if f == NONE then 0 else if f == SUB then a else if f == UP then b else if f == AVG then (a + b as int) / 2
    else if f == PAETH then PaethPredictor(a, b, c) else a / 2
  }

  function Left(row: seq<Byte>, i: nat, bpp: nat): Byte
    requires i - bpp < |row|
  {
    if i >= bpp then row[i - bpp] else 0
  }

  /** Reconstruction of the first k bytes of a scanline. */
  function Recon(f: nat, raw: seq<Byte>, prior: seq<Byte>, bpp: nat, k: nat): (r: seq<Byte>)
    requires f <= 5 && bpp >= 1 && k <= |raw| && |prior| == |raw|
    ensures |r| == k
  {
    if k == 0 then []
    else
      var r := Recon(f, raw, prior, bpp, k - 1);
      r + [(raw[k - 1] + Predict(f, Left(r, k - 1, bpp), prior[k - 1], Left(prior, k - 1, bpp)) as int) % 256]
  }

  /** Filtering of the first k bytes of a scanline. */
  function Filter(f: nat, row: seq<Byte>, prior: seq<Byte>, bpp: nat, k: nat): (r: seq<Byte>)
    requires f <= 4 && bpp >= 1 && k <= |row| && |prior| == |row|
    ensures |r| == k
  {
    if k == 0 then []
    else
      Filter(f, row, prior, bpp, k - 1) +
      [(row[k - 1] - Predict(f, Left(row, k - 1, bpp), prior[k - 1], Left(prior, k - 1, bpp)) as int) % 256]
  }

  function Zeros(n: nat): (z: seq<Byte>)
    ensures |z| == n && forall i | 0 <= i < n :: z[i] == 0
  {
    if n == 0 then [] else Zeros(n - 1) + [0]
  }

  /** `img_len`: y scanlines of nk bytes, each after a filter byte. */
  function RowsSize(nk: nat, y: nat): nat
  {
    (nk + 1) * y
  }

  /** Reconstruction of y filtered scanlines of nk bytes, each after its filter byte. */
  function ReconRows(raw: seq<Byte>, nk: nat, bpp: nat, y: nat, prior: seq<Byte>): (r: Option<seq<seq<Byte>>>)
    requires bpp >= 1 && |prior| == nk && |raw| >= RowsSize(nk, y)
    decreases y
  {
    if y == 0 then Some([])
    else
      RowsShrink(nk, y);
      if raw[0] > 4 then None
      else
        var row := Recon(raw[0], raw[1..1 + nk], prior, bpp, nk);
        match ReconRows(raw[1 + nk..], nk, bpp, y - 1, row)
        case None => None
        case Some(rest) => Some([row] + rest)
  }

  lemma RowsShrink(nk: nat, y: nat)
    requires y >= 1
    ensures RowsSize(nk, y) == nk + 1 + RowsSize(nk, y - 1) >= nk + 1
  {
  }

  lemma {:induction false} ReconRowsShape(raw: seq<Byte>, nk: nat, bpp: nat, y: nat, prior: seq<Byte>)
    requires bpp >= 1 && |prior| == nk && |raw| >= RowsSize(nk, y)
    ensures var r := ReconRows(raw, nk, bpp, y, prior);
            r.Some? ==> |r.value| == y && forall j | 0 <= j < y :: |r.value[j]| == nk
    decreases y
  {
    if y > 0 {
      RowsShrink(nk, y);
      if raw[0] <= 4 {
        ReconRowsShape(raw[1 + nk..], nk, bpp, y - 1, Recon(raw[0], raw[1..1 + nk], prior, bpp, nk));
      }
    }
  }

  /** A filtered image: every scanline with its filter type, predicted from the scanline above. */
  function FilterRows(rows: seq<seq<Byte>>, filters: seq<nat>, bpp: nat, prior: seq<Byte>): seq<Byte>
    requires bpp >= 1 && |filters| == |rows|
    requires forall i | 0 <= i < |rows| :: |rows[i]| == |prior| && filters[i] <= 4
  {
    if rows == [] then []
    else [filters[0]] + Filter(filters[0], rows[0], prior, bpp, |prior|) + FilterRows(rows[1..], filters[1..], bpp, rows[0])
  }

  // ---------------------------------------------------------------- filtering is undone

  lemma {:induction false} ReconUndoesFilter(f: nat, row: seq<Byte>, prior: seq<Byte>, bpp: nat, raw: seq<Byte>, k: nat)
    requires f <= 4 && bpp >= 1 && k <= |row| == |prior| && raw == Filter(f, row, prior, bpp, |row|)
    ensures Recon(f, raw, prior, bpp, k) == row[..k]
  {
    hide Filter, Predict;
    if k > 0 {
      ReconUndoesFilter(f, row, prior, bpp, raw, k - 1);
      FilterByte(f, row, prior, bpp, |row|, k - 1);
      ghost var p := Predict(f, Left(row, k - 1, bpp), prior[k - 1], Left(prior, k - 1, bpp));
      assert Left(row[..k - 1], k - 1, bpp) == Left(row, k - 1, bpp);
      SubThenAdd(row[k - 1], p);
      assert row[..k] == row[..k - 1] + [row[k - 1]];
    }
  }

  lemma SubThenAdd(x: Byte, p: Byte)
    ensures ((x - p as int) % 256 + p) % 256 == x
  {
  }

  lemma {:induction false} FilterByte(f: nat, row: seq<Byte>, prior: seq<Byte>, bpp: nat, k: nat, i: nat)
    requires f <= 4 && bpp >= 1 && i < k <= |row| == |prior|
    ensures Filter(f, row, prior, bpp, k)[i] ==
            (row[i] - Predict(f, Left(row, i, bpp), prior[i], Left(prior, i, bpp)) as int) % 256
  {
    if i < k - 1 {
      FilterByte(f, row, prior, bpp, k - 1, i);
    }
  }

  lemma {:induction false} FilterRowsLength(rows: seq<seq<Byte>>, filters: seq<nat>, bpp: nat, prior: seq<Byte>)
    requires bpp >= 1 && |filters| == |rows|
    requires forall i | 0 <= i < |rows| :: |rows[i]| == |prior| && filters[i] <= 4
    ensures |FilterRows(rows, filters, bpp, prior)| == RowsSize(|prior|, |rows|)
  {
    if rows != [] {
      FilterRowsLength(rows[1..], filters[1..], bpp, rows[0]);
      RowsShrink(|prior|, |rows|);
    }
  }

  /** For every image, every choice of filter types and every pixel size, and whatever follows the data. */
  lemma {:induction false} RowsRoundTrip(rows: seq<seq<Byte>>, filters: seq<nat>, bpp: nat, prior: seq<Byte>, extra: seq<Byte>)
    requires bpp >= 1 && |filters| == |rows|
    requires forall i | 0 <= i < |rows| :: |rows[i]| == |prior| && filters[i] <= 4
    ensures |FilterRows(rows, filters, bpp, prior)| == RowsSize(|prior|, |rows|)
    ensures ReconRows(FilterRows(rows, filters, bpp, prior) + extra, |prior|, bpp, |rows|, prior) == Some(rows)
  {
    hide Filter, Recon, RowsSize;
    FilterRowsLength(rows, filters, bpp, prior);
    if rows != [] {
      RowsShrink(|prior|, |rows|);
      var nk := |prior|;
      var first := Filter(filters[0], rows[0], prior, bpp, nk);
      var rest := FilterRows(rows[1..], filters[1..], bpp, rows[0]);
      var raw := FilterRows(rows, filters, bpp, prior) + extra;
      FilterRowsLength(rows[1..], filters[1..], bpp, rows[0]);
      RowsRoundTrip(rows[1..], filters[1..], bpp, rows[0], extra);
      assert raw == [filters[0]] + first + (rest + extra);
      assert raw[1..1 + nk] == first && raw[1 + nk..] == rest + extra;
      ReconUndoesFilter(filters[0], rows[0], prior, bpp, first, nk);
      assert rows[0][..nk] == rows[0];
      assert [rows[0]] + rows[1..] == rows;
    }
  }

  // ---------------------------------------------------------------- the decoder's shortcuts

  /** `stbi__paeth` */
  function Paeth(a: int, b: int, c: int): int
  {
    var thresh := c * 3 - (a + b);
    var lo := if a < b then a else b;
    var hi := if a < b then b else a;
    var t0 := if hi <= thresh then lo else c;
    if thresh <= lo then hi else t0
  }

  /** The reformulation is the specification's predictor, tie-breaking included. */
  lemma PaethIsPredictor(a: int, b: int, c: int)
    ensures Paeth(a, b, c) == PaethPredictor(a, b, c)
  {
  }

  /** With nothing to the left, the predictor is the byte above. */
  lemma PaethAbove(b: Byte)
    ensures PaethPredictor(0, b, 0) == b
  {
  }

  /** `first_row_filter` */
  function FirstRowFilter(f: nat): (g: nat)
    requires f <= 4
    ensures g <= 5 && g != UP && g != AVG && g != PAETH
  {
    if f == NONE then NONE else if f == SUB then SUB else if f == UP then NONE else if f == AVG then AVG_FIRST else SUB
  }

  /** With zeros above, the substituted filter reconstructs the same bytes. */
  lemma {:induction false} FirstRow(f: nat, raw: seq<Byte>, bpp: nat, k: nat)
    requires f <= 4 && bpp >= 1 && k <= |raw|
    ensures Recon(FirstRowFilter(f), raw, Zeros(|raw|), bpp, k) == Recon(f, raw, Zeros(|raw|), bpp, k)
  {
    if k > 0 {
      FirstRow(f, raw, bpp, k - 1);
    }
  }

  // ---------------------------------------------------------------- the unfiltering loops

  /** `STBI__BYTECAST` */
  function ByteCast(x: int): Byte
  {
    x % 256
  }

  /** The byte that reconstruction puts at position i. */
  lemma {:induction false} ReconByte(f: nat, raw: seq<Byte>, prior: seq<Byte>, bpp: nat, k: nat, i: nat)
    requires f <= 5 && bpp >= 1 && i < k <= |raw| == |prior|
    ensures var r := Recon(f, raw, prior, bpp, k);
            r[i] == ByteCast(raw[i] + Predict(f, Left(r, i, bpp), prior[i], Left(prior, i, bpp)) as int)
  {
    if i < k - 1 {
      ReconByte(f, raw, prior, bpp, k - 1, i);
    }
  }

  /** The byte at i, or 0 to the left of the line. */
  function Before(r: seq<Byte>, i: nat, bpp: nat): int
    requires i < |r| + bpp
  {
    if i < bpp then 0 else r[i - bpp]
  }

  /** What each filter type stands for (section 9.2), in numbers: x is the byte above, a the one to the left, c the one
      above left. */
  lemma {:induction false} FilterTypes(f: nat, raw: seq<Byte>, prior: seq<Byte>, bpp: nat, i: nat)
    requires f <= 4 && bpp >= 1 && i < |raw| == |prior|
    ensures var r := Recon(f, raw, prior, bpp, |raw|);
            var a, x, c := Before(r, i, bpp), prior[i] as int, Before(prior, i, bpp);
            r[i] == (raw[i] + (if f == 0 then 0 else if f == 1 then a else if f == 2 then x else if f == 3 then (a + x) / 2
                               else PaethPredictor(a, x, c))) % 256
  {
    hide Recon, PaethPredictor;
    ReconByte(f, raw, prior, bpp, |raw|, i);
  }

  /** The predictor: whichever of the three neighbours is closest to a + b - c, the first of them if several are. */
  lemma ClosestNeighbour(a: int, b: int, c: int)
    ensures var r, e := PaethPredictor(a, b, c), a + b - c;
            (r == a || r == b || r == c) && Abs(e - r) <= Abs(e - a) && Abs(e - r) <= Abs(e - b) && Abs(e - r) <= Abs(e - c) &&
            (Abs(e - a) <= Abs(e - b) && Abs(e - a) <= Abs(e - c) ==> r == a) &&
            (Abs(e - b) < Abs(e - a) && Abs(e - b) <= Abs(e - c) ==> r == b)
  {
  }

  /** A whole image: line j of the data is its filter type and its bytes; the line above the first is prior. */
  lemma {:induction false} ImageBytes(raw: seq<Byte>, nk: nat, bpp: nat, y: nat, prior: seq<Byte>, j: nat, i: nat)
    requires bpp >= 1 && |prior| == nk && |raw| >= RowsSize(nk, y) && j < y && i < nk && ReconRows(raw, nk, bpp, y, prior).Some?
    ensures var rows := ReconRows(raw, nk, bpp, y, prior).value; var start := j * (nk + 1);
            start + 1 + i < |raw| && |rows| == y && |rows[j]| == nk && raw[start] <= 4 && (j > 0 ==> |rows[j - 1]| == nk) &&
            var above := if j == 0 then prior else rows[j - 1];
            var a, x, c := Before(rows[j], i, bpp), above[i] as int, Before(above, i, bpp);
            rows[j][i] == (raw[start + 1 + i] + (if raw[start] == 0 then 0 else if raw[start] == 1 then a else if raw[start] == 2 then x
                                                 else if raw[start] == 3 then (a + x) / 2 else PaethPredictor(a, x, c))) % 256
    decreases y
  {
    hide Recon, PaethPredictor, RowsSize;
    RowsShrink(nk, y);
    ReconRowsShape(raw, nk, bpp, y, prior);
    var row := Recon(raw[0], raw[1..1 + nk], prior, bpp, nk);
    if j == 0 {
      FilterTypes(raw[0], raw[1..1 + nk], prior, bpp, i);
    } else {
      ImageBytes(raw[1 + nk..], nk, bpp, y - 1, row, j - 1, i);
      LineStart(j, nk);
    }
  }

  lemma LineStart(j: nat, nk: nat)
    requires j > 0
    ensures j * (nk + 1) == (j - 1) * (nk + 1) + 1 + nk
  {
  }

  /** What the average and the Paeth filter rebuild, in the terms in which the loops compute it. */
  lemma AvgByte(raw: seq<Byte>, prior: seq<Byte>, bpp: nat, i: nat)
    requires bpp >= 1 && i < |raw| == |prior|
    ensures var r := Recon(AVG, raw, prior, bpp, |raw|);
            r[i] == ByteCast(raw[i] + (if i < bpp then prior[i] / 2 else (prior[i] + r[i - bpp] as int) / 2))
  {
    ReconByte(AVG, raw, prior, bpp, |raw|, i);
  }

  lemma PaethByte(raw: seq<Byte>, prior: seq<Byte>, bpp: nat, i: nat)
    requires bpp >= 1 && i < |raw| == |prior|
    ensures var r := Recon(PAETH, raw, prior, bpp, |raw|);
            r[i] == ByteCast(raw[i] + (if i < bpp then prior[i] as int else Paeth(r[i - bpp], prior[i], prior[i - bpp])))
  {
    hide Recon, Paeth, PaethPredictor, ByteCast;
    var r := Recon(PAETH, raw, prior, bpp, |raw|);
    ReconByte(PAETH, raw, prior, bpp, |raw|, i);
    if i < bpp {
      PaethAbove(prior[i]);
    } else {
      PaethIsPredictor(r[i - bpp], prior[i], prior[i - bpp]);
    }
  }

  /** The filter buffer: y's line is rebuilt in one half while the other holds the line above. */
  class FilterBuffer {
    const raw: seq<Byte>
    const nk: nat
    const bpp: nat
    const buf: array<Byte>

    ghost predicate Valid(co: nat, po: nat, at: nat)
    {
      buf.Length == 2 * nk && 1 <= bpp <= nk && at + nk <= |raw| && ((co == 0 && po == nk) || (co == nk && po == 0))
    }

    constructor (raw: seq<Byte>, nk: nat, bpp: nat)
      ensures this.raw == raw && this.nk == nk && this.bpp == bpp && fresh(buf) && buf.Length == 2 * nk
    {
      this.raw, this.nk, this.bpp := raw, nk, bpp;
      buf := new Byte[2 * nk](_ => 0);
    }

    /** The first k bytes at co are those of r. */
    ghost predicate Rebuilt(co: nat, k: nat, r: seq<Byte>)
      requires co + k <= buf.Length && k <= |r|
      reads buf
    {
      forall j | co <= j < co + k :: buf[j] == r[j - co]
    }

    lemma ByteAt(co: nat, k: nat, r: seq<Byte>, i: nat)
      requires co + k <= buf.Length && k <= |r| && Rebuilt(co, k, r) && i < k
      ensures buf[co + i] == r[i]
    {
    }

    lemma LineRebuilt(co: nat, r: seq<Byte>)
      requires co + nk <= buf.Length && nk == |r| && Rebuilt(co, nk, r)
      ensures buf[co..co + nk] == r
    {
    }

    /** Writing the next byte of a line. */
    method Put(co: nat, po: nat, k: nat, v: Byte, ghost r: seq<Byte>)
      requires buf.Length == 2 * nk && ((co == 0 && po == nk) || (co == nk && po == 0))
      requires k < nk == |r| && Rebuilt(co, k, r) && v == r[k]
      modifies buf
      ensures Rebuilt(co, k + 1, r)
      ensures buf[po..po + nk] == old(buf[po..po + nk])
    {
      buf[co + k] := v;
    }

    /** `STBI__F_none` */
    method RowNone(co: nat, po: nat, at: nat, ghost prior: seq<Byte>)
      requires Valid(co, po, at) && |prior| == nk
      modifies buf
      ensures Rebuilt(co, nk, Recon(NONE, raw[at..at + nk], prior, bpp, nk))
      ensures buf[po..po + nk] == old(buf[po..po + nk])
    {
      ghost var r := Recon(NONE, raw[at..at + nk], prior, bpp, nk);
      for k := 0 to nk
        invariant Rebuilt(co, k, r)
        invariant buf[po..po + nk] == old(buf[po..po + nk])
      {
        ReconByte(NONE, raw[at..at + nk], prior, bpp, nk, k);
        Put(co, po, k, raw[at + k], r);
      }
    }

    /** `STBI__F_sub` */
    method RowSub(co: nat, po: nat, at: nat, ghost prior: seq<Byte>)
      requires Valid(co, po, at) && |prior| == nk
      modifies buf
      ensures Rebuilt(co, nk, Recon(SUB, raw[at..at + nk], prior, bpp, nk))
      ensures buf[po..po + nk] == old(buf[po..po + nk])
    {
      ghost var r := Recon(SUB, raw[at..at + nk], prior, bpp, nk);
      hide Recon;
      for k := 0 to bpp
        invariant Rebuilt(co, k, r)
        invariant buf[po..po + nk] == old(buf[po..po + nk])
      {
        ReconByte(SUB, raw[at..at + nk], prior, bpp, nk, k);
        Put(co, po, k, raw[at + k], r);
      }
      for k := bpp to nk
        invariant Rebuilt(co, k, r)
        invariant buf[po..po + nk] == old(buf[po..po + nk])
      {
        ReconByte(SUB, raw[at..at + nk], prior, bpp, nk, k);
        Put(co, po, k, ByteCast(raw[at + k] + buf[co + k - bpp] as int), r);
      }
    }

    /** `STBI__F_avg_first` */
    method RowAvgFirst(co: nat, po: nat, at: nat, ghost prior: seq<Byte>)
      requires Valid(co, po, at) && |prior| == nk
      modifies buf
      ensures Rebuilt(co, nk, Recon(AVG_FIRST, raw[at..at + nk], prior, bpp, nk))
      ensures buf[po..po + nk] == old(buf[po..po + nk])
    {
      ghost var r := Recon(AVG_FIRST, raw[at..at + nk], prior, bpp, nk);
      hide Recon;
      for k := 0 to bpp
        invariant Rebuilt(co, k, r)
        invariant buf[po..po + nk] == old(buf[po..po + nk])
      {
        ReconByte(AVG_FIRST, raw[at..at + nk], prior, bpp, nk, k);
        Put(co, po, k, raw[at + k], r);
      }
      for k := bpp to nk
        invariant Rebuilt(co, k, r)
        invariant buf[po..po + nk] == old(buf[po..po + nk])
      {
        ReconByte(AVG_FIRST, raw[at..at + nk], prior, bpp, nk, k);
        Put(co, po, k, ByteCast(raw[at + k] + (buf[co + k - bpp] / 2) as int), r);
      }
    }

    /** `STBI__F_up` */
    method RowUp(co: nat, po: nat, at: nat)
      requires Valid(co, po, at)
      modifies buf
      ensures Rebuilt(co, nk, Recon(UP, raw[at..at + nk], old(buf[po..po + nk]), bpp, nk))
      ensures buf[po..po + nk] == old(buf[po..po + nk])
    {
      ghost var prior := buf[po..po + nk];
      ghost var r := Recon(UP, raw[at..at + nk], prior, bpp, nk);
      hide Recon;
      for k := 0 to nk
        invariant Rebuilt(co, k, r)
        invariant buf[po..po + nk] == old(buf[po..po + nk])
      {
        ReconByte(UP, raw[at..at + nk], prior, bpp, nk, k);
        Put(co, po, k, ByteCast(raw[at + k] + buf[po + k] as int), r);
      }
    }

    /** The second loop, once the first pixel is rebuilt. */
    method RowAvgRest(co: nat, po: nat, at: nat, ghost prior: seq<Byte>)
      requires Valid(co, po, at) && prior == buf[po..po + nk]
      requires Rebuilt(co, bpp, Recon(AVG, raw[at..at + nk], prior, bpp, nk))
      modifies buf
      ensures Rebuilt(co, nk, Recon(AVG, raw[at..at + nk], prior, bpp, nk))
      ensures buf[po..po + nk] == prior
    {
      hide Recon, ByteCast, Rebuilt;
      ghost var r := Recon(AVG, raw[at..at + nk], prior, bpp, nk);
      for k := bpp to nk
        invariant Rebuilt(co, k, r)
        invariant buf[po..po + nk] == prior
      {
        AvgByte(raw[at..at + nk], prior, bpp, k);
        ByteAt(co, k, r, k - bpp);
        assert buf[po + k] == prior[k];
        Put(co, po, k, ByteCast(raw[at + k] + (buf[po + k] + buf[co + k - bpp] as int) / 2), r);
      }
    }

    /** `STBI__F_avg` */
    method RowAvg(co: nat, po: nat, at: nat)
      requires Valid(co, po, at)
      modifies buf
      ensures Rebuilt(co, nk, Recon(AVG, raw[at..at + nk], old(buf[po..po + nk]), bpp, nk))
      ensures buf[po..po + nk] == old(buf[po..po + nk])
    {
      ghost var prior := buf[po..po + nk];
      ghost var r := Recon(AVG, raw[at..at + nk], prior, bpp, nk);
      hide Recon, ByteCast, Rebuilt;
      for k := 0 to bpp
        invariant Rebuilt(co, k, r)
        invariant buf[po..po + nk] == old(buf[po..po + nk])
      {
        AvgByte(raw[at..at + nk], prior, bpp, k);
        assert buf[po + k] == prior[k];
        Put(co, po, k, ByteCast(raw[at + k] + (buf[po + k] / 2) as int), r);
      }
      RowAvgRest(co, po, at, prior);
    }

    /** The second loop, once the first pixel is rebuilt. */
    method RowPaethRest(co: nat, po: nat, at: nat, ghost prior: seq<Byte>)
      requires Valid(co, po, at) && prior == buf[po..po + nk]
      requires Rebuilt(co, bpp, Recon(PAETH, raw[at..at + nk], prior, bpp, nk))
      modifies buf
      ensures Rebuilt(co, nk, Recon(PAETH, raw[at..at + nk], prior, bpp, nk))
      ensures buf[po..po + nk] == prior
    {
      hide Recon, Paeth, ByteCast, Rebuilt;
      ghost var r := Recon(PAETH, raw[at..at + nk], prior, bpp, nk);
      for k := bpp to nk
        invariant Rebuilt(co, k, r)
        invariant buf[po..po + nk] == prior
      {
        PaethByte(raw[at..at + nk], prior, bpp, k);
        ByteAt(co, k, r, k - bpp);
        assert buf[po + k] == prior[k] && buf[po + k - bpp] == prior[k - bpp];
        Put(co, po, k, ByteCast(raw[at + k] + Paeth(buf[co + k - bpp], buf[po + k], buf[po + k - bpp])), r);
      }
    }

    /** `STBI__F_paeth` */
    method RowPaeth(co: nat, po: nat, at: nat)
      requires Valid(co, po, at)
      modifies buf
      ensures Rebuilt(co, nk, Recon(PAETH, raw[at..at + nk], old(buf[po..po + nk]), bpp, nk))
      ensures buf[po..po + nk] == old(buf[po..po + nk])
    {
      ghost var prior := buf[po..po + nk];
      ghost var r := Recon(PAETH, raw[at..at + nk], prior, bpp, nk);
      hide Recon, Paeth, ByteCast, Rebuilt;
      for k := 0 to bpp
        invariant Rebuilt(co, k, r)
        invariant buf[po..po + nk] == old(buf[po..po + nk])
      {
        PaethByte(raw[at..at + nk], prior, bpp, k);
        assert buf[po + k] == prior[k];
        Put(co, po, k, ByteCast(raw[at + k] + buf[po + k] as int), r);
      }
      RowPaethRest(co, po, at, prior);
    }

    /** One scanline: the filter switch. */
    method Row(filter: nat, first: bool, co: nat, po: nat, at: nat)
      requires Valid(co, po, at) && filter <= 4
      modifies buf
      ensures buf[co..co + nk] == Recon(filter, raw[at..at + nk], if first then Zeros(nk) else old(buf[po..po + nk]), bpp, nk)
    {
      hide Recon, Rebuilt, Zeros;
      var f := filter;
      ghost var prior := buf[po..po + nk];
      if first {
        f := FirstRowFilter(f);
        prior := Zeros(nk);
        FirstRow(filter, raw[at..at + nk], bpp, nk);
      }
      if f == NONE {
        RowNone(co, po, at, prior);
      } else if f == SUB {
        RowSub(co, po, at, prior);
      } else if f == UP {
        RowUp(co, po, at);
      } else if f == AVG {
        RowAvg(co, po, at);
      } else if f == PAETH {
        RowPaeth(co, po, at);
      } else {
        RowAvgFirst(co, po, at, prior);
      }
      LineRebuilt(co, Recon(filter, raw[at..at + nk], prior, bpp, nk));
    }

    /** Line j, whose filter byte is at p: an unknown filter type is refused. */
    method Scanline(j: nat, p: nat, ghost prior: seq<Byte>) returns (ok: bool)
      requires buf.Length == 2 * nk && 1 <= bpp <= nk && p + 1 + nk <= |raw| && |prior| == nk
      requires if j == 0 then prior == Zeros(nk) else buf[Half(j + 1, nk)..Half(j + 1, nk) + nk] == prior
      modifies buf
      ensures ok <==> raw[p] <= 4
      ensures ok ==> buf[Half(j, nk)..Half(j, nk) + nk] == Recon(raw[p], raw[p + 1..p + 1 + nk], prior, bpp, nk)
    {
      hide Recon, Half;
      HalvesAlternate(j, nk);
      var filter := raw[p];
      ok := filter <= 4;
      if ok {
        Row(filter, j == 0, Half(j, nk), Half(j + 1, nk), p + 1);
      }
    }
  }

  /** `(j & 1) * img_width_bytes` */
  function Half(j: nat, nk: nat): (h: nat)
    ensures h == 0 || h == nk
  {
    (j % 2) * nk
  }

  lemma HalvesAlternate(j: nat, nk: nat)
    ensures Half(j, nk) == Half(j + 2, nk) && Half(j, nk) + Half(j + 1, nk) == nk
  {
  }

  function Prepend(rows: seq<seq<Byte>>, o: Option<seq<seq<Byte>>>): Option<seq<seq<Byte>>>
  {
    if o.None? then None else Some(rows + o.value)
  }

  /** The whole image, if `image` is what was rebuilt before p and `left` lines remain. */
  ghost function Whole(raw: seq<Byte>, p: nat, nk: nat, bpp: nat, left: nat, prior: seq<Byte>, image: seq<seq<Byte>>): Option<seq<seq<Byte>>>
    requires bpp >= 1 && |prior| == nk && p + RowsSize(nk, left) <= |raw|
  {
    Prepend(image, ReconRows(raw[p..], nk, bpp, left, prior))
  }

  lemma WholeAtEnds(raw: seq<Byte>, p: nat, nk: nat, bpp: nat, y: nat, prior: seq<Byte>, image: seq<seq<Byte>>)
    requires bpp >= 1 && |prior| == nk && p + RowsSize(nk, y) <= |raw|
    ensures p == 0 && image == [] ==> Whole(raw, p, nk, bpp, y, prior, image) == ReconRows(raw, nk, bpp, y, prior)
    ensures y == 0 ==> Whole(raw, p, nk, bpp, y, prior, image) == Some(image)
  {
    assert raw[0..] == raw;
    assert image + [] == image;
    var o := ReconRows(raw[p..], nk, bpp, y, prior);
    if o.Some? {
      assert [] + o.value == o.value;
    }
  }

  /** One step of the row recurrence, as the loop meets it. */
  lemma {:induction false} RowStep(raw: seq<Byte>, p: nat, nk: nat, bpp: nat, left: nat, prior: seq<Byte>, image: seq<seq<Byte>>)
    requires bpp >= 1 && |prior| == nk && left >= 1 && p + RowsSize(nk, left) <= |raw|
    ensures RowsSize(nk, left) == 1 + nk + RowsSize(nk, left - 1)
    ensures raw[p] > 4 ==> Whole(raw, p, nk, bpp, left, prior, image) == None
    ensures raw[p] <= 4 ==>
              var row := Recon(raw[p], raw[p + 1..p + 1 + nk], prior, bpp, nk);
              Whole(raw, p, nk, bpp, left, prior, image) == Whole(raw, p + 1 + nk, nk, bpp, left - 1, row, image + [row])
  {
    RowsShrink(nk, left);
    assert raw[p..][1..1 + nk] == raw[p + 1..p + 1 + nk];
    assert raw[p..][1 + nk..] == raw[p + 1 + nk..];
    if raw[p] <= 4 {
      var row := Recon(raw[p], raw[p + 1..p + 1 + nk], prior, bpp, nk);
      var rest := ReconRows(raw[p + 1 + nk..], nk, bpp, left - 1, row);
      if rest.Some? {
        assert image + ([row] + rest.value) == image + [row] + rest.value;
      }
    }
  }

  /** The scanline loop of `stbi__create_png_image_raw`: nk bytes a line, the two halves of the buffer
      taking turns.  It computes the specification's reconstruction, and fails exactly when there is too
      little data or a filter type above 4. */
  method Unfilter(raw: seq<Byte>, nk: nat, bpp: nat, y: nat) returns (r: Option<seq<seq<Byte>>>)
    requires 1 <= bpp <= nk
    ensures r == if |raw| < RowsSize(nk, y) then None else ReconRows(raw, nk, bpp, y, Zeros(nk))
  {
    hide Recon, ReconRows, RowsSize, Half, Whole, Zeros;
    if |raw| < RowsSize(nk, y) {
      return None;
    }
    WholeAtEnds(raw, 0, nk, bpp, y, Zeros(nk), []);
    var fb := new FilterBuffer(raw, nk, bpp);
    var image: seq<seq<Byte>> := [];
    var p := 0;
    ghost var prior := Zeros(nk);
    for j := 0 to y
      invariant p + RowsSize(nk, y - j) <= |raw| && |prior| == nk
      invariant j == 0 ==> prior == Zeros(nk)
      invariant j > 0 ==> fb.buf[Half(j + 1, nk)..Half(j + 1, nk) + nk] == prior
      invariant Whole(raw, p, nk, bpp, y - j, prior, image) == ReconRows(raw, nk, bpp, y, Zeros(nk))
    {
      RowStep(raw, p, nk, bpp, y - j, prior, image);
      var ok := fb.Scanline(j, p, prior);
      if !ok {
        return None;
      }
      HalvesAlternate(j, nk);
      prior := Recon(raw[p], raw[p + 1..p + 1 + nk], prior, bpp, nk);
      image := image + [fb.buf[Half(j, nk)..Half(j, nk) + nk]];
      p := p + 1 + nk;
    }
    WholeAtEnds(raw, p, nk, bpp, 0, prior, image);
    r := Some(image);
  }
}
