/** The path rasterizer of `facet_raster.c`, over real arithmetic: from path commands to an edge table,
    and from the edge table to the pixels that are blended. */
module Raster {
  import opened Bits
  import opened Flatten

  datatype PathCmd =
    | MoveTo(p: Point) | LineTo(p: Point) | QuadTo(c: Point, p: Point) | CubicTo(c1: Point, c2: Point, p: Point) | Close

  /** A directed line segment before it is entered into the table. */
  datatype Chord = Chord(a: Point, b: Point)

  /** An edge points downwards, that is towards larger y; `dir` tells how the chord ran. */
  datatype Edge = Edge(x0: real, y0: real, x1: real, y1: real, dir: int)

  // ---------------------------------------------------------------- chords of a path

  /** Near-horizontal chords are dropped. */
  predicate Sliver(c: Chord)
  {
    -0.001 < c.b.y - c.a.y < 0.001
  }

  function EdgeOf(c: Chord): Edge
  {
    if c.a.y < c.b.y then Edge(c.a.x, c.a.y, c.b.x, c.b.y, 1) else Edge(c.b.x, c.b.y, c.a.x, c.a.y, -1)
  }

  /** The edges that `add_line_edge` enters for these chords. */
  function EdgesOf(cs: seq<Chord>): seq<Edge>
  {
    if cs == [] then []
    else
      var n := |cs| - 1;
      EdgesOf(cs[..n]) + if Sliver(cs[n]) then [] else [EdgeOf(cs[n])]
  }

  /** An edge joins the two points of its chord, the upper one first, and remembers which way the chord ran; a chord is
      dropped when it rises or falls by less than a thousandth of a pixel. */
  lemma EdgeIsChord(c: Chord)
    ensures Sliver(c) <==> -0.001 < c.b.y - c.a.y < 0.001
    ensures var e := EdgeOf(c); var upper, lower := Point(e.x0, e.y0), Point(e.x1, e.y1);
            upper.y <= lower.y && (e.dir == 1 || e.dir == -1) &&
            if e.dir == 1 then c == Chord(upper, lower) else c == Chord(lower, upper)
  {
  }

  lemma {:induction false} EdgesOfConcat(a: seq<Chord>, b: seq<Chord>)
    ensures EdgesOf(a + b) == EdgesOf(a) + EdgesOf(b)
    decreases |b|
  {
    if b == [] {
      assert a + b == a;
    } else {
      var n := |b| - 1;
      assert (a + b)[..|a + b| - 1] == a + b[..n];
      EdgesOfConcat(a, b[..n]);
    }
  }

  /** The chords of a quadratic: subdivision stops when flat, or below depth 16. */
  function QuadChords(p0: Point, p1: Point, p2: Point, limit: real, depth: nat): seq<Chord>
    decreases 17 - depth
  {
    if depth > 16 || QuadFlatness(p0, p1, p2) <= limit then [Chord(p0, p2)]
    else
      var p01, p12 := Mid(p0, p1), Mid(p1, p2);
      var m := Mid(p01, p12);
      QuadChords(p0, p01, m, limit, depth + 1) + QuadChords(m, p12, p2, limit, depth + 1)
  }

  function CubicChords(p0: Point, p1: Point, p2: Point, p3: Point, limit: real, depth: nat): seq<Chord>
    decreases 17 - depth
  {
    if depth > 16 || CubicFlatness(p0, p1, p2, p3) <= limit then [Chord(p0, p3)]
    else
      var p01, p12, p23 := Mid(p0, p1), Mid(p1, p2), Mid(p2, p3);
      var p012, p123 := Mid(p01, p12), Mid(p12, p23);
      var m := Mid(p012, p123);
      CubicChords(p0, p01, p012, m, limit, depth + 1) + CubicChords(m, p123, p23, p3, limit, depth + 1)
  }

  const QUAD_LIMIT := 0.0625   // 0.25 squared
  const CUBIC_LIMIT := 1.0     // 16 times that

  /** The pen: where it is, and where the sub-path began. */
  datatype Pen = Pen(cur: Point, start: Point)

  const ORIGIN := Pen(Point(0.0, 0.0), Point(0.0, 0.0))

  function Step(pen: Pen, cmd: PathCmd): Pen
  {
    match cmd
    case MoveTo(p) => Pen(p, p)
    case LineTo(p) => pen.(cur := p)
    case QuadTo(_, p) => pen.(cur := p)
    case CubicTo(_, _, p) => pen.(cur := p)
    case Close => pen.(cur := pen.start)
  }

  function CmdChords(pen: Pen, cmd: PathCmd): seq<Chord>
  {
    match cmd
    case MoveTo(_) => []
    case LineTo(p) => [Chord(pen.cur, p)]
    case QuadTo(c, p) => QuadChords(pen.cur, c, p, QUAD_LIMIT, 0)
    case CubicTo(c1, c2, p) => CubicChords(pen.cur, c1, c2, p, CUBIC_LIMIT, 0)
    case Close => [Chord(pen.cur, pen.start)]
  }

  function PenAfter(path: seq<PathCmd>): Pen
  {
    if path == [] then ORIGIN else Step(PenAfter(path[..|path| - 1]), path[|path| - 1])
  }

  function PathChords(path: seq<PathCmd>): seq<Chord>
  {
    if path == [] then []
    else
      var n := |path| - 1;
      PathChords(path[..n]) + CmdChords(PenAfter(path[..n]), path[n])
  }

  /** The thresholds of the fill: a tolerance of a quarter of a pixel, squared, and sixteen times that for cubics. */
  lemma Tolerances()
    ensures QUAD_LIMIT == 0.25 * 0.25 && CUBIC_LIMIT == 16.0 * QUAD_LIMIT
  {
  }

  /** The depth limit: at most 2^17 chords for a curve, whatever its flatness. */
  lemma {:induction false} QuadChordsAtMost(p0: Point, p1: Point, p2: Point, limit: real, depth: nat)
    ensures 1 <= |QuadChords(p0, p1, p2, limit, depth)| <= if depth <= 17 then Pow2(17 - depth) else 1
    decreases 17 - depth
  {
    hide Mid, QuadFlatness;
    if depth <= 16 && QuadFlatness(p0, p1, p2) > limit {
      var p01, p12 := Mid(p0, p1), Mid(p1, p2);
      var m := Mid(p01, p12);
      QuadChordsAtMost(p0, p01, m, limit, depth + 1);
      QuadChordsAtMost(m, p12, p2, limit, depth + 1);
    }
  }

  lemma {:induction false} CubicChordsAtMost(p0: Point, p1: Point, p2: Point, p3: Point, limit: real, depth: nat)
    ensures 1 <= |CubicChords(p0, p1, p2, p3, limit, depth)| <= if depth <= 17 then Pow2(17 - depth) else 1
    decreases 17 - depth
  {
    hide Mid, CubicFlatness;
    if depth <= 16 && CubicFlatness(p0, p1, p2, p3) > limit {
      var p01, p12, p23 := Mid(p0, p1), Mid(p1, p2), Mid(p2, p3);
      var p012, p123 := Mid(p01, p12), Mid(p12, p23);
      var m := Mid(p012, p123);
      CubicChordsAtMost(p0, p01, p012, m, limit, depth + 1);
      CubicChordsAtMost(m, p123, p23, p3, limit, depth + 1);
    }
  }

  // ---------------------------------------------------------------- the chords are the flattened curve

  /** The chords between consecutive points. */
  function ChordsOf(start: Point, r: seq<Point>): (cs: seq<Chord>)
    ensures |cs| == |r|
    ensures forall i: nat {:trigger cs[i]} | i < |r| :: cs[i] == Chord(SegmentStart(start, r, i), r[i])
  {
    if r == [] then [] else ChordsOf(start, r[..|r| - 1]) + [Chord(SegmentStart(start, r, |r| - 1), r[|r| - 1])]
  }

  lemma ChordsConcat(start: Point, a: seq<Point>, b: seq<Point>)
    requires |a| >= 1
    ensures ChordsOf(start, a + b) == ChordsOf(start, a) + ChordsOf(a[|a| - 1], b)
  {
    hide ChordsOf;
    var l, r := ChordsOf(start, a + b), ChordsOf(start, a) + ChordsOf(a[|a| - 1], b);
    forall i: nat | i < |l| ensures l[i] == r[i] {
      if i >= |a| {
        assert r[i] == ChordsOf(a[|a| - 1], b)[i - |a|];
      }
    }
  }

  /** The flatness that n splits of a quadratic bring down to the limit. */
  function QuadReach(limit: real, n: nat): real
  {
    if n == 0 then limit else 16.0 * QuadReach(limit, n - 1)
  }

  /** The same for a cubic. */
  function CubicReach(limit: real, n: nat): real
  {
    if n == 0 then limit else 4.0 * CubicReach(limit, n - 1)
  }

  /** Up to that flatness the depth limit does not bind: the chords join the flattened points. */
  lemma {:induction false} QuadChordsFlatten(p0: Point, p1: Point, p2: Point, limit: real, depth: nat)
    requires limit > 0.0 && depth <= 17 && QuadFlatness(p0, p1, p2) <= QuadReach(limit, 17 - depth)
    ensures QuadChords(p0, p1, p2, limit, depth) == ChordsOf(p0, FlattenQuad(p0, p1, p2, limit))
    decreases 17 - depth
  {
    hide Mid, QuadFlatness, ChordsOf, Excess;
    if QuadFlatness(p0, p1, p2) <= limit {
      SingleChord(p0, p2);
    } else {
      var p01, p12 := Mid(p0, p1), Mid(p1, p2);
      var m := Mid(p01, p12);
      QuadFlatnessDrops(p0, p1, p2);
      QuadChordsFlatten(p0, p01, m, limit, depth + 1);
      QuadChordsFlatten(m, p12, p2, limit, depth + 1);
      ChordsConcat(p0, FlattenQuad(p0, p01, m, limit), FlattenQuad(m, p12, p2, limit));
    }
  }

  lemma SingleChord(a: Point, b: Point)
    ensures ChordsOf(a, [b]) == [Chord(a, b)]
  {
  }

  lemma {:induction false} CubicChordsFlatten(p0: Point, p1: Point, p2: Point, p3: Point, limit: real, depth: nat)
    requires limit > 0.0 && depth <= 17 && CubicFlatness(p0, p1, p2, p3) <= CubicReach(limit, 17 - depth)
    ensures CubicChords(p0, p1, p2, p3, limit, depth) == ChordsOf(p0, FlattenCubic(p0, p1, p2, p3, limit))
    decreases 17 - depth
  {
    hide Mid, CubicFlatness, ChordsOf, Excess;
    if CubicFlatness(p0, p1, p2, p3) <= limit {
      SingleChord(p0, p3);
    } else {
      var p01, p12, p23 := Mid(p0, p1), Mid(p1, p2), Mid(p2, p3);
      var p012, p123 := Mid(p01, p12), Mid(p12, p23);
      var m := Mid(p012, p123);
      CubicFlatnessDrops(p0, p1, p2, p3);
      CubicChordsFlatten(p0, p01, p012, m, limit, depth + 1);
      CubicChordsFlatten(m, p123, p23, p3, limit, depth + 1);
      ChordsConcat(p0, FlattenCubic(p0, p01, p012, m, limit), FlattenCubic(m, p123, p23, p3, limit));
    }
  }

  /** q is within a quarter of a pixel of a point of some chord. */
  ghost predicate NearChords(q: Point, cs: seq<Chord>)
  {
    exists i: nat, u: real :: i < |cs| && 0.0 <= u <= 1.0 && DistSq(q, LerpPoint(cs[i].a, cs[i].b, u)) <= 0.0625
  }

  lemma NearOutline(q: Point, p0: Point, r: seq<Point>)
    requires Near(q, p0, r, 0.0625)
    ensures NearChords(q, ChordsOf(p0, r))
  {
    hide ChordsOf, DistSq, LerpPoint;
    var i: nat, u: real :| i < |r| && 0.0 <= u <= 1.0 && DistSq(q, LerpPoint(SegmentStart(p0, r, i), r[i], u)) <= 0.0625;
    assert ChordsOf(p0, r)[i] == Chord(SegmentStart(p0, r, i), r[i]);
  }

  /** So the outline that is filled stays within 0.25 of the curve that was asked for. */
  lemma QuadOutline(p0: Point, p1: Point, p2: Point, t: real)
    requires QuadFlatness(p0, p1, p2) <= QuadReach(QUAD_LIMIT, 17) && 0.0 <= t <= 1.0
    ensures NearChords(QuadPoint(p0, p1, p2, t), QuadChords(p0, p1, p2, QUAD_LIMIT, 0))
  {
    hide QuadChords, FlattenQuad, QuadPoint, QuadFlatness, QuadReach, Near, NearChords;
    QuadChordsFlatten(p0, p1, p2, QUAD_LIMIT, 0);
    QuadWithinTolerance(p0, p1, p2, QUAD_LIMIT, t);
    NearOutline(QuadPoint(p0, p1, p2, t), p0, FlattenQuad(p0, p1, p2, QUAD_LIMIT));
  }

  lemma CubicOutline(p0: Point, p1: Point, p2: Point, p3: Point, t: real)
    requires CubicFlatness(p0, p1, p2, p3) <= CubicReach(CUBIC_LIMIT, 17) && 0.0 <= t <= 1.0
    ensures NearChords(CubicPoint(p0, p1, p2, p3, t), CubicChords(p0, p1, p2, p3, CUBIC_LIMIT, 0))
  {
    hide CubicChords, FlattenCubic, CubicPoint, CubicFlatness, CubicReach, Near, NearChords;
    CubicChordsFlatten(p0, p1, p2, p3, CUBIC_LIMIT, 0);
    CubicWithinTolerance(p0, p1, p2, p3, CUBIC_LIMIT, t);
    NearOutline(CubicPoint(p0, p1, p2, p3, t), p0, FlattenCubic(p0, p1, p2, p3, CUBIC_LIMIT));
  }

  /** A point of what a command draws, t of the way along: the line, the curve with its control points in order, or the
      line back to the beginning of the sub-path. */
  function Drawn(pen: Pen, cmd: PathCmd, t: real): Point
    requires !cmd.MoveTo?
  {
    match cmd
    case LineTo(p) => LerpPoint(pen.cur, p, t)
    case QuadTo(c, p) => QuadPoint(pen.cur, c, p, t)
    case CubicTo(c1, c2, p) => CubicPoint(pen.cur, c1, c2, p, t)
    case Close => LerpPoint(pen.cur, pen.start, t)
  }

  /** The curve is not too far from flat for the depth limit. */
  predicate WithinDepth(pen: Pen, cmd: PathCmd)
  {
    match cmd
    case QuadTo(c, p) => QuadFlatness(pen.cur, c, p) <= QuadReach(QUAD_LIMIT, 17)
    case CubicTo(c1, c2, p) => CubicFlatness(pen.cur, c1, c2, p) <= CubicReach(CUBIC_LIMIT, 17)
    case _ => true
  }

  /** Every point that a command draws is within a quarter of a pixel of its chords; moving draws nothing. */
  lemma CommandOutline(pen: Pen, cmd: PathCmd, t: real)
    requires WithinDepth(pen, cmd) && 0.0 <= t <= 1.0
    ensures if cmd.MoveTo? then CmdChords(pen, cmd) == [] else NearChords(Drawn(pen, cmd, t), CmdChords(pen, cmd))
  {
    hide QuadChords, CubicChords, QuadFlatness, CubicFlatness, QuadReach, CubicReach, QuadPoint, CubicPoint, NearChords;
    match cmd
    case MoveTo(_) =>
    case LineTo(p) => OnChord(pen.cur, p, t);
    case QuadTo(c, p) => QuadOutline(pen.cur, c, p, t);
    case CubicTo(c1, c2, p) => CubicOutline(pen.cur, c1, c2, p, t);
    case Close => OnChord(pen.cur, pen.start, t);
  }

  lemma OnChord(a: Point, b: Point, t: real)
    requires 0.0 <= t <= 1.0
    ensures NearChords(LerpPoint(a, b, t), [Chord(a, b)])
  {
    hide LerpPoint;
    var cs := [Chord(a, b)];
    assert DistSq(LerpPoint(a, b, t), LerpPoint(cs[0].a, cs[0].b, t)) == 0.0;
  }

  // ---------------------------------------------------------------- crossings cancel on closed paths

  /** 1 for a point below the scanline (at larger y), 0 for one on it or above. */
  function Side(p: Point, y: real): int
  {
    if y < p.y then 1 else 0
  }

  /** The signed crossing of a scanline by an edge. */
  function Crossing(e: Edge, y: real): int
  {
    if e.y0 <= y < e.y1 then e.dir else 0
  }

  function Crossings(es: seq<Edge>, y: real): int
  {
    if es == [] then 0 else Crossings(es[..|es| - 1], y) + Crossing(es[|es| - 1], y)
  }

  /** No dropped chord runs across the scanline. */
  ghost predicate Uncut(cs: seq<Chord>, y: real)
  {
    forall i | 0 <= i < |cs| && Sliver(cs[i]) :: Side(cs[i].a, y) == Side(cs[i].b, y)
  }

  /** The sum over the chords of how their ends lie: it telescopes along a polyline. */
  function Drops(cs: seq<Chord>, y: real): int
  {
    if cs == [] then 0
    else
      var n := |cs| - 1;
      Drops(cs[..n], y) + Side(cs[n].b, y) - Side(cs[n].a, y)
  }

  lemma {:induction false} CrossingsConcat(a: seq<Edge>, b: seq<Edge>, y: real)
    ensures Crossings(a + b, y) == Crossings(a, y) + Crossings(b, y)
    decreases |b|
  {
    if b == [] {
      assert a + b == a;
    } else {
      var n := |b| - 1;
      assert (a + b)[..|a + b| - 1] == a + b[..n];
      CrossingsConcat(a, b[..n], y);
    }
  }

  lemma {:induction false} DropsConcat(a: seq<Chord>, b: seq<Chord>, y: real)
    ensures Drops(a + b, y) == Drops(a, y) + Drops(b, y)
    decreases |b|
  {
    if b == [] {
      assert a + b == a;
    } else {
      var n := |b| - 1;
      assert (a + b)[..|a + b| - 1] == a + b[..n];
      DropsConcat(a, b[..n], y);
    }
  }

  /** The crossings that were lost with dropped chords. */
  function Lost(cs: seq<Chord>, y: real): int
  {
    if cs == [] then 0
    else
      var n := |cs| - 1;
      Lost(cs[..n], y) + if Sliver(cs[n]) then Side(cs[n].b, y) - Side(cs[n].a, y) else 0
  }

  /** Edges cross exactly as their chords do, apart from dropped ones. */
  lemma {:induction false} CrossingsAreDrops(cs: seq<Chord>, y: real)
    ensures Crossings(EdgesOf(cs), y) + Lost(cs, y) == Drops(cs, y)
    decreases |cs|
  {
    if cs != [] {
      var n := |cs| - 1;
      CrossingsAreDrops(cs[..n], y);
      CrossingsConcat(EdgesOf(cs[..n]), if Sliver(cs[n]) then [] else [EdgeOf(cs[n])], y);
      if !Sliver(cs[n]) {
        var e := [EdgeOf(cs[n])];
        assert Crossings(e, y) == Crossings(e[..0], y) + Crossing(e[0], y);
      }
    }
  }

  lemma {:induction false} NothingLost(cs: seq<Chord>, y: real)
    requires Uncut(cs, y)
    ensures Lost(cs, y) == 0
    decreases |cs|
  {
    if cs != [] {
      NothingLost(cs[..|cs| - 1], y);
    }
  }

  /** However a curve is subdivided, its chords lead from its beginning to its end. */
  lemma {:induction false} QuadTelescopes(p0: Point, p1: Point, p2: Point, limit: real, depth: nat, y: real)
    ensures Drops(QuadChords(p0, p1, p2, limit, depth), y) == Side(p2, y) - Side(p0, y)
    decreases 17 - depth
  {
    hide Mid, QuadFlatness, Side;
    if depth > 16 || QuadFlatness(p0, p1, p2) <= limit {
      SingleDrop(Chord(p0, p2), y);
    } else {
      var p01, p12 := Mid(p0, p1), Mid(p1, p2);
      var m := Mid(p01, p12);
      QuadTelescopes(p0, p01, m, limit, depth + 1, y);
      QuadTelescopes(m, p12, p2, limit, depth + 1, y);
      DropsConcat(QuadChords(p0, p01, m, limit, depth + 1), QuadChords(m, p12, p2, limit, depth + 1), y);
    }
  }

  lemma SingleDrop(c: Chord, y: real)
    ensures Drops([c], y) == Side(c.b, y) - Side(c.a, y)
  {
    assert [c][..0] == [];
  }

  lemma {:induction false} CubicTelescopes(p0: Point, p1: Point, p2: Point, p3: Point, limit: real, depth: nat, y: real)
    ensures Drops(CubicChords(p0, p1, p2, p3, limit, depth), y) == Side(p3, y) - Side(p0, y)
    decreases 17 - depth
  {
    hide Mid, CubicFlatness, Side;
    if depth > 16 || CubicFlatness(p0, p1, p2, p3) <= limit {
      SingleDrop(Chord(p0, p3), y);
    } else {
      var p01, p12, p23 := Mid(p0, p1), Mid(p1, p2), Mid(p2, p3);
      var p012, p123 := Mid(p01, p12), Mid(p12, p23);
      var m := Mid(p012, p123);
      CubicTelescopes(p0, p01, p012, m, limit, depth + 1, y);
      CubicTelescopes(m, p123, p23, p3, limit, depth + 1, y);
      DropsConcat(CubicChords(p0, p01, p012, m, limit, depth + 1), CubicChords(m, p123, p23, p3, limit, depth + 1), y);
    }
  }

  /** Every sub-path is back at its beginning when the next one starts, and at the end of the path. */
  ghost predicate AllClosed(path: seq<PathCmd>)
  {
    (forall i: nat | i < |path| && path[i].MoveTo? :: Returned(path, i)) && Returned(path, |path|)
  }

  ghost predicate Returned(path: seq<PathCmd>, i: nat)
    requires i <= |path|
  {
    PenAfter(path[..i]).cur == PenAfter(path[..i]).start
  }

  /** The chords so far sum to how the pen lies relative to the beginning of its sub-path. */
  lemma {:induction false} PathTelescopes(path: seq<PathCmd>, y: real)
    requires forall i: nat | i < |path| && path[i].MoveTo? :: Returned(path, i)
    ensures var pen := PenAfter(path); Drops(PathChords(path), y) == Side(pen.cur, y) - Side(pen.start, y)
    decreases |path|
  {
    hide Side, CmdChords, Drops;
    if path != [] {
      var n := |path| - 1;
      var before, cmd := path[..n], path[n];
      var pen := PenAfter(before);
      forall i: nat | i < |before| && before[i].MoveTo? ensures Returned(before, i) {
        assert before[..i] == path[..i] && Returned(path, i);
      }
      PathTelescopes(before, y);
      DropsConcat(PathChords(before), CmdChords(pen, cmd), y);
      assert cmd.MoveTo? ==> Returned(path, n);
      CmdTelescopes(pen, cmd, y);
    } else {
      assert PathChords(path) == [];
      NoDrops(y);
    }
  }

  lemma NoDrops(y: real)
    ensures Drops([], y) == 0
  {
  }

  /** One command, drawn from where the pen is; a new sub-path begins only where the last one ended. */
  lemma CmdTelescopes(pen: Pen, cmd: PathCmd, y: real)
    requires cmd.MoveTo? ==> pen.cur == pen.start
    ensures var after := Step(pen, cmd);
            Drops(CmdChords(pen, cmd), y) == Side(after.cur, y) - Side(after.start, y) - Side(pen.cur, y) + Side(pen.start, y)
  {
    hide Side, Drops, QuadChords, CubicChords;
    match cmd
    case MoveTo(_) => NoDrops(y);
    case LineTo(p) => SingleDrop(Chord(pen.cur, p), y);
    case QuadTo(c, p) => QuadTelescopes(pen.cur, c, p, QUAD_LIMIT, 0, y);
    case CubicTo(c1, c2, p) => CubicTelescopes(pen.cur, c1, c2, p, CUBIC_LIMIT, 0, y);
    case Close => SingleDrop(Chord(pen.cur, pen.start), y);
  }

  /** On a closed path the edges that cross a scanline cancel, up to what dropped slivers lost there; where
      no sliver cuts the scanline they cancel exactly. */
  lemma ClosedPathsCancel(path: seq<PathCmd>, y: real)
    requires AllClosed(path)
    ensures Crossings(EdgesOf(PathChords(path)), y) == -Lost(PathChords(path), y)
    ensures Uncut(PathChords(path), y) ==> Crossings(EdgesOf(PathChords(path)), y) == 0
  {
    PathTelescopes(path, y);
    CrossingsAreDrops(PathChords(path), y);
    assert path[..|path|] == path;
    if Uncut(PathChords(path), y) {
      NothingLost(PathChords(path), y);
    }
  }

  // ---------------------------------------------------------------- the edge table

  class EdgeTable {
    var edges: seq<Edge>

    constructor ()
      ensures edges == []
    {
      edges := [];
    }

    /** `add_line_edge` */
    method AddLine(a: Point, b: Point)
      modifies this
      ensures edges == old(edges) + EdgesOf([Chord(a, b)])
    {
      SingleEdge(Chord(a, b));
      var dy := b.y - a.y;
      if (if dy < 0.0 then -dy else dy) < 0.001 {
        return;
      }
      if a.y < b.y {
        edges := edges + [Edge(a.x, a.y, b.x, b.y, 1)];
      } else {
        edges := edges + [Edge(b.x, b.y, a.x, a.y, -1)];
      }
    }

    /** `flatten_quad_et` */
    method FlattenQuad(p0: Point, p1: Point, p2: Point, limit: real, depth: nat)
      modifies this
      ensures edges == old(edges) + EdgesOf(QuadChords(p0, p1, p2, limit, depth))
      decreases 17 - depth
    {
      hide Mid, QuadFlatness, EdgesOf;
      if depth > 16 {
        AddLine(p0, p2);
        return;
      }
      if QuadFlatness(p0, p1, p2) <= limit {
        AddLine(p0, p2);
        return;
      }
      var p01, p12 := Mid(p0, p1), Mid(p1, p2);
      var m := Mid(p01, p12);
      FlattenQuad(p0, p01, m, limit, depth + 1);
      FlattenQuad(m, p12, p2, limit, depth + 1);
      EdgesOfConcat(QuadChords(p0, p01, m, limit, depth + 1), QuadChords(m, p12, p2, limit, depth + 1));
    }

    /** `flatten_cubic_et` */
    method FlattenCubic(p0: Point, p1: Point, p2: Point, p3: Point, limit: real, depth: nat)
      modifies this
      ensures edges == old(edges) + EdgesOf(CubicChords(p0, p1, p2, p3, limit, depth))
      decreases 17 - depth
    {
      hide Mid, CubicFlatness, EdgesOf;
      if depth > 16 {
        AddLine(p0, p3);
        return;
      }
      if CubicFlatness(p0, p1, p2, p3) <= limit {
        AddLine(p0, p3);
        return;
      }
      var p01, p12, p23 := Mid(p0, p1), Mid(p1, p2), Mid(p2, p3);
      var p012, p123 := Mid(p01, p12), Mid(p12, p23);
      var m := Mid(p012, p123);
      FlattenCubic(p0, p01, p012, m, limit, depth + 1);
      FlattenCubic(m, p123, p23, p3, limit, depth + 1);
      EdgesOfConcat(CubicChords(p0, p01, p012, m, limit, depth + 1), CubicChords(m, p123, p23, p3, limit, depth + 1));
    }

    /** One command of phase 1. */
    method AddCmd(pen: Pen, cmd: PathCmd) returns (pen': Pen)
      modifies this
      ensures edges == old(edges) + EdgesOf(CmdChords(pen, cmd)) && pen' == Step(pen, cmd)
    {
      hide EdgesOf, QuadChords, CubicChords;
      var Pen(cur, subStart) := pen;
      match cmd {
        case MoveTo(p) =>
          NoEdges();
          cur, subStart := p, p;
        case LineTo(p) =>
          AddLine(cur, p);
          cur := p;
        case QuadTo(c, p) =>
          FlattenQuad(cur, c, p, QUAD_LIMIT, 0);
          cur := p;
        case CubicTo(c1, c2, p) =>
          FlattenCubic(cur, c1, c2, p, CUBIC_LIMIT, 0);
          cur := p;
        case Close =>
          AddLine(cur, subStart);
          cur := subStart;
      }
      pen' := Pen(cur, subStart);
    }

    /** Phase 1 of `facet_canvas_fill`: the path commands become edges. */
    method AddPath(path: seq<PathCmd>)
      modifies this
      ensures edges == old(edges) + EdgesOf(PathChords(path))
    {
      hide EdgesOf, PathChords, PenAfter, CmdChords, Step;
      PathStart();
      var pen := ORIGIN;
      for i := 0 to |path|
        invariant PenAfter(path[..i]) == pen
        invariant edges == old(edges) + EdgesOf(PathChords(path[..i]))
      {
        PathStep(path, i);
        EdgesOfConcat(PathChords(path[..i]), CmdChords(pen, path[i]));
        pen := AddCmd(pen, path[i]);
      }
      assert path[..|path|] == path;
    }
  }

  lemma PathStart()
    ensures PenAfter([]) == ORIGIN && EdgesOf(PathChords([])) == []
  {
  }

  lemma PathStep(path: seq<PathCmd>, i: nat)
    requires i < |path|
    ensures PenAfter(path[..i + 1]) == Step(PenAfter(path[..i]), path[i])
    ensures PathChords(path[..i + 1]) == PathChords(path[..i]) + CmdChords(PenAfter(path[..i]), path[i])
  {
    hide CmdChords;
    assert path[..i + 1][..i] == path[..i];
  }

  lemma SingleEdge(c: Chord)
    ensures EdgesOf([c]) == if Sliver(c) then [] else [EdgeOf(c)]
  {
    assert [c][..0] == [];
  }

  lemma NoEdges()
    ensures EdgesOf([]) == []
  {
  }

  // ---------------------------------------------------------------- the scanline sweep

  datatype Rule = NonZero | EvenOdd

  /** The column at which a crossing edge is counted: that of the intersection, or 0 if it lies to the left. */
  function Column(e: Edge, y: real): (c: nat)
    requires e.y0 <= y < e.y1
  {
    var t := (y - e.y0) / (e.y1 - e.y0);
    var col := (e.x0 + t * (e.x1 - e.x0)).Floor;
    if col < 0 then 0 else col
  }

  /** The point where an edge meets a scanline that it crosses. */
  ghost predicate Meets(e: Edge, y: real, q: Point)
  {
    q.y == y && exists u: real :: 0.0 <= u <= 1.0 && q == LerpPoint(Point(e.x0, e.y0), Point(e.x1, e.y1), u)
  }

  /** There is one such point. */
  lemma MeetingPoint(e: Edge, y: real) returns (q: Point)
    requires e.y0 <= y < e.y1
    ensures Meets(e, y, q)
  {
    var u := (y - e.y0) / (e.y1 - e.y0);
    var d := e.y1 - e.y0;
    assert u * d == y - e.y0;
    FractionRange(u, d, y - e.y0);
    q := LerpPoint(Point(e.x0, e.y0), Point(e.x1, e.y1), u);
    LerpIs(e.y0, e.y1, u);
  }

  lemma FractionRange(u: real, d: real, n: real)
    requires d > 0.0 && u * d == n && 0.0 <= n <= d
    ensures 0.0 <= u <= 1.0
  {
    PositiveFactor(u, d);
    PositiveFactor(1.0 - u, d);
  }

  lemma LerpIs(a: real, b: real, u: real)
    ensures Lerp(a, b, u) == a + u * (b - a)
  {
  }

  /** Only one: the height decides how far along the edge it is. */
  lemma SameFraction(e: Edge, y: real, u: real)
    requires e.y0 <= y < e.y1 && Lerp(e.y0, e.y1, u) == y
    ensures u == (y - e.y0) / (e.y1 - e.y0)
  {
    var d := e.y1 - e.y0;
    var v := (y - e.y0) / d;
    LerpIs(e.y0, e.y1, u);
    assert v * d == y - e.y0;
    SameProduct(u, v, d);
  }

  /** The column is that of the point where the edge meets the scanline, or 0 if that point is left of the canvas. */
  lemma ColumnIs(e: Edge, y: real, q: Point)
    requires e.y0 <= y < e.y1 && Meets(e, y, q)
    ensures if q.x < 0.0 then Column(e, y) == 0 else Column(e, y) as real <= q.x < Column(e, y) as real + 1.0
  {
    var u: real :| 0.0 <= u <= 1.0 && q == LerpPoint(Point(e.x0, e.y0), Point(e.x1, e.y1), u);
    SameFraction(e, y, u);
    LerpIs(e.x0, e.x1, u);
  }

  /** The signed count of the edges that meet the scanline to the left of a given abscissa. */
  ghost function LeftOf(es: seq<Edge>, y: real, x: real): int
  {
    if es == [] then 0
    else
      var n := |es| - 1;
      LeftOf(es[..n], y, x) + if MeetsLeft(es[n], y, x) then es[n].dir else 0
  }

  ghost predicate MeetsLeft(e: Edge, y: real, x: real)
  {
    e.y0 <= y < e.y1 && exists q: Point :: Meets(e, y, q) && q.x < x
  }

  /** The count up to a column of the canvas is that of the edges which meet the scanline left of its right border. */
  lemma {:induction false} WindingIsLeftOf(es: seq<Edge>, y: real, x: nat)
    ensures Winding(es, y, x) == LeftOf(es, y, x as real + 1.0)
    decreases |es|
  {
    hide Column, Meets;
    if es != [] {
      WindingIsLeftOf(es[..|es| - 1], y, x);
      var e := es[|es| - 1];
      if e.y0 <= y < e.y1 {
        ColumnOrLeft(e, y, x);
      }
    }
  }

  lemma ColumnOrLeft(e: Edge, y: real, x: nat)
    requires e.y0 <= y < e.y1
    ensures Column(e, y) <= x <==> MeetsLeft(e, y, x as real + 1.0)
  {
    hide Column, Meets;
    var q := MeetingPoint(e, y);
    ColumnIs(e, y, q);
    if MeetsLeft(e, y, x as real + 1.0) {
      var q' :| Meets(e, y, q') && q'.x < x as real + 1.0;
      ColumnIs(e, y, q');
    }
  }

  /** The signed count of crossings at column x or to the left of it. */
  function Winding(es: seq<Edge>, y: real, x: int): int
  {
    if es == [] then 0
    else
      var n := |es| - 1;
      var e := es[n];
      Winding(es[..n], y, x) + if e.y0 <= y < e.y1 && Column(e, y) <= x then e.dir else 0
  }

  /** The signed count of crossings in one column. */
  function InColumn(es: seq<Edge>, y: real, c: int): int
  {
    if es == [] then 0
    else
      var n := |es| - 1;
      var e := es[n];
      InColumn(es[..n], y, c) + if e.y0 <= y < e.y1 && Column(e, y) == c then e.dir else 0
  }

  lemma {:induction false} WindingStep(es: seq<Edge>, y: real, x: int)
    ensures Winding(es, y, x) == Winding(es, y, x - 1) + InColumn(es, y, x)
    ensures x < 0 ==> Winding(es, y, x) == 0
    decreases |es|
  {
    if es != [] {
      hide Column;
      WindingStep(es[..|es| - 1], y, x);
    }
  }

  /** A pixel is filled when the count at its column is nonzero, or odd. */
  predicate Filled(w: int, rule: Rule)
  {
    if rule.NonZero? then w != 0 else w % 2 != 0
  }

  /** The two rules: any winding in either direction, or an odd one. */
  lemma RuleIs(w: int, k: int)
    ensures Filled(w, NonZero) <==> w < 0 || w > 0
    ensures !Filled(2 * k, EvenOdd) && Filled(2 * k + 1, EvenOdd)
  {
  }

  /** The centre of a scanline. */
  function Centre(row: int): real
  {
    row as real + 0.5
  }

  /** It is as far from the upper as from the lower border. */
  lemma CentreIs(row: int)
    ensures row as real < Centre(row) < row as real + 1.0 && Centre(row) - row as real == row as real + 1.0 - Centre(row)
  {
  }

  /** What the integration loop computes from a winding number held as a float. */
  function FillAmount(winding: real, rule: Rule): real
  {
    var absW := if winding < 0.0 then -winding else winding;
    if rule.NonZero? then if absW > 0.001 then 1.0 else 0.0
    else
      var wFloor := absW.Floor as real;
      var half := (wFloor * 0.5).Floor as real;
      if wFloor - half * 2.0 > 0.5 then 1.0 else if absW - wFloor > 0.5 then 1.0 else 0.0
  }

  /** On whole winding numbers that is the rule. */
  lemma FillAmountIsRule(w: int, rule: Rule)
    ensures FillAmount(w as real, rule) > 0.001 <==> Filled(w, rule)
  {
    var a := if w < 0 then -w else w;
    assert (a as real).Floor == a;
    assert (a as real * 0.5).Floor == a / 2 by {
      assert a == 2 * (a / 2) + a % 2;
    }
    assert a % 2 == w % 2;
  }

  method Clear(coverage: array<real>)
    modifies coverage
    ensures forall c | 0 <= c < coverage.Length :: coverage[c] == 0.0
  {
    for c := 0 to coverage.Length
      invariant forall a | 0 <= a < c :: coverage[a] == 0.0
    {
      coverage[c] := 0.0;
    }
  }

  /** Accumulating the coverage of one scanline. */
  method Accumulate(es: seq<Edge>, y: real, coverage: array<real>)
    requires forall c | 0 <= c < coverage.Length :: coverage[c] == 0.0
    modifies coverage
    ensures forall c | 0 <= c < coverage.Length :: coverage[c] == InColumn(es, y, c) as real
  {
    hide Column;
    for k := 0 to |es|
      invariant forall c | 0 <= c < coverage.Length :: coverage[c] == InColumn(es[..k], y, c) as real
    {
      assert es[..k + 1][..k] == es[..k];
      var e := es[k];
      if e.y0 <= y < e.y1 {
        var col := Column(e, y);
        if col < coverage.Length {
          coverage[col] := coverage[col] + e.dir as real;
        }
      }
    }
    assert es[..|es|] == es;
  }

  /** One scanline: the pixels that `canvas_blend` is called for. */
  method Scanline(es: seq<Edge>, row: nat, coverage: array<real>, blended: array2<bool>, rule: Rule)
    requires row < blended.Length0 && coverage.Length == blended.Length1
    modifies coverage, blended
    ensures forall x | 0 <= x < blended.Length1 ::
              blended[row, x] <==> old(blended[row, x]) || Filled(Winding(es, Centre(row), x), rule)
    ensures forall r, x | 0 <= r < blended.Length0 && 0 <= x < blended.Length1 && r != row :: blended[r, x] == old(blended[r, x])
  {
    hide Winding, InColumn, FillAmount, Filled, Centre;
    var y := Centre(row);
    Clear(coverage);
    Accumulate(es, y, coverage);
    var winding := 0.0;
    WindingStep(es, y, -1);
    for x := 0 to coverage.Length
      invariant winding == Winding(es, y, x - 1) as real
      invariant forall c | 0 <= c < coverage.Length :: coverage[c] == InColumn(es, y, c) as real
      invariant forall a | 0 <= a < x :: blended[row, a] <==> old(blended[row, a]) || Filled(Winding(es, y, a), rule)
      invariant forall a | x <= a < blended.Length1 :: blended[row, a] == old(blended[row, a])
      invariant forall r, a | 0 <= r < blended.Length0 && 0 <= a < blended.Length1 && r != row :: blended[r, a] == old(blended[r, a])
    {
      WindingStep(es, y, x);
      winding := winding + coverage[x];
      FillAmountIsRule(Winding(es, y, x), rule);
      if FillAmount(winding, rule) > 0.001 {
        blended[row, x] := true;
      }
    }
  }

  // ---------------------------------------------------------------- the whole fill

  /** Phase 2: the vertical extent of the edges. */
  method Extent(es: seq<Edge>) returns (minY: real, maxY: real)
    requires |es| > 0
    ensures forall i | 0 <= i < |es| :: minY <= es[i].y0 && es[i].y1 <= maxY
    ensures (exists i :: 0 <= i < |es| && es[i].y0 == minY) && exists i :: 0 <= i < |es| && es[i].y1 == maxY
  {
    minY, maxY := es[0].y0, es[0].y1;
    for j := 1 to |es|
      invariant forall i | 0 <= i < j :: minY <= es[i].y0 && es[i].y1 <= maxY
      invariant (exists i :: 0 <= i < |es| && es[i].y0 == minY) && exists i :: 0 <= i < |es| && es[i].y1 == maxY
    {
      if es[j].y0 < minY {
        minY := es[j].y0;
      }
      if es[j].y1 > maxY {
        maxY := es[j].y1;
      }
    }
  }

  function Ceil(x: real): int
  {
    -((-x).Floor)
  }

  /** Where no edge crosses, nothing winds. */
  lemma {:induction false} NoCrossings(es: seq<Edge>, y: real, x: int)
    requires forall i | 0 <= i < |es| :: !(es[i].y0 <= y < es[i].y1)
    ensures Winding(es, y, x) == 0
    decreases |es|
  {
    if es != [] {
      hide Column;
      NoCrossings(es[..|es| - 1], y, x);
    }
  }

  /** The bounding box skips only scanlines that no edge crosses. */
  lemma OutsideExtent(es: seq<Edge>, minY: real, maxY: real, row: int, x: int)
    requires forall i | 0 <= i < |es| :: minY <= es[i].y0 && es[i].y1 <= maxY
    requires row < minY.Floor || row >= Ceil(maxY)
    ensures Winding(es, Centre(row), x) == 0
  {
    NoCrossings(es, Centre(row), x);
  }

  /** The pixels are those that were blended before and those the rule fills. */
  twostate predicate Painted(blended: array2<bool>, es: seq<Edge>, rule: Rule, lo: int, hi: int)
    reads blended
  {
    forall r, x | 0 <= r < blended.Length0 && 0 <= x < blended.Length1 ::
      blended[r, x] <==> old(blended[r, x]) || (lo <= r < hi && Filled(Winding(es, Centre(r), x), rule))
  }

  /** What decides about a pixel, said of the points where edges meet the middle of its scanline. */
  lemma PixelDecides(es: seq<Edge>, row: nat, x: nat)
    ensures Winding(es, Centre(row), x) == LeftOf(es, row as real + 0.5, x as real + 1.0)
  {
    WindingIsLeftOf(es, Centre(row), x);
  }

  /** `facet_canvas_fill`: a pixel is blended exactly when the signed count of the path's crossings at its column
      or to the left, on the centre of its scanline, is nonzero (or odd). */
  method CanvasFill(path: seq<PathCmd>, blended: array2<bool>, rule: Rule)
    modifies blended
    ensures forall r, x | 0 <= r < blended.Length0 && 0 <= x < blended.Length1 ::
              blended[r, x] <==> old(blended[r, x]) || Filled(Winding(EdgesOf(PathChords(path)), Centre(r), x), rule)
    ensures forall r: nat, x: nat | r < blended.Length0 && x < blended.Length1 ::
              blended[r, x] <==> old(blended[r, x]) || Filled(LeftOf(EdgesOf(PathChords(path)), r as real + 0.5, x as real + 1.0), rule)
  {
    hide EdgesOf, PathChords, Winding, Filled, Centre, LeftOf;
    var height, width := blended.Length0, blended.Length1;
    forall r: nat, x: nat | r < height && x < width
      ensures Winding(EdgesOf(PathChords(path)), Centre(r), x) == LeftOf(EdgesOf(PathChords(path)), r as real + 0.5, x as real + 1.0)
    {
      PixelDecides(EdgesOf(PathChords(path)), r, x);
    }
    var et := new EdgeTable();
    et.AddPath(path);
    var es := et.edges;
    ghost var all := EdgesOf(PathChords(path));
    assert es == all;
    if |es| == 0 {
      forall r, x | 0 <= r < height && 0 <= x < width ensures Winding(all, Centre(r), x) == 0 {
        NoCrossings(all, Centre(r), x);
      }
      ZeroIsUnfilled(rule);
      return;
    }
    var minY, maxY := Extent(es);
    var yStart, yEnd := minY.Floor, Ceil(maxY);
    forall r, x | 0 <= r < height && 0 <= x < width && !(yStart <= r < yEnd) ensures Winding(all, Centre(r), x) == 0 {
      OutsideExtent(all, minY, maxY, r, x);
    }
    ZeroIsUnfilled(rule);
    if yStart < 0 {
      yStart := 0;
    }
    if yEnd > height {
      yEnd := height;
    }
    var coverage := new real[width];
    var row := yStart;
    while row < yEnd
      invariant yStart <= row
      invariant Painted(blended, all, rule, yStart, row)
    {
      Scanline(es, row, coverage, blended, rule);
      row := row + 1;
    }
  }

  lemma ZeroIsUnfilled(rule: Rule)
    ensures !Filled(0, rule)
  {
  }

  // ---------------------------------------------------------------- fills do not leak

  /** To the right of every crossing the count is that of the whole scanline. */
  lemma {:induction false} RightOfAll(es: seq<Edge>, y: real, x: int)
    requires forall i | 0 <= i < |es| && es[i].y0 <= y < es[i].y1 :: Column(es[i], y) <= x
    ensures Winding(es, y, x) == Crossings(es, y)
    decreases |es|
  {
    if es != [] {
      hide Column;
      RightOfAll(es[..|es| - 1], y, x);
    }
  }

  /** A closed path fills nothing to the right of its last crossing, on scanlines that no dropped sliver cuts. */
  lemma NoLeak(path: seq<PathCmd>, y: real, x: int, rule: Rule)
    requires AllClosed(path) && Uncut(PathChords(path), y)
    requires var es := EdgesOf(PathChords(path)); forall i | 0 <= i < |es| && es[i].y0 <= y < es[i].y1 :: Column(es[i], y) <= x
    ensures !Filled(Winding(EdgesOf(PathChords(path)), y, x), rule)
  {
    ClosedPathsCancel(path, y);
    RightOfAll(EdgesOf(PathChords(path)), y, x);
  }
}
