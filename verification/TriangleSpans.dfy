/** What filling a triangle must paint: in each row the cells between the extreme points the three
    edge walks visit there, cut to the clip rectangle and the screen. */
module TriangleSpans {
  import opened Arith
  import opened EdgeWalk

  datatype Vertex = Vertex(x: real, y: real)

  datatype Clip = Clip(x: real, y: real, z: real, w: real)

  datatype Triangle = Triangle(a: Vertex, b: Vertex, c: Vertex)

  /** The conversion from float to int: towards zero. */
  function Trunc(v: real): int { if v >= 0.0 then v.Floor else -(-v).Floor }

  function MinReal(a: real, b: real): real { if a < b then a else b }

  function MaxReal(a: real, b: real): real { if a < b then b else a }

  function Top(t: Triangle): real { MinReal(t.a.y, MinReal(t.b.y, t.c.y)) }

  function Bottom(t: Triangle): real { MaxReal(t.a.y, MaxReal(t.b.y, t.c.y)) }

  /** First row and number of rows; a count of zero or less paints nothing. */
  datatype Rows = Rows(first: int, count: int)

  function RowsOf(t: Triangle): Rows {
    var first := Trunc(Top(t));
    var whole := Trunc(Bottom(t)) - first;
    var count := if whole == 0 && Bottom(t) > Top(t) then 1 else whole;
    var centroid := Trunc((t.a.y + t.b.y + t.c.y) / 3.0);
    Rows(if count == 1 && centroid > first then centroid else first, count)
  }

  function EdgeFrom(p: Vertex, q: Vertex, first: int): Edge {
    Edge(Trunc(p.x), Trunc(p.y - first as real), Trunc(q.x), Trunc(q.y - first as real))
  }

  datatype Outline = Outline(ab: Edge, bc: Edge, ca: Edge) {
    /** Some edge walk visits a point of row r at or left of (right of) x. */
    ghost predicate VisitsLeftOf(x: int, r: int) {
      ab.VisitsLeftOf(x, r) || bc.VisitsLeftOf(x, r) || ca.VisitsLeftOf(x, r)
    }

    ghost predicate VisitsRightOf(x: int, r: int) {
      ab.VisitsRightOf(x, r) || bc.VisitsRightOf(x, r) || ca.VisitsRightOf(x, r)
    }

    ghost predicate VisitsRow(r: int) {
      ab.VisitsRow(r) || bc.VisitsRow(r) || ca.VisitsRow(r)
    }

    /** Column x lies between two visited points of row r. */
    ghost predicate Spans(x: int, r: int) {
      VisitsLeftOf(x, r) && VisitsRightOf(x, r)
    }

    /** The range the three walks leave behind in row r, starting from the empty range. */
    function LeftEnd(r: int): int {
      WalkMin(ca, r, WalkMin(bc, r, WalkMin(ab, r, EMPTY_MIN)))
    }

    function RightEnd(r: int): int {
      WalkMax(ca, r, WalkMax(bc, r, WalkMax(ab, r, EMPTY_MAX)))
    }
  }

  const EMPTY_MIN := 999999
  const EMPTY_MAX := -999999

  function WalkMin(e: Edge, r: int, start: int): int { RowMin(e, e.Major() + 1, r, start) }

  function WalkMax(e: Edge, r: int, start: int): int { RowMax(e, e.Major() + 1, r, start) }

  /** The outline walked by a fill: rows are counted from the first painted row. */
  function OutlineOf(t: Triangle): Outline {
    var first := RowsOf(t).first;
    Outline(EdgeFrom(t.a, t.b, first), EdgeFrom(t.b, t.c, first), EdgeFrom(t.c, t.a, first))
  }

  predicate InClip(clip: Clip, w: int, h: int, x: int, y: int) {
    && Max(0, Trunc(clip.x)) <= x < Min(w, Trunc(clip.z))
    && Max(0, Trunc(clip.y)) <= y < Min(h, Trunc(clip.w))
  }

  /** A cell is in the clip if it is on the screen and in the rectangle, whose right and lower edges do not
      belong to it. */
  lemma InClipIff(clip: Clip, w: int, h: int, x: int, y: int)
    ensures InClip(clip, w, h, x, y) <==>
      && 0 <= x < w && 0 <= y < h
      && Trunc(clip.x) <= x < Trunc(clip.z) && Trunc(clip.y) <= y < Trunc(clip.w)
  {
  }

  ghost predicate PaintedBy(o: Outline, rows: Rows, clip: Clip, w: int, h: int, x: int, y: int) {
    && 0 <= y - rows.first < rows.count
    && o.Spans(x, y - rows.first)
    && InClip(clip, w, h, x, y)
  }

  /** The cells a fill paints. */
  ghost predicate Painted(t: Triangle, clip: Clip, w: int, h: int, x: int, y: int) {
    PaintedBy(OutlineOf(t), RowsOf(t), clip, w, h, x, y)
  }

  // ---- from the row ranges back to spans ----

  lemma WalkMinMeaning(e: Edge, r: int, start: int, x: int)
    ensures WalkMin(e, r, start) <= x <==> start <= x || e.VisitsLeftOf(x, r)
  {
    RowMinMeaning(e, e.Major() + 1, r, start, x);
    assert e.VisitsLeftOf(x, r) <==>
      exists i: nat :: i < e.Major() + 1 && e.Visit(i).y == r && e.Visit(i).x <= x;
  }

  lemma WalkMaxMeaning(e: Edge, r: int, start: int, x: int)
    ensures x <= WalkMax(e, r, start) <==> x <= start || e.VisitsRightOf(x, r)
  {
    RowMaxMeaning(e, e.Major() + 1, r, start, x);
    assert e.VisitsRightOf(x, r) <==>
      exists i: nat :: i < e.Major() + 1 && e.Visit(i).y == r && x <= e.Visit(i).x;
  }

  /** On a screen narrower than the empty-range marker, the scanline range of a row is its span. */
  lemma RangeIsSpan(o: Outline, r: int, x: int)
    requires 0 <= x < EMPTY_MIN
    ensures o.LeftEnd(r) <= x <= o.RightEnd(r) <==> o.Spans(x, r)
  {
    var min1, max1 := WalkMin(o.ab, r, EMPTY_MIN), WalkMax(o.ab, r, EMPTY_MAX);
    var min2, max2 := WalkMin(o.bc, r, min1), WalkMax(o.bc, r, max1);
    WalkMinMeaning(o.ab, r, EMPTY_MIN, x);
    WalkMinMeaning(o.bc, r, min1, x);
    WalkMinMeaning(o.ca, r, min2, x);
    WalkMaxMeaning(o.ab, r, EMPTY_MAX, x);
    WalkMaxMeaning(o.bc, r, max1, x);
    WalkMaxMeaning(o.ca, r, max2, x);
  }

  // ---- what the painted region means ----

  predicate OnScreenSide(t: Triangle) {
    && 0.0 <= t.a.x && 0.0 <= t.b.x && 0.0 <= t.c.x
    && 0.0 <= t.a.y && 0.0 <= t.b.y && 0.0 <= t.c.y
  }

  lemma TruncGrows(u: real, v: real)
    requires u <= v
    ensures Trunc(u) <= Trunc(v)
  {
  }

  /** Which rows a fill paints: none for a flat triangle, the row of the centroid for one that reaches no
      further than into the next row, and otherwise all from the row of the topmost vertex down to the one
      above the row of the lowest. */
  lemma RowsAre(t: Triangle)
    ensures var top, bottom := MinReal(t.a.y, MinReal(t.b.y, t.c.y)), MaxReal(t.a.y, MaxReal(t.b.y, t.c.y));
      if t.a.y == t.b.y == t.c.y then RowsOf(t).count <= 0
      else if Trunc(bottom) <= Trunc(top) + 1 then RowsOf(t) == Rows(Trunc((t.a.y + t.b.y + t.c.y) / 3.0), 1)
      else RowsOf(t) == Rows(Trunc(top), Trunc(bottom) - Trunc(top))
  {
    TruncGrows(Top(t), Bottom(t));
    TruncGrows(Top(t), (t.a.y + t.b.y + t.c.y) / 3.0);
  }

  lemma FloorBounds(v: real, k: int)
    ensures v.Floor as real <= v < v.Floor as real + 1.0
    ensures k as real <= v < k as real + 1.0 ==> v.Floor == k
    ensures (v - k as real).Floor == v.Floor - k
  {
  }

  lemma RelativeRow(y: real, first: int)
    requires 0 <= first && first as real <= y
    ensures Trunc(y - first as real) == Trunc(y) - first
  {
    FloorBounds(y, first);
  }

  /** Every painted row of a triangle with non-negative vertices holds at least one visited point. */
  lemma NoRowIsEmpty(t: Triangle, r: int)
    requires OnScreenSide(t) && 0 <= r < RowsOf(t).count
    ensures OutlineOf(t).VisitsRow(r)
  {
    var ra, rb, rc := CornerRows(t, RowsOf(t).first, r);
    SomeEdgeSpans(OutlineOf(t), ra, rb, rc, r);
  }

  lemma CornerRows(t: Triangle, first: int, r: int) returns (ra: int, rb: int, rc: int)
    requires OnScreenSide(t) && 0 <= r < RowsOf(t).count && first == RowsOf(t).first
    ensures ra == Trunc(t.a.y - first as real)
    ensures rb == Trunc(t.b.y - first as real)
    ensures rc == Trunc(t.c.y - first as real)
    ensures Min(ra, Min(rb, rc)) <= r <= Max(ra, Max(rb, rc))
  {
    TopRow(t);
    BottomRow(t);
    ra, rb, rc := ExtremeRows(t, first, r);
  }

  lemma ExtremeRows(t: Triangle, first: int, r: int) returns (ra: int, rb: int, rc: int)
    requires Trunc(Top(t) - first as real) <= 0 <= r <= Trunc(Bottom(t) - first as real)
    ensures ra == Trunc(t.a.y - first as real)
    ensures rb == Trunc(t.b.y - first as real)
    ensures rc == Trunc(t.c.y - first as real)
    ensures Min(ra, Min(rb, rc)) <= r <= Max(ra, Max(rb, rc))
  {
    ra, rb, rc := Trunc(t.a.y - first as real), Trunc(t.b.y - first as real), Trunc(t.c.y - first as real);
    var top, bottom := Extremes(t, first);
    RowBetween(ra, rb, rc, top, bottom, r);
  }

  /** The extreme rows are rows of corners. */
  lemma Extremes(t: Triangle, first: int) returns (top: int, bottom: int)
    ensures top == Trunc(Top(t) - first as real) && bottom == Trunc(Bottom(t) - first as real)
    ensures top in {Trunc(t.a.y - first as real), Trunc(t.b.y - first as real), Trunc(t.c.y - first as real)}
    ensures bottom in {Trunc(t.a.y - first as real), Trunc(t.b.y - first as real), Trunc(t.c.y - first as real)}
  {
    top, bottom := Trunc(Top(t) - first as real), Trunc(Bottom(t) - first as real);
  }

  lemma RowBetween(ra: int, rb: int, rc: int, top: int, bottom: int, r: int)
    requires top <= 0 <= r <= bottom && top in {ra, rb, rc} && bottom in {ra, rb, rc}
    ensures Min(ra, Min(rb, rc)) <= r <= Max(ra, Max(rb, rc))
  {
  }

  /** The three edges share end points, so one of them spans every row between the extreme ones. */
  lemma SomeEdgeSpans(o: Outline, ra: int, rb: int, rc: int, r: int)
    requires o.ab.y1 == ra && o.ab.y2 == rb && o.bc.y1 == rb && o.bc.y2 == rc && o.ca.y1 == rc && o.ca.y2 == ra
    requires Min(ra, Min(rb, rc)) <= r <= Max(ra, Max(rb, rc))
    ensures o.VisitsRow(r)
  {
    if Min(ra, rb) <= r <= Max(ra, rb) {
      WalkVisitsEveryRow(o.ab, r);
    } else if Min(rb, rc) <= r <= Max(rb, rc) {
      WalkVisitsEveryRow(o.bc, r);
    } else {
      WalkVisitsEveryRow(o.ca, r);
    }
  }

  lemma TopRow(t: Triangle)
    requires OnScreenSide(t) && 0 < RowsOf(t).count
    ensures Trunc(Top(t) - RowsOf(t).first as real) <= 0
  {
    FloorBounds(Top(t), 0);
  }

  lemma BottomRow(t: Triangle)
    requires OnScreenSide(t) && 0 < RowsOf(t).count
    ensures Trunc(Bottom(t) - RowsOf(t).first as real) >= RowsOf(t).count - 1
  {
    var first, count := RowsOf(t).first, RowsOf(t).count;
    var centroid := (t.a.y + t.b.y + t.c.y) / 3.0;
    assert Top(t) <= centroid <= Bottom(t);
    FloorBounds(Top(t), 0);
    FloorBounds(Bottom(t), 0);
    FloorBounds(centroid, 0);
    assert first as real <= Bottom(t);
    RelativeRow(Bottom(t), first);
  }

  // ---- triangles with integer vertices ----

  datatype Corner = Corner(x: int, y: int)

  function At(p: Corner): Vertex { Vertex(p.x as real, p.y as real) }

  function Lattice(a: Corner, b: Corner, c: Corner): Triangle { Triangle(At(a), At(b), At(c)) }

  function Side(p: Corner, q: Corner): Edge { Edge(p.x, p.y, q.x, q.y) }

  function TopOf(a: Corner, b: Corner, c: Corner): int { Min(a.y, Min(b.y, c.y)) }

  function BottomOf(a: Corner, b: Corner, c: Corner): int { Max(a.y, Max(b.y, c.y)) }

  lemma TruncInt(k: int)
    ensures Trunc(k as real) == k
  {
  }

  lemma LatticeRows(a: Corner, b: Corner, c: Corner)
    requires 0 <= TopOf(a, b, c)
    ensures RowsOf(Lattice(a, b, c)) == Rows(TopOf(a, b, c), BottomOf(a, b, c) - TopOf(a, b, c))
  {
    var t := Lattice(a, b, c);
    var top, bottom := TopOf(a, b, c), BottomOf(a, b, c);
    assert Top(t) == top as real && Bottom(t) == bottom as real;
    TruncInt(top);
    TruncInt(bottom);
    if bottom == top + 1 {
      var sum := a.y + b.y + c.y;
      assert 3 * top <= sum < 3 * top + 3;
      assert t.a.y + t.b.y + t.c.y == sum as real;
      FloorBounds(sum as real / 3.0, top);
    }
  }

  /** The closed integer triangle meets row y at or left of (right of) column x. */
  predicate StartsLeftOf(a: Corner, b: Corner, c: Corner, x: int, y: int) {
    CrossesLeftOf(Side(a, b), x, y) || CrossesLeftOf(Side(b, c), x, y) || CrossesLeftOf(Side(c, a), x, y)
  }

  predicate EndsRightOf(a: Corner, b: Corner, c: Corner, x: int, y: int) {
    CrossesRightOf(Side(a, b), x, y) || CrossesRightOf(Side(b, c), x, y) || CrossesRightOf(Side(c, a), x, y)
  }

  /** (x, y) is a point of the closed integer triangle. */
  predicate Encloses(a: Corner, b: Corner, c: Corner, x: int, y: int) {
    StartsLeftOf(a, b, c, x, y) && EndsRightOf(a, b, c, x, y)
  }

  /** A side with its rows counted from `top`. */
  function Lowered(p: Corner, q: Corner, top: int): Edge { Edge(p.x, p.y - top, q.x, q.y - top) }

  lemma LatticeOutline(a: Corner, b: Corner, c: Corner)
    requires 0 <= TopOf(a, b, c)
    ensures var top := TopOf(a, b, c);
      OutlineOf(Lattice(a, b, c)) ==
        Outline(Lowered(a, b, top), Lowered(b, c, top), Lowered(c, a, top))
  {
    LatticeRows(a, b, c);
    var top := TopOf(a, b, c);
    LatticeEdge(a, b, top);
    LatticeEdge(b, c, top);
    LatticeEdge(c, a, top);
  }

  lemma LatticeEdge(p: Corner, q: Corner, top: int)
    ensures EdgeFrom(At(p), At(q), top) == Lowered(p, q, top)
  {
    assert p.y as real - top as real == (p.y - top) as real;
    assert q.y as real - top as real == (q.y - top) as real;
    TruncInt(p.x);
    TruncInt(q.x);
    TruncInt(p.y - top);
    TruncInt(q.y - top);
  }

  /** Nothing inside is missed: every lattice point of the closed triangle above its bottom row,
      on screen and inside the clip rectangle, is painted. */
  lemma InsideIsPainted(a: Corner, b: Corner, c: Corner, clip: Clip, w: int, h: int, x: int, y: int)
    requires 0 <= TopOf(a, b, c) <= y < BottomOf(a, b, c)
    requires Encloses(a, b, c, x, y) && InClip(clip, w, h, x, y)
    ensures Painted(Lattice(a, b, c), clip, w, h, x, y)
  {
    var top := TopOf(a, b, c);
    LatticeRows(a, b, c);
    InsideIsSpanned(a, b, c, x, y);
  }

  lemma InsideIsSpanned(a: Corner, b: Corner, c: Corner, x: int, y: int)
    requires 0 <= TopOf(a, b, c) && Encloses(a, b, c, x, y)
    ensures OutlineOf(Lattice(a, b, c)).Spans(x, y - TopOf(a, b, c))
  {
    LatticeOutline(a, b, c);
    StartIsVisited(a, b, c, x, y, TopOf(a, b, c));
    EndIsVisited(a, b, c, x, y, TopOf(a, b, c));
  }

  lemma StartIsVisited(a: Corner, b: Corner, c: Corner, x: int, y: int, top: int)
    requires StartsLeftOf(a, b, c, x, y)
    ensures Outline(Lowered(a, b, top), Lowered(b, c, top), Lowered(c, a, top)).VisitsLeftOf(x, y - top)
  {
    if CrossesLeftOf(Side(a, b), x, y) {
      CrossingBoundsWalkLeft(Lowered(a, b, top), x, y - top);
    } else if CrossesLeftOf(Side(b, c), x, y) {
      CrossingBoundsWalkLeft(Lowered(b, c, top), x, y - top);
    } else {
      CrossingBoundsWalkLeft(Lowered(c, a, top), x, y - top);
    }
  }

  lemma EndIsVisited(a: Corner, b: Corner, c: Corner, x: int, y: int, top: int)
    requires EndsRightOf(a, b, c, x, y)
    ensures Outline(Lowered(a, b, top), Lowered(b, c, top), Lowered(c, a, top)).VisitsRightOf(x, y - top)
  {
    if CrossesRightOf(Side(a, b), x, y) {
      CrossingBoundsWalkRight(Lowered(a, b, top), x, y - top);
    } else if CrossesRightOf(Side(b, c), x, y) {
      CrossingBoundsWalkRight(Lowered(b, c, top), x, y - top);
    } else {
      CrossingBoundsWalkRight(Lowered(c, a, top), x, y - top);
    }
  }

  /** Point i of a walk is less than one cell off its ideal segment. */
  predicate NearLine(e: Edge, i: nat) {
    i <= e.Major() && (0 < e.Major() ==>
      Abs((e.Visit(i).x - e.x1) * e.Dy() - (e.Visit(i).y - e.y1) * e.Dx()) < e.Major())
  }

  lemma NearAt(e: Edge, i: nat)
    requires i <= e.Major()
    ensures NearLine(e, i)
  {
    if 0 < e.Major() {
      WalkStaysNearLine(e, i);
    }
  }

  lemma LeftVisit(o: Outline, x: int, r: int) returns (e: Edge, i: nat)
    requires o.VisitsLeftOf(x, r)
    ensures e in {o.ab, o.bc, o.ca} && i <= e.Major() && e.Visit(i).y == r && e.Visit(i).x <= x
  {
    e := if o.ab.VisitsLeftOf(x, r) then o.ab else if o.bc.VisitsLeftOf(x, r) then o.bc else o.ca;
    i :| i <= e.Major() && e.Visit(i).y == r && e.Visit(i).x <= x;
  }

  lemma RightVisit(o: Outline, x: int, r: int) returns (f: Edge, j: nat)
    requires o.VisitsRightOf(x, r)
    ensures f in {o.ab, o.bc, o.ca} && j <= f.Major() && f.Visit(j).y == r && x <= f.Visit(j).x
  {
    f := if o.ab.VisitsRightOf(x, r) then o.ab else if o.bc.VisitsRightOf(x, r) then o.bc else o.ca;
    j :| j <= f.Major() && f.Visit(j).y == r && x <= f.Visit(j).x;
  }

  lemma SpanIsNear(o: Outline, x: int, r: int) returns (e: Edge, i: nat, f: Edge, j: nat)
    requires o.Spans(x, r)
    ensures e in {o.ab, o.bc, o.ca} && f in {o.ab, o.bc, o.ca}
    ensures NearLine(e, i) && NearLine(f, j)
    ensures e.Visit(i).y == f.Visit(j).y == r
    ensures e.Visit(i).x <= x <= f.Visit(j).x
  {
    e, i := LeftVisit(o, x, r);
    f, j := RightVisit(o, x, r);
    NearAt(e, i);
    NearAt(f, j);
  }

  /** Nothing far outside is painted: a painted cell lies, in its own row, between a point of one
      edge walk and a point of another, each less than one cell off its edge. */
  lemma PaintedIsNear(t: Triangle, clip: Clip, w: int, h: int, x: int, y: int)
      returns (e: Edge, i: nat, f: Edge, j: nat)
    requires Painted(t, clip, w, h, x, y)
    ensures var o := OutlineOf(t); e in {o.ab, o.bc, o.ca} && f in {o.ab, o.bc, o.ca}
    ensures NearLine(e, i) && NearLine(f, j)
    ensures e.Visit(i).y == f.Visit(j).y == y - RowsOf(t).first
    ensures e.Visit(i).x <= x <= f.Visit(j).x
  {
    e, i, f, j := SpanIsNear(OutlineOf(t), x, y - RowsOf(t).first);
  }
}
