/** The integer edge walk of the cell rasteriser (scanline_extend): an incremental Bresenham walk,
    proved equal to a closed form that rounds the ideal line, and what the closed form guarantees. */
module EdgeWalk {
  import opened Arith

  datatype Point = Point(x: int, y: int)

  datatype Edge = Edge(x1: int, y1: int, x2: int, y2: int) {
    function Dx(): int { x2 - x1 }
    function Dy(): int { y2 - y1 }
    /** Length along the axis on which the edge is longest: the walk takes this many steps. */
    function Major(): nat { if Abs(Dx()) < Abs(Dy()) then Abs(Dy()) else Abs(Dx()) }
    function Minor(): nat { if Abs(Dx()) < Abs(Dy()) then Abs(Dx()) else Abs(Dy()) }

    /** How far the walk has moved on the shorter axis after i steps: i * Minor / Major, rounded. */
    function Drift(i: nat): nat {
      DriftOf(Major(), Minor(), i)
    }

    /** The i-th point of the walk. */
    function Visit(i: nat): Point {
      if Abs(Dx()) < Abs(Dy()) then
        Point(x1 + Along(Dx(), Drift(i)), y1 + Along(Dy(), i))
      else
        Point(x1 + Along(Dx(), i), y1 + Along(Dy(), Drift(i)))
    }

    /** The walk visits some point of row r whose abscissa is at most (at least) x. */
    ghost predicate VisitsLeftOf(x: int, r: int) {
      exists i: nat :: i <= Major() && Visit(i).y == r && Visit(i).x <= x
    }

    ghost predicate VisitsRightOf(x: int, r: int) {
      exists i: nat :: i <= Major() && Visit(i).y == r && x <= Visit(i).x
    }

    ghost predicate VisitsRow(r: int) {
      exists i: nat :: i <= Major() && Visit(i).y == r
    }
  }

  /** d cells in the direction of a. */
  function Along(a: int, d: int): int { if a > 0 then d else if a < 0 then -d else 0 }

  function DriftOf(m: nat, n: nat, i: nat): nat {
    if m == 0 then 0 else (n / 2 + i * n) / m
  }

  /** The accumulator of the walk: what the drift has rounded away after i steps. */
  function Carry(m: nat, n: nat, i: nat): nat {
    if m == 0 then 0 else (n / 2 + i * n) % m
  }

  // ---- arithmetic of the accumulator ----

  /** One accumulator step: the drift grows exactly when adding n overflows m. */
  lemma DriftStep(m: nat, n: nat, i: nat)
    requires 0 < m && n <= m
    ensures var c, q := Carry(m, n, i), DriftOf(m, n, i);
      && c < m
      && (c + n < m ==> DriftOf(m, n, i + 1) == q && Carry(m, n, i + 1) == c + n)
      && (c + n >= m ==> DriftOf(m, n, i + 1) == q + 1 && Carry(m, n, i + 1) == c + n - m)
  {
    var a := n / 2 + i * n;
    var c, q := Carry(m, n, i), DriftOf(m, n, i);
    assert (i + 1) * n == i * n + n;
    assert a == q * m + c;
    if c + n < m {
      DivModUnique(a + n, m, q, c + n);
    } else {
      assert (q + 1) * m == q * m + m;
      DivModUnique(a + n, m, q + 1, c + n - m);
    }
  }

  lemma DriftBounds(m: nat, n: nat, i: nat)
    requires n <= m && i <= m
    ensures DriftOf(m, n, i) <= n
    ensures i == 0 ==> DriftOf(m, n, i) == 0 && (0 < m ==> Carry(m, n, i) == n / 2)
    ensures i == m ==> DriftOf(m, n, i) == n
  {
    if 0 < m {
      var a := n / 2 + i * n;
      var q := DriftOf(m, n, i);
      assert a == q * m + a % m;
      if i < m {
        MulGap(i, m, n);
      }
      if n < q {
        MulGap(n, q, m);
      }
      if i == 0 {
        DivModUnique(a, m, 0, n / 2);
      }
      if i == m {
        DivModUnique(a, m, n, n / 2);
      }
    }
  }

  /** The rounding error scaled by m: at most half a minor length above the line, less than
      m - n/2 below it. */
  lemma DriftError(m: nat, n: nat, i: nat)
    requires 0 < m
    ensures -(m - n / 2) < DriftOf(m, n, i) * m - i * n <= n / 2
  {
    var a := n / 2 + i * n;
    assert a == DriftOf(m, n, i) * m + a % m;
  }

  lemma DriftMonotone(m: nat, n: nat, i: nat)
    requires n <= m
    ensures DriftOf(m, n, i) <= DriftOf(m, n, i + 1) <= DriftOf(m, n, i) + 1
  {
    if 0 < m {
      DriftStep(m, n, i);
    }
  }

  /** Every drift between those of two steps is reached between them: the walk never skips a cell. */
  lemma {:induction false} DriftReaches(m: nat, n: nat, t: nat, lo: nat, hi: nat) returns (i: nat)
    requires n <= m && lo <= hi && DriftOf(m, n, lo) <= t <= DriftOf(m, n, hi)
    ensures lo <= i <= hi && DriftOf(m, n, i) == t
    decreases hi - lo
  {
    if DriftOf(m, n, hi) == t {
      i := hi;
    } else if lo == hi {
      assert false;
    } else {
      DriftMonotone(m, n, hi - 1);
      i := DriftReaches(m, n, t, lo, hi - 1);
    }
  }

  // ---- what the closed form guarantees, for every edge ----

  lemma WalkEnds(e: Edge)
    ensures e.Visit(0) == Point(e.x1, e.y1)
    ensures e.Visit(e.Major()) == Point(e.x2, e.y2)
  {
    DriftBounds(e.Major(), e.Minor(), 0);
    DriftBounds(e.Major(), e.Minor(), e.Major());
  }

  lemma WalkStaysInBox(e: Edge, i: nat)
    requires i <= e.Major()
    ensures Min(e.x1, e.x2) <= e.Visit(i).x <= Max(e.x1, e.x2)
    ensures Min(e.y1, e.y2) <= e.Visit(i).y <= Max(e.y1, e.y2)
  {
    DriftBounds(e.Major(), e.Minor(), i);
  }

  lemma WalkVisitsEveryRow(e: Edge, r: int)
    requires Min(e.y1, e.y2) <= r <= Max(e.y1, e.y2)
    ensures e.VisitsRow(r)
  {
    var t := Abs(r - e.y1);
    var i := t;
    if Abs(e.Dy()) <= Abs(e.Dx()) {
      DriftBounds(e.Major(), e.Minor(), 0);
      DriftBounds(e.Major(), e.Minor(), e.Major());
      i := DriftReaches(e.Major(), e.Minor(), t, 0, e.Major());
    }
    assert e.Visit(i).y == r;
  }

  /** The offset of a visited point from the ideal line, measured along the shorter axis and scaled
      by the longer length, is the cross product below; it never reaches one whole cell. */
  lemma WalkStaysNearLine(e: Edge, i: nat)
    requires i <= e.Major()
    requires 0 < e.Major()
    ensures Abs((e.Visit(i).x - e.x1) * e.Dy() - (e.Visit(i).y - e.y1) * e.Dx()) < e.Major()
  {
    var m, n, q := e.Major(), e.Minor(), e.Drift(i);
    DriftError(m, n, i);
    var p := e.Visit(i);
    if Abs(e.Dx()) < Abs(e.Dy()) {
      CrossProduct(e.Dx(), e.Dy(), q, i);
    } else {
      CrossProduct(e.Dy(), e.Dx(), q, i);
    }
  }

  lemma CrossProduct(minor: int, major: int, q: nat, i: nat)
    ensures Abs(Along(minor, q) * major - Along(major, i) * minor) <= Abs(q * Abs(major) - i * Abs(minor))
  {
    if minor > 0 && major > 0 {
    } else if minor > 0 {
      assert q * major == -(q * -major);
    } else if major > 0 {
      assert i * minor == -(i * -minor);
    } else {
      assert q * major == -(q * -major);
      assert i * minor == -(i * -minor);
    }
  }

  /** Consecutive points touch: the walk is a chain of king moves, and each move of an edge that is not a
      single point advances the longer coordinate by one. */
  lemma WalkIsConnected(e: Edge, i: nat)
    ensures Abs(e.Visit(i + 1).x - e.Visit(i).x) <= 1 && Abs(e.Visit(i + 1).y - e.Visit(i).y) <= 1
    ensures 0 < e.Major() ==>
      Abs(if Abs(e.Dx()) < Abs(e.Dy()) then e.Visit(i + 1).y - e.Visit(i).y else e.Visit(i + 1).x - e.Visit(i).x) == 1
  {
    DriftMonotone(e.Major(), e.Minor(), i);
  }

  // ---- the walk against the ideal segment ----

  /** The segment between the two end points meets the horizontal line of row r at or left of x.
      It meets that line at x1 + |r - y1| * Dx / |Dy|, or all along it when it is horizontal. */
  predicate CrossesLeftOf(e: Edge, x: int, r: int)
  {
    && Min(e.y1, e.y2) <= r <= Max(e.y1, e.y2)
    && if e.Dy() == 0 then Min(e.x1, e.x2) <= x
       else Abs(r - e.y1) * e.Dx() <= (x - e.x1) * Abs(e.Dy())
  }

  predicate CrossesRightOf(e: Edge, x: int, r: int)
  {
    && Min(e.y1, e.y2) <= r <= Max(e.y1, e.y2)
    && if e.Dy() == 0 then x <= Max(e.x1, e.x2)
       else (x - e.x1) * Abs(e.Dy()) <= Abs(r - e.y1) * e.Dx()
  }

  lemma DriftAtLeast(m: nat, n: nat, i: nat, t: nat)
    requires 0 < m && t * m <= i * n
    ensures t <= DriftOf(m, n, i)
  {
    DriftError(m, n, i);
    if DriftOf(m, n, i) < t {
      MulGap(DriftOf(m, n, i), t, m);
    }
  }

  lemma DriftAtMost(m: nat, n: nat, i: nat, t: nat)
    requires 0 < m && n <= m && i * n <= t * m
    ensures DriftOf(m, n, i) <= t
  {
    DriftError(m, n, i);
    if t < DriftOf(m, n, i) {
      MulGap(t, DriftOf(m, n, i), m);
    }
  }

  lemma SteepAhead(m: nat, n: nat, t: nat, d: int)
    requires 0 < m && n <= m && t * n <= d * m
    ensures DriftOf(m, n, t) <= d
  {
    if d < 0 {
      MulGap(d, 0, m);
    }
    DriftAtMost(m, n, t, d);
  }

  lemma SteepBehind(m: nat, n: nat, t: nat, d: int)
    requires 0 < m && d * m <= t * n
    ensures d <= DriftOf(m, n, t)
  {
    if 0 <= d {
      DriftAtLeast(m, n, t, d);
    }
  }

  lemma ShallowAhead(m: nat, n: nat, t: nat, d: int) returns (i: nat)
    requires 0 < n <= m && t <= n && t * m <= d * n
    ensures i <= m && i <= d && DriftOf(m, n, i) == t
  {
    if d < 0 {
      MulGap(d, 0, n);
    }
    DriftBounds(m, n, 0);
    DriftBounds(m, n, m);
    var hi := Min(d, m);
    if d < m {
      DriftAtLeast(m, n, d, t);
    }
    i := DriftReaches(m, n, t, 0, hi);
  }

  lemma NotBeyond(m: nat, n: nat, t: nat, d: int)
    requires 0 < n && t <= n && d * n <= t * m
    ensures d <= m
  {
    assert t * m <= m * n by {
      if t < n {
        MulGap(t, n, m);
      }
    }
    if m < d {
      MulGap(m, d, n);
    }
  }

  lemma ShallowBehind(m: nat, n: nat, t: nat, d: int) returns (i: nat)
    requires 0 < n <= m && t <= n && d * n <= t * m
    ensures d <= i <= m && DriftOf(m, n, i) == t
  {
    DriftBounds(m, n, 0);
    DriftBounds(m, n, m);
    var lo := Max(d, 0);
    NotBeyond(m, n, t, d);
    if 0 < d {
      DriftAtMost(m, n, d, t);
    }
    i := DriftReaches(m, n, t, lo, m);
  }

  /** A lattice point at or right of the ideal segment is at or right of a visited point of its row. */
  lemma CrossingBoundsWalkLeft(e: Edge, x: int, r: int)
    requires CrossesLeftOf(e, x, r)
    ensures e.VisitsLeftOf(x, r)
  {
    var m, n, t := e.Major(), e.Minor(), Abs(r - e.y1);
    var i: nat;
    if e.Dy() == 0 {
      WalkEnds(e);
      i := if e.x1 <= e.x2 then 0 else m;
    } else if e.Dx() >= 0 {
      if e.Dx() < Abs(e.Dy()) {
        SteepAhead(m, n, t, x - e.x1);
        i := t;
      } else {
        i := ShallowAhead(m, n, t, x - e.x1);
      }
    } else {
      NegateBoth(x - e.x1, Abs(e.Dy()), t, e.Dx());
      if -e.Dx() < Abs(e.Dy()) {
        SteepBehind(m, n, t, e.x1 - x);
        i := t;
      } else {
        i := ShallowBehind(m, n, t, e.x1 - x);
      }
    }
    assert e.Visit(i).y == r && e.Visit(i).x <= x;
  }

  lemma NegateBoth(a: int, b: int, c: int, d: int)
    ensures -a * b == -(a * b) && c * -d == -(c * d)
  {
  }

  function Mirror(e: Edge): Edge { Edge(-e.x1, e.y1, -e.x2, e.y2) }

  lemma CrossingBoundsWalkRight(e: Edge, x: int, r: int)
    requires CrossesRightOf(e, x, r)
    ensures e.VisitsRightOf(x, r)
  {
    var f := Mirror(e);
    NegateBoth(x - e.x1, Abs(e.Dy()), Abs(r - e.y1), e.Dx());
    assert -x - f.x1 == -(x - e.x1) && f.Dx() == -e.Dx();
    CrossingBoundsWalkLeft(f, -x, r);
    var i: nat :| i <= f.Major() && f.Visit(i).y == r && f.Visit(i).x <= -x;
    MirrorWalk(e, i);
  }

  lemma MirrorWalk(e: Edge, i: nat)
    ensures Mirror(e).Major() == e.Major() && Mirror(e).Visit(i) == Point(-e.Visit(i).x, e.Visit(i).y)
  {
  }

  /** The unit steps of the walk: diagonal (dx1, dy1), straight (dx2, dy2). */
  ghost predicate StepsOf(e: Edge, dx1: int, dy1: int, dx2: int, dy2: int)
  {
    && dx1 == Along(e.Dx(), 1) && dy1 == Along(e.Dy(), 1)
    && if Abs(e.Dx()) < Abs(e.Dy()) then dx2 == 0 && dy2 == dy1 else dx2 == dx1 && dy2 == 0
  }

  /** Where the walk stands after i steps: its point and its accumulator. */
  ghost predicate WalkAt(e: Edge, i: nat, x: int, y: int, k: int)
  {
    Point(x, y) == e.Visit(i) && k == Carry(e.Major(), e.Minor(), i)
  }

  /** The move the walk makes out of its i-th point, chosen by the accumulator. */
  lemma WalkStep(e: Edge, i: nat, x: int, y: int, k: int, dx1: int, dy1: int, dx2: int, dy2: int)
    requires WalkAt(e, i, x, y, k) && StepsOf(e, dx1, dy1, dx2, dy2)
    ensures var over := k + e.Minor() - e.Major();
      if over < 0 then WalkAt(e, i + 1, x + dx2, y + dy2, k + e.Minor())
      else WalkAt(e, i + 1, x + dx1, y + dy1, over)
  {
    if 0 < e.Major() {
      DriftStep(e.Major(), e.Minor(), i);
    }
  }

  // ---- the row ranges the walk leaves behind ----

  /** Smallest abscissa among `start` and the first `count` visited points lying in row r. */
  function RowMin(e: Edge, count: nat, r: int, start: int): int {
    if count == 0 then start
    else
      var sofar := RowMin(e, count - 1, r, start);
      var p := e.Visit(count - 1);
      if p.y == r && p.x < sofar then p.x else sofar
  }

  function RowMax(e: Edge, count: nat, r: int, start: int): int {
    if count == 0 then start
    else
      var sofar := RowMax(e, count - 1, r, start);
      var p := e.Visit(count - 1);
      if p.y == r && sofar < p.x then p.x else sofar
  }

  lemma {:induction false} RowMinMeaning(e: Edge, count: nat, r: int, start: int, x: int)
    ensures RowMin(e, count, r, start) <= x
      <==> start <= x || exists i: nat :: i < count && e.Visit(i).y == r && e.Visit(i).x <= x
  {
    if count > 0 {
      RowMinMeaning(e, count - 1, r, start, x);
      var p := e.Visit(count - 1);
      if RowMin(e, count, r, start) <= x && !(RowMin(e, count - 1, r, start) <= x) {
        assert p.y == r && p.x <= x;
      }
    }
  }

  lemma {:induction false} RowMaxMeaning(e: Edge, count: nat, r: int, start: int, x: int)
    ensures x <= RowMax(e, count, r, start)
      <==> x <= start || exists i: nat :: i < count && e.Visit(i).y == r && x <= e.Visit(i).x
  {
    if count > 0 {
      RowMaxMeaning(e, count - 1, r, start, x);
      var p := e.Visit(count - 1);
      if x <= RowMax(e, count, r, start) && !(x <= RowMax(e, count - 1, r, start)) {
        assert p.y == r && x <= p.x;
      }
    }
  }

  /** Row r keeps its range in cells 2r (min) and 2r + 1 (max): `now` is `was` widened by the first
      `count` visited points, in the rows below ymax and nowhere else. */
  ghost predicate Widened(e: Edge, count: nat, ymax: nat, was: seq<int>, now: seq<int>)
  {
    && 2 * ymax <= |was| == |now|
    && (forall r :: 0 <= r < ymax ==> now[2 * r] == RowMin(e, count, r, was[2 * r]))
    && (forall r :: 0 <= r < ymax ==> now[2 * r + 1] == RowMax(e, count, r, was[2 * r + 1]))
    && (forall j :: 2 * ymax <= j < |was| ==> now[j] == was[j])
  }

  /** What one visited point does to the ranges. */
  function Extend(p: Point, ymax: nat, xs: seq<int>): seq<int>
    requires 2 * ymax <= |xs|
  {
    if 0 <= p.y < ymax then
      xs[2 * p.y := Min(p.x, xs[2 * p.y])][2 * p.y + 1 := Max(p.x, xs[2 * p.y + 1])]
    else xs
  }

  lemma WidenedStep(e: Edge, count: nat, ymax: nat, was: seq<int>, now: seq<int>)
    requires Widened(e, count, ymax, was, now)
    ensures Widened(e, count + 1, ymax, was, Extend(e.Visit(count), ymax, now))
  {
    var p := e.Visit(count);
    var next := Extend(p, ymax, now);
    forall r | 0 <= r < ymax
      ensures next[2 * r] == RowMin(e, count + 1, r, was[2 * r])
      ensures next[2 * r + 1] == RowMax(e, count + 1, r, was[2 * r + 1])
    {
      assert now[2 * r] == RowMin(e, count, r, was[2 * r]);
      assert now[2 * r + 1] == RowMax(e, count, r, was[2 * r + 1]);
    }
  }

  /** The update of one row's range. */
  method ExtendRow(x: int, y: int, ymax: nat, xr: array<int>)
    requires 2 * ymax <= xr.Length
    modifies xr
    ensures xr[..] == Extend(Point(x, y), ymax, old(xr[..]))
  {
    if 0 <= y < ymax {
      if x < xr[2 * y] {
        xr[2 * y] := x;
      }
      if x > xr[2 * y + 1] {
        xr[2 * y + 1] := x;
      }
    }
  }

  /** The walk itself. */
  method ScanlineExtend(x1: int, y1: int, x2: int, y2: int, ymax: nat, xr: array<int>)
    requires 2 * ymax <= xr.Length
    modifies xr
    ensures var e := Edge(x1, y1, x2, y2);
      Widened(e, e.Major() + 1, ymax, old(xr[..]), xr[..])
  {
    ghost var e := Edge(x1, y1, x2, y2);
    var sx, sy := x2 - x1, y2 - y1;
    var dx1 := if sx > 0 then 1 else if sx < 0 then -1 else 0;
    var dy1 := if sy > 0 then 1 else if sy < 0 then -1 else 0;
    var m, n := Abs(sx), Abs(sy);
    var dx2, dy2 := dx1, 0;
    if m < n {
      m := Abs(sy);
      n := Abs(sx);
      dx2 := 0;
      dy2 := dy1;
    }

    DriftBounds(m, n, 0);
    WalkAlong(e, x1, y1, m, n, dx1, dy1, dx2, dy2, ymax, xr);
  }

  /** The loop of the walk, once the two moves are known. */
  method WalkAlong(ghost e: Edge, x1: int, y1: int, m: nat, n: nat, dx1: int, dy1: int, dx2: int, dy2: int,
                   ymax: nat, xr: array<int>)
    requires m == e.Major() && n == e.Minor() && StepsOf(e, dx1, dy1, dx2, dy2)
    requires WalkAt(e, 0, x1, y1, n / 2) && 2 * ymax <= xr.Length
    modifies xr
    ensures Widened(e, m + 1, ymax, old(xr[..]), xr[..])
  {
    var x, y := x1, y1;
    var cnt, k := m + 1, n / 2;
    ghost var i := 0;
    while cnt > 0
      invariant i == m + 1 - cnt && 0 <= cnt
      invariant WalkAt(e, i, x, y, k)
      invariant Widened(e, i, ymax, old(xr[..]), xr[..])
    {
      cnt := cnt - 1;
      WidenedStep(e, i, ymax, old(xr[..]), xr[..]);
      ExtendRow(x, y, ymax, xr);
      WalkStep(e, i, x, y, k, dx1, dy1, dx2, dy2);
      k := k + n;
      if k < m {
        x := x + dx2;
        y := y + dy2;
      } else {
        k := k - m;
        x := x + dx1;
        y := y + dy1;
      }
      i := i + 1;
    }
  }
}
