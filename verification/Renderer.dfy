/** The part of ncurses the renderer drives: a screen, a cursor, a current colour pair and the table
    of pair definitions. */
module Terminal {
  import opened Basics
  import opened Grid
  import opened CellFlush

  /** The cells after writing s at (x, y) with one colour pair. */
  function PutRun(cells: seq<TermCell>, w: nat, h: nat, x: int, y: int, s: seq<char>, pair: int): (r: seq<TermCell>)
    requires IsGrid(cells, w, h) && 0 <= x && x + |s| <= w && 0 <= y < h
    ensures IsGrid(r, w, h)
    decreases |s|
  {
    if s == [] then cells
    else
      var n := |s| - 1;
      Set(PutRun(cells, w, h, x, y, s[..n], pair), w, h, x + n, y, TermCell(s[n], pair))
  }

  function Blank(n: nat): seq<TermCell> { seq(n, _ => TermCell(' ', 0)) }

  class Screen {
    const w: nat
    const h: nat
    var cells: seq<TermCell>
    var pairs: map<int, Colors>
    var cx: int
    var cy: int
    var attr: int

    ghost predicate Valid()
      reads this
    {
      IsGrid(cells, w, h)
    }

    constructor (w: nat, h: nat)
      ensures Valid() && this.w == w && this.h == h
    {
      this.w, this.h := w, h;
      cells := Blank(w * h);
      pairs, cx, cy, attr := map[], 0, 0, 0;
    }

    method Move(y: int, x: int)
      requires Valid()
      modifies this`cx, this`cy
      ensures cy == y && cx == x
    {
      cy, cx := y, x;
    }

    method AttrOn(pair: int)
      modifies this`attr
      ensures attr == pair
    {
      attr := pair;
    }

    method InitPair(pair: int, fg: Byte, bg: Byte)
      modifies this`pairs
      ensures pairs == old(pairs)[pair := Colors(fg, bg)]
    {
      pairs := pairs[pair := Colors(fg, bg)];
    }

    method Erase()
      requires Valid()
      modifies this`cells
      ensures Valid() && cells == Blank(w * h)
    {
      cells := Blank(w * h);
    }

    /** addstr inside one row: no caller relies on wrapping to the next one. */
    method AddStr(s: seq<char>)
      requires Valid() && 0 <= cx && cx + |s| <= w && 0 <= cy < h
      modifies this`cells, this`cx
      ensures Valid() && cx == old(cx) + |s|
      ensures cells == PutRun(old(cells), w, h, old(cx), cy, s, attr)
    {
      var start, i := cx, 0;
      while i < |s|
        invariant 0 <= i <= |s| && cx == start + i
        invariant Valid() && cells == PutRun(old(cells), w, h, start, cy, s[..i], attr)
      {
        assert s[..i + 1][..i] == s[..i];
        cells := Set(cells, w, h, cx, cy, TermCell(s[i], attr));
        cx := cx + 1;
        i := i + 1;
      }
      assert s[..|s|] == s;
    }
  }
}

/** The terminal renderer: triangle fill into the cell buffer, and the differential flush. */
module Renderer {
  import opened Arith
  import opened Basics
  import opened Grid
  import opened EdgeWalk
  import opened TriangleSpans
  import opened CellFlush
  import opened Terminal

  /** Length of the C string at the start of a buffer. */
  function StrLen(buf: seq<char>): (n: nat)
    ensures n <= |buf|
    ensures forall i :: 0 <= i < n ==> buf[i] != '\0'
    ensures n < |buf| ==> buf[n] == '\0'
  {
    if buf == [] || buf[0] == '\0' then 0 else 1 + StrLen(buf[1..])
  }

  lemma {:induction false} StrLenIs(buf: seq<char>, n: nat)
    requires n < |buf| && buf[n] == '\0' && forall i :: 0 <= i < n ==> buf[i] != '\0'
    ensures StrLen(buf) == n
  {
    if n > 0 {
      StrLenIs(buf[1..], n - 1);
    }
  }

  class CellRenderer {
    const screenW: nat
    const screenH: nat
    const colorPairs: int
    const term: Screen

    var screen: seq<TCell>
    var screenPrev: seq<TCell>
    var scanlineRange: array<int>
    var rowBuf: seq<char>
    var pairCache: seq<Short>
    var nextPairId: Short
    var needsFullRedraw: bool
    ghost var evictions: nat
    ghost var overruns: nat

    ghost predicate Valid()
      reads this, term
    {
      && term.Valid() && term.w == screenW && term.h == screenH
      && IsGrid(screen, screenW, screenH) && IsGrid(screenPrev, screenW, screenH)
      && |pairCache| == KEYS && (colorPairs <= IDS ==> 1 <= nextPairId)
      && screenW < EMPTY_MIN
    }

    /** The frame being drawn, and the flush state it is drawn on. */
    ghost function TheFrame(): Frame
      reads this
    {
      Frame(screenW, screenH, screen, colorPairs)
    }

    ghost function TheState(): State
      reads this, term
    {
      State(pairCache, nextPairId, screenPrev, term.pairs, term.cells, evictions, overruns)
    }

    constructor (w: nat, h: nat, colorPairs: int)
      requires w < EMPTY_MIN
      ensures Valid() && fresh(scanlineRange) && fresh(term)
      ensures screenW == w && screenH == h && this.colorPairs == colorPairs
      ensures Coherent(TheFrame(), TheState(), -1)
    {
      screenW, screenH, this.colorPairs := w, h, colorPairs;
      screen := seq(w * h, _ => TCell(0, 0, 0));
      screenPrev := seq(w * h, _ => DIRTY);
      scanlineRange := new int[0];
      rowBuf := [];
      pairCache := seq(KEYS, _ => -1);
      nextPairId, needsFullRedraw, evictions, overruns := 1, true, 0, 0;
      term := new Screen(w, h);
      new;
      forall x, y | 0 <= x < w && 0 <= y < h
        ensures Get(screenPrev, w, h, x, y) == DIRTY
      {
        IdxInside(w, h, x, y);
      }
    }

    /** Recolours the cells of one span that lie inside the clip rectangle and the screen. */
    method PaintSpan(left: int, right: int, sy: int, bgCol: Byte, clip: Clip)
      requires Valid()
      modifies this`screen
      ensures Valid()
      ensures forall x, y :: 0 <= x < screenW && 0 <= y < screenH ==>
        Get(screen, screenW, screenH, x, y) ==
          var c := Get(old(screen), screenW, screenH, x, y);
          if y == sy && left <= x <= right && InClip(clip, screenW, screenH, x, y) then Paint(c, bgCol) else c
    {
      var clipX0, clipX1 := Max(0, Trunc(clip.x)), Min(screenW, Trunc(clip.z));
      var clipY0, clipY1 := Max(0, Trunc(clip.y)), Min(screenH, Trunc(clip.w));
      var x, len := left, 1 + right - left;
      while len > 0
        invariant Valid()
        invariant len == (if left <= right then 1 + right - x else 1 + right - left) && left <= x
        invariant left <= right ==> x <= right + 1
        invariant left > right ==> x == left
        invariant forall x', y' :: 0 <= x' < screenW && 0 <= y' < screenH ==>
          Get(screen, screenW, screenH, x', y') ==
            var c := Get(old(screen), screenW, screenH, x', y');
            if y' == sy && left <= x' < x && InClip(clip, screenW, screenH, x', y') then Paint(c, bgCol) else c
      {
        len := len - 1;
        if clipX0 <= x < clipX1 && clipY0 <= sy < clipY1 {
          IdxInside(screenW, screenH, x, sy);
          var cell := screen[sy * screenW + x];
          screen := Set(screen, screenW, screenH, x, sy, cell.(ch := ' ' as int, bg := bgCol));
        }
        x := x + 1;
      }
    }

    /** Scanline fill of a triangle: paints exactly the spans of its outline. */
    method DrawFillTriangle(p0: Vertex, p1: Vertex, p2: Vertex, bgCol: Byte, clip: Clip)
      requires Valid()
      modifies this`screen, this`scanlineRange, scanlineRange
      ensures Valid()
      ensures forall x, y :: 0 <= x < screenW && 0 <= y < screenH ==>
        Get(screen, screenW, screenH, x, y) ==
          var c := Get(old(screen), screenW, screenH, x, y);
          if Painted(Triangle(p0, p1, p2), clip, screenW, screenH, x, y) then TCell(' ' as int, c.fg, bgCol) else c
    {
      ghost var t := Triangle(p0, p1, p2);
      var minY, maxY := MinReal(p0.y, MinReal(p1.y, p2.y)), MaxReal(p0.y, MaxReal(p1.y, p2.y));
      var ymin := Trunc(minY);
      var ydelta := Trunc(maxY) - ymin;
      if ydelta == 0 && maxY > minY {
        ydelta := 1;
      }
      if ydelta <= 0 {
        return;
      }
      if ydelta == 1 {
        var cyRow := Trunc((p0.y + p1.y + p2.y) / 3.0);
        if cyRow > ymin {
          ymin := cyRow;
        }
      }
      FillRows(p0, p1, p2, ymin, ydelta, bgCol, clip);
    }

    /** The fill proper, once the rows are known. */
    method FillRows(p0: Vertex, p1: Vertex, p2: Vertex, ymin: int, ydelta: nat, bgCol: Byte, clip: Clip)
      requires Valid() && RowsOf(Triangle(p0, p1, p2)) == Rows(ymin, ydelta)
      modifies this`screen, this`scanlineRange, scanlineRange
      ensures Valid()
      ensures forall x, y :: 0 <= x < screenW && 0 <= y < screenH ==>
        Get(screen, screenW, screenH, x, y) ==
          var c := Get(old(screen), screenW, screenH, x, y);
          if Painted(Triangle(p0, p1, p2), clip, screenW, screenH, x, y) then Paint(c, bgCol) else c
    {
      if scanlineRange.Length < 2 * ydelta {
        scanlineRange := new int[2 * ydelta];
      }
      var ab, bc, ca := EdgeFrom(p0, p1, ymin), EdgeFrom(p1, p2, ymin), EdgeFrom(p2, p0, ymin);
      ScanOutline(ab, bc, ca, ydelta);
      PaintRows(Outline(ab, bc, ca), ymin, ydelta, bgCol, clip);
      RangesArePainted(OutlineOf(Triangle(p0, p1, p2)), RowsOf(Triangle(p0, p1, p2)), clip, screenW, screenH);
    }

    /** Walks the three edges into the row ranges. */
    method ScanOutline(ab: Edge, bc: Edge, ca: Edge, ydelta: nat)
      requires 2 * ydelta <= scanlineRange.Length
      modifies scanlineRange
      ensures HoldsRanges(scanlineRange[..], Outline(ab, bc, ca), ydelta)
    {
      ResetRange(ydelta);
      ghost var r0 := scanlineRange[..];
      ScanlineExtend(ab.x1, ab.y1, ab.x2, ab.y2, ydelta, scanlineRange);
      ghost var r1 := scanlineRange[..];
      ScanlineExtend(bc.x1, bc.y1, bc.x2, bc.y2, ydelta, scanlineRange);
      ghost var r2 := scanlineRange[..];
      ScanlineExtend(ca.x1, ca.y1, ca.x2, ca.y2, ydelta, scanlineRange);
      RangesMeet(Outline(ab, bc, ca), ydelta, r0, r1, r2, scanlineRange[..]);
    }

    /** Paints the scanned rows. */
    method PaintRows(ghost o: Outline, ymin: int, ydelta: nat, bgCol: Byte, clip: Clip)
      requires Valid() && HoldsRanges(scanlineRange[..], o, ydelta)
      modifies this`screen
      ensures Valid()
      ensures forall x, y :: 0 <= x < screenW && 0 <= y < screenH ==>
        Get(screen, screenW, screenH, x, y) ==
          var c := Get(old(screen), screenW, screenH, x, y);
          if InRanges(o, ymin, ydelta, x, y) && InClip(clip, screenW, screenH, x, y) then Paint(c, bgCol) else c
    {
      var y := 0;
      while y < ydelta
        invariant 0 <= y <= ydelta && Valid()
        invariant forall x', y' :: 0 <= x' < screenW && 0 <= y' < screenH ==>
          Get(screen, screenW, screenH, x', y') ==
            var c := Get(old(screen), screenW, screenH, x', y');
            if InRanges(o, ymin, y, x', y') && InClip(clip, screenW, screenH, x', y') then Paint(c, bgCol) else c
      {
        assert scanlineRange[..][2 * y] == o.LeftEnd(y) && scanlineRange[..][2 * y + 1] == o.RightEnd(y);
        PaintSpan(scanlineRange[2 * y], scanlineRange[2 * y + 1], y + ymin, bgCol, clip);
        y := y + 1;
      }
    }

    /** Empties the range of every row about to be filled. */
    method ResetRange(ydelta: nat)
      requires 2 * ydelta <= scanlineRange.Length
      modifies scanlineRange
      ensures forall y :: 0 <= y < ydelta ==>
        scanlineRange[2 * y] == EMPTY_MIN && scanlineRange[2 * y + 1] == EMPTY_MAX
    {
      var y := 0;
      while y < ydelta
        invariant 0 <= y <= ydelta
        invariant forall y' :: 0 <= y' < y ==>
          scanlineRange[2 * y'] == EMPTY_MIN && scanlineRange[2 * y' + 1] == EMPTY_MAX
      {
        scanlineRange[2 * y] := 999999;
        scanlineRange[2 * y + 1] := -999999;
        y := y + 1;
      }
    }

    /** The pair id of (fg, bg), allocated on first use. */
    method GetOrAllocColorPair(fg: Byte, bg: Byte) returns (pid: Short)
      requires Valid()
      modifies this`pairCache, this`nextPairId, this`screenPrev, this`evictions, this`overruns, term`pairs
      ensures Valid()
      ensures TheState() == Alloc(TheFrame(), old(TheState()), bg * 256 + fg)
      ensures pid == pairCache[bg * 256 + fg]
    {
      var key := bg * 256 + fg;
      var cached := pairCache[key];
      if cached >= 0 {
        return cached;
      }
      if nextPairId >= colorPairs - 1 {
        nextPairId := 1;
        pairCache := seq(|pairCache|, _ => -1);
        screenPrev := seq(|screenPrev|, _ => DIRTY);
        evictions := evictions + 1;
      }
      pid := nextPairId;
      nextPairId := Following(nextPairId);
      overruns := overruns + if pid < 1 then 1 else 0;
      assert KeyColors(key) == Colors(fg, bg);
      term.InitPair(pid, fg, bg);
      pairCache := pairCache[key := pid];
    }

    /** Terminates the pending run and sends it to the terminal. */
    method WriteBuffer(ic: nat)
      requires Valid() && ic < |rowBuf| && forall i :: 0 <= i < ic ==> rowBuf[i] != '\0'
      requires 0 <= term.cx && term.cx + ic <= screenW && 0 <= term.cy < screenH
      modifies this`rowBuf, term`cells, term`cx
      ensures Valid() && |rowBuf| == old(|rowBuf|) && term.cx == old(term.cx) + ic
      ensures term.cells ==
        PutRun(old(term.cells), screenW, screenH, old(term.cx), term.cy, old(rowBuf[..ic]), term.attr)
    {
      rowBuf := rowBuf[ic := '\0'];
      StrLenIs(rowBuf, ic);
      assert rowBuf[..ic] == old(rowBuf[..ic]);
      term.AddStr(rowBuf[..StrLen(rowBuf)]);
    }

    /** The plain redraw has reached state d and column x of row y; the last `ic` glyphs are still in
        the row buffer. */
    ghost predicate Pending(d: State, x: int, y: int, ic: int)
      reads this, term
    {
      && Valid() && 0 <= ic <= x <= screenW < |rowBuf| && 0 <= y < screenH
      && term.cy == y && term.cx == x - ic
      && (forall i :: 0 <= i < ic ==> rowBuf[i] != '\0')
      && d == TheState().(cells := PutRun(term.cells, screenW, screenH, x - ic, y, rowBuf[..ic], term.attr))
    }

    /** Sends the pending run and switches to the colour pair of the next one. */
    method StartRun(x: int, y: int, ic: nat, fg: Byte, bg: Byte, ghost d: State)
      requires Pending(d, x, y, ic)
      modifies this`pairCache, this`nextPairId, this`screenPrev, this`evictions, this`overruns, this`rowBuf, term
      ensures Pending(Alloc(TheFrame(), d, bg * 256 + fg), x, y, 0)
      ensures |rowBuf| == old(|rowBuf|) && term.attr == pairCache[bg * 256 + fg]
    {
      if ic > 0 {
        WriteBuffer(ic);
      }
      assert rowBuf[..0] == [] && (ic == 0 ==> rowBuf[..ic] == []);
      assert TheState() == d;
      var pid := GetOrAllocColorPair(fg, bg);
      term.AttrOn(pid);
    }

    method AppendGlyph(x: int, y: int, ic: nat, ch: int, ghost d: State)
      requires Pending(d, x, y, ic) && x < screenW
      modifies this`rowBuf
      ensures |rowBuf| == old(|rowBuf|)
      ensures var cells := Set(d.cells, screenW, screenH, x, y, TermCell(Glyph(ch), term.attr));
              Pending(d.(cells := cells), x + 1, y, ic + 1)
    {
      rowBuf := rowBuf[ic := if 0x20 <= ch <= 0x7E then ch as char else ' '];
      assert rowBuf[..ic + 1][..ic] == old(rowBuf[..ic]);
    }

    /** The colours of the last cell looked at, and the pair they are written in; -1 before the first. */
    ghost predicate LastIs(lastPair: int, x: int, y: int)
      reads this, term
    {
      && Valid() && 0 <= x <= screenW && 0 <= y < screenH
      && lastPair == (if x == 0 then -1 else CellKey(TheFrame(), x - 1, y))
      && (x > 0 ==> pairCache[lastPair] == term.attr)
    }

    /** Adds one cell to the pending run, after starting a new run if its colours differ. */
    method AddCell(x: int, y: int, ic: nat, lastPair: int, ghost st: State) returns (ic': nat, lastPair': int)
      requires 0 <= x < screenW && 0 <= y < screenH && !TheFrame().Corner(x, y) && TheFrame().Fits(st)
      requires Pending(DrawCells(TheFrame(), st, y, x), x, y, ic) && LastIs(lastPair, x, y)
      modifies this`pairCache, this`nextPairId, this`screenPrev, this`evictions, this`overruns, this`rowBuf, term
      ensures |rowBuf| == old(|rowBuf|)
      ensures Pending(DrawCells(TheFrame(), st, y, x + 1), x + 1, y, ic') && LastIs(lastPair', x + 1, y)
    {
      ic', lastPair' := ic, lastPair;
      ghost var f, d := TheFrame(), DrawCells(TheFrame(), st, y, x);
      IdxInside(screenW, screenH, x, y);
      var cell := screen[y * screenW + x];
      var pairKey := cell.bg * 256 + cell.fg;
      assert Continues(f, x, y) <==> pairKey == lastPair;
      if pairKey != lastPair {
        StartRun(x, y, ic, cell.fg, cell.bg, d);
        ic' := 0;
        lastPair' := pairKey;
      }
      AppendGlyph(x, y, ic', cell.ch, if pairKey == lastPair then d else Alloc(f, d, pairKey));
      DrawNext(f, st, y, x, cell);
      ic' := ic' + 1;
    }

    /** Writes one row, batching neighbouring cells of one colour pair, and copies it to the shadow. */
    method FlushRow(y: int)
      requires Valid() && 0 <= y < screenH && screenW < |rowBuf|
      modifies this`pairCache, this`nextPairId, this`screenPrev, this`evictions, this`overruns, this`rowBuf, term
      ensures Valid() && |rowBuf| == old(|rowBuf|)
      ensures TheState() == DrawRow(TheFrame(), old(TheState()), y)
    {
      ghost var f, st := TheFrame(), TheState();
      term.Move(y, 0);
      assert rowBuf[..0] == [];
      var x, ic := PutCells(y, st);
      FinishRow(x, y, ic, DrawCells(f, st, y, screenW));
    }

    /** The loop over the row's cells; it stops before the bottom-right one. */
    method PutCells(y: int, ghost st: State) returns (x: int, ic: nat)
      requires Pending(st, 0, y, 0) && TheFrame().Fits(st)
      modifies this`pairCache, this`nextPairId, this`screenPrev, this`evictions, this`overruns, this`rowBuf, term
      ensures |rowBuf| == old(|rowBuf|)
      ensures Pending(DrawCells(TheFrame(), st, y, screenW), x, y, ic)
    {
      var lastPair := -1;
      x, ic := 0, 0;
      while x < screenW
        invariant LastIs(lastPair, x, y)
        invariant |rowBuf| == old(|rowBuf|)
        invariant 0 <= x <= screenW && Pending(DrawCells(TheFrame(), st, y, x), x, y, ic)
      {
        if y == screenH - 1 && x == screenW - 1 {
          CornerAdds(TheFrame(), st, y, x);
          return;
        }
        ic, lastPair := AddCell(x, y, ic, lastPair, st);
        x := x + 1;
      }
    }

    method FinishRow(x: int, y: int, ic: nat, ghost d: State)
      requires Pending(d, x, y, ic)
      modifies this`screenPrev, this`rowBuf, term`cells, term`cx
      ensures Valid() && |rowBuf| == old(|rowBuf|)
      ensures TheState() == d.(prev := CopyRow(screenW, screenH, d.prev, screen, y))
    {
      if ic > 0 {
        WriteBuffer(ic);
      } else {
        assert rowBuf[..ic] == [];
      }
      RowInside(screenW, screenH, y);
      screenPrev := CopyAt(screenPrev, screen, y * screenW, screenW);
    }

    method IsRowChanged(y: int) returns (changed: bool)
      requires Valid() && 0 <= y < screenH
      ensures changed == RowChanged(TheFrame(), screenPrev, y)
    {
      var x := 0;
      changed := false;
      while x < screenW && !changed
        invariant 0 <= x <= screenW
        invariant changed ==> RowChanged(TheFrame(), screenPrev, y)
        invariant !changed ==> forall x' :: 0 <= x' < x ==>
          Get(screen, screenW, screenH, x', y) == Get(screenPrev, screenW, screenH, x', y)
      {
        IdxInside(screenW, screenH, x, y);
        var i := y * screenW + x;
        changed := screen[i] != screenPrev[i];
        assert changed == (Get(screen, screenW, screenH, x, y) != Get(screenPrev, screenW, screenH, x, y));
        x := x + 1;
      }
    }

    /** Carries out a full redraw that was asked for, and makes room in the row buffer. */
    method BeginFlush()
      requires Valid()
      modifies this`screenPrev, this`rowBuf, this`needsFullRedraw, term`cells
      ensures Valid() && !needsFullRedraw && screenW < |rowBuf|
      ensures TheState() == old(StartState())
    {
      if needsFullRedraw {
        term.Erase();
        screenPrev := seq(|screenPrev|, _ => DIRTY);
        needsFullRedraw := false;
      }
      if |rowBuf| < screenW + 1 {
        rowBuf := rowBuf + seq(screenW + 1 - |rowBuf|, _ => '\0');
      }
    }

    /** Redraws the rows that differ from their shadow: batched and differential, it is still the
        plain cell-by-cell redraw of the changed rows. */
    method FlushToNcurses()
      requires Valid()
      modifies this`pairCache, this`nextPairId, this`screenPrev, this`evictions, this`overruns, this`rowBuf,
        this`needsFullRedraw, term
      ensures Valid() && !needsFullRedraw
      ensures TheState() == DrawRows(TheFrame(), old(StartState()), screenH)
    {
      ghost var f, st := TheFrame(), StartState();
      BeginFlush();
      var y := 0;
      while y < screenH
        invariant 0 <= y <= screenH && Valid() && screenW < |rowBuf| && !needsFullRedraw && f == TheFrame()
        invariant TheState() == DrawRows(f, st, y)
      {
        var changed := IsRowChanged(y);
        if changed {
          FlushRow(y);
        }
        y := y + 1;
      }
    }

    /** A frame drawn on a coherent terminal: if the colours still missing do not outnumber the free ids,
        the table is kept, every cell but the bottom-right one shows its glyph in its own colours and the
        shadow is the frame. If they do, the table is evicted or, with more pairs than IDS, the ids
        overrun and the frame is not shown. */
    method FlushFrame()
      requires Valid() && Coherent(TheFrame(), TheState(), -1) && NoMarker(TheFrame())
      modifies this`pairCache, this`nextPairId, this`screenPrev, this`evictions, this`overruns, this`rowBuf,
        this`needsFullRedraw, term
      ensures Valid()
      ensures screenW > 0 && screenH > 0 ==>
        Get(term.cells, screenW, screenH, screenW - 1, screenH - 1)
          == if old(needsFullRedraw) then TermCell(' ', 0)
             else Get(old(term.cells), screenW, screenH, screenW - 1, screenH - 1)
      ensures Room(TheFrame(), old(StartState()), Missing(TheFrame(), old(StartState()))) ==>
        && evictions == old(evictions) && overruns == old(overruns)
        && Coherent(TheFrame(), TheState(), -1) && OnScreen()
      ensures !Room(TheFrame(), old(StartState()), Missing(TheFrame(), old(StartState()))) ==>
        if colorPairs <= IDS then evictions > old(evictions) && overruns == old(overruns)
        else evictions == old(evictions) && overruns > old(overruns) && !OnScreen()
    {
      ghost var f, st := TheFrame(), StartState();
      StartIsCoherent(f, TheState(), needsFullRedraw);
      FlushToNcurses();
      RunsOutExactlyWhenNoRoom(f, st);
      FlushedIfRoom(f, st);
      if screenW > 0 && screenH > 0 {
        CornerStays(f, st, screenH);
        IdxInside(screenW, screenH, screenW - 1, screenH - 1);
      }
      if Room(f, st, Missing(f, st)) {
        FlushShowsFrame(f, st);
      }
    }

    /** The terminal shows the frame, its bottom-right cell aside, and the shadow is the frame. */
    ghost predicate OnScreen()
      requires Valid()
      reads this, term
    {
      screenPrev == screen && forall y :: 0 <= y < screenH ==> RowShown(TheFrame(), TheState(), screen, y)
    }

    /** What a flush starts from: a full redraw first clears the terminal and the shadow. */
    ghost function StartState(): State
      requires Valid()
      reads this, term
    {
      StartOf(TheFrame(), TheState(), needsFullRedraw)
    }
  }

  /** The plain redraw's next cell, with its pair id read back from the table. */
  lemma DrawNext(f: Frame, st: State, y: int, x: nat, c: TCell)
    requires f.Fits(st) && x < f.w && 0 <= y < f.h && !f.Corner(x, y) && c == Get(f.screen, f.w, f.h, x, y)
    ensures var d, key := DrawCells(f, st, y, x), c.bg * 256 + c.fg;
      var a := if Continues(f, x, y) then d else Alloc(f, d, key);
      DrawCells(f, st, y, x + 1) == a.(cells := Set(a.cells, f.w, f.h, x, y, TermCell(Glyph(c.ch), a.cache[key])))
  {
  }

  lemma CornerAdds(f: Frame, st: State, y: int, x: nat)
    requires f.Fits(st) && x < f.w && 0 <= y < f.h && f.Corner(x, y)
    ensures DrawCells(f, st, y, f.w) == DrawCells(f, st, y, x)
  {
  }

  /** A filled cell: blank, new background, same foreground. */
  function Paint(c: TCell, bgCol: Byte): TCell { TCell(' ' as int, c.fg, bgCol) }

  /** The scanline array holds the ends of the outline's first n rows. */
  ghost predicate HoldsRanges(range: seq<int>, o: Outline, n: nat) {
    2 * n <= |range| && forall y :: 0 <= y < n ==> range[2 * y] == o.LeftEnd(y) && range[2 * y + 1] == o.RightEnd(y)
  }

  /** (x, y) lies in the range of one of the first n rows below `first`. */
  ghost predicate InRanges(o: Outline, first: int, n: int, x: int, y: int) {
    0 <= y - first < n && o.LeftEnd(y - first) <= x <= o.RightEnd(y - first)
  }

  lemma InRangesIs(o: Outline, first: int, n: int, x: int, y: int)
    requires 0 <= x < EMPTY_MIN
    ensures InRanges(o, first, n, x, y) <==> 0 <= y - first < n && o.Spans(x, y - first)
  {
    RangeIsSpan(o, y - first, x);
  }

  lemma RangesArePainted(o: Outline, rows: Rows, clip: Clip, w: nat, h: nat)
    requires w < EMPTY_MIN
    ensures forall x, y :: 0 <= x < w && 0 <= y < h ==>
      (PaintedBy(o, rows, clip, w, h, x, y) <==> InRanges(o, rows.first, rows.count, x, y) && InClip(clip, w, h, x, y))
  {
    forall x, y | 0 <= x < w && 0 <= y < h
      ensures PaintedBy(o, rows, clip, w, h, x, y) <==>
        InRanges(o, rows.first, rows.count, x, y) && InClip(clip, w, h, x, y)
    {
      InRangesIs(o, rows.first, rows.count, x, y);
    }
  }

  /** Three walks over empty ranges leave the ends of the outline. */
  lemma RangesMeet(o: Outline, ydelta: nat, r0: seq<int>, r1: seq<int>, r2: seq<int>, r3: seq<int>)
    requires Widened(o.ab, o.ab.Major() + 1, ydelta, r0, r1)
    requires Widened(o.bc, o.bc.Major() + 1, ydelta, r1, r2)
    requires Widened(o.ca, o.ca.Major() + 1, ydelta, r2, r3)
    requires forall y :: 0 <= y < ydelta ==> r0[2 * y] == EMPTY_MIN && r0[2 * y + 1] == EMPTY_MAX
    ensures HoldsRanges(r3, o, ydelta)
  {
  }

  ghost function StartOf(f: Frame, st: State, fullRedraw: bool): State {
    if fullRedraw then st.(cells := Blank(f.w * f.h), prev := seq(|st.prev|, _ => DIRTY)) else st
  }

  lemma StartIsCoherent(f: Frame, st: State, fullRedraw: bool)
    requires Coherent(f, st, -1)
    ensures Coherent(f, StartOf(f, st, fullRedraw), -1)
  {
    var s := StartOf(f, st, fullRedraw);
    if fullRedraw {
      forall x, y | 0 <= x < f.w && 0 <= y < f.h
        ensures Get(s.prev, f.w, f.h, x, y) == DIRTY
      {
        IdxInside(f.w, f.h, x, y);
      }
    }
  }
}
