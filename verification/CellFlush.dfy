/** What a flush of the cell buffer to the terminal must do, written as the plain cell-by-cell redraw
    of every changed row, and what that redraw guarantees about the picture and its shadow copy. */
module CellFlush {
  import opened Arith
  import opened Basics
  import opened Grid

  datatype TCell = TCell(ch: int, fg: Byte, bg: Byte)

  /** Marks a shadow cell whose terminal cell is unknown. */
  const DIRTY := TCell(0xFFFF_FFFF, 0xFF, 0xFF)

  datatype TermCell = TermCell(ch: char, pair: int)

  datatype Colors = Colors(fg: Byte, bg: Byte)

  const KEYS := 65536

  function Key(c: TCell): (k: nat)
    ensures k < KEYS
  {
    c.bg * 256 + c.fg
  }

  function KeyColors(key: nat): Colors
    requires key < KEYS
  {
    Colors(key % 256, key / 256)
  }

  function Glyph(ch: int): char { if 0x20 <= ch <= 0x7E then ch as char else ' ' }

  /** Only printable characters reach the terminal: each as it is, and a blank for anything else. */
  lemma OnlyPrintable(ch: int)
    ensures ' ' <= Glyph(ch) <= '~'
    ensures ' ' as int <= ch <= '~' as int ==> Glyph(ch) as int == ch
    ensures !(' ' as int <= ch <= '~' as int) ==> Glyph(ch) == ' '
  {
  }

  /** Pair ids are 16 bits wide: the id after the last one is the least negative number. */
  type Short = n: int | -0x8000 <= n < 0x8000

  const IDS := 0x8000

  function Following(id: Short): Short { if id == IDS - 1 then -IDS else id + 1 }

  /** The renderer's pair table and shadow, and the terminal behind it. Two counts are kept beside them:
      how often the table was evicted, and how often an id below 1 was given out, which names no pair. */
  datatype State = State(
    cache: seq<Short>, next: Short, prev: seq<TCell>,
    pairs: map<int, Colors>, cells: seq<TermCell>, evictions: nat, overruns: nat)

  /** The frame being drawn: its size, its cells and the number of pairs the terminal supports. */
  datatype Frame = Frame(w: nat, h: nat, screen: seq<TCell>, limit: int) {
    ghost predicate Fits(st: State) {
      && IsGrid(screen, w, h) && IsGrid(st.prev, w, h) && IsGrid(st.cells, w, h)
      && |st.cache| == KEYS
      && (limit <= IDS ==> 1 <= st.next)
    }

    predicate Corner(x: int, y: int) { y == h - 1 && x == w - 1 }
  }

  // ---- the plain redraw ----

  function Evict(st: State): State {
    st.(next := 1, cache := seq(|st.cache|, _ => -1), prev := seq(|st.prev|, _ => DIRTY),
        evictions := st.evictions + 1)
  }

  /** The pair id of a colour key, allocated when missing; the whole table goes when the next id reaches
      the number of pairs. With more pairs than IDS it never does, and the ids wrap. */
  function Alloc(f: Frame, st: State, key: nat): (r: State)
    requires f.Fits(st) && key < KEYS
    ensures f.Fits(r) && r.cells == st.cells
  {
    if st.cache[key] >= 0 then st
    else
      var e := if st.next >= f.limit - 1 then Evict(st) else st;
      e.(next := Following(e.next), pairs := e.pairs[e.next := KeyColors(key)], cache := e.cache[key := e.next],
         overruns := e.overruns + if e.next < 1 then 1 else 0)
  }

  function CellKey(f: Frame, x: int, y: int): (k: nat)
    requires IsGrid(f.screen, f.w, f.h) && 0 <= x < f.w && 0 <= y < f.h
    ensures k < KEYS
  {
    Key(Get(f.screen, f.w, f.h, x, y))
  }

  /** Writes a cell in the pair the table has for it. */
  function PutCell(f: Frame, st: State, x: int, y: int): (r: State)
    requires f.Fits(st) && 0 <= x < f.w && 0 <= y < f.h
    ensures f.Fits(r)
  {
    var c := Get(f.screen, f.w, f.h, x, y);
    st.(cells := Set(st.cells, f.w, f.h, x, y, TermCell(Glyph(c.ch), st.cache[Key(c)])))
  }

  function DrawCell(f: Frame, st: State, x: int, y: int): (r: State)
    requires f.Fits(st) && 0 <= x < f.w && 0 <= y < f.h
    ensures f.Fits(r)
  {
    PutCell(f, Alloc(f, st, CellKey(f, x, y)), x, y)
  }

  /** The cell has the colours of the one before it. */
  predicate Continues(f: Frame, x: int, y: int)
    requires IsGrid(f.screen, f.w, f.h) && 0 <= x < f.w && 0 <= y < f.h
  {
    x > 0 && CellKey(f, x - 1, y) == CellKey(f, x, y)
  }

  /** The first n cells of row y, one by one; the pair is asked for where the colours change, and the
      bottom-right cell is never written. */
  function DrawCells(f: Frame, st: State, y: int, n: nat): (r: State)
    requires f.Fits(st) && n <= f.w && 0 <= y < f.h
    ensures f.Fits(r)
  {
    if n == 0 then st
    else
      var before := DrawCells(f, st, y, n - 1);
      if f.Corner(n - 1, y) then before
      else if Continues(f, n - 1, y) then PutCell(f, before, n - 1, y)
      else DrawCell(f, before, n - 1, y)
  }

  function DrawRow(f: Frame, st: State, y: int): (r: State)
    requires f.Fits(st) && 0 <= y < f.h
    ensures f.Fits(r)
  {
    var d := DrawCells(f, st, y, f.w);
    d.(prev := CopyRow(f.w, f.h, d.prev, f.screen, y))
  }

  predicate RowChanged(f: Frame, prev: seq<TCell>, y: int)
    requires IsGrid(f.screen, f.w, f.h) && IsGrid(prev, f.w, f.h) && 0 <= y < f.h
  {
    exists x :: 0 <= x < f.w && Get(f.screen, f.w, f.h, x, y) != Get(prev, f.w, f.h, x, y)
  }

  /** The first n rows: each one that differs from its shadow is redrawn. */
  function DrawRows(f: Frame, st: State, n: nat): (r: State)
    requires f.Fits(st) && n <= f.h
    ensures f.Fits(r)
  {
    if n == 0 then st
    else
      var before := DrawRows(f, st, n - 1);
      if RowChanged(f, before.prev, n - 1) then DrawRow(f, before, n - 1) else before
  }

  // ---- the pair table ----

  /** The next id, counted on past the last one. */
  function Used(st: State): int { if st.next == -IDS then IDS else st.next }

  /** Every cached id is in use and defined on the terminal as its own two colours. */
  ghost predicate PairsGood(st: State) {
    && |st.cache| == KEYS && 1 <= Used(st)
    && forall k :: 0 <= k < KEYS && st.cache[k] >= 0 ==> PairIs(st, st.cache[k], KeyColors(k))
  }

  predicate PairIs(st: State, pair: int, colors: Colors) {
    1 <= pair < Used(st) && pair in st.pairs && st.pairs[pair] == colors
  }

  lemma KeyIsItsColors(c: TCell)
    ensures KeyColors(Key(c)) == Colors(c.fg, c.bg)
  {
  }

  /** Two colour keys never share a pair id. */
  lemma PairIdsAreDistinct(st: State, j: nat, k: nat)
    requires PairsGood(st) && j < KEYS && k < KEYS && j != k
    requires st.cache[j] >= 0 && st.cache[k] >= 0
    ensures st.cache[j] != st.cache[k]
  {
    assert KeyColors(j) != KeyColors(k);
  }

  /** What later allocations may change: nothing in use, until the table is evicted. */
  ghost predicate Extends(st: State, r: State) {
    && st.evictions == r.evictions && st.prev == r.prev && Used(st) <= Used(r)
    && forall p :: p < Used(st) && p in st.pairs ==> p in r.pairs && r.pairs[p] == st.pairs[p]
  }

  ghost predicate Evicted(st: State, r: State) {
    && st.evictions < r.evictions
    && forall i :: 0 <= i < |r.prev| ==> r.prev[i] == DIRTY
  }

  lemma AllocFacts(f: Frame, st: State, key: nat)
    requires f.Fits(st) && key < KEYS && PairsGood(st) && Alloc(f, st, key).overruns == st.overruns
    ensures var r := Alloc(f, st, key);
      && PairsGood(r) && PairIs(r, r.cache[key], KeyColors(key))
      && (Extends(st, r) || Evicted(st, r))
  {
  }

  // ---- running out of ids ----

  /** What drawing does to the counts. Only a table of at most IDS pairs is ever evicted, and only with
      more pairs do the ids overrun. */
  predicate Counts(f: Frame, st: State, r: State) {
    && st.evictions <= r.evictions && st.overruns <= r.overruns
    && (f.limit <= IDS ==> r.overruns == st.overruns)
    && (f.limit > IDS ==> r.evictions == st.evictions)
  }

  lemma {:induction false} CellsCount(f: Frame, st: State, y: int, e: nat, n: nat)
    requires f.Fits(st) && e <= n <= f.w && 0 <= y < f.h
    ensures Counts(f, DrawCells(f, st, y, e), DrawCells(f, st, y, n))
    decreases n - e
  {
    if e < n {
      CellsCount(f, st, y, e, n - 1);
    }
  }

  lemma {:induction false} RowsCount(f: Frame, st: State, n: nat)
    requires f.Fits(st) && n <= f.h
    ensures Counts(f, st, DrawRows(f, st, n))
  {
    if n > 0 {
      var b := DrawRows(f, st, n - 1);
      RowsCount(f, st, n - 1);
      if RowChanged(f, b.prev, n - 1) {
        CellsCount(f, b, n - 1, 0, f.w);
      }
    }
  }

  /** The first n cells of row y were drawn without an overrun. */
  ghost predicate InRange(f: Frame, st: State, y: int, n: nat)
    requires f.Fits(st) && n <= f.w && 0 <= y < f.h
  {
    DrawCells(f, st, y, n).overruns == st.overruns
  }

  lemma InRangeBefore(f: Frame, st: State, y: int, e: nat, n: nat)
    requires f.Fits(st) && e <= n <= f.w && 0 <= y < f.h && InRange(f, st, y, n)
    ensures InRange(f, st, y, e)
  {
    CellsCount(f, st, y, 0, e);
    CellsCount(f, st, y, e, n);
  }

  lemma {:induction false} LastIsCached(f: Frame, st: State, y: int, n: nat)
    requires f.Fits(st) && 0 < n <= f.w && 0 <= y < f.h && !f.Corner(n - 1, y) && InRange(f, st, y, n)
    ensures DrawCells(f, st, y, n).cache[CellKey(f, n - 1, y)] >= 0
  {
    InRangeBefore(f, st, y, n - 1, n);
    if Continues(f, n - 1, y) {
      LastIsCached(f, st, y, n - 1);
    }
  }

  /** As long as the ids do not overrun, asking for the pair of every cell would give the same. */
  lemma AskedEveryTime(f: Frame, st: State, y: int, n: nat)
    requires f.Fits(st) && n < f.w && 0 <= y < f.h && !f.Corner(n, y) && InRange(f, st, y, n)
    ensures DrawCells(f, st, y, n + 1) == DrawCell(f, DrawCells(f, st, y, n), n, y)
  {
    if Continues(f, n, y) {
      LastIsCached(f, st, y, n);
    }
  }

  // ---- the picture ----

  /** The terminal cell shows the glyph and the colours of c. */
  predicate CellShown(c: TCell, t: TermCell, st: State) {
    t.ch == Glyph(c.ch) && PairIs(st, t.pair, Colors(c.fg, c.bg))
  }

  /** The terminal row shows the cells of row y of `picture`, its bottom-right corner aside. */
  ghost predicate RowShown(f: Frame, st: State, picture: seq<TCell>, y: int)
    requires f.Fits(st) && IsGrid(picture, f.w, f.h) && 0 <= y < f.h
  {
    forall x :: 0 <= x < f.w && !f.Corner(x, y) ==>
      CellShown(Get(picture, f.w, f.h, x, y), Get(st.cells, f.w, f.h, x, y), st)
  }

  ghost predicate RowDirty(f: Frame, st: State, y: int)
    requires f.Fits(st) && 0 <= y < f.h
  {
    forall x :: 0 <= x < f.w ==> Get(st.prev, f.w, f.h, x, y) == DIRTY
  }

  /** Every row shows its shadow or is marked dirty; at most the one row `torn` does neither. */
  ghost predicate Coherent(f: Frame, st: State, torn: int) {
    && f.Fits(st) && PairsGood(st)
    && forall y :: 0 <= y < f.h && y != torn ==> RowDirty(f, st, y) || RowShown(f, st, st.prev, y)
  }

  lemma {:induction false} OtherRowsStay(f: Frame, st: State, y: int, n: nat)
    requires f.Fits(st) && n <= f.w && 0 <= y < f.h
    ensures forall x', y' :: 0 <= x' < f.w && 0 <= y' < f.h && y' != y ==>
      Get(DrawCells(f, st, y, n).cells, f.w, f.h, x', y') == Get(st.cells, f.w, f.h, x', y')
  {
    if n > 0 {
      OtherRowsStay(f, st, y, n - 1);
    }
  }

  /** The first n cells of row y are on the terminal. */
  ghost predicate CellsShown(f: Frame, r: State, y: int, n: nat)
    requires f.Fits(r) && n <= f.w && 0 <= y < f.h
  {
    forall x :: 0 <= x < n && !f.Corner(x, y) ==>
      CellShown(Get(f.screen, f.w, f.h, x, y), Get(r.cells, f.w, f.h, x, y), r)
  }

  lemma CellFacts(f: Frame, st: State, b: State, y: int, n: nat)
    requires f.Fits(b) && n < f.w && 0 <= y < f.h && PairsGood(b) && (Extends(st, b) || Evicted(st, b))
    requires Extends(st, b) ==> CellsShown(f, b, y, n)
    requires DrawCell(f, b, n, y).overruns == b.overruns
    ensures var r := DrawCell(f, b, n, y);
      PairsGood(r) && (Extends(st, r) || Evicted(st, r)) && (Extends(st, r) ==> CellsShown(f, r, y, n + 1))
  {
    AllocFacts(f, b, CellKey(f, n, y));
    KeyIsItsColors(Get(f.screen, f.w, f.h, n, y));
  }

  lemma {:induction false} DrawCellsFacts(f: Frame, st: State, y: int, n: nat)
    requires f.Fits(st) && n <= f.w && 0 <= y < f.h && PairsGood(st) && InRange(f, st, y, n)
    ensures var r := DrawCells(f, st, y, n);
      PairsGood(r) && (Extends(st, r) || Evicted(st, r)) && (Extends(st, r) ==> CellsShown(f, r, y, n))
  {
    if n > 0 {
      InRangeBefore(f, st, y, n - 1, n);
      DrawCellsFacts(f, st, y, n - 1);
      if !f.Corner(n - 1, y) {
        AskedEveryTime(f, st, y, n - 1);
        CellFacts(f, st, DrawCells(f, st, y, n - 1), y, n - 1);
      }
    }
  }

  /** One redrawn row keeps the picture coherent. If the pair table was evicted while it was being
      written, only this row may be torn; whether it is, RowShownIff says. */
  lemma DrawRowKeeps(f: Frame, st: State, y: int, torn: int)
    requires Coherent(f, st, torn) && 0 <= y < f.h && InRange(f, st, y, f.w)
    ensures var r := DrawRow(f, st, y);
      if r.evictions == st.evictions then
        && Coherent(f, r, if torn == y then -1 else torn)
        && RowShown(f, r, f.screen, y)
      else Coherent(f, r, y) && r.evictions > st.evictions
  {
    var d, r := DrawCells(f, st, y, f.w), DrawRow(f, st, y);
    DrawCellsFacts(f, st, y, f.w);
    OtherRowsStay(f, st, y, f.w);
    forall x', y' | 0 <= x' < f.w && 0 <= y' < f.h
      ensures Get(r.prev, f.w, f.h, x', y') == Get(if y' == y then f.screen else d.prev, f.w, f.h, x', y')
    {
      CopyRowGet(f.w, f.h, d.prev, f.screen, y, x', y');
    }
    if Extends(st, d) {
      forall y' | 0 <= y' < f.h && y' != torn && y' != y
        ensures RowDirty(f, r, y') || RowShown(f, r, r.prev, y')
      {
        if RowDirty(f, st, y') {
          assert RowDirty(f, r, y');
        } else {
          assert RowShown(f, r, r.prev, y');
        }
      }
    } else {
      forall x', y' | 0 <= x' < f.w && 0 <= y' < f.h && y' != y
        ensures Get(r.prev, f.w, f.h, x', y') == DIRTY
      {
        IdxInside(f.w, f.h, x', y');
      }
    }
  }

  /** If the ids did not overrun in the rows up to y, they did not before. */
  lemma InRangeAbove(f: Frame, st: State, y: nat)
    requires f.Fits(st) && y < f.h && DrawRows(f, st, y + 1).overruns == st.overruns
    ensures var b := DrawRows(f, st, y);
      b.overruns == st.overruns && (RowChanged(f, b.prev, y) ==> InRange(f, b, y, f.w))
  {
    var b := DrawRows(f, st, y);
    RowsCount(f, st, y);
    CellsCount(f, b, y, 0, f.w);
  }

  /** A row redrawn, if it has changed. */
  lemma RowKeeps(f: Frame, b: State, y: nat, torn: int) returns (torn': int)
    requires Coherent(f, b, torn) && y < f.h && RowChanged(f, b.prev, y) && InRange(f, b, y, f.w)
    ensures Coherent(f, DrawRow(f, b, y), torn') && b.evictions <= DrawRow(f, b, y).evictions
    ensures DrawRow(f, b, y).evictions == b.evictions ==> torn' == torn || torn' == -1
  {
    DrawRowKeeps(f, b, y, torn);
    torn' :=
      if DrawRow(f, b, y).evictions != b.evictions then y
      else if torn == y then -1
      else torn;
  }

  /** A whole flush keeps the picture coherent, whatever it evicts on the way. */
  lemma {:induction false} DrawRowsKeeps(f: Frame, st: State, n: nat, torn: int) returns (torn': int)
    requires Coherent(f, st, torn) && n <= f.h && DrawRows(f, st, n).overruns == st.overruns
    ensures Coherent(f, DrawRows(f, st, n), torn') && st.evictions <= DrawRows(f, st, n).evictions
    ensures DrawRows(f, st, n).evictions == st.evictions ==> torn' == torn || torn' == -1
  {
    torn' := torn;
    if n > 0 {
      InRangeAbove(f, st, n - 1);
      torn' := DrawRowsKeeps(f, st, n - 1, torn);
      var b := DrawRows(f, st, n - 1);
      if RowChanged(f, b.prev, n - 1) {
        torn' := RowKeeps(f, b, n - 1, torn');
      }
    }
  }

  /** No frame cell looks like the dirty marker, so a dirty row always counts as changed. */
  ghost predicate NoMarker(f: Frame) {
    forall i :: 0 <= i < |f.screen| ==> f.screen[i] != DIRTY
  }

  /** Rows up to n hold the frame, the later ones what `was` held. */
  ghost predicate ShadowUpTo(f: Frame, prev: seq<TCell>, was: seq<TCell>, n: nat)
    requires IsGrid(f.screen, f.w, f.h) && IsGrid(prev, f.w, f.h) && IsGrid(was, f.w, f.h)
  {
    forall x, y :: 0 <= x < f.w && 0 <= y < f.h ==>
      Get(prev, f.w, f.h, x, y) == Get(if y < n then f.screen else was, f.w, f.h, x, y)
  }

  ghost predicate ShownUpTo(f: Frame, st: State, n: nat)
    requires f.Fits(st) && n <= f.h
  {
    forall y :: 0 <= y < n ==> RowShown(f, st, f.screen, y)
  }

  /** The table was not evicted and its ids did not overrun. */
  predicate Kept(st: State, r: State) { r.evictions == st.evictions && r.overruns == st.overruns }

  lemma KeptAbove(f: Frame, st: State, y: nat)
    requires f.Fits(st) && y < f.h && Kept(st, DrawRows(f, st, y + 1))
    ensures var b := DrawRows(f, st, y); Kept(st, b) && (RowChanged(f, b.prev, y) ==> Kept(b, DrawRow(f, b, y)))
  {
    var b := DrawRows(f, st, y);
    RowsCount(f, st, y);
    CellsCount(f, b, y, 0, f.w);
  }

  /** The first n rows are on the terminal and in the shadow. */
  ghost predicate CompleteTo(f: Frame, st: State, r: State, n: nat)
    requires f.Fits(st) && f.Fits(r) && n <= f.h
  {
    Coherent(f, r, -1) && ShownUpTo(f, r, n) && ShadowUpTo(f, r.prev, st.prev, n)
  }

  lemma {:induction false} CornerNotDrawn(f: Frame, st: State, y: int, n: nat)
    requires f.Fits(st) && n <= f.w && f.w > 0 && 0 <= y < f.h
    ensures Get(DrawCells(f, st, y, n).cells, f.w, f.h, f.w - 1, f.h - 1) == Get(st.cells, f.w, f.h, f.w - 1, f.h - 1)
  {
    if n > 0 {
      CornerNotDrawn(f, st, y, n - 1);
    }
  }

  /** No flush ever writes the bottom-right cell. */
  lemma {:induction false} CornerStays(f: Frame, st: State, n: nat)
    requires f.Fits(st) && n <= f.h && f.w > 0 && f.h > 0
    ensures Get(DrawRows(f, st, n).cells, f.w, f.h, f.w - 1, f.h - 1) == Get(st.cells, f.w, f.h, f.w - 1, f.h - 1)
  {
    if n > 0 {
      CornerStays(f, st, n - 1);
      CornerNotDrawn(f, DrawRows(f, st, n - 1), n - 1, f.w);
    }
  }

  lemma {:induction false} DrawRowsComplete(f: Frame, st: State, n: nat)
    requires Coherent(f, st, -1) && n <= f.h && NoMarker(f)
    requires Kept(st, DrawRows(f, st, n))
    ensures CompleteTo(f, st, DrawRows(f, st, n), n)
  {
    if n > 0 {
      var b, y := DrawRows(f, st, n - 1), n - 1;
      KeptAbove(f, st, y);
      DrawRowsComplete(f, st, y);
      if RowChanged(f, b.prev, y) {
        RedrawnRow(f, st, b, y);
      } else {
        SkippedRow(f, st, b, y);
      }
    }
  }

  /** If the table is kept, redrawing row y leaves the rows already shown as they are. */
  lemma ShownRowsStay(f: Frame, st: State, y: int)
    requires f.Fits(st) && PairsGood(st) && 0 <= y < f.h
    requires Kept(st, DrawRow(f, st, y))
    ensures forall y' :: 0 <= y' < f.h && y' != y && RowShown(f, st, f.screen, y') ==>
      RowShown(f, DrawRow(f, st, y), f.screen, y')
  {
    DrawCellsFacts(f, st, y, f.w);
    OtherRowsStay(f, st, y, f.w);
  }

  lemma RedrawnRow(f: Frame, st: State, b: State, y: nat)
    requires f.Fits(st) && f.Fits(b) && y < f.h && CompleteTo(f, st, b, y)
    requires Kept(b, DrawRow(f, b, y))
    ensures CompleteTo(f, st, DrawRow(f, b, y), y + 1)
  {
    var r := DrawRow(f, b, y);
    DrawRowKeeps(f, b, y, -1);
    ShownRowsStay(f, b, y);
    DrawCellsFacts(f, b, y, f.w);
    forall x', y' | 0 <= x' < f.w && 0 <= y' < f.h
      ensures Get(r.prev, f.w, f.h, x', y') == Get(if y' == y then f.screen else b.prev, f.w, f.h, x', y')
    {
      CopyRowGet(f.w, f.h, b.prev, f.screen, y, x', y');
    }
  }

  /** A row equal to its shadow is not dirty, so the terminal already shows it. */
  lemma SkippedRow(f: Frame, st: State, b: State, y: nat)
    requires f.Fits(st) && f.Fits(b) && y < f.h && CompleteTo(f, st, b, y)
    requires NoMarker(f) && !RowChanged(f, b.prev, y)
    ensures CompleteTo(f, st, b, y + 1)
  {
    var same := forall x :: 0 <= x < f.w ==> Get(b.prev, f.w, f.h, x, y) == Get(f.screen, f.w, f.h, x, y);
    assert same;
    if f.w > 0 {
      IdxInside(f.w, f.h, 0, y);
      assert Get(b.prev, f.w, f.h, 0, y) != DIRTY;
      assert !RowDirty(f, b, y);
      assert RowShown(f, b, b.prev, y);
    }
  }

  /** The differential flush shows the whole frame: if the table is kept, every cell but the bottom-right
      one shows its glyph in its own colours, and the shadow is the frame itself. */
  lemma FlushShowsFrame(f: Frame, st: State)
    requires Coherent(f, st, -1) && NoMarker(f)
    requires Kept(st, DrawRows(f, st, f.h))
    ensures var r := DrawRows(f, st, f.h);
      && r.prev == f.screen
      && Coherent(f, r, -1)
      && forall y :: 0 <= y < f.h ==> RowShown(f, r, f.screen, y)
  {
    DrawRowsComplete(f, st, f.h);
    SameGrid(DrawRows(f, st, f.h).prev, f.screen, f.w, f.h);
  }

  // ---- when do the ids run out? ----

  function Cached(st: State): set<nat> {
    set k: nat | k < |st.cache| && st.cache[k] >= 0
  }

  /** The colour keys of the first n cells written in row y. */
  function RowKeys(f: Frame, y: int, n: nat): set<nat>
    requires IsGrid(f.screen, f.w, f.h) && n <= f.w && 0 <= y < f.h
  {
    if n == 0 then {}
    else if f.Corner(n - 1, y) then RowKeys(f, y, n - 1)
    else RowKeys(f, y, n - 1) + {CellKey(f, n - 1, y)}
  }

  /** The colour keys of the rows among the first n that differ from their shadow. */
  function ChangedKeys(f: Frame, prev: seq<TCell>, n: nat): set<nat>
    requires IsGrid(f.screen, f.w, f.h) && IsGrid(prev, f.w, f.h) && n <= f.h
  {
    if n == 0 then {}
    else ChangedKeys(f, prev, n - 1) + if RowChanged(f, prev, n - 1) then RowKeys(f, n - 1, f.w) else {}
  }

  /** The id at which the ids have run out: one below the number of pairs, or the first that does not
      fit 16 bits. */
  function Ceiling(limit: int): int { if limit <= IDS then limit - 1 else IDS }

  /** There are ids left for all the missing keys. */
  predicate Room(f: Frame, st: State, missing: set<nat>) {
    missing == {} || Used(st) + |missing| <= Ceiling(f.limit)
  }

  /** Drawing with `keys` kept the table exactly when there was room, and then just cached them. */
  predicate Budgeted(f: Frame, st: State, r: State, keys: set<nat>) {
    var missing := keys - Cached(st);
    && Counts(f, st, r)
    && (Kept(st, r) <==> Room(f, st, missing))
    && (Kept(st, r) ==> Cached(r) == Cached(st) + keys && Used(r) == Used(st) + |missing|)
  }

  lemma RoomShrinks(f: Frame, st: State, few: set<nat>, many: set<nat>)
    requires few <= many && Room(f, st, many)
    ensures Room(f, st, few)
  {
    assert |many| == |few| + |many - few| by { assert many == few + (many - few); }
  }

  /** Two budgeted drawings in a row. */
  lemma BudgetAdds(f: Frame, st: State, b: State, r: State, keys: set<nat>, more: set<nat>)
    requires Budgeted(f, st, b, keys) && Counts(f, b, r) && (Kept(st, b) ==> Budgeted(f, b, r, more))
    ensures Budgeted(f, st, r, keys + more)
  {
    var k, all, m := keys - Cached(st), keys + more - Cached(st), more - Cached(b);
    if Kept(st, b) {
      assert all == k + m && k !! m;
      assert |all| == |k| + |m|;
    } else if Room(f, st, all) {
      RoomShrinks(f, st, k, all);
    }
  }

  lemma BudgetNone(f: Frame, st: State)
    ensures Budgeted(f, st, st, {})
  {
  }

  lemma AllocBudget(f: Frame, st: State, key: nat)
    requires f.Fits(st) && key < KEYS && PairsGood(st)
    ensures Budgeted(f, st, Alloc(f, st, key), {key})
  {
    var r := Alloc(f, st, key);
    if key in Cached(st) {
      assert {key} - Cached(st) == {};
    } else {
      assert {key} - Cached(st) == {key};
      if Kept(st, r) {
        assert Cached(r) == Cached(st) + {key};
      }
    }
  }

  lemma CellBudget(f: Frame, b: State, y: int, x: nat)
    requires f.Fits(b) && x < f.w && 0 <= y < f.h && PairsGood(b)
    ensures Budgeted(f, b, DrawCell(f, b, x, y), {CellKey(f, x, y)})
  {
    var key := CellKey(f, x, y);
    AllocBudget(f, b, key);
    assert Cached(Alloc(f, b, key)) == Cached(DrawCell(f, b, x, y));
  }

  lemma {:induction false} DrawCellsBudget(f: Frame, st: State, y: int, n: nat)
    requires f.Fits(st) && n <= f.w && 0 <= y < f.h && PairsGood(st)
    ensures Budgeted(f, st, DrawCells(f, st, y, n), RowKeys(f, y, n))
  {
    if n == 0 {
      BudgetNone(f, st);
    } else {
      DrawCellsBudget(f, st, y, n - 1);
      if !f.Corner(n - 1, y) {
        NextBudget(f, st, y, n - 1);
        CellsCount(f, st, y, n - 1, n);
        BudgetAdds(f, st, DrawCells(f, st, y, n - 1), DrawCells(f, st, y, n), RowKeys(f, y, n - 1),
                   {CellKey(f, n - 1, y)});
      }
    }
  }

  lemma NextBudget(f: Frame, st: State, y: int, n: nat)
    requires f.Fits(st) && n < f.w && 0 <= y < f.h && !f.Corner(n, y) && PairsGood(st)
    ensures var b := DrawCells(f, st, y, n);
      Kept(st, b) ==> Budgeted(f, b, DrawCells(f, st, y, n + 1), {CellKey(f, n, y)})
  {
    if Kept(st, DrawCells(f, st, y, n)) {
      DrawCellsFacts(f, st, y, n);
      AskedEveryTime(f, st, y, n);
      CellBudget(f, DrawCells(f, st, y, n), y, n);
    }
  }

  lemma DrawRowBudget(f: Frame, st: State, y: int)
    requires f.Fits(st) && 0 <= y < f.h && PairsGood(st)
    ensures var r := DrawRow(f, st, y);
      && Budgeted(f, st, r, RowKeys(f, y, f.w))
      && (Kept(st, r) ==> PairsGood(r) && forall x', y' :: 0 <= x' < f.w && 0 <= y' < f.h && y' != y ==>
            Get(r.prev, f.w, f.h, x', y') == Get(st.prev, f.w, f.h, x', y'))
  {
    var d, r := DrawCells(f, st, y, f.w), DrawRow(f, st, y);
    DrawCellsBudget(f, st, y, f.w);
    assert Cached(r) == Cached(d);
    if Kept(st, r) {
      DrawCellsFacts(f, st, y, f.w);
      forall x', y' | 0 <= x' < f.w && 0 <= y' < f.h && y' != y
        ensures Get(r.prev, f.w, f.h, x', y') == Get(st.prev, f.w, f.h, x', y')
      {
        CopyRowGet(f.w, f.h, d.prev, f.screen, y, x', y');
      }
    }
  }

  ghost predicate SameBelow(f: Frame, p: seq<TCell>, q: seq<TCell>, n: nat)
    requires IsGrid(p, f.w, f.h) && IsGrid(q, f.w, f.h)
  {
    forall x, y :: 0 <= x < f.w && n <= y < f.h ==> Get(p, f.w, f.h, x, y) == Get(q, f.w, f.h, x, y)
  }

  /** What is known after the rows above y: what they cached, and that the rest of the shadow stays. */
  ghost predicate FlushedTo(f: Frame, st: State, r: State, keys: set<nat>, n: nat) {
    && f.Fits(st) && f.Fits(r)
    && Budgeted(f, st, r, keys)
    && (Kept(st, r) ==> PairsGood(r) && SameBelow(f, r.prev, st.prev, n))
  }

  lemma FlushedRow(f: Frame, st: State, b: State, keys: set<nat>, y: nat)
    requires FlushedTo(f, st, b, keys, y) && y < f.h && RowChanged(f, b.prev, y)
    ensures FlushedTo(f, st, DrawRow(f, b, y), keys + RowKeys(f, y, f.w), y + 1)
  {
    CellsCount(f, b, y, 0, f.w);
    if Kept(st, b) {
      DrawRowBudget(f, b, y);
    }
    BudgetAdds(f, st, b, DrawRow(f, b, y), keys, RowKeys(f, y, f.w));
  }

  lemma KeptOver(f: Frame, st: State, r: State, few: set<nat>, many: set<nat>, n: nat)
    requires FlushedTo(f, st, r, few, n) && !Kept(st, r) && few <= many
    ensures FlushedTo(f, st, r, many, n)
  {
    StaysOverBudget(f, st, r, r, few, many);
  }

  lemma {:induction false} FlushBudget(f: Frame, st: State, n: nat)
    requires f.Fits(st) && n <= f.h && PairsGood(st)
    ensures FlushedTo(f, st, DrawRows(f, st, n), ChangedKeys(f, st.prev, n), n)
  {
    if n == 0 {
      BudgetNone(f, st);
    } else {
      FlushBudget(f, st, n - 1);
      FlushedStep(f, st, DrawRows(f, st, n - 1), ChangedKeys(f, st.prev, n - 1), n - 1);
    }
  }

  /** The colour keys a flush has to find ids for. */
  function Missing(f: Frame, st: State): set<nat>
    requires f.Fits(st)
  {
    ChangedKeys(f, st.prev, f.h) - Cached(st)
  }

  /** The ids run out exactly when the colours of the changed rows that have no id yet are more than the
      ids left, a count the caller can make beforehand. With at most IDS pairs the table is evicted then
      and no id overruns; with more pairs it is never evicted and the ids overrun. */
  lemma RunsOutExactlyWhenNoRoom(f: Frame, st: State)
    requires f.Fits(st) && PairsGood(st)
    ensures var r := DrawRows(f, st, f.h);
      && (Kept(st, r) <==> Room(f, st, Missing(f, st)))
      && (f.limit <= IDS ==> r.overruns == st.overruns && (r.evictions > st.evictions <==> !Kept(st, r)))
      && (f.limit > IDS ==> r.evictions == st.evictions && (r.overruns > st.overruns <==> !Kept(st, r)))
  {
    FlushBudget(f, st, f.h);
  }

  lemma FlushedStep(f: Frame, st: State, b: State, keys: set<nat>, y: nat)
    requires FlushedTo(f, st, b, keys, y) && y < f.h
    ensures FlushedTo(f, st, if RowChanged(f, b.prev, y) then DrawRow(f, b, y) else b,
                      keys + if RowChanged(f, st.prev, y) then RowKeys(f, y, f.w) else {}, y + 1)
  {
    if Kept(st, b) {
      SameRowChanged(f, b.prev, st.prev, y);
    }
    if RowChanged(f, b.prev, y) {
      FlushedRow(f, st, b, keys, y);
      if !RowChanged(f, st.prev, y) {
        OverBudgetRow(f, st, b, keys, y);
      }
    } else {
      assert keys + {} == keys;
      assert FlushedTo(f, st, b, keys, y + 1);
      if RowChanged(f, st.prev, y) {
        KeptOver(f, st, b, keys, keys + RowKeys(f, y, f.w), y + 1);
      }
    }
  }

  /** Once the ids have run out, a row may be redrawn only because its shadow was wiped. */
  lemma OverBudgetRow(f: Frame, st: State, b: State, keys: set<nat>, y: nat)
    requires FlushedTo(f, st, b, keys, y) && y < f.h && !Kept(st, b)
    ensures FlushedTo(f, st, DrawRow(f, b, y), keys + {}, y + 1)
  {
    CellsCount(f, b, y, 0, f.w);
    StaysOverBudget(f, st, b, DrawRow(f, b, y), keys, keys + {});
  }

  lemma SameRowChanged(f: Frame, p: seq<TCell>, q: seq<TCell>, y: nat)
    requires IsGrid(f.screen, f.w, f.h) && IsGrid(p, f.w, f.h) && IsGrid(q, f.w, f.h) && y < f.h
    requires forall x :: 0 <= x < f.w ==> Get(p, f.w, f.h, x, y) == Get(q, f.w, f.h, x, y)
    ensures RowChanged(f, p, y) == RowChanged(f, q, y)
  {
  }

  lemma StaysOverBudget(f: Frame, st: State, b: State, r: State, few: set<nat>, many: set<nat>)
    requires Budgeted(f, st, b, few) && !Kept(st, b) && Counts(f, b, r) && few <= many
    ensures Budgeted(f, st, r, many)
  {
    if Room(f, st, many - Cached(st)) {
      RoomShrinks(f, st, few - Cached(st), many - Cached(st));
    }
  }

  // ---- what an eviction does to the picture ----

  /** Every id given out since the last eviction is in the table. */
  ghost predicate Tidy(st: State) { Used(st) == |Cached(st)| + 1 }

  lemma AllocTidy(f: Frame, st: State, key: nat)
    requires f.Fits(st) && key < KEYS && PairsGood(st) && Tidy(st) && Alloc(f, st, key).overruns == st.overruns
    ensures Tidy(Alloc(f, st, key))
  {
    var r := Alloc(f, st, key);
    if st.cache[key] < 0 {
      if r.evictions == st.evictions {
        assert Cached(r) == Cached(st) + {key};
      } else {
        assert Cached(r) == {key};
      }
    }
  }

  lemma CellTidy(f: Frame, b: State, y: int, x: nat)
    requires f.Fits(b) && x < f.w && 0 <= y < f.h && PairsGood(b) && Tidy(b)
    requires DrawCell(f, b, x, y).overruns == b.overruns
    ensures Tidy(DrawCell(f, b, x, y))
  {
    var key := CellKey(f, x, y);
    AllocTidy(f, b, key);
    assert Cached(Alloc(f, b, key)) == Cached(DrawCell(f, b, x, y));
  }

  lemma {:induction false} DrawCellsTidy(f: Frame, st: State, y: int, n: nat)
    requires f.Fits(st) && n <= f.w && 0 <= y < f.h && PairsGood(st) && Tidy(st) && InRange(f, st, y, n)
    ensures Tidy(DrawCells(f, st, y, n))
  {
    if n > 0 {
      InRangeBefore(f, st, y, n - 1, n);
      DrawCellsTidy(f, st, y, n - 1);
      DrawCellsFacts(f, st, y, n - 1);
      if !f.Corner(n - 1, y) {
        AskedEveryTime(f, st, y, n - 1);
        CellTidy(f, DrawCells(f, st, y, n - 1), y, n - 1);
      }
    }
  }

  lemma DrawRowTidy(f: Frame, st: State, y: int)
    requires f.Fits(st) && 0 <= y < f.h && PairsGood(st) && Tidy(st) && InRange(f, st, y, f.w)
    ensures PairsGood(DrawRow(f, st, y)) && Tidy(DrawRow(f, st, y))
  {
    DrawCellsTidy(f, st, y, f.w);
    DrawCellsFacts(f, st, y, f.w);
    assert Cached(DrawRow(f, st, y)) == Cached(DrawCells(f, st, y, f.w));
  }

  /** A flush leaves the table tidy, however often it evicts, as long as the ids do not overrun; with at
      most IDS pairs they never do. */
  lemma {:induction false} FlushTidy(f: Frame, st: State, n: nat)
    requires f.Fits(st) && n <= f.h && PairsGood(st) && Tidy(st)
    ensures var r := DrawRows(f, st, n);
      && (f.limit <= IDS ==> r.overruns == st.overruns)
      && (r.overruns == st.overruns ==> PairsGood(r) && Tidy(r))
  {
    RowsCount(f, st, n);
    if n > 0 && DrawRows(f, st, n).overruns == st.overruns {
      InRangeAbove(f, st, n - 1);
      FlushTidy(f, st, n - 1);
      var b := DrawRows(f, st, n - 1);
      if RowChanged(f, b.prev, n - 1) {
        DrawRowTidy(f, b, n - 1);
      }
    }
  }

  // In a tidy table every id in use belongs to a cached key.

  function Ids(st: State, keys: set<nat>): set<int>
    requires forall k :: k in keys ==> k < |st.cache|
  {
    set k | k in keys :: st.cache[k]
  }

  lemma {:induction false} IdsAreMany(st: State, keys: set<nat>)
    requires PairsGood(st) && keys <= Cached(st)
    ensures |Ids(st, keys)| == |keys|
    decreases |keys|
  {
    if keys != {} {
      var k :| k in keys;
      IdsAreMany(st, keys - {k});
      forall j | j in keys && j != k ensures st.cache[j] != st.cache[k] {
        PairIdsAreDistinct(st, j, k);
      }
      assert Ids(st, keys) == Ids(st, keys - {k}) + {st.cache[k]};
    }
  }

  /** The n numbers from `low` on. */
  function Numbers(low: int, n: nat): (s: set<int>)
    ensures |s| == n && forall p :: p in s <==> low <= p < low + n
  {
    if n == 0 then {} else Numbers(low, n - 1) + {low + n - 1}
  }

  lemma FullSubset(few: set<int>, many: set<int>)
    requires few <= many && |few| == |many|
    ensures few == many
  {
    assert many == few + (many - few);
    assert |many - few| == 0;
  }

  lemma IdInUse(st: State, pair: int) returns (key: nat)
    requires PairsGood(st) && Tidy(st) && 1 <= pair < Used(st)
    ensures key < KEYS && st.cache[key] == pair && st.pairs[pair] == KeyColors(key)
  {
    IdsAreMany(st, Cached(st));
    FullSubset(Ids(st, Cached(st)), Numbers(1, Used(st) - 1));
    assert pair in Ids(st, Cached(st));
    key :| key in Cached(st) && st.cache[key] == pair;
  }

  /** In a tidy table an id means the colours of c exactly if it is the cached id of c. */
  lemma OwnId(st: State, c: TCell, pair: int)
    requires PairsGood(st) && Tidy(st)
    ensures PairIs(st, pair, Colors(c.fg, c.bg)) <==> pair >= 1 && pair == st.cache[Key(c)]
  {
    KeyIsItsColors(c);
    if 1 <= pair < Used(st) {
      var key := IdInUse(st, pair);
      assert KeyColors(key) == KeyColors(Key(c)) ==> key == Key(c);
    }
  }

  /** The first n cells of a row, from the e-th on drawn without an eviction. */
  ghost predicate RightSince(f: Frame, d: State, r: State, y: int, e: nat, n: nat)
    requires f.Fits(r) && n <= f.w && 0 <= y < f.h
  {
    && PairsGood(r) && Extends(d, r)
    && forall x :: e <= x < n && !f.Corner(x, y) ==>
         CellShown(Get(f.screen, f.w, f.h, x, y), Get(r.cells, f.w, f.h, x, y), r)
  }

  lemma OneMoreRight(f: Frame, d: State, b: State, y: int, e: nat, n: nat)
    requires f.Fits(b) && e <= n < f.w && 0 <= y < f.h && !f.Corner(n, y) && RightSince(f, d, b, y, e, n)
    requires Kept(b, DrawCell(f, b, n, y))
    ensures RightSince(f, d, DrawCell(f, b, n, y), y, e, n + 1)
  {
    var c := Get(f.screen, f.w, f.h, n, y);
    AllocFacts(f, b, Key(c));
    KeyIsItsColors(c);
  }

  lemma {:induction false} SinceThen(f: Frame, st: State, y: int, e: nat, n: nat)
    requires f.Fits(st) && PairsGood(st) && e <= n <= f.w && 0 <= y < f.h
    requires InRange(f, st, y, n) && DrawCells(f, st, y, n).evictions == DrawCells(f, st, y, e).evictions
    ensures RightSince(f, DrawCells(f, st, y, e), DrawCells(f, st, y, n), y, e, n)
    decreases n - e
  {
    InRangeBefore(f, st, y, e, n);
    if e < n {
      InRangeBefore(f, st, y, n - 1, n);
      CellsCount(f, st, y, e, n - 1);
      CellsCount(f, st, y, n - 1, n);
      SinceThen(f, st, y, e, n - 1);
      if !f.Corner(n - 1, y) {
        AskedEveryTime(f, st, y, n - 1);
        OneMoreRight(f, DrawCells(f, st, y, e), DrawCells(f, st, y, n - 1), y, e, n - 1);
      }
    } else {
      DrawCellsFacts(f, st, y, n);
    }
  }

  /** When a row is shown: let e be any point of the row after its last eviction. The row is shown if and
      only if no id overran and every cell written before e carries the id its own colours have in the
      table afterwards; the cells written since are always right. With e = 0 nothing was evicted. */
  lemma RowShownIff(f: Frame, st: State, y: int, e: nat)
    requires f.Fits(st) && PairsGood(st) && Tidy(st) && 0 <= y < f.h && e <= f.w
    requires DrawCells(f, st, y, e).evictions == DrawRow(f, st, y).evictions
    ensures var r := DrawRow(f, st, y);
      RowShown(f, r, f.screen, y) <==>
        && r.overruns == st.overruns
        && forall x :: 0 <= x < e && !f.Corner(x, y) ==>
             Get(r.cells, f.w, f.h, x, y).pair == r.cache[CellKey(f, x, y)]
  {
    if InRange(f, st, y, f.w) {
      CarriedIds(f, st, y, e);
    } else {
      CellsCount(f, st, y, 0, f.w);
      var x := OverrunShows(f, st, y, f.w);
    }
  }

  lemma CarriedIds(f: Frame, st: State, y: int, e: nat)
    requires f.Fits(st) && PairsGood(st) && Tidy(st) && 0 <= y < f.h && e <= f.w && InRange(f, st, y, f.w)
    requires DrawCells(f, st, y, e).evictions == DrawRow(f, st, y).evictions
    ensures var r := DrawRow(f, st, y);
      RowShown(f, r, f.screen, y) <==> forall x :: 0 <= x < e && !f.Corner(x, y) ==>
        Get(r.cells, f.w, f.h, x, y).pair == r.cache[CellKey(f, x, y)]
  {
    var d, r := DrawCells(f, st, y, f.w), DrawRow(f, st, y);
    SinceThen(f, st, y, e, f.w);
    forall x | 0 <= x < e && !f.Corner(x, y)
      ensures CellShown(Get(f.screen, f.w, f.h, x, y), Get(r.cells, f.w, f.h, x, y), r) <==>
        Get(r.cells, f.w, f.h, x, y).pair == r.cache[CellKey(f, x, y)]
    {
      CellShownIff(f, st, y, x, f.w);
    }
  }

  /** A cell drawn with an overrun keeps an id that names no pair. */
  lemma {:induction false} OverrunShows(f: Frame, st: State, y: int, n: nat) returns (x: int)
    requires f.Fits(st) && n <= f.w && 0 <= y < f.h && DrawCells(f, st, y, n).overruns > st.overruns
    ensures 0 <= x < n && !f.Corner(x, y) && Get(DrawCells(f, st, y, n).cells, f.w, f.h, x, y).pair < 1
  {
    if DrawCells(f, st, y, n - 1).overruns > st.overruns {
      x := OverrunShows(f, st, y, n - 1);
    } else {
      x := n - 1;
    }
  }

  /** And nothing drawn later in the flush repairs it. */
  lemma {:induction false} OverrunStays(f: Frame, st: State, n: nat) returns (x: int, y: int)
    requires f.Fits(st) && n <= f.h && DrawRows(f, st, n).overruns > st.overruns
    ensures 0 <= x < f.w && 0 <= y < n && !f.Corner(x, y)
    ensures Get(DrawRows(f, st, n).cells, f.w, f.h, x, y).pair < 1
  {
    var b := DrawRows(f, st, n - 1);
    if b.overruns > st.overruns {
      x, y := OverrunStays(f, st, n - 1);
      OtherRowsStay(f, b, n - 1, f.w);
    } else {
      RowsCount(f, st, n - 1);
      y := n - 1;
      x := OverrunShows(f, b, y, f.w);
    }
  }

  ghost predicate Written(c: TCell, t: TermCell) { t.ch == Glyph(c.ch) && t.pair >= 1 }

  lemma WrittenNow(f: Frame, b: State, y: int, x: nat)
    requires f.Fits(b) && PairsGood(b) && x < f.w && 0 <= y < f.h
    requires DrawCell(f, b, x, y).overruns == b.overruns
    ensures Written(Get(f.screen, f.w, f.h, x, y), Get(DrawCell(f, b, x, y).cells, f.w, f.h, x, y))
  {
    AllocFacts(f, b, CellKey(f, x, y));
  }

  /** A cell once written keeps its glyph and a positive id. */
  lemma {:induction false} CellStays(f: Frame, st: State, y: int, x: nat, n: nat)
    requires f.Fits(st) && PairsGood(st) && x < n <= f.w && 0 <= y < f.h && !f.Corner(x, y) && InRange(f, st, y, n)
    ensures Written(Get(f.screen, f.w, f.h, x, y), Get(DrawCells(f, st, y, n).cells, f.w, f.h, x, y))
  {
    InRangeBefore(f, st, y, n - 1, n);
    if n - 1 == x {
      DrawCellsFacts(f, st, y, x);
      AskedEveryTime(f, st, y, x);
      WrittenNow(f, DrawCells(f, st, y, x), y, x);
    } else {
      CellStays(f, st, y, x, n - 1);
    }
  }

  lemma CellShownIff(f: Frame, st: State, y: int, x: nat, n: nat)
    requires f.Fits(st) && PairsGood(st) && Tidy(st) && x < n <= f.w && 0 <= y < f.h && !f.Corner(x, y)
    requires InRange(f, st, y, n)
    ensures var r := DrawCells(f, st, y, n);
      var c, t := Get(f.screen, f.w, f.h, x, y), Get(r.cells, f.w, f.h, x, y);
      CellShown(c, t, r) <==> t.pair == r.cache[Key(c)]
  {
    var r := DrawCells(f, st, y, n);
    CellStays(f, st, y, x, n);
    DrawCellsFacts(f, st, y, n);
    DrawCellsTidy(f, st, y, n);
    OwnId(r, Get(f.screen, f.w, f.h, x, y), Get(r.cells, f.w, f.h, x, y).pair);
  }

  // ---- how many pairs are enough ----

  /** The flush showed the whole frame. */
  ghost predicate Flushed(f: Frame, st: State)
    requires f.Fits(st)
  {
    var r := DrawRows(f, st, f.h);
    r.prev == f.screen && forall y :: 0 <= y < f.h ==> RowShown(f, r, f.screen, y)
  }

  /** What a caller can check before a flush: with room for the missing colours it shows the frame. With
      more pairs than IDS it does so only then. */
  lemma FlushedIfRoom(f: Frame, st: State)
    requires Coherent(f, st, -1) && NoMarker(f)
    ensures Room(f, st, Missing(f, st)) ==> Flushed(f, st)
    ensures f.limit > IDS ==> (Flushed(f, st) <==> Room(f, st, Missing(f, st)))
  {
    RunsOutExactlyWhenNoRoom(f, st);
    var r := DrawRows(f, st, f.h);
    if Kept(st, r) {
      FlushShowsFrame(f, st);
    } else if f.limit > IDS {
      var x, y := OverrunStays(f, st, f.h);
      assert !CellShown(Get(f.screen, f.w, f.h, x, y), Get(r.cells, f.w, f.h, x, y), r);
      assert !RowShown(f, r, f.screen, y);
    }
  }

  /** A cell of the k-th colour pair. */
  function Tinted(k: nat): TCell
    requires k < KEYS
  {
    TCell('x' as int, k % 256, k / 256)
  }

  /** How many ids there are before they run out. */
  function Capacity(limit: int): (c: nat)
    ensures 1 <= c < IDS
  {
    if limit <= 3 then 1 else Ceiling(limit) - 1
  }

  /** One row of one colour more than there are ids; its last cell is the corner, which is never written. */
  function TornFrame(limit: int): Frame {
    var c := Capacity(limit);
    Frame(c + 2, 1, seq(c + 2, x requires 0 <= x < c + 2 => Tinted(if x <= c then x else 0)), limit)
  }

  /** What a renderer starts with. */
  function Fresh(f: Frame): State {
    State(seq(KEYS, _ => -1), 1, seq(f.w * f.h, _ => DIRTY), map[], seq(f.w * f.h, _ => TermCell(' ', 0)), 0, 0)
  }

  lemma FreshIsCoherent(f: Frame)
    requires IsGrid(f.screen, f.w, f.h)
    ensures Coherent(f, Fresh(f), -1) && Tidy(Fresh(f))
  {
    var st := Fresh(f);
    assert Cached(st) == {};
    forall x, y | 0 <= x < f.w && 0 <= y < f.h ensures Get(st.prev, f.w, f.h, x, y) == DIRTY {
      IdxInside(f.w, f.h, x, y);
    }
  }

  lemma TintedKey(k: nat)
    requires k < KEYS
    ensures Key(Tinted(k)) == k && Tinted(k) != DIRTY
  {
  }

  lemma TornCell(limit: int, x: nat)
    requires x <= Capacity(limit)
    ensures var f := TornFrame(limit);
      && !f.Corner(x, 0) && Get(f.screen, f.w, f.h, x, 0) == Tinted(x)
      && CellKey(f, x, 0) == x && !Continues(f, x, 0)
  {
    TintedKey(x);
    if x > 0 {
      TintedKey(x - 1);
    }
  }

  /** The table while the row fills it: the first n colours have an id. */
  ghost predicate Filled(f: Frame, st: State, n: nat) {
    && f.Fits(st) && Used(st) == n + 1 && st.overruns == 0
    && forall k :: 0 <= k < KEYS ==> (st.cache[k] >= 0 <==> k < n)
  }

  lemma FirstCell(limit: int)
    ensures var f := TornFrame(limit); var b := DrawCells(f, Fresh(f), 0, 1);
      Filled(f, b, 1) && Get(b.cells, f.w, f.h, 0, 0).pair == 1
  {
    var f := TornFrame(limit);
    FreshIsCoherent(f);
    TornCell(limit, 0);
    assert DrawCells(f, Fresh(f), 0, 0) == Fresh(f);
  }

  lemma FillCell(f: Frame, b: State, x: nat)
    requires 1 <= x < f.w && f.h == 1 && Filled(f, b, x) && CellKey(f, x, 0) == x && x + 1 < Ceiling(f.limit)
    ensures Filled(f, DrawCell(f, b, x, 0), x + 1)
    ensures Get(DrawCell(f, b, x, 0).cells, f.w, f.h, 0, 0) == Get(b.cells, f.w, f.h, 0, 0)
  {
  }

  lemma {:induction false} FillingRow(limit: int, n: nat)
    requires 1 <= n <= Capacity(limit)
    ensures var f := TornFrame(limit); var b := DrawCells(f, Fresh(f), 0, n);
      Filled(f, b, n) && Get(b.cells, f.w, f.h, 0, 0).pair == 1
  {
    if n == 1 {
      FirstCell(limit);
    } else {
      FillingRow(limit, n - 1);
      TornCell(limit, n - 1);
      FillCell(TornFrame(limit), DrawCells(TornFrame(limit), Fresh(TornFrame(limit)), 0, n - 1), n - 1);
    }
  }

  /** The next cell evicts the table and takes the first cell's id, or overruns. */
  lemma OneTooMany(limit: int)
    ensures var f := TornFrame(limit); var b := DrawCells(f, Fresh(f), 0, Capacity(limit) + 1);
      if limit <= IDS then
        && b.next == 2 && 1 in b.pairs && b.pairs[1] == KeyColors(Capacity(limit))
        && b.evictions > 0 && Get(b.cells, f.w, f.h, 0, 0).pair == 1
      else b.overruns > 0
  {
    var c := Capacity(limit);
    FillingRow(limit, c);
    TornCell(limit, c);
  }

  lemma OneRow(f: Frame, st: State)
    requires f.h == 1 && Coherent(f, st, -1) && RowChanged(f, st.prev, 0) && f.w > 0
    ensures DrawRows(f, st, 1) == DrawRow(f, st, 0) && DrawRow(f, st, 0).prev == f.screen
  {
    assert DrawRows(f, st, 0) == st;
    var d, r := DrawCells(f, st, 0, f.w), DrawRow(f, st, 0);
    forall x, y | 0 <= x < f.w && 0 <= y < f.h
      ensures Get(r.prev, f.w, f.h, x, y) == Get(f.screen, f.w, f.h, x, y)
    {
      CopyRowGet(f.w, f.h, d.prev, f.screen, 0, x, y);
    }
    SameGrid(r.prev, f.screen, f.w, f.h);
  }

  lemma TornStart(limit: int)
    ensures var f := TornFrame(limit);
      Coherent(f, Fresh(f), -1) && Tidy(Fresh(f)) && NoMarker(f) && RowChanged(f, Fresh(f).prev, 0)
  {
    var f := TornFrame(limit);
    FreshIsCoherent(f);
    TornCell(limit, 0);
    forall i | 0 <= i < |f.screen| ensures f.screen[i] != DIRTY {
      TintedKey(if i <= Capacity(limit) then i else 0);
    }
    assert Get(f.screen, f.w, f.h, 0, 0) != Get(Fresh(f).prev, f.w, f.h, 0, 0);
  }

  lemma TornRow(limit: int)
    ensures var f := TornFrame(limit);
      DrawRows(f, Fresh(f), 1) == DrawRow(f, Fresh(f), 0) && DrawRow(f, Fresh(f), 0).prev == f.screen
    ensures var f := TornFrame(limit);
      DrawCells(f, Fresh(f), 0, f.w) == DrawCells(f, Fresh(f), 0, Capacity(limit) + 1)
  {
    var f := TornFrame(limit);
    TornStart(limit);
    OneRow(f, Fresh(f));
  }

  /** The code's gap: a row being written when the table is evicted is marked clean although its first
      cell keeps an id that now means the last cell's colours, and flushing the frame again does not
      repair it. On every terminal with at most IDS pairs some frame shows it. */
  lemma EvictionTearsRow(limit: int) returns (f: Frame, st: State)
    requires limit <= IDS
    ensures f.limit == limit && st == Fresh(f) && f.w > 1 && f.h == 1
    ensures Coherent(f, st, -1) && Tidy(st) && NoMarker(f)
    ensures var r := DrawRows(f, st, f.h);
      var c, t := Get(f.screen, f.w, f.h, 0, 0), Get(r.cells, f.w, f.h, 0, 0);
      && r.prev == f.screen && r.evictions > st.evictions
      && 1 <= t.pair < r.next && t.pair in r.pairs && r.pairs[t.pair] != Colors(c.fg, c.bg)
      && DrawRows(f, r, f.h) == r
  {
    f := TornFrame(limit);
    st := Fresh(f);
    TornStart(limit);
    TornRow(limit);
    OneTooMany(limit);
    TornCell(limit, 0);
    var r := DrawRows(f, st, 1);
    assert !RowChanged(f, r.prev, 0);
    assert DrawRows(f, r, 0) == r;
  }

  /** No number of pairs is enough: on every terminal some frame is not shown by its very first flush,
      because its row is torn by an eviction or a cell of it overruns the ids. */
  lemma SomeFrameIsNotShown(limit: int) returns (f: Frame, st: State)
    ensures f.limit == limit && st == Fresh(f)
    ensures Coherent(f, st, -1) && Tidy(st) && NoMarker(f) && !Flushed(f, st)
  {
    if limit <= IDS {
      f, st := EvictionTearsRow(limit);
      var r := DrawRows(f, st, f.h);
      assert !CellShown(Get(f.screen, f.w, f.h, 0, 0), Get(r.cells, f.w, f.h, 0, 0), r);
      assert !RowShown(f, r, f.screen, 0);
    } else {
      f := TornFrame(limit);
      st := Fresh(f);
      TornStart(limit);
      TornRow(limit);
      OneTooMany(limit);
      RunsOutExactlyWhenNoRoom(f, st);
      FlushedIfRoom(f, st);
    }
  }
}
