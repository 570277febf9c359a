/** Row-major grids stored in one flat sequence, as the renderer and the terminal keep them. */
module Grid {
  import opened Arith

  ghost predicate IsGrid<T>(s: seq<T>, w: nat, h: nat) { |s| == w * h }

  function Idx(w: nat, x: int, y: int): int { y * w + x }

  lemma IdxInside(w: nat, h: nat, x: int, y: int)
    requires 0 <= x < w && 0 <= y < h
    ensures 0 <= Idx(w, x, y) < w * h
  {
    MulGap(y, h, w);
    if 0 < y {
      MulGap(0, y, w);
    }
  }

  lemma IdxUnique(w: nat, x: int, y: int, x': int, y': int)
    requires 0 <= x < w && 0 <= x' < w && Idx(w, x, y) == Idx(w, x', y')
    ensures x == x' && y == y'
  {
    if y < y' {
      MulGap(y, y', w);
    } else if y' < y {
      MulGap(y', y, w);
    }
  }

  function Get<T>(s: seq<T>, w: nat, h: nat, x: int, y: int): T
    requires IsGrid(s, w, h) && 0 <= x < w && 0 <= y < h
  {
    IdxInside(w, h, x, y);
    s[Idx(w, x, y)]
  }

  function Set<T>(s: seq<T>, w: nat, h: nat, x: int, y: int, v: T): (r: seq<T>)
    requires IsGrid(s, w, h) && 0 <= x < w && 0 <= y < h
    ensures IsGrid(r, w, h)
    ensures Get(r, w, h, x, y) == v
    ensures forall x', y' :: 0 <= x' < w && 0 <= y' < h && (x' != x || y' != y) ==>
      Get(r, w, h, x', y') == Get(s, w, h, x', y')
  {
    IdxInside(w, h, x, y);
    SetFrame(s, w, h, x, y, v);
    s[Idx(w, x, y) := v]
  }

  lemma SetFrame<T>(s: seq<T>, w: nat, h: nat, x: int, y: int, v: T)
    requires IsGrid(s, w, h) && 0 <= x < w && 0 <= y < h
    requires 0 <= Idx(w, x, y) < w * h
    ensures forall x', y' :: 0 <= x' < w && 0 <= y' < h && (x' != x || y' != y) ==>
      Get(s[Idx(w, x, y) := v], w, h, x', y') == Get(s, w, h, x', y')
  {
    forall x', y' | 0 <= x' < w && 0 <= y' < h && (x' != x || y' != y)
      ensures Get(s[Idx(w, x, y) := v], w, h, x', y') == Get(s, w, h, x', y')
    {
      IdxInside(w, h, x', y');
      if Idx(w, x, y) == Idx(w, x', y') {
        IdxUnique(w, x, y, x', y');
      }
    }
  }

  /** memcpy of n elements at offset b. */
  function CopyAt<T>(to: seq<T>, from: seq<T>, b: int, n: nat): (r: seq<T>)
    requires |to| == |from| && 0 <= b && b + n <= |to|
    ensures |r| == |to|
    ensures forall j :: 0 <= j < |r| ==> r[j] == if b <= j < b + n then from[j] else to[j]
  {
    to[..b] + from[b..b + n] + to[b + n..]
  }

  /** Row y of `to` replaced by row y of `from`. */
  function CopyRow<T>(w: nat, h: nat, to: seq<T>, from: seq<T>, y: int): (r: seq<T>)
    requires IsGrid(to, w, h) && IsGrid(from, w, h) && 0 <= y < h
    ensures IsGrid(r, w, h)
  {
    RowInside(w, h, y);
    CopyAt(to, from, y * w, w)
  }

  lemma RowInside(w: nat, h: nat, y: int)
    requires 0 <= y < h
    ensures 0 <= y * w && y * w + w <= w * h
  {
    MulGap(y, h, w);
  }

  lemma CopyRowGet<T>(w: nat, h: nat, to: seq<T>, from: seq<T>, y: int, x': int, y': int)
    requires IsGrid(to, w, h) && IsGrid(from, w, h) && 0 <= y < h && 0 <= x' < w && 0 <= y' < h
    ensures Get(CopyRow(w, h, to, from, y), w, h, x', y')
      == Get(if y' == y then from else to, w, h, x', y')
  {
    IdxInside(w, h, x', y');
    RowInside(w, h, y);
    var b, j := y * w, Idx(w, x', y');
    assert b <= j < b + w <==> y' == y by {
      if y < y' {
        MulGap(y, y', w);
      } else if y' < y {
        MulGap(y', y, w);
      }
    }
  }

  lemma SameGrid<T>(s: seq<T>, t: seq<T>, w: nat, h: nat)
    requires IsGrid(s, w, h) && IsGrid(t, w, h)
    requires forall x, y :: 0 <= x < w && 0 <= y < h ==> Get(s, w, h, x, y) == Get(t, w, h, x, y)
    ensures s == t
  {
    forall i | 0 <= i < |s| ensures s[i] == t[i] {
      var x, y := i % w, i / w;
      assert i == Idx(w, x, y);
      if h < y {
        MulGap(h, y, w);
      }
      assert Get(s, w, h, x, y) == Get(t, w, h, x, y);
    }
  }
}
