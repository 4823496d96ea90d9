/** Square grids of modules, row by row. */
module Grids {

  type Grid = seq<seq<bool>>

  /** A module: x is its column, y its row */
  datatype Cell = Cell(x: int, y: int)

  ghost predicate Square(g: Grid, size: int) {
    |g| == size && forall y :: 0 <= y < size ==> |g[y]| == size
  }

  predicate InGrid(c: Cell, size: int) {
    0 <= c.x < size && 0 <= c.y < size
  }

  function At(g: Grid, c: Cell): bool
    requires 0 <= c.y < |g| && 0 <= c.x < |g[c.y]|
  {
    g[c.y][c.x]
  }

  function Put(g: Grid, c: Cell, b: bool): Grid
    requires 0 <= c.y < |g| && 0 <= c.x < |g[c.y]|
  {
    g[c.y := g[c.y][c.x := b]]
  }

  lemma PutAt(g: Grid, c: Cell, b: bool, size: int)
    requires Square(g, size) && InGrid(c, size)
    ensures Square(Put(g, c, b), size)
    ensures forall d :: InGrid(d, size) ==> At(Put(g, c, b), d) == if d == c then b else At(g, d)
  {
  }

  /** Grids that agree everywhere are equal. */
  lemma SameGrid(g: Grid, h: Grid, size: int)
    requires Square(g, size) && Square(h, size)
    requires forall c :: InGrid(c, size) ==> At(g, c) == At(h, c)
    ensures g == h
  {
    forall y | 0 <= y < size
      ensures g[y] == h[y]
    {
      forall x | 0 <= x < size
        ensures g[y][x] == h[y][x]
      {
        assert At(g, Cell(x, y)) == At(h, Cell(x, y));
      }
    }
  }

  // ---------- Counting modules ----------

  ghost function Rect(x0: int, y0: int, w: int, h: int): (r: set<Cell>)
    ensures forall c :: c in r <==> x0 <= c.x < x0 + w && y0 <= c.y < y0 + h
  {
    set x, y | x0 <= x < x0 + w && y0 <= y < y0 + h :: Cell(x, y)
  }

  lemma {:induction false} RectLine(x0: int, y0: int, w: nat)
    ensures |Rect(x0, y0, w, 1)| == w
  {
    if w == 0 {
      assert Rect(x0, y0, 0, 1) == {};
    } else {
      RectLine(x0, y0, w - 1);
      assert Rect(x0, y0, w, 1) == Rect(x0, y0, w - 1, 1) + {Cell(x0 + w - 1, y0)};
    }
  }

  lemma {:induction false} RectSize(x0: int, y0: int, w: nat, h: nat)
    ensures |Rect(x0, y0, w, h)| == w * h
  {
    if h == 0 {
      assert Rect(x0, y0, w, 0) == {};
    } else {
      RectSize(x0, y0, w, h - 1);
      RectLine(x0, y0 + h - 1, w);
      RectRows(x0, y0, w, h);
      hide Rect;
      Distributive(w, h);
    }
  }

  lemma RectRows(x0: int, y0: int, w: nat, h: nat)
    requires h > 0
    ensures |Rect(x0, y0, w, h)| == |Rect(x0, y0, w, h - 1)| + |Rect(x0, y0 + h - 1, w, 1)|
  {
    var a, b := Rect(x0, y0, w, h - 1), Rect(x0, y0 + h - 1, w, 1);
    assert Rect(x0, y0, w, h) == a + b;
    DisjointSize(a, b);
  }

  lemma DisjointSize<T>(a: set<T>, b: set<T>)
    requires a !! b
    ensures |a + b| == |a| + |b|
  {
  }

  lemma Distributive(w: int, h: int)
    ensures w * h == w * (h - 1) + w
  {
  }

  lemma SubsetSize<T>(a: set<T>, b: set<T>)
    requires a <= b
    ensures |a| <= |b|
  {
    assert b == a + (b - a);
  }
}
