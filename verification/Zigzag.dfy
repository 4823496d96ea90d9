/** The zigzag scan that places the codewords: pairs of columns from right to left, alternately
    upwards and downwards, around the vertical timing column 6.
    Source: web/src/lib/qrcode.js, lines 397-423. */
module Zigzag {
  import opened BitStream
  import opened Grids

  type Path = seq<Cell>

  predicate Upwards(right: int, x: int)
    requires right >= 0
  {
    (right / 2 % 2 == 0) != (x < 6)
  }

  /** The module visited at vertical counter `vert` in the column pair at `right` */
  function Visit(size: int, right: int, vert: int, j: int): Cell
    requires right >= 1
  {
    var x := right - j;
    Cell(x, if Upwards(right, x) then size - 1 - vert else vert)
  }

  ghost function Pair(size: int, right: int, vert: int): Path
    requires right >= 1 && 0 <= vert <= size
    decreases size - vert
  {
    if vert == size then []
    else [Visit(size, right, vert, 0), Visit(size, right, vert, 1)] + Pair(size, right, vert + 1)
  }

  /** Column 6 is passed over. */
  function Skip6(right: int): int {
    if right == 6 then 5 else right
  }

  ghost function Scan(size: int, right: int): Path
    requires size >= 0
    decreases right
  {
    if right < 1 then [] else Pair(size, Skip6(right), 0) + Scan(size, Skip6(right) - 2)
  }

  // ---------- Every module outside column 6 is visited exactly once ----------

  ghost predicate NoRepeats(p: Path) {
    forall i, j :: 0 <= i < j < |p| ==> p[i] != p[j]
  }

  /** Both columns of a pair lie on the same side of column 6, so they run in the same direction. */
  predicate PairStart(right: int) {
    right >= 1 && right != 6
  }

  lemma {:induction false} PairCells(size: int, right: int, vert: int)
    requires PairStart(right) && 0 <= vert <= size
    ensures forall c :: c in Pair(size, right, vert) <==>
      (c.x == right || c.x == right - 1) && 0 <= c.y < size
        && (if Upwards(right, c.x) then c.y <= size - 1 - vert else vert <= c.y)
    ensures NoRepeats(Pair(size, right, vert))
    decreases size - vert
  {
    if vert < size {
      PairCells(size, right, vert + 1);
      var a, b, rest := Visit(size, right, vert, 0), Visit(size, right, vert, 1), Pair(size, right, vert + 1);
      assert Pair(size, right, vert) == [a, b] + rest;
      assert a !in rest && b !in rest && a != b;
      forall c
        ensures c in Pair(size, right, vert) <==> c == a || c == b || c in rest
      {
      }
    }
  }

  lemma {:induction false} ScanCells(size: int, right: int)
    requires size >= 0 && right >= -1
    requires right % 2 == (if right >= 6 then 0 else 1)
    ensures forall c :: c in Scan(size, right) <==> 0 <= c.x <= right && c.x != 6 && 0 <= c.y < size
    ensures NoRepeats(Scan(size, right))
    decreases right
  {
    if right >= 1 {
      var r := Skip6(right);
      PairCells(size, r, 0);
      ScanCells(size, r - 2);
      var p, rest := Pair(size, r, 0), Scan(size, r - 2);
      assert Scan(size, right) == p + rest;
      forall c
        ensures c in Scan(size, right) <==> c in p || c in rest
      {
      }
    }
  }

  /** The whole scan of a grid of odd size: each module outside column 6 exactly once. */
  lemma ScanIsBijection(size: int)
    requires size >= 9 && size % 2 == 1
    ensures forall c :: c in Scan(size, size - 1) <==> InGrid(c, size) && c.x != 6
    ensures NoRepeats(Scan(size, size - 1))
  {
    hide Scan, NoRepeats;
    ScanCells(size, size - 1);
  }

  // ---------- The scan is a path without jumps ----------

  /** To a module beside it or diagonally next to it, or across column 6 within the row */
  predicate Near(a: Cell, b: Cell) {
    (-1 <= b.x - a.x <= 1 && -1 <= b.y - a.y <= 1) || (a.x == 7 && b.x == 5 && a.y == b.y)
  }

  ghost predicate Smooth(p: Path) {
    forall k :: 0 <= k < |p| - 1 ==> Near(p[k], p[k + 1])
  }

  /** A path of two modules side by side, the right one first, and so on */
  ghost predicate InTwos(p: Path) {
    |p| % 2 == 0 && forall k :: 0 <= k < |p| - 1 ==> TwoAt(p, k)
  }

  predicate TwoAt(p: Path, k: int)
    requires 0 <= k < |p| - 1
  {
    k % 2 == 0 ==> p[k + 1] == Cell(p[k].x - 1, p[k].y)
  }

  lemma TwoInJoin(p: Path, q: Path, k: int)
    requires |p| % 2 == 0 && 0 <= k < |p + q| - 1
    requires k < |p| - 1 ==> TwoAt(p, k)
    requires k >= |p| ==> TwoAt(q, k - |p|)
    ensures TwoAt(p + q, k)
  {
  }

  lemma TwosJoined(p: Path, q: Path)
    requires InTwos(p) && InTwos(q)
    ensures InTwos(p + q)
  {
    hide TwoAt;
    forall k | 0 <= k < |p + q| - 1
      ensures TwoAt(p + q, k)
    {
      TwoInJoin(p, q, k);
    }
  }

  lemma Joined(p: Path, q: Path)
    requires Smooth(p) && Smooth(q)
    requires p != [] && q != [] ==> Near(p[|p| - 1], q[0])
    ensures Smooth(p + q)
  {
    hide Near;
    forall k | 0 <= k < |p + q| - 1
      ensures Near((p + q)[k], (p + q)[k + 1])
    {
      if k >= |p| {
        assert (p + q)[k] == q[k - |p|] && (p + q)[k + 1] == q[k - |p| + 1];
      }
    }
  }

  lemma {:induction false} PairSmooth(size: int, right: int, vert: int)
    requires PairStart(right) && 0 <= vert < size
    ensures var p := Pair(size, right, vert);
            Smooth(p) && InTwos(p) && p != [] && p[0] == Visit(size, right, vert, 0)
            && p[|p| - 1] == Visit(size, right, size - 1, 1)
    decreases size - vert
  {
    var step := [Visit(size, right, vert, 0), Visit(size, right, vert, 1)];
    var rest := Pair(size, right, vert + 1);
    assert Pair(size, right, vert) == step + rest;
    if vert + 1 < size {
      PairSmooth(size, right, vert + 1);
    }
    Joined(step, rest);
    TwosJoined(step, rest);
  }

  /** Where one pair of columns ends the next one starts. */
  lemma Turns(size: int, right: int)
    requires PairStart(right) && right >= 3 && (right >= 8 ==> right % 2 == 0) && (right < 8 ==> right % 2 == 1)
    requires size > 0 && right != 7
    ensures PairStart(Skip6(right - 2))
    ensures Near(Visit(size, right, size - 1, 1), Visit(size, Skip6(right - 2), 0, 0))
  {
    var k := right / 2;
    assert (right - 2) / 2 == k - 1;
    assert (k - 1) % 2 != k % 2;
  }

  lemma {:induction false} ScanSmooth(size: int, right: int)
    requires size > 0 && -1 <= right && right != 7 && right % 2 == (if right >= 6 then 0 else 1)
    ensures Smooth(Scan(size, right)) && InTwos(Scan(size, right))
    ensures right >= 1 ==> Scan(size, right) != [] && Scan(size, right)[0] == Visit(size, Skip6(right), 0, 0)
    decreases right
  {
    if right >= 1 {
      var r := Skip6(right);
      PairSmooth(size, r, 0);
      ScanSmooth(size, r - 2);
      if r >= 3 {
        Turns(size, r);
      }
      hide Smooth, Near, Visit, InTwos;
      Joined(Pair(size, r, 0), Scan(size, r - 2));
      TwosJoined(Pair(size, r, 0), Scan(size, r - 2));
    }
  }

  /** The scan starts at the lower right corner and goes on to a neighbour every time, but for one step across column 6
      within a row. */
  lemma ScanIsPath(size: int)
    requires size >= 9 && size % 4 == 1
    ensures var s := Scan(size, size - 1);
            && s != [] && s[0] == Cell(size - 1, size - 1)
            && forall k :: 0 <= k < |s| - 1 ==>
                 (-1 <= s[k + 1].x - s[k].x <= 1 && -1 <= s[k + 1].y - s[k].y <= 1)
                 || (s[k].x == 7 && s[k + 1] == Cell(5, s[k].y))
  {
    hide Scan;
    ScanSmooth(size, size - 1);
    var q := size / 4;
    assert size - 1 == 4 * q && (size - 1) / 2 == 2 * q;
    var s := Scan(size, size - 1);
    forall k | 0 <= k < |s| - 1
      ensures (-1 <= s[k + 1].x - s[k].x <= 1 && -1 <= s[k + 1].y - s[k].y <= 1)
        || (s[k].x == 7 && s[k + 1] == Cell(5, s[k].y))
    {
      assert Near(s[k], s[k + 1]);
    }
  }

  /** It visits two modules of a row at a time, the right one first. */
  lemma ScanInTwos(size: int)
    requires size >= 9 && size % 4 == 1
    ensures var s := Scan(size, size - 1);
            |s| % 2 == 0
            && forall k :: 0 <= k < |s| - 1 && k % 2 == 0 ==> s[k + 1] == Cell(s[k].x - 1, s[k].y)
  {
    hide Scan, Smooth;
    ScanSmooth(size, size - 1);
    var s := Scan(size, size - 1);
    forall k | 0 <= k < |s| - 1 && k % 2 == 0
      ensures s[k + 1] == Cell(s[k].x - 1, s[k].y)
    {
      assert TwoAt(s, k);
    }
  }

  // ---------- Drawing and reading along a path ----------

  ghost predicate Inside(p: Path, size: int) {
    forall k :: 0 <= k < |p| ==> InGrid(p[k], size)
  }

  lemma ScanInside(size: int)
    requires size >= 9 && size % 2 == 1
    ensures Inside(Scan(size, size - 1), size)
    ensures forall c :: c in Scan(size, size - 1) <==> InGrid(c, size) && c.x != 6
    ensures NoRepeats(Scan(size, size - 1))
  {
    hide Scan, NoRepeats;
    ScanIsBijection(size);
    var p := Scan(size, size - 1);
    forall k | 0 <= k < |p|
      ensures InGrid(p[k], size)
    {
      assert p[k] in p;
    }
  }

  /** The modules of a path that are not function modules, in order */
  ghost function Free(fn: Grid, size: int, p: Path): (f: Path)
    requires Square(fn, size) && Inside(p, size)
    ensures Inside(f, size)
    ensures forall c :: c in f <==> c in p && InGrid(c, size) && !At(fn, c)
  {
    if p == [] then [] else (if At(fn, p[0]) then [] else [p[0]]) + Free(fn, size, p[1..])
  }

  lemma {:induction false} FreeNoRepeats(fn: Grid, size: int, p: Path)
    requires Square(fn, size) && Inside(p, size)
    requires NoRepeats(p)
    ensures NoRepeats(Free(fn, size, p))
  {
    if p != [] {
      FreeNoRepeats(fn, size, p[1..]);
      forall k | 0 <= k < |Free(fn, size, p[1..])|
        ensures Free(fn, size, p[1..])[k] != p[0]
      {
        assert Free(fn, size, p[1..])[k] in p[1..];
      }
    }
  }

  /** The grid after bits have been put on the modules of f, one each, as long as both last */
  ghost function Place(g: Grid, size: int, f: Path, bits: BitString): (h: Grid)
    requires Square(g, size) && Inside(f, size)
    ensures Square(h, size)
    decreases |f|
  {
    if f == [] || bits == [] then g
    else
      PutAt(g, f[0], bits[0], size);
      Place(Put(g, f[0], bits[0]), size, f[1..], bits[1..])
  }

  /** The values on the modules of f */
  ghost function Collect(g: Grid, size: int, f: Path): (bits: BitString)
    requires Square(g, size) && Inside(f, size)
    ensures |bits| == |f|
  {
    seq(|f|, k requires 0 <= k < |f| => At(g, f[k]))
  }

  lemma {:induction false} PlaceAt(g: Grid, size: int, f: Path, bits: BitString)
    requires Square(g, size) && Inside(f, size)
    requires NoRepeats(f)
    ensures forall k :: 0 <= k < |f| && k < |bits| ==> At(Place(g, size, f, bits), f[k]) == bits[k]
    ensures forall c ::
      InGrid(c, size) && c !in f[..if |bits| < |f| then |bits| else |f|] ==> At(Place(g, size, f, bits), c) == At(g, c)
    decreases |f|
  {
    if f != [] && bits != [] {
      PutAt(g, f[0], bits[0], size);
      var g' := Put(g, f[0], bits[0]);
      PlaceAt(g', size, f[1..], bits[1..]);
      var n := if |bits| < |f| then |bits| else |f|;
      assert f[..n] == [f[0]] + f[1..][..n - 1];
      assert f[0] !in f[1..];
      forall k | 0 <= k < n
        ensures At(Place(g, size, f, bits), f[k]) == bits[k]
      {
        if k > 0 {
          assert f[k] == f[1..][k - 1] && bits[k] == bits[1..][k - 1];
        } else {
          assert f[0] !in f[1..][..n - 1];
        }
      }
    }
  }

  /** Drawing one module at a time */
  lemma PlaceNext(g: Grid, fn: Grid, size: int, p: Path, bits: BitString, i: nat)
    requires Square(g, size) && Square(fn, size) && Inside(p, size) && p != [] && i < |bits|
    requires InGrid(p[0], size) && !At(fn, p[0])
    ensures Inside(p[1..], size) && Square(Put(g, p[0], bits[i]), size)
    ensures Place(g, size, Free(fn, size, p), bits[i..])
      == Place(Put(g, p[0], bits[i]), size, Free(fn, size, p[1..]), bits[i + 1..])
    ensures |Free(fn, size, p)| == |Free(fn, size, p[1..])| + 1
  {
    InsideTail(p, size);
    hide Inside;
    PutAt(g, p[0], bits[i], size);
    assert bits[i..][1..] == bits[i + 1..];
    assert ([p[0]] + Free(fn, size, p[1..]))[1..] == Free(fn, size, p[1..]);
  }

  lemma PlaceSkips(fn: Grid, size: int, p: Path)
    requires Square(fn, size) && Inside(p, size) && p != []
    requires InGrid(p[0], size) && At(fn, p[0])
    ensures Inside(p[1..], size) && Free(fn, size, p) == Free(fn, size, p[1..])
  {
    assert [] + Free(fn, size, p[1..]) == Free(fn, size, p[1..]);
  }

  lemma InsideTail(p: Path, size: int)
    requires Inside(p, size) && p != []
    ensures InGrid(p[0], size) && Inside(p[1..], size)
  {
  }

  lemma FreeNothing(fn: Grid, size: int)
    requires Square(fn, size)
    ensures Inside([], size) && Free(fn, size, []) == []
  {
  }

  lemma PlaceNothing(g: Grid, size: int, f: Path)
    requires Square(g, size) && Inside(f, size)
    ensures Place(g, size, f, []) == g
    ensures f == [] ==> forall bits: BitString :: Place(g, size, f, bits) == g
  {
  }

  /** The same scan reads back what was drawn, if there is room for all of it. */
  lemma CollectPlaced(g: Grid, size: int, f: Path, bits: BitString)
    requires Square(g, size) && Inside(f, size)
    requires NoRepeats(f) && |bits| <= |f|
    ensures Collect(Place(g, size, f, bits), size, f)[..|bits|] == bits
  {
    PlaceAt(g, size, f, bits);
  }

  /** The data modules of a symbol, in scan order */
  ghost function DataPath(fn: Grid, size: int): (f: Path)
    requires size >= 9 && size % 2 == 1 && Square(fn, size)
    ensures Inside(f, size)
    ensures forall c :: c in f <==> InGrid(c, size) && c.x != 6 && !At(fn, c)
    ensures NoRepeats(f)
  {
    ScanInside(size);
    FreeNoRepeats(fn, size, Scan(size, size - 1));
    Free(fn, size, Scan(size, size - 1))
  }

  ghost function Elements(p: Path): set<Cell> {
    set c | c in p
  }

  lemma {:induction false} PathCardinality(p: Path)
    requires NoRepeats(p)
    ensures |Elements(p)| == |p|
  {
    if p != [] {
      PathCardinality(p[1..]);
      assert Elements(p) == {p[0]} + Elements(p[1..]);
    }
  }

  /** There are as many data modules as the grid has modules without a function. */
  lemma DataPathLength(fn: Grid, size: int, free: set<Cell>)
    requires size >= 9 && size % 2 == 1 && Square(fn, size)
    requires forall c :: c in free <==> InGrid(c, size) && !At(fn, c)
    requires forall y :: 0 <= y < size ==> fn[y][6]
    ensures |DataPath(fn, size)| == |free|
  {
    var f := DataPath(fn, size);
    forall c
      ensures c in free <==> c in f
    {
      if c in free {
        assert fn[c.y][6];
      }
    }
    assert Elements(f) == free;
    PathCardinality(f);
  }
}
