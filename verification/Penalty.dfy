/** The penalty score of a symbol, and its calculation in one pass over each line.
    Source: web/src/lib/qrcode.js, lines 467-553. */
module Penalty {
  import opened Bits
  import opened Gf256
  import opened BitStream
  import opened Grids
  import opened Sequences

  const PENALTY_N1 := 3
  const PENALTY_N2 := 3
  const PENALTY_N3 := 40
  const PENALTY_N4 := 10

  type Line = seq<bool>

  // ---------- Runs of one colour ----------

  /** The length of the longest run of one colour at the end of a line */
  function LastRun(p: Line): (r: nat)
    ensures r <= |p| && (p != [] ==> r >= 1)
  {
    if |p| < 2 then |p|
    else if p[|p| - 1] == p[|p| - 2] then LastRun(p[..|p| - 1]) + 1
    else 1
  }

  lemma {:induction false} LastRunIsMaximal(p: Line)
    ensures var r := LastRun(p);
            && (forall i :: |p| - r <= i < |p| ==> p[i] == p[|p| - 1])
            && (r < |p| ==> p[|p| - r - 1] != p[|p| - 1])
  {
    if |p| >= 2 && p[|p| - 1] == p[|p| - 2] {
      LastRunIsMaximal(p[..|p| - 1]);
    }
  }

  /** The points for a run of this length that cannot be extended */
  function RunPoints(length: nat): nat {
    if length >= 5 then length - 5 + PENALTY_N1 else 0
  }

  /** The points for all maximal runs of a line */
  function RunScore(p: Line): nat {
    if p == [] then 0 else RunPoints(LastRun(p)) + RunScore(p[..|p| - LastRun(p)])
  }

  lemma RunNext(p: Line, c: bool)
    requires p != []
    ensures c == p[|p| - 1] ==> LastRun(p + [c]) == LastRun(p) + 1
    ensures c != p[|p| - 1] ==> LastRun(p + [c]) == 1
    ensures RunScore(p + [c]) == RunScore(p) - (if c == p[|p| - 1] then RunPoints(LastRun(p)) else 0)
      + RunPoints(LastRun(p + [c]))
  {
    var q := p + [c];
    LastRunNext(p, c);
    RunScoreIs(p);
    RunScoreIs(q);
    hide LastRun, RunPoints, RunScore;
    assert q[..|q| - LastRun(q)] == if c == p[|p| - 1] then p[..|p| - LastRun(p)] else p;
  }

  lemma RunScoreIs(p: Line)
    requires p != []
    ensures RunScore(p) == RunPoints(LastRun(p)) + RunScore(p[..|p| - LastRun(p)])
  {
    hide LastRun, RunPoints;
  }

  lemma LastRunNext(p: Line, c: bool)
    requires p != []
    ensures LastRun(p + [c]) == if c == p[|p| - 1] then LastRun(p) + 1 else 1
  {
    LastRunIs(p + [c]);
    hide LastRun;
    assert (p + [c])[..|p|] == p;
  }

  lemma LastRunIs(p: Line)
    requires |p| >= 2
    ensures LastRun(p) == if p[|p| - 1] == p[|p| - 2] then LastRun(p[..|p| - 1]) + 1 else 1
  {
  }

  method ScoreRuns(line: Line) returns (result: nat)
    requires line != []
    ensures result == RunScore(line)
  {
    hide RunScore, LastRun;
    result := 0;
    var color := line[0];
    var x, run := 1, 1;
    SingleRun(line[..1]);
    while x < |line|
      invariant 1 <= x <= |line|
      invariant color == line[x - 1] && run == LastRun(line[..x])
      invariant result == RunScore(line[..x])
    {
      RunNext(line[..x], line[x]);
      assert line[..x + 1] == line[..x] + [line[x]];
      if line[x] != color {
        color := line[x];
        run := 1;
      } else {
        run := run + 1;
        if run == 5 {
          result := result + PENALTY_N1;
        } else if run > 5 {
          result := result + 1;
        }
      }
      x := x + 1;
    }
    assert line[..x] == line;
  }

  lemma SingleRun(p: Line)
    requires |p| == 1
    ensures LastRun(p) == 1 && RunScore(p) == 0
  {
    assert p[..0] == [];
  }

  /** Modules of one colour */
  ghost predicate IsRun(r: Line) {
    r != [] && forall i :: 0 <= i < |r| ==> r[i] == r[0]
  }

  /** Runs none of which can be extended: neighbours differ in colour. */
  ghost predicate MaximalRuns(runs: seq<Line>) {
    && (forall i :: 0 <= i < |runs| ==> IsRun(runs[i]))
    && (forall i, j :: 0 <= i < j < |runs| && j == i + 1 ==> runs[i] != [] && runs[j] != [] && runs[i][0] != runs[j][0])
  }

  /** L - 2 for each run of L >= 5 */
  function TotalPoints(runs: seq<Line>): nat {
    if runs == [] then 0
    else
      var length := |runs[|runs| - 1]|;
      TotalPoints(runs[..|runs| - 1]) + (if length >= 5 then length - 2 else 0)
  }

  lemma JoinEnds(runs: seq<Line>)
    requires MaximalRuns(runs) && runs != []
    ensures var last, p := runs[|runs| - 1], Concat(runs);
            && IsRun(last) && MaximalRuns(runs[..|runs| - 1]) && p == Concat(runs[..|runs| - 1]) + last
            && p[|p| - 1] == last[0] && (|runs| == 1 ==> p == last)
  {
    assert IsRun(runs[|runs| - 1]);
    assert |runs| == 1 ==> Concat(runs[..0]) == [];
  }

  lemma LastRunOfRuns(runs: seq<Line>)
    requires MaximalRuns(runs) && runs != []
    ensures LastRun(Concat(runs)) == |runs[|runs| - 1]|
  {
    JoinEnds(runs);
    var k := |runs| - 1;
    var p, last, front := Concat(runs), runs[k], Concat(runs[..k]);
    if k > 0 {
      FrontDiffers(runs);
    }
    LastRunIsMaximal(p);
    hide LastRun, Concat, MaximalRuns;
    EndsInRun(front, last);
    OneMaximalEnd(p, LastRun(p), |last|);
  }

  lemma FrontDiffers(runs: seq<Line>)
    requires MaximalRuns(runs) && |runs| > 1
    ensures var k := |runs| - 1;
            var front := Concat(runs[..k]); front != [] && front[|front| - 1] != runs[k][0]
  {
    var k := |runs| - 1;
    JoinEnds(runs);
    JoinEnds(runs[..k]);
    assert runs[..k][k - 1] == runs[k - 1] && runs[k - 1][0] != runs[k][0];
  }

  lemma EndsInRun(front: Line, last: Line)
    requires IsRun(last)
    ensures var p := front + last; forall i :: |front| <= i < |p| ==> p[i] == p[|p| - 1]
  {
  }

  lemma OneMaximalEnd(p: Line, m: nat, n: nat)
    requires 1 <= m <= |p| && 1 <= n <= |p|
    requires forall i :: |p| - m <= i < |p| ==> p[i] == p[|p| - 1]
    requires forall i :: |p| - n <= i < |p| ==> p[i] == p[|p| - 1]
    requires m < |p| ==> p[|p| - m - 1] != p[|p| - 1]
    requires n < |p| ==> p[|p| - n - 1] != p[|p| - 1]
    ensures m == n
  {
  }

  /** The score of a line is the points of its maximal runs. */
  lemma {:induction false} RunScoreIsTotal(runs: seq<Line>)
    requires MaximalRuns(runs)
    ensures RunScore(Concat(runs)) == TotalPoints(runs)
  {
    if runs != [] {
      JoinEnds(runs);
      LastRunOfRuns(runs);
      RunScoreIsTotal(runs[..|runs| - 1]);
      hide LastRun, MaximalRuns;
      var p := Concat(runs);
      assert p[..|p| - LastRun(p)] == Concat(runs[..|runs| - 1]);
    }
  }

  /** Every line consists of such runs. */
  lemma {:induction false} RunsOf(p: Line) returns (runs: seq<Line>)
    ensures MaximalRuns(runs) && Concat(runs) == p
  {
    if p == [] {
      runs := [];
    } else {
      var n := |p| - LastRun(p);
      runs := RunsOf(p[..n]);
      LastRunIsMaximal(p);
      assert IsRun(p[n..]);
      hide LastRun;
      assert p == p[..n] + p[n..];
      AppendRun(runs, p[n..]);
      runs := runs + [p[n..]];
    }
  }

  lemma AppendRun(runs: seq<Line>, last: Line)
    requires MaximalRuns(runs) && IsRun(last)
    requires var p := Concat(runs); p != [] ==> p[|p| - 1] != last[0]
    ensures MaximalRuns(runs + [last]) && Concat(runs + [last]) == Concat(runs) + last
  {
    assert (runs + [last])[..|runs|] == runs;
    if runs != [] {
      JoinEnds(runs);
    }
    RunsGrow(runs, last);
    hide MaximalRuns;
  }

  lemma RunsGrow(runs: seq<Line>, last: Line)
    requires MaximalRuns(runs) && IsRun(last)
    requires runs != [] ==> runs[|runs| - 1] != [] && runs[|runs| - 1][0] != last[0]
    ensures MaximalRuns(runs + [last])
  {
    assert last != [];
    assert forall i :: 0 <= i < |runs| ==> (runs + [last])[i] == runs[i];
    hide IsRun;
  }

  // ---------- Finder-like patterns ----------

  /** Four light modules before, or after, dark-light-dark-dark-dark-light-dark */
  const LIGHT_BEFORE: Line := [false, false, false, false, true, false, true, true, true, false, true]
  const LIGHT_AFTER: Line := [true, false, true, true, true, false, true, false, false, false, false]

  predicate FinderLike(w: Line) {
    w == LIGHT_BEFORE || w == LIGHT_AFTER
  }

  /** The number of windows of 11 modules within p that look like a finder pattern */
  function FinderWindows(p: Line): nat {
    if |p| < 11 then 0
    else FinderWindows(p[..|p| - 1]) + (if FinderLike(p[|p| - 11..]) then 1 else 0)
  }

  predicate FinderAt(p: Line, i: int) {
    0 <= i <= |p| - 11 && FinderLike(p[i..i + 11])
  }

  /** Where such windows start */
  ghost function FinderPlaces(p: Line): (s: set<int>)
    ensures forall i :: i in s <==> FinderAt(p, i)
  {
    set i | 0 <= i <= |p| - 11 && FinderAt(p, i)
  }

  lemma FinderAtPrefix(p: Line, i: int)
    requires |p| >= 11
    ensures FinderAt(p, i) <==> FinderAt(p[..|p| - 1], i) || (i == |p| - 11 && FinderLike(p[|p| - 11..]))
    ensures !FinderAt(p[..|p| - 1], |p| - 11)
  {
    if 0 <= i < |p| - 11 {
      assert p[..|p| - 1][i..i + 11] == p[i..i + 11];
    }
    assert p[|p| - 11..|p|] == p[|p| - 11..];
  }

  lemma {:induction false} WindowsArePlaces(p: Line)
    ensures FinderWindows(p) == |FinderPlaces(p)|
  {
    hide FinderLike, FinderAt;
    if |p| < 11 {
      TooShort(p);
      assert FinderPlaces(p) == {};
    } else {
      var before, i := FinderPlaces(p[..|p| - 1]), |p| - 11;
      WindowsArePlaces(p[..|p| - 1]);
      forall k
        ensures k in FinderPlaces(p) <==> k in before || (k == i && FinderLike(p[|p| - 11..]))
      {
        FinderAtPrefix(p, k);
      }
      FinderAtPrefix(p, i);
      assert FinderPlaces(p) == if FinderLike(p[|p| - 11..]) then before + {i} else before;
    }
  }

  lemma TooShort(p: Line)
    requires |p| < 11
    ensures forall i :: !FinderAt(p, i)
  {
  }

  /** The last 11 modules of p, or all of them if there are fewer */
  function Window(p: Line): Line {
    if |p| <= 11 then p else p[|p| - 11..]
  }

  function Digit(b: bool): nat {
    if b then 1 else 0
  }

  lemma ThreeBits(a: bool, b: bool, c: bool)
    ensures ValueOf([a, b, c]) == 4 * Digit(a) + 2 * Digit(b) + Digit(c)
  {
    assert ValueOf([]) == 0;
    hide ValueOf;
    LastBit([], a);
    LastBit([] + [a], b);
    LastBit([] + [a] + [b], c);
    assert [] + [a] + [b] + [c] == [a, b, c];
  }

  /** Four more bits */
  lemma NextBits(w: Line, a: bool, b: bool, c: bool, d: bool)
    ensures ValueOf(w + [a, b, c, d]) == 16 * ValueOf(w) + 8 * Digit(a) + 4 * Digit(b) + 2 * Digit(c) + Digit(d)
  {
    hide ValueOf;
    LastBit(w, a);
    LastBit(w + [a], b);
    LastBit(w + [a] + [b], c);
    LastBit(w + [a] + [b] + [c], d);
    assert w + [a] + [b] + [c] + [d] == w + [a, b, c, d];
  }

  lemma PatternValues()
    ensures ValueOf(LIGHT_BEFORE) == 0x05D && ValueOf(LIGHT_AFTER) == 0x5D0
  {
    var low, high := [false, false, false], [true, false, true];
    hide ValueOf;
    ThreeBits(false, false, false);
    ThreeBits(true, false, true);
    NextBits(low, false, true, false, true);
    NextBits(low + [false, true, false, true], true, true, false, true);
    assert low + [false, true, false, true] + [true, true, false, true] == LIGHT_BEFORE;
    NextBits(high, true, true, false, true);
    NextBits(high + [true, true, false, true], false, false, false, false);
    assert high + [true, true, false, true] + [false, false, false, false] == LIGHT_AFTER;
  }

  lemma WindowValue(w: Line)
    requires |w| == 11
    ensures FinderLike(w) <==> ValueOf(w) == 0x05D || ValueOf(w) == 0x5D0
  {
    PatternValues();
    BitsRoundTrip(w);
    BitsRoundTrip(LIGHT_BEFORE);
    BitsRoundTrip(LIGHT_AFTER);
  }

  lemma {:induction false} DropFirst(w: Line)
    requires w != []
    ensures ValueOf(w) == Pow2(|w| - 1) * Digit(w[0]) + ValueOf(w[1..])
  {
    if |w| > 1 {
      var k := |w| - 1;
      DropFirst(w[..k]);
      assert w[..k][1..] == w[1..][..k - 1];
      assert Pow2(k) == 2 * Pow2(k - 1);
    } else {
      assert w[..0] == [] && w[1..] == [];
    }
  }

  /** The rolling value: shift in one module, and drop the oldest of more than 11. */
  lemma WindowNext(p: Line, c: bool)
    ensures ValueOf(Window(p)) < 2048
    ensures ValueOf(Window(p + [c])) == 2 * ValueOf(Window(p)) % 2048 + Digit(c)
  {
    var w := Window(p);
    WindowIs(p, c);
    ValueOfBound(w);
    ElevenBits();
    hide ValueOf, Pow2, Window;
    if |p| < 11 {
      LastBit(w, c);
      ShortWindow(w);
    } else {
      LastBit(w[1..], c);
      DropFirst(w);
      ValueOfBound(w[1..]);
      RollingValue(ValueOf(w[1..]), Digit(w[0]));
    }
  }

  lemma WindowIs(p: Line, c: bool)
    ensures |Window(p)| == if |p| < 11 then |p| else 11
    ensures Window(p + [c]) == (if |p| < 11 then Window(p) else Window(p)[1..]) + [c]
  {
  }

  lemma RollingValue(v: nat, d: nat)
    requires v < 1024 && d <= 1
    ensures 2 * (1024 * d + v) % 2048 == 2 * v
  {
  }

  lemma ElevenBits()
    ensures Pow2(10) == 1024 && Pow2(11) == 2048
  {
    Pow2Steps();
    assert Pow2(9) == 512;
  }

  lemma {:induction false} ShortWindow(w: Line)
    requires |w| <= 10
    ensures ValueOf(w) < 1024
  {
    ValueOfBound(w);
    Pow2Grows(|w|, 10);
    ElevenBits();
  }

  lemma {:induction false} Pow2Grows(m: nat, n: nat)
    requires m <= n
    ensures Pow2(m) <= Pow2(n)
  {
    if m < n {
      Pow2Grows(m, n - 1);
    }
  }

  lemma WindowsStep(q: Line)
    requires q != []
    ensures FinderWindows(q) == FinderWindows(q[..|q| - 1]) + (if |q| >= 11 && FinderLike(Window(q)) then 1 else 0)
  {
    hide FinderLike;
    if |q| >= 11 {
      assert q[|q| - 11..] == Window(q);
    }
  }

  lemma WindowsNext(p: Line, c: bool)
    ensures FinderWindows(p + [c]) == FinderWindows(p) + (if |p| >= 10 && FinderLike(Window(p + [c])) then 1 else 0)
  {
    hide FinderLike, FinderWindows, Window;
    WindowsStep(p + [c]);
    assert (p + [c])[..|p|] == p;
  }

  method ScoreFinders(line: Line) returns (result: nat)
    ensures result == 40 * FinderWindows(line)
  {
    hide FinderWindows, Window, ValueOf, FinderLike;
    NoWindow();
    result := 0;
    var bits := 0;
    for x := 0 to |line|
      invariant bits == ValueOf(Window(line[..x])) && bits < 2048
      invariant result == PENALTY_N3 * FinderWindows(line[..x])
    {
      WindowNext(line[..x], line[x]);
      WindowsNext(line[..x], line[x]);
      assert line[..x + 1] == line[..x] + [line[x]];
      bits := (bits * 2 % 2048) + Digit(line[x]);
      if x >= 10 {
        WindowLength(line[..x + 1]);
        WindowValue(Window(line[..x + 1]));
        if bits == 0x05D || bits == 0x5D0 {
          result := result + PENALTY_N3;
        }
      }
      WindowNext(line[..x + 1], false);
    }
    assert line[..|line|] == line;
  }

  lemma NoWindow()
    ensures FinderWindows([]) == 0 && ValueOf(Window([])) == 0
  {
  }

  lemma WindowLength(p: Line)
    requires |p| >= 11
    ensures |Window(p)| == 11
  {
  }

  // ---------- Balance ----------

  /** From 45 - 5 * k to 55 + 5 * k percent are black. */
  predicate Balanced(black: nat, total: nat, k: nat) {
    (45 - 5 * k) * total <= 100 * black <= (55 + 5 * k) * total
  }

  lemma InTwentieths(black: nat, total: nat, k: nat)
    ensures Balanced(black, total, k) <==> (9 - k) * total <= black * 20 <= (11 + k) * total
  {
    FiveTimes(9 - k, total);
    FiveTimes(11 + k, total);
  }

  lemma FiveTimes(a: int, b: int)
    ensures (5 * a) * b == 5 * (a * b)
  {
  }

  /** The least number of steps of 5% that widens 45%..55% enough */
  function Imbalance(black: nat, total: nat, k: nat): (r: nat)
    requires black <= total && k <= 9
    ensures k <= r <= 9 && Balanced(black, total, r)
    ensures forall i :: k <= i < r ==> !Balanced(black, total, i)
    decreases 9 - k
  {
    if k == 9 || Balanced(black, total, k) then k else Imbalance(black, total, k + 1)
  }

  method ScoreBalance(black: nat, total: nat) returns (result: nat)
    requires black <= total
    ensures result == 10 * Imbalance(black, total, 0)
  {
    hide Balanced;
    result := 0;
    var k := 0;
    while black * 20 < (9 - k) * total || black * 20 > (11 + k) * total
      invariant 0 <= k <= 9
      invariant Imbalance(black, total, k) == Imbalance(black, total, 0)
      invariant result == PENALTY_N4 * k
      decreases 9 - k
    {
      InTwentieths(black, total, k);
      result := result + PENALTY_N4;
      k := k + 1;
    }
    InTwentieths(black, total, k);
  }

  // ---------- The score of a grid ----------

  function Column(g: Grid, size: int, x: int): (l: Line)
    requires |g| == size && 0 <= x && forall y :: 0 <= y < size ==> x < |g[y]|
    ensures |l| == size && forall y :: 0 <= y < size ==> l[y] == g[y][x]
  {
    seq(size, y requires 0 <= y < size => g[y][x])
  }

  ghost function RowRuns(g: Grid, n: nat): nat
    requires n <= |g|
  {
    if n == 0 then 0 else RowRuns(g, n - 1) + RunScore(g[n - 1])
  }

  ghost function ColumnRuns(g: Grid, size: int, n: nat): nat
    requires Square(g, size) && n <= size
  {
    if n == 0 then 0 else ColumnRuns(g, size, n - 1) + RunScore(Column(g, size, n - 1))
  }

  ghost function RowFinders(g: Grid, n: nat): nat
    requires n <= |g|
  {
    if n == 0 then 0 else RowFinders(g, n - 1) + FinderWindows(g[n - 1])
  }

  ghost function ColumnFinders(g: Grid, size: int, n: nat): nat
    requires Square(g, size) && n <= size
  {
    if n == 0 then 0 else ColumnFinders(g, size, n - 1) + FinderWindows(Column(g, size, n - 1))
  }

  /** The 2*2 block with this upper left corner has one colour. */
  ghost predicate Uniform(g: Grid, x: int, y: int)
    requires 0 <= y && y + 1 < |g| && 0 <= x && x + 1 < |g[y]| && x + 1 < |g[y + 1]|
  {
    forall c, d :: c in Rect(x, y, 2, 2) && d in Rect(x, y, 2, 2) ==> At(g, c) == At(g, d)
  }

  lemma UniformIs(g: Grid, x: int, y: int)
    requires 0 <= y && y + 1 < |g| && 0 <= x && x + 1 < |g[y]| && x + 1 < |g[y + 1]|
    ensures Uniform(g, x, y) <==> g[y][x] == g[y][x + 1] && g[y][x] == g[y + 1][x] && g[y][x] == g[y + 1][x + 1]
  {
    var block := Rect(x, y, 2, 2);
    assert Cell(x, y) in block && Cell(x + 1, y) in block && Cell(x, y + 1) in block && Cell(x + 1, y + 1) in block;
    assert At(g, Cell(x, y)) == g[y][x] && At(g, Cell(x + 1, y)) == g[y][x + 1];
    assert At(g, Cell(x, y + 1)) == g[y + 1][x] && At(g, Cell(x + 1, y + 1)) == g[y + 1][x + 1];
  }

  /** The uniform blocks whose corner comes before (x, y) */
  ghost function UniformBefore(g: Grid, size: int, x: int, y: int): (s: set<Cell>)
    requires Square(g, size)
    ensures forall c :: c in s <==>
      0 <= c.x < size - 1 && 0 <= c.y < size - 1 && (c.y < y || (c.y == y && c.x < x)) && Uniform(g, c.x, c.y)
  {
    set c | c in Rect(0, 0, size - 1, size - 1) && (c.y < y || (c.y == y && c.x < x)) && Uniform(g, c.x, c.y)
  }

  ghost function DarkBefore(g: Grid, size: int, x: int, y: int): (s: set<Cell>)
    requires Square(g, size)
    ensures forall c :: c in s <==> InGrid(c, size) && (c.y < y || (c.y == y && c.x < x)) && At(g, c)
  {
    set c | c in Rect(0, 0, size, size) && (c.y < y || (c.y == y && c.x < x)) && At(g, c)
  }

  lemma DarkAtMostAll(g: Grid, size: int)
    requires Square(g, size)
    ensures |DarkBefore(g, size, 0, size)| <= size * size
  {
    RectSize(0, 0, size, size);
    SubsetSize(DarkBefore(g, size, 0, size), Rect(0, 0, size, size));
  }

  /** Runs of five or more in rows and columns, uniform 2*2 blocks, finder-like patterns in rows and
      columns, and the imbalance of dark and light */
  ghost function Penalty(g: Grid, size: int): nat
    requires Square(g, size) && size > 0
  {
    DarkAtMostAll(g, size);
    RowRuns(g, size) + ColumnRuns(g, size, size)
    + 3 * |UniformBefore(g, size, 0, size - 1)|
    + 40 * (RowFinders(g, size) + ColumnFinders(g, size, size))
    + 10 * Imbalance(|DarkBefore(g, size, 0, size)|, size * size, 0)
  }

  method GetPenaltyScore(modules: Grid, size: int) returns (result: nat)
    requires Square(modules, size) && size > 0
    ensures result == Penalty(modules, size)
  {
    DarkAtMostAll(modules, size);
    hide Imbalance, RunScore, FinderWindows;
    var runs := ScoreLines(modules, size);
    var blocks := ScoreBlocks(modules, size);
    var finders := ScoreFinderLines(modules, size);
    var black := CountDark(modules, size);
    var balance := ScoreBalance(black, size * size);
    result := runs + blocks + finders + balance;
  }

  method ScoreLines(modules: Grid, size: int) returns (result: nat)
    requires Square(modules, size) && size > 0
    ensures result == RowRuns(modules, size) + ColumnRuns(modules, size, size)
  {
    hide RunScore;
    result := 0;
    for y := 0 to size
      invariant result == RowRuns(modules, y)
    {
      var points := ScoreRuns(modules[y]);
      result := result + points;
    }
    for x := 0 to size
      invariant result == RowRuns(modules, size) + ColumnRuns(modules, size, x)
    {
      var points := ScoreRuns(Column(modules, size, x));
      result := result + points;
    }
  }

  method ScoreFinderLines(modules: Grid, size: int) returns (result: nat)
    requires Square(modules, size)
    ensures result == 40 * (RowFinders(modules, size) + ColumnFinders(modules, size, size))
  {
    hide FinderWindows;
    result := 0;
    for y := 0 to size
      invariant result == PENALTY_N3 * RowFinders(modules, y)
    {
      var points := ScoreFinders(modules[y]);
      result := result + points;
    }
    for x := 0 to size
      invariant result == PENALTY_N3 * (RowFinders(modules, size) + ColumnFinders(modules, size, x))
    {
      var points := ScoreFinders(Column(modules, size, x));
      result := result + points;
    }
  }

  method ScoreBlocks(modules: Grid, size: int) returns (result: nat)
    requires Square(modules, size) && size > 0
    ensures result == 3 * |UniformBefore(modules, size, 0, size - 1)|
  {
    hide Uniform;
    result := 0;
    assert UniformBefore(modules, size, 0, 0) == {};
    for y := 0 to size - 1
      invariant result == PENALTY_N2 * |UniformBefore(modules, size, 0, y)|
    {
      for x := 0 to size - 1
        invariant result == PENALTY_N2 * |UniformBefore(modules, size, x, y)|
      {
        UniformNext(modules, size, x, y);
        UniformIs(modules, x, y);
        var color := modules[y][x];
        if color == modules[y][x + 1] && color == modules[y + 1][x] && color == modules[y + 1][x + 1] {
          result := result + PENALTY_N2;
        }
      }
      assert UniformBefore(modules, size, size - 1, y) == UniformBefore(modules, size, 0, y + 1);
    }
  }

  lemma UniformNext(g: Grid, size: int, x: nat, y: nat)
    requires Square(g, size) && x < size - 1 && y < size - 1
    ensures |UniformBefore(g, size, x + 1, y)| == |UniformBefore(g, size, x, y)| + (if Uniform(g, x, y) then 1 else 0)
  {
    hide Uniform;
    var s, c := UniformBefore(g, size, x, y), Cell(x, y);
    assert UniformBefore(g, size, x + 1, y) == if Uniform(g, x, y) then s + {c} else s;
    assert c !in s;
  }

  method CountDark(modules: Grid, size: int) returns (black: nat)
    requires Square(modules, size) && size > 0
    ensures black == |DarkBefore(modules, size, 0, size)|
  {
    black := 0;
    assert DarkBefore(modules, size, 0, 0) == {};
    for y := 0 to size
      invariant black == |DarkBefore(modules, size, 0, y)|
    {
      for x := 0 to size
        invariant black == |DarkBefore(modules, size, x, y)|
      {
        DarkNext(modules, size, x, y);
        if modules[y][x] {
          black := black + 1;
        }
      }
      assert DarkBefore(modules, size, size, y) == DarkBefore(modules, size, 0, y + 1);
    }
  }

  lemma DarkNext(g: Grid, size: int, x: nat, y: nat)
    requires Square(g, size) && x < size && y < size
    ensures |DarkBefore(g, size, x + 1, y)| == |DarkBefore(g, size, x, y)| + (if g[y][x] then 1 else 0)
  {
    var s, c := DarkBefore(g, size, x, y), Cell(x, y);
    assert DarkBefore(g, size, x + 1, y) == if g[y][x] then s + {c} else s;
    assert c !in s;
  }
}
