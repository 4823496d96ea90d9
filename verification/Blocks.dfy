/** Data codewords split into blocks of nearly equal length, each with its own error correction
    codewords, and interleaved into the sequence that is drawn.
    Source: web/src/lib/qrcode.js, lines 345-395. */
module Blocks {
  import opened Wrappers
  import opened Gf256
  import opened Sequences
  import opened ReedSolomon
  import opened Distance
  import opened Capacity

  /** n blocks, `short` of them with q codewords and the others with q + 1, of which the last e are
      for error correction */
  datatype Layout = Layout(n: nat, e: nat, q: nat, short: nat) {
    ghost predicate Valid() {
      n > 0 && 1 <= e < q && short <= n
    }

    /** The data codewords of block j */
    function DataLen(j: int): (d: int)
    {
      q - e + (if j < short then 0 else 1)
    }

    /** The data codewords of blocks j and up */
    ghost function DataTotal(j: nat): nat
      requires Valid() && j <= n
      decreases n - j
    {
      if j == n then 0 else DataLen(j) + DataTotal(j + 1)
    }

    /** The first block that takes part in row i: the padding bytes do not */
    function First(i: int): nat {
      if i == q - e then short else 0
    }

    /** The bytes of rows i and up */
    ghost function RowsTotal(i: nat): nat
      requires Valid() && i <= q + 1
      decreases q + 1 - i
    {
      if i == q + 1 then 0 else n - First(i) + RowsTotal(i + 1)
    }
  }

  ghost function LayoutOf(version: int, ecl: Ecc): (l: Layout)
    requires IsVersion(version)
    ensures l.Valid() && l.e <= 255 && l.q <= 254
  {
    TableSplits(version, ecl);
    var n, total, raw := EccBlocks(version, ecl), EccCodewords(version, ecl), RawCodewords(version);
    Layout(n, total / n, raw / n, n - raw % n)
  }

  lemma {:induction false} DataTotalIs(l: Layout, j: nat)
    requires l.Valid() && j <= l.n
    ensures l.DataTotal(j) == (l.n - j) * (l.q - l.e) + l.n - (if j < l.short then l.short else j)
    decreases l.n - j
  {
    if j < l.n {
      DataTotalIs(l, j + 1);
      OneMore(l.n - j - 1, l.q - l.e);
    }
  }

  lemma {:induction false} RowsTotalIs(l: Layout, i: nat)
    requires l.Valid() && i <= l.q + 1
    ensures l.RowsTotal(i) == (l.q + 1 - i) * l.n - (if i <= l.q - l.e then l.short else 0)
    decreases l.q + 1 - i
  {
    if i <= l.q {
      RowsTotalIs(l, i + 1);
      OneMore(l.q - i, l.n);
    }
  }

  lemma OneMore(k: int, m: int)
    ensures (k + 1) * m == k * m + m
  {
  }

  lemma Distributes(n: int, q: int, e: int)
    ensures n * (q - e) == n * q - n * e && (q + 1) * n == n * q + n
  {
  }

  lemma Exactly(a: int, n: int)
    requires n > 0
    ensures a == n * (a / n) + a % n
  {
  }

  lemma TotalsOf(l: Layout)
    requires l.Valid()
    ensures l.DataTotal(0) == l.n * l.q + l.n - l.short - l.n * l.e
    ensures l.RowsTotal(0) == l.n * l.q + l.n - l.short
  {
    DataTotalIs(l, 0);
    RowsTotalIs(l, 0);
    hide Layout.DataTotal, Layout.RowsTotal;
    Distributes(l.n, l.q, l.e);
  }

  lemma LayoutTotals(version: int, ecl: Ecc)
    requires IsVersion(version)
    ensures NumDataCodewords(version, ecl) == LayoutOf(version, ecl).DataTotal(0)
    ensures RawCodewords(version) == LayoutOf(version, ecl).RowsTotal(0)
  {
    TableSplits(version, ecl);
    hide EccBlocks, EccCodewords, RawCodewords, Layout.DataTotal, Layout.RowsTotal;
    var l := LayoutOf(version, ecl);
    Exactly(RawCodewords(version), l.n);
    Exactly(EccCodewords(version, ecl), l.n);
    TotalsOf(l);
  }

  // ---------- Splitting ----------

  /** The data parts of blocks j and up */
  ghost function Split(l: Layout, data: seq<Byte>, j: nat): (ds: seq<seq<Byte>>)
    requires l.Valid() && j <= l.n && |data| == l.DataTotal(j)
    ensures |ds| == l.n - j
    ensures forall k :: 0 <= k < |ds| ==> |ds[k]| == l.DataLen(j + k)
    decreases l.n - j
  {
    if j == l.n then []
    else
      [data[..l.DataLen(j)]] + Split(l, data[l.DataLen(j)..], j + 1)
  }

  /** The slices partition the data. */
  lemma {:induction false} SplitPartitions(l: Layout, data: seq<Byte>, j: nat)
    requires l.Valid() && j <= l.n && |data| == l.DataTotal(j)
    ensures Concat(Split(l, data, j)) == data
    decreases l.n - j
  {
    if j < l.n {
      SplitPartitions(l, data[l.DataLen(j)..], j + 1);
      ConcatFirst(Split(l, data, j));
    }
  }

  /** A block as it is stored for interleaving: short blocks get a padding byte before their error
      correction codewords, so that all blocks are equally long. */
  ghost function Stored(l: Layout, d: seq<Byte>, j: nat): (b: seq<Byte>)
    requires l.Valid() && |d| == l.DataLen(j)
    ensures |b| == l.q + 1
  {
    d + (if j < l.short then [0] else []) + Remainder(d, GeneratorPoly(l.e))
  }

  ghost function StoredBlocks(l: Layout, ds: seq<seq<Byte>>): (bs: seq<seq<Byte>>)
    requires l.Valid() && forall k :: 0 <= k < |ds| ==> |ds[k]| == l.DataLen(k)
    ensures |bs| == |ds|
    ensures forall k :: 0 <= k < |ds| ==> bs[k] == Stored(l, ds[k], k) && |bs[k]| == l.q + 1
  {
    seq(|ds|, k requires 0 <= k < |ds| => Stored(l, ds[k], k))
  }

  // ---------- Interleaving ----------

  ghost predicate Shaped(l: Layout, blocks: seq<seq<Byte>>) {
    |blocks| == l.n && forall j :: 0 <= j < l.n ==> |blocks[j]| == l.q + 1
  }

  /** The i-th byte of every block, without the padding bytes */
  ghost function Row(l: Layout, blocks: seq<seq<Byte>>, i: nat): (r: seq<Byte>)
    requires l.Valid() && Shaped(l, blocks) && i <= l.q
    ensures |r| == l.n - l.First(i)
  {
    seq(l.n - l.First(i), j requires 0 <= j < l.n - l.First(i) => blocks[j + l.First(i)][i])
  }

  /** Rows i and up */
  ghost function Interleave(l: Layout, blocks: seq<seq<Byte>>, i: nat): (r: seq<Byte>)
    requires l.Valid() && Shaped(l, blocks) && i <= l.q + 1
    ensures |r| == l.RowsTotal(i)
    decreases l.q + 1 - i
  {
    if i == l.q + 1 then [] else Row(l, blocks, i) + Interleave(l, blocks, i + 1)
  }

  /** The whole final codeword sequence */
  ghost function FinalSequence(data: seq<Byte>, version: int, ecl: Ecc): (r: seq<Byte>)
    requires IsVersion(version) && |data| == NumDataCodewords(version, ecl)
    ensures |r| == RawCodewords(version)
  {
    var l := LayoutOf(version, ecl);
    LayoutTotals(version, ecl);
    Interleave(l, StoredBlocks(l, Split(l, data, 0)), 0)
  }

  // ---------- The reader's side ----------

  /** Cuts a codeword sequence back into rows i and up. */
  ghost function Rows(l: Layout, r: seq<Byte>, i: nat): (rows: seq<seq<Byte>>)
    requires l.Valid() && i <= l.q + 1 && |r| == l.RowsTotal(i)
    ensures |rows| == l.q + 1 - i
    ensures forall k :: 0 <= k < |rows| ==> |rows[k]| == l.n - l.First(i + k)
    decreases l.q + 1 - i
  {
    if i == l.q + 1 then []
    else
      var w := l.n - l.First(i);
      [r[..w]] + Rows(l, r[w..], i + 1)
  }

  /** Block j, data and error correction codewords, picked from the rows */
  ghost function Pick(l: Layout, rows: seq<seq<Byte>>, j: nat): (b: seq<Byte>)
    requires l.Valid() && j < l.n
    requires |rows| == l.q + 1 && forall k :: 0 <= k < |rows| ==> |rows[k]| == l.n - l.First(k)
    ensures |b| == l.DataLen(j) + l.e
  {
    var d := l.DataLen(j);
    seq(d + l.e, t requires 0 <= t < d + l.e => rows[RowOf(l, j, t)][j - l.First(RowOf(l, j, t))])
  }

  /** What a reader makes of a codeword sequence: the blocks, and from them the data. */
  ghost function ReadBlock(r: seq<Byte>, version: int, ecl: Ecc, j: nat): seq<Byte>
    requires IsVersion(version) && |r| == RawCodewords(version) && j < LayoutOf(version, ecl).n
  {
    var l := LayoutOf(version, ecl);
    LayoutTotals(version, ecl);
    Pick(l, Rows(l, r, 0), j)
  }

  ghost function ReadData(r: seq<Byte>, version: int, ecl: Ecc): seq<Byte>
    requires IsVersion(version) && |r| == RawCodewords(version)
  {
    var l := LayoutOf(version, ecl);
    LayoutTotals(version, ecl);
    Concat(seq(l.n, j requires 0 <= j < l.n => Pick(l, Rows(l, r, 0), j)[..l.DataLen(j)]))
  }

  ghost function AllRows(l: Layout, blocks: seq<seq<Byte>>, i: nat): (rows: seq<seq<Byte>>)
    requires l.Valid() && Shaped(l, blocks) && i <= l.q + 1
    ensures |rows| == l.q + 1 - i
    decreases l.q + 1 - i
  {
    if i == l.q + 1 then [] else [Row(l, blocks, i)] + AllRows(l, blocks, i + 1)
  }

  lemma {:induction false} AllRowsAt(l: Layout, blocks: seq<seq<Byte>>, i: nat, k: nat)
    requires l.Valid() && Shaped(l, blocks) && i + k <= l.q
    ensures AllRows(l, blocks, i)[k] == Row(l, blocks, i + k)
    decreases k
  {
    if k > 0 {
      AllRowsAt(l, blocks, i + 1, k - 1);
    }
  }

  /** Cutting undoes interleaving. */
  lemma {:induction false} RowsOfInterleave(l: Layout, blocks: seq<seq<Byte>>, i: nat)
    requires l.Valid() && Shaped(l, blocks) && i <= l.q + 1
    ensures Rows(l, Interleave(l, blocks, i), i) == AllRows(l, blocks, i)
    decreases l.q + 1 - i
  {
    if i <= l.q {
      var r, w := Interleave(l, blocks, i), l.n - l.First(i);
      assert r[..w] == Row(l, blocks, i) && r[w..] == Interleave(l, blocks, i + 1);
      RowsOfInterleave(l, blocks, i + 1);
    }
  }

  /** The row in which entry t of block j stands */
  function RowOf(l: Layout, j: int, t: int): int {
    if t < l.DataLen(j) then t else t - l.DataLen(j) + l.q - l.e + 1
  }

  lemma PickRestores(l: Layout, ds: seq<seq<Byte>>, rows: seq<seq<Byte>>, j: nat)
    requires l.Valid() && j < l.n == |ds| && forall k :: 0 <= k < |ds| ==> |ds[k]| == l.DataLen(k)
    requires rows == AllRows(l, StoredBlocks(l, ds), 0)
    requires forall k :: 0 <= k < |rows| ==> |rows[k]| == l.n - l.First(k)
    ensures Pick(l, rows, j) == Codeword(ds[j], l.e)
  {
    hide AllRows, Row, Stored, Codeword;
    var d := l.DataLen(j);
    var p, c := Pick(l, rows, j), Codeword(ds[j], l.e);
    forall t | 0 <= t < d + l.e
      ensures p[t] == c[t]
    {
      var i := RowOf(l, j, t);
      StoredAt(l, ds[j], j, t);
      AllRowsAt(l, StoredBlocks(l, ds), 0, i);
      RowAt(l, StoredBlocks(l, ds), i, j);
    }
    hide Pick;
    assert p == c;
  }

  lemma RowAt(l: Layout, blocks: seq<seq<Byte>>, i: nat, j: nat)
    requires l.Valid() && Shaped(l, blocks) && i <= l.q && l.First(i) <= j < l.n
    ensures Row(l, blocks, i)[j - l.First(i)] == blocks[j][i]
  {
  }

  lemma StoredAt(l: Layout, d: seq<Byte>, j: nat, t: nat)
    requires l.Valid() && |d| == l.DataLen(j) && t < |d| + l.e
    ensures Stored(l, d, j)[RowOf(l, j, t)] == Codeword(d, l.e)[t]
  {
    hide Remainder, GeneratorPoly;
  }

  lemma CodewordData(d: seq<Byte>, e: nat)
    requires e > 0
    ensures Codeword(d, e)[..|d|] == d
  {
  }

  /** A reader recovers every block with its error correction codewords, and all the data. */
  lemma ReadBack(data: seq<Byte>, version: int, ecl: Ecc)
    requires IsVersion(version) && |data| == NumDataCodewords(version, ecl)
    ensures ReadData(FinalSequence(data, version, ecl), version, ecl) == data
    ensures var l := LayoutOf(version, ecl);
            |data| == l.DataTotal(0) &&
            forall j: nat :: j < l.n ==>
              ReadBlock(FinalSequence(data, version, ecl), version, ecl, j) == Codeword(Split(l, data, 0)[j], l.e)
  {
    hide NumDataCodewords, RawCodewords, LayoutOf, Layout.DataTotal, Layout.RowsTotal, Row, AllRows, Interleave, Rows,
      Pick, Split, Codeword, Stored;
    var l := LayoutOf(version, ecl);
    LayoutTotals(version, ecl);
    var ds := Split(l, data, 0);
    var blocks := StoredBlocks(l, ds);
    var r := FinalSequence(data, version, ecl);
    RowsOfInterleave(l, blocks, 0);
    var rows := Rows(l, r, 0);
    forall j: nat | j < l.n
      ensures Pick(l, rows, j) == Codeword(ds[j], l.e)
    {
      PickRestores(l, ds, rows, j);
    }
    SplitPartitions(l, data, 0);
    assert seq(l.n, j requires 0 <= j < l.n => Pick(l, rows, j)[..l.DataLen(j)]) == ds by {
      forall j: nat | j < l.n
        ensures Pick(l, rows, j)[..l.DataLen(j)] == ds[j]
      {
        CodewordData(ds[j], l.e);
      }
    }
  }

  // ---------- Where every codeword goes ----------

  lemma {:induction false} InterleaveAt(l: Layout, blocks: seq<seq<Byte>>, i: nat, k: nat, j: nat)
    requires l.Valid() && Shaped(l, blocks) && i <= k <= l.q && l.First(k) <= j < l.n
    ensures var o := l.RowsTotal(i) - l.RowsTotal(k) + j - l.First(k);
            0 <= o < l.RowsTotal(i) && Interleave(l, blocks, i)[o] == blocks[j][k]
    decreases k - i
  {
    hide Row;
    if i < k {
      InterleaveAt(l, blocks, i + 1, k, j);
    } else {
      RowAt(l, blocks, i, j);
    }
  }

  /** Where row k starts */
  lemma RowStart(l: Layout, k: nat)
    requires l.Valid() && k <= l.q
    ensures l.RowsTotal(0) - l.RowsTotal(k) == k * l.n - (if k <= l.q - l.e then 0 else l.short)
  {
    RowsTotalIs(l, 0);
    RowsTotalIs(l, k);
    hide Layout.RowsTotal;
    LessRows(l.q + 1, k, l.n);
  }

  lemma LessRows(a: int, k: int, n: int)
    ensures a * n - (a - k) * n == k * n
  {
  }

  /** Where the data of block j start */
  ghost function Start(l: Layout, j: nat): int {
    j * (l.q - l.e) + (if j < l.short then 0 else j - l.short)
  }

  lemma StartNext(l: Layout, j: nat)
    requires l.Valid()
    ensures Start(l, j + 1) == Start(l, j) + l.DataLen(j)
    ensures Start(l, 0) == 0
  {
    OneMore(j, l.q - l.e);
  }

  lemma {:induction false} SplitAt(l: Layout, data: seq<Byte>, j: nat, k: nat)
    requires l.Valid() && j <= k < l.n && |data| == l.DataTotal(j)
    ensures var o := Start(l, k) - Start(l, j);
            0 <= o <= o + l.DataLen(k) <= |data| && Split(l, data, j)[k - j] == data[o..o + l.DataLen(k)]
    decreases k - j
  {
    hide Start, Split, Layout.DataTotal;
    StartNext(l, j);
    SplitFirst(l, data, j);
    if j < k {
      var d := l.DataLen(j);
      SplitAt(l, data[d..], j + 1, k);
      var o := Start(l, k) - Start(l, j + 1);
      SliceOfRest(data, d, o, l.DataLen(k));
    }
  }

  lemma SplitFirst(l: Layout, data: seq<Byte>, j: nat)
    requires l.Valid() && j < l.n && |data| == l.DataTotal(j)
    ensures var d := l.DataLen(j);
            && 0 <= d <= |data| && |data| - d == l.DataTotal(j + 1)
            && Split(l, data, j) == [data[..d]] + Split(l, data[d..], j + 1)
  {
  }

  lemma SliceOfRest(data: seq<Byte>, d: int, o: int, m: int)
    requires 0 <= d && 0 <= o && 0 <= m && d + o + m <= |data|
    ensures data[d..][o..o + m] == data[d + o..d + o + m]
  {
  }

  /** The layout of a version and level: the longer blocks come last. */
  lemma LayoutIs(version: int, ecl: Ecc)
    requires IsVersion(version)
    ensures var l, raw := LayoutOf(version, ecl), RawCodewords(version);
            && l.n == EccBlocks(version, ecl) && l.e == EccCodewords(version, ecl) / l.n
            && l.q == raw / l.n && l.short == l.n - raw % l.n
  {
    hide EccBlocks, EccCodewords, RawCodewords;
  }

  /** The data of the blocks by turns: codeword t of block j is codeword number t * n + j of the final sequence, and is
      the t-th of the data from where the block starts; the shorter blocks come first. */
  lemma DataPlace(data: seq<Byte>, version: int, ecl: Ecc, j: nat, t: nat, place: int, start: int)
    requires IsVersion(version) && |data| == NumDataCodewords(version, ecl)
    requires var l := LayoutOf(version, ecl);
             && j < l.n && t < l.q - l.e && place == t * l.n + j
             && start == j * (l.q - l.e) + (if j < l.short then 0 else j - l.short)
    ensures 0 <= place < RawCodewords(version) && 0 <= start <= start + t < |data|
    ensures FinalSequence(data, version, ecl)[place] == data[start + t]
  {
    hide NumDataCodewords, RawCodewords, LayoutOf, Layout.DataTotal, Layout.RowsTotal, Interleave, Split, StoredBlocks,
      Stored;
    var l := LayoutOf(version, ecl);
    LayoutTotals(version, ecl);
    RowStart(l, t);
    var o, block := BlockEntry(l, data, j, t);
    StoredParts(l, block, j, t, 0);
  }

  /** Then the last data codewords of the longer blocks */
  lemma LastDataPlace(data: seq<Byte>, version: int, ecl: Ecc, j: nat, place: int, start: int)
    requires IsVersion(version) && |data| == NumDataCodewords(version, ecl)
    requires var l := LayoutOf(version, ecl);
             && l.short <= j < l.n && place == (l.q - l.e) * l.n + j - l.short
             && start == j * (l.q - l.e) + j - l.short
    ensures var d := LayoutOf(version, ecl).q - LayoutOf(version, ecl).e;
            && 0 <= place < RawCodewords(version) && 0 <= start <= start + d < |data|
            && FinalSequence(data, version, ecl)[place] == data[start + d]
  {
    hide NumDataCodewords, RawCodewords, LayoutOf, Layout.DataTotal, Layout.RowsTotal, Interleave, Split, StoredBlocks,
      Stored;
    var l := LayoutOf(version, ecl);
    LayoutTotals(version, ecl);
    RowStart(l, l.q - l.e);
    var o, block := BlockEntry(l, data, j, l.q - l.e);
    StoredParts(l, block, j, l.q - l.e, 0);
  }

  /** And then the error correction codewords of the blocks by turns */
  lemma CheckPlace(data: seq<Byte>, version: int, ecl: Ecc, j: nat, t: nat, place: int, start: int)
    requires IsVersion(version) && |data| == NumDataCodewords(version, ecl)
    requires var l := LayoutOf(version, ecl);
             && j < l.n && t < l.e && place == |data| + t * l.n + j
             && start == j * (l.q - l.e) + (if j < l.short then 0 else j - l.short)
    ensures var l := LayoutOf(version, ecl); var end := start + l.q - l.e + (if j < l.short then 0 else 1);
            && 0 <= place < RawCodewords(version) && 0 <= start <= end <= |data|
            && FinalSequence(data, version, ecl)[place] == Remainder(data[start..end], GeneratorPoly(l.e))[t]
  {
    hide NumDataCodewords, RawCodewords, LayoutOf, Layout.DataTotal, Layout.RowsTotal, Interleave, Split, StoredBlocks,
      Stored, Remainder, GeneratorPoly;
    var l := LayoutOf(version, ecl);
    LayoutTotals(version, ecl);
    var k := l.q - l.e + 1 + t;
    RowStart(l, k);
    TotalsOf(l);
    CheckRow(l, t, j, |data|);
    var o, block := BlockEntry(l, data, j, k);
    StoredParts(l, block, j, k, t);
  }

  lemma CheckRow(l: Layout, t: nat, j: nat, total: int)
    requires l.Valid() && total == l.n * l.q + l.n - l.short - l.n * l.e
    ensures total + t * l.n + j == (l.q - l.e + 1 + t) * l.n - l.short + j
  {
    Distributes(l.n, l.q, l.e);
  }

  /** Block j as it is stored */
  lemma StoredOf(l: Layout, data: seq<Byte>, j: nat) returns (block: seq<Byte>)
    requires l.Valid() && |data| == l.DataTotal(0) && j < l.n
    ensures 0 <= Start(l, j) <= Start(l, j) + l.DataLen(j) <= |data|
    ensures block == data[Start(l, j)..Start(l, j) + l.DataLen(j)] && |block| == l.DataLen(j)
    ensures StoredBlocks(l, Split(l, data, 0))[j] == Stored(l, block, j)
  {
    StartNext(l, 0);
    SplitAt(l, data, 0, j);
    hide Split, Start, Stored, Layout.DataTotal;
    block := Split(l, data, 0)[j];
  }

  /** Entry k of a stored block j stands in row k. */
  lemma BlockEntry(l: Layout, data: seq<Byte>, j: nat, k: nat) returns (o: int, block: seq<Byte>)
    requires l.Valid() && |data| == l.DataTotal(0) && j < l.n && l.First(k) <= j && k <= l.q
    ensures 0 <= Start(l, j) <= Start(l, j) + l.DataLen(j) <= |data|
    ensures block == data[Start(l, j)..Start(l, j) + l.DataLen(j)] && |block| == l.DataLen(j)
    ensures o == l.RowsTotal(0) - l.RowsTotal(k) + j - l.First(k) && 0 <= o < l.RowsTotal(0)
    ensures Interleave(l, StoredBlocks(l, Split(l, data, 0)), 0)[o] == Stored(l, block, j)[k]
  {
    block := StoredOf(l, data, j);
    InterleaveAt(l, StoredBlocks(l, Split(l, data, 0)), 0, k, j);
    hide Split, Interleave, Start, Stored, StoredBlocks, Layout.DataTotal, Layout.RowsTotal, Layout.First;
    o := l.RowsTotal(0) - l.RowsTotal(k) + j - l.First(k);
  }

  lemma StoredParts(l: Layout, block: seq<Byte>, j: nat, k: nat, t: nat)
    requires l.Valid() && |block| == l.DataLen(j) && k <= l.q
    ensures k < l.DataLen(j) ==> Stored(l, block, j)[k] == block[k]
    ensures k == l.q - l.e + 1 + t && t < l.e ==> Stored(l, block, j)[k] == Remainder(block, GeneratorPoly(l.e))[t]
  {
    hide Remainder, GeneratorPoly;
  }

  // ---------- Damage ----------

  /** In every block of r, at most half as many bytes as it has error correction codewords differ from the
      block that was made from data. */
  ghost predicate Near(r: seq<Byte>, data: seq<Byte>, version: int, ecl: Ecc)
    requires IsVersion(version) && |r| == RawCodewords(version) && |data| == NumDataCodewords(version, ecl)
  {
    var l := LayoutOf(version, ecl);
    |data| == l.DataTotal(0) &&
    forall j: nat :: j < l.n ==> BlockNear(l, ReadBlock(r, version, ecl, j), Split(l, data, 0)[j])
  }

  ghost predicate BlockNear(l: Layout, read: seq<Byte>, d: seq<Byte>)
    requires l.Valid()
  {
    |read| == |d| + l.e && 2 * Differences(read, Codeword(d, l.e)) <= l.e
  }

  /** What is read without damage is near. */
  lemma UndamagedIsNear(data: seq<Byte>, version: int, ecl: Ecc)
    requires IsVersion(version) && |data| == NumDataCodewords(version, ecl)
    ensures Near(FinalSequence(data, version, ecl), data, version, ecl)
  {
    hide NumDataCodewords, RawCodewords, LayoutOf, Layout.DataTotal, ReadBlock, FinalSequence, Codeword, Split;
    ReadBack(data, version, ecl);
    var l := LayoutOf(version, ecl);
    forall j: nat | j < l.n
      ensures BlockNear(l, ReadBlock(FinalSequence(data, version, ecl), version, ecl, j), Split(l, data, 0)[j])
    {
      NoDamage(Codeword(Split(l, data, 0)[j], l.e));
    }
  }

  lemma {:induction false} NoDamage(p: seq<Byte>)
    ensures Differences(p, p) == 0
  {
    if p != [] {
      NoDamage(p[1..]);
    }
  }

  /** However a symbol is damaged, as long as no block has more than half as many wrong bytes as it has error
      correction codewords, only one data sequence is near. */
  lemma DamagedSymbolIdentifiesData(r: seq<Byte>, a: seq<Byte>, b: seq<Byte>, version: int, ecl: Ecc)
    requires IsVersion(version) && |r| == RawCodewords(version)
    requires |a| == |b| == NumDataCodewords(version, ecl)
    requires Near(r, a, version, ecl) && Near(r, b, version, ecl)
    ensures a == b
  {
    hide NumDataCodewords, RawCodewords, LayoutOf, Layout.DataTotal, ReadBlock, Codeword, Split, Differences;
    var l := LayoutOf(version, ecl);
    var s, t := Split(l, a, 0), Split(l, b, 0);
    forall j: nat | j < l.n
      ensures s[j] == t[j]
    {
      DamagedBlockIdentifiesData(ReadBlock(r, version, ecl, j), s[j], t[j], l.e);
    }
    assert s == t;
    SplitPartitions(l, a, 0);
    SplitPartitions(l, b, 0);
  }

  // ---------- The operation ----------

  method AppendErrorCorrection(data: seq<Byte>, version: int, ecl: Ecc) returns (r: Result<seq<Byte>>)
    requires IsVersion(version)
    ensures r.Ok? <==> |data| == NumDataCodewords(version, ecl)
    ensures r.Ok? ==> r.value == FinalSequence(data, version, ecl)
  {
    if |data| != NumDataCodewords(version, ecl) {
      return Err("Invalid argument");
    }
    ghost var l := LayoutOf(version, ecl);
    LayoutTotals(version, ecl);
    TableSplits(version, ecl);

    var numBlocks := EccBlocks(version, ecl);
    var totalEcc := EccCodewords(version, ecl);
    if totalEcc % numBlocks != 0 {
      return Err("Assertion error");
    }
    var blockEccLen := totalEcc / numBlocks;
    var numShortBlocks := numBlocks - RawCodewords(version) % numBlocks;
    NestedFloor(NumRawDataModules(version), numBlocks);
    var shortBlockLen := NumRawDataModules(version) / (numBlocks * 8);
    hide NumDataCodewords, RawCodewords, EccBlocks, EccCodewords, Interleave, Split, StoredBlocks, Layout.DataTotal,
      Layout.RowsTotal;
    assert l == Layout(numBlocks, blockEccLen, shortBlockLen, numShortBlocks);
    var blocks := SplitIntoBlocks(data, numBlocks, blockEccLen, shortBlockLen, numShortBlocks);
    var result := InterleaveBlocks(blocks, numBlocks, blockEccLen, shortBlockLen, numShortBlocks);
    if |result| != RawCodewords(version) {
      return Err("Assertion error");
    }
    return Ok(result);
  }

  lemma NestedFloor(x: nat, n: nat)
    requires n > 0
    ensures x / (n * 8) == x / 8 / n
  {
    var q, r := x / 8 / n, x / 8 % n;
    Exactly(x / 8, n);
    assert x == q * (n * 8) + (8 * r + x % 8);
    ModUnique(x, n * 8, q, 8 * r + x % 8);
  }

  method InterleaveBlocks(blocks: seq<seq<Byte>>, numBlocks: int, blockEccLen: int, shortBlockLen: int,
    numShortBlocks: int)
    returns (result: seq<Byte>)
    requires 0 < numBlocks && 1 <= blockEccLen < shortBlockLen && 0 <= numShortBlocks <= numBlocks
    requires Shaped(Layout(numBlocks, blockEccLen, shortBlockLen, numShortBlocks), blocks)
    ensures result == Interleave(Layout(numBlocks, blockEccLen, shortBlockLen, numShortBlocks), blocks, 0)
  {
    ghost var l := Layout(numBlocks, blockEccLen, shortBlockLen, numShortBlocks);
    assert l.Valid();
    hide Interleave, Row, RowUpTo, Shaped, Layout.RowsTotal, Layout.First, Layout.Valid;
    result := [];
    for i := 0 to shortBlockLen + 1
      invariant result + Interleave(l, blocks, i) == Interleave(l, blocks, 0)
    {
      InterleaveStep(l, blocks, i, result);
      result := AppendRow(result, blocks, i, numBlocks, blockEccLen, shortBlockLen, numShortBlocks);
    }
    LastRow(l, blocks);
  }

  /** Appends the i-th byte of every block, skipping the padding bytes. */
  method AppendRow(before: seq<Byte>, blocks: seq<seq<Byte>>, i: nat, numBlocks: int, blockEccLen: int,
    shortBlockLen: int, numShortBlocks: int) returns (result: seq<Byte>)
    requires 0 < numBlocks && 1 <= blockEccLen < shortBlockLen && 0 <= numShortBlocks <= numBlocks
    requires Shaped(Layout(numBlocks, blockEccLen, shortBlockLen, numShortBlocks), blocks)
    requires i <= shortBlockLen
    ensures result == before + Row(Layout(numBlocks, blockEccLen, shortBlockLen, numShortBlocks), blocks, i)
  {
    ghost var l := Layout(numBlocks, blockEccLen, shortBlockLen, numShortBlocks);
    hide Row, RowUpTo;
    RowComplete(l, blocks, i);
    result := before;
    for j := 0 to numBlocks
      invariant result == before + RowUpTo(l, blocks, i, j)
    {
      RowNext(l, blocks, i, j);
      if i != shortBlockLen - blockEccLen || j >= numShortBlocks {
        result := result + [blocks[j][i]];
      }
    }
  }

  /** What the blocks before j contribute to row i */
  ghost function RowUpTo(l: Layout, blocks: seq<seq<Byte>>, i: nat, j: nat): seq<Byte>
    requires l.Valid() && Shaped(l, blocks) && i <= l.q && j <= l.n
  {
    Row(l, blocks, i)[..if j < l.First(i) then 0 else j - l.First(i)]
  }

  lemma RowNext(l: Layout, blocks: seq<seq<Byte>>, i: nat, j: nat)
    requires l.Valid() && Shaped(l, blocks) && i <= l.q && j < l.n
    ensures RowUpTo(l, blocks, i, j + 1) == RowUpTo(l, blocks, i, j) + (if j < l.First(i) then [] else [blocks[j][i]])
  {
  }

  lemma RowComplete(l: Layout, blocks: seq<seq<Byte>>, i: nat)
    requires l.Valid() && Shaped(l, blocks) && i <= l.q
    ensures RowUpTo(l, blocks, i, l.n) == Row(l, blocks, i)
    ensures RowUpTo(l, blocks, i, 0) == []
  {
  }

  lemma LastRow(l: Layout, blocks: seq<seq<Byte>>)
    requires l.Valid() && Shaped(l, blocks)
    ensures Interleave(l, blocks, l.q + 1) == []
  {
  }

  lemma InterleaveStep(l: Layout, blocks: seq<seq<Byte>>, i: nat, before: seq<Byte>)
    requires l.Valid() && Shaped(l, blocks) && i <= l.q
    ensures before + Interleave(l, blocks, i) == before + Row(l, blocks, i) + Interleave(l, blocks, i + 1)
  {
  }

  lemma SplitStep(l: Layout, data: seq<Byte>, k: nat, i: nat)
    requires l.Valid() && i < l.n && k <= |data| && |data| - k == l.DataTotal(i)
    ensures var len := l.DataLen(i);
            && k + len <= |data| && |data| - (k + len) == l.DataTotal(i + 1)
            && Split(l, data[k..], i) == [data[k..k + len]] + Split(l, data[k + len..], i + 1)
  {
    var len := l.DataLen(i);
    assert data[k..][..len] == data[k..k + len] && data[k..][len..] == data[k + len..];
  }

  method SplitIntoBlocks(data: seq<Byte>, numBlocks: int, blockEccLen: int, shortBlockLen: int, numShortBlocks: int)
    returns (blocks: seq<seq<Byte>>)
    requires 0 < numBlocks && 1 <= blockEccLen < shortBlockLen && blockEccLen <= 255 && 0 <= numShortBlocks <= numBlocks
    requires |data| == Layout(numBlocks, blockEccLen, shortBlockLen, numShortBlocks).DataTotal(0)
    ensures var l := Layout(numBlocks, blockEccLen, shortBlockLen, numShortBlocks);
            blocks == StoredBlocks(l, Split(l, data, 0))
  {
    hide Remainder, GeneratorPoly, Split, Layout.DataTotal;
    ghost var l := Layout(numBlocks, blockEccLen, shortBlockLen, numShortBlocks);
    ghost var ds := Split(l, data, 0);
    blocks := [];
    var rs := new ReedSolomonGenerator(blockEccLen);
    var k := 0;
    for i := 0 to numBlocks
      invariant 0 <= k <= |data| && |data| - k == l.DataTotal(i)
      invariant Split(l, data[k..], i) == ds[i..]
      invariant |blocks| == i && forall m :: 0 <= m < i ==> blocks[m] == Stored(l, ds[m], m)
      invariant rs.Valid() && rs.coefficients.Length == blockEccLen
    {
      var len := shortBlockLen - blockEccLen + (if i < numShortBlocks then 0 else 1);
      SplitStep(l, data, k, i);
      var dat := data[k..k + len];
      assert ds[i] == ds[i..][0] == dat && ds[i + 1..] == ds[i..][1..];
      k := k + |dat|;
      var ecc := rs.GetRemainder(dat);
      if i < numShortBlocks {
        dat := dat + [0];
      }
      blocks := blocks + [dat + ecc];
    }
  }
}
