/** Summaries of the seats on a row.
    Source: web/src/lib/summarizeSeatingRange.ts. */
module Seats {
  import opened Wrappers
  import opened Decimals
  import opened Sequences

  // ---------- Grouping ----------

  /** Consecutive numbers, at least one */
  ghost predicate IsRange(g: seq<int>) {
    g != [] && forall i :: 0 <= i < |g| ==> g[i] == g[0] + i
  }

  ghost predicate AllRanges(groups: seq<seq<int>>) {
    forall i :: 0 <= i < |groups| ==> IsRange(groups[i])
  }

  predicate Continues(g: seq<int>, h: seq<int>) {
    g != [] && h != [] && h[0] == g[|g| - 1] + 1
  }

  /** No group continues the one before it. */
  ghost predicate Maximal(groups: seq<seq<int>>) {
    forall i, j :: 0 <= i < j < |groups| && j == i + 1 ==> !Continues(groups[i], groups[j])
  }

  /** A list with one more number, put into the last group if it follows on */
  function Extend(groups: seq<seq<int>>, curr: int): seq<seq<int>>
    requires groups != []
  {
    groups[..|groups| - 1] + [groups[|groups| - 1] + [curr]]
  }

  /** Whether the last number of a list follows on from the one before */
  predicate FollowsOn(nums: seq<int>) {
    |nums| >= 2 && nums[|nums| - 1] == nums[|nums| - 2] + 1
  }

  function Groups(nums: seq<int>): (g: seq<seq<int>>)
    ensures g == [] <==> nums == []
  {
    if nums == [] then []
    else
      var k := |nums| - 1;
      if FollowsOn(nums) then Extend(Groups(nums[..k]), nums[k]) else Groups(nums[..k]) + [[nums[k]]]
  }

  method GroupSeatingRange(nums: seq<int>) returns (groups: seq<seq<int>>)
    ensures groups == Groups(nums)
  {
    hide FollowsOn;
    groups := [];
    var lastElement: Option<int> := None;
    for i := 0 to |nums|
      invariant groups == Groups(nums[..i])
      invariant lastElement == if i == 0 then None else Some(nums[i - 1])
    {
      var curr := nums[i];
      GroupsNext(nums, i);
      if lastElement.None? || curr != lastElement.value + 1 {
        groups := groups + [[curr]];
      } else {
        groups := groups[..|groups| - 1] + [groups[|groups| - 1] + [curr]];
      }
      lastElement := Some(curr);
    }
    assert nums[..|nums|] == nums;
  }

  lemma GroupsNext(nums: seq<int>, i: nat)
    requires i < |nums|
    ensures Groups(nums[..i + 1])
            == if i > 0 && nums[i] == nums[i - 1] + 1 then Extend(Groups(nums[..i]), nums[i])
               else Groups(nums[..i]) + [[nums[i]]]
  {
    assert nums[..i + 1][..i] == nums[..i];
  }

  // ---------- The only maximal grouping, and the shortest ----------

  /** Groups without the last number */
  function Peel(groups: seq<seq<int>>): seq<seq<int>>
    requires groups != [] && groups[|groups| - 1] != []
  {
    var k := |groups| - 1;
    var last := groups[k];
    if |last| == 1 then groups[..k] else groups[..k] + [last[..|last| - 1]]
  }

  lemma {:induction false} ConcatEmpty(groups: seq<seq<int>>)
    requires AllRanges(groups)
    ensures Concat(groups) == [] <==> groups == []
    ensures groups != [] ==>
      var last := groups[|groups| - 1];
      IsRange(last) && |Concat(groups)| >= |last| && Concat(groups)[|Concat(groups)| - 1] == last[|last| - 1]
  {
    if groups != [] {
      assert IsRange(groups[|groups| - 1]);
    }
  }

  lemma PeelConcat(groups: seq<seq<int>>)
    requires AllRanges(groups) && groups != [] && groups[|groups| - 1] != []
    ensures var n := Concat(groups); n != [] && Concat(Peel(groups)) == n[..|n| - 1]
    ensures AllRanges(Peel(groups))
  {
    PeelRanges(groups);
    var k := |groups| - 1;
    var last, front := groups[k], groups[..k];
    hide AllRanges, Concat;
    assert groups == front + [last];
    ConcatAppend(front, last);
    if |last| > 1 {
      ConcatAppend(front, last[..|last| - 1]);
    }
  }

  lemma PeelRanges(groups: seq<seq<int>>)
    requires AllRanges(groups) && groups != [] && groups[|groups| - 1] != []
    ensures AllRanges(Peel(groups))
  {
    var last := groups[|groups| - 1];
    assert IsRange(last);
    assert |last| > 1 ==> IsRange(last[..|last| - 1]);
    hide IsRange;
  }

  /** The last number follows on if the last group is longer than it, and only then if the groups are maximal. */
  lemma PeelFollows(groups: seq<seq<int>>)
    requires AllRanges(groups) && groups != [] && groups[|groups| - 1] != []
    ensures var last := groups[|groups| - 1];
            if |last| > 1 then FollowsOn(Concat(groups)) else Maximal(groups) ==> !FollowsOn(Concat(groups))
  {
    var k := |groups| - 1;
    var last, front, n := groups[k], groups[..k], Concat(groups);
    assert IsRange(last);
    ConcatEmpty(groups);
    ConcatEmpty(front);
    assert n == Concat(front) + last;
    if |last| > 1 {
      assert n[|n| - 1] == last[|last| - 1] && n[|n| - 2] == last[|last| - 2];
    } else if k > 0 && Maximal(groups) {
      assert !Continues(groups[k - 1], groups[k]);
      assert front[k - 1] == groups[k - 1];
      assert n[|n| - 2] == Concat(front)[|Concat(front)| - 1];
    }
  }

  lemma PeelMaximal(groups: seq<seq<int>>)
    requires Maximal(groups) && groups != [] && groups[|groups| - 1] != []
    ensures Maximal(Peel(groups))
  {
    var p := Peel(groups);
    forall i, j | 0 <= i < j < |p| && j == i + 1
      ensures !Continues(p[i], p[j])
    {
      assert !Continues(groups[i], groups[j]);
    }
  }

  lemma PeelRebuilds(groups: seq<seq<int>>)
    requires groups != [] && groups[|groups| - 1] != []
    ensures var last := groups[|groups| - 1];
            if |last| == 1 then groups == Peel(groups) + [[last[0]]]
            else Peel(groups) != [] && groups == Extend(Peel(groups), last[|last| - 1])
  {
    var k := |groups| - 1;
    var last := groups[k];
    assert groups == groups[..k] + [last];
    if |last| == 1 {
      assert [last[0]] == last;
    } else {
      assert last == last[..|last| - 1] + [last[|last| - 1]];
    }
  }

  lemma GroupsUnfold(nums: seq<int>)
    requires nums != []
    ensures var k := |nums| - 1;
            if FollowsOn(nums) then Groups(nums[..k]) != [] && Groups(nums) == Extend(Groups(nums[..k]), nums[k])
            else Groups(nums) == Groups(nums[..k]) + [[nums[k]]]
  {
  }

  /** Whatever way a list is cut into ranges none of which continues another, it is the computed one. */
  lemma {:induction false} GroupingUnique(groups: seq<seq<int>>)
    requires AllRanges(groups) && Maximal(groups)
    ensures groups == Groups(Concat(groups))
    decreases |Concat(groups)|
  {
    ConcatEmpty(groups);
    if groups != [] {
      var k, n := |groups| - 1, Concat(groups);
      var last := groups[k];
      PeelConcat(groups);
      PeelFollows(groups);
      PeelMaximal(groups);
      PeelRebuilds(groups);
      GroupsUnfold(n);
      hide AllRanges, Maximal, IsRange, FollowsOn, Concat, Groups, Peel, Extend;
      GroupingUnique(Peel(groups));
    }
  }

  /** No way to cut a list into ranges needs fewer of them. */
  lemma {:induction false} GroupingShortest(groups: seq<seq<int>>)
    requires AllRanges(groups)
    ensures |Groups(Concat(groups))| <= |groups|
    decreases |Concat(groups)|
  {
    ConcatEmpty(groups);
    if groups != [] {
      PeelConcat(groups);
      PeelFollows(groups);
      hide AllRanges, Maximal, IsRange, FollowsOn, Concat;
      GroupingShortest(Peel(groups));
    }
  }

  /** The computed groups are ranges, none continues another, and together they are the list. */
  lemma {:induction false} GroupsAreGrouping(nums: seq<int>)
    ensures Concat(Groups(nums)) == nums && AllRanges(Groups(nums)) && Maximal(Groups(nums))
  {
    if nums != [] {
      var k := |nums| - 1;
      GroupsAreGrouping(nums[..k]);
      var g, curr := Groups(nums[..k]), nums[k];
      ConcatEmpty(g);
      GroupsUnfold(nums);
      hide Groups, Concat, AllRanges, Maximal, IsRange;
      assert nums == nums[..k] + [curr];
      if FollowsOn(nums) {
        ExtendGroups(g, curr);
      } else {
        AddGroup(g, curr);
      }
    } else {
      NoGroups();
    }
  }

  lemma NoGroups()
    ensures Groups([]) == [] && Concat<int>([]) == [] && AllRanges([]) && Maximal([])
  {
  }

  lemma AddGroup(groups: seq<seq<int>>, curr: int)
    requires AllRanges(groups) && Maximal(groups)
    requires groups != [] ==> !Continues(groups[|groups| - 1], [curr])
    ensures var more := groups + [[curr]]; Concat(more) == Concat(groups) + [curr] && AllRanges(more) && Maximal(more)
  {
    hide Concat, Continues;
    ConcatAppend(groups, [curr]);
    assert IsRange([curr]);
    hide IsRange;
  }

  lemma ExtendGroups(groups: seq<seq<int>>, curr: int)
    requires AllRanges(groups) && Maximal(groups) && groups != []
    requires IsRange(groups[|groups| - 1]) && Continues(groups[|groups| - 1], [curr])
    ensures var more := Extend(groups, curr);
            Concat(more) == Concat(groups) + [curr] && AllRanges(more) && Maximal(more)
  {
    ExtendMaximal(groups, curr);
    ExtendRanges(groups, curr);
    hide Concat, IsRange, AllRanges, Maximal, Continues;
    var k := |groups| - 1;
    var front, last := groups[..k], groups[k];
    assert groups == front + [last];
    ConcatAppend(front, last);
    ConcatAppend(front, last + [curr]);
  }

  lemma ExtendRanges(groups: seq<seq<int>>, curr: int)
    requires AllRanges(groups) && groups != []
    requires IsRange(groups[|groups| - 1]) && Continues(groups[|groups| - 1], [curr])
    ensures AllRanges(Extend(groups, curr))
  {
    RangeGrows(groups[|groups| - 1], curr);
    hide IsRange, Continues;
  }

  lemma RangeGrows(g: seq<int>, curr: int)
    requires IsRange(g) && Continues(g, [curr])
    ensures IsRange(g + [curr])
  {
  }

  lemma ExtendMaximal(groups: seq<seq<int>>, curr: int)
    requires Maximal(groups) && groups != [] && groups[|groups| - 1] != []
    ensures Maximal(Extend(groups, curr))
  {
    var more := Extend(groups, curr);
    forall i, j | 0 <= i < j < |more| && j == i + 1
      ensures !Continues(more[i], more[j])
    {
      assert !Continues(groups[i], groups[j]);
      assert groups[j] != [] ==> more[j][0] == groups[j][0];
    }
  }

  // ---------- Formatting ----------

  /** String(n), for any integer */
  function Print(n: int): string {
    if n >= 0 then Decimal(n) else "-" + Decimal(-n)
  }

  /** A printed number reads back, with a minus sign exactly if it is negative. */
  lemma PrintReads(n: int)
    ensures var s := Print(n);
            s != "" && (s[0] == '-' <==> n < 0)
            && ReadDigits(if n < 0 then s[1..] else s, 0) == (if n < 0 then -n else n, "")
  {
    var d := Decimal(if n < 0 then -n else n);
    ReadDecimal(if n < 0 then -n else n, "");
    assert d + "" == d && IsDigit(d[0]);
    hide Decimal;
    assert ("-" + d)[1..] == d;
  }

  function FormatRange(range: seq<int>): string
    requires range != []
  {
    if |range| == 1 then Print(range[0]) else Print(range[0]) + "-" + Print(range[|range| - 1])
  }

  function Join(groups: seq<seq<int>>): string
    requires forall i :: 0 <= i < |groups| ==> groups[i] != []
  {
    if groups == [] then ""
    else if |groups| == 1 then FormatRange(groups[0])
    else FormatRange(groups[0]) + ", " + Join(groups[1..])
  }

  method FormatSeatingRow(row: seq<int>) returns (s: string)
    ensures AllRanges(Groups(row)) && (forall i :: 0 <= i < |Groups(row)| ==> Groups(row)[i] != [])
      && s == Join(Groups(row))
    ensures (forall i :: 0 <= i < |row| ==> row[i] >= 0) ==> ParseRow(s) == Some(row)
  {
    GroupsAreGrouping(row);
    RangesNotEmpty(Groups(row));
    if forall i :: 0 <= i < |row| ==> row[i] >= 0 {
      RowRoundTrip(row);
    }
    var groups := GroupSeatingRange(row);
    s := Join(groups);
  }

  /** first, first + 1, ..., last */
  function Span(first: int, last: int): (r: seq<int>)
    requires first <= last
    ensures |r| == last - first + 1
  {
    seq(last - first + 1, i => first + i)
  }

  /** Reads a formatted row back. */
  function ParseRow(s: string): Option<seq<int>>
    decreases |s|
  {
    if s == "" then Some([])
    else if !IsDigit(s[0]) then None
    else
      var (first, rest) := ReadDigits(s[1..], s[0] as int - '0' as int);
      if rest != "" && rest[0] == '-' then
        if |rest| < 2 || !IsDigit(rest[1]) then None
        else
          var (last, more) := ReadDigits(rest[2..], rest[1] as int - '0' as int);
          if first > last then None else ParseMore(Span(first, last), more)
      else ParseMore([first], rest)
  }

  function ParseMore(range: seq<int>, rest: string): Option<seq<int>>
    decreases |rest|
  {
    if rest == "" then Some(range)
    else if |rest| >= 3 && rest[..2] == ", " then
      match ParseRow(rest[2..])
      case None => None
      case Some(nums) => Some(range + nums)
    else None
  }

  lemma ReadPrinted(n: nat, rest: string)
    requires rest == "" || !IsDigit(rest[0])
    ensures var p := Decimal(n) + rest;
            IsDigit(p[0]) && ReadDigits(p[1..], p[0] as int - '0' as int) == (n, rest)
  {
    ReadDecimal(n, rest);
    ReadNone(rest, n);
    hide Decimal, ReadDigits;
    var p := Decimal(n) + rest;
    assert p[0] == Decimal(n)[0];
    ReadFirst(p);
  }

  lemma ReadNone(rest: string, n: nat)
    requires rest == "" || !IsDigit(rest[0])
    ensures ReadDigits(rest, n) == (n, rest)
  {
  }

  lemma ReadFirst(p: string)
    requires p != "" && IsDigit(p[0])
    ensures ReadDigits(p, 0) == ReadDigits(p[1..], p[0] as int - '0' as int)
  {
  }

  lemma SpanIs(range: seq<int>)
    requires IsRange(range)
    ensures range == Span(range[0], range[|range| - 1])
  {
  }

  lemma ParseSingle(s: string, first: nat, rest: string)
    requires s != "" && IsDigit(s[0]) && ReadDigits(s[1..], s[0] as int - '0' as int) == (first, rest)
    requires rest == "" || rest[0] != '-'
    ensures ParseRow(s) == ParseMore([first], rest)
  {
    hide ReadDigits, ParseMore, IsDigit;
  }

  lemma ParseSpan(s: string, first: nat, tail: string, last: nat, rest: string)
    requires s != "" && IsDigit(s[0]) && ReadDigits(s[1..], s[0] as int - '0' as int) == (first, tail)
    requires |tail| >= 2 && tail[0] == '-' && IsDigit(tail[1])
      && ReadDigits(tail[2..], tail[1] as int - '0' as int) == (last, rest)
    requires first <= last
    ensures |rest| < |s| && ParseRow(s) == ParseMore(Span(first, last), rest)
  {
    hide ReadDigits, ParseMore, IsDigit, Span;
  }

  lemma ParseNumber(first: nat, rest: string)
    requires rest == "" || rest[0] == ','
    ensures ParseRow(Decimal(first) + rest) == ParseMore([first], rest)
  {
    hide *;
    NotDigit();
    ReadPrinted(first, rest);
    ParseSingle(Decimal(first) + rest, first, rest);
  }

  lemma NotDigit()
    ensures !IsDigit(',') && !IsDigit('-')
  {
  }

  lemma ParseNumbers(first: nat, last: nat, rest: string)
    requires first <= last && (rest == "" || rest[0] == ',')
    ensures ParseRow(Decimal(first) + (['-'] + (Decimal(last) + rest))) == ParseMore(Span(first, last), rest)
  {
    hide *;
    NotDigit();
    var second := Decimal(last) + rest;
    var tail := ['-'] + second;
    ReadPrinted(first, tail);
    ReadPrinted(last, rest);
    assert tail[1] == second[0] && tail[2..] == second[1..];
    ParseSpan(Decimal(first) + tail, first, tail, last, rest);
  }

  lemma Regroup(a: string, b: string, rest: string)
    ensures (a + "-" + b) + rest == a + (['-'] + (b + rest))
  {
  }

  /** Reading one formatted range, with what comes after it */
  lemma ParseFirst(range: seq<int>, rest: string)
    requires IsRange(range) && range[0] >= 0
    requires rest == "" || rest[0] == ','
    ensures ParseRow(FormatRange(range) + rest) == ParseMore(range, rest)
  {
    LastIsLarger(range);
    SpanIs(range);
    hide Decimal, ParseMore, IsRange, ParseRow, Span;
    var first, last := range[0], range[|range| - 1];
    if |range| == 1 {
      ParseNumber(first, rest);
      assert [first] == range;
    } else {
      ParseNumbers(first, last, rest);
      Regroup(Decimal(first), Decimal(last), rest);
    }
  }

  lemma LastIsLarger(range: seq<int>)
    requires IsRange(range)
    ensures range[|range| - 1] >= range[0]
  {
  }

  lemma RangesNotEmpty(groups: seq<seq<int>>)
    requires AllRanges(groups)
    ensures forall i :: 0 <= i < |groups| ==> groups[i] != []
  {
    forall i | 0 <= i < |groups|
      ensures groups[i] != []
    {
      assert IsRange(groups[i]);
    }
  }

  lemma {:induction false} ParseJoined(groups: seq<seq<int>>)
    requires AllRanges(groups) && forall i :: 0 <= i < |groups| ==> groups[i] != [] && groups[i][0] >= 0
    ensures ParseRow(Join(groups)) == Some(Concat(groups))
  {
    hide FormatRange, ParseRow, IsRange, Concat;
    if groups == [] {
      EmptyRow();
    } else {
      assert IsRange(groups[0]);
      ConcatFirst(groups);
      if |groups| == 1 {
        assert FormatRange(groups[0]) + "" == FormatRange(groups[0]);
        ParseFirst(groups[0], "");
        EmptyRow();
        assert groups[1..] == [] && groups[0] + [] == groups[0];
      } else {
        var more := Join(groups[1..]);
        ParseJoined(groups[1..]);
        JoinNotEmpty(groups[1..]);
        var rest := ", " + more;
        ParseFirst(groups[0], rest);
        assert Join(groups) == FormatRange(groups[0]) + rest;
        assert rest[..2] == ", " && rest[2..] == more;
      }
    }
  }

  lemma EmptyRow()
    ensures ParseRow("") == Some([]) && Concat<int>([]) == []
  {
  }

  lemma JoinNotEmpty(groups: seq<seq<int>>)
    requires groups != [] && forall i :: 0 <= i < |groups| ==> groups[i] != []
    ensures Join(groups) != ""
  {
  }

  lemma {:induction false} GroupsNonNegative(nums: seq<int>)
    requires forall i :: 0 <= i < |nums| ==> nums[i] >= 0
    ensures forall i :: 0 <= i < |Groups(nums)| ==> Groups(nums)[i] != [] && Groups(nums)[i][0] >= 0
  {
    if nums != [] {
      GroupsNonNegative(nums[..|nums| - 1]);
    }
  }

  /** For seats that are not negative, reading the formatted row returns the list. */
  lemma RowRoundTrip(nums: seq<int>)
    requires forall i :: 0 <= i < |nums| ==> nums[i] >= 0
    ensures AllRanges(Groups(nums)) && (forall i :: 0 <= i < |Groups(nums)| ==> Groups(nums)[i] != [])
    ensures ParseRow(Join(Groups(nums))) == Some(nums)
  {
    GroupsAreGrouping(nums);
    GroupsNonNegative(nums);
    ParseJoined(Groups(nums));
  }
}
