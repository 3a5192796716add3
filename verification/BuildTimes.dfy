/** What the sweep's numbers say about a build: bounds on weighted durations, the busy time as a
    property of the build alone, and when it is the whole length of the build
    (SummarizeEntries in tools/report_build_time_ninja.py).  */
module BuildTimes {
  import opened BuildSweep

  // ----- Bounds -----

  lemma {:induction false} RepeatedBounds(n: nat, d: real)
    requires n > 0
    ensures d >= 0.0 ==> Repeated(n, d) >= d
    ensures d < 0.0 ==> Repeated(n, d) < 0.0
  {
    if n > 1 {
      RepeatedBounds(n - 1, d);
    }
  }

  /** A share of a cell is at most the cell. */
  lemma {:induction false} ShareBounds(es: seq<Entry>, a: real, b: real)
    requires a <= b
    ensures 0.0 <= Share(es, a, b) <= b - a
  {
    var n := |Running(es, a, b)|;
    if n > 0 {
      RepeatedBounds(n, EqualPart(b - a, n));
    }
  }

  /** The part of step `e` that lies before `t`. */
  function PartBefore(e: Entry, t: real): real {
    if t <= e.start then 0.0 else if t < e.end then t - e.start else e.end - e.start
  }

  lemma {:induction false} WeightBoundsUpTo(es: seq<Entry>, grid: seq<real>, k: nat, n: nat)
    requires Valid(es) && Ascending(grid) && k < |es| && n < |grid|
    ensures 0.0 <= SumSeq(Shares(es, grid, k)[..n]) <= PartBefore(es[k], grid[n])
  {
    if n > 0 {
      var cells := Shares(es, grid, k);
      WeightBoundsUpTo(es, grid, k, n - 1);
      assert cells[..n][..n - 1] == cells[..n - 1];
      ShareBounds(es, grid[n - 1], grid[n]);
    }
  }

  /** A weighted duration is between zero and the duration. */
  lemma {:induction false} WeightBounds(es: seq<Entry>, grid: seq<real>, k: nat)
    requires Valid(es) && Ascending(grid) && k < |es|
    ensures 0.0 <= Weight(es, grid, k) <= es[k].end - es[k].start
  {
    var cells := Shares(es, grid, k);
    if grid != [] {
      WeightBoundsUpTo(es, grid, k, |cells|);
      assert cells[..|cells|] == cells;
    }
  }

  // ----- Idle gaps -----

  /** At every moment between the first and the last grid point some step runs. */
  ghost predicate NoIdleGap(es: seq<Entry>, grid: seq<real>) {
    forall i :: 0 <= i < Cells(grid) ==> IsFilled(es, grid, i)
  }

  ghost predicate IsFilled(es: seq<Entry>, grid: seq<real>, i: nat)
    requires i < Cells(grid)
  {
    grid[i] < grid[i + 1] ==> Running(es, grid[i], grid[i + 1]) != {}
  }

  predicate AllTrue(s: seq<bool>, n: nat)
    requires n <= |s|
  {
    forall i :: 0 <= i < n ==> s[i]
  }

  /** Values of at most the length of their cells add up to at most the length of the grid, and to all of it
      exactly when each is the length of its cell. */
  lemma {:induction false} SumOfCells(cells: seq<real>, grid: seq<real>, full: seq<bool>, n: nat)
    requires |grid| == |cells| + 1 && |full| == |cells| && n <= |cells|
    requires forall i :: 0 <= i < |cells| ==>
               cells[i] <= grid[i + 1] - grid[i] && (full[i] <==> cells[i] == grid[i + 1] - grid[i])
    ensures SumSeq(cells[..n]) <= grid[n] - grid[0]
    ensures SumSeq(cells[..n]) == grid[n] - grid[0] <==> AllTrue(full, n)
  {
    if n > 0 {
      SumOfCells(cells, grid, full, n - 1);
      assert cells[..n][..n - 1] == cells[..n - 1];
      assert cells[n - 1] <= grid[n] - grid[n - 1] && (full[n - 1] <==> cells[n - 1] == grid[n] - grid[n - 1]);
    }
  }

  lemma {:induction false} SumOfAllCells(cells: seq<real>, grid: seq<real>, full: seq<bool>)
    requires |grid| == |cells| + 1 && |full| == |cells|
    requires forall i :: 0 <= i < |cells| ==>
               cells[i] <= grid[i + 1] - grid[i] && (full[i] <==> cells[i] == grid[i + 1] - grid[i])
    ensures SumSeq(cells) <= grid[|grid| - 1] - grid[0]
    ensures SumSeq(cells) == grid[|grid| - 1] - grid[0] <==> AllTrue(full, |full|)
  {
    SumOfCells(cells, grid, full, |cells|);
    assert cells[..|cells|] == cells;
  }

  /** A cell counts for its length exactly when it is filled. */
  lemma {:induction false} FilledCell(es: seq<Entry>, grid: seq<real>, i: nat)
    requires i < Cells(grid) && grid[i] <= grid[i + 1]
    ensures BusyCell(es, grid[i], grid[i + 1]) <= grid[i + 1] - grid[i]
    ensures IsFilled(es, grid, i) <==> BusyCell(es, grid[i], grid[i + 1]) == grid[i + 1] - grid[i]
  {
  }

  /** Which cells are filled. */
  lemma {:induction false} FilledCells(es: seq<Entry>, grid: seq<real>) returns (full: seq<bool>)
    requires Ascending(grid)
    ensures |full| == Cells(grid) == |BusyCells(es, grid)|
    ensures NoIdleGap(es, grid) <==> AllTrue(full, |full|)
    ensures forall i :: 0 <= i < |full| ==>
              && BusyCells(es, grid)[i] <= grid[i + 1] - grid[i]
              && (full[i] <==> BusyCells(es, grid)[i] == grid[i + 1] - grid[i])
  {
    full := seq(Cells(grid), i requires 0 <= i < Cells(grid) => IsFilled(es, grid, i));
    forall i | 0 <= i < |full|
      ensures BusyCells(es, grid)[i] <= grid[i + 1] - grid[i]
      ensures full[i] <==> BusyCells(es, grid)[i] == grid[i + 1] - grid[i]
    {
      FilledCell(es, grid, i);
    }
    if AllTrue(full, |full|) {
      forall i | 0 <= i < Cells(grid) ensures IsFilled(es, grid, i) {
        assert full[i];
      }
    }
  }

  /** The busy time is the whole length exactly when there is no idle gap. */
  lemma {:induction false} BusyIsLengthIffNoGap(es: seq<Entry>, grid: seq<real>)
    requires Ascending(grid) && grid != []
    ensures Busy(es, grid) <= grid[|grid| - 1] - grid[0]
    ensures Busy(es, grid) == grid[|grid| - 1] - grid[0] <==> NoIdleGap(es, grid)
  {
    var full := FilledCells(es, grid);
    SumOfAllCells(BusyCells(es, grid), grid, full);
  }

  // ----- Sums over the cells of a grid do not depend on the grid -----

  type CellValue = (real, real) -> real

  function CellValues(f: CellValue, grid: seq<real>): seq<real> {
    seq(Cells(grid), i requires 0 <= i < Cells(grid) => f(grid[i], grid[i + 1]))
  }

  function GridSum(f: CellValue, grid: seq<real>): real {
    SumSeq(CellValues(f, grid))
  }

  /** No step starts or ends strictly between `a` and `b`. */
  ghost predicate Quiet(es: seq<Entry>, a: real, b: real) {
    forall k :: 0 <= k < |es| ==> !(a < es[k].start < b) && !(a < es[k].end < b)
  }

  ghost predicate CutsInto(es: seq<Entry>, f: CellValue, a: real, x: real, b: real) {
    a <= x <= b && Quiet(es, a, b) ==> f(a, b) == f(a, x) + f(x, b)
  }

  ghost predicate IsZeroIfIdle(es: seq<Entry>, f: CellValue, a: real, b: real) {
    a == b || Running(es, a, b) == {} ==> f(a, b) == 0.0
  }

  /** `f` adds up when a quiet cell is cut, and is zero where nothing runs. */
  ghost predicate AddsUp(es: seq<Entry>, f: CellValue) {
    (forall a, x, b :: CutsInto(es, f, a, x, b)) && (forall a, b :: IsZeroIfIdle(es, f, a, b))
  }

  lemma {:induction false} SumAppend(a: seq<real>, b: seq<real>)
    ensures SumSeq(a + b) == SumSeq(a) + SumSeq(b)
  {
    if b == [] {
      assert a + b == a;
    } else {
      var n := |b| - 1;
      assert (a + b)[..|a + b| - 1] == a + b[..n];
      SumAppend(a, b[..n]);
    }
  }

  /** Cutting a grid at one of its points. */
  lemma {:induction false} GridSumSplits(f: CellValue, grid: seq<real>, i: nat)
    requires i < |grid|
    ensures GridSum(f, grid) == GridSum(f, grid[..i + 1]) + GridSum(f, grid[i..])
  {
    assert CellValues(f, grid) == CellValues(f, grid[..i + 1]) + CellValues(f, grid[i..]);
    SumAppend(CellValues(f, grid[..i + 1]), CellValues(f, grid[i..]));
  }

  lemma {:induction false} GridSumOfTwo(f: CellValue, a: real, b: real)
    ensures GridSum(f, [a, b]) == f(a, b)
  {
    var cells := CellValues(f, [a, b]);
    assert cells == [f(a, b)] && cells[..0] == [];
    assert SumSeq(cells) == SumSeq(cells[..0]) + cells[0];
  }

  /** Between neighbouring points of a complete grid nothing starts or ends. */
  lemma {:induction false} NeighboursAreQuiet(es: seq<Entry>, grid: seq<real>, i: nat)
    requires Ascending(grid) && Complete(es, grid) && i + 1 < |grid|
    ensures Quiet(es, grid[i], grid[i + 1])
  {
    forall k | 0 <= k < |es|
      ensures !(grid[i] < es[k].start < grid[i + 1]) && !(grid[i] < es[k].end < grid[i + 1])
    {
      var s :| 0 <= s < |grid| && grid[s] == es[k].start;
      var e :| 0 <= e < |grid| && grid[e] == es[k].end;
    }
  }

  function Refined(grid: seq<real>, i: nat, x: real): seq<real>
    requires i <= |grid|
  {
    grid[..i] + [x] + grid[i..]
  }

  lemma {:induction false} GridSumJoins(f: CellValue, before: seq<real>, a: real, after: seq<real>)
    ensures GridSum(f, before + [a] + after) == GridSum(f, before + [a]) + GridSum(f, [a] + after)
  {
    var grid, i := before + [a] + after, |before|;
    GridSumSplits(f, grid, i);
    assert grid[..i + 1] == before + [a] && grid[i..] == [a] + after;
  }

  lemma {:induction false} GridSumAround(f: CellValue, before: seq<real>, a: real, middle: seq<real>, b: real,
                                         after: seq<real>)
    ensures GridSum(f, before + [a] + middle + [b] + after) ==
            GridSum(f, before + [a]) + GridSum(f, [a] + middle + [b]) + GridSum(f, [b] + after)
  {
    GridSumJoins(f, before, a, middle + [b] + after);
    assert before + [a] + (middle + [b] + after) == before + [a] + middle + [b] + after;
    GridSumJoins(f, [a] + middle, b, after);
    assert [a] + middle + [b] + after == [a] + (middle + [b] + after);
  }

  lemma {:induction false} GridSumOfThree(f: CellValue, a: real, x: real, b: real)
    ensures GridSum(f, [a, x, b]) == f(a, x) + f(x, b)
  {
    GridSumSplits(f, [a, x, b], 1);
    assert [a, x, b][..2] == [a, x] && [a, x, b][1..] == [x, b];
    GridSumOfTwo(f, a, x);
    GridSumOfTwo(f, x, b);
  }

  lemma {:induction false} RefineCell(f: CellValue, grid: seq<real>, i: nat, x: real)
    requires 0 < i < |grid| && f(grid[i - 1], grid[i]) == f(grid[i - 1], x) + f(x, grid[i])
    ensures GridSum(f, Refined(grid, i, x)) == GridSum(f, grid)
  {
    var before, a, b, after := grid[..i - 1], grid[i - 1], grid[i], grid[i + 1..];
    assert grid == before + [a] + [] + [b] + after && Refined(grid, i, x) == before + [a] + [x] + [b] + after;
    GridSumAround(f, before, a, [], b, after);
    GridSumAround(f, before, a, [x], b, after);
    assert [a] + [] + [b] == [a, b] && [a] + [x] + [b] == [a, x, b];
    GridSumOfTwo(f, a, b);
    GridSumOfThree(f, a, x, b);
  }

  lemma {:induction false} RefineInside(es: seq<Entry>, f: CellValue, grid: seq<real>, i: nat, x: real)
    requires AddsUp(es, f) && Ascending(grid) && Complete(es, grid) && 0 < i < |grid| && grid[i - 1] <= x <= grid[i]
    ensures GridSum(f, Refined(grid, i, x)) == GridSum(f, grid)
  {
    NeighboursAreQuiet(es, grid, i - 1);
    assert CutsInto(es, f, grid[i - 1], x, grid[i]);
    RefineCell(f, grid, i, x);
  }

  lemma {:induction false} RefineAtEnds(es: seq<Entry>, f: CellValue, grid: seq<real>, i: nat, x: real)
    requires AddsUp(es, f) && Ascending(grid) && Complete(es, grid) && grid != []
    requires (i == 0 && x <= grid[0]) || (i == |grid| && grid[|grid| - 1] <= x)
    ensures GridSum(f, Refined(grid, i, x)) == GridSum(f, grid)
  {
    var fine := Refined(grid, i, x);
    var last := |grid| - 1;
    if i == 0 {
      var b := grid[0];
      GridSumSplits(f, fine, 1);
      assert fine[..2] == [x, b] && fine[1..] == grid;
      GridSumOfTwo(f, x, b);
      NothingOutside(es, grid, x, b);
      assert IsZeroIfIdle(es, f, x, b);
    } else {
      var a := grid[last];
      GridSumSplits(f, fine, last);
      assert fine[..last + 1] == grid && fine[last..] == [a, x];
      GridSumOfTwo(f, a, x);
      NothingOutside(es, grid, a, x);
      assert IsZeroIfIdle(es, f, a, x);
    }
  }

  /** Before the first and after the last grid point nothing runs. */
  lemma {:induction false} NothingOutside(es: seq<Entry>, grid: seq<real>, a: real, b: real)
    requires Ascending(grid) && Complete(es, grid) && grid != [] && a <= b && (b == grid[0] || a == grid[|grid| - 1])
    ensures a == b || Running(es, a, b) == {}
  {
    if a < b {
      forall k: nat | k < |es| ensures !Covers(es[k], a, b) {
        var s :| 0 <= s < |grid| && grid[s] == es[k].start;
        var e :| 0 <= e < |grid| && grid[e] == es[k].end;
      }
      assert Running(es, a, b) == {};
    }
  }

  /** Where `x` belongs in the grid. */
  lemma {:induction false} SlotOf(grid: seq<real>, x: real) returns (i: nat)
    requires Ascending(grid)
    ensures i <= |grid| && (i > 0 ==> grid[i - 1] <= x) && (i < |grid| ==> x <= grid[i])
  {
    i := |grid|;
    while i > 0 && grid[i - 1] > x
      invariant 0 <= i <= |grid| && (i < |grid| ==> x <= grid[i])
    {
      i := i - 1;
    }
  }

  lemma {:induction false} RefinedIsGrid(es: seq<Entry>, grid: seq<real>, i: nat, x: real)
    requires Ascending(grid) && Complete(es, grid)
    requires i <= |grid| && (i > 0 ==> grid[i - 1] <= x) && (i < |grid| ==> x <= grid[i])
    ensures Ascending(Refined(grid, i, x)) && Complete(es, Refined(grid, i, x))
  {
    var fine := Refined(grid, i, x);
    forall y | y in grid ensures y in fine {
      var j :| 0 <= j < |grid| && grid[j] == y;
      assert fine[if j < i then j else j + 1] == y;
    }
  }

  lemma {:induction false} RefinedMultiset(grid: seq<real>, i: nat, x: real)
    requires i <= |grid|
    ensures multiset(Refined(grid, i, x)) == multiset(grid) + multiset{x}
  {
    assert grid == grid[..i] + grid[i..];
  }

  lemma {:induction false} RefineAnywhere(es: seq<Entry>, f: CellValue, grid: seq<real>, i: nat, x: real)
    requires AddsUp(es, f) && Ascending(grid) && Complete(es, grid) && grid != []
    requires i <= |grid| && (i > 0 ==> grid[i - 1] <= x) && (i < |grid| ==> x <= grid[i])
    ensures GridSum(f, Refined(grid, i, x)) == GridSum(f, grid)
  {
    if 0 < i < |grid| {
      RefineInside(es, f, grid, i, x);
    } else {
      RefineAtEnds(es, f, grid, i, x);
    }
  }

  /** One more grid point. */
  lemma {:induction false} AddPoint(es: seq<Entry>, f: CellValue, grid: seq<real>, x: real) returns (fine: seq<real>)
    requires AddsUp(es, f) && Ascending(grid) && Complete(es, grid) && grid != []
    ensures Ascending(fine) && Complete(es, fine) && fine != []
    ensures GridSum(f, fine) == GridSum(f, grid) && multiset(fine) == multiset(grid) + multiset{x}
  {
    var i := SlotOf(grid, x);
    fine := Refined(grid, i, x);
    RefinedMultiset(grid, i, x);
    RefinedIsGrid(es, grid, i, x);
    RefineAnywhere(es, f, grid, i, x);
  }

  lemma {:induction false} AddPoints(es: seq<Entry>, f: CellValue, grid: seq<real>, points: seq<real>)
    returns (fine: seq<real>)
    requires AddsUp(es, f) && Ascending(grid) && Complete(es, grid) && grid != []
    ensures Ascending(fine) && GridSum(f, fine) == GridSum(f, grid)
            && multiset(fine) == multiset(grid) + multiset(points)
    decreases |points|
  {
    if points == [] {
      fine := grid;
    } else {
      fine := AddPoint(es, f, grid, points[0]);
      assert points == [points[0]] + points[1..];
      fine := AddPoints(es, f, fine, points[1..]);
    }
  }

  lemma {:induction false} LastIsLargest(a: seq<real>, x: real)
    requires Ascending(a) && x in multiset(a)
    ensures a != [] && x <= a[|a| - 1]
  {
    assert x in a;
    var i :| 0 <= i < |a| && a[i] == x;
  }

  lemma {:induction false} DropLast(a: seq<real>)
    requires a != []
    ensures multiset(a) == multiset(a[..|a| - 1]) + multiset{a[|a| - 1]} && a[|a| - 1] in multiset(a)
  {
    assert a == a[..|a| - 1] + [a[|a| - 1]];
  }

  lemma {:induction false} SameLength(a: seq<real>, b: seq<real>)
    requires multiset(a) == multiset(b)
    ensures |a| == |b|
  {
    assert |a| == |multiset(a)| == |multiset(b)| == |b|;
  }

  lemma {:induction false} SameLast(a: seq<real>, b: seq<real>)
    requires Ascending(a) && Ascending(b) && multiset(a) == multiset(b) && a != [] && b != []
    ensures a[|a| - 1] == b[|b| - 1]
    ensures multiset(a[..|a| - 1]) == multiset(b[..|b| - 1])
  {
    DropLast(a);
    DropLast(b);
    LastIsLargest(b, a[|a| - 1]);
    LastIsLargest(a, b[|b| - 1]);
    assert multiset(a[..|a| - 1]) == multiset(a) - multiset{a[|a| - 1]};
    assert multiset(b[..|b| - 1]) == multiset(b) - multiset{b[|b| - 1]};
  }

  lemma {:induction false} AscendingIsUnique(a: seq<real>, b: seq<real>)
    requires Ascending(a) && Ascending(b) && multiset(a) == multiset(b)
    ensures a == b
    decreases |a|
  {
    SameLength(a, b);
    if a != [] {
      var n := |a| - 1;
      SameLast(a, b);
      AscendingIsUnique(a[..n], b[..n]);
      assert a == a[..n] + [a[n]] && b == b[..n] + [b[n]];
    }
  }

  lemma {:induction false} GridSumIsGridFree(es: seq<Entry>, f: CellValue, g: seq<real>, h: seq<real>)
    requires AddsUp(es, f)
    requires Ascending(g) && Complete(es, g) && g != []
    requires Ascending(h) && Complete(es, h) && h != []
    ensures GridSum(f, g) == GridSum(f, h)
  {
    var gh := AddPoints(es, f, g, h);
    var hg := AddPoints(es, f, h, g);
    AscendingIsUnique(gh, hg);
  }

  /** In a quiet cell the same steps run throughout. */
  lemma {:induction false} SameRunning(es: seq<Entry>, a: real, x: real, b: real)
    requires a < x < b && Quiet(es, a, b)
    ensures Running(es, a, x) == Running(es, a, b) == Running(es, x, b)
  {
  }

  lemma {:induction false} BusyAddsUp(es: seq<Entry>)
    ensures AddsUp(es, (a, b) => BusyCell(es, a, b))
  {
    var f := (a, b) => BusyCell(es, a, b);
    forall a, x, b ensures CutsInto(es, f, a, x, b) {
      EmptyCell(es, x);
      if a < x < b && Quiet(es, a, b) {
        SameRunning(es, a, x, b);
      }
    }
    forall a, b ensures IsZeroIfIdle(es, f, a, b) {
    }
  }

  lemma {:induction false} RepeatedAdds(n: nat, d: real, e: real)
    ensures Repeated(n, d + e) == Repeated(n, d) + Repeated(n, e)
  {
    if n > 0 {
      RepeatedAdds(n - 1, d, e);
    }
  }

  lemma {:induction false} EqualPartAdds(x: real, y: real, n: nat)
    requires n > 0
    ensures EqualPart(x + y, n) == EqualPart(x, n) + EqualPart(y, n)
  {
    var p, q := EqualPart(x + y, n), EqualPart(x, n) + EqualPart(y, n);
    RepeatedAdds(n, EqualPart(x, n), EqualPart(y, n));
    if p < q {
      RepeatedGrows(n, p, q);
    } else if q < p {
      RepeatedGrows(n, q, p);
    }
  }

  ghost function ShareOf(es: seq<Entry>, k: nat, a: real, b: real): real
    requires k < |es|
  {
    if Covers(es[k], a, b) then Share(es, a, b) else 0.0
  }

  lemma {:induction false} ShareSplits(es: seq<Entry>, k: nat, a: real, x: real, b: real)
    requires k < |es| && a < x < b && Quiet(es, a, b)
    ensures ShareOf(es, k, a, b) == ShareOf(es, k, a, x) + ShareOf(es, k, x, b)
  {
    SameRunning(es, a, x, b);
    var r := Running(es, a, b);
    assert k in r <==> Covers(es[k], a, b);
    assert k in r <==> Covers(es[k], a, x);
    assert k in r <==> Covers(es[k], x, b);
    if |r| > 0 {
      EqualPartAdds(x - a, b - x, |r|);
      assert (x - a) + (b - x) == b - a;
    }
  }

  lemma {:induction false} WeightAddsUp(es: seq<Entry>, k: nat)
    requires k < |es|
    ensures AddsUp(es, (a, b) => ShareOf(es, k, a, b))
  {
    var f := (a, b) => ShareOf(es, k, a, b);
    forall a, x, b ensures CutsInto(es, f, a, x, b) {
      EmptyCell(es, x);
      if a < x < b && Quiet(es, a, b) {
        ShareSplits(es, k, a, x, b);
      }
    }
    forall a, b ensures IsZeroIfIdle(es, f, a, b) {
      EmptyCell(es, a);
    }
  }

  /** The busy time and the weights are properties of the build: every grid that has all starts and
      ends gives the same. */
  lemma {:induction false} BusyIsGridFree(es: seq<Entry>, g: seq<real>, h: seq<real>)
    requires Ascending(g) && Complete(es, g) && g != []
    requires Ascending(h) && Complete(es, h) && h != []
    ensures Busy(es, g) == Busy(es, h)
  {
    var f := (a, b) => BusyCell(es, a, b);
    BusyAddsUp(es);
    assert BusyCells(es, g) == CellValues(f, g) && BusyCells(es, h) == CellValues(f, h);
    GridSumIsGridFree(es, f, g, h);
  }

  lemma {:induction false} WeightIsGridFree(es: seq<Entry>, g: seq<real>, h: seq<real>, k: nat)
    requires Ascending(g) && Complete(es, g) && g != []
    requires Ascending(h) && Complete(es, h) && h != [] && k < |es|
    ensures Weight(es, g, k) == Weight(es, h, k)
  {
    var f := (a, b) => ShareOf(es, k, a, b);
    WeightAddsUp(es, k);
    assert Shares(es, g, k) == CellValues(f, g) && Shares(es, h, k) == CellValues(f, h);
    GridSumIsGridFree(es, f, g, h);
  }

  // ----- The summary -----

  /** The event times are a complete grid from the earliest start to the latest end. */
  lemma {:induction false} TimesAreAGrid(es: seq<Entry>, ev: seq<Event>)
    requires Valid(es) && Sorted(ev) && multiset(ev) == multiset(EventsOf(es))
    ensures Ascending(Times(ev)) && Complete(es, Times(ev))
  {
    var starts, stops := Place(es, ev);
    var ts := Times(ev);
    forall i, j | 0 <= i < j < |ts| ensures ts[i] <= ts[j] {
      assert KeyLeq(ev[i], ev[j]);
    }
    forall k | 0 <= k < |es| ensures es[k].start in ts && es[k].end in ts {
      assert StartAt(es, ev, starts[k], k) && StopAt(es, ev, stops[k], k);
      assert ts[starts[k]] == es[k].start && ts[stops[k]] == es[k].end;
    }
  }

  lemma {:induction false} ClosedWithin(es: seq<Entry>, ev: seq<Event>, lo: real, hi: real)
    requires Valid(es) && Sorted(ev) && multiset(ev) == multiset(EventsOf(es)) && es != []
    requires (forall k :: 0 <= k < |es| ==> lo <= es[k].start && es[k].end <= hi)
    requires (exists k :: 0 <= k < |es| && es[k].start == lo) && (exists k :: 0 <= k < |es| && es[k].end == hi)
    ensures ev != [] && Times(ev)[0] == lo && Times(ev)[|ev| - 1] == hi
  {
    var starts, stops := Place(es, ev);
    var ts := Times(ev);
    var first :| 0 <= first < |es| && es[first].start == lo;
    var last :| 0 <= last < |es| && es[last].end == hi;
    assert StartAt(es, ev, starts[first], first) && StopAt(es, ev, stops[last], last);
    forall i | 0 <= i < |ev| ensures lo <= ev[i].time <= hi {
      assert IsRecorded(ev, starts, stops, i);
      var k := ev[i].target;
      assert StartAt(es, ev, starts[k], k) && StopAt(es, ev, stops[k], k);
    }
    assert starts[first] > 0 ==> KeyLeq(ev[0], ev[starts[first]]);
    assert stops[last] < |ev| - 1 ==> KeyLeq(ev[stops[last]], ev[|ev| - 1]);
  }

  /** The loop that collects the events, the earliest start, the latest end and the total duration.
      An earliest time below zero stands for none seen yet. */
  method CollectEvents(es: seq<Entry>) returns (events: seq<Event>, earliest: real, latest: real, cpu: real)
    requires Valid(es)
    ensures events == EventsOf(es)
    ensures forall k :: 0 <= k < |es| ==> earliest <= es[k].start && es[k].end <= latest
    ensures es != [] ==>
              && (exists k :: 0 <= k < |es| && es[k].start == earliest)
              && (exists k :: 0 <= k < |es| && es[k].end == latest)
    ensures cpu == SumSeq(seq(|es|, k requires 0 <= k < |es| => es[k].end - es[k].start))
  {
    events, earliest, latest, cpu := [], -1.0, 0.0, 0.0;
    ghost var durations := seq(|es|, k requires 0 <= k < |es| => es[k].end - es[k].start);
    for i := 0 to |es|
      invariant events == EventsOf(es[..i]) && cpu == SumSeq(durations[..i])
      invariant forall k :: 0 <= k < i ==> earliest <= es[k].start && es[k].end <= latest
      invariant if i == 0 then earliest == -1.0 && latest == 0.0
                else 0.0 <= earliest && exists k :: 0 <= k < i && es[k].start == earliest
      invariant latest == 0.0 || exists k :: 0 <= k < i && es[k].end == latest
      invariant i > 0 && latest == 0.0 ==> es[0].end == latest
    {
      var e := es[i];
      if earliest < 0.0 || e.start < earliest {
        earliest := e.start;
      }
      if e.end > latest {
        latest := e.end;
      }
      assert es[..i + 1][..i] == es[..i] && durations[..i + 1][..i] == durations[..i];
      cpu := cpu + (e.end - e.start);
      events := events + [Event(e.start, false, i), Event(e.end, true, i)];
    }
    assert es[..|es|] == es && durations[..|es|] == durations;
  }

  /** Some step runs at every moment from `lo` up to `hi`. */
  ghost predicate AlwaysRunning(es: seq<Entry>, lo: real, hi: real) {
    forall t: real :: lo <= t < hi ==> IsBusyAt(es, t)
  }

  ghost predicate IsBusyAt(es: seq<Entry>, t: real) {
    exists k :: 0 <= k < |es| && es[k].start <= t < es[k].end
  }

  /** The cell that holds a moment. */
  lemma {:induction false} CellOf(grid: seq<real>, t: real, n: nat) returns (i: nat)
    requires Ascending(grid) && n < |grid| && grid[0] <= t < grid[n]
    ensures i < n && grid[i] <= t < grid[i + 1]
    decreases n
  {
    if grid[n - 1] <= t {
      i := n - 1;
    } else {
      i := CellOf(grid, t, n - 1);
    }
  }

  /** Idle gaps on a grid are moments at which nothing runs. */
  lemma {:induction false} GapsAreIdleMoments(es: seq<Entry>, grid: seq<real>)
    requires Ascending(grid) && Complete(es, grid) && grid != []
    ensures NoIdleGap(es, grid) <==> AlwaysRunning(es, grid[0], grid[|grid| - 1])
  {
    if NoIdleGap(es, grid) {
      forall t: real | grid[0] <= t < grid[|grid| - 1] ensures IsBusyAt(es, t) {
        var i := CellOf(grid, t, |grid| - 1);
        assert IsFilled(es, grid, i);
        var k: nat :| k in Running(es, grid[i], grid[i + 1]);
        assert es[k].start <= t < es[k].end;
      }
    }
    if AlwaysRunning(es, grid[0], grid[|grid| - 1]) {
      forall i | 0 <= i < Cells(grid) ensures IsFilled(es, grid, i) {
        if grid[i] < grid[i + 1] {
          assert IsBusyAt(es, grid[i]);
          var k: nat :| k < |es| && es[k].start <= grid[i] < es[k].end;
          NeighboursAreQuiet(es, grid, i);
          assert k in Running(es, grid[i], grid[i + 1]);
        }
      }
    }
  }

  /** The numbers of the summary, on every grid that has all starts and ends: every step gets its
      weight, between zero and its duration, and the weights add up to the busy time, which is the
      length of the build exactly when some step runs at every moment of it. */
  method Summarize(es: seq<Entry>) returns (weighted: seq<real>, total: real, earliest: real, latest: real, cpu: real)
    requires Valid(es) && es != []
    ensures |weighted| == |es| && total == SumSeq(weighted)
    ensures forall k :: 0 <= k < |es| ==> 0.0 <= weighted[k] <= es[k].end - es[k].start
    ensures forall grid, k :: Ascending(grid) && Complete(es, grid) && 0 <= k < |es| ==>
              weighted[k] == Weight(es, grid, k)
    ensures forall grid :: Ascending(grid) && Complete(es, grid) ==> total == Busy(es, grid)
    ensures total <= latest - earliest
    ensures total == latest - earliest <==> AlwaysRunning(es, earliest, latest)
    ensures forall k :: 0 <= k < |es| ==> earliest <= es[k].start && es[k].end <= latest
    ensures (exists k :: 0 <= k < |es| && es[k].start == earliest) && (exists k :: 0 <= k < |es| && es[k].end == latest)
    ensures cpu == SumSeq(seq(|es|, k requires 0 <= k < |es| => es[k].end - es[k].start))
  {
    var events;
    events, earliest, latest, cpu := CollectEvents(es);
    var ev := SortEvents(events);
    ClosedWithin(es, ev, earliest, latest);
    var running;
    weighted, total, running := Sweep(es, ev);
    assert running == map[];
    SummaryHolds(es, ev, weighted, total, earliest, latest);
  }

  lemma {:induction false} SummaryHolds(es: seq<Entry>, ev: seq<Event>, weighted: seq<real>, total: real, lo: real,
                                        hi: real)
    requires Valid(es) && es != [] && ev != [] && Sorted(ev) && multiset(ev) == multiset(EventsOf(es))
    requires weighted == Weights(es, Times(ev)) && total == Busy(es, Times(ev)) && Times(ev)[0] == lo
             && Times(ev)[|ev| - 1] == hi
    ensures forall k :: 0 <= k < |es| ==> 0.0 <= weighted[k] <= es[k].end - es[k].start
    ensures forall grid, k :: Ascending(grid) && Complete(es, grid) && 0 <= k < |es| ==>
              weighted[k] == Weight(es, grid, k)
    ensures forall grid :: Ascending(grid) && Complete(es, grid) ==> total == Busy(es, grid)
    ensures total <= hi - lo && (total == hi - lo <==> AlwaysRunning(es, lo, hi))
  {
    var ts := Times(ev);
    TimesAreAGrid(es, ev);
    BusyIsLengthIffNoGap(es, ts);
    GapsAreIdleMoments(es, ts);
    forall k | 0 <= k < |es| ensures 0.0 <= weighted[k] <= es[k].end - es[k].start {
      WeightBounds(es, ts, k);
    }
    forall grid, k | Ascending(grid) && Complete(es, grid) && 0 <= k < |es| ensures weighted[k] == Weight(es, grid, k) {
      assert es[k].start in grid;
      WeightIsGridFree(es, ts, grid, k);
    }
    forall grid | Ascending(grid) && Complete(es, grid) ensures total == Busy(es, grid) {
      assert es[0].start in grid;
      BusyIsGridFree(es, ts, grid);
    }
  }
}
