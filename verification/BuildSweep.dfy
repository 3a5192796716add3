/** Sweep over the start and stop events of build steps that gives every step its weighted duration
    (SummarizeEntries in tools/report_build_time_ninja.py).  Times are exact reals.  */
module BuildSweep {

  datatype Entry = Entry(start: real, end: real)

  datatype Event = Event(time: real, stop: bool, target: nat)

  ghost predicate Valid(es: seq<Entry>) {
    forall k :: 0 <= k < |es| ==> 0.0 <= es[k].start <= es[k].end
  }

  // ----- What the weights mean -----

  /** Step `e` runs during the whole of the cell between `a` and `b`. */
  predicate Covers(e: Entry, a: real, b: real) {
    e.start <= a && b <= e.end
  }

  function Running(es: seq<Entry>, a: real, b: real): set<nat> {
    set k: nat | k < |es| && Covers(es[k], a, b)
  }

  /** `d`, `n` times. */
  function Repeated(n: nat, d: real): real {
    if n == 0 then 0.0 else Repeated(n - 1, d) + d
  }

  lemma {:induction false} RepeatedIsProduct(n: nat, d: real)
    ensures Repeated(n, d) == n as real * d
  {
    if n > 0 {
      RepeatedIsProduct(n - 1, d);
      assert n as real == (n - 1) as real + 1.0;
      assert ((n - 1) as real + 1.0) * d == (n - 1) as real * d + d;
    }
  }

  lemma {:induction false} QuotientRepeats(x: real, n: nat)
    requires n > 0
    ensures Repeated(n, x / n as real) == x
  {
    RepeatedIsProduct(n, x / n as real);
  }

  lemma {:induction false} RepeatedGrows(n: nat, d: real, e: real)
    requires n > 0 && d < e
    ensures Repeated(n, d) < Repeated(n, e)
  {
    if n > 1 {
      RepeatedGrows(n - 1, d, e);
    }
  }

  /** One of `n` equal parts of `x`. */
  ghost function EqualPart(x: real, n: nat): (part: real)
    requires n > 0
    ensures Repeated(n, part) == x
  {
    QuotientRepeats(x, n);
    var part :| Repeated(n, part) == x;
    part
  }

  lemma {:induction false} QuotientIsEqualPart(x: real, n: nat)
    requires n > 0
    ensures x / n as real == EqualPart(x, n)
  {
    QuotientRepeats(x, n);
    var p, q := EqualPart(x, n), x / n as real;
    if p < q {
      RepeatedGrows(n, p, q);
    } else if q < p {
      RepeatedGrows(n, q, p);
    }
  }

  /** A cell's length, divided evenly among the steps that run during it. */
  ghost function Share(es: seq<Entry>, a: real, b: real): real {
    var n := |Running(es, a, b)|;
    if n == 0 then 0.0 else EqualPart(b - a, n)
  }

  function SumSeq(s: seq<real>): real {
    if s == [] then 0.0 else SumSeq(s[..|s| - 1]) + s[|s| - 1]
  }

  function Cells(grid: seq<real>): nat {
    if grid == [] then 0 else |grid| - 1
  }

  /** What step `k` gets of each cell of the grid. */
  ghost function Shares(es: seq<Entry>, grid: seq<real>, k: nat): seq<real>
    requires k < |es|
  {
    seq(Cells(grid), i requires 0 <= i < Cells(grid) =>
      if Covers(es[k], grid[i], grid[i + 1]) then Share(es, grid[i], grid[i + 1]) else 0.0)
  }

  /** The weight of step `k`: its shares of all cells it runs in. */
  ghost function Weight(es: seq<Entry>, grid: seq<real>, k: nat): real
    requires k < |es|
  {
    SumSeq(Shares(es, grid, k))
  }

  /** The length of a cell if at least one step runs during it. */
  function BusyCell(es: seq<Entry>, a: real, b: real): real {
    if Running(es, a, b) == {} then 0.0 else b - a
  }

  function BusyCells(es: seq<Entry>, grid: seq<real>): seq<real> {
    seq(Cells(grid), i requires 0 <= i < Cells(grid) => BusyCell(es, grid[i], grid[i + 1]))
  }

  /** The time during which at least one step was running. */
  function Busy(es: seq<Entry>, grid: seq<real>): real {
    SumSeq(BusyCells(es, grid))
  }

  ghost predicate Ascending(grid: seq<real>) {
    forall i, j :: 0 <= i < j < |grid| ==> grid[i] <= grid[j]
  }

  /** Every start and end is a grid point, so steps change only between cells. */
  ghost predicate Complete(es: seq<Entry>, grid: seq<real>) {
    forall k :: 0 <= k < |es| ==> es[k].start in grid && es[k].end in grid
  }

  // ----- Building and sorting the events -----

  function EventsOf(es: seq<Entry>): seq<Event> {
    if es == [] then []
    else
      var n := |es| - 1;
      EventsOf(es[..n]) + [Event(es[n].start, false, n), Event(es[n].end, true, n)]
  }

  /** Sort key: the time, then "start" before "stop". */
  predicate KeyLeq(a: Event, b: Event) {
    a.time < b.time || (a.time == b.time && (!a.stop || b.stop))
  }

  ghost predicate Sorted(ev: seq<Event>) {
    forall i, j {:trigger KeyLeq(ev[i], ev[j])} :: 0 <= i < j < |ev| ==> KeyLeq(ev[i], ev[j])
  }

  /** Puts one more event in its place in a sorted list. */
  method InsertEvent(ev: seq<Event>, e: Event) returns (r: seq<Event>)
    requires Sorted(ev)
    ensures Sorted(r) && multiset(r) == multiset(ev) + multiset{e}
  {
    var i := |ev|;
    while i > 0 && !KeyLeq(ev[i - 1], e)
      invariant 0 <= i <= |ev|
      invariant forall j :: i <= j < |ev| ==> KeyLeq(e, ev[j])
    {
      i := i - 1;
    }
    r := ev[..i] + [e] + ev[i..];
    assert ev == ev[..i] + ev[i..];
    forall p, q | 0 <= p < q < |r| ensures KeyLeq(r[p], r[q]) {
      var p', q' := if p < i then p else p - 1, if q < i then q else q - 1;
      if p != i && q != i {
        assert KeyLeq(ev[p'], ev[q']);
      } else if q == i && p < i - 1 {
        assert KeyLeq(ev[p], ev[i - 1]);
      }
    }
  }

  method SortEvents(unsorted: seq<Event>) returns (r: seq<Event>)
    ensures Sorted(r) && multiset(r) == multiset(unsorted)
  {
    r := [];
    for i := 0 to |unsorted|
      invariant Sorted(r) && multiset(r) == multiset(unsorted[..i])
    {
      assert unsorted[..i + 1] == unsorted[..i] + [unsorted[i]];
      r := InsertEvent(r, unsorted[i]);
    }
    assert unsorted[..|unsorted|] == unsorted;
  }

  // ----- Where the events of each step are -----

  ghost predicate StartAt(es: seq<Entry>, ev: seq<Event>, i: nat, k: nat) {
    k < |es| && i < |ev| && ev[i] == Event(es[k].start, false, k)
  }

  ghost predicate StopAt(es: seq<Entry>, ev: seq<Event>, i: nat, k: nat) {
    k < |es| && i < |ev| && ev[i] == Event(es[k].end, true, k)
  }

  /** Event `i` is the one at the position recorded for its step. */
  ghost predicate IsRecorded(ev: seq<Event>, starts: seq<nat>, stops: seq<nat>, i: nat) {
    i < |ev| && ev[i].target < |starts| == |stops|
    && i == if ev[i].stop then stops[ev[i].target] else starts[ev[i].target]
  }

  /** `starts[k]` and `stops[k]` are the positions of the two events of step `k`. */
  ghost predicate Placed(es: seq<Entry>, ev: seq<Event>, starts: seq<nat>, stops: seq<nat>) {
    && |starts| == |stops| == |es|
    && (forall k {:trigger StartAt(es, ev, starts[k], k)} :: 0 <= k < |es| ==> StartAt(es, ev, starts[k], k))
    && (forall k {:trigger StopAt(es, ev, stops[k], k)} :: 0 <= k < |es| ==> StopAt(es, ev, stops[k], k))
    && (forall i :: 0 <= i < |ev| ==> IsRecorded(ev, starts, stops, i))
  }

  lemma {:induction false} EventsOfMembers(es: seq<Entry>, e: Event)
    ensures multiset(EventsOf(es))[e] ==
            if e.target < |es| && e.time == (if e.stop then es[e.target].end else es[e.target].start) then 1 else 0
  {
    if es != [] {
      var n := |es| - 1;
      EventsOfMembers(es[..n], e);
      var a, b := Event(es[n].start, false, n), Event(es[n].end, true, n);
      assert multiset(EventsOf(es)) == multiset(EventsOf(es[..n])) + multiset{a, b};
    }
  }

  lemma {:induction false} CountedTwice(ev: seq<Event>, i: nat, j: nat)
    requires i < j < |ev| && ev[i] == ev[j]
    ensures multiset(ev)[ev[i]] >= 2
  {
    assert ev == ev[..j] + [ev[j]] + ev[j + 1..];
    assert ev[i] == ev[..j][i] && ev[i] in multiset(ev[..j]);
  }

  lemma {:induction false} PositionOf(ev: seq<Event>, e: Event) returns (i: nat)
    requires multiset(ev)[e] >= 1
    ensures i < |ev| && ev[i] == e
  {
    assert e in ev;
    i :| 0 <= i < |ev| && ev[i] == e;
  }

  lemma {:induction false} PlaceUpTo(es: seq<Entry>, ev: seq<Event>, n: nat) returns (starts: seq<nat>, stops: seq<nat>)
    requires multiset(ev) == multiset(EventsOf(es)) && n <= |es|
    ensures |starts| == |stops| == n
    ensures forall k :: 0 <= k < n ==> starts[k] < |ev| && ev[starts[k]] == Event(es[k].start, false, k)
    ensures forall k :: 0 <= k < n ==> stops[k] < |ev| && ev[stops[k]] == Event(es[k].end, true, k)
  {
    if n == 0 {
      starts, stops := [], [];
    } else {
      starts, stops := PlaceUpTo(es, ev, n - 1);
      var a, b := Event(es[n - 1].start, false, n - 1), Event(es[n - 1].end, true, n - 1);
      EventsOfMembers(es, a);
      EventsOfMembers(es, b);
      var i := PositionOf(ev, a);
      var j := PositionOf(ev, b);
      starts, stops := starts + [i], stops + [j];
    }
  }

  lemma {:induction false} Place(es: seq<Entry>, ev: seq<Event>) returns (starts: seq<nat>, stops: seq<nat>)
    requires multiset(ev) == multiset(EventsOf(es))
    ensures Placed(es, ev, starts, stops)
  {
    starts, stops := PlaceUpTo(es, ev, |es|);
    forall i | 0 <= i < |ev| ensures IsRecorded(ev, starts, stops, i) {
      assert ev[i] in multiset(ev);
      EventsOfMembers(es, ev[i]);
      var j := if ev[i].stop then stops[ev[i].target] else starts[ev[i].target];
      if i < j {
        CountedTwice(ev, i, j);
      } else if j < i {
        CountedTwice(ev, j, i);
      }
    }
  }

  function Times(ev: seq<Event>): seq<real> {
    seq(|ev|, i requires 0 <= i < |ev| => ev[i].time)
  }

  lemma {:induction false} StartsBeforeStop(es: seq<Entry>, ev: seq<Event>, starts: seq<nat>, stops: seq<nat>, k: nat)
    requires Valid(es) && Sorted(ev) && Placed(es, ev, starts, stops) && k < |es|
    ensures starts[k] < stops[k] < |ev|
  {
    assert StartAt(es, ev, starts[k], k) && StopAt(es, ev, stops[k], k);
    assert !KeyLeq(ev[stops[k]], ev[starts[k]]);
  }

  /** The steps started and not yet stopped before event `i`. */
  ghost function Open(starts: seq<nat>, stops: seq<nat>, i: nat): set<nat>
    requires |starts| == |stops|
  {
    set k: nat | k < |starts| && starts[k] < i <= stops[k]
  }

  /** Between two events at different times the open steps are exactly those that run. */
  lemma {:induction false} OpenIsRunning(es: seq<Entry>, ev: seq<Event>, starts: seq<nat>, stops: seq<nat>, i: nat)
    requires Valid(es) && Sorted(ev) && Placed(es, ev, starts, stops)
    requires 0 < i < |ev| && ev[i - 1].time < ev[i].time
    ensures Running(es, ev[i - 1].time, ev[i].time) == Open(starts, stops, i)
  {
    forall k: nat | k < |es| ensures Covers(es[k], ev[i - 1].time, ev[i].time) <==> starts[k] < i <= stops[k] {
      var s, p := starts[k], stops[k];
      assert StartAt(es, ev, s, k) && StopAt(es, ev, p, k);
      assert s > i ==> KeyLeq(ev[i], ev[s]);
      assert s < i - 1 ==> KeyLeq(ev[s], ev[i - 1]);
      assert p > i ==> KeyLeq(ev[i], ev[p]);
      assert p < i - 1 ==> KeyLeq(ev[p], ev[i - 1]);
    }
  }

  lemma {:induction false} EmptyOrRunning(es: seq<Entry>, ev: seq<Event>, starts: seq<nat>, stops: seq<nat>, i: nat)
    requires Valid(es) && Sorted(ev) && Placed(es, ev, starts, stops) && 0 < i < |ev|
    ensures ev[i - 1].time == ev[i].time || Open(starts, stops, i) == Running(es, ev[i - 1].time, ev[i].time)
  {
    assert KeyLeq(ev[i - 1], ev[i]);
    if ev[i - 1].time < ev[i].time {
      OpenIsRunning(es, ev, starts, stops, i);
    }
  }

  // ----- The accumulated share -----

  /** The share of the cell before event `i`. */
  ghost predicate IsShare(es: seq<Entry>, ev: seq<Event>, sh: seq<real>, i: nat)
    requires 0 < i < |ev| == |sh|
  {
    sh[i] == Share(es, ev[i - 1].time, ev[i].time)
  }

  ghost predicate AreShares(es: seq<Entry>, ev: seq<Event>, sh: seq<real>) {
    |sh| == |ev| && forall i :: 0 < i < |ev| ==> IsShare(es, ev, sh, i)
  }

  /** The shares of the first cells: what one step running all along would get. */
  function Acc(sh: seq<real>, i: nat): real
    requires i <= |sh|
  {
    if i < 2 then 0.0 else Acc(sh, i - 1) + sh[i - 1]
  }

  lemma {:induction false} EmptyCell(es: seq<Entry>, a: real)
    ensures Share(es, a, a) == 0.0 && BusyCell(es, a, a) == 0.0
  {
    var n := |Running(es, a, a)|;
    if n > 0 {
      QuotientIsEqualPart(0.0, n);
    }
  }

  /** Step `k` runs in the cell before event `i` if that lies between its two events; if not, then
      only when the cell is empty. */
  lemma {:induction false} CellInside(es: seq<Entry>, ev: seq<Event>, starts: seq<nat>, stops: seq<nat>, k: nat, i: nat)
    requires Valid(es) && Sorted(ev) && Placed(es, ev, starts, stops) && k < |es| && 0 < i < |ev|
    ensures starts[k] < i <= stops[k] ==> Covers(es[k], ev[i - 1].time, ev[i].time)
    ensures !(starts[k] < i <= stops[k]) && Covers(es[k], ev[i - 1].time, ev[i].time) ==> ev[i - 1].time == ev[i].time
  {
    var s, p := starts[k], stops[k];
    assert StartAt(es, ev, s, k) && StopAt(es, ev, p, k);
    assert KeyLeq(ev[i - 1], ev[i]);
    assert s < i - 1 ==> KeyLeq(ev[s], ev[i - 1]);
    assert s > i ==> KeyLeq(ev[i], ev[s]);
    assert p > i ==> KeyLeq(ev[i], ev[p]);
    assert p < i - 1 ==> KeyLeq(ev[p], ev[i - 1]);
  }

  /** Of the cell before event `i`, step `k` gets the share if the cell lies between its two events. */
  lemma {:induction false} ShareOfCell(es: seq<Entry>, ev: seq<Event>, starts: seq<nat>, stops: seq<nat>,
                                       sh: seq<real>, k: nat, i: nat)
    requires Valid(es) && Sorted(ev) && Placed(es, ev, starts, stops) && AreShares(es, ev, sh) && k < |es|
             && 0 < i < |ev|
    ensures Shares(es, Times(ev), k)[i - 1] == if starts[k] < i <= stops[k] then sh[i] else 0.0
  {
    assert IsShare(es, ev, sh, i);
    CellInside(es, ev, starts, stops, k, i);
    EmptyCell(es, ev[i].time);
  }

  /** Adding up the cells between two events. */
  lemma {:induction false} SumBetween(cells: seq<real>, sh: seq<real>, s: nat, p: nat, i: nat)
    requires |sh| == |cells| + 1 && s < p < |sh| && i <= |cells|
    requires forall j :: 0 <= j < |cells| ==> cells[j] == if s <= j < p then sh[j + 1] else 0.0
    ensures SumSeq(cells[..i]) == if i <= s then 0.0 else Acc(sh, if i < p then i + 1 else p + 1) - Acc(sh, s + 1)
  {
    if i > 0 {
      assert cells[..i][..i - 1] == cells[..i - 1];
      SumBetween(cells, sh, s, p, i - 1);
    }
  }

  lemma {:induction false} WeightCells(es: seq<Entry>, ev: seq<Event>, starts: seq<nat>, stops: seq<nat>,
                                       sh: seq<real>, k: nat)
    returns (cells: seq<real>)
    requires Valid(es) && Sorted(ev) && Placed(es, ev, starts, stops) && AreShares(es, ev, sh) && k < |es|
    ensures |sh| == |cells| + 1 && Weight(es, Times(ev), k) == SumSeq(cells)
    ensures forall j :: 0 <= j < |cells| ==> cells[j] == if starts[k] <= j < stops[k] then sh[j + 1] else 0.0
  {
    cells := Shares(es, Times(ev), k);
    assert StartAt(es, ev, starts[k], k);
    forall j | 0 <= j < |cells| ensures cells[j] == if starts[k] <= j < stops[k] then sh[j + 1] else 0.0 {
      ShareOfCell(es, ev, starts, stops, sh, k, j + 1);
    }
  }

  /** Between its start and its stop, the accumulated share grows by the weight of step `k`. */
  lemma {:induction false} WeightIsDifference(es: seq<Entry>, ev: seq<Event>, starts: seq<nat>, stops: seq<nat>,
                                              sh: seq<real>, k: nat)
    requires Valid(es) && Sorted(ev) && Placed(es, ev, starts, stops) && AreShares(es, ev, sh) && k < |es|
    requires starts[k] < |sh| && stops[k] < |sh|
    ensures Weight(es, Times(ev), k) == Acc(sh, stops[k] + 1) - Acc(sh, starts[k] + 1)
  {
    var cells := WeightCells(es, ev, starts, stops, sh, k);
    StartsBeforeStop(es, ev, starts, stops, k);
    SumBetween(cells, sh, starts[k], stops[k], |cells|);
    assert cells[..|cells|] == cells;
  }

  // ----- Conservation -----

  /** The sum of parts `q`, one for each member of `r` below `n`. */
  lemma {:induction false} SumOfParts(r: set<nat>, q: real, parts: seq<real>)
    requires forall k :: k in r ==> k < |parts|
    requires forall k: nat :: k < |parts| ==> parts[k] == if k in r then q else 0.0
    ensures SumSeq(parts) == Repeated(|r|, q)
  {
    if parts == [] {
      assert r == {};
    } else {
      var n := |parts| - 1;
      SumOfParts(r - {n}, q, parts[..n]);
      if n in r {
        assert r == (r - {n}) + {n};
      } else {
        assert r - {n} == r;
      }
    }
  }

  lemma {:induction false} SumSeqAdd(a: seq<real>, b: seq<real>, c: seq<real>)
    requires |a| == |b| == |c| && forall k :: 0 <= k < |a| ==> c[k] == a[k] + b[k]
    ensures SumSeq(c) == SumSeq(a) + SumSeq(b)
  {
    if a != [] {
      var n := |a| - 1;
      SumSeqAdd(a[..n], b[..n], c[..n]);
    }
  }

  /** What each step gets of one cell. */
  ghost function Parts(es: seq<Entry>, a: real, b: real): seq<real> {
    seq(|es|, k requires 0 <= k < |es| => if Covers(es[k], a, b) then Share(es, a, b) else 0.0)
  }

  /** The parts of a cell make up the cell, if any step runs during it. */
  lemma {:induction false} PartsMakeUpCell(es: seq<Entry>, a: real, b: real)
    ensures SumSeq(Parts(es, a, b)) == BusyCell(es, a, b)
  {
    SumOfParts(Running(es, a, b), Share(es, a, b), Parts(es, a, b));
  }

  ghost function Weights(es: seq<Entry>, grid: seq<real>): seq<real> {
    seq(|es|, k requires 0 <= k < |es| => Weight(es, grid, k))
  }

  lemma {:induction false} WeightNext(es: seq<Entry>, grid: seq<real>, n: nat, k: nat)
    requires |grid| == n + 2 && k < |es|
    ensures Weight(es, grid, k) == Weight(es, grid[..n + 1], k) + Parts(es, grid[n], grid[n + 1])[k]
  {
    assert Shares(es, grid, k)[..n] == Shares(es, grid[..n + 1], k);
  }

  lemma {:induction false} BusyNext(es: seq<Entry>, grid: seq<real>, n: nat)
    requires |grid| == n + 2
    ensures Busy(es, grid) == Busy(es, grid[..n + 1]) + BusyCell(es, grid[n], grid[n + 1])
  {
    assert BusyCells(es, grid)[..n] == BusyCells(es, grid[..n + 1]);
  }

  /** On every grid, the weights of all steps add up to the busy time. */
  lemma {:induction false} WeightsAddUp(es: seq<Entry>, grid: seq<real>)
    ensures SumSeq(Weights(es, grid)) == Busy(es, grid)
    decreases |grid|
  {
    if |grid| < 2 {
      assert Weights(es, grid) == seq(|es|, _ => 0.0);
      SumOfZeros(|es|);
    } else {
      var n := |grid| - 2;
      WeightsAddUp(es, grid[..n + 1]);
      PartsMakeUpCell(es, grid[n], grid[n + 1]);
      BusyNext(es, grid, n);
      forall k | 0 <= k < |es|
        ensures Weights(es, grid)[k] == Weights(es, grid[..n + 1])[k] + Parts(es, grid[n], grid[n + 1])[k]
      {
        WeightNext(es, grid, n, k);
      }
      SumSeqAdd(Weights(es, grid[..n + 1]), Parts(es, grid[n], grid[n + 1]), Weights(es, grid));
    }
  }

  lemma {:induction false} SumSeqUpdate(s: seq<real>, k: nat, x: real)
    requires k < |s|
    ensures SumSeq(s[k := x]) == SumSeq(s) - s[k] + x
  {
    var n := |s| - 1;
    if k == n {
      assert s[k := x][..n] == s[..n];
    } else {
      assert s[k := x][..n] == s[..n][k := x];
      SumSeqUpdate(s[..n], k, x);
    }
  }

  lemma {:induction false} SumOfZeros(n: nat)
    ensures SumSeq(seq(n, _ => 0.0)) == 0.0
  {
    if n > 0 {
      assert seq(n, _ => 0.0)[..n - 1] == seq(n - 1, _ => 0.0);
      SumOfZeros(n - 1);
    }
  }

  // ----- One event -----

  /** How much the weighted time grows while the running steps run for `x`. */
  ghost function Growth(running: map<nat, real>, x: real): real {
    if |running| > 0 then EqualPart(x, |running|) else 0.0
  }

  lemma {:induction false} GrowthIsShare(es: seq<Entry>, running: map<nat, real>, a: real, b: real)
    requires a == b || running.Keys == Running(es, a, b)
    ensures Growth(running, b - a) == Share(es, a, b)
  {
    assert |running| == |running.Keys|;
    if a == b {
      EmptyCell(es, a);
      if |running| > 0 {
        QuotientIsEqualPart(0.0, |running|);
      }
    }
  }

  /** The weighted time grows by the share of the cell just finished. */
  lemma {:induction false} Advance(es: seq<Entry>, ev: seq<Event>, starts: seq<nat>, stops: seq<nat>, sh: seq<real>,
                                   running: map<nat, real>, i: nat)
    requires Valid(es) && Sorted(ev) && Placed(es, ev, starts, stops) && AreShares(es, ev, sh) && 0 < i < |ev|
    requires running.Keys == Open(starts, stops, i)
    ensures Growth(running, ev[i].time - ev[i - 1].time) == sh[i]
  {
    assert IsShare(es, ev, sh, i);
    EmptyOrRunning(es, ev, starts, stops, i);
    GrowthIsShare(es, running, ev[i - 1].time, ev[i].time);
  }

  /** The event at `i` opens or closes its own step and no other. */
  lemma {:induction false} OpenNext(es: seq<Entry>, ev: seq<Event>, starts: seq<nat>, stops: seq<nat>, i: nat)
    requires Valid(es) && Sorted(ev) && Placed(es, ev, starts, stops) && i < |ev|
    ensures ev[i].stop ==>
              ev[i].target in Open(starts, stops, i)
              && Open(starts, stops, i + 1) == Open(starts, stops, i) - {ev[i].target}
    ensures !ev[i].stop ==>
              ev[i].target !in Open(starts, stops, i)
              && Open(starts, stops, i + 1) == Open(starts, stops, i) + {ev[i].target}
    ensures forall k :: 0 <= k < |es| ==> (stops[k] == i <==> ev[i].stop && k == ev[i].target)
  {
    var t := ev[i].target;
    assert IsRecorded(ev, starts, stops, i);
    StartsBeforeStop(es, ev, starts, stops, t);
    forall k: nat | k < |es|
      ensures (starts[k] == i <==> !ev[i].stop && k == t) && (stops[k] == i <==> ev[i].stop && k == t)
    {
      assert StartAt(es, ev, starts[k], k) && StopAt(es, ev, stops[k], k);
    }
  }

  /** Each running step has the weighted time of its start. */
  ghost predicate RunningInv(starts: seq<nat>, stops: seq<nat>, sh: seq<real>, i: nat, running: map<nat, real>) {
    && |starts| == |stops| && (forall k :: 0 <= k < |starts| ==> starts[k] < |sh|)
    && running.Keys == Open(starts, stops, i)
    && (forall k: nat :: k in running ==> running[k] == Acc(sh, starts[k] + 1))
  }

  /** Each stopped step has its weight. */
  ghost predicate WeightedInv(starts: seq<nat>, stops: seq<nat>, sh: seq<real>, i: nat, weighted: seq<real>) {
    && |starts| == |stops| == |weighted| && (forall k :: 0 <= k < |starts| ==> starts[k] < |sh| && stops[k] < |sh|)
    && (forall k: nat :: k < |stops| ==>
         weighted[k] == if stops[k] < i then Acc(sh, stops[k] + 1) - Acc(sh, starts[k] + 1) else 0.0)
  }

  lemma {:induction false} AtStart(es: seq<Entry>, ev: seq<Event>, starts: seq<nat>, stops: seq<nat>, sh: seq<real>,
                                   i: nat, running: map<nat, real>, weighted: seq<real>, w: real)
    requires Valid(es) && Sorted(ev) && Placed(es, ev, starts, stops) && i < |ev| == |sh| && !ev[i].stop
    requires RunningInv(starts, stops, sh, i, running) && WeightedInv(starts, stops, sh, i, weighted)
             && w == Acc(sh, i + 1)
    ensures RunningInv(starts, stops, sh, i + 1, running[ev[i].target := w])
            && WeightedInv(starts, stops, sh, i + 1, weighted)
  {
    OpenNext(es, ev, starts, stops, i);
  }

  lemma {:induction false} AtStop(es: seq<Entry>, ev: seq<Event>, starts: seq<nat>, stops: seq<nat>, sh: seq<real>,
                                  i: nat, running: map<nat, real>, weighted: seq<real>, w: real)
    requires Valid(es) && Sorted(ev) && Placed(es, ev, starts, stops) && i < |ev| == |sh| && ev[i].stop
    requires RunningInv(starts, stops, sh, i, running) && WeightedInv(starts, stops, sh, i, weighted)
             && w == Acc(sh, i + 1)
    ensures var t := ev[i].target;
            && t in running && weighted[t] == 0.0
            && RunningInv(starts, stops, sh, i + 1, running - {t})
            && WeightedInv(starts, stops, sh, i + 1, weighted[t := w - running[t]])
  {
    OpenNext(es, ev, starts, stops, i);
  }

  // ----- The sweep -----

  /** The time of the event before `i`, or of the first event. */
  function TimeBefore(ev: seq<Event>, i: nat): real
    requires i <= |ev| && ev != []
  {
    if i == 0 then ev[0].time else ev[i - 1].time
  }

  lemma {:induction false} AdvanceTo(es: seq<Entry>, ev: seq<Event>, starts: seq<nat>, stops: seq<nat>, sh: seq<real>,
                                     running: map<nat, real>, i: nat)
    requires Valid(es) && Sorted(ev) && Placed(es, ev, starts, stops) && AreShares(es, ev, sh) && i < |ev|
    requires running.Keys == Open(starts, stops, i)
    ensures |running| == 0 ==> Acc(sh, i + 1) == Acc(sh, i)
    ensures |running| > 0 ==> Acc(sh, i + 1) == Acc(sh, i) + (ev[i].time - TimeBefore(ev, i)) / |running| as real
  {
    if i > 0 {
      Advance(es, ev, starts, stops, sh, running, i);
      if |running| > 0 {
        QuotientIsEqualPart(ev[i].time - ev[i - 1].time, |running|);
      }
    } else {
      assert running.Keys == {};
      assert running == map[];
    }
  }

  lemma {:induction false} SweepEnds(es: seq<Entry>, ev: seq<Event>, starts: seq<nat>, stops: seq<nat>, sh: seq<real>,
                                     weighted: seq<real>)
    requires Valid(es) && Sorted(ev) && Placed(es, ev, starts, stops) && AreShares(es, ev, sh)
    requires WeightedInv(starts, stops, sh, |ev|, weighted)
    ensures weighted == Weights(es, Times(ev))
  {
    forall k: nat | k < |es| ensures weighted[k] == Weight(es, Times(ev), k) {
      WeightIsDifference(es, ev, starts, stops, sh, k);
    }
  }

  /** The weighted time up to the next event. */
  method AdvanceWeighted(running: map<nat, real>, w: real, elapsed: real) returns (w': real)
    ensures w' == if |running| > 0 then w + elapsed / |running| as real else w
  {
    w' := w;
    if |running| > 0 {
      w' := w' + elapsed / |running| as real;
    }
  }

  /** Handles a start or a stop, once the weighted time is up to date.  A stop finds its step running. */
  method HandleEvent(e: Event, running: map<nat, real>, weighted: seq<real>, total: real, w: real, ghost es: seq<Entry>,
                     ghost ev: seq<Event>, ghost starts: seq<nat>, ghost stops: seq<nat>, ghost sh: seq<real>,
                     ghost i: nat)
    returns (running': map<nat, real>, weighted': seq<real>, total': real)
    requires Valid(es) && Sorted(ev) && Placed(es, ev, starts, stops) && i < |ev| == |sh| && e == ev[i]
    requires RunningInv(starts, stops, sh, i, running) && WeightedInv(starts, stops, sh, i, weighted)
    requires w == Acc(sh, i + 1) && total == SumSeq(weighted)
    ensures RunningInv(starts, stops, sh, i + 1, running') && WeightedInv(starts, stops, sh, i + 1, weighted')
    ensures total' == SumSeq(weighted')
  {
    running', weighted', total' := running, weighted, total;
    if !e.stop {
      AtStart(es, ev, starts, stops, sh, i, running, weighted, w);
      running' := running[e.target := w];
    } else {
      AtStop(es, ev, starts, stops, sh, i, running, weighted, w);
      var duration := w - running[e.target];
      SumSeqUpdate(weighted, e.target, duration);
      weighted', total', running' := weighted[e.target := duration], total + duration, running - {e.target};
    }
  }

  /** The loop over the sorted events.  Each stop finds its own step running, nothing is left running
      at the end, every step gets its weight, and the weights add up to the busy time. */
  method Sweep(es: seq<Entry>, ev: seq<Event>)
    returns (weighted: seq<real>, total: real, running: map<nat, real>)
    requires Valid(es) && Sorted(ev) && multiset(ev) == multiset(EventsOf(es)) && ev != []
    ensures weighted == Weights(es, Times(ev)) && total == SumSeq(weighted) == Busy(es, Times(ev))
    ensures running == map[]
  {
    ghost var starts, stops := Place(es, ev);
    ghost var sh := SharesOf(es, ev);
    weighted, total := seq(|es|, _ => 0.0), 0.0;
    SumOfZeros(|es|);
    running := map[];
    var lastTime := ev[0].time;
    var lastWeighted := 0.0;
    BoundsOf(es, ev, starts, stops);
    for i := 0 to |ev|
      invariant lastTime == TimeBefore(ev, i) && lastWeighted == Acc(sh, i) && total == SumSeq(weighted)
      invariant RunningInv(starts, stops, sh, i, running) && WeightedInv(starts, stops, sh, i, weighted)
    {
      var e := ev[i];
      AdvanceTo(es, ev, starts, stops, sh, running, i);
      lastWeighted := AdvanceWeighted(running, lastWeighted, e.time - lastTime);
      running, weighted, total := HandleEvent(e, running, weighted, total, lastWeighted, es, ev, starts, stops, sh, i);
      lastTime := e.time;
    }
    assert running.Keys == {};
    SweepEnds(es, ev, starts, stops, sh, weighted);
    WeightsAddUp(es, Times(ev));
  }

  lemma {:induction false} BoundsOf(es: seq<Entry>, ev: seq<Event>, starts: seq<nat>, stops: seq<nat>)
    requires Placed(es, ev, starts, stops)
    ensures forall k :: 0 <= k < |es| ==> starts[k] < |ev| && stops[k] < |ev|
  {
    forall k | 0 <= k < |es| ensures starts[k] < |ev| && stops[k] < |ev| {
      assert StartAt(es, ev, starts[k], k) && StopAt(es, ev, stops[k], k);
    }
  }

  ghost function SharesOf(es: seq<Entry>, ev: seq<Event>): (sh: seq<real>)
    ensures AreShares(es, ev, sh)
  {
    seq(|ev|, i requires 0 <= i < |ev| => if i == 0 then 0.0 else Share(es, ev[i - 1].time, ev[i].time))
  }
}
