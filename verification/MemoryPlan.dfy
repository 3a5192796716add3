/** Planning of buffer reuse over generated wrapper lines, with one planning state per
    subgraph (memory_plan_reuse_patched in vllm/env_override.py).  */
module MemoryPlan {

  /** `Plan` is a memory planning line for a named buffer. */
  datatype Line<L> = Plan(name: string, line: L) | EnterSubgraph | ExitSubgraph | Other

  /** Planning a line rewrites it and updates the planning state it is given. */
  type Planner<!L, !S> = (L, S) -> (L, S)

  // ----- Which subgraph a line belongs to -----

  /** Number of planning states in use before line `i`: the root and every open subgraph. */
  function Depth<L>(lines: seq<Line<L>>, i: nat): int
    requires i <= |lines|
  {
    if i == 0 then 1
    else Depth(lines, i - 1) + (if lines[i - 1].EnterSubgraph? then 1 else if lines[i - 1].ExitSubgraph? then -1 else 0)
  }

  /** Line `i` is planned or leaves a subgraph, but no planning state is in use. */
  ghost predicate NeedsState<L>(lines: seq<Line<L>>, i: nat)
    requires i < |lines|
  {
    (lines[i].Plan? || lines[i].ExitSubgraph?) && Depth(lines, i) < 1
  }

  /** No line needs a state that is not there, and only one state is left at the end. */
  ghost predicate Nested<L>(lines: seq<Line<L>>) {
    (forall i :: 0 <= i < |lines| ==> !NeedsState(lines, i)) && Depth(lines, |lines|) == 1
  }

  /** The subgraph open at line `i`: the index of the innermost enclosing entry, -1 for the root. */
  ghost predicate Owns<L>(lines: seq<Line<L>>, o: int, i: nat)
    requires i <= |lines|
  {
    -1 <= o < i && (o == -1 || lines[o].EnterSubgraph?) &&
    var base := Depth(lines, o + 1);
    Depth(lines, i) == base && forall j :: o < j <= i ==> Depth(lines, j) >= base
  }

  /** The planning state of subgraph `o` before line `i`: its own earlier lines, in order, and no others. */
  ghost function StateOf<L, S>(lines: seq<Line<L>>, plan: Planner<L, S>, empty: S, o: int, i: nat): S
    requires i <= |lines|
  {
    if i == 0 then empty
    else
      var s := StateOf(lines, plan, empty, o, i - 1);
      if lines[i - 1].Plan? && Owns(lines, o, i - 1) then plan(lines[i - 1].line, s).1 else s
  }

  /** Line `i` becomes `planned`: a planning line is planned with the state of its own subgraph. */
  ghost predicate BecomesPlanned<L, S>(lines: seq<Line<L>>, plan: Planner<L, S>, empty: S, i: nat, planned: Line<L>)
    requires i < |lines|
  {
    if lines[i].Plan? then
      exists o :: Owns(lines, o, i)
        && planned == Plan(lines[i].name, plan(lines[i].line, StateOf(lines, plan, empty, o, i)).0)
    else planned == lines[i]
  }

  /** A line that the first pass drops from the end. */
  predicate Pointless<L>(line: Line<L>, outNames: seq<string>) {
    line.Plan? && line.name !in outNames
  }

  /** `o`, entered at depth `d`, is still open before line `i`. */
  ghost predicate IsOpen<L>(lines: seq<Line<L>>, o: int, d: nat, i: nat)
    requires i <= |lines|
  {
    -1 <= o < i && (o == -1 || lines[o].EnterSubgraph?) && Depth(lines, o + 1) == d + 1
    && forall j :: o < j <= i ==> Depth(lines, j) >= d + 1
  }

  /** A subgraph starts with an empty planning state. */
  lemma {:induction false} StartsEmpty<L, S>(lines: seq<Line<L>>, plan: Planner<L, S>, empty: S, o: nat, i: nat)
    requires i <= o + 1 && i <= |lines|
    ensures StateOf(lines, plan, empty, o, i) == empty
  {
    if i > 0 {
      StartsEmpty(lines, plan, empty, o, i - 1);
    }
  }

  /** A line has one owner. */
  lemma {:induction false} OwnerIsUnique<L>(lines: seq<Line<L>>, o: int, o': int, i: nat)
    requires i <= |lines| && Owns(lines, o, i) && Owns(lines, o', i)
    ensures o == o'
  {
    assert o >= 0 ==> Depth(lines, o + 1) == Depth(lines, o) + 1;
    assert o' >= 0 ==> Depth(lines, o' + 1) == Depth(lines, o') + 1;
  }

  /** One planning state per open subgraph, innermost last. */
  ghost predicate Tracks<L, S>(lines: seq<Line<L>>, plan: Planner<L, S>, empty: S, states: seq<S>, open: seq<int>,
                               i: nat)
    requires i <= |lines|
  {
    && |states| == |open| == Depth(lines, i)
    && forall d :: 0 <= d < |open| ==>
         IsOpen(lines, open[d], d, i) && states[d] == StateOf(lines, plan, empty, open[d], i)
  }

  lemma {:induction false} TracksPlan<L, S>(lines: seq<Line<L>>, plan: Planner<L, S>, empty: S, states: seq<S>,
                                            open: seq<int>, i: nat)
    requires i < |lines| && lines[i].Plan? && Tracks(lines, plan, empty, states, open, i) && |states| > 0
    ensures BecomesPlanned(lines, plan, empty, i, Plan(lines[i].name, plan(lines[i].line, states[|states| - 1]).0))
    ensures Tracks(lines, plan, empty, states[|states| - 1 := plan(lines[i].line, states[|states| - 1]).1], open, i + 1)
  {
    forall d | 0 <= d < |open| ensures Owns(lines, open[d], i) <==> d == |open| - 1 {
    }
  }

  lemma {:induction false} TracksEnter<L, S>(lines: seq<Line<L>>, plan: Planner<L, S>, empty: S, states: seq<S>,
                                             open: seq<int>, i: nat)
    requires i < |lines| && lines[i].EnterSubgraph? && Tracks(lines, plan, empty, states, open, i)
    ensures Tracks(lines, plan, empty, states + [empty], open + [i], i + 1)
  {
    StartsEmpty(lines, plan, empty, i, i + 1);
  }

  lemma {:induction false} TracksExit<L, S>(lines: seq<Line<L>>, plan: Planner<L, S>, empty: S, states: seq<S>,
                                            open: seq<int>, i: nat)
    requires i < |lines| && lines[i].ExitSubgraph? && Tracks(lines, plan, empty, states, open, i) && |states| > 0
    ensures Tracks(lines, plan, empty, states[..|states| - 1], open[..|open| - 1], i + 1)
  {
  }

  lemma {:induction false} DepthOfPrefix<L>(lines: seq<Line<L>>, k: nat, i: nat)
    requires i <= k <= |lines|
    ensures Depth(lines[..k], i) == Depth(lines, i)
  {
    if i > 0 {
      DepthOfPrefix(lines, k, i - 1);
    }
  }

  lemma {:induction false} DropLastPlan<L>(lines: seq<Line<L>>)
    requires lines != [] && lines[|lines| - 1].Plan?
    ensures Nested(lines[..|lines| - 1]) <==> Nested(lines)
  {
    var last := |lines| - 1;
    var short := lines[..last];
    forall i | 0 <= i < last ensures NeedsState(short, i) == NeedsState(lines, i) {
      DepthOfPrefix(lines, last, i);
    }
    DepthOfPrefix(lines, last, last);
    if Nested(short) {
      forall i | 0 <= i < |lines| ensures !NeedsState(lines, i) {
        assert i < last ==> !NeedsState(short, i);
      }
    } else if Nested(lines) {
      forall i | 0 <= i < last ensures !NeedsState(short, i) {
        assert !NeedsState(lines, i);
      }
    }
  }

  /** Dropping planning lines from the end changes nothing about nesting. */
  lemma {:induction false} TrimmedIsNested<L>(lines: seq<Line<L>>, k: nat)
    requires k <= |lines| && forall i :: k <= i < |lines| ==> lines[i].Plan?
    ensures Nested(lines[..k]) <==> Nested(lines)
    decreases |lines|
  {
    if k < |lines| {
      var last := |lines| - 1;
      assert lines[..last][..k] == lines[..k];
      TrimmedIsNested(lines[..last], k);
      DropLastPlan(lines);
    } else {
      assert lines[..k] == lines;
    }
  }

  lemma {:induction false} TracksOther<L, S>(lines: seq<Line<L>>, plan: Planner<L, S>, empty: S, states: seq<S>,
                                             open: seq<int>, i: nat)
    requires i < |lines| && lines[i].Other? && Tracks(lines, plan, empty, states, open, i)
    ensures Tracks(lines, plan, empty, states, open, i + 1)
  {
  }

  /** The lines before `i` are planned, the others are as they were. */
  ghost predicate PlannedUpTo<L, S>(was: seq<Line<L>>, plan: Planner<L, S>, empty: S, i: nat, lines: seq<Line<L>>) {
    && i <= |was| == |lines|
    && (forall j :: 0 <= j < i ==> BecomesPlanned(was, plan, empty, j, lines[j]))
    && (forall j :: i <= j < |was| ==> lines[j] == was[j])
  }

  lemma {:induction false} PlannedNext<L, S>(was: seq<Line<L>>, plan: Planner<L, S>, empty: S, i: nat,
                                             lines: seq<Line<L>>, planned: Line<L>)
    requires PlannedUpTo(was, plan, empty, i, lines) && i < |was| && BecomesPlanned(was, plan, empty, i, planned)
    ensures PlannedUpTo(was, plan, empty, i + 1, lines[i := planned])
    ensures planned == lines[i] ==> PlannedUpTo(was, plan, empty, i + 1, lines)
  {
    assert planned == lines[i] ==> lines[i := planned] == lines;
  }

  datatype Outcome = Done | IndexError | AssertionError

  /** The pass gets to line `i` and ends there: at the first line without a state that it needs, or at the
      end, with one state left, none or more. */
  ghost predicate StopsAt<L>(lines: seq<Line<L>>, i: nat, outcome: Outcome) {
    && i <= |lines| && (forall j :: 0 <= j < i ==> !NeedsState(lines, j))
    && match outcome
       case Done => i == |lines| && Depth(lines, i) == 1
       case IndexError => if i < |lines| then NeedsState(lines, i) else Depth(lines, i) < 1
       case AssertionError => i == |lines| && Depth(lines, i) > 1
  }

  lemma {:induction false} DoneIffNested<L>(lines: seq<Line<L>>, i: nat, outcome: Outcome)
    requires StopsAt(lines, i, outcome)
    ensures outcome == Done <==> Nested(lines)
  {
  }

  class Wrapper<L> {
    var lines: seq<Line<L>>

    /** Drops the planning lines at the end that plan no output. */
    method DropPointless(outNames: seq<string>)
      modifies this
      ensures |lines| <= |old(lines)| && lines == old(lines)[..|lines|]
      ensures forall i :: |lines| <= i < |old(lines)| ==> old(lines)[i].Plan? && old(lines)[i].name !in outNames
      ensures lines != [] && lines[|lines| - 1].Plan? ==> lines[|lines| - 1].name in outNames
    {
      while lines != [] && Pointless(lines[|lines| - 1], outNames)
        invariant |lines| <= |old(lines)| && lines == old(lines)[..|lines|]
        invariant forall i :: |lines| <= i < |old(lines)| ==> Pointless(old(lines)[i], outNames)
        decreases |lines|
      {
        lines := lines[..|lines| - 1];
      }
    }

    /** One line of the second pass; it fails exactly when it needs a planning state and none is in use. */
    method PlanLine<S>(plan: Planner<L, S>, empty: S, i: nat, states: seq<S>, ghost was: seq<Line<L>>,
                       ghost open: seq<int>)
      returns (ok: bool, states': seq<S>, ghost open': seq<int>)
      requires i < |was| && PlannedUpTo(was, plan, empty, i, lines) && Tracks(was, plan, empty, states, open, i)
      modifies this
      ensures ok <==> !NeedsState(was, i)
      ensures ok ==> PlannedUpTo(was, plan, empty, i + 1, lines) && Tracks(was, plan, empty, states', open', i + 1)
      ensures !ok ==> lines == old(lines)
    {
      ok, states', open' := true, states, open;
      match lines[i] {
        case Plan(name, l) =>
          if states == [] {
            return false, states, open;
          }
          var r := plan(l, states[|states| - 1]);
          TracksPlan(was, plan, empty, states, open, i);
          PlannedNext(was, plan, empty, i, lines, Plan(name, r.0));
          lines, states' := lines[i := Plan(name, r.0)], states[|states| - 1 := r.1];
        case EnterSubgraph =>
          TracksEnter(was, plan, empty, states, open, i);
          PlannedNext(was, plan, empty, i, lines, lines[i]);
          states', open' := states + [empty], open + [i];
        case ExitSubgraph =>
          if states == [] {
            return false, states, open;
          }
          TracksExit(was, plan, empty, states, open, i);
          PlannedNext(was, plan, empty, i, lines, lines[i]);
          states', open' := states[..|states| - 1], open[..|open| - 1];
        case Other =>
          TracksOther(was, plan, empty, states, open, i);
          PlannedNext(was, plan, empty, i, lines, lines[i]);
      }
    }

    /** Rewrites the lines in place.  It succeeds exactly on nested lines, and then every planning line has
        been planned with the state of its own subgraph alone.  When it fails, the lines before the
        failure have been. */
    method PlanLines<S>(plan: Planner<L, S>, empty: S) returns (outcome: Outcome)
      modifies this
      ensures outcome == Done <==> Nested(old(lines))
      ensures outcome == Done ==> |lines| == |old(lines)|
      ensures outcome == Done ==> forall i :: 0 <= i < |lines| ==> BecomesPlanned(old(lines), plan, empty, i, lines[i])
      ensures exists i :: StopsAt(old(lines), i, outcome) && PlannedUpTo(old(lines), plan, empty, i, lines)
    {
      ghost var was := lines;
      var states := [empty];
      ghost var open := [-1];
      assert IsOpen(was, -1, 0, 0);
      for i := 0 to |lines|
        invariant PlannedUpTo(was, plan, empty, i, lines) && Tracks(was, plan, empty, states, open, i)
        invariant forall j :: 0 <= j < i ==> !NeedsState(was, j)
      {
        var ok;
        ok, states, open := PlanLine(plan, empty, i, states, was, open);
        if !ok {
          DoneIffNested(was, i, IndexError);
          return IndexError;
        }
      }
      if states == [] {
        DoneIffNested(was, |was|, IndexError);
        return IndexError;
      }
      states := states[..|states| - 1];
      outcome := if |states| == 0 then Done else AssertionError;
      DoneIffNested(was, |was|, outcome);
    }

    /** Both passes. */
    method MemoryPlanReuse<S>(outNames: seq<string>, plan: Planner<L, S>, empty: S) returns (outcome: Outcome)
      modifies this
      ensures outcome == Done <==> Nested(old(lines))
      ensures outcome == Done ==>
                && |lines| <= |old(lines)|
                && (forall i :: |lines| <= i < |old(lines)| ==> old(lines)[i].Plan? && old(lines)[i].name !in outNames)
                && (lines != [] && old(lines)[|lines| - 1].Plan? ==> old(lines)[|lines| - 1].name in outNames)
                && (forall i :: 0 <= i < |lines| ==> BecomesPlanned(old(lines)[..|lines|], plan, empty, i, lines[i]))
    {
      DropPointless(outNames);
      TrimmedIsNested(old(lines), |lines|);
      outcome := PlanLines(plan, empty);
    }
  }
}
