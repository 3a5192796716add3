/** Indexing and slicing of Python lists, as CPython does it. */
module PyLists {

  import opened Options

  datatype Access<+T> = Value(value: T) | IndexError | ValueError

  datatype Slice = Slice(start: Option<int>, stop: Option<int>, step: int)

  /** s[i] */
  function At<T>(s: seq<T>, i: int): Access<T> {
    if 0 <= i < |s| then Value(s[i])
    else if -|s| <= i < 0 then Value(s[|s| + i])
    else IndexError
  }

  /** An index from -n to n - 1 finds an element, counted from the end if it is negative; others raise. */
  lemma {:induction false} AtCountsFromEnd<T>(s: seq<T>, i: nat)
    ensures i < |s| ==> At(s, i) == Value(s[i]) == At(s, i - |s|)
    ensures i >= |s| ==> At(s, i) == IndexError == At(s, 0 - i - 1)
  {
  }

  /** A bound of a slice of n elements: a negative one counts from the end, and one outside is moved in. */
  function Bound(b: Option<int>, n: nat, default: int, low: int, high: int): (r: int)
    requires low <= default <= high
    ensures low <= r <= high
  {
    if b.None? then default
    else
      var x := if b.value < 0 then b.value + n else b.value;
      if x < low then low else if x > high then high else x
  }

  function Steps(from: int, end: int, step: int): (r: seq<int>)
    requires step != 0
    decreases if step > 0 then end - from else from - end
  {
    if (if step > 0 then from < end else end < from) then [from] + Steps(from + step, end, step) else []
  }

  /** The indices that a slice selects from n elements. */
  function Indices(n: nat, s: Slice): (r: seq<int>)
    requires s.step != 0
    ensures InRange(r, n)
  {
    if s.step > 0 then
      var from, end := Bound(s.start, n, 0, 0, n), Bound(s.stop, n, n, 0, n);
      StepsUp(from, end, s.step);
      Steps(from, end, s.step)
    else
      var from, end := Bound(s.start, n, n - 1, -1, n - 1), Bound(s.stop, n, -1, -1, n - 1);
      StepsDown(from, end, s.step);
      Steps(from, end, s.step)
  }

  predicate InRange(idx: seq<int>, n: nat) {
    forall i :: 0 <= i < |idx| ==> 0 <= idx[i] < n
  }

  lemma {:induction false} StepsUp(from: int, end: int, step: int)
    requires step > 0
    ensures forall i :: 0 <= i < |Steps(from, end, step)| ==> from <= Steps(from, end, step)[i] < end
    ensures forall i, j :: 0 <= i < j < |Steps(from, end, step)| ==>
              Steps(from, end, step)[i] < Steps(from, end, step)[j]
    decreases end - from
  {
    if from < end {
      StepsUp(from + step, end, step);
    }
  }

  lemma {:induction false} StepsDown(from: int, end: int, step: int)
    requires step < 0
    ensures forall i :: 0 <= i < |Steps(from, end, step)| ==> end < Steps(from, end, step)[i] <= from
    ensures forall i, j :: 0 <= i < j < |Steps(from, end, step)| ==>
              Steps(from, end, step)[j] < Steps(from, end, step)[i]
    decreases from - end
  {
    if end < from {
      StepsDown(from + step, end, step);
    }
  }

  function Pick<T>(s: seq<T>, idx: seq<int>): (r: seq<T>)
    requires InRange(idx, |s|)
  {
    seq(|idx|, i requires 0 <= i < |idx| => s[idx[i]])
  }

  /** s[start:stop:step] */
  function Sliced<T>(s: seq<T>, arg: Slice): Access<seq<T>> {
    if arg.step == 0 then ValueError else Value(Pick(s, Indices(|s|, arg)))
  }

  /** s[a:b] */
  function Cut<T>(s: seq<T>, a: int, b: int): seq<T> {
    Pick(s, Indices(|s|, Slice(Some(a), Some(b), 1)))
  }

  lemma {:induction false} StepsByOne(from: int, end: int)
    ensures var r := Steps(from, end, 1);
            |r| == (if from < end then end - from else 0) && forall i :: 0 <= i < |r| ==> r[i] == from + i
    decreases end - from
  {
    if from < end {
      StepsByOne(from + 1, end);
    }
  }

  /** A stride goes from the first index in equal steps, as far as the end allows. */
  lemma {:induction false} StepsAt(from: int, end: int, step: int)
    requires step > 0
    ensures var r := Steps(from, end, step);
            && (forall i :: 0 <= i < |r| ==> r[i] == from + i * step)
            && (r != [] ==> from + (|r| - 1) * step < end) && (end <= from || end <= from + |r| * step)
    decreases end - from
  {
    if from < end {
      StepsAt(from + step, end, step);
      var r, rest := Steps(from, end, step), Steps(from + step, end, step);
      forall i | 0 <= i < |r| ensures r[i] == from + i * step {
        if i > 0 {
          assert r[i] == rest[i - 1] == from + step + (i - 1) * step;
        }
      }
    }
  }

  /** s[a:] is the rest from a on. */
  lemma {:induction false} TailIsRest<T>(s: seq<T>, a: nat)
    requires a <= |s|
    ensures Sliced(s, Slice(Some(a), None, 1)) == Value(s[a..])
  {
    StepsByOne(a, |s|);
    assert Pick(s, Steps(a, |s|, 1)) == s[a..];
  }

  /** s[::k] has every k-th element: those at 0, k, 2k, .. up to the end. */
  lemma {:induction false} StrideIsEveryKth<T>(s: seq<T>, k: nat)
    requires k > 0
    ensures var r := Sliced(s, Slice(None, None, k));
            && r.Value? && |s| <= |r.value| * k && (r.value != [] ==> (|r.value| - 1) * k < |s|)
            && forall i :: 0 <= i < |r.value| ==> 0 <= i * k < |s| && r.value[i] == s[i * k]
  {
    StepsAt(0, |s|, k);
    StepsUp(0, |s|, k);
    var idx := Indices(|s|, Slice(None, None, k));
    assert idx == Steps(0, |s|, k);
    forall i | 0 <= i < |idx| ensures 0 <= i * k < |s| && Pick(s, idx)[i] == s[i * k] {
      assert idx[i] == i * k;
    }
  }

  /** s[::-1] is the list backwards. */
  lemma {:induction false} ReversedSlice<T>(s: seq<T>)
    ensures var r := Sliced(s, Slice(None, None, -1));
            r.Value? && |r.value| == |s| && forall i :: 0 <= i < |s| ==> r.value[i] == s[|s| - 1 - i]
  {
    StepsBack(|s| - 1);
  }

  lemma {:induction false} StepsBack(from: int)
    requires from >= -1
    ensures |Steps(from, -1, -1)| == from + 1
    ensures forall i :: 0 <= i <= from ==> Steps(from, -1, -1)[i] == from - i
    decreases from + 1
  {
    if from >= 0 {
      StepsBack(from - 1);
    }
  }

  /** Where a bound points: counted from the end if negative, and no further out than the ends. */
  function Place(x: int, n: nat): (r: int)
    ensures 0 <= r <= n
  {
    if x < 0 - n then 0 else if x < 0 then n + x else if x < n then x else n
  }

  /** s[a:b] is the stretch between the two places, and empty when b comes before a. */
  lemma {:induction false} CutIsSubsequence<T>(s: seq<T>, a: int, b: int)
    ensures var low, high := Place(a, |s|), Place(b, |s|);
            Cut(s, a, b) == if low <= high then s[low..high] else []
  {
    StepsByOne(Place(a, |s|), Place(b, |s|));
  }
}
