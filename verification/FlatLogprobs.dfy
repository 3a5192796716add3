/** Log probabilities of a request, kept in flat lists that behave as a list of dictionaries
    (vllm/logprobs.py).  A position without log probabilities is the empty dictionary.  */
module FlatLogprobs {
  import opened Options
  import opened PyLists

  datatype Logprob = Logprob(logprob: real, rank: Option<int>, decoded: Option<string>)

  datatype Item = Item(token: int, entry: Logprob)

  type Position = map<int, Logprob>

  /** The fields of the container. */
  datatype Flat = Flat(
    starts: seq<int>, ends: seq<int>,
    tokens: seq<int>, logprobs: seq<real>, ranks: seq<Option<int>>, decoded: seq<Option<string>>)

  // ----- Dictionaries -----

  /** The dictionary built by inserting the items one after another. */
  function Dict(items: seq<Item>): Position {
    if items == [] then map[]
    else
      var n := |items| - 1;
      Dict(items[..n])[items[n].token := items[n].entry]
  }

  /** A dictionary holds, for each token, the entry of its last item. */
  lemma {:induction false} LastItemWins(items: seq<Item>, t: int)
    ensures if exists i :: IsLast(items, i, t) then
              t in Dict(items) && forall i :: IsLast(items, i, t) ==> Dict(items)[t] == items[i].entry
            else t !in Dict(items)
  {
    if items != [] {
      var n := |items| - 1;
      LastItemWins(items[..n], t);
      if items[n].token == t {
        assert IsLast(items, n, t);
      } else {
        assert forall i :: IsLast(items, i, t) <==> IsLast(items[..n], i, t);
      }
    }
  }

  ghost predicate IsLast(items: seq<Item>, i: int, t: int) {
    0 <= i < |items| && items[i].token == t && forall j :: i < j < |items| ==> items[j].token != t
  }

  /** The sampled token needs no special case: when it is also among the others, its own item is not seen. */
  lemma {:induction false} FirstItemIsShadowed(x: Item, items: seq<Item>)
    requires exists i :: 0 <= i < |items| && items[i].token == x.token
    ensures Dict([x] + items) == Dict(items)
  {
    var n := |items| - 1;
    assert ([x] + items)[..n + 1] == [x] + items[..n];
    if items[n].token == x.token {
      OneMore(x, items[..n]);
      var d, e := Dict([x] + items), Dict(items);
      assert d == Dict([x] + items[..n])[x.token := items[n].entry];
      assert forall t :: t in d <==> t in e;
      assert forall t :: t in d ==> d[t] == e[t];
    } else {
      var i :| 0 <= i < |items| && items[i].token == x.token;
      assert items[..n][i].token == x.token;
      FirstItemIsShadowed(x, items[..n]);
    }
  }

  lemma {:induction false} OneMore(x: Item, items: seq<Item>)
    ensures forall t :: t != x.token ==> (t in Dict([x] + items) <==> t in Dict(items))
    ensures forall t :: t != x.token && t in Dict(items) ==> Dict([x] + items)[t] == Dict(items)[t]
  {
    if items != [] {
      var n := |items| - 1;
      assert ([x] + items)[..n + 1] == [x] + items[..n];
      OneMore(x, items[..n]);
    }
  }

  // ----- What a container denotes -----

  predicate Aligned(f: Flat) {
    |f.tokens| == |f.logprobs| == |f.ranks| == |f.decoded| && |f.starts| == |f.ends|
  }

  function Items(f: Flat): (r: seq<Item>)
    requires Aligned(f)
    ensures |r| == |f.tokens|
  {
    seq(|f.tokens|, i requires 0 <= i < |f.tokens| =>
      Item(f.tokens[i], Logprob(f.logprobs[i], f.ranks[i], f.decoded[i])))
  }

  /** The ranges of the positions lie in the lists, one after another.  A slice with a step leaves gaps. */
  predicate Valid(f: Flat) {
    && Aligned(f)
    && (forall p :: 0 <= p < |f.starts| ==> 0 <= f.starts[p] <= f.ends[p] <= |f.tokens|)
    && (forall p, q :: 0 <= p < q < |f.starts| ==> f.ends[p] <= f.starts[q])
  }

  function ItemsAt(f: Flat, p: nat): seq<Item>
    requires Valid(f) && p < |f.starts|
  {
    Items(f)[f.starts[p]..f.ends[p]]
  }

  /** The list of dictionaries that the container stands for. */
  function Denotes(f: Flat): (r: seq<Position>)
    requires Valid(f)
  {
    seq(|f.starts|, p requires 0 <= p < |f.starts| => Dict(ItemsAt(f, p)))
  }

  // ----- Reading -----

  /** The dictionary of the items a, a + 1, .., b - 1. */
  function Collect(items: seq<Item>, a: int, b: int): Access<Position>
    decreases b - a
  {
    if a >= b then Value(map[])
    else
      var d := Collect(items, a, b - 1);
      var x := At(items, b - 1);
      if d.Value? && x.Value? then Value(d.value[x.value.token := x.value.entry]) else IndexError
  }

  /** f[index] */
  function GetItem(f: Flat, index: int): Access<Position>
    requires Aligned(f)
  {
    var a, b := At(f.starts, index), At(f.ends, index);
    if a.Value? && b.Value? then Collect(Items(f), a.value, b.value) else IndexError
  }

  function Moved(s: seq<int>, low: int): seq<int> {
    seq(|s|, i requires 0 <= i < |s| => s[i] - low)
  }

  /** f[start:stop:step] */
  function GetSlice(f: Flat, arg: Slice): Access<Flat>
    requires |f.starts| == |f.ends|
  {
    if arg.step == 0 then ValueError
    else
      var starts, ends := Sliced(f.starts, arg).value, Sliced(f.ends, arg).value;
      if starts == [] then IndexError
      else
        var low, high := starts[0], ends[|ends| - 1];
        Value(Flat(
          Moved(starts, low), Moved(ends, low),
          Cut(f.tokens, low, high), Cut(f.logprobs, low, high), Cut(f.ranks, low, high), Cut(f.decoded, low, high)))
  }

  lemma {:induction false} CollectIsDict(items: seq<Item>, a: int, b: int)
    requires 0 <= a <= b <= |items|
    ensures Collect(items, a, b) == Value(Dict(items[a..b]))
    decreases b - a
  {
    if a < b {
      CollectIsDict(items, a, b - 1);
      assert items[a..b][..b - 1 - a] == items[a..b - 1];
    }
  }

  lemma {:induction false} CollectFromNothing(a: int, b: int)
    ensures Collect([], a, b) == if a < b then IndexError else Value(map[])
  {
  }

  /** Indexing the container is indexing the list, from either end and out of range. */
  lemma {:induction false} GetItemIsListItem(f: Flat, index: int)
    requires Valid(f)
    ensures GetItem(f, index) == At(Denotes(f), index)
  {
    var n := |f.starts|;
    if -n <= index < n {
      var p := if index < 0 then n + index else index;
      CollectIsDict(Items(f), f.starts[p], f.ends[p]);
    }
  }

  // ----- Slices -----

  /** The positions that a slice selects. */
  function Selected(f: Flat, arg: Slice): (r: seq<int>)
    requires arg.step != 0
    ensures InRange(r, |f.starts|)
  {
    Indices(|f.starts|, arg)
  }

  /** `g` holds the ranges of positions `idx` of `f`, moved down, and one stretch of its items, or nothing. */
  ghost predicate IsCut(f: Flat, g: Flat, idx: seq<int>)
    requires Aligned(f) && idx != [] && InRange(idx, |f.starts|)
  {
    var low, high := f.starts[idx[0]], f.ends[idx[|idx| - 1]];
    && Aligned(g)
    && |g.starts| == |idx|
    && (forall i :: 0 <= i < |idx| ==> g.starts[i] == f.starts[idx[i]] - low && g.ends[i] == f.ends[idx[i]] - low)
    && Items(g) == if 0 <= low <= high <= |f.tokens| then Items(f)[low..high] else []
  }

  lemma {:induction false} ItemsOfStretch(f: Flat, g: Flat, low: int, high: int)
    requires Aligned(f) && 0 <= low <= high <= |f.tokens| && |g.starts| == |g.ends|
    requires g.tokens == f.tokens[low..high] && g.logprobs == f.logprobs[low..high]
    requires g.ranks == f.ranks[low..high] && g.decoded == f.decoded[low..high]
    ensures Aligned(g) && Items(g) == Items(f)[low..high]
  {
  }

  lemma {:induction false} ItemsOfCut(f: Flat, g: Flat, low: int, high: int)
    requires Aligned(f) && 0 <= low <= |f.tokens| && 0 <= high <= |f.tokens| && |g.starts| == |g.ends|
    requires g.tokens == Cut(f.tokens, low, high) && g.logprobs == Cut(f.logprobs, low, high)
    requires g.ranks == Cut(f.ranks, low, high) && g.decoded == Cut(f.decoded, low, high)
    ensures Aligned(g) && Items(g) == if low <= high then Items(f)[low..high] else []
  {
    CutIsSubsequence(f.tokens, low, high);
    CutIsSubsequence(f.logprobs, low, high);
    CutIsSubsequence(f.ranks, low, high);
    CutIsSubsequence(f.decoded, low, high);
    if low <= high {
      ItemsOfStretch(f, g, low, high);
    }
  }

  lemma {:induction false} SliceIsCut(f: Flat, arg: Slice)
    requires Valid(f) && arg.step != 0 && Selected(f, arg) != []
    ensures GetSlice(f, arg).Value? && IsCut(f, GetSlice(f, arg).value, Selected(f, arg))
  {
    var idx := Selected(f, arg);
    ItemsOfCut(f, GetSlice(f, arg).value, f.starts[idx[0]], f.ends[idx[|idx| - 1]]);
  }

  predicate Ascending(idx: seq<int>) {
    forall i, j :: 0 <= i < j < |idx| ==> idx[i] < idx[j]
  }

  /** The ranges of ascending positions lie between the first start and the last end. */
  lemma {:induction false} AscendingRanges(f: Flat, idx: seq<int>)
    requires Valid(f) && idx != [] && InRange(idx, |f.starts|) && Ascending(idx)
    ensures forall i :: 0 <= i < |idx| ==>
              f.starts[idx[0]] <= f.starts[idx[i]] <= f.ends[idx[i]] <= f.ends[idx[|idx| - 1]]
    ensures forall i, j :: 0 <= i < j < |idx| ==> f.ends[idx[i]] <= f.starts[idx[j]]
  {
  }

  lemma {:induction false} AscendingIsValid(f: Flat, g: Flat, idx: seq<int>)
    requires Valid(f) && idx != [] && InRange(idx, |f.starts|) && Ascending(idx) && IsCut(f, g, idx)
    ensures Valid(g)
  {
    AscendingRanges(f, idx);
    assert |Items(g)| == |g.tokens|;
  }

  lemma {:induction false} AscendingItems(f: Flat, g: Flat, idx: seq<int>, i: nat)
    requires Valid(f) && idx != [] && InRange(idx, |f.starts|) && Ascending(idx) && IsCut(f, g, idx)
    requires Valid(g) && i < |idx|
    ensures ItemsAt(g, i) == ItemsAt(f, idx[i])
  {
    AscendingRanges(f, idx);
    var low, high, a, b := f.starts[idx[0]], f.ends[idx[|idx| - 1]], f.starts[idx[i]], f.ends[idx[i]];
    InnerStretch(Items(f), low, high, a, b);
  }

  lemma {:induction false} InnerStretch<T>(s: seq<T>, low: int, high: int, a: int, b: int)
    requires 0 <= low <= a <= b <= high <= |s|
    ensures s[low..high][a - low..b - low] == s[a..b]
  {
    var t := s[low..high];
    forall k | 0 <= k < b - a ensures t[a - low..b - low][k] == s[a..b][k] {
      assert t[a - low + k] == s[low + (a - low + k)];
    }
  }

  /** A cut whose positions ascend is a container for the same dictionaries. */
  lemma {:induction false} AscendingCut(f: Flat, g: Flat, idx: seq<int>)
    requires Valid(f) && idx != [] && InRange(idx, |f.starts|) && Ascending(idx) && IsCut(f, g, idx)
    ensures Valid(g) && Denotes(g) == Pick(Denotes(f), idx)
  {
    AscendingIsValid(f, g, idx);
    var l := Pick(Denotes(f), idx);
    forall i | 0 <= i < |idx| ensures Denotes(g)[i] == l[i] {
      AscendingItems(f, g, idx, i);
    }
  }

  /** A cut with two or more positions in descending order keeps no item at all. */
  lemma {:induction false} DescendingCut(f: Flat, g: Flat, idx: seq<int>)
    requires Valid(f) && idx != [] && InRange(idx, |f.starts|) && idx[|idx| - 1] < idx[0] && IsCut(f, g, idx)
    ensures Items(g) == []
    ensures forall i :: 0 <= i < |idx| ==>
              GetItem(g, i) == if ItemsAt(f, idx[i]) == [] then Value(map[]) else IndexError
  {
    forall i | 0 <= i < |idx| ensures GetItem(g, i) == if ItemsAt(f, idx[i]) == [] then Value(map[]) else IndexError {
      CollectFromNothing(g.starts[i], g.ends[i]);
    }
  }

  /** The slice answers every index as the slice of the list does. */
  ghost predicate ActsAs(f: Flat, positions: seq<Position>) {
    Aligned(f) && |f.starts| == |positions| && forall i :: GetItem(f, i) == At(positions, i)
  }

  lemma {:induction false} ValidActsAs(f: Flat)
    requires Valid(f)
    ensures ActsAs(f, Denotes(f))
  {
    forall i ensures GetItem(f, i) == At(Denotes(f), i) {
      GetItemIsListItem(f, i);
    }
  }

  lemma {:induction false} DescendingActsAs(f: Flat, g: Flat, idx: seq<int>)
    requires Valid(f) && idx != [] && InRange(idx, |f.starts|) && idx[|idx| - 1] < idx[0] && IsCut(f, g, idx)
    ensures var l := Pick(Denotes(f), idx); ActsAs(g, l) <==> forall i :: 0 <= i < |l| ==> l[i] == map[]
  {
    DescendingCut(f, g, idx);
    var l, n := Pick(Denotes(f), idx), |idx|;
    forall i | 0 <= i < n
      ensures GetItem(g, i) == At(l, i) <==> l[i] == map[]
      ensures GetItem(g, i - n) == GetItem(g, i)
    {
      var items := ItemsAt(f, idx[i]);
      if items != [] {
        assert items[|items| - 1].token in Dict(items);
      }
    }
    if forall i :: 0 <= i < |l| ==> l[i] == map[] {
      forall i ensures GetItem(g, i) == At(l, i) {
        if -n <= i < 0 {
          assert GetItem(g, (i + n) - n) == GetItem(g, i + n);
        }
      }
    }
  }

  lemma {:induction false} SelectedOrder(f: Flat, arg: Slice)
    requires arg.step != 0
    ensures arg.step > 0 || |Selected(f, arg)| == 1 ==> Ascending(Selected(f, arg))
    ensures arg.step < 0 && |Selected(f, arg)| > 1 ==> Selected(f, arg)[|Selected(f, arg)| - 1] < Selected(f, arg)[0]
  {
    var n := |f.starts|;
    if arg.step > 0 {
      StepsUp(Bound(arg.start, n, 0, 0, n), Bound(arg.stop, n, n, 0, n), arg.step);
    } else {
      StepsDown(Bound(arg.start, n, n - 1, -1, n - 1), Bound(arg.stop, n, -1, -1, n - 1), arg.step);
    }
  }

  /** A slice of the container stands for the slice of the list when its step is positive; an empty one
      raises.  With a negative step it does so exactly when it has one position or no items. */
  lemma {:induction false} SliceIsListSlice(f: Flat, arg: Slice)
    requires Valid(f)
    ensures arg.step == 0 ==> GetSlice(f, arg) == ValueError && Sliced(Denotes(f), arg) == ValueError
    ensures arg.step != 0 ==> (GetSlice(f, arg) == IndexError <==> Sliced(Denotes(f), arg) == Value([]))
    ensures arg.step > 0 && GetSlice(f, arg).Value? ==>
              Valid(GetSlice(f, arg).value) && Value(Denotes(GetSlice(f, arg).value)) == Sliced(Denotes(f), arg)
    ensures arg.step < 0 && GetSlice(f, arg).Value? ==>
              var l := Sliced(Denotes(f), arg).value;
              ActsAs(GetSlice(f, arg).value, l) <==> |l| == 1 || forall i :: 0 <= i < |l| ==> l[i] == map[]
  {
    if arg.step != 0 && Selected(f, arg) != [] {
      SliceIsCut(f, arg);
      SelectedOrder(f, arg);
      var g, idx := GetSlice(f, arg).value, Selected(f, arg);
      if arg.step > 0 || |idx| == 1 {
        AscendingCut(f, g, idx);
        ValidActsAs(g);
      } else {
        DescendingActsAs(f, g, idx);
      }
    }
  }

  // ----- Appending -----

  function Tokens(items: seq<Item>): seq<int> {
    seq(|items|, i requires 0 <= i < |items| => items[i].token)
  }

  function Logprobs(items: seq<Item>): seq<real> {
    seq(|items|, i requires 0 <= i < |items| => items[i].entry.logprob)
  }

  function Ranks(items: seq<Item>): seq<Option<int>> {
    seq(|items|, i requires 0 <= i < |items| => items[i].entry.rank)
  }

  function Decoded(items: seq<Item>): seq<Option<string>> {
    seq(|items|, i requires 0 <= i < |items| => items[i].entry.decoded)
  }

  /** One more position, with these items. */
  function Appended(f: Flat, items: seq<Item>): Flat {
    Flat(f.starts + [|f.logprobs|], f.ends + [|f.logprobs| + |items|],
         f.tokens + Tokens(items), f.logprobs + Logprobs(items), f.ranks + Ranks(items), f.decoded + Decoded(items))
  }

  lemma {:induction false} AppendedDenotes(f: Flat, items: seq<Item>)
    requires Valid(f)
    ensures Valid(Appended(f, items)) && Denotes(Appended(f, items)) == Denotes(f) + [Dict(items)]
  {
    var g, n := Appended(f, items), |f.starts|;
    ItemsOfAppended(f, items);
    forall p | 0 <= p < n ensures ItemsAt(g, p) == ItemsAt(f, p) {
      assert g.starts[p] == f.starts[p] && g.ends[p] == f.ends[p];
      var all := Items(f);
      assert (all + items)[f.starts[p]..f.ends[p]] == all[f.starts[p]..f.ends[p]];
    }
    assert ItemsAt(g, n) == items by {
      var all := Items(f);
      assert (all + items)[|all|..|all| + |items|] == items;
    }
  }

  lemma {:induction false} ItemsOfAppended(f: Flat, items: seq<Item>)
    requires Aligned(f)
    ensures Aligned(Appended(f, items)) && Items(Appended(f, items)) == Items(f) + items
  {
    var g, n := Appended(f, items), |f.tokens|;
    forall i | 0 <= i < n + |items| ensures Items(g)[i] == (Items(f) + items)[i] {
    }
  }

  /** Two positions of one item each, reversed: the result has two positions and no items. */
  lemma {:induction false} ReversedLosesItems(x: Item, y: Item)
    ensures var f := Appended(Appended(Flat([], [], [], [], [], []), [x]), [y]);
            var g := GetSlice(f, Slice(None, None, -1));
            && Valid(f) && Denotes(f) == [Dict([x]), Dict([y])] && Sliced(Denotes(f), Slice(None, None, -1)).Value?
            && g.Value? && !ActsAs(g.value, Sliced(Denotes(f), Slice(None, None, -1)).value)
  {
    var none, arg := Flat([], [], [], [], [], []), Slice(None, None, -1);
    AppendedDenotes(none, [x]);
    AppendedDenotes(Appended(none, [x]), [y]);
    var f := Appended(Appended(none, [x]), [y]);
    assert Denotes(none) == [];
    StepsOfTwo();
    SliceIsListSlice(f, arg);
    assert y.token in Dict([y]);
    assert Sliced(Denotes(f), arg).value[0] == Dict([y]);
  }

  lemma {:induction false} StepsOfTwo()
    ensures Indices(2, Slice(None, None, -1)) == [1, 0]
  {
    assert Steps(-1, -1, -1) == [] && Steps(0, -1, -1) == [0];
  }

  /** A Python iterable: a list, or `itertools.repeat`. */
  datatype Iterable<+T> = Listed(items: seq<T>) | Forever(item: T)

  function Nth<T>(xs: Iterable<T>, i: nat): T
    requires xs.Listed? ==> i < |xs.items|
  {
    if xs.Listed? then xs.items[i] else xs.item
  }

  /** How far zip gets: to the end of the shortest argument. */
  function ZipLength(tokens: seq<int>, logprobs: seq<real>, ranks: seq<int>,
                     decoded: Iterable<Option<string>>): (n: nat)
    ensures n <= |tokens| && n <= |logprobs| && n <= |ranks| && (decoded.Listed? ==> n <= |decoded.items|)
    ensures n == |tokens| || n == |logprobs| || n == |ranks| || (decoded.Listed? && n == |decoded.items|)
  {
    var a := if |tokens| < |logprobs| then |tokens| else |logprobs|;
    var b := if a < |ranks| then a else |ranks|;
    if decoded.Listed? && |decoded.items| < b then |decoded.items| else b
  }

  function Zip(tokens: seq<int>, logprobs: seq<real>, ranks: seq<int>, decoded: Iterable<Option<string>>): seq<Item> {
    var n := ZipLength(tokens, logprobs, ranks, decoded);
    seq(n, i requires 0 <= i < n => Item(tokens[i], Logprob(logprobs[i], Some(ranks[i]), Nth(decoded, i))))
  }

  /** The ranks of a position: the sampled token's, then 1, 2, .. for the top ones. */
  function NextRanks(rank: int, numLogprobs: int, available: nat): seq<int> {
    var n := if numLogprobs == -1 then available else numLogprobs;
    [rank] + seq(if n < 0 then 0 else n, i => i + 1)
  }

  /** The arguments of one call that appends a position. */
  datatype Call = Call(tokens: seq<int>, logprobs: seq<real>, decoded: Iterable<Option<string>>, rank: int,
                       numLogprobs: int)

  function CallItems(c: Call): seq<Item> {
    Zip(c.tokens, c.logprobs, NextRanks(c.rank, c.numLogprobs, |c.logprobs|), c.decoded)
  }

  // ----- What a call means, read off its arguments -----

  ghost predicate IsText(texts: Iterable<Option<string>>, i: nat, text: Option<string>) {
    match texts
    case Listed(items) => i < |items| && text == items[i]
    case Forever(item) => text == item
  }

  /** No list ends before index `i`, and `i` is among the log probabilities asked for: the sampled token's
      and the first `numLogprobs`, or all for -1. */
  ghost predicate Reached(c: Call, i: int) {
    && 0 <= i < |c.tokens| && i < |c.logprobs| && (c.decoded.Listed? ==> i < |c.decoded.items|)
    && (c.numLogprobs == -1 || i == 0 || i <= c.numLogprobs)
  }

  ghost predicate IsEntry(c: Call, i: int, e: Logprob) {
    && 0 <= i < |c.logprobs| && e.logprob == c.logprobs[i]
    && e.rank == Some(if i == 0 then c.rank else i) && IsText(c.decoded, i, e.decoded)
  }

  /** Of the indices with the same token, the last one that is reached. */
  ghost predicate IsLastReached(c: Call, i: int) {
    Reached(c, i) && forall j :: i < j && Reached(c, j) ==> c.tokens[j] != c.tokens[i]
  }

  /** The position has the tokens that are reached, each with its last entry. */
  ghost predicate Describes(c: Call, d: Position) {
    && (forall i :: Reached(c, i) ==> c.tokens[i] in d)
    && (forall t :: t in d ==> exists i :: Reached(c, i) && c.tokens[i] == t)
    && (forall i :: IsLastReached(c, i) ==> IsEntry(c, i, d[c.tokens[i]]))
  }

  /** Item `i` of a call is made of the arguments at `i`. */
  lemma {:induction false} ItemsOfCall(c: Call, i: int)
    ensures 0 <= i < |CallItems(c)| <==> Reached(c, i)
    ensures Reached(c, i) ==> CallItems(c)[i].token == c.tokens[i] && IsEntry(c, i, CallItems(c)[i].entry)
  {
    var ranks := NextRanks(c.rank, c.numLogprobs, |c.logprobs|);
    assert |CallItems(c)| == ZipLength(c.tokens, c.logprobs, ranks, c.decoded);
    if Reached(c, i) {
      assert i < |ranks| && ranks[i] == if i == 0 then c.rank else i;
    }
  }

  /** How the lists grow when the zipped arguments are appended: index by index, as far as zip gets. */
  ghost predicate GrowsBy(f: Flat, g: Flat, tokens: seq<int>, logprobs: seq<real>, ranks: seq<int>,
                          texts: Iterable<Option<string>>)
  {
    var n := ZipLength(tokens, logprobs, ranks, texts);
    && f.tokens <= g.tokens && f.logprobs <= g.logprobs && f.ranks <= g.ranks && f.decoded <= g.decoded
    && |g.tokens| - |f.tokens| == |g.logprobs| - |f.logprobs| == n
    && |g.ranks| - |f.ranks| == |g.decoded| - |f.decoded| == n
    && forall i :: 0 <= i < n ==>
         && g.tokens[|f.tokens| + i] == tokens[i] && g.logprobs[|f.logprobs| + i] == logprobs[i]
         && g.ranks[|f.ranks| + i] == Some(ranks[i]) && IsText(texts, i, g.decoded[|f.decoded| + i])
  }

  lemma {:induction false} AppendedGrows(f: Flat, tokens: seq<int>, logprobs: seq<real>, ranks: seq<int>,
                                         texts: Iterable<Option<string>>)
    ensures GrowsBy(f, Appended(f, Zip(tokens, logprobs, ranks, texts)), tokens, logprobs, ranks, texts)
  {
    var items := Zip(tokens, logprobs, ranks, texts);
    forall i | 0 <= i < |items| ensures IsText(texts, i, items[i].entry.decoded) {
    }
  }

  lemma {:induction false} DictOfCall(c: Call)
    ensures Describes(c, Dict(CallItems(c)))
  {
    var items := CallItems(c);
    forall t ensures t in Dict(items) <==> exists i :: Reached(c, i) && c.tokens[i] == t {
      TokenOfCall(c, t);
    }
    forall i | IsLastReached(c, i) ensures IsEntry(c, i, Dict(items)[c.tokens[i]]) {
      LastOfCall(c, i);
    }
  }

  lemma {:induction false} TokenOfCall(c: Call, t: int)
    ensures t in Dict(CallItems(c)) <==> exists i :: Reached(c, i) && c.tokens[i] == t
  {
    DictTokens(CallItems(c), t);
    forall i ensures 0 <= i < |CallItems(c)| <==> Reached(c, i)
             ensures Reached(c, i) ==> CallItems(c)[i].token == c.tokens[i]
    {
      ItemsOfCall(c, i);
    }
  }

  lemma {:induction false} DictTokens(items: seq<Item>, t: int)
    ensures t in Dict(items) <==> exists i :: 0 <= i < |items| && items[i].token == t
  {
    if items != [] {
      DictTokens(items[..|items| - 1], t);
    }
  }

  lemma {:induction false} LastOfCall(c: Call, i: int)
    requires IsLastReached(c, i)
    ensures c.tokens[i] in Dict(CallItems(c)) && IsEntry(c, i, Dict(CallItems(c))[c.tokens[i]])
  {
    var items := CallItems(c);
    ItemsOfCall(c, i);
    forall j | i < j < |items| ensures items[j].token != c.tokens[i] {
      ItemsOfCall(c, j);
    }
    assert IsLast(items, i, c.tokens[i]);
    LastItemWins(items, c.tokens[i]);
  }

  class Container {
    var starts: seq<int>
    var ends: seq<int>
    var tokens: seq<int>
    var logprobs: seq<real>
    var ranks: seq<Option<int>>
    var decoded: seq<Option<string>>

    function Current(): Flat
      reads this
    {
      Flat(starts, ends, tokens, logprobs, ranks, decoded)
    }

    constructor ()
      ensures Valid(Current()) && Denotes(Current()) == []
    {
      starts, ends, tokens, logprobs, ranks, decoded := [], [], [], [], [], [];
    }

    method Append(position: Option<seq<Item>>)
      modifies this
      ensures Current() == Appended(old(Current()), if position.Some? then position.value else [])
    {
      ghost var items := if position.Some? then position.value else [];
      starts := starts + [|logprobs|];
      if position.Some? {
        for i := 0 to |position.value|
          modifies `tokens, `logprobs, `ranks, `decoded
          invariant tokens == old(tokens) + Tokens(items)[..i] && logprobs == old(logprobs) + Logprobs(items)[..i]
          invariant ranks == old(ranks) + Ranks(items)[..i] && decoded == old(decoded) + Decoded(items)[..i]
        {
          var item := position.value[i];
          tokens := tokens + [item.token];
          logprobs := logprobs + [item.entry.logprob];
          ranks := ranks + [item.entry.rank];
          decoded := decoded + [item.entry.decoded];
        }
      }
      ends := ends + [|logprobs|];
    }

    /** Without building the dictionary. */
    method AppendFast(tokenIds: seq<int>, values: seq<real>, rankList: seq<int>, texts: Iterable<Option<string>>)
      modifies this
      ensures Current() == Appended(old(Current()), Zip(tokenIds, values, rankList, texts))
      ensures GrowsBy(old(Current()), Current(), tokenIds, values, rankList, texts)
    {
      ghost var items := Zip(tokenIds, values, rankList, texts);
      starts := starts + [|logprobs|];
      for i := 0 to ZipLength(tokenIds, values, rankList, texts)
        modifies `tokens, `logprobs, `ranks, `decoded
        invariant tokens == old(tokens) + Tokens(items)[..i] && logprobs == old(logprobs) + Logprobs(items)[..i]
        invariant ranks == old(ranks) + Ranks(items)[..i] && decoded == old(decoded) + Decoded(items)[..i]
      {
        assert items[i] == Item(tokenIds[i], Logprob(values[i], Some(rankList[i]), Nth(texts, i)));
        tokens := tokens + [tokenIds[i]];
        logprobs := logprobs + [values[i]];
        ranks := ranks + [Some(rankList[i])];
        decoded := decoded + [Nth(texts, i)];
      }
      ends := ends + [|logprobs|];
      AppendedGrows(old(Current()), tokenIds, values, rankList, texts);
    }

    method Extend(positions: seq<Option<seq<Item>>>)
      requires Valid(Current())
      modifies this
      ensures Valid(Current()) && Denotes(Current()) == old(Denotes(Current())) + Dicts(positions)
    {
      for i := 0 to |positions|
        invariant Valid(Current()) && Denotes(Current()) == old(Denotes(Current())) + Dicts(positions)[..i]
      {
        ghost var items := if positions[i].Some? then positions[i].value else [];
        AppendedDenotes(Current(), items);
        assert Dicts(positions)[..i + 1] == Dicts(positions)[..i] + [Dict(items)];
        Append(positions[i]);
      }
    }

    /** The positions one by one, as iteration yields them. */
    method Iterate() returns (positions: seq<Position>)
      requires Valid(Current())
      ensures positions == Denotes(Current())
    {
      positions := [];
      for i := 0 to |starts|
        invariant positions == Denotes(Current())[..i]
      {
        GetItemIsListItem(Current(), i);
        positions := positions + [GetItem(Current(), i).value];
      }
    }
  }

  function Dicts(positions: seq<Option<seq<Item>>>): seq<Position> {
    seq(|positions|, i requires 0 <= i < |positions| => if positions[i].Some? then Dict(positions[i].value) else map[])
  }

  /** The plain list that the container replaces. */
  class PositionList {
    var positions: seq<Position>

    constructor ()
      ensures positions == []
    {
      positions := [];
    }
  }

  datatype Request = InFlat(flat: Container) | InList(list: PositionList)
  {
    function Cell(): object {
      if InFlat? then flat else list
    }

    ghost predicate Ready()
      reads Cell()
    {
      InFlat? ==> Valid(flat.Current())
    }

    ghost function Positions(): seq<Position>
      requires Ready()
      reads Cell()
    {
      if InFlat? then Denotes(flat.Current()) else list.positions
    }
  }

  /** Whichever container the request has, the same dictionary is appended to what it stands for. */
  method AppendForNextPosition(request: Request, tokens: seq<int>, logprobs: seq<real>,
                               decoded: Iterable<Option<string>>, rank: int, numLogprobs: int)
    requires request.Ready()
    modifies request.Cell()
    ensures request.Ready()
    ensures request.Positions() ==
            old(request.Positions()) + [Dict(Zip(tokens, logprobs, NextRanks(rank, numLogprobs, |logprobs|), decoded))]
    ensures Describes(Call(tokens, logprobs, decoded, rank, numLogprobs),
                      request.Positions()[|old(request.Positions())|])
  {
    DictOfCall(Call(tokens, logprobs, decoded, rank, numLogprobs));
    var ranks := NextRanks(rank, numLogprobs, |logprobs|);
    if request.InFlat? {
      AppendedDenotes(request.flat.Current(), Zip(tokens, logprobs, ranks, decoded));
      request.flat.AppendFast(tokens, logprobs, ranks, decoded);
    } else {
      request.list.positions := request.list.positions + [Dict(Zip(tokens, logprobs, ranks, decoded))];
    }
  }

  /** The first item has the sampled token's rank, item i > 0 has rank i; asking for all cuts nothing off,
      asking for n keeps at most n + 1. */
  lemma {:induction false} RanksOfItems(tokens: seq<int>, logprobs: seq<real>, decoded: Iterable<Option<string>>,
                                        rank: int, n: int)
    ensures var items := Zip(tokens, logprobs, NextRanks(rank, n, |logprobs|), decoded);
            && (forall i :: 0 <= i < |items| ==> items[i].entry.rank == Some(if i == 0 then rank else i))
            && (n == -1 ==>
                 |items| == |tokens| || |items| == |logprobs| || (decoded.Listed? && |items| == |decoded.items|))
            && (n >= 0 ==> |items| <= n + 1)
            && (n < -1 ==> |items| <= 1)
  {
    assert n == -1 ==> |NextRanks(rank, n, |logprobs|)| == |logprobs| + 1;
  }

  // ----- Whole runs -----

  function FlatAfter(f: Flat, calls: seq<Call>): Flat {
    if calls == [] then f else Appended(FlatAfter(f, calls[..|calls| - 1]), CallItems(calls[|calls| - 1]))
  }

  function ListAfter(l: seq<Position>, calls: seq<Call>): seq<Position> {
    if calls == [] then l else ListAfter(l, calls[..|calls| - 1]) + [Dict(CallItems(calls[|calls| - 1]))]
  }

  /** After any calls the two containers answer every index alike. */
  lemma {:induction false} ContainersAgree(f: Flat, calls: seq<Call>)
    requires Valid(f)
    ensures Valid(FlatAfter(f, calls)) && Denotes(FlatAfter(f, calls)) == ListAfter(Denotes(f), calls)
    ensures ActsAs(FlatAfter(f, calls), ListAfter(Denotes(f), calls))
  {
    if calls != [] {
      var n := |calls| - 1;
      ContainersAgree(f, calls[..n]);
      AppendedDenotes(FlatAfter(f, calls[..n]), CallItems(calls[n]));
    }
    ValidActsAs(FlatAfter(f, calls));
  }
}
