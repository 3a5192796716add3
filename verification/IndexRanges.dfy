/** Printing layer indices as ranges, "0-2, 4-6" (vllm/model_inspection.py). */
module IndexRanges {
  import opened PyLists

  datatype Range = Range(low: int, high: int)

  // ----- Numbers and ranges as text -----

  function Digits(n: nat): (s: string)
    ensures s != [] && forall i :: 0 <= i < |s| ==> '0' <= s[i] <= '9'
  {
    var d := [(n % 10) as char + '0'];
    if n < 10 then d else Digits(n / 10) + d
  }

  function Str(n: int): string {
    if n < 0 then "-" + Digits(-n) else Digits(n)
  }

  function Text(r: Range): string {
    if r.low == r.high then Str(r.low) else Str(r.low) + "-" + Str(r.high)
  }

  /** ", ".join */
  function Join(parts: seq<string>): string {
    if parts == [] then "" else if |parts| == 1 then parts[0] else parts[0] + ", " + Join(parts[1..])
  }

  function Texts(rs: seq<Range>): seq<string> {
    seq(|rs|, i requires 0 <= i < |rs| => Text(rs[i]))
  }

  /** The documented example. */
  lemma {:induction false} ExampleText()
    ensures Join(Texts([Range(0, 2), Range(4, 6)])) == "0-2, 4-6"
  {
    TwoTexts(Range(0, 2), Range(4, 6));
    assert Text(Range(0, 2)) == "0-2";
    assert Text(Range(4, 6)) == "4-6";
  }

  /** Numbers that are not single digits. */
  lemma {:induction false} ExampleNumbers()
    ensures Text(Range(-7, -7)) == "-7" && Text(Range(3, 10)) == "3-10"
  {
    assert Digits(1) == "1" && Digits(10) == "10";
  }

  lemma {:induction false} TwoTexts(r: Range, q: Range)
    ensures Join(Texts([r, q])) == Text(r) + ", " + Text(q)
  {
    assert Texts([r, q]) == [Text(r), Text(q)] && Texts([r, q])[1..] == [Text(q)];
  }

  // ----- Reading it back -----

  function Number(s: string): int {
    if s == [] then 0 else 10 * Number(s[..|s| - 1]) + (s[|s| - 1] as int - '0' as int)
  }

  /** The first `c` in `s`, or the length. */
  function Find(s: string, c: char): (i: nat)
    ensures i <= |s| && (i < |s| ==> s[i] == c) && forall j :: 0 <= j < i ==> s[j] != c
  {
    if s == [] || s[0] == c then 0 else 1 + Find(s[1..], c)
  }

  function ParseRange(s: string): Range {
    var k := Find(s, '-');
    if k == |s| then Range(Number(s), Number(s)) else Range(Number(s[..k]), Number(s[k + 1..]))
  }

  function Parse(s: string): seq<Range> {
    var k := Find(s, ',');
    if k + 2 >= |s| then [ParseRange(s[..k])] else [ParseRange(s[..k])] + Parse(s[k + 2..])
  }

  lemma {:induction false} NumberOfDigits(n: nat)
    ensures Number(Digits(n)) == n
  {
    var s := Digits(n);
    if n >= 10 {
      NumberOfDigits(n / 10);
      assert s[..|s| - 1] == Digits(n / 10);
    } else {
      assert s[..0] == [];
    }
  }

  lemma {:induction false} FindFirst(a: string, c: char, b: string)
    requires c !in a && (b != [] ==> b[0] == c)
    ensures Find(a + b, c) == |a| && (a + b)[..|a|] == a
    ensures forall i :: 0 <= i <= |b| ==> (a + b)[|a| + i..] == b[i..]
  {
    var i := Find(a + b, c);
    assert forall j :: 0 <= j < |a| ==> (a + b)[j] == a[j];
    assert b != [] ==> (a + b)[|a|] == c;
  }

  lemma {:induction false} ParseOne(a: string)
    requires '-' !in a
    ensures ParseRange(a) == Range(Number(a), Number(a))
  {
    FindFirst(a, '-', "");
    assert a + "" == a;
  }

  lemma {:induction false} ParsePair(a: string, b: string)
    requires '-' !in a
    ensures ParseRange(a + "-" + b) == Range(Number(a), Number(b))
  {
    assert a + "-" + b == a + ("-" + b);
    FindFirst(a, '-', "-" + b);
    assert ("-" + b)[1..] == b;
  }

  lemma {:induction false} ParseLast(a: string)
    requires ',' !in a
    ensures Parse(a) == [ParseRange(a)]
  {
    FindFirst(a, ',', "");
    assert a + "" == a && a[..|a|] == a;
  }

  lemma {:induction false} ParseMore(a: string, rest: string)
    requires ',' !in a && rest != []
    ensures Parse(a + (", " + rest)) == [ParseRange(a)] + Parse(rest)
  {
    FindFirst(a, ',', ", " + rest);
    assert (", " + rest)[2..] == rest;
  }

  lemma {:induction false} TextHasNoComma(r: Range)
    requires 0 <= r.low <= r.high
    ensures Text(r) != [] && ',' !in Text(r)
  {
  }

  /** A printed range of natural numbers is read back. */
  lemma {:induction false} RangeRoundTrip(r: Range)
    requires 0 <= r.low <= r.high
    ensures ParseRange(Text(r)) == r
  {
    var a, b := Digits(r.low), Digits(r.high);
    NumberOfDigits(r.low);
    if r.low == r.high {
      ParseOne(a);
    } else {
      NumberOfDigits(r.high);
      ParsePair(a, b);
    }
  }

  predicate IsPart(s: string) {
    s != [] && ',' !in s
  }

  /** Joined parts are taken apart again. */
  lemma {:induction false} JoinIsRead(parts: seq<string>)
    requires parts != [] && forall i :: 0 <= i < |parts| ==> IsPart(parts[i])
    ensures Join(parts) != [] && |Parse(Join(parts))| == |parts|
    ensures forall i :: 0 <= i < |parts| ==> Parse(Join(parts))[i] == ParseRange(parts[i])
  {
    if |parts| == 1 {
      ParseLast(parts[0]);
    } else {
      JoinIsRead(parts[1..]);
      ParseMore(parts[0], Join(parts[1..]));
      assert Join(parts) == parts[0] + (", " + Join(parts[1..]));
    }
  }

  /** The printed ranges are read back. */
  lemma {:induction false} RoundTrip(rs: seq<Range>)
    requires rs != [] && forall i :: 0 <= i < |rs| ==> 0 <= rs[i].low <= rs[i].high
    ensures Parse(Join(Texts(rs))) == rs
  {
    var parts := Texts(rs);
    forall i | 0 <= i < |rs| ensures IsPart(parts[i]) && ParseRange(parts[i]) == rs[i] {
      TextHasNoComma(rs[i]);
      RangeRoundTrip(rs[i]);
    }
    JoinIsRead(parts);
  }

  // ----- Ranges of a list -----

  ghost predicate Within(r: Range, x: int) { r.low <= x <= r.high }

  ghost predicate Covered(rs: seq<Range>, x: int) {
    exists i :: 0 <= i < |rs| && Within(rs[i], x)
  }

  /** The ranges hold exactly the numbers of `s`. */
  ghost predicate Cover(rs: seq<Range>, s: seq<int>) {
    && (forall i :: 0 <= i < |rs| ==> rs[i].low <= rs[i].high)
    && (forall x {:trigger Covered(rs, x)} :: Covered(rs, x) <==> x in s)
  }

  /** The ranges ascend with at least one number missing between two of them. */
  ghost predicate Separated(rs: seq<Range>) {
    forall i, j :: 0 <= i < j < |rs| ==> rs[i].high + 1 < rs[j].low
  }

  predicate Distinct(s: seq<int>) {
    forall i, j :: 0 <= i < j < |s| ==> s[i] != s[j]
  }

  predicate Ascending(s: seq<int>) {
    forall i, j :: 0 <= i < j < |s| ==> s[i] <= s[j]
  }

  lemma {:induction false} SmallerFirst(y: int, x: int, s: seq<int>, t: seq<int>)
    requires Ascending(t) && multiset(t) == multiset(s) + multiset{x}
    requires y <= x && forall i :: 0 <= i < |s| ==> y <= s[i]
    ensures Ascending([y] + t)
  {
    forall i | 0 <= i < |t| ensures y <= t[i] {
      assert t[i] in multiset(t);
      assert t[i] == x || t[i] in s;
    }
  }

  function Insert(x: int, s: seq<int>): (r: seq<int>)
    requires Ascending(s)
    ensures Ascending(r) && multiset(r) == multiset(s) + multiset{x}
  {
    if s == [] || x <= s[0] then [x] + s
    else
      var t := Insert(x, s[1..]);
      SmallerFirst(s[0], x, s[1..], t);
      assert s == [s[0]] + s[1..];
      [s[0]] + t
  }

  /** sorted(s) */
  function Sorted(s: seq<int>): (r: seq<int>)
    ensures Ascending(r) && multiset(r) == multiset(s)
  {
    if s == [] then []
    else
      assert s == [s[0]] + s[1..];
      Insert(s[0], Sorted(s[1..]))
  }

  lemma {:induction false} DistinctByCount(s: seq<int>)
    ensures Distinct(s) <==> forall x :: multiset(s)[x] <= 1
  {
    if s != [] {
      var n := |s| - 1;
      var t := s[..n];
      DistinctByCount(t);
      assert s == t + [s[n]];
      assert multiset(s) == multiset(t) + multiset{s[n]};
      if Distinct(s) {
        assert s[n] !in t;
      } else if Distinct(t) {
        var i :| 0 <= i < n && s[i] == s[n];
        assert t[i] in multiset(t);
        assert multiset(s)[s[n]] > 1;
      } else {
        var x :| multiset(t)[x] > 1;
        assert multiset(s)[x] > 1;
      }
    }
  }

  /** Sorting keeps the numbers and how often they occur. */
  lemma {:induction false} SameNumbers(s: seq<int>, t: seq<int>)
    requires multiset(t) == multiset(s)
    ensures |t| == |s| && Distinct(t) == Distinct(s)
    ensures forall x :: x in t <==> x in s
  {
    DistinctByCount(s);
    DistinctByCount(t);
    assert |multiset(t)| == |t| && |multiset(s)| == |s|;
    forall x ensures x in t <==> x in s {
      assert x in t <==> x in multiset(t);
      assert x in s <==> x in multiset(s);
    }
  }

  lemma {:induction false} DistinctNext(s: seq<int>, i: nat)
    requires Ascending(s) && 0 < i < |s|
    ensures Distinct(s[..i + 1]) <==> Distinct(s[..i]) && s[i - 1] != s[i]
  {
    var a, b := s[..i], s[..i + 1];
    if Distinct(b) {
      assert a == b[..i];
      assert b[i - 1] != b[i];
    }
    forall j | 0 <= j < i && s[j] == s[i] ensures s[i - 1] == s[i] {
    }
  }

  /** The last range grows by one. */
  lemma {:induction false} Grow(done: seq<Range>, r: Range, s: seq<int>, x: int)
    requires Cover(done + [r], s) && x == r.high + 1
    ensures Cover(done + [Range(r.low, x)], s + [x])
    ensures Separated(done + [Range(r.low, x)]) <==> Separated(done + [r])
  {
    var before, after := done + [r], done + [Range(r.low, x)];
    assert before[|done|].low <= before[|done|].high;
    forall y ensures Covered(after, y) <==> y in s + [x] {
      CoveredByLast(done, r, y);
      CoveredByLast(done, Range(r.low, x), y);
      assert Covered(before, y) <==> y in s;
    }
    forall i | 0 <= i < |after| ensures after[i].low <= after[i].high {
      assert before[i].low <= before[i].high;
    }
    SeparatedByLast(done, r);
    SeparatedByLast(done, Range(r.low, x));
  }

  /** A new range of one number. */
  lemma {:induction false} Begin(rs: seq<Range>, s: seq<int>, x: int)
    requires Cover(rs, s)
    ensures Cover(rs + [Range(x, x)], s + [x])
  {
    var after := rs + [Range(x, x)];
    forall y ensures Covered(after, y) <==> y in s + [x] {
      CoveredByLast(rs, Range(x, x), y);
      assert Covered(rs, y) <==> y in s;
    }
    forall i | 0 <= i < |after| ensures after[i].low <= after[i].high {
      assert i < |rs| ==> rs[i].low <= rs[i].high;
    }
  }

  lemma {:induction false} CoveredByLast(done: seq<Range>, r: Range, x: int)
    ensures Covered(done + [r], x) <==> Covered(done, x) || Within(r, x)
  {
    var all := done + [r];
    if Covered(done, x) {
      var i :| 0 <= i < |done| && Within(done[i], x);
      assert Within(all[i], x);
    }
    if Within(r, x) {
      assert Within(all[|done|], x);
    }
  }

  lemma {:induction false} SeparatedByLast(done: seq<Range>, r: Range)
    ensures Separated(done + [r]) <==> Separated(done) && forall i :: 0 <= i < |done| ==> done[i].high + 1 < r.low
  {
    var all := done + [r];
    assert all[|done|] == r;
    assert forall i :: 0 <= i < |done| ==> all[i] == done[i];
  }

  /** Distinct numbers in order: the next one starts a range that is separate from all before exactly when
      it is not a repetition. */
  lemma {:induction false} BeginSeparate(rs: seq<Range>, s: seq<int>, i: nat)
    requires Ascending(s) && 0 < i < |s| && Cover(rs, s[..i]) && rs != []
    requires rs[|rs| - 1].high == s[i - 1] && s[i] != s[i - 1] + 1
    requires Separated(rs) <==> Distinct(s[..i])
    ensures Separated(rs + [Range(s[i], s[i])]) <==> Distinct(s[..i + 1])
  {
    DistinctNext(s, i);
    SeparatedByLast(rs, Range(s[i], s[i]));
    forall k | 0 <= k < |rs| ensures rs[k].high <= s[i - 1] {
      assert Within(rs[k], rs[k].high);
      assert Covered(rs, rs[k].high);
      var j :| 0 <= j < i && s[..i][j] == rs[k].high;
      assert s[j] <= s[i - 1];
    }
  }

  /** After i numbers: the ranges so far, the last of them still open. */
  ghost predicate Tracks(done: seq<Range>, start: int, end: int, s: seq<int>, i: nat)
    requires 0 < i <= |s|
  {
    && end == s[i - 1]
    && Cover(done + [Range(start, end)], s[..i])
    && (Separated(done + [Range(start, end)]) <==> Distinct(s[..i]))
  }

  lemma {:induction false} TracksNext(done: seq<Range>, start: int, end: int, s: seq<int>, i: nat)
    requires Ascending(s) && 0 < i < |s| && Tracks(done, start, end, s, i)
    ensures if s[i] == end + 1 then Tracks(done, start, s[i], s, i + 1)
            else Tracks(done + [Range(start, end)], s[i], s[i], s, i + 1)
  {
    var rs := done + [Range(start, end)];
    assert s[..i + 1] == s[..i] + [s[i]];
    if s[i] == end + 1 {
      Grow(done, Range(start, end), s[..i], s[i]);
      DistinctNext(s, i);
    } else {
      Begin(rs, s[..i], s[i]);
      BeginSeparate(rs, s, i);
    }
  }

  lemma {:induction false} TextsNext(rs: seq<Range>, r: Range)
    ensures Texts(rs + [r]) == Texts(rs) + [Text(r)]
  {
  }

  /** The ranges hold exactly the given numbers; they ascend with gaps between them exactly when no number
      is given twice.  There is nothing to print for an empty list. */
  method FormatIndexRanges(indices: seq<int>) returns (r: Access<string>, ghost ranges: seq<Range>)
    ensures indices == [] ==> r == IndexError
    ensures indices != [] ==>
              r == Value(Join(Texts(ranges))) && Cover(ranges, indices) && (Separated(ranges) <==> Distinct(indices))
    ensures indices != [] && (forall x :: x in indices ==> x >= 0) ==> r.Value? && Parse(r.value) == ranges
  {
    var s := Sorted(indices);
    SameNumbers(indices, s);
    if s == [] {
      return IndexError, [];
    }
    var parts;
    parts, ranges := FormatSorted(s);
    SameCover(ranges, s, indices);
    r := Value(Join(parts));
    if forall x :: x in indices ==> x >= 0 {
      ReadBack(ranges, indices);
    }
  }

  /** What is printed for natural numbers says which they are. */
  lemma {:induction false} ReadBack(rs: seq<Range>, s: seq<int>)
    requires rs != [] && Cover(rs, s) && forall x :: x in s ==> x >= 0
    ensures Parse(Join(Texts(rs))) == rs
  {
    forall i | 0 <= i < |rs| ensures 0 <= rs[i].low {
      assert Within(rs[i], rs[i].low);
      assert Covered(rs, rs[i].low);
    }
    RoundTrip(rs);
  }

  lemma {:induction false} SameCover(rs: seq<Range>, s: seq<int>, t: seq<int>)
    requires Cover(rs, s) && forall x :: x in s <==> x in t
    ensures Cover(rs, t)
  {
  }

  method FormatSorted(s: seq<int>) returns (parts: seq<string>, ghost ranges: seq<Range>)
    requires Ascending(s) && s != []
    ensures ranges != [] && parts == Texts(ranges) && Cover(ranges, s) && (Separated(ranges) <==> Distinct(s))
  {
    parts, ranges := [], [];
    var start, end := s[0], s[0];
    CoversFirst(s);
    for i := 1 to |s|
      invariant parts == Texts(ranges) && end == s[i - 1] && Tracks(ranges, start, end, s, i)
    {
      TracksNext(ranges, start, end, s, i);
      if s[i] == end + 1 {
        end := s[i];
      } else {
        TextsNext(ranges, Range(start, end));
        parts := parts + [Text(Range(start, end))];
        ranges := ranges + [Range(start, end)];
        start, end := s[i], s[i];
      }
    }
    assert s[..|s|] == s;
    TextsNext(ranges, Range(start, end));
    parts := parts + [Text(Range(start, end))];
    ranges := ranges + [Range(start, end)];
  }

  lemma {:induction false} CoversFirst(s: seq<int>)
    requires s != []
    ensures Cover([] + [Range(s[0], s[0])], s[..1]) && Separated([] + [Range(s[0], s[0])]) && Distinct(s[..1])
  {
    assert Cover([], []);
    Begin([], [], s[0]);
    assert [] + [s[0]] == s[..1];
  }

  // ----- No shorter way to print them -----

  /** Different positions below m, one per element: there are at most m. */
  lemma {:induction false} Pigeonhole(f: seq<int>, m: nat)
    requires (forall i :: 0 <= i < |f| ==> 0 <= f[i] < m) && Distinct(f)
    ensures |f| <= m
  {
    if f != [] {
      assert 0 <= f[0] < m;
      if k :| 0 <= k < |f| && f[k] == m - 1 {
        var rest := f[..k] + f[k + 1..];
        forall i | 0 <= i < |rest| ensures rest[i] == f[if i < k then i else i + 1] {
        }
        Pigeonhole(rest, m - 1);
      } else {
        Pigeonhole(f, m - 1);
      }
    }
  }

  /** Two separate ranges need two ranges to hold them. */
  lemma {:induction false} HoldersDiffer(rs: seq<Range>, others: seq<Range>, s: seq<int>, i: nat, j: nat)
    requires Cover(rs, s) && Separated(rs) && Cover(others, s) && i < j < |rs|
    requires Covered(others, rs[i].low) && Covered(others, rs[j].low)
    ensures Holder(others, rs[i].low) != Holder(others, rs[j].low)
  {
    var h, x := Holder(others, rs[i].low), rs[i].high + 1;
    Gap(rs, i, s);
    assert !Covered(others, x);
    assert !Within(others[h], x);
    assert rs[i].low < x < rs[j].low;
  }

  /** Separate ranges are the fewest that hold their numbers. */
  lemma {:induction false} SeparatedIsLeast(rs: seq<Range>, others: seq<Range>, s: seq<int>)
    requires Cover(rs, s) && Separated(rs) && Cover(others, s)
    ensures |rs| <= |others|
  {
    forall i | 0 <= i < |rs| ensures Covered(others, rs[i].low) {
      assert Within(rs[i], rs[i].low);
      assert Covered(rs, rs[i].low);
    }
    var f := seq(|rs|, i requires 0 <= i < |rs| => Holder(others, rs[i].low));
    forall i, j | 0 <= i < j < |rs| ensures f[i] != f[j] {
      HoldersDiffer(rs, others, s, i, j);
    }
    Pigeonhole(f, |others|);
  }

  /** A range that holds x. */
  ghost function Holder(rs: seq<Range>, x: int): (i: int)
    requires Covered(rs, x)
    ensures 0 <= i < |rs| && Within(rs[i], x)
  {
    var i :| 0 <= i < |rs| && Within(rs[i], x);
    i
  }

  /** The number after a range is missing. */
  lemma {:induction false} Gap(rs: seq<Range>, i: nat, s: seq<int>)
    requires Cover(rs, s) && Separated(rs) && i < |rs|
    ensures rs[i].high + 1 !in s
  {
    var x := rs[i].high + 1;
    forall j | 0 <= j < |rs| ensures !Within(rs[j], x) {
      assert j < i ==> rs[j].high + 1 < rs[i].low;
      assert rs[i].low <= rs[i].high;
    }
    assert !Covered(rs, x);
  }
}
