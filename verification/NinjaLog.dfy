/** Reading the build steps of the last build from a ninja log (ReadTargets in
    tools/report_build_time_ninja.py).  A line is taken as already split into fields.  */
module NinjaLog {

  datatype Record = Record(start: real, end: real, name: string, hash: string)

  /** A line that does not have five fields is skipped. */
  datatype Line = Malformed | Fields(record: Record)

  datatype Target = Target(hash: string, start: real, end: real, names: seq<string>)

  function Records(lines: seq<Line>): seq<Record> {
    if lines == [] then []
    else
      var n := |lines| - 1;
      Records(lines[..n]) + (if lines[n].Fields? then [lines[n].record] else [])
  }

  // ----- Which records belong to the last build -----

  /** Two records, in this order, can be from one build: end times never go back, and one command has one
      time. */
  predicate Fits(r: Record, s: Record) {
    r.end <= s.end && (r.hash == s.hash ==> r.start == s.start && r.end == s.end)
  }

  /** Records a..b can be from one build. */
  ghost predicate Coherent(rs: seq<Record>, a: nat, b: nat)
    requires a <= b <= |rs|
  {
    forall i, j {:trigger Fits(rs[i], rs[j])} :: a <= i < j < b ==> Fits(rs[i], rs[j])
  }

  /** Where the build of record n - 1 starts: a record that cannot belong to the build so far starts a new one. */
  ghost function LastBuild(rs: seq<Record>, n: nat): (k: nat)
    requires n <= |rs|
    ensures k <= n && (n > 0 ==> k < n)
  {
    if n == 0 then 0
    else
      var k := LastBuild(rs, n - 1);
      if Coherent(rs, k, n) then k else n - 1
  }

  /** The last build is coherent and cannot start earlier: when it starts, the build before it is over. */
  lemma {:induction false} LastBuildIsGreedy(rs: seq<Record>, n: nat)
    requires n <= |rs|
    ensures Coherent(rs, LastBuild(rs, n), n)
    ensures var k := LastBuild(rs, n);
            k > 0 ==> var j := LastBuild(rs, k); Coherent(rs, j, k) && !Coherent(rs, j, k + 1)
  {
    if n > 0 {
      LastBuildIsGreedy(rs, n - 1);
    }
  }

  /** How one more record breaks coherence: an end time that goes back, or other times for a known command. */
  lemma {:induction false} CoherentNext(rs: seq<Record>, a: nat, n: nat)
    requires a <= n < |rs| && Coherent(rs, a, n)
    ensures Coherent(rs, a, n + 1) <==>
            && (a < n ==> rs[n - 1].end <= rs[n].end)
            && (forall i :: a <= i < n && rs[i].hash == rs[n].hash ==>
                 rs[i].start == rs[n].start && rs[i].end == rs[n].end)
  {
    if Coherent(rs, a, n + 1) {
      assert forall i :: a <= i < n ==> Fits(rs[i], rs[n]);
    } else {
      var i, j :| a <= i < j < n + 1 && !Fits(rs[i], rs[j]);
      assert j == n;
      assert i < n - 1 ==> Fits(rs[i], rs[n - 1]);
    }
  }

  // ----- Grouping by command -----

  /** The names in records a..b of command `h`. */
  function NamesOf(rs: seq<Record>, a: nat, b: nat, h: string): seq<string>
    requires a <= b <= |rs|
  {
    if a == b then []
    else NamesOf(rs, a, b - 1, h) + (if rs[b - 1].hash == h then [rs[b - 1].name] else [])
  }

  /** The first of records a..b of command `h`, or b. */
  function FirstOf(rs: seq<Record>, a: nat, b: nat, h: string): (i: nat)
    requires a <= b <= |rs|
    ensures a <= i <= b && (i < b ==> rs[i].hash == h) && forall j :: a <= j < i ==> rs[j].hash != h
  {
    if a == b then a
    else
      var i := FirstOf(rs, a, b - 1, h);
      if i < b - 1 || rs[b - 1].hash == h then i else b
  }

  /** `t` is what the records say about its command: the times of the first record, all names in order. */
  ghost predicate IsTargetOf(rs: seq<Record>, a: nat, b: nat, t: Target)
    requires a <= b <= |rs|
  {
    var i := FirstOf(rs, a, b, t.hash);
    i < b && t.start == rs[i].start && t.end == rs[i].end && t.names == NamesOf(rs, a, b, t.hash)
  }

  predicate HasTarget(ts: seq<Target>, h: string) {
    exists i :: 0 <= i < |ts| && ts[i].hash == h
  }

  /** One target per command of records a..b, in the order of their first records. */
  ghost predicate IsGrouping(rs: seq<Record>, a: nat, b: nat, ts: seq<Target>)
    requires a <= b <= |rs|
  {
    && (forall i :: 0 <= i < |ts| ==> IsTargetOf(rs, a, b, ts[i]))
    && (forall i, j :: 0 <= i < j < |ts| ==> FirstOf(rs, a, b, ts[i].hash) < FirstOf(rs, a, b, ts[j].hash))
    && (forall i {:trigger HasTarget(ts, rs[i].hash)} :: a <= i < b ==> HasTarget(ts, rs[i].hash))
  }

  /** A command has one target. */
  lemma {:induction false} OnlyTarget(rs: seq<Record>, a: nat, b: nat, ts: seq<Target>, i: nat)
    requires a <= b <= |rs| && IsGrouping(rs, a, b, ts) && i < |ts|
    ensures forall j :: 0 <= j < |ts| && ts[j].hash == ts[i].hash ==> j == i
  {
    forall j | 0 <= j < |ts| && ts[j].hash == ts[i].hash ensures j == i {
      assert FirstOf(rs, a, b, ts[i].hash) == FirstOf(rs, a, b, ts[j].hash);
    }
  }

  /** A record of a known command adds its name to that command's target. */
  lemma {:induction false} GroupKnown(rs: seq<Record>, a: nat, n: nat, ts: seq<Target>, i: nat)
    requires a <= n < |rs| && IsGrouping(rs, a, n, ts) && i < |ts| && ts[i].hash == rs[n].hash
    ensures IsGrouping(rs, a, n + 1, ts[i := ts[i].(names := ts[i].names + [rs[n].name])])
  {
    var ts' := ts[i := ts[i].(names := ts[i].names + [rs[n].name])];
    OnlyTarget(rs, a, n, ts, i);
    forall j | 0 <= j < |ts|
      ensures IsTargetOf(rs, a, n + 1, ts'[j]) && FirstOf(rs, a, n + 1, ts'[j].hash) == FirstOf(rs, a, n, ts[j].hash)
    {
      assert IsTargetOf(rs, a, n, ts[j]);
    }
    forall j | a <= j < n + 1 ensures HasTarget(ts', rs[j].hash) {
      assert j < n ==> HasTarget(ts, rs[j].hash);
      SameHashes(ts, ts', rs[j].hash);
    }
  }

  lemma {:induction false} SameHashes(ts: seq<Target>, ts': seq<Target>, h: string)
    requires HasTarget(ts, h) && |ts| <= |ts'| && forall i :: 0 <= i < |ts| ==> ts'[i].hash == ts[i].hash
    ensures HasTarget(ts', h)
  {
    var k :| 0 <= k < |ts| && ts[k].hash == h;
    assert ts'[k].hash == h;
  }

  /** A record leaves the targets of other commands alone. */
  lemma {:induction false} OtherTarget(rs: seq<Record>, a: nat, n: nat, t: Target)
    requires a <= n < |rs| && IsTargetOf(rs, a, n, t) && t.hash != rs[n].hash
    ensures IsTargetOf(rs, a, n + 1, t) && FirstOf(rs, a, n + 1, t.hash) == FirstOf(rs, a, n, t.hash) < n
  {
  }

  /** A record of a new command adds a target. */
  lemma {:induction false} GroupNew(rs: seq<Record>, a: nat, n: nat, ts: seq<Target>)
    requires a <= n < |rs| && IsGrouping(rs, a, n, ts) && !HasTarget(ts, rs[n].hash)
    ensures IsGrouping(rs, a, n + 1, ts + [Target(rs[n].hash, rs[n].start, rs[n].end, [rs[n].name])])
  {
    var t := Target(rs[n].hash, rs[n].start, rs[n].end, [rs[n].name]);
    var ts' := ts + [t];
    assert IsTargetOf(rs, a, n + 1, t) && FirstOf(rs, a, n + 1, t.hash) == n by {
      NoNames(rs, a, n, t.hash, ts);
    }
    forall j | 0 <= j < |ts|
      ensures IsTargetOf(rs, a, n + 1, ts'[j])
              && FirstOf(rs, a, n + 1, ts'[j].hash) == FirstOf(rs, a, n, ts[j].hash) < n
    {
      OtherTarget(rs, a, n, ts[j]);
    }
    forall j | a <= j < n + 1 ensures HasTarget(ts', rs[j].hash) {
      assert j < n ==> HasTarget(ts, rs[j].hash);
      HasMore(ts, t, rs[j].hash);
    }
  }

  lemma {:induction false} HasMore(ts: seq<Target>, t: Target, h: string)
    requires HasTarget(ts, h) || t.hash == h
    ensures HasTarget(ts + [t], h)
  {
    var k :| 0 <= k <= |ts| && (if k < |ts| then ts[k] else t).hash == h;
    assert (ts + [t])[k].hash == h;
  }

  /** Without a target there is no record. */
  lemma {:induction false} NoNames(rs: seq<Record>, a: nat, b: nat, h: string, ts: seq<Target>)
    requires a <= b <= |rs| && !HasTarget(ts, h)
    requires forall i {:trigger HasTarget(ts, rs[i].hash)} :: a <= i < b ==> HasTarget(ts, rs[i].hash)
    ensures FirstOf(rs, a, b, h) == b && NamesOf(rs, a, b, h) == []
  {
    if a < b {
      NoNames(rs, a, b - 1, h, ts);
      assert HasTarget(ts, rs[b - 1].hash);
    }
  }

  // ----- Reading the log -----

  /** Where the records to show start. */
  ghost function Shown(rs: seq<Record>, n: nat, showAll: bool): (k: nat)
    requires n <= |rs|
    ensures k <= n
  {
    if showAll then 0 else LastBuild(rs, n)
  }

  /** Inside one build the times of a target are those of all its records. */
  lemma {:induction false} TargetTimes(rs: seq<Record>, a: nat, b: nat, t: Target, i: nat)
    requires a <= i < b <= |rs| && Coherent(rs, a, b) && IsTargetOf(rs, a, b, t) && rs[i].hash == t.hash
    ensures t.start == rs[i].start && t.end == rs[i].end
  {
    var f := FirstOf(rs, a, b, t.hash);
    assert f < i ==> Fits(rs[f], rs[i]);
  }

  /** The next record belongs to the build so far exactly when it passes both tests of the code. */
  lemma {:induction false} SameBuild(rs: seq<Record>, a: nat, n: nat, ts: seq<Target>)
    requires a <= n < |rs| && Coherent(rs, a, n) && IsGrouping(rs, a, n, ts)
    ensures Coherent(rs, a, n + 1) <==>
            && (a < n ==> rs[n - 1].end <= rs[n].end)
            && (forall i :: 0 <= i < |ts| && ts[i].hash == rs[n].hash ==>
                 ts[i].start == rs[n].start && ts[i].end == rs[n].end)
  {
    CoherentNext(rs, a, n);
    forall i | 0 <= i < |ts|
      ensures exists j :: a <= j < n && rs[j].hash == ts[i].hash && ts[i].start == rs[j].start && ts[i].end == rs[j].end
    {
      assert IsTargetOf(rs, a, n, ts[i]);
    }
    forall j | a <= j < n
      ensures exists i :: 0 <= i < |ts| && ts[i].hash == rs[j].hash && ts[i].start == rs[j].start
                && ts[i].end == rs[j].end
    {
      assert HasTarget(ts, rs[j].hash);
      var i :| 0 <= i < |ts| && ts[i].hash == rs[j].hash;
      TargetTimes(rs, a, n, ts[i], j);
    }
  }

  /** A record of another build empties the targets. */
  method Keep(ts: seq<Target>, last: real, r: Record, showAll: bool, ghost rs: seq<Record>, ghost k: nat, ghost n: nat)
      returns (ts': seq<Target>)
    requires k <= n < |rs| && r == rs[n] && (k < n ==> last == rs[n - 1].end) && IsGrouping(rs, k, n, ts)
    requires Coherent(rs, k, n) || showAll
    ensures ts' == if showAll || Coherent(rs, k, n + 1) then ts else []
  {
    if !showAll {
      SameBuild(rs, k, n, ts);
    }
    ts' := ts;
    if !showAll && r.end < last {
      ts' := [];
    }
    if HasTarget(ts', r.hash) {
      var i :| 0 <= i < |ts'| && ts'[i].hash == r.hash;
      OnlyTarget(rs, k, n, ts, i);
      if !showAll && (ts'[i].start != r.start || ts'[i].end != r.end) {
        ts' := [];
      }
    }
    assert k == n && ts != [] ==> IsTargetOf(rs, k, n, ts[0]);
  }

  /** A kept record adds its name to the target of its command. */
  method AddName(ts: seq<Target>, r: Record, ghost rs: seq<Record>, ghost k: nat, ghost n: nat)
      returns (ts': seq<Target>)
    requires k <= n < |rs| && r == rs[n] && IsGrouping(rs, k, n, ts)
    ensures IsGrouping(rs, k, n + 1, ts')
  {
    if HasTarget(ts, r.hash) {
      var i :| 0 <= i < |ts| && ts[i].hash == r.hash;
      GroupKnown(rs, k, n, ts, i);
      ts' := ts[i := ts[i].(names := ts[i].names + [r.name])];
    } else {
      GroupNew(rs, k, n, ts);
      ts' := ts + [Target(r.hash, r.start, r.end, [r.name])];
    }
  }

  /** One record of the log. */
  method AddRecord(ts: seq<Target>, last: real, r: Record, showAll: bool, ghost rs: seq<Record>, ghost n: nat)
      returns (ts': seq<Target>)
    requires n < |rs| && r == rs[n] && (n > 0 ==> last == rs[n - 1].end)
    requires IsGrouping(rs, Shown(rs, n, showAll), n, ts)
    ensures IsGrouping(rs, Shown(rs, n + 1, showAll), n + 1, ts')
  {
    LastBuildIsGreedy(rs, n);
    ts' := Keep(ts, last, r, showAll, rs, Shown(rs, n, showAll), n);
    ts' := AddName(ts', r, rs, Shown(rs, n + 1, showAll), n);
  }

  /** The records of a part of the log come first. */
  lemma {:induction false} RecordsOfPart(lines: seq<Line>, i: nat)
    requires i <= |lines|
    ensures Records(lines[..i]) <= Records(lines)
    decreases |lines|
  {
    if i < |lines| {
      var n := |lines| - 1;
      RecordsOfPart(lines[..n], i);
      assert lines[..n][..i] == lines[..i];
    } else {
      assert lines[..i] == lines;
    }
  }

  /** What the next line of the log adds. */
  lemma {:induction false} NextLine(lines: seq<Line>, i: nat)
    requires i < |lines|
    ensures var rs, n := Records(lines), |Records(lines[..i])|;
            if lines[i].Fields? then n < |rs| && rs[n] == lines[i].record && |Records(lines[..i + 1])| == n + 1
            else |Records(lines[..i + 1])| == n
  {
    RecordsOfPart(lines, i + 1);
    assert lines[..i + 1][..i] == lines[..i];
  }

  method ReadLines(lines: seq<Line>, showAll: bool) returns (targets: seq<Target>)
    ensures var rs := Records(lines); IsGrouping(rs, Shown(rs, |rs|, showAll), |rs|, targets)
  {
    targets := [];
    ghost var rs, n := Records(lines), 0;
    var last := 0.0;
    for i := 0 to |lines|
      invariant n == |Records(lines[..i])| <= |rs|
      invariant n > 0 ==> last == rs[n - 1].end
      invariant IsGrouping(rs, Shown(rs, n, showAll), n, targets)
    {
      NextLine(lines, i);
      if lines[i].Fields? {
        var r := lines[i].record;
        targets := AddRecord(targets, last, r, showAll, rs, n);
        last := r.end;
        n := n + 1;
      }
    }
    assert lines[..|lines|] == lines;
  }

  /** All targets of the log, or those of its last build; a log of another version is refused. */
  method ReadTargets(header: string, lines: seq<Line>, showAll: bool) returns (ok: bool, targets: seq<Target>)
    ensures ok <==> header == "# ninja log v5\n"
    ensures !ok ==> targets == []
    // all records, or those of the last build
    ensures ok && showAll ==> var rs := Records(lines); IsGrouping(rs, 0, |rs|, targets)
    ensures ok && !showAll ==> var rs := Records(lines); IsGrouping(rs, LastBuild(rs, |rs|), |rs|, targets)
  {
    targets := [];
    ok := header == "# ninja log v5\n";
    if ok {
      targets := ReadLines(lines, showAll);
    }
  }
}
