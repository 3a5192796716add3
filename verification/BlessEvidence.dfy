/** A rejected run keeps its staged cache as evidence, and no later run touches it
    (scripts/bless_cute_full_cache.py, reject).  */
module BlessEvidence {
  import opened BlessFiles
  import opened BlessProtocol

  predicate Touches(c: Command, p: Path) {
    match c
    case Rename(src, dst) => p == src || p == dst
    case _ => p == c.path
  }

  /** The path has the same content, or none, in both. */
  predicate SameAt(fs: Files, fs': Files, p: Path) {
    (p in fs <==> p in fs') && (p in fs ==> fs[p] == fs'[p])
  }

  lemma {:induction false} ExecLeavesAlone(fs: Files, cs: seq<Command>, b: nat, p: Path)
    requires forall c :: c in cs ==> !Touches(c, p)
    ensures SameAt(fs, Exec(fs, cs, b), p)
    decreases |cs|
  {
    if cs != [] && b > 0 && Succeeds(fs, cs[0]) {
      assert !Touches(cs[0], p);
      ExecLeavesAlone(Done(fs, cs[0]), cs[1..], b - 1, p);
    }
  }

  /** What one event does to the evidence of run `r`: a rejected run that is not cut adds its own staged
      cache, and everything that was there stays as it was. */
  lemma {:induction false} EvidenceAfter(fs: Files, n: nat, e: Event, r: nat)
    ensures Evidence(r) in After(fs, n, e) <==> Evidence(r) in fs || (r == n && Rejects(fs, e) && e.budget > 0)
    ensures Evidence(r) in fs ==> After(fs, n, e)[Evidence(r)] == fs[Evidence(r)]
    ensures Evidence(r) in After(fs, n, e) && Evidence(r) !in fs ==> After(fs, n, e)[Evidence(r)] == Dir(r)
  {
    if Rejects(fs, e) {
      RejectIsExact(fs, n, e);
    } else if e.Run? && (e.rebless || Cache !in fs) {
      var staged := fs[Staging := Dir(n)];
      ExecLeavesAlone(staged, AcceptPlan(staged, n, e.rebless && HasManifest(fs)), e.budget, Evidence(r));
    }
  }

  lemma {:induction false} EvidenceSurvives(w: World, es: seq<Event>, r: nat)
    requires Evidence(r) in w.fs
    ensures Evidence(r) in Final(w, es).fs && Final(w, es).fs[Evidence(r)] == w.fs[Evidence(r)]
    decreases |es|
  {
    if es != [] {
      EvidenceAfter(w.fs, w.next, es[0], r);
      EvidenceSurvives(Next(w, es[0]), es[1..], r);
    }
  }

  /** Evidence is numbered by past runs, so the path of the next run is free. */
  lemma {:induction false} EvidenceIsPast(w: World, es: seq<Event>, r: nat)
    requires forall q: nat :: Evidence(q) in w.fs ==> q < w.next
    ensures Evidence(r) in Final(w, es).fs ==> r < Final(w, es).next
    decreases |es|
  {
    if es != [] {
      forall q: nat | Evidence(q) in Next(w, es[0]).fs ensures q < Next(w, es[0]).next {
        EvidenceAfter(w.fs, w.next, es[0], q);
      }
      EvidenceIsPast(Next(w, es[0]), es[1..], r);
    }
  }

  /** Over every sequence of events: after the events `before`, a run that rejects and is not cut leaves its
      staged cache as its evidence, and whatever comes later leaves it there.  Staging is free again at
      once; cut, the run leaves the cache in staging. */
  lemma {:induction false} RejectedIsKept(w: World, before: seq<Event>, e: Event, later: seq<Event>)
    requires Start(w) && Rejects(Final(w, before).fs, e)
    ensures var was := Final(w, before);
            var fs, n := Next(was, e).fs, was.next;
            if e.budget == 0 then fs == was.fs[Staging := Dir(n)]
            else
              && Staging !in fs
              && Evidence(n) in Final(Next(was, e), later).fs
              && Final(Next(was, e), later).fs[Evidence(n)] == Dir(n)
  {
    var was := Final(w, before);
    EvidenceIsPast(w, before, was.next);
    RejectIsExact(was.fs, was.next, e);
    if e.budget > 0 {
      EvidenceSurvives(Next(was, e), later, was.next);
    }
  }
}
