/** What interrupted runs of the bless script lead to: a manifest that is torn, and a config that can never
    be blessed again (scripts/bless_cute_full_cache.py, accept).  */
module BlessBlocked {
  import opened BlessFiles
  import opened BlessProtocol

  /** Some run strands a cache. */
  ghost predicate SomeStrands(w: World, es: seq<Event>)
    decreases |es|
  {
    es != [] && (Strands(w.fs, es[0]) || SomeStrands(Next(w, es[0]), es[1..]))
  }

  lemma {:induction false} SameTwice(a: Files, b: Files, c: Files)
    requires SamePlaces(a, b) && SamePlaces(b, c)
    ensures SamePlaces(a, c)
  {
  }

  /** Once blocked, no run and no clean-up changes anything promoted. */
  lemma {:induction false} BlockedIsFrozen(w: World, es: seq<Event>)
    requires WorldOk(w) && Blocked(w.fs)
    ensures SamePlaces(w.fs, Final(w, es).fs)
    decreases |es|
  {
    if es != [] {
      var w' := Next(w, es[0]);
      EventIsFine(w.fs, w.next, es[0]);
      NextIsOk(w, es[0]);
      BlockedIsFrozen(w', es[1..]);
      SameTwice(w.fs, w'.fs, Final(w, es).fs);
    }
  }

  lemma {:induction false} BlockedIffStranded(w: World, es: seq<Event>)
    requires WorldOk(w)
    ensures Blocked(Final(w, es).fs) <==> Blocked(w.fs) || SomeStrands(w, es)
    decreases |es|
  {
    if es != [] {
      EventIsFine(w.fs, w.next, es[0]);
      NextIsOk(w, es[0]);
      BlockedIffStranded(Next(w, es[0]), es[1..]);
    }
  }

  /** After any runs a config is blocked exactly when one of them stranded a cache.  From then on, whatever
      runs and clean-ups follow, the installed pair stays and no re-bless installs anything. */
  lemma {:induction false} StrandedIsBlockedForGood(w: World, es: seq<Event>, more: seq<Event>)
    requires Start(w)
    ensures Blocked(Final(w, es).fs) <==> SomeStrands(w, es)
    ensures SomeStrands(w, es) ==>
              SamePlaces(Final(w, es).fs, Final(w, es + more).fs) && Blocked(Final(w, es + more).fs)
  {
    StartIsOk(w);
    FinalIsOk(w, es);
    BlockedIffStranded(w, es);
    FinalOfMore(w, es, more);
    if SomeStrands(w, es) {
      BlockedIsFrozen(Final(w, es), more);
      SamePlacesAre(Final(w, es).fs, Final(w, es + more).fs);
    }
  }

  // ----- When a config can be blessed again -----

  /** Two caches in place, a torn manifest, or a cache without a manifest. */
  ghost predicate Stuck(fs: Files) {
    Blocked(fs) || IsTorn(fs) || (Cache in fs && Manifest !in fs)
  }

  /** A first bless cut between promoting the cache and promoting the manifest. */
  predicate HalfFirst(fs: Files, e: Event) {
    && e.Run? && e.passed && e.budget == 4
    && Cache !in fs && Manifest !in fs && CacheNew !in fs && ManifestNew !in fs
  }

  /** The ways to get stuck: three kinds of cut, and a re-bless after a cut of a fourth kind. */
  ghost predicate Sticks(fs: Files, n: nat, e: Event) {
    Strands(fs, e) || CutsWhilePatching(fs, n, e) || HalfFirst(fs, e)
  }

  /** The pair of run `n` is installed, whole. */
  ghost predicate HasPair(fs: Files, n: nat) {
    Is(fs, Cache, n) && HasManifest(fs) && fs[Manifest].id == n
  }

  lemma {:induction false} StuckStays(fs: Files, fs': Files)
    requires SamePlaces(fs, fs')
    ensures Stuck(fs) == Stuck(fs')
  {
    SamePlacesAre(fs, fs');
  }

  lemma {:induction false} StagingKeepsPlaces(fs: Files, n: nat)
    ensures SamePlaces(fs, fs[Staging := Dir(n)])
  {
  }

  /** Nothing promoted changes in a stuck config. */
  lemma {:induction false} StuckIsFrozen(fs: Files, n: nat, e: Event)
    requires Inv(fs) && Before(fs, n) && Stuck(fs)
    ensures SamePlaces(fs, After(fs, n, e))
  {
    if Blocked(fs) {
      EventIsFine(fs, n, e);
    } else if e.Run? && (e.rebless || Cache !in fs) {
      var staged := fs[Staging := Dir(n)];
      StagingIsOutside(fs, Staging, Dir(n));
      StagingKeepsPlaces(fs, n);
      if e.passed {
        FirstAcceptIsFine(staged, n, e.budget);
      } else {
        RejectIsFine(fs, n, e);
      }
    }
  }

  /** From a config that is not stuck, a run leaves a cache without a manifest beside no other cache exactly
      when it cuts a first bless in two. */
  lemma {:induction false} HalfPromoted(fs: Files, n: nat, e: Event)
    requires Inv(fs) && Before(fs, n) && !Stuck(fs) && e.Run?
    ensures var fs' := After(fs, n, e);
            Cache in fs' && Manifest !in fs' && !Blocked(fs') <==> HalfFirst(fs, e)
  {
    var staged := fs[Staging := Dir(n)];
    StagingIsOutside(fs, Staging, Dir(n));
    if e.rebless || Cache !in fs {
      if !e.passed {
        RejectIsFine(fs, n, e);
        SamePlacesAre(fs, After(fs, n, e));
      } else if e.rebless && HasManifest(fs) {
        ReblessIsFine(staged, n, e.budget);
      } else {
        FirstAcceptIsFine(staged, n, e.budget);
      }
    }
  }

  /** A config gets stuck exactly by an event that sticks, and stays stuck. */
  lemma {:induction false} StuckNext(fs: Files, n: nat, e: Event)
    requires Inv(fs) && Before(fs, n)
    ensures Stuck(After(fs, n, e)) <==> Stuck(fs) || Sticks(fs, n, e)
  {
    EventIsFine(fs, n, e);
    if Stuck(fs) {
      StuckIsFrozen(fs, n, e);
      StuckStays(fs, After(fs, n, e));
    } else if e.Run? {
      HalfPromoted(fs, n, e);
    }
  }

  /** Without leftovers, a re-bless whose trials pass and that is not cut installs its pair exactly when the
      config is not stuck. */
  lemma {:induction false} InstallsUnlessStuck(fs: Files, n: nat, b: nat)
    requires Inv(fs) && Before(fs, n) && CacheNew !in fs && ManifestNew !in fs && b >= 11
    ensures HasPair(After(fs, n, Run(true, true, b)), n) <==> !Stuck(fs)
  {
    var staged, fs' := fs[Staging := Dir(n)], After(fs, n, Run(true, true, b));
    StagingIsOutside(fs, Staging, Dir(n));
    if Stuck(fs) {
      StuckIsFrozen(fs, n, Run(true, true, b));
      SamePlacesAre(fs, fs');
      assert Cache in fs ==> IsPlace(Caches, Cache) && Holds(fs, Caches, Cache, fs[Cache].id);
    } else if HasManifest(fs) {
      ReblessIsFine(staged, n, b);
      assert Installed(fs', n, true);
    } else {
      FirstAcceptIsFine(staged, n, b);
      assert Installed(fs', n, false);
    }
  }

  // ----- Any sequence of runs -----

  ghost predicate SomeSticks(w: World, es: seq<Event>)
    decreases |es|
  {
    es != [] && (Sticks(w.fs, w.next, es[0]) || SomeSticks(Next(w, es[0]), es[1..]))
  }

  lemma {:induction false} StuckIffSomeSticks(w: World, es: seq<Event>)
    requires WorldOk(w)
    ensures Stuck(Final(w, es).fs) <==> Stuck(w.fs) || SomeSticks(w, es)
    decreases |es|
  {
    if es != [] {
      StuckNext(w.fs, w.next, es[0]);
      NextIsOk(w, es[0]);
      StuckIffSomeSticks(Next(w, es[0]), es[1..]);
    }
  }

  lemma {:induction false} StuckIsFrozenForGood(w: World, es: seq<Event>)
    requires WorldOk(w) && Stuck(w.fs)
    ensures SamePlaces(w.fs, Final(w, es).fs)
    decreases |es|
  {
    if es != [] {
      var w' := Next(w, es[0]);
      StuckIsFrozen(w.fs, w.next, es[0]);
      StuckStays(w.fs, w'.fs);
      NextIsOk(w, es[0]);
      StuckIsFrozenForGood(w', es[1..]);
      SameTwice(w.fs, w'.fs, Final(w, es).fs);
    }
  }

  /** An operator removes leftovers and re-blesses. */
  function TryAgain(b: nat): seq<Event> {
    [RemoveCacheNew, RemoveManifestNew, Run(true, true, b)]
  }

  lemma {:induction false} FinalOfThree(w: World, es: seq<Event>)
    requires |es| == 3
    ensures Final(w, es) == Next(Next(Next(w, es[0]), es[1]), es[2])
  {
    var w1 := Next(w, es[0]);
    var w2 := Next(w1, es[1]);
    assert es[1..] == [es[1], es[2]] && es[1..][1..] == [es[2]] && [es[2]][1..] == [];
    assert Final(w2, [es[2]]) == Next(w2, es[2]);
    assert Final(w1, es[1..]) == Final(w2, [es[2]]);
  }

  lemma {:induction false} TryAgainInstalls(w: World, b: nat)
    requires WorldOk(w) && b >= 11
    ensures HasPair(Final(w, TryAgain(b)).fs, w.next + 2) <==> !Stuck(w.fs)
  {
    var w2 := Next(Next(w, RemoveCacheNew), RemoveManifestNew);
    FinalOfThree(w, TryAgain(b));
    NextIsOk(w, RemoveCacheNew);
    NextIsOk(Next(w, RemoveCacheNew), RemoveManifestNew);
    assert SamePlaces(w.fs, w2.fs);
    StuckStays(w.fs, w2.fs);
    InstallsUnlessStuck(w2.fs, w2.next, b);
  }

  /** After any runs and clean-ups, each cut off anywhere: removing the leftovers and re-blessing installs a new
      pair exactly when no event so far has stuck the config.  Once one has, no run and no clean-up ever
      changes anything promoted again. */
  lemma {:induction false} CanBeBlessedAgain(w: World, es: seq<Event>, b: nat, more: seq<Event>)
    requires Start(w) && b >= 11
    ensures Stuck(Final(w, es).fs) <==> SomeSticks(w, es)
    ensures HasPair(Final(w, es + TryAgain(b)).fs, Final(w, es).next + 2) <==> !SomeSticks(w, es)
    ensures SomeSticks(w, es) ==> SamePlaces(Final(w, es).fs, Final(w, es + more).fs)
  {
    StartIsOk(w);
    FinalIsOk(w, es);
    StuckIffSomeSticks(w, es);
    FinalOfMore(w, es, TryAgain(b));
    TryAgainInstalls(Final(w, es), b);
    if SomeSticks(w, es) {
      FinalOfMore(w, es, more);
      StuckIsFrozenForGood(Final(w, es), more);
    }
  }

  // ----- One interrupted run is enough -----

  /** A first bless cut after 4 commands leaves a cache that no run accepts and no run replaces. */
  lemma {:induction false} OneCutOfFirstBlessSticks(b: nat, more: seq<Event>)
    requires b >= 11
    ensures var w, es := World(map[], 0, {}, {}), [Run(false, true, 4)];
            && Start(w) && Stuck(Final(w, es).fs) && SamePlaces(Final(w, es).fs, Final(w, es + more).fs)
            && !HasPair(Final(w, es + TryAgain(b)).fs, Final(w, es).next + 2)
  {
    var w, es := World(map[], 0, {}, {}), [Run(false, true, 4)];
    assert HalfFirst(w.fs, es[0]);
    CanBeBlessedAgain(w, es, b, more);
  }

  /** A manifest with its cache. */
  function Blessed(): World {
    World(map[Cache := Dir(0), Manifest := Text(0, true)], 1, {0}, {0})
  }

  /** A re-bless cut after 5 to 8 commands blocks the config. */
  lemma {:induction false} OneCutBlocks(b: nat, more: seq<Event>)
    requires 5 <= b <= 8
    ensures Start(Blessed()) && Blocked(Final(Blessed(), [Run(true, true, b)] + more).fs)
  {
    var w, es := Blessed(), [Run(true, true, b)];
    assert w == World(map[Cache := Dir(0), Manifest := Text(0, true)], 1, {0}, {0});
    assert Strands(w.fs, es[0]);
    StrandedIsBlockedForGood(w, es, more);
  }

  /** A re-bless cut after 4 commands has set the installed cache aside and promoted nothing. */
  lemma {:induction false} CutInTheGap()
    ensures After(Blessed().fs, 1, Run(true, true, 4)) ==
            map[CacheOld := Dir(0), Manifest := Text(0, true), CacheNew := Dir(1), ManifestNew := Text(1, false)]
  {
    var fs := Blessed().fs[Staging := Dir(1)];
    var rest := PromoteOver(1, true);
    var c1, c2, c3, c4 :=
      Rename(Staging, CacheNew), Truncate(ManifestNew, 1), Fill(ManifestNew, 1, false), Rename(Cache, CacheOld);
    assert AcceptPlan(fs, 1, true) == [c1] + ([c2] + ([c3] + ([c4] + rest)));
    ExecStep(fs, c1, [c2] + ([c3] + ([c4] + rest)), 4);
    var fs1 := Done(fs, c1);
    ExecStep(fs1, c2, [c3] + ([c4] + rest), 3);
    var fs2 := Done(fs1, c2);
    ExecStep(fs2, c3, [c4] + rest, 2);
    var fs3 := Done(fs2, c3);
    ExecStep(fs3, c4, rest, 1);
  }

  /** After such a cut and the clean-up that the error message asks for, a re-bless that is not cut at all
      blocks the config. */
  lemma {:induction false} CompleteRunBlocks(b: nat, more: seq<Event>)
    requires 11 <= b
    ensures var es := [Run(true, true, 4), RemoveCacheNew, RemoveManifestNew, Run(true, true, b)];
            Start(Blessed()) && Blocked(Final(Blessed(), es + more).fs)
  {
    var w, es := Blessed(), [Run(true, true, 4), RemoveCacheNew, RemoveManifestNew, Run(true, true, b)];
    assert w == World(map[Cache := Dir(0), Manifest := Text(0, true)], 1, {0}, {0});
    CutInTheGap();
    var w1 := Next(w, es[0]);
    var w2 := Next(w1, es[1]);
    var w3 := Next(w2, es[2]);
    assert w3.fs == map[CacheOld := Dir(0), Manifest := Text(0, true)];
    assert Strands(w3.fs, es[3]);
    assert es[1..][1..][1..] == [es[3]];
    assert SomeStrands(w3, [es[3]]);
    assert es[1..][1..] == [es[2], es[3]] && [es[2], es[3]][1..] == [es[3]];
    assert SomeStrands(w2, [es[2], es[3]]);
    assert es[1..] == [es[1], es[2], es[3]] && [es[1], es[2], es[3]][1..] == [es[2], es[3]];
    assert SomeStrands(w1, es[1..]);
    StrandedIsBlockedForGood(w, es, more);
  }

  /** A re-bless cut after 10 of its 11 commands leaves the manifest that it installed torn, for good. */
  lemma {:induction false} OneCutTears(b: nat, more: seq<Event>)
    requires b >= 11
    ensures var w, es := Blessed(), [Run(true, true, 10)];
            && Start(w) && SomeCutWhilePatching(w, es)
            && SamePlaces(Final(w, es).fs, Final(w, es + more).fs)
            && !HasPair(Final(w, es + TryAgain(b)).fs, Final(w, es).next + 2)
            && Manifest in Final(w, es).fs && Final(w, es).fs[Manifest].Torn?
            && var id := Final(w, es).fs[Manifest].id;
               id in Final(w, es).manifests && !SurvivesWhole(Final(w, es).fs, Manifests, id)
  {
    var w, es := Blessed(), [Run(true, true, 10)];
    assert w == World(map[Cache := Dir(0), Manifest := Text(0, true)], 1, {0}, {0});
    assert CutsWhilePatching(w.fs, w.next, es[0]);
    StartIsOk(w);
    FinalIsOk(w, es);
    assert es[1..] == [];
    assert Final(w, es) == Next(w, es[0]);
    NothingPromotedIsLost(w, es, Manifests, Final(w, es).fs[Manifest].id);
    CanBeBlessedAgain(w, es, b, more);
  }
}
