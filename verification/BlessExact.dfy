/** What one passing run that is not cut makes of the files, path by path
    (scripts/bless_cute_full_cache.py, accept).  */
module BlessExact {
  import opened BlessFiles
  import opened BlessProtocol

  /** The canonical pair after run `n`, with everything else as before and staging empty. */
  function Promoted(fs: Files, n: nat, patched: bool): Files {
    (fs - {Staging})[Cache := Dir(n)][Manifest := Text(n, patched)]
  }

  /** The pair that was in place, archived under the number of the run. */
  function Archived(fs: Files, n: nat): Files
    requires Manifest in fs
  {
    map[ManifestArchive(n) := fs[Manifest]] + if Cache in fs then map[CacheArchive(n) := fs[Cache]] else map[]
  }

  /** A run that finds leftovers, or a pair in place that it must not replace, changes nothing but staging. */
  lemma {:induction false} RefusedIsExact(fs: Files, n: nat, rebless: bool, budget: nat)
    requires rebless || Cache !in fs
    requires CacheNew in fs || ManifestNew in fs ||
             (!(rebless && Manifest in fs && fs[Manifest].Text?) && (Cache in fs || Manifest in fs))
    ensures After(fs, n, Run(rebless, true, budget)) == fs[Staging := Dir(n)]
  {
  }

  /** A first bless installs its pair and changes nothing else. */
  lemma {:induction false} FirstBlessIsExact(fs: Files, n: nat, rebless: bool, budget: nat)
    requires Inv(fs) && Before(fs, n) && budget >= 5
    requires Cache !in fs && Manifest !in fs && CacheNew !in fs && ManifestNew !in fs
    ensures After(fs, n, Run(rebless, true, budget)) == Promoted(fs, n, false)
  {
    var staged := fs[Staging := Dir(n)];
    StagingIsOutside(fs, Staging, Dir(n));
    StageThen(staged, n, PromoteFirst(), budget);
    PromoteFirstRuns(Staged(staged, n), n, budget - 3);
    assert Promoted(fs, n, false) == Staged(staged, n) - {CacheNew, ManifestNew} +
                                     map[Cache := Dir(n), Manifest := Text(n, false)];
  }

  lemma {:induction false} PromoteFirstRuns(s: Files, n: nat, b: nat)
    requires CacheNew in s && ManifestNew in s && s[CacheNew] == Dir(n) && s[ManifestNew] == Text(n, false)
    requires Cache !in s && Manifest !in s && b >= 2
    ensures Exec(s, PromoteFirst(), b) ==
            s - {CacheNew, ManifestNew} + map[Cache := Dir(n), Manifest := Text(n, false)]
  {
    var c1, c2 := Rename(CacheNew, Cache), Rename(ManifestNew, Manifest);
    assert PromoteFirst() == [c1] + ([c2] + []);
    ExecStep(s, c1, [c2] + [], b);
    ExecStep(Done(s, c1), c2, [], b - 1);
  }

  /** A re-bless that is not blocked installs its pair, archives the old one under its own number, marks the
      manifest, and changes nothing else. */
  lemma {:induction false} ReblessIsExact(fs: Files, n: nat, budget: nat)
    requires Inv(fs) && Before(fs, n) && Manifest in fs && fs[Manifest].Text?
    requires CacheNew !in fs && ManifestNew !in fs && (Cache in fs ==> CacheOld !in fs)
    requires budget >= if Cache in fs then 11 else 9
    ensures After(fs, n, Run(true, true, budget)) == Promoted(fs, n, true) + Archived(fs, n)
  {
    var staged := fs[Staging := Dir(n)];
    StagingIsOutside(fs, Staging, Dir(n));
    assert AcceptPlan(staged, n, true) == StageAll(n) + ReblessRest(staged, n);
    StageThen(staged, n, ReblessRest(staged, n), budget);
    ReblessRestRuns(fs, n, budget - 3);
  }

  lemma {:induction false} ReblessRestRuns(fs: Files, n: nat, b: nat)
    requires Manifest in fs && fs[Manifest].Text? && ManifestOld !in fs && (Cache in fs ==> CacheOld !in fs)
    requires CacheNew !in fs && ManifestNew !in fs && CacheArchive(n) !in fs && ManifestArchive(n) !in fs
    requires b >= if Cache in fs then 8 else 6
    ensures var staged := fs[Staging := Dir(n)];
            Exec(Staged(staged, n), ReblessRest(staged, n), b) == Promoted(fs, n, true) + Archived(fs, n)
  {
    var staged := fs[Staging := Dir(n)];
    var s := Staged(staged, n);
    if Cache in fs {
      var aside := Rename(Cache, CacheOld);
      assert ReblessRest(staged, n) == [aside] + PromoteOver(n, true);
      ExecStep(s, aside, PromoteOver(n, true), b);
      PromoteOverRuns(Done(s, aside), n, true, b - 1);
      AsideThenReplaced(fs, n);
    } else {
      assert ReblessRest(staged, n) == PromoteOver(n, false);
      PromoteOverRuns(s, n, false, b);
      SameFiles(Replaced(s, n, false), Promoted(fs, n, true) + Archived(fs, n));
    }
  }

  lemma {:induction false} AsideThenReplaced(fs: Files, n: nat)
    requires Manifest in fs && Cache in fs && CacheOld !in fs && CacheNew !in fs && ManifestNew !in fs
    ensures Replaced(Aside(fs, n), n, true) == Promoted(fs, n, true) + Archived(fs, n)
  {
    var a, b := Replaced(Aside(fs, n), n, true), Promoted(fs, n, true) + Archived(fs, n);
    forall p ensures (p in a <==> p in b) && (p in a ==> a[p] == b[p]) {
      AsideAt(fs, n, p);
    }
  }

  /** Everything is staged and the old cache is set aside. */
  function Aside(fs: Files, n: nat): Files
    requires Cache in fs
  {
    Moved(Staged(fs[Staging := Dir(n)], n), Cache, CacheOld)
  }

  lemma {:induction false} AsideAt(fs: Files, n: nat, p: Path)
    requires Manifest in fs && Cache in fs && CacheOld !in fs && CacheNew !in fs && ManifestNew !in fs
    ensures var a, b := Replaced(Aside(fs, n), n, true), Promoted(fs, n, true) + Archived(fs, n);
            (p in a <==> p in b) && (p in a ==> a[p] == b[p])
  {
  }

  lemma {:induction false} SameFiles(a: Files, b: Files)
    requires a.Keys == b.Keys && forall p :: p in a ==> a[p] == b[p]
    ensures a == b
  {
  }

  /** The staged pair takes the place of the one in place, which goes to the archive. */
  function Replaced(s: Files, n: nat, movedCache: bool): Files
    requires Manifest in s && (movedCache ==> CacheOld in s)
  {
    var all := s - {CacheNew, ManifestNew}
               + map[Cache := Dir(n), Manifest := Text(n, true), ManifestArchive(n) := s[Manifest]];
    if movedCache then all - {CacheOld} + map[CacheArchive(n) := s[CacheOld]] else all
  }

  /** After the three renames. */
  function Swapped(s: Files, n: nat): Files
    requires Manifest in s
  {
    s - {CacheNew, ManifestNew} + map[Cache := Dir(n), Manifest := Text(n, false), ManifestOld := s[Manifest]]
  }

  lemma {:induction false} SwapRuns(s: Files, n: nat, rest: seq<Command>, b: nat)
    requires CacheNew in s && ManifestNew in s && s[CacheNew] == Dir(n) && s[ManifestNew] == Text(n, false)
    requires Manifest in s && s[Manifest].Text? && Cache !in s && ManifestOld !in s && b >= 3
    ensures var cs := [Rename(CacheNew, Cache), Rename(Manifest, ManifestOld), Rename(ManifestNew, Manifest)];
            Exec(s, cs + rest, b) == Exec(Swapped(s, n), rest, b - 3)
  {
    var c1, c2, c3 := Rename(CacheNew, Cache), Rename(Manifest, ManifestOld), Rename(ManifestNew, Manifest);
    assert [c1, c2, c3] + rest == [c1] + ([c2] + ([c3] + rest));
    ExecStep(s, c1, [c2] + ([c3] + rest), b);
    var s1 := Done(s, c1);
    ExecStep(s1, c2, [c3] + rest, b - 1);
    var s2 := Done(s1, c2);
    ExecStep(s2, c3, rest, b - 2);
    SameFiles(Done(s2, c3), Swapped(s, n));
  }

  lemma {:induction false} PromoteOverRuns(s: Files, n: nat, movedCache: bool, b: nat)
    requires CacheNew in s && ManifestNew in s && s[CacheNew] == Dir(n) && s[ManifestNew] == Text(n, false)
    requires Manifest in s && s[Manifest].Text? && Cache !in s && ManifestOld !in s
    requires ManifestArchive(n) !in s && (movedCache ==> CacheOld in s && CacheArchive(n) !in s)
    requires b >= if movedCache then 7 else 6
    ensures Exec(s, PromoteOver(n, movedCache), b) == Replaced(s, n, movedCache)
  {
    SwapRuns(s, n, ArchiveOld(n, movedCache), b);
    ArchiveRuns(Swapped(s, n), n, movedCache, b - 3);
    SwappedThenCleared(s, n, movedCache);
  }

  /** After the archive step. */
  function Cleared(s: Files, n: nat, movedCache: bool): Files
    requires ManifestOld in s && (movedCache ==> CacheOld in s)
  {
    var all := s - {ManifestOld} + map[Manifest := Text(n, true), ManifestArchive(n) := s[ManifestOld]];
    if movedCache then all - {CacheOld} + map[CacheArchive(n) := s[CacheOld]] else all
  }

  lemma {:induction false} SwappedThenCleared(s: Files, n: nat, movedCache: bool)
    requires Manifest in s && ManifestOld !in s && (movedCache ==> CacheOld in s)
    ensures Cleared(Swapped(s, n), n, movedCache) == Replaced(s, n, movedCache)
  {
    var a, b := Cleared(Swapped(s, n), n, movedCache), Replaced(s, n, movedCache);
    assert forall p :: p in a <==> p in b;
    SameFiles(a, b);
  }

  lemma {:induction false} ArchiveRuns(s: Files, n: nat, movedCache: bool, b: nat)
    requires Manifest in s && s[Manifest].Text? && ManifestOld in s && s[ManifestOld].Text?
    requires ManifestArchive(n) !in s && (movedCache ==> CacheOld in s && CacheArchive(n) !in s)
    requires b >= if movedCache then 4 else 3
    ensures Exec(s, ArchiveOld(n, movedCache), b) == Cleared(s, n, movedCache)
  {
    var c1, c2 := Rename(ManifestOld, ManifestArchive(n)), Rename(CacheOld, CacheArchive(n));
    var patch := PatchManifest(n);
    ExecStep(s, c1, (if movedCache then [c2] else []) + patch, b);
    var s1 := Done(s, c1);
    assert ArchiveOld(n, movedCache) == [c1] + ((if movedCache then [c2] else []) + patch);
    if movedCache {
      ExecStep(s1, c2, patch, b - 1);
      PatchRuns(Done(s1, c2), n, b - 2);
    } else {
      assert [] + patch == patch;
      PatchRuns(s1, n, b - 1);
    }
  }

  lemma {:induction false} PatchRuns(s: Files, n: nat, b: nat)
    requires Manifest in s && s[Manifest].Text? && b >= 2
    ensures Exec(s, PatchManifest(n), b) == s[Manifest := Text(n, true)]
  {
    var c1, c2 := Truncate(Manifest, n), Fill(Manifest, n, true);
    assert PatchManifest(n) == [c1] + ([c2] + []);
    ExecStep(s, c1, [c2] + [], b);
    ExecStep(Done(s, c1), c2, [], b - 1);
  }
}
