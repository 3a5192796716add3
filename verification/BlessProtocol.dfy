/** Promote-then-archive never loses a promoted cache or manifest, whatever the runs and wherever
    they are cut off (scripts/bless_cute_full_cache.py, accept).  */
module BlessProtocol {
  import opened BlessFiles

  datatype Kind = Caches | Manifests

  /** Where promoted artifacts live: the canonical path, the .old path and the archive. */
  predicate IsPlace(k: Kind, p: Path) {
    match k
    case Caches => p.Cache? || p.CacheOld? || p.CacheArchive?
    case Manifests => p.Manifest? || p.ManifestOld? || p.ManifestArchive?
  }

  ghost predicate Holds(fs: Files, k: Kind, p: Path, id: nat) {
    IsPlace(k, p) && p in fs && fs[p].id == id
  }

  ghost predicate Held(fs: Files, k: Kind, id: nat) {
    exists p :: Holds(fs, k, p, id)
  }

  /** No artifact is in two places. */
  ghost predicate Unique(fs: Files) {
    forall k, p, q, id :: Holds(fs, k, p, id) && Holds(fs, k, q, id) ==> p == q
  }

  /** Everything in place before is in place after. */
  ghost predicate Kept(fs: Files, fs': Files) {
    forall k, id :: Held(fs, k, id) ==> Held(fs', k, id)
  }

  /** Directories and files are where they belong; only the canonical manifest can be torn. */
  ghost predicate Typed(fs: Files) {
    && (forall p :: p in fs && IsPlace(Caches, p) ==> fs[p].Dir?)
    && (forall p :: p in fs && IsPlace(Manifests, p) ==> if p.Manifest? then !fs[p].Dir? else fs[p].Text?)
    && (CacheNew in fs ==> fs[CacheNew].Dir?)
    && (ManifestNew in fs ==> !fs[ManifestNew].Dir?)
  }

  ghost predicate Is(fs: Files, p: Path, id: nat) {
    p in fs && fs[p].id == id
  }

  /** The cache of the active manifest is in place or one rename away. */
  ghost predicate ActiveHasCache(fs: Files) {
    Manifest in fs ==> Is(fs, Cache, fs[Manifest].id) || Is(fs, CacheOld, fs[Manifest].id)
  }

  /** A manifest set aside implies its own cache set aside and a new cache in place. */
  ghost predicate OldHasCache(fs: Files) {
    ManifestOld in fs ==> Is(fs, CacheOld, fs[ManifestOld].id) && Cache in fs
  }

  /** What one run archives belongs together. */
  ghost predicate ArchivePairs(fs: Files) {
    forall r: nat :: ManifestArchive(r) in fs && CacheArchive(r) in fs ==>
      fs[ManifestArchive(r)].id == fs[CacheArchive(r)].id
  }

  /** A cache is set aside only for a new one, while its manifest is in place. */
  ghost predicate OldIsRecent(fs: Files) {
    CacheOld in fs ==> Cache in fs || Manifest in fs
  }

  ghost predicate Inv(fs: Files) {
    Unique(fs) && Typed(fs) && ActiveHasCache(fs) && OldHasCache(fs) && OldIsRecent(fs) && ArchivePairs(fs)
  }

  ghost predicate IdsBelow(fs: Files, k: Kind, n: nat) {
    forall p, id: nat :: Holds(fs, k, p, id) ==> id < n
  }

  ghost predicate ArchivesBelow(fs: Files, n: nat) {
    forall r: nat :: CacheArchive(r) in fs || ManifestArchive(r) in fs ==> r < n
  }

  /** All artifacts and archives are from runs before `n`. */
  ghost predicate Before(fs: Files, n: nat) {
    IdsBelow(fs, Caches, n) && IdsBelow(fs, Manifests, n) && ArchivesBelow(fs, n)
  }

  // ----- Moving artifacts between places -----

  function Moved(fs: Files, src: Path, dst: Path): Files
    requires src in fs
  {
    (fs - {src})[dst := fs[src]]
  }

  /** Moving an artifact to a free place of its kind loses nothing and duplicates nothing. */
  lemma {:induction false} MoveKeeps(fs: Files, k: Kind, src: Path, dst: Path)
    requires Unique(fs) && src in fs && dst !in fs && IsPlace(k, src) && IsPlace(k, dst)
    ensures Unique(Moved(fs, src, dst)) && Kept(fs, Moved(fs, src, dst))
    ensures forall k', n :: IdsBelow(fs, k', n) ==> IdsBelow(Moved(fs, src, dst), k', n)
  {
    var fs' := Moved(fs, src, dst);
    forall k', p, id | Holds(fs', k', p, id) ensures Holds(fs, k', if p == dst then src else p, id) {
    }
    forall k', id | Held(fs, k', id) ensures Held(fs', k', id) {
      var p :| Holds(fs, k', p, id);
      assert Holds(fs', k', if p == src then dst else p, id);
    }
  }

  /** Bringing a new artifact to a free place. */
  lemma {:induction false} PromoteKeeps(fs: Files, k: Kind, src: Path, dst: Path)
    requires Unique(fs) && src in fs && dst !in fs && !IsPlace(Caches, src) && !IsPlace(Manifests, src)
             && IsPlace(k, dst)
    requires IdsBelow(fs, k, fs[src].id)
    ensures Unique(Moved(fs, src, dst)) && Kept(fs, Moved(fs, src, dst))
    ensures forall k', n :: IdsBelow(fs, k', n) && (k' == k ==> fs[src].id < n) ==> IdsBelow(Moved(fs, src, dst), k', n)
  {
    var fs' := Moved(fs, src, dst);
    forall k', p, id | Holds(fs', k', p, id) ensures p == dst || Holds(fs, k', p, id) {
    }
    forall k', id | Held(fs, k', id) ensures Held(fs', k', id) {
      var p :| Holds(fs, k', p, id);
      assert Holds(fs', k', p, id);
    }
  }

  /** Changes outside the places change nothing that is promoted. */
  lemma {:induction false} OutsideKeeps(fs: Files, fs': Files)
    requires Unique(fs)
    requires forall k, p :: IsPlace(k, p) ==> (p in fs <==> p in fs') && (p in fs ==> fs[p].id == fs'[p].id)
    ensures Unique(fs') && Kept(fs, fs')
    ensures forall k, n :: IdsBelow(fs, k, n) ==> IdsBelow(fs', k, n)
  {
    forall k, p, id ensures Holds(fs, k, p, id) <==> Holds(fs', k, p, id) {
    }
    forall k, id | Held(fs, k, id) ensures Held(fs', k, id) {
      var p :| Holds(fs, k, p, id);
      assert Holds(fs', k, p, id);
    }
  }

  lemma {:induction false} KeptTwice(a: Files, b: Files, c: Files)
    requires Kept(a, b) && Kept(b, c)
    ensures Kept(a, c)
  {
  }

  ghost predicate IsTorn(fs: Files) {
    Manifest in fs && fs[Manifest].Torn?
  }

  /** `fs'` is in order after (part of) run `n`, and nothing of `fs` is lost. */
  ghost predicate Fine(fs: Files, fs': Files, n: nat) {
    Inv(fs') && Kept(fs, fs') && Before(fs', n + 1)
  }

  ghost predicate Installed(fs: Files, n: nat, patched: bool) {
    Manifest in fs && fs[Manifest] == Text(n, patched) && Is(fs, Cache, n)
  }

  // ----- One command each -----

  lemma {:induction false} Tear(fs: Files, n: nat)
    requires Inv(fs) && Before(fs, n + 1) && Is(fs, Manifest, n)
    ensures Fine(fs, fs[Manifest := Torn(n)], n)
  {
    OutsideKeeps(fs, fs[Manifest := Torn(n)]);
  }

  lemma {:induction false} Mend(fs: Files, n: nat)
    requires Inv(fs) && Before(fs, n + 1) && Is(fs, Manifest, n)
    ensures Fine(fs, fs[Manifest := Text(n, true)], n)
  {
    OutsideKeeps(fs, fs[Manifest := Text(n, true)]);
  }

  lemma {:induction false} ArchiveCache(fs: Files, n: nat)
    requires Inv(fs) && Before(fs, n + 1) && Is(fs, Manifest, n) && Is(fs, Cache, n)
    requires CacheOld in fs && ManifestOld !in fs && CacheArchive(n) !in fs
    requires ManifestArchive(n) in fs ==> Is(fs, CacheOld, fs[ManifestArchive(n)].id)
    ensures Fine(fs, Moved(fs, CacheOld, CacheArchive(n)), n)
  {
    MoveKeeps(fs, Caches, CacheOld, CacheArchive(n));
  }

  lemma {:induction false} ArchiveManifest(fs: Files, n: nat)
    requires Inv(fs) && Before(fs, n + 1) && ManifestOld in fs && ManifestArchive(n) !in fs && CacheArchive(n) !in fs
    ensures Fine(fs, Moved(fs, ManifestOld, ManifestArchive(n)), n)
  {
    MoveKeeps(fs, Manifests, ManifestOld, ManifestArchive(n));
  }

  lemma {:induction false} PromoteManifest(fs: Files, n: nat)
    requires Inv(fs) && Before(fs, n + 1) && IdsBelow(fs, Manifests, n) && Is(fs, Cache, n)
    requires Manifest !in fs && ManifestNew in fs && fs[ManifestNew].Text? && fs[ManifestNew].id == n
    ensures Fine(fs, Moved(fs, ManifestNew, Manifest), n)
  {
    PromoteKeeps(fs, Manifests, ManifestNew, Manifest);
  }

  /** The active manifest steps aside once a different cache is in place; nothing is replaced. */
  lemma {:induction false} ManifestAside(fs: Files, n: nat)
    requires Inv(fs) && Before(fs, n + 1) && IdsBelow(fs, Manifests, n) && Is(fs, Cache, n) && HasManifest(fs)
    ensures ManifestOld !in fs && Fine(fs, Moved(fs, Manifest, ManifestOld), n)
    ensures IdsBelow(Moved(fs, Manifest, ManifestOld), Manifests, n)
  {
    assert Holds(fs, Manifests, Manifest, fs[Manifest].id);
    if ManifestOld in fs {
      assert Holds(fs, Manifests, ManifestOld, fs[Manifest].id);
    }
    MoveKeeps(fs, Manifests, Manifest, ManifestOld);
  }

  lemma {:induction false} PromoteCache(fs: Files, n: nat)
    requires Inv(fs) && Before(fs, n) && Cache !in fs && Is(fs, CacheNew, n)
    ensures Fine(fs, Moved(fs, CacheNew, Cache), n) && IdsBelow(Moved(fs, CacheNew, Cache), Manifests, n)
    ensures ArchivesBelow(Moved(fs, CacheNew, Cache), n)
  {
    PromoteKeeps(fs, Caches, CacheNew, Cache);
  }

  lemma {:induction false} CacheAside(fs: Files, n: nat)
    requires Inv(fs) && Before(fs, n) && Cache in fs && CacheOld !in fs && Manifest in fs
    ensures Fine(fs, Moved(fs, Cache, CacheOld), n) && Before(Moved(fs, Cache, CacheOld), n)
  {
    MoveKeeps(fs, Caches, Cache, CacheOld);
  }

  // ----- The rest of a re-bless from each command on, last command first -----

  /** A cache set aside while another one is in place.  The next re-bless cannot set that one aside. */
  predicate Blocked(fs: Files) {
    Cache in fs && CacheOld in fs
  }

  /** Nothing promoted was moved, added, removed or changed. */
  ghost predicate SamePlaces(fs: Files, fs': Files) {
    forall k, p :: IsPlace(k, p) ==> (p in fs <==> p in fs') && (p in fs ==> fs[p] == fs'[p])
  }

  lemma {:induction false} SamePlacesAre(fs: Files, fs': Files)
    requires SamePlaces(fs, fs')
    ensures Cache in fs <==> Cache in fs'
    ensures CacheOld in fs <==> CacheOld in fs'
    ensures Manifest in fs <==> Manifest in fs'
    ensures IsTorn(fs) == IsTorn(fs') && Blocked(fs) == Blocked(fs')
  {
    assert IsPlace(Caches, Cache) && IsPlace(Caches, CacheOld) && IsPlace(Manifests, Manifest);
  }

  /** One more command in front. */
  lemma {:induction false} ExecStep(fs: Files, c: Command, rest: seq<Command>, b: nat)
    ensures b == 0 || !Succeeds(fs, c) ==> Exec(fs, [c] + rest, b) == fs
    ensures b > 0 && Succeeds(fs, c) ==> Exec(fs, [c] + rest, b) == Exec(Done(fs, c), rest, b - 1)
  {
    assert ([c] + rest)[1..] == rest;
  }

  /** How the rest `cs` of a re-bless ends: in order, with a manifest in place or set aside; torn exactly
      when cut before the last command; installed when not cut. */
  ghost predicate EndsWell(fs: Files, cs: seq<Command>, b: nat, n: nat) {
    var fs' := Exec(fs, cs, b);
    && Fine(fs, fs', n) && (Manifest in fs' || ManifestOld in fs')
    && (IsTorn(fs') <==> b == |cs| - 1) && (b >= |cs| ==> Installed(fs', n, true))
  }

  lemma {:induction false} StepEndsWell(fs: Files, c: Command, rest: seq<Command>, b: nat, n: nat)
    requires Inv(fs) && Before(fs, n + 1) && !IsTorn(fs) && Succeeds(fs, c) && |rest| >= 1
    requires Manifest in fs || ManifestOld in fs
    requires Kept(fs, Done(fs, c))
    requires b > 0 ==> EndsWell(Done(fs, c), rest, b - 1, n)
    ensures EndsWell(fs, [c] + rest, b, n)
  {
    ExecStep(fs, c, rest, b);
    if b > 0 {
      KeptTwice(fs, Done(fs, c), Exec(Done(fs, c), rest, b - 1));
    }
  }

  lemma {:induction false} EndFromPatch(fs: Files, n: nat, b: nat)
    requires Inv(fs) && Before(fs, n + 1) && Installed(fs, n, false)
    ensures EndsWell(fs, PatchManifest(n), b, n)
    ensures Blocked(Exec(fs, PatchManifest(n), b)) <==> Blocked(fs)
  {
    var torn := fs[Manifest := Torn(n)];
    Tear(fs, n);
    Mend(torn, n);
    ExecStep(fs, Truncate(Manifest, n), [Fill(Manifest, n, true)], b);
    assert PatchManifest(n) == [Truncate(Manifest, n)] + [Fill(Manifest, n, true)];
    if b > 0 {
      ExecStep(torn, Fill(Manifest, n, true), [], b - 1);
      assert [Fill(Manifest, n, true)] + [] == [Fill(Manifest, n, true)];
      if b > 1 {
        KeptTwice(fs, torn, torn[Manifest := Text(n, true)]);
      }
    }
  }

  lemma {:induction false} EndFromArchiveCache(fs: Files, n: nat, b: nat)
    requires Inv(fs) && Before(fs, n + 1) && Installed(fs, n, false)
    requires CacheOld in fs && ManifestOld !in fs && CacheArchive(n) !in fs
    requires ManifestArchive(n) in fs ==> Is(fs, CacheOld, fs[ManifestArchive(n)].id)
    ensures EndsWell(fs, [Rename(CacheOld, CacheArchive(n))] + PatchManifest(n), b, n)
    ensures Blocked(Exec(fs, [Rename(CacheOld, CacheArchive(n))] + PatchManifest(n), b)) <==> b == 0
  {
    ArchiveCache(fs, n);
    ExecStep(fs, Rename(CacheOld, CacheArchive(n)), PatchManifest(n), b);
    if b > 0 {
      EndFromPatch(Moved(fs, CacheOld, CacheArchive(n)), n, b - 1);
    }
    StepEndsWell(fs, Rename(CacheOld, CacheArchive(n)), PatchManifest(n), b, n);
  }

  /** What follows archiving the manifest. */
  function AfterArchive(n: nat, movedCache: bool): seq<Command> {
    (if movedCache then [Rename(CacheOld, CacheArchive(n))] else []) + PatchManifest(n)
  }

  lemma {:induction false} EndAfterArchive(fs: Files, n: nat, movedCache: bool, b: nat)
    requires Inv(fs) && Before(fs, n + 1) && Installed(fs, n, false)
    requires CacheOld in fs && ManifestOld !in fs && CacheArchive(n) !in fs
    requires ManifestArchive(n) in fs ==> Is(fs, CacheOld, fs[ManifestArchive(n)].id)
    ensures EndsWell(fs, AfterArchive(n, movedCache), b, n)
    ensures Blocked(Exec(fs, AfterArchive(n, movedCache), b)) <==> !movedCache || b == 0
  {
    if movedCache {
      EndFromArchiveCache(fs, n, b);
    } else {
      assert AfterArchive(n, false) == PatchManifest(n);
      EndFromPatch(fs, n, b);
    }
  }

  lemma {:induction false} EndFromArchive(fs: Files, n: nat, movedCache: bool, b: nat)
    requires Inv(fs) && Before(fs, n + 1) && Installed(fs, n, false)
    requires ManifestOld in fs && ManifestArchive(n) !in fs && CacheArchive(n) !in fs
    ensures EndsWell(fs, ArchiveOld(n, movedCache), b, n)
    ensures Blocked(Exec(fs, ArchiveOld(n, movedCache), b)) <==> !movedCache || b <= 1
  {
    var rest := AfterArchive(n, movedCache);
    ArchiveManifest(fs, n);
    ExecStep(fs, Rename(ManifestOld, ManifestArchive(n)), rest, b);
    if b > 0 {
      EndAfterArchive(Moved(fs, ManifestOld, ManifestArchive(n)), n, movedCache, b - 1);
    }
    StepEndsWell(fs, Rename(ManifestOld, ManifestArchive(n)), rest, b, n);
    assert ArchiveOld(n, movedCache) == [Rename(ManifestOld, ManifestArchive(n))] + rest;
  }

  ghost predicate StagedManifest(fs: Files, n: nat) {
    ManifestNew in fs && fs[ManifestNew] == Text(n, false)
  }

  lemma {:induction false} EndFromPromoteManifest(fs: Files, n: nat, movedCache: bool, b: nat)
    requires Inv(fs) && Before(fs, n + 1) && IdsBelow(fs, Manifests, n) && ArchivesBelow(fs, n) && Is(fs, Cache, n)
    requires StagedManifest(fs, n) && Manifest !in fs && ManifestOld in fs
    ensures EndsWell(fs, [Rename(ManifestNew, Manifest)] + ArchiveOld(n, movedCache), b, n)
    ensures Blocked(Exec(fs, [Rename(ManifestNew, Manifest)] + ArchiveOld(n, movedCache), b)) <==>
            !movedCache || b <= 2
  {
    PromoteManifest(fs, n);
    ExecStep(fs, Rename(ManifestNew, Manifest), ArchiveOld(n, movedCache), b);
    if b > 0 {
      EndFromArchive(Moved(fs, ManifestNew, Manifest), n, movedCache, b - 1);
    }
    StepEndsWell(fs, Rename(ManifestNew, Manifest), ArchiveOld(n, movedCache), b, n);
  }

  lemma {:induction false} EndFromManifestAside(fs: Files, n: nat, movedCache: bool, b: nat)
    requires Inv(fs) && Before(fs, n + 1) && IdsBelow(fs, Manifests, n) && ArchivesBelow(fs, n) && Is(fs, Cache, n)
    requires StagedManifest(fs, n) && HasManifest(fs)
    ensures var cs := [Rename(Manifest, ManifestOld)] + ([Rename(ManifestNew, Manifest)] + ArchiveOld(n, movedCache));
            EndsWell(fs, cs, b, n) && (Blocked(Exec(fs, cs, b)) <==> !movedCache || b <= 3)
  {
    var rest := [Rename(ManifestNew, Manifest)] + ArchiveOld(n, movedCache);
    ManifestAside(fs, n);
    ExecStep(fs, Rename(Manifest, ManifestOld), rest, b);
    if b > 0 {
      EndFromPromoteManifest(Moved(fs, Manifest, ManifestOld), n, movedCache, b - 1);
    }
    StepEndsWell(fs, Rename(Manifest, ManifestOld), rest, b, n);
  }

  lemma {:induction false} PromoteOverUnfolds(n: nat, movedCache: bool)
    ensures PromoteOver(n, movedCache) ==
            [Rename(CacheNew, Cache)]
            + ([Rename(Manifest, ManifestOld)] + ([Rename(ManifestNew, Manifest)] + ArchiveOld(n, movedCache)))
  {
  }

  lemma {:induction false} EndFromPromoteCache(fs: Files, n: nat, movedCache: bool, b: nat)
    requires Inv(fs) && Before(fs, n) && Cache !in fs && Is(fs, CacheNew, n)
    requires StagedManifest(fs, n) && HasManifest(fs)
    ensures EndsWell(fs, PromoteOver(n, movedCache), b, n)
    ensures Blocked(Exec(fs, PromoteOver(n, movedCache), b)) <==> 1 <= b && (!movedCache || b <= 4)
  {
    var rest := [Rename(Manifest, ManifestOld)] + ([Rename(ManifestNew, Manifest)] + ArchiveOld(n, movedCache));
    PromoteCache(fs, n);
    ExecStep(fs, Rename(CacheNew, Cache), rest, b);
    if b > 0 {
      EndFromManifestAside(Moved(fs, CacheNew, Cache), n, movedCache, b - 1);
    }
    StepEndsWell(fs, Rename(CacheNew, Cache), rest, b, n);
    PromoteOverUnfolds(n, movedCache);
  }

  /** A cache left aside by an earlier run makes this run stop here, with everything in place. */
  lemma {:induction false} EndFromCacheAside(fs: Files, n: nat, b: nat)
    requires Inv(fs) && Before(fs, n) && Cache in fs && Is(fs, CacheNew, n) && StagedManifest(fs, n) && HasManifest(fs)
    ensures CacheOld !in fs ==> EndsWell(fs, [Rename(Cache, CacheOld)] + PromoteOver(n, true), b, n)
    ensures CacheOld !in fs ==>
              (Blocked(Exec(fs, [Rename(Cache, CacheOld)] + PromoteOver(n, true), b)) <==> 2 <= b <= 5)
    ensures CacheOld in fs ==> Exec(fs, [Rename(Cache, CacheOld)] + PromoteOver(n, true), b) == fs
  {
    ExecStep(fs, Rename(Cache, CacheOld), PromoteOver(n, true), b);
    if CacheOld !in fs {
      CacheAside(fs, n);
      if b > 0 {
        EndFromPromoteCache(Moved(fs, Cache, CacheOld), n, true, b - 1);
      }
      StepEndsWell(fs, Rename(Cache, CacheOld), PromoteOver(n, true), b, n);
    }
  }

  // ----- Staging -----

  lemma {:induction false} StagingIsOutside(fs: Files, p: Path, f: File)
    requires Inv(fs) && p in {Staging, CacheNew, ManifestNew}
    requires p.CacheNew? ==> f.Dir?
    requires p.ManifestNew? ==> !f.Dir?
    ensures Inv(fs[p := f]) && Kept(fs, fs[p := f]) && forall n :: Before(fs, n) ==> Before(fs[p := f], n)
  {
    OutsideKeeps(fs, fs[p := f]);
  }

  lemma {:induction false} RemovalIsOutside(fs: Files, p: Path)
    requires Inv(fs) && p in {Staging, CacheNew, ManifestNew}
    ensures Inv(fs - {p}) && Kept(fs, fs - {p}) && forall n :: Before(fs, n) ==> Before(fs - {p}, n)
  {
    OutsideKeeps(fs, fs - {p});
  }

  /** The files after staging run `n` completely. */
  function Staged(fs: Files, n: nat): Files {
    (fs - {Staging})[CacheNew := Dir(n)][ManifestNew := Text(n, false)]
  }

  lemma {:induction false} StagedIsFine(fs: Files, n: nat)
    requires Inv(fs) && Before(fs, n)
    ensures Inv(Staged(fs, n)) && Before(Staged(fs, n), n) && Kept(fs, Staged(fs, n))
  {
    var a := fs - {Staging};
    var b := a[CacheNew := Dir(n)];
    RemovalIsOutside(fs, Staging);
    StagingIsOutside(a, CacheNew, Dir(n));
    StagingIsOutside(b, ManifestNew, Text(n, false));
    KeptTwice(fs, a, b);
    KeptTwice(fs, b, Staged(fs, n));
  }

  /** Staging either completes or leaves only staging leftovers. */
  lemma {:induction false} StageThen(fs: Files, n: nat, rest: seq<Command>, b: nat)
    requires Inv(fs) && Before(fs, n) && Is(fs, Staging, n) && fs[Staging].Dir? && CacheNew !in fs && ManifestNew !in fs
    ensures b >= 3 ==> Exec(fs, StageAll(n) + rest, b) == Exec(Staged(fs, n), rest, b - 3)
    ensures b < 3 ==> var fs' := Exec(fs, StageAll(n) + rest, b);
                      Inv(fs') && Before(fs', n) && Kept(fs, fs') && SamePlaces(fs, fs')
  {
    var c1, c2, c3 := Rename(Staging, CacheNew), Truncate(ManifestNew, n), Fill(ManifestNew, n, false);
    var fs1 := Moved(fs, Staging, CacheNew);
    var fs2 := fs1[ManifestNew := Torn(n)];
    assert StageAll(n) + rest == [c1] + ([c2] + ([c3] + rest));
    ExecStep(fs, c1, [c2] + ([c3] + rest), b);
    if b > 0 {
      assert fs1 == (fs - {Staging})[CacheNew := Dir(n)];
      RemovalIsOutside(fs, Staging);
      StagingIsOutside(fs - {Staging}, CacheNew, Dir(n));
      KeptTwice(fs, fs - {Staging}, fs1);
      ExecStep(fs1, c2, [c3] + rest, b - 1);
      if b > 1 {
        StagingIsOutside(fs1, ManifestNew, Torn(n));
        KeptTwice(fs, fs1, fs2);
        ExecStep(fs2, c3, rest, b - 2);
        assert fs2[ManifestNew := Text(n, false)] == Staged(fs, n);
      }
    }
  }

  // ----- Whole runs -----

  lemma {:induction false} FirstBlessIsFine(fs: Files, n: nat, b: nat)
    requires Inv(fs) && Before(fs, n) && Cache !in fs && Manifest !in fs && Is(fs, CacheNew, n) && StagedManifest(fs, n)
    ensures var fs' := Exec(fs, PromoteFirst(), b);
            && Fine(fs, fs', n) && !IsTorn(fs') && (b >= 2 ==> Installed(fs', n, false))
            && (Blocked(fs') <==> CacheOld in fs && b >= 1)
            && (Cache in fs' <==> b >= 1) && (Manifest in fs' <==> b >= 2)
  {
    var fs1 := Moved(fs, CacheNew, Cache);
    var c1, c2 := Rename(CacheNew, Cache), Rename(ManifestNew, Manifest);
    assert PromoteFirst() == [c1] + [c2] && [c2] == [c2] + [];
    ExecStep(fs, c1, [c2], b);
    if b > 0 {
      PromoteCache(fs, n);
      PromoteManifest(fs1, n);
      ExecStep(fs1, c2, [], b - 1);
      KeptTwice(fs, fs1, Moved(fs1, ManifestNew, Manifest));
    }
  }

  /** Re-blessing goes through when the lookup finds the manifest, no leftovers are in the way and no
      older cache occupies the place where the current one steps aside. */
  ghost predicate GoesThrough(fs: Files) {
    HasManifest(fs) && CacheNew !in fs && ManifestNew !in fs && (Cache in fs ==> CacheOld !in fs)
  }

  lemma {:induction false} ReblessFromStaged(fs: Files, n: nat, b: nat)
    requires Inv(fs) && Before(fs, n) && Is(fs, CacheNew, n) && StagedManifest(fs, n) && HasManifest(fs)
    ensures var cs := (if Cache in fs then [Rename(Cache, CacheOld)] else []) + PromoteOver(n, Cache in fs);
            if Blocked(fs) then Exec(fs, cs, b) == fs
            else EndsWell(fs, cs, b, n) && (Blocked(Exec(fs, cs, b)) <==> if Cache in fs then 2 <= b <= 5 else 1 <= b)
  {
    if Cache in fs {
      EndFromCacheAside(fs, n, b);
    } else {
      assert [] + PromoteOver(n, false) == PromoteOver(n, false);
      EndFromPromoteCache(fs, n, false, b);
    }
  }

  /** What a re-bless does once the new pair is staged, if no leftovers are in the way. */
  function ReblessRest(fs: Files, n: nat): seq<Command> {
    (if Cache in fs then [Rename(Cache, CacheOld)] else []) + PromoteOver(n, Cache in fs)
  }

  /** A re-bless that stages everything, by what follows. */
  lemma {:induction false} ReblessAfterStaging(fs: Files, n: nat, b: nat)
    requires Inv(fs) && Before(fs, n) && HasManifest(fs) && CacheNew !in fs && ManifestNew !in fs
    ensures var cs, staged := ReblessRest(fs, n), Staged(fs, n);
            var fs' := Exec(staged, cs, b);
            && Fine(fs, fs', n)
            && if Blocked(fs) then fs' == staged
               else
                 && EndsWell(staged, cs, b, n)
                 && (Blocked(fs') <==> if Cache in fs then 2 <= b <= 5 else 1 <= b)
  {
    var staged := Staged(fs, n);
    StagedIsFine(fs, n);
    ReblessFromStaged(staged, n, b);
    KeptTwice(fs, staged, Exec(staged, ReblessRest(fs, n), b));
  }

  /** accept() for a re-bless, cut anywhere.  One that does not go through leaves everything promoted alone;
      one that does ends blocked exactly when it is cut between promoting the new cache and archiving
      the old one, or when the old cache was set aside by an earlier run, as it is not archived then. */
  lemma {:induction false} ReblessIsFine(fs: Files, n: nat, b: nat)
    requires Inv(fs) && Before(fs, n) && Is(fs, Staging, n) && fs[Staging].Dir? && HasManifest(fs)
    ensures var cs := AcceptPlan(fs, n, true);
            var fs' := Exec(fs, cs, b);
            && Fine(fs, fs', n)
            && (IsTorn(fs') <==> GoesThrough(fs) && b == |cs| - 1)
            && (GoesThrough(fs) && b >= |cs| ==> Installed(fs', n, true))
            && (!GoesThrough(fs) ==> SamePlaces(fs, fs'))
            && (Manifest in fs' || Blocked(fs'))
            && (GoesThrough(fs) ==> (Blocked(fs') <==> if Cache in fs then 5 <= b <= 8 else 4 <= b))
  {
    if !Refuses(fs, true) {
      var rest := ReblessRest(fs, n);
      assert AcceptPlan(fs, n, true) == StageAll(n) + rest;
      StageThen(fs, n, rest, b);
      if b >= 3 {
        ReblessAfterStaging(fs, n, b - 3);
      } else {
        SamePlacesAre(fs, Exec(fs, StageAll(n) + rest, b));
      }
    }
  }

  lemma {:induction false} FirstAcceptIsFine(fs: Files, n: nat, b: nat)
    requires Inv(fs) && Before(fs, n) && Is(fs, Staging, n) && fs[Staging].Dir?
    ensures var fs' := Exec(fs, AcceptPlan(fs, n, false), b);
            && Fine(fs, fs', n) && (IsTorn(fs') <==> IsTorn(fs))
            && (Refuses(fs, false) ==> fs' == fs)
            && (!Refuses(fs, false) && b >= 5 ==> Installed(fs', n, false))
            && (!Refuses(fs, false) ==> (Blocked(fs') <==> CacheOld in fs && b >= 4))
            && (!Refuses(fs, false) ==> (Cache in fs' <==> b >= 4) && (Manifest in fs' <==> b >= 5))
  {
    if !Refuses(fs, false) {
      StageThen(fs, n, PromoteFirst(), b);
      if b >= 3 {
        var staged := Staged(fs, n);
        StagedIsFine(fs, n);
        FirstBlessIsFine(staged, n, b - 3);
        KeptTwice(fs, staged, Exec(staged, PromoteFirst(), b - 3));
      } else {
        SamePlacesAre(fs, Exec(fs, StageAll(n) + PromoteFirst(), b));
      }
    }
  }

  /** A run that rejects: it gets past the test for an existing cache and its trials fail. */
  predicate Rejects(fs: Files, e: Event) {
    e.Run? && !e.passed && (e.rebless || Cache !in fs)
  }

  /** The staged cache of a rejected run ends up as the run's evidence and nothing else changes; cut before
      the rename, or if the evidence path is taken, the cache stays where it was staged. */
  lemma {:induction false} RejectIsExact(fs: Files, n: nat, e: Event)
    requires Rejects(fs, e)
    ensures After(fs, n, e) ==
            if e.budget > 0 && Evidence(n) !in fs then (fs - {Staging})[Evidence(n) := Dir(n)]
            else fs[Staging := Dir(n)]
  {
    var staged, c := fs[Staging := Dir(n)], Rename(Staging, Evidence(n));
    assert [c] + [] == [c];
    ExecStep(staged, c, [], e.budget);
    assert staged - {Staging} == fs - {Staging};
  }

  lemma {:induction false} RejectIsFine(fs: Files, n: nat, e: Event)
    requires Inv(fs) && Before(fs, n) && Rejects(fs, e)
    ensures Fine(fs, After(fs, n, e), n) && SamePlaces(fs, After(fs, n, e))
  {
    RejectIsExact(fs, n, e);
    OutsideKeeps(fs, After(fs, n, e));
  }

  /** The run cut between truncating the installed manifest and writing it again. */
  ghost predicate CutsWhilePatching(fs: Files, n: nat, e: Event) {
    && e.Run? && e.rebless && e.passed && GoesThrough(fs)
    && e.budget == |AcceptPlan(fs[Staging := Dir(n)], n, true)| - 1
  }

  /** The run that leaves a cache set aside beside a new one: a re-bless cut after promoting the new cache
      and before archiving the one it set aside, or one that promotes its cache beside one that an
      earlier run set aside. */
  ghost predicate Strands(fs: Files, e: Event) {
    && e.Run? && e.rebless && e.passed && GoesThrough(fs)
    && if Cache in fs then 5 <= e.budget <= 8 else 4 <= e.budget
  }

  lemma {:induction false} RunIsFine(fs: Files, n: nat, e: Event)
    requires Inv(fs) && Before(fs, n) && e.Run? && (e.rebless || Cache !in fs)
    ensures Fine(fs, After(fs, n, e), n)
    ensures IsTorn(After(fs, n, e)) <==> IsTorn(fs) || CutsWhilePatching(fs, n, e)
    ensures Blocked(After(fs, n, e)) <==> Blocked(fs) || Strands(fs, e)
    ensures Blocked(fs) ==> SamePlaces(fs, After(fs, n, e))
  {
    if !e.passed {
      RejectIsFine(fs, n, e);
      SamePlacesAre(fs, After(fs, n, e));
      return;
    }
    var staged, b := fs[Staging := Dir(n)], e.budget;
    StagingIsOutside(fs, Staging, Dir(n));
    if e.rebless && HasManifest(fs) {
      ReblessIsFine(staged, n, b);
      if !GoesThrough(staged) {
        SamePlacesAre(staged, After(fs, n, e));
      }
    } else {
      FirstAcceptIsFine(staged, n, b);
    }
    KeptTwice(fs, staged, After(fs, n, e));
  }

  /** Whatever happens: order is kept and nothing in place is lost.  The manifest becomes torn exactly when
      a run is cut while patching it.  A blocked config stays as it is, and becomes blocked exactly when
      a run strands a cache. */
  lemma {:induction false} EventIsFine(fs: Files, n: nat, e: Event)
    requires Inv(fs) && Before(fs, n)
    ensures Fine(fs, After(fs, n, e), n)
    ensures IsTorn(After(fs, n, e)) <==> IsTorn(fs) || CutsWhilePatching(fs, n, e)
    ensures Blocked(After(fs, n, e)) <==> Blocked(fs) || Strands(fs, e)
    ensures Blocked(fs) ==> SamePlaces(fs, After(fs, n, e))
  {
    match e
    case RemoveCacheNew => RemovalIsOutside(fs, CacheNew);
    case RemoveManifestNew => RemovalIsOutside(fs, ManifestNew);
    case Run(rebless, passed, b) =>
      if rebless || Cache !in fs {
        RunIsFine(fs, n, e);
      }
  }

  // ----- Any sequence of runs -----

  /** The files, the number of the next run, and every cache and manifest ever promoted. */
  datatype World = World(fs: Files, next: nat, caches: set<nat>, manifests: set<nat>)

  function Canonical(fs: Files, p: Path): set<nat> {
    if p in fs then {fs[p].id} else {}
  }

  /** As a run can be cut after any command, whatever is promoted is seen after some event. */
  function Next(w: World, e: Event): World {
    var fs := After(w.fs, w.next, e);
    World(fs, w.next + 1, w.caches + Canonical(fs, Cache), w.manifests + Canonical(fs, Manifest))
  }

  function Final(w: World, es: seq<Event>): World
    decreases |es|
  {
    if es == [] then w else Final(Next(w, es[0]), es[1..])
  }

  /** Some event cuts a run while it patches the manifest. */
  ghost predicate SomeCutWhilePatching(w: World, es: seq<Event>)
    decreases |es|
  {
    es != [] && (CutsWhilePatching(w.fs, w.next, es[0]) || SomeCutWhilePatching(Next(w, es[0]), es[1..]))
  }

  ghost predicate WorldOk(w: World) {
    && Inv(w.fs) && Before(w.fs, w.next)
    && (forall c :: c in w.caches ==> Held(w.fs, Caches, c))
    && (forall m :: m in w.manifests ==> Held(w.fs, Manifests, m))
  }

  lemma {:induction false} NextIsOk(w: World, e: Event)
    requires WorldOk(w)
    ensures WorldOk(Next(w, e)) && (IsTorn(Next(w, e).fs) <==> IsTorn(w.fs) || CutsWhilePatching(w.fs, w.next, e))
  {
    EventIsFine(w.fs, w.next, e);
    var w' := Next(w, e);
    forall c | c in w'.caches ensures Held(w'.fs, Caches, c) {
      if c !in w.caches {
        assert Holds(w'.fs, Caches, Cache, c);
      }
    }
    forall m | m in w'.manifests ensures Held(w'.fs, Manifests, m) {
      if m !in w.manifests {
        assert Holds(w'.fs, Manifests, Manifest, m);
      }
    }
  }

  lemma {:induction false} FinalIsOk(w: World, es: seq<Event>)
    requires WorldOk(w)
    ensures WorldOk(Final(w, es)) && (IsTorn(Final(w, es).fs) <==> IsTorn(w.fs) || SomeCutWhilePatching(w, es))
    decreases |es|
  {
    if es != [] {
      NextIsOk(w, es[0]);
      FinalIsOk(Next(w, es[0]), es[1..]);
    }
  }

  /** Exactly one place of its kind holds the artifact, whole. */
  ghost predicate SurvivesWhole(fs: Files, k: Kind, id: nat) {
    exists p :: Holds(fs, k, p, id) && !fs[p].Torn? && forall q :: Holds(fs, k, q, id) ==> q == p
  }

  ghost predicate Start(w: World) {
    || w == World(map[], 0, {}, {})
    || exists patched :: w == World(map[Cache := Dir(0), Manifest := Text(0, patched)], 1, {0}, {0})
  }

  /** From an empty store or one manifest with its cache, after any sequence of runs, each cut off
      after any command, and of clean-ups by an operator: every cache ever promoted survives whole in
      exactly one place, and so does every manifest ever promoted, unless a run was cut while it
      rewrote the installed manifest; then exactly that manifest is torn. */
  lemma {:induction false} NothingPromotedIsLost(w: World, es: seq<Event>, k: Kind, id: nat)
    requires Start(w) && id in (if k == Caches then Final(w, es).caches else Final(w, es).manifests)
    ensures SurvivesWhole(Final(w, es).fs, k, id) <==>
            !(k == Manifests && SomeCutWhilePatching(w, es) && Is(Final(w, es).fs, Manifest, id))
    ensures !SurvivesWhole(Final(w, es).fs, k, id) ==> Final(w, es).fs[Manifest] == Torn(id)
  {
    StartIsOk(w);
    FinalIsOk(w, es);
    var fs := Final(w, es).fs;
    var p :| Holds(fs, k, p, id);
    assert forall q :: Holds(fs, k, q, id) ==> q == p;
    if k == Manifests && IsTorn(fs) && Is(fs, Manifest, id) {
      assert Holds(fs, Manifests, Manifest, id);
    }
  }

  lemma {:induction false} FinalOfMore(w: World, before: seq<Event>, later: seq<Event>)
    ensures Final(w, before + later) == Final(Final(w, before), later)
    decreases |before|
  {
    if before == [] {
      assert before + later == later;
    } else {
      assert (before + later)[1..] == before[1..] + later;
      FinalOfMore(Next(w, before[0]), before[1..], later);
    }
  }

  /** The two sets of a world hold whatever is or was in the canonical places. */
  lemma {:induction false} RecordsGrow(w: World, es: seq<Event>)
    requires Canonical(w.fs, Cache) <= w.caches && Canonical(w.fs, Manifest) <= w.manifests
    ensures var w' := Final(w, es);
            && w.caches + Canonical(w'.fs, Cache) <= w'.caches
            && w.manifests + Canonical(w'.fs, Manifest) <= w'.manifests
    decreases |es|
  {
    if es != [] {
      RecordsGrow(Next(w, es[0]), es[1..]);
    }
  }

  /** In other words: whatever is in a canonical place after some events survives whatever comes later. */
  lemma {:induction false} PromotedSurvives(w: World, before: seq<Event>, later: seq<Event>, k: Kind, id: nat)
    requires Start(w) && Is(Final(w, before).fs, if k == Caches then Cache else Manifest, id)
    ensures var fs := Final(Final(w, before), later).fs;
            SurvivesWhole(fs, k, id) <==>
            !(k == Manifests && SomeCutWhilePatching(w, before + later) && Is(fs, Manifest, id))
  {
    RecordsGrow(w, before);
    RecordsGrow(Final(w, before), later);
    FinalOfMore(w, before, later);
    NothingPromotedIsLost(w, before + later, k, id);
  }

  /** At every such point the cache of the active manifest is in place or one rename away, a manifest
      set aside has its own cache set aside, and archived pairs belong together. */
  lemma {:induction false} ActiveIsRecoverable(w: World, es: seq<Event>)
    requires Start(w)
    ensures var fs := Final(w, es).fs; ActiveHasCache(fs) && OldHasCache(fs) && ArchivePairs(fs)
  {
    StartIsOk(w);
    FinalIsOk(w, es);
  }

  lemma {:induction false} StartIsOk(w: World)
    requires Start(w)
    ensures WorldOk(w) && !IsTorn(w.fs)
  {
    assert 0 in w.caches ==> Holds(w.fs, Caches, Cache, 0);
    assert 0 in w.manifests ==> Holds(w.fs, Manifests, Manifest, 0);
  }
}
