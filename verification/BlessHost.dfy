/** accept() and its callers as they act on the file system, command by command.  The machine stops
    for good when the budget of commands is used up; a failing command raises and ends the run.  */
module BlessHost {
  import opened BlessFiles
  import opened BlessProtocol
  import opened BlessEvidence

  lemma {:induction false} ExecAll(fs: Files, c: Command, b: nat)
    ensures forall rest :: (b == 0 || !Succeeds(fs, c)) ==> Exec(fs, [c] + rest, b) == fs
    ensures forall rest :: (b > 0 && Succeeds(fs, c)) ==> Exec(fs, [c] + rest, b) == Exec(Done(fs, c), rest, b - 1)
  {
    forall rest: seq<Command> ensures ([c] + rest)[1..] == rest {
    }
  }

  class Host {
    var fs: Files
    var budget: nat

    /** One command.  `ok` means that the run goes on. */
    method Perform(c: Command) returns (ok: bool)
      modifies this
      ensures ok ==> Succeeds(old(fs), c) && fs == Done(old(fs), c)
      ensures ok ==> forall rest :: Exec(old(fs), [c] + rest, old(budget)) == Exec(fs, rest, budget)
      ensures !ok ==> fs == old(fs) && forall rest :: Exec(old(fs), [c] + rest, old(budget)) == fs
    {
      ExecAll(fs, c, budget);
      ok := budget > 0 && Succeeds(fs, c);
      if ok {
        fs, budget := Done(fs, c), budget - 1;
      }
    }

    /** Opening for writing truncates; closing completes the text. */
    method WriteText(path: Path, id: nat, patched: bool) returns (ok: bool)
      modifies this
      ensures ok ==> fs == old(fs)[path := Text(id, patched)]
      ensures ok ==> forall rest ::
                Exec(old(fs), [Truncate(path, id)] + ([Fill(path, id, patched)] + rest), old(budget))
                == Exec(fs, rest, budget)
      ensures !ok ==> forall rest ::
                Exec(old(fs), [Truncate(path, id)] + ([Fill(path, id, patched)] + rest), old(budget)) == fs
    {
      ok := Perform(Truncate(path, id));
      if ok {
        ok := Perform(Fill(path, id, patched));
      }
    }

    method ArchiveOldFiles(n: nat, movedCache: bool)
      requires ManifestOld in fs && (movedCache ==> CacheOld in fs)
      modifies this
      ensures fs == Exec(old(fs), ArchiveOld(n, movedCache), old(budget))
    {
      var patch := [Truncate(Manifest, n)] + ([Fill(Manifest, n, true)] + []);
      assert PatchManifest(n) == patch;
      ghost var moves := [Rename(ManifestOld, ManifestArchive(n)), Rename(CacheOld, CacheArchive(n))];
      assert movedCache ==> ArchiveOld(n, true) == [moves[0]] + ([moves[1]] + patch);
      assert !movedCache ==> ArchiveOld(n, false) == [Rename(ManifestOld, ManifestArchive(n))] + patch;
      var ok := Perform(Rename(ManifestOld, ManifestArchive(n)));
      if !ok {
        return;
      }
      if movedCache && CacheOld in fs {
        ok := Perform(Rename(CacheOld, CacheArchive(n)));
        if !ok {
          return;
        }
      }
      ok := WriteText(Manifest, n, true);
    }

    method PromoteOverOld(n: nat, movedCache: bool)
      requires movedCache ==> CacheOld in fs
      modifies this
      ensures fs == Exec(old(fs), PromoteOver(n, movedCache), old(budget))
    {
      PromoteOverUnfolds(n, movedCache);
      var ok := Perform(Rename(CacheNew, Cache));
      if ok {
        ok := Perform(Rename(Manifest, ManifestOld));
      }
      if ok {
        ok := Perform(Rename(ManifestNew, Manifest));
      }
      if ok {
        ArchiveOldFiles(n, movedCache);
      }
    }

    method PromoteFirstTime()
      modifies this
      ensures fs == Exec(old(fs), PromoteFirst(), old(budget))
    {
      assert PromoteFirst() == [Rename(CacheNew, Cache)] + ([Rename(ManifestNew, Manifest)] + []);
      var ok := Perform(Rename(CacheNew, Cache));
      if ok {
        ok := Perform(Rename(ManifestNew, Manifest));
      }
    }

    /** Phase 3 of a run whose trials all passed. */
    method Accept(n: nat, isRebless: bool)
      modifies this
      ensures fs == Exec(old(fs), AcceptPlan(old(fs), n, isRebless), old(budget))
    {
      if CacheNew in fs || ManifestNew in fs || (!isRebless && Cache in fs) || (!isRebless && Manifest in fs) {
        return;
      }
      ghost var aside := if Cache in fs then [Rename(Cache, CacheOld)] else [];
      ghost var rest := if isRebless then aside + PromoteOver(n, Cache in fs) else PromoteFirst();
      assert AcceptPlan(fs, n, isRebless) ==
             [Rename(Staging, CacheNew)] + ([Truncate(ManifestNew, n)] + ([Fill(ManifestNew, n, false)] + rest));
      var ok := Perform(Rename(Staging, CacheNew));
      if ok {
        ok := WriteText(ManifestNew, n, false);
      }
      if !ok {
        return;
      }
      if !isRebless {
        PromoteFirstTime();
      } else if Cache in fs {
        ok := Perform(Rename(Cache, CacheOld));
        if ok {
          PromoteOverOld(n, true);
        }
      } else {
        assert rest == PromoteOver(n, false);
        PromoteOverOld(n, false);
      }
    }

    /** A whole run: decide whether this is a re-bless, stage, validate, then accept or reject.  The
        outcome of the trials is an input; the directories of earlier runs are what `Inv` describes. */
    method Bless(n: nat, rebless: bool, passed: bool)
      requires Inv(fs) && Before(fs, n)
      modifies this
      ensures fs == After(old(fs), n, Run(rebless, passed, old(budget)))
      ensures Fine(old(fs), fs, n)
      // a rejected run keeps its staged cache as evidence; evidence of earlier runs stays
      ensures !passed && (rebless || Cache !in old(fs)) && old(budget) > 0 && Evidence(n) !in old(fs) ==>
                fs == (old(fs) - {Staging})[Evidence(n) := Dir(n)]
      ensures forall r :: Evidence(r) in old(fs) ==> Evidence(r) in fs && fs[Evidence(r)] == old(fs)[Evidence(r)]
    {
      ghost var e := Run(rebless, passed, budget);
      EventIsFine(fs, n, e);
      if Rejects(fs, e) {
        RejectIsExact(fs, n, e);
      }
      forall r | Evidence(r) in fs
        ensures Evidence(r) in After(fs, n, e) && After(fs, n, e)[Evidence(r)] == fs[Evidence(r)]
      {
        EvidenceAfter(fs, n, e, r);
      }
      if Cache in fs && !rebless {
        return;
      }
      var previousManifest := rebless && HasManifest(fs);
      fs := fs[Staging := Dir(n)];
      if passed {
        Accept(n, previousManifest);
      } else {
        assert [Rename(Staging, Evidence(n))] == [Rename(Staging, Evidence(n))] + [];
        var _ := Perform(Rename(Staging, Evidence(n)));
      }
    }
  }
}
