/** The files of one blessed config and the commands that move them: caches are directories,
    manifests are files (scripts/bless_cute_full_cache.py, accept).  Runs are numbered; run `n`
    stages cache `n` and manifest `n` and archives under its own, later, timestamp `n`.  */
module BlessFiles {

  datatype Path =
    | Staging | Evidence(run: nat)
    | Cache | CacheNew | CacheOld | CacheArchive(run: nat)
    | Manifest | ManifestNew | ManifestOld | ManifestArchive(run: nat)

  /** A file being written is torn until its text is complete. */
  datatype File = Dir(id: nat) | Text(id: nat, patched: bool) | Torn(id: nat)

  type Files = map<Path, File>

  datatype Command =
    | Rename(src: Path, dst: Path)
    | Truncate(path: Path, id: nat)
    | Fill(path: Path, id: nat, patched: bool)

  /** rename() replaces a file silently; it fails on a missing source and, as every directory here
      is non-empty, on an existing directory (POSIX.1-2017, System Interfaces, rename). */
  predicate Succeeds(fs: Files, c: Command) {
    match c
    case Rename(src, dst) => src in fs && (dst in fs ==> !fs[src].Dir? && !fs[dst].Dir?)
    case _ => c.path in fs ==> !fs[c.path].Dir?
  }

  function Done(fs: Files, c: Command): Files
    requires Succeeds(fs, c)
  {
    match c
    case Rename(src, dst) => (fs - {src})[dst := fs[src]]
    case Truncate(path, id) => fs[path := Torn(id)]
    case Fill(path, id, patched) => fs[path := Text(id, patched)]
  }

  /** Runs the commands in order until one fails or the budget is used up. */
  function Exec(fs: Files, cs: seq<Command>, budget: nat): Files
    decreases |cs|
  {
    if cs == [] || budget == 0 || !Succeeds(fs, cs[0]) then fs
    else Exec(Done(fs, cs[0]), cs[1..], budget - 1)
  }

  // ----- What a run does -----

  /** The manifest that the lookup by config hash finds; a torn file has no config hash. */
  predicate HasManifest(fs: Files) {
    Manifest in fs && fs[Manifest].Text?
  }

  /** accept() refuses before touching anything. */
  predicate Refuses(fs: Files, rebless: bool) {
    CacheNew in fs || ManifestNew in fs || (!rebless && (Cache in fs || Manifest in fs))
  }

  function StageAll(n: nat): seq<Command> {
    [Rename(Staging, CacheNew), Truncate(ManifestNew, n), Fill(ManifestNew, n, false)]
  }

  function PromoteFirst(): seq<Command> {
    [Rename(CacheNew, Cache), Rename(ManifestNew, Manifest)]
  }

  function PatchManifest(n: nat): seq<Command> {
    [Truncate(Manifest, n), Fill(Manifest, n, true)]
  }

  /** After the new manifest is in place; the old cache is archived only if this run moved it aside. */
  function ArchiveOld(n: nat, movedCache: bool): seq<Command> {
    [Rename(ManifestOld, ManifestArchive(n))]
    + (if movedCache then [Rename(CacheOld, CacheArchive(n))] else []) + PatchManifest(n)
  }

  function PromoteOver(n: nat, movedCache: bool): seq<Command> {
    [Rename(CacheNew, Cache), Rename(Manifest, ManifestOld), Rename(ManifestNew, Manifest)] + ArchiveOld(n, movedCache)
  }

  /** The commands of accept() for run `n`. */
  function AcceptPlan(fs: Files, n: nat, rebless: bool): seq<Command> {
    if Refuses(fs, rebless) then []
    else if !rebless then StageAll(n) + PromoteFirst()
    else StageAll(n) + (if Cache in fs then [Rename(Cache, CacheOld)] else []) + PromoteOver(n, Cache in fs)
  }

  /** What happens to the files: runs of the script, each cut off after `budget` commands, and an
      operator who removes leftovers of an interrupted run as the error message asks for. */
  datatype Event =
    | Run(rebless: bool, passed: bool, budget: nat)
    | RemoveCacheNew
    | RemoveManifestNew

  function After(fs: Files, n: nat, e: Event): Files {
    match e
    case RemoveCacheNew => fs - {CacheNew}
    case RemoveManifestNew => fs - {ManifestNew}
    case Run(rebless, passed, budget) =>
      if Cache in fs && !rebless then fs
      else
        var staged := fs[Staging := Dir(n)];
        if passed then Exec(staged, AcceptPlan(staged, n, rebless && HasManifest(fs)), budget)
        else Exec(staged, [Rename(Staging, Evidence(n))], budget)
  }
}
