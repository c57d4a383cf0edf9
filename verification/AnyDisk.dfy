/** What a run of `mutate` does on any disk at all, whatever lies in the way: it removes nothing, turns no file into a
    directory and no directory into a file, and lists a mutant only if its file has been written. */
module AnyDisk {
  import opened Options
  import opened Sequences
  import opened SortedNames
  import opened FileSystem
  import opened CopyRules
  import opened TreeCopy
  import opened CopyUtils
  import opened Backup
  import opened CopyOutcome
  import opened GoAst
  import opened Mutators
  import opened MutateRun
  import Protocol

  // ----- one mutant -----

  lemma ProjectCopyKeeps(cfg: Config, fs: FS, dir: Path)
    requires CopiesProject(cfg)
    ensures KindsKept(fs, cfg.copy(fs, dir))
  {
    var outcome := CopyKeepsKinds(cfg.depth, cfg.overwrite, fs, cfg.root, dir, cfg.folder);
    assert cfg.copy(fs, dir) == CopyProject(cfg, fs, dir);
  }

  /** The file of the entry is there. */
  predicate IsThere(fs: FS, info: MutantInfo) {
    IsFile(fs, info.mutationFile)
  }

  ghost predicate AllThere(fs: FS, infos: seq<MutantInfo>) {
    forall info | info in infos :: IsThere(fs, info)
  }

  /** Saving writes the file and lists the mutant, or does neither: it does both if and only if the tree can be rendered
      and the file can be written. */
  lemma SavedIff(cfg: Config, before: Progress, dir: Path, ast: Ast)
    requires cfg.parts != []
    ensures var after, file := Save(cfg, before, dir, ast), FileIn(cfg, dir);
            if cfg.render(ast).Some? && IsDir(before.fs, Parent(file)) && !IsDir(before.fs, file)
            then
              && after.infos == before.infos + [MutantInfo(cfg.file, dir, file)]
              && Get(after.fs, file) == Some(File(cfg.render(ast).value))
              && forall p | p != file :: Get(after.fs, p) == Get(before.fs, p)
            else after == before
  {
  }

  lemma SaveKeeps(cfg: Config, before: Progress, dir: Path, ast: Ast)
    requires AllThere(before.fs, before.infos)
    ensures KindsKept(before.fs, Save(cfg, before, dir, ast).fs)
    ensures AllThere(Save(cfg, before, dir, ast).fs, Save(cfg, before, dir, ast).infos)
  {
  }

  lemma AllThereStays(fs: FS, after: FS, infos: seq<MutantInfo>)
    requires AllThere(fs, infos) && KindsKept(fs, after)
    ensures AllThere(after, infos)
  {
    forall info | info in infos
      ensures IsThere(after, info)
    {
      assert IsThere(fs, info);
    }
  }

  lemma ProduceKeeps(cfg: Config, before: Progress, op: Operator, id: nat, mutated: Ast)
    requires CopiesProject(cfg) && AllThere(before.fs, before.infos)
    ensures KindsKept(before.fs, Produce(cfg, before, op, id, mutated).fs)
    ensures AllThere(Produce(cfg, before, op, id, mutated).fs, Produce(cfg, before, op, id, mutated).infos)
  {
    var dir := DirOf(cfg, op, id);
    var copied := Progress(cfg.copy(before.fs, dir), before.infos);
    ProjectCopyKeeps(cfg, before.fs, dir);
    AllThereStays(before.fs, copied.fs, before.infos);
    SaveKeeps(cfg, copied, dir, mutated);
    KeptThrough(before.fs, copied.fs, Produce(cfg, before, op, id, mutated).fs);
  }

  // ----- the whole run -----

  lemma {:induction false} SitesKeep(cfg: Config, ast: Ast, start: Progress, op: Operator, n: nat)
    returns (after: Progress)
    requires ValidRun(cfg, ast) && CopiesProject(cfg) && n <= |Sites(cfg, ast, op)|
    requires AllThere(start.fs, start.infos)
    ensures after == AfterSites(cfg, ast, start, op, n)
    ensures KindsKept(start.fs, after.fs) && AllThere(after.fs, after.infos)
    decreases n
  {
    after := start;
    if n > 0 {
      var before := SitesKeep(cfg, ast, start, op, n - 1);
      var tree := MutantTree(cfg, ast, op, n - 1);
      ProduceKeeps(cfg, before, op, n - 1, tree);
      after := Produce(cfg, before, op, n - 1, tree);
      KeptThrough(start.fs, before.fs, after.fs);
    }
  }

  lemma {:induction false} OpsKeep(cfg: Config, ast: Ast, start: Progress, k: nat) returns (after: Progress)
    requires ValidRun(cfg, ast) && CopiesProject(cfg) && k <= |cfg.operators| && AllThere(start.fs, start.infos)
    ensures after == AfterOps(cfg, ast, start, k)
    ensures KindsKept(start.fs, after.fs) && AllThere(after.fs, after.infos)
    decreases k
  {
    after := start;
    if k > 0 {
      var before := OpsKeep(cfg, ast, start, k - 1);
      var op := cfg.operators[k - 1];
      after := SitesKeep(cfg, ast, before, op, |Sites(cfg, ast, op)|);
      KeptThrough(start.fs, before.fs, after.fs);
    }
  }

  /** On every disk and in every finished interleaving: nothing disappears or changes its kind, and every mutant that is
      listed has its file. */
  lemma ListedAreThere(cfg: Config, ast: Ast, start: FS, run: seq<Protocol.State>)
    requires ValidRun(cfg, ast) && CopiesProject(cfg)
    requires Protocol.IsRun(cfg, ast, Progress(start, []), run) && run[|run| - 1].driver == Protocol.Finished
    ensures var end := run[|run| - 1].progress;
            KindsKept(start, end.fs) && AllThere(end.fs, end.infos)
  {
    Protocol.FinishedRun(cfg, ast, Progress(start, []), run);
    var end := OpsKeep(cfg, ast, Progress(start, []), |cfg.operators|);
  }

  // ----- a copy that fails -----

  /** Everything that the first `i` names stand for has been copied. */
  ghost predicate CopiedUpTo(folder: string, listed: FS, at: FS, src: Path, dst: Path, names: seq<string>, i: nat)
    requires i <= |names|
  {
    KindsKept(listed, at)
    && forall rel | rel != [] && rel[0] in names[..i] && KeptDown(folder, listed, src, rel) ::
         CopiedKind(listed, at, src, dst, rel)
  }

  /** The loop over the names stopped with an error at number `i`, from the state `at`. */
  ghost predicate Stopped(fuel: nat, overwrite: bool, listed: FS, at: FS, src: Path, dst: Path, folder: string,
                          names: seq<string>, i: nat, after: FS) {
    && i < |names| && CopiedUpTo(folder, listed, at, src, dst, names, i)
    && CopyEntry(fuel, overwrite, listed, at, src, dst, folder, names[i]) == Failed(after)
  }

  lemma {:induction false} StoppedAt(fuel: nat, overwrite: bool, listed: FS, now: FS, src: Path, dst: Path,
                                     folder: string, names: seq<string>, after: FS) returns (at: FS, i: nat)
    requires KindsKept(listed, now)
    requires CopyEntries(fuel, overwrite, listed, now, src, dst, folder, names) == Failed(after)
    ensures KindsKept(now, at) && Stopped(fuel, overwrite, listed, at, src, dst, folder, names, i, after)
    decreases |names|
  {
    var first := EntryKeepsKinds(fuel, overwrite, listed, now, src, dst, folder, names[0]);
    at, i := now, 0;
    if first.Done? {
      KeptThrough(listed, now, first.fs);
      var later, j := StoppedAt(fuel, overwrite, listed, first.fs, src, dst, folder, names[1..], after);
      at, i := later, j + 1;
      KeptThrough(now, first.fs, at);
      OneMoreCopied(fuel, overwrite, listed, now, src, dst, folder, names, j, first.fs, at);
    }
  }

  lemma OneMoreCopied(fuel: nat, overwrite: bool, listed: FS, now: FS, src: Path, dst: Path, folder: string,
                      names: seq<string>, j: nat, next: FS, at: FS)
    requires names != [] && j < |names| - 1 && KindsKept(listed, now) && KindsKept(next, at)
    requires CopyEntry(fuel, overwrite, listed, now, src, dst, folder, names[0]) == Done(next)
    requires CopiedUpTo(folder, listed, at, src, dst, names[1..], j)
    ensures CopiedUpTo(folder, listed, at, src, dst, names, j + 1)
  {
    assert names[..j + 1] == [names[0]] + names[1..][..j];
    forall rel | rel != [] && rel[0] == names[0] && KeptDown(folder, listed, src, rel)
      ensures CopiedKind(listed, at, src, dst, rel)
    {
      FirstHas(fuel, overwrite, listed, now, src, dst, folder, rel, next, at);
    }
  }

  lemma FirstHas(fuel: nat, overwrite: bool, listed: FS, now: FS, src: Path, dst: Path, folder: string, rel: Path,
                 next: FS, at: FS)
    requires KindsKept(listed, now) && rel != [] && KeptDown(folder, listed, src, rel) && KindsKept(next, at)
    requires CopyEntry(fuel, overwrite, listed, now, src, dst, folder, rel[0]) == Done(next)
    ensures CopiedKind(listed, at, src, dst, rel)
  {
    EntryHas(fuel, overwrite, listed, now, src, dst, folder, rel);
    CopiedKindStays(listed, next, at, src, dst, rel);
  }

  /** A copy that fails on its way is logged and otherwise ignored: everything up to the entry that failed has been
      copied, and stays, with whatever that entry had written before its error. */
  lemma HalfCopyStays(cfg: Config, fs: FS, dir: Path) returns (at: FS, i: nat)
    requires CopiesProject(cfg) && WellFormed(fs) && IsDir(fs, cfg.root) && (cfg.overwrite || dir !in fs)
    requires MkdirAll(fs, dir).Some?
    requires CopyRecursive(cfg.depth, cfg.overwrite, fs, cfg.root, dir, cfg.folder).Failed?
    ensures var made := MkdirAll(fs, dir).value;
            Stopped(cfg.depth, cfg.overwrite, made, at, cfg.root, dir, cfg.folder, ReadDir(made, cfg.root), i,
                    cfg.copy(fs, dir))
  {
    var made := MkdirAll(fs, dir).value;
    MkdirAllEffect(fs, dir);
    assert cfg.copy(fs, dir) == CopyProject(cfg, fs, dir);
    at, i := StoppedAt(cfg.depth, cfg.overwrite, made, made, cfg.root, dir, cfg.folder, ReadDir(made, cfg.root),
                       cfg.copy(fs, dir));
  }
}
