/** Running `mutate` a second time over the same file: without `overwrite` every copy is refused, with it every mutant
    is copied and mutated again; either way the disk and the returned list are those of the first run. */
module Rerun {
  import opened Options
  import opened Sequences
  import opened FileSystem
  import opened Text
  import opened CopyRules
  import opened TreeCopy
  import opened CopyUtils
  import opened GoAst
  import opened Mutators
  import opened MutateRun
  import opened ProjectRun
  import Protocol

  /** A disk with all the mutants of the file, and the project as at the start. */
  ghost predicate Settled(cfg: Config, ast: Ast, ps: seq<string>, parts: seq<string>, start: FS, fs: FS) {
    && Prepared(cfg, ast, ps, parts, start)
    && WellFormed(fs) && IsDir(fs, cfg.root) && SameProject(start, fs, cfg.root, ps)
    && forall j: nat, n: nat | IsSite(cfg, ast, j, n) ::
         HoldsMutant(cfg, ast, start, parts, cfg.operators[j], n, fs)
  }

  lemma FirstRunSettles(cfg: Config, ast: Ast, ps: seq<string>, parts: seq<string>, start: FS) returns (end: Progress)
    requires Prepared(cfg, ast, ps, parts, start)
    ensures end == AfterOps(cfg, ast, Progress(start, []), |cfg.operators|)
    ensures Settled(cfg, ast, ps, parts, start, end.fs) && end.infos == ListedOps(cfg, ast, |cfg.operators|)
  {
    end := OpsRun(cfg, ast, ps, parts, start, |cfg.operators|);
    RootStays(cfg, ast, ps, parts, start, |cfg.operators|, 0, end.fs);
    forall j: nat, n: nat | IsSite(cfg, ast, j, n)
      ensures HoldsMutant(cfg, ast, start, parts, cfg.operators[j], n, end.fs)
    {
      assert ProjectRun.Done(cfg, ast, |cfg.operators|, 0, j, n);
    }
  }

  // ----- the copy, refused or repeated -----

  /** Two disks that differ at most in the mutated file of one mutant, which in the second is the original. */
  ghost predicate OriginalBack(cfg: Config, parts: seq<string>, dir: Path, fs: FS, copied: FS) {
    && Get(copied, dir + parts) == Get(fs, cfg.root + parts)
    && forall p | p != dir + parts :: Get(copied, p) == Get(fs, p)
  }

  /** The mutant as a place to copy to: it is there, and nothing in it is of another kind than in the project. */
  lemma CopyAgainFits(cfg: Config, ast: Ast, ps: seq<string>, parts: seq<string>, start: FS, fs: FS, i: nat, k: nat)
    requires Settled(cfg, ast, ps, parts, start, fs) && IsSite(cfg, ast, i, k)
    ensures var dir := DirOf(cfg, cfg.operators[i], k);
            && dir in fs && Ready(true, fs, fs, cfg.root, dir, cfg.folder)
            && cfg.depth >= Work(cfg.folder, fs, cfg.root)
  {
    var op := cfg.operators[i];
    var dir := DirOf(cfg, op, k);
    NextDirSeparate(cfg, ps, parts, op, k);
    ProjectUnchanged(start, fs, cfg.root, ps);
    DirThere(cfg, ast, ps, parts, start, fs, i, k);
    PathFree(fs, dir);
    forall rel | Kept(CopyRule(cfg.folder), fs, cfg.root, rel) && dir + rel in fs
      ensures fs[dir + rel].Dir? == fs[cfg.root + rel].Dir?
    {
      EntryKind(cfg, ast, ps, parts, start, fs, i, k, rel);
    }
  }

  lemma DirThere(cfg: Config, ast: Ast, ps: seq<string>, parts: seq<string>, start: FS, fs: FS, i: nat, k: nat)
    requires Settled(cfg, ast, ps, parts, start, fs) && IsSite(cfg, ast, i, k)
    ensures IsDir(fs, DirOf(cfg, cfg.operators[i], k))
  {
    var op := cfg.operators[i];
    var dir := DirOf(cfg, op, k);
    assert dir + [] == dir && cfg.root + [] == cfg.root;
    assert HoldsMutant(cfg, ast, start, parts, op, k, fs);
    assert Get(fs, dir + []) == MutantEntry(cfg, ast, start, parts, op, k, []);
  }

  lemma PathFree(fs: FS, dir: Path)
    requires WellFormed(fs) && IsDir(fs, dir)
    ensures FreeOfFiles(fs, dir) && MkdirAll(fs, dir) == Some(fs)
  {
    MkdirAllEffect(fs, dir);
  }

  lemma EntryKind(cfg: Config, ast: Ast, ps: seq<string>, parts: seq<string>, start: FS, fs: FS, i: nat, k: nat,
                  rel: Path)
    requires Settled(cfg, ast, ps, parts, start, fs) && IsSite(cfg, ast, i, k)
    requires Kept(CopyRule(cfg.folder), fs, cfg.root, rel)
    ensures var dir := DirOf(cfg, cfg.operators[i], k);
            && dir + rel in fs && cfg.root + rel in fs && fs[dir + rel].Dir? == fs[cfg.root + rel].Dir?
            && (rel != parts ==> fs[dir + rel] == fs[cfg.root + rel])
  {
    var op := cfg.operators[i];
    KeptOutsideFolder(start, fs, cfg.root, ps, rel);
    assert HoldsMutant(cfg, ast, start, parts, op, k, fs);
    assert Get(fs, DirOf(cfg, op, k) + rel) == MutantEntry(cfg, ast, start, parts, op, k, rel);
  }

  lemma CopiedAgain(cfg: Config, ast: Ast, ps: seq<string>, parts: seq<string>, start: FS, fs: FS, i: nat, k: nat)
    returns (copied: FS)
    requires Settled(cfg, ast, ps, parts, start, fs) && IsSite(cfg, ast, i, k)
    ensures var dir := DirOf(cfg, cfg.operators[i], k);
            && copied == cfg.copy(fs, dir)
            && if cfg.overwrite then WellFormed(copied) && OriginalBack(cfg, parts, dir, fs, copied) else copied == fs
  {
    var dir := DirOf(cfg, cfg.operators[i], k);
    CopyAgainFits(cfg, ast, ps, parts, start, fs, i, k);
    assert cfg.copy(fs, dir) == CopyProject(cfg, fs, dir);
    if cfg.overwrite {
      var outcome := RecursiveCopied(cfg.depth, true, fs, fs, cfg.root, dir, cfg.folder);
      copied := outcome.fs;
      CopyIsOriginal(cfg, ast, ps, parts, start, fs, i, k, copied);
    } else {
      copied := fs;
    }
  }

  lemma CopyIsOriginal(cfg: Config, ast: Ast, ps: seq<string>, parts: seq<string>, start: FS, fs: FS, i: nat, k: nat,
                       copied: FS)
    requires Settled(cfg, ast, ps, parts, start, fs) && IsSite(cfg, ast, i, k)
    requires IsCopy(CopyRule(cfg.folder), fs, cfg.root, DirOf(cfg, cfg.operators[i], k), copied)
    ensures OriginalBack(cfg, parts, DirOf(cfg, cfg.operators[i], k), fs, copied)
  {
    var dir := DirOf(cfg, cfg.operators[i], k);
    forall p
      ensures p != dir + parts ==> Get(copied, p) == Get(fs, p)
    {
      assert Get(copied, p) == CopyAt(CopyRule(cfg.folder), fs, cfg.root, dir, p);
      if dir <= p && Kept(CopyRule(cfg.folder), fs, cfg.root, p[|dir|..]) {
        assert p == dir + p[|dir|..];
        EntryKind(cfg, ast, ps, parts, start, fs, i, k, p[|dir|..]);
      }
    }
    KeptOutsideFolder(start, fs, cfg.root, ps, parts);
    assert (dir + parts)[|dir|..] == parts && dir <= dir + parts;
    assert Get(copied, dir + parts) == CopyAt(CopyRule(cfg.folder), fs, cfg.root, dir, dir + parts);
  }

  // ----- one mutant again -----

  lemma SameEverywhere(a: FS, b: FS)
    requires forall p :: Get(a, p) == Get(b, p)
    ensures a == b
  {
    forall p
      ensures p in a <==> p in b
      ensures p in a ==> a[p] == b[p]
    {
      assert Get(a, p) == Get(b, p);
    }
  }

  /** Writing the mutated file again ends where the first run ended. */
  lemma WrittenAgain(cfg: Config, ast: Ast, ps: seq<string>, parts: seq<string>, start: FS, fs: FS, i: nat, k: nat,
                     copied: FS, text: string)
    requires Settled(cfg, ast, ps, parts, start, fs) && IsSite(cfg, ast, i, k)
    requires cfg.render(MutantTree(cfg, ast, cfg.operators[i], k)) == Some(text)
    requires var dir := DirOf(cfg, cfg.operators[i], k);
             copied == fs || (WellFormed(copied) && OriginalBack(cfg, parts, dir, fs, copied))
    ensures WriteFile(copied, DirOf(cfg, cfg.operators[i], k) + parts, text) == Some(fs)
  {
    var op := cfg.operators[i];
    var dir := DirOf(cfg, op, k);
    var file := dir + parts;
    assert HoldsMutant(cfg, ast, start, parts, op, k, fs);
    assert Get(fs, dir + parts) == MutantEntry(cfg, ast, start, parts, op, k, parts) == Some(File(text));
    assert IsDir(fs, Parent(file));
    assert Parent(file) != file;
    if copied != fs {
      KeptOutsideFolder(start, fs, cfg.root, ps, parts);
      assert Get(copied, Parent(file)) == Get(fs, Parent(file));
    }
    forall p
      ensures Get(copied[file := File(text)], p) == Get(fs, p)
    {
    }
    SameEverywhere(copied[file := File(text)], fs);
  }

  /** A mutant that could not be rendered is the plain copy, before and after. */
  lemma UnrenderedAgain(cfg: Config, ast: Ast, ps: seq<string>, parts: seq<string>, start: FS, fs: FS, i: nat, k: nat,
                        copied: FS)
    requires Settled(cfg, ast, ps, parts, start, fs) && IsSite(cfg, ast, i, k)
    requires cfg.render(MutantTree(cfg, ast, cfg.operators[i], k)).None?
    requires OriginalBack(cfg, parts, DirOf(cfg, cfg.operators[i], k), fs, copied)
    ensures copied == fs
  {
    var op := cfg.operators[i];
    var dir := DirOf(cfg, op, k);
    assert HoldsMutant(cfg, ast, start, parts, op, k, fs);
    assert Get(fs, dir + parts) == MutantEntry(cfg, ast, start, parts, op, k, parts);
    KeptOutsideFolder(start, fs, cfg.root, ps, parts);
    SameEverywhere(copied, fs);
  }

  lemma ProducedAgain(cfg: Config, ast: Ast, ps: seq<string>, parts: seq<string>, start: FS, i: nat, k: nat,
                      before: Progress)
    requires Settled(cfg, ast, ps, parts, start, before.fs) && IsSite(cfg, ast, i, k)
    ensures var op := cfg.operators[i];
            Produce(cfg, before, op, k, MutantTree(cfg, ast, op, k))
            == Progress(before.fs, before.infos + Listing(cfg, ast, op, k))
  {
    var op := cfg.operators[i];
    var copied := CopiedAgain(cfg, ast, ps, parts, start, before.fs, i, k);
    match cfg.render(MutantTree(cfg, ast, op, k))
    case None =>
      if cfg.overwrite { UnrenderedAgain(cfg, ast, ps, parts, start, before.fs, i, k, copied); }
      assert before.infos + [] == before.infos;
    case Some(text) => WrittenAgain(cfg, ast, ps, parts, start, before.fs, i, k, copied, text);
  }

  // ----- the whole run again -----

  /** The second run after `n` sites of operator `i`. */
  ghost predicate SitesRedone(cfg: Config, ast: Ast, i: nat, before: Progress, n: nat, now: Progress)
    requires ValidRun(cfg, ast) && i < |cfg.operators| && n <= |Sites(cfg, ast, cfg.operators[i])|
  {
    && now == AfterSites(cfg, ast, before, cfg.operators[i], n)
    && now == Progress(before.fs, before.infos + ListedSites(cfg, ast, cfg.operators[i], n))
  }

  lemma SiteAgain(cfg: Config, ast: Ast, ps: seq<string>, parts: seq<string>, start: FS, i: nat, before: Progress,
                  n: nat, next: nat, now: Progress) returns (after: Progress)
    requires Settled(cfg, ast, ps, parts, start, before.fs) && IsSite(cfg, ast, i, n) && next == n + 1
    requires SitesRedone(cfg, ast, i, before, n, now)
    ensures SitesRedone(cfg, ast, i, before, next, after)
  {
    var op := cfg.operators[i];
    ProducedAgain(cfg, ast, ps, parts, start, i, n, now);
    OneMoreListing(cfg, ast, op, n);
    Assoc(before.infos, ListedSites(cfg, ast, op, n), Listing(cfg, ast, op, n));
    after := Progress(before.fs, before.infos + ListedSites(cfg, ast, op, n + 1));
  }

  lemma {:induction false} SitesFromAgain(cfg: Config, ast: Ast, ps: seq<string>, parts: seq<string>, start: FS,
                                          i: nat, before: Progress, k: nat, now: Progress, n: nat)
    returns (after: Progress)
    requires Settled(cfg, ast, ps, parts, start, before.fs) && i < |cfg.operators|
    requires k <= n <= |Sites(cfg, ast, cfg.operators[i])| && SitesRedone(cfg, ast, i, before, k, now)
    ensures SitesRedone(cfg, ast, i, before, n, after)
    decreases n - k
  {
    after := now;
    if k < n {
      var next := SiteAgain(cfg, ast, ps, parts, start, i, before, k, k + 1, now);
      after := SitesFromAgain(cfg, ast, ps, parts, start, i, before, k + 1, next, n);
    }
  }

  lemma NoSiteAgain(cfg: Config, ast: Ast, i: nat, before: Progress, n: nat)
    requires ValidRun(cfg, ast) && i < |cfg.operators| && n == 0
    ensures SitesRedone(cfg, ast, i, before, n, before)
  {
    assert before.infos + [] == before.infos;
  }

  /** The second run after `k` operators. */
  ghost predicate OpsRedone(cfg: Config, ast: Ast, fs: FS, k: nat, now: Progress)
    requires ValidRun(cfg, ast) && k <= |cfg.operators|
  {
    now == AfterOps(cfg, ast, Progress(fs, []), k) && now == Progress(fs, ListedOps(cfg, ast, k))
  }

  lemma OpAgain(cfg: Config, ast: Ast, ps: seq<string>, parts: seq<string>, start: FS, fs: FS, k: nat, next: nat,
                before: Progress) returns (after: Progress)
    requires Settled(cfg, ast, ps, parts, start, fs) && k < |cfg.operators| && next == k + 1
    requires OpsRedone(cfg, ast, fs, k, before)
    ensures OpsRedone(cfg, ast, fs, next, after)
  {
    OneMoreOperator(cfg, ast, Progress(fs, []), k);
    NoSiteAgain(cfg, ast, k, before, 0);
    after := SitesFromAgain(cfg, ast, ps, parts, start, k, before, 0, before, |Sites(cfg, ast, cfg.operators[k])|);
  }

  lemma {:induction false} OpsFromAgain(cfg: Config, ast: Ast, ps: seq<string>, parts: seq<string>, start: FS, fs: FS,
                                        k: nat, now: Progress, n: nat) returns (after: Progress)
    requires Settled(cfg, ast, ps, parts, start, fs) && k <= n <= |cfg.operators| && OpsRedone(cfg, ast, fs, k, now)
    ensures OpsRedone(cfg, ast, fs, n, after)
    decreases n - k
  {
    after := now;
    if k < n {
      var next := OpAgain(cfg, ast, ps, parts, start, fs, k, k + 1, now);
      after := OpsFromAgain(cfg, ast, ps, parts, start, fs, k + 1, next, n);
    }
  }

  lemma NothingAgain(cfg: Config, ast: Ast, fs: FS)
    requires ValidRun(cfg, ast)
    ensures OpsRedone(cfg, ast, fs, 0, Progress(fs, []))
  {
  }

  /** Whatever the interleavings of the two runs, and whether mutants are overwritten or not: the second run leaves the
      disk as it was and returns the list of the first. */
  lemma SecondRunChangesNothing(cfg: Config, ast: Ast, ps: seq<string>, parts: seq<string>, start: FS,
                                run: seq<Protocol.State>, again: seq<Protocol.State>)
    requires Prepared(cfg, ast, ps, parts, start)
    requires Protocol.IsRun(cfg, ast, Progress(start, []), run) && run[|run| - 1].driver == Protocol.Finished
    requires Protocol.IsRun(cfg, ast, Progress(run[|run| - 1].progress.fs, []), again)
    requires again[|again| - 1].driver == Protocol.Finished
    ensures again[|again| - 1].progress == run[|run| - 1].progress
  {
    var end := FirstRunSettles(cfg, ast, ps, parts, start);
    Protocol.FinishedRun(cfg, ast, Progress(start, []), run);
    Protocol.FinishedRun(cfg, ast, Progress(end.fs, []), again);
    NothingAgain(cfg, ast, end.fs);
    var after := OpsFromAgain(cfg, ast, ps, parts, start, end.fs, 0, Progress(end.fs, []), |cfg.operators|);
  }
}
