/** mutate.go: several files in one run. `mutateFiles` goes through a Go map, so nothing may depend on the order.

    All mutants of all files survive the run if and only if the way to no file leads through a directory that is named
    like a mutant of another one. */
module ManyFiles {
  import opened Options
  import opened Sequences
  import opened FileSystem
  import opened Text
  import opened CopyRules
  import opened TreeCopy
  import opened CopyUtils
  import opened GoAst
  import opened Mutators
  import opened Names
  import opened MutateRun
  import opened ProjectRun
  import Protocol

  /** One file to mutate, with its tree. */
  datatype Job = Job(cfg: Config, ast: Ast)

  ghost predicate Ready(job: Job, root: Path, ps: seq<string>, fs: FS) {
    job.cfg.root == root && Prepared(job.cfg, job.ast, ps, job.cfg.parts, fs)
  }

  /** Each file by itself could be mutated, and no file is there twice. */
  ghost predicate AllReady(jobs: seq<Job>, root: Path, ps: seq<string>, start: FS) {
    && |ps| >= 1 && (forall k | 0 <= k < |jobs| :: Ready(jobs[k], root, ps, start))
    && (forall i, k | 0 <= i < k < |jobs| :: jobs[i].cfg.parts != jobs[k].cfg.parts)
  }

  /** The directory that `createMutantFolderPath` makes for the file. */
  ghost function ShelfOf(job: Job, ps: seq<string>): Path {
    if job.cfg.parts == [] then [] else Shelf(job.cfg, ps, job.cfg.parts)
  }

  ghost function DirAt(job: Job, j: nat, n: nat): Path
    requires j < |job.cfg.operators|
  {
    DirOf(job.cfg, job.cfg.operators[j], n)
  }

  /** The path lies in a mutant of the file. */
  ghost predicate Inside(job: Job, p: Path) {
    && ValidRun(job.cfg, job.ast)
    && exists j: nat, n: nat :: IsSite(job.cfg, job.ast, j, n) && DirAt(job, j, n) <= p
  }

  /** No mutant of one file is where the mutants of another one are put. */
  ghost predicate Apart(jobs: seq<Job>, ps: seq<string>) {
    forall i, k | 0 <= i < |jobs| && 0 <= k < |jobs| && i != k :: !Inside(jobs[i], ShelfOf(jobs[k], ps))
  }

  // ----- the same said of the paths of the files -----

  /** The way to the second file leads through a directory named like a mutant of the first. */
  predicate LeadsThrough(first: seq<string>, suffix: string, second: seq<string>)
    requires first != []
  {
    |first| < |second| && second[..|first| - 1] == Init(first) && second[|first| - 1] == Last(first) + suffix
  }

  lemma {:induction false} PrefixOfBoth(front: Path, a: Path, b: Path)
    ensures front + a <= front + b <==> a <= b
  {
    if front + a <= front + b {
      assert a == (front + a)[|front|..] && b == (front + b)[|front|..];
      assert (front + a)[|front|..] == (front + b)[|front|..|front + a|];
      assert b[..|a|] == (front + b)[|front|..|front + a|];
    }
    if a <= b {
      assert (front + b)[..|front + a|] == front + b[..|a|];
    }
  }

  lemma MutantAbove(first: seq<string>, suffix: string, second: seq<string>)
    requires first != [] && second != []
    ensures Init(first) + [Last(first) + suffix] <= Init(second) <==> LeadsThrough(first, suffix, second)
  {
    var way, n := Init(first) + [Last(first) + suffix], |first| - 1;
    if |first| < |second| {
      assert Init(second)[..n + 1] == second[..n] + [second[n]];
      assert way[..n] == Init(first) && way[n] == Last(first) + suffix;
      if way <= Init(second) {
        assert second[..n] == Init(second)[..n + 1][..n] == way[..n];
        assert second[n] == Init(second)[..n + 1][n] == way[n];
      }
    }
  }

  /** A mutant of one file lies above the place for the other's mutants if and only if their paths say so. */
  lemma InsideIff(a: Job, b: Job, root: Path, ps: seq<string>, fs: FS)
    requires Ready(a, root, ps, fs) && Ready(b, root, ps, fs)
    ensures Inside(a, ShelfOf(b, ps))
            <==> exists j: nat, n: nat :: IsSite(a.cfg, a.ast, j, n)
                   && LeadsThrough(a.cfg.parts, Suffix(RegisteredName(a.cfg.operators[j]), n), b.cfg.parts)
  {
    forall j: nat, n: nat | IsSite(a.cfg, a.ast, j, n)
      ensures DirAt(a, j, n) <= ShelfOf(b, ps)
              <==> LeadsThrough(a.cfg.parts, Suffix(RegisteredName(a.cfg.operators[j]), n), b.cfg.parts)
    {
      SiteAbove(a, b, root, ps, fs, j, n);
    }
  }

  lemma SiteAbove(a: Job, b: Job, root: Path, ps: seq<string>, fs: FS, j: nat, n: nat)
    requires Ready(a, root, ps, fs) && Ready(b, root, ps, fs) && IsSite(a.cfg, a.ast, j, n)
    ensures DirAt(a, j, n) <= ShelfOf(b, ps)
            <==> LeadsThrough(a.cfg.parts, Suffix(RegisteredName(a.cfg.operators[j]), n), b.cfg.parts)
  {
    var suffix := Suffix(RegisteredName(a.cfg.operators[j]), n);
    var leaf := Last(a.cfg.parts) + suffix;
    DirIsOnShelf(a.cfg, ps, a.cfg.parts, a.cfg.operators[j], n);
    Assoc(root + ps, Init(a.cfg.parts), [leaf]);
    PrefixOfBoth(root + ps, Init(a.cfg.parts) + [leaf], Init(b.cfg.parts));
    MutantAbove(a.cfg.parts, suffix, b.cfg.parts);
  }

  // ----- places of different files -----

  lemma SiteShape(job: Job, root: Path, ps: seq<string>, fs: FS, j: nat, n: nat) returns (leaf: string)
    requires Ready(job, root, ps, fs) && IsSite(job.cfg, job.ast, j, n)
    ensures DirAt(job, j, n) == ShelfOf(job, ps) + [leaf]
    ensures leaf == Last(job.cfg.parts) + Suffix(RegisteredName(job.cfg.operators[j]), n)
  {
    DirIsOnShelf(job.cfg, ps, job.cfg.parts, job.cfg.operators[j], n);
    leaf := Last(job.cfg.parts) + Suffix(RegisteredName(job.cfg.operators[j]), n);
  }

  lemma ShelfBelowFolder(job: Job, root: Path, ps: seq<string>, fs: FS)
    requires Ready(job, root, ps, fs)
    ensures root <= ShelfOf(job, ps) && root + ps <= ShelfOf(job, ps) && root + [ps[0]] <= ShelfOf(job, ps)
    ensures |root + ps| >= |root| + 1
  {
    var shelf := ShelfOf(job, ps);
    assert shelf[..|root|] == root && shelf[..|root + ps|] == root + ps && shelf[..|root| + 1] == root + [ps[0]];
  }

  lemma InsideBelowFolder(job: Job, root: Path, ps: seq<string>, fs: FS, p: Path)
    requires Ready(job, root, ps, fs) && Inside(job, p)
    ensures root + [ps[0]] <= p && |p| > |root| + 1
  {
    var j: nat, n: nat :| IsSite(job.cfg, job.ast, j, n) && DirAt(job, j, n) <= p;
    var leaf := SiteShape(job, root, ps, fs, j, n);
    ShelfBelowFolder(job, root, ps, fs);
    PrefixChain(root + [ps[0]], ShelfOf(job, ps), DirAt(job, j, n), p);
  }

  lemma InsideDown(job: Job, p: Path, q: Path)
    requires Inside(job, p) && p <= q
    ensures Inside(job, q)
  {
    var j: nat, n: nat :| IsSite(job.cfg, job.ast, j, n) && DirAt(job, j, n) <= p;
    Through(DirAt(job, j, n), p, q);
  }

  lemma Through(a: Path, b: Path, c: Path)
    requires a <= b <= c
    ensures a <= c
  {
    assert c[..|b|] == b && b[..|a|] == a;
  }

  /** Directories of mutants of different files differ. */
  lemma SitesDiffer(a: Job, b: Job, root: Path, ps: seq<string>, fs: FS, j: nat, n: nat, j2: nat, n2: nat)
    requires Ready(a, root, ps, fs) && Ready(b, root, ps, fs) && a.cfg.parts != b.cfg.parts
    requires IsSite(a.cfg, a.ast, j, n) && IsSite(b.cfg, b.ast, j2, n2)
    ensures DirAt(a, j, n) != DirAt(b, j2, n2)
  {
    var leaf := SiteShape(a, root, ps, fs, j, n);
    var leaf2 := SiteShape(b, root, ps, fs, j2, n2);
    if root + ps + Init(a.cfg.parts) + [leaf] == root + ps + Init(b.cfg.parts) + [leaf2] {
      SamePlace(root + ps, a.cfg.parts, a.cfg.operators[j], n, b.cfg.parts, b.cfg.operators[j2], n2);
    }
  }

  /** From the place of a mutant one reads off the file. */
  lemma SamePlace(front: Path, p1: seq<string>, op1: Operator, n1: nat, p2: seq<string>, op2: Operator, n2: nat)
    requires p1 != [] && p2 != []
    requires front + Init(p1) + [Last(p1) + Suffix(RegisteredName(op1), n1)]
             == front + Init(p2) + [Last(p2) + Suffix(RegisteredName(op2), n2)]
    ensures p1 == p2
  {
    SnocInjective(front + Init(p1), Last(p1) + Suffix(RegisteredName(op1), n1),
                  front + Init(p2), Last(p2) + Suffix(RegisteredName(op2), n2));
    SameShelf(front, p1, p2);
    SameLeaf(op1, Last(p1), n1, op2, Last(p2), n2);
    assert p1 == Init(p1) + [Last(p1)];
    assert p2 == Init(p2) + [Last(p2)];
  }

  lemma SnocInjective(a: Path, x: string, b: Path, y: string)
    requires a + [x] == b + [y]
    ensures a == b && x == y
  {
    assert a == (a + [x])[..|a + [x]| - 1] && b == (b + [y])[..|b + [y]| - 1];
    assert x == (a + [x])[|a|] && y == (b + [y])[|b|];
  }

  lemma SameShelf(front: Path, a: Path, b: Path)
    requires a != [] && b != [] && front + Init(a) == front + Init(b)
    ensures Init(a) == Init(b)
  {
    assert Init(a) == (front + Init(a))[|front|..] && Init(b) == (front + Init(b))[|front|..];
  }

  lemma SameLeaf(op1: Operator, last1: string, n1: nat, op2: Operator, last2: string, n2: nat)
    requires last1 + Suffix(RegisteredName(op1), n1) == last2 + Suffix(RegisteredName(op2), n2)
    ensures last1 == last2
  {
    RegisteredNamesAreGood(op1);
    RegisteredNamesAreGood(op2);
    NamesEqualIff(RegisteredName(op1), last1, n1, RegisteredName(op2), last2, n2);
  }

  /** A path at or above a directory on the shelf is that directory or at or above the shelf. */
  lemma AboveSnoc(p: Path, shelf: Path, leaf: string)
    requires p <= shelf + [leaf]
    ensures p == shelf + [leaf] || p <= shelf
  {
    var whole := shelf + [leaf];
    assert p == whole[..|p|];
    if |p| <= |shelf| {
      assert whole[..|p|] == shelf[..|p|];
    }
  }

  /** Mutants of files that are apart do not lie in each other. */
  lemma SitesBeside(a: Job, b: Job, root: Path, ps: seq<string>, fs: FS, j: nat, n: nat, j2: nat, n2: nat)
    requires Ready(a, root, ps, fs) && Ready(b, root, ps, fs) && a.cfg.parts != b.cfg.parts
    requires !Inside(a, ShelfOf(b, ps))
    requires IsSite(a.cfg, a.ast, j, n) && IsSite(b.cfg, b.ast, j2, n2)
    ensures !(DirAt(a, j, n) <= DirAt(b, j2, n2))
  {
    var leaf := SiteShape(b, root, ps, fs, j2, n2);
    if DirAt(a, j, n) <= DirAt(b, j2, n2) {
      AboveSnoc(DirAt(a, j, n), ShelfOf(b, ps), leaf);
      SitesDiffer(a, b, root, ps, fs, j, n, j2, n2);
    }
  }

  // ----- the loop -----

  /** `FS.MkdirAll` of the mutant folder, then of the directory for the file's mutants; failure is a panic. */
  function MakeFolders(fs: FS, folder: Path, shelf: Path): Option<FS> {
    match MkdirAll(fs, folder)
    case None => None
    case Some(made) => MkdirAll(made, shelf)
  }

  lemma MakeFoldersEffect(fs: FS, folder: Path, shelf: Path)
    requires WellFormed(fs) && folder <= shelf
    ensures MakeFolders(fs, folder, shelf).Some? <==> FreeOfFiles(fs, shelf)
    ensures MakeFolders(fs, folder, shelf).Some? ==>
              var made := MakeFolders(fs, folder, shelf).value;
              && WellFormed(made)
              && forall q :: Get(made, q) == if q <= shelf && q !in fs then Some(Dir) else Get(fs, q)
  {
    MkdirAllEffect(fs, folder);
    if MkdirAll(fs, folder).Some? {
      var above := MkdirAll(fs, folder).value;
      MkdirAllEffect(above, shelf);
      SameFree(fs, above, folder, shelf);
      var made := MkdirAll(above, shelf);
      if made.Some? {
        forall q
          ensures Get(made.value, q) == if q <= shelf && q !in fs then Some(Dir) else Get(fs, q)
        {
          if q <= folder {
            Through(q, folder, shelf);
          }
        }
      }
    } else {
      var k :| 0 <= k <= |folder| && IsFile(fs, folder[..k]);
      assert folder[..k] == shelf[..k];
    }
  }

  lemma SameFree(fs: FS, above: FS, folder: Path, shelf: Path)
    requires folder <= shelf
    requires forall q :: Get(above, q) == if q <= folder && q !in fs then Some(Dir) else Get(fs, q)
    ensures FreeOfFiles(above, shelf) <==> FreeOfFiles(fs, shelf)
  {
    forall k | 0 <= k <= |shelf|
      ensures IsFile(above, shelf[..k]) <==> IsFile(fs, shelf[..k])
    {
      assert Get(above, shelf[..k])
             == if shelf[..k] <= folder && shelf[..k] !in fs then Some(Dir) else Get(fs, shelf[..k]);
    }
  }

  /** One round of the loop: the folders, then `mutate`, walker and driver in any interleaving. */
  ghost predicate FileRun(job: Job, ps: seq<string>, before: FS, run: seq<Protocol.State>, after: FS) {
    && MakeFolders(before, job.cfg.root + ps, ShelfOf(job, ps)).Some?
    && Protocol.IsRun(job.cfg, job.ast,
                      Progress(MakeFolders(before, job.cfg.root + ps, ShelfOf(job, ps)).value, []), run)
    && run[|run| - 1].driver == Protocol.Finished
    && after == run[|run| - 1].progress.fs
  }

  /** The first `k` rounds. */
  ghost predicate FilesRun(jobs: seq<Job>, ps: seq<string>, disks: seq<FS>, runs: seq<seq<Protocol.State>>, k: nat) {
    && k <= |jobs| && |disks| > k && |runs| >= k
    && forall i | 0 <= i < k :: FileRun(jobs[i], ps, disks[i], runs[i], disks[i + 1])
  }

  // ----- what the disk looks like in between -----

  /** Each mutant of the file is the pruned project with its one file mutated. */
  ghost predicate Holds(job: Job, start: FS, now: FS) {
    && ValidRun(job.cfg, job.ast)
    && forall j: nat, n: nat | IsSite(job.cfg, job.ast, j, n) ::
         HoldsMutant(job.cfg, job.ast, start, job.cfg.parts, job.cfg.operators[j], n, now)
  }

  ghost predicate InMutants(jobs: seq<Job>, k: nat, p: Path) {
    exists i | 0 <= i < k && i < |jobs| :: Inside(jobs[i], p)
  }

  ghost predicate OnTheWay(jobs: seq<Job>, ps: seq<string>, s: nat, p: Path) {
    exists i | 0 <= i < s && i < |jobs| :: p <= ShelfOf(jobs[i], ps)
  }

  /** Outside the mutants everything is as it was, but for the new directories on the way to them. */
  ghost predicate Explained(jobs: seq<Job>, ps: seq<string>, start: FS, k: nat, s: nat, now: FS, p: Path) {
    InMutants(jobs, k, p)
    || Get(now, p) == if p !in start && OnTheWay(jobs, ps, s, p) then Some(Dir) else Get(start, p)
  }

  /** After the mutants of `k` files and the folders of `s`. */
  ghost predicate Spread(jobs: seq<Job>, ps: seq<string>, start: FS, k: nat, s: nat, now: FS) {
    && WellFormed(now)
    && (forall p :: Explained(jobs, ps, start, k, s, now, p))
    && (forall i | 0 <= i < k && i < |jobs| :: Holds(jobs[i], start, now))
  }

  lemma NothingSpread(jobs: seq<Job>, ps: seq<string>, start: FS)
    requires WellFormed(start)
    ensures Spread(jobs, ps, start, 0, 0, start)
  {
  }

  /** The project is still what it was. */
  lemma ProjectStays(jobs: seq<Job>, root: Path, ps: seq<string>, start: FS, k: nat, s: nat, now: FS)
    requires jobs != [] && AllReady(jobs, root, ps, start) && Spread(jobs, ps, start, k, s, now)
    ensures IsDir(now, root) && SameProject(start, now, root, ps)
  {
    var first := root + [ps[0]];
    assert Ready(jobs[0], root, ps, start);
    forall p | Get(now, p) != Get(start, p)
      ensures first <= p
    {
      ExplainedBelow(jobs, root, ps, start, k, s, now, p);
    }
    FirstNotFile(jobs, root, ps, start, k, s, now);
    assert !(first <= root);
    assert Get(now, root) == Get(start, root);
  }

  lemma ExplainedBelow(jobs: seq<Job>, root: Path, ps: seq<string>, start: FS, k: nat, s: nat, now: FS, p: Path)
    requires jobs != [] && AllReady(jobs, root, ps, start) && Explained(jobs, ps, start, k, s, now, p)
    requires Get(now, p) != Get(start, p)
    ensures root + [ps[0]] <= p
  {
    if InMutants(jobs, k, p) {
      var i :| 0 <= i < k && i < |jobs| && Inside(jobs[i], p);
      InsideBelowFolder(jobs[i], root, ps, start, p);
    } else {
      var i :| 0 <= i < s && i < |jobs| && p <= ShelfOf(jobs[i], ps);
      assert Ready(jobs[i], root, ps, start);
      ShelfBelowFolder(jobs[i], root, ps, start);
      PathPastRoot(start, root, ps[0], ShelfOf(jobs[i], ps), p);
    }
  }

  lemma FirstNotFile(jobs: seq<Job>, root: Path, ps: seq<string>, start: FS, k: nat, s: nat, now: FS)
    requires jobs != [] && AllReady(jobs, root, ps, start) && Spread(jobs, ps, start, k, s, now)
    ensures !IsFile(start, root + [ps[0]]) && !IsFile(now, root + [ps[0]])
  {
    var first := root + [ps[0]];
    assert Ready(jobs[0], root, ps, start);
    ShelfBelowFolder(jobs[0], root, ps, start);
    NoFileAbove(start, ShelfOf(jobs[0], ps), first);
    assert Explained(jobs, ps, start, k, s, now, first);
    if InMutants(jobs, k, first) {
      var i :| 0 <= i < k && i < |jobs| && Inside(jobs[i], first);
      InsideBelowFolder(jobs[i], root, ps, start, first);
    }
  }

  lemma NoFileAbove(fs: FS, shelf: Path, p: Path)
    requires FreeOfFiles(fs, shelf) && p <= shelf
    ensures !IsFile(fs, p)
  {
    assert p == shelf[..|p|];
  }

  // ----- one more file: the folders -----

  /** The way to the next file's mutants is free of files, so no `MkdirAll` panics. */
  lemma WayIsFree(jobs: seq<Job>, root: Path, ps: seq<string>, start: FS, k: nat, now: FS)
    requires AllReady(jobs, root, ps, start) && Apart(jobs, ps) && k < |jobs| && Spread(jobs, ps, start, k, k, now)
    ensures FreeOfFiles(now, ShelfOf(jobs[k], ps))
  {
    var shelf := ShelfOf(jobs[k], ps);
    assert Ready(jobs[k], root, ps, start);
    forall m | 0 <= m <= |shelf|
      ensures !IsFile(now, shelf[..m])
    {
      var p := shelf[..m];
      NoFileAbove(start, shelf, p);
      assert Explained(jobs, ps, start, k, k, now, p);
      if InMutants(jobs, k, p) {
        var i :| 0 <= i < k && i < |jobs| && Inside(jobs[i], p);
        InsideDown(jobs[i], p, shelf);
      }
    }
  }

  lemma FoldersMade(jobs: seq<Job>, root: Path, ps: seq<string>, start: FS, k: nat, now: FS) returns (made: FS)
    requires AllReady(jobs, root, ps, start) && Apart(jobs, ps) && k < |jobs| && Spread(jobs, ps, start, k, k, now)
    ensures MakeFolders(now, root + ps, ShelfOf(jobs[k], ps)) == Some(made)
    ensures Spread(jobs, ps, start, k, k + 1, made) && FreeOfFiles(made, ShelfOf(jobs[k], ps))
  {
    var shelf := ShelfOf(jobs[k], ps);
    assert Ready(jobs[k], root, ps, start);
    ShelfBelowFolder(jobs[k], root, ps, start);
    WayIsFree(jobs, root, ps, start, k, now);
    MakeFoldersEffect(now, root + ps, shelf);
    made := MakeFolders(now, root + ps, shelf).value;
    var s := k + 1;
    forall p
      ensures Explained(jobs, ps, start, k, s, made, p)
    {
      FolderExplained(jobs, ps, start, k, now, made, p);
    }
    forall i | 0 <= i < k && i < |jobs|
      ensures Holds(jobs[i], start, made)
    {
      HoldsThroughFolders(jobs[i], start, now, made, shelf);
    }
    SameFree(now, made, shelf, shelf);
  }

  lemma FolderExplained(jobs: seq<Job>, ps: seq<string>, start: FS, k: nat, now: FS, made: FS, p: Path)
    requires k < |jobs| && Spread(jobs, ps, start, k, k, now)
    requires Get(made, p) == if p <= ShelfOf(jobs[k], ps) && p !in now then Some(Dir) else Get(now, p)
    ensures Explained(jobs, ps, start, k, k + 1, made, p)
  {
    assert Explained(jobs, ps, start, k, k, now, p);
    OneMoreWay(jobs, ps, k, p);
  }

  lemma OneMoreWay(jobs: seq<Job>, ps: seq<string>, k: nat, p: Path)
    requires k < |jobs|
    ensures OnTheWay(jobs, ps, k + 1, p) <==> OnTheWay(jobs, ps, k, p) || p <= ShelfOf(jobs[k], ps)
  {
    if OnTheWay(jobs, ps, k, p) {
      var i :| 0 <= i < k && i < |jobs| && p <= ShelfOf(jobs[i], ps);
    }
  }

  lemma HoldsThroughFolders(job: Job, start: FS, now: FS, made: FS, shelf: Path)
    requires Holds(job, start, now) && !Inside(job, shelf)
    requires forall q :: Get(made, q) == if q <= shelf && q !in now then Some(Dir) else Get(now, q)
    ensures Holds(job, start, made)
  {
    forall j: nat, n: nat | IsSite(job.cfg, job.ast, j, n)
      ensures HoldsMutant(job.cfg, job.ast, start, job.cfg.parts, job.cfg.operators[j], n, made)
    {
      assert HoldsMutant(job.cfg, job.ast, start, job.cfg.parts, job.cfg.operators[j], n, now);
      var dir := DirAt(job, j, n);
      forall rel
        ensures Get(made, dir + rel) == Get(now, dir + rel)
      {
        if dir + rel <= shelf {
          assert dir <= dir + rel;
          Through(dir, dir + rel, shelf);
        }
      }
    }
  }

  // ----- one more file: its mutants -----

  /** Nothing is where the mutants of the next file go. */
  lemma PlacesAreFree(jobs: seq<Job>, root: Path, ps: seq<string>, start: FS, k: nat, made: FS, j: nat, n: nat)
    requires AllReady(jobs, root, ps, start) && Apart(jobs, ps) && k < |jobs|
    requires Spread(jobs, ps, start, k, k + 1, made) && IsSite(jobs[k].cfg, jobs[k].ast, j, n)
    ensures DirAt(jobs[k], j, n) !in made
  {
    var job := jobs[k];
    var dir := DirAt(job, j, n);
    assert Ready(job, root, ps, start);
    assert dir !in start;
    assert Explained(jobs, ps, start, k, k + 1, made, dir);
    if InMutants(jobs, k, dir) {
      var i :| 0 <= i < k && i < |jobs| && Inside(jobs[i], dir);
      var j2: nat, n2: nat :| IsSite(jobs[i].cfg, jobs[i].ast, j2, n2) && DirAt(jobs[i], j2, n2) <= dir;
      SitesBeside(jobs[i], job, root, ps, start, j2, n2, j, n);
    } else if OnTheWay(jobs, ps, k + 1, dir) {
      var i :| 0 <= i < k + 1 && i < |jobs| && dir <= ShelfOf(jobs[i], ps);
      if i == k {
        var leaf := SiteShape(job, root, ps, start, j, n);
      } else {
        assert Inside(job, ShelfOf(jobs[i], ps));
      }
    }
  }

  lemma ReadyAgain(jobs: seq<Job>, root: Path, ps: seq<string>, start: FS, k: nat, made: FS)
    requires AllReady(jobs, root, ps, start) && Apart(jobs, ps) && k < |jobs|
    requires Spread(jobs, ps, start, k, k + 1, made) && FreeOfFiles(made, ShelfOf(jobs[k], ps))
    ensures Ready(jobs[k], root, ps, made)
    ensures forall rel :: Pruned(jobs[k].cfg.folder, made, root, rel) == Pruned(jobs[k].cfg.folder, start, root, rel)
  {
    var job := jobs[k];
    assert Ready(job, root, ps, start);
    ProjectStays(jobs, root, ps, start, k, k + 1, made);
    ProjectUnchanged(start, made, root, ps);
    KeptOutsideFolder(start, made, root, ps, job.cfg.parts);
    forall j: nat, n: nat | IsSite(job.cfg, job.ast, j, n)
      ensures DirOf(job.cfg, job.cfg.operators[j], n) !in made
    {
      PlacesAreFree(jobs, root, ps, start, k, made, j, n);
    }
  }

  /** The mutants of the file itself, said of the project as it was at the start. */
  lemma OwnMutants(job: Job, root: Path, ps: seq<string>, start: FS, made: FS, after: FS)
    requires Ready(job, root, ps, made)
    requires forall rel :: Pruned(job.cfg.folder, made, root, rel) == Pruned(job.cfg.folder, start, root, rel)
    requires OnDisk(job.cfg, job.ast, ps, job.cfg.parts, made, |job.cfg.operators|, 0, after)
    ensures Holds(job, start, after)
  {
    var cfg, ast, parts := job.cfg, job.ast, job.cfg.parts;
    forall j: nat, n: nat | IsSite(cfg, ast, j, n)
      ensures HoldsMutant(cfg, ast, start, parts, cfg.operators[j], n, after)
    {
      assert ProjectRun.Done(cfg, ast, |cfg.operators|, 0, j, n);
      assert HoldsMutant(cfg, ast, made, parts, cfg.operators[j], n, after);
      forall rel
        ensures MutantEntry(cfg, ast, made, parts, cfg.operators[j], n, rel)
                == MutantEntry(cfg, ast, start, parts, cfg.operators[j], n, rel)
      {
        assert Pruned(cfg.folder, made, root, rel) == Pruned(cfg.folder, start, root, rel);
      }
    }
  }

  /** With its folders in place, a run changes only its own mutants. */
  lemma RunStaysInside(job: Job, root: Path, ps: seq<string>, made: FS, after: FS, p: Path)
    requires Ready(job, root, ps, made) && IsDir(made, ShelfOf(job, ps))
    requires OnDisk(job.cfg, job.ast, ps, job.cfg.parts, made, |job.cfg.operators|, 0, after)
    ensures Get(after, p) == Get(made, p) || Inside(job, p)
  {
    var cfg, ast, shelf := job.cfg, job.ast, ShelfOf(job, ps);
    if Get(after, p) != Get(made, p) {
      assert Touched(cfg, ast, ps, cfg.parts, made, |cfg.operators|, 0, p);
      if p <= shelf && p !in made {
        PrefixPresent(made, shelf, p, "");
      } else {
        var j: nat, n: nat :| ProjectRun.Done(cfg, ast, |cfg.operators|, 0, j, n)
                              && DirOf(cfg, cfg.operators[j], n) <= p;
        assert IsSite(cfg, ast, j, n) && DirAt(job, j, n) <= p;
      }
    }
  }

  /** Mutants of another file do not notice. */
  lemma HoldsThroughRun(a: Job, b: Job, root: Path, ps: seq<string>, fs: FS, start: FS, made: FS, after: FS)
    requires Ready(a, root, ps, fs) && Ready(b, root, ps, fs) && a.cfg.parts != b.cfg.parts
    requires !Inside(a, ShelfOf(b, ps)) && !Inside(b, ShelfOf(a, ps))
    requires Holds(a, start, made) && forall p :: Get(after, p) == Get(made, p) || Inside(b, p)
    ensures Holds(a, start, after)
  {
    forall j: nat, n: nat | IsSite(a.cfg, a.ast, j, n)
      ensures HoldsMutant(a.cfg, a.ast, start, a.cfg.parts, a.cfg.operators[j], n, after)
    {
      assert HoldsMutant(a.cfg, a.ast, start, a.cfg.parts, a.cfg.operators[j], n, made);
      forall rel
        ensures Get(after, DirAt(a, j, n) + rel) == Get(made, DirAt(a, j, n) + rel)
      {
        NotInBoth(a, b, root, ps, fs, j, n, rel);
      }
    }
  }

  lemma NotInBoth(a: Job, b: Job, root: Path, ps: seq<string>, fs: FS, j: nat, n: nat, rel: Path)
    requires Ready(a, root, ps, fs) && Ready(b, root, ps, fs) && a.cfg.parts != b.cfg.parts
    requires !Inside(a, ShelfOf(b, ps)) && !Inside(b, ShelfOf(a, ps)) && IsSite(a.cfg, a.ast, j, n)
    ensures !Inside(b, DirAt(a, j, n) + rel)
  {
    var p := DirAt(a, j, n) + rel;
    if Inside(b, p) {
      var j2: nat, n2: nat :| IsSite(b.cfg, b.ast, j2, n2) && DirAt(b, j2, n2) <= p;
      Comparable(DirAt(a, j, n), DirAt(b, j2, n2), p);
      if DirAt(a, j, n) <= DirAt(b, j2, n2) {
        SitesBeside(a, b, root, ps, fs, j, n, j2, n2);
      } else {
        SitesBeside(b, a, root, ps, fs, j2, n2, j, n);
      }
    }
  }

  lemma Comparable(a: Path, b: Path, p: Path)
    requires a <= p && b <= p
    ensures a <= b || b <= a
  {
    assert a == p[..|a|] && b == p[..|b|];
    if |a| <= |b| {
      assert b[..|a|] == a;
    } else {
      assert a[..|b|] == b;
    }
  }

  lemma FileStep(jobs: seq<Job>, root: Path, ps: seq<string>, start: FS, k: nat, now: FS, run: seq<Protocol.State>,
                 after: FS)
    requires AllReady(jobs, root, ps, start) && Apart(jobs, ps) && k < |jobs| && Spread(jobs, ps, start, k, k, now)
    requires FileRun(jobs[k], ps, now, run, after)
    ensures Spread(jobs, ps, start, k + 1, k + 1, after)
    ensures run[|run| - 1].progress.infos == ListedOps(jobs[k].cfg, jobs[k].ast, |jobs[k].cfg.operators|)
  {
    var job := jobs[k];
    assert Ready(job, root, ps, start);
    var made := FoldersMade(jobs, root, ps, start, k, now);
    ReadyAgain(jobs, root, ps, start, k, made);
    Protocol.FinishedRun(job.cfg, job.ast, Progress(made, []), run);
    var end := OpsRun(job.cfg, job.ast, ps, job.cfg.parts, made, |job.cfg.operators|);
    FileStepSpreads(jobs, root, ps, start, k, now, made, after);
  }

  lemma FileStepSpreads(jobs: seq<Job>, root: Path, ps: seq<string>, start: FS, k: nat, now: FS, made: FS, after: FS)
    requires AllReady(jobs, root, ps, start) && Apart(jobs, ps) && k < |jobs|
    requires WellFormed(now) && MakeFolders(now, root + ps, ShelfOf(jobs[k], ps)) == Some(made)
    requires Spread(jobs, ps, start, k, k + 1, made) && Ready(jobs[k], root, ps, made)
    requires forall rel :: Pruned(jobs[k].cfg.folder, made, root, rel) == Pruned(jobs[k].cfg.folder, start, root, rel)
    requires OnDisk(jobs[k].cfg, jobs[k].ast, ps, jobs[k].cfg.parts, made, |jobs[k].cfg.operators|, 0, after)
    ensures Spread(jobs, ps, start, k + 1, k + 1, after)
  {
    var job := jobs[k];
    ShelfBelowFolder(job, root, ps, made);
    MakeFoldersEffect(now, root + ps, ShelfOf(job, ps));
    ShelfIsDir(now, made, root + ps, ShelfOf(job, ps));
    forall p
      ensures Get(after, p) == Get(made, p) || Inside(job, p)
    {
      RunStaysInside(job, root, ps, made, after, p);
    }
    var s := k + 1;
    forall p
      ensures Explained(jobs, ps, start, s, s, after, p)
    {
      RunExplained(jobs, ps, start, k, made, after, p);
    }
    forall i | 0 <= i < k + 1 && i < |jobs|
      ensures Holds(jobs[i], start, after)
    {
      if i == k {
        OwnMutants(job, root, ps, start, made, after);
      } else {
        assert Ready(jobs[i], root, ps, start) && Ready(job, root, ps, start);
        HoldsThroughRun(jobs[i], job, root, ps, start, start, made, after);
      }
    }
  }

  lemma ShelfIsDir(now: FS, made: FS, folder: Path, shelf: Path)
    requires WellFormed(now) && folder <= shelf && MakeFolders(now, folder, shelf) == Some(made)
    ensures IsDir(made, shelf)
  {
    MakeFoldersEffect(now, folder, shelf);
    NoFileAbove(now, shelf, shelf);
    assert Get(made, shelf) == if shelf <= shelf && shelf !in now then Some(Dir) else Get(now, shelf);
  }

  lemma RunExplained(jobs: seq<Job>, ps: seq<string>, start: FS, k: nat, made: FS, after: FS, p: Path)
    requires k < |jobs| && Explained(jobs, ps, start, k, k + 1, made, p)
    requires Get(after, p) == Get(made, p) || Inside(jobs[k], p)
    ensures Explained(jobs, ps, start, k + 1, k + 1, after, p)
  {
    if Inside(jobs[k], p) {
      assert InMutants(jobs, k + 1, p);
    } else if InMutants(jobs, k, p) {
      var i :| 0 <= i < k && i < |jobs| && Inside(jobs[i], p);
      assert InMutants(jobs, k + 1, p);
    }
  }

  // ----- the whole loop -----

  lemma {:induction false} FilesSpread(jobs: seq<Job>, root: Path, ps: seq<string>, disks: seq<FS>,
                                       runs: seq<seq<Protocol.State>>, k: nat)
    requires FilesRun(jobs, ps, disks, runs, k) && WellFormed(disks[0])
    requires AllReady(jobs, root, ps, disks[0]) && Apart(jobs, ps)
    ensures Spread(jobs, ps, disks[0], k, k, disks[k])
  {
    if k == 0 {
      NothingSpread(jobs, ps, disks[0]);
    } else {
      FilesSpread(jobs, root, ps, disks, runs, k - 1);
      FileStep(jobs, root, ps, disks[0], k - 1, disks[k - 1], runs[k - 1], disks[k]);
    }
  }

  // ----- why files must be apart -----

  function Times(rel: Path, n: nat): Path {
    if n == 0 then [] else rel + Times(rel, n - 1)
  }

  lemma {:induction false} TimesGrow(rel: Path, n: nat)
    requires rel != []
    ensures |Times(rel, n)| >= n
  {
    if n > 0 {
      TimesGrow(rel, n - 1);
    }
  }

  lemma {:induction false} Longest(paths: set<Path>) returns (bound: nat)
    ensures forall p | p in paths :: |p| < bound
  {
    bound := 0;
    if paths != {} {
      var q :| q in paths;
      var rest := Longest(paths - {q});
      bound := rest + |q| + 1;
    }
  }

  lemma ProjectItself(job: Job, root: Path, ps: seq<string>, start: FS)
    requires Ready(job, root, ps, start)
    ensures Pruned(job.cfg.folder, start, root, []) == Some(Dir)
    ensures Pruned(job.cfg.folder, start, root, job.cfg.parts).Some?
    ensures Pruned(job.cfg.folder, start, root, job.cfg.parts).value.File?
  {
    assert root + [] == root;
  }

  lemma TooDeep(folder: string, start: FS, root: Path, rel: Path, bound: nat)
    requires rel != [] && forall p | p in start.Keys :: |p| < bound
    ensures Pruned(folder, start, root, Times(rel, bound)) != Some(Dir)
  {
    TimesGrow(rel, bound);
    var p := root + Times(rel, bound);
    assert |p| >= bound;
    assert p !in start.Keys;
  }

  /** If a mutant held another one, both complete, the project would hold itself at that place, and there again. */
  lemma {:induction false} HeldForever(a: Job, b: Job, root: Path, ps: seq<string>, start: FS, now: FS, j: nat,
                                       n: nat, j2: nat, n2: nat, rel: Path, times: nat)
    requires Ready(a, root, ps, start) && Ready(b, root, ps, start) && Holds(a, start, now) && Holds(b, start, now)
    requires IsSite(a.cfg, a.ast, j, n) && IsSite(b.cfg, b.ast, j2, n2)
    requires DirAt(b, j2, n2) == DirAt(a, j, n) + rel
    ensures Pruned(a.cfg.folder, start, root, Times(rel, times)) == Some(Dir)
  {
    ProjectItself(a, root, ps, start);
    ProjectItself(b, root, ps, start);
    if times > 0 {
      var inner := Times(rel, times - 1);
      HeldForever(a, b, root, ps, start, now, j, n, j2, n2, rel, times - 1);
      HeldOnce(a, b, root, start, now, j, n, j2, n2, rel, inner);
    }
  }

  lemma HeldOnce(a: Job, b: Job, root: Path, start: FS, now: FS, j: nat, n: nat, j2: nat, n2: nat, rel: Path,
                 inner: Path)
    requires a.cfg.root == b.cfg.root == root && a.cfg.folder == b.cfg.folder
    requires Holds(a, start, now) && Holds(b, start, now)
    requires IsSite(a.cfg, a.ast, j, n) && IsSite(b.cfg, b.ast, j2, n2)
    requires DirAt(b, j2, n2) == DirAt(a, j, n) + rel
    requires Pruned(a.cfg.folder, start, root, inner) == Some(Dir)
    requires Pruned(b.cfg.folder, start, root, b.cfg.parts) != Some(Dir)
    ensures Pruned(a.cfg.folder, start, root, rel + inner) == Some(Dir)
  {
    Assoc(DirAt(a, j, n), rel, inner);
    assert HoldsMutant(b.cfg, b.ast, start, b.cfg.parts, b.cfg.operators[j2], n2, now);
    assert Get(now, DirAt(b, j2, n2) + inner)
           == MutantEntry(b.cfg, b.ast, start, b.cfg.parts, b.cfg.operators[j2], n2, inner) == Some(Dir);
    assert HoldsMutant(a.cfg, a.ast, start, a.cfg.parts, a.cfg.operators[j], n, now);
    assert Get(now, DirAt(a, j, n) + (rel + inner))
           == MutantEntry(a.cfg, a.ast, start, a.cfg.parts, a.cfg.operators[j], n, rel + inner);
  }

  lemma OneInOther(a: Job, b: Job, root: Path, ps: seq<string>, start: FS, now: FS, j: nat, n: nat, j2: nat, n2: nat,
                   rel: Path)
    requires Ready(a, root, ps, start) && Ready(b, root, ps, start)
    requires IsSite(a.cfg, a.ast, j, n) && IsSite(b.cfg, b.ast, j2, n2)
    requires rel != [] && DirAt(b, j2, n2) == DirAt(a, j, n) + rel
    ensures !(Holds(a, start, now) && Holds(b, start, now))
  {
    if Holds(a, start, now) && Holds(b, start, now) {
      var bound := Longest(start.Keys);
      TooDeep(a.cfg.folder, start, root, rel, bound);
      HeldForever(a, b, root, ps, start, now, j, n, j2, n2, rel, bound);
    }
  }

  /** Two mutants of which one lies in the other are not both complete, whatever has happened. */
  lemma NotBothComplete(a: Job, b: Job, root: Path, ps: seq<string>, start: FS, now: FS, j2: nat, n2: nat)
    requires Ready(a, root, ps, start) && Ready(b, root, ps, start)
    requires Inside(a, ShelfOf(b, ps)) && IsSite(b.cfg, b.ast, j2, n2)
    ensures !(Holds(a, start, now) && Holds(b, start, now))
  {
    var j: nat, n: nat :| IsSite(a.cfg, a.ast, j, n) && DirAt(a, j, n) <= ShelfOf(b, ps);
    var leaf := SiteShape(b, root, ps, start, j2, n2);
    var dir, shelf := DirAt(a, j, n), ShelfOf(b, ps);
    var rel := shelf[|dir|..] + [leaf];
    assert shelf == dir + shelf[|dir|..];
    Assoc(dir, shelf[|dir|..], [leaf]);
    OneInOther(a, b, root, ps, start, now, j, n, j2, n2, rel);
  }

  // ----- the results -----

  ghost predicate HasSite(job: Job) {
    && ValidRun(job.cfg, job.ast)
    && exists j: nat, n: nat :: IsSite(job.cfg, job.ast, j, n)
  }

  ghost predicate AllHold(jobs: seq<Job>, start: FS, now: FS) {
    forall k | 0 <= k < |jobs| :: Holds(jobs[k], start, now)
  }

  ghost predicate AllValid(jobs: seq<Job>) {
    forall k | 0 <= k < |jobs| :: ValidRun(jobs[k].cfg, jobs[k].ast) && jobs[k].cfg.parts != []
  }

  /** No file lies below a directory that is named like a mutant of another one. */
  ghost predicate PathsApart(jobs: seq<Job>)
    requires AllValid(jobs)
  {
    forall i, k, j: nat, n: nat
      | 0 <= i < |jobs| && 0 <= k < |jobs| && i != k && IsSite(jobs[i].cfg, jobs[i].ast, j, n) ::
      !LeadsThrough(jobs[i].cfg.parts, Suffix(RegisteredName(jobs[i].cfg.operators[j]), n), jobs[k].cfg.parts)
  }

  lemma ReadyIsValid(jobs: seq<Job>, root: Path, ps: seq<string>, start: FS)
    requires AllReady(jobs, root, ps, start)
    ensures AllValid(jobs)
  {
    forall k | 0 <= k < |jobs|
      ensures ValidRun(jobs[k].cfg, jobs[k].ast) && jobs[k].cfg.parts != []
    {
      assert Ready(jobs[k], root, ps, start);
    }
  }

  lemma ApartIff(jobs: seq<Job>, root: Path, ps: seq<string>, start: FS)
    requires AllReady(jobs, root, ps, start)
    ensures AllValid(jobs)
    ensures Apart(jobs, ps) <==> PathsApart(jobs)
  {
    ReadyIsValid(jobs, root, ps, start);
    forall i, k | 0 <= i < |jobs| && 0 <= k < |jobs| && i != k
      ensures Inside(jobs[i], ShelfOf(jobs[k], ps))
              <==> exists j: nat, n: nat :: IsSite(jobs[i].cfg, jobs[i].ast, j, n)
                     && LeadsThrough(jobs[i].cfg.parts, Suffix(RegisteredName(jobs[i].cfg.operators[j]), n),
                                     jobs[k].cfg.parts)
    {
      InsideIff(jobs[i], jobs[k], root, ps, start);
    }
  }

  /** If the paths are apart, the loop never panics, and at its end every mutant of every file is the pruned project
      as it was at the start with exactly its one mutation; outside the mutants only directories are new. */
  lemma AllMutantsSurvive(jobs: seq<Job>, root: Path, ps: seq<string>, disks: seq<FS>,
                          runs: seq<seq<Protocol.State>>, k: nat)
    requires FilesRun(jobs, ps, disks, runs, k) && WellFormed(disks[0]) && AllReady(jobs, root, ps, disks[0])
    requires Apart(jobs, ps)
    ensures WellFormed(disks[k])
    ensures forall i | 0 <= i < k :: Holds(jobs[i], disks[0], disks[k])
    ensures forall p :: Explained(jobs, ps, disks[0], k, k, disks[k], p)
    ensures k < |jobs| ==> MakeFolders(disks[k], root + ps, ShelfOf(jobs[k], ps)).Some?
  {
    FilesSpread(jobs, root, ps, disks, runs, k);
    if k < |jobs| {
      var made := FoldersMade(jobs, root, ps, disks[0], k, disks[k]);
    }
  }

  /** For files that have something to mutate: all mutants survive the run if and only if the paths are apart. */
  lemma AllMutantsIff(jobs: seq<Job>, root: Path, ps: seq<string>, disks: seq<FS>, runs: seq<seq<Protocol.State>>)
    requires FilesRun(jobs, ps, disks, runs, |jobs|) && WellFormed(disks[0])
    requires AllReady(jobs, root, ps, disks[0]) && forall k | 0 <= k < |jobs| :: HasSite(jobs[k])
    ensures AllValid(jobs)
    ensures AllHold(jobs, disks[0], disks[|jobs|]) <==> PathsApart(jobs)
  {
    ApartIff(jobs, root, ps, disks[0]);
    if Apart(jobs, ps) {
      AllMutantsSurvive(jobs, root, ps, disks, runs, |jobs|);
    } else {
      var i, k :| 0 <= i < |jobs| && 0 <= k < |jobs| && i != k && Inside(jobs[i], ShelfOf(jobs[k], ps));
      assert HasSite(jobs[k]);
      var j: nat, n: nat :| IsSite(jobs[k].cfg, jobs[k].ast, j, n);
      NotBothComplete(jobs[i], jobs[k], root, ps, disks[0], disks[|jobs|], j, n);
    }
  }

  /** What one call of `mutate` returns. */
  function Returned(run: seq<Protocol.State>): seq<MutantInfo> {
    if run == [] then [] else run[|run| - 1].progress.infos
  }

  /** The loop appends one list after another to `allMutantInfo`. */
  function Collected(runs: seq<seq<Protocol.State>>): seq<MutantInfo> {
    Flatten(seq(|runs|, i requires 0 <= i < |runs| => Returned(runs[i])))
  }

  ghost function Expected(jobs: seq<Job>): seq<MutantInfo>
    requires AllValid(jobs)
  {
    Flatten(seq(|jobs|, i requires 0 <= i < |jobs| => ListedIn(jobs[i])))
  }

  ghost function ListedIn(job: Job): seq<MutantInfo>
    requires ValidRun(job.cfg, job.ast)
  {
    ListedOps(job.cfg, job.ast, |job.cfg.operators|)
  }

  lemma StepReturns(jobs: seq<Job>, root: Path, ps: seq<string>, start: FS, k: nat, now: FS, run: seq<Protocol.State>,
                    after: FS)
    requires AllReady(jobs, root, ps, start) && Apart(jobs, ps) && k < |jobs| && Spread(jobs, ps, start, k, k, now)
    requires FileRun(jobs[k], ps, now, run, after)
    ensures ValidRun(jobs[k].cfg, jobs[k].ast) && Returned(run) == ListedIn(jobs[k])
  {
    assert Ready(jobs[k], root, ps, start);
    FileStep(jobs, root, ps, start, k, now, run, after);
  }

  lemma ListsAgree(jobs: seq<Job>, runs: seq<seq<Protocol.State>>)
    requires AllValid(jobs) && |runs| == |jobs|
    requires forall i | 0 <= i < |jobs| :: Returned(runs[i]) == ListedIn(jobs[i])
    ensures Collected(runs) == Expected(jobs)
  {
    var returned := seq(|runs|, i requires 0 <= i < |runs| => Returned(runs[i]));
    var listed := seq(|jobs|, i requires 0 <= i < |jobs| => ListedIn(jobs[i]));
    assert returned == listed;
  }

  /** So the list that is returned names exactly the mutants that were written, file by file. */
  lemma ListsCollected(jobs: seq<Job>, root: Path, ps: seq<string>, disks: seq<FS>, runs: seq<seq<Protocol.State>>)
    requires |runs| == |jobs| && FilesRun(jobs, ps, disks, runs, |jobs|) && WellFormed(disks[0])
    requires AllReady(jobs, root, ps, disks[0]) && Apart(jobs, ps)
    ensures AllValid(jobs) && Collected(runs) == Expected(jobs)
  {
    ReadyIsValid(jobs, root, ps, disks[0]);
    forall i | 0 <= i < |jobs|
      ensures Returned(runs[i]) == ListedIn(jobs[i])
    {
      LastReturns(jobs, root, ps, disks, runs, i);
    }
    ListsAgree(jobs, runs);
  }

  lemma LastReturns(jobs: seq<Job>, root: Path, ps: seq<string>, disks: seq<FS>, runs: seq<seq<Protocol.State>>,
                    i: nat)
    requires FilesRun(jobs, ps, disks, runs, |jobs|) && WellFormed(disks[0])
    requires AllReady(jobs, root, ps, disks[0]) && Apart(jobs, ps) && i < |jobs|
    ensures ValidRun(jobs[i].cfg, jobs[i].ast) && Returned(runs[i]) == ListedIn(jobs[i])
  {
    FilesSpread(jobs, root, ps, disks, runs, i);
    StepReturns(jobs, root, ps, disks[0], i, disks[i], runs[i], disks[i + 1]);
  }

  // ----- the order of a Go map does not matter -----

  /** The same files in any order, as often as they are there. */
  ghost predicate SameFiles(jobs: seq<Job>, others: seq<Job>) {
    && (forall job | job in jobs :: job in others)
    && (forall job | job in others :: job in jobs)
  }

  lemma SameMutants(jobs: seq<Job>, others: seq<Job>, ps: seq<string>, p: Path)
    requires SameFiles(jobs, others)
    ensures InMutants(jobs, |jobs|, p) ==> InMutants(others, |others|, p)
    ensures OnTheWay(jobs, ps, |jobs|, p) ==> OnTheWay(others, ps, |others|, p)
  {
    if InMutants(jobs, |jobs|, p) {
      var i :| 0 <= i < |jobs| && Inside(jobs[i], p);
      assert jobs[i] in jobs;
      var k :| 0 <= k < |others| && others[k] == jobs[i];
      assert InMutants(others, |others|, p);
    }
    if OnTheWay(jobs, ps, |jobs|, p) {
      var i :| 0 <= i < |jobs| && p <= ShelfOf(jobs[i], ps);
      assert jobs[i] in jobs;
      var k :| 0 <= k < |others| && others[k] == jobs[i];
      assert OnTheWay(others, ps, |others|, p);
    }
  }

  lemma SameInside(job: Job, start: FS, now: FS, other: FS, p: Path)
    requires Holds(job, start, now) && Holds(job, start, other) && Inside(job, p)
    ensures Get(now, p) == Get(other, p)
  {
    var j: nat, n: nat :| IsSite(job.cfg, job.ast, j, n) && DirAt(job, j, n) <= p;
    var rel := p[|DirAt(job, j, n)|..];
    assert p == DirAt(job, j, n) + rel;
    assert HoldsMutant(job.cfg, job.ast, start, job.cfg.parts, job.cfg.operators[j], n, now);
    assert HoldsMutant(job.cfg, job.ast, start, job.cfg.parts, job.cfg.operators[j], n, other);
  }

  lemma SamePath(jobs: seq<Job>, others: seq<Job>, ps: seq<string>, start: FS, now: FS, other: FS, p: Path)
    requires SameFiles(jobs, others) && AllHold(jobs, start, now) && AllHold(others, start, other)
    requires Explained(jobs, ps, start, |jobs|, |jobs|, now, p)
    requires Explained(others, ps, start, |others|, |others|, other, p)
    ensures Get(now, p) == Get(other, p)
  {
    SameMutants(jobs, others, ps, p);
    SameMutants(others, jobs, ps, p);
    if InMutants(jobs, |jobs|, p) {
      var i :| 0 <= i < |jobs| && Inside(jobs[i], p);
      assert jobs[i] in jobs;
      var k :| 0 <= k < |others| && others[k] == jobs[i];
      SameInside(jobs[i], start, now, other, p);
    }
  }

  lemma SameDisk(fs: FS, other: FS)
    requires forall p :: Get(fs, p) == Get(other, p)
    ensures fs == other
  {
    forall p
      ensures p in fs <==> p in other
      ensures p in fs ==> fs[p] == other[p]
    {
      assert Get(fs, p) == Get(other, p);
    }
  }

  /** Two runs over the same files, in whatever order and with whatever interleavings, end with the same disk. */
  lemma OrderDoesNotMatter(jobs: seq<Job>, others: seq<Job>, root: Path, ps: seq<string>,
                           disks: seq<FS>, runs: seq<seq<Protocol.State>>,
                           disks2: seq<FS>, runs2: seq<seq<Protocol.State>>)
    requires FilesRun(jobs, ps, disks, runs, |jobs|) && FilesRun(others, ps, disks2, runs2, |others|)
    requires disks[0] == disks2[0] && WellFormed(disks[0]) && SameFiles(jobs, others)
    requires AllReady(jobs, root, ps, disks[0]) && AllReady(others, root, ps, disks[0])
    requires Apart(jobs, ps) && Apart(others, ps)
    ensures disks[|jobs|] == disks2[|others|]
  {
    var start, now, other := disks[0], disks[|jobs|], disks2[|others|];
    AllMutantsSurvive(jobs, root, ps, disks, runs, |jobs|);
    AllMutantsSurvive(others, root, ps, disks2, runs2, |others|);
    forall p
      ensures Get(now, p) == Get(other, p)
    {
      assert Explained(jobs, ps, start, |jobs|, |jobs|, now, p);
      assert Explained(others, ps, start, |others|, |others|, other, p);
      SamePath(jobs, others, ps, start, now, other, p);
    }
    SameDisk(now, other);
  }
}
