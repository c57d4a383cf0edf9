/** Two runs together: what `mutateFiles` leaves for many files, a later run finds. */
module ManyScanned {
  import opened Options
  import opened Sequences
  import opened SortedNames
  import opened FileSystem
  import opened Text
  import opened TreeCopy
  import opened Mutators
  import opened Names
  import opened MutateRun
  import opened ProjectRun
  import opened ManyFiles
  import opened MutantScan
  import opened ScanMeaning
  import Protocol

  /** The path of a Go file of which no directory is named as the pattern for mutants says. */
  ghost predicate Ordinary(parts: seq<string>) {
    && parts != [] && AllPlain(parts) && IsGoFileName(Last(parts))
    && forall k | 0 <= k < |parts| - 1 :: !SplitsAsMutant(parts[k])
  }

  /** Every file has an ordinary path, and the mutant folder holds nothing but ways to their mutants. */
  ghost predicate CleanFolder(jobs: seq<Job>, root: Path, ps: seq<string>, start: FS) {
    && jobs != [] && AllReady(jobs, root, ps, start) && WellFormed(start)
    && (forall k | 0 <= k < |jobs| :: Ordinary(jobs[k].cfg.parts))
    && (forall p | p in start && root + ps <= p :: OnTheWay(jobs, ps, |jobs|, p))
  }

  // ----- such files are apart -----

  lemma OrdinaryDirectory(parts: seq<string>, k: nat)
    requires Ordinary(parts) && k < |parts| - 1
    ensures !IsMutant(parts[k])
  {
    NotTaken(parts[k]);
  }

  lemma MutantNamed(job: Job, root: Path, ps: seq<string>, fs: FS, op: Operator, n: nat)
    requires Ready(job, root, ps, fs) && Ordinary(job.cfg.parts)
    ensures var x := Last(job.cfg.parts) + Suffix(RegisteredName(op), n);
            && IsMutant(x)
            && GetMutatedFileRelativePath(Spelled(Init(job.cfg.parts)), x) == Some(job.cfg.file)
            && Comps(job.cfg.file) == job.cfg.parts
  {
    var x := Last(job.cfg.parts) + Suffix(RegisteredName(op), n);
    NameRead(job.cfg, ps, job.cfg.parts, op, n, x);
    CompsJoin(job.cfg.parts);
  }

  lemma OrdinaryApart(jobs: seq<Job>, root: Path, ps: seq<string>, start: FS)
    requires CleanFolder(jobs, root, ps, start)
    ensures Apart(jobs, ps)
  {
    ReadyIsValid(jobs, root, ps, start);
    ApartIff(jobs, root, ps, start);
    forall i, k, j: nat, n: nat
      | 0 <= i < |jobs| && 0 <= k < |jobs| && i != k && IsSite(jobs[i].cfg, jobs[i].ast, j, n)
      ensures !LeadsThrough(jobs[i].cfg.parts, Suffix(RegisteredName(jobs[i].cfg.operators[j]), n), jobs[k].cfg.parts)
    {
      var first, second := jobs[i].cfg.parts, jobs[k].cfg.parts;
      assert Ready(jobs[i], root, ps, start);
      MutantNamed(jobs[i], root, ps, start, jobs[i].cfg.operators[j], n);
      if |first| < |second| {
        OrdinaryDirectory(second, |first| - 1);
      }
    }
  }

  // ----- the state after the whole loop -----

  ghost predicate AllDone(jobs: seq<Job>, root: Path, ps: seq<string>, start: FS, now: FS) {
    && CleanFolder(jobs, root, ps, start) && Apart(jobs, ps) && WellFormed(now)
    && (forall k | 0 <= k < |jobs| :: Holds(jobs[k], start, now))
    && (forall p :: Explained(jobs, ps, start, |jobs|, |jobs|, now, p))
  }

  lemma LoopDone(jobs: seq<Job>, root: Path, ps: seq<string>, disks: seq<FS>, runs: seq<seq<Protocol.State>>)
    requires FilesRun(jobs, ps, disks, runs, |jobs|) && CleanFolder(jobs, root, ps, disks[0])
    ensures AllDone(jobs, root, ps, disks[0], disks[|jobs|])
  {
    OrdinaryApart(jobs, root, ps, disks[0]);
    AllMutantsSurvive(jobs, root, ps, disks, runs, |jobs|);
  }

  /** `rel` is the way to the mutants of the file, or the front of it. */
  ghost predicate OnWayTo(job: Job, rel: Path) {
    job.cfg.parts != [] && rel <= Init(job.cfg.parts)
  }

  ghost predicate OnSomeWay(jobs: seq<Job>, rel: Path) {
    exists k | 0 <= k < |jobs| :: OnWayTo(jobs[k], rel)
  }

  lemma WayIsShelf(job: Job, root: Path, ps: seq<string>, fs: FS, rel: Path)
    requires Ready(job, root, ps, fs)
    ensures root + ps + rel <= ShelfOf(job, ps) <==> OnWayTo(job, rel)
  {
    PrefixOfBoth(root + ps, rel, Init(job.cfg.parts));
  }

  /** A mutant of any file is not above a directory on any way. */
  lemma NoMutantAbove(jobs: seq<Job>, root: Path, ps: seq<string>, start: FS, now: FS, i: nat, k: nat, p: Path)
    requires AllDone(jobs, root, ps, start, now) && i < |jobs| && k < |jobs| && p <= ShelfOf(jobs[k], ps)
    ensures !Inside(jobs[i], p)
  {
    if Inside(jobs[i], p) {
      assert Ready(jobs[i], root, ps, start);
      InsideDown(jobs[i], p, ShelfOf(jobs[k], ps));
      if i == k {
        var j: nat, n: nat :| IsSite(jobs[i].cfg, jobs[i].ast, j, n) && DirAt(jobs[i], j, n) <= ShelfOf(jobs[i], ps);
        var leaf := SiteShape(jobs[i], root, ps, start, j, n);
      }
    }
  }

  lemma WayIsDir(jobs: seq<Job>, root: Path, ps: seq<string>, start: FS, now: FS, rel: Path)
    requires AllDone(jobs, root, ps, start, now) && OnSomeWay(jobs, rel)
    ensures IsDir(now, root + ps + rel)
  {
    var k :| 0 <= k < |jobs| && OnWayTo(jobs[k], rel);
    var p := root + ps + rel;
    assert Ready(jobs[k], root, ps, start);
    WayIsShelf(jobs[k], root, ps, start, rel);
    NoFileAbove(start, ShelfOf(jobs[k], ps), p);
    NoneAbove(jobs, root, ps, start, now, k, p);
    WayThere(jobs, ps, start, now, k, p);
  }

  lemma NoneAbove(jobs: seq<Job>, root: Path, ps: seq<string>, start: FS, now: FS, k: nat, p: Path)
    requires AllDone(jobs, root, ps, start, now) && k < |jobs| && p <= ShelfOf(jobs[k], ps)
    ensures !InMutants(jobs, |jobs|, p) && Explained(jobs, ps, start, |jobs|, |jobs|, now, p)
  {
    if InMutants(jobs, |jobs|, p) {
      var i :| 0 <= i < |jobs| && Inside(jobs[i], p);
      NoMutantAbove(jobs, root, ps, start, now, i, k, p);
    }
    assert Explained(jobs, ps, start, |jobs|, |jobs|, now, p);
  }

  lemma WayThere(jobs: seq<Job>, ps: seq<string>, start: FS, now: FS, k: nat, p: Path)
    requires k < |jobs| && p <= ShelfOf(jobs[k], ps) && !IsFile(start, p)
    requires !InMutants(jobs, |jobs|, p) && Explained(jobs, ps, start, |jobs|, |jobs|, now, p)
    ensures IsDir(now, p)
  {
    assert OnTheWay(jobs, ps, |jobs|, p);
  }

  /** The entry is the mutant of a site of the file. */
  ghost predicate MutantOf(job: Job, rel: Path, x: string, j: nat, n: nat) {
    && ValidRun(job.cfg, job.ast) && IsSite(job.cfg, job.ast, j, n)
    && job.cfg.parts != [] && rel == Init(job.cfg.parts)
    && x == Last(job.cfg.parts) + Suffix(RegisteredName(job.cfg.operators[j]), n)
  }

  ghost predicate IsMutantEntry(jobs: seq<Job>, rel: Path, x: string, k: nat, j: nat, n: nat) {
    k < |jobs| && MutantOf(jobs[k], rel, x, j, n)
  }

  /** Below a directory on a way there is the next one of some way, or a mutant, and nothing else. */
  lemma EntryOnWay(jobs: seq<Job>, root: Path, ps: seq<string>, start: FS, now: FS, rel: Path, x: string)
    requires AllDone(jobs, root, ps, start, now) && OnSomeWay(jobs, rel) && root + ps + rel + [x] in now
    ensures OnSomeWay(jobs, rel + [x])
            || exists k: nat, j: nat, n: nat :: IsMutantEntry(jobs, rel, x, k, j, n)
  {
    var p := root + ps + rel + [x];
    Assoc(root + ps, rel, [x]);
    assert Explained(jobs, ps, start, |jobs|, |jobs|, now, p);
    if InMutants(jobs, |jobs|, p) {
      var i :| 0 <= i < |jobs| && Inside(jobs[i], p);
      MutantOnWay(jobs, root, ps, start, now, rel, x, i);
    } else {
      assert root + ps <= p by { assert p[..|root + ps|] == root + ps; }
      assert OnTheWay(jobs, ps, |jobs|, p);
      var k :| 0 <= k < |jobs| && p <= ShelfOf(jobs[k], ps);
      assert Ready(jobs[k], root, ps, start);
      WayIsShelf(jobs[k], root, ps, start, rel + [x]);
    }
  }

  lemma MutantOnWay(jobs: seq<Job>, root: Path, ps: seq<string>, start: FS, now: FS, rel: Path, x: string, i: nat)
    requires AllDone(jobs, root, ps, start, now) && OnSomeWay(jobs, rel)
    requires i < |jobs| && Inside(jobs[i], root + ps + rel + [x])
    ensures exists k: nat, j: nat, n: nat :: IsMutantEntry(jobs, rel, x, k, j, n)
  {
    var d := root + ps + rel;
    var k :| 0 <= k < |jobs| && OnWayTo(jobs[k], rel);
    assert Ready(jobs[k], root, ps, start) && Ready(jobs[i], root, ps, start);
    WayIsShelf(jobs[k], root, ps, start, rel);
    NoMutantAbove(jobs, root, ps, start, now, i, k, d);
    var j: nat, n: nat :| IsSite(jobs[i].cfg, jobs[i].ast, j, n) && DirAt(jobs[i], j, n) <= d + [x];
    AboveSnoc(DirAt(jobs[i], j, n), d, x);
    var leaf := SiteShape(jobs[i], root, ps, start, j, n);
    SnocInjective(ShelfOf(jobs[i], ps), leaf, d, x);
    FrontInjective(root + ps, Init(jobs[i].cfg.parts), rel);
    assert IsMutantEntry(jobs, rel, x, i, j, n);
  }

  lemma FrontInjective(front: Path, a: Path, b: Path)
    requires front + a == front + b
    ensures a == b
  {
    assert a == (front + a)[|front|..] && b == (front + b)[|front|..];
  }

  // ----- what the search makes of it -----

  lemma WayNotMutant(jobs: seq<Job>, root: Path, ps: seq<string>, start: FS, rel: Path, x: string)
    requires CleanFolder(jobs, root, ps, start) && OnSomeWay(jobs, rel + [x])
    ensures !IsMutant(x) && Plain(x) && AllPlain(rel)
  {
    var k :| 0 <= k < |jobs| && OnWayTo(jobs[k], rel + [x]);
    assert Ordinary(jobs[k].cfg.parts);
    OrdinaryWay(jobs[k].cfg.parts, rel, x);
  }

  lemma OrdinaryWay(parts: seq<string>, rel: Path, x: string)
    requires Ordinary(parts) && rel + [x] <= Init(parts)
    ensures !IsMutant(x) && Plain(x) && AllPlain(rel)
  {
    assert Init(parts)[..|rel + [x]|] == rel + [x];
    assert parts[|rel|] == (rel + [x])[|rel|] == x;
    OrdinaryDirectory(parts, |rel|);
    forall m | 0 <= m < |rel|
      ensures Plain(rel[m])
    {
      assert rel[m] == (rel + [x])[m] == parts[m];
    }
  }

  /** A mutant has its directory and its file, and its name leads back to the original. */
  lemma MutantEntryRead(jobs: seq<Job>, root: Path, ps: seq<string>, start: FS, now: FS, rel: Path, x: string, k: nat,
                        j: nat, n: nat)
    requires AllDone(jobs, root, ps, start, now) && IsMutantEntry(jobs, rel, x, k, j, n)
    ensures var job := jobs[k];
            && DirAt(job, j, n) == root + ps + rel + [x]
            && IsDir(now, root + ps + rel + [x]) && IsMutant(x)
            && GetMutatedFileRelativePath(Spelled(rel), x) == Some(job.cfg.file)
            && Comps(job.cfg.file) == job.cfg.parts
            && IsFile(now, root + ps + rel + [x] + job.cfg.parts)
  {
    var job := jobs[k];
    assert Ready(job, root, ps, start) && Ordinary(job.cfg.parts) && Holds(job, start, now);
    var leaf := SiteShape(job, root, ps, start, j, n);
    MutantNamed(job, root, ps, start, job.cfg.operators[j], n);
    RootAndFile(job.cfg, job.ast, ps, job.cfg.parts, start);
    assert HoldsMutant(job.cfg, job.ast, start, job.cfg.parts, job.cfg.operators[j], n, now);
    MutantThere(job.cfg, job.ast, job.cfg.parts, start, job.cfg.operators[j], n, now);
  }

  /** Nothing on the ways ends a loop of the search. */
  lemma NothingStops(jobs: seq<Job>, root: Path, ps: seq<string>, start: FS, now: FS, rel: Path, y: string)
    requires AllDone(jobs, root, ps, start, now) && OnSomeWay(jobs, rel)
    ensures !Stops(now, root + ps + rel, Spelled(rel), y)
  {
    var d := root + ps + rel;
    if Stops(now, d, Spelled(rel), y) {
      EntryOnWay(jobs, root, ps, start, now, rel, y);
      if OnSomeWay(jobs, rel + [y]) {
        WayNotMutant(jobs, root, ps, start, rel, y);
      } else {
        var k: nat, j: nat, n: nat :| IsMutantEntry(jobs, rel, y, k, j, n);
        MutantEntryRead(jobs, root, ps, start, now, rel, y, k, j, n);
      }
    }
  }

  lemma AllGotTo(jobs: seq<Job>, root: Path, ps: seq<string>, start: FS, now: FS, rel: Path, x: string)
    requires AllDone(jobs, root, ps, start, now) && OnSomeWay(jobs, rel)
    ensures GetsTo(now, root + ps + rel, Spelled(rel), x)
  {
    forall y | root + ps + rel + [y] in now && y != x && AtMost(y, x)
      ensures !Stops(now, root + ps + rel, Spelled(rel), y)
    {
      NothingStops(jobs, root, ps, start, now, rel, y);
    }
  }

  /** The entry for one site of one wanted file. */
  ghost predicate SiteEntry(jobs: seq<Job>, files: set<string>, k: nat, j: nat, n: nat, info: MutantInfo) {
    && k < |jobs| && ValidRun(jobs[k].cfg, jobs[k].ast) && IsSite(jobs[k].cfg, jobs[k].ast, j, n)
    && jobs[k].cfg.file in files && info == InfoOf(jobs[k].cfg, DirAt(jobs[k], j, n))
  }

  lemma MutantGives(jobs: seq<Job>, root: Path, ps: seq<string>, start: FS, now: FS, files: set<string>, rel: Path,
                    x: string, k: nat, j: nat, n: nat, info: MutantInfo)
    requires AllDone(jobs, root, ps, start, now) && IsMutantEntry(jobs, rel, x, k, j, n)
    ensures Gives(now, files, root + ps + rel, Spelled(rel), x, info) <==> SiteEntry(jobs, files, k, j, n, info)
  {
    assert Ready(jobs[k], root, ps, start);
    MutantEntryRead(jobs, root, ps, start, now, rel, x, k, j, n);
  }

  lemma SpelledDown(jobs: seq<Job>, root: Path, ps: seq<string>, start: FS, rel: Path, x: string)
    requires CleanFolder(jobs, root, ps, start) && OnSomeWay(jobs, rel + [x])
    ensures AppendFolder(Spelled(rel), x) == Spelled(rel + [x])
  {
    WayNotMutant(jobs, root, ps, start, rel, x);
    SpelledStep(rel, x);
  }

  lemma FrontOnWay(jobs: seq<Job>, rel: Path, more: Path)
    requires OnSomeWay(jobs, rel + more)
    ensures OnSomeWay(jobs, rel)
  {
    var k :| 0 <= k < |jobs| && OnWayTo(jobs[k], rel + more);
    assert rel <= rel + more;
    Through(rel, rel + more, Init(jobs[k].cfg.parts));
    assert OnWayTo(jobs[k], rel);
  }

  lemma AlongOneMore(fs: FS, files: set<string>, dir: Path, pathSoFar: string, y: string, way: seq<string>,
                     info: MutantInfo)
    requires IsDir(fs, dir) && GetsTo(fs, dir, pathSoFar, y) && IsDir(fs, dir + [y]) && !IsMutant(y)
    requires FoundAlong(fs, files, dir + [y], AppendFolder(pathSoFar, y), way, info)
    ensures FoundAlong(fs, files, dir, pathSoFar, [y] + way, info)
  {
    assert ([y] + way)[1..] == way;
  }

  lemma AlongOne(fs: FS, files: set<string>, dir: Path, pathSoFar: string, x: string, info: MutantInfo)
    requires IsDir(fs, dir) && GetsTo(fs, dir, pathSoFar, x) && Gives(fs, files, dir, pathSoFar, x, info)
    ensures FoundAlong(fs, files, dir, pathSoFar, [x], info)
  {
  }

  /** One step down a way. */
  lemma StepDown(jobs: seq<Job>, root: Path, ps: seq<string>, start: FS, now: FS, files: set<string>, rel: Path,
                 y: string, way: seq<string>, info: MutantInfo)
    requires AllDone(jobs, root, ps, start, now) && OnSomeWay(jobs, rel + [y])
    requires FoundAlong(now, files, root + ps + (rel + [y]), Spelled(rel + [y]), way, info)
    ensures FoundAlong(now, files, root + ps + rel, Spelled(rel), [y] + way, info)
  {
    FrontOnWay(jobs, rel, [y]);
    WayIsDir(jobs, root, ps, start, now, rel);
    WayIsDir(jobs, root, ps, start, now, rel + [y]);
    AllGotTo(jobs, root, ps, start, now, rel, y);
    WayNotMutant(jobs, root, ps, start, rel, y);
    SpelledDown(jobs, root, ps, start, rel, y);
    Assoc(root + ps, rel, [y]);
    AlongOneMore(now, files, root + ps + rel, Spelled(rel), y, way, info);
  }

  lemma LastStep(jobs: seq<Job>, root: Path, ps: seq<string>, start: FS, now: FS, files: set<string>, rel: Path,
                 x: string, k: nat, j: nat, n: nat, info: MutantInfo)
    requires AllDone(jobs, root, ps, start, now) && IsMutantEntry(jobs, rel, x, k, j, n)
    requires SiteEntry(jobs, files, k, j, n, info)
    ensures FoundAlong(now, files, root + ps + rel, Spelled(rel), [x], info)
  {
    assert OnWayTo(jobs[k], rel);
    assert OnSomeWay(jobs, rel);
    WayIsDir(jobs, root, ps, start, now, rel);
    AllGotTo(jobs, root, ps, start, now, rel, x);
    MutantGives(jobs, root, ps, start, now, files, rel, x, k, j, n, info);
    AlongOne(now, files, root + ps + rel, Spelled(rel), x, info);
  }

  /** Down the way to each site leads to its entry. */
  lemma {:induction false} SiteFound(jobs: seq<Job>, root: Path, ps: seq<string>, start: FS, now: FS,
                                     files: set<string>, rel: Path, rest: Path, x: string, k: nat, j: nat, n: nat,
                                     info: MutantInfo)
    requires AllDone(jobs, root, ps, start, now) && IsMutantEntry(jobs, rel + rest, x, k, j, n)
    requires SiteEntry(jobs, files, k, j, n, info)
    ensures FoundAlong(now, files, root + ps + rel, Spelled(rel), rest + [x], info)
    decreases |rest|
  {
    if rest == [] {
      assert rel + rest == rel && rest + [x] == [x];
      LastStep(jobs, root, ps, start, now, files, rel, x, k, j, n, info);
    } else {
      var y, later := rest[0], rest[1..];
      Assoc(rel, [y], later);
      assert [y] + later == rest;
      SiteFound(jobs, root, ps, start, now, files, rel + [y], later, x, k, j, n, info);
      assert OnWayTo(jobs[k], rel + [y] + later);
      assert OnSomeWay(jobs, rel + [y] + later);
      FrontOnWay(jobs, rel + [y], later);
      StepDown(jobs, root, ps, start, now, files, rel, y, later + [x], info);
      Assoc([y], later, [x]);
    }
  }

  /** Whatever is found is the entry of a site. */
  lemma {:induction false} FoundSite(jobs: seq<Job>, root: Path, ps: seq<string>, start: FS, now: FS,
                                     files: set<string>, rel: Path, way: seq<string>, info: MutantInfo)
    requires AllDone(jobs, root, ps, start, now) && OnSomeWay(jobs, rel)
    requires FoundAlong(now, files, root + ps + rel, Spelled(rel), way, info)
    ensures exists k: nat, j: nat, n: nat :: SiteEntry(jobs, files, k, j, n, info)
    decreases |way|
  {
    var x := way[0];
    EntryOnWay(jobs, root, ps, start, now, rel, x);
    if OnSomeWay(jobs, rel + [x]) {
      WayNotMutant(jobs, root, ps, start, rel, x);
      SpelledDown(jobs, root, ps, start, rel, x);
      Assoc(root + ps, rel, [x]);
      FoundSite(jobs, root, ps, start, now, files, rel + [x], way[1..], info);
    } else {
      var k: nat, j: nat, n: nat :| IsMutantEntry(jobs, rel, x, k, j, n);
      MutantEntryRead(jobs, root, ps, start, now, rel, x, k, j, n);
      MutantGives(jobs, root, ps, start, now, files, rel, x, k, j, n, info);
    }
  }

  /** After `mutateFiles` has gone through files with ordinary paths, in any order and with any interleavings, the scan
      of a later run finds exactly the mutants of all the wanted files, and does not fail. */
  lemma ScanFindsAllFiles(jobs: seq<Job>, root: Path, ps: seq<string>, disks: seq<FS>,
                          runs: seq<seq<Protocol.State>>, files: set<string>, info: MutantInfo)
    requires FilesRun(jobs, ps, disks, runs, |jobs|) && CleanFolder(jobs, root, ps, disks[0])
    ensures var found := Scan(disks[|jobs|], files, root + ps, "");
            && !found.failed
            && (info in found.mutants <==> exists k: nat, j: nat, n: nat :: SiteEntry(jobs, files, k, j, n, info))
  {
    var start, now := disks[0], disks[|jobs|];
    LoopDone(jobs, root, ps, disks, runs);
    var found := ScanMeans(now, files, root + ps, "", info);
    assert root + ps + [] == root + ps && Spelled([]) == "";
    assert Ready(jobs[0], root, ps, start) && OnWayTo(jobs[0], []);
    WayIsDir(jobs, root, ps, start, now, []);
    forall x | root + ps + [x] in now
      ensures !Stops(now, root + ps, "", x)
    {
      NothingStops(jobs, root, ps, start, now, [], x);
    }
    if way :| Leads(now, files, root + ps, "", way, info) {
      FoundSite(jobs, root, ps, start, now, files, [], way, info);
    }
    if k: nat, j: nat, n: nat :| SiteEntry(jobs, files, k, j, n, info) {
      var way := SiteWay(jobs, root, ps, start, now, files, k, j, n, info);
    }
  }

  lemma SiteWay(jobs: seq<Job>, root: Path, ps: seq<string>, start: FS, now: FS, files: set<string>, k: nat, j: nat,
                n: nat, info: MutantInfo) returns (way: seq<string>)
    requires AllDone(jobs, root, ps, start, now) && SiteEntry(jobs, files, k, j, n, info)
    ensures Leads(now, files, root + ps, "", way, info)
  {
    var job := jobs[k];
    assert Ready(job, root, ps, start);
    var rel, x := Init(job.cfg.parts), Last(job.cfg.parts) + Suffix(RegisteredName(job.cfg.operators[j]), n);
    assert [] + rel == rel && root + ps + [] == root + ps && Spelled([]) == "";
    assert IsMutantEntry(jobs, rel, x, k, j, n);
    SiteFound(jobs, root, ps, start, now, files, [], rel, x, k, j, n, info);
    way := rel + [x];
  }
}
