/** test_runner.go: finding the mutants of an earlier run in the mutant folder. */
module MutantScan {
  import opened Options
  import opened Sequences
  import opened SortedNames
  import opened FileSystem
  import opened Text
  import opened CopyUtils
  import opened TreeCopy
  import opened GoAst
  import opened Mutators
  import opened Names
  import opened MutateRun
  import opened ProjectRun
  import Protocol

  /** What the recursion has appended, and whether the call itself returned an error. */
  datatype Scanned = Scanned(mutants: seq<MutantInfo>, failed: bool)

  /** `createNewMutantInfo`: an error if the mutated file cannot be read, nothing if its original is not wanted. */
  datatype Creation = Unreadable | NotWanted | Created(mutant: MutantInfo)

  function CreateNewMutantInfo(fs: FS, files: set<string>, pathSoFar: string, dir: Path, name: string): Creation {
    match GetMutatedFileRelativePath(pathSoFar, name)
    case None => Unreadable
    case Some(original) =>
      var mutatedFile := dir + [name] + Comps(original);
      if !IsFile(fs, mutatedFile) then Unreadable
      else if original !in files then NotWanted
      else Created(MutantInfo(original, dir + [name], mutatedFile))
  }

  /** The entries at or below a directory; each call has fewer. */
  ghost function Below(fs: FS, dir: Path): set<Path> {
    set q | q in fs && dir <= q
  }

  lemma FewerInside(fs: FS, dir: Path, name: string)
    requires IsDir(fs, dir) && IsDir(fs, dir + [name])
    ensures |Below(fs, dir + [name])| < |Below(fs, dir)|
  {
    assert dir in Below(fs, dir) && dir !in Below(fs, dir + [name]);
    SubsetSize(Below(fs, dir + [name]), Below(fs, dir), dir);
  }

  /** `findMutantsRecursive`. */
  function Scan(fs: FS, files: set<string>, dir: Path, pathSoFar: string): Scanned
    decreases |Below(fs, dir)|, 1, 0
  {
    if !IsDir(fs, dir) then Scanned([], true) else ScanEntries(fs, files, dir, pathSoFar, ReadDir(fs, dir))
  }

  /** Its loop: an error ends it, unless it comes from a directory further down. */
  function ScanEntries(fs: FS, files: set<string>, dir: Path, pathSoFar: string, names: seq<string>): Scanned
    requires IsDir(fs, dir)
    decreases |Below(fs, dir)|, 0, |names|
  {
    if names == [] then Scanned([], false)
    else if !IsDir(fs, dir + [names[0]]) then ScanEntries(fs, files, dir, pathSoFar, names[1..])
    else if IsMutant(names[0]) then
      match CreateNewMutantInfo(fs, files, pathSoFar, dir, names[0])
      case Unreadable => Scanned([], true)
      case NotWanted => ScanEntries(fs, files, dir, pathSoFar, names[1..])
      case Created(mutant) =>
        var rest := ScanEntries(fs, files, dir, pathSoFar, names[1..]);
        Scanned([mutant] + rest.mutants, rest.failed)
    else
      FewerInside(fs, dir, names[0]);
      var inner := Scan(fs, files, dir + [names[0]], AppendFolder(pathSoFar, names[0]));
      var rest := ScanEntries(fs, files, dir, pathSoFar, names[1..]);
      Scanned(inner.mutants + rest.mutants, rest.failed)
  }

  // ----- after a run -----

  /** A run into a mutant folder that held nothing but the directories `mutateFiles` creates, over a file whose
      directories are not named as the pattern for mutants says. */
  ghost predicate CleanStart(cfg: Config, ast: Ast, ps: seq<string>, parts: seq<string>, start: FS) {
    && Prepared(cfg, ast, ps, parts, start)
    && IsDir(start, Shelf(cfg, ps, parts))
    && (forall p | p in start && cfg.root + ps <= p :: p <= Shelf(cfg, ps, parts))
    && AllPlain(parts) && IsGoFileName(Last(parts))
    && (forall k | 0 <= k < |parts| - 1 :: !SplitsAsMutant(parts[k]))
  }

  ghost predicate Finished(cfg: Config, ast: Ast, ps: seq<string>, parts: seq<string>, start: FS, now: FS)
    requires ValidRun(cfg, ast) && parts != []
  {
    OnDisk(cfg, ast, ps, parts, start, |cfg.operators|, 0, now)
  }

  function InfoOf(cfg: Config, dir: Path): MutantInfo {
    MutantInfo(cfg.file, dir, FileIn(cfg, dir))
  }

  /** The path walked so far, as the recursion spells it. */
  function Spelled(dirs: seq<string>): string {
    if dirs == [] then "" else Join(dirs)
  }

  lemma {:induction false} JoinSnoc(a: seq<string>, x: string)
    requires a != []
    ensures Join(a + [x]) == Join(a) + "/" + x
  {
    if |a| == 1 {
      assert (a + [x])[1..] == [x];
    } else {
      JoinSnoc(a[1..], x);
      assert (a + [x])[1..] == a[1..] + [x];
      Assoc(a[0] + "/", Join(a[1..]), "/");
      Assoc(a[0] + "/", Join(a[1..]) + "/", x);
    }
  }

  lemma JoinEndsPlain(a: seq<string>)
    requires a != [] && AllPlain(a)
    ensures Join(a) != "" && Join(a) != "." && !HasSuffix(Join(a), "/")
  {
    var x := a[|a| - 1];
    assert Plain(x);
    if |a| > 1 {
      var b := a[..|a| - 1];
      assert a == b + [x];
      JoinSnoc(b, x);
      assert Join(a)[|Join(a)| - 1] == x[|x| - 1];
      JoinNonEmpty(b);
    } else {
      assert Join(a) == x;
    }
    assert x[|x| - 1] != '/';
    NoSlashAtEnd(Join(a));
  }

  lemma NoSlashAtEnd(s: string)
    requires s != "" && s[|s| - 1] != '/'
    ensures !HasSuffix(s, "/")
  {
    assert s[|s| - 1..][0] == s[|s| - 1];
  }

  /** Descending one directory extends the spelled path by one component. */
  lemma SpelledStep(dirs: seq<string>, x: string)
    requires AllPlain(dirs) && Plain(x)
    ensures AppendFolder(Spelled(dirs), x) == Spelled(dirs + [x])
  {
    if dirs != [] {
      JoinEndsPlain(dirs);
      JoinSnoc(dirs, x);
    } else {
      assert dirs + [x] == [x];
    }
  }

  // ----- what lies in the mutant folder -----

  /** In the mutant folder there are the directories down to the shelf and the mutants on it. */
  lemma InFolder(cfg: Config, ast: Ast, ps: seq<string>, parts: seq<string>, start: FS, files: set<string>, now: FS,
                 p: Path)
    requires CleanStart(cfg, ast, ps, parts, start) && Finished(cfg, ast, ps, parts, start, now)
    requires p in now && cfg.root + ps <= p
    ensures p <= Shelf(cfg, ps, parts)
            || exists j: nat, n: nat :: IsSite(cfg, ast, j, n) && DirOf(cfg, cfg.operators[j], n) <= p
  {
    if !(p <= Shelf(cfg, ps, parts)) {
      assert Get(now, p) != Get(start, p);
      assert Touched(cfg, ast, ps, parts, start, |cfg.operators|, 0, p);
      var j: nat, n: nat :| ProjectRun.Done(cfg, ast, |cfg.operators|, 0, j, n) && DirOf(cfg, cfg.operators[j], n) <= p;
      assert IsSite(cfg, ast, j, n);
    }
  }

  /** The directory `k` levels below the mutant folder, on the way to the shelf. */
  ghost function Way(cfg: Config, ps: seq<string>, parts: seq<string>, k: nat): Path
    requires parts != [] && k <= |parts| - 1
  {
    cfg.root + ps + Init(parts)[..k]
  }

  lemma WaySteps(cfg: Config, ps: seq<string>, parts: seq<string>, k: nat)
    requires parts != [] && k <= |parts| - 1
    ensures var shelf := Shelf(cfg, ps, parts);
            && Way(cfg, ps, parts, k) == shelf[..|shelf| - (|parts| - 1 - k)]
            && Way(cfg, ps, parts, 0) == cfg.root + ps
            && Way(cfg, ps, parts, |parts| - 1) == shelf
            && (k < |parts| - 1 ==> Way(cfg, ps, parts, k + 1) == Way(cfg, ps, parts, k) + [parts[k]])
  {
  }

  lemma WayWasThere(start: FS, shelf: Path, p: Path)
    requires WellFormed(start) && IsDir(start, shelf) && p <= shelf
    ensures IsDir(start, p)
  {
    assert p == shelf[..|p|];
    if |p| < |shelf| {
      PrefixIsDir(start, shelf, |p|);
    } else {
      assert p == shelf;
    }
  }

  lemma StillThere(cfg: Config, ast: Ast, ps: seq<string>, parts: seq<string>, start: FS, now: FS, p: Path)
    requires Prepared(cfg, ast, ps, parts, start) && Finished(cfg, ast, ps, parts, start, now)
    requires p <= Shelf(cfg, ps, parts) && IsDir(start, p)
    ensures IsDir(now, p)
  {
    ShelfStays(cfg, ast, ps, parts, start, |cfg.operators|, 0, now, p);
    assert Get(now, p) == Get(start, p);
  }

  /** The directories down to the shelf are there before and after. */
  lemma ChainStays(cfg: Config, ast: Ast, ps: seq<string>, parts: seq<string>, start: FS, files: set<string>, now: FS,
                   k: nat)
    requires CleanStart(cfg, ast, ps, parts, start) && Finished(cfg, ast, ps, parts, start, now)
    requires k <= |parts| - 1
    ensures IsDir(now, Way(cfg, ps, parts, k))
  {
    var shelf, p := Shelf(cfg, ps, parts), Way(cfg, ps, parts, k);
    WaySteps(cfg, ps, parts, k);
    WayWasThere(start, shelf, p);
    StillThere(cfg, ast, ps, parts, start, now, p);
  }

  lemma RootAndFile(cfg: Config, ast: Ast, ps: seq<string>, parts: seq<string>, start: FS)
    requires Prepared(cfg, ast, ps, parts, start)
    ensures Pruned(cfg.folder, start, cfg.root, []) == Some(Dir)
    ensures IsFile(start, cfg.root + parts)
    ensures Pruned(cfg.folder, start, cfg.root, parts) == Get(start, cfg.root + parts)
  {
    assert cfg.root + [] == cfg.root;
  }

  lemma SiteDir(cfg: Config, ast: Ast, ps: seq<string>, parts: seq<string>, start: FS, files: set<string>, now: FS,
                j: nat, n: nat)
    requires CleanStart(cfg, ast, ps, parts, start) && Finished(cfg, ast, ps, parts, start, now)
    requires IsSite(cfg, ast, j, n)
    ensures IsDir(now, DirOf(cfg, cfg.operators[j], n))
    ensures IsFile(now, DirOf(cfg, cfg.operators[j], n) + parts)
  {
    var op := cfg.operators[j];
    assert ProjectRun.Done(cfg, ast, |cfg.operators|, 0, j, n);
    RootAndFile(cfg, ast, ps, parts, start);
    MutantThere(cfg, ast, parts, start, op, n, now);
  }

  lemma MutantThere(cfg: Config, ast: Ast, parts: seq<string>, start: FS, op: Operator, n: nat, now: FS)
    requires ValidRun(cfg, ast) && n < |Sites(cfg, ast, op)| && parts != []
    requires HoldsMutant(cfg, ast, start, parts, op, n, now)
    requires Pruned(cfg.folder, start, cfg.root, []) == Some(Dir)
    requires IsFile(start, cfg.root + parts)
    requires Pruned(cfg.folder, start, cfg.root, parts) == Get(start, cfg.root + parts)
    ensures IsDir(now, DirOf(cfg, op, n)) && IsFile(now, DirOf(cfg, op, n) + parts)
  {
    var dir := DirOf(cfg, op, n);
    assert dir + [] == dir;
    assert Get(now, dir + []) == MutantEntry(cfg, ast, start, parts, op, n, []);
    assert Get(now, dir + parts) == MutantEntry(cfg, ast, start, parts, op, n, parts);
  }

  /** A directory on the way lists just the next one. */
  lemma ChainLists(cfg: Config, ast: Ast, ps: seq<string>, parts: seq<string>, start: FS, files: set<string>, now: FS,
                   k: nat)
    requires CleanStart(cfg, ast, ps, parts, start) && Finished(cfg, ast, ps, parts, start, now)
    requires k < |parts| - 1
    ensures ReadDir(now, Way(cfg, ps, parts, k)) == [parts[k]]
  {
    ChainStays(cfg, ast, ps, parts, start, files, now, k + 1);
    WaySteps(cfg, ps, parts, k);
    var p := Way(cfg, ps, parts, k);
    forall x
      ensures p + [x] in now <==> x == parts[k]
    {
      if p + [x] in now { OnlyNext(cfg, ast, ps, parts, start, files, now, k, x); }
    }
    OneName(ReadDir(now, p), parts[k]);
  }

  lemma OnlyNext(cfg: Config, ast: Ast, ps: seq<string>, parts: seq<string>, start: FS, files: set<string>, now: FS,
                 k: nat, x: string)
    requires CleanStart(cfg, ast, ps, parts, start) && Finished(cfg, ast, ps, parts, start, now)
    requires k < |parts| - 1 && Way(cfg, ps, parts, k) + [x] in now
    ensures x == parts[k]
  {
    var p, shelf := Way(cfg, ps, parts, k), Shelf(cfg, ps, parts);
    WaySteps(cfg, ps, parts, k);
    assert cfg.root + ps <= p + [x];
    InFolder(cfg, ast, ps, parts, start, files, now, p + [x]);
    if p + [x] <= shelf {
      assert (p + [x])[|p|] == shelf[|p|] == (p + [parts[k]])[|p|];
    } else {
      var j: nat, n: nat :| IsSite(cfg, ast, j, n) && DirOf(cfg, cfg.operators[j], n) <= p + [x];
      DirIsOnShelf(cfg, ps, parts, cfg.operators[j], n);
    }
  }

  /** The shelf lists just the mutants. */
  lemma ShelfLists(cfg: Config, ast: Ast, ps: seq<string>, parts: seq<string>, start: FS, files: set<string>, now: FS,
                   x: string)
    requires CleanStart(cfg, ast, ps, parts, start) && Finished(cfg, ast, ps, parts, start, now)
    ensures var shelf := Shelf(cfg, ps, parts);
            x in ReadDir(now, shelf)
            <==> exists j: nat, n: nat :: IsSite(cfg, ast, j, n) && DirOf(cfg, cfg.operators[j], n) == shelf + [x]
  {
    var shelf := Shelf(cfg, ps, parts);
    if x in ReadDir(now, shelf) {
      assert cfg.root + ps <= shelf + [x];
      InFolder(cfg, ast, ps, parts, start, files, now, shelf + [x]);
      var j: nat, n: nat :| IsSite(cfg, ast, j, n) && DirOf(cfg, cfg.operators[j], n) <= shelf + [x];
      DirIsOnShelf(cfg, ps, parts, cfg.operators[j], n);
      assert DirOf(cfg, cfg.operators[j], n) == shelf + [x];
    }
    if j: nat, n: nat :| IsSite(cfg, ast, j, n) && DirOf(cfg, cfg.operators[j], n) == shelf + [x] {
      SiteDir(cfg, ast, ps, parts, start, files, now, j, n);
    }
  }

  // ----- what the scan returns -----

  /** A mutant on the shelf is recognised and leads back to the file. */
  lemma MutantRead(cfg: Config, ast: Ast, ps: seq<string>, parts: seq<string>, start: FS, files: set<string>, now: FS,
                   x: string)
    requires CleanStart(cfg, ast, ps, parts, start) && Finished(cfg, ast, ps, parts, start, now)
    requires x in ReadDir(now, Shelf(cfg, ps, parts))
    ensures var shelf := Shelf(cfg, ps, parts);
            && IsDir(now, shelf + [x]) && IsMutant(x)
            && CreateNewMutantInfo(now, files, Spelled(Init(parts)), shelf, x)
               == if cfg.file in files then Created(InfoOf(cfg, shelf + [x])) else NotWanted
  {
    var shelf := Shelf(cfg, ps, parts);
    ShelfLists(cfg, ast, ps, parts, start, files, now, x);
    var j: nat, n: nat :| IsSite(cfg, ast, j, n) && DirOf(cfg, cfg.operators[j], n) == shelf + [x];
    SiteDir(cfg, ast, ps, parts, start, files, now, j, n);
    DirIsOnShelf(cfg, ps, parts, cfg.operators[j], n);
    assert (shelf + [x])[|shelf|] == x;
    NameRead(cfg, ps, parts, cfg.operators[j], n, x);
  }

  lemma NameRead(cfg: Config, ps: seq<string>, parts: seq<string>, op: Operator, n: nat, x: string)
    requires IsFilePath(cfg.file, parts) && AllPlain(parts) && IsGoFileName(Last(parts))
    requires x == Last(parts) + Suffix(RegisteredName(op), n)
    ensures IsMutant(x)
    ensures GetMutatedFileRelativePath(Spelled(Init(parts)), x) == Some(cfg.file)
  {
    RegisteredNamesAreGood(op);
    NameRoundTrip(Spelled(Init(parts)), Last(parts), RegisteredName(op), n);
    FileSpelled(cfg.file, parts);
  }

  lemma FileSpelled(file: string, parts: seq<string>)
    requires IsFilePath(file, parts) && AllPlain(parts)
    ensures AppendFolder(Spelled(Init(parts)), Last(parts)) == file
  {
    SpelledStep(Init(parts), Last(parts));
    assert Init(parts) + [Last(parts)] == parts;
  }

  /** What the scan makes of the mutants on the shelf. */
  function Wanted(cfg: Config, files: set<string>, shelf: Path, names: seq<string>): seq<MutantInfo> {
    if cfg.file in files then InfosAt(cfg, shelf, names) else []
  }

  function InfosAt(cfg: Config, shelf: Path, names: seq<string>): seq<MutantInfo> {
    if names == [] then [] else [InfoOf(cfg, shelf + [names[0]])] + InfosAt(cfg, shelf, names[1..])
  }

  lemma {:induction false} ShelfScanned(cfg: Config, ast: Ast, ps: seq<string>, parts: seq<string>, start: FS,
                                        files: set<string>, now: FS, names: seq<string>) returns (found: Scanned)
    requires CleanStart(cfg, ast, ps, parts, start) && Finished(cfg, ast, ps, parts, start, now)
    requires IsDir(now, Shelf(cfg, ps, parts))
    requires forall x | x in names :: x in ReadDir(now, Shelf(cfg, ps, parts))
    ensures found == ScanEntries(now, files, Shelf(cfg, ps, parts), Spelled(Init(parts)), names)
    ensures found == Scanned(Wanted(cfg, files, Shelf(cfg, ps, parts), names), false)
    decreases |names|
  {
    if names == [] {
      found := Scanned([], false);
    } else {
      MutantRead(cfg, ast, ps, parts, start, files, now, names[0]);
      var rest := ShelfScanned(cfg, ast, ps, parts, start, files, now, names[1..]);
      var first := InfoOf(cfg, Shelf(cfg, ps, parts) + [names[0]]);
      found := if cfg.file in files then Scanned([first] + rest.mutants, false) else rest;
    }
  }

  /** From any directory on the way down, the scan finds what the shelf lists. */
  lemma {:induction false} ChainScanned(cfg: Config, ast: Ast, ps: seq<string>, parts: seq<string>, start: FS,
                                        files: set<string>, now: FS, k: nat) returns (found: Scanned)
    requires CleanStart(cfg, ast, ps, parts, start) && Finished(cfg, ast, ps, parts, start, now)
    requires k <= |parts| - 1
    ensures found == Scan(now, files, Way(cfg, ps, parts, k), Spelled(Init(parts)[..k]))
    ensures found == Scanned(Wanted(cfg, files, Shelf(cfg, ps, parts), ReadDir(now, Shelf(cfg, ps, parts))), false)
    decreases |parts| - k
  {
    var dir, shelf := Way(cfg, ps, parts, k), Shelf(cfg, ps, parts);
    ChainStays(cfg, ast, ps, parts, start, files, now, k);
    WaySteps(cfg, ps, parts, k);
    if k == |parts| - 1 {
      assert Init(parts)[..k] == Init(parts);
      found := ShelfScanned(cfg, ast, ps, parts, start, files, now, ReadDir(now, shelf));
    } else {
      var inner := ChainScanned(cfg, ast, ps, parts, start, files, now, k + 1);
      ChainLists(cfg, ast, ps, parts, start, files, now, k);
      ChainStays(cfg, ast, ps, parts, start, files, now, k + 1);
      SpelledNext(parts, k);
      NotTaken(parts[k]);
      found := OneDirectory(now, files, dir, Spelled(Init(parts)[..k]), parts[k], inner);
    }
  }

  lemma NotTaken(name: string)
    requires Plain(name) && !SplitsAsMutant(name)
    ensures !IsMutant(name)
  {
    PlainIsClean(name);
    IsMutantIff(name);
  }

  lemma SpelledNext(parts: seq<string>, k: nat)
    requires AllPlain(parts) && k < |parts| - 1
    ensures AppendFolder(Spelled(Init(parts)[..k]), parts[k]) == Spelled(Init(parts)[..k + 1])
  {
    assert Init(parts)[..k + 1] == Init(parts)[..k] + [parts[k]];
    SpelledStep(Init(parts)[..k], parts[k]);
  }

  lemma OneDirectory(fs: FS, files: set<string>, dir: Path, pathSoFar: string, x: string, inner: Scanned)
    returns (found: Scanned)
    requires IsDir(fs, dir) && ReadDir(fs, dir) == [x] && IsDir(fs, dir + [x]) && !IsMutant(x)
    requires inner == Scan(fs, files, dir + [x], AppendFolder(pathSoFar, x))
    ensures found == Scan(fs, files, dir, pathSoFar) == Scanned(inner.mutants, false)
  {
    assert [x][1..] == [];
    assert ScanEntries(fs, files, dir, pathSoFar, []) == Scanned([], false);
    assert inner.mutants + [] == inner.mutants;
    found := Scanned(inner.mutants, false);
  }

  lemma {:induction false} InfosAtExact(cfg: Config, shelf: Path, names: seq<string>, info: MutantInfo)
    ensures info in InfosAt(cfg, shelf, names) <==> exists x :: x in names && info == InfoOf(cfg, shelf + [x])
  {
    if names != [] {
      InfosAtExact(cfg, shelf, names[1..], info);
      if info == InfoOf(cfg, shelf + [names[0]]) {
        assert names[0] in names;
      }
      if x :| x in names[1..] && info == InfoOf(cfg, shelf + [x]) {
        assert x in names;
      }
    }
  }

  lemma {:induction false} InfosAtDistinct(cfg: Config, shelf: Path, names: seq<string>)
    requires Distinct(names)
    ensures Distinct(InfosAt(cfg, shelf, names))
    ensures |InfosAt(cfg, shelf, names)| == |names|
  {
    if names != [] {
      InfosAtDistinct(cfg, shelf, names[1..]);
      var head := InfoOf(cfg, shelf + [names[0]]);
      InfosAtExact(cfg, shelf, names[1..], head);
      forall x | x in names[1..]
        ensures head != InfoOf(cfg, shelf + [x])
      {
        assert (shelf + [x])[|shelf|] == x && (shelf + [names[0]])[|shelf|] == names[0];
      }
    }
  }

  /** After any run the scan finds exactly the mutation sites, each once, under the names and paths `mutate` gave
      them, or nothing if the file is not among the wanted ones. */
  lemma ScanFindsEverySite(cfg: Config, ast: Ast, ps: seq<string>, parts: seq<string>, start: FS, files: set<string>,
                           now: FS) returns (found: seq<MutantInfo>)
    requires CleanStart(cfg, ast, ps, parts, start) && Finished(cfg, ast, ps, parts, start, now)
    ensures Scan(now, files, cfg.root + ps, "") == Scanned(found, false) && Distinct(found)
    ensures forall info :: info in found <==> FoundAs(cfg, ast, files, info)
  {
    var shelf := Shelf(cfg, ps, parts);
    var scanned := ChainScanned(cfg, ast, ps, parts, start, files, now, 0);
    WaySteps(cfg, ps, parts, 0);
    assert Init(parts)[..0] == [];
    found := scanned.mutants;
    InfosAtDistinct(cfg, shelf, ReadDir(now, shelf));
    forall info
      ensures info in found <==> FoundAs(cfg, ast, files, info)
    {
      FoundIsSite(cfg, ast, ps, parts, start, files, now, info);
    }
  }

  /** The entry of a mutation site of a wanted file. */
  ghost predicate FoundAs(cfg: Config, ast: Ast, files: set<string>, info: MutantInfo)
    requires ValidRun(cfg, ast)
  {
    cfg.file in files
    && exists j: nat, n: nat :: IsSite(cfg, ast, j, n) && info == InfoOf(cfg, DirOf(cfg, cfg.operators[j], n))
  }

  lemma FoundIsSite(cfg: Config, ast: Ast, ps: seq<string>, parts: seq<string>, start: FS, files: set<string>,
                    now: FS, info: MutantInfo)
    requires CleanStart(cfg, ast, ps, parts, start) && Finished(cfg, ast, ps, parts, start, now)
    ensures var shelf := Shelf(cfg, ps, parts);
            info in InfosAt(cfg, shelf, ReadDir(now, shelf))
            <==> exists j: nat, n: nat ::
                     IsSite(cfg, ast, j, n) && info == InfoOf(cfg, DirOf(cfg, cfg.operators[j], n))
  {
    var shelf := Shelf(cfg, ps, parts);
    InfosAtExact(cfg, shelf, ReadDir(now, shelf), info);
    if x :| x in ReadDir(now, shelf) && info == InfoOf(cfg, shelf + [x]) {
      ShelfLists(cfg, ast, ps, parts, start, files, now, x);
      var j: nat, n: nat :| IsSite(cfg, ast, j, n) && DirOf(cfg, cfg.operators[j], n) == shelf + [x];
      assert info == InfoOf(cfg, DirOf(cfg, cfg.operators[j], n));
    }
    if j: nat, n: nat :| IsSite(cfg, ast, j, n) && info == InfoOf(cfg, DirOf(cfg, cfg.operators[j], n)) {
      DirIsOnShelf(cfg, ps, parts, cfg.operators[j], n);
      var x := DirOf(cfg, cfg.operators[j], n)[|shelf|];
      assert DirOf(cfg, cfg.operators[j], n) == shelf + [x];
      ShelfLists(cfg, ast, ps, parts, start, files, now, x);
    }
  }

  // ----- what was found and what was listed -----

  ghost predicate IsRendered(cfg: Config, ast: Ast, j: nat, n: nat)
    requires ValidRun(cfg, ast)
  {
    IsSite(cfg, ast, j, n) && cfg.render(MutantTree(cfg, ast, cfg.operators[j], n)).Some?
  }

  ghost predicate ListedAt(cfg: Config, ast: Ast, info: MutantInfo, j: nat, n: nat)
    requires ValidRun(cfg, ast)
  {
    IsRendered(cfg, ast, j, n) && info == InfoOf(cfg, DirOf(cfg, cfg.operators[j], n))
  }

  lemma InListing(cfg: Config, ast: Ast, j: nat, n: nat, info: MutantInfo)
    requires ValidRun(cfg, ast) && IsSite(cfg, ast, j, n)
    ensures info in Listing(cfg, ast, cfg.operators[j], n) <==> ListedAt(cfg, ast, info, j, n)
  {
  }

  lemma InListedOp(cfg: Config, ast: Ast, j: nat, info: MutantInfo)
    requires ValidRun(cfg, ast) && j < |cfg.operators|
    ensures info in ListedOp(cfg, ast, j) <==> exists n: nat :: ListedAt(cfg, ast, info, j, n)
  {
    var op := cfg.operators[j];
    var lists := Listings(cfg, ast, op, |Sites(cfg, ast, op)|);
    InFlatten(lists, info);
    if n :| 0 <= n < |lists| && info in lists[n] {
      InListing(cfg, ast, j, n, info);
      assert ListedAt(cfg, ast, info, j, n);
    }
    if n: nat :| ListedAt(cfg, ast, info, j, n) {
      InListing(cfg, ast, j, n, info);
      assert info in lists[n];
    }
  }

  lemma InListedOps(cfg: Config, ast: Ast, info: MutantInfo)
    requires ValidRun(cfg, ast)
    ensures info in ListedOps(cfg, ast, |cfg.operators|)
            <==> exists j | 0 <= j < |cfg.operators| :: info in ListedOp(cfg, ast, j)
  {
    var lists := OpListings(cfg, ast, |cfg.operators|);
    InFlatten(lists, info);
    if j :| 0 <= j < |lists| && info in lists[j] {
      assert info in ListedOp(cfg, ast, j);
    }
    if j :| 0 <= j < |cfg.operators| && info in ListedOp(cfg, ast, j) {
      assert info in lists[j];
    }
  }

  lemma ListedExact(cfg: Config, ast: Ast, info: MutantInfo)
    requires ValidRun(cfg, ast)
    ensures info in ListedOps(cfg, ast, |cfg.operators|) <==> exists j: nat, n: nat :: ListedAt(cfg, ast, info, j, n)
  {
    InListedOps(cfg, ast, info);
    if j :| 0 <= j < |cfg.operators| && info in ListedOp(cfg, ast, j) {
      InListedOp(cfg, ast, j, info);
    }
    if j: nat, n: nat :| ListedAt(cfg, ast, info, j, n) {
      InListedOp(cfg, ast, j, info);
    }
  }

  /** The scan after a run agrees with the list the run returned if and only if the file is wanted and every mutated
      tree could be rendered, or it is not wanted and none could: a directory whose tree could not be rendered holds an
      unmutated copy, which is not listed but is found. */
  lemma ScanAgreesIff(cfg: Config, ast: Ast, ps: seq<string>, parts: seq<string>, start: FS, files: set<string>,
                      run: seq<Protocol.State>) returns (found: seq<MutantInfo>)
    requires CleanStart(cfg, ast, ps, parts, start)
    requires Protocol.IsRun(cfg, ast, Progress(start, []), run) && run[|run| - 1].driver == Protocol.Finished
    ensures var end := run[|run| - 1].progress;
            && Scan(end.fs, files, cfg.root + ps, "") == Scanned(found, false)
            && ((forall info :: info in found <==> info in end.infos)
                <==> (forall j: nat, n: nat | IsSite(cfg, ast, j, n) ::
                        IsRendered(cfg, ast, j, n) <==> cfg.file in files))
  {
    Protocol.FinishedRun(cfg, ast, Progress(start, []), run);
    var after := OpsRun(cfg, ast, ps, parts, start, |cfg.operators|);
    found := ScanFindsEverySite(cfg, ast, ps, parts, start, files, after.fs);
    ListsAgreeIff(cfg, ast, ps, parts, start, files, found, after.infos);
  }

  lemma ListsAgreeIff(cfg: Config, ast: Ast, ps: seq<string>, parts: seq<string>, start: FS, files: set<string>,
                      found: seq<MutantInfo>, infos: seq<MutantInfo>)
    requires CleanStart(cfg, ast, ps, parts, start) && infos == ListedOps(cfg, ast, |cfg.operators|)
    requires forall info :: info in found <==> FoundAs(cfg, ast, files, info)
    ensures (forall info :: info in found <==> info in infos)
            <==> (forall j: nat, n: nat | IsSite(cfg, ast, j, n) :: IsRendered(cfg, ast, j, n) <==> cfg.file in files)
  {
    forall info
      ensures info in infos <==> exists j: nat, n: nat :: ListedAt(cfg, ast, info, j, n)
    {
      ListedExact(cfg, ast, info);
    }
    if j: nat, n: nat :| IsSite(cfg, ast, j, n) && (IsRendered(cfg, ast, j, n) != (cfg.file in files)) {
      var info := InfoOf(cfg, DirOf(cfg, cfg.operators[j], n));
      if cfg.file in files {
        UnlistedSite(cfg, ast, ps, parts, start, files, j, n);
        assert FoundAs(cfg, ast, files, info);
      } else {
        assert ListedAt(cfg, ast, info, j, n);
        assert !FoundAs(cfg, ast, files, info);
      }
    } else {
      forall info
        ensures info in found <==> info in infos
      {
        AgreesAt(cfg, ast, files, info);
      }
    }
  }

  lemma AgreesAt(cfg: Config, ast: Ast, files: set<string>, info: MutantInfo)
    requires ValidRun(cfg, ast)
    requires forall j: nat, n: nat | IsSite(cfg, ast, j, n) :: IsRendered(cfg, ast, j, n) <==> cfg.file in files
    ensures FoundAs(cfg, ast, files, info) <==> exists j: nat, n: nat :: ListedAt(cfg, ast, info, j, n)
  {
    if FoundAs(cfg, ast, files, info) {
      var j: nat, n: nat :| IsSite(cfg, ast, j, n) && info == InfoOf(cfg, DirOf(cfg, cfg.operators[j], n));
      assert ListedAt(cfg, ast, info, j, n);
    }
    if j: nat, n: nat :| ListedAt(cfg, ast, info, j, n) {
      assert IsSite(cfg, ast, j, n) && info == InfoOf(cfg, DirOf(cfg, cfg.operators[j], n));
    }
  }

  lemma UnlistedSite(cfg: Config, ast: Ast, ps: seq<string>, parts: seq<string>, start: FS, files: set<string>,
                     j: nat, n: nat)
    requires CleanStart(cfg, ast, ps, parts, start) && IsSite(cfg, ast, j, n) && !IsRendered(cfg, ast, j, n)
    ensures forall i: nat, m: nat :: !ListedAt(cfg, ast, InfoOf(cfg, DirOf(cfg, cfg.operators[j], n)), i, m)
  {
    var info := InfoOf(cfg, DirOf(cfg, cfg.operators[j], n));
    forall i: nat, m: nat
      ensures !ListedAt(cfg, ast, info, i, m)
    {
      if ListedAt(cfg, ast, info, i, m) {
        DirsDiffer(cfg, ps, parts, cfg.operators[j], n, cfg.operators[i], m);
      }
    }
  }
}
