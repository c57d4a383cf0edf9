/** copy_utils.go and test_runner.go: the project is moved aside before the tests run and moved back after them. */
module Backup {
  import opened Options
  import opened Sequences
  import opened SortedNames
  import opened FileSystem
  import opened Text
  import opened CopyRules
  import opened TreeCopy
  import opened CopyUtils

  /** `copyFolderContents` with the filter of `moveAllContentsExceptMutantFolder`.
      An error inside a subdirectory is not passed on; `fuel` is the depth of calls allowed. */
  function CopyFolderContents(fuel: nat, fs: FS, src: Path, dst: Path, folder: string): Outcome
    decreases fuel, 1, 0
  {
    if !IsDir(fs, src) then Failed(fs)
    else match MkdirAll(fs, dst)
      case None => Failed(fs)
      case Some(made) => CopyItems(fuel, fs, made, src, dst, folder, ReadDir(fs, src))
  }

  /** The loop over the listing, which is taken before the destination is created. */
  function CopyItems(fuel: nat, listed: FS, now: FS, src: Path, dst: Path, folder: string, names: seq<string>): Outcome
    decreases fuel, 0, |names|
  {
    if names == [] then Done(now)
    else
      match CopyItem(fuel, listed, now, src, dst, folder, names[0])
      case Done(next) => CopyItems(fuel, listed, next, src, dst, folder, names[1..])
      case other => other
  }

  function CopyItem(fuel: nat, listed: FS, now: FS, src: Path, dst: Path, folder: string, name: string): Outcome
    decreases fuel, 0, 0
  {
    var itemPath, newItemPath := src + [name], dst + [name];
    if !PassesFilter(folder, name) then Done(now)
    else if IsDir(listed, itemPath) then
      if fuel == 0 then OutOfFuel
      else
        match CopyFolderContents(fuel - 1, now, itemPath, newItemPath, folder)
        case OutOfFuel => OutOfFuel
        case Failed(next) => Done(next)
        case Done(next) => Done(next)
    else
      match CopyFile(now, itemPath, newItemPath)
      case None => Failed(now)
      case Some(next) => Done(next)
  }

  /** Source and destination are disjoint, or one lies in the other below a name the filter rejects. */
  ghost predicate Aside(folder: string, src: Path, dst: Path) {
    && src != dst
    && (src < dst ==> !PassesFilter(folder, dst[|src|]))
    && (dst < src ==> !PassesFilter(folder, src[|dst|]))
  }

  lemma AsideSeparate(folder: string, src: Path, dst: Path)
    requires Aside(folder, src, dst)
    ensures Separate(MoveRule(folder), src, dst)
  {
    if src <= dst {
      var way := dst[|src|..];
      assert |way| > 0 ==> way[0] == dst[|src|];
      assert |way| == 0 ==> src == dst;
    }
    if dst <= src {
      var way := src[|dst|..];
      assert |way| > 0 ==> way[0] == src[|dst|];
      assert |way| == 0 ==> src == dst;
    }
  }

  lemma SubAside(folder: string, src: Path, dst: Path, name: string)
    requires Aside(folder, src, dst) && PassesFilter(folder, name)
    ensures !(src + [name] <= dst + [name]) && !(dst + [name] <= src + [name])
    ensures Aside(folder, src + [name], dst + [name])
  {
    if src + [name] <= dst + [name] { Inner(src, dst, name); }
    if dst + [name] <= src + [name] { Inner(dst, src, name); }
  }

  lemma Inner(outer: Path, inner: Path, name: string)
    requires outer + [name] <= inner + [name] && outer != inner
    ensures outer < inner && inner[|outer|] == name
  {
    assert outer == (outer + [name])[..|outer|] == (inner + [name])[..|outer|];
    assert inner == (inner + [name])[..|inner|];
    assert (outer + [name])[|outer|] == (inner + [name])[|outer|];
  }

  /** The conditions under which a move runs without an error. */
  ghost predicate MoveReady(fs: FS, made: FS, src: Path, dst: Path, folder: string) {
    && WellFormed(fs) && IsDir(fs, src) && FreeOfFiles(fs, dst)
    && MkdirAll(fs, dst) == Some(made)
    && Aside(folder, src, dst)
    && NoClash(MoveRule(folder), made, src, dst)
  }

  ghost predicate Moving(made: FS, now: FS, src: Path, dst: Path, folder: string, done: set<string>) {
    && WellFormed(made) && WellFormed(now)
    && IsDir(made, src) && IsDir(made, dst)
    && Aside(folder, src, dst) && Separate(MoveRule(folder), src, dst)
    && NoClash(MoveRule(folder), made, src, dst)
    && IsPasted(MoveRule(folder), made, src, dst, done, now)
  }

  /** How many entries the move of `src` visits. */
  ghost function MoveWork(folder: string, fs: FS, src: Path): nat {
    |KeptPaths(MoveRule(folder), fs, src)|
  }

  ghost predicate Moved(outcome: Outcome, made: FS, src: Path, dst: Path, folder: string) {
    match outcome
    case Done(after) => WellFormed(after) && IsCopy(MoveRule(folder), made, src, dst, after)
    case Failed(_) => false
    case OutOfFuel => true
  }

  ghost predicate MoveAdvanced(outcome: Outcome, made: FS, src: Path, dst: Path, folder: string, done: set<string>) {
    match outcome
    case Done(after) => Moving(made, after, src, dst, folder, done)
    case Failed(_) => false
    case OutOfFuel => true
  }

  /** The listing misses no kept entry, although it is older than the destination directory. */
  lemma ListingComplete(fs: FS, made: FS, src: Path, dst: Path, folder: string)
    requires MoveReady(fs, made, src, dst, folder)
    ensures forall x :: src + [x] in made && PassesFilter(folder, x) ==> src + [x] in fs
    ensures WellFormed(made) && IsDir(made, src) && IsDir(made, dst)
    ensures forall x :: src + [x] in fs ==> Get(made, src + [x]) == Get(fs, src + [x])
  {
    MkdirAllEffect(fs, dst);
    assert Get(made, dst).Some?;
    forall x | src + [x] <= dst
      ensures src < dst && dst[|src|] == x
    {
      assert src == (src + [x])[..|src|] == dst[..|src|];
      assert dst[|src|] == (src + [x])[|src|];
    }
  }

  lemma {:induction false} ContentsMoved(fuel: nat, fs: FS, made: FS, src: Path, dst: Path, folder: string)
    returns (outcome: Outcome)
    requires MoveReady(fs, made, src, dst, folder)
    ensures outcome == CopyFolderContents(fuel, fs, src, dst, folder)
    ensures Moved(outcome, made, src, dst, folder)
    ensures fuel >= MoveWork(folder, made, src) ==> outcome.Done?
    decreases fuel, 1, 0
  {
    ListingComplete(fs, made, src, dst, folder);
    AsideSeparate(folder, src, dst);
    NothingPasted(MoveRule(folder), made, src, dst);
    var names := ReadDir(fs, src);
    outcome := ItemsMoved(fuel, fs, made, made, src, dst, folder, names, {});
    if outcome.Done? {
      ElementsCons({}, names);
      AllPasted(MoveRule(folder), made, src, dst, names, outcome.fs);
    }
  }

  /** The listing agrees with the loop's starting point on the names it holds. */
  ghost predicate Listed(listed: FS, made: FS, src: Path, names: seq<string>, done: set<string>) {
    Distinct(names) &&
    forall x | x in names :: x !in done && src + [x] in listed && Get(made, src + [x]) == Get(listed, src + [x])
  }

  lemma {:induction false} ItemsMoved(fuel: nat, listed: FS, made: FS, now: FS, src: Path, dst: Path, folder: string,
                                      names: seq<string>, done: set<string>) returns (outcome: Outcome)
    requires Moving(made, now, src, dst, folder, done) && Listed(listed, made, src, names, done)
    ensures outcome == CopyItems(fuel, listed, now, src, dst, folder, names)
    ensures MoveAdvanced(outcome, made, src, dst, folder, done + Elements(names))
    ensures fuel >= MoveWork(folder, made, src) ==> outcome.Done?
    decreases fuel, 0, |names|
  {
    ElementsCons(done, names);
    if names == [] {
      outcome := Done(now);
    } else {
      var name, rest := names[0], names[1..];
      outcome := ItemMoved(fuel, listed, made, now, src, dst, folder, done, name);
      if outcome.Done? {
        outcome := ItemsMoved(fuel, listed, made, outcome.fs, src, dst, folder, rest, done + {name});
      }
    }
  }

  lemma {:induction false} ItemMoved(fuel: nat, listed: FS, made: FS, now: FS, src: Path, dst: Path, folder: string,
                                     done: set<string>, name: string) returns (outcome: Outcome)
    requires Moving(made, now, src, dst, folder, done)
    requires name !in done && src + [name] in listed && Get(made, src + [name]) == Get(listed, src + [name])
    ensures outcome == CopyItem(fuel, listed, now, src, dst, folder, name)
    ensures MoveAdvanced(outcome, made, src, dst, folder, done + {name})
    ensures fuel >= MoveWork(folder, made, src) ==> outcome.Done?
    decreases fuel, 0, 0
  {
    if !PassesFilter(folder, name) {
      SkipStep(MoveRule(folder), made, src, dst, done, now, name);
      outcome := Done(now);
    } else if IsDir(listed, src + [name]) {
      if fuel > 0 {
        outcome := SubMoved(fuel, made, now, src, dst, folder, done, name);
      } else {
        FewerBelow(MoveRule(folder), made, src, dst, done, now, name);
        outcome := OutOfFuel;
      }
    } else {
      FileMoved(made, now, src, dst, folder, done, name);
      outcome := Done(CopyFile(now, src + [name], dst + [name]).value);
    }
  }

  lemma FileMoved(made: FS, now: FS, src: Path, dst: Path, folder: string, done: set<string>, name: string)
    requires Moving(made, now, src, dst, folder, done)
    requires name !in done && IsFile(made, src + [name]) && PassesFilter(folder, name)
    ensures CopyFile(now, src + [name], dst + [name]).Some?
    ensures Moving(made, CopyFile(now, src + [name], dst + [name]).value, src, dst, folder, done + {name})
  {
    var rule, s, d := MoveRule(folder), src + [name], dst + [name];
    var content := made[s].content;
    SourceUntouched(rule, made, src, dst, done, [name]);
    assert Get(now, s) == Some(File(content));
    if s == d {
      NoOverlap(rule, src, dst, [name], [name]);
    }
    assert Kept(rule, made, src, [name]);
    assert Parent(d) == dst;
    assert Get(now, dst) == Get(made, dst);
    assert d[|dst|] == name;
    assert Get(now, d) == Get(made, d);
    FileStep(rule, made, src, dst, done, now, name, content);
    WriteFileKeepsForm(now, d, content);
  }

  /** What the loop knows when it calls itself on the directory `name`; `sub` is the callee's own start. */
  ghost predicate SubMove(made: FS, now: FS, sub: FS, src: Path, dst: Path, folder: string, name: string) {
    && MoveReady(now, sub, src + [name], dst + [name], folder)
    && OnlyDirMade(now, dst + [name], sub)
    && MoveWork(folder, sub, src + [name]) < MoveWork(folder, made, src)
  }

  lemma SubMoveReady(made: FS, now: FS, src: Path, dst: Path, folder: string, done: set<string>, name: string)
    returns (sub: FS)
    requires Moving(made, now, src, dst, folder, done)
    requires name !in done && IsDir(made, src + [name]) && PassesFilter(folder, name)
    ensures SubMove(made, now, sub, src, dst, folder, name)
  {
    var rule, s, d := MoveRule(folder), src + [name], dst + [name];
    SubAside(folder, src, dst, name);
    SubSeparate(rule, src, dst, name);
    SubNoClash(rule, made, src, dst, done, now, name);
    assert Parent(d) == dst && Get(now, dst) == Get(made, dst);
    OneDirMade(now, d);
    sub := MkdirAll(now, d).value;
    MadeSame(rule, now, d, sub, s);
    FewerBelow(rule, made, src, dst, done, now, name);
  }

  lemma SubMoveStarts(made: FS, now: FS, sub: FS, src: Path, dst: Path, folder: string, name: string)
    requires SubMove(made, now, sub, src, dst, folder, name)
    ensures MoveReady(now, sub, src + [name], dst + [name], folder)
    ensures MoveWork(folder, sub, src + [name]) < MoveWork(folder, made, src)
  {
  }

  lemma {:induction false} SubMoved(fuel: nat, made: FS, now: FS, src: Path, dst: Path, folder: string,
                                    done: set<string>, name: string) returns (outcome: Outcome)
    requires fuel > 0 && Moving(made, now, src, dst, folder, done)
    requires name !in done && IsDir(made, src + [name]) && PassesFilter(folder, name)
    ensures outcome == CopyFolderContents(fuel - 1, now, src + [name], dst + [name], folder)
    ensures MoveAdvanced(outcome, made, src, dst, folder, done + {name})
    ensures fuel >= MoveWork(folder, made, src) ==> outcome.Done?
    decreases fuel - 1, 2, 0
  {
    var sub := SubMoveReady(made, now, src, dst, folder, done, name);
    SubMoveStarts(made, now, sub, src, dst, folder, name);
    outcome := ContentsMoved(fuel - 1, now, sub, src + [name], dst + [name], folder);
    SubMovePasted(made, now, sub, src, dst, folder, done, name, outcome);
  }

  lemma SubMovePasted(made: FS, now: FS, sub: FS, src: Path, dst: Path, folder: string, done: set<string>,
                      name: string, outcome: Outcome)
    requires Moving(made, now, src, dst, folder, done)
    requires name !in done && IsDir(made, src + [name]) && PassesFilter(folder, name)
    requires SubMove(made, now, sub, src, dst, folder, name)
    requires Moved(outcome, sub, src + [name], dst + [name], folder)
    ensures MoveAdvanced(outcome, made, src, dst, folder, done + {name})
  {
    if outcome.Done? {
      AsideSeparate(folder, src + [name], dst + [name]);
      CopyIncludesRoot(MoveRule(folder), now, sub, src + [name], dst + [name], outcome.fs);
      DirStep(MoveRule(folder), made, src, dst, done, now, name, outcome.fs);
    }
  }

  // ----- kinds never change -----

  /** Nothing disappears, and no file becomes a directory or the other way round. */
  ghost predicate KindsKept(fs: FS, after: FS) {
    forall p :: p in fs ==> p in after && after[p].Dir? == fs[p].Dir?
  }

  ghost predicate OutcomeKeeps(fs: FS, outcome: Outcome) {
    match outcome
    case Done(after) => KindsKept(fs, after)
    case Failed(after) => KindsKept(fs, after)
    case OutOfFuel => true
  }

  lemma {:induction false} MkdirKeepsKinds(fs: FS, p: Path)
    ensures MkdirAll(fs, p).Some? ==> KindsKept(fs, MkdirAll(fs, p).value)
    decreases |p|
  {
    if p !in fs && p != [] {
      MkdirKeepsKinds(fs, Parent(p));
    }
  }

  lemma {:induction false} ContentsKeepKinds(fuel: nat, fs: FS, src: Path, dst: Path, folder: string)
    ensures OutcomeKeeps(fs, CopyFolderContents(fuel, fs, src, dst, folder))
    decreases fuel, 1, 0
  {
    MkdirKeepsKinds(fs, dst);
    if IsDir(fs, src) && MkdirAll(fs, dst).Some? {
      ItemsKeepKinds(fuel, fs, MkdirAll(fs, dst).value, src, dst, folder, ReadDir(fs, src));
    }
  }

  lemma {:induction false} ItemsKeepKinds(fuel: nat, listed: FS, now: FS, src: Path, dst: Path, folder: string,
                                          names: seq<string>)
    ensures OutcomeKeeps(now, CopyItems(fuel, listed, now, src, dst, folder, names))
    decreases fuel, 0, |names|
  {
    if names != [] {
      var first := ItemKeepsKinds(fuel, listed, now, src, dst, folder, names[0]);
      if first.Done? {
        ItemsKeepKinds(fuel, listed, first.fs, src, dst, folder, names[1..]);
      }
    }
  }

  lemma {:induction false} ItemKeepsKinds(fuel: nat, listed: FS, now: FS, src: Path, dst: Path, folder: string,
                                          name: string) returns (outcome: Outcome)
    ensures outcome == CopyItem(fuel, listed, now, src, dst, folder, name) && OutcomeKeeps(now, outcome)
    decreases fuel, 0, 0
  {
    if PassesFilter(folder, name) && IsDir(listed, src + [name]) && fuel > 0 {
      ContentsKeepKinds(fuel - 1, now, src + [name], dst + [name], folder);
    }
    outcome := CopyItem(fuel, listed, now, src, dst, folder, name);
  }

  // ----- backup before the tests, restore after them -----

  /** `appendFolder(mutantFolder, "original")`, seen from the working directory. */
  function OriginalFolder(root: Path, ps: seq<string>): Path {
    root + ps + ["original"]
  }

  function FolderName(ps: seq<string>): string {
    Join(ps) + "/"
  }

  lemma OriginalDenoted(root: Path, ps: seq<string>)
    requires |ps| >= 1 && AllPlain(ps)
    ensures OriginalFolder(root, ps) == root + Comps(AppendFolder(FolderName(ps), "original"))
  {
    AppendFolderComps(FolderName(ps), "original");
    CompsEdges(Join(ps));
    CompsJoin(ps);
    SplitWhole("original");
    SolidOnlyAll(["original"]);
    assert root + ps + ["original"] == root + (ps + ["original"]);
  }

  /** The entries the backup is about: every component of the path passes the name filter. */
  ghost predicate Selected(fs: FS, root: Path, ps: seq<string>, rel: Path) {
    Kept(MoveRule(FolderName(ps)), fs, root, rel)
  }

  /** A project with a relative mutant folder and no backup in it yet. */
  ghost predicate BackupReady(fs: FS, root: Path, ps: seq<string>) {
    && |ps| >= 1 && AllPlain(ps)
    && WellFormed(fs) && IsDir(fs, root)
    && OriginalFolder(root, ps) !in fs && FreeOfFiles(fs, OriginalFolder(root, ps))
  }

  lemma StoreAside(root: Path, ps: seq<string>)
    requires |ps| >= 1 && AllPlain(ps)
    ensures Aside(FolderName(ps), root, OriginalFolder(root, ps))
    ensures Aside(FolderName(ps), OriginalFolder(root, ps), root)
  {
    FirstComponentFiltered(ps);
    assert OriginalFolder(root, ps)[|root|] == ps[0];
  }

  /** The backup runs without an error, and finishes given fuel for every entry. */
  lemma BackupRuns(fuel: nat, fs: FS, root: Path, ps: seq<string>)
    requires BackupReady(fs, root, ps)
    ensures var store := OriginalFolder(root, ps);
            var outcome := CopyFolderContents(fuel, fs, root, store, FolderName(ps));
            && Moved(outcome, Opened(fs, store), root, store, FolderName(ps))
            && (fuel >= MoveWork(FolderName(ps), Opened(fs, store), root) ==> outcome.Done?)
  {
    var store, folder := OriginalFolder(root, ps), FolderName(ps);
    StoreAside(root, ps);
    MkdirAllEffect(fs, store);
    StoreVacant(fs, root, ps);
    var outcome := ContentsMoved(fuel, fs, Opened(fs, store), root, store, folder);
  }

  /** The finished backup holds exactly the selected entries; the project itself is untouched. */
  lemma BackupTaken(fuel: nat, fs: FS, root: Path, ps: seq<string>, after: FS)
    requires BackupReady(fs, root, ps)
    requires CopyFolderContents(fuel, fs, root, OriginalFolder(root, ps), FolderName(ps)) == Done(after)
    ensures WellFormed(after)
    ensures forall rel :: Get(after, OriginalFolder(root, ps) + rel)
                          == if Selected(fs, root, ps, rel) then Some(fs[root + rel]) else None
    ensures forall p :: !(OriginalFolder(root, ps) <= p) && !(p <= OriginalFolder(root, ps))
                        ==> Get(after, p) == Get(fs, p)
  {
    var store, folder := OriginalFolder(root, ps), FolderName(ps);
    MkdirAllEffect(fs, store);
    var made := Opened(fs, store);
    BackupRuns(fuel, fs, root, ps);
    forall rel
      ensures Get(after, store + rel) == if Selected(fs, root, ps, rel) then Some(fs[root + rel]) else None
    {
      assert (store + rel)[|store|..] == rel;
      assert Get(after, store + rel) == CopyAt(MoveRule(folder), made, root, store, store + rel);
      SelectedSame(fs, root, ps, rel);
      StoreEmpty(fs, root, ps, rel);
    }
  }

  lemma StoreEmpty(fs: FS, root: Path, ps: seq<string>, rel: Path)
    requires BackupReady(fs, root, ps)
    ensures var store := OriginalFolder(root, ps);
            if rel == [] then store + rel == store && root + rel == root && Selected(fs, root, ps, rel)
            else Get(Opened(fs, store), store + rel) == None
  {
    var store := OriginalFolder(root, ps);
    MkdirAllEffect(fs, store);
    if rel == [] {
      assert store + rel == store && root + rel == root;
    } else if store + rel in fs {
      BelowPresent(fs, store, rel);
    }
  }

  /** Creating the backup directory adds nothing the filter lets through. */
  lemma SelectedSame(fs: FS, root: Path, ps: seq<string>, rel: Path)
    requires BackupReady(fs, root, ps)
    ensures var made := Opened(fs, OriginalFolder(root, ps));
            && (Kept(MoveRule(FolderName(ps)), made, root, rel) <==> Selected(fs, root, ps, rel))
            && (Selected(fs, root, ps, rel) ==> made[root + rel] == fs[root + rel])
  {
    var store := OriginalFolder(root, ps);
    MkdirAllEffect(fs, store);
    var made := Opened(fs, store);
    FirstComponentFiltered(ps);
    assert rel == [] ==> root + rel == root;
    if root + rel <= store && root + rel !in fs {
      assert rel[0] == (root + rel)[|root|] == store[|root|] == ps[0];
    }
  }

  lemma StoreVacant(fs: FS, root: Path, ps: seq<string>)
    requires BackupReady(fs, root, ps)
    ensures var store := OriginalFolder(root, ps);
            NoClash(MoveRule(FolderName(ps)), Opened(fs, store), root, store)
  {
    var store := OriginalFolder(root, ps);
    MkdirAllEffect(fs, store);
    var made := Opened(fs, store);
    forall rel | Kept(MoveRule(FolderName(ps)), made, root, rel) && store + rel in made
      ensures made[store + rel].Dir? == made[root + rel].Dir?
    {
      StoreEmpty(fs, root, ps, rel);
    }
  }

  /** The tests may have done anything except inside the backup. */
  ghost predicate BackupIntact(before: FS, after: FS, store: Path) {
    forall rel :: Get(after, store + rel) == Get(before, store + rel)
  }

  /** Every selected entry is what it was in the snapshot. */
  ghost predicate Restored(snapshot: FS, root: Path, ps: seq<string>, now: FS) {
    forall rel | Selected(snapshot, root, ps, rel) :: Get(now, root + rel) == Get(snapshot, root + rel)
  }

  /** No selected file has been turned into a directory and no selected directory into a file. */
  ghost predicate KindsAgree(snapshot: FS, root: Path, ps: seq<string>, now: FS) {
    forall rel | Selected(snapshot, root, ps, rel) && root + rel in now ::
      now[root + rel].Dir? == snapshot[root + rel].Dir?
  }

  /** What the deferred restore of `executeAllMutants` leaves behind, with or without an error. */
  function FinalFS(outcome: Outcome, otherwise: FS): FS {
    match outcome
    case Done(after) => after
    case Failed(after) => after
    case OutOfFuel => otherwise
  }

  /** The whole cycle: backup, an arbitrary test run, restore. */
  ghost predicate Cycle(snapshot: FS, root: Path, ps: seq<string>, backedUp: FS, tested: FS) {
    && BackupReady(snapshot, root, ps)
    && (exists fuel :: CopyFolderContents(fuel, snapshot, root, OriginalFolder(root, ps), FolderName(ps))
                       == Done(backedUp))
    && WellFormed(tested) && IsDir(tested, root)
    && BackupIntact(backedUp, tested, OriginalFolder(root, ps))
  }

  /** The backup found by the restore is the selection made before the tests. */
  lemma BackupHolds(snapshot: FS, root: Path, ps: seq<string>, backedUp: FS, tested: FS)
    requires Cycle(snapshot, root, ps, backedUp, tested)
    ensures forall rel :: Get(tested, OriginalFolder(root, ps) + rel)
                          == if Selected(snapshot, root, ps, rel) then Some(snapshot[root + rel]) else None
  {
    var store, folder := OriginalFolder(root, ps), FolderName(ps);
    var fuel :| CopyFolderContents(fuel, snapshot, root, store, folder) == Done(backedUp);
    BackupTaken(fuel, snapshot, root, ps, backedUp);
  }

  /** With no kind changed the restore runs through: every selected entry is back, nothing else is touched. */
  lemma RestoreBrings(fuel: nat, snapshot: FS, root: Path, ps: seq<string>, backedUp: FS, tested: FS)
    requires Cycle(snapshot, root, ps, backedUp, tested)
    requires fuel >= MoveWork(FolderName(ps), tested, OriginalFolder(root, ps))
    requires KindsAgree(snapshot, root, ps, tested)
    ensures var outcome := CopyFolderContents(fuel, tested, OriginalFolder(root, ps), root, FolderName(ps));
            && outcome.Done?
            && Restored(snapshot, root, ps, outcome.fs)
            && (forall p :: Get(outcome.fs, p) == Get(tested, p) ||
                            (root <= p && Selected(snapshot, root, ps, p[|root|..])))
  {
    var store, folder := OriginalFolder(root, ps), FolderName(ps);
    BackupHolds(snapshot, root, ps, backedUp, tested);
    RestoreReady(snapshot, root, ps, backedUp, tested);
    var outcome := ContentsMoved(fuel, tested, tested, store, root, folder);
    forall rel | Selected(snapshot, root, ps, rel)
      ensures Get(outcome.fs, root + rel) == Get(snapshot, root + rel)
    {
      assert (root + rel)[|root|..] == rel;
      assert Get(tested, store + rel) == Some(snapshot[root + rel]);
      assert Get(outcome.fs, root + rel) == CopyAt(MoveRule(folder), tested, store, root, root + rel);
    }
    forall p | Get(outcome.fs, p) != Get(tested, p)
      ensures root <= p && Selected(snapshot, root, ps, p[|root|..])
    {
      assert Get(outcome.fs, p) == CopyAt(MoveRule(folder), tested, store, root, p);
      assert Get(tested, store + p[|root|..]).Some?;
    }
  }

  lemma RestoreReady(snapshot: FS, root: Path, ps: seq<string>, backedUp: FS, tested: FS)
    requires Cycle(snapshot, root, ps, backedUp, tested) && KindsAgree(snapshot, root, ps, tested)
    ensures MoveReady(tested, tested, OriginalFolder(root, ps), root, FolderName(ps))
  {
    var store, folder := OriginalFolder(root, ps), FolderName(ps);
    BackupHolds(snapshot, root, ps, backedUp, tested);
    StoreAside(root, ps);
    MkdirAllEffect(tested, root);
    assert store + [] == store && root + [] == root;
    assert Selected(snapshot, root, ps, []);
    assert Get(tested, store + []) == Some(snapshot[root]);
    forall rel | Kept(MoveRule(folder), tested, store, rel) && root + rel in tested
      ensures tested[root + rel].Dir? == tested[store + rel].Dir?
    {
      assert Get(tested, store + rel).Some?;
      assert Selected(snapshot, root, ps, rel);
    }
  }

  /** Backup and restore bring every selected entry back exactly when the test run changed no selected file into a
      directory and no selected directory into a file. */
  lemma RestoreIff(fuel: nat, snapshot: FS, root: Path, ps: seq<string>, backedUp: FS, tested: FS)
    requires Cycle(snapshot, root, ps, backedUp, tested)
    requires fuel >= MoveWork(FolderName(ps), tested, OriginalFolder(root, ps))
    ensures var outcome := CopyFolderContents(fuel, tested, OriginalFolder(root, ps), root, FolderName(ps));
            Restored(snapshot, root, ps, FinalFS(outcome, tested)) <==> KindsAgree(snapshot, root, ps, tested)
  {
    var outcome := CopyFolderContents(fuel, tested, OriginalFolder(root, ps), root, FolderName(ps));
    var final := FinalFS(outcome, tested);
    if KindsAgree(snapshot, root, ps, tested) {
      RestoreBrings(fuel, snapshot, root, ps, backedUp, tested);
    }
    if Restored(snapshot, root, ps, final) {
      ContentsKeepKinds(fuel, tested, OriginalFolder(root, ps), root, FolderName(ps));
      assert KindsKept(tested, final);
      forall rel | Selected(snapshot, root, ps, rel) && root + rel in tested
        ensures tested[root + rel].Dir? == snapshot[root + rel].Dir?
      {
        assert Get(final, root + rel) == Get(snapshot, root + rel);
      }
    }
  }
}
