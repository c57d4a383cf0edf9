/** copy_utils.go: copying a project into a directory below itself. */
module CopyUtils {
  import opened Options
  import opened Sequences
  import opened SortedNames
  import opened FileSystem
  import opened Text
  import opened CopyRules
  import opened TreeCopy

  /** `Failed` is a returned error; the file system holds whatever had been written by then.
      `OutOfFuel` stands for a recursion deeper than the given budget. */
  datatype Outcome = Done(fs: FS) | Failed(fs: FS) | OutOfFuel

  /** `copyRecursive`. The source recursion has no bound of its own: `fuel` is the depth of calls allowed. */
  function CopyRecursive(fuel: nat, overwrite: bool, fs: FS, src: Path, dst: Path, folder: string): Outcome
    decreases fuel, 1, 0
  {
    if dst in fs && !overwrite then Failed(fs)
    else if dst !in fs && !FreeOfFiles(fs, dst) then Failed(fs)
    else if src !in fs then Failed(fs)
    else if fs[src].File? then Done(fs)
    else match MkdirAll(fs, dst)
      case None => Failed(fs)
      case Some(made) => CopyEntries(fuel, overwrite, made, made, src, dst, folder, ReadDir(made, src))
  }

  /** The loop over the directory listing; `listed` is the file system at the time of the listing. */
  function CopyEntries(fuel: nat, overwrite: bool, listed: FS, now: FS, src: Path, dst: Path, folder: string,
                       names: seq<string>): Outcome
    decreases fuel, 0, |names|
  {
    if names == [] then Done(now)
    else
      match CopyEntry(fuel, overwrite, listed, now, src, dst, folder, names[0])
      case Done(next) => CopyEntries(fuel, overwrite, listed, next, src, dst, folder, names[1..])
      case other => other
  }

  function CopyEntry(fuel: nat, overwrite: bool, listed: FS, now: FS, src: Path, dst: Path, folder: string,
                     name: string): Outcome
    decreases fuel, 0, 0
  {
    var newSource, newDest := src + [name], dst + [name];
    if IsDir(listed, newSource) then
      if DoNotCopyDir(name, folder) then Done(now)
      else if fuel == 0 then OutOfFuel
      else CopyRecursive(fuel - 1, overwrite, now, newSource, newDest, folder)
    else
      match CopyFile(now, newSource, newDest)
      case None => Failed(now)
      case Some(next) => Done(next)
  }

  /** The conditions under which one call runs without an error. `made` is the file system once `dst` exists. */
  ghost predicate Ready(overwrite: bool, fs: FS, made: FS, src: Path, dst: Path, folder: string) {
    && WellFormed(fs) && IsDir(fs, src) && FreeOfFiles(fs, dst)
    && MkdirAll(fs, dst) == Some(made)
    && (overwrite || dst !in fs)
    && Separate(CopyRule(folder), src, dst)
    && NoClash(CopyRule(folder), made, src, dst)
  }

  /** How many entries the copy of `src` visits: fuel enough for it. */
  ghost function Work(folder: string, fs: FS, src: Path): nat {
    |KeptPaths(CopyRule(folder), fs, src)|
  }

  /** Nothing exists below the destination yet, unless overwriting was asked for. */
  ghost predicate Vacant(overwrite: bool, made: FS, dst: Path) {
    overwrite || forall rel | rel != [] :: dst + rel !in made
  }

  /** The state of the loop after the names in `done`. */
  ghost predicate Looping(overwrite: bool, made: FS, now: FS, src: Path, dst: Path, folder: string,
                          done: set<string>) {
    && WellFormed(made) && WellFormed(now)
    && IsDir(made, src) && IsDir(made, dst)
    && Separate(CopyRule(folder), src, dst)
    && NoClash(CopyRule(folder), made, src, dst)
    && Vacant(overwrite, made, dst)
    && IsPasted(CopyRule(folder), made, src, dst, done, now)
  }

  lemma BelowPresent(fs: FS, dst: Path, rel: Path)
    requires WellFormed(fs) && dst + rel in fs
    ensures dst in fs
  {
    if rel == [] {
      assert dst + rel == dst;
    } else {
      PrefixIsDir(fs, dst + rel, |dst|);
      assert (dst + rel)[..|dst|] == dst;
    }
  }

  /** A successful or interrupted call: never an error, and a copy when it finishes. */
  ghost predicate Copied(outcome: Outcome, made: FS, src: Path, dst: Path, folder: string) {
    match outcome
    case Done(after) => WellFormed(after) && IsCopy(CopyRule(folder), made, src, dst, after)
    case Failed(_) => false
    case OutOfFuel => true
  }

  /** The same for one turn of the loop, or several. */
  ghost predicate Advanced(outcome: Outcome, overwrite: bool, made: FS, src: Path, dst: Path, folder: string,
                           done: set<string>) {
    match outcome
    case Done(after) => Looping(overwrite, made, after, src, dst, folder, done)
    case Failed(_) => false
    case OutOfFuel => true
  }

  lemma {:induction false} RecursiveCopied(fuel: nat, overwrite: bool, fs: FS, made: FS, src: Path, dst: Path,
                                           folder: string) returns (outcome: Outcome)
    requires Ready(overwrite, fs, made, src, dst, folder)
    ensures outcome == CopyRecursive(fuel, overwrite, fs, src, dst, folder)
    ensures Copied(outcome, made, src, dst, folder)
    ensures fuel >= Work(folder, made, src) ==> outcome.Done?
    decreases fuel, 1, 0
  {
    MkdirAllEffect(fs, dst);
    assert Get(made, src) == Get(fs, src);
    assert Vacant(overwrite, made, dst) by {
      if !overwrite {
        forall rel | rel != []
          ensures dst + rel !in made
        {
          if dst + rel in fs { BelowPresent(fs, dst, rel); }
        }
      }
    }
    NothingPasted(CopyRule(folder), made, src, dst);
    outcome := EntriesCopied(fuel, overwrite, made, made, src, dst, folder, ReadDir(made, src), {});
    if outcome.Done? {
      var names := ReadDir(made, src);
      ElementsCons({}, names);
      AllPasted(CopyRule(folder), made, src, dst, names, outcome.fs);
    }
  }

  lemma {:induction false} EntriesCopied(fuel: nat, overwrite: bool, made: FS, now: FS, src: Path, dst: Path,
                                         folder: string, names: seq<string>, done: set<string>)
    returns (outcome: Outcome)
    requires Looping(overwrite, made, now, src, dst, folder, done)
    requires Distinct(names) && forall x | x in names :: x !in done && src + [x] in made
    ensures outcome == CopyEntries(fuel, overwrite, made, now, src, dst, folder, names)
    ensures Advanced(outcome, overwrite, made, src, dst, folder, done + Elements(names))
    ensures fuel >= Work(folder, made, src) ==> outcome.Done?
    decreases fuel, 0, |names|
  {
    ElementsCons(done, names);
    if names == [] {
      outcome := Done(now);
    } else {
      var name, rest := names[0], names[1..];
      outcome := EntryCopied(fuel, overwrite, made, now, src, dst, folder, done, name);
      if outcome.Done? {
        outcome := EntriesCopied(fuel, overwrite, made, outcome.fs, src, dst, folder, rest, done + {name});
      }
    }
  }

  lemma {:induction false} EntryCopied(fuel: nat, overwrite: bool, made: FS, now: FS, src: Path, dst: Path,
                                       folder: string, done: set<string>, name: string)
    returns (outcome: Outcome)
    requires Looping(overwrite, made, now, src, dst, folder, done)
    requires name !in done && src + [name] in made
    ensures outcome == CopyEntry(fuel, overwrite, made, now, src, dst, folder, name)
    ensures Advanced(outcome, overwrite, made, src, dst, folder, done + {name})
    ensures fuel >= Work(folder, made, src) ==> outcome.Done?
    decreases fuel, 0, 0
  {
    if IsDir(made, src + [name]) {
      if DoNotCopyDir(name, folder) {
        SkipStep(CopyRule(folder), made, src, dst, done, now, name);
        outcome := Done(now);
      } else if fuel > 0 {
        outcome := DirCopied(fuel, overwrite, made, now, src, dst, folder, done, name);
      } else {
        FewerBelow(CopyRule(folder), made, src, dst, done, now, name);
        outcome := OutOfFuel;
      }
    } else {
      FileCopied(overwrite, made, now, src, dst, folder, done, name);
      outcome := Done(CopyFile(now, src + [name], dst + [name]).value);
    }
  }

  lemma FileCopied(overwrite: bool, made: FS, now: FS, src: Path, dst: Path, folder: string, done: set<string>,
                   name: string)
    requires Looping(overwrite, made, now, src, dst, folder, done)
    requires name !in done && IsFile(made, src + [name])
    ensures CopyFile(now, src + [name], dst + [name]).Some?
    ensures Looping(overwrite, made, CopyFile(now, src + [name], dst + [name]).value, src, dst, folder, done + {name})
  {
    var rule, s, d := CopyRule(folder), src + [name], dst + [name];
    var content := made[s].content;
    SourceUntouched(rule, made, src, dst, done, [name]);
    assert Get(now, s) == Some(File(content));
    if s == d {
      NoOverlap(rule, src, dst, [name], [name]);
    }
    assert Kept(rule, made, src, [name]);
    assert Parent(d) == dst;
    assert Get(now, dst) == Get(made, dst);
    assert d[|dst|] == name;
    assert Get(now, d) == Get(made, d);
    FileStep(rule, made, src, dst, done, now, name, content);
    WriteFileKeepsForm(now, d, content);
  }

  lemma {:induction false} DirCopied(fuel: nat, overwrite: bool, made: FS, now: FS, src: Path, dst: Path,
                                     folder: string, done: set<string>, name: string)
    returns (outcome: Outcome)
    requires fuel > 0
    requires Looping(overwrite, made, now, src, dst, folder, done)
    requires name !in done && IsDir(made, src + [name]) && !DoNotCopyDir(name, folder)
    ensures outcome == CopyRecursive(fuel - 1, overwrite, now, src + [name], dst + [name], folder)
    ensures Advanced(outcome, overwrite, made, src, dst, folder, done + {name})
    ensures fuel >= Work(folder, made, src) ==> outcome.Done?
    decreases fuel - 1, 2, 0
  {
    var sub := DirReady(overwrite, made, now, src, dst, folder, done, name);
    outcome := SubCopied(fuel, overwrite, made, now, sub, src, dst, folder, name);
    DirPasted(overwrite, made, now, sub, src, dst, folder, done, name, outcome);
  }

  /** What the loop knows when it calls itself on the directory `name`; `sub` is the callee's own start. */
  ghost predicate SubCall(overwrite: bool, made: FS, now: FS, sub: FS, src: Path, dst: Path, folder: string,
                          name: string) {
    && Ready(overwrite, now, sub, src + [name], dst + [name], folder)
    && OnlyDirMade(now, dst + [name], sub)
    && Work(folder, sub, src + [name]) < Work(folder, made, src)
  }

  lemma {:induction false} SubCopied(fuel: nat, overwrite: bool, made: FS, now: FS, sub: FS, src: Path, dst: Path,
                                     folder: string, name: string) returns (outcome: Outcome)
    requires fuel > 0 && SubCall(overwrite, made, now, sub, src, dst, folder, name)
    ensures outcome == CopyRecursive(fuel - 1, overwrite, now, src + [name], dst + [name], folder)
    ensures Copied(outcome, sub, src + [name], dst + [name], folder)
    ensures fuel >= Work(folder, made, src) ==> outcome.Done?
    decreases fuel - 1, 1, 1
  {
    SubCallReady(overwrite, made, now, sub, src, dst, folder, name);
    outcome := RecursiveCopied(fuel - 1, overwrite, now, sub, src + [name], dst + [name], folder);
  }

  lemma SubCallReady(overwrite: bool, made: FS, now: FS, sub: FS, src: Path, dst: Path, folder: string, name: string)
    requires SubCall(overwrite, made, now, sub, src, dst, folder, name)
    ensures Ready(overwrite, now, sub, src + [name], dst + [name], folder)
    ensures Work(folder, sub, src + [name]) < Work(folder, made, src)
  {
  }

  lemma DirPasted(overwrite: bool, made: FS, now: FS, sub: FS, src: Path, dst: Path, folder: string,
                  done: set<string>, name: string, outcome: Outcome)
    requires Looping(overwrite, made, now, src, dst, folder, done)
    requires name !in done && IsDir(made, src + [name]) && !DoNotCopyDir(name, folder)
    requires SubCall(overwrite, made, now, sub, src, dst, folder, name)
    requires Copied(outcome, sub, src + [name], dst + [name], folder)
    ensures Advanced(outcome, overwrite, made, src, dst, folder, done + {name})
  {
    if outcome.Done? {
      CopyIncludesRoot(CopyRule(folder), now, sub, src + [name], dst + [name], outcome.fs);
      DirStep(CopyRule(folder), made, src, dst, done, now, name, outcome.fs);
    }
  }

  /** The loop state gives the recursive call what it needs. */
  lemma DirReady(overwrite: bool, made: FS, now: FS, src: Path, dst: Path, folder: string, done: set<string>,
                 name: string) returns (sub: FS)
    requires Looping(overwrite, made, now, src, dst, folder, done)
    requires name !in done && IsDir(made, src + [name]) && !DoNotCopyDir(name, folder)
    ensures SubCall(overwrite, made, now, sub, src, dst, folder, name)
  {
    var rule, s, d := CopyRule(folder), src + [name], dst + [name];
    SubSeparate(rule, src, dst, name);
    SubNoClash(rule, made, src, dst, done, now, name);
    assert Parent(d) == dst && Get(now, dst) == Get(made, dst);
    OneDirMade(now, d);
    sub := MkdirAll(now, d).value;
    MadeSame(rule, now, d, sub, s);
    FewerBelow(rule, made, src, dst, done, now, name);
    assert d[|dst|] == name;
    assert Get(now, d) == Get(made, d);
  }

  // ----- the copy of a project to a fresh place -----

  /** The file system once the destination directory exists. */
  function Opened(fs: FS, dst: Path): FS {
    match MkdirAll(fs, dst)
    case None => fs
    case Some(made) => made
  }

  /** What a copy of `src` holds at `rel`: the tree without the directories that are skipped, at every depth. */
  ghost function Pruned(folder: string, fs: FS, src: Path, rel: Path): Option<Entry> {
    if Kept(CopyRule(folder), fs, src, rel) then Some(fs[src + rel]) else None
  }

  ghost predicate FreshTarget(fs: FS, src: Path, dst: Path) {
    WellFormed(fs) && IsDir(fs, src) && dst !in fs && FreeOfFiles(fs, dst)
  }

  lemma FreshReady(overwrite: bool, fs: FS, src: Path, dst: Path, folder: string)
    requires FreshTarget(fs, src, dst) && Separate(CopyRule(folder), src, dst)
    ensures Ready(overwrite, fs, Opened(fs, dst), src, dst, folder)
    ensures Get(Opened(fs, dst), src) == Get(fs, src)
    ensures forall rel :: rel != [] ==> dst + rel !in Opened(fs, dst)
  {
    MkdirAllEffect(fs, dst);
    var made := Opened(fs, dst);
    forall rel | rel != []
      ensures dst + rel !in made
    {
      if dst + rel in fs { BelowPresent(fs, dst, rel); }
    }
    forall rel | Kept(CopyRule(folder), made, src, rel) && dst + rel in made
      ensures made[dst + rel].Dir? == made[src + rel].Dir?
    {
      assert rel == [] && dst + rel == dst && src + rel == src;
      assert Get(made, dst) == Some(Dir);
    }
  }

  /** With a fresh destination the call finishes without an error, the destination is the pruned source,
      and outside it only its missing parents have appeared. */
  lemma FreshCopy(fuel: nat, overwrite: bool, fs: FS, src: Path, dst: Path, folder: string) returns (after: FS)
    requires FreshTarget(fs, src, dst) && Separate(CopyRule(folder), src, dst)
    requires fuel >= Work(folder, Opened(fs, dst), src)
    ensures CopyRecursive(fuel, overwrite, fs, src, dst, folder) == Done(after)
    ensures WellFormed(after)
    ensures forall rel :: Get(after, dst + rel) == Pruned(folder, Opened(fs, dst), src, rel)
    ensures forall p :: !(dst <= p) ==> Get(after, p) == if p <= dst && p !in fs then Some(Dir) else Get(fs, p)
  {
    MkdirAllEffect(fs, dst);
    FreshReady(overwrite, fs, src, dst, folder);
    var outcome := RecursiveCopied(fuel, overwrite, fs, Opened(fs, dst), src, dst, folder);
    after := outcome.fs;
    forall rel
      ensures Get(after, dst + rel) == Pruned(folder, Opened(fs, dst), src, rel)
    {
      assert (dst + rel)[|dst|..] == rel;
      assert Get(after, dst + rel) == CopyAt(CopyRule(folder), Opened(fs, dst), src, dst, dst + rel);
      if rel == [] {
        assert dst + rel == dst && src + rel == src;
      }
    }
  }

  // ----- when the copy never ends -----

  /** So far the loop has written only below the finished names of the destination. */
  ghost predicate WrittenBelow(made: FS, now: FS, dst: Path, done: set<string>) {
    forall p :: Get(now, p) != Get(made, p) ==> dst < p && p[|dst|] in done
  }

  /** The state of a loop that will walk into its own destination, `way` below the source. */
  ghost predicate Straying(made: FS, now: FS, src: Path, way: Path, folder: string, done: set<string>) {
    && WellFormed(made) && WellFormed(now) && way != [] && !Blocked(CopyRule(folder), way)
    && IsDir(made, src) && IsDir(made, src + [way[0]]) && IsDir(made, src + way)
    && (forall rel :: rel != [] ==> src + way + rel !in made)
    && WrittenBelow(made, now, src + way, done)
  }

  /** One turn of the loop on another entry stays in that state, unless the fuel runs out. */
  lemma StrayEntry(fuel: nat, overwrite: bool, made: FS, now: FS, src: Path, way: Path, folder: string,
                   done: set<string>, name: string) returns (outcome: Outcome)
    requires Straying(made, now, src, way, folder, done)
    requires src + [name] in made && name !in done && name != way[0]
    ensures outcome == CopyEntry(fuel, overwrite, made, now, src, src + way, folder, name)
    ensures !outcome.Failed?
    ensures outcome.Done? ==> Straying(made, outcome.fs, src, way, folder, done + {name})
  {
    var dst := src + way;
    var s, d := src + [name], dst + [name];
    outcome := CopyEntry(fuel, overwrite, made, now, src, dst, folder, name);
    StraySides(made, now, src, way, folder, done, name);
    if IsDir(made, s) && !DoNotCopyDir(name, folder) && fuel > 0 {
      StrayCall(fuel, overwrite, made, now, src, way, folder, done, name);
    } else if IsFile(made, s) {
      WriteFileKeepsForm(now, d, now[s].content);
      assert d[|dst|] == name;
    }
  }

  lemma StrayBelow(made: FS, now: FS, src: Path, way: Path, folder: string, done: set<string>, name: string,
                   rel: Path)
    requires Straying(made, now, src, way, folder, done) && name !in done
    ensures src + way + [name] + rel !in now
  {
    var dst := src + way;
    var p := dst + [name] + rel;
    assert p == dst + ([name] + rel);
    assert p[|dst|] == name;
    assert p !in made;
    assert Get(now, p) == Get(made, p);
  }

  lemma FreeBelowDir(now: FS, dst: Path, name: string)
    requires WellFormed(now) && IsDir(now, dst) && dst + [name] !in now
    ensures FreeOfFiles(now, dst + [name])
  {
    var d := dst + [name];
    forall k | 0 <= k <= |d|
      ensures !IsFile(now, d[..k])
    {
      if k == |d| {
        assert d[..k] == d;
      } else if k == |dst| {
        assert d[..k] == dst;
      } else {
        PrefixIsDir(now, dst, k);
        assert d[..k] == dst[..k];
      }
    }
  }

  lemma StraySides(made: FS, now: FS, src: Path, way: Path, folder: string, done: set<string>, name: string)
    requires Straying(made, now, src, way, folder, done)
    requires src + [name] in made && name !in done
    ensures Get(now, src + [name]) == Get(made, src + [name])
    ensures IsDir(now, src + way) && Parent(src + way + [name]) == src + way
    ensures src + way + [name] !in now && FreeOfFiles(now, src + way + [name])
    ensures src + [name] != src + way + [name]
  {
    var dst := src + way;
    assert Get(now, dst) == Get(made, dst);
    StrayBelow(made, now, src, way, folder, done, name, []);
    assert dst + [name] + [] == dst + [name];
    FreeBelowDir(now, dst, name);
  }

  /** A sibling of the way copies like any project with a destination outside it. */
  lemma StrayCopied(fuel: nat, overwrite: bool, now: FS, src: Path, way: Path, folder: string, name: string)
    returns (outcome: Outcome)
    requires way != [] && name != way[0]
    requires FreshTarget(now, src + [name], src + way + [name])
    ensures outcome == CopyRecursive(fuel, overwrite, now, src + [name], src + way + [name], folder)
    ensures Copied(outcome, Opened(now, src + way + [name]), src + [name], src + way + [name], folder)
  {
    var s, d := src + [name], src + way + [name];
    assert Separate(CopyRule(folder), s, d) by {
      assert d[|src|] == way[0] && s[|src|] == name;
      assert |s| < |d|;
    }
    FreshReady(overwrite, now, s, d, folder);
    outcome := RecursiveCopied(fuel, overwrite, now, Opened(now, d), s, d, folder);
  }

  lemma StrayCall(fuel: nat, overwrite: bool, made: FS, now: FS, src: Path, way: Path, folder: string,
                  done: set<string>, name: string)
    requires fuel > 0 && Straying(made, now, src, way, folder, done)
    requires IsDir(made, src + [name]) && name !in done && name != way[0]
    ensures var outcome := CopyRecursive(fuel - 1, overwrite, now, src + [name], src + way + [name], folder);
            !outcome.Failed? &&
            (outcome.Done? ==> Straying(made, outcome.fs, src, way, folder, done + {name}))
  {
    StraySides(made, now, src, way, folder, done, name);
    var outcome := StrayCopied(fuel - 1, overwrite, now, src, way, folder, name);
    if outcome.Done? {
      StrayWritten(made, now, src, way, folder, done, name, outcome.fs);
    }
  }

  lemma StrayWritten(made: FS, now: FS, src: Path, way: Path, folder: string, done: set<string>, name: string,
                     after: FS)
    requires Straying(made, now, src, way, folder, done) && IsDir(now, src + way)
    requires FreeOfFiles(now, src + way + [name])
    requires IsCopy(CopyRule(folder), Opened(now, src + way + [name]), src + [name], src + way + [name], after)
    ensures WrittenBelow(made, after, src + way, done + {name})
  {
    var dst := src + way;
    var d := dst + [name];
    MkdirAllEffect(now, d);
    forall p | Get(after, p) != Get(made, p)
      ensures dst < p && p[|dst|] in done + {name}
    {
      assert Get(after, p) == CopyAt(CopyRule(folder), Opened(now, d), src + [name], d, p);
      if d <= p {
        assert p[..|d|] == d && p[|dst|] == name;
      } else if p <= d {
        PrefixPresent(now, dst, p, name);
      }
    }
  }

  lemma PrefixPresent(now: FS, dst: Path, p: Path, name: string)
    requires WellFormed(now) && dst in now && p <= dst + [name] && p != dst + [name]
    ensures p in now
  {
    assert p == (dst + [name])[..|p|];
    assert p == dst[..|p|];
    if |p| < |dst| { PrefixIsDir(now, dst, |p|); }
  }

  /** If no directory on the way from the source to its destination is skipped, no amount of fuel is enough. */
  lemma {:induction false} CopyDiverges(fuel: nat, overwrite: bool, fs: FS, src: Path, way: Path, folder: string)
    requires FreshTarget(fs, src, src + way) && way != [] && !Blocked(CopyRule(folder), way)
    ensures CopyRecursive(fuel, overwrite, fs, src, src + way, folder) == OutOfFuel
    decreases fuel, 1, 0
  {
    var dst := src + way;
    MkdirAllEffect(fs, dst);
    var made := Opened(fs, dst);
    forall rel | rel != []
      ensures dst + rel !in made
    {
      if dst + rel in fs { BelowPresent(fs, dst, rel); }
    }
    assert Get(made, dst) == Some(Dir);
    assert dst[..|src| + 1] == src + [way[0]];
    if |way| == 1 {
      assert src + [way[0]] == dst;
    } else {
      PrefixIsDir(made, dst, |src| + 1);
    }
    LoopDiverges(fuel, overwrite, made, made, src, way, folder, ReadDir(made, src), {});
  }

  lemma {:induction false} LoopDiverges(fuel: nat, overwrite: bool, made: FS, now: FS, src: Path, way: Path,
                                        folder: string, names: seq<string>, done: set<string>)
    requires Straying(made, now, src, way, folder, done)
    requires Distinct(names) && forall x | x in names :: x !in done && src + [x] in made
    requires way[0] in names
    ensures CopyEntries(fuel, overwrite, made, now, src, src + way, folder, names) == OutOfFuel
    decreases fuel, 0, |names|
  {
    var name, rest := names[0], names[1..];
    if name == way[0] {
      if fuel > 0 {
        TurnDiverges(fuel, overwrite, made, now, src, way, folder, done);
      }
    } else {
      var outcome := StrayEntry(fuel, overwrite, made, now, src, way, folder, done, name);
      if outcome.Done? {
        LoopDiverges(fuel, overwrite, made, outcome.fs, src, way, folder, rest, done + {name});
      }
    }
  }

  lemma TurnedKept(folder: string, way: Path)
    requires way != [] && forall k | 0 <= k < |way| :: Keeps(CopyRule(folder), way[k], true)
    ensures var turned := way[1..] + [way[0]];
            forall k | 0 <= k < |turned| :: Keeps(CopyRule(folder), turned[k], true)
  {
    var turned := way[1..] + [way[0]];
    forall k | 0 <= k < |turned|
      ensures Keeps(CopyRule(folder), turned[k], true)
    {
      assert turned[k] == if k < |way| - 1 then way[k + 1] else way[0];
    }
  }

  /** On the first directory of the way the call repeats itself one level down, with the way rotated. */
  lemma {:induction false} TurnDiverges(fuel: nat, overwrite: bool, made: FS, now: FS, src: Path, way: Path,
                                        folder: string, done: set<string>)
    requires fuel > 0 && Straying(made, now, src, way, folder, done) && way[0] !in done
    ensures CopyEntry(fuel, overwrite, made, now, src, src + way, folder, way[0]) == OutOfFuel
    decreases fuel - 1, 2, 0
  {
    var name := way[0];
    var s, d := src + [name], src + way + [name];
    var turned := way[1..] + [name];
    assert d == s + turned;
    TurnedKept(folder, way);
    StraySides(made, now, src, way, folder, done, name);
    CopyDiverges(fuel - 1, overwrite, now, s, turned, folder);
    assert Keeps(CopyRule(folder), name, true);
  }

  /** Copying a directory to a fresh place below itself ends exactly when the way there crosses a skipped name. */
  lemma CopyEndsIff(overwrite: bool, fs: FS, src: Path, way: Path, folder: string)
    requires FreshTarget(fs, src, src + way) && way != []
    ensures (exists fuel: nat :: CopyRecursive(fuel, overwrite, fs, src, src + way, folder) != OutOfFuel)
            <==> Blocked(CopyRule(folder), way)
  {
    var dst := src + way;
    if Blocked(CopyRule(folder), way) {
      assert dst[|src|..] == way;
      var fuel := Work(folder, Opened(fs, dst), src);
      var after := FreshCopy(fuel, overwrite, fs, src, dst, folder);
      assert CopyRecursive(fuel, overwrite, fs, src, dst, folder) != OutOfFuel;
    } else {
      forall fuel: nat
        ensures CopyRecursive(fuel, overwrite, fs, src, dst, folder) == OutOfFuel
      {
        CopyDiverges(fuel, overwrite, fs, src, way, folder);
      }
    }
  }

  // ----- the project copy of copyProject -----

  /** `getAbsoluteMutationFolderPath`. */
  function GetAbsoluteMutationFolderPath(projectRoot: string, folder: string): string {
    if IsPrefix("/", folder) then folder else AppendFolder(projectRoot, folder)
  }

  /** Where `copyProject` puts the mutant called `name`. */
  function MutantDir(root: Path, folder: string, name: string): Path {
    (if IsPrefix("/", folder) then [] else root) + Comps(folder) + Comps(name)
  }

  /** The path string `copyProject` builds denotes that directory, however the slashes in its parts fall. */
  lemma MutantDirDenoted(projectRoot: string, folder: string, name: string)
    ensures Comps(AppendFolder(GetAbsoluteMutationFolderPath(projectRoot, folder), name))
            == MutantDir(Comps(projectRoot), folder, name)
  {
    AppendFolderComps(GetAbsoluteMutationFolderPath(projectRoot, folder), name);
    AppendFolderComps(projectRoot, folder);
  }

  /** A relative mutant folder blocks the way to every mutant in it: its first component is skipped. */
  lemma RelativeFolderBlocks(ps: seq<string>, tail: seq<string>)
    requires |ps| >= 1 && AllPlain(ps)
    ensures Blocked(CopyRule(Join(ps) + "/"), ps + tail)
    ensures Comps(Join(ps) + "/") == ps && !IsPrefix("/", Join(ps) + "/")
  {
    RelativeFolderSkips(ps, ps[0]);
    assert !Keeps(CopyRule(Join(ps) + "/"), (ps + tail)[0], true);
    CompsEdges(Join(ps));
    CompsJoin(ps);
    JoinNonEmpty(ps);
  }

  /** The same folder written with a leading "./" blocks nothing once it has two components,
      so by `CopyEndsIff` the copy of the project never ends. */
  lemma DottedFolderNeverEnds(fuel: nat, overwrite: bool, fs: FS, root: Path, ps: seq<string>, tail: seq<string>)
    requires |ps| >= 2 && AllPlain(ps) && AllPlain(tail) && ".git" !in ps + tail
    requires FreshTarget(fs, root, root + (ps + tail))
    ensures CopyRecursive(fuel, overwrite, fs, root, root + (ps + tail), "./" + Join(ps) + "/") == OutOfFuel
  {
    var way, folder := ps + tail, "./" + Join(ps) + "/";
    forall k | 0 <= k < |way|
      ensures Keeps(CopyRule(folder), way[k], true)
    {
      assert Plain(way[k]) && way[k] in way;
      DottedFolderSkips(ps, way[k]);
    }
    CopyDiverges(fuel, overwrite, fs, root, way, folder);
  }

  /** An absolute mutant folder inside the working directory is entered unless the way to the mutant
      happens to contain the name of the file system's top directory, or ".git". */
  lemma AbsoluteFolderBlocks(ps: seq<string>, way: seq<string>)
    requires |ps| >= 1 && AllPlain(ps) && forall k | 0 <= k < |way| :: NoSlash(way[k])
    ensures Blocked(CopyRule("/" + Join(ps) + "/"), way) <==> ps[0] in way || ".git" in way
  {
    forall k | 0 <= k < |way|
      ensures Keeps(CopyRule("/" + Join(ps) + "/"), way[k], true) <==> way[k] != ps[0] && way[k] != ".git"
    {
      AbsoluteFolderSkips(ps, way[k]);
    }
  }
}
