/** What a whole `mutate` run leaves on disk: one pruned copy of the project per mutation, with one file replaced. */
module ProjectRun {
  import opened Options
  import opened Sequences
  import opened SortedNames
  import opened FileSystem
  import opened Text
  import opened CopyRules
  import opened TreeCopy
  import opened CopyUtils
  import opened GoAst
  import opened Mutators
  import opened Walk
  import opened Names
  import opened MutateRun
  import Protocol

  // ----- the directories of one file's mutants -----

  function Init(s: seq<string>): seq<string>
    requires s != []
  {
    s[..|s| - 1]
  }

  function Last(s: seq<string>): string
    requires s != []
  {
    s[|s| - 1]
  }

  /** A relative file path without empty or "." components. */
  ghost predicate IsFilePath(file: string, parts: seq<string>) {
    parts != [] && file == Join(parts) && forall k | 0 <= k < |parts| :: Solid(parts[k]) && NoSlash(parts[k])
  }

  /** The directory that holds all mutants of the file. */
  ghost function Shelf(cfg: Config, ps: seq<string>, parts: seq<string>): Path
    requires parts != []
  {
    cfg.root + ps + Init(parts)
  }

  lemma SuffixHasNoSlash(op: Operator, id: nat)
    ensures NoSlash(Suffix(RegisteredName(op), id))
  {
    RegisteredNamesAreGood(op);
    var safe, digits := SafeName(RegisteredName(op)), Decimal(id);
    DecimalDigits(id);
    forall k | 0 <= k < |safe|
      ensures safe[k] != '/'
    {
      assert IsNameChar(safe[k]);
    }
    forall k | 0 <= k < |digits|
      ensures digits[k] != '/'
    {
      assert IsDigit(digits[k]);
    }
  }

  lemma {:induction false} SolidOnlyLengthen(ps: seq<string>, t: string)
    requires ps != [] && |t| >= 2 && forall k | 0 <= k < |ps| :: Solid(ps[k])
    ensures SolidOnly(Lengthen(ps, t)) == Init(ps) + [Last(ps) + t]
  {
    var long := Lengthen(ps, t);
    assert |Last(ps) + t| >= 2;
    SolidOnlyAll(long);
  }

  lemma LengthenedPath(file: string, parts: seq<string>, t: string)
    requires IsFilePath(file, parts) && NoSlash(t) && |t| >= 2
    ensures Comps(file + t) == Init(parts) + [Last(parts) + t]
    ensures Comps(file) == parts
  {
    SplitJoin(parts);
    CompsJoin(parts);
    SplitAppend(file, t);
    SolidOnlyLengthen(parts, t);
  }

  /** The mutant's directory is one entry of the shelf, named after the file. */
  lemma DirIsOnShelf(cfg: Config, ps: seq<string>, parts: seq<string>, op: Operator, id: nat)
    requires NamesMutants(cfg)
    requires |ps| >= 1 && AllPlain(ps) && cfg.folder == Join(ps) + "/" && IsFilePath(cfg.file, parts)
    ensures DirOf(cfg, op, id) == Shelf(cfg, ps, parts) + [Last(parts) + Suffix(RegisteredName(op), id)]
    ensures Comps(cfg.file) == parts
  {
    var t := Suffix(RegisteredName(op), id);
    assert MutantName(cfg, op, id) == cfg.file + t;
    RelativeFolderBlocks(ps, []);
    SuffixHasNoSlash(op, id);
    LengthenedPath(cfg.file, parts, t);
    ShelfAssociates(cfg.root, ps, Init(parts), Last(parts) + t);
  }

  lemma ShelfAssociates(root: Path, ps: seq<string>, init: seq<string>, leaf: string)
    ensures root + ps + (init + [leaf]) == root + ps + init + [leaf]
    ensures root + (ps + (init + [leaf])) == root + ps + init + [leaf]
  {
  }

  /** Different operators or ids give different directories, none inside another. */
  lemma DirsDiffer(cfg: Config, ps: seq<string>, parts: seq<string>, op1: Operator, id1: nat, op2: Operator, id2: nat)
    requires NamesMutants(cfg)
    requires |ps| >= 1 && AllPlain(ps) && cfg.folder == Join(ps) + "/" && IsFilePath(cfg.file, parts)
    requires DirOf(cfg, op1, id1) <= DirOf(cfg, op2, id2)
    ensures op1 == op2 && id1 == id2
  {
    DirIsOnShelf(cfg, ps, parts, op1, id1);
    DirIsOnShelf(cfg, ps, parts, op2, id2);
    var n1, n2 := RegisteredName(op1), RegisteredName(op2);
    var shelf, last := Shelf(cfg, ps, parts), Last(parts);
    assert (shelf + [last + Suffix(n1, id1)])[|shelf|] == (shelf + [last + Suffix(n2, id2)])[|shelf|];
    assert BuildMutantName(n1, last, id1) == BuildMutantName(n2, last, id2);
    RegisteredNamesAreGood(op1);
    RegisteredNamesAreGood(op2);
    NamesEqualIff(n1, last, id1, n2, last, id2);
    RegisteredNamesDiffer(op1, op2);
  }

  lemma DirsIncomparable(cfg: Config, ps: seq<string>, parts: seq<string>, op1: Operator, id1: nat, op2: Operator,
                         id2: nat)
    requires NamesMutants(cfg)
    requires |ps| >= 1 && AllPlain(ps) && cfg.folder == Join(ps) + "/" && IsFilePath(cfg.file, parts)
    requires op1 != op2 || id1 != id2
    ensures |DirOf(cfg, op1, id1)| == |DirOf(cfg, op2, id2)| && DirOf(cfg, op1, id1) != DirOf(cfg, op2, id2)
  {
    DirIsOnShelf(cfg, ps, parts, op1, id1);
    DirIsOnShelf(cfg, ps, parts, op2, id2);
    if DirOf(cfg, op1, id1) == DirOf(cfg, op2, id2) {
      DirsDiffer(cfg, ps, parts, op1, id1, op2, id2);
    }
  }

  lemma Beside(dir: Path, other: Path, rel: Path)
    requires |dir| == |other| && dir != other
    ensures !(dir <= other + rel) && !(other + rel <= dir)
  {
    assert (other + rel)[..|other|] == other;
    assert other + rel <= dir ==> other + rel == other;
  }

  // ----- the conditions of a run -----

  ghost predicate IsSite(cfg: Config, ast: Ast, j: nat, n: nat)
    requires ValidRun(cfg, ast)
  {
    j < |cfg.operators| && n < |Sites(cfg, ast, cfg.operators[j])|
  }

  /** A fresh run over a file of the project: relative mutant folder, distinct operators, none of the mutant
      directories there yet, and room for the recursion. */
  ghost predicate Prepared(cfg: Config, ast: Ast, ps: seq<string>, parts: seq<string>, fs: FS) {
    && ValidRun(cfg, ast)
    && |ps| >= 1 && AllPlain(ps) && cfg.folder == Join(ps) + "/"
    && IsFilePath(cfg.file, parts) && cfg.parts == parts
    && WellFormed(fs) && IsDir(fs, cfg.root)
    && Kept(CopyRule(cfg.folder), fs, cfg.root, parts) && IsFile(fs, cfg.root + parts)
    && (forall i, j | 0 <= i < j < |cfg.operators| :: cfg.operators[i] != cfg.operators[j])
    && FreeOfFiles(fs, Shelf(cfg, ps, parts))
    && (forall j: nat, n: nat | IsSite(cfg, ast, j, n) :: DirOf(cfg, cfg.operators[j], n) !in fs)
    && NamesMutants(cfg) && CopiesProject(cfg) && cfg.depth >= Work(cfg.folder, fs, cfg.root)
  }

  /** The mutant for site `n` of operator `j` has been produced once `i` operators and `k` more sites are done. */
  ghost predicate Done(cfg: Config, ast: Ast, i: nat, k: nat, j: nat, n: nat)
    requires ValidRun(cfg, ast)
  {
    j < |cfg.operators| && n < |Sites(cfg, ast, cfg.operators[j])| && (j < i || (j == i && n < k))
  }

  /** The pruned project, but for the one file: that holds the original tree with exactly one mutation, as rendered. */
  ghost function MutantEntry(cfg: Config, ast: Ast, fs: FS, parts: seq<string>, op: Operator, n: nat, rel: Path)
    : Option<Entry>
    requires ValidRun(cfg, ast) && n < |Sites(cfg, ast, op)|
  {
    match cfg.render(MutantTree(cfg, ast, op, n))
    case Some(text) => if rel == parts then Some(File(text)) else Pruned(cfg.folder, fs, cfg.root, rel)
    case None => Pruned(cfg.folder, fs, cfg.root, rel)
  }

  ghost predicate HoldsMutant(cfg: Config, ast: Ast, start: FS, parts: seq<string>, op: Operator, n: nat, now: FS)
    requires ValidRun(cfg, ast) && n < |Sites(cfg, ast, op)|
  {
    forall rel :: Get(now, DirOf(cfg, op, n) + rel) == MutantEntry(cfg, ast, start, parts, op, n, rel)
  }

  /** A path the run may have changed: a missing directory on the way to the shelf, or inside a produced mutant. */
  ghost predicate Touched(cfg: Config, ast: Ast, ps: seq<string>, parts: seq<string>, start: FS, i: nat, k: nat,
                          p: Path)
    requires ValidRun(cfg, ast) && parts != []
  {
    (p <= Shelf(cfg, ps, parts) && p !in start)
    || exists j: nat, n: nat :: Done(cfg, ast, i, k, j, n) && DirOf(cfg, cfg.operators[j], n) <= p
  }

  ghost predicate OnDisk(cfg: Config, ast: Ast, ps: seq<string>, parts: seq<string>, start: FS, i: nat, k: nat, now: FS)
    requires ValidRun(cfg, ast) && parts != []
  {
    && WellFormed(now)
    && (forall p | p <= Shelf(cfg, ps, parts) && p !in start && p in now :: now[p].Dir?)
    && (forall p | Get(now, p) != Get(start, p) :: Touched(cfg, ast, ps, parts, start, i, k, p))
    && (forall j: nat, n: nat | Done(cfg, ast, i, k, j, n) ::
         HoldsMutant(cfg, ast, start, parts, cfg.operators[j], n, now))
  }

  // ----- the project itself is never changed -----

  /** Two file systems that differ only inside the mutant folder. */
  ghost predicate SameProject(start: FS, now: FS, root: Path, ps: seq<string>)
    requires |ps| >= 1
  {
    && (forall p | Get(now, p) != Get(start, p) :: root + [ps[0]] <= p)
    && !IsFile(start, root + [ps[0]]) && !IsFile(now, root + [ps[0]])
  }

  lemma KeptOutsideFolder(start: FS, now: FS, root: Path, ps: seq<string>, rel: Path)
    requires |ps| >= 1 && AllPlain(ps) && SameProject(start, now, root, ps)
    ensures Kept(CopyRule(Join(ps) + "/"), now, root, rel) <==> Kept(CopyRule(Join(ps) + "/"), start, root, rel)
    ensures Kept(CopyRule(Join(ps) + "/"), start, root, rel) ==> Get(now, root + rel) == Get(start, root + rel)
  {
    if root + [ps[0]] <= root + rel {
      assert (root + [ps[0]])[|root|] == (root + rel)[|root|];
      FolderNotKept(start, root, ps, rel);
      FolderNotKept(now, root, ps, rel);
    } else {
      assert Get(now, root + rel) == Get(start, root + rel);
    }
  }

  lemma FolderNotKept(fs: FS, root: Path, ps: seq<string>, rel: Path)
    requires |ps| >= 1 && AllPlain(ps) && !IsFile(fs, root + [ps[0]])
    requires rel != [] && rel[0] == ps[0]
    ensures !Kept(CopyRule(Join(ps) + "/"), fs, root, rel)
  {
    var rule := CopyRule(Join(ps) + "/");
    RelativeFolderSkips(ps, ps[0]);
    assert !Keeps(rule, rel[0], true);
    if |rel| == 1 {
      assert rel == [ps[0]];
    }
    assert root + rel in fs ==> !Keeps(rule, rel[0], 0 < |rel| - 1 || fs[root + rel].Dir?);
  }

  lemma ProjectUnchanged(start: FS, now: FS, root: Path, ps: seq<string>)
    requires |ps| >= 1 && AllPlain(ps) && SameProject(start, now, root, ps)
    ensures Work(Join(ps) + "/", now, root) == Work(Join(ps) + "/", start, root)
    ensures forall rel :: Pruned(Join(ps) + "/", now, root, rel) == Pruned(Join(ps) + "/", start, root, rel)
  {
    var rule := CopyRule(Join(ps) + "/");
    forall p | root <= p
      ensures p in KeptPaths(rule, now, root) <==> p in KeptPaths(rule, start, root)
    {
      assert p == root + p[|root|..];
      KeptOutsideFolder(start, now, root, ps, p[|root|..]);
    }
    assert KeptPaths(rule, now, root) == KeptPaths(rule, start, root);
    forall rel
      ensures Pruned(Join(ps) + "/", now, root, rel) == Pruned(Join(ps) + "/", start, root, rel)
    {
      KeptOutsideFolder(start, now, root, ps, rel);
    }
  }

  // ----- one more mutant -----

  /** The disk after some mutants: the project is the same, and the next directory is free. */
  lemma NextDirFresh(cfg: Config, ast: Ast, ps: seq<string>, parts: seq<string>, start: FS, i: nat, k: nat, now: FS)
    requires Prepared(cfg, ast, ps, parts, start) && OnDisk(cfg, ast, ps, parts, start, i, k, now)
    requires i < |cfg.operators| && k < |Sites(cfg, ast, cfg.operators[i])|
    ensures FreshTarget(now, cfg.root, DirOf(cfg, cfg.operators[i], k))
    ensures SameProject(start, now, cfg.root, ps)
  {
    var op := cfg.operators[i];
    var dir := DirOf(cfg, op, k);
    var shelf := Shelf(cfg, ps, parts);
    DirIsOnShelf(cfg, ps, parts, op, k);
    assert IsSite(cfg, ast, i, k);
    assert dir !in now by {
      if Get(now, dir) != Get(start, dir) {
        var j: nat, n: nat :| Done(cfg, ast, i, k, j, n) && DirOf(cfg, cfg.operators[j], n) <= dir;
        DirsDiffer(cfg, ps, parts, cfg.operators[j], n, op, k);
      }
    }
    forall p | p <= shelf
      ensures !IsFile(now, p)
    {
      ShelfStays(cfg, ast, ps, parts, start, i, k, now, p);
    }
    ShelfFree(now, shelf, dir);
    RootStays(cfg, ast, ps, parts, start, i, k, now);
  }

  /** On the way to the shelf nothing but missing directories has appeared. */
  lemma ShelfStays(cfg: Config, ast: Ast, ps: seq<string>, parts: seq<string>, start: FS, i: nat, k: nat, now: FS,
                   p: Path)
    requires Prepared(cfg, ast, ps, parts, start) && OnDisk(cfg, ast, ps, parts, start, i, k, now)
    requires p <= Shelf(cfg, ps, parts)
    ensures !IsFile(now, p)
    ensures p in start ==> Get(now, p) == Get(start, p)
  {
    var shelf := Shelf(cfg, ps, parts);
    assert p == shelf[..|p|];
    if Get(now, p) != Get(start, p) && p in start {
      var j: nat, n: nat :| Done(cfg, ast, i, k, j, n) && DirOf(cfg, cfg.operators[j], n) <= p;
      DirIsOnShelf(cfg, ps, parts, cfg.operators[j], n);
    }
  }

  lemma ShelfFree(now: FS, shelf: Path, dir: Path)
    requires |dir| == |shelf| + 1 && shelf <= dir && dir !in now
    requires forall p | p <= shelf :: !IsFile(now, p)
    ensures FreeOfFiles(now, dir)
  {
    forall k | 0 <= k <= |dir|
      ensures !IsFile(now, dir[..k])
    {
      if k == |dir| {
        assert dir[..k] == dir;
      } else {
        assert dir[..k] == shelf[..k];
      }
    }
  }

  lemma RootStays(cfg: Config, ast: Ast, ps: seq<string>, parts: seq<string>, start: FS, i: nat, k: nat, now: FS)
    requires Prepared(cfg, ast, ps, parts, start) && OnDisk(cfg, ast, ps, parts, start, i, k, now)
    ensures IsDir(now, cfg.root)
    ensures SameProject(start, now, cfg.root, ps)
  {
    var shelf, first := Shelf(cfg, ps, parts), cfg.root + [ps[0]];
    assert shelf[..|cfg.root|] == cfg.root && shelf[..|first|] == first;
    assert cfg.root <= shelf && first <= shelf;
    ShelfStays(cfg, ast, ps, parts, start, i, k, now, cfg.root);
    ShelfStays(cfg, ast, ps, parts, start, i, k, now, first);
    assert !IsFile(start, first);
    forall p | Get(now, p) != Get(start, p)
      ensures first <= p
    {
      TouchedBelowFirst(cfg, ast, ps, parts, start, i, k, p);
    }
  }

  /** Everything a run touches lies in the mutant folder. */
  lemma TouchedBelowFirst(cfg: Config, ast: Ast, ps: seq<string>, parts: seq<string>, start: FS, i: nat, k: nat,
                          p: Path)
    requires Prepared(cfg, ast, ps, parts, start) && Touched(cfg, ast, ps, parts, start, i, k, p)
    ensures cfg.root + [ps[0]] <= p
  {
    var shelf, first := Shelf(cfg, ps, parts), cfg.root + [ps[0]];
    assert first <= shelf by { assert shelf[..|first|] == first; }
    if p <= shelf && p !in start {
      PathPastRoot(start, cfg.root, ps[0], shelf, p);
    } else {
      var j: nat, n: nat :| Done(cfg, ast, i, k, j, n) && DirOf(cfg, cfg.operators[j], n) <= p;
      DirIsOnShelf(cfg, ps, parts, cfg.operators[j], n);
      PrefixChain(first, shelf, DirOf(cfg, cfg.operators[j], n), p);
    }
  }

  lemma PrefixChain(a: Path, b: Path, c: Path, d: Path)
    requires a <= b <= c <= d
    ensures a <= d
  {
    assert d[..|c|] == c && c[..|b|] == b && b[..|a|] == a;
  }

  /** The copy made for the next mutant is the pruned project as it was at the start of the run. */
  lemma NextCopy(cfg: Config, ast: Ast, ps: seq<string>, parts: seq<string>, start: FS, i: nat, k: nat, now: FS)
    returns (after: FS)
    requires Prepared(cfg, ast, ps, parts, start) && OnDisk(cfg, ast, ps, parts, start, i, k, now)
    requires i < |cfg.operators| && k < |Sites(cfg, ast, cfg.operators[i])|
    ensures var dir := DirOf(cfg, cfg.operators[i], k);
            && after == cfg.copy(now, dir) && WellFormed(after)
            && (forall rel :: Get(after, dir + rel) == Pruned(cfg.folder, start, cfg.root, rel))
            && (forall p :: !(dir <= p) ==> Get(after, p) == if p <= dir && p !in now then Some(Dir) else Get(now, p))
  {
    var dir := DirOf(cfg, cfg.operators[i], k);
    NextDirFresh(cfg, ast, ps, parts, start, i, k, now);
    NextDirSeparate(cfg, ps, parts, cfg.operators[i], k);
    OpenedSameProject(cfg, ps, start, now, dir);
    ProjectUnchanged(start, Opened(now, dir), cfg.root, ps);
    after := FreshCopy(cfg.depth, cfg.overwrite, now, cfg.root, dir, cfg.folder);
    assert after == CopyProject(cfg, now, dir);
  }

  lemma NextDirSeparate(cfg: Config, ps: seq<string>, parts: seq<string>, op: Operator, id: nat)
    requires NamesMutants(cfg)
    requires |ps| >= 1 && AllPlain(ps) && cfg.folder == Join(ps) + "/" && IsFilePath(cfg.file, parts)
    ensures Separate(CopyRule(cfg.folder), cfg.root, DirOf(cfg, op, id))
    ensures cfg.root + [ps[0]] <= DirOf(cfg, op, id)
  {
    DirIsOnShelf(cfg, ps, parts, op, id);
    var leaf := Last(parts) + Suffix(RegisteredName(op), id);
    ShelfAssociates(cfg.root, ps, Init(parts), leaf);
    RelativeFolderBlocks(ps, Init(parts) + [leaf]);
    DescendantSeparate(CopyRule(cfg.folder), cfg.root, ps + (Init(parts) + [leaf]));
  }

  lemma DescendantSeparate(rule: Rule, root: Path, way: Path)
    requires way != [] && Blocked(rule, way)
    ensures Separate(rule, root, root + way)
    ensures root + [way[0]] <= root + way
  {
    var dir := root + way;
    assert dir[|root|..] == way;
    assert |dir| > |root|;
    assert dir[..|root| + 1] == root + [way[0]];
  }

  lemma OpenedSameProject(cfg: Config, ps: seq<string>, start: FS, now: FS, dir: Path)
    requires |ps| >= 1 && WellFormed(now) && FreshTarget(now, cfg.root, dir)
    requires SameProject(start, now, cfg.root, ps) && cfg.root + [ps[0]] <= dir
    ensures SameProject(start, Opened(now, dir), cfg.root, ps)
  {
    MkdirAllEffect(now, dir);
    var made, first := Opened(now, dir), cfg.root + [ps[0]];
    forall p | Get(made, p) != Get(start, p)
      ensures first <= p
    {
      if Get(now, p) == Get(start, p) {
        assert p <= dir && p !in now;
        PathPastRoot(now, cfg.root, ps[0], dir, p);
      }
    }
    assert Get(made, first) == Some(Dir) || Get(made, first) == Get(now, first);
  }

  lemma PathPastRoot(now: FS, root: Path, name: string, dir: Path, p: Path)
    requires WellFormed(now) && root in now && root + [name] <= dir && p <= dir && p !in now
    ensures root + [name] <= p
  {
    var first := root + [name];
    assert p == dir[..|p|] && first == dir[..|first|];
    assert |p| <= |root| ==> p == root[..|p|];
    if p <= root { PrefixPresent(now, root, p, ""); }
    assert p[..|first|] == first;
  }

  /** Writing the mutated file into the copy succeeds whenever the tree can be rendered. */
  lemma FileFits(cfg: Config, ps: seq<string>, parts: seq<string>, start: FS, dir: Path, after: FS, text: string)
    requires |ps| >= 1 && parts != [] && WellFormed(start) && WellFormed(after)
    requires Kept(CopyRule(cfg.folder), start, cfg.root, parts) && IsFile(start, cfg.root + parts)
    requires forall rel :: Get(after, dir + rel) == Pruned(cfg.folder, start, cfg.root, rel)
    ensures WriteFile(after, dir + parts, text) == Some(after[dir + parts := File(text)])
    ensures WellFormed(after[dir + parts := File(text)])
  {
    var init := Init(parts);
    assert Parent(dir + parts) == dir + init;
    assert Parent(cfg.root + parts) == cfg.root + init;
    assert IsDir(start, cfg.root + init);
    forall k | 0 <= k < |init|
      ensures Keeps(CopyRule(cfg.folder), init[k], true)
    {
      assert init[k] == parts[k];
    }
    assert Get(after, dir + init) == Pruned(cfg.folder, start, cfg.root, init);
    assert Get(after, dir + parts) == Pruned(cfg.folder, start, cfg.root, parts);
    WriteFileKeepsForm(after, dir + parts, text);
  }

  /** The file system after one more mutant, and whether it was listed. */
  lemma NextMutant(cfg: Config, ast: Ast, ps: seq<string>, parts: seq<string>, start: FS, i: nat, k: nat,
                   before: Progress) returns (after: FS)
    requires Prepared(cfg, ast, ps, parts, start) && OnDisk(cfg, ast, ps, parts, start, i, k, before.fs)
    requires i < |cfg.operators| && k < |Sites(cfg, ast, cfg.operators[i])|
    ensures var op := cfg.operators[i];
            var dir := DirOf(cfg, op, k);
            && Produce(cfg, before, op, k, MutantTree(cfg, ast, op, k))
               == Progress(after, before.infos + Listing(cfg, ast, op, k))
            && WellFormed(after)
            && HoldsMutant(cfg, ast, start, parts, op, k, after)
            && (forall p :: !(dir <= p) ==>
                 Get(after, p) == if p <= dir && p !in before.fs then Some(Dir) else Get(before.fs, p))
  {
    var op := cfg.operators[i];
    var dir := DirOf(cfg, op, k);
    var copied := NextCopy(cfg, ast, ps, parts, start, i, k, before.fs);
    DirIsOnShelf(cfg, ps, parts, op, k);
    match cfg.render(MutantTree(cfg, ast, op, k))
    case None => after := copied;
    case Some(text) =>
      FileFits(cfg, ps, parts, start, dir, copied, text);
      after := copied[dir + parts := File(text)];
      OneFileReplaced(copied, dir, parts, text);
  }

  lemma OneFileReplaced(fs: FS, dir: Path, parts: Path, text: string)
    ensures var after := fs[dir + parts := File(text)];
            && (forall rel :: Get(after, dir + rel) == if rel == parts then Some(File(text)) else Get(fs, dir + rel))
            && (forall p :: !(dir <= p) ==> Get(after, p) == Get(fs, p))
  {
    var after := fs[dir + parts := File(text)];
    assert dir <= dir + parts;
    forall rel
      ensures Get(after, dir + rel) == if rel == parts then Some(File(text)) else Get(fs, dir + rel)
    {
      assert rel == (dir + rel)[|dir|..] && parts == (dir + parts)[|dir|..];
    }
  }

  /** The entries `mutate` returns for one mutation: one if the tree could be rendered. */
  function Listing(cfg: Config, ast: Ast, op: Operator, n: nat): seq<MutantInfo>
    requires ValidRun(cfg, ast) && n < |Sites(cfg, ast, op)|
  {
    var dir := DirOf(cfg, op, n);
    if cfg.render(MutantTree(cfg, ast, op, n)).Some?
    then [MutantInfo(cfg.file, dir, FileIn(cfg, dir))] else []
  }

  /** The disk invariant survives one more mutant: earlier mutants are not altered. */
  lemma DiskStep(cfg: Config, ast: Ast, ps: seq<string>, parts: seq<string>, start: FS, i: nat, k: nat, now: FS,
                 after: FS)
    requires Prepared(cfg, ast, ps, parts, start) && OnDisk(cfg, ast, ps, parts, start, i, k, now)
    requires i < |cfg.operators| && k < |Sites(cfg, ast, cfg.operators[i])|
    requires WellFormed(after) && HoldsMutant(cfg, ast, start, parts, cfg.operators[i], k, after)
    requires var dir := DirOf(cfg, cfg.operators[i], k);
             forall p :: !(dir <= p) ==> Get(after, p) == if p <= dir && p !in now then Some(Dir) else Get(now, p)
    ensures OnDisk(cfg, ast, ps, parts, start, i, k + 1, after)
  {
    forall p | Get(after, p) != Get(start, p)
      ensures Touched(cfg, ast, ps, parts, start, i, k + 1, p)
    {
      TouchedNext(cfg, ast, ps, parts, start, i, k, now, after, p);
    }
    MutantsHold(cfg, ast, ps, parts, start, i, k, now, after);
    ShelfDirs(cfg, ast, ps, parts, start, i, k, now, after);
  }

  lemma ShelfDirs(cfg: Config, ast: Ast, ps: seq<string>, parts: seq<string>, start: FS, i: nat, k: nat, now: FS,
                  after: FS)
    requires Prepared(cfg, ast, ps, parts, start) && OnDisk(cfg, ast, ps, parts, start, i, k, now)
    requires i < |cfg.operators| && k < |Sites(cfg, ast, cfg.operators[i])|
    requires var dir := DirOf(cfg, cfg.operators[i], k);
             forall p :: !(dir <= p) ==> Get(after, p) == if p <= dir && p !in now then Some(Dir) else Get(now, p)
    ensures forall p | p <= Shelf(cfg, ps, parts) && p !in start && p in after :: after[p].Dir?
  {
    var dir, shelf := DirOf(cfg, cfg.operators[i], k), Shelf(cfg, ps, parts);
    DirIsOnShelf(cfg, ps, parts, cfg.operators[i], k);
    forall p | p <= shelf && p !in start && p in after
      ensures after[p].Dir?
    {
      assert !(dir <= p);
      assert Get(after, p) == if p <= dir && p !in now then Some(Dir) else Get(now, p);
    }
  }

  lemma MutantsHold(cfg: Config, ast: Ast, ps: seq<string>, parts: seq<string>, start: FS, i: nat, k: nat, now: FS,
                    after: FS)
    requires Prepared(cfg, ast, ps, parts, start) && OnDisk(cfg, ast, ps, parts, start, i, k, now)
    requires i < |cfg.operators| && k < |Sites(cfg, ast, cfg.operators[i])|
    requires HoldsMutant(cfg, ast, start, parts, cfg.operators[i], k, after)
    requires var dir := DirOf(cfg, cfg.operators[i], k);
             forall p :: !(dir <= p) ==> Get(after, p) == if p <= dir && p !in now then Some(Dir) else Get(now, p)
    ensures forall j: nat, n: nat | Done(cfg, ast, i, k + 1, j, n) ::
              HoldsMutant(cfg, ast, start, parts, cfg.operators[j], n, after)
  {
    forall j: nat, n: nat | Done(cfg, ast, i, k + 1, j, n)
      ensures HoldsMutant(cfg, ast, start, parts, cfg.operators[j], n, after)
    {
      if !(j == i && n == k) {
        assert Done(cfg, ast, i, k, j, n);
        OthersUnaltered(cfg, ast, ps, parts, start, i, k, now, after, j, n);
      }
    }
  }

  lemma TouchedNext(cfg: Config, ast: Ast, ps: seq<string>, parts: seq<string>, start: FS, i: nat, k: nat, now: FS,
                    after: FS, p: Path)
    requires Prepared(cfg, ast, ps, parts, start) && OnDisk(cfg, ast, ps, parts, start, i, k, now)
    requires i < |cfg.operators| && k < |Sites(cfg, ast, cfg.operators[i])|
    requires var dir := DirOf(cfg, cfg.operators[i], k);
             !(dir <= p) ==> Get(after, p) == if p <= dir && p !in now then Some(Dir) else Get(now, p)
    requires Get(after, p) != Get(start, p)
    ensures Touched(cfg, ast, ps, parts, start, i, k + 1, p)
  {
    var dir, shelf := DirOf(cfg, cfg.operators[i], k), Shelf(cfg, ps, parts);
    DirIsOnShelf(cfg, ps, parts, cfg.operators[i], k);
    if dir <= p {
      assert Done(cfg, ast, i, k + 1, i, k);
    } else if Get(now, p) != Get(start, p) {
      assert Touched(cfg, ast, ps, parts, start, i, k, p);
      if !(p <= shelf && p !in start) {
        var j: nat, n: nat :| Done(cfg, ast, i, k, j, n) && DirOf(cfg, cfg.operators[j], n) <= p;
        assert Done(cfg, ast, i, k + 1, j, n);
      }
    } else {
      assert p <= dir && |p| <= |shelf|;
      assert p == dir[..|p|] == shelf[..|p|];
    }
  }

  lemma OthersUnaltered(cfg: Config, ast: Ast, ps: seq<string>, parts: seq<string>, start: FS, i: nat, k: nat,
                        now: FS, after: FS, j: nat, n: nat)
    requires Prepared(cfg, ast, ps, parts, start) && OnDisk(cfg, ast, ps, parts, start, i, k, now)
    requires i < |cfg.operators| && k < |Sites(cfg, ast, cfg.operators[i])| && Done(cfg, ast, i, k, j, n)
    requires var dir := DirOf(cfg, cfg.operators[i], k);
             forall p :: !(dir <= p) ==> Get(after, p) == if p <= dir && p !in now then Some(Dir) else Get(now, p)
    ensures HoldsMutant(cfg, ast, start, parts, cfg.operators[j], n, after)
  {
    var dir, other := DirOf(cfg, cfg.operators[i], k), DirOf(cfg, cfg.operators[j], n);
    DirsIncomparable(cfg, ps, parts, cfg.operators[i], k, cfg.operators[j], n);
    forall rel
      ensures Get(after, other + rel) == Get(now, other + rel)
    {
      Beside(dir, other, rel);
    }
    assert HoldsMutant(cfg, ast, start, parts, cfg.operators[j], n, now);
  }

  // ----- the whole run -----

  ghost function Listings(cfg: Config, ast: Ast, op: Operator, n: nat): seq<seq<MutantInfo>>
    requires ValidRun(cfg, ast) && n <= |Sites(cfg, ast, op)|
  {
    seq(n, i requires 0 <= i < n => Listing(cfg, ast, op, i))
  }

  ghost function ListedSites(cfg: Config, ast: Ast, op: Operator, n: nat): seq<MutantInfo>
    requires ValidRun(cfg, ast) && n <= |Sites(cfg, ast, op)|
  {
    Flatten(Listings(cfg, ast, op, n))
  }

  ghost function ListedOp(cfg: Config, ast: Ast, k: nat): seq<MutantInfo>
    requires ValidRun(cfg, ast) && k < |cfg.operators|
  {
    ListedSites(cfg, ast, cfg.operators[k], |Sites(cfg, ast, cfg.operators[k])|)
  }

  ghost function OpListings(cfg: Config, ast: Ast, k: nat): seq<seq<MutantInfo>>
    requires ValidRun(cfg, ast) && k <= |cfg.operators|
  {
    seq(k, i requires 0 <= i < k => ListedOp(cfg, ast, i))
  }

  ghost function ListedOps(cfg: Config, ast: Ast, k: nat): seq<MutantInfo>
    requires ValidRun(cfg, ast) && k <= |cfg.operators|
  {
    Flatten(OpListings(cfg, ast, k))
  }

  lemma OneMoreListing(cfg: Config, ast: Ast, op: Operator, n: nat)
    requires ValidRun(cfg, ast) && n < |Sites(cfg, ast, op)|
    ensures ListedSites(cfg, ast, op, n + 1) == ListedSites(cfg, ast, op, n) + Listing(cfg, ast, op, n)
  {
    assert Listings(cfg, ast, op, n + 1) == Listings(cfg, ast, op, n) + [Listing(cfg, ast, op, n)];
    FlattenSnoc(Listings(cfg, ast, op, n), Listing(cfg, ast, op, n));
  }

  lemma OneMoreListedOp(cfg: Config, ast: Ast, k: nat)
    requires ValidRun(cfg, ast) && k < |cfg.operators|
    ensures ListedOps(cfg, ast, k + 1) == ListedOps(cfg, ast, k) + ListedOp(cfg, ast, k)
  {
    assert OpListings(cfg, ast, k + 1) == OpListings(cfg, ast, k) + [ListedOp(cfg, ast, k)];
    FlattenSnoc(OpListings(cfg, ast, k), ListedOp(cfg, ast, k));
  }

  /** The disk and the list after the first `n` sites of operator `i`. */
  ghost predicate SitesDone(cfg: Config, ast: Ast, ps: seq<string>, parts: seq<string>, start: FS, i: nat,
                            before: Progress, n: nat, now: Progress)
    requires ValidRun(cfg, ast) && parts != [] && i < |cfg.operators| && n <= |Sites(cfg, ast, cfg.operators[i])|
  {
    && now == AfterSites(cfg, ast, before, cfg.operators[i], n)
    && OnDisk(cfg, ast, ps, parts, start, i, n, now.fs)
    && now.infos == before.infos + ListedSites(cfg, ast, cfg.operators[i], n)
  }

  lemma SiteStep(cfg: Config, ast: Ast, ps: seq<string>, parts: seq<string>, start: FS, i: nat, before: Progress,
                 n: nat, next: nat, middle: Progress) returns (after: Progress)
    requires Prepared(cfg, ast, ps, parts, start) && i < |cfg.operators| && n < |Sites(cfg, ast, cfg.operators[i])|
    requires next == n + 1 && SitesDone(cfg, ast, ps, parts, start, i, before, n, middle)
    ensures SitesDone(cfg, ast, ps, parts, start, i, before, next, after)
  {
    var op := cfg.operators[i];
    var fs := NextMutant(cfg, ast, ps, parts, start, i, n, middle);
    DiskStep(cfg, ast, ps, parts, start, i, n, middle.fs, fs);
    after := Progress(fs, middle.infos + Listing(cfg, ast, op, n));
    OneMoreListing(cfg, ast, op, n);
    Assoc(before.infos, ListedSites(cfg, ast, op, n), Listing(cfg, ast, op, n));
  }

  lemma NoSiteYet(cfg: Config, ast: Ast, ps: seq<string>, parts: seq<string>, start: FS, i: nat, before: Progress,
                  n: nat)
    requires ValidRun(cfg, ast) && parts != [] && i < |cfg.operators| && n == 0
    requires OnDisk(cfg, ast, ps, parts, start, i, 0, before.fs)
    ensures SitesDone(cfg, ast, ps, parts, start, i, before, n, before)
  {
  }

  lemma {:induction false} SitesFrom(cfg: Config, ast: Ast, ps: seq<string>, parts: seq<string>, start: FS, i: nat,
                                     before: Progress, k: nat, now: Progress, n: nat) returns (after: Progress)
    requires Prepared(cfg, ast, ps, parts, start) && i < |cfg.operators|
    requires k <= n <= |Sites(cfg, ast, cfg.operators[i])|
    requires SitesDone(cfg, ast, ps, parts, start, i, before, k, now)
    ensures SitesDone(cfg, ast, ps, parts, start, i, before, n, after)
    decreases n - k
  {
    after := now;
    if k < n {
      var next := SiteStep(cfg, ast, ps, parts, start, i, before, k, k + 1, now);
      after := SitesFrom(cfg, ast, ps, parts, start, i, before, k + 1, next, n);
    }
  }

  lemma SitesRun(cfg: Config, ast: Ast, ps: seq<string>, parts: seq<string>, start: FS, i: nat, before: Progress,
                 n: nat) returns (after: Progress)
    requires Prepared(cfg, ast, ps, parts, start) && OnDisk(cfg, ast, ps, parts, start, i, 0, before.fs)
    requires i < |cfg.operators| && n <= |Sites(cfg, ast, cfg.operators[i])|
    ensures SitesDone(cfg, ast, ps, parts, start, i, before, n, after)
  {
    NoSiteYet(cfg, ast, ps, parts, start, i, before, 0);
    after := SitesFrom(cfg, ast, ps, parts, start, i, before, 0, before, n);
  }

  /** All sites of one operator done is none of the next done. */
  lemma NextOperator(cfg: Config, ast: Ast, ps: seq<string>, parts: seq<string>, start: FS, i: nat, now: FS)
    requires ValidRun(cfg, ast) && parts != [] && i < |cfg.operators|
    requires OnDisk(cfg, ast, ps, parts, start, i, |Sites(cfg, ast, cfg.operators[i])|, now)
    ensures OnDisk(cfg, ast, ps, parts, start, i + 1, 0, now)
  {
    var k := |Sites(cfg, ast, cfg.operators[i])|;
    forall j: nat, n: nat
      ensures Done(cfg, ast, i, k, j, n) <==> Done(cfg, ast, i + 1, 0, j, n)
    {
    }
    forall p | Get(now, p) != Get(start, p)
      ensures Touched(cfg, ast, ps, parts, start, i + 1, 0, p)
    {
      assert Touched(cfg, ast, ps, parts, start, i, k, p);
      if !(p <= Shelf(cfg, ps, parts) && p !in start) {
        var j: nat, n: nat :| Done(cfg, ast, i, k, j, n) && DirOf(cfg, cfg.operators[j], n) <= p;
        assert Done(cfg, ast, i + 1, 0, j, n);
      }
    }
  }

  lemma OneMoreOperator(cfg: Config, ast: Ast, start: Progress, k: nat)
    requires ValidRun(cfg, ast) && k < |cfg.operators|
    ensures var sites := |Sites(cfg, ast, cfg.operators[k])|;
            && AfterOps(cfg, ast, start, k + 1)
               == AfterSites(cfg, ast, AfterOps(cfg, ast, start, k), cfg.operators[k], sites)
            && ListedOps(cfg, ast, k + 1) == ListedOps(cfg, ast, k) + ListedSites(cfg, ast, cfg.operators[k], sites)
  {
    OneMoreListedOp(cfg, ast, k);
  }

  /** The disk and the list after the first `k` operators. */
  ghost predicate OpsDone(cfg: Config, ast: Ast, ps: seq<string>, parts: seq<string>, start: FS, k: nat, now: Progress)
    requires ValidRun(cfg, ast) && parts != [] && k <= |cfg.operators|
  {
    && now == AfterOps(cfg, ast, Progress(start, []), k)
    && OnDisk(cfg, ast, ps, parts, start, k, 0, now.fs)
    && now.infos == ListedOps(cfg, ast, k)
  }

  lemma FirstOp(cfg: Config, ast: Ast, ps: seq<string>, parts: seq<string>, start: FS, k: nat)
    returns (after: Progress)
    requires Prepared(cfg, ast, ps, parts, start) && k == 0
    ensures OpsDone(cfg, ast, ps, parts, start, k, after)
  {
    after := Progress(start, []);
  }

  lemma OpStep(cfg: Config, ast: Ast, ps: seq<string>, parts: seq<string>, start: FS, k: nat, next: nat,
               before: Progress) returns (after: Progress)
    requires Prepared(cfg, ast, ps, parts, start) && k < |cfg.operators| && next == k + 1
    requires OpsDone(cfg, ast, ps, parts, start, k, before)
    ensures OpsDone(cfg, ast, ps, parts, start, next, after)
  {
    OneMoreOperator(cfg, ast, Progress(start, []), k);
    after := SitesRun(cfg, ast, ps, parts, start, k, before, |Sites(cfg, ast, cfg.operators[k])|);
    NextOperator(cfg, ast, ps, parts, start, k, after.fs);
  }

  lemma {:induction false} OpsFrom(cfg: Config, ast: Ast, ps: seq<string>, parts: seq<string>, start: FS, k: nat,
                                   before: Progress, n: nat) returns (after: Progress)
    requires Prepared(cfg, ast, ps, parts, start) && k <= n <= |cfg.operators|
    requires OpsDone(cfg, ast, ps, parts, start, k, before)
    ensures OpsDone(cfg, ast, ps, parts, start, n, after)
    decreases n - k
  {
    after := before;
    if k < n {
      var next := OpStep(cfg, ast, ps, parts, start, k, k + 1, before);
      after := OpsFrom(cfg, ast, ps, parts, start, k + 1, next, n);
    }
  }

  lemma OpsRun(cfg: Config, ast: Ast, ps: seq<string>, parts: seq<string>, start: FS, k: nat) returns (after: Progress)
    requires Prepared(cfg, ast, ps, parts, start) && k <= |cfg.operators|
    ensures OpsDone(cfg, ast, ps, parts, start, k, after)
  {
    var before := FirstOp(cfg, ast, ps, parts, start, 0);
    after := OpsFrom(cfg, ast, ps, parts, start, 0, before, k);
  }

  /** In every finished interleaving of walker and driver: each mutation of each operator has its own directory, equal
      to the pruned project but for the one file; that file holds the original tree with exactly that mutation applied,
      as rendered; no later mutant has altered it, and nothing outside the mutants and the directories above them has
      changed. The list that is returned names exactly the mutants that were written, in order. */
  lemma MutateProducesTheMutants(cfg: Config, ast: Ast, ps: seq<string>, parts: seq<string>, start: FS,
                                 run: seq<Protocol.State>)
    requires Prepared(cfg, ast, ps, parts, start)
    requires Protocol.IsRun(cfg, ast, Progress(start, []), run) && run[|run| - 1].driver == Protocol.Finished
    ensures var end := run[|run| - 1].progress;
            && end.infos == ListedOps(cfg, ast, |cfg.operators|)
            && (forall j: nat, n: nat | j < |cfg.operators| && n < |Sites(cfg, ast, cfg.operators[j])| ::
                 HoldsMutant(cfg, ast, start, parts, cfg.operators[j], n, end.fs))
            && (forall p | Get(end.fs, p) != Get(start, p) ::
                 Touched(cfg, ast, ps, parts, start, |cfg.operators|, 0, p))
    ensures run[|run| - 1].ast == ast
  {
    Protocol.FinishedRun(cfg, ast, Progress(start, []), run);
    var end := OpsRun(cfg, ast, ps, parts, start, |cfg.operators|);
    forall j: nat, n: nat | j < |cfg.operators| && n < |Sites(cfg, ast, cfg.operators[j])|
      ensures HoldsMutant(cfg, ast, start, parts, cfg.operators[j], n, end.fs)
    {
      assert Done(cfg, ast, |cfg.operators|, 0, j, n);
    }
  }
}
