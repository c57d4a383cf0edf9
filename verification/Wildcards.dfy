/** config.go: finding the files that a path with wildcards stands for.

    `share` tells two versions apart. The program writes each directory it tries into the one array of pieces that
    all its calls share, so what a deeper call has written is still there when the next directory is tried. With
    `share` off every call gets its own copy. */
module Wildcards {
  import opened FileSystem
  import opened SortedNames
  import opened Text

  /** What the search reads: the file system, the names in a directory, the project root as a string, and the test of
      a name against a glob. */
  datatype Glob = Glob(fs: FS, list: Path -> seq<string>, basepath: string, matches: (string, string) -> bool)

  function Stars(s: string): nat {
    if s == [] then 0 else (if s[0] == '*' then 1 else 0) + Stars(s[1..])
  }

  /** As many as there are in the text. */
  lemma {:induction false} StarsCount(s: string)
    ensures Stars(s) == multiset(s)['*']
  {
    if s != [] {
      StarsCount(s[1..]);
      assert s == [s[0]] + s[1..];
    }
  }

  /** `isValidWildCard`: the expression for one star matches once for each star. */
  predicate Wild(piece: string) {
    Stars(piece) == 1
  }

  /** `getCurrentPath` and `getParentPath`: every piece followed by a slash. */
  function PathString(pieces: seq<string>): string {
    if pieces == [] then "" else pieces[0] + "/" + PathString(pieces[1..])
  }

  // ----- the calls on the file system -----

  predicate BelowFile(fs: FS, p: Path) {
    exists k | 0 <= k < |p| :: IsFile(fs, p[..k])
  }

  /** `FS.Stat` succeeds, or fails for another reason than that nothing is there. */
  predicate NotMissing(fs: FS, path: string) {
    Comps(path) in fs || BelowFile(fs, Comps(path))
  }

  /** `FS.Stat` succeeds; a slash after a file name makes it fail. */
  predicate StatOk(fs: FS, path: string) {
    Comps(path) in fs && (HasSuffix(path, "/") ==> IsDir(fs, Comps(path)))
  }

  predicate IsDirectory(g: Glob, path: string) {
    path == "" || IsDir(g.fs, Comps(g.basepath + path))
  }

  /** A path that ends in a slash and names a file is looked up again without the slash. */
  predicate Exists(g: Glob, path: string) {
    path == "" || StatOk(g.fs, g.basepath + path) || NotMissing(g.fs, g.basepath + Clean(path))
  }

  function Filter(names: seq<string>, keep: string -> bool): seq<string> {
    if names == [] then [] else (if keep(names[0]) then [names[0]] else []) + Filter(names[1..], keep)
  }

  lemma {:induction false} FilterExact(names: seq<string>, keep: string -> bool)
    ensures forall x :: x in Filter(names, keep) <==> x in names && keep(x)
    ensures Distinct(names) ==> Distinct(Filter(names, keep))
  {
    if names != [] {
      FilterExact(names[1..], keep);
    }
  }

  /** `filterFileNames`, left out for a bare star. */
  predicate Passes(g: Glob, piece: string, name: string) {
    |piece| > 1 ==> g.matches(piece, name)
  }

  /** The directories and the other entries among the names in a directory, as far as they match. */
  function DirNames(g: Glob, path: string, piece: string): seq<string> {
    var p := Comps(g.basepath + path);
    Filter(g.list(p), x => IsDir(g.fs, p + [x]) && Passes(g, piece, x))
  }

  function FileNames(g: Glob, path: string, piece: string): seq<string> {
    var p := Comps(g.basepath + path);
    Filter(g.list(p), x => !IsDir(g.fs, p + [x]) && Passes(g, piece, x))
  }

  lemma DirNamesExact(g: Glob, path: string, piece: string, p: Path)
    requires p == Comps(g.basepath + path)
    ensures forall x :: x in DirNames(g, path, piece) <==> x in g.list(p) && IsDir(g.fs, p + [x]) && Passes(g, piece, x)
    ensures Distinct(g.list(p)) ==> Distinct(DirNames(g, path, piece))
  {
    FilterExact(g.list(p), x => IsDir(g.fs, p + [x]) && Passes(g, piece, x));
  }

  lemma FileNamesExact(g: Glob, path: string, piece: string, p: Path)
    requires p == Comps(g.basepath + path)
    ensures forall x ::
              x in FileNames(g, path, piece) <==> x in g.list(p) && !IsDir(g.fs, p + [x]) && Passes(g, piece, x)
    ensures Distinct(g.list(p)) ==> Distinct(FileNames(g, path, piece))
  {
    FilterExact(g.list(p), x => !IsDir(g.fs, p + [x]) && Passes(g, piece, x));
  }

  ghost predicate StarFree(fs: FS) {
    forall p | p in fs && fs[p].Dir? && p != [] :: Stars(p[|p| - 1]) == 0
  }

  /** No wildcard comes back through a directory name. */
  lemma DirNamesStarFree(g: Glob, path: string, piece: string)
    requires StarFree(g.fs)
    ensures forall d | d in DirNames(g, path, piece) :: Stars(d) == 0
  {
    var p := Comps(g.basepath + path);
    DirNamesExact(g, path, piece, p);
    forall d | d in DirNames(g, path, piece)
      ensures Stars(d) == 0
    {
      assert (p + [d])[|p + [d]| - 1] == d;
    }
  }

  // ----- the search -----

  /** What a call of `expandWildCardRecursive` does at its index. */
  datatype Move = Nothing | Here | Deeper | Branch

  function MoveAt(g: Glob, i: nat, pieces: seq<string>): (move: Move)
    requires i < |pieces|
    ensures move == Branch ==> Wild(pieces[i])
    ensures move == Deeper ==> !Wild(pieces[i])
  {
    var parentPath, currentPath := PathString(pieces[..i]), PathString(pieces[..i + 1]);
    if IsDirectory(g, parentPath) then
      if Wild(pieces[i]) then Branch
      else if !IsDirectory(g, currentPath) && Exists(g, currentPath) then Here
      else Deeper
    else if !Exists(g, currentPath) then Nothing
    else Here
  }

  /** `expandWildCardRecursive`: the paths found, and the pieces as the call leaves them. On star-free directory
      names it ends, because a wildcard is replaced by a piece that is none before the same index is visited again. */
  function Expand(g: Glob, share: bool, i: nat, pieces: seq<string>): (r: (seq<string>, seq<string>))
    requires StarFree(g.fs) && i <= |pieces|
    ensures |r.1| == |pieces|
    decreases |pieces| - i, if i < |pieces| && Wild(pieces[i]) then 2 else 0, 0
  {
    if i == |pieces| then ([], pieces)
    else
      match MoveAt(g, i, pieces)
      case Nothing => ([], pieces)
      case Here => ([Join(pieces[..i + 1])], pieces)
      case Deeper => Expand(g, share, i + 1, pieces)
      case Branch =>
        var parentPath := PathString(pieces[..i]);
        DirNamesStarFree(g, parentPath, pieces[i]);
        var (below, left) := ExpandDirs(g, share, i, pieces, DirNames(g, parentPath, pieces[i]));
        (below + FilesAt(g, i, pieces), left)
  }

  /** Files are only wanted at the last piece. */
  function FilesAt(g: Glob, i: nat, pieces: seq<string>): seq<string>
    requires i < |pieces|
  {
    var parentPath := PathString(pieces[..i]);
    if i == |pieces| - 1 then ExpandFiles(g, parentPath, FileNames(g, parentPath, pieces[i])) else []
  }

  function ExpandDirs(g: Glob, share: bool, i: nat, pieces: seq<string>, dirs: seq<string>)
    : (r: (seq<string>, seq<string>))
    requires StarFree(g.fs) && i < |pieces|
    requires forall d | d in dirs :: Stars(d) == 0
    ensures |r.1| == |pieces|
    decreases |pieces| - i, 1, |dirs|
  {
    if dirs == [] then ([], pieces)
    else
      var (found, left) := Expand(g, share, i, pieces[i := dirs[0]]);
      var (more, last) := ExpandDirs(g, share, i, if share then left else pieces, dirs[1..]);
      (found + more, last)
  }

  function ExpandFiles(g: Glob, parentPath: string, files: seq<string>): seq<string> {
    if files == [] then []
    else (if Exists(g, parentPath + files[0]) then [parentPath + files[0]] else [])
         + ExpandFiles(g, parentPath, files[1..])
  }
}
