/** config.go: from the configured paths to the set of files to mutate. */
module Selection {
  import opened Sequences
  import opened FileSystem
  import opened SortedNames
  import opened Text
  import opened Wildcards
  import opened WildcardSearch
  import opened WildcardFinds
  import opened WildcardSharing
  import opened WildcardMisses

  // ----- the search as it runs -----

  /** `getCurrentPath` with `index + 1` pieces, `getParentPath` with `index` pieces. */
  method PathOf(pathPieces: array<string>, count: nat) returns (path: string)
    requires count <= pathPieces.Length
    ensures path == PathString(pathPieces[..count])
  {
    path := "";
    for i := 0 to count
      invariant path == PathString(pathPieces[..i])
    {
      PathStringGrows(pathPieces[..i], pathPieces[i]);
      assert pathPieces[..i + 1] == pathPieces[..i] + [pathPieces[i]];
      path := path + pathPieces[i];
      path := path + "/";
    }
  }

  /** `expandWildCardRecursive`: `newPathPieces := pathPieces` copies no element, so directories are written into the
      caller's array. */
  method ExpandWildCardRecursive(g: Glob, pathIndex: nat, pathPieces: array<string>) returns (allPaths: seq<string>)
    requires StarFree(g.fs) && pathIndex <= pathPieces.Length
    modifies pathPieces
    ensures (allPaths, pathPieces[..]) == Expand(g, true, pathIndex, old(pathPieces[..]))
    decreases pathPieces.Length - pathIndex,
              if pathIndex < pathPieces.Length && Wild(pathPieces[pathIndex]) then 2 else 0
  {
    if pathIndex >= pathPieces.Length {
      return [];
    }
    ghost var pieces := pathPieces[..];
    var currentPath := PathOf(pathPieces, pathIndex + 1);
    var parentPath := PathOf(pathPieces, pathIndex);
    assert pathPieces[..pathIndex] == pieces[..pathIndex] && pathPieces[..pathIndex + 1] == pieces[..pathIndex + 1];
    if IsDirectory(g, parentPath) {
      if Wild(pathPieces[pathIndex]) {
        assert MoveAt(g, pathIndex, pieces) == Branch;
        allPaths := ExpandWildCardPiece(g, pathIndex, pathPieces, parentPath);
      } else if !IsDirectory(g, currentPath) && Exists(g, currentPath) {
        assert MoveAt(g, pathIndex, pieces) == Here;
        ExpandStops(g, true, pathIndex, pieces);
        PathStringJoin(pieces[..pathIndex + 1]);
        allPaths := [currentPath[..|currentPath| - 1]];
      } else {
        assert MoveAt(g, pathIndex, pieces) == Deeper;
        ExpandDeeper(g, true, pathIndex, pieces);
        allPaths := ExpandWildCardRecursive(g, pathIndex + 1, pathPieces);
      }
    } else if !Exists(g, currentPath) {
      assert MoveAt(g, pathIndex, pieces) == Nothing;
      ExpandStops(g, true, pathIndex, pieces);
      allPaths := [];
    } else {
      assert MoveAt(g, pathIndex, pieces) == Here;
      ExpandStops(g, true, pathIndex, pieces);
      PathStringJoin(pieces[..pathIndex + 1]);
      allPaths := [currentPath[..|currentPath| - 1]];
    }
  }

  /** The branch for a wildcard. */
  method ExpandWildCardPiece(g: Glob, pathIndex: nat, pathPieces: array<string>, parentPath: string)
    returns (allPaths: seq<string>)
    requires StarFree(g.fs) && pathIndex < pathPieces.Length && parentPath == PathString(pathPieces[..pathIndex])
    requires MoveAt(g, pathIndex, pathPieces[..]) == Branch
    modifies pathPieces
    ensures (allPaths, pathPieces[..]) == Expand(g, true, pathIndex, old(pathPieces[..]))
    decreases pathPieces.Length - pathIndex, 1, 1
  {
    ghost var pieces := pathPieces[..];
    assert pathPieces[..pathIndex] == pieces[..pathIndex];
    var pathPiece := pathPieces[pathIndex];
    var dirNames := DirNames(g, parentPath, pathPiece);
    var fileNames := FileNames(g, parentPath, pathPiece);
    DirNamesStarFree(g, parentPath, pathPiece);
    allPaths := ExpandEach(g, pathIndex, pathPieces, dirNames);
    ghost var below := (allPaths, pathPieces[..]);
    var files := [];
    if pathIndex == pathPieces.Length - 1 {
      files := ExpandFiles(g, parentPath, fileNames);
    }
    BranchResult(g, pathIndex, pieces, below, files);
    allPaths := allPaths + files;
  }

  lemma BranchResult(g: Glob, i: nat, pieces: seq<string>, below: (seq<string>, seq<string>), files: seq<string>)
    requires StarFree(g.fs) && i < |pieces| && MoveAt(g, i, pieces) == Branch
    requires forall d | d in DirNames(g, PathString(pieces[..i]), pieces[i]) :: Stars(d) == 0
    requires below == ExpandDirs(g, true, i, pieces, DirNames(g, PathString(pieces[..i]), pieces[i]))
    requires files == if i == |pieces| - 1
                      then ExpandFiles(g, PathString(pieces[..i]), FileNames(g, PathString(pieces[..i]), pieces[i]))
                      else []
    ensures Expand(g, true, i, pieces) == (below.0 + files, below.1)
  {
    ExpandBranch(g, true, i, pieces, below);
  }

  lemma OneDirectory(g: Glob, i: nat, before: seq<string>, dirs: seq<string>, found: seq<string>, after: seq<string>)
    returns (more: (seq<string>, seq<string>))
    requires StarFree(g.fs) && i < |before| && dirs != [] && forall d | d in dirs :: Stars(d) == 0
    requires (found, after) == Expand(g, true, i, before[i := dirs[0]])
    ensures |after| == |before| && more == ExpandDirs(g, true, i, after, dirs[1..])
    ensures ExpandDirs(g, true, i, before, dirs) == (found + more.0, more.1)
  {
    more := ExpandDirs(g, true, i, after, dirs[1..]);
  }

  /** The loop over the directories. */
  method ExpandEach(g: Glob, pathIndex: nat, pathPieces: array<string>, dirNames: seq<string>)
    returns (allPaths: seq<string>)
    requires StarFree(g.fs) && pathIndex < pathPieces.Length
    requires forall d | d in dirNames :: Stars(d) == 0
    modifies pathPieces
    ensures (allPaths, pathPieces[..]) == ExpandDirs(g, true, pathIndex, old(pathPieces[..]), dirNames)
    decreases pathPieces.Length - pathIndex, 1, 0
  {
    allPaths := [];
    ghost var whole := ExpandDirs(g, true, pathIndex, pathPieces[..], dirNames);
    ghost var rest := whole;
    ghost var left := dirNames;
    assert [] + whole.0 == whole.0;
    for k := 0 to |dirNames|
      invariant left == dirNames[k..] && forall d | d in left :: Stars(d) == 0
      invariant rest == ExpandDirs(g, true, pathIndex, pathPieces[..], left)
      invariant Continues(whole, allPaths, rest)
    {
      ghost var before := pathPieces[..];
      pathPieces[pathIndex] := dirNames[k];
      assert pathPieces[..] == before[pathIndex := dirNames[k]];
      var found := ExpandWildCardRecursive(g, pathIndex, pathPieces);
      rest := OneDirectory(g, pathIndex, before, left, found, pathPieces[..]);
      left := left[1..];
      ContinuesOn(whole, allPaths, found, rest);
      allPaths := allPaths + found;
    }
    NoDirectory(g, pathIndex, pathPieces[..]);
    assert allPaths + [] == allPaths;
  }

  lemma NoDirectory(g: Glob, i: nat, pieces: seq<string>)
    requires StarFree(g.fs) && i < |pieces|
    ensures ExpandDirs(g, true, i, pieces, []) == ([], pieces)
  {
  }

  ghost predicate Continues(whole: (seq<string>, seq<string>), done: seq<string>, rest: (seq<string>, seq<string>)) {
    whole == (done + rest.0, rest.1)
  }

  lemma ContinuesOn(whole: (seq<string>, seq<string>), done: seq<string>, found: seq<string>,
                    more: (seq<string>, seq<string>))
    requires Continues(whole, done, (found + more.0, more.1))
    ensures Continues(whole, done + found, more)
  {
    Assoc(done, found, more.0);
  }

  /** `expandWildCard`. */
  method ExpandWildCard(g: Glob, path: string) returns (paths: seq<string>)
    requires StarFree(g.fs)
    ensures paths == FilesFor(g, path)
  {
    var pieces := Split(path);
    var pathPieces := new string[|pieces|](i requires 0 <= i < |pieces| => pieces[i]);
    assert pathPieces[..] == pieces;
    paths := ExpandWildCardRecursive(g, 0, pathPieces);
  }

  function FilesFor(g: Glob, path: string): seq<string>
    requires StarFree(g.fs)
  {
    Expand(g, true, 0, Split(path)).0
  }

  // ----- the configuration -----

  /** `removeWildCardPaths` keeps every path but those with exactly one star. */
  function RemoveWildCardPaths(paths: seq<string>): seq<string> {
    if paths == [] then [] else (if Wild(paths[0]) then [] else [paths[0]]) + RemoveWildCardPaths(paths[1..])
  }

  function Expansions(g: Glob, paths: seq<string>): seq<string>
    requires StarFree(g.fs)
  {
    if paths == [] then []
    else (if Stars(paths[0]) > 0 then FilesFor(g, paths[0]) else []) + Expansions(g, paths[1..])
  }

  function Revised(g: Glob, paths: seq<string>): seq<string>
    requires StarFree(g.fs)
  {
    RemoveWildCardPaths(paths) + Expansions(g, paths)
  }

  /** The two lists of files in the configuration. */
  class Targets {
    var filesToInclude: seq<string>
    var filesToExclude: seq<string>

    constructor (filesToInclude: seq<string>, filesToExclude: seq<string>)
      ensures this.filesToInclude == filesToInclude && this.filesToExclude == filesToExclude
    {
      this.filesToInclude := filesToInclude;
      this.filesToExclude := filesToExclude;
    }

    method ExpandAll(g: Glob, paths: seq<string>) returns (expandedPaths: seq<string>)
      requires StarFree(g.fs)
      ensures expandedPaths == Expansions(g, paths)
    {
      expandedPaths := [];
      assert paths[0..] == paths && [] + Expansions(g, paths) == Expansions(g, paths);
      for i := 0 to |paths|
        invariant expandedPaths + Expansions(g, paths[i..]) == Expansions(g, paths)
      {
        assert paths[i..][1..] == paths[i + 1..];
        var found: seq<string> := [];
        if Stars(paths[i]) > 0 {
          found := ExpandWildCard(g, paths[i]);
        }
        Assoc(expandedPaths, found, Expansions(g, paths[i + 1..]));
        expandedPaths := expandedPaths + found;
      }
      assert paths[|paths|..] == [] && expandedPaths + [] == expandedPaths;
    }

    /** `expandWildCards`. */
    method ExpandWildCards(g: Glob)
      requires StarFree(g.fs)
      modifies this
      ensures filesToInclude == Revised(g, old(filesToInclude))
      ensures filesToExclude == Revised(g, old(filesToExclude))
    {
      var expandedPaths := ExpandAll(g, filesToInclude);
      filesToInclude := RemoveWildCardPaths(filesToInclude) + expandedPaths;
      expandedPaths := ExpandAll(g, filesToExclude);
      filesToExclude := RemoveWildCardPaths(filesToExclude) + expandedPaths;
    }

    /** `getIncludedFiles`; the order of the result is that of a Go map and so not determined. */
    method GetIncludedFiles() returns (filesToMutate: set<string>)
      ensures filesToMutate == (set s | s in filesToInclude) - (set s | s in filesToExclude)
    {
      filesToMutate := {};
      for i := 0 to |filesToInclude|
        invariant filesToMutate == set s | s in filesToInclude[..i]
      {
        filesToMutate := filesToMutate + {filesToInclude[i]};
      }
      assert filesToInclude[..|filesToInclude|] == filesToInclude;
      ghost var included := filesToMutate;
      for i := 0 to |filesToExclude|
        invariant filesToMutate == included - set s | s in filesToExclude[..i]
      {
        filesToMutate := filesToMutate - {filesToExclude[i]};
      }
      assert filesToExclude[..|filesToExclude|] == filesToExclude;
    }
  }

  // ----- what is selected -----

  function SumStars(pieces: seq<string>): nat {
    if pieces == [] then 0 else Stars(pieces[0]) + SumStars(pieces[1..])
  }

  /** Splitting loses no star. */
  lemma {:induction false} StarsOfPieces(path: string)
    ensures SumStars(Split(path)) == Stars(path)
  {
    if path == [] {
      assert Split(path)[1..] == [];
    } else {
      StarsOfPieces(path[1..]);
      var rest := Split(path[1..]);
      if path[0] == '/' {
        assert ([[]] + rest)[1..] == rest;
      } else {
        var first := [path[0]] + rest[0];
        assert first[1..] == rest[0];
        assert ([first] + rest[1..])[1..] == rest[1..];
      }
    }
  }

  lemma {:induction false} TwoPieces(pieces: seq<string>, j: nat, k: nat)
    requires j < k < |pieces|
    ensures Stars(pieces[j]) + Stars(pieces[k]) <= SumStars(pieces)
    decreases |pieces|
  {
    if j == 0 {
      OnePiece(pieces[1..], k - 1);
    } else {
      TwoPieces(pieces[1..], j - 1, k - 1);
    }
  }

  lemma {:induction false} OnePiece(pieces: seq<string>, k: nat)
    requires k < |pieces|
    ensures Stars(pieces[k]) <= SumStars(pieces)
    decreases |pieces|
  {
    if k > 0 {
      OnePiece(pieces[1..], k - 1);
    }
  }

  lemma OneStarOneWild(path: string)
    requires Stars(path) <= 1
    ensures AtMostOneWild(Split(path), 0)
  {
    StarsOfPieces(path);
    forall j, k | 0 <= j < k < |Split(path)|
      ensures !(Wild(Split(path)[j]) && Wild(Split(path)[k]))
    {
      TwoPieces(Split(path), j, k);
    }
  }

  /** What a configured path stands for: itself, unless it holds exactly one star; and, if it holds any, the files that
      fit it. */
  ghost predicate StandsFor(g: Glob, path: string, s: string) {
    (Stars(path) != 1 && s == path) || (Stars(path) >= 1 && s in Wanted(g, 0, Split(path)))
  }

  ghost predicate Listed(g: Glob, paths: seq<string>, s: string) {
    exists k | 0 <= k < |paths| :: StandsFor(g, paths[k], s)
  }

  /** Paths with any number of stars, but of whose pieces at most one is a wildcard. */
  ghost predicate OneWildPaths(paths: seq<string>) {
    forall k | 0 <= k < |paths| :: AtMostOneWild(Split(paths[k]), 0) && AllOrdinary(Split(paths[k]))
  }

  lemma PathRevised(g: Glob, path: string, s: string)
    requires Usable(g) && AtMostOneWild(Split(path), 0) && AllOrdinary(Split(path))
    ensures StandsFor(g, path, s) <==> (!Wild(path) && s == path) || (Stars(path) > 0 && s in FilesFor(g, path))
  {
    SharedIsExact(g, Split(path));
  }

  lemma RevisedStep(g: Glob, paths: seq<string>, s: string)
    requires StarFree(g.fs) && paths != []
    ensures s in Revised(g, paths)
            <==> || (!Wild(paths[0]) && s == paths[0])
                 || (Stars(paths[0]) > 0 && s in FilesFor(g, paths[0]))
                 || s in Revised(g, paths[1..])
  {
  }

  lemma {:induction false} RevisedExact(g: Glob, paths: seq<string>, s: string)
    requires Usable(g) && OneWildPaths(paths)
    ensures s in Revised(g, paths) <==> Listed(g, paths, s)
    decreases |paths|
  {
    if paths != [] {
      RevisedExact(g, paths[1..], s);
      RevisedStep(g, paths, s);
      PathRevised(g, paths[0], s);
      ListedStep(g, paths, s);
    }
  }

  lemma ListedStep(g: Glob, paths: seq<string>, s: string)
    requires paths != []
    ensures Listed(g, paths, s) <==> StandsFor(g, paths[0], s) || Listed(g, paths[1..], s)
  {
    if Listed(g, paths[1..], s) {
      var k :| 0 <= k < |paths[1..]| && StandsFor(g, paths[1..][k], s);
      assert paths[k + 1] == paths[1..][k];
    }
    if Listed(g, paths, s) && !StandsFor(g, paths[0], s) {
      var k :| 0 <= k < |paths| && StandsFor(g, paths[k], s);
      assert paths[1..][k - 1] == paths[k];
    }
  }

  /** End to end, for paths with at most one wildcard piece each: a file is mutated exactly when an included path stands
      for it and no excluded path does. */
  lemma SelectedExactly(g: Glob, included: seq<string>, excluded: seq<string>, s: string)
    requires Usable(g) && OneWildPaths(included) && OneWildPaths(excluded)
    ensures s in (set x | x in Revised(g, included)) - (set x | x in Revised(g, excluded))
            <==> Listed(g, included, s) && !Listed(g, excluded, s)
  {
    RevisedExact(g, included, s);
    RevisedExact(g, excluded, s);
  }

  /** Paths with at most one star are among these. */
  lemma OneStarIsEnough(paths: seq<string>)
    requires forall k | 0 <= k < |paths| :: Stars(paths[k]) <= 1 && AllOrdinary(Split(paths[k]))
    ensures OneWildPaths(paths)
  {
    forall k | 0 <= k < |paths|
      ensures AtMostOneWild(Split(paths[k]), 0)
    {
      OneStarOneWild(paths[k]);
    }
  }

  /** Whatever the number of wildcards, the revised list holds the paths that do not have exactly one star, and what the
      search finds for those that have any. */
  lemma {:induction false} RevisedMeans(g: Glob, paths: seq<string>, s: string)
    requires StarFree(g.fs)
    ensures s in Revised(g, paths)
            <==> exists k | 0 <= k < |paths| :: ComesFrom(g, paths[k], s)
    decreases |paths|
  {
    if paths != [] {
      RevisedMeans(g, paths[1..], s);
      RevisedStep(g, paths, s);
      RevisedTail(g, paths, s);
    }
  }

  ghost predicate ComesFrom(g: Glob, path: string, s: string)
    requires StarFree(g.fs)
  {
    (Stars(path) != 1 && s == path) || (Stars(path) >= 1 && s in Expand(g, true, 0, Split(path)).0)
  }

  lemma RevisedTail(g: Glob, paths: seq<string>, s: string)
    requires StarFree(g.fs) && paths != []
    ensures (exists k | 0 <= k < |paths| :: ComesFrom(g, paths[k], s))
            <==> ComesFrom(g, paths[0], s) || exists k | 0 <= k < |paths[1..]| :: ComesFrom(g, paths[1..][k], s)
  {
    if k :| 0 <= k < |paths[1..]| && ComesFrom(g, paths[1..][k], s) {
      assert paths[k + 1] == paths[1..][k];
    }
    if k :| 0 <= k < |paths| && ComesFrom(g, paths[k], s) && k > 0 {
      assert paths[1..][k - 1] == paths[k];
    }
  }

  /** A pattern stays in the list as if it were a file name exactly when it holds more than one star: the test for one
      star is made on the whole path, not on its pieces. */
  lemma {:induction false} PatternStays(paths: seq<string>, path: string)
    requires path in paths && Stars(path) > 0
    ensures path in RemoveWildCardPaths(paths) <==> Stars(path) >= 2
    decreases |paths|
  {
    if path in paths[1..] {
      PatternStays(paths[1..], path);
    } else {
      KeptAreThere(paths[1..], path);
    }
  }

  lemma {:induction false} KeptAreThere(paths: seq<string>, path: string)
    requires path !in paths
    ensures path !in RemoveWildCardPaths(paths)
    decreases |paths|
  {
    if paths != [] {
      KeptAreThere(paths[1..], path);
    }
  }

  // ----- the files of a pattern -----

  /** No literal directory of the pattern turns out to be a file. */
  ghost predicate NoFileInTheWay(g: Glob, pieces: seq<string>) {
    forall f: seq<string> | 0 < |f| < |pieces| && AllFit(g, 0, pieces, f) :: !IsFile(g.fs, Located(g, f))
  }

  /** Then the wanted paths are the regular files that fit the pattern piece by piece. */
  lemma WantedIsWholeFit(g: Glob, pieces: seq<string>, s: string)
    requires NoFileInTheWay(g, pieces)
    ensures s in Wanted(g, 0, pieces)
            <==> |Split(s)| == |pieces| && AllFit(g, 0, pieces, Split(s)) && Regular(g, Split(s))
  {
  }
}
