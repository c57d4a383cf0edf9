/** The search that copies its pieces finds exactly the files that fit the pattern. */
module WildcardFinds {
  import opened FileSystem
  import opened SortedNames
  import opened Text
  import opened Wildcards
  import opened WildcardSearch

  /** Exactly the wanted paths, none of them twice. */
  ghost predicate Lists(paths: seq<string>, wanted: iset<string>) {
    && (forall s :: s in paths <==> s in wanted)
    && Distinct(paths)
  }

  lemma ListsConcat(a: seq<string>, b: seq<string>, wantedA: iset<string>, wantedB: iset<string>)
    requires Lists(a, wantedA) && Lists(b, wantedB) && wantedA !! wantedB
    ensures Lists(a + b, wantedA + wantedB)
  {
    forall j, k | 0 <= j < k < |a + b|
      ensures (a + b)[j] != (a + b)[k]
    {
      if j < |a| <= k {
        assert (a + b)[j] == a[j] && (a + b)[k] == b[k - |a|];
        assert a[j] in a && b[k - |a|] in b;
      }
    }
  }

  lemma ListsNone(wanted: iset<string>)
    requires wanted == iset{}
    ensures Lists([], wanted)
  {
  }

  lemma ListsOne(s: string)
    ensures Lists([s], iset{s})
  {
  }

  /** What a search from index `i` is to find. */
  ghost function Wanted(g: Glob, i: nat, pieces: seq<string>): iset<string> {
    iset s | Found(g, i, pieces, Split(s))
  }

  lemma IsJoinOf(s: string, f: seq<string>)
    requires f != [] && AllOrdinary(f)
    ensures s == Join(f) <==> Split(s) == f
  {
    SplitJoin(f);
    JoinSplit(s);
  }

  // ----- files at the last piece -----

  predicate ViaFile(at: seq<string>, files: seq<string>, f: seq<string>) {
    |f| == |at| + 1 && f[..|at|] == at && f[|at|] in files
  }

  ghost function WantedFiles(at: seq<string>, files: seq<string>): iset<string> {
    iset s | ViaFile(at, files, Split(s))
  }

  lemma OneMoreFile(at: seq<string>, files: seq<string>)
    requires files != [] && Distinct(files) && AllOrdinary(at) && Ordinary(files[0])
    ensures WantedFiles(at, files) == iset{Join(at + [files[0]])} + WantedFiles(at, files[1..])
    ensures iset{Join(at + [files[0]])} !! WantedFiles(at, files[1..])
  {
    var first := at + [files[0]];
    forall s
      ensures s in WantedFiles(at, files) <==> s == Join(first) || s in WantedFiles(at, files[1..])
      ensures !(s == Join(first) && s in WantedFiles(at, files[1..]))
    {
      IsJoinOf(s, first);
      OneMoreName(at, files, Split(s));
    }
  }

  lemma OneMoreName(at: seq<string>, files: seq<string>, f: seq<string>)
    requires files != [] && Distinct(files)
    ensures ViaFile(at, files, f) <==> f == at + [files[0]] || ViaFile(at, files[1..], f)
    ensures !(f == at + [files[0]] && ViaFile(at, files[1..], f))
  {
    if |f| == |at| + 1 && f[..|at|] == at {
      assert f == at + [f[|at|]];
    }
  }

  predicate AreFiles(g: Glob, at: seq<string>, files: seq<string>) {
    forall x | x in files :: Ordinary(x) && IsFile(g.fs, Located(g, at + [x]))
  }

  lemma {:induction false} FilesExact(g: Glob, at: seq<string>, files: seq<string>) returns (paths: seq<string>)
    requires Usable(g) && AllOrdinary(at) && Distinct(files) && AreFiles(g, at, files)
    ensures paths == ExpandFiles(g, PathString(at), files)
    ensures Lists(paths, WantedFiles(at, files))
    decreases |files|
  {
    if files == [] {
      paths := [];
      ListsNone(WantedFiles(at, files));
    } else {
      var path := OneFile(g, at, files[0]);
      var rest := FilesExact(g, at, files[1..]);
      OneMoreFile(at, files);
      ListsOne(path);
      ListsConcat([path], rest, iset{path}, WantedFiles(at, files[1..]));
      paths := [path] + rest;
    }
  }

  lemma OneFile(g: Glob, at: seq<string>, x: string) returns (path: string)
    requires Usable(g) && AllOrdinary(at) && Ordinary(x) && IsFile(g.fs, Located(g, at + [x]))
    ensures path == PathString(at) + x == Join(at + [x])
    ensures Exists(g, path)
  {
    path := PathString(at) + x;
    FilePathJoins(at, x);
    FileExistsAt(g, at + [x]);
  }

  // ----- directories at a wildcard -----

  predicate ViaDir(g: Glob, i: nat, pieces: seq<string>, dirs: seq<string>, f: seq<string>) {
    i < |f| && i < |pieces| && f[i] in dirs && Found(g, i, pieces[i := f[i]], f)
  }

  ghost function WantedDirs(g: Glob, i: nat, pieces: seq<string>, dirs: seq<string>): iset<string> {
    iset s | ViaDir(g, i, pieces, dirs, Split(s))
  }

  ghost predicate AreDirs(g: Glob, i: nat, pieces: seq<string>, dirs: seq<string>)
    requires i < |pieces|
  {
    forall d | d in dirs :: Plain(d) && Stars(d) == 0 && IsDir(g.fs, Located(g, pieces[..i]) + [d])
  }

  lemma OneMoreDir(g: Glob, i: nat, pieces: seq<string>, dirs: seq<string>)
    requires i < |pieces| && dirs != [] && Distinct(dirs) && Stars(dirs[0]) == 0
    ensures WantedDirs(g, i, pieces, dirs)
            == Wanted(g, i, pieces[i := dirs[0]]) + WantedDirs(g, i, pieces, dirs[1..])
    ensures Wanted(g, i, pieces[i := dirs[0]]) !! WantedDirs(g, i, pieces, dirs[1..])
  {
    forall s
      ensures s in WantedDirs(g, i, pieces, dirs)
              <==> s in Wanted(g, i, pieces[i := dirs[0]]) || s in WantedDirs(g, i, pieces, dirs[1..])
      ensures !(s in Wanted(g, i, pieces[i := dirs[0]]) && s in WantedDirs(g, i, pieces, dirs[1..]))
    {
      OneMoreStart(g, i, pieces, dirs, Split(s));
    }
  }

  lemma OneMoreStart(g: Glob, i: nat, pieces: seq<string>, dirs: seq<string>, f: seq<string>)
    requires i < |pieces| && dirs != [] && Distinct(dirs) && Stars(dirs[0]) == 0
    ensures ViaDir(g, i, pieces, dirs, f)
            <==> Found(g, i, pieces[i := dirs[0]], f) || ViaDir(g, i, pieces, dirs[1..], f)
    ensures !(Found(g, i, pieces[i := dirs[0]], f) && ViaDir(g, i, pieces, dirs[1..], f))
  {
    if Found(g, i, pieces[i := dirs[0]], f) {
      assert Fits(g, pieces[i := dirs[0]][i], f[i]);
      assert f[i] == dirs[0];
    }
  }

  lemma SubstitutedPrefix(pieces: seq<string>, i: nat, d: string)
    requires i < |pieces|
    ensures pieces[i := d][..i] == pieces[..i]
    ensures AllOrdinary(pieces) && Plain(d) ==> AllOrdinary(pieces[i := d])
  {
  }

  lemma FirstDirectory(g: Glob, i: nat, pieces: seq<string>, dirs: seq<string>)
    requires AllOrdinary(pieces) && i < |pieces| && dirs != [] && AreDirs(g, i, pieces, dirs) && Distinct(dirs)
    ensures Stars(dirs[0]) == 0 && AllOrdinary(pieces[i := dirs[0]]) && pieces[i := dirs[0]][..i] == pieces[..i]
    ensures AreDirs(g, i, pieces, dirs[1..]) && Distinct(dirs[1..])
  {
    assert dirs[0] in dirs;
    SubstitutedPrefix(pieces, i, dirs[0]);
  }

  lemma {:induction false} CopiedDirs(g: Glob, i: nat, pieces: seq<string>, dirs: seq<string>)
    returns (paths: seq<string>)
    requires Usable(g) && AllOrdinary(pieces) && i < |pieces|
    requires IsDir(g.fs, Located(g, pieces[..i])) && AreDirs(g, i, pieces, dirs) && Distinct(dirs)
    ensures paths == ExpandDirs(g, false, i, pieces, dirs).0
    ensures Lists(paths, WantedDirs(g, i, pieces, dirs))
    decreases |pieces| - i, 1, |dirs|
  {
    if dirs == [] {
      paths := [];
      ListsNone(WantedDirs(g, i, pieces, dirs));
    } else {
      var p := pieces[i := dirs[0]];
      FirstDirectory(g, i, pieces, dirs);
      var found := CopiedSearch(g, i, p);
      var more := CopiedDirs(g, i, pieces, dirs[1..]);
      OneMoreDir(g, i, pieces, dirs);
      ListsConcat(found, more, Wanted(g, i, p), WantedDirs(g, i, pieces, dirs[1..]));
      paths := found + more;
    }
  }

  // ----- both together -----

  ghost predicate AllListed(g: Glob, i: nat, pieces: seq<string>, dirs: seq<string>, files: seq<string>)
    requires i < |pieces|
  {
    var p := Located(g, pieces[..i]);
    && AreDirs(g, i, pieces, dirs)
    && (forall x :: x in dirs <==> IsDir(g.fs, p + [x]) && Passes(g, pieces[i], x))
    && (forall x :: x in files <==> IsFile(g.fs, p + [x]) && Passes(g, pieces[i], x))
    && (forall x | IsFile(g.fs, p + [x]) :: Plain(x))
  }

  lemma ListedDirs(g: Glob, i: nat, pieces: seq<string>) returns (dirs: seq<string>)
    requires Usable(g) && AllOrdinary(pieces) && i < |pieces|
    ensures dirs == DirNames(g, PathString(pieces[..i]), pieces[i]) && Distinct(dirs)
    ensures forall x :: x in dirs <==> IsDir(g.fs, Located(g, pieces[..i]) + [x]) && Passes(g, pieces[i], x)
  {
    PathStringLocated(g, pieces[..i]);
    dirs := DirNames(g, PathString(pieces[..i]), pieces[i]);
    var p := Located(g, pieces[..i]);
    DirNamesExact(g, PathString(pieces[..i]), pieces[i], p);
    forall x
      ensures x in dirs <==> IsDir(g.fs, p + [x]) && Passes(g, pieces[i], x)
    {
      assert x in g.list(p) <==> p + [x] in g.fs;
    }
  }

  lemma ListedFiles(g: Glob, i: nat, pieces: seq<string>) returns (files: seq<string>)
    requires Usable(g) && AllOrdinary(pieces) && i < |pieces|
    ensures files == FileNames(g, PathString(pieces[..i]), pieces[i]) && Distinct(files)
    ensures forall x :: x in files <==> IsFile(g.fs, Located(g, pieces[..i]) + [x]) && Passes(g, pieces[i], x)
  {
    PathStringLocated(g, pieces[..i]);
    files := FileNames(g, PathString(pieces[..i]), pieces[i]);
    var p := Located(g, pieces[..i]);
    FileNamesExact(g, PathString(pieces[..i]), pieces[i], p);
    forall x
      ensures x in files <==> IsFile(g.fs, p + [x]) && Passes(g, pieces[i], x)
    {
      assert x in g.list(p) <==> p + [x] in g.fs;
    }
  }

  lemma NamesArePlain(g: Glob, p: Path)
    requires Usable(g)
    ensures forall x | IsFile(g.fs, p + [x]) :: Plain(x)
    ensures forall x | IsDir(g.fs, p + [x]) :: Plain(x) && Stars(x) == 0
  {
    forall x
      ensures IsFile(g.fs, p + [x]) ==> Plain(x)
      ensures IsDir(g.fs, p + [x]) ==> Plain(x) && Stars(x) == 0
    {
      assert (p + [x])[|p + [x]| - 1] == x;
    }
  }

  /** A found path goes on through a directory or ends with a file, not both. */
  predicate DirOrFile(g: Glob, i: nat, pieces: seq<string>, dirs: seq<string>, files: seq<string>, f: seq<string>)
    requires i < |pieces|
  {
    && (Found(g, i, pieces, f)
        <==> ViaDir(g, i, pieces, dirs, f) || (i == |pieces| - 1 && ViaFile(pieces[..i], files, f)))
    && !(ViaDir(g, i, pieces, dirs, f) && ViaFile(pieces[..i], files, f))
  }

  predicate Candidate(i: nat, pieces: seq<string>, f: seq<string>) {
    i < |f| <= |pieces| && f[..i] == pieces[..i] && Plain(f[i])
  }

  lemma FoundAtWild(g: Glob, i: nat, pieces: seq<string>, dirs: seq<string>, files: seq<string>, f: seq<string>)
    requires Usable(g) && i < |pieces| && Wild(pieces[i])
    requires AllListed(g, i, pieces, dirs, files) && IsDir(g.fs, Located(g, pieces[..i]))
    ensures DirOrFile(g, i, pieces, dirs, files, f)
  {
    if Candidate(i, pieces, f) && |f| == i + 1 {
      EndsAtWild(g, i, pieces, dirs, files, f);
    } else if Candidate(i, pieces, f) {
      GoesOnAtWild(g, i, pieces, dirs, files, f);
    } else if |f| <= |pieces| {
      NoCandidate(g, i, pieces, dirs, files, f);
    } else {
      TooLong(g, i, pieces, dirs, files, f);
    }
  }

  lemma TooLong(g: Glob, i: nat, pieces: seq<string>, dirs: seq<string>, files: seq<string>, f: seq<string>)
    requires i < |pieces| < |f|
    ensures DirOrFile(g, i, pieces, dirs, files, f)
  {
  }

  lemma EndsAtWild(g: Glob, i: nat, pieces: seq<string>, dirs: seq<string>, files: seq<string>, f: seq<string>)
    requires i < |pieces| && Wild(pieces[i]) && AllListed(g, i, pieces, dirs, files)
    requires IsDir(g.fs, Located(g, pieces[..i])) && Candidate(i, pieces, f) && |f| == i + 1
    ensures DirOrFile(g, i, pieces, dirs, files, f)
  {
    LocatedStep(g, f, i);
    assert f[..i + 1] == f;
    LastPiece(g, i, pieces, dirs, files, f);
  }

  lemma GoesOnAtWild(g: Glob, i: nat, pieces: seq<string>, dirs: seq<string>, files: seq<string>, f: seq<string>)
    requires Usable(g) && i < |pieces| && Wild(pieces[i]) && AllListed(g, i, pieces, dirs, files)
    requires Candidate(i, pieces, f) && |f| != i + 1
    ensures DirOrFile(g, i, pieces, dirs, files, f)
  {
    LocatedStep(g, f, i);
    LongerPath(g, i, pieces, dirs, f);
  }

  lemma NoCandidate(g: Glob, i: nat, pieces: seq<string>, dirs: seq<string>, files: seq<string>, f: seq<string>)
    requires i < |pieces| && Wild(pieces[i]) && AllListed(g, i, pieces, dirs, files)
    requires !Candidate(i, pieces, f) && |f| <= |pieces|
    ensures DirOrFile(g, i, pieces, dirs, files, f)
  {
    if i < |f| {
      SubstitutedPrefix(pieces, i, f[i]);
      if Found(g, i, pieces, f) {
        FitsFrom(g, i, pieces, f);
      }
    }
  }

  lemma LastPiece(g: Glob, i: nat, pieces: seq<string>, dirs: seq<string>, files: seq<string>, f: seq<string>)
    requires i < |pieces| && Wild(pieces[i]) && |f| == i + 1 && f[..i] == pieces[..i] && Plain(f[i])
    requires Located(g, f) == Located(g, pieces[..i]) + [f[i]] && IsDir(g.fs, Located(g, pieces[..i]))
    requires forall x :: x in dirs ==> IsDir(g.fs, Located(g, pieces[..i]) + [x])
    requires forall x :: x in files <==> IsFile(g.fs, Located(g, pieces[..i]) + [x]) && Passes(g, pieces[i], x)
    ensures !ViaDir(g, i, pieces, dirs, f)
    ensures Found(g, i, pieces, f) <==> i == |pieces| - 1 && ViaFile(pieces[..i], files, f)
  {
    assert f[..|f| - 1] == pieces[..i];
  }

  lemma LongerPath(g: Glob, i: nat, pieces: seq<string>, dirs: seq<string>, f: seq<string>)
    requires Usable(g) && i < |pieces| && Wild(pieces[i])
    requires Candidate(i, pieces, f) && i + 1 < |f|
    requires Located(g, f[..i + 1]) == Located(g, pieces[..i]) + [f[i]]
    requires AreDirs(g, i, pieces, dirs)
    requires forall x :: x in dirs <==> IsDir(g.fs, Located(g, pieces[..i]) + [x]) && Passes(g, pieces[i], x)
    ensures Found(g, i, pieces, f) <==> ViaDir(g, i, pieces, dirs, f)
  {
    if f[i] in dirs {
      DirLeadsOn(g, i, pieces, f);
    } else if Found(g, i, pieces, f) {
      RegularAbove(g, f, i + 1);
      FitsFrom(g, i, pieces, f);
    }
  }

  lemma DirLeadsOn(g: Glob, i: nat, pieces: seq<string>, f: seq<string>)
    requires i < |pieces| && Wild(pieces[i]) && Candidate(i, pieces, f) && i + 1 < |f|
    requires Stars(f[i]) == 0 && Passes(g, pieces[i], f[i])
    ensures Found(g, i, pieces, f) <==> Found(g, i, pieces[i := f[i]], f)
  {
    SubstitutedPrefix(pieces, i, f[i]);
    FitsFrom(g, i, pieces, f);
    SubstitutedFits(g, i, pieces, f);
  }

  lemma SubstitutedFits(g: Glob, i: nat, pieces: seq<string>, f: seq<string>)
    requires i < |f| <= |pieces| && Stars(f[i]) == 0
    ensures AllFit(g, i, pieces[i := f[i]], f) <==> AllFit(g, i + 1, pieces, f)
  {
    var p := pieces[i := f[i]];
    FitsFrom(g, i, p, f);
    forall k | i < k < |f|
      ensures Fits(g, p[k], f[k]) <==> Fits(g, pieces[k], f[k])
    {
      assert p[k] == pieces[k];
    }
  }

  lemma WantedAtWild(g: Glob, i: nat, pieces: seq<string>, dirs: seq<string>, files: seq<string>)
    requires Usable(g) && i < |pieces| && Wild(pieces[i])
    requires AllListed(g, i, pieces, dirs, files) && IsDir(g.fs, Located(g, pieces[..i]))
    ensures var fromFiles := if i == |pieces| - 1 then WantedFiles(pieces[..i], files) else iset{};
            && Wanted(g, i, pieces) == WantedDirs(g, i, pieces, dirs) + fromFiles
            && WantedDirs(g, i, pieces, dirs) !! fromFiles
  {
    forall s
      ensures s in Wanted(g, i, pieces)
              <==> s in WantedDirs(g, i, pieces, dirs) || (i == |pieces| - 1 && s in WantedFiles(pieces[..i], files))
      ensures !(s in WantedDirs(g, i, pieces, dirs) && s in WantedFiles(pieces[..i], files))
    {
      FoundAtWild(g, i, pieces, dirs, files, Split(s));
    }
  }

  lemma WantedAtLiteral(g: Glob, i: nat, pieces: seq<string>)
    requires Usable(g) && AllOrdinary(pieces) && i < |pieces| && !Wild(pieces[i])
    requires IsDir(g.fs, Located(g, pieces[..i]))
    ensures Wanted(g, i, pieces)
            == if IsFile(g.fs, Located(g, pieces[..i + 1])) then iset{Join(pieces[..i + 1])}
               else Wanted(g, i + 1, pieces)
  {
    var here := pieces[..i + 1];
    if IsFile(g.fs, Located(g, here)) {
      forall s
        ensures Found(g, i, pieces, Split(s)) <==> s == Join(here)
      {
        WantedStep(g, i, pieces, s, here);
      }
      OnlyWanted(g, i, pieces, Join(here));
    } else {
      forall s
        ensures Found(g, i, pieces, Split(s)) <==> Found(g, i + 1, pieces, Split(s))
      {
        WantedStep(g, i, pieces, s, here);
      }
      SameWanted(g, i, i + 1, pieces);
    }
  }

  lemma OnlyWanted(g: Glob, i: nat, pieces: seq<string>, path: string)
    requires forall s :: Found(g, i, pieces, Split(s)) <==> s == path
    ensures Wanted(g, i, pieces) == iset{path}
  {
  }

  lemma SameWanted(g: Glob, i: nat, k: nat, pieces: seq<string>)
    requires forall s :: Found(g, i, pieces, Split(s)) <==> Found(g, k, pieces, Split(s))
    ensures Wanted(g, i, pieces) == Wanted(g, k, pieces)
  {
  }

  lemma WantedStep(g: Glob, i: nat, pieces: seq<string>, s: string, here: seq<string>)
    requires Usable(g) && i < |pieces| && !Wild(pieces[i])
    requires here == pieces[..i + 1] && AllOrdinary(here)
    requires IsDir(g.fs, Located(g, pieces[..i]))
    ensures Found(g, i, pieces, Split(s))
            <==> if IsFile(g.fs, Located(g, here)) then s == Join(here) else Found(g, i + 1, pieces, Split(s))
  {
    IsJoinOf(s, here);
    FoundAtLiteral(g, i, pieces, Split(s));
  }

  lemma WantedInMissing(g: Glob, i: nat, pieces: seq<string>)
    requires Usable(g) && i <= |pieces|
    requires i == |pieces| || Missing(g.fs, Located(g, pieces[..i]))
    ensures Wanted(g, i, pieces) == iset{}
  {
    forall s
      ensures !Found(g, i, pieces, Split(s))
    {
      if Regular(g, Split(s)) && i < |Split(s)| { RegularAbove(g, Split(s), i); }
    }
  }

  lemma CopiedNothing(g: Glob, i: nat, pieces: seq<string>) returns (paths: seq<string>)
    requires Usable(g) && AllOrdinary(pieces) && i <= |pieces|
    requires i == |pieces| || Missing(g.fs, Located(g, pieces[..i]))
    ensures paths == Expand(g, false, i, pieces).0
    ensures Lists(paths, Wanted(g, i, pieces))
  {
    paths := [];
    if i < |pieces| { MoveInMissing(g, i, pieces); }
    WantedInMissing(g, i, pieces);
    ListsNone(Wanted(g, i, pieces));
  }

  lemma CopiedHere(g: Glob, i: nat, pieces: seq<string>) returns (paths: seq<string>)
    requires Usable(g) && AllOrdinary(pieces) && i < |pieces| && !Wild(pieces[i])
    requires IsDir(g.fs, Located(g, pieces[..i])) && IsFile(g.fs, Located(g, pieces[..i + 1]))
    ensures paths == Expand(g, false, i, pieces).0
    ensures Lists(paths, Wanted(g, i, pieces))
  {
    MoveInDirectory(g, i, pieces);
    WantedAtLiteral(g, i, pieces);
    paths := [Join(pieces[..i + 1])];
    ListsOne(Join(pieces[..i + 1]));
  }

  lemma CopiedDeeper(g: Glob, i: nat, pieces: seq<string>)
    requires Usable(g) && AllOrdinary(pieces) && i < |pieces| && !Wild(pieces[i])
    requires IsDir(g.fs, Located(g, pieces[..i])) && !IsFile(g.fs, Located(g, pieces[..i + 1]))
    ensures Expand(g, false, i, pieces) == Expand(g, false, i + 1, pieces)
    ensures Wanted(g, i, pieces) == Wanted(g, i + 1, pieces)
    ensures IsDir(g.fs, Located(g, pieces[..i + 1])) || Missing(g.fs, Located(g, pieces[..i + 1]))
  {
    MoveInDirectory(g, i, pieces);
    ExpandDeeper(g, false, i, pieces);
    NextPlace(g, i, pieces);
    WantedAtLiteral(g, i, pieces);
  }

  /** From any index whose parent is a directory or is not there, the copying search finds exactly what there is. */
  lemma {:induction false} CopiedSearch(g: Glob, i: nat, pieces: seq<string>) returns (paths: seq<string>)
    requires Usable(g) && AllOrdinary(pieces) && i <= |pieces|
    requires IsDir(g.fs, Located(g, pieces[..i])) || Missing(g.fs, Located(g, pieces[..i]))
    ensures paths == Expand(g, false, i, pieces).0
    ensures Lists(paths, Wanted(g, i, pieces))
    decreases |pieces| - i, if i < |pieces| && Wild(pieces[i]) then 3 else 0, 0
  {
    if i == |pieces| || !IsDir(g.fs, Located(g, pieces[..i])) {
      paths := CopiedNothing(g, i, pieces);
    } else if Wild(pieces[i]) {
      paths := CopiedAtWild(g, i, pieces);
    } else if IsFile(g.fs, Located(g, pieces[..i + 1])) {
      paths := CopiedHere(g, i, pieces);
    } else {
      CopiedDeeper(g, i, pieces);
      paths := CopiedSearch(g, i + 1, pieces);
    }
  }

  lemma ExpandStops(g: Glob, share: bool, i: nat, pieces: seq<string>)
    requires StarFree(g.fs) && i < |pieces|
    ensures MoveAt(g, i, pieces) == Nothing ==> Expand(g, share, i, pieces) == ([], pieces)
    ensures MoveAt(g, i, pieces) == Here ==> Expand(g, share, i, pieces) == ([Join(pieces[..i + 1])], pieces)
  {
  }

  lemma ExpandDeeper(g: Glob, share: bool, i: nat, pieces: seq<string>)
    requires StarFree(g.fs) && i < |pieces| && MoveAt(g, i, pieces) == Deeper
    ensures Expand(g, share, i, pieces) == Expand(g, share, i + 1, pieces)
  {
  }

  lemma ExpandBranch(g: Glob, share: bool, i: nat, pieces: seq<string>, below: (seq<string>, seq<string>))
    requires StarFree(g.fs) && i < |pieces| && MoveAt(g, i, pieces) == Branch
    requires forall d | d in DirNames(g, PathString(pieces[..i]), pieces[i]) :: Stars(d) == 0
    requires below == ExpandDirs(g, share, i, pieces, DirNames(g, PathString(pieces[..i]), pieces[i]))
    ensures Expand(g, share, i, pieces) == (below.0 + FilesAt(g, i, pieces), below.1)
  {
  }

  lemma AtWildLists(g: Glob, i: nat, pieces: seq<string>, dirs: seq<string>, files: seq<string>,
                    below: seq<string>, at: seq<string>)
    requires Usable(g) && i < |pieces| && Wild(pieces[i])
    requires AllListed(g, i, pieces, dirs, files) && IsDir(g.fs, Located(g, pieces[..i]))
    requires Lists(below, WantedDirs(g, i, pieces, dirs))
    requires Lists(at, if i == |pieces| - 1 then WantedFiles(pieces[..i], files) else iset{})
    ensures Lists(below + at, Wanted(g, i, pieces))
  {
    WantedAtWild(g, i, pieces, dirs, files);
    ListsConcat(below, at, WantedDirs(g, i, pieces, dirs),
                if i == |pieces| - 1 then WantedFiles(pieces[..i], files) else iset{});
  }

  lemma FilesAtLists(g: Glob, i: nat, pieces: seq<string>, dirs: seq<string>, files: seq<string>)
    returns (at: seq<string>)
    requires Usable(g) && AllOrdinary(pieces) && i < |pieces| && AllListed(g, i, pieces, dirs, files) && Distinct(files)
    ensures at == if i == |pieces| - 1 then ExpandFiles(g, PathString(pieces[..i]), files) else []
    ensures Lists(at, if i == |pieces| - 1 then WantedFiles(pieces[..i], files) else iset{})
  {
    at := [];
    if i == |pieces| - 1 {
      ListedAreFiles(g, i, pieces, dirs, files);
      at := FilesExact(g, pieces[..i], files);
    }
  }

  lemma {:induction false} CopiedAtWild(g: Glob, i: nat, pieces: seq<string>) returns (paths: seq<string>)
    requires Usable(g) && AllOrdinary(pieces) && i < |pieces| && Wild(pieces[i])
    requires IsDir(g.fs, Located(g, pieces[..i]))
    ensures paths == Expand(g, false, i, pieces).0
    ensures Lists(paths, Wanted(g, i, pieces))
    decreases |pieces| - i, 2, 0
  {
    var dirs := ListedDirs(g, i, pieces);
    var files := ListedFiles(g, i, pieces);
    NamesArePlain(g, Located(g, pieces[..i]));
    assert AllListed(g, i, pieces, dirs, files);
    var below := CopiedDirs(g, i, pieces, dirs);
    var at := FilesAtLists(g, i, pieces, dirs, files);
    AtWildLists(g, i, pieces, dirs, files, below, at);
    MoveInDirectory(g, i, pieces);
    ExpandBranch(g, false, i, pieces, ExpandDirs(g, false, i, pieces, dirs));
    paths := below + at;
  }

  lemma ListedAreFiles(g: Glob, i: nat, pieces: seq<string>, dirs: seq<string>, files: seq<string>)
    requires i < |pieces| && AllListed(g, i, pieces, dirs, files)
    ensures AreFiles(g, pieces[..i], files)
  {
    forall x | x in files
      ensures Ordinary(x) && IsFile(g.fs, Located(g, pieces[..i] + [x]))
    {
      var whole := pieces[..i] + [x];
      LocatedStep(g, whole, i);
      assert whole[..i + 1] == whole && whole[..i] == pieces[..i];
    }
  }
}
