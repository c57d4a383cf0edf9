/** The program's own search shares one array of pieces among all its calls. It finds the right files for every tree
    exactly when the pattern has at most one wildcard piece. */
module WildcardSharing {
  import opened FileSystem
  import opened SortedNames
  import opened Text
  import opened Wildcards
  import opened WildcardSearch
  import opened WildcardFinds

  ghost predicate NoWild(pieces: seq<string>, from: nat) {
    forall k | from <= k < |pieces| :: !Wild(pieces[k])
  }

  ghost predicate AtMostOneWild(pieces: seq<string>, from: nat) {
    forall j, k | from <= j < k < |pieces| :: !(Wild(pieces[j]) && Wild(pieces[k]))
  }

  // ----- at most one wildcard: sharing is harmless -----

  lemma {:induction false} NothingToOverwrite(g: Glob, i: nat, pieces: seq<string>)
    requires StarFree(g.fs) && i <= |pieces| && NoWild(pieces, i)
    ensures Expand(g, true, i, pieces) == Expand(g, false, i, pieces)
    ensures Expand(g, true, i, pieces).1 == pieces
    decreases |pieces| - i
  {
    if i < |pieces| {
      if MoveAt(g, i, pieces) == Deeper {
        ExpandDeeper(g, true, i, pieces);
        ExpandDeeper(g, false, i, pieces);
        NothingToOverwrite(g, i + 1, pieces);
      } else {
        assert !Wild(pieces[i]);
        StopsEitherWay(g, i, pieces);
      }
    }
  }

  lemma StopsEitherWay(g: Glob, i: nat, pieces: seq<string>)
    requires StarFree(g.fs) && i < |pieces| && !Wild(pieces[i]) && MoveAt(g, i, pieces) != Deeper
    ensures Expand(g, true, i, pieces) == Expand(g, false, i, pieces)
    ensures Expand(g, true, i, pieces).1 == pieces
  {
    ExpandStops(g, true, i, pieces);
    ExpandStops(g, false, i, pieces);
  }

  lemma {:induction false} SharedDirs(g: Glob, i: nat, pieces: seq<string>, now: string, dirs: seq<string>)
    returns (shared: (seq<string>, seq<string>), copied: (seq<string>, seq<string>))
    requires StarFree(g.fs) && i < |pieces| && NoWild(pieces, i + 1)
    requires forall d | d in dirs :: Stars(d) == 0
    ensures shared == ExpandDirs(g, true, i, pieces[i := now], dirs)
    ensures copied == ExpandDirs(g, false, i, pieces, dirs)
    ensures shared.0 == copied.0
    decreases |dirs|
  {
    if dirs == [] {
      shared, copied := ([], pieces[i := now]), ([], pieces);
    } else {
      var p := pieces[i := dirs[0]];
      assert pieces[i := now][i := dirs[0]] == p;
      NothingToOverwrite(g, i, p);
      shared, copied := SharedDirs(g, i, pieces, dirs[0], dirs[1..]);
      var found := Expand(g, false, i, p).0;
      shared, copied := (found + shared.0, shared.1), (found + copied.0, copied.1);
    }
  }

  lemma BranchPaths(g: Glob, share: bool, i: nat, pieces: seq<string>, below: (seq<string>, seq<string>))
    returns (paths: seq<string>)
    requires StarFree(g.fs) && i < |pieces| && MoveAt(g, i, pieces) == Branch
    requires forall d | d in DirNames(g, PathString(pieces[..i]), pieces[i]) :: Stars(d) == 0
    requires below == ExpandDirs(g, share, i, pieces, DirNames(g, PathString(pieces[..i]), pieces[i]))
    ensures paths == Expand(g, share, i, pieces).0 && paths == below.0 + FilesAt(g, i, pieces)
  {
    ExpandBranch(g, share, i, pieces, below);
    paths := below.0 + FilesAt(g, i, pieces);
  }

  lemma SharedBranch(g: Glob, i: nat, pieces: seq<string>) returns (paths: seq<string>)
    requires StarFree(g.fs) && i < |pieces| && NoWild(pieces, i + 1) && MoveAt(g, i, pieces) == Branch
    ensures paths == Expand(g, true, i, pieces).0
    ensures paths == Expand(g, false, i, pieces).0
  {
    var dirs := DirNames(g, PathString(pieces[..i]), pieces[i]);
    DirNamesStarFree(g, PathString(pieces[..i]), pieces[i]);
    var shared, copied := SharedDirs(g, i, pieces, pieces[i], dirs);
    assert pieces[i := pieces[i]] == pieces;
    paths := BranchPaths(g, true, i, pieces, shared);
    var same := BranchPaths(g, false, i, pieces, copied);
  }

  /** With at most one wildcard the shared array makes no difference. */
  lemma {:induction false} SharingIsHarmless(g: Glob, i: nat, pieces: seq<string>)
    requires StarFree(g.fs) && i <= |pieces| && AtMostOneWild(pieces, i)
    ensures Expand(g, true, i, pieces).0 == Expand(g, false, i, pieces).0
    decreases |pieces| - i
  {
    if i < |pieces| {
      var move := MoveAt(g, i, pieces);
      if move == Branch {
        var paths := SharedBranch(g, i, pieces);
      } else if move == Deeper {
        ExpandDeeper(g, true, i, pieces);
        ExpandDeeper(g, false, i, pieces);
        SharingIsHarmless(g, i + 1, pieces);
      }
    }
  }

  // ----- what the shared array does otherwise -----

  /** A literal piece stays what it is, and every path found has it. */
  ghost predicate Obeys(pieces: seq<string>, left: seq<string>) {
    && |left| == |pieces| && AllOrdinary(left)
    && forall k | 0 <= k < |pieces| && !Wild(pieces[k]) :: left[k] == pieces[k]
  }

  ghost predicate PathObeys(pieces: seq<string>, s: string) {
    && |Split(s)| <= |pieces|
    && forall k | 0 <= k < |Split(s)| && !Wild(pieces[k]) :: Split(s)[k] == pieces[k]
  }

  ghost predicate AllObey(pieces: seq<string>, paths: seq<string>) {
    forall s | s in paths :: PathObeys(pieces, s)
  }

  lemma ObeysThrough(pieces: seq<string>, middle: seq<string>, left: seq<string>)
    requires Obeys(pieces, middle) && Obeys(middle, left)
    ensures Obeys(pieces, left)
  {
  }

  lemma PathsObeyThrough(pieces: seq<string>, middle: seq<string>, paths: seq<string>)
    requires Obeys(pieces, middle) && AllObey(middle, paths)
    ensures AllObey(pieces, paths)
  {
    forall s | s in paths
      ensures PathObeys(pieces, s)
    {
      assert PathObeys(middle, s);
    }
  }

  lemma Substituted(pieces: seq<string>, i: nat, d: string)
    requires i < |pieces| && AllOrdinary(pieces) && Plain(d) && Stars(d) == 0 && Wild(pieces[i])
    ensures Obeys(pieces, pieces[i := d])
  {
  }

  lemma PrefixObeys(pieces: seq<string>, n: nat)
    requires AllOrdinary(pieces) && 0 < n <= |pieces|
    ensures PathObeys(pieces, Join(pieces[..n]))
  {
    SplitJoin(pieces[..n]);
  }

  lemma {:induction false} SearchObeys(g: Glob, share: bool, i: nat, pieces: seq<string>)
    returns (result: (seq<string>, seq<string>))
    requires Usable(g) && AllOrdinary(pieces) && i <= |pieces|
    ensures result == Expand(g, share, i, pieces)
    ensures Obeys(pieces, result.1) && AllObey(pieces, result.0)
    decreases |pieces| - i, if i < |pieces| && Wild(pieces[i]) then 3 else 1, 0
  {
    if i == |pieces| || MoveAt(g, i, pieces) in {Nothing, Here} {
      result := StopObeys(g, share, i, pieces);
    } else if MoveAt(g, i, pieces) == Deeper {
      result := DeeperObeys(g, share, i, pieces);
    } else {
      result := BranchObeys(g, share, i, pieces);
    }
  }

  lemma StopObeys(g: Glob, share: bool, i: nat, pieces: seq<string>) returns (result: (seq<string>, seq<string>))
    requires StarFree(g.fs) && AllOrdinary(pieces) && i <= |pieces|
    requires i == |pieces| || MoveAt(g, i, pieces) in {Nothing, Here}
    ensures result == Expand(g, share, i, pieces)
    ensures Obeys(pieces, result.1) && AllObey(pieces, result.0)
  {
    result := ([], pieces);
    if i < |pieces| {
      ExpandStops(g, share, i, pieces);
      PrefixObeys(pieces, i + 1);
      result := (if MoveAt(g, i, pieces) == Here then [Join(pieces[..i + 1])] else [], pieces);
    }
  }

  lemma {:induction false} DeeperObeys(g: Glob, share: bool, i: nat, pieces: seq<string>)
    returns (result: (seq<string>, seq<string>))
    requires Usable(g) && AllOrdinary(pieces) && i < |pieces| && MoveAt(g, i, pieces) == Deeper
    ensures result == Expand(g, share, i, pieces)
    ensures Obeys(pieces, result.1) && AllObey(pieces, result.0)
    decreases |pieces| - i, 0, 0
  {
    ExpandDeeper(g, share, i, pieces);
    result := SearchObeys(g, share, i + 1, pieces);
  }

  lemma {:induction false} BranchObeys(g: Glob, share: bool, i: nat, pieces: seq<string>)
    returns (result: (seq<string>, seq<string>))
    requires Usable(g) && AllOrdinary(pieces) && i < |pieces| && MoveAt(g, i, pieces) == Branch
    ensures result == Expand(g, share, i, pieces)
    ensures Obeys(pieces, result.1) && AllObey(pieces, result.0)
    decreases |pieces| - i, 2, 0
  {
    var dirs := ListedDirs(g, i, pieces);
    NamesArePlain(g, Located(g, pieces[..i]));
    var below := DirsObey(g, share, i, pieces, pieces, dirs);
    var at := FilesObey(g, i, pieces);
    ExpandBranch(g, share, i, pieces, below);
    result := (below.0 + at, below.1);
  }

  lemma {:induction false} DirsObey(g: Glob, share: bool, i: nat, pieces: seq<string>, now: seq<string>,
                                    dirs: seq<string>) returns (result: (seq<string>, seq<string>))
    requires Usable(g) && AllOrdinary(pieces) && i < |pieces| && Wild(pieces[i]) && Obeys(pieces, now)
    requires forall d | d in dirs :: Plain(d) && Stars(d) == 0
    ensures result == ExpandDirs(g, share, i, now, dirs)
    ensures Obeys(pieces, result.1) && AllObey(pieces, result.0)
    decreases |pieces| - i, 1, |dirs|
  {
    if dirs == [] {
      result := ([], now);
    } else {
      var p := now[i := dirs[0]];
      SubstitutedLater(pieces, now, i, dirs[0]);
      var found := SearchObeys(g, share, i, p);
      ObeysThrough(pieces, p, found.1);
      PathsObeyThrough(pieces, p, found.0);
      var more := DirsObey(g, share, i, pieces, if share then found.1 else now, dirs[1..]);
      result := (found.0 + more.0, more.1);
    }
  }

  lemma SubstitutedLater(pieces: seq<string>, now: seq<string>, i: nat, d: string)
    requires i < |pieces| && Wild(pieces[i]) && Obeys(pieces, now) && Plain(d) && Stars(d) == 0
    ensures |now| == |pieces| && Obeys(pieces, now[i := d]) && AllOrdinary(now[i := d])
  {
  }

  lemma FilesObey(g: Glob, i: nat, pieces: seq<string>) returns (paths: seq<string>)
    requires Usable(g) && AllOrdinary(pieces) && i < |pieces| && Wild(pieces[i])
    ensures paths == FilesAt(g, i, pieces) && AllObey(pieces, paths)
  {
    paths := [];
    if i == |pieces| - 1 {
      var files := ListedFiles(g, i, pieces);
      NamesArePlain(g, Located(g, pieces[..i]));
      paths := FileListObeys(g, i, pieces, files);
    }
  }

  lemma {:induction false} FileListObeys(g: Glob, i: nat, pieces: seq<string>, files: seq<string>)
    returns (paths: seq<string>)
    requires AllOrdinary(pieces) && i < |pieces| && Wild(pieces[i])
    requires forall x | x in files :: Plain(x)
    ensures paths == ExpandFiles(g, PathString(pieces[..i]), files) && AllObey(pieces, paths)
    decreases |files|
  {
    paths := [];
    if files != [] {
      var rest := FileListObeys(g, i, pieces, files[1..]);
      FileObeys(i, pieces, files[0]);
      var path := PathString(pieces[..i]) + files[0];
      paths := (if Exists(g, path) then [path] else []) + rest;
    }
  }

  lemma FileObeys(i: nat, pieces: seq<string>, x: string)
    requires AllOrdinary(pieces) && i < |pieces| && Wild(pieces[i]) && Plain(x)
    ensures PathObeys(pieces, PathString(pieces[..i]) + x)
  {
    FilePathJoins(pieces[..i], x);
    SplitJoin(pieces[..i] + [x]);
  }
}
