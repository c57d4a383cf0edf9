/** The program expands wildcards before it appends a slash to the project root. The search is right on every tree
    exactly if the root was written with that slash: otherwise it looks for paths whose first piece is glued to the
    last piece of the root. */
module RootSlash {
  import opened FileSystem
  import opened SortedNames
  import opened Text
  import opened Wildcards
  import opened WildcardSearch
  import opened WildcardFinds
  import opened WildcardSharing
  import opened WildcardMisses

  // ----- gluing path strings without a slash -----

  /** Putting one path string behind another makes one piece of the last one and the first one. */
  lemma {:induction false} SplitGlue(a: string, s: string)
    ensures Split(a + s) == Lengthen(Split(a), Split(s)[0]) + Split(s)[1..]
  {
    var first, rest := Split(s)[0], Split(s)[1..];
    if a == [] {
      assert a + s == s;
      assert Split(a) == [[]] && [] + first == first;
    } else {
      SplitGlue(a[1..], s);
      SplitFirst(a, s);
      GlueOne(a[0], Split(a[1..]), first, rest);
    }
  }

  lemma SplitFirst(a: string, s: string)
    requires a != []
    ensures Split(a) == Prepend(a[0], Split(a[1..]))
    ensures Split(a + s) == Prepend(a[0], Split(a[1..] + s))
  {
    assert (a + s)[1..] == a[1..] + s;
  }

  lemma GlueOne(c: char, ps: seq<string>, first: string, rest: seq<string>)
    requires |ps| >= 1
    ensures Prepend(c, Lengthen(ps, first) + rest) == Lengthen(Prepend(c, ps), first) + rest
  {
    PrependConcat(c, Lengthen(ps, first), rest);
    PrependLengthen(c, ps, first);
  }

  lemma {:induction false} JoinEndsInSlash(ps: seq<string>)
    requires |ps| >= 2 && ps[|ps| - 1] == ""
    ensures HasSuffix(Join(ps), "/")
  {
    if |ps| == 2 {
      assert Join(ps) == ps[0] + "/" + ps[1];
    } else {
      JoinEndsInSlash(ps[1..]);
    }
  }

  /** A path that does not end in a slash has something in its last piece. */
  lemma LastPieceNotEmpty(s: string)
    requires s != "" && !HasSuffix(s, "/")
    ensures Split(s)[|Split(s)| - 1] != ""
  {
    JoinSplit(s);
    if |Split(s)| >= 2 && Split(s)[|Split(s)| - 1] == "" {
      JoinEndsInSlash(Split(s));
    }
  }

  /** What such a root denotes, and what a path put right behind it denotes: `q` are the components before its last
      piece `last`. */
  lemma GluedComps(basepath: string, path: string) returns (q: Path, last: string)
    requires basepath != "" && !HasSuffix(basepath, "/") && Plain(Split(path)[0])
    ensures last != ""
    ensures Comps(basepath) == q + (if Solid(last) then [last] else [])
    ensures Comps(basepath + path) == q + [last + Split(path)[0]] + SolidOnly(Split(path)[1..])
  {
    var ps, first, rest := Split(basepath), Split(path)[0], Split(path)[1..];
    var n := |ps| - 1;
    LastPieceNotEmpty(basepath);
    q, last := SolidOnly(ps[..n]), ps[n];
    assert ps == ps[..n] + [last];
    SolidOnlyConcat(ps[..n], [last]);
    OnePiece(last);
    SplitGlue(basepath, path);
    SolidOnlyConcat(ps[..n] + [last + first], rest);
    SolidOnlyConcat(ps[..n], [last + first]);
    OnePiece(last + first);
  }

  lemma OnePiece(piece: string)
    ensures SolidOnly([piece]) == if Solid(piece) then [piece] else []
  {
    assert [piece][1..] == [];
  }

  // ----- a tree with one file -----

  function LoneFile(root: Path, f: seq<string>): Trap {
    Trap(root, [], f)
  }

  ghost predicate LoneNames(root: Path, f: seq<string>) {
    && f != [] && AllPlain(f) && AllPlain(root)
    && (forall k | 0 <= k < |f| :: Stars(f[k]) == 0)
    && (forall k | 0 <= k < |root| :: Stars(root[k]) == 0)
  }

  lemma LoneHas(root: Path, f: seq<string>, p: Path)
    ensures p in TrapFs(LoneFile(root, f)) <==> p <= root + f
  {
    TrapHas(LoneFile(root, f), p);
    assert root + [] == root;
  }

  lemma LoneTree(root: Path, f: seq<string>)
    requires LoneNames(root, f)
    ensures WellFormed(TrapFs(LoneFile(root, f))) && StarFree(TrapFs(LoneFile(root, f)))
    ensures forall p | p in TrapFs(LoneFile(root, f)) && p != [] :: Plain(p[|p| - 1])
  {
    var fs := TrapFs(LoneFile(root, f));
    LoneHas(root, f, []);
    forall p | p in fs && p != []
      ensures IsDir(fs, Parent(p)) && Plain(p[|p| - 1]) && Stars(p[|p| - 1]) == 0
    {
      LoneHas(root, f, p);
      LoneHas(root, f, Parent(p));
      assert p[|p| - 1] == (root + f)[|p| - 1];
      assert Parent(p) <= p;
    }
  }

  function LoneGlob(f: seq<string>, basepath: string, matches: (string, string) -> bool): Glob {
    TrapGlob(LoneFile(Comps(basepath), f), basepath, matches)
  }

  lemma LoneIsOk(f: seq<string>, basepath: string, matches: (string, string) -> bool)
    requires LoneNames(Comps(basepath), f)
    ensures TreeOk(LoneGlob(f, basepath, matches))
  {
    LoneTree(Comps(basepath), f);
    LoneHas(Comps(basepath), f, Comps(basepath));
    TrapLists(LoneFile(Comps(basepath), f), basepath, matches);
  }

  // ----- the search looks elsewhere -----

  /** A place whose component number `n` is not that of the only file. */
  lemma OffTheChain(root: Path, f: seq<string>, p: Path, n: nat)
    requires n < |p| && n < |root + f| && p[n] != (root + f)[n]
    ensures Missing(TrapFs(LoneFile(root, f)), p)
  {
    LoneHas(root, f, p);
    forall k | 0 <= k < |p|
      ensures !IsFile(TrapFs(LoneFile(root, f)), p[..k])
    {
      LoneHas(root, f, p[..k]);
      assert n < k ==> p[..k][n] == p[n];
    }
  }

  lemma GluedIsMissing(f: seq<string>, basepath: string, path: string)
    requires basepath != "" && !HasSuffix(basepath, "/") && f != [] && AllPlain(f) && Split(path)[0] == f[0]
    ensures Missing(TrapFs(LoneFile(Comps(basepath), f)), Comps(basepath + path))
  {
    var q, last := GluedComps(basepath, path);
    var p, whole := Comps(basepath + path), Comps(basepath) + f;
    assert p[|q|] == last + f[0];
    assert whole[|q|] == if Solid(last) then last else f[0];
    OffTheChain(Comps(basepath), f, p, |q|);
  }

  ghost predicate Unseen(g: Glob, path: string) {
    Missing(g.fs, Comps(g.basepath + path))
  }

  /** The root holds only `first`, and no path that starts with it leads there. */
  ghost predicate Blind(g: Glob, first: string) {
    && StarFree(g.fs) && Plain(first) && Stars(first) == 0
    && g.list(Comps(g.basepath)) == [first]
    && (forall path | Split(path)[0] == first :: Unseen(g, path))
  }

  lemma LoneIsBlind(f: seq<string>, basepath: string, matches: (string, string) -> bool)
    requires LoneNames(Comps(basepath), f) && basepath != "" && !HasSuffix(basepath, "/")
    ensures Blind(LoneGlob(f, basepath, matches), f[0])
  {
    var g := LoneGlob(f, basepath, matches);
    LoneTree(Comps(basepath), f);
    RootListing(f, Comps(basepath));
    forall path | Split(path)[0] == f[0]
      ensures Unseen(g, path)
    {
      GluedIsMissing(f, basepath, path);
    }
  }

  lemma RootListing(f: seq<string>, root: Path)
    requires f != []
    ensures ReadDir(TrapFs(LoneFile(root, f)), root) == [f[0]]
  {
    var fs := TrapFs(LoneFile(root, f));
    forall x
      ensures root + [x] in fs <==> x == f[0]
    {
      LoneHas(root, f, root + [x]);
      OnChain(root, f, 0, x);
      assert root + f[..0] == root;
    }
    SingleListing(fs, root, f[0]);
  }

  lemma UnseenPath(g: Glob, path: string)
    requires path != "" && Unseen(g, path) && Unseen(g, Clean(path))
    ensures !IsDirectory(g, path) && !Exists(g, path)
  {
  }

  lemma NothingThere(g: Glob, first: string, h: seq<string>)
    requires Blind(g, first) && h != [] && AllPlain(h) && h[0] == first
    ensures !IsDirectory(g, PathString(h)) && !Exists(g, PathString(h)) && !Exists(g, Join(h))
  {
    CleanPlain(h);
    JoinNonEmpty(h);
    PathStringJoin(h);
    SplitPathString(h);
    SplitJoin(h);
    assert Split(PathString(h))[0] == first && Split(Join(h))[0] == first;
    assert Unseen(g, PathString(h)) && Unseen(g, Join(h));
    UnseenPath(g, PathString(h));
    UnseenPath(g, Join(h));
  }

  // ----- so it finds nothing -----

  lemma NothingMoves(g: Glob, first: string, pieces: seq<string>)
    requires Blind(g, first) && pieces != [] && AllPlain(pieces) && pieces[0] == first
    ensures MoveAt(g, 0, pieces) == Deeper
    ensures |pieces| > 1 ==> MoveAt(g, 1, pieces) == Nothing
  {
    assert pieces[..1][0] == first && PathString(pieces[..0]) == "";
    NothingThere(g, first, pieces[..1]);
    if |pieces| > 1 {
      assert pieces[..2][0] == first;
      NothingThere(g, first, pieces[..2]);
    }
  }

  lemma LiteralFindsNothing(g: Glob, first: string, share: bool, pieces: seq<string>)
    returns (result: (seq<string>, seq<string>))
    requires Blind(g, first) && pieces != [] && AllPlain(pieces) && pieces[0] == first
    ensures result == ([], pieces) == Expand(g, share, 0, pieces)
  {
    NothingMoves(g, first, pieces);
    ExpandDeeper(g, share, 0, pieces);
    if |pieces| > 1 {
      ExpandStops(g, share, 1, pieces);
    }
    result := ([], pieces);
  }

  lemma ListedAtRoot(g: Glob, first: string, piece: string)
    requires g.list(Comps(g.basepath)) == [first]
    ensures DirNames(g, "", piece) == [] || DirNames(g, "", piece) == [first]
    ensures FileNames(g, "", piece) == [] || FileNames(g, "", piece) == [first]
  {
    var p := Comps(g.basepath);
    assert g.basepath + "" == g.basepath;
    OneKept(first, x => IsDir(g.fs, p + [x]) && Passes(g, piece, x));
    OneKept(first, x => !IsDir(g.fs, p + [x]) && Passes(g, piece, x));
  }

  lemma OneKept(name: string, keep: string -> bool)
    ensures Filter([name], keep) == [] || Filter([name], keep) == [name]
  {
    assert [name][1..] == [];
  }

  lemma OneDirFindsNothing(g: Glob, first: string, share: bool, pieces: seq<string>, dirs: seq<string>)
    returns (result: (seq<string>, seq<string>))
    requires Blind(g, first) && pieces != [] && AllPlain(pieces) && (dirs == [] || dirs == [first])
    ensures result == ExpandDirs(g, share, 0, pieces, dirs) && result.0 == []
  {
    result := ([], pieces);
    if dirs != [] {
      SubstitutedPlain(pieces, first);
      var found := LiteralFindsNothing(g, first, share, pieces[0 := first]);
      result := OneDir(g, share, pieces, first, found);
    }
  }

  lemma SubstitutedPlain(pieces: seq<string>, first: string)
    requires pieces != [] && AllPlain(pieces) && Plain(first)
    ensures AllPlain(pieces[0 := first])
  {
  }

  lemma OneDir(g: Glob, share: bool, pieces: seq<string>, d: string, found: (seq<string>, seq<string>))
    returns (result: (seq<string>, seq<string>))
    requires StarFree(g.fs) && pieces != [] && Stars(d) == 0 && found == Expand(g, share, 0, pieces[0 := d])
    ensures result == ExpandDirs(g, share, 0, pieces, [d]) && result.0 == found.0
  {
    var left := if share then found.1 else pieces;
    assert [d][1..] == [];
    assert ExpandDirs(g, share, 0, left, []) == ([], left);
    assert found.0 + [] == found.0;
    result := (found.0, left);
  }

  lemma OneFileNotThere(g: Glob, first: string, files: seq<string>)
    requires Blind(g, first) && (files == [] || files == [first])
    ensures ExpandFiles(g, "", files) == []
  {
    if files != [] {
      NothingThere(g, first, [first]);
      assert [first][1..] == [];
      assert "" + first == Join([first]);
    }
  }

  lemma WildBranches(g: Glob, pieces: seq<string>)
    requires pieces != [] && Wild(pieces[0])
    ensures MoveAt(g, 0, pieces) == Branch && PathString(pieces[..0]) == ""
  {
  }

  lemma WildFindsNothing(g: Glob, first: string, share: bool, pieces: seq<string>)
    requires Blind(g, first) && pieces != [] && AllPlain(pieces) && Wild(pieces[0])
    ensures Expand(g, share, 0, pieces).0 == []
  {
    WildBranches(g, pieces);
    DirNamesStarFree(g, "", pieces[0]);
    ListedAtRoot(g, first, pieces[0]);
    var below := OneDirFindsNothing(g, first, share, pieces, DirNames(g, "", pieces[0]));
    OneFileNotThere(g, first, FileNames(g, "", pieces[0]));
    NoneBelow(g, share, pieces, below);
  }

  lemma NoneBelow(g: Glob, share: bool, pieces: seq<string>, below: (seq<string>, seq<string>))
    requires StarFree(g.fs) && pieces != [] && MoveAt(g, 0, pieces) == Branch && PathString(pieces[..0]) == ""
    requires forall d | d in DirNames(g, "", pieces[0]) :: Stars(d) == 0
    requires below == ExpandDirs(g, share, 0, pieces, DirNames(g, "", pieces[0])) && below.0 == []
    requires ExpandFiles(g, "", FileNames(g, "", pieces[0])) == []
    ensures Expand(g, share, 0, pieces).0 == []
  {
    ExpandBranch(g, share, 0, pieces, below);
    assert FilesAt(g, 0, pieces) == [];
  }

  /** Whatever the pattern, if its first piece is a wildcard or the only name in the root, nothing is found. */
  lemma SearchFindsNothing(g: Glob, first: string, share: bool, pieces: seq<string>)
    requires Blind(g, first) && pieces != [] && AllPlain(pieces) && (!Wild(pieces[0]) ==> pieces[0] == first)
    ensures Expand(g, share, 0, pieces).0 == []
  {
    if Wild(pieces[0]) {
      WildFindsNothing(g, first, share, pieces);
    } else {
      var result := LiteralFindsNothing(g, first, share, pieces);
    }
  }

  // ----- for every root and every pattern -----

  /** Something fits each wildcard of the pattern. */
  ghost predicate Fillable(matches: (string, string) -> bool, pieces: seq<string>) {
    forall k | 0 <= k < |pieces| && Wild(pieces[k]) :: exists a :: GoodName(matches, pieces[k], a)
  }

  lemma {:induction false} FilledOnce(matches: (string, string) -> bool, pieces: seq<string>)
    returns (names: seq<string>)
    requires OneStarEach(pieces) && Fillable(matches, pieces)
    ensures |names| == |pieces|
    ensures forall k | 0 <= k < |pieces| ::
              if Wild(pieces[k]) then GoodName(matches, pieces[k], names[k]) else names[k] == pieces[k]
  {
    names := [];
    if pieces != [] {
      var first := pieces[0];
      if Wild(first) {
        first :| GoodName(matches, pieces[0], first);
      }
      var rest := FilledOnce(matches, pieces[1..]);
      names := [first] + rest;
    }
  }

  lemma LoneIsRegular(g: Glob, f: seq<string>)
    requires f != [] && AllPlain(f) && g.fs == TrapFs(LoneFile(Comps(g.basepath), f))
    ensures Regular(g, f)
  {
    var root, n := Comps(g.basepath), |f| - 1;
    LocatedPlain(g, f);
    LocatedPlain(g, f[..n]);
    LoneHas(root, f, root + f);
    LoneHas(root, f, root + f[..n]);
    assert root + f[..n] <= root + f;
  }

  ghost predicate OrdinaryRoot(basepath: string) {
    && basepath != ""
    && forall k | 0 <= k < |Comps(basepath)| :: Plain(Comps(basepath)[k]) && Stars(Comps(basepath)[k]) == 0
  }

  /** Without the slash there is always a tree whose only file fits the pattern and is not found. */
  lemma NoSlashMisses(share: bool, pieces: seq<string>, basepath: string, matches: (string, string) -> bool)
    returns (g: Glob, s: string)
    requires OrdinaryRoot(basepath) && !HasSuffix(basepath, "/")
    requires pieces != [] && OneStarEach(pieces) && Fillable(matches, pieces)
    ensures TreeOk(g) && g.basepath == basepath && g.matches == matches
    ensures s in Wanted(g, 0, pieces) && Expand(g, share, 0, pieces).0 == []
  {
    var f := FilledOnce(matches, pieces);
    g := LoneGlob(f, basepath, matches);
    LoneIsOk(f, basepath, matches);
    LoneIsRegular(g, f);
    FittingIsWanted(g, f, pieces);
    LoneIsBlind(f, basepath, matches);
    SearchFindsNothing(g, f[0], share, pieces);
    s := Join(f);
  }

  /** The search lists exactly the wanted files, for every tree below the root. */
  ghost predicate RightOnEveryTree(share: bool, pieces: seq<string>, basepath: string,
                                   matches: (string, string) -> bool) {
    forall g {:trigger TreeOk(g)} | TreeOk(g) && g.basepath == basepath && g.matches == matches ::
      Lists(Expand(g, share, 0, pieces).0, Wanted(g, 0, pieces))
  }

  lemma WithSlashRight(share: bool, pieces: seq<string>, basepath: string, matches: (string, string) -> bool)
    requires HasSuffix(basepath, "/") && OneStarEach(pieces) && (share ==> AtMostOneWild(pieces, 0))
    ensures RightOnEveryTree(share, pieces, basepath, matches)
  {
    forall g | TreeOk(g) && g.basepath == basepath && g.matches == matches
      ensures Lists(Expand(g, share, 0, pieces).0, Wanted(g, 0, pieces))
    {
      if share {
        SharedIsExact(g, pieces);
      } else {
        CopiedIsExact(g, pieces);
      }
    }
  }

  /** With at most one wildcard piece, or with pieces that are copied, the search is right on every tree if and only if
      the root is written with a slash at its end. */
  lemma RootSlashIff(share: bool, pieces: seq<string>, basepath: string, matches: (string, string) -> bool)
    requires OrdinaryRoot(basepath) && pieces != [] && OneStarEach(pieces) && Fillable(matches, pieces)
    requires share ==> AtMostOneWild(pieces, 0)
    ensures RightOnEveryTree(share, pieces, basepath, matches) <==> HasSuffix(basepath, "/")
  {
    if HasSuffix(basepath, "/") {
      WithSlashRight(share, pieces, basepath, matches);
    } else {
      var g, s := NoSlashMisses(share, pieces, basepath, matches);
      assert s !in Expand(g, share, 0, pieces).0;
    }
  }

  /** Both conditions together: what the configuration has to be for the program to find the right files. */
  lemma SearchRightIff(pieces: seq<string>, basepath: string, matches: (string, string) -> bool)
    requires OrdinaryRoot(basepath) && pieces != [] && OneStarEach(pieces) && Ample(matches, pieces)
    ensures RightOnEveryTree(true, pieces, basepath, matches)
            <==> HasSuffix(basepath, "/") && AtMostOneWild(pieces, 0)
  {
    assert Fillable(matches, pieces);
    if !HasSuffix(basepath, "/") {
      var g, s := NoSlashMisses(true, pieces, basepath, matches);
      assert s !in Expand(g, true, 0, pieces).0;
    } else if AtMostOneWild(pieces, 0) {
      WithSlashRight(true, pieces, basepath, matches);
    } else {
      var g := TwoWildcardsMiss(pieces, basepath, matches);
      assert TreeOk(g);
    }
  }
}
