/** What the wildcard search finds. */
module WildcardSearch {
  import opened Sequences
  import opened FileSystem
  import opened SortedNames
  import opened Text
  import opened Wildcards

  // ----- the strings of the search and the places they denote -----

  /** Where a list of pieces leads, from the project root. */
  function Located(g: Glob, f: seq<string>): Path {
    Comps(g.basepath) + SolidOnly(f)
  }

  predicate Ordinary(piece: string) {
    NoSlash(piece) && piece != ".."
  }

  predicate AllOrdinary(f: seq<string>) {
    forall k | 0 <= k < |f| :: Ordinary(f[k])
  }

  lemma {:induction false} SplitPathString(f: seq<string>)
    requires AllOrdinary(f)
    ensures Split(PathString(f)) == f + [""]
  {
    if f == [] {
      assert Split("") == [[]];
    } else {
      SplitPathString(f[1..]);
      SplitConcat(f[0], PathString(f[1..]));
      SplitWhole(f[0]);
      assert [f[0]] + (f[1..] + [""]) == f + [""];
    }
  }

  lemma {:induction false} PathStringJoin(f: seq<string>)
    requires f != []
    ensures PathString(f) == Join(f) + "/"
  {
    if |f| == 1 {
      assert f[1..] == [];
      assert f[0] + "/" + "" == f[0] + "/";
    } else {
      PathStringJoin(f[1..]);
      Assoc(f[0] + "/", Join(f[1..]), "/");
    }
  }

  lemma {:induction false} PathStringGrows(f: seq<string>, x: string)
    ensures PathString(f + [x]) == PathString(f) + x + "/"
  {
    if f == [] {
      assert [x][1..] == [];
      assert [] + [x] == [x];
      assert x + "/" + "" == "" + x + "/";
    } else {
      PathStringGrows(f[1..], x);
      assert (f + [x])[1..] == f[1..] + [x];
      Assoc(f[0] + "/", PathString(f[1..]), x);
      Assoc(f[0] + "/", PathString(f[1..]) + x, "/");
    }
  }

  lemma FilePathJoins(f: seq<string>, x: string)
    ensures PathString(f) + x == Join(f + [x])
  {
    PathStringGrows(f, x);
    PathStringJoin(f + [x]);
    Cancel(PathString(f) + x, Join(f + [x]), "/");
  }

  lemma Cancel(a: string, b: string, t: string)
    requires a + t == b + t
    ensures a == b
  {
    assert |a + t| == |b + t|;
    assert a == (a + t)[..|a|];
    assert b == (b + t)[..|b|];
  }

  /** With the slash at the end of the root, a path resolves below the root. */
  lemma BelowRoot(g: Glob, path: string)
    requires HasSuffix(g.basepath, "/")
    ensures Comps(g.basepath + path) == Comps(g.basepath) + Comps(path)
  {
    var root := g.basepath[..|g.basepath| - 1];
    assert g.basepath == root + "/";
    CompsConcat(root, path);
    CompsEdges(root);
  }

  lemma PathStringLocated(g: Glob, f: seq<string>)
    requires HasSuffix(g.basepath, "/") && AllOrdinary(f)
    ensures Comps(g.basepath + PathString(f)) == Located(g, f)
  {
    BelowRoot(g, PathString(f));
    SplitPathString(f);
    SolidOnlyConcat(f, [""]);
    assert SolidOnly([""]) == [];
    assert SolidOnly(f) + [] == SolidOnly(f);
  }

  lemma JoinLocated(g: Glob, f: seq<string>)
    requires HasSuffix(g.basepath, "/") && AllOrdinary(f) && f != []
    ensures Comps(g.basepath + Join(f)) == Located(g, f)
  {
    BelowRoot(g, Join(f));
    SplitJoin(f);
  }

  // ----- filepath.Clean -----

  lemma {:induction false} ResolveOrdinary(ps: seq<string>, stack: seq<string>, rooted: bool)
    requires AllOrdinary(ps)
    ensures Resolve(ps, stack, rooted) == stack + SolidOnly(ps)
  {
    if ps == [] {
      assert stack + [] == stack;
    } else if Solid(ps[0]) {
      ResolveOrdinary(ps[1..], stack + [ps[0]], rooted);
      Assoc(stack, [ps[0]], SolidOnly(ps[1..]));
    } else {
      ResolveOrdinary(ps[1..], stack, rooted);
      assert SolidOnly(ps) == SolidOnly(ps[1..]);
    }
  }

  /** Cleaning a path without `..` keeps what it denotes. */
  lemma CleanKeepsPlace(path: string)
    requires AllOrdinary(Split(path))
    ensures Comps(Clean(path)) == Comps(path)
  {
    if path != "" {
      var rooted := path[0] == '/';
      ResolveOrdinary(Split(path), [], rooted);
      var parts := Resolve(Split(path), [], rooted);
      CompsParts(path);
      assert parts == Comps(path) by { assert [] + Comps(path) == Comps(path); }
      CompsEdges(Join(parts));
      if parts != [] {
        CompsJoin(parts);
      } else {
        assert Join(parts) == "";
      }
    } else {
      CompsEdges("");
    }
  }

  // ----- what the calls on the file system tell -----

  /** A directory lists its entries, each once. */
  ghost predicate ListsEntries(g: Glob) {
    && (forall p, x {:trigger x in g.list(p)} :: x in g.list(p) <==> p + [x] in g.fs)
    && (forall p :: Distinct(g.list(p)))
  }

  /** The project root is a directory, and every name in the tree is an ordinary one. */
  ghost predicate TreeOk(g: Glob) {
    && ListsEntries(g)
    && WellFormed(g.fs) && StarFree(g.fs)
    && IsDir(g.fs, Comps(g.basepath))
    && (forall p | p in g.fs && p != [] :: Plain(p[|p| - 1]))
  }

  /** Besides, the path of the root ends in a slash. */
  ghost predicate Usable(g: Glob) {
    TreeOk(g) && HasSuffix(g.basepath, "/")
  }

  ghost predicate Missing(fs: FS, p: Path) {
    p !in fs && !BelowFile(fs, p)
  }

  lemma DirectoryAt(g: Glob, f: seq<string>)
    requires Usable(g) && AllOrdinary(f)
    ensures IsDirectory(g, PathString(f)) <==> IsDir(g.fs, Located(g, f))
  {
    PathStringLocated(g, f);
    if f == [] {
      assert Located(g, f) == Comps(g.basepath);
    }
  }

  lemma ExistsPlace(g: Glob, path: string)
    requires Usable(g) && path != "" && AllOrdinary(Split(path))
    ensures Exists(g, path) <==> !Missing(g.fs, Comps(g.basepath + path))
  {
    CleanKeepsPlace(path);
    BelowRoot(g, Clean(path));
    BelowRoot(g, path);
    assert Comps(g.basepath + Clean(path)) == Comps(g.basepath + path);
  }

  lemma ExistsAt(g: Glob, f: seq<string>)
    requires Usable(g) && AllOrdinary(f) && f != []
    ensures Exists(g, PathString(f)) <==> !Missing(g.fs, Located(g, f))
  {
    var path := PathString(f);
    assert path != "" by { PathStringJoin(f); }
    assert AllOrdinary(Split(path)) by {
      SplitPathString(f);
      assert AllOrdinary(f + [""]);
    }
    ExistsPlace(g, path);
    assert Comps(g.basepath + path) == Located(g, f) by { PathStringLocated(g, f); }
  }

  lemma FileExistsAt(g: Glob, f: seq<string>)
    requires Usable(g) && AllOrdinary(f) && f != [] && IsFile(g.fs, Located(g, f))
    ensures Exists(g, Join(f))
  {
    JoinLocated(g, f);
    SplitJoin(f);
    if Join(f) != "" {
      ExistsPlace(g, Join(f));
    }
  }

  // ----- one step of the search -----

  lemma LocatedStep(g: Glob, f: seq<string>, i: nat)
    requires i < |f|
    ensures Located(g, f[..i + 1]) == if Solid(f[i]) then Located(g, f[..i]) + [f[i]] else Located(g, f[..i])
  {
    assert f[..i + 1] == f[..i] + [f[i]];
    SolidOnlyConcat(f[..i], [f[i]]);
    assert [f[i]][1..] == [];
    Assoc(Comps(g.basepath), SolidOnly(f[..i]), SolidOnly([f[i]]));
    assert SolidOnly(f[..i]) + [] == SolidOnly(f[..i]);
  }

  lemma UnderDirectory(fs: FS, p: Path, x: string)
    requires WellFormed(fs) && IsDir(fs, p)
    ensures !BelowFile(fs, p) && !BelowFile(fs, p + [x])
  {
    forall k | 0 <= k < |p|
      ensures !IsFile(fs, p[..k])
    {
      PrefixIsDir(fs, p, k);
    }
    forall k | 0 <= k < |p + [x]|
      ensures !IsFile(fs, (p + [x])[..k])
    {
      if k < |p| {
        assert (p + [x])[..k] == p[..k];
      } else {
        assert (p + [x])[..k] == p;
      }
    }
  }

  lemma UnderMissing(fs: FS, p: Path, x: string)
    requires WellFormed(fs) && Missing(fs, p)
    ensures Missing(fs, p + [x])
  {
    assert Parent(p + [x]) == p;
    forall k | 0 <= k < |p + [x]|
      ensures !IsFile(fs, (p + [x])[..k])
    {
      if k < |p| {
        assert (p + [x])[..k] == p[..k];
      } else {
        assert (p + [x])[..k] == p;
      }
    }
  }

  lemma MoveInDirectory(g: Glob, i: nat, pieces: seq<string>)
    requires Usable(g) && AllOrdinary(pieces) && i < |pieces|
    requires IsDir(g.fs, Located(g, pieces[..i]))
    ensures MoveAt(g, i, pieces)
            == if Wild(pieces[i]) then Branch
               else if IsFile(g.fs, Located(g, pieces[..i + 1])) then Here
               else Deeper
  {
    DirectoryAt(g, pieces[..i]);
    DirectoryAt(g, pieces[..i + 1]);
    ExistsAt(g, pieces[..i + 1]);
    NextPlace(g, i, pieces);
  }

  lemma NextPlace(g: Glob, i: nat, pieces: seq<string>)
    requires Usable(g) && i < |pieces|
    requires IsDir(g.fs, Located(g, pieces[..i])) || Missing(g.fs, Located(g, pieces[..i]))
    ensures Missing(g.fs, Located(g, pieces[..i])) ==> Missing(g.fs, Located(g, pieces[..i + 1]))
    ensures OneOfThree(g.fs, Located(g, pieces[..i + 1]))
  {
    LocatedStep(g, pieces, i);
    ChildPlace(g.fs, Located(g, pieces[..i]), pieces[i]);
  }

  ghost predicate OneOfThree(fs: FS, p: Path) {
    IsFile(fs, p) || IsDir(fs, p) || Missing(fs, p)
  }

  lemma ChildPlace(fs: FS, p: Path, x: string)
    requires WellFormed(fs) && (IsDir(fs, p) || Missing(fs, p))
    ensures Missing(fs, p) ==> Missing(fs, p + [x])
    ensures OneOfThree(fs, p + [x])
  {
    if IsDir(fs, p) {
      UnderDirectory(fs, p, x);
    } else {
      UnderMissing(fs, p, x);
    }
  }

  lemma MoveInMissing(g: Glob, i: nat, pieces: seq<string>)
    requires Usable(g) && AllOrdinary(pieces) && i < |pieces|
    requires Missing(g.fs, Located(g, pieces[..i]))
    ensures MoveAt(g, i, pieces) == Nothing
  {
    DirectoryAt(g, pieces[..i]);
    ExistsAt(g, pieces[..i + 1]);
    NextPlace(g, i, pieces);
  }

  // ----- what there is to find -----

  predicate Fits(g: Glob, piece: string, name: string) {
    if Wild(piece) then Plain(name) && Passes(g, piece, name) else name == piece
  }

  /** A piece with exactly one star stands for the ordinary names that match it, for all of them if it is just the
      star; any other piece stands for itself. */
  lemma FitsIff(g: Glob, piece: string, name: string)
    ensures Fits(g, piece, name)
            <==> if multiset(piece)['*'] == 1 then Plain(name) && (piece == "*" || g.matches(piece, name))
                 else name == piece
  {
    StarsCount(piece);
    if |piece| == 1 {
      assert piece == [piece[0]];
    }
  }

  /** A regular file in an existing directory. */
  predicate Regular(g: Glob, f: seq<string>) {
    f != [] && IsFile(g.fs, Located(g, f)) && IsDir(g.fs, Located(g, f[..|f| - 1]))
  }

  predicate AllFit(g: Glob, i: nat, pieces: seq<string>, f: seq<string>)
    requires |f| <= |pieces|
  {
    forall k | i <= k < |f| :: Fits(g, pieces[k], f[k])
  }

  /** The paths that a search from index `i` is to find: regular files whose pieces fit the pattern, all the way, or
      up to a literal piece that already names a file. */
  predicate Found(g: Glob, i: nat, pieces: seq<string>, f: seq<string>) {
    && i < |f| <= |pieces| && f[..i] == pieces[..i]
    && AllFit(g, i, pieces, f)
    && (|f| == |pieces| || !Wild(pieces[|f| - 1]))
    && Regular(g, f)
  }

  lemma DirectoryAbove(g: Glob, f: seq<string>, k: nat)
    requires WellFormed(g.fs) && k < |f| && IsDir(g.fs, Located(g, f[..k + 1]))
    ensures IsDir(g.fs, Located(g, f[..k]))
  {
    LocatedStep(g, f, k);
    var p := Located(g, f[..k + 1]);
    if Solid(f[k]) {
      assert Parent(p) == Located(g, f[..k]);
    }
  }

  lemma {:induction false} RegularAbove(g: Glob, f: seq<string>, k: nat)
    requires Usable(g) && Regular(g, f) && k < |f|
    ensures IsDir(g.fs, Located(g, f[..k]))
    decreases |f| - k
  {
    if k + 1 < |f| {
      RegularAbove(g, f, k + 1);
      DirectoryAbove(g, f, k);
    }
  }

  /** The found paths split by what the literal piece at `i` names. */
  lemma FoundAtLiteral(g: Glob, i: nat, pieces: seq<string>, f: seq<string>)
    requires Usable(g) && i < |pieces| && !Wild(pieces[i])
    requires IsDir(g.fs, Located(g, pieces[..i]))
    ensures Found(g, i, pieces, f)
            <==> if IsFile(g.fs, Located(g, pieces[..i + 1])) then f == pieces[..i + 1]
                 else Found(g, i + 1, pieces, f)
  {
    if i < |f| <= |pieces| {
      SamePrefix(i, pieces, f);
      FitsFrom(g, i, pieces, f);
      if |f| == i + 1 {
        assert f[..i + 1] == f && f[..|f| - 1] == f[..i];
      } else if Regular(g, f) {
        RegularAbove(g, f, i + 1);
      }
    }
  }

  lemma FitsFrom(g: Glob, i: nat, pieces: seq<string>, f: seq<string>)
    requires i < |f| <= |pieces|
    ensures AllFit(g, i, pieces, f) <==> Fits(g, pieces[i], f[i]) && AllFit(g, i + 1, pieces, f)
  {
  }

  lemma SamePrefix(i: nat, pieces: seq<string>, f: seq<string>)
    requires i < |f| <= |pieces|
    ensures f[..i + 1] == pieces[..i + 1] <==> f[..i] == pieces[..i] && f[i] == pieces[i]
  {
    assert f[..i + 1] == f[..i] + [f[i]];
    assert pieces[..i + 1] == pieces[..i] + [pieces[i]];
    if f[..i + 1] == pieces[..i + 1] {
      assert f[..i + 1][..i] == f[..i] && pieces[..i + 1][..i] == pieces[..i];
      assert f[..i + 1][i] == f[i] && pieces[..i + 1][i] == pieces[i];
    }
  }
}
