/** For every pattern with two wildcard pieces there is a tree in which the program's search misses a file. */
module WildcardMisses {
  import opened FileSystem
  import opened SortedNames
  import opened Text
  import opened Wildcards
  import opened WildcardSearch
  import opened WildcardFinds
  import opened WildcardSharing

  // ----- a tree with one file and one dead end -----

  /** Below the root: a chain of directories `a`, and a chain of directories that ends in the file `b`. */
  datatype Trap = Trap(root: Path, a: seq<string>, b: seq<string>)

  function Prefixes(p: Path): set<Path> {
    set k | 0 <= k <= |p| :: p[..k]
  }

  function TrapFs(t: Trap): FS {
    map p | p in Prefixes(t.root + t.a) + Prefixes(t.root + t.b) :: if p == t.root + t.b then File("") else Dir
  }

  lemma TrapHas(t: Trap, p: Path)
    ensures p in TrapFs(t) <==> p <= t.root + t.a || p <= t.root + t.b
  {
    if p <= t.root + t.a { assert p == (t.root + t.a)[..|p|]; }
    if p <= t.root + t.b { assert p == (t.root + t.b)[..|p|]; }
  }

  /** The two chains part at index `i`. */
  predicate Parted(t: Trap, i: nat) {
    && i < |t.a| && i < |t.b| - 1 && t.a[..i] == t.b[..i] && t.a[i] != t.b[i]
    && (forall k | 0 <= k < |t.root| :: Plain(t.root[k]) && Stars(t.root[k]) == 0)
    && (forall k | 0 <= k < |t.a| :: Plain(t.a[k]) && Stars(t.a[k]) == 0)
    && (forall k | 0 <= k < |t.b| :: Plain(t.b[k]))
    && (forall k | 0 <= k < |t.b| - 1 :: Stars(t.b[k]) == 0)
  }

  lemma FileIsApart(t: Trap, i: nat)
    requires Parted(t, i)
    ensures !(t.root + t.b <= t.root + t.a)
  {
    var n := |t.root| + i;
    assert (t.root + t.b)[n] == t.b[i] && (t.root + t.a)[n] == t.a[i];
  }

  lemma TrapDir(t: Trap, i: nat, k: nat)
    requires Parted(t, i)
    ensures k <= |t.a| ==> IsDir(TrapFs(t), t.root + t.a[..k])
    ensures k < |t.b| ==> IsDir(TrapFs(t), t.root + t.b[..k])
    ensures IsFile(TrapFs(t), t.root + t.b)
  {
    FileIsApart(t, i);
    TrapHas(t, t.root + t.b);
    if k <= |t.a| {
      TrapHas(t, t.root + t.a[..k]);
      assert t.root + t.a[..k] <= t.root + t.a;
    }
    if k < |t.b| {
      TrapHas(t, t.root + t.b[..k]);
      assert t.root + t.b[..k] <= t.root + t.b;
    }
  }

  lemma TrapWellFormed(t: Trap, i: nat)
    requires Parted(t, i)
    ensures WellFormed(TrapFs(t))
  {
    var fs := TrapFs(t);
    FileIsApart(t, i);
    TrapHas(t, []);
    forall p | p in fs && p != []
      ensures IsDir(fs, Parent(p))
    {
      TrapHas(t, p);
      TrapHas(t, Parent(p));
      assert Parent(p) <= p;
      assert Parent(p) != t.root + t.b;
    }
  }

  lemma TrapNames(t: Trap, i: nat)
    requires Parted(t, i)
    ensures StarFree(TrapFs(t))
    ensures forall p | p in TrapFs(t) && p != [] :: Plain(p[|p| - 1])
  {
    var fs := TrapFs(t);
    forall p | p in fs && p != []
      ensures Plain(p[|p| - 1])
      ensures fs[p].Dir? ==> Stars(p[|p| - 1]) == 0
    {
      TrapHas(t, p);
      var whole := if p <= t.root + t.a then t.root + t.a else t.root + t.b;
      assert p[|p| - 1] == whole[|p| - 1];
    }
  }

  function TrapGlob(t: Trap, basepath: string, matches: (string, string) -> bool): Glob {
    Glob(TrapFs(t), p => ReadDir(TrapFs(t), p), basepath, matches)
  }

  lemma TrapUsable(t: Trap, i: nat, basepath: string, matches: (string, string) -> bool)
    requires Parted(t, i) && HasSuffix(basepath, "/") && t.root == Comps(basepath)
    ensures Usable(TrapGlob(t, basepath, matches))
  {
    TrapWellFormed(t, i);
    TrapNames(t, i);
    TrapDir(t, i, 0);
    assert t.root + t.a[..0] == t.root;
    TrapLists(t, basepath, matches);
  }

  lemma TrapLists(t: Trap, basepath: string, matches: (string, string) -> bool)
    ensures ListsEntries(TrapGlob(t, basepath, matches))
  {
  }

  // ----- listings -----

  lemma SortedListing(fs: FS, p: Path, a: string, b: string)
    requires a != b && AtMost(a, b) && forall x :: p + [x] in fs <==> x == a || x == b
    ensures ReadDir(fs, p) == [a, b]
  {
    TwoNames(ReadDir(fs, p), a, b);
    AtMostTotal(a, b);
  }

  lemma AtTheFork(t: Trap, i: nat, x: string)
    requires Parted(t, i)
    ensures (t.root + t.a[..i]) + [x] in TrapFs(t) <==> x == t.a[i] || x == t.b[i]
  {
    var q := (t.root + t.a[..i]) + [x];
    TrapHas(t, q);
    OnChain(t.root, t.a, i, x);
    OnChain(t.root, t.b, i, x);
  }

  lemma OnChain(root: Path, c: seq<string>, k: nat, x: string)
    requires k < |c|
    ensures (root + c[..k]) + [x] <= root + c <==> x == c[k]
  {
    var q := (root + c[..k]) + [x];
    assert q[|root| + k] == x && (root + c)[|root| + k] == c[k];
    if x == c[k] {
      assert q == (root + c)[..|q|];
    }
  }

  lemma PastTheFork(t: Trap, i: nat, k: nat, x: string)
    requires Parted(t, i) && i < k < |t.a|
    ensures (t.root + t.a[..k]) + [x] in TrapFs(t) <==> x == t.a[k]
  {
    var q := (t.root + t.a[..k]) + [x];
    TrapHas(t, q);
    OnChain(t.root, t.a, k, x);
    var n := |t.root| + i;
    assert q[n] == t.a[i];
    assert (t.root + t.b)[n] == t.b[i];
  }

  // ----- the run of the search -----

  /** The pattern has its first two wildcards at `i` and `j`; the trap is laid for it. */
  ghost predicate LaidFor(t: Trap, g: Glob, pieces: seq<string>, i: nat, j: nat) {
    && i < j < |pieces| == |t.b| && |t.a| == j + 1 && Parted(t, i)
    && Wild(pieces[i]) && Wild(pieces[j]) && (forall k | 0 <= k < j && k != i :: !Wild(pieces[k]))
    && (forall k | 0 <= k < j && k != i :: t.a[k] == pieces[k])
    && (forall k | 0 <= k < |pieces| :: Fits(g, pieces[k], t.b[k]))
    && Passes(g, pieces[i], t.a[i]) && Passes(g, pieces[j], t.a[j])
    && AtMost(t.a[i], t.b[i]) && t.a[j] != t.b[j]
    && AllOrdinary(pieces)
  }

  lemma LocatedPlain(g: Glob, f: seq<string>)
    requires AllPlain(f)
    ensures Located(g, f) == Comps(g.basepath) + f
  {
    SolidOnlyAll(f);
  }

  /** As far as the pieces follow the chain of the dead end, they lead to directories. */
  lemma OnDeadEnd(t: Trap, g: Glob, i: nat, pieces: seq<string>, m: nat)
    requires Parted(t, i) && g.fs == TrapFs(t) && t.root == Comps(g.basepath)
    requires m <= |t.a| && m <= |pieces| && pieces[..m] == t.a[..m]
    ensures Located(g, pieces[..m]) == t.root + t.a[..m]
    ensures IsDir(g.fs, Located(g, pieces[..m]))
  {
    LocatedPlain(g, t.a[..m]);
    TrapDir(t, i, m);
  }

  /** Literal pieces that lead from directory to directory. */
  predicate LiteralRun(g: Glob, k: nat, end: nat, pieces: seq<string>)
    requires k <= end <= |pieces|
    decreases end - k
  {
    k == end
    || (!Wild(pieces[k]) && IsDir(g.fs, Located(g, pieces[..k])) && IsDir(g.fs, Located(g, pieces[..k + 1]))
        && LiteralRun(g, k + 1, end, pieces))
  }

  lemma {:induction false} RunOnDeadEnd(t: Trap, g: Glob, i: nat, k: nat, end: nat, pieces: seq<string>)
    requires k <= end <= |pieces| && end <= |t.a|
    requires Parted(t, i) && g.fs == TrapFs(t) && t.root == Comps(g.basepath) && pieces[..end] == t.a[..end]
    requires NoWild(pieces[..end], k)
    ensures LiteralRun(g, k, end, pieces)
    decreases end - k
  {
    if k < end {
      assert pieces[..end][k] == pieces[k];
      assert pieces[..k] == pieces[..end][..k] && t.a[..k] == t.a[..end][..k];
      assert pieces[..k + 1] == pieces[..end][..k + 1] && t.a[..k + 1] == t.a[..end][..k + 1];
      OnDeadEnd(t, g, i, pieces, k);
      OnDeadEnd(t, g, i, pieces, k + 1);
      RunOnDeadEnd(t, g, i, k + 1, end, pieces);
    }
  }

  lemma {:induction false} WalkLiterals(g: Glob, share: bool, k: nat, end: nat, pieces: seq<string>)
    returns (result: (seq<string>, seq<string>))
    requires Usable(g) && AllOrdinary(pieces) && k <= end <= |pieces| && LiteralRun(g, k, end, pieces)
    ensures result == Expand(g, share, k, pieces) == Expand(g, share, end, pieces)
    decreases end - k
  {
    if k < end {
      StepDeeper(g, share, k, pieces);
      result := WalkLiterals(g, share, k + 1, end, pieces);
    } else {
      result := Expand(g, share, end, pieces);
    }
  }

  lemma StepDeeper(g: Glob, share: bool, k: nat, pieces: seq<string>)
    requires Usable(g) && AllOrdinary(pieces) && k < |pieces| && !Wild(pieces[k])
    requires IsDir(g.fs, Located(g, pieces[..k])) && IsDir(g.fs, Located(g, pieces[..k + 1]))
    ensures Expand(g, share, k, pieces) == Expand(g, share, k + 1, pieces)
  {
    MoveInDirectory(g, k, pieces);
    ExpandDeeper(g, share, k, pieces);
  }

  lemma ForkNames(t: Trap, i: nat)
    requires Parted(t, i) && AtMost(t.a[i], t.b[i])
    ensures ReadDir(TrapFs(t), t.root + t.a[..i]) == [t.a[i], t.b[i]]
    ensures forall x | x in [t.a[i], t.b[i]] :: IsDir(TrapFs(t), (t.root + t.a[..i]) + [x])
  {
    var p := t.root + t.a[..i];
    forall x
      ensures p + [x] in TrapFs(t) <==> x == t.a[i] || x == t.b[i]
    {
      AtTheFork(t, i, x);
    }
    SortedListing(TrapFs(t), p, t.a[i], t.b[i]);
    TrapDir(t, i, i + 1);
    assert p + [t.a[i]] == t.root + t.a[..i + 1];
    assert p + [t.b[i]] == t.root + t.b[..i + 1];
  }

  lemma DeadEndNames(t: Trap, i: nat, j: nat)
    requires Parted(t, i) && i < j < |t.a|
    ensures ReadDir(TrapFs(t), t.root + t.a[..j]) == [t.a[j]]
    ensures IsDir(TrapFs(t), (t.root + t.a[..j]) + [t.a[j]])
  {
    var p := t.root + t.a[..j];
    forall x
      ensures p + [x] in TrapFs(t) <==> x == t.a[j]
    {
      PastTheFork(t, i, j, x);
    }
    SingleListing(TrapFs(t), p, t.a[j]);
    NextIsDir(t, i, j);
  }

  lemma NextIsDir(t: Trap, i: nat, j: nat)
    requires Parted(t, i) && j < |t.a|
    ensures IsDir(TrapFs(t), (t.root + t.a[..j]) + [t.a[j]])
  {
    TrapDir(t, i, j + 1);
    assert (t.root + t.a[..j]) + [t.a[j]] == t.root + t.a[..j + 1];
  }

  lemma SingleListing(fs: FS, p: Path, a: string)
    requires forall x :: p + [x] in fs <==> x == a
    ensures ReadDir(fs, p) == [a]
  {
    OneName(ReadDir(fs, p), a);
  }

  lemma AllKept(g: Glob, path: string, piece: string, p: Path, names: seq<string>)
    requires p == Comps(g.basepath + path) && g.list(p) == names
    requires forall x | x in names :: IsDir(g.fs, p + [x]) && Passes(g, piece, x)
    ensures DirNames(g, path, piece) == names
  {
    KeepsAll(names, x => IsDir(g.fs, p + [x]) && Passes(g, piece, x));
  }

  lemma {:induction false} KeepsAll(names: seq<string>, keep: string -> bool)
    requires forall x | x in names :: keep(x)
    ensures Filter(names, keep) == names
  {
    if names != [] {
      KeepsAll(names[1..], keep);
    }
  }

  /** What the search sees from a place on the chain of the dead end. */
  lemma SeenFrom(t: Trap, g: Glob, i: nat, m: nat, pieces: seq<string>)
    requires HasSuffix(g.basepath, "/") && Parted(t, i) && g.fs == TrapFs(t) && t.root == Comps(g.basepath)
    requires AllOrdinary(pieces)
    requires m <= |t.a| && m <= |pieces| && pieces[..m] == t.a[..m]
    ensures Comps(g.basepath + PathString(pieces[..m])) == t.root + t.a[..m]
  {
    OnDeadEnd(t, g, i, pieces, m);
    PathStringLocated(g, pieces[..m]);
  }

  lemma FirstPieces(t: Trap, g: Glob, pieces: seq<string>, i: nat, j: nat)
    requires LaidFor(t, g, pieces, i, j)
    ensures pieces[..i] == t.a[..i] && pieces[i := t.a[i]][..j] == t.a[..j]
    ensures NoWild(pieces[..i], 0) && NoWild(pieces[i := t.a[i]][..j], 0)
    ensures AllOrdinary(pieces[i := t.a[i]])
  {
  }

  /** Searching below the dead end leaves its name in place of the second wildcard. */
  lemma DeadEndOverwrites(t: Trap, g: Glob, pieces: seq<string>, i: nat, j: nat)
    returns (result: (seq<string>, seq<string>))
    requires Usable(g) && t.root == Comps(g.basepath) && LaidFor(t, g, pieces, i, j)
    requires g == TrapGlob(t, g.basepath, g.matches)
    ensures result == Expand(g, true, i, pieces[i := t.a[i]])
    ensures result.1[j] == t.a[j]
    ensures Obeys(pieces[i := t.a[i]], result.1) && AllObey(pieces[i := t.a[i]], result.0)
  {
    var now := pieces[i := t.a[i]];
    FirstPieces(t, g, pieces, i, j);
    RunOnDeadEnd(t, g, i, i, j, now);
    result := WalkLiterals(g, true, i, j, now);
    DeadEndSeen(t, g, now, i, j);
    DeadEndBranches(t, g, pieces, i, j);
    result := SearchObeys(g, true, i, now);
    var below := OnlyDirectory(g, j, now, t.a[j]);
    DirNamesStarFree(g, PathString(now[..j]), now[j]);
    ExpandBranch(g, true, j, now, below);
  }

  lemma DeadEndSeen(t: Trap, g: Glob, now: seq<string>, i: nat, j: nat)
    requires HasSuffix(g.basepath, "/") && t.root == Comps(g.basepath) && Parted(t, i) && AllOrdinary(now)
    requires i < j < |t.a| && j < |now| && now[..j] == t.a[..j] && Passes(g, now[j], t.a[j])
    requires g == TrapGlob(t, g.basepath, g.matches)
    ensures DirNames(g, PathString(now[..j]), now[j]) == [t.a[j]]
  {
    SeenFrom(t, g, i, j, now);
    DeadEndNames(t, i, j);
    SeenNames(t, g, now, j, [t.a[j]]);
  }

  lemma DeadEndBranches(t: Trap, g: Glob, pieces: seq<string>, i: nat, j: nat)
    requires Usable(g) && t.root == Comps(g.basepath) && LaidFor(t, g, pieces, i, j) && g.fs == TrapFs(t)
    ensures MoveAt(g, j, pieces[i := t.a[i]]) == Branch
  {
    FirstPieces(t, g, pieces, i, j);
    OnDeadEnd(t, g, i, pieces[i := t.a[i]], j);
    MoveInDirectory(g, j, pieces[i := t.a[i]]);
  }

  lemma SeenNames(t: Trap, g: Glob, pieces: seq<string>, k: nat, names: seq<string>)
    requires k < |pieces| && k <= |t.a|
    requires g == TrapGlob(t, g.basepath, g.matches)
    requires Comps(g.basepath + PathString(pieces[..k])) == t.root + t.a[..k]
    requires ReadDir(TrapFs(t), t.root + t.a[..k]) == names
    requires forall x | x in names :: IsDir(TrapFs(t), (t.root + t.a[..k]) + [x]) && Passes(g, pieces[k], x)
    ensures DirNames(g, PathString(pieces[..k]), pieces[k]) == names
  {
    var place := t.root + t.a[..k];
    assert g.list(place) == names;
    AllKept(g, PathString(pieces[..k]), pieces[k], place, names);
  }

  lemma ForkSeen(t: Trap, g: Glob, pieces: seq<string>, i: nat)
    requires HasSuffix(g.basepath, "/") && t.root == Comps(g.basepath) && Parted(t, i) && AllOrdinary(pieces)
    requires i < |pieces| && pieces[..i] == t.a[..i] && AtMost(t.a[i], t.b[i])
    requires Passes(g, pieces[i], t.a[i]) && Passes(g, pieces[i], t.b[i])
    requires g == TrapGlob(t, g.basepath, g.matches)
    ensures DirNames(g, PathString(pieces[..i]), pieces[i]) == [t.a[i], t.b[i]]
  {
    SeenFrom(t, g, i, i, pieces);
    ForkNames(t, i);
    var names := [t.a[i], t.b[i]];
    assert forall x | x in names :: x == t.a[i] || x == t.b[i];
    SeenNames(t, g, pieces, i, names);
  }

  lemma ForkBranches(t: Trap, g: Glob, pieces: seq<string>, i: nat, j: nat)
    requires Usable(g) && t.root == Comps(g.basepath) && LaidFor(t, g, pieces, i, j) && g.fs == TrapFs(t)
    ensures MoveAt(g, i, pieces) == Branch
  {
    FirstPieces(t, g, pieces, i, j);
    OnDeadEnd(t, g, i, pieces, i);
    MoveInDirectory(g, i, pieces);
  }

  lemma OnlyDirectory(g: Glob, j: nat, pieces: seq<string>, d: string) returns (below: (seq<string>, seq<string>))
    requires Usable(g) && AllOrdinary(pieces) && j < |pieces| && Plain(d) && Stars(d) == 0 && Wild(pieces[j])
    ensures below == ExpandDirs(g, true, j, pieces, [d]) && below.1[j] == d
  {
    var p := pieces[j := d];
    Substituted(pieces, j, d);
    var found := SearchObeys(g, true, j, p);
    assert found.1[j] == p[j];
    assert [d][1..] == [];
    assert ExpandDirs(g, true, j, found.1, []) == ([], found.1);
    below := (found.0 + [], found.1);
  }

  lemma NotObeying(pieces: seq<string>, paths: seq<string>, f: seq<string>, k: nat)
    requires AllObey(pieces, paths) && AllOrdinary(f) && k < |f| <= |pieces|
    requires !Wild(pieces[k]) && pieces[k] != f[k]
    ensures Join(f) !in paths
  {
    SplitJoin(f);
    assert !PathObeys(pieces, Join(f));
  }

  lemma NoFilesYet(g: Glob, i: nat, pieces: seq<string>)
    requires i < |pieces| - 1
    ensures FilesAt(g, i, pieces) == []
  {
  }

  lemma ReachFork(t: Trap, g: Glob, pieces: seq<string>, i: nat, j: nat)
    requires Usable(g) && t.root == Comps(g.basepath) && LaidFor(t, g, pieces, i, j) && g.fs == TrapFs(t)
    ensures Expand(g, true, 0, pieces) == Expand(g, true, i, pieces)
  {
    FirstPieces(t, g, pieces, i, j);
    RunOnDeadEnd(t, g, i, 0, i, pieces);
    var result := WalkLiterals(g, true, 0, i, pieces);
  }

  lemma PassFork(g: Glob, pieces: seq<string>, i: nat, a: string, b: string, below: (seq<string>, seq<string>))
    requires StarFree(g.fs) && i < |pieces| - 1 && MoveAt(g, i, pieces) == Branch
    requires DirNames(g, PathString(pieces[..i]), pieces[i]) == [a, b]
    requires Stars(a) == 0 && Stars(b) == 0 && below == ExpandDirs(g, true, i, pieces, [a, b])
    ensures Expand(g, true, i, pieces).0 == below.0
  {
    DirNamesStarFree(g, PathString(pieces[..i]), pieces[i]);
    ExpandBranch(g, true, i, pieces, below);
    NoFilesYet(g, i, pieces);
    assert below.0 + [] == below.0;
  }

  lemma FileIsMissed(t: Trap, g: Glob, pieces: seq<string>, i: nat, j: nat)
    requires Usable(g) && t.root == Comps(g.basepath) && LaidFor(t, g, pieces, i, j)
    requires g == TrapGlob(t, g.basepath, g.matches)
    ensures Join(t.b) !in Expand(g, true, 0, pieces).0
  {
    ReachFork(t, g, pieces, i, j);
    FirstPieces(t, g, pieces, i, j);
    assert Fits(g, pieces[i], t.b[i]);
    ForkSeen(t, g, pieces, i);
    ForkBranches(t, g, pieces, i, j);
    var below := MissedByBoth(t, g, pieces, i, j);
    PassFork(g, pieces, i, t.a[i], t.b[i], below);
  }

  lemma MissedByBoth(t: Trap, g: Glob, pieces: seq<string>, i: nat, j: nat)
    returns (below: (seq<string>, seq<string>))
    requires Usable(g) && t.root == Comps(g.basepath) && LaidFor(t, g, pieces, i, j)
    requires g == TrapGlob(t, g.basepath, g.matches)
    ensures below == ExpandDirs(g, true, i, pieces, [t.a[i], t.b[i]])
    ensures Join(t.b) !in below.0
  {
    var now := pieces[i := t.a[i]];
    FirstPieces(t, g, pieces, i, j);
    var first := DeadEndOverwrites(t, g, pieces, i, j);
    NotObeying(now, first.0, t.b, i);
    var later := first.1[i := t.b[i]];
    assert AllOrdinary(later);
    var second := SearchObeys(g, true, i, later);
    NotObeying(later, second.0, t.b, j);
    below := TwoDirectories(g, i, pieces, t.a[i], t.b[i], first, second);
  }

  lemma TwoDirectories(g: Glob, i: nat, pieces: seq<string>, a: string, b: string,
                       first: (seq<string>, seq<string>), second: (seq<string>, seq<string>))
    returns (below: (seq<string>, seq<string>))
    requires StarFree(g.fs) && i < |pieces| && Stars(a) == 0 && Stars(b) == 0
    requires first == Expand(g, true, i, pieces[i := a]) && second == Expand(g, true, i, first.1[i := b])
    ensures below == ExpandDirs(g, true, i, pieces, [a, b])
    ensures below == (first.0 + second.0, second.1)
  {
    assert [a, b][1..] == [b] && [b][1..] == [];
    assert ExpandDirs(g, true, i, second.1, []) == ([], second.1);
    assert ExpandDirs(g, true, i, first.1, [b]) == (second.0 + [], second.1);
    assert second.0 + [] == second.0;
    below := (first.0 + second.0, second.1);
  }

  lemma FileIsWanted(t: Trap, g: Glob, pieces: seq<string>, i: nat, j: nat)
    requires Usable(g) && t.root == Comps(g.basepath) && LaidFor(t, g, pieces, i, j) && g.fs == TrapFs(t)
    ensures Join(t.b) in Wanted(g, 0, pieces)
  {
    FileIsRegular(t, g, i);
    FileFits(t, g, pieces, i, j);
    FittingIsWanted(g, t.b, pieces);
  }

  lemma FileFits(t: Trap, g: Glob, pieces: seq<string>, i: nat, j: nat)
    requires LaidFor(t, g, pieces, i, j)
    ensures |t.b| == |pieces| && AllOrdinary(t.b) && AllFit(g, 0, pieces, t.b)
  {
  }

  lemma FittingIsWanted(g: Glob, f: seq<string>, pieces: seq<string>)
    requires Regular(g, f) && AllOrdinary(f) && |f| == |pieces| && AllFit(g, 0, pieces, f)
    ensures Join(f) in Wanted(g, 0, pieces)
  {
    SplitJoin(f);
  }

  lemma FileIsRegular(t: Trap, g: Glob, i: nat)
    requires t.root == Comps(g.basepath) && Parted(t, i) && g.fs == TrapFs(t)
    ensures Regular(g, t.b)
  {
    TrapDir(t, i, |t.b| - 1);
    LocatedPlain(g, t.b);
    LocatedPlain(g, t.b[..|t.b| - 1]);
  }

  // ----- for every pattern -----

  predicate GoodName(matches: (string, string) -> bool, piece: string, x: string) {
    Plain(x) && Stars(x) == 0 && (|piece| > 1 ==> matches(piece, x))
  }

  /** Every wildcard of the pattern has at least two names to stand for. */
  ghost predicate Ample(matches: (string, string) -> bool, pieces: seq<string>) {
    forall k | 0 <= k < |pieces| && Wild(pieces[k]) ::
      exists a, b :: a != b && GoodName(matches, pieces[k], a) && GoodName(matches, pieces[k], b)
  }

  predicate OneStarEach(pieces: seq<string>) {
    forall k | 0 <= k < |pieces| :: Plain(pieces[k]) && Stars(pieces[k]) <= 1
  }

  lemma InOrder(matches: (string, string) -> bool, piece: string) returns (lo: string, hi: string)
    requires exists a, b :: a != b && GoodName(matches, piece, a) && GoodName(matches, piece, b)
    ensures lo != hi && AtMost(lo, hi) && GoodName(matches, piece, lo) && GoodName(matches, piece, hi)
  {
    lo, hi :| lo != hi && GoodName(matches, piece, lo) && GoodName(matches, piece, hi);
    AtMostTotal(lo, hi);
    if !AtMost(lo, hi) {
      lo, hi := hi, lo;
    }
  }

  lemma {:induction false} Filled(matches: (string, string) -> bool, pieces: seq<string>) returns (names: seq<string>)
    requires OneStarEach(pieces) && Ample(matches, pieces)
    ensures |names| == |pieces|
    ensures forall k | 0 <= k < |pieces| ::
              if Wild(pieces[k]) then GoodName(matches, pieces[k], names[k]) else names[k] == pieces[k]
  {
    names := [];
    if pieces != [] {
      var first := pieces[0];
      if Wild(first) {
        var lo, hi := InOrder(matches, first);
        first := lo;
      }
      var rest := Filled(matches, pieces[1..]);
      names := [first] + rest;
    }
  }

  /** Any two wildcards, none before the second but the first, get their trap. */
  lemma LayTrap(root: Path, g0: Glob, pieces: seq<string>, i: nat, j: nat) returns (t: Trap)
    requires OneStarEach(pieces) && Ample(g0.matches, pieces) && i < j < |pieces|
    requires Wild(pieces[i]) && Wild(pieces[j]) && (forall k | 0 <= k < j && k != i :: !Wild(pieces[k]))
    requires forall k | 0 <= k < |root| :: Plain(root[k]) && Stars(root[k]) == 0
    ensures t.root == root && LaidFor(t, g0, pieces, i, j)
  {
    var names := Filled(g0.matches, pieces);
    var d1, d2 := InOrder(g0.matches, pieces[i]);
    var x, y := InOrder(g0.matches, pieces[j]);
    var a := names[..j + 1][i := d1][j := x];
    var b := names[i := d2][j := y];
    t := Trap(root, a, b);
    assert Parted(t, i);
    forall k | 0 <= k < |pieces|
      ensures Fits(g0, pieces[k], t.b[k])
    {
    }
  }

  lemma FirstTwo(pieces: seq<string>) returns (i: nat, j: nat)
    requires !AtMostOneWild(pieces, 0)
    ensures i < j < |pieces| && Wild(pieces[i]) && Wild(pieces[j])
    ensures forall k | 0 <= k < j && k != i :: !Wild(pieces[k])
  {
    i := FirstFrom(pieces, 0);
    j := FirstFrom(pieces, i + 1);
  }

  lemma FirstFrom(pieces: seq<string>, from: nat) returns (i: nat)
    requires !NoWild(pieces, from)
    ensures from <= i < |pieces| && Wild(pieces[i]) && forall k | from <= k < i :: !Wild(pieces[k])
    decreases |pieces| - from
  {
    i := from;
    if !Wild(pieces[i]) {
      i := FirstFrom(pieces, from + 1);
    }
  }

  lemma TwoWildcardsMiss(pieces: seq<string>, basepath: string, matches: (string, string) -> bool) returns (g: Glob)
    requires HasSuffix(basepath, "/") && OneStarEach(pieces) && Ample(matches, pieces)
    requires forall k | 0 <= k < |Comps(basepath)| :: Plain(Comps(basepath)[k]) && Stars(Comps(basepath)[k]) == 0
    requires !AtMostOneWild(pieces, 0)
    ensures Usable(g) && g.basepath == basepath && g.matches == matches
    ensures exists s :: s in Wanted(g, 0, pieces) && s !in Expand(g, true, 0, pieces).0
  {
    var i, j := FirstTwo(pieces);
    var t := LayTrap(Comps(basepath), Glob(map[], p => [], basepath, matches), pieces, i, j);
    g := TrapGlob(t, basepath, matches);
    TrapUsable(t, i, basepath, matches);
    SameTrap(t, Glob(map[], p => [], basepath, matches), g, pieces, i, j);
    FileIsWanted(t, g, pieces, i, j);
    FileIsMissed(t, g, pieces, i, j);
  }

  lemma SameTrap(t: Trap, g0: Glob, g: Glob, pieces: seq<string>, i: nat, j: nat)
    requires g.matches == g0.matches && LaidFor(t, g0, pieces, i, j)
    ensures LaidFor(t, g, pieces, i, j)
  {
    forall k | 0 <= k < |pieces|
      ensures Fits(g, pieces[k], t.b[k])
    {
      assert Fits(g0, pieces[k], t.b[k]);
    }
  }

  /** Whether the search of the program lists exactly the wanted files of every tree depends on the pattern alone. */
  lemma SharedSearchExactIff(pieces: seq<string>, basepath: string, matches: (string, string) -> bool)
    requires HasSuffix(basepath, "/") && OneStarEach(pieces) && Ample(matches, pieces)
    requires forall k | 0 <= k < |Comps(basepath)| :: Plain(Comps(basepath)[k]) && Stars(Comps(basepath)[k]) == 0
    ensures (forall g {:trigger Usable(g)} | Usable(g) && g.basepath == basepath && g.matches == matches ::
               Lists(Expand(g, true, 0, pieces).0, Wanted(g, 0, pieces)))
            <==> AtMostOneWild(pieces, 0)
  {
    if AtMostOneWild(pieces, 0) {
      forall g | Usable(g) && g.basepath == basepath && g.matches == matches
        ensures Lists(Expand(g, true, 0, pieces).0, Wanted(g, 0, pieces))
      {
        SharedIsExact(g, pieces);
      }
    } else {
      var g := TwoWildcardsMiss(pieces, basepath, matches);
    }
  }

  /** With at most one wildcard piece the program lists exactly the files that fit, on every tree. */
  lemma SharedIsExact(g: Glob, pieces: seq<string>)
    requires Usable(g) && AllOrdinary(pieces) && AtMostOneWild(pieces, 0)
    ensures Lists(Expand(g, true, 0, pieces).0, Wanted(g, 0, pieces))
  {
    assert Located(g, pieces[..0]) == Comps(g.basepath);
    var paths := CopiedSearch(g, 0, pieces);
    SharingIsHarmless(g, 0, pieces);
  }

  /** The copying search lists exactly the files that fit, for any number of wildcards. */
  lemma CopiedIsExact(g: Glob, pieces: seq<string>)
    requires Usable(g) && AllOrdinary(pieces)
    ensures Lists(Expand(g, false, 0, pieces).0, Wanted(g, 0, pieces))
  {
    assert Located(g, pieces[..0]) == Comps(g.basepath);
    var paths := CopiedSearch(g, 0, pieces);
  }
}
