module Options {
  datatype Option<+T> = None | Some(value: T)
}

/** Directory listings come back sorted by name, as `afero.ReadDir` returns them. */
module SortedNames {
  import opened Sequences

  predicate AtMost(a: string, b: string) {
    a == [] || (b != [] && (a[0] < b[0] || (a[0] == b[0] && AtMost(a[1..], b[1..]))))
  }

  lemma {:induction false} AtMostTotal(a: string, b: string)
    ensures AtMost(a, b) || AtMost(b, a)
    ensures AtMost(a, b) && AtMost(b, a) ==> a == b
  {
    if a != [] && b != [] && a[0] == b[0] {
      AtMostTotal(a[1..], b[1..]);
      assert a == [a[0]] + a[1..] && b == [b[0]] + b[1..];
    }
  }

  lemma {:induction false} AtMostTransitive(a: string, b: string, c: string)
    requires AtMost(a, b) && AtMost(b, c)
    ensures AtMost(a, c)
  {
    if a != [] && a[0] == b[0] && b[0] == c[0] {
      AtMostTransitive(a[1..], b[1..], c[1..]);
    }
  }

  ghost predicate IsLeast(m: string, names: set<string>) {
    m in names && forall x :: x in names ==> AtMost(m, x)
  }

  lemma {:induction false} LeastExists(names: set<string>)
    requires names != {}
    ensures exists m :: IsLeast(m, names)
  {
    var x :| x in names;
    var rest := names - {x};
    if rest == {} {
      AtMostTotal(x, x);
      assert names == {x};
      assert IsLeast(x, names);
    } else {
      LeastExists(rest);
      var m :| IsLeast(m, rest);
      AtMostTotal(x, m);
      AtMostTotal(x, x);
      if AtMost(m, x) {
        assert IsLeast(m, names);
      } else {
        forall y | y in names
          ensures AtMost(x, y)
        {
          if y != x { AtMostTransitive(x, m, y); }
        }
        assert IsLeast(x, names);
      }
    }
  }

  function Least(names: set<string>): (m: string)
    requires names != {}
    ensures IsLeast(m, names)
  {
    LeastExists(names);
    assert forall a, b | a in names && b in names :: AtMost(a, b) && AtMost(b, a) ==> a == b by {
      forall a, b { AtMostTotal(a, b); }
    }
    var m :| m in names && forall x :: x in names ==> AtMost(m, x);
    m
  }

  ghost predicate Distinct<T>(s: seq<T>) {
    forall i, j :: 0 <= i < j < |s| ==> s[i] != s[j]
  }

  /** Every name once, in increasing order. */
  function Sorted(names: set<string>): (r: seq<string>)
    ensures forall x :: x in r <==> x in names
    ensures Distinct(r)
    ensures forall i, j :: 0 <= i <= j < |r| ==> AtMost(r[i], r[j])
  {
    if names == {} then []
    else
      var m := Least(names);
      AtMostTotal(m, m);
      [m] + Sorted(names - {m})
  }

  lemma {:induction false} DistinctSize(names: seq<string>)
    requires Distinct(names)
    ensures |Elements(names)| == |names|
  {
    if names != [] {
      DistinctSize(names[1..]);
      assert Elements(names) == {names[0]} + Elements(names[1..]);
    }
  }

  lemma OneName(names: seq<string>, a: string)
    requires Distinct(names) && forall x :: x in names <==> x == a
    ensures names == [a]
  {
    DistinctSize(names);
    assert Elements(names) == {a};
    assert names[0] in names;
  }

  lemma TwoNames(names: seq<string>, a: string, b: string)
    requires Distinct(names) && a != b && forall x :: x in names <==> x == a || x == b
    ensures names == [a, b] || names == [b, a]
  {
    DistinctSize(names);
    assert Elements(names) == {a, b};
    assert names[0] in names && names[1] in names;
  }
}

/** The file system as a map from component paths to entries, and the calls the program makes on it.
    `None` stands for a call that returns an error and changes nothing. */
module FileSystem {
  import opened Options
  import opened SortedNames

  type Path = seq<string>

  datatype Entry = File(content: string) | Dir

  type FS = map<Path, Entry>

  function Parent(p: Path): Path
    requires p != []
  {
    p[..|p| - 1]
  }

  function Get(fs: FS, p: Path): Option<Entry> {
    if p in fs then Some(fs[p]) else None
  }

  predicate IsDir(fs: FS, p: Path) {
    p in fs && fs[p].Dir?
  }

  predicate IsFile(fs: FS, p: Path) {
    p in fs && fs[p].File?
  }

  /** Every entry sits in an existing directory. */
  ghost predicate WellFormed(fs: FS) {
    IsDir(fs, []) && forall p {:trigger Parent(p)} :: p in fs && p != [] ==> IsDir(fs, Parent(p))
  }

  lemma {:induction false} PrefixIsDir(fs: FS, p: Path, k: nat)
    requires WellFormed(fs) && p in fs && k < |p|
    ensures IsDir(fs, p[..k])
    decreases |p|
  {
    assert IsDir(fs, Parent(p));
    if k < |p| - 1 {
      PrefixIsDir(fs, Parent(p), k);
      assert Parent(p)[..k] == p[..k];
    }
  }

  function NamesIn(fs: FS, p: Path): set<string> {
    set q | q in fs && |q| == |p| + 1 && p <= q :: q[|p|]
  }

  lemma NamesInExact(fs: FS, p: Path, name: string)
    ensures name in NamesIn(fs, p) <==> p + [name] in fs
  {
    if name in NamesIn(fs, p) {
      var q :| q in fs && |q| == |p| + 1 && p <= q && q[|p|] == name;
      assert q == p + [name];
    }
    if p + [name] in fs {
      assert (p + [name])[|p|] == name;
    }
  }

  /** `afero.ReadDir`: the names directly below a directory, sorted. */
  function ReadDir(fs: FS, p: Path): (names: seq<string>)
    ensures forall x :: x in names <==> p + [x] in fs
    ensures Distinct(names)
  {
    assert forall x :: x in NamesIn(fs, p) <==> p + [x] in fs by {
      forall x { NamesInExact(fs, p, x); }
    }
    Sorted(NamesIn(fs, p))
  }

  /** `FS.MkdirAll`: fails exactly when a regular file is in the way. */
  function MkdirAll(fs: FS, p: Path): (r: Option<FS>) {
    if p in fs then (if fs[p].Dir? then Some(fs) else None)
    else if p == [] then Some(fs[p := Dir])
    else match MkdirAll(fs, Parent(p))
      case None => None
      case Some(above) => Some(above[p := Dir])
  }

  predicate FreeOfFiles(fs: FS, p: Path) {
    forall k :: 0 <= k <= |p| ==> !IsFile(fs, p[..k])
  }

  /** `MkdirAll` succeeds exactly when no prefix is a file; then it adds the missing prefixes and nothing else. */
  lemma {:induction false} MkdirAllEffect(fs: FS, p: Path)
    requires WellFormed(fs)
    ensures MkdirAll(fs, p).Some? <==> FreeOfFiles(fs, p)
    ensures MkdirAll(fs, p).Some? ==> WellFormed(MkdirAll(fs, p).value)
    ensures MkdirAll(fs, p).Some? ==>
              forall q :: Get(MkdirAll(fs, p).value, q) == if q <= p && q !in fs then Some(Dir) else Get(fs, q)
    decreases |p|
  {
    if p in fs {
      assert p[..|p|] == p;
      forall k | 0 <= k < |p|
        ensures !IsFile(fs, p[..k])
      {
        PrefixIsDir(fs, p, k);
      }
      forall q | q <= p
        ensures q in fs
      {
        assert q == p[..|q|];
        if |q| < |p| { PrefixIsDir(fs, p, |q|); }
      }
    } else {
      MkdirAllEffect(fs, Parent(p));
      forall k | 0 <= k < |p|
        ensures p[..k] == Parent(p)[..k]
      {
      }
      assert p[..|p|] == p;
      if MkdirAll(fs, p).Some? {
        var above := MkdirAll(fs, Parent(p)).value;
        assert Parent(p)[..|p| - 1] == Parent(p);
        assert Get(above, Parent(p)) == Some(Dir);
        MkdirAllStep(fs, p, above);
      }
    }
  }

  lemma MkdirAllStep(fs: FS, p: Path, above: FS)
    requires p != [] && p !in fs && WellFormed(above) && IsDir(above, Parent(p))
    requires forall q :: Get(above, q) == if q <= Parent(p) && q !in fs then Some(Dir) else Get(fs, q)
    ensures WellFormed(above[p := Dir])
    ensures forall q :: Get(above[p := Dir], q) == if q <= p && q !in fs then Some(Dir) else Get(fs, q)
  {
    var made := above[p := Dir];
    forall q
      ensures Get(made, q) == if q <= p && q !in fs then Some(Dir) else Get(fs, q)
    {
      if q <= p && q != p {
        assert q <= Parent(p);
      }
    }
    forall q | q in made && q != []
      ensures IsDir(made, Parent(q))
    {
      if q == p {
      } else {
        assert IsDir(above, Parent(q));
      }
    }
  }

  /** `afero.WriteFile` and the create-and-copy of `AferoCopyFile`: needs a directory to hold the file
      and no directory in its place. */
  function WriteFile(fs: FS, p: Path, content: string): (r: Option<FS>) {
    if p == [] || !IsDir(fs, Parent(p)) || IsDir(fs, p) then None
    else Some(fs[p := File(content)])
  }

  /** `osutil.AferoCopyFile`. Creating the destination truncates it, so copying a file onto itself empties it. */
  function CopyFile(fs: FS, src: Path, dst: Path): (r: Option<FS>) {
    if !IsFile(fs, src) then None
    else if src == dst then WriteFile(fs, dst, "")
    else WriteFile(fs, dst, fs[src].content)
  }

  /** A copied file is like its original, unless it is its original: then it is emptied. */
  lemma CopyFileMeans(fs: FS, src: Path, dst: Path)
    requires WellFormed(fs)
    ensures CopyFile(fs, src, dst).Some?
            <==> IsFile(fs, src) && dst != [] && IsDir(fs, dst[..|dst| - 1]) && !IsDir(fs, dst)
    ensures CopyFile(fs, src, dst).Some? ==>
              forall p :: Get(CopyFile(fs, src, dst).value, p)
                          == if p == dst then (if src == dst then Some(File("")) else Get(fs, src)) else Get(fs, p)
  {
  }

  lemma WriteFileKeepsForm(fs: FS, p: Path, content: string)
    requires WellFormed(fs) && WriteFile(fs, p, content).Some?
    ensures WellFormed(WriteFile(fs, p, content).value)
  {
    var after := WriteFile(fs, p, content).value;
    forall q | q in after && q != []
      ensures IsDir(after, Parent(q))
    {
      assert q == p || q in fs;
    }
  }
}
