/** What the search for mutants finds on any file system, and where it stops. */
module ScanMeaning {
  import opened Options
  import opened SortedNames
  import opened FileSystem
  import opened Text
  import opened Names
  import opened MutateRun
  import opened MutantScan

  /** A directory named like a mutant, without the file its name speaks of: an error that ends the loop over the
      directory it lies in. */
  predicate Stops(fs: FS, dir: Path, pathSoFar: string, x: string) {
    && IsDir(fs, dir + [x]) && IsMutant(x)
    && match GetMutatedFileRelativePath(pathSoFar, x)
       case None => true
       case Some(original) => !IsFile(fs, dir + [x] + Comps(original))
  }

  /** No entry of the directory that is listed before `x` ends the loop. */
  ghost predicate GetsTo(fs: FS, dir: Path, pathSoFar: string, x: string) {
    forall y | dir + [y] in fs && y != x && AtMost(y, x) :: !Stops(fs, dir, pathSoFar, y)
  }

  /** The mutant `x` in the directory gives the entry: its file is there, and the original is wanted. */
  predicate Gives(fs: FS, files: set<string>, dir: Path, pathSoFar: string, x: string, info: MutantInfo) {
    && IsDir(fs, dir + [x]) && IsMutant(x)
    && match GetMutatedFileRelativePath(pathSoFar, x)
       case None => false
       case Some(original) =>
         && original in files && IsFile(fs, dir + [x] + Comps(original))
         && info == MutantInfo(original, dir + [x], dir + [x] + Comps(original))
  }

  /** `way` leads down through directories that are no mutants to one that gives the entry, and the loop gets to each
      of them. */
  ghost predicate FoundAlong(fs: FS, files: set<string>, dir: Path, pathSoFar: string, way: seq<string>,
                             info: MutantInfo)
    decreases |way|
  {
    way != [] && IsDir(fs, dir) && GetsTo(fs, dir, pathSoFar, way[0]) &&
    if |way| == 1 then Gives(fs, files, dir, pathSoFar, way[0], info)
    else
      && IsDir(fs, dir + [way[0]]) && !IsMutant(way[0])
      && FoundAlong(fs, files, dir + [way[0]], AppendFolder(pathSoFar, way[0]), way[1..], info)
  }

  ghost predicate Leads(fs: FS, files: set<string>, dir: Path, pathSoFar: string, way: seq<string>, info: MutantInfo) {
    FoundAlong(fs, files, dir, pathSoFar, way, info)
  }

  // ----- one loop -----

  /** What the entry `x` contributes when the loop gets to it. */
  predicate Contributes(fs: FS, files: set<string>, dir: Path, pathSoFar: string, x: string, info: MutantInfo) {
    Gives(fs, files, dir, pathSoFar, x, info)
    || (IsDir(fs, dir + [x]) && !IsMutant(x)
        && info in Scan(fs, files, dir + [x], AppendFolder(pathSoFar, x)).mutants)
  }

  ghost predicate ContributesAt(fs: FS, files: set<string>, dir: Path, pathSoFar: string, names: seq<string>, i: nat,
                                info: MutantInfo) {
    && i < |names| && (forall j | 0 <= j < i :: !Stops(fs, dir, pathSoFar, names[j]))
    && Contributes(fs, files, dir, pathSoFar, names[i], info)
  }

  lemma CreatedIff(fs: FS, files: set<string>, dir: Path, pathSoFar: string, x: string)
    requires IsDir(fs, dir + [x]) && IsMutant(x)
    ensures var creation := CreateNewMutantInfo(fs, files, pathSoFar, dir, x);
            && (creation.Unreadable? <==> Stops(fs, dir, pathSoFar, x))
            && forall info :: creation == Created(info) <==> Gives(fs, files, dir, pathSoFar, x, info)
  {
  }

  /** The first entry of the list, and the rest. */
  lemma FirstEntry(fs: FS, files: set<string>, dir: Path, pathSoFar: string, names: seq<string>, info: MutantInfo)
    requires IsDir(fs, dir) && names != []
    ensures var all, rest := ScanEntries(fs, files, dir, pathSoFar, names),
                             ScanEntries(fs, files, dir, pathSoFar, names[1..]);
            if Stops(fs, dir, pathSoFar, names[0]) then all == Scanned([], true)
            else
              && all.failed == rest.failed
              && (info in all.mutants
                  <==> Contributes(fs, files, dir, pathSoFar, names[0], info) || info in rest.mutants)
  {
    var x := names[0];
    if IsDir(fs, dir + [x]) && IsMutant(x) {
      CreatedIff(fs, files, dir, pathSoFar, x);
    }
  }

  lemma StopsContributesNothing(fs: FS, files: set<string>, dir: Path, pathSoFar: string, x: string, info: MutantInfo)
    requires Stops(fs, dir, pathSoFar, x)
    ensures !Contributes(fs, files, dir, pathSoFar, x, info)
  {
  }

  lemma {:induction false} EntriesMean(fs: FS, files: set<string>, dir: Path, pathSoFar: string, names: seq<string>,
                                       info: MutantInfo)
    requires IsDir(fs, dir)
    ensures var all := ScanEntries(fs, files, dir, pathSoFar, names);
            && (all.failed <==> exists i | 0 <= i < |names| :: Stops(fs, dir, pathSoFar, names[i]))
            && (info in all.mutants <==> exists i: nat :: ContributesAt(fs, files, dir, pathSoFar, names, i, info))
    decreases |names|
  {
    if names != [] {
      var rest := names[1..];
      FirstEntry(fs, files, dir, pathSoFar, names, info);
      EntriesMean(fs, files, dir, pathSoFar, rest, info);
      if Stops(fs, dir, pathSoFar, names[0]) {
        StopsContributesNothing(fs, files, dir, pathSoFar, names[0], info);
        assert forall i: nat :: !ContributesAt(fs, files, dir, pathSoFar, names, i, info);
      } else {
        if i: nat :| ContributesAt(fs, files, dir, pathSoFar, names, i, info) && i > 0 {
          LaterEntry(fs, files, dir, pathSoFar, names, i - 1, info);
        }
        if i: nat :| ContributesAt(fs, files, dir, pathSoFar, rest, i, info) {
          LaterEntry(fs, files, dir, pathSoFar, names, i, info);
        }
        if Contributes(fs, files, dir, pathSoFar, names[0], info) {
          assert ContributesAt(fs, files, dir, pathSoFar, names, 0, info);
        }
        if i :| 0 <= i < |rest| && Stops(fs, dir, pathSoFar, rest[i]) {
          assert names[i + 1] == rest[i];
        }
        if i :| 0 <= i < |names| && Stops(fs, dir, pathSoFar, names[i]) {
          assert rest[i - 1] == names[i];
        }
      }
    }
  }

  lemma LaterEntry(fs: FS, files: set<string>, dir: Path, pathSoFar: string, names: seq<string>, i: nat,
                   info: MutantInfo)
    requires names != [] && !Stops(fs, dir, pathSoFar, names[0])
    ensures ContributesAt(fs, files, dir, pathSoFar, names[1..], i, info)
            <==> ContributesAt(fs, files, dir, pathSoFar, names, i + 1, info)
  {
    var rest := names[1..];
    if i < |rest| {
      assert rest[i] == names[i + 1];
      if forall j | 0 <= j < i :: !Stops(fs, dir, pathSoFar, rest[j]) {
        forall j | 0 <= j < i + 1
          ensures !Stops(fs, dir, pathSoFar, names[j])
        {
          if j > 0 { assert names[j] == rest[j - 1]; }
        }
      }
      if forall j | 0 <= j < i + 1 :: !Stops(fs, dir, pathSoFar, names[j]) {
        forall j | 0 <= j < i
          ensures !Stops(fs, dir, pathSoFar, rest[j])
        {
          assert rest[j] == names[j + 1];
        }
      }
    }
  }

  // ----- one directory -----

  /** Being listed before is being smaller. */
  lemma ListedBefore(names: seq<string>, i: nat, j: nat)
    requires Distinct(names) && (forall a, b :: 0 <= a <= b < |names| ==> AtMost(names[a], names[b]))
    requires i < |names| && j < |names|
    ensures j < i <==> names[j] != names[i] && AtMost(names[j], names[i])
  {
    AtMostTotal(names[i], names[j]);
  }

  lemma PlaceGetsTo(fs: FS, dir: Path, pathSoFar: string, names: seq<string>, i: nat)
    requires names == ReadDir(fs, dir) && i < |names|
    ensures GetsTo(fs, dir, pathSoFar, names[i]) <==> forall j | 0 <= j < i :: !Stops(fs, dir, pathSoFar, names[j])
  {
    ReadDirSorted(fs, dir);
    if GetsTo(fs, dir, pathSoFar, names[i]) {
      forall j | 0 <= j < i
        ensures !Stops(fs, dir, pathSoFar, names[j])
      {
        ListedBefore(names, i, j);
        assert names[j] in names;
      }
    }
    if forall j | 0 <= j < i :: !Stops(fs, dir, pathSoFar, names[j]) {
      forall y | dir + [y] in fs && y != names[i] && AtMost(y, names[i])
        ensures !Stops(fs, dir, pathSoFar, y)
      {
        assert y in names;
        var j: nat :| j < |names| && names[j] == y;
        ListedBefore(names, i, j);
      }
    }
  }

  lemma EntryMeans(fs: FS, files: set<string>, dir: Path, pathSoFar: string, names: seq<string>, info: MutantInfo)
    requires names == ReadDir(fs, dir)
    ensures (exists i: nat :: ContributesAt(fs, files, dir, pathSoFar, names, i, info))
            <==> exists x :: GetsTo(fs, dir, pathSoFar, x) && Contributes(fs, files, dir, pathSoFar, x, info)
  {
    if i: nat :| ContributesAt(fs, files, dir, pathSoFar, names, i, info) {
      PlaceGetsTo(fs, dir, pathSoFar, names, i);
      assert GetsTo(fs, dir, pathSoFar, names[i]) && Contributes(fs, files, dir, pathSoFar, names[i], info);
    }
    if x :| GetsTo(fs, dir, pathSoFar, x) && Contributes(fs, files, dir, pathSoFar, x, info) {
      assert x in names;
      var i: nat :| i < |names| && names[i] == x;
      PlaceGetsTo(fs, dir, pathSoFar, names, i);
      assert ContributesAt(fs, files, dir, pathSoFar, names, i, info);
    }
  }

  lemma SomeStops(fs: FS, dir: Path, pathSoFar: string, names: seq<string>)
    requires names == ReadDir(fs, dir)
    ensures (exists i | 0 <= i < |names| :: Stops(fs, dir, pathSoFar, names[i]))
            <==> exists x :: dir + [x] in fs && Stops(fs, dir, pathSoFar, x)
  {
    if x :| dir + [x] in fs && Stops(fs, dir, pathSoFar, x) {
      assert x in names;
    }
    if i :| 0 <= i < |names| && Stops(fs, dir, pathSoFar, names[i]) {
      assert names[i] in names;
    }
  }

  lemma DirectoryMeans(fs: FS, files: set<string>, dir: Path, pathSoFar: string, info: MutantInfo)
    returns (all: Scanned)
    requires IsDir(fs, dir)
    ensures all == Scan(fs, files, dir, pathSoFar)
    ensures all.failed <==> exists x :: dir + [x] in fs && Stops(fs, dir, pathSoFar, x)
    ensures info in all.mutants
            <==> exists x :: GetsTo(fs, dir, pathSoFar, x) && Contributes(fs, files, dir, pathSoFar, x, info)
  {
    var names := ReadDir(fs, dir);
    all := ScanEntries(fs, files, dir, pathSoFar, names);
    EntriesMean(fs, files, dir, pathSoFar, names, info);
    EntryMeans(fs, files, dir, pathSoFar, names, info);
    SomeStops(fs, dir, pathSoFar, names);
  }

  lemma ReadDirSorted(fs: FS, dir: Path)
    ensures forall a, b :: 0 <= a <= b < |ReadDir(fs, dir)| ==> AtMost(ReadDir(fs, dir)[a], ReadDir(fs, dir)[b])
  {
  }

  // ----- the whole search -----

  /** The search finds an entry if and only if a way leads to it; and it reports an error if and only if the directory
      it starts in cannot be listed or itself holds a mutant without its file. */
  lemma {:induction false} ScanMeans(fs: FS, files: set<string>, dir: Path, pathSoFar: string, info: MutantInfo)
    returns (all: Scanned)
    ensures all == Scan(fs, files, dir, pathSoFar)
    ensures all.failed <==> !IsDir(fs, dir) || exists x :: dir + [x] in fs && Stops(fs, dir, pathSoFar, x)
    ensures info in all.mutants <==> exists way :: Leads(fs, files, dir, pathSoFar, way, info)
    decreases |Below(fs, dir)|, 1
  {
    if !IsDir(fs, dir) {
      all := Scanned([], true);
    } else {
      all := DirectoryMeans(fs, files, dir, pathSoFar, info);
      WaysMean(fs, files, dir, pathSoFar, info);
    }
  }

  lemma {:induction false} WaysMean(fs: FS, files: set<string>, dir: Path, pathSoFar: string, info: MutantInfo)
    requires IsDir(fs, dir)
    ensures (exists x :: GetsTo(fs, dir, pathSoFar, x) && Contributes(fs, files, dir, pathSoFar, x, info))
            <==> exists way :: Leads(fs, files, dir, pathSoFar, way, info)
    decreases |Below(fs, dir)|, 0, 1
  {
    if x :| GetsTo(fs, dir, pathSoFar, x) && Contributes(fs, files, dir, pathSoFar, x, info) {
      var way := WayDown(fs, files, dir, pathSoFar, x, info);
      assert Leads(fs, files, dir, pathSoFar, way, info);
    }
    if way :| Leads(fs, files, dir, pathSoFar, way, info) {
      WayContributes(fs, files, dir, pathSoFar, way, info);
      assert GetsTo(fs, dir, pathSoFar, way[0]) && Contributes(fs, files, dir, pathSoFar, way[0], info);
    }
  }

  lemma {:induction false} WayDown(fs: FS, files: set<string>, dir: Path, pathSoFar: string, x: string,
                                   info: MutantInfo) returns (way: seq<string>)
    requires IsDir(fs, dir) && GetsTo(fs, dir, pathSoFar, x) && Contributes(fs, files, dir, pathSoFar, x, info)
    ensures FoundAlong(fs, files, dir, pathSoFar, way, info)
    decreases |Below(fs, dir)|, 0, 0
  {
    way := [x];
    if !Gives(fs, files, dir, pathSoFar, x, info) {
      FewerInside(fs, dir, x);
      var inner := ScanMeans(fs, files, dir + [x], AppendFolder(pathSoFar, x), info);
      var rest :| Leads(fs, files, dir + [x], AppendFolder(pathSoFar, x), rest, info);
      way := [x] + rest;
      assert way[1..] == rest;
    }
  }

  lemma {:induction false} WayContributes(fs: FS, files: set<string>, dir: Path, pathSoFar: string, way: seq<string>,
                                          info: MutantInfo)
    requires IsDir(fs, dir) && FoundAlong(fs, files, dir, pathSoFar, way, info)
    ensures GetsTo(fs, dir, pathSoFar, way[0]) && Contributes(fs, files, dir, pathSoFar, way[0], info)
    decreases |Below(fs, dir)|, 0, 0
  {
    if |way| > 1 {
      FewerInside(fs, dir, way[0]);
      var inner := ScanMeans(fs, files, dir + [way[0]], AppendFolder(pathSoFar, way[0]), info);
      assert Leads(fs, files, dir + [way[0]], AppendFolder(pathSoFar, way[0]), way[1..], info);
      assert info in inner.mutants;
    } else {
      assert |way| == 1;
      assert Gives(fs, files, dir, pathSoFar, way[0], info);
    }
  }
}
