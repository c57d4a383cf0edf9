/** When `copyRecursive` returns an error: exactly if a file would have to take the place of a directory, or a directory
    that of a file. */
module CopyOutcome {
  import opened Options
  import opened SortedNames
  import opened FileSystem
  import opened CopyRules
  import opened TreeCopy
  import opened CopyUtils
  import opened Backup

  // ----- no call changes what kind an entry is of -----

  lemma FileKeepsKinds(fs: FS, src: Path, dst: Path)
    ensures CopyFile(fs, src, dst).Some? ==>
              KindsKept(fs, CopyFile(fs, src, dst).value) && IsFile(CopyFile(fs, src, dst).value, dst)
  {
  }

  lemma KeptThrough(a: FS, b: FS, c: FS)
    requires KindsKept(a, b) && KindsKept(b, c)
    ensures KindsKept(a, c)
  {
  }

  lemma {:induction false} CopyKeepsKinds(fuel: nat, overwrite: bool, fs: FS, src: Path, dst: Path, folder: string)
    returns (outcome: Outcome)
    ensures outcome == CopyRecursive(fuel, overwrite, fs, src, dst, folder) && OutcomeKeeps(fs, outcome)
    decreases fuel, 1, 0
  {
    MkdirKeepsKinds(fs, dst);
    outcome := CopyRecursive(fuel, overwrite, fs, src, dst, folder);
    if MkdirAll(fs, dst).Some? {
      var made := MkdirAll(fs, dst).value;
      var entries := EntriesKeepKinds(fuel, overwrite, made, made, src, dst, folder, ReadDir(made, src));
      if entries.Done? || entries.Failed? {
        KeptThrough(fs, made, entries.fs);
      }
    }
  }

  lemma {:induction false} EntriesKeepKinds(fuel: nat, overwrite: bool, listed: FS, now: FS, src: Path, dst: Path,
                                            folder: string, names: seq<string>) returns (outcome: Outcome)
    ensures outcome == CopyEntries(fuel, overwrite, listed, now, src, dst, folder, names) && OutcomeKeeps(now, outcome)
    decreases fuel, 0, |names|
  {
    outcome := CopyEntries(fuel, overwrite, listed, now, src, dst, folder, names);
    if names != [] {
      var first := EntryKeepsKinds(fuel, overwrite, listed, now, src, dst, folder, names[0]);
      if first.Done? {
        var rest := EntriesKeepKinds(fuel, overwrite, listed, first.fs, src, dst, folder, names[1..]);
        if rest.Done? || rest.Failed? {
          KeptThrough(now, first.fs, rest.fs);
        }
      }
    }
  }

  lemma {:induction false} EntryKeepsKinds(fuel: nat, overwrite: bool, listed: FS, now: FS, src: Path, dst: Path,
                                           folder: string, name: string) returns (outcome: Outcome)
    ensures outcome == CopyEntry(fuel, overwrite, listed, now, src, dst, folder, name) && OutcomeKeeps(now, outcome)
    decreases fuel, 0, 0
  {
    outcome := CopyEntry(fuel, overwrite, listed, now, src, dst, folder, name);
    if IsDir(listed, src + [name]) {
      if !DoNotCopyDir(name, folder) && fuel > 0 {
        var inner := CopyKeepsKinds(fuel - 1, overwrite, now, src + [name], dst + [name], folder);
      }
    } else {
      FileKeepsKinds(now, src + [name], dst + [name]);
    }
  }

  // ----- a call that succeeds has copied everything -----

  /** The entry is kept, and the way to it leads through directories. */
  ghost predicate KeptDown(folder: string, fs: FS, src: Path, rel: Path) {
    Kept(CopyRule(folder), fs, src, rel) && forall k | 0 <= k < |rel| :: IsDir(fs, src + rel[..k])
  }

  lemma KeptDownStays(folder: string, fs: FS, after: FS, src: Path, rel: Path)
    requires KindsKept(fs, after) && KeptDown(folder, fs, src, rel)
    ensures KeptDown(folder, after, src, rel)
  {
  }

  lemma InsidePlace(src: Path, rel: Path, k: nat)
    requires rel != [] && k <= |rel| - 1
    ensures src + [rel[0]] + rel[1..][..k] == src + rel[..k + 1]
  {
    assert rel[..k + 1] == [rel[0]] + rel[1..][..k];
  }

  lemma FirstPlace(src: Path, rel: Path)
    requires rel != []
    ensures src + rel == src + [rel[0]] + rel[1..] && rel[..1] == [rel[0]]
    ensures |rel| == 1 ==> rel == [rel[0]]
  {
  }

  lemma KeptRest(folder: string, fs: FS, src: Path, rel: Path)
    requires rel != [] && Kept(CopyRule(folder), fs, src, rel)
    ensures Kept(CopyRule(folder), fs, src + [rel[0]], rel[1..])
  {
    FirstPlace(src, rel);
    var first, rest := src + [rel[0]], rel[1..];
    forall k | 0 <= k < |rest|
      ensures Keeps(CopyRule(folder), rest[k], k < |rest| - 1 || fs[first + rest].Dir?)
    {
      assert Keeps(CopyRule(folder), rel[k + 1], k + 1 < |rel| - 1 || fs[src + rel].Dir?);
    }
  }

  lemma KeptInside(folder: string, fs: FS, src: Path, rel: Path)
    requires rel != [] && KeptDown(folder, fs, src, rel)
    ensures src + [rel[0]] in fs && src + rel == src + [rel[0]] + rel[1..]
    ensures |rel| > 1 ==> IsDir(fs, src + [rel[0]])
    ensures IsDir(fs, src + [rel[0]]) ==> !DoNotCopyDir(rel[0], folder)
    ensures KeptDown(folder, fs, src + [rel[0]], rel[1..])
  {
    FirstPlace(src, rel);
    KeptRest(folder, fs, src, rel);
    forall k | 0 <= k < |rel[1..]|
      ensures IsDir(fs, src + [rel[0]] + rel[1..][..k])
    {
      InsidePlace(src, rel, k);
    }
    assert |rel| > 1 ==> IsDir(fs, src + rel[..1]);
    assert Keeps(CopyRule(folder), rel[0], 0 < |rel| - 1 || fs[src + rel].Dir?);
  }

  /** The kept entry is there, as a file or a directory like its original. */
  ghost predicate CopiedKind(fs: FS, after: FS, src: Path, dst: Path, rel: Path) {
    src + rel in fs && dst + rel in after && after[dst + rel].Dir? == fs[src + rel].Dir?
  }

  lemma CopiedKindStays(fs: FS, after: FS, later: FS, src: Path, dst: Path, rel: Path)
    requires CopiedKind(fs, after, src, dst, rel) && KindsKept(after, later)
    ensures CopiedKind(fs, later, src, dst, rel)
  {
  }

  lemma {:induction false} MkdirMakes(fs: FS, p: Path)
    ensures MkdirAll(fs, p).Some? ==> IsDir(MkdirAll(fs, p).value, p)
  {
  }

  lemma {:induction false} DoneHasAll(fuel: nat, overwrite: bool, fs: FS, made: FS, src: Path, dst: Path,
                                      folder: string, rel: Path) returns (after: FS)
    requires IsDir(fs, src) && MkdirAll(fs, dst) == Some(made) && KeptDown(folder, made, src, rel)
    requires CopyRecursive(fuel, overwrite, fs, src, dst, folder).Done?
    ensures CopyRecursive(fuel, overwrite, fs, src, dst, folder) == Done(after)
    ensures CopiedKind(made, after, src, dst, rel)
    decreases fuel, 2, 0
  {
    after := CopyRecursive(fuel, overwrite, fs, src, dst, folder).fs;
    var names := ReadDir(made, src);
    var outcome := EntriesKeepKinds(fuel, overwrite, made, made, src, dst, folder, names);
    MkdirKeepsKinds(fs, dst);
    if rel == [] {
      MkdirMakes(fs, dst);
      assert src + rel == src && dst + rel == dst;
    } else {
      KeptInside(folder, made, src, rel);
      assert rel[0] in names;
      EntriesHave(fuel, overwrite, made, made, src, dst, folder, names, rel);
    }
  }

  lemma {:induction false} EntriesHave(fuel: nat, overwrite: bool, listed: FS, now: FS, src: Path, dst: Path,
                                       folder: string, names: seq<string>, rel: Path)
    requires KindsKept(listed, now) && rel != [] && rel[0] in names && KeptDown(folder, listed, src, rel)
    requires CopyEntries(fuel, overwrite, listed, now, src, dst, folder, names).Done?
    ensures CopiedKind(listed, CopyEntries(fuel, overwrite, listed, now, src, dst, folder, names).fs, src, dst, rel)
    decreases fuel, 1, |names|
  {
    var first := EntryKeepsKinds(fuel, overwrite, listed, now, src, dst, folder, names[0]);
    var rest := EntriesKeepKinds(fuel, overwrite, listed, first.fs, src, dst, folder, names[1..]);
    KeptThrough(listed, now, first.fs);
    if names[0] == rel[0] {
      EntryHas(fuel, overwrite, listed, now, src, dst, folder, rel);
      CopiedKindStays(listed, first.fs, rest.fs, src, dst, rel);
    } else {
      EntriesHave(fuel, overwrite, listed, first.fs, src, dst, folder, names[1..], rel);
    }
  }

  lemma {:induction false} EntryHas(fuel: nat, overwrite: bool, listed: FS, now: FS, src: Path, dst: Path,
                                    folder: string, rel: Path)
    requires KindsKept(listed, now) && rel != [] && KeptDown(folder, listed, src, rel)
    requires CopyEntry(fuel, overwrite, listed, now, src, dst, folder, rel[0]).Done?
    ensures CopiedKind(listed, CopyEntry(fuel, overwrite, listed, now, src, dst, folder, rel[0]).fs, src, dst, rel)
    decreases fuel, 0, 1
  {
    KeptInside(folder, listed, src, rel);
    if IsDir(listed, src + [rel[0]]) {
      DirHas(fuel, overwrite, listed, now, src, dst, folder, rel);
    } else {
      FileHas(fuel, overwrite, listed, now, src, dst, folder, rel);
    }
  }

  lemma FileHas(fuel: nat, overwrite: bool, listed: FS, now: FS, src: Path, dst: Path, folder: string, rel: Path)
    requires |rel| == 1 && src + rel in listed && !IsDir(listed, src + [rel[0]])
    requires CopyEntry(fuel, overwrite, listed, now, src, dst, folder, rel[0]).Done?
    ensures CopiedKind(listed, CopyEntry(fuel, overwrite, listed, now, src, dst, folder, rel[0]).fs, src, dst, rel)
  {
    assert rel == [rel[0]];
    FileKeepsKinds(now, src + rel, dst + rel);
  }

  lemma {:induction false} DirHas(fuel: nat, overwrite: bool, listed: FS, now: FS, src: Path, dst: Path,
                                  folder: string, rel: Path)
    requires KindsKept(listed, now) && rel != [] && IsDir(listed, src + [rel[0]]) && !DoNotCopyDir(rel[0], folder)
    requires src + rel == src + [rel[0]] + rel[1..] && KeptDown(folder, listed, src + [rel[0]], rel[1..])
    requires CopyEntry(fuel, overwrite, listed, now, src, dst, folder, rel[0]).Done?
    ensures CopiedKind(listed, CopyEntry(fuel, overwrite, listed, now, src, dst, folder, rel[0]).fs, src, dst, rel)
    decreases fuel, 0, 0
  {
    CallHas(fuel - 1, overwrite, listed, now, src + [rel[0]], dst + [rel[0]], folder, rel[1..]);
    SamePlaces(src, dst, rel);
  }

  lemma SamePlaces(src: Path, dst: Path, rel: Path)
    requires rel != []
    ensures src + rel == src + [rel[0]] + rel[1..] && dst + rel == dst + [rel[0]] + rel[1..]
  {
  }

  lemma {:induction false} CallHas(fuel: nat, overwrite: bool, listed: FS, now: FS, src: Path, dst: Path,
                                   folder: string, rel: Path)
    requires KindsKept(listed, now) && IsDir(listed, src) && KeptDown(folder, listed, src, rel)
    requires CopyRecursive(fuel, overwrite, now, src, dst, folder).Done?
    ensures CopiedKind(listed, CopyRecursive(fuel, overwrite, now, src, dst, folder).fs, src, dst, rel)
    decreases fuel, 2, 1
  {
    assert IsDir(now, src);
    var made := MadeFirst(fuel, overwrite, now, src, dst, folder);
    KeptThrough(listed, now, made);
    KeptDownStays(folder, listed, made, src, rel);
    var after := DoneHasAll(fuel, overwrite, now, made, src, dst, folder, rel);
  }

  /** A call on a directory that succeeds has made its destination first. */
  lemma MadeFirst(fuel: nat, overwrite: bool, fs: FS, src: Path, dst: Path, folder: string) returns (made: FS)
    requires IsDir(fs, src) && CopyRecursive(fuel, overwrite, fs, src, dst, folder).Done?
    ensures MkdirAll(fs, dst) == Some(made) && KindsKept(fs, made)
  {
    MkdirKeepsKinds(fs, dst);
    made := MkdirAll(fs, dst).value;
  }

  // ----- the result -----

  lemma KeptIsDown(folder: string, fs: FS, src: Path, rel: Path)
    requires WellFormed(fs) && Kept(CopyRule(folder), fs, src, rel)
    ensures KeptDown(folder, fs, src, rel)
  {
    forall k | 0 <= k < |rel|
      ensures IsDir(fs, src + rel[..k])
    {
      PrefixIsDir(fs, src + rel, |src| + k);
      assert (src + rel)[..|src| + k] == src + rel[..k];
    }
  }

  /** Given depth enough, a copy to a place that is free or may be overwritten, and apart from its source, returns no
      error if and only if no kept entry meets one of the other kind. */
  lemma CopySucceedsIff(fuel: nat, overwrite: bool, fs: FS, made: FS, src: Path, dst: Path, folder: string)
    requires WellFormed(fs) && IsDir(fs, src) && MkdirAll(fs, dst) == Some(made) && (overwrite || dst !in fs)
    requires Separate(CopyRule(folder), src, dst) && fuel >= Work(folder, made, src)
    ensures CopyRecursive(fuel, overwrite, fs, src, dst, folder).Done? <==> NoClash(CopyRule(folder), made, src, dst)
  {
    MkdirAllEffect(fs, dst);
    if NoClash(CopyRule(folder), made, src, dst) {
      var outcome := RecursiveCopied(fuel, overwrite, fs, made, src, dst, folder);
    }
    if CopyRecursive(fuel, overwrite, fs, src, dst, folder).Done? {
      var outcome := EntriesKeepKinds(fuel, overwrite, made, made, src, dst, folder, ReadDir(made, src));
      forall rel | Kept(CopyRule(folder), made, src, rel) && dst + rel in made
        ensures made[dst + rel].Dir? == made[src + rel].Dir?
      {
        KeptIsDown(folder, made, src, rel);
        var after := DoneHasAll(fuel, overwrite, fs, made, src, dst, folder, rel);
        assert after == outcome.fs;
      }
    }
  }
}
