/** Which directory entries the two tree copies of copy_utils.go visit. */
module CopyRules {
  import opened Text

  // ----- copyRecursive -----

  function GetFirstElementInPath(path: string): string {
    if path == "/" then path
    else
      var elts := Split(path);
      if |elts| > 1 then (if elts[0] == "" then elts[1] else elts[0]) else path
  }

  predicate DoNotCopyDir(dir: string, innerFolder: string) {
    dir == Clean(innerFolder) || dir == ".git" || dir == GetFirstElementInPath(innerFolder)
  }

  lemma SplitFolder(ps: seq<string>)
    requires |ps| >= 1 && AllPlain(ps)
    ensures Split(Join(ps) + "/") == ps + [""]
    ensures Join(ps) + "/" != "/"
  {
    JoinNonEmpty(ps);
    SplitJoin(ps);
    SplitConcat(Join(ps), "");
    assert Join(ps) + "/" + "" == Join(ps) + "/";
    SplitWhole("");
  }

  /** For the relative folder the configuration is meant to hold, exactly its first component and ".git" are skipped. */
  lemma RelativeFolderSkips(ps: seq<string>, dir: string)
    requires |ps| >= 1 && AllPlain(ps) && NoSlash(dir)
    ensures DoNotCopyDir(dir, Join(ps) + "/") <==> dir == ps[0] || dir == ".git"
  {
    JoinNonEmpty(ps);
    CleanPlain(ps);
    SplitFolder(ps);
    assert GetFirstElementInPath(Join(ps) + "/") == ps[0];
  }

  lemma SplitBelow(first: string, ps: seq<string>, folder: string)
    requires NoSlash(first) && |ps| >= 1 && AllPlain(ps) && folder == first + "/" + (Join(ps) + "/")
    ensures Split(folder) == [first] + (ps + [""])
  {
    SplitFolder(ps);
    SplitWhole(first);
    SplitConcat(first, Join(ps) + "/");
  }

  lemma FirstOf(folder: string, parts: seq<string>)
    requires |folder| > 1 && Split(folder) == parts && |parts| > 1
    ensures GetFirstElementInPath(folder) == if parts[0] == "" then parts[1] else parts[0]
  {
  }

  lemma CleanOf(folder: string, ps: seq<string>)
    requires folder != "" && folder[0] != '/' && ps != [] && Resolve(Split(folder), [], false) == ps
    ensures Clean(folder) == Join(ps)
  {
  }

  /** Written with a leading "./", a folder of two or more components is not skipped at all. */
  lemma DottedFolderSkips(ps: seq<string>, dir: string)
    requires |ps| >= 2 && AllPlain(ps) && Plain(dir)
    ensures DoNotCopyDir(dir, "./" + Join(ps) + "/") <==> dir == ".git"
  {
    var folder := "./" + Join(ps) + "/";
    assert folder == "." + "/" + (Join(ps) + "/") && folder[0] == '.' && |folder| > 1;
    SplitBelow(".", ps, folder);
    FirstOf(folder, ["."] + (ps + [""]));
    DottedResolve(ps);
    CleanOf(folder, ps);
    JoinNonEmpty(ps);
  }

  lemma DottedResolve(ps: seq<string>)
    requires |ps| >= 1 && AllPlain(ps)
    ensures Resolve(["."] + (ps + [""]), [], false) == ps
  {
    var tail := ps + [""];
    assert (["."] + tail)[1..] == tail;
    ResolvePlain(ps, [""], [], false);
    assert [] + ps == ps;
  }

  /** An absolute folder skips the name of its first component, whatever lies between that and the project. */
  lemma AbsoluteFolderSkips(ps: seq<string>, dir: string)
    requires |ps| >= 1 && AllPlain(ps) && NoSlash(dir)
    ensures DoNotCopyDir(dir, "/" + Join(ps) + "/") <==> dir == ps[0] || dir == ".git"
  {
    var folder := "/" + Join(ps) + "/";
    assert folder == "" + "/" + (Join(ps) + "/") && folder[0] == '/' && |folder| > 1;
    SplitBelow("", ps, folder);
    FirstOf(folder, [""] + (ps + [""]));
    CleanKeepsRoot(folder);
  }

  lemma CleanKeepsRoot(path: string)
    requires path != "" && path[0] == '/'
    ensures Clean(path) != "" && Clean(path)[0] == '/'
  {
  }

  // ----- moveAllContentsExceptMutantFolder -----

  /** What the captured `mutantFolder` holds once the predicate has run. */
  function FolderPart(mutantFolder: string): string {
    if Contains(Clean(mutantFolder), "/") then Split(mutantFolder)[0] else mutantFolder
  }

  predicate PassesFilter(mutantFolder: string, name: string) {
    !(Contains(name, FolderPart(mutantFolder)) || Contains(FolderPart(mutantFolder), name))
  }

  lemma NoSlashContainsNone(s: string)
    requires NoSlash(s)
    ensures !Contains(s, "/")
  {
    forall i | 0 <= i <= |s|
      ensures !OccursAt(s, "/", i)
    {
      assert i < |s| ==> s[i..i + 1][0] == s[i];
    }
  }

  /** The predicate overwrites the variable it captures, but only its first call can change it,
      so every call gives the same answer for the same name. */
  lemma FilterIsStable(mutantFolder: string, name: string)
    ensures FolderPart(FolderPart(mutantFolder)) == FolderPart(mutantFolder)
    ensures PassesFilter(FolderPart(mutantFolder), name) == PassesFilter(mutantFolder, name)
  {
    var part := FolderPart(mutantFolder);
    if Contains(Clean(mutantFolder), "/") {
      SplitParts(mutantFolder);
      SplitWhole(part);
      assert Resolve([part], [], false) == [] || Resolve([part], [], false) == [part];
      assert Clean(part) == "." || Clean(part) == part;
      NoSlashContainsNone(Clean(part));
    }
  }

  class MoveFilter {
    var mutantFolder: string

    constructor (mutantFolder: string)
      ensures this.mutantFolder == mutantFolder
    {
      this.mutantFolder := mutantFolder;
    }

    method IsNotMutantsFolder(name: string) returns (passes: bool)
      modifies this
      ensures passes == PassesFilter(old(mutantFolder), name)
      ensures mutantFolder == FolderPart(old(mutantFolder))
    {
      if Contains(Clean(mutantFolder), "/") {
        mutantFolder := Split(mutantFolder)[0];
      }
      passes := !(Contains(name, mutantFolder) || Contains(mutantFolder, name));
    }
  }

  lemma ContainsSelf(s: string)
    ensures Contains(s, s)
  {
    assert OccursAt(s, s, 0);
  }

  /** The first component of the relative mutant folder never passes, so the backup below it is not walked. */
  lemma FirstComponentFiltered(ps: seq<string>)
    requires |ps| >= 1 && AllPlain(ps)
    ensures !PassesFilter(Join(ps) + "/", ps[0])
  {
    var folder := Join(ps) + "/";
    SplitFolder(ps);
    ContainsSelf(ps[0]);
    if FolderPart(folder) == folder {
      var n := |ps[0]|;
      assert Join(ps)[..n] == ps[0];
      assert folder[0..0 + n] == ps[0];
      assert OccursAt(folder, ps[0], 0);
    }
  }

  lemma LongerByASlash(p: string, name: string)
    requires NoSlash(name) && name != ""
    ensures Contains(p + "/", name) <==> Contains(p, name)
  {
    var folder := p + "/";
    forall i: int
      ensures OccursAt(folder, name, i) <==> OccursAt(p, name, i)
    {
      if 0 <= i <= |folder| - |name| {
        if i + |name| == |folder| {
          assert folder[i..i + |name|][|name| - 1] == '/';
        } else {
          assert folder[i..i + |name|] == p[i..i + |name|];
        }
      }
    }
    if Contains(folder, name) {
      var i :| 0 <= i <= |folder| && OccursAt(folder, name, i);
      assert OccursAt(p, name, i);
    }
    if Contains(p, name) {
      var i :| 0 <= i <= |p| && OccursAt(p, name, i);
      assert OccursAt(folder, name, i);
    }
  }

  lemma SlashOccurs(s: string, k: nat)
    requires k < |s| && s[k] == '/'
    ensures Contains(s, "/")
  {
    assert OccursAt(s, "/", k);
  }

  lemma ShorterHasNoSlash(name: string, t: string)
    requires NoSlash(name) && t != "" && t[|t| - 1] == '/'
    ensures !Contains(name, t)
  {
    forall i | 0 <= i <= |name|
      ensures !OccursAt(name, t, i)
    {
      if i + |t| <= |name| {
        assert name[i..i + |t|][|t| - 1] == name[i + |t| - 1];
      }
    }
  }

  /** The filter is about text, not about the folder: a name is rejected when it occurs anywhere in the name of the
      mutant folder, and below a nested folder also when it contains that name. */
  lemma FilterMeaning(ps: seq<string>, name: string)
    requires |ps| >= 1 && AllPlain(ps) && NoSlash(name) && name != ""
    ensures PassesFilter(Join(ps) + "/", name)
            <==> !Contains(ps[0], name) && (|ps| > 1 ==> !Contains(name, ps[0]))
  {
    var folder := Join(ps) + "/";
    CleanPlain(ps);
    SplitFolder(ps);
    if |ps| == 1 {
      NoSlashContainsNone(ps[0]);
      LongerByASlash(ps[0], name);
      ShorterHasNoSlash(name, folder);
    } else {
      assert Join(ps) == ps[0] + "/" + Join(ps[1..]);
      SlashOccurs(Join(ps), |ps[0]|);
    }
  }

  // ----- one rule for both -----

  datatype Rule = CopyRule(folder: string) | MoveRule(folder: string)

  /** `copyRecursive` skips directories by name; the move filter applies to every entry. */
  predicate Keeps(rule: Rule, name: string, isDir: bool) {
    match rule
    case CopyRule(folder) => !(isDir && DoNotCopyDir(name, folder))
    case MoveRule(folder) => PassesFilter(folder, name)
  }

  /** Some component of the path is a directory the copy does not enter. */
  predicate Blocked(rule: Rule, rel: seq<string>) {
    exists k | 0 <= k < |rel| :: !Keeps(rule, rel[k], true)
  }
}
