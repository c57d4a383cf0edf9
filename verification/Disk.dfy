/** The tree copies of copy_utils.go as they run: loops that change one disk in place.
    Each method is proved to end in the outcome that `CopyUtils` and `Backup` compute on values. */
module Disks {
  import opened Options
  import opened FileSystem
  import opened CopyRules
  import CopyUtils
  import Backup

  datatype Result = Ok | Err | GaveUp

  /** How a finished method call corresponds to the outcome computed on values. */
  ghost predicate Agrees(outcome: CopyUtils.Outcome, result: Result, fs: FS) {
    match result
    case Ok => outcome == CopyUtils.Done(fs)
    case Err => outcome == CopyUtils.Failed(fs)
    case GaveUp => outcome == CopyUtils.OutOfFuel
  }

  class Disk {
    var fs: FS

    constructor (fs: FS)
      ensures this.fs == fs
    {
      this.fs := fs;
    }

    method CopyFile(src: Path, dst: Path) returns (ok: bool)
      modifies this
      ensures ok == FileSystem.CopyFile(old(fs), src, dst).Some?
      ensures fs == if ok then FileSystem.CopyFile(old(fs), src, dst).value else old(fs)
    {
      match FileSystem.CopyFile(fs, src, dst)
      case None => ok := false;
      case Some(next) => fs := next; ok := true;
    }

    method CopyRecursive(fuel: nat, overwrite: bool, src: Path, dst: Path, folder: string) returns (result: Result)
      modifies this
      ensures Agrees(CopyUtils.CopyRecursive(fuel, overwrite, old(fs), src, dst, folder), result, fs)
      ensures dst in old(fs) && !overwrite ==> result == Err && fs == old(fs)
      decreases fuel, 1
    {
      if dst in fs {
        if !overwrite { return Err; }
      } else if !FreeOfFiles(fs, dst) {
        return Err;
      }
      if src !in fs { return Err; }
      if fs[src].File? { return Ok; }
      var made := MkdirAll(fs, dst);
      if made.None? { return Err; }
      fs := made.value;
      var listed := fs;
      var names := ReadDir(listed, src);
      ghost var goal := CopyUtils.CopyEntries(fuel, overwrite, listed, listed, src, dst, folder, names);
      assert names[0..] == names;
      for i := 0 to |names|
        invariant CopyUtils.CopyEntries(fuel, overwrite, listed, fs, src, dst, folder, names[i..]) == goal
      {
        assert names[i..][0] == names[i] && names[i..][1..] == names[i + 1..];
        result := CopyEntry(fuel, overwrite, listed, src, dst, folder, names[i]);
        if result != Ok { return; }
      }
      result := Ok;
    }

    /** The body of that loop. */
    method CopyEntry(fuel: nat, overwrite: bool, listed: FS, src: Path, dst: Path, folder: string, name: string)
      returns (result: Result)
      modifies this
      ensures Agrees(CopyUtils.CopyEntry(fuel, overwrite, listed, old(fs), src, dst, folder, name), result, fs)
      decreases fuel, 0
    {
      if IsDir(listed, src + [name]) {
        if DoNotCopyDir(name, folder) { return Ok; }
        if fuel == 0 { return GaveUp; }
        result := CopyRecursive(fuel - 1, overwrite, src + [name], dst + [name], folder);
      } else {
        var ok := CopyFile(src + [name], dst + [name]);
        result := if ok then Ok else Err;
      }
    }

    /** The move filter is shared by all calls of one move, and its first use may overwrite what it captured. */
    method CopyFolderContents(fuel: nat, src: Path, dst: Path, ghost folder: string, filter: MoveFilter)
      returns (result: Result)
      requires filter.mutantFolder == folder || filter.mutantFolder == FolderPart(folder)
      modifies this, filter
      ensures filter.mutantFolder == folder || filter.mutantFolder == FolderPart(folder)
      ensures Agrees(Backup.CopyFolderContents(fuel, old(fs), src, dst, folder), result, fs)
      decreases fuel, 1
    {
      if !IsDir(fs, src) { return Err; }
      var listed := fs;
      var names := ReadDir(listed, src);
      var made := MkdirAll(fs, dst);
      if made.None? { return Err; }
      fs := made.value;
      ghost var goal := Backup.CopyItems(fuel, listed, fs, src, dst, folder, names);
      assert names[0..] == names;
      for i := 0 to |names|
        invariant filter.mutantFolder == folder || filter.mutantFolder == FolderPart(folder)
        invariant Backup.CopyItems(fuel, listed, fs, src, dst, folder, names[i..]) == goal
      {
        assert names[i..][0] == names[i] && names[i..][1..] == names[i + 1..];
        result := CopyItem(fuel, listed, src, dst, folder, filter, names[i]);
        if result != Ok { return; }
      }
      result := Ok;
    }

    /** The body of that loop: an error inside a subdirectory is dropped. */
    method CopyItem(fuel: nat, listed: FS, src: Path, dst: Path, ghost folder: string, filter: MoveFilter, name: string)
      returns (result: Result)
      requires filter.mutantFolder == folder || filter.mutantFolder == FolderPart(folder)
      modifies this, filter
      ensures filter.mutantFolder == folder || filter.mutantFolder == FolderPart(folder)
      ensures Agrees(Backup.CopyItem(fuel, listed, old(fs), src, dst, folder, name), result, fs)
      decreases fuel, 0
    {
      FilterIsStable(folder, name);
      var passes := filter.IsNotMutantsFolder(name);
      if !passes { return Ok; }
      if IsDir(listed, src + [name]) {
        if fuel == 0 { return GaveUp; }
        var sub := CopyFolderContents(fuel - 1, src + [name], dst + [name], folder, filter);
        result := if sub == GaveUp then GaveUp else Ok;
      } else {
        var ok := CopyFile(src + [name], dst + [name]);
        result := if ok then Ok else Err;
      }
    }

    method MoveAllContentsExceptMutantFolder(fuel: nat, src: Path, dst: Path, mutantFolder: string)
      returns (result: Result)
      modifies this
      ensures Agrees(Backup.CopyFolderContents(fuel, old(fs), src, dst, mutantFolder), result, fs)
    {
      var filter := new MoveFilter(mutantFolder);
      result := CopyFolderContents(fuel, src, dst, mutantFolder, filter);
    }
  }
}
