/** The effect of copying a tree onto a place that may lie inside it, entry by entry.

    `copyRecursive` and `copyFolderContents` differ in which entries they keep and in how they treat errors;
    what one successful copy does to the file system is the same, and is described here once. */
module TreeCopy {
  import opened Options
  import opened Sequences
  import opened FileSystem
  import opened CopyRules

  /** The entry at `src + rel` exists and the copy reaches it. */
  ghost predicate Kept(rule: Rule, fs: FS, src: Path, rel: Path) {
    src + rel in fs &&
    forall k | 0 <= k < |rel| :: Keeps(rule, rel[k], k < |rel| - 1 || fs[src + rel].Dir?)
  }

  /** The path after the first part of the copy: entries below the names in `done` have been copied. */
  ghost function Pasted(rule: Rule, fs: FS, src: Path, dst: Path, done: set<string>, p: Path): Option<Entry> {
    if dst <= p && |dst| < |p| && p[|dst|] in done && Kept(rule, fs, src, p[|dst|..])
    then Some(fs[src + p[|dst|..]])
    else Get(fs, p)
  }

  ghost predicate IsPasted(rule: Rule, fs: FS, src: Path, dst: Path, done: set<string>, now: FS) {
    forall p :: Get(now, p) == Pasted(rule, fs, src, dst, done, p)
  }

  lemma ElementsCons(done: set<string>, names: seq<string>)
    ensures names == [] ==> done + Elements(names) == done
    ensures names != [] ==> done + {names[0]} + Elements(names[1..]) == done + Elements(names)
    ensures {} + Elements(names) == Elements(names)
  {
    if names != [] {
      assert names == [names[0]] + names[1..];
    }
  }

  /** The finished copy: every kept entry of the source is at the destination, all else is as before. */
  ghost function CopyAt(rule: Rule, fs: FS, src: Path, dst: Path, p: Path): Option<Entry> {
    if dst <= p && Kept(rule, fs, src, p[|dst|..]) then Some(fs[src + p[|dst|..]]) else Get(fs, p)
  }

  ghost predicate IsCopy(rule: Rule, fs: FS, src: Path, dst: Path, after: FS) {
    forall p :: Get(after, p) == CopyAt(rule, fs, src, dst, p)
  }

  /** Source and destination may nest, but only across a directory the copy does not enter. */
  ghost predicate Separate(rule: Rule, src: Path, dst: Path) {
    && (src <= dst ==> Blocked(rule, dst[|src|..]))
    && (dst <= src ==> Blocked(rule, src[|dst|..]))
  }

  /** No kept entry would have to replace a file by a directory or a directory by a file. */
  ghost predicate NoClash(rule: Rule, fs: FS, src: Path, dst: Path) {
    forall rel | Kept(rule, fs, src, rel) && dst + rel in fs :: fs[dst + rel].Dir? == fs[src + rel].Dir?
  }

  ghost function KeptPaths(rule: Rule, fs: FS, src: Path): set<Path> {
    set p | p in fs && src <= p && Kept(rule, fs, src, p[|src|..])
  }

  ghost predicate DirsKept(rule: Rule, rel: Path) {
    forall k | 0 <= k < |rel| - 1 :: Keeps(rule, rel[k], true)
  }

  /** No path is both below the source and below the destination of a copy, as far as the copy walks. */
  lemma NoOverlap(rule: Rule, src: Path, dst: Path, a: Path, b: Path)
    requires src + a == dst + b
    requires |a| >= 1 && |b| >= 1 && DirsKept(rule, a) && DirsKept(rule, b)
    ensures !Separate(rule, src, dst)
  {
    if |src| <= |dst| {
      Between(rule, src, dst, a, b);
    } else {
      Between(rule, dst, src, b, a);
    }
  }

  lemma Between(rule: Rule, outer: Path, inner: Path, a: Path, b: Path)
    requires outer + a == inner + b && |outer| <= |inner|
    requires |b| >= 1 && DirsKept(rule, a)
    ensures outer <= inner && !Blocked(rule, inner[|outer|..])
  {
    assert outer == (outer + a)[..|outer|] == (inner + b)[..|outer|] == inner[..|outer|];
    var m := inner[|outer|..];
    assert a == (outer + a)[|outer|..] == (inner + b)[|outer|..] == m + b;
    forall k | 0 <= k < |m|
      ensures Keeps(rule, m[k], true)
    {
      assert a[k] == m[k];
    }
  }

  /** Copying never changes what the rest of the copy has still to read. */
  lemma SourceUntouched(rule: Rule, fs: FS, src: Path, dst: Path, done: set<string>, rel: Path)
    requires Separate(rule, src, dst)
    requires |rel| >= 1 && DirsKept(rule, rel)
    ensures Pasted(rule, fs, src, dst, done, src + rel) == Get(fs, src + rel)
  {
    var p := src + rel;
    if dst <= p && |dst| < |p| && Kept(rule, fs, src, p[|dst|..]) {
      assert p == dst + p[|dst|..];
      NoOverlap(rule, src, dst, rel, p[|dst|..]);
    }
  }

  lemma NothingPasted(rule: Rule, fs: FS, src: Path, dst: Path)
    ensures IsPasted(rule, fs, src, dst, {}, fs)
  {
  }

  /** An entry that is not kept needs no step. */
  lemma SkipStep(rule: Rule, fs: FS, src: Path, dst: Path, done: set<string>, now: FS, name: string)
    requires IsPasted(rule, fs, src, dst, done, now)
    requires WellFormed(fs)
    requires src + [name] in fs && !Keeps(rule, name, IsDir(fs, src + [name]))
    ensures IsPasted(rule, fs, src, dst, done + {name}, now)
  {
    forall p
      ensures Pasted(rule, fs, src, dst, done + {name}, p) == Pasted(rule, fs, src, dst, done, p)
    {
      if dst <= p && |dst| < |p| && p[|dst|] == name && Kept(rule, fs, src, p[|dst|..]) {
        KeptHead(rule, fs, src, p[|dst|..]);
      }
    }
  }

  /** The first component of a kept path is itself kept. */
  lemma KeptHead(rule: Rule, fs: FS, src: Path, rel: Path)
    requires WellFormed(fs) && |rel| >= 1 && Kept(rule, fs, src, rel)
    ensures src + [rel[0]] in fs
    ensures Keeps(rule, rel[0], IsDir(fs, src + [rel[0]]))
    ensures |rel| > 1 ==> IsDir(fs, src + [rel[0]])
  {
    if |rel| > 1 {
      PrefixIsDir(fs, src + rel, |src| + 1);
      assert (src + rel)[..|src| + 1] == src + [rel[0]];
    } else {
      assert rel == [rel[0]];
    }
  }

  /** Writing one kept file. */
  lemma FileStep(rule: Rule, fs: FS, src: Path, dst: Path, done: set<string>, now: FS, name: string, content: string)
    requires IsPasted(rule, fs, src, dst, done, now)
    requires WellFormed(fs)
    requires Get(fs, src + [name]) == Some(File(content)) && Keeps(rule, name, false)
    ensures IsPasted(rule, fs, src, dst, done + {name}, now[dst + [name] := File(content)])
  {
    var after := now[dst + [name] := File(content)];
    var target := dst + [name];
    assert target[|dst|..] == [name];
    assert Kept(rule, fs, src, [name]);
    assert Pasted(rule, fs, src, dst, done + {name}, target) == Some(File(content));
    forall p | p != target
      ensures Pasted(rule, fs, src, dst, done + {name}, p) == Pasted(rule, fs, src, dst, done, p)
    {
      if dst <= p && |dst| < |p| && p[|dst|] == name && Kept(rule, fs, src, p[|dst|..]) {
        var rel := p[|dst|..];
        assert p == dst + rel;
        assert |rel| == 1 ==> rel == [name];
        KeptHead(rule, fs, src, rel);
      }
    }
  }

  /** What the recursive call finds below a kept directory is what was there at the start. */
  lemma KeptBelow(rule: Rule, fs: FS, src: Path, dst: Path, done: set<string>, now: FS, name: string, rel: Path)
    requires Separate(rule, src, dst) && IsPasted(rule, fs, src, dst, done, now)
    requires IsDir(fs, src + [name]) && Keeps(rule, name, true)
    ensures Kept(rule, now, src + [name], rel) <==> Kept(rule, fs, src, [name] + rel)
    ensures Kept(rule, fs, src, [name] + rel) ==> Get(now, src + [name] + rel) == Get(fs, src + [name] + rel)
  {
    var whole := [name] + rel;
    assert src + [name] + rel == src + whole;
    if (Kept(rule, fs, src, whole) || Kept(rule, now, src + [name], rel)) && |rel| >= 1 {
      assert DirsKept(rule, whole) by {
        forall k | 0 <= k < |whole| - 1
          ensures Keeps(rule, whole[k], true)
        {
          if k > 0 { assert whole[k] == rel[k - 1]; }
        }
      }
      SourceUntouched(rule, fs, src, dst, done, whole);
    } else if |rel| == 0 {
      assert whole == [name];
      SourceUntouched(rule, fs, src, dst, done, whole);
    }
    if Get(now, src + whole) == Get(fs, src + whole) {
      KeptShift(rule, fs, now, src, name, rel);
    }
  }

  lemma KeptShift(rule: Rule, fs: FS, now: FS, src: Path, name: string, rel: Path)
    requires Keeps(rule, name, true) && IsDir(fs, src + [name])
    requires Get(now, src + ([name] + rel)) == Get(fs, src + ([name] + rel))
    ensures Kept(rule, now, src + [name], rel) <==> Kept(rule, fs, src, [name] + rel)
  {
    var whole := [name] + rel;
    assert src + [name] + rel == src + whole;
    assert forall k | 0 <= k < |rel| :: rel[k] == whole[k + 1];
    assert |rel| == 0 ==> src + whole == src + [name];
  }

  /** Separation is inherited by the recursive call: the path between the two trees is rotated by one. */
  lemma SubSeparate(rule: Rule, src: Path, dst: Path, name: string)
    requires Separate(rule, src, dst) && Keeps(rule, name, true)
    ensures Separate(rule, src + [name], dst + [name])
  {
    if src + [name] <= dst + [name] {
      Rotate(rule, src, dst, name);
    }
    if dst + [name] <= src + [name] {
      Rotate(rule, dst, src, name);
    }
  }

  lemma Rotate(rule: Rule, outer: Path, inner: Path, name: string)
    requires outer + [name] <= inner + [name]
    requires Keeps(rule, name, true) && (outer <= inner ==> Blocked(rule, inner[|outer|..]))
    ensures outer < inner && inner[|outer|] == name
    ensures (inner + [name])[|outer| + 1..] == inner[|outer| + 1..] + [name]
    ensures Blocked(rule, (inner + [name])[|outer| + 1..])
  {
    var whole := inner + [name];
    assert outer == (outer + [name])[..|outer|] == whole[..|outer|];
    assert inner == whole[..|inner|];
    assert outer <= inner;
    var m := inner[|outer|..];
    var k :| 0 <= k < |m| && !Keeps(rule, m[k], true);
    assert (outer + [name])[|outer|] == whole[|outer|];
    var rest := whole[|outer| + 1..];
    assert k > 0;
    assert rest[k - 1] == m[k];
  }

  lemma SubNoClash(rule: Rule, fs: FS, src: Path, dst: Path, done: set<string>, now: FS, name: string)
    requires Separate(rule, src, dst) && IsPasted(rule, fs, src, dst, done, now) && NoClash(rule, fs, src, dst)
    requires IsDir(fs, src + [name]) && Keeps(rule, name, true) && name !in done
    requires WellFormed(now) && IsDir(fs, dst)
    ensures NoClash(rule, now, src + [name], dst + [name])
    ensures IsDir(now, src + [name])
    ensures FreeOfFiles(now, dst + [name])
  {
    forall rel | Kept(rule, now, src + [name], rel) && dst + [name] + rel in now
      ensures now[dst + [name] + rel].Dir? == now[src + [name] + rel].Dir?
    {
      KeptBelow(rule, fs, src, dst, done, now, name, rel);
      SubClashFree(rule, fs, src, dst, done, now, name, rel);
    }
    assert Get(now, src + [name]) == Get(fs, src + [name]) by {
      SourceUntouched(rule, fs, src, dst, done, [name]);
    }
    SubFree(rule, fs, src, dst, done, now, name);
  }

  lemma SubClashFree(rule: Rule, fs: FS, src: Path, dst: Path, done: set<string>, now: FS, name: string, rel: Path)
    requires IsPasted(rule, fs, src, dst, done, now) && NoClash(rule, fs, src, dst)
    requires name !in done && Kept(rule, fs, src, [name] + rel) && dst + [name] + rel in now
    requires Get(now, src + [name] + rel) == Get(fs, src + [name] + rel)
    ensures src + [name] + rel in now
    ensures now[dst + [name] + rel].Dir? == now[src + [name] + rel].Dir?
  {
    var p := dst + [name] + rel;
    assert src + [name] + rel == src + ([name] + rel);
    assert p == dst + ([name] + rel);
    assert p[|dst|] == name;
    assert Get(now, p) == Get(fs, p);
  }

  lemma SubFree(rule: Rule, fs: FS, src: Path, dst: Path, done: set<string>, now: FS, name: string)
    requires IsPasted(rule, fs, src, dst, done, now) && NoClash(rule, fs, src, dst)
    requires name !in done && Keeps(rule, name, true) && IsDir(fs, src + [name])
    requires WellFormed(now) && IsDir(fs, dst)
    ensures FreeOfFiles(now, dst + [name])
  {
    var p := dst + [name];
    assert Kept(rule, fs, src, [name]);
    assert Get(now, dst) == Get(fs, dst);
    assert p[|dst|] == name;
    assert Get(now, p) == Get(fs, p);
    forall k | 0 <= k <= |p|
      ensures !IsFile(now, p[..k])
    {
      if k == |p| {
        assert p[..k] == p;
      } else if k == |dst| {
        assert p[..k] == dst;
      } else {
        PrefixIsDir(now, dst, k);
        assert p[..k] == dst[..k];
      }
    }
  }

  /** `made` is `now` after the directory `dst` itself has been created. */
  ghost predicate OnlyDirMade(now: FS, dst: Path, made: FS) {
    made == now || (dst !in now && made == now[dst := Dir])
  }

  lemma OneDirMade(now: FS, dst: Path)
    requires WellFormed(now) && dst != [] && IsDir(now, Parent(dst)) && FreeOfFiles(now, dst)
    ensures MkdirAll(now, dst).Some? && OnlyDirMade(now, dst, MkdirAll(now, dst).value)
  {
    MkdirAllEffect(now, dst);
  }

  /** Creating the destination directory first makes no difference to what is kept. */
  lemma MadeKeepsSame(rule: Rule, now: FS, dst: Path, made: FS, src: Path, rel: Path)
    requires Separate(rule, src, dst) && OnlyDirMade(now, dst, made)
    ensures Kept(rule, made, src, rel) <==> Kept(rule, now, src, rel)
    ensures Kept(rule, now, src, rel) ==> made[src + rel] == now[src + rel]
  {
    if src + rel == dst {
      assert rel == dst[|src|..];
    }
  }

  lemma MadeSame(rule: Rule, now: FS, dst: Path, made: FS, src: Path)
    requires Separate(rule, src, dst) && OnlyDirMade(now, dst, made)
    ensures KeptPaths(rule, made, src) == KeptPaths(rule, now, src)
    ensures IsDir(now, src) && NoClash(rule, now, src, dst) ==> NoClash(rule, made, src, dst)
  {
    forall p | src <= p
      ensures p in KeptPaths(rule, made, src) <==> p in KeptPaths(rule, now, src)
    {
      assert p == src + p[|src|..];
      MadeKeepsSame(rule, now, dst, made, src, p[|src|..]);
    }
    if IsDir(now, src) && NoClash(rule, now, src, dst) {
      forall rel | Kept(rule, made, src, rel) && dst + rel in made
        ensures made[dst + rel].Dir? == made[src + rel].Dir?
      {
        MadeKeepsSame(rule, now, dst, made, src, rel);
        if dst + rel == dst {
          assert rel == [] && src + rel == src;
        }
      }
    }
  }

  lemma CopyIncludesRoot(rule: Rule, now: FS, made: FS, src: Path, dst: Path, after: FS)
    requires Separate(rule, src, dst) && IsDir(now, src)
    requires OnlyDirMade(now, dst, made)
    requires IsCopy(rule, made, src, dst, after)
    ensures IsCopy(rule, now, src, dst, after)
  {
    forall p
      ensures Get(after, p) == CopyAt(rule, now, src, dst, p)
    {
      assert Get(after, p) == CopyAt(rule, made, src, dst, p);
      if dst <= p {
        MadeKeepsSame(rule, now, dst, made, src, p[|dst|..]);
      }
      if p == dst {
        assert p[|dst|..] == [];
        assert src + [] == src;
      }
    }
  }

  /** The recursive call on a kept directory copies everything below one more name. */
  lemma DirStep(rule: Rule, fs: FS, src: Path, dst: Path, done: set<string>, now: FS, name: string, after: FS)
    requires Separate(rule, src, dst) && IsPasted(rule, fs, src, dst, done, now)
    requires IsDir(fs, src + [name]) && Keeps(rule, name, true) && name !in done
    requires IsCopy(rule, now, src + [name], dst + [name], after)
    ensures IsPasted(rule, fs, src, dst, done + {name}, after)
  {
    var d := dst + [name];
    forall p
      ensures Get(after, p) == Pasted(rule, fs, src, dst, done + {name}, p)
    {
      assert Get(after, p) == CopyAt(rule, now, src + [name], d, p);
      if dst <= p && |dst| < |p| && p[|dst|] == name {
        assert p[..|d|] == d;
      }
      if d <= p {
        var rel := p[|d|..];
        assert p[|dst|..] == [name] + rel;
        assert src + [name] + rel == src + ([name] + rel);
        KeptBelow(rule, fs, src, dst, done, now, name, rel);
      }
    }
  }

  /** The loop has seen every kept name: that is the whole copy. */
  lemma AllPasted(rule: Rule, fs: FS, src: Path, dst: Path, names: seq<string>, after: FS)
    requires WellFormed(fs) && IsDir(fs, src) && IsDir(fs, dst)
    requires forall x :: src + [x] in fs && Keeps(rule, x, IsDir(fs, src + [x])) ==> x in names
    requires IsPasted(rule, fs, src, dst, Elements(names), after)
    ensures IsCopy(rule, fs, src, dst, after)
  {
    forall p
      ensures Get(after, p) == CopyAt(rule, fs, src, dst, p)
    {
      if dst <= p && Kept(rule, fs, src, p[|dst|..]) {
        if |p| > |dst| {
          KeptHead(rule, fs, src, p[|dst|..]);
        } else {
          assert p == dst && p[|dst|..] == [];
          assert src + [] == src;
        }
      }
    }
  }

  /** Each recursive call has strictly fewer entries to copy, even while the copy is being written. */
  lemma FewerBelow(rule: Rule, fs: FS, src: Path, dst: Path, done: set<string>, now: FS, name: string)
    requires Separate(rule, src, dst) && IsPasted(rule, fs, src, dst, done, now)
    requires IsDir(fs, src) && IsDir(fs, src + [name]) && Keeps(rule, name, true)
    ensures |KeptPaths(rule, now, src + [name])| < |KeptPaths(rule, fs, src)|
  {
    var s := src + [name];
    var smaller, larger := KeptPaths(rule, now, s), KeptPaths(rule, fs, src);
    forall p | p in smaller
      ensures p in larger
    {
      var rel := p[|s|..];
      assert p == s + rel;
      assert p[|src|..] == [name] + rel;
      assert p == src + ([name] + rel);
      KeptBelow(rule, fs, src, dst, done, now, name, rel);
    }
    assert src[|src|..] == [] && src + [] == src;
    assert src in larger && src !in smaller;
    SubsetSize(smaller, larger, src);
  }

  lemma {:induction false} SubsetSize<T>(a: set<T>, b: set<T>, x: T)
    requires a <= b && x in b && x !in a
    ensures |a| < |b|
  {
    SubsetAtMost(a, b - {x});
  }

  lemma {:induction false} SubsetAtMost<T>(a: set<T>, b: set<T>)
    requires a <= b
    ensures |a| <= |b|
  {
    if a != {} {
      var y :| y in a;
      SubsetAtMost(a - {y}, b - {y});
    }
  }
}
