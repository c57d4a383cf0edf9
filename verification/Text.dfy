/** Slash-separated path strings: `strings.Split`, `strings.Join` and `filepath.Clean` of Go,
    and the two helpers of the program that glue path strings together.

    `Comps` is the bridge to the file system: the component list a path string denotes,
    relative to the directory it is resolved in. */
module Text {
  import opened Sequences

  predicate NoSlash(s: string) {
    '/' !in s
  }

  predicate IsPrefix(p: string, s: string) {
    p <= s
  }

  /** `strings.HasSuffix`. */
  predicate HasSuffix(s: string, t: string) {
    |t| <= |s| && s[|s| - |t|..] == t
  }

  predicate OccursAt(s: string, t: string, i: int) {
    0 <= i <= |s| - |t| && s[i..i + |t|] == t
  }

  /** `strings.Contains`. */
  predicate Contains(s: string, t: string) {
    exists i | 0 <= i <= |s| :: OccursAt(s, t, i)
  }

  lemma HasSuffixIff(s: string, t: string)
    ensures HasSuffix(s, t) <==> exists a :: s == a + t
  {
    if HasSuffix(s, t) {
      assert s == s[..|s| - |t|] + t;
    }
  }

  lemma ContainsIff(s: string, t: string)
    ensures Contains(s, t) <==> exists a, b :: s == a + t + b
  {
    if i :| 0 <= i <= |s| && OccursAt(s, t, i) {
      assert s == s[..i] + t + s[i + |t|..];
    }
    if a, b :| s == a + t + b {
      assert OccursAt(s, t, |a|);
    }
  }

  /** One more character at the front: a slash opens a new piece, anything else extends the first one. */
  function Prepend(c: char, rest: seq<string>): (r: seq<string>)
    requires |rest| >= 1
    ensures |r| >= 1
  {
    if c == '/' then [[]] + rest else [[c] + rest[0]] + rest[1..]
  }

  /** `strings.Split(s, "/")`. */
  function Split(s: string): (r: seq<string>)
    ensures |r| >= 1
  {
    if s == [] then [[]] else Prepend(s[0], Split(s[1..]))
  }

  lemma {:induction false} SplitParts(s: string)
    ensures forall k :: 0 <= k < |Split(s)| ==> NoSlash(Split(s)[k])
  {
    if s != [] {
      SplitParts(s[1..]);
    }
  }

  /** `strings.Join(ps, "/")`. */
  function Join(ps: seq<string>): string {
    if ps == [] then ""
    else if |ps| == 1 then ps[0]
    else ps[0] + "/" + Join(ps[1..])
  }

  lemma PrependConcat(c: char, x: seq<string>, y: seq<string>)
    requires |x| >= 1
    ensures Prepend(c, x + y) == Prepend(c, x) + y
  {
    assert (x + y)[1..] == x[1..] + y;
  }

  lemma {:induction false} SplitConcat(a: string, b: string)
    ensures Split(a + "/" + b) == Split(a) + Split(b)
  {
    if a == [] {
      assert a + "/" + b == "/" + b;
      assert ("/" + b)[1..] == b;
    } else {
      SplitConcat(a[1..], b);
      PrependConcat(a[0], Split(a[1..]), Split(b));
      assert (a + "/" + b)[1..] == a[1..] + "/" + b;
    }
  }

  lemma {:induction false} SplitWhole(s: string)
    requires NoSlash(s)
    ensures Split(s) == [s]
  {
    if s != [] {
      SplitWhole(s[1..]);
      assert [s[0]] + s[1..] == s;
    }
  }

  /** The pieces with the last one lengthened by `t`. */
  function Lengthen(ps: seq<string>, t: string): (r: seq<string>)
    requires |ps| >= 1
    ensures |r| == |ps|
  {
    ps[..|ps| - 1] + [ps[|ps| - 1] + t]
  }

  lemma PrependLengthen(c: char, ps: seq<string>, t: string)
    requires |ps| >= 1
    ensures Prepend(c, Lengthen(ps, t)) == Lengthen(Prepend(c, ps), t)
  {
    if |ps| == 1 && c != '/' {
      assert [c] + (ps[0] + t) == ([c] + ps[0]) + t;
    }
  }

  /** Appending text without a slash lengthens the last piece only. */
  lemma {:induction false} SplitAppend(a: string, t: string)
    requires NoSlash(t)
    ensures Split(a + t) == Lengthen(Split(a), t)
  {
    if a == [] {
      assert a + t == t;
      SplitWhole(t);
    } else {
      SplitAppend(a[1..], t);
      PrependLengthen(a[0], Split(a[1..]), t);
      assert (a + t)[1..] == a[1..] + t;
    }
  }

  /** Splitting undoes joining. */
  lemma {:induction false} SplitJoin(ps: seq<string>)
    requires |ps| >= 1
    requires forall k :: 0 <= k < |ps| ==> NoSlash(ps[k])
    ensures Split(Join(ps)) == ps
  {
    if |ps| == 1 {
      SplitWhole(ps[0]);
    } else {
      SplitConcat(ps[0], Join(ps[1..]));
      SplitWhole(ps[0]);
      SplitJoin(ps[1..]);
    }
  }

  lemma JoinPrepend(c: char, ps: seq<string>)
    requires |ps| >= 1
    ensures Join(Prepend(c, ps)) == [c] + Join(ps)
  {
    if c == '/' {
      JoinFirst([], ps);
      Assoc([], "/", Join(ps));
    } else if |ps| > 1 {
      JoinExtend(c, ps[0], ps[1..]);
      assert [ps[0]] + ps[1..] == ps;
    }
  }

  lemma JoinExtend(c: char, first: string, rest: seq<string>)
    requires |rest| >= 1
    ensures Join([[c] + first] + rest) == [c] + Join([first] + rest)
  {
    JoinFirst([c] + first, rest);
    JoinFirst(first, rest);
    Assoc([c], first + "/", Join(rest));
    Assoc([c], first, "/");
  }

  lemma JoinFirst(first: string, rest: seq<string>)
    requires |rest| >= 1
    ensures Join([first] + rest) == first + "/" + Join(rest)
  {
    assert ([first] + rest)[1..] == rest;
  }

  /** Joining undoes splitting. */
  lemma {:induction false} JoinSplit(s: string)
    ensures Join(Split(s)) == s
  {
    if s != [] {
      JoinSplit(s[1..]);
      JoinPrepend(s[0], Split(s[1..]));
    }
  }

  // ----- components -----

  /** A piece that moves to a child when resolved: neither empty nor ".". */
  predicate Solid(piece: string) {
    piece != "" && piece != "."
  }

  function SolidOnly(ps: seq<string>): (r: seq<string>)
    ensures |r| <= |ps|
  {
    if ps == [] then [] else (if Solid(ps[0]) then [ps[0]] else []) + SolidOnly(ps[1..])
  }

  lemma {:induction false} SolidOnlyParts(ps: seq<string>, k: nat)
    requires k < |SolidOnly(ps)|
    ensures Solid(SolidOnly(ps)[k]) && SolidOnly(ps)[k] in ps
  {
    var head := if Solid(ps[0]) then [ps[0]] else [];
    if k >= |head| {
      SolidOnlyParts(ps[1..], k - |head|);
    }
  }

  /** The directory names a path string walks through. */
  function Comps(s: string): seq<string> {
    SolidOnly(Split(s))
  }

  lemma CompsParts(s: string)
    ensures forall k :: 0 <= k < |Comps(s)| ==> Solid(Comps(s)[k]) && NoSlash(Comps(s)[k])
  {
    SplitParts(s);
    forall k | 0 <= k < |Comps(s)|
      ensures Solid(Comps(s)[k]) && NoSlash(Comps(s)[k])
    {
      SolidOnlyParts(Split(s), k);
    }
  }

  lemma {:induction false} SolidOnlyConcat(a: seq<string>, b: seq<string>)
    ensures SolidOnly(a + b) == SolidOnly(a) + SolidOnly(b)
  {
    if a == [] {
      assert a + b == b;
    } else {
      SolidOnlyConcat(a[1..], b);
      assert (a + b)[1..] == a[1..] + b;
      Assoc(if Solid(a[0]) then [a[0]] else [], SolidOnly(a[1..]), SolidOnly(b));
    }
  }

  lemma {:induction false} SolidOnlyAll(a: seq<string>)
    requires forall k :: 0 <= k < |a| ==> Solid(a[k])
    ensures SolidOnly(a) == a
  {
    if a != [] {
      SolidOnlyAll(a[1..]);
    }
  }

  lemma CompsConcat(a: string, b: string)
    ensures Comps(a + "/" + b) == Comps(a) + Comps(b)
  {
    SplitConcat(a, b);
    SolidOnlyConcat(Split(a), Split(b));
  }

  lemma CompsEdges(s: string)
    ensures Comps(s + "/") == Comps(s)
    ensures Comps("/" + s) == Comps(s)
    ensures Comps("") == [] && Comps(".") == []
  {
    assert Split("") == [[]];
    SplitWhole(".");
    CompsConcat(s, "");
    assert s + "/" + "" == s + "/";
    CompsConcat("", s);
    assert "" + "/" + s == "/" + s;
  }

  lemma CompsJoin(ps: seq<string>)
    requires |ps| >= 1
    requires forall k :: 0 <= k < |ps| ==> Solid(ps[k]) && NoSlash(ps[k])
    ensures Comps(Join(ps)) == ps
  {
    SplitJoin(ps);
    SolidOnlyAll(ps);
  }

  // ----- gluing path strings -----

  function ConcatAddingSlashIfNeeded(parent: string, child: string): string {
    if HasSuffix(parent, "/") && IsPrefix("/", child) then parent + child[1..]
    else if HasSuffix(parent, "/") || IsPrefix("/", child) then parent + child
    else parent + "/" + child
  }

  function AppendFolder(original: string, folder: string): string {
    if original == "" || original == "." then folder
    else ConcatAddingSlashIfNeeded(original, folder)
  }

  /** However the slashes fall, gluing two path strings concatenates what they denote. */
  lemma AppendFolderComps(a: string, b: string)
    ensures Comps(AppendFolder(a, b)) == Comps(a) + Comps(b)
  {
    CompsEdges(b);
    if a != "" && a != "." {
      var a' := if HasSuffix(a, "/") then a[..|a| - 1] else a;
      var b' := if IsPrefix("/", b) then b[1..] else b;
      assert Comps(a) == Comps(a') by {
        CompsEdges(a');
        if HasSuffix(a, "/") { assert a == a' + "/"; }
      }
      assert Comps(b) == Comps(b') by {
        CompsEdges(b');
        if IsPrefix("/", b) { assert b == "/" + b'; }
      }
      GluedOnce(a, b, a', b');
      CompsConcat(a', b');
    }
  }

  lemma GluedOnce(a: string, b: string, a': string, b': string)
    requires if HasSuffix(a, "/") then a == a' + "/" else a == a'
    requires if IsPrefix("/", b) then b == "/" + b' else b == b'
    ensures ConcatAddingSlashIfNeeded(a, b) == a' + "/" + b'
  {
    Assoc(a', "/", b');
    assert IsPrefix("/", b) ==> b[1..] == b';
  }

  // ----- filepath.Clean -----

  /** One left-to-right pass: "" and "." vanish, ".." cancels the piece before it. */
  function Resolve(ps: seq<string>, stack: seq<string>, rooted: bool): seq<string> {
    if ps == [] then stack
    else if !Solid(ps[0]) then Resolve(ps[1..], stack, rooted)
    else if ps[0] != ".." then Resolve(ps[1..], stack + [ps[0]], rooted)
    else if stack != [] && stack[|stack| - 1] != ".." then Resolve(ps[1..], stack[..|stack| - 1], rooted)
    else if rooted then Resolve(ps[1..], stack, rooted)
    else Resolve(ps[1..], stack + [".."], rooted)
  }

  function Clean(path: string): string {
    if path == "" then "."
    else
      var rooted := path[0] == '/';
      var parts := Resolve(Split(path), [], rooted);
      if rooted then "/" + Join(parts)
      else if parts == [] then "." else Join(parts)
  }

  /** An ordinary directory name. */
  predicate Plain(piece: string) {
    Solid(piece) && piece != ".." && NoSlash(piece)
  }

  predicate AllPlain(ps: seq<string>) {
    forall k :: 0 <= k < |ps| ==> Plain(ps[k])
  }

  lemma {:induction false} ResolvePlain(ps: seq<string>, tail: seq<string>, stack: seq<string>, rooted: bool)
    requires AllPlain(ps)
    requires forall k :: 0 <= k < |tail| ==> !Solid(tail[k])
    ensures Resolve(ps + tail, stack, rooted) == stack + ps
  {
    if ps == [] {
      assert ps + tail == tail;
      if tail != [] {
        ResolvePlain([], tail[1..], stack, rooted);
        assert [] + tail[1..] == tail[1..];
      }
    } else {
      assert (ps + tail)[1..] == ps[1..] + tail;
      ResolvePlain(ps[1..], tail, stack + [ps[0]], rooted);
    }
  }

  lemma JoinNonEmpty(ps: seq<string>)
    requires |ps| >= 1 && AllPlain(ps)
    ensures Join(ps) != "" && Join(ps)[0] == ps[0][0] && Join(ps)[0] != '/'
    ensures |ps| >= 2 ==> !NoSlash(Join(ps))
  {
    assert Plain(ps[0]);
  }

  /** `Clean` of an ordinary relative folder, with or without the trailing slash the configuration adds. */
  lemma CleanPlain(ps: seq<string>)
    requires |ps| >= 1 && AllPlain(ps)
    ensures Clean(Join(ps) + "/") == Join(ps)
    ensures Clean(Join(ps)) == Join(ps)
  {
    var whole := Join(ps);
    JoinNonEmpty(ps);
    SplitJoin(ps);
    assert Split(whole + "/") == ps + [""] by {
      SplitConcat(whole, "");
      assert whole + "/" + "" == whole + "/";
      SplitWhole("");
    }
    ResolvePlain(ps, [""], [], false);
    ResolvePlain(ps, [], [], false);
    assert ps + [] == ps;
    assert [] + ps == ps;
  }

  // ----- what cleaning means, `..` included -----

  /** One piece of a path, from the directory it is resolved in: nothing for "" and ".", up for "..", which stays at
      the top, and down for a name. */
  function Step(dir: seq<string>, piece: string): seq<string> {
    if !Solid(piece) then dir
    else if piece == ".." then (if dir == [] then [] else dir[..|dir| - 1])
    else dir + [piece]
  }

  function Follow(dir: seq<string>, pieces: seq<string>): seq<string>
    decreases |pieces|
  {
    if pieces == [] then dir else Follow(Step(dir, pieces[0]), pieces[1..])
  }

  /** Where a path leads: a slash at its front starts from the top. */
  function LeadsTo(dir: seq<string>, path: string): seq<string> {
    Follow(if IsPrefix("/", path) then [] else dir, Split(path))
  }

  lemma {:induction false} FollowConcat(dir: seq<string>, a: seq<string>, b: seq<string>)
    ensures Follow(dir, a + b) == Follow(Follow(dir, a), b)
    decreases |a|
  {
    if a == [] {
      assert a + b == b;
    } else {
      FollowConcat(Step(dir, a[0]), a[1..], b);
      assert (a + b)[1..] == a[1..] + b;
    }
  }

  lemma FollowOne(dir: seq<string>, piece: string)
    ensures Follow(dir, [piece]) == Step(dir, piece)
  {
    assert [piece][1..] == [];
  }

  /** A stack as the pass builds it: names, after `..` only in a path that does not start at the top. */
  predicate Normal(stack: seq<string>, rooted: bool) {
    && (forall k | 0 <= k < |stack| :: Solid(stack[k]) && NoSlash(stack[k]))
    && (rooted ==> forall k | 0 <= k < |stack| :: stack[k] != "..")
    && (forall k | 0 < k < |stack| :: stack[k] == ".." ==> stack[k - 1] == "..")
  }

  /** The pass keeps where the path leads, and what it leaves goes up only at the front. */
  lemma {:induction false} ResolveLeadsOn(ps: seq<string>, stack: seq<string>, rooted: bool, dir: seq<string>)
    requires Normal(stack, rooted) && (rooted ==> dir == []) && forall k | 0 <= k < |ps| :: NoSlash(ps[k])
    ensures Normal(Resolve(ps, stack, rooted), rooted)
    ensures Follow(dir, Resolve(ps, stack, rooted)) == Follow(dir, stack + ps)
    decreases |ps|
  {
    if ps == [] {
      assert stack + [] == stack;
    } else {
      var next := NextStack(ps[0], stack, rooted);
      NextLeadsOn(ps[0], stack, rooted, dir);
      ResolveLeadsOn(ps[1..], next, rooted, dir);
      FollowConcat(dir, next, ps[1..]);
      FollowConcat(dir, stack, ps);
      FollowConcat(Follow(dir, stack), [ps[0]], ps[1..]);
      FollowOne(Follow(dir, stack), ps[0]);
      assert [ps[0]] + ps[1..] == ps;
    }
  }

  /** The stack after one piece. */
  function NextStack(piece: string, stack: seq<string>, rooted: bool): seq<string> {
    if !Solid(piece) then stack
    else if piece != ".." then stack + [piece]
    else if stack != [] && stack[|stack| - 1] != ".." then stack[..|stack| - 1]
    else if rooted then stack
    else stack + [".."]
  }

  lemma NextLeadsOn(piece: string, stack: seq<string>, rooted: bool, dir: seq<string>)
    requires Normal(stack, rooted) && (rooted ==> dir == []) && NoSlash(piece)
    ensures Normal(NextStack(piece, stack, rooted), rooted)
    ensures Follow(dir, NextStack(piece, stack, rooted)) == Step(Follow(dir, stack), piece)
  {
    if Solid(piece) {
      FollowConcat(dir, stack, [piece]);
      FollowOne(Follow(dir, stack), piece);
      if piece == ".." && stack != [] && stack[|stack| - 1] != ".." {
        var n := |stack| - 1;
        assert stack == stack[..n] + [stack[n]];
        FollowConcat(dir, stack[..n], [stack[n]]);
        FollowOne(Follow(dir, stack[..n]), stack[n]);
      }
    }
  }

  lemma {:induction false} SplitStartsEmpty(path: string)
    requires IsPrefix("/", path)
    ensures Split(path) == [""] + Split(path[1..])
  {
    assert path == "" + "/" + path[1..];
    SplitConcat("", path[1..]);
    SplitWhole("");
  }

  /** A cleaned path leads where the path leads, from every directory, and has no piece that could be left out: no "."
      or empty piece, and ".." only at its front. */
  lemma CleanLeadsSame(path: string, dir: seq<string>)
    ensures LeadsTo(dir, Clean(path)) == LeadsTo(dir, path)
    ensures exists parts :: Normal(parts, IsPrefix("/", path))
              && Clean(path) == (if IsPrefix("/", path) then "/" else "")
                                + (if parts == [] && !IsPrefix("/", path) then "." else Join(parts))
  {
    SplitParts(path);
    SplitWhole(".");
    SplitWhole("");
    assert Split("") == [""];
    FollowOne(dir, ".");
    FollowOne(dir, "");
    if path == "" {
      assert Normal([], false) && Clean(path) == "" + ".";
    } else {
      var rooted := path[0] == '/';
      assert rooted <==> IsPrefix("/", path);
      var start := if rooted then [] else dir;
      var parts := Resolve(Split(path), [], rooted);
      assert [] + Split(path) == Split(path);
      ResolveLeadsOn(Split(path), [], rooted, start);
      CleanedLeads(path, parts, dir);
      assert Clean(path) == (if rooted then "/" else "") + (if parts == [] && !rooted then "." else Join(parts));
    }
  }

  lemma CleanedLeads(path: string, parts: seq<string>, dir: seq<string>)
    requires path != "" && parts == Resolve(Split(path), [], path[0] == '/') && Normal(parts, path[0] == '/')
    ensures LeadsTo(dir, Clean(path)) == Follow(if path[0] == '/' then [] else dir, parts)
  {
    var joined := Join(parts);
    if parts != [] {
      SplitJoin(parts);
    } else {
      assert joined == "" && Split("") == [""];
      FollowOne([], "");
    }
    if path[0] == '/' {
      assert Clean(path) == "/" + joined && ("/" + joined)[1..] == joined;
      SplitStartsEmpty(Clean(path));
      FollowConcat([], [""], Split(joined));
      FollowOne([], "");
    } else if parts == [] {
      SplitWhole(".");
      FollowOne(dir, ".");
    } else {
      JoinStarts(parts);
    }
  }

  lemma JoinStarts(parts: seq<string>)
    requires parts != [] && Solid(parts[0]) && NoSlash(parts[0])
    ensures !IsPrefix("/", Join(parts))
  {
    assert Join(parts)[0] == parts[0][0];
    assert parts[0][0] in parts[0];
  }
}
