/** getRelativePath: the relative reference from a base path to a target path.
    The method follows the PHP code step by step (array_pop, the foreach that
    unsets a common prefix, implode and the "./" disambiguation); the function
    RelativePath states the same result declaratively, and the lemmas below are
    about that function. */
module RelativePaths {
  import opened PhpStrings

  /** The path with one leading "/" removed, as getRelativePath does before
      exploding it. */
  function StripRoot(p: string): (r: string)
    ensures |p| > 0 && p[0] == '/' ==> p == "/" + r
    ensures !(|p| > 0 && p[0] == '/') ==> r == p
  {
    if |p| > 0 && p[0] == '/' then p[1..] else p
  }

  /** All segments of a path. */
  function Segments(p: string): (r: seq<string>)
    ensures |r| >= 1
  {
    Explode(StripRoot(p))
  }

  /** The base's directories: every segment except its last, the base's file. */
  function BaseDirs(b: string): (r: seq<string>)
    ensures |r| + 1 == |Segments(b)| && r == Segments(b)[..|r|]
  {
    var s := Segments(b); s[..|s| - 1]
  }

  /** The target's directories, every segment but its last ... */
  function TargetDirs(t: string): (r: seq<string>)
    ensures |r| + 1 == |Segments(t)| && r == Segments(t)[..|r|]
  {
    var s := Segments(t); s[..|s| - 1]
  }

  /** ... and that last segment, the target's file. */
  function TargetFile(t: string): (r: string)
    ensures Segments(t) == TargetDirs(t) + [r]
    ensures '/' !in r
  {
    var s := Segments(t); s[|s| - 1]
  }

  /** Length of the longest contiguous common prefix of two segment lists. */
  function CommonPrefixLength(a: seq<string>, b: seq<string>): (n: nat)
    ensures n <= |a| && n <= |b|
    ensures a[..n] == b[..n]
    ensures n == |a| || n == |b| || a[n] != b[n]
  {
    if |a| > 0 && |b| > 0 && a[0] == b[0] then
      var m := CommonPrefixLength(a[1..], b[1..]);
      assert a[..m + 1] == [a[0]] + a[1..][..m];
      assert b[..m + 1] == [b[0]] + b[1..][..m];
      m + 1
    else 0
  }

  /** The reference before disambiguation: one "../" per base directory left
      after the common prefix, then the remaining target segments and the
      target's file joined by "/". */
  function Unprefixed(b: string, t: string): (r: string)
  {
    var dirs, tdirs := BaseDirs(b), TargetDirs(t);
    var n := CommonPrefixLength(dirs, tdirs);
    Repeat("../", |dirs| - n) + Implode(tdirs[n..] + [TargetFile(t)])
  }

  /** getRelativePath's final "./" test, with PHP's precedence: && binds tighter than
      ||, so it is three independent conditions. */
  predicate NeedsDotPrefix(path: string): (r: bool)
    ensures path == "" || path[0] == '/' ==> r
    ensures r && path != "" && path[0] != '/' ==> ':' in path
  {
    path == "" || path[0] == '/' ||
    (var colonPos, slashPos := StrPos(path, ':'), StrPos(path, '/');
     colonPos.Some? && (slashPos.None? || colonPos.value < slashPos.value))
  }

  /** What getRelativePath returns. */
  function RelativePath(b: string, t: string): (r: string)
    ensures r == "" <==> b == t
    ensures r != "" ==> r[0] != '/'
  {
    if b == t then ""
    else
      var path := Unprefixed(b, t);
      if NeedsDotPrefix(path) then "./" + path else path
  }

  /** getRelativePath as the PHP code computes it. The foreach walks a copy
      of the base directories while the unset calls remove entries from the
      front of both arrays, keeping the order of the rest; key i of the PHP
      arrays is therefore always the first key still present. */
  method GetRelativePath(basePath: string, targetPath: string) returns (path: string)
    ensures path == RelativePath(basePath, targetPath)
  {
    if basePath == targetPath {
      return "";
    }
    var sourceDirs := Explode(StripRoot(basePath));
    var targetDirs := Explode(StripRoot(targetPath));
    sourceDirs := sourceDirs[..|sourceDirs| - 1];
    var targetFile := targetDirs[|targetDirs| - 1];
    targetDirs := targetDirs[..|targetDirs| - 1];
    assert sourceDirs == BaseDirs(basePath) && targetDirs == TargetDirs(targetPath);
    assert targetFile == TargetFile(targetPath);

    var dirs := sourceDirs;
    ghost var allTargetDirs := targetDirs;
    var i := 0;
    while i < |dirs|
      invariant i <= |dirs| && i <= |allTargetDirs|
      invariant sourceDirs == dirs[i..] && targetDirs == allTargetDirs[i..]
      invariant dirs[..i] == allTargetDirs[..i]
    {
      var dir := dirs[i];
      if 0 < |targetDirs| && dir == targetDirs[0] {
        sourceDirs, targetDirs := sourceDirs[1..], targetDirs[1..];
      } else {
        break;
      }
      assert dirs[..i + 1] == dirs[..i] + [dirs[i]];
      assert allTargetDirs[..i + 1] == allTargetDirs[..i] + [allTargetDirs[i]];
      i := i + 1;
    }
    CommonPrefixUnique(dirs, allTargetDirs, i);

    targetDirs := targetDirs + [targetFile];
    path := Repeat("../", |sourceDirs|) + Implode(targetDirs);
    assert path == Unprefixed(basePath, targetPath);

    var colonPos, slashPos := StrPos(path, ':'), StrPos(path, '/');
    if path == "" || path[0] == '/' ||
       (colonPos.Some? && (slashPos.None? || colonPos.value < slashPos.value))
    {
      path := "./" + path;
    }
  }

  /** The contiguous common prefix is determined by its three properties: it
      is common, it fits both lists, and it stops at the first mismatch. */
  lemma CommonPrefixUnique(a: seq<string>, b: seq<string>, n: nat)
    requires n <= |a| && n <= |b| && a[..n] == b[..n]
    requires n == |a| || n == |b| || a[n] != b[n]
    ensures n == CommonPrefixLength(a, b)
  {
  }

  /** The empty reference is returned exactly for equal paths; any other pair
      gets a non-empty reference, since an empty one becomes "./". This
      restates RelativePath's first postcondition as a named property. */
  lemma RelativePathEmptyIff(b: string, t: string)
    ensures RelativePath(b, t) == "" <==> b == t
  {
  }

  /** m copies of the segment "..". */
  function Ups(m: nat): (r: seq<string>)
    ensures |r| == m && forall i :: 0 <= i < m ==> r[i] == ".."
  {
    if m == 0 then [] else [".."] + Ups(m - 1)
  }

  /** Prepending one segment commutes with appending a list. */
  lemma ConsAppend(x: string, a: seq<string>, c: seq<string>)
    ensures [x] + a + c == [x] + (a + c)
  {
  }

  /** Each "../" of str_repeat becomes one ".." segment. */
  lemma {:induction false} ExplodeUps(m: nat, y: string)
    ensures Explode(Repeat("../", m) + y) == Ups(m) + Explode(y)
  {
    if m > 0 {
      var rest := Repeat("../", m - 1) + y;
      assert Repeat("../", m) + y == ".." + "/" + rest;
      ExplodeSlash("..", rest);
      ExplodeNoSlash("..");
      ExplodeUps(m - 1, y);
      assert Ups(m) == [".."] + Ups(m - 1);
      ConsAppend("..", Ups(m - 1), Explode(y));
    } else {
      assert Repeat("../", m) + y == y;
    }
  }

  /** getRelativePath before its "./" step, read back as segments: with n the
      length of the longest contiguous common prefix of the base's and the
      target's directories (CommonPrefixLength), it is |BaseDirs(b)| - n
      ".." segments followed by exactly the target's segments from position
      n on. */
  lemma UnprefixedShape(b: string, t: string)
    ensures var n := CommonPrefixLength(BaseDirs(b), TargetDirs(t));
      Explode(Unprefixed(b, t)) == Ups(|BaseDirs(b)| - n) + Segments(t)[n..]
  {
    var dirs, tdirs := BaseDirs(b), TargetDirs(t);
    var n := CommonPrefixLength(dirs, tdirs);
    var rest := tdirs[n..] + [TargetFile(t)];
    assert Unprefixed(b, t) == Repeat("../", |dirs| - n) + Implode(rest);
    TargetTail(t, n);
    ExplodeUps(|dirs| - n, Implode(rest));
  }

  /** The target's directories from position n on and its file, joined by
      "/", read back as exactly the target's segments from position n on. */
  lemma TargetTail(t: string, n: nat)
    requires n <= |TargetDirs(t)|
    ensures Explode(Implode(TargetDirs(t)[n..] + [TargetFile(t)])) == Segments(t)[n..]
  {
    var segs := Segments(t);
    var rest := TargetDirs(t)[n..] + [TargetFile(t)];
    assert rest == segs[n..];
    assert NoSlashes(rest) by {
      forall i | 0 <= i < |rest| ensures '/' !in rest[i] {
        assert rest[i] == segs[n + i];
      }
    }
    ExplodeImplode(rest);
  }

  /** A path with one leading "/" removed, then text without "/" appended. */
  lemma StripRootAppend(d: string, f: string)
    requires '/' !in f
    ensures StripRoot(d + f) == StripRoot(d) + f
  {
    if d == [] {
      assert d + f == f;
      if f != [] { assert f[0] in f; }
    } else {
      assert (d + f)[0] == d[0];
      assert (d + f)[1..] == d[1..] + f;
    }
  }

  /** The result depends on the base only through its directories. */
  lemma SameDirsSameResult(b1: string, b2: string, t: string)
    requires BaseDirs(b1) == BaseDirs(b2) && b1 != t && b2 != t
    ensures RelativePath(b1, t) == RelativePath(b2, t)
  {
    var dirs, tdirs := BaseDirs(b1), TargetDirs(t);
    var n := CommonPrefixLength(dirs, tdirs);
    var path := Repeat("../", |dirs| - n) + Implode(tdirs[n..] + [TargetFile(t)]);
    assert Unprefixed(b1, t) == path;
    assert Unprefixed(b2, t) == path;
  }

  /** getRelativePath pops the base's last segment, so when the paths differ the
      result does not depend on the text after the base's last "/". */
  lemma BaseFileIrrelevant(dir: string, f1: string, f2: string, t: string)
    requires '/' !in f1 && '/' !in f2
    requires dir + f1 != t && dir + f2 != t
    ensures RelativePath(dir + f1, t) == RelativePath(dir + f2, t)
  {
    assert BaseDirs(dir + f1) == BaseDirs(dir + f2) by {
      StripRootAppend(dir, f1);
      StripRootAppend(dir, f2);
      ExplodeAppendNoSlash(StripRoot(dir), f1);
      ExplodeAppendNoSlash(StripRoot(dir), f2);
    }
    SameDirsSameResult(dir + f1, dir + f2, t);
  }

  /** The colon test of getRelativePath's "./" step holds exactly when the first segment
      contains a colon, the case section 4.2 of RFC 3986 forbids in a
      relative-path reference. */
  lemma NeedsDotPrefixMeaning(path: string)
    ensures NeedsDotPrefix(path) <==> path == "" || path[0] == '/' || ':' in Explode(path)[0]
  {
    ExplodeFirst(path);
    var colonPos, slashPos := StrPos(path, ':'), StrPos(path, '/');
    if slashPos.Some? {
      var sl := slashPos.value;
      if colonPos.Some? && colonPos.value < sl {
        assert path[..sl][colonPos.value] == ':';
      }
      if ':' in path[..sl] {
        var i :| 0 <= i < sl && path[..sl][i] == ':';
      }
    }
  }

  /** The result never looks absolute, and no colon in it can be read as
      ending a scheme name: the first segment holds no colon, and every colon
      has a "/" somewhere before it. */
  lemma NoSchemeLikeStart(b: string, t: string)
    ensures var r := RelativePath(b, t);
      r != "" ==> r[0] != '/' && ':' !in Explode(r)[0]
    ensures var r := RelativePath(b, t);
      forall i :: 0 <= i < |r| && r[i] == ':' ==> '/' in r[..i]
  {
    if b != t {
      var path := Unprefixed(b, t);
      NeedsDotPrefixMeaning(path);
      if NeedsDotPrefix(path) {
        DotPrefixedColons(path);
      } else {
        UnprefixedColons(path);
      }
    }
  }

  /** A "./"-prefixed path starts with the segment "." and has a "/" before
      any colon. */
  lemma DotPrefixedColons(path: string)
    ensures var r := "./" + path;
      ':' !in Explode(r)[0] && forall i :: 0 <= i < |r| && r[i] == ':' ==> '/' in r[..i]
  {
    var r := "./" + path;
    assert r == "." + "/" + path;
    ExplodeSlash(".", path);
    ExplodeNoSlash(".");
    forall i | 0 <= i < |r| && r[i] == ':' ensures '/' in r[..i] {
      assert r[..i][1] == '/';
    }
  }

  /** A path the test lets through unchanged has a "/" before any colon. */
  lemma UnprefixedColons(path: string)
    requires !NeedsDotPrefix(path)
    ensures forall i :: 0 <= i < |path| && path[i] == ':' ==> '/' in path[..i]
  {
    forall i | 0 <= i < |path| && path[i] == ':' ensures '/' in path[..i] {
      var colonPos, slashPos := StrPos(path, ':'), StrPos(path, '/');
      assert path[..i][slashPos.value] == '/';
    }
  }

  /** Removing the last segment of a directory stack, as ".." does. */
  function Pop(stack: seq<string>): seq<string>
  {
    if |stack| == 0 then stack else stack[..|stack| - 1]
  }

  /** Following reference segments from a directory stack: ".." goes up one
      directory, any other segment goes down into it. */
  function Follow(stack: seq<string>, segs: seq<string>): seq<string>
    decreases |segs|
  {
    if |segs| == 0 then stack
    else if segs[0] == ".." then Follow(Pop(stack), segs[1..])
    else Follow(stack + [segs[0]], segs[1..])
  }

  /** Where a reference leads from the base's directories: a leading "."
      segment stays in the current directory, the rest is followed. */
  function Resolve(dirs: seq<string>, ref: string): seq<string>
  {
    var segs := Explode(ref);
    Follow(dirs, if segs[0] == "." then segs[1..] else segs)
  }

  /** No "." or ".." segments: the paths getRelativePath's doc
      comment asks for. */
  predicate NoDotSegments(segs: seq<string>)
  {
    forall i :: 0 <= i < |segs| ==> segs[i] != "." && segs[i] != ".."
  }

  lemma {:induction false} FollowUps(stack: seq<string>, m: nat, rest: seq<string>)
    requires m <= |stack|
    ensures Follow(stack, Ups(m) + rest) == Follow(stack[..|stack| - m], rest)
    decreases m
  {
    if m > 0 {
      var segs := Ups(m) + rest;
      assert segs == [".."] + (Ups(m - 1) + rest);
      assert segs[1..] == Ups(m - 1) + rest;
      FollowUps(Pop(stack), m - 1, rest);
      assert Pop(stack)[..|Pop(stack)| - (m - 1)] == stack[..|stack| - m];
    } else {
      assert Ups(m) + rest == rest && stack[..|stack|] == stack;
    }
  }

  lemma {:induction false} FollowDown(stack: seq<string>, rest: seq<string>)
    requires forall i :: 0 <= i < |rest| ==> rest[i] != ".."
    ensures Follow(stack, rest) == stack + rest
    decreases |rest|
  {
    if |rest| > 0 {
      FollowDown(stack + [rest[0]], rest[1..]);
      assert stack + [rest[0]] + rest[1..] == stack + rest;
    }
  }

  /** The "./" prefix adds one leading "." segment, which Resolve skips. */
  lemma DotPrefixSkipped(path: string, r: string)
    requires r == (if NeedsDotPrefix(path) then "./" + path else path)
    requires Explode(path)[0] != "."
    ensures var segs := Explode(r);
      (if segs[0] == "." then segs[1..] else segs) == Explode(path)
  {
    if NeedsDotPrefix(path) {
      assert r == "." + "/" + path;
      ExplodeSlash(".", path);
      ExplodeNoSlash(".");
    }
  }

  /** The segments that Resolve follows in the result: the ".." segments,
      then the target's remaining directories and its file. */
  lemma FollowedSegments(b: string, t: string, dirs: seq<string>)
    requires b != t && NoDotSegments(Segments(t))
    ensures var n := CommonPrefixLength(BaseDirs(b), TargetDirs(t));
      Resolve(dirs, RelativePath(b, t)) == Follow(dirs, Ups(|BaseDirs(b)| - n) + Segments(t)[n..])
  {
    var n := CommonPrefixLength(BaseDirs(b), TargetDirs(t));
    var m := |BaseDirs(b)| - n;
    var rest := Segments(t)[n..];
    var path := Unprefixed(b, t);
    UnprefixedShape(b, t);
    assert (Ups(m) + rest)[0] != "." by {
      if m == 0 {
        assert (Ups(m) + rest)[0] == Segments(t)[n];
      }
    }
    DotPrefixSkipped(path, RelativePath(b, t));
  }

  /** Going up to a common ancestor and down the rest of a path without dot
      segments arrives at that path. */
  lemma FollowBack(dirs: seq<string>, segs: seq<string>, n: nat)
    requires n <= |dirs| && n <= |segs| && dirs[..n] == segs[..n]
    requires NoDotSegments(segs)
    ensures Follow(dirs, Ups(|dirs| - n) + segs[n..]) == segs
  {
    FollowUps(dirs, |dirs| - n, segs[n..]);
    assert dirs[..|dirs| - (|dirs| - n)] == segs[..n];
    FollowDown(segs[..n], segs[n..]);
    assert segs[..n] + segs[n..] == segs;
  }

  /** The common prefix of the directories is a prefix of the target's
      segments too. */
  lemma CommonPrefixOfSegments(b: string, t: string)
    ensures var n := CommonPrefixLength(BaseDirs(b), TargetDirs(t));
      n <= |Segments(t)| && BaseDirs(b)[..n] == Segments(t)[..n]
  {
    var n := CommonPrefixLength(BaseDirs(b), TargetDirs(t));
    assert TargetDirs(t)[..n] == Segments(t)[..n];
  }

  /** Round trip: for different paths whose target has no "." or ".."
      segments, following the result from the base's directory arrives at
      exactly the target's segments. */
  lemma RoundTrip(b: string, t: string)
    requires b != t && NoDotSegments(Segments(t))
    ensures Resolve(BaseDirs(b), RelativePath(b, t)) == Segments(t)
  {
    FollowedSegments(b, t, BaseDirs(b));
    TargetReached(b, t);
  }

  /** Going up from the base's directories to the common prefix and down the
      target's remaining segments arrives at the target's segments. */
  lemma TargetReached(b: string, t: string)
    requires NoDotSegments(Segments(t))
    ensures var n := CommonPrefixLength(BaseDirs(b), TargetDirs(t));
      Follow(BaseDirs(b), Ups(|BaseDirs(b)| - n) + Segments(t)[n..]) == Segments(t)
  {
    CommonPrefixOfSegments(b, t);
    FollowBack(BaseDirs(b), Segments(t), CommonPrefixLength(BaseDirs(b), TargetDirs(t)));
  }

  /** An absolute path built from slash-free names has those names as segments. */
  lemma SegmentsOfNames(names: seq<string>)
    requires |names| >= 1 && NoSlashes(names)
    ensures Segments("/" + Implode(names)) == names
  {
    assert StripRoot("/" + Implode(names)) == Implode(names);
    ExplodeImplode(names);
  }

  /** Any base with the segments a, b, c, d, as in getRelativePath's doc comment. */
  predicate DocBase(b: string)
  {
    Segments(b) == ["a", "b", "c", "d"]
  }

  lemma DocExampleDir(b: string, t: string)
    requires DocBase(b) && Segments(t) == ["a", "b", "c", ""] && b != t
    ensures RelativePath(b, t) == "./"
  {
    var dirs := ["a", "b", "c"];
    assert BaseDirs(b) == dirs && TargetDirs(t) == dirs && TargetFile(t) == "";
    CommonPrefixUnique(dirs, dirs, 3);
    assert Unprefixed(b, t) == "";
  }

  lemma DocExampleParent(b: string, t: string)
    requires DocBase(b) && Segments(t) == ["a", "b", ""] && b != t
    ensures RelativePath(b, t) == "../"
  {
    assert BaseDirs(b) == ["a", "b", "c"];
    assert TargetDirs(t) == ["a", "b"] && TargetFile(t) == "";
    CommonPrefixUnique(["a", "b", "c"], ["a", "b"], 2);
    assert Repeat("../", 1) == "../";
    assert Unprefixed(b, t) == "../";
    assert ':' !in "../";
    assert !NeedsDotPrefix("../");
  }

  lemma DocExampleSibling(b: string, t: string)
    requires DocBase(b) && Segments(t) == ["a", "b", "c", "other"] && b != t
    ensures RelativePath(b, t) == "other"
  {
    var dirs := ["a", "b", "c"];
    assert BaseDirs(b) == dirs && TargetDirs(t) == dirs && TargetFile(t) == "other";
    CommonPrefixUnique(dirs, dirs, 3);
    assert Unprefixed(b, t) == "other";
    assert ':' !in "other";
    assert !NeedsDotPrefix("other");
  }

  /** The cousin example before disambiguation: two "../" and then x/y. */
  lemma CousinUnprefixed(b: string, t: string)
    requires DocBase(b) && Segments(t) == ["a", "x", "y"]
    ensures Unprefixed(b, t) == Repeat("../", 2) + Implode(["x", "y"])
  {
    assert BaseDirs(b) == ["a", "b", "c"];
    assert TargetDirs(t) == ["a", "x"] && TargetFile(t) == "y";
    CommonPrefixUnique(["a", "b", "c"], ["a", "x"], 1);
    assert ["a", "x"][1..] + ["y"] == ["x", "y"];
  }

  lemma DocExampleCousin(b: string, t: string)
    requires DocBase(b) && Segments(t) == ["a", "x", "y"] && b != t
    ensures RelativePath(b, t) == "../../x/y"
  {
    CousinUnprefixed(b, t);
    assert Repeat("../", 2) + Implode(["x", "y"]) == "../../x/y" by {
      assert Repeat("../", 2) == "../../";
      assert Implode(["x", "y"]) == "x/y";
    }
    assert !NeedsDotPrefix("../../x/y") by {
      assert ':' !in "../../x/y";
    }
  }

  /** The segments of each literal path of the examples, each in a lemma of
      its own so that evaluating the literal stays out of the examples'
      proofs. */
  lemma DocBaseSegments()
    ensures DocBase("/a/b/c/d")
  {
    assert Implode(["a", "b", "c", "d"]) == "a/b/c/d";
    SegmentsOfNames(["a", "b", "c", "d"]);
  }

  lemma DirTargetSegments()
    ensures Segments("/a/b/c/") == ["a", "b", "c", ""]
  {
    assert Implode(["a", "b", "c", ""]) == "a/b/c/";
    SegmentsOfNames(["a", "b", "c", ""]);
  }

  lemma DocTargetDir()
    ensures RelativePath("/a/b/c/d", "/a/b/c/") == "./"
  {
    DocBaseSegments();
    DirTargetSegments();
    DocExampleDir("/a/b/c/d", "/a/b/c/");
  }

  lemma ParentTargetSegments()
    ensures Segments("/a/b/") == ["a", "b", ""]
  {
    assert Implode(["a", "b", ""]) == "a/b/";
    SegmentsOfNames(["a", "b", ""]);
  }

  lemma DocTargetParent()
    ensures RelativePath("/a/b/c/d", "/a/b/") == "../"
  {
    DocBaseSegments();
    ParentTargetSegments();
    DocExampleParent("/a/b/c/d", "/a/b/");
  }

  lemma SiblingTargetSegments()
    ensures Segments("/a/b/c/other") == ["a", "b", "c", "other"]
  {
    assert Implode(["a", "b", "c", "other"]) == "a/b/c/other";
    SegmentsOfNames(["a", "b", "c", "other"]);
  }

  lemma DocTargetSibling()
    ensures RelativePath("/a/b/c/d", "/a/b/c/other") == "other"
  {
    DocBaseSegments();
    SiblingTargetSegments();
    DocExampleSibling("/a/b/c/d", "/a/b/c/other");
  }

  lemma CousinTargetSegments()
    ensures Segments("/a/x/y") == ["a", "x", "y"]
  {
    assert Implode(["a", "x", "y"]) == "a/x/y";
    SegmentsOfNames(["a", "x", "y"]);
  }

  lemma DocTargetCousin()
    ensures RelativePath("/a/b/c/d", "/a/x/y") == "../../x/y"
  {
    DocBaseSegments();
    CousinTargetSegments();
    DocExampleCousin("/a/b/c/d", "/a/x/y");
  }

  /** The examples of getRelativePath's doc comment, for the base path "/a/b/c/d". */
  lemma DocExamples()
    ensures RelativePath("/a/b/c/d", "/a/b/c/d") == ""
    ensures RelativePath("/a/b/c/d", "/a/b/c/") == "./"
    ensures RelativePath("/a/b/c/d", "/a/b/") == "../"
    ensures RelativePath("/a/b/c/d", "/a/b/c/other") == "other"
    ensures RelativePath("/a/b/c/d", "/a/x/y") == "../../x/y"
  {
    DocTargetDir();
    DocTargetParent();
    DocTargetSibling();
    DocTargetCousin();
  }
}
