/** The few PHP string built-ins that io.php's path logic relies on, as functions
    over Dafny strings: explode and implode on "/", str_repeat, and strpos of one
    character. Each is specified independently of its body, and explode and
    implode are proved to be inverse to each other. */
module PhpStrings {

  datatype Option<T> = None | Some(value: T)

  /** explode('/', s): the pieces of s between slashes, in order. PHP returns
      [""] for the empty string, so the result is never empty. */
  function Explode(s: string): (r: seq<string>)
    ensures |r| >= 1
    ensures forall i :: 0 <= i < |r| ==> '/' !in r[i]
    decreases |s|
  {
    if s == [] then [""]
    else if s[0] == '/' then [""] + Explode(s[1..])
    else
      var rest := Explode(s[1..]);
      [[s[0]] + rest[0]] + rest[1..]
  }

  /** implode('/', segs): the segments joined by single slashes. */
  function Implode(segs: seq<string>): (r: string)
    ensures |segs| == 0 ==> r == ""
    ensures |segs| >= 1 ==> segs[0] <= r
    ensures |segs| > 1 ==> segs[0] + "/" <= r
  {
    if |segs| == 0 then ""
    else if |segs| == 1 then segs[0]
    else segs[0] + "/" + Implode(segs[1..])
  }

  /** str_repeat(s, n). */
  function Repeat(s: string, n: nat): (r: string)
    ensures |r| == |s| * n
    ensures n > 0 ==> s <= r
  {
    if n == 0 then "" else s + Repeat(s, n - 1)
  }

  /** strpos(s, c) for a single character: the first position of c, or None
      where PHP returns false. */
  function StrPos(s: string, c: char): (r: Option<nat>)
    ensures r.None? <==> c !in s
    ensures r.Some? ==> r.value < |s| && s[r.value] == c && c !in s[..r.value]
  {
    if s == [] then None
    else if s[0] == c then Some(0)
    else
      var p := StrPos(s[1..], c);
      assert s[1..] == s[1..][..] && s == [s[0]] + s[1..];
      if p.None? then None
      else
        assert s[..p.value + 1] == [s[0]] + s[1..][..p.value];
        Some(p.value + 1)
  }

  predicate NoSlashes(segs: seq<string>)
  {
    forall i :: 0 <= i < |segs| ==> '/' !in segs[i]
  }

  /** A string without a slash explodes to itself alone. */
  lemma {:induction false} ExplodeNoSlash(s: string)
    requires '/' !in s
    ensures Explode(s) == [s]
    decreases |s|
  {
    if s != [] {
      assert '/' !in s[1..];
      ExplodeNoSlash(s[1..]);
      assert [s[0]] + s[1..] == s;
    }
  }

  /** A slash splits the pieces of what comes before from those after it. */
  lemma {:induction false} ExplodeSlash(x: string, y: string)
    ensures Explode(x + "/" + y) == Explode(x) + Explode(y)
    decreases |x|
  {
    var s := x + "/" + y;
    if x == [] {
      assert s[0] == '/' && s[1..] == y;
    } else {
      assert s[0] == x[0] && s[1..] == x[1..] + "/" + y;
      ExplodeSlash(x[1..], y);
    }
  }

  /** Appending slash-free text only lengthens the last piece. */
  lemma {:induction false} ExplodeAppendNoSlash(x: string, y: string)
    requires '/' !in y
    ensures var e, f := Explode(x + y), Explode(x);
      |e| == |f| && e[..|e| - 1] == f[..|f| - 1]
    decreases |x|
  {
    if x == [] {
      assert x + y == y;
      ExplodeNoSlash(y);
    } else {
      var s := x + y;
      assert s[0] == x[0] && s[1..] == x[1..] + y;
      ExplodeAppendNoSlash(x[1..], y);
      var r, r' := Explode(s[1..]), Explode(x[1..]);
      var e, f := Explode(s), Explode(x);
      assert |r| == |r'| && r[..|r| - 1] == r'[..|r'| - 1];
      if x[0] == '/' {
        assert e == [""] + r && f == [""] + r';
        assert e[..|e| - 1] == [""] + r[..|r| - 1];
        assert f[..|f| - 1] == [""] + r'[..|r'| - 1];
      } else {
        assert e == [[x[0]] + r[0]] + r[1..] && f == [[x[0]] + r'[0]] + r'[1..];
        if |r| > 1 {
          assert r[0] == r[..|r| - 1][0] == r'[..|r'| - 1][0] == r'[0];
          assert e[..|e| - 1] == [[x[0]] + r[0]] + r[1..|r| - 1];
          assert f[..|f| - 1] == [[x[0]] + r'[0]] + r'[1..|r'| - 1];
          assert r[1..|r| - 1] == r[..|r| - 1][1..] == r'[..|r'| - 1][1..] == r'[1..|r'| - 1];
        }
      }
    }
  }

  /** implode undoes explode. */
  lemma {:induction false} ImplodeExplode(s: string)
    ensures Implode(Explode(s)) == s
    decreases |s|
  {
    if s != [] {
      var rest := Explode(s[1..]);
      ImplodeExplode(s[1..]);
      if s[0] == '/' {
        assert Explode(s) == [""] + rest;
        assert ([""] + rest)[1..] == rest;
      } else if |rest| > 1 {
        var segs := [[s[0]] + rest[0]] + rest[1..];
        assert segs[1..] == rest[1..];
        assert Implode(rest) == rest[0] + "/" + Implode(rest[1..]);
      }
    }
  }

  /** explode undoes implode, for segments without slashes. */
  lemma {:induction false} ExplodeImplode(segs: seq<string>)
    requires |segs| >= 1 && NoSlashes(segs)
    ensures Explode(Implode(segs)) == segs
    decreases |segs|
  {
    if |segs| == 1 {
      ExplodeNoSlash(segs[0]);
    } else {
      ExplodeImplode(segs[1..]);
      assert '/' !in segs[0];
      ExplodeNoSlash(segs[0]);
      ExplodeSlash(segs[0], Implode(segs[1..]));
      assert segs == [segs[0]] + segs[1..];
    }
  }

  /** The first piece of explode is the text before the first slash. */
  lemma {:induction false} ExplodeFirst(s: string)
    ensures var p := StrPos(s, '/');
      Explode(s)[0] == if p.None? then s else s[..p.value]
    decreases |s|
  {
    if s != [] && s[0] != '/' {
      ExplodeFirst(s[1..]);
      var p := StrPos(s[1..], '/');
      if p.Some? {
        assert s[..p.value + 1] == [s[0]] + s[1..][..p.value];
      }
    }
  }
}
