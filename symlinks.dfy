/** is_symlink and symlink_target: classify a path as a symbolic link and
    find what it points to. The two filesystem queries they make, realpath and
    readlink on the normalized path, are parameters here: None stands for the
    false that PHP returns when the query fails. */
module Symlinks {
  import opened PhpStrings
  import opened PathNormalization

  /** strtr(answer, '\\', '/'): PHP turns a failed query's false into "". */
  function NormalizeAnswer(answer: Option<string>): (r: string)
    ensures answer.None? ==> r == ""
    ensures answer.Some? ==> |r| == |answer.value|
    ensures '\\' !in r
  {
    match answer
    case None => ""
    case Some(s) => NormalizePath(s)
  }

  /** The truth value of a PHP string: "" and "0" are false. */
  predicate Truthy(s: string): (r: bool)
    ensures r ==> |s| >= 1
    ensures |s| == 1 ==> (r <==> s[0] != '0')
    ensures |s| >= 2 ==> r
  {
    s != "" && s != "0"
  }

  /** is_symlink(target). realpath and readlink are the answers for the
      target after normalization. A path is reported as plain only when
      realpath resolves it to itself, and such a path is reported as a
      symlink only when readlink names some other, truthy target. */
  function IsSymlink(target: string, realpath: Option<string>, readlink: Option<string>): (r: bool)
    ensures !r ==> NormalizeAnswer(realpath) == NormalizePath(target)
    ensures r && NormalizeAnswer(realpath) == NormalizePath(target) ==>
      Truthy(NormalizeAnswer(readlink)) && NormalizeAnswer(readlink) != NormalizePath(target)
  {
    var target := NormalizePath(target);
    if NormalizeAnswer(realpath) != target then true
    else
      var link := NormalizeAnswer(readlink);
      Truthy(link) && link != target
  }

  /** symlink_target(path), with the same answers as parameters. Every
      answer it can return has been normalized. */
  function SymlinkTarget(path: string, realpath: Option<string>, readlink: Option<string>): (r: string)
    ensures '\\' !in r
    ensures NormalizeAnswer(realpath) != NormalizePath(path) ==> r == NormalizeAnswer(realpath)
    ensures r != NormalizePath(path) && NormalizeAnswer(realpath) == NormalizePath(path) ==>
      r == NormalizeAnswer(readlink) && Truthy(r)
  {
    var path := NormalizePath(path);
    var resolved := NormalizeAnswer(realpath);
    if resolved != path then resolved
    else
      var link := NormalizeAnswer(readlink);
      if Truthy(link) && link != path then link else path
  }

  /** Given the same answers, a path is a symlink exactly when its target
      differs from the normalized path itself. */
  lemma SymlinkIffTargetDiffers(p: string, realpath: Option<string>, readlink: Option<string>)
    ensures IsSymlink(p, realpath, readlink) <==> SymlinkTarget(p, realpath, readlink) != NormalizePath(p)
  {
  }

  /** When realpath fails on a non-empty path, the normalized answer "" already
      differs from the path: the path is reported as a symlink whose target is
      "", and the broken-link fallback through readlink is never reached. */
  lemma RealpathFailure(p: string, readlink: Option<string>)
    requires p != ""
    ensures IsSymlink(p, None, readlink)
    ensures SymlinkTarget(p, None, readlink) == ""
  {
  }

  /** readlink is consulted only when the normalized realpath answer equals
      the normalized path: otherwise neither result depends on it. */
  lemma ReadlinkOnlyAsFallback(p: string, realpath: Option<string>, link1: Option<string>, link2: Option<string>)
    requires NormalizeAnswer(realpath) != NormalizePath(p)
    ensures IsSymlink(p, realpath, link1) == IsSymlink(p, realpath, link2)
    ensures SymlinkTarget(p, realpath, link1) == SymlinkTarget(p, realpath, link2)
  {
  }

  /** An entry that resolves to itself (up to separators) and whose readlink
      answer is false, "" or "0" is not a symlink, and is its own target. */
  lemma PlainEntry(p: string, resolved: string, readlink: Option<string>)
    requires NormalizePath(resolved) == NormalizePath(p)
    requires !Truthy(NormalizeAnswer(readlink))
    ensures !IsSymlink(p, Some(resolved), readlink)
    ensures SymlinkTarget(p, Some(resolved), readlink) == NormalizePath(p)
  {
  }

  /** The broken-link fallback: a path that realpath resolves to itself (up to
      separators) but whose readlink answer is truthy and different is a
      symlink, and its target is that readlink answer. */
  lemma BrokenLinkFallback(p: string, resolved: string, link: Option<string>)
    requires NormalizePath(resolved) == NormalizePath(p)
    requires Truthy(NormalizeAnswer(link)) && NormalizeAnswer(link) != NormalizePath(p)
    ensures IsSymlink(p, Some(resolved), link)
    ensures SymlinkTarget(p, Some(resolved), link) == NormalizeAnswer(link)
  {
  }

  /** PHP's truthiness quirk: an entry that resolves to itself and whose
      readlink answer is "0" (a link to a file named 0) is reported as plain,
      and is its own target. */
  lemma ReadlinkZeroIsPlain(p: string, resolved: string)
    requires NormalizePath(resolved) == NormalizePath(p)
    ensures !IsSymlink(p, Some(resolved), Some("0"))
    ensures SymlinkTarget(p, Some(resolved), Some("0")) == NormalizePath(p)
  {
    assert NormalizeAnswer(Some("0")) == "0";
  }
}
