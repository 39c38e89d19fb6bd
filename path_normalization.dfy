/** normalizePath: Windows directory separators become forward slashes. The
    same replacement, written with strtr, normalizes every path and every
    filesystem answer in is_symlink and symlink_target. */
module PathNormalization {

  /** str_replace('\\', '/', path). */
  function NormalizePath(path: string): (r: string)
    ensures |r| == |path|
    ensures forall i :: 0 <= i < |path| && path[i] != '\\' ==> r[i] == path[i]
    ensures forall i :: 0 <= i < |path| && path[i] == '\\' ==> r[i] == '/'
    ensures '\\' !in r
  {
    if path == [] then []
    else [if path[0] == '\\' then '/' else path[0]] + NormalizePath(path[1..])
  }

  /** Normalizing twice is normalizing once. */
  lemma NormalizePathIdempotent(path: string)
    ensures NormalizePath(NormalizePath(path)) == NormalizePath(path)
  {
    var r := NormalizePath(path);
    var rr := NormalizePath(r);
    assert forall i :: 0 <= i < |r| ==> rr[i] == r[i];
  }

  /** A path without backslashes is left as it is. */
  lemma NormalizePathIdentity(path: string)
    requires '\\' !in path
    ensures NormalizePath(path) == path
  {
    var r := NormalizePath(path);
    assert forall i :: 0 <= i < |path| ==> r[i] == path[i];
  }
}
