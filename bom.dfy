/** removeBOM: strips one UTF-8 byte order mark from the front of a file's
    contents. PHP strings are byte strings, so this module works on bytes. */
module Bom {

  newtype byte = x: int | 0 <= x < 256

  /** pack('CCC', 0xef, 0xbb, 0xbf): the UTF-8 encoding of U+FEFF. */
  const Mark: seq<byte> := [0xEF, 0xBB, 0xBF]

  /** removeBOM's comparison of the first three bytes with the mark. substr($s, 0, 3) is the whole string when
      it is shorter than three bytes, and then cannot equal the mark; both
      operands are non-numeric strings, so == compares bytes. */
  predicate StartsWithMark(s: seq<byte>): (r: bool)
    ensures r <==> |s| >= 3 && s[0] == 0xEF && s[1] == 0xBB && s[2] == 0xBF
  {
    |s| >= 3 && s[..3] == Mark
  }

  /** removeBOM, with PHP 7 semantics for substr($s, 3): the empty string
      when exactly three bytes remain to be cut. */
  function RemoveBOM(s: seq<byte>): (r: seq<byte>)
    ensures StartsWithMark(s) ==> s == Mark + r
    ensures !StartsWithMark(s) ==> r == s
  {
    if StartsWithMark(s) then s[3..] else s
  }

  /** A mark followed by any contents gives back those contents. */
  lemma RemoveBOMAfterMark(s: seq<byte>)
    ensures RemoveBOM(Mark + s) == s
  {
    assert (Mark + s)[..3] == Mark;
  }

  /** Only one mark is removed: a second one stays in place. */
  lemma RemoveBOMAtMostOne(s: seq<byte>)
    ensures RemoveBOM(Mark + Mark + s) == Mark + s
  {
    assert (Mark + Mark + s)[..3] == Mark;
    assert (Mark + Mark + s)[3..] == Mark + s;
  }

  /** The result is the input itself or the input without its first three
      bytes, and it is the input itself exactly when no mark leads. */
  lemma RemoveBOMSuffix(s: seq<byte>)
    ensures var r := RemoveBOM(s);
      (r == s || (|s| >= 3 && r == s[3..])) && (r == s <==> !StartsWithMark(s))
  {
  }
}
