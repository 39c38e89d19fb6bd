# php-utils `io.php`: path and byte-string helpers in Dafny

This project models the pure logic of `src/io.php`, a collection of PHP
filesystem helpers, and proves properties of it:

- **`getRelativePath($basePath, $targetPath)`**: the relative reference from a
  base path (read as a file: its last segment is dropped) to a target path. It
  strips one leading `/`, explodes both paths on `/`, pops the base's file and
  the target's file, unsets the longest contiguous common prefix of directories,
  emits one `../` per remaining base directory followed by the remaining target
  segments and file joined by `/`, and finally prefixes `./` when that is empty,
  starts with `/`, or has a colon before the first `/` (section 4.2 of RFC 3986:
  such a first segment would be read as a scheme name).
  `RelativePaths.GetRelativePath` follows the PHP code step by step, including
  the `foreach` over a copy of the base directories that breaks at the first
  mismatch. Its postcondition ties it to the function `RelativePaths.RelativePath`,
  and the lemmas are stated about that function.
- **`normalizePath($path)`**: every `\` becomes `/`.
- **`removeBOM($string)`**: one leading UTF-8 byte order mark (EF BB BF) is
  removed. This is modelled on a `byte` newtype, because PHP strings are byte
  strings.
- **`is_symlink($target)` / `symlink_target($path)`**: these classify a path as a
  symbolic link and find its target. Their two filesystem queries, `realpath`
  and `readlink` of the normalized path, are parameters of type
  `Option<string>`. `None` stands for PHP's `false`, which `strtr` turns into
  `""`. The test `$link && …` treats `""` and `"0"` as false.

The PHP built-ins the path logic relies on are modelled as functions in
`PhpStrings`: `explode('/')`, `implode('/')`, `str_repeat` and `strpos`.
The path functions work on Dafny `string`s, in which each `char` stands for
one byte of the PHP string: `explode`, `strpos`, `str_replace` and `strtr`
all work byte by byte, and so does the model.

Two PHP details are reproduced. First, `unset` inside the `foreach` removes
entries from the front of both arrays and keeps the rest in order, so the
model drops a common prefix of two sequences. Second, `&&` binds tighter
than `||`, so the test at lines 217-219 is three independent conditions, and
the `./` prefix applies to each of them.

`is_symlink` reports a symlink whenever the normalized `realpath` answer
differs from the normalized path. A failed
`realpath` becomes `""`, which differs from every non-empty path. So
`is_symlink` is true, and `symlink_target` is `""`, for any non-empty path
whose `realpath` fails, broken link or not. The `readlink` fallback is never
reached in that case (`Symlinks.RealpathFailure`).

## Model

| member | source | states |
|---|---|---|
| `RelativePaths.RelativePath` | src/io.php:190-220 | the result of `getRelativePath`: `""` exactly for equal paths, and a non-empty result never starts with `/` |
| `RelativePaths.NeedsDotPrefix` | src/io.php:217-219 | the three-way `./` test: an empty or `/`-leading path always needs the prefix, and any other path needs it only if it contains a colon |
| `RelativePaths.StripRoot` | src/io.php:196-197 | the `isset(…[0]) && '/' === …[0] ? substr(…, 1)` step: a path starting with `/` is `/` followed by the result, and any other path is returned as it is |
| `RelativePaths.BaseDirs` | src/io.php:196-198 | `explode` and then `array_pop` of the base: every segment but the last, in order |
| `RelativePaths.TargetDirs` | src/io.php:197-199 | `explode` and then `array_pop` of the target: every segment but the last, in order |
| `RelativePaths.TargetFile` | src/io.php:197-199 | the segment `array_pop` removes from the target: the directories followed by it are all the segments, and it contains no `/` |
| `RelativePaths.Unprefixed` | src/io.php:196-211 | the `$path` before the `./` test: `"../"` once per base directory left after the common prefix, then the remaining target directories and the target file joined by `/`; its properties are proved in `UnprefixedShape` |
| `RelativePaths.GetRelativePath` | src/io.php:190-221 | the imperative computation (early return, `array_pop`s, the `foreach`/`unset` loop with `break`, implode, `./` test) returns exactly `RelativePath(b, t)`; loop invariants keep the unset prefix common to both arrays |
| `RelativePaths.RelativePathEmptyIff` | src/io.php:192-194 | the result is `""` if and only if `b == t`; every other pair gets a non-empty reference, because an empty one becomes `"./"` |
| `RelativePaths.DocExamples` | src/io.php:176-181 | for base `/a/b/c/d` the targets `/a/b/c/d`, `/a/b/c/`, `/a/b/`, `/a/b/c/other`, `/a/x/y` give `""`, `"./"`, `"../"`, `"other"`, `"../../x/y"` |
| `RelativePaths.DocExampleDir` | src/io.php:178 | any base with segments a,b,c,d and any different target with segments a,b,c,"" give `"./"` |
| `RelativePaths.DocExampleParent` | src/io.php:179 | a base with segments a,b,c,d and a target with segments a,b,"" give `"../"` |
| `RelativePaths.DocExampleSibling` | src/io.php:180 | a base with segments a,b,c,d and a target with segments a,b,c,other give `"other"` |
| `RelativePaths.DocExampleCousin` | src/io.php:181 | a base with segments a,b,c,d and a target with segments a,x,y give `"../../x/y"` |
| `RelativePaths.CommonPrefixLength` | src/io.php:201-208 | the number of directories the loop unsets: a common prefix of both lists that stops at the end of either list or at the first mismatch |
| `RelativePaths.CommonPrefixUnique` | src/io.php:201-208 | any n that is common, fits both lists and stops at a mismatch is that length: only a contiguous prefix counts |
| `RelativePaths.UnprefixedShape` | src/io.php:196-211 | the `$path` before the `./` step, read back as segments, is `..` once per base directory left after the common prefix, followed by exactly the target's segments from the common prefix on |
| `RelativePaths.TargetTail` | src/io.php:209-211 | the target's directories after the common prefix plus its file, imploded and exploded again, are exactly the target's segments after the prefix |
| `RelativePaths.DotPrefixedColons` | src/io.php:217-220 | after the `./` prefix the first segment is `.`, which has no colon, and every colon has a `/` before it |
| `RelativePaths.UnprefixedColons` | src/io.php:217-219 | a path the test leaves alone has a `/` before each of its colons |
| `RelativePaths.BaseFileIrrelevant` | src/io.php:198 | for paths different from the target, changing only the text after the base's last `/` does not change the result |
| `RelativePaths.SameDirsSameResult` | src/io.php:196-211 | two bases with the same directory segments give the same reference to any target different from both |
| `RelativePaths.NeedsDotPrefixMeaning` | src/io.php:213-219 | the three-way test as written (with `strpos`) holds exactly when the path is empty, starts with `/`, or its first segment contains a colon |
| `RelativePaths.NoSchemeLikeStart` | src/io.php:213-220 | a non-empty result never starts with `/`, its first segment holds no colon, and every colon in it has a `/` before it |
| `RelativePaths.RoundTrip` | src/io.php:169-172 | for `b != t` and a target without `.`/`..` segments, starting from the base's directories, skipping a leading `.`, popping per `..` and pushing every other segment of the result gives exactly the target's segments |
| `RelativePaths.FollowedSegments` | src/io.php:196-220 | following the result from any directory stack, with a leading `.` skipped, equals following that many `..` segments and then the target's segments after the common prefix |
| `RelativePaths.FollowBack` | src/io.php:169-172 | going up to a common ancestor and down the rest of a path without dot segments arrives at that path |
| `RelativePaths.ExplodeUps` | src/io.php:211 | each `"../"` of `str_repeat` reads back as one `..` segment |
| `RelativePaths.StripRootAppend` | src/io.php:196 | stripping one leading `/` commutes with appending text that has no `/` |
| `PhpStrings.Implode` | src/io.php:210-211 | `implode('/')`: `""` for no segments; the first segment leads the result, followed by a `/` when there are more |
| `PhpStrings.Repeat` | src/io.php:211 | `str_repeat`: the result is n times as long as the repeated text and starts with it when n > 0 |
| `PhpStrings.Explode` | src/io.php:196-197 | `explode('/')` gives at least one piece and no piece contains `/` |
| `PhpStrings.ImplodeExplode` | src/io.php:196-211 | `implode('/')` undoes `explode('/')` |
| `PhpStrings.ExplodeImplode` | src/io.php:196-211 | `explode('/')` undoes `implode('/')` for at least one segment without slashes |
| `PhpStrings.ExplodeSlash` | src/io.php:196-197 | a `/` separates the pieces before it from those after it |
| `PhpStrings.ExplodeAppendNoSlash` | src/io.php:196-198 | appending text without `/` changes only the last piece, the one `array_pop` removes |
| `PhpStrings.ExplodeFirst` | src/io.php:218-219 | the first piece is the text before the first `/` found by `strpos`, or the whole string |
| `PhpStrings.StrPos` | src/io.php:218-219 | `strpos` of one character: `None` (PHP's false) exactly when the character is absent, otherwise its first position |
| `PathNormalization.NormalizePath` | src/io.php:248-251 | same length, every non-`\` character unchanged, every `\` becomes `/`, no `\` remains |
| `PathNormalization.NormalizePathIdempotent` | src/io.php:248-251 | normalizing twice equals normalizing once |
| `PathNormalization.NormalizePathIdentity` | src/io.php:248-251 | a path without `\` is unchanged |
| `Bom.StartsWithMark` | src/io.php:317 | the comparison of the first three bytes with the mark holds exactly when there are at least three bytes and they are EF, BB, BF |
| `Bom.RemoveBOM` | src/io.php:315-320 | if the input starts with EF BB BF it is the mark followed by the result, otherwise the result is the input |
| `Bom.RemoveBOMAfterMark` | src/io.php:315-320 | a mark followed by s gives s |
| `Bom.RemoveBOMAtMostOne` | src/io.php:315-320 | of two leading marks only the first is removed |
| `Bom.RemoveBOMSuffix` | src/io.php:315-320 | the result is the input or the input minus its first three bytes, and it is the input exactly when no mark leads |
| `Symlinks.NormalizeAnswer` | src/io.php:94-100 | `strtr` of a `realpath`/`readlink` answer, here in `is_symlink` and likewise at lines 118 and 124 of `symlink_target`: PHP's `false` becomes `""`, a string keeps its length, and no `\` remains |
| `Symlinks.Truthy` | src/io.php:102 | the truth value of `$link` (also at line 126): `""` is false, a one-byte string is true exactly when it is not `"0"`, and every longer string is true |
| `Symlinks.IsSymlink` | src/io.php:91-106 | a path is reported as plain only when `realpath` resolves it to itself, and such a path is reported as a symlink only when `readlink` gives a truthy answer different from it |
| `Symlinks.SymlinkTarget` | src/io.php:115-130 | the answer is normalized (no `\`); it is the normalized `realpath` answer whenever that differs from the normalized path; otherwise, when it differs from the path, it is the truthy `readlink` answer |
| `Symlinks.BrokenLinkFallback` | src/io.php:98-127 | a path that `realpath` resolves to itself but whose `readlink` answer is truthy and different is a symlink, and its target is that `readlink` answer |
| `Symlinks.ReadlinkZeroIsPlain` | src/io.php:96-105 | a path that resolves to itself and whose `readlink` answer is `"0"` is not a symlink and is its own target, because PHP reads `"0"` as false |
| `Symlinks.SymlinkIffTargetDiffers` | src/io.php:91-130 | for the same realpath/readlink answers, `is_symlink(p)` holds exactly when `symlink_target(p)` differs from p normalized |
| `Symlinks.RealpathFailure` | src/io.php:93-97 | when realpath fails on a non-empty path the path counts as a symlink with target `""`, whatever readlink says |
| `Symlinks.ReadlinkOnlyAsFallback` | src/io.php:96-103 | when the normalized realpath answer differs from the normalized path, neither result depends on readlink |
| `Symlinks.PlainEntry` | src/io.php:96-105 | an entry that resolves to itself up to separators, with a false, `""` or `"0"` readlink answer, is not a symlink and is its own target |

## Left out

- `rrmdir` (src/io.php:47-83): its behaviour is made of filesystem calls (`is_dir`, `filetype`, `scandir`, `rmdir`, `unlink`) and a `PHP_OS` check, and it returns nothing. Its only decision logic is the symlink classification, which is modelled. Its POSIX branch does nothing for a non-directory, and its first `is_dir` follows symlinks. Neither is modelled.
- `dirList`: it wraps `DirectoryIterator` and PHP's `sort`.
- `tempdir`: it uses `mt_rand` and retries `mkdir` in a loop.
- `updir`, `dirnameEx`: they depend on PHP's `dirname` and `DIRECTORY_SEPARATOR`.
- `hsprintf`, `hr`: they depend on `sprintf`, `isCLI` and the terminal width from `tput cols`.
- `json_save`, `json_load`: they depend on the JSON encoder and on file writes.
- `fileExists`, `includeFile`, `loadFile`: these do include-path resolution, `require` and file reads. The only logic in `loadFile` is `removeBOM`, which is modelled.
- The filesystem answers to `realpath` and `readlink` are parameters, so the model does not check that they are consistent with any real filesystem.
- Bom.RemoveBOM: models PHP 7 and later, where `substr($s, 3)` of a string exactly three bytes long is `""`. Before PHP 7 it is `false`, so `removeBOM("\xEF\xBB\xBF")` returns `false` and `loadFile` then returns its "file not found" value. The model returns the empty sequence for that input.
- Multibyte encodings are not modelled: a Dafny `char` is one byte of the PHP string. In an encoding such as Shift_JIS or GBK, byte 0x5C can be the second byte of a two-byte character, and `normalizePath` turns that byte into `/` like any other. The model does the same, because it never decodes characters.
- There is no concurrency and no floating point in the modelled code.
