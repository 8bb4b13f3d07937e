/**
 * The local disk as the handlers see it through `java.io.File` and
 * `java.nio.file.Files`: a map from resolved path to entry.  A resolved path is
 * relative to the working directory (which always exists and is written ""),
 * has no empty, `.` or `..` component and no trailing `/`.  `Resolve` turns a
 * path string built by the handlers (`uploads/$name`, `cache/$hash.zip`) into
 * the entry the operating system opens for it.
 */
module LocalFs {
  import opened Common

  /** A file with its bytes, or a directory; both carry `lastModified()` in milliseconds. */
  datatype Entry = File(content: seq<int8>, lastModified: int) | Dir(lastModified: int)

  type Fs = map<string, Entry>

  /** Index of the last `/` in `p`, or -1 when there is none. */
  function LastSlash(p: string): (k: int)
    ensures -1 <= k < |p|
    ensures k >= 0 ==> p[k] == '/'
    ensures forall j :: k < j < |p| ==> p[j] != '/'
  {
    if |p| == 0 then -1
    else if p[|p| - 1] == '/' then |p| - 1
    else LastSlash(p[..|p| - 1])
  }

  /** `File(p).parent` of a resolved path, with "" for the working directory. */
  function Parent(p: string): string {
    var k := LastSlash(p);
    if k < 0 then "" else p[..k]
  }

  /** `File(p).name` of a resolved path: its last component. */
  function Name(p: string): string {
    p[LastSlash(p) + 1..]
  }

  /** A path built as `dir/name` from a non-empty name without `/` splits back into the two. */
  lemma PathParts(dir: string, name: string)
    requires |name| > 0
    requires forall i :: 0 <= i < |name| ==> name[i] != '/'
    ensures Parent(dir + "/" + name) == dir
    ensures Name(dir + "/" + name) == name
  {
    var p := dir + "/" + name;
    var k := LastSlash(p);
    assert p[|dir|] == '/';
    assert k == |dir|;
    assert p[..k] == dir;
    assert p[k + 1..] == name;
  }

  // ---------------------------------------------------------------------------
  // Path resolution

  /** Index of the first `/` in `p`, or `|p|` when there is none. */
  function FirstSlash(p: string): (k: nat)
    ensures k <= |p|
    ensures k < |p| ==> p[k] == '/'
    ensures forall j :: 0 <= j < k ==> p[j] != '/'
  {
    if |p| == 0 || p[0] == '/' then 0
    else
      var k := FirstSlash(p[1..]);
      assert forall j :: 1 <= j < k + 1 ==> p[j] == p[1..][j - 1];
      k + 1
  }

  /** No `/` in `s`: a single path component, possibly empty, `.` or `..`. */
  predicate NoSlash(s: string) {
    forall i :: 0 <= i < |s| ==> s[i] != '/'
  }

  /** A component that names an entry: not empty, no `/`, and neither `.` nor `..`. */
  predicate IsPlainSegment(s: string) {
    s != "" && s != "." && s != ".." && NoSlash(s)
  }

  /** `dir/s`, where the working directory "" contributes no prefix. */
  function Join(dir: string, s: string): string {
    if dir == "" then s else dir + "/" + s
  }

  /**
   * One component `s` looked up from the resolved directory `dir`: an empty
   * component (a doubled or trailing `/`, which `java.io.File` drops) stays put;
   * `.` and `..` need `dir` to be a directory, and `..` cannot leave the working
   * directory; any other name is appended.  `None` is a failed lookup.
   */
  function Step(fs: Fs, dir: string, s: string): Option<string> {
    if s == "" then Some(dir)
    else if s == "." || s == ".." then
      if dir != "" && !IsDirectory(fs, dir) then None
      else if s == "." then Some(dir)
      else if dir == "" then None
      else Some(Parent(dir))
    else Some(Join(dir, s))
  }

  /** The components of `rest` looked up one by one from `dir`; the working directory itself is `None`. */
  function Walk(fs: Fs, dir: string, rest: string): Option<string>
    decreases |rest|
  {
    var k := FirstSlash(rest);
    match Step(fs, dir, rest[..k])
    case None => None
    case Some(next) =>
      if k == |rest| then (if next == "" then None else Some(next))
      else Walk(fs, next, rest[k + 1..])
  }

  /**
   * The entry `File(p)` denotes: the path normalised as `java.io.File` does and
   * its `.` and `..` components resolved against the disk.  `None` when a
   * lookup fails, when the path leaves the working directory, or when it is the
   * working directory itself; every operation on such a path fails.
   */
  function Resolve(fs: Fs, p: string): Option<string> {
    Walk(fs, "", p)
  }

  /** The first component of `seg/rest` is `seg`. */
  lemma WalkFirst(fs: Fs, dir: string, seg: string, rest: string)
    requires NoSlash(seg)
    ensures Walk(fs, dir, seg + "/" + rest)
         == match Step(fs, dir, seg) case None => None case Some(next) => Walk(fs, next, rest)
  {
    var p := seg + "/" + rest;
    var k := FirstSlash(p);
    assert p[|seg|] == '/';
    assert forall j :: 0 <= j < |seg| ==> p[j] == seg[j];
    assert p[..k] == seg;
    assert p[k + 1..] == rest;
  }

  /** A path without `/` is its only component. */
  lemma WalkLast(fs: Fs, dir: string, seg: string)
    requires NoSlash(seg)
    ensures Walk(fs, dir, seg)
         == match Step(fs, dir, seg) case None => None case Some(next) => if next == "" then None else Some(next)
  {
    assert seg[..|seg|] == seg;
  }

  /** `dir/name` built from two plain components resolves to itself, whatever the disk holds. */
  lemma ResolvePlain(fs: Fs, dir: string, name: string)
    requires IsPlainSegment(dir) && IsPlainSegment(name)
    ensures Resolve(fs, dir + "/" + name) == Some(dir + "/" + name)
  {
    WalkFirst(fs, "", dir, name);
    WalkLast(fs, dir, name);
  }

  /** `dir/../name`, with `dir` a folder in the working directory, resolves to `name` there. */
  lemma ResolveUpAndOver(fs: Fs, dir: string, name: string)
    requires IsPlainSegment(dir) && IsDirectory(fs, dir) && IsPlainSegment(name)
    ensures Resolve(fs, dir + "/../" + name) == Some(name)
  {
    assert dir + "/../" + name == dir + "/" + (".." + "/" + name);
    WalkFirst(fs, "", dir, ".." + "/" + name);
    assert Parent(dir) == "";
    WalkFirst(fs, dir, "..", name);
    WalkLast(fs, "", name);
  }

  predicate Exists(fs: Fs, p: string) {
    p in fs
  }

  predicate IsDirectory(fs: Fs, p: string) {
    p in fs && fs[p].Dir?
  }

  predicate IsFile(fs: Fs, p: string) {
    p in fs && fs[p].File?
  }

  /** `File(p).lastModified()`: 0 for a path that does not exist. */
  function LastModified(fs: Fs, p: string): int {
    if p in fs then fs[p].lastModified else 0
  }

  predicate ParentIsDirectory(fs: Fs, p: string) {
    Parent(p) == "" || IsDirectory(fs, Parent(p))
  }

  /** Writing a whole file through `File(p).outputStream()`; `None` is the `IOException`. */
  function Write(fs: Fs, p: string, content: seq<int8>, now: int): Option<Fs> {
    if ParentIsDirectory(fs, p) && !IsDirectory(fs, p) then Some(fs[p := File(content, now)]) else None
  }

  /** `File(p).mkdir()`: creates `p` when it does not exist and its parent does; otherwise nothing. */
  function Mkdir(fs: Fs, p: string, now: int): Fs {
    if p in fs || !ParentIsDirectory(fs, p) then fs else fs[p := Dir(now)]
  }

  predicate IsEmptyDirectory(fs: Fs, p: string) {
    IsDirectory(fs, p) && forall q :: q in fs ==> Parent(q) != p
  }

  /** `File(p).delete()`: removes a file or an empty directory; otherwise nothing happens. */
  function Delete(fs: Fs, p: string): Fs {
    if IsFile(fs, p) || IsEmptyDirectory(fs, p) then fs - {p} else fs
  }

  /**
   * `Files.move(src, dst, REPLACE_EXISTING)`: a rename that keeps the entry (and so
   * its `lastModified`); `None` is the `IOException` of a missing source or target folder.
   */
  function Move(fs: Fs, src: string, dst: string): Option<Fs> {
    if IsFile(fs, src) && ParentIsDirectory(fs, dst) && !IsDirectory(fs, dst)
    then Some((fs - {src})[dst := fs[src]])
    else None
  }
}
