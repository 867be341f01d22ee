/** File names and extensions as the two sides see them: the upload filter
    and the stored path use Node's `path.extname` (app.js), both Python
    workers use `os.path.splitext` (merge.py, mapping.py). */
module Paths {
  import opened Base

  type Path = string

  function LowerChar(c: char): char {
    if 'A' <= c <= 'Z' then (c as int + 32) as char else c
  }

  /** Lower-casing (`toLowerCase()`, `.lower()`), on ASCII letters. */
  function Lower(s: string): (r: string)
    ensures |r| == |s|
    ensures forall i :: 0 <= i < |s| ==> r[i] == LowerChar(s[i])
  {
    seq(|s|, i requires 0 <= i < |s| => LowerChar(s[i]))
  }

  /** The extensions the upload filter lets through (app.js:22). */
  const Allowed: set<string> := {".csv", ".json", ".xlsx", ".xls"}

  /** Position of the last `c` in `s`, if any. */
  function LastIndexOf(s: string, c: char): (r: Option<nat>)
    ensures r.Some? ==> r.value < |s| && s[r.value] == c
    ensures r.Some? ==> forall j :: r.value < j < |s| ==> s[j] != c
    ensures r.None? <==> c !in s
  {
    if s == [] then None
    else if s[|s| - 1] == c then Some(|s| - 1)
    else LastIndexOf(s[..|s| - 1], c)
  }

  /** Everything after the last `/`. */
  function AfterLastSlash(s: string): string {
    match LastIndexOf(s, '/')
    case None => s
    case Some(i) => s[i + 1..]
  }

  /** The last path component is a slash-free tail that follows a slash,
      unless it is the whole string. */
  lemma AfterLastSlashSpec(s: string)
    ensures '/' !in AfterLastSlash(s)
    ensures |AfterLastSlash(s)| <= |s| && AfterLastSlash(s) == s[|s| - |AfterLastSlash(s)|..]
    ensures |AfterLastSlash(s)| < |s| ==> s[|s| - |AfterLastSlash(s)| - 1] == '/'
  {
  }

  function StripTrailingSlashes(s: string): (r: string)
    ensures |r| <= |s| && r == s[..|r|]
    ensures r == [] || r[|r| - 1] != '/'
    ensures forall j :: |r| <= j < |s| ==> s[j] == '/'
  {
    if s != [] && s[|s| - 1] == '/' then StripTrailingSlashes(s[..|s| - 1]) else s
  }

  /** Where the last path component of `s` starts: just past the last `/`. */
  function ComponentStart(s: string): (n: nat)
    ensures n <= |s| && AfterLastSlash(s) == s[n..]
    ensures forall k :: n <= k < |s| ==> s[k] != '/'
    ensures n > 0 ==> s[n - 1] == '/'
  {
    match LastIndexOf(s, '/')
    case None => 0
    case Some(p) => p + 1
  }

  /** Node's `path.extname`: trailing slashes are ignored; the extension runs
      from the last dot to the end, provided that dot lies in the last path
      component and is not its first character, and the component is not
      `..`. */
  function ExtName(name: string): (ext: string)
    ensures ext == [] || (ext[0] == '.' && '.' !in ext[1..] && '/' !in ext)
  {
    var s := StripTrailingSlashes(name);
    match LastIndexOf(s, '.')
    case None => ""
    case Some(d) => if ComponentStart(s) < d && AfterLastSlash(s) != ".." then s[d..] else ""
  }

  /** Python's `os.path.splitext(p)[1]`: the extension runs from the last dot
      of the last component, unless only dots precede that dot there. */
  function SplitExt(p: Path): string {
    var base := AfterLastSlash(p);
    match LastIndexOf(base, '.')
    case None => ""
    case Some(i) => if OnlyDots(base[..i]) then "" else base[i..]
  }

  predicate OnlyDots(s: string) {
    s == [] || (s[0] == '.' && OnlyDots(s[1..]))
  }

  /** Python's `os.path.abspath(p)` in a process whose working directory is
      `cwd`: an absolute path is kept, the empty path is the directory
      itself, and a relative path is joined onto the directory with one
      slash. */
  function AbsPath(cwd: Path, p: Path): (a: Path)
    ensures |p| <= |a| && a[|a| - |p|..] == p
    ensures p != [] && p[0] == '/' ==> a == p
    ensures cwd != [] && cwd[0] == '/' ==> a != [] && a[0] == '/'
  {
    if p == [] then cwd
    else if p[0] == '/' then p
    else if cwd != [] && cwd[|cwd| - 1] == '/' then cwd + p
    else cwd + "/" + p
  }

  /** A string that is empty or ends with a slash has an empty last
      component. */
  lemma AfterLastSlashOfDirectory(a: string)
    requires a == [] || a[|a| - 1] == '/'
    ensures AfterLastSlash(a) == []
  {
  }

  /** Whatever precedes a directory prefix does not reach the last
      component. */
  lemma AfterLastSlashPrefixed(a: string, b: string)
    requires a == [] || a[|a| - 1] == '/'
    ensures AfterLastSlash(a + b) == AfterLastSlash(b)
  {
    var n := ComponentStart(b);
    SplitAt(a, b, n);
    AfterLastSlashAppend(a + b[..n], b[n..]);
    SlashEndedConcat(a, b, n);
    AfterLastSlashOfDirectory(a + b[..n]);
  }

  /** Cutting `b` at `n`, where no slash follows, leaves a slash-free tail. */
  lemma SplitAt(a: string, b: string, n: nat)
    requires n <= |b| && forall k :: n <= k < |b| ==> b[k] != '/'
    ensures a + b == (a + b[..n]) + b[n..]
    ensures '/' !in b[n..]
  {
    assert b == b[..n] + b[n..];
    forall k | 0 <= k < |b| - n ensures b[n..][k] != '/' {
      assert b[n..][k] == b[n + k];
    }
  }

  lemma SlashEndedConcat(a: string, b: string, n: nat)
    requires a == [] || a[|a| - 1] == '/'
    requires n <= |b| && (n > 0 ==> b[n - 1] == '/')
    ensures a + b[..n] == [] || (a + b[..n])[|a| + n - 1] == '/'
  {
    if n > 0 {
      assert (a + b[..n])[|a| + n - 1] == b[n - 1];
    }
  }

  /** Making a non-empty path absolute keeps its last component, and with it
      the extension a worker reads (merge.py:61). */
  lemma AbsPathKeepsExtension(cwd: Path, p: Path)
    requires p != []
    ensures AfterLastSlash(AbsPath(cwd, p)) == AfterLastSlash(p)
    ensures SplitExt(AbsPath(cwd, p)) == SplitExt(p)
  {
    if p[0] != '/' {
      var dir := if cwd != [] && cwd[|cwd| - 1] == '/' then cwd else cwd + "/";
      assert AbsPath(cwd, p) == dir + p;
      AfterLastSlashPrefixed(dir, p);
    }
  }

  /** The upload filter (app.js:21-28). */
  predicate Accepts(originalName: string) {
    Lower(ExtName(originalName)) in Allowed
  }

  /** The name a stored upload gets: the temporary path followed by the
      original extension, case kept (app.js:53-58). */
  function StoredPath(tempPath: Path, originalName: string): Path {
    tempPath + ExtName(originalName)
  }

  /** A temporary upload path whose last component is a plain, dot-free name,
      as the upload middleware generates them. */
  predicate PlainTempPath(tempPath: Path) {
    AfterLastSlash(tempPath) != [] && '.' !in AfterLastSlash(tempPath)
  }

  lemma {:induction false} LastIndexOfAppend(a: string, b: string, c: char)
    requires c !in b
    ensures LastIndexOf(a + b, c) == LastIndexOf(a, c)
    decreases |b|
  {
    if b != [] {
      assert (a + b)[..|a + b| - 1] == a + b[..|b| - 1];
      LastIndexOfAppend(a, b[..|b| - 1], c);
    } else {
      assert a + b == a;
    }
  }

  lemma AfterLastSlashAppend(a: string, b: string)
    requires '/' !in b
    ensures AfterLastSlash(a + b) == AfterLastSlash(a) + b
  {
    LastIndexOfAppend(a, b, '/');
    var li := LastIndexOf(a, '/');
    if li.Some? {
      assert (a + b)[li.value + 1..] == a[li.value + 1..] + b;
    }
  }

  /** In `stem + ("." + w)` with a dot-free `w`, the last dot is the one
      added. */
  lemma LastDotOfSuffix(stem: string, w: string)
    requires '.' !in w
    ensures LastIndexOf(stem + ("." + w), '.') == Some(|stem|)
  {
    var front := stem + ".";
    assert stem + ("." + w) == front + w;
    LastIndexOfAppend(front, w, '.');
    assert front[|front| - 1] == '.';
  }

  lemma SplitExtPlain(tempPath: Path)
    requires PlainTempPath(tempPath)
    ensures SplitExt(tempPath) == ""
  {
  }

  lemma SplitExtPlainSuffix(tempPath: Path, w: string)
    requires PlainTempPath(tempPath)
    requires '.' !in w && '/' !in w
    ensures SplitExt(tempPath + ("." + w)) == "." + w
  {
    var tail := "." + w;
    var stem := AfterLastSlash(tempPath);
    AfterLastSlashAppend(tempPath, tail);
    var base := AfterLastSlash(tempPath + tail);
    assert base == stem + tail;
    LastDotOfSuffix(stem, w);
    assert base[0] == stem[0] != '.';
    assert base[|stem|..] == tail;
  }

  /** Whatever extension the original name has, the Python side reads the same
      extension back from the stored path: the path a worker dispatches on
      carries exactly the extension the upload filter judged. */
  lemma StoredExtension(tempPath: Path, originalName: string)
    requires PlainTempPath(tempPath)
    ensures SplitExt(StoredPath(tempPath, originalName)) == ExtName(originalName)
  {
    var ext := ExtName(originalName);
    if ext == [] {
      assert StoredPath(tempPath, originalName) == tempPath;
      SplitExtPlain(tempPath);
    } else {
      var w := ext[1..];
      assert ext == "." + w;
      SplitExtPlainSuffix(tempPath, w);
    }
  }

  /** `ExtName` of a name built from a stem and a dotted word is that word,
      when the stem ends a non-empty last component. */
  lemma ExtNameOfSuffix(stem: string, w: string)
    requires stem != [] && stem[|stem| - 1] != '/'
    requires w != [] && '.' !in w && '/' !in w
    ensures ExtName(stem + ("." + w)) == "." + w
  {
    var tail := "." + w;
    var name := stem + tail;
    assert name[|name| - 1] == w[|w| - 1];
    assert StripTrailingSlashes(name) == name;
    AfterLastSlashAppend(stem, tail);
    var sb := AfterLastSlash(stem);
    var base := AfterLastSlash(name);
    assert base == sb + tail;
    assert sb != [];
    LastDotOfSuffix(sb, w);
    assert base != "..";
    assert base[|sb|..] == tail;
  }

  /** Position `i` of `s` starts an allowed extension: a dot that is not the
      first character of its path component, followed by one of the four
      words in any letter case, with no further dot or slash. */
  predicate AllowedTailAt(s: string, i: int) {
    0 < i < |s| && s[i - 1] != '/' && '.' !in s[i + 1..] && '/' !in s[i..] && Lower(s[i..]) in Allowed
  }

  lemma AcceptsHasTail(name: string) returns (i: nat)
    requires Accepts(name)
    ensures AllowedTailAt(StripTrailingSlashes(name), i)
  {
    assert ExtName(name) != [] by {
      assert "" !in Allowed;
    }
    var s := StripTrailingSlashes(name);
    i := LastIndexOf(s, '.').value;
    assert ComponentStart(s) <= i - 1;
  }

  lemma TailAccepts(name: string, i: int)
    requires AllowedTailAt(StripTrailingSlashes(name), i)
    ensures Accepts(name)
  {
    var s := StripTrailingSlashes(name);
    assert Lower(s[i..])[0] == '.';
    assert s[i] == '.';
    var w := s[i + 1..];
    assert |Lower(s[i..])| >= 4;
    assert w != [];
    assert s[i..] == "." + w;
    assert s == s[..i] + ("." + w);
    assert '/' !in w;
    ExtNameOfSuffix(s[..i], w);
    assert StripTrailingSlashes(s) == s;
  }

  /** The upload filter accepts a name exactly when, trailing slashes aside,
      it ends in a non-empty last component followed by a dot and one of the
      four allowed words, in any letter case. */
  lemma AcceptsCharacterization(name: string)
    ensures Accepts(name) <==> exists i :: AllowedTailAt(StripTrailingSlashes(name), i)
  {
    if Accepts(name) {
      var i := AcceptsHasTail(name);
      assert AllowedTailAt(StripTrailingSlashes(name), i);
    } else {
      forall i | AllowedTailAt(StripTrailingSlashes(name), i) ensures false {
        TailAccepts(name, i);
      }
    }
  }
}
