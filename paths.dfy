/** The string and path helpers of Python the core relies on:
    str.endswith, os.path.join, os.path.basename, os.path.splitext and
    str.lower, for POSIX paths. */
module Paths {

  /** str.endswith(suffix) */
  predicate EndsWith(s: string, suffix: string) {
    |suffix| <= |s| && s[|s| - |suffix|..] == suffix
  }

  /** str.rfind(c): the last index of c in s, or -1 */
  function RFind(s: string, c: char): (i: int)
    ensures -1 <= i < |s|
    ensures 0 <= i ==> s[i] == c
    ensures forall j :: i < j < |s| ==> s[j] != c
  {
    if |s| == 0 then -1
    else if s[|s| - 1] == c then |s| - 1
    else RFind(s[..|s| - 1], c)
  }

  /** os.path.join(dir, name) with two arguments (posixpath) */
  function Join(dir: string, name: string): string {
    if 0 < |name| && name[0] == '/' then name
    else if dir == [] || EndsWith(dir, "/") then dir + name
    else dir + "/" + name
  }

  /** os.path.basename: everything after the last '/' */
  function Basename(path: string): (b: string)
    ensures '/' !in b
    ensures EndsWith(path, b)
    // everything after the last '/'
    ensures |b| == |path| - 1 - RFind(path, '/')
  {
    var i := RFind(path, '/');
    path[i + 1..]
  }

  /** The base name is the whole path or follows a '/' */
  lemma {:induction false} BasenameMaximal(path: string)
    ensures var b := Basename(path);
            |b| == |path| || path[|path| - |b| - 1] == '/'
  {
  }

  predicate AllDots(s: string) {
    forall k :: 0 <= k < |s| ==> s[k] == '.'
  }

  /** The extension of a base name, by splitext's rule: from its last dot,
      unless everything before that dot is dots (".bashrc" has no
      extension) */
  function SplitExt(name: string): (e: string)
    ensures e == [] || (e[0] == '.' && EndsWith(name, e))
  {
    var d := RFind(name, '.');
    if 0 <= d && !AllDots(name[..d]) then name[d..] else []
  }

  /** The second component of os.path.splitext: the extension of the base
      name */
  function Extension(path: string): (e: string)
    ensures e == [] || (e[0] == '.' && EndsWith(path, e) && '/' !in e)
  {
    var b := Basename(path);
    var e := SplitExt(b);
    assert path[|path| - |b|..] == b;
    assert e != [] ==> path[|path| - |e|..] == b[|b| - |e|..];
    e
  }

  /** A non-empty extension starts at the last dot of the name and has
      something other than dots before it; an empty one means the name has
      no dot, or only dots before its last one */
  lemma {:induction false} SplitExtLastDot(name: string)
    ensures var e := SplitExt(name);
            e != [] ==> '.' !in e[1..] && !AllDots(name[..|name| - |e|])
    ensures var e := SplitExt(name);
            e == [] ==> RFind(name, '.') < 0 || AllDots(name[..RFind(name, '.')])
  {
    var d := RFind(name, '.');
    if 0 <= d && !AllDots(name[..d]) {
      assert name[d..][1..] == name[d + 1..];
    }
  }

  /** The last occurrence of c, found by its position */
  lemma {:induction false} RFindAt(s: string, c: char, d: int)
    requires -1 <= d < |s| && (d >= 0 ==> s[d] == c) && c !in s[d + 1..]
    ensures RFind(s, c) == d
  {
  }

  /** The last '/' of a path decides its base name */
  lemma {:induction false} BasenameAt(path: string, k: int)
    requires -1 <= k < |path| && (k >= 0 ==> path[k] == '/') && '/' !in path[k + 1..]
    ensures Basename(path) == path[k + 1..]
  {
    RFindAt(path, '/', k);
  }

  /** The last dot of the name decides its extension */
  lemma {:induction false} SplitExtAt(name: string, d: int)
    requires -1 <= d < |name| && (d >= 0 ==> name[d] == '.') && '.' !in name[d + 1..]
    ensures SplitExt(name) == if d >= 0 && !AllDots(name[..d]) then name[d..] else []
  {
    RFindAt(name, '.', d);
  }

  /** The extension keeps its case: the loaders table sees it lower-cased */
  lemma {:induction false} ExtensionUpperCase()
    ensures Extension("data/x.CSV") == ".CSV"
  {
    BasenameAt("data/x.CSV", 4);
    SplitExtAt("x.CSV", 1);
    assert "x.CSV"[..1][0] == 'x';
  }

  /** Only the text from the last dot is the extension: "a.tar.gz" has
      extension ".gz" */
  lemma {:induction false} ExtensionLastOnly(stem: string, ext: string)
    requires stem != [] && stem[0] != '.' && '/' !in stem && '/' !in ext && '.' !in ext
    ensures Extension(stem + "." + ext) == "." + ext
  {
    var path := stem + "." + ext;
    assert path[0..] == path;
    BasenameAt(path, -1);
    assert path[|stem| + 1..] == ext && path[|stem|..] == "." + ext;
    SplitExtAt(path, |stem|);
    assert path[..|stem|][0] != '.';
  }

  /** A leading dot alone is no extension: ".bashrc" has none */
  lemma {:induction false} ExtensionHidden(dir: string, rest: string)
    requires dir == [] || dir[|dir| - 1] == '/'
    requires '/' !in rest && '.' !in rest
    ensures Extension(dir + "." + rest) == []
  {
    var path := dir + "." + rest;
    var name := "." + rest;
    assert path[|dir|..] == name && name[1..] == rest;
    BasenameAt(path, |dir| - 1);
    SplitExtAt(name, 0);
  }

  /** A dot in a directory name is no extension: "dir.d/README" has none */
  lemma {:induction false} ExtensionDirectoryDot(dir: string, name: string)
    requires '/' !in name && '.' !in name
    ensures Extension(dir + "/" + name) == []
  {
    var path := dir + "/" + name;
    assert path[|dir| + 1..] == name;
    BasenameAt(path, |dir|);
    assert name[0..] == name;
    SplitExtAt(name, -1);
  }

  function LowerChar(c: char): char {
    if 'A' <= c <= 'Z' then (c as int + 32) as char else c
  }

  /** str.lower, for ASCII letters */
  function Lower(s: string): (r: string)
    ensures |r| == |s|
    ensures forall i :: 0 <= i < |s| ==> r[i] == LowerChar(s[i])
  {
    seq(|s|, i requires 0 <= i < |s| => LowerChar(s[i]))
  }
}
