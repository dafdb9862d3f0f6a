/**
 * The two System.IO.Path functions the source relies on, with '/' as the only
 * directory separator (the separator of the Unix build of .NET).
 */
module Paths {

  /** Whether `suffix` is a suffix of `s`. */
  predicate IsSuffix(suffix: string, s: string)
  {
    |suffix| <= |s| && s[|s| - |suffix|..] == suffix
  }

  lemma SuffixSnoc(suffix: string, s: string, c: char)
    requires IsSuffix(suffix, s)
    ensures IsSuffix(suffix + [c], s + [c])
  {
    assert (s + [c])[|s| - |suffix|..] == s[|s| - |suffix|..] + [c];
  }

  /**
   * Path.GetFileName: the part of `path` after its last '/', or all of it
   * when there is no '/'.
   */
  function GetFileName(path: string): (name: string)
    ensures IsSuffix(name, path)
    ensures '/' !in name
    ensures |name| < |path| ==> path[|path| - |name| - 1] == '/'
  {
    if path == [] then []
    else if path[|path| - 1] == '/' then []
    else
      var name := GetFileName(path[..|path| - 1]) + [path[|path| - 1]];
      FileNameSnoc(GetFileName(path[..|path| - 1]), path[..|path| - 1], path[|path| - 1]);
      assert path[..|path| - 1] + [path[|path| - 1]] == path;
      name
  }

  /** A character other than '/' extends both a path and its file name. */
  lemma FileNameSnoc(name: string, path: string, c: char)
    requires IsSuffix(name, path) && '/' !in name && c != '/'
    requires |name| < |path| ==> path[|path| - |name| - 1] == '/'
    ensures IsSuffix(name + [c], path + [c]) && '/' !in name + [c]
    ensures |name + [c]| < |path + [c]| ==> (path + [c])[|path + [c]| - |name + [c]| - 1] == '/'
  {
    SuffixSnoc(name, path, c);
  }

  /** The suffix of `s` that starts at its last '.', or "" when `s` has no '.'. */
  function DotSuffix(s: string): (d: string)
    ensures d == [] <==> '.' !in s
    ensures d != [] ==> IsSuffix(d, s) && d[0] == '.' && '.' !in d[1..]
  {
    if s == [] then []
    else if s[|s| - 1] == '.' then ['.']
    else
      var d := DotSuffix(s[..|s| - 1]);
      if d == [] then
        assert s == s[..|s| - 1] + [s[|s| - 1]];
        []
      else
        var r := d + [s[|s| - 1]];
        SuffixSnoc(d, s[..|s| - 1], s[|s| - 1]);
        assert s[..|s| - 1] + [s[|s| - 1]] == s;
        assert r[1..] == d[1..] + [s[|s| - 1]];
        r
  }

  /**
   * Path.GetExtension: the suffix of the file-name part starting at its last
   * '.'; "" when that part has no '.' or ends with it.
   */
  function GetExtension(path: string): (ext: string)
    ensures var name := GetFileName(path);
      && (ext == "" <==> '.' !in name || name[|name| - 1] == '.')
      && (ext != "" ==> 2 <= |ext| && IsSuffix(ext, name) && ext[0] == '.' && '.' !in ext[1..])
  {
    var d := DotSuffix(GetFileName(path));
    if d == "." then "" else d
  }

  /** String.ToLower restricted to ASCII letters; every other character is kept. */
  function ToLowerAscii(s: string): (r: string)
    ensures |r| == |s|
    ensures forall i :: 0 <= i < |s| ==> r[i] == LowerChar(s[i])
  {
    seq(|s|, i requires 0 <= i < |s| => LowerChar(s[i]))
  }

  function LowerChar(c: char): char
  {
    if 'A' <= c <= 'Z' then (c as int - 'A' as int + 'a' as int) as char else c
  }

  /** A path built from a directory, a '/', and a '/'-free name has that name as its file name. */
  lemma {:induction false} FileNameOfJoin(dir: string, name: string)
    requires '/' !in name
    ensures GetFileName(dir + "/" + name) == name
    decreases |name|
  {
    var path := dir + "/" + name;
    if name == [] {
      assert path[|path| - 1] == '/';
    } else {
      assert path[..|path| - 1] == dir + "/" + name[..|name| - 1];
      FileNameOfJoin(dir, name[..|name| - 1]);
      assert name == name[..|name| - 1] + [name[|name| - 1]];
    }
  }

  /** A '/'-free path is its own file name. */
  lemma FileNameOfName(name: string)
    requires '/' !in name
    ensures GetFileName(name) == name
  {
  }

  /** A name made of a stem, a '.', and a non-empty extension without '.' has that extension. */
  lemma {:induction false} ExtensionOfName(stem: string, ext: string)
    requires '.' !in ext && ext != []
    ensures DotSuffix(stem + "." + ext) == "." + ext
    decreases |ext|
  {
    var last := ext[|ext| - 1];
    var e := ext[..|ext| - 1];
    assert ext == e + [last];
    assert stem + "." + ext == (stem + "." + e) + [last];
    if e == [] {
      assert DotSuffix(stem + ".") == ".";
      DotSuffixSnoc(stem + ".", last);
    } else {
      ExtensionOfName(stem, e);
      DotSuffixSnoc(stem + "." + e, last);
      assert ("." + e) + [last] == "." + ext;
    }
  }

  /** A character other than '.' extends the dot suffix, if there is one. */
  lemma DotSuffixSnoc(s: string, c: char)
    requires c != '.'
    ensures DotSuffix(s + [c]) == if DotSuffix(s) == [] then [] else DotSuffix(s) + [c]
  {
    var t := s + [c];
    assert t[..|t| - 1] == s && t[|t| - 1] == c;
  }
}
