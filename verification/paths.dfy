/** The pieces of std::filesystem::path that the loader and the CSV reader
    rely on: the file name, the extension, the parent directory's name, and
    the ASCII lower-casing applied to extensions with std::tolower. Paths are
    POSIX-style strings with '/' as the only separator. */
module Paths {
  import opened Wrappers

  /** The image extensions accepted by LanternImageLoader::IsImage, in lower case. */
  const AcceptedExtensions: set<string> := {".jpg", ".jpeg", ".png", ".bmp", ".tiff", ".webp"}

  /** Position of the last occurrence of `c` in `s`. */
  function LastIndexOf(s: string, c: char): (r: Option<nat>)
    ensures r.Some? ==> r.value < |s| && s[r.value] == c && c !in s[r.value + 1..]
    ensures r.None? ==> c !in s
  {
    if s == [] then None
    else if s[|s| - 1] == c then Some(|s| - 1)
    else
      var r := LastIndexOf(s[..|s| - 1], c);
      assert r.Some? ==> s[r.value + 1..] == s[..|s| - 1][r.value + 1..] + [s[|s| - 1]];
      assert s == s[..|s| - 1] + [s[|s| - 1]];
      r
  }

  /** path::filename(): everything after the last separator. */
  function FileName(p: string): (f: string)
    ensures '/' !in f
    ensures |f| <= |p| && f == p[|p| - |f|..]
    ensures |f| < |p| ==> p[|p| - |f| - 1] == '/'
  {
    match LastIndexOf(p, '/')
    case None => p
    case Some(i) => p[i + 1..]
  }

  /** The file name without its first character (empty for an empty name). */
  function Tail(f: string): string
  {
    if f == [] then [] else f[1..]
  }

  /** path::extension(): the file name from its last '.' on, except that a
      leading '.' (a dot-file) and the special names "." and ".." give "". */
  function Extension(p: string): (e: string)
    ensures e != [] ==> e[0] == '.' && '.' !in e[1..]
    ensures e != [] ==> |e| < |FileName(p)| && e == FileName(p)[|FileName(p)| - |e|..]
  {
    NameExtension(FileName(p))
  }

  /** The extension of a single file name. */
  function NameExtension(f: string): (e: string)
    ensures e != [] ==> e[0] == '.' && '.' !in e[1..]
    ensures e != [] ==> |e| < |f| && e == f[|f| - |e|..]
  {
    if f == "." || f == ".." then ""
    else
      match LastIndexOf(f, '.')
      case None => ""
      case Some(i) => if i == 0 then "" else f[i..]
  }

  /** A dot after the first character of an ordinary file name always yields an extension. */
  lemma ExtensionFound(p: string)
    requires FileName(p) != ".." && '.' in Tail(FileName(p))
    ensures Extension(p) != []
  {
    var f := FileName(p);
    var k :| 0 <= k < |Tail(f)| && Tail(f)[k] == '.';
    assert f[k + 1] == '.';
  }

  /** std::tolower in the "C" locale, one character. */
  function LowerChar(c: char): char
  {
    if 'A' <= c <= 'Z' then (c as int + 32) as char else c
  }

  /** std::transform(..., std::tolower) over a whole string. */
  function ToLower(s: string): (r: string)
    ensures |r| == |s|
  {
    seq(|s|, i requires 0 <= i < |s| => LowerChar(s[i]))
  }

  /** LanternImageLoader::IsImage: the lower-cased extension is one of the
      accepted image extensions. */
  predicate IsImage(p: string)
  {
    ToLower(Extension(p)) in AcceptedExtensions
  }

  /** The path with its trailing separators removed. */
  function TrimSeparators(s: string): (r: string)
    ensures r == [] || r[|r| - 1] != '/'
    ensures |r| <= |s| && r == s[..|r|]
    ensures forall k :: |r| <= k < |s| ==> s[k] == '/'
  {
    if s != [] && s[|s| - 1] == '/' then TrimSeparators(s[..|s| - 1]) else s
  }

  /** parent_path().filename(): the name of the directory holding the file,
      used as the image's class label. parent_path() ends at the last
      component before the file name, so the separators between the two,
      however many, are not part of it. */
  function ParentName(p: string): (n: string)
    ensures '/' !in n
  {
    match LastIndexOf(p, '/')
    case None => ""
    case Some(i) => FileName(TrimSeparators(p[..i]))
  }

  /** The last `c` of `a + [c] + b` is the one after `a` when `b` holds none. */
  lemma {:induction false} LastIndexOfAfter(a: string, c: char, b: string)
    requires c !in b
    ensures LastIndexOf(a + [c] + b, c) == Some(|a|)
  {
    var s := a + [c] + b;
    if b != [] {
      assert s[..|s| - 1] == a + [c] + b[..|b| - 1];
      LastIndexOfAfter(a, c, b[..|b| - 1]);
    }
  }

  /** Trimming a run of separators off a path that does not end in one gives the path back. */
  lemma {:induction false} TrimSeparatorsRun(q: string, seps: string)
    requires q == [] || q[|q| - 1] != '/'
    requires forall k :: 0 <= k < |seps| ==> seps[k] == '/'
    ensures TrimSeparators(q + seps) == q
  {
    if seps != [] {
      assert (q + seps)[..|q + seps| - 1] == q + seps[..|seps| - 1];
      TrimSeparatorsRun(q, seps[..|seps| - 1]);
    } else {
      assert q + seps == q;
    }
  }

  /** A file `file` inside directory `name` inside `dir` is labelled `name`,
      whatever the number of separators between `name` and `file`. */
  lemma ParentNameOfEntry(dir: string, name: string, seps: string, file: string)
    requires name != [] && '/' !in name && '/' !in file
    requires |seps| >= 1 && forall k :: 0 <= k < |seps| ==> seps[k] == '/'
    ensures ParentName(dir + ['/'] + name + seps + file) == name
  {
    var q := dir + ['/'] + name;
    var t := seps[..|seps| - 1];
    var p := q + seps + file;
    assert p == dir + ['/'] + name + seps + file;
    assert p == (q + t) + ['/'] + file;
    LastIndexOfAfter(q + t, '/', file);
    assert p[..|q + t|] == q + t;
    assert q[|q| - 1] == name[|name| - 1];
    TrimSeparatorsRun(q, t);
    LastIndexOfAfter(dir, '/', name);
    assert q[|dir| + 1..] == name;
  }

  lemma LowerCharIdempotent(c: char)
    ensures LowerChar(LowerChar(c)) == LowerChar(c)
  {
  }

  /** Lower-casing does not move separators or dots. */
  lemma {:induction false} LastIndexOfLower(s: string, c: char)
    requires !('A' <= c <= 'Z') && !('a' <= c <= 'z')
    ensures LastIndexOf(ToLower(s), c) == LastIndexOf(s, c)
  {
    if s != [] {
      assert ToLower(s)[..|s| - 1] == ToLower(s[..|s| - 1]);
      LastIndexOfLower(s[..|s| - 1], c);
    }
  }

  lemma ToLowerSlice(s: string, i: nat, j: nat)
    requires i <= j <= |s|
    ensures ToLower(s)[i..j] == ToLower(s[i..j])
  {
  }

  lemma FileNameLower(p: string)
    ensures FileName(ToLower(p)) == ToLower(FileName(p))
  {
    LastIndexOfLower(p, '/');
    match LastIndexOf(p, '/')
    case None =>
    case Some(i) => ToLowerSlice(p, i + 1, |p|);
  }

  lemma SpecialNameLower(f: string)
    ensures (ToLower(f) == "." || ToLower(f) == "..") <==> (f == "." || f == "..")
  {
    if |f| == 1 || |f| == 2 {
      assert LowerChar(f[0]) == '.' <==> f[0] == '.';
      assert |f| == 2 ==> (LowerChar(f[1]) == '.' <==> f[1] == '.');
      assert ToLower(f)[0] == LowerChar(f[0]);
      assert |f| == 2 ==> ToLower(f)[1] == LowerChar(f[1]);
    }
  }

  lemma NameExtensionLower(f: string)
    ensures NameExtension(ToLower(f)) == ToLower(NameExtension(f))
  {
    SpecialNameLower(f);
    if !(f == "." || f == "..") {
      LastIndexOfLower(f, '.');
      match LastIndexOf(f, '.')
      case None =>
      case Some(i) => ToLowerSlice(f, i, |f|);
    }
  }

  lemma ExtensionLower(p: string)
    ensures Extension(ToLower(p)) == ToLower(Extension(p))
  {
    FileNameLower(p);
    NameExtensionLower(FileName(p));
  }

  /** IsImage ignores letter case anywhere in the path's extension. */
  lemma IsImageIgnoresCase(p: string)
    ensures IsImage(ToLower(p)) == IsImage(p)
  {
    ExtensionLower(p);
    var e := Extension(p);
    assert ToLower(ToLower(e)) == ToLower(e) by {
      forall i | 0 <= i < |e| ensures ToLower(ToLower(e))[i] == ToLower(e)[i] {
        LowerCharIdempotent(e[i]);
      }
    }
  }
}
