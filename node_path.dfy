/**
 * The two functions of Node's `path` module (POSIX flavour) that the API
 * server uses on file names: `basename` and `extname`.
 */
module NodePath {

  /** The path without its trailing '/' characters. */
  function StripTrailingSlashes(p: string): (r: string)
    ensures |r| <= |p| && r == p[..|r|]
    ensures r == [] || r[|r| - 1] != '/'
    decreases |p|
  {
    if |p| > 0 && p[|p| - 1] == '/' then StripTrailingSlashes(p[..|p| - 1]) else p
  }

  /** What follows the last '/' of `p` (all of `p` when it has none). */
  function LastSegment(p: string): (r: string)
    ensures '/' !in r
    ensures |r| <= |p| && r == p[|p| - |r|..]
    decreases |p|
  {
    if p == [] || p[|p| - 1] == '/' then []
    else LastSegment(p[..|p| - 1]) + [p[|p| - 1]]
  }

  /** `path.basename(p)`: the last segment once trailing slashes are dropped. */
  function Basename(p: string): (r: string)
    ensures '/' !in r
  {
    LastSegment(StripTrailingSlashes(p))
  }

  /** A segment written after a directory and a '/' is what `basename` gives back. */
  lemma {:induction false} BasenameOfJoin(dir: string, name: string)
    requires name != [] && '/' !in name
    ensures Basename(dir + "/" + name) == name
  {
    assert StripTrailingSlashes(dir + "/" + name) == dir + "/" + name;
    LastSegmentAfterSlash(dir, name);
  }

  lemma {:induction false} LastSegmentAfterSlash(dir: string, name: string)
    requires '/' !in name
    ensures LastSegment(dir + "/" + name) == name
    decreases |name|
  {
    var p := dir + "/" + name;
    if name == [] {
      assert p[|p| - 1] == '/';
    } else {
      var init := name[..|name| - 1];
      DropLast(dir, name);
      assert '/' !in init by { assert forall c :: c in init ==> c in name; }
      LastSegmentAfterSlash(dir, init);
      assert init + [name[|name| - 1]] == name;
    }
  }

  /** Dropping the last character of `dir/name` drops it from `name`. */
  lemma DropLast(dir: string, name: string)
    requires name != []
    ensures var p := dir + "/" + name;
      p[|p| - 1] == name[|name| - 1] && p[..|p| - 1] == dir + "/" + name[..|name| - 1]
  {
    var p := dir + "/" + name;
    assert p[..|p| - 1] == dir + "/" + name[..|name| - 1];
  }

  /** The index of the last '.' in `s`, or -1. */
  function LastDot(s: string): (i: int)
    ensures -1 <= i < |s|
    ensures i >= 0 ==> s[i] == '.'
    ensures forall j :: i < j < |s| ==> s[j] != '.'
    decreases |s|
  {
    if s == [] then -1
    else if s[|s| - 1] == '.' then |s| - 1
    else LastDot(s[..|s| - 1])
  }

  /**
   * `path.extname(p)`: from the last '.' of the base name to its end; empty
   * when the base name has no '.', when that '.' is its first character
   * (".png"), or when the base name is "..".
   */
  function Extname(p: string): (ext: string)
    ensures ext == [] || (ext[0] == '.' && '.' !in ext[1..] && '/' !in ext)
  {
    var b := Basename(p);
    var i := LastDot(b);
    if i <= 0 || b == ".." then []
    else
      assert forall c :: c in b[i + 1..] ==> c in b;
      b[i..]
  }

  /**
   * The extension of a file name: a non-empty base followed by a '.' and
   * at least one character other than '.' and '/', written after any
   * directory, gives that extension back.
   */
  lemma ExtnameOfName(dir: string, base: string, ext: string)
    requires base != [] && '/' !in base
    requires |ext| >= 2 && ext[0] == '.' && '.' !in ext[1..] && '/' !in ext
    ensures Extname(dir + "/" + base + ext) == ext
  {
    var name := base + ext;
    assert '/' !in name by { assert forall c :: c in name ==> c in base || c in ext; }
    assert dir + "/" + base + ext == dir + "/" + name;
    BasenameOfJoin(dir, name);
    LastDotAt(base, ext);
    assert name != "..";
    assert name[|base|..] == ext;
  }

  lemma LastDotAt(base: string, ext: string)
    requires |ext| >= 1 && ext[0] == '.' && '.' !in ext[1..]
    ensures LastDot(base + ext) == |base|
  {
    var s := base + ext;
    forall j | |base| < j < |s| ensures s[j] != '.' {
      assert s[j] == ext[1..][j - |base| - 1];
    }
    var i := LastDot(s);
    assert s[|base|] == '.';
  }
}
