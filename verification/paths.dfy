/** POSIX path helpers: `os.path.join` of two components and `os.path.splitext`. */
module Paths {

  /** Position of the last occurrence of c in s, or -1 when there is none. */
  function LastIndex(s: string, c: char): (k: int)
    ensures -1 <= k < |s|
    ensures k >= 0 ==> s[k] == c
    ensures forall j :: k < j < |s| ==> s[j] != c
  {
    if s == [] then -1
    else if s[|s| - 1] == c then |s| - 1
    else LastIndex(s[..|s| - 1], c)
  }

  /** `os.path.join(dir, name)`: an absolute name replaces dir; otherwise a '/'
      goes between them unless dir is empty or already ends with one. */
  function Join(dir: string, name: string): (p: string)
  {
    if |name| > 0 && name[0] == '/' then name
    else if dir == [] || dir[|dir| - 1] == '/' then dir + name
    else dir + "/" + name
  }

  /** Joining a fixed directory with relative names loses nothing: the name is
      a suffix of the path and the prefix before it depends on dir alone. */
  lemma JoinRelative(dir: string, name: string)
    requires name == [] || name[0] != '/'
    ensures Join(dir, name) == JoinPrefix(dir) + name
  {
  }

  /** What `os.path.join` puts in front of a relative name. */
  function JoinPrefix(dir: string): string {
    if dir == [] || dir[|dir| - 1] == '/' then dir else dir + "/"
  }

  /** Two relative names joined onto the same directory give the same path only when they are equal. */
  lemma JoinInjective(dir: string, a: string, b: string)
    requires a == [] || a[0] != '/'
    requires b == [] || b[0] != '/'
    ensures Join(dir, a) == Join(dir, b) <==> a == b
  {
    JoinRelative(dir, a);
    JoinRelative(dir, b);
    var q := JoinPrefix(dir);
    if Join(dir, a) == Join(dir, b) {
      assert a == (q + a)[|q|..] && b == (q + b)[|q|..];
    }
  }

  /** `os.path.splitext(p)` on POSIX: the extension starts at the last '.' of the
      final component, provided that component has some other character before
      that dot (so ".bashrc" and "dir/..." have no extension). */
  function SplitExt(p: string): (parts: (string, string))
    ensures parts.0 + parts.1 == p
    ensures parts.1 == [] || (parts.1[0] == '.' && '/' !in parts.1 && '.' !in parts.1[1..])
  {
    var sep := LastIndex(p, '/');
    var dot := LastIndex(p, '.');
    if dot > sep && exists k :: sep < k < dot && p[k] != '.' then
      assert forall j :: 0 <= j < |p[dot..]| ==> p[dot..][j] == p[dot + j];
      (p[..dot], p[dot..])
    else
      (p, "")
  }

  /** A path whose final component is `base` + "." + `ext`, with a character other
      than '.' right before the dot and no '.' or '/' in ext, splits at that dot. */
  lemma SplitExtAtLastDot(prefix: string, ext: string)
    requires |prefix| > 0 && prefix[|prefix| - 1] != '.' && prefix[|prefix| - 1] != '/'
    requires '.' !in ext && '/' !in ext
    ensures SplitExt(prefix + "." + ext) == (prefix, "." + ext)
  {
    var p := prefix + "." + ext;
    var dot := |prefix|;
    assert p[dot] == '.';
    assert forall j :: dot < j < |p| ==> p[j] == ext[j - dot - 1];
    assert LastIndex(p, '.') == dot;
    var sep := LastIndex(p, '/');
    assert sep < dot - 1;
    assert p[dot - 1] != '.';
    assert p[..dot] == prefix;
    assert p[dot..] == "." + ext;
  }
}
