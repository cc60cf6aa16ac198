/** The pathlib and os.path operations the application applies to file names, with '/'
    as the only separator: the last component of a path, its suffix and stem, and
    joining a directory with a file name. */
module Paths {
  import Strings

  /** `os.path.basename(p)`: everything after the last '/'. */
  function Name(p: string): (r: string)
    ensures '/' !in r
    ensures |r| <= |p| && r == p[|p| - |r|..]
    ensures '/' !in p ==> r == p
  {
    p[Strings.RFind(p, '/') + 1..]
  }

  /** Index of the dot that starts the suffix of a file name, or -1 when it has none:
      the last dot, provided it is neither the first nor the last character. */
  function SuffixDot(name: string): (i: int)
    ensures i == -1 || (0 < i < |name| - 1 && name[i] == '.')
  {
    var i := Strings.RFind(name, '.');
    if 0 < i < |name| - 1 then i else -1
  }

  /** `Path(p).suffix`: the final suffix of the last component, dot included, or "". */
  function Suffix(p: string): (r: string)
    ensures r == [] || (|r| >= 2 && r[0] == '.' && '.' !in r[1..])
  {
    var n := Name(p);
    var i := SuffixDot(n);
    if i < 0 then "" else n[i..]
  }

  /** `Path(p).stem`: the last component without its suffix. */
  function Stem(p: string): string {
    var n := Name(p);
    var i := SuffixDot(n);
    if i < 0 then n else n[..i]
  }

  lemma StemThenSuffixIsName(p: string)
    ensures Stem(p) + Suffix(p) == Name(p)
  {
    var n := Name(p);
    var i := SuffixDot(n);
    if i >= 0 {
      assert n[..i] + n[i..] == n;
    } else {
      assert n + "" == n;
    }
  }

  /** The suffix of a path is decided by its last component alone. */
  lemma SuffixDependsOnName(p: string, q: string)
    requires Name(p) == Name(q)
    ensures Suffix(p) == Suffix(q)
  {
  }

  /** `str(Path(dir) / name)` for a plain file name. Unlike pathlib it does not
      normalise the directory: `./` and repeated `/` are kept as given, which makes no
      difference for the absolute directories the dialogs return. */
  function Join(dir: string, name: string): string {
    if dir == [] then name
    else if dir[|dir| - 1] == '/' then dir + name
    else dir + "/" + name
  }

  /** Joining a directory with a plain file name keeps that name as the last component. */
  lemma {:induction false} NameOfJoin(dir: string, name: string)
    requires '/' !in name
    ensures Name(Join(dir, name)) == name
  {
    var p := Join(dir, name);
    if dir != [] {
      var k := |p| - |name| - 1;
      assert p[k] == '/';
      assert forall j :: k < j < |p| ==> p[j] == name[j - k - 1];
      var i := Strings.RFind(p, '/');
      assert i == k;
    }
  }

  /** A path whose last component is `n + ext`, where `ext` is a suffix and `n`
      is non-empty, has exactly that suffix. */
  lemma {:induction false} SuffixOfPlainName(n: string, ext: string)
    requires '/' !in n && n != [] && |ext| >= 2 && ext[0] == '.' && '.' !in ext[1..] && '/' !in ext
    ensures Suffix(n + ext) == ext
  {
    var s := n + ext;
    assert Name(s) == s;
    var k := |n|;
    assert s[k] == '.';
    assert forall j :: k < j < |s| ==> s[j] == ext[1..][j - k - 1];
    assert Strings.RFind(s, '.') == k;
  }
}
