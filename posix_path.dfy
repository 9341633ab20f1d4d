/**
 The two POSIX path operations the window uses to build a copy
 destination: `basename` (everything after the last '/') and `join`
 (a second absolute path replaces the first; otherwise a '/' is put
 between the two unless the first is empty or already ends in '/').
 */
module PosixPath {

  type Path = string

  /** True when `p` ends with a separator. */
  predicate EndsWithSlash(p: Path) {
    |p| > 0 && p[|p| - 1] == '/'
  }

  /**
   The final component of `p`: the text after its last '/', or all of `p`
   when it has none. A path that ends in '/' has an empty basename.
   */
  function Basename(p: Path): Path {
    if p == [] || p[|p| - 1] == '/' then []
    else Basename(p[..|p| - 1]) + [p[|p| - 1]]
  }

  /**
   The basename holds no separator and is a suffix of the path, either
   the whole path or preceded by a separator.
   */
  lemma {:induction false} BasenameIsLastComponent(p: Path)
    ensures '/' !in Basename(p)
    ensures |Basename(p)| <= |p| && p == p[..|p| - |Basename(p)|] + Basename(p)
    ensures |Basename(p)| < |p| ==> p[|p| - |Basename(p)| - 1] == '/'
  {
    if p != [] && p[|p| - 1] != '/' {
      var init := p[..|p| - 1];
      var last := p[|p| - 1];
      BasenameIsLastComponent(init);
      var r0 := Basename(init);
      var r := Basename(p);
      assert r == r0 + [last];
      assert p == init + [last];
      var k := |init| - |r0|;
      assert init == init[..k] + r0;
      assert p[..|p| - |r|] == init[..k];
      assert p == p[..|p| - |r|] + r;
      if |r| < |p| {
        assert p[|p| - |r| - 1] == init[k - 1];
      }
    }
  }

  /** `posixpath.join(a, b)` for two components. */
  function Join(a: Path, b: Path): Path {
    if |b| > 0 && b[0] == '/' then b
    else if a == [] || EndsWithSlash(a) then a + b
    else a + "/" + b
  }

  /** The directory `d` written with exactly one trailing separator added if missing. */
  function AsDirectory(d: Path): (r: Path)
    requires d != []
    ensures EndsWithSlash(r)
    ensures r == d || r == d + "/"
    ensures EndsWithSlash(d) ==> r == d
  {
    if EndsWithSlash(d) then d else d + "/"
  }

  /** Whatever precedes a separator, the basename is the slash-free tail after it. */
  lemma {:induction false} BasenameAfterSlash(dir: Path, name: Path)
    requires EndsWithSlash(dir)
    requires '/' !in name
    ensures Basename(dir + name) == name
  {
    if name == [] {
      assert dir + name == dir;
    } else {
      var init := name[..|name| - 1];
      assert (dir + name)[..|dir + name| - 1] == dir + init;
      BasenameAfterSlash(dir, init);
      assert init + [name[|name| - 1]] == name;
    }
  }

  /**
   Joining a non-empty directory with a slash-free name puts the name
   directly under that directory, and the basename of the result is the
   name again.
   */
  lemma JoinDirectlyUnder(dir: Path, name: Path)
    requires dir != []
    requires '/' !in name
    ensures Join(dir, name) == AsDirectory(dir) + name
    ensures Basename(Join(dir, name)) == name
  {
    assert name == [] || name[0] != '/' by {
      if name != [] { assert name[0] in name; }
    }
    BasenameAfterSlash(AsDirectory(dir), name);
  }

  /** Installing a file under its own basename keeps that basename. */
  lemma JoinKeepsBasename(dir: Path, source: Path)
    requires dir != []
    ensures Join(dir, Basename(source)) == AsDirectory(dir) + Basename(source)
    ensures Basename(Join(dir, Basename(source))) == Basename(source)
  {
    BasenameIsLastComponent(source);
    JoinDirectlyUnder(dir, Basename(source));
  }
}
