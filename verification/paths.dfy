/** The POSIX path helpers the script calls (`os.path.join`, `os.path.split`)
    and the remote key it derives from a local package path. */
module Paths {
  import opened Text

  predicate AllSlashes(s: string) {
    forall k :: 0 <= k < |s| ==> s[k] == '/'
  }

  /** `s.rstrip('/')` */
  function RStripSlashes(s: string): (r: string)
    ensures r == [] || r[|r| - 1] != '/'
    ensures |r| <= |s| && r == s[..|r|] && AllSlashes(s[|r|..])
  {
    if s != [] && s[|s| - 1] == '/' then
      var r := RStripSlashes(s[..|s| - 1]);
      assert s[|r|..] == s[..|s| - 1][|r|..] + ['/'];
      r
    else
      assert s[|s|..] == [];
      s
  }

  /** `os.path.split(p)`: the tail is everything after the last slash; the
      head is everything before it, with trailing slashes removed unless the
      head consists of slashes only. */
  function PathSplit(p: string): (r: (string, string))
    ensures '/' !in r.1
    ensures EndsWith(p, r.1)
    ensures |r.1| < |p| ==> p[|p| - |r.1| - 1] == '/'
  {
    var i := RFind(p, '/') + 1;
    var head := p[..i];
    var tail := p[i..];
    if head != [] && !AllSlashes(head) then (RStripSlashes(head), tail) else (head, tail)
  }

  /** `os.path.join(a, b)` */
  function Join(a: string, b: string): string {
    if StartsWith(b, "/") then b
    else if a == [] || EndsWith(a, "/") then a + b
    else a + "/" + b
  }

  /** `os.path.split` of `a/b` for slash-free `a` and `b`: the head is `a`,
      or the root `/` when `a` is empty, and the tail is `b`. */
  lemma SplitAtSlash(a: string, b: string)
    requires '/' !in a && '/' !in b
    ensures PathSplit(a + "/" + b) == (if a == [] then "/" else a, b)
  {
    var p := a + "/" + b;
    RFindAround(a, b, '/');
    assert p[..|a| + 1] == a + "/";
    assert p[|a| + 1..] == b;
    if a == [] {
      assert a + "/" == "/" && AllSlashes("/");
    } else {
      assert a[|a| - 1] in a;
      StripOneSlash(a);
    }
  }

  /** One trailing slash after a name that does not end in one is stripped
      back to the name, and the name is not all slashes. */
  lemma StripOneSlash(a: string)
    requires a != [] && a[|a| - 1] != '/'
    ensures !AllSlashes(a + "/") && RStripSlashes(a + "/") == a
  {
    assert (a + "/")[0] == a[0];
    assert (a + "/")[..|a|] == a;
    assert RStripSlashes(a) == a;
  }

  /** `os.path.split` of a slash-free name: an empty head and the name. */
  lemma SplitNoSlash(a: string)
    requires '/' !in a
    ensures PathSplit(a) == ("", a)
  {
    assert RFind(a, '/') == -1;
    assert a[..0] == "" && a[0..] == a;
  }

  /** `os.path.split("/")` keeps the root as the head. */
  lemma SplitRoot()
    ensures PathSplit("/") == ("/", "")
  {
    assert RFind("/", '/') == 0;
    assert AllSlashes("/");
    assert "/"[..1] == "/" && "/"[1..] == "";
  }

  /** Splitting a joined directory and file name gives both back. */
  lemma JoinSplit(dir: string, name: string)
    requires dir != [] && '/' !in dir && '/' !in name
    ensures PathSplit(Join(dir, name)) == (dir, name)
  {
    JoinPlain(dir, name);
    SplitAtSlash(dir, name);
  }

  /** Joining a non-empty slash-free directory and a slash-free name puts
      one slash between them. */
  lemma JoinPlain(dir: string, name: string)
    requires dir != [] && '/' !in dir && '/' !in name
    ensures Join(dir, name) == dir + "/" + name
  {
    assert !StartsWith(name, "/") by {
      assert name != [] ==> name[..1] == [name[0]];
    }
    assert !EndsWith(dir, "/") by {
      assert dir[|dir| - 1..] == [dir[|dir| - 1]];
    }
  }

  /** The remote distribution key of a local file (`distro_name`): the name
      of its parent directory and its base name, joined by a slash. */
  function DistroName(fname: string): (r: string)
    ensures Count(r, '/') == 1
  {
    var basename := PathSplit(fname).1;
    var platform := PathSplit(PathSplit(fname).0).1;
    OneSlash(platform, basename);
    platform + "/" + basename
  }

  lemma OneSlash(a: string, b: string)
    requires '/' !in a && '/' !in b
    ensures Count(a + "/" + b, '/') == 1
  {
    CountZero(a, '/');
    CountZero(b, '/');
    CountAround(a, b, '/');
  }

  /** For a path with exactly one slash, as produced for every package the
      script finds, the remote key is the path itself. */
  lemma DistroNameOfPlatformPath(plat: string, file: string)
    requires '/' !in plat && '/' !in file
    ensures DistroName(plat + "/" + file) == plat + "/" + file
  {
    SplitAtSlash(plat, file);
    if plat == [] {
      SplitRoot();
    } else {
      SplitNoSlash(plat);
    }
  }
}
