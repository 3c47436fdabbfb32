/** `split_pkg`: the parser for conda package paths of the shape
    `<platform>/<name>-<version>-<build>.tar.bz2`. */
module PackageName {
  import opened Wrappers
  import opened Text

  /** The only archive format the script handles. */
  const Suffix: string := ".tar.bz2"

  datatype Pkg = Pkg(platform: string, name: string, version: string, build: string)

  /** Why `split_pkg` raised, one constructor per statement that can raise. */
  datatype ParseError =
    | NotTarBz2                  // the RuntimeError for a foreign suffix
    | PlatformUnpack(parts: nat) // `plat, pkg_name = ...split("/")` got `parts` values
    | BuildUnpack                // `rsplit('-', 1)` of the file name found no hyphen
    | VersionUnpack              // `rsplit('-', 1)` of `name-ver` found no hyphen

  /** The path a package is stored under: the inverse of `SplitPkg`. */
  function Format(p: Pkg): string {
    p.platform + "/" + p.name + "-" + p.version + "-" + p.build + Suffix
  }

  /** The fields `SplitPkg` can produce: no field holds a slash (the path has
      exactly one), and the version and build hold no hyphen (both splits take
      the rightmost one). The name may hold hyphens. */
  predicate Valid(p: Pkg) {
    && '/' !in p.platform && '/' !in p.name && '/' !in p.version && '/' !in p.build
    && '-' !in p.version && '-' !in p.build
  }

  /** The path with the archive suffix cut off (`pkg[:-8]`). */
  function Stem(pkg: string): string
    requires EndsWith(pkg, Suffix)
  {
    pkg[..|pkg| - |Suffix|]
  }

  function SplitPkg(pkg: string): (r: Result<Pkg, ParseError>)
    ensures r == Failure(NotTarBz2) <==> !EndsWith(pkg, Suffix)
    ensures r.Success? ==> Valid(r.value) && Format(r.value) == pkg
    ensures r.Failure? && r.error.PlatformUnpack? ==> r.error.parts != 2
  {
    if !EndsWith(pkg, Suffix) then Failure(NotTarBz2)
    else
      var parts := Split(Stem(pkg), '/');
      if |parts| != 2 then Failure(PlatformUnpack(|parts|))
      else
        var nameVerBuild := RSplitOnce(parts[1], '-');
        if |nameVerBuild| != 2 then Failure(BuildUnpack)
        else
          var nameVer := RSplitOnce(nameVerBuild[0], '-');
          if |nameVer| != 2 then Failure(VersionUnpack)
          else
            Reassembled(pkg, parts[0], parts[1], nameVerBuild[0], nameVerBuild[1], nameVer[0], nameVer[1]);
            Success(Pkg(parts[0], nameVer[0], nameVer[1], nameVerBuild[1]))
  }

  /** The pieces `SplitPkg` cuts a path into are valid fields that format
      back to the path. */
  lemma Reassembled(pkg: string, plat: string, file: string, nameVer: string, build: string,
                    name: string, ver: string)
    requires EndsWith(pkg, Suffix)
    requires Split(Stem(pkg), '/') == [plat, file]
    requires file == nameVer + "-" + build && '-' !in build
    requires nameVer == name + "-" + ver && '-' !in ver
    ensures Valid(Pkg(plat, name, ver, build))
    ensures Format(Pkg(plat, name, ver, build)) == pkg
  {
    SplitTwo(Stem(pkg), '/', plat, file);
    assert pkg == Stem(pkg) + Suffix;
    assert file == name + "-" + ver + "-" + build;
    assert '/' !in nameVer && '/' !in build;
    assert '/' !in name && '/' !in ver;
  }

  /** Round trip: every valid package formats to a path that parses back to it. */
  lemma FormatRoundTrip(p: Pkg)
    requires Valid(p)
    ensures SplitPkg(Format(p)) == Success(p)
  {
    var nameVer := p.name + "-" + p.version;
    var file := nameVer + "-" + p.build;
    FormatStem(p);
    SplitJoinTwo(p.platform, file, '/');
    RSplitOnceAround(nameVer, p.build, '-');
    RSplitOnceAround(p.name, p.version, '-');
  }

  /** A formatted path carries the suffix, and cutting it off leaves the
      platform, one slash, and a slash-free file stem. */
  lemma FormatStem(p: Pkg)
    requires Valid(p)
    ensures var file := p.name + "-" + p.version + "-" + p.build;
      && EndsWith(Format(p), Suffix) && Stem(Format(p)) == p.platform + "/" + file && '/' !in file
  {
    var file := p.name + "-" + p.version + "-" + p.build;
    var s := Format(p);
    assert s == p.platform + "/" + file + Suffix;
    assert s[|s| - |Suffix|..] == Suffix;
    assert s[..|s| - |Suffix|] == p.platform + "/" + file;
  }

  /** The file name part of a package path. */
  function FileName(p: Pkg): string {
    p.name + "-" + p.version + "-" + p.build + Suffix
  }

  /** A parsed path is its platform, one slash, and a slash-free file name. */
  lemma ParsedPathShape(pkg: string)
    requires SplitPkg(pkg).Success?
    ensures var p := SplitPkg(pkg).value;
      pkg == p.platform + "/" + FileName(p) && '/' !in p.platform && '/' !in FileName(p)
  {
    var p := SplitPkg(pkg).value;
    FormatShape(p);
  }

  lemma FormatShape(p: Pkg)
    requires Valid(p)
    ensures Format(p) == p.platform + "/" + FileName(p) && '/' !in FileName(p)
  {
  }

  /** A path parses exactly when it is the format of some valid package. */
  lemma SplitPkgSucceedsIff(pkg: string)
    ensures SplitPkg(pkg).Success? <==> exists p :: Valid(p) && Format(p) == pkg
  {
    if p :| Valid(p) && Format(p) == pkg {
      FormatRoundTrip(p);
    }
  }

  /** A suffix-stripped path without exactly one slash fails to unpack into
      platform and file name. */
  lemma SlashCountFailure(stem: string)
    requires Count(stem, '/') != 1
    ensures SplitPkg(stem + Suffix) == Failure(PlatformUnpack(Count(stem, '/') + 1))
  {
    var s := stem + Suffix;
    assert EndsWith(s, Suffix);
    assert Stem(s) == stem;
  }

  /** With one slash, the outcome is decided by the hyphens in the file name:
      none fails the build split, one fails the version split, two or more parse. */
  lemma HyphenCountOutcome(plat: string, file: string)
    requires '/' !in plat && '/' !in file
    ensures Count(file, '-') == 0 <==> SplitPkg(plat + "/" + file + Suffix) == Failure(BuildUnpack)
    ensures Count(file, '-') == 1 <==> SplitPkg(plat + "/" + file + Suffix) == Failure(VersionUnpack)
    ensures Count(file, '-') >= 2 <==> SplitPkg(plat + "/" + file + Suffix).Success?
  {
    var s := plat + "/" + file + Suffix;
    assert EndsWith(s, Suffix);
    assert Stem(s) == plat + "/" + file;
    SplitJoin([plat, file], '/');
    assert Split(Stem(s), '/') == [plat, file];
    CountZero(file, '-');
    if '-' in file {
      var halves := RSplitOnce(file, '-');
      CountAround(halves[0], halves[1], '-');
      CountZero(halves[1], '-');
      CountZero(halves[0], '-');
    }
  }
}
