/** A run over two built packages on one platform: the channel already has
    the first and lacks the second, and the token is usable. */
module Example {
  import opened Wrappers
  import opened Text
  import opened PackageName
  import opened Paths
  import opened Token
  import opened UploadCheck

  /** The scenario: `foo` and `bar` built for platform `h.subdir`, nothing
      built for `noarch`, `foo` on the channel and `bar` not. */
  predicate Scenario(h: Host, owner: string, foo: Pkg, bar: Pkg) {
    && Valid(foo) && Valid(bar)
    && foo.platform == h.subdir && bar.platform == h.subdir && h.subdir != []
    && h.noarchFiles == [] && h.subdirFiles == [FileName(foo), FileName(bar)]
    && h.distribution(Query(owner, foo.name, foo.version, Format(foo))).Record?
    && h.distribution(Query(owner, foo.name, foo.version, Format(foo))).info != map[]
    && h.distribution(Query(owner, bar.name, bar.version, Format(bar))).NotFound?
  }

  /** Both files are listed under the platform directory. */
  lemma ScenarioListing(h: Host, owner: string, foo: Pkg, bar: Pkg)
    requires Scenario(h, owner, foo, bar)
    ensures Listing(h) == [Format(foo), Format(bar)]
  {
    FormatShape(foo);
    FormatShape(bar);
    JoinPlain(h.subdir, FileName(foo));
    JoinPlain(h.subdir, FileName(bar));
    assert JoinAll(h.subdir, h.subdirFiles)
        == [Join(h.subdir, FileName(foo))] + JoinAll(h.subdir, [FileName(bar)]);
  }

  /** Two `.tar.bz2` paths that both parse give two distributions, in order. */
  lemma TwoBuilt(a: string, b: string, parse: string -> Result<Pkg, ParseError>, pa: Pkg, pb: Pkg)
    requires IsTarBz2(a) && IsTarBz2(b)
    requires parse(a) == Success(pa) && parse(b) == Success(pb)
    ensures BuiltDistributions([a, b], parse)
         == Success([Built(pa.name, pa.version, a), Built(pb.name, pb.version, b)])
  {
    var paths := [a, b];
    assert paths[1..] == [b] && paths[1..][1..] == [];
    assert FirstUnparsed(paths, parse) == 2;
    assert Collect(paths, parse) == [Built(pa.name, pa.version, a), Built(pb.name, pb.version, b)];
  }

  /** Two distributions whose checks both answer give both flags, in order. */
  lemma TwoChecks(da: Built, db: Built, check: Built -> Result<bool, Fault>, x: bool, y: bool)
    requires check(da) == Success(x) && check(db) == Success(y)
    ensures Classify([da, db], check) == Success([x, y])
  {
    var ds := [da, db];
    assert ds[1..] == [db] && ds[1..][1..] == [];
    assert Classify([], check) == Success([]);
    assert [db][1..] == [] && [y] + [] == [y] && [x] + [y] == [x, y];
    assert Classify([db], check) == Success([y]);
  }

  /** The lookup of a parsed package path answers what the channel holds
      under that very path. */
  lemma LookupOfPackage(h: Host, owner: string, p: Pkg)
    requires Valid(p)
    ensures AlreadyExists(h.distribution, owner, Built(p.name, p.version, Format(p)))
         == (match h.distribution(Query(owner, p.name, p.version, Format(p)))
             case Record(info) => Success(info != map[])
             case NotFound => Success(false)
             case Raised(m) => Failure(LookupFailed(Query(owner, p.name, p.version, Format(p)), m)))
  {
    FormatShape(p);
    DistroNameOfPlatformPath(p.platform, FileName(p));
  }

  /** Both listed files parse back into their packages. */
  lemma ScenarioBuilt(h: Host, owner: string, foo: Pkg, bar: Pkg)
    requires Scenario(h, owner, foo, bar)
    ensures BuiltDistributions(Listing(h), SplitPkg)
         == Success([Built(foo.name, foo.version, Format(foo)), Built(bar.name, bar.version, Format(bar))])
  {
    ScenarioListing(h, owner, foo, bar);
    FormatStem(foo);
    FormatStem(bar);
    FormatRoundTrip(foo);
    FormatRoundTrip(bar);
    TwoBuilt(Format(foo), Format(bar), SplitPkg, foo, bar);
  }

  /** The lookups flag `foo` as existing and `bar` as new. */
  lemma ScenarioFlags(h: Host, owner: string, foo: Pkg, bar: Pkg)
    requires Scenario(h, owner, foo, bar)
    ensures var ds := [Built(foo.name, foo.version, Format(foo)), Built(bar.name, bar.version, Format(bar))];
      Classify(ds, ExistenceCheck(h, owner)) == Success([true, false])
  {
    var check := ExistenceCheck(h, owner);
    LookupOfPackage(h, owner, foo);
    LookupOfPackage(h, owner, bar);
    TwoChecks(Built(foo.name, foo.version, Format(foo)), Built(bar.name, bar.version, Format(bar)),
              check, true, false);
  }

  /** The survey puts `foo` among the existing and `bar` among the missing. */
  lemma ScenarioSurvey(h: Host, owner: string, foo: Pkg, bar: Pkg)
    requires Scenario(h, owner, foo, bar)
    ensures SurveyOf(h, owner) == Success(Survey([Format(foo)], [Format(bar)]))
  {
    var da := Built(foo.name, foo.version, Format(foo));
    var db := Built(bar.name, bar.version, Format(bar));
    ScenarioBuilt(h, owner, foo, bar);
    ScenarioFlags(h, owner, foo, bar);
    SurveyOfTwo(Listing(h), SplitPkg, ExistenceCheck(h, owner), da, db);
  }

  /** Two distributions flagged existing and new are split accordingly. */
  lemma SurveyOfTwo(paths: seq<string>, parse: string -> Result<Pkg, ParseError>,
                    check: Built -> Result<bool, Fault>, da: Built, db: Built)
    requires BuiltDistributions(paths, parse) == Success([da, db])
    requires Classify([da, db], check) == Success([true, false])
    ensures SurveyWith(paths, parse, check) == Success(Survey([da.path], [db.path]))
  {
    assert [da, db][1..] == [db] && [true, false][1..] == [false];
    assert Pick([da, db], [true, false], true) == [da.path];
    assert Pick([da, db], [true, false], false) == [db.path];
  }

  /** With a usable token the run notes `foo` as existing, writes the token
      file, uploads `bar` alone, notes it, removes the temporary directory
      and returns true. */
  lemma ScenarioUploads(h: Host, owner: string, channel: string, foo: Pkg, bar: Pkg)
    requires Scenario(h, owner, foo, bar)
    requires UploadToken(h.binstarToken).Some? && h.uploadExitsZero(Format(bar))
    ensures UploadOrCheck(h, owner, channel)
         == Report([ExistingNoted(Format(foo), owner),
                    TokenFileWritten(h.binstarToken.value),
                    UploadInvoked(Format(bar), owner, channel),
                    UploadNoted(Format(bar)),
                    TokenDirRemoved],
                   Success(true))
  {
    ScenarioSurvey(h, owner, foo, bar);
    UploadOneOfTwo(h, owner, channel, Format(foo), Format(bar));
  }

  /** The upload half with one existing and one missing distribution. */
  lemma UploadOneOfTwo(h: Host, owner: string, channel: string, e: string, m: string)
    requires UploadToken(h.binstarToken).Some? && h.uploadExitsZero(m)
    ensures UploadOrSkip(h, owner, channel, Survey([e], [m]))
         == Report([ExistingNoted(e, owner), TokenFileWritten(h.binstarToken.value),
                    UploadInvoked(m, owner, channel), UploadNoted(m), TokenDirRemoved],
                   Success(true))
  {
    assert [m][1..] == [];
    assert UploadEach(h, owner, channel, [m])
        == Steps([UploadInvoked(m, owner, channel), UploadNoted(m)], None);
    assert ExistingLines([e], owner) == [ExistingNoted(e, owner)];
  }

  /** Without a usable token the run notes `foo` as existing, reports `bar`
      as skipped, uploads nothing and returns false. */
  lemma ScenarioChecksOnly(h: Host, owner: string, channel: string, foo: Pkg, bar: Pkg)
    requires Scenario(h, owner, foo, bar)
    requires UploadToken(h.binstarToken).None?
    ensures UploadOrCheck(h, owner, channel)
         == Report([ExistingNoted(Format(foo), owner), SkipNoted(Format(bar), owner)], Success(false))
  {
    ScenarioSurvey(h, owner, foo, bar);
    SkipOneOfTwo(h, owner, channel, Format(foo), Format(bar));
  }

  /** The check-only half with one existing and one missing distribution. */
  lemma SkipOneOfTwo(h: Host, owner: string, channel: string, e: string, m: string)
    requires UploadToken(h.binstarToken).None?
    ensures UploadOrSkip(h, owner, channel, Survey([e], [m]))
         == Report([ExistingNoted(e, owner), SkipNoted(m, owner)], Success(false))
  {
    assert [m][1..] == [] && [e][1..] == [];
    assert ExistingLines([e], owner) == [ExistingNoted(e, owner)];
    assert Skips([m], owner) == [SkipNoted(m, owner)];
  }
}
