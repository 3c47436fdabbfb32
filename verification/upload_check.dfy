/** `upload_or_check`: list the locally built `.tar.bz2` packages, ask the
    remote channel which of them it already has, and either upload the rest
    (when a usable token is present) or report each of them as skipped.

    Everything outside the script is a field of `Host`: the environment
    variable, the two directory listings, the remote `distribution` lookup
    and the exit status of the external upload command. What the script
    prints or causes outside is recorded as a sequence of `Event`s. */
module UploadCheck {
  import opened Wrappers
  import opened Text
  import opened Lists
  import opened PackageName
  import opened Paths
  import opened Token

  /** Arguments of the remote lookup `cli.distribution(owner, name, version, distro_name)`. */
  datatype Query = Query(owner: string, name: string, version: string, distro: string)

  /** The lookup returns a record (a dict), raises `NotFound`, or raises something else. */
  datatype Reply = Record(info: map<string, string>) | NotFound | Raised(message: string)

  datatype Host = Host(
    binstarToken: Option<string>,        // `BINSTAR_TOKEN`, if set
    subdir: string,                      // the platform subdirectory of the build root
    noarchFiles: seq<string>,            // listing of `<croot>/noarch`
    subdirFiles: seq<string>,            // listing of `<croot>/<subdir>`
    distribution: Query -> Reply,        // the remote lookup
    uploadExitsZero: string -> bool)     // whether the upload command succeeds for a path

  /** One built distribution: `(name, version, path)` as the script collects them. */
  datatype Built = Built(name: string, version: string, path: string)

  /** The exceptions a run can raise. */
  datatype Fault =
    | ParseFailed(path: string, error: ParseError)
    | LookupFailed(query: Query, message: string)
    | UploadFailed(path: string)

  datatype Event =
    | ExistingNoted(path: string, owner: string)                   // "already exists" line
    | TokenFileWritten(token: string)                              // temporary token file created
    | UploadInvoked(path: string, owner: string, channel: string)  // the upload command is run
    | UploadNoted(path: string)                                    // "Uploaded" line
    | SkipNoted(path: string, owner: string)                       // "no upload is taking place" line
    | TokenDirRemoved                                              // temporary directory deleted

  /** What one run printed or did, and what it returned or raised. */
  datatype Report = Report(log: seq<Event>, outcome: Result<bool, Fault>)

  /* ---------------------------------------------------------------- listing */

  function JoinAll(dir: string, names: seq<string>): (r: seq<string>)
    ensures |r| == |names|
    ensures forall k :: 0 <= k < |names| ==> r[k] == Join(dir, names[k])
  {
    if names == [] then [] else [Join(dir, names[0])] + JoinAll(dir, names[1..])
  }

  /** The candidate paths: the `noarch` listing first, then the platform one. */
  function Listing(h: Host): seq<string> {
    JoinAll("noarch", h.noarchFiles) + JoinAll(h.subdir, h.subdirFiles)
  }

  predicate IsTarBz2(path: string) {
    EndsWith(path, Suffix)
  }

  function PathsOf(ds: seq<Built>): (r: seq<string>)
    ensures |r| == |ds|
    ensures forall k :: 0 <= k < |ds| ==> r[k] == ds[k].path
  {
    if ds == [] then [] else [ds[0].path] + PathsOf(ds[1..])
  }

  /** `b` carries the name and version `parse` reads off its path. */
  predicate ParsedFrom(b: Built, parse: string -> Result<Pkg, ParseError>) {
    var r := parse(b.path);
    r.Success? && r.value.name == b.name && r.value.version == b.version
  }

  /** The index of the first `.tar.bz2` path that `parse` rejects, or `|paths|`. */
  function FirstUnparsed(paths: seq<string>, parse: string -> Result<Pkg, ParseError>): (k: nat)
    ensures k <= |paths|
    ensures forall j :: 0 <= j < k && IsTarBz2(paths[j]) ==> parse(paths[j]).Success?
    ensures k < |paths| ==> IsTarBz2(paths[k]) && parse(paths[k]).Failure?
  {
    if paths == [] || (IsTarBz2(paths[0]) && parse(paths[0]).Failure?) then 0
    else
      assert forall j :: 1 <= j < |paths| ==> paths[j] == paths[1..][j - 1];
      1 + FirstUnparsed(paths[1..], parse)
  }

  /** The distributions of a listing whose every `.tar.bz2` path parses:
      those paths in order, each with the name and version read off it. */
  function Collect(paths: seq<string>, parse: string -> Result<Pkg, ParseError>): (ds: seq<Built>)
    requires forall k :: 0 <= k < |paths| && IsTarBz2(paths[k]) ==> parse(paths[k]).Success?
    ensures PathsOf(ds) == Filter(paths, IsTarBz2)
    ensures forall k :: 0 <= k < |ds| ==> ParsedFrom(ds[k], parse)
  {
    if paths == [] then []
    else
      assert forall k :: 1 <= k < |paths| ==> paths[k] == paths[1..][k - 1];
      var rest := Collect(paths[1..], parse);
      if !IsTarBz2(paths[0]) then rest
      else
        var p := parse(paths[0]).value;
        var ds := [Built(p.name, p.version, paths[0])] + rest;
        assert PathsOf(ds) == [paths[0]] + PathsOf(rest);
        ds
  }

  /** The built distributions: every `.tar.bz2` path, in order, with the name
      and version `parse` reads off it; the first `.tar.bz2` path that `parse`
      rejects raises. The script's parser is `split_pkg` (`UploadOrCheck`
      passes `SplitPkg`); keeping it a parameter here keeps this list-level
      contract independent of the parser's internals. */
  function BuiltDistributions(paths: seq<string>, parse: string -> Result<Pkg, ParseError>)
    : (r: Result<seq<Built>, Fault>)
    ensures r.Success? <==>
      forall k :: 0 <= k < |paths| && IsTarBz2(paths[k]) ==> parse(paths[k]).Success?
    ensures r.Success? ==> PathsOf(r.value) == Filter(paths, IsTarBz2)
    ensures r.Success? ==> forall k :: 0 <= k < |r.value| ==> ParsedFrom(r.value[k], parse)
    ensures r.Failure? ==>
      exists k :: 0 <= k < |paths| && IsTarBz2(paths[k]) && parse(paths[k]).Failure?
        && r.error == ParseFailed(paths[k], parse(paths[k]).error)
        && forall j :: 0 <= j < k && IsTarBz2(paths[j]) ==> parse(paths[j]).Success?
  {
    var k := FirstUnparsed(paths, parse);
    if k < |paths| then Failure(ParseFailed(paths[k], parse(paths[k]).error))
    else Success(Collect(paths, parse))
  }

  /* ------------------------------------------------------- existence check */

  /** The lookup `built_distribution_already_exists` makes for `b`. */
  function KeyOf(owner: string, b: Built): Query {
    Query(owner, b.name, b.version, DistroName(b.path))
  }

  /** `built_distribution_already_exists`: a `NotFound` reply means absent, a
      record means present exactly when it is non-empty, and any other
      exception propagates. */
  function AlreadyExists(distribution: Query -> Reply, owner: string, b: Built): (r: Result<bool, Fault>)
    ensures distribution(KeyOf(owner, b)).NotFound? ==> r == Success(false)
    ensures r == Success(true) <==>
      distribution(KeyOf(owner, b)).Record? && distribution(KeyOf(owner, b)).info != map[]
    ensures r.Failure? <==> distribution(KeyOf(owner, b)).Raised?
  {
    var q := KeyOf(owner, b);
    match distribution(q)
    case Record(info) => Success(info != map[])
    case NotFound => Success(false)
    case Raised(m) => Failure(LookupFailed(q, m))
  }

  /** The check the script makes for each distribution: `AlreadyExists`
      against the host's lookup. */
  function ExistenceCheck(h: Host, owner: string): Built -> Result<bool, Fault> {
    b => AlreadyExists(h.distribution, owner, b)
  }

  /** The existence flag of every built distribution, looked up in order
      with `check`; the first lookup that raises aborts the run with its
      exception. The script's check is `AlreadyExists` against its host. */
  function Classify(ds: seq<Built>, check: Built -> Result<bool, Fault>): (r: Result<seq<bool>, Fault>)
    ensures r.Success? <==> forall k :: 0 <= k < |ds| ==> check(ds[k]).Success?
    ensures r.Success? ==> |r.value| == |ds|
    ensures r.Success? ==> forall k :: 0 <= k < |ds| ==> check(ds[k]) == Success(r.value[k])
    ensures r.Failure? ==>
      exists k :: 0 <= k < |ds| && check(ds[k]) == Failure(r.error)
        && forall j :: 0 <= j < k ==> check(ds[j]).Success?
  {
    if ds == [] then Success([])
    else
      assert forall k :: 1 <= k < |ds| ==> ds[k] == ds[1..][k - 1];
      match check(ds[0])
      case Failure(e) => Failure(e)
      case Success(first) =>
        var rest := Classify(ds[1..], check);
        if rest.Failure? then
          var k :| 0 <= k < |ds[1..]| && check(ds[1..][k]) == Failure(rest.error)
            && forall j :: 0 <= j < k ==> check(ds[1..][j]).Success?;
          assert check(ds[k + 1]) == Failure(rest.error);
          Failure(rest.error)
        else
          Success([first] + rest.value)
  }

  /** The paths of the distributions whose flag is `want`, in order. */
  function Pick(ds: seq<Built>, flags: seq<bool>, want: bool): (r: seq<string>)
    requires |flags| == |ds|
    ensures |r| <= |ds|
  {
    if ds == [] then []
    else (if flags[0] == want then [ds[0].path] else []) + Pick(ds[1..], flags[1..], want)
  }

  /** Each comprehension over the flags keeps the listing order. */
  lemma {:induction false} PickIsSubsequence(ds: seq<Built>, flags: seq<bool>, want: bool)
    requires |flags| == |ds|
    ensures IsSubsequence(Pick(ds, flags, want), PathsOf(ds))
  {
    if ds != [] {
      PickIsSubsequence(ds[1..], flags[1..], want);
      assert PathsOf(ds) == [ds[0].path] + PathsOf(ds[1..]);
      SubsequenceStep(ds[0].path, Pick(ds[1..], flags[1..], want), PathsOf(ds[1..]), flags[0] == want);
    }
  }

  /** The two comprehensions together hold every distribution exactly once. */
  lemma {:induction false} PickCover(ds: seq<Built>, flags: seq<bool>)
    requires |flags| == |ds|
    ensures multiset(Pick(ds, flags, true)) + multiset(Pick(ds, flags, false)) == multiset(PathsOf(ds))
  {
    if ds != [] {
      PickCover(ds[1..], flags[1..]);
      assert PathsOf(ds) == [ds[0].path] + PathsOf(ds[1..]);
    }
  }

  /** A distribution lands in the half its flag names. */
  lemma {:induction false} PickMember(ds: seq<Built>, flags: seq<bool>, k: nat)
    requires |flags| == |ds| && k < |ds|
    ensures ds[k].path in Pick(ds, flags, flags[k])
  {
    if k > 0 {
      PickMember(ds[1..], flags[1..], k - 1);
      assert ds[1..][k - 1] == ds[k] && flags[1..][k - 1] == flags[k];
    }
  }

  /** The partition of lines 123-130: both halves keep the listing order,
      together they hold every built distribution exactly once, and each
      distribution lands in the half its existence flag names. */
  lemma PickPartition(ds: seq<Built>, flags: seq<bool>)
    requires |flags| == |ds|
    ensures IsSubsequence(Pick(ds, flags, true), PathsOf(ds))
    ensures IsSubsequence(Pick(ds, flags, false), PathsOf(ds))
    ensures multiset(Pick(ds, flags, true)) + multiset(Pick(ds, flags, false)) == multiset(PathsOf(ds))
    ensures forall k :: 0 <= k < |ds| && flags[k] ==> ds[k].path in Pick(ds, flags, true)
    ensures forall k :: 0 <= k < |ds| && !flags[k] ==> ds[k].path in Pick(ds, flags, false)
  {
    PickIsSubsequence(ds, flags, true);
    PickIsSubsequence(ds, flags, false);
    PickCover(ds, flags);
    forall k | 0 <= k < |ds| {
      PickMember(ds, flags, k);
    }
  }

  /* ------------------------------------------------------------- survey */

  /** Which built distributions the channel already has and which it misses. */
  datatype Survey = Survey(existing: seq<string>, missing: seq<string>)

  /** The distribution the script builds from a path `parse` accepts. */
  function BuiltOf(path: string, parse: string -> Result<Pkg, ParseError>): (b: Built)
    requires parse(path).Success?
    ensures ParsedFrom(b, parse) && b.path == path
  {
    Built(parse(path).value.name, parse(path).value.version, path)
  }

  /** The survey of a listing with a given parser and existence check:
      parse every `.tar.bz2` path, check each distribution in order, and
      split the paths by the answer. Both halves keep the listing order and
      together hold every `.tar.bz2` path once; a path whose check answers
      true is among the existing, one whose check answers false among the
      missing; a run that raises raised in the parser or in the check. */
  function SurveyWith(paths: seq<string>, parse: string -> Result<Pkg, ParseError>,
                      check: Built -> Result<bool, Fault>): (r: Result<Survey, Fault>)
    ensures r.Success? ==> IsSubsequence(r.value.existing, Filter(paths, IsTarBz2))
    ensures r.Success? ==> IsSubsequence(r.value.missing, Filter(paths, IsTarBz2))
    ensures r.Success? ==>
      multiset(r.value.existing) + multiset(r.value.missing) == multiset(Filter(paths, IsTarBz2))
    ensures r.Success? ==>
      forall k :: 0 <= k < |Filter(paths, IsTarBz2)| ==> parse(Filter(paths, IsTarBz2)[k]).Success?
    ensures r.Success? ==>
      forall k :: 0 <= k < |Filter(paths, IsTarBz2)| ==>
        var p := Filter(paths, IsTarBz2)[k];
        check(BuiltOf(p, parse)) == Success(true) ==> p in r.value.existing
    ensures r.Success? ==>
      forall k :: 0 <= k < |Filter(paths, IsTarBz2)| ==>
        var p := Filter(paths, IsTarBz2)[k];
        check(BuiltOf(p, parse)) == Success(false) ==> p in r.value.missing
    ensures r.Failure? ==>
      r.error.ParseFailed? || exists b :: check(b) == Failure(r.error)
  {
    match BuiltDistributions(paths, parse)
    case Failure(e) => Failure(e)
    case Success(ds) =>
      match Classify(ds, check)
      case Failure(e) => Failure(e)
      case Success(flags) =>
        PickPartition(ds, flags);
        SurveyAnswers(paths, parse, check, ds, flags);
        Success(Survey(Pick(ds, flags, true), Pick(ds, flags, false)))
  }

  /** The `k`-th built distribution is the one its path parses to, and its
      flag is its check's answer; so `Pick` sends each path where its
      check's answer says. */
  lemma SurveyAnswers(paths: seq<string>, parse: string -> Result<Pkg, ParseError>,
                      check: Built -> Result<bool, Fault>, ds: seq<Built>, flags: seq<bool>)
    requires PathsOf(ds) == Filter(paths, IsTarBz2)
    requires forall k :: 0 <= k < |ds| ==> ParsedFrom(ds[k], parse)
    requires |flags| == |ds|
    requires forall k :: 0 <= k < |ds| ==> check(ds[k]) == Success(flags[k])
    ensures forall k :: 0 <= k < |ds| ==> parse(Filter(paths, IsTarBz2)[k]).Success?
    ensures forall k :: 0 <= k < |ds| ==>
      var p := Filter(paths, IsTarBz2)[k];
      check(BuiltOf(p, parse)) == Success(true) ==> p in Pick(ds, flags, true)
    ensures forall k :: 0 <= k < |ds| ==>
      var p := Filter(paths, IsTarBz2)[k];
      check(BuiltOf(p, parse)) == Success(false) ==> p in Pick(ds, flags, false)
  {
    forall k | 0 <= k < |ds|
      ensures parse(Filter(paths, IsTarBz2)[k]).Success?
      ensures BuiltOf(Filter(paths, IsTarBz2)[k], parse) == ds[k]
    {
      assert PathsOf(ds)[k] == ds[k].path;
    }
    forall k | 0 <= k < |ds| {
      PickMember(ds, flags, k);
    }
  }

  /** Lines 113-130: list the build output, parse every `.tar.bz2` path with
      `split_pkg`, look each one up, and split them by the answer. */
  function SurveyOf(h: Host, owner: string): (r: Result<Survey, Fault>)
    ensures r.Success? ==> IsSubsequence(r.value.existing, Filter(Listing(h), IsTarBz2))
    ensures r.Success? ==> IsSubsequence(r.value.missing, Filter(Listing(h), IsTarBz2))
    ensures r.Success? ==>
      multiset(r.value.existing) + multiset(r.value.missing) == multiset(Filter(Listing(h), IsTarBz2))
    ensures r.Failure? ==> r.error.ParseFailed? || r.error.LookupFailed?
  {
    SurveyWith(Listing(h), SplitPkg, ExistenceCheck(h, owner))
  }

  /** Every `.tar.bz2` path parses and is answered for: the survey holds
      exactly those paths' distributions, each one answered. */
  predicate AllAnswered(paths: seq<string>, parse: string -> Result<Pkg, ParseError>,
                        check: Built -> Result<bool, Fault>)
  {
    forall k :: 0 <= k < |Filter(paths, IsTarBz2)| ==>
      parse(Filter(paths, IsTarBz2)[k]).Success? && check(BuiltOf(Filter(paths, IsTarBz2)[k], parse)).Success?
  }

  /** The survey succeeds exactly when every `.tar.bz2` path parses and the
      existence check answers, rather than raises, for each of them. */
  lemma SurveySucceeds(paths: seq<string>, parse: string -> Result<Pkg, ParseError>,
                       check: Built -> Result<bool, Fault>)
    ensures SurveyWith(paths, parse, check).Success? <==> AllAnswered(paths, parse, check)
  {
    if AllAnswered(paths, parse, check) {
      AnsweredSurveys(paths, parse, check);
    }
    if SurveyWith(paths, parse, check).Success? {
      SurveyAnswered(paths, parse, check);
    }
  }

  lemma AnsweredSurveys(paths: seq<string>, parse: string -> Result<Pkg, ParseError>,
                        check: Built -> Result<bool, Fault>)
    requires AllAnswered(paths, parse, check)
    ensures SurveyWith(paths, parse, check).Success?
  {
    var tars := Filter(paths, IsTarBz2);
    forall k | 0 <= k < |paths| && IsTarBz2(paths[k])
      ensures parse(paths[k]).Success?
    {
      assert paths[k] in tars;
    }
    var ds := BuiltDistributions(paths, parse).value;
    forall k | 0 <= k < |ds|
      ensures check(ds[k]).Success?
    {
      assert PathsOf(ds)[k] == ds[k].path;
      assert BuiltOf(tars[k], parse) == ds[k];
    }
    assert Classify(ds, check).Success?;
  }

  lemma SurveyAnswered(paths: seq<string>, parse: string -> Result<Pkg, ParseError>,
                       check: Built -> Result<bool, Fault>)
    requires SurveyWith(paths, parse, check).Success?
    ensures AllAnswered(paths, parse, check)
  {
    var tars := Filter(paths, IsTarBz2);
    var built := BuiltDistributions(paths, parse);
    assert built.Success?;
    var ds := built.value;
    var flags := Classify(ds, check);
    assert flags.Success?;
    forall k | 0 <= k < |tars|
      ensures parse(tars[k]).Success? && check(BuiltOf(tars[k], parse)).Success?
    {
      assert PathsOf(ds)[k] == ds[k].path;
      assert BuiltOf(tars[k], parse) == ds[k];
      assert check(ds[k]) == Success(flags.value[k]);
    }
  }

  /** A `.tar.bz2` path that does not parse makes the survey raise the parse
      error of the first such path, before any lookup. */
  lemma SurveyParseError(paths: seq<string>, parse: string -> Result<Pkg, ParseError>,
                         check: Built -> Result<bool, Fault>)
    requires FirstUnparsed(paths, parse) < |paths|
    ensures var k := FirstUnparsed(paths, parse);
      SurveyWith(paths, parse, check) == Failure(ParseFailed(paths[k], parse(paths[k]).error))
  {
  }

  /** The existence check of a parsed path answers exactly when its lookup
      under its own name, version and path does not raise. */
  lemma AnsweredAt(h: Host, owner: string, p: string)
    requires SplitPkg(p).Success?
    ensures ExistenceCheck(h, owner)(BuiltOf(p, SplitPkg)).Success? <==>
      !h.distribution(Query(owner, SplitPkg(p).value.name, SplitPkg(p).value.version, p)).Raised?
  {
    KeyIsPath(owner, BuiltOf(p, SplitPkg));
  }

  /** Every `.tar.bz2` path of the build output parses and its lookup does
      not raise. */
  predicate LookupsAnswer(h: Host, owner: string) {
    forall k :: 0 <= k < |Filter(Listing(h), IsTarBz2)| ==>
      var p := Filter(Listing(h), IsTarBz2)[k];
      SplitPkg(p).Success?
      && !h.distribution(Query(owner, SplitPkg(p).value.name, SplitPkg(p).value.version, p)).Raised?
  }

  lemma LookupsAnswerIff(h: Host, owner: string)
    ensures AllAnswered(Listing(h), SplitPkg, ExistenceCheck(h, owner)) <==> LookupsAnswer(h, owner)
  {
    var tars := Filter(Listing(h), IsTarBz2);
    forall k | 0 <= k < |tars| && SplitPkg(tars[k]).Success? {
      AnsweredAt(h, owner, tars[k]);
    }
  }

  /** The script's survey succeeds exactly when every `.tar.bz2` path of the
      build output parses and the remote lookup under its own name, version
      and path does not raise (it returns a record or raises `NotFound`). */
  lemma SurveyOfSucceeds(h: Host, owner: string)
    ensures SurveyOf(h, owner).Success? <==> LookupsAnswer(h, owner)
  {
    SurveySucceeds(Listing(h), SplitPkg, ExistenceCheck(h, owner));
    LookupsAnswerIff(h, owner);
  }

  /** In the survey of the build output, a `.tar.bz2` path whose existence
      check answers true is among the existing, and one whose check answers
      false among the missing. */
  lemma SurveyOfByAnswer(h: Host, owner: string)
    ensures SurveyOf(h, owner).Success? ==>
      forall k :: 0 <= k < |Filter(Listing(h), IsTarBz2)| ==> SplitPkg(Filter(Listing(h), IsTarBz2)[k]).Success?
    ensures SurveyOf(h, owner).Success? ==>
      forall k :: 0 <= k < |Filter(Listing(h), IsTarBz2)| ==>
        var p := Filter(Listing(h), IsTarBz2)[k];
        AlreadyExists(h.distribution, owner, BuiltOf(p, SplitPkg)) == Success(true) ==> p in SurveyOf(h, owner).value.existing
    ensures SurveyOf(h, owner).Success? ==>
      forall k :: 0 <= k < |Filter(Listing(h), IsTarBz2)| ==>
        var p := Filter(Listing(h), IsTarBz2)[k];
        AlreadyExists(h.distribution, owner, BuiltOf(p, SplitPkg)) == Success(false) ==> p in SurveyOf(h, owner).value.missing
  {
  }

  /** A `.tar.bz2` path whose lookup under its own path, name and version
      answers `NotFound` is classified as missing. */
  lemma NotFoundIsMissing(h: Host, owner: string, k: nat)
    requires SurveyOf(h, owner).Success?
    requires k < |Filter(Listing(h), IsTarBz2)|
    requires var p := Filter(Listing(h), IsTarBz2)[k];
      SplitPkg(p).Success?
      && h.distribution(Query(owner, SplitPkg(p).value.name, SplitPkg(p).value.version, p)).NotFound?
    ensures Filter(Listing(h), IsTarBz2)[k] in SurveyOf(h, owner).value.missing
  {
    SurveyOfByAnswer(h, owner);
    KeyIsPath(owner, BuiltOf(Filter(Listing(h), IsTarBz2)[k], SplitPkg));
  }

  /** A `.tar.bz2` path whose lookup returns a non-empty record is
      classified as existing. */
  lemma FoundIsExisting(h: Host, owner: string, k: nat)
    requires SurveyOf(h, owner).Success?
    requires k < |Filter(Listing(h), IsTarBz2)|
    requires var p := Filter(Listing(h), IsTarBz2)[k];
      SplitPkg(p).Success?
      && var reply := h.distribution(Query(owner, SplitPkg(p).value.name, SplitPkg(p).value.version, p));
      reply.Record? && reply.info != map[]
    ensures Filter(Listing(h), IsTarBz2)[k] in SurveyOf(h, owner).value.existing
  {
    SurveyOfByAnswer(h, owner);
    KeyIsPath(owner, BuiltOf(Filter(Listing(h), IsTarBz2)[k], SplitPkg));
  }

  /** A `.tar.bz2` path whose lookup returns an empty record is classified
      as missing, like one the channel does not know. */
  lemma EmptyRecordIsMissing(h: Host, owner: string, k: nat)
    requires SurveyOf(h, owner).Success?
    requires k < |Filter(Listing(h), IsTarBz2)|
    requires var p := Filter(Listing(h), IsTarBz2)[k];
      SplitPkg(p).Success?
      && h.distribution(Query(owner, SplitPkg(p).value.name, SplitPkg(p).value.version, p)) == Record(map[])
    ensures Filter(Listing(h), IsTarBz2)[k] in SurveyOf(h, owner).value.missing
  {
    SurveyOfByAnswer(h, owner);
    KeyIsPath(owner, BuiltOf(Filter(Listing(h), IsTarBz2)[k], SplitPkg));
  }

  /** With every flag false, nothing is picked as existing and every
      distribution is picked as missing, in order. */
  lemma {:induction false} PickNone(ds: seq<Built>, flags: seq<bool>)
    requires |flags| == |ds| && forall k :: 0 <= k < |flags| ==> !flags[k]
    ensures Pick(ds, flags, true) == [] && Pick(ds, flags, false) == PathsOf(ds)
  {
    if ds != [] {
      assert forall k :: 0 <= k < |flags[1..]| ==> flags[1..][k] == flags[k + 1];
      PickNone(ds[1..], flags[1..]);
      assert PathsOf(ds) == [ds[0].path] + PathsOf(ds[1..]);
    }
  }

  /** A check that answers "absent" for everything classifies every
      distribution of a parsable listing as missing. */
  lemma NoneExist(paths: seq<string>, parse: string -> Result<Pkg, ParseError>,
                  check: Built -> Result<bool, Fault>)
    requires forall k :: 0 <= k < |paths| && IsTarBz2(paths[k]) ==> parse(paths[k]).Success?
    requires forall b :: check(b) == Success(false)
    ensures SurveyWith(paths, parse, check) == Success(Survey([], Filter(paths, IsTarBz2)))
  {
    var ds := BuiltDistributions(paths, parse).value;
    var flags := Classify(ds, check).value;
    assert forall k :: 0 <= k < |flags| ==> check(ds[k]) == Success(flags[k]);
    PickNone(ds, flags);
  }

  /** When the lookup answers `NotFound` for everything, every built
      distribution is classified as new. */
  lemma NothingFoundAllMissing(h: Host, owner: string)
    requires forall q :: h.distribution(q).NotFound?
    requires forall k :: 0 <= k < |Listing(h)| && IsTarBz2(Listing(h)[k]) ==> SplitPkg(Listing(h)[k]).Success?
    ensures SurveyOf(h, owner) == Success(Survey([], Filter(Listing(h), IsTarBz2)))
  {
    assert forall b :: ExistenceCheck(h, owner)(b) == Success(false);
    NoneExist(Listing(h), SplitPkg, ExistenceCheck(h, owner));
  }

  /** The remote key of a parsed distribution is its own local path: the
      platform directory and the file name. */
  lemma KeyIsPath(owner: string, b: Built)
    requires ParsedFrom(b, SplitPkg)
    ensures KeyOf(owner, b) == Query(owner, b.name, b.version, b.path)
  {
    ParsedPathShape(b.path);
    var pkg := SplitPkg(b.path).value;
    DistroNameOfPlatformPath(pkg.platform, FileName(pkg));
  }

  /* ----------------------------------------------------- upload or skip */

  /** The paths the upload command was run on, in order. */
  function Invoked(log: seq<Event>): seq<string> {
    if log == [] then []
    else (if log[0].UploadInvoked? then [log[0].path] else []) + Invoked(log[1..])
  }

  /** The paths reported as skipped for want of a token, in order. */
  function Skipped(log: seq<Event>): seq<string> {
    if log == [] then []
    else (if log[0].SkipNoted? then [log[0].path] else []) + Skipped(log[1..])
  }

  lemma {:induction false} InvokedAppend(a: seq<Event>, b: seq<Event>)
    ensures Invoked(a + b) == Invoked(a) + Invoked(b)
    ensures Skipped(a + b) == Skipped(a) + Skipped(b)
  {
    if a == [] {
      assert a + b == b;
    } else {
      assert (a + b)[0] == a[0];
      assert (a + b)[1..] == a[1..] + b;
      InvokedAppend(a[1..], b);
    }
  }

  /** The log of the upload loop and the exception that ended it, if any. */
  datatype Steps = Steps(log: seq<Event>, fault: Option<Fault>)

  /** The index of the first path whose upload exits non-zero, or `|paths|`. */
  function FirstRejected(h: Host, paths: seq<string>): (k: nat)
    ensures k <= |paths|
    ensures forall j :: 0 <= j < k ==> h.uploadExitsZero(paths[j])
    ensures k < |paths| ==> !h.uploadExitsZero(paths[k])
  {
    if paths == [] || !h.uploadExitsZero(paths[0]) then 0
    else
      assert forall j :: 1 <= j < |paths| ==> paths[j] == paths[1..][j - 1];
      1 + FirstRejected(h, paths[1..])
  }

  lemma InvokedPair(p: string, owner: string, channel: string, rest: seq<Event>)
    ensures Invoked([UploadInvoked(p, owner, channel), UploadNoted(p)] + rest) == [p] + Invoked(rest)
  {
    InvokedAppend([UploadInvoked(p, owner, channel), UploadNoted(p)], rest);
    assert Invoked([UploadInvoked(p, owner, channel), UploadNoted(p)]) == [p];
  }

  /** The first `k + 1` elements are the head followed by the first `k` of the tail. */
  lemma ConsPrefix<T>(s: seq<T>, k: nat)
    requires k < |s|
    ensures [s[0]] + s[1..][..k] == s[..k + 1]
    ensures k + 1 == |s| ==> [s[0]] + s[1..] == s
  {
  }

  /** The loop of lines 135-137: run the upload command on each path in
      order, noting each success; the first non-zero exit raises. So the
      command runs on exactly the paths up to and including the first
      rejected one, in order, and on all of them when none is rejected. */
  function UploadEach(h: Host, owner: string, channel: string, paths: seq<string>): (s: Steps)
    ensures var k := FirstRejected(h, paths);
      && (s.fault.None? <==> k == |paths|)
      && (k == |paths| ==> Invoked(s.log) == paths)
      && (k < |paths| ==> s.fault == Some(UploadFailed(paths[k])) && Invoked(s.log) == paths[..k + 1])
  {
    if paths == [] then Steps([], None)
    else
      var call := UploadInvoked(paths[0], owner, channel);
      if !h.uploadExitsZero(paths[0]) then
        assert Invoked([call]) == [paths[0]] == paths[..1];
        Steps([call], Some(UploadFailed(paths[0])))
      else
        var rest := UploadEach(h, owner, channel, paths[1..]);
        var k := FirstRejected(h, paths[1..]);
        assert FirstRejected(h, paths) == 1 + k;
        InvokedPair(paths[0], owner, channel, rest.log);
        ConsPrefix(paths, k);
        Steps([call, UploadNoted(paths[0])] + rest.log, rest.fault)
  }

  /** The upload loop only runs the upload command with the given owner and
      channel and notes uploads: it writes no token file, removes no
      directory and reports nothing as skipped. */
  lemma {:induction false} UploadEachEvents(h: Host, owner: string, channel: string, paths: seq<string>)
    ensures var log := UploadEach(h, owner, channel, paths).log;
      && Skipped(log) == []
      && (forall e :: e in log ==> e.UploadInvoked? || e.UploadNoted?)
      && (forall e :: e in log && e.UploadInvoked? ==> e.owner == owner && e.channel == channel)
  {
    if paths != [] && h.uploadExitsZero(paths[0]) {
      var rest := UploadEach(h, owner, channel, paths[1..]);
      UploadEachEvents(h, owner, channel, paths[1..]);
      InvokedAppend([UploadInvoked(paths[0], owner, channel), UploadNoted(paths[0])], rest.log);
    }
  }

  /** Lines 140-142: one skip line per missing distribution. */
  function Skips(paths: seq<string>, owner: string): (log: seq<Event>)
    ensures Skipped(log) == paths
    ensures Invoked(log) == []
    ensures forall e :: e in log ==> e.SkipNoted? && e.owner == owner
  {
    if paths == [] then []
    else
      InvokedAppend([SkipNoted(paths[0], owner)], Skips(paths[1..], owner));
      [SkipNoted(paths[0], owner)] + Skips(paths[1..], owner)
  }

  /** Lines 125-126: one "already exists" line per existing distribution. */
  function ExistingLines(paths: seq<string>, owner: string): (log: seq<Event>)
    ensures |log| == |paths|
    ensures forall k :: 0 <= k < |paths| ==> log[k] == ExistingNoted(paths[k], owner)
    ensures forall e :: e in log ==> e.ExistingNoted?
    ensures Invoked(log) == [] && Skipped(log) == []
  {
    if paths == [] then []
    else
      InvokedAppend([ExistingNoted(paths[0], owner)], ExistingLines(paths[1..], owner));
      [ExistingNoted(paths[0], owner)] + ExistingLines(paths[1..], owner)
  }

  /** Lines 125-143, once the survey is known: note the existing
      distributions, then upload the missing ones inside one temporary token
      file's lifetime (returning true) or report each as skipped (returning
      false). The temporary directory is removed only when every upload
      succeeded: an exception leaves it behind. */
  function UploadOrSkip(h: Host, owner: string, channel: string, survey: Survey): (r: Report)
    ensures UploadToken(h.binstarToken).None? ==> r.outcome == Success(false)
    ensures UploadToken(h.binstarToken).Some? ==> r.outcome != Success(false)
    ensures r.outcome.Failure? ==> r.outcome.error.UploadFailed?
  {
    var noted := ExistingLines(survey.existing, owner);
    var token := UploadToken(h.binstarToken);
    if token.None? then Report(noted + Skips(survey.missing, owner), Success(false))
    else
      var steps := UploadEach(h, owner, channel, survey.missing);
      var log := noted + [TokenFileWritten(token.value)] + steps.log;
      if steps.fault.None? then Report(log + [TokenDirRemoved], Success(true))
      else Report(log, Failure(steps.fault.value))
  }

  /** What `upload_or_check` does once the survey has been made (or has
      raised): a parse or lookup exception aborts the run before anything is
      printed. Otherwise, without a usable token every missing distribution
      is reported as skipped and the run returns false; with one, the upload
      command runs on the missing distributions in order, and the run
      returns true when none is rejected and raises for the first rejected
      one otherwise. */
  function AfterSurvey(h: Host, owner: string, channel: string, survey: Result<Survey, Fault>): (r: Report)
    ensures r.outcome == Success(true) ==> UploadToken(h.binstarToken).Some?
    ensures r.outcome == Success(false) ==> UploadToken(h.binstarToken).None?
    ensures survey.Failure? ==> r == Report([], Failure(survey.error))
    ensures survey.Success? && UploadToken(h.binstarToken).None? ==>
      && r.outcome == Success(false)
      && Invoked(r.log) == []
      && Skipped(r.log) == survey.value.missing
    ensures survey.Success? && UploadToken(h.binstarToken).Some? ==>
      var missing := survey.value.missing;
      var k := FirstRejected(h, missing);
      && Skipped(r.log) == []
      && (k == |missing| ==> r.outcome == Success(true) && Invoked(r.log) == missing)
      && (k < |missing| ==>
            r.outcome == Failure(UploadFailed(missing[k])) && Invoked(r.log) == missing[..k + 1])
  {
    match survey
    case Failure(e) => Report([], Failure(e))
    case Success(s) =>
      UploadOrSkipDecides(h, owner, channel, s);
      UploadOrSkip(h, owner, channel, s)
  }

  /** `upload_or_check`: survey the build output, then upload or skip. */
  function UploadOrCheck(h: Host, owner: string, channel: string): (r: Report)
    ensures r.outcome == Success(true) ==> UploadToken(h.binstarToken).Some?
    ensures r.outcome == Success(false) ==> UploadToken(h.binstarToken).None?
    ensures SurveyOf(h, owner).Failure? ==> r == Report([], Failure(SurveyOf(h, owner).error))
  {
    AfterSurvey(h, owner, channel, SurveyOf(h, owner))
  }

  /** Without a usable token, `upload_or_check` uploads nothing, reports
      every missing distribution of its own survey as skipped, in order, and
      returns false. */
  lemma UploadOrCheckSkips(h: Host, owner: string, channel: string, survey: Survey)
    requires UploadToken(h.binstarToken).None?
    requires SurveyOf(h, owner) == Success(survey)
    ensures var r := UploadOrCheck(h, owner, channel);
      && r.outcome == Success(false)
      && Invoked(r.log) == []
      && Skipped(r.log) == survey.missing
  {
    SkipsEveryMissing(h, owner, channel, survey);
  }

  /** With a usable token and no rejected upload, `upload_or_check` uploads
      every missing distribution of its own survey, in order, skips
      nothing, and returns true. */
  lemma UploadOrCheckUploads(h: Host, owner: string, channel: string, survey: Survey)
    requires UploadToken(h.binstarToken).Some?
    requires SurveyOf(h, owner) == Success(survey)
    requires FirstRejected(h, survey.missing) == |survey.missing|
    ensures var r := UploadOrCheck(h, owner, channel);
      && r.outcome == Success(true)
      && Invoked(r.log) == survey.missing
      && Skipped(r.log) == []
  {
    UploadsEveryMissing(h, owner, channel, survey);
  }

  /** With a usable token, a rejected upload makes `upload_or_check` raise
      for the first missing distribution of its own survey that the command
      rejects, after running it on the missing distributions up to and
      including that one, in order, and skipping nothing. */
  lemma UploadOrCheckStops(h: Host, owner: string, channel: string, survey: Survey)
    requires UploadToken(h.binstarToken).Some?
    requires SurveyOf(h, owner) == Success(survey)
    requires FirstRejected(h, survey.missing) < |survey.missing|
    ensures var r := UploadOrCheck(h, owner, channel);
      var k := FirstRejected(h, survey.missing);
      && r.outcome == Failure(UploadFailed(survey.missing[k]))
      && Invoked(r.log) == survey.missing[..k + 1]
      && Skipped(r.log) == []
  {
    FailedUploadStops(h, owner, channel, survey);
  }

  /** The upload decision of lines 133-143 for a known survey. */
  lemma UploadOrSkipDecides(h: Host, owner: string, channel: string, survey: Survey)
    ensures var r := UploadOrSkip(h, owner, channel, survey);
      UploadToken(h.binstarToken).None? ==>
        r.outcome == Success(false) && Invoked(r.log) == [] && Skipped(r.log) == survey.missing
    ensures var r := UploadOrSkip(h, owner, channel, survey);
      var k := FirstRejected(h, survey.missing);
      UploadToken(h.binstarToken).Some? ==>
        && Skipped(r.log) == []
        && (k == |survey.missing| ==> r.outcome == Success(true) && Invoked(r.log) == survey.missing)
        && (k < |survey.missing| ==>
              r.outcome == Failure(UploadFailed(survey.missing[k])) && Invoked(r.log) == survey.missing[..k + 1])
  {
    if UploadToken(h.binstarToken).None? {
      SkipsEveryMissing(h, owner, channel, survey);
    } else if FirstRejected(h, survey.missing) == |survey.missing| {
      UploadsEveryMissing(h, owner, channel, survey);
    } else {
      FailedUploadStops(h, owner, channel, survey);
    }
  }

  /** The token file's lifetime adds no upload and no skip to the log:
      around the upload loop's own events there are only the "already
      exists" lines, the token file and, when the loop completed, the
      directory removal. */
  lemma SessionLog(noted: seq<Event>, token: string, steps: seq<Event>, done: bool)
    requires Invoked(noted) == [] && Skipped(noted) == []
    ensures var log := noted + [TokenFileWritten(token)] + steps + (if done then [TokenDirRemoved] else []);
      Invoked(log) == Invoked(steps) && Skipped(log) == Skipped(steps)
  {
    var open := noted + [TokenFileWritten(token)];
    InvokedAppend(noted, [TokenFileWritten(token)]);
    InvokedAppend(open, steps);
    InvokedAppend(open + steps, if done then [TokenDirRemoved] else []);
  }

  /** With a usable token and no failing upload, every missing distribution
      is uploaded exactly once, in listing order, the temporary directory is
      removed last, and the run returns true. */
  lemma UploadsEveryMissing(h: Host, owner: string, channel: string, survey: Survey)
    requires UploadToken(h.binstarToken).Some?
    requires forall k :: 0 <= k < |survey.missing| ==> h.uploadExitsZero(survey.missing[k])
    ensures var r := UploadOrSkip(h, owner, channel, survey);
      && r.outcome == Success(true)
      && Invoked(r.log) == survey.missing
      && Skipped(r.log) == []
      && r.log[|r.log| - 1] == TokenDirRemoved
  {
    var token := UploadToken(h.binstarToken).value;
    var steps := UploadEach(h, owner, channel, survey.missing);
    assert FirstRejected(h, survey.missing) == |survey.missing|;
    UploadEachEvents(h, owner, channel, survey.missing);
    var noted := ExistingLines(survey.existing, owner);
    var r := UploadOrSkip(h, owner, channel, survey);
    assert steps.fault.None?;
    assert r.log == noted + [TokenFileWritten(token)] + steps.log + [TokenDirRemoved];
    SessionLog(noted, token, steps.log, true);
  }

  /** Without a usable token nothing is uploaded: every missing distribution
      gets one skip line, in listing order, and the run returns false. */
  lemma SkipsEveryMissing(h: Host, owner: string, channel: string, survey: Survey)
    requires UploadToken(h.binstarToken).None?
    ensures var r := UploadOrSkip(h, owner, channel, survey);
      && r.outcome == Success(false)
      && Invoked(r.log) == []
      && Skipped(r.log) == survey.missing
  {
    InvokedAppend(ExistingLines(survey.existing, owner), Skips(survey.missing, owner));
  }

  /** A failing upload raises after running the command on the missing
      distributions up to and including the failing one, in order. */
  lemma FailedUploadStops(h: Host, owner: string, channel: string, survey: Survey)
    requires UploadToken(h.binstarToken).Some?
    requires FirstRejected(h, survey.missing) < |survey.missing|
    ensures var r := UploadOrSkip(h, owner, channel, survey);
      var k := FirstRejected(h, survey.missing);
      && r.outcome == Failure(UploadFailed(survey.missing[k]))
      && Invoked(r.log) == survey.missing[..k + 1]
      && Skipped(r.log) == []
  {
    UploadEachEvents(h, owner, channel, survey.missing);
    var token := UploadToken(h.binstarToken).value;
    var steps := UploadEach(h, owner, channel, survey.missing);
    var noted := ExistingLines(survey.existing, owner);
    var r := UploadOrSkip(h, owner, channel, survey);
    assert steps.fault.Some?;
    assert r.log == noted + [TokenFileWritten(token)] + steps.log + [];
    SessionLog(noted, token, steps.log, false);
  }

  /** When an upload raises, the token file has been written and its
      temporary directory is never removed: the cleanup after the `yield`
      runs only when the loop completes. */
  lemma FailedUploadLeavesTokenDir(h: Host, owner: string, channel: string, survey: Survey)
    requires UploadToken(h.binstarToken).Some?
    requires FirstRejected(h, survey.missing) < |survey.missing|
    ensures var r := UploadOrSkip(h, owner, channel, survey);
      && r.outcome.Failure?
      && TokenFileWritten(UploadToken(h.binstarToken).value) in r.log
      && TokenDirRemoved !in r.log
  {
    var token := UploadToken(h.binstarToken).value;
    var steps := UploadEach(h, owner, channel, survey.missing);
    UploadEachEvents(h, owner, channel, survey.missing);
    var noted := ExistingLines(survey.existing, owner);
    var log := noted + [TokenFileWritten(token)] + steps.log;
    assert log[|noted|] == TokenFileWritten(token);
    assert forall e :: e in log ==> e in noted || e == TokenFileWritten(token) || e in steps.log;
  }

  /** A placeholder token and an empty token behave exactly like an unset one. */
  lemma UnusableTokenIsAbsent(h: Host, owner: string, channel: string, t: string)
    requires t == [] || StartsWith(t, Placeholder)
    ensures UploadOrCheck(h.(binstarToken := Some(t)), owner, channel)
         == UploadOrCheck(h.(binstarToken := None), owner, channel)
  {
    var h1 := h.(binstarToken := Some(t));
    var h2 := h.(binstarToken := None);
    assert Listing(h1) == Listing(h2);
    assert SurveyOf(h1, owner) == SurveyOf(h2, owner);
  }
}
