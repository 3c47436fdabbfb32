# upload_or_check_non_existence, modelled in Dafny

This project models the conda-forge recipe upload script
`recipe/upload_or_check_non_existence.py`. The script lists the `.tar.bz2`
packages a conda build produced under `noarch/` and `<subdir>/`. It parses
each path into platform, name, version and build (`split_pkg`). It asks
anaconda.org whether the owner already has each package
(`built_distribution_already_exists`). Then either it uploads the new ones
with a temporary token file, when `BINSTAR_TOKEN` holds a usable token, or
it reports each of them as skipped. The whole run is attempted up to nine
times, with a sleep of `i * i` seconds after the `i`-th failed attempt, before
a timeout error (`retry_upload_or_check`).

The model is purely functional:

- `Host` gathers everything the script reads from outside: the
  environment variable, the two directory listings, the remote
  `distribution` lookup (a function from query to reply) and the exit status
  of the `anaconda upload` command (a predicate on the path).
- A run returns a `Report`: the sequence of `Event`s it printed or caused,
  and its outcome, which is either the returned boolean or the exception
  (`Fault`) it raised.
- The retry loop takes one host per attempt (`hosts: nat -> Host`), so a
  remote that recovers between attempts can be described. Sleeps are
  recorded in the `Backoff`s rather than performed.

Modules: `Wrappers` (Option/Result), `Text` (the `str` methods used:
`startswith`, `endswith`, `split`, `rsplit(c, 1)`), `Lists` (list
comprehension filtering and the subsequence order), `PackageName`
(`split_pkg`), `Paths` (`os.path.join`, `os.path.split`, the remote
distribution name), `Token` (the `BINSTAR_TOKEN` checks), `UploadCheck`
(`upload_or_check`), `Retrying` (the generic retry loop), `Pipeline`
(`retry_upload_or_check` around `upload_or_check`) and `Example` (a
two-package run).

Behaviours of the code worth noting, each stated as a lemma about the model:

- A malformed `.tar.bz2` name does not abort the run. `split_pkg` raises
  inside `upload_or_check`, and `retry_upload_or_check` catches every
  `Exception`. So every one of the nine attempts raises the parse error, and
  the run ends in the timeout error (`Pipeline.UnparsablePackageTimesOut`).
- The temporary token directory is not removed on every exit path.
  `get_temp_token` has no `try`/`finally`, so `shutil.rmtree` runs only when
  the `with` body finishes normally. A failing upload leaves the directory
  behind (`UploadCheck.FailedUploadLeavesTokenDir`).
- An empty `BINSTAR_TOKEN` is kept by the placeholder check (line 107 tests
  truthiness first). It is still treated as no token, because line 133 tests
  truthiness again (`Token.UploadToken`, `UploadCheck.UnusableTokenIsAbsent`).

## Model

| member | source | states |
|---|---|---|
| PackageName.SplitPkg | recipe/upload_or_check_non_existence.py:21-28 | fails with the suffix error exactly when the path does not end in `.tar.bz2`; a success is a valid package (no slash in any field, no hyphen in version or build) whose formatted path is the input; an unpack failure for the slash split never reports two parts |
| PackageName.FormatRoundTrip | recipe/upload_or_check_non_existence.py:21-28 | every valid package formats to `platform/name-version-build.tar.bz2`, and that path parses back to exactly that package |
| PackageName.SplitPkgSucceedsIff | recipe/upload_or_check_non_existence.py:21-28 | a path parses exactly when it is the formatted path of some valid package |
| PackageName.SlashCountFailure | recipe/upload_or_check_non_existence.py:24-25 | a stem without exactly one slash raises the two-value unpack error, reporting one more value than it has slashes |
| PackageName.HyphenCountOutcome | recipe/upload_or_check_non_existence.py:26-27 | with one slash, a file name with no hyphen fails the build split, one hyphen fails the version split, and two or more parse (each an if-and-only-if) |
| Paths.JoinSplit | recipe/upload_or_check_non_existence.py:47 | `os.path.split` of `os.path.join(dir, name)` gives back `dir` and `name` for slash-free, non-empty parts |
| Paths.DistroName | recipe/upload_or_check_non_existence.py:47-49 | the remote distribution name always holds exactly one slash |
| Paths.DistroNameOfPlatformPath | recipe/upload_or_check_non_existence.py:47-49 | for a `platform/file` path the remote distribution name is the path itself, the empty platform included |
| Token.Sanitise | recipe/upload_or_check_non_existence.py:103-108 | the token is dropped exactly when it is unset or starts with `$(`; otherwise it is kept unchanged, the empty string included |
| Token.UploadToken | recipe/upload_or_check_non_existence.py:103-133 | the run uploads exactly when the variable is set, non-empty and does not start with `$(`, and then with that value |
| UploadCheck.BuiltDistributions | recipe/upload_or_check_non_existence.py:117-120 | succeeds exactly when every `.tar.bz2` path parses; the paths kept are the `.tar.bz2` ones in listing order, each with its parsed name and version; otherwise the error is the parse error of the first unparsable `.tar.bz2` path |
| UploadCheck.AlreadyExists | recipe/upload_or_check_non_existence.py:41-69 | `NotFound` means absent; present exactly when the lookup returns a non-empty record; raises exactly when the lookup raises something else |
| UploadCheck.Classify | recipe/upload_or_check_non_existence.py:123-130 | succeeds exactly when every lookup succeeds, with one flag per distribution equal to that lookup's answer; otherwise raises the exception of the first lookup that raised |
| UploadCheck.PickPartition | recipe/upload_or_check_non_existence.py:123-130 | the existing and the new lists each keep the listing order, together hold every built distribution exactly once (as multisets), and each distribution lands in the list its flag names |
| UploadCheck.SurveyWith | recipe/upload_or_check_non_existence.py:117-130 | both lists are subsequences of the `.tar.bz2` paths and together a permutation of them; every such path parses, and one whose existence check answers true is among the existing, one answering false among the missing; a raised error came from the parser or from the check |
| UploadCheck.SurveySucceeds | recipe/upload_or_check_non_existence.py:117-130 | the survey succeeds if and only if every `.tar.bz2` path parses and the existence check answers, rather than raises, for each of them |
| UploadCheck.SurveyParseError | recipe/upload_or_check_non_existence.py:117-120 | when a `.tar.bz2` path does not parse, the survey raises the parse error of the first such path in listing order |
| UploadCheck.SurveyOf | recipe/upload_or_check_non_existence.py:113-130 | over the listing of `noarch` then `<subdir>`, both lists are subsequences of the `.tar.bz2` paths and together a permutation of them; a raised error is a parse or lookup error |
| UploadCheck.SurveyOfSucceeds | recipe/upload_or_check_non_existence.py:113-130 | the script's survey succeeds if and only if every `.tar.bz2` path of the build output parses and its lookup under its own name, version and path returns a record or raises `NotFound`, rather than raising anything else |
| UploadCheck.SurveyOfByAnswer | recipe/upload_or_check_non_existence.py:117-130 | in that survey, a `.tar.bz2` path whose `built_distribution_already_exists` answers true is among the existing and one answering false among the missing |
| UploadCheck.NotFoundIsMissing | recipe/upload_or_check_non_existence.py:117-130 | a `.tar.bz2` path whose lookup under its own name, version and path answers `NotFound` is classified as new |
| UploadCheck.FoundIsExisting | recipe/upload_or_check_non_existence.py:117-130 | a `.tar.bz2` path whose lookup under its own name, version and path returns a non-empty record is classified as existing |
| UploadCheck.EmptyRecordIsMissing | recipe/upload_or_check_non_existence.py:117-130 | a `.tar.bz2` path whose lookup returns an empty record is classified as new, like one the channel does not know |
| UploadCheck.NothingFoundAllMissing | recipe/upload_or_check_non_existence.py:117-130 | when every lookup answers `NotFound`, nothing is existing and every `.tar.bz2` path is new, in listing order |
| UploadCheck.UploadEach | recipe/upload_or_check_non_existence.py:135-137 | the upload command runs on exactly the new paths up to and including the first one it rejects, in order, and raises for that path; it runs on all of them when none is rejected |
| UploadCheck.UploadEachEvents | recipe/upload_or_check_non_existence.py:135-137 | the upload loop only runs the command with the given owner and channel and prints "Uploaded" lines; it writes no token file, removes nothing and skips nothing |
| UploadCheck.Skips | recipe/upload_or_check_non_existence.py:140-142 | one skip line per new distribution, in order, and no upload |
| UploadCheck.ExistingLines | recipe/upload_or_check_non_existence.py:125-126 | one "already exists" line per existing distribution, in order |
| UploadCheck.UploadOrSkip | recipe/upload_or_check_non_existence.py:125-143 | without a usable token the run returns false; with one it never returns false; the only exception it raises is a failed upload |
| UploadCheck.AfterSurvey | recipe/upload_or_check_non_existence.py:125-143 | for a given survey: a survey error is raised with nothing printed; without a usable token every new path is skipped, in order, and the run returns false; with one nothing is skipped, and the command runs on all new paths, returning true, or up to and including the first rejected one, raising for it |
| UploadCheck.UploadOrCheck | recipe/upload_or_check_non_existence.py:102-143 | returning true implies a usable token and returning false implies none; a parse or lookup error is raised before anything is printed |
| UploadCheck.UploadOrCheckSkips | recipe/upload_or_check_non_existence.py:133-143 | without a usable token the run uploads nothing, reports every new path of its own survey as skipped, in order, and returns false |
| UploadCheck.UploadOrCheckUploads | recipe/upload_or_check_non_existence.py:133-138 | with a usable token and no rejected upload, the run uploads every new path of its own survey, in order, skips nothing and returns true |
| UploadCheck.UploadOrCheckStops | recipe/upload_or_check_non_existence.py:133-137 | with a usable token and a rejected upload, the run raises for the first new path the command rejects, after running it on the new paths up to and including that one, and skips nothing |
| UploadCheck.UploadsEveryMissing | recipe/upload_or_check_non_existence.py:133-138 | with a usable token and no rejected upload, every new distribution is uploaded exactly once in order, nothing is skipped, the token directory is removed last, and the run returns true |
| UploadCheck.SkipsEveryMissing | recipe/upload_or_check_non_existence.py:139-143 | without a usable token nothing is uploaded, every new distribution gets exactly one skip line in order, and the run returns false |
| UploadCheck.FailedUploadStops | recipe/upload_or_check_non_existence.py:134-137 | a rejected upload raises for that path after running the command on the new paths up to and including it, and nothing is reported as skipped |
| UploadCheck.FailedUploadLeavesTokenDir | recipe/upload_or_check_non_existence.py:32-38 | when an upload raises, the token file has been written and the temporary directory is never removed |
| UploadCheck.UnusableTokenIsAbsent | recipe/upload_or_check_non_existence.py:103-133 | an empty token or one starting with `$(` gives exactly the same run as an unset one |
| Retrying.RetryFrom | recipe/upload_or_check_non_existence.py:149-157 | from attempt `i` on, the backoffs are exactly the failed attempts in order, each with its own error and a pause of its number squared; the run returns the first success unchanged or times out after attempt 9 |
| Retrying.Retry | recipe/upload_or_check_non_existence.py:149-157 | at most nine backoffs; backoff `k` records the failure of attempt `k + 1` with its error and a pause of `(k + 1)` squared; the run times out exactly after nine backoffs, and otherwise returns the value of the attempt after the last backoff, which succeeded |
| Retrying.AttemptsBounded | recipe/upload_or_check_non_existence.py:149 | the operation is called at most nine times |
| Retrying.ReturnsFirstSuccess | recipe/upload_or_check_non_existence.py:149-152 | the run returns `v` exactly when some attempt within nine returns `v` and every earlier attempt raises |
| Retrying.TimesOutAfterAllFail | recipe/upload_or_check_non_existence.py:149-157 | the run times out exactly when all nine attempts raise, after sleeping 1, 4, ..., 81 seconds, 285 in all |
| Pipeline.RetryReports | recipe/upload_or_check_non_existence.py:149-157 | each backoff carries the report of an attempt that raised, in attempt order; the run times out exactly after nine backoffs, and otherwise returns the report of the first attempt that did not raise |
| Pipeline.RetryUploadOrCheck | recipe/upload_or_check_non_existence.py:146-157 | every attempt before the last one made raised; backoff `k` belongs to attempt `k`, carries `upload_or_check`'s report against that attempt's host and sleeps `k * k` seconds; the run times out exactly after nine backoffs, and otherwise returns the report of the attempt after the last backoff, which did not raise |
| Pipeline.AllFailuresTimeOut | recipe/upload_or_check_non_existence.py:153-157 | when all nine attempts raise, the run times out with one backoff per attempt and 285 seconds of sleep |
| Pipeline.RecoveryIsReturned | recipe/upload_or_check_non_existence.py:149-156 | when attempt `j` is the first not to raise, the run returns its report after `j - 1` backoffs |
| Pipeline.UnparsablePackageTimesOut | recipe/upload_or_check_non_existence.py:117-157 | a `.tar.bz2` file that `split_pkg` rejects makes every attempt raise a parse error, so the run times out after nine attempts and 285 seconds of sleep |
| Example.ScenarioUploads | recipe/upload_or_check_non_existence.py:102-138 | with `foo` on the channel, `bar` not, and a usable token, the run prints the "already exists" line for `foo`, writes the token file, uploads and notes only `bar`, removes the directory and returns true |
| Example.ScenarioChecksOnly | recipe/upload_or_check_non_existence.py:102-143 | the same packages without a usable token give the "already exists" line for `foo`, one skip line for `bar`, no upload, and false |

## Left out

- The `click` command line (`main`, lines 160-179) is left out. `recipe_dir` and `variant` are never used by the logic. `channel` and `owner` are parameters of `UploadOrCheck`.
- `get_server_api` and the `binstar_client` client object are left out. The lookup `cli.distribution` is the `Host.distribution` oracle. The token file receives the sanitised token, which stands in for `cli.token`.
- `os.listdir` and `conda_build.config` are left out. The two listings and the platform subdirectory are `Host` fields. A listing that raises is not modelled.
- The `anaconda upload` subprocess (lines 72-77) is reduced to its exit status (`Host.uploadExitsZero`). A non-zero exit raises `UploadFailed`.
- In `get_temp_token` (lines 31-38), the temporary directory, the file write and `shutil.rmtree` are recorded as the events `TokenFileWritten` and `TokenDirRemoved`. File-system failures are not modelled.
- `time.sleep` is recorded as the `seconds` of each `Backoff`. Nothing is slept.
- Printed messages are events, not text. The text of the "Failed to upload" message, which formats the exception, is not modelled.
- `distribution_exists_on_channel` (lines 80-99) is never called by the script, and `get_index` is remote, so it is not modelled.
- The md5 comparison (lines 57-68) is commented out in the source, so it is not modelled.
- `UploadCheck.Classify`: the source looks every distribution up twice, once for each list comprehension (lines 123-124 and 129-130). The model looks each up once, so a lookup that answers differently the second time, or that raises only the second time, is not modelled.
- Exceptions are modelled as values: `ParseFailed`, `LookupFailed` and `UploadFailed`. Exceptions that are not `Exception` subclasses, such as `KeyboardInterrupt`, escape the retry loop in Python; they are not modelled.
