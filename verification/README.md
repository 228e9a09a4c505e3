# rgudw — a Dafny model of the PS3 game-update downloader

`rgudw` takes either one PS3 title identifier (such as `BLUS12345`) or the
path of a `games.yml` catalog. It validates the identifiers, fetches each
title's update manifest from the PlayStation update feed, and reads the
packages each manifest lists. It then downloads each title's update into
`<home>/PS3 Game Updates/<titleid>/<file>`, skipping files already present.

This project models the decision logic of that pipeline as pure Dafny
functions over immutable data, and proves what each step promises.

- **Basics** has `Option`, `Result` and `Fault`. `Fault` has one constructor
  for every `exit` and every raise the model covers. The raises it does not
  cover are listed under "Left out".
- **Text** holds the ASCII behaviour of the Python string built-ins the
  program uses: `upper`, `isdecimal`, `startswith`, clamped slicing and
  `split`. It also has the digits `%.2f` writes for the integer part of a
  number.
- **GameIds** has the 25-prefix allow-list, `validate_id`, and the argument
  dispatch of `parse_game_ids`.
- **Sizes** is `convert_bytes_to_megabytes`. It computes the byte count in
  hundredths of a mebibyte, rounded half to even as `%.2f` rounds.
- **Platform** has `get_platform` and `verify_platform`. It also has the
  separator each platform writes, the folder and file paths built from it,
  and the file name taken from a URL.
- **Metadata** covers `get_parse` and `parse_game_metadata`. The
  loop variables (`game_version`, `game_size`, `game_sysver`, `game_url`,
  `game_name`) are modelled as slots that may be unbound. They persist from
  one title to the next, as they do in the program.
- **Downloads** covers `create_per_game_update_folder`,
  `is_already_downloaded` and `get_update`.
  - The filesystem is a set of directory paths and a set of file paths.
  - Which downloads fail, and how, is an input.
  - An abort carries the filesystem as it was left.
- **Tool** is `main`. It adds an end-to-end scenario: one identifier, a
  two-mebibyte package, and two consecutive runs.

The network, the XML and YAML parsers and the home directory are parameters:

- the feed is a function from URL to response;
- a parsed body is already a `Manifest`;
- the catalog is its list of top-level keys;
- the home directory is a string.

The code has no handler around `raise_for_status` or the streamed write,
so any transfer error ends the whole run. The model does the same: `Step`
returns a `Halt`.

## Model

| member | source | states |
|---|---|---|
| GameIds.PrefixesAreFourUpperLetters | rgudw.py:74-100 | the allow-list has 25 entries, each four characters long and already upper case, so an upper-cased prefix can match any of them |
| GameIds.ValidateId | rgudw.py:115-123 | an identifier is accepted exactly when an independent reading holds (at least one character after a listed prefix in any letter case, and every such character a decimal digit); the accepted id is the upper-cased prefix followed by the rest; a rejection names the upper-cased first four characters followed by the rest |
| GameIds.ValidateIdIdempotent | rgudw.py:115-120 | validating an accepted id again accepts it unchanged |
| GameIds.ListedPrefixAccepted | rgudw.py:115-120 | every listed prefix followed by five digits is accepted unchanged |
| GameIds.AddValidatedId | rgudw.py:106-107 | the id list grows by exactly the normalised id when the identifier is well formed; otherwise the run aborts |
| GameIds.ParseGameIds | rgudw.py:159-170 | the three-way dispatch: an existing `games.yml` appends its keys unvalidated; otherwise a nine-character argument is validated; any other argument aborts with the usage error |
| GameIds.ParseGameIdsSingle | rgudw.py:166-167 | outside the catalog path, success appends exactly one id: a listed upper-case prefix and five digits, with earlier ids untouched |
| GameIds.MissingCatalogRejected | rgudw.py:161-167 | the argument `games.yml`, when no such file exists, has nine characters, goes to validation, and is rejected as `GAMEs.yml` |
| Text.Upper | rgudw.py:116 | upper-casing keeps the length and maps each character on its own |
| Text.UpperIdempotent | rgudw.py:116 | upper-casing twice is upper-casing once |
| Text.Take | rgudw.py:116 | `s[0:n]` clamps to the length and is a prefix of `s` |
| Text.Drop | rgudw.py:117 | `s[n:]` is exactly what follows `s[0:n]` |
| Text.Split | rgudw.py:232 | `split` yields at least one piece and no piece contains the separator |
| Text.JoinSplit | rgudw.py:232 | joining the pieces of a split with the separator gives the original string back |
| Text.Decimal | rgudw.py:276 | the integer part is a non-empty digit string without a leading zero |
| Text.DecimalRoundTrip | rgudw.py:276 | reading the written integer part gives the number back |
| Sizes.Hundredths | rgudw.py:274-276 | the hundredths of a mebibyte are within half a hundredth of n / 2^20, and even at an exact half-way point |
| Sizes.HundredthsUnique | rgudw.py:274-276 | any correctly rounded hundredth count equals the computed one, so the rounding has no choice |
| Sizes.HundredthsMonotone | rgudw.py:274-276 | more bytes never round to fewer hundredths |
| Sizes.ConvertBytesToMegabytesReadsBack | rgudw.py:274-276 | the text is digits, a dot and two digits, with no leading zero in the integer part; read back, it is the correctly rounded size |
| Sizes.ConvertBytesToMegabytesMonotone | rgudw.py:274-276 | the shown size is monotone in the byte count |
| Sizes.ConvertBytesToMegabytesExamples | rgudw.py:274-276 | 0, 1048576, 1572864, 131072 and 2097152 bytes show as `0.00`, `1.00`, `1.50`, `0.12` (a half-way case rounded to even) and `2.00` |
| Platform.Separator | rgudw.py:19-23 | win32 is tested first and writes a backslash; freebsd, linux and darwin write a slash; any other platform has no separator |
| Platform.VerifyPlatform | rgudw.py:19-26 | the root is the home directory, then `\PS3 Game Updates` on win32 or `/PS3 Game Updates` on the POSIX platforms; the run aborts naming the platform exactly when it is neither; the root is built the same way as the title folders under it |
| Platform.FolderPath | rgudw.py:127-132 | a title folder is the root, the separator, then exactly the title id |
| Platform.FilePath | rgudw.py:202-205 | a file path is the title folder, the separator, then exactly the file name |
| Platform.PathsDistinguish | rgudw.py:200-205 | under one root, two title folders are equal exactly when the ids are; within one folder, two file paths are equal exactly when the file names are |
| Platform.FilenameIsLastSegment | rgudw.py:232 | the file name is a suffix of the URL without `/`; it is preceded by `/` unless it is the whole URL, which happens exactly when the URL has no `/` |
| Platform.FilenameAfterLastSlash | rgudw.py:232 | a URL ending in `/name`, where `name` has no slash, yields `name` |
| Metadata.GetParse | rgudw.py:211-217 | no manifest exactly when the body is empty or the status is 404; otherwise the response itself; a request that raises aborts |
| Metadata.ReplaceNewlinesPointwise | rgudw.py:190 | the name keeps its length, each newline becomes a space, every other character stays, and no newline is left |
| Metadata.ReplaceNewlinesAround | rgudw.py:190 | two lines joined by a newline read as the same lines joined by a space |
| Metadata.ReadPackages | rgudw.py:183-190 | the package loop finishes exactly when every package has a size and every `paramsfo` has TITLE text. Then version, size, system version and url come from the last package, and the name from the last package with a `paramsfo`. What no package set keeps its earlier value |
| Metadata.BuildGame | rgudw.py:192 | the game is built exactly when every loop variable was assigned; it carries the manifest's title id and the loop variables' values |
| Metadata.Kept | rgudw.py:173-178 | no more titles are kept than there are identifiers; every kept title's feed answered (no empty body, no 404); and every identifier whose feed answered is kept |
| Metadata.TitlesEmit | rgudw.py:172-193 | the title loop adds one game per kept identifier, in order, after the games already there; each game describes its manifest; afterwards the loop variables hold the last game's fields |
| Metadata.ReadTitleCarryOver | rgudw.py:183-193 | for one title after an earlier game, a manifest without packages repeats the previous game under the new title id, and one without a `paramsfo` repeats the previous name |
| Metadata.TitlesCarryOver | rgudw.py:172-193 | the same carry-over for every game after the first in the whole loop |
| Metadata.ReadTitleSucceeds | rgudw.py:176-193 | one title goes through exactly when its request answers and, if it has a manifest, the manifest is well formed and (from unassigned variables) names the game; afterwards all variables are set, or nothing changed when the title is skipped |
| Metadata.TitlesSucceed | rgudw.py:172-193 | the loop returns normally exactly when every request answers, every answered manifest is well formed, and the first kept title (from unassigned variables) has a named package |
| Metadata.SuccessConditionSnoc | rgudw.py:172-193 | that success condition, extended by one identifier at a time |
| Metadata.ParseGameMetadataSucceeds | rgudw.py:172-193 | `parse_game_metadata` returns normally exactly under that condition, starting from an empty game list |
| Metadata.ParseGameMetadataEmits | rgudw.py:172-193 | a successful parse returns exactly one game per kept identifier, in identifier order, each describing its manifest |
| Downloads.MakeRoot | rgudw.py:222-225 | the root is added as a directory unless it already is one; the call fails, leaving the filesystem unchanged, exactly when a file has that path |
| Downloads.CreatePerGameFolder | rgudw.py:125-133 | on a known platform the title folder exists afterwards and nothing else changed; creating it fails exactly when a file has that path; other platforms do nothing |
| Downloads.CreatePerGameFolderIdempotent | rgudw.py:125-133 | creating the folder a second time changes nothing |
| Downloads.IsAlreadyDownloaded | rgudw.py:200-208 | true exactly when the title's file exists, spelled with backslashes on win32 and slashes on the POSIX platforms; never on another platform |
| Downloads.GetUpdate | rgudw.py:268-271 | a completed run says "already downloaded" exactly when it counted no download |
| Downloads.StepKeepsFs | rgudw.py:229-266 | one game, finished or aborted, only adds paths, never makes a path both a file and a directory, and never lowers the count |
| Downloads.StepsKeepFs | rgudw.py:229-266 | the same for the whole game loop |
| Downloads.GetUpdateKeepsFs | rgudw.py:219-266 | `get_update`, finished or aborted, only adds paths and keeps files and directories apart |
| Downloads.TrailingSlashAborts | rgudw.py:230-257 | a URL ending in `/` has an empty file name, so the target is the title folder itself; once the request goes through, opening it raises and the run stops with the folder created |
| Downloads.BrokenStreamLeavesFile | rgudw.py:241-266 | a download whose stream breaks leaves its file behind, so the next run counts that file as already downloaded |
| Downloads.Folders | rgudw.py:230 | every game's folder is in the set, and the root is not |
| Downloads.Targets | rgudw.py:232-234 | every game's file is in the set, and the root is not |
| Downloads.StepNoFailure | rgudw.py:229-266 | for a game with a title id and a url whose file name is not `""`, `.` or `..`, and without a transfer failure or a clash, the step adds the game's folder and its file, and counts one download exactly when the file was absent |
| Downloads.StepsFirst | rgudw.py:229-266 | the first game of a clean loop is settled and the rest of the loop keeps the clean-run conditions |
| Downloads.StepsSettle | rgudw.py:229-266 | when every game has a title id and a url whose file name is not `""`, `.` or `..`, and there are no transfer failures or path clashes, the game loop finishes with the reference plan `Settled`, one game after the other |
| Downloads.SettledClosed | rgudw.py:229-266 | that plan in closed form: every folder and file added, one count per distinct missing file |
| Downloads.StepsNoFailures | rgudw.py:229-266 | the clean game loop creates every folder and file and counts each distinct missing file once |
| Downloads.GetUpdateNoFailures | rgudw.py:219-271 | a clean `get_update` ends with the root, every folder and every file present; it reports the number of missing files and says "already downloaded" exactly when none was missing |
| Downloads.GetUpdateSecondRunIdle | rgudw.py:200-271 | a second `get_update` right after a clean one downloads nothing and says everything is already downloaded |
| Tool.Run | rgudw.py:291-305 | the platform is checked first, then the argument count (anything other than one argument prints usage); a non-catalog argument that is not nine characters long aborts; a finished run had valid ids and manifests, and its message matches its count |
| Tool.ScenarioIds | rgudw.py:166-167 | the argument `BLUS12345` yields that one identifier |
| Tool.ScenarioFeedParses | rgudw.py:211-217 | the scenario feed answers `BLUS12345` with its manifest |
| Tool.ScenarioName | rgudw.py:190 | the TITLE `Some` newline `Game` becomes the name `Some Game` |
| Tool.ScenarioPackageRead | rgudw.py:183-190 | the scenario package sets every loop variable, with size `2.00` |
| Tool.ScenarioBuild | rgudw.py:192 | those variables build the scenario game |
| Tool.ScenarioGames | rgudw.py:172-193 | the scenario manifest yields exactly that one game |
| Tool.ScenarioPaths | rgudw.py:230-234 | the scenario game goes to `<root>/BLUS12345/update.pkg` with no clash on an empty filesystem |
| Tool.ScenarioFirstUpdate | rgudw.py:219-271 | on an empty filesystem the first `get_update` creates the root, the folder and the file, and counts one download |
| Tool.ScenarioSecondUpdate | rgudw.py:200-271 | over that filesystem a second `get_update` downloads nothing |
| Tool.LinuxSeparator | rgudw.py:19-23 | linux writes `/` |
| Tool.ScenarioPrelude | rgudw.py:291-304 | on linux, the root is `<home>/PS3 Game Updates`, the argument gives one id, and the feed gives one game |
| Tool.ScenarioTwoRuns | rgudw.py:291-305 | end to end on linux, for any home directory: the first run creates `<home>/PS3 Game Updates/BLUS12345/update.pkg` and reports one download; a second run over the result downloads nothing and says so |

## Left out

- HTTP transport, TLS verification being off, and `urllib3.disable_warnings`: a feed request is a parameter, a function from URL to an exception or a response.
- XML parsing: a body is empty, unparsable, or an already parsed `Manifest`. Only the attributes and children the program reads are kept.
- YAML loading: the catalog is the list of its top-level keys. `data.keys()` on a document that is not a mapping (rgudw.py:164) raises; this is not modelled.
- `file_exists(arg)` and `Path(arg).name == "games.yml"` in `parse_game_ids`: the caller passes the catalog only when both hold.
- `print`, `tqdm` progress bars, `show_usage` and `print_version` output: only what they decide is kept (`Usage` and the two closing messages).
- `Path.home()`: the home directory is a parameter.
- The real filesystem: it is a pair of path sets. Files and directories other programs create in between are not modelled, and neither are permission errors.
- `Downloads.MakeRoot`: `mkdir(parents=True)` also creates missing parent directories; only the root itself is recorded.
- `Downloads.CreatePerGameFolder`: a plain `mkdir` raises if a parent directory is missing. That cannot happen for a title id without a separator: `get_update` creates the root first. A title id holding a separator names a deeper path; that case is not modelled.
- Paths are compared as plain strings and are not normalised. There is no folding of `//`, no case folding on win32, and no resolution of separators inside a title id or a file name. The one exception is a file name of `""`, `.` or `..`: `Downloads.NamesDirectory` recognises it, and `Downloads.Step` treats it as a directory.
- `Downloads.StepNoFailure`: the clean-run conditions exclude the file names `""`, `.` and `..`, but paths are otherwise unnormalised strings (see above). A file name such as `a\b` on win32 counts as clean, although `open` would raise there.
- `Downloads.StepsFirst`: the same unnormalised-path gap as `Downloads.StepNoFailure`.
- `Downloads.StepsSettle`: the same unnormalised-path gap as `Downloads.StepNoFailure`.
- `Downloads.StepsNoFailures`: the same unnormalised-path gap as `Downloads.StepNoFailure`.
- `Downloads.GetUpdateNoFailures`: the same unnormalised-path gap as `Downloads.StepNoFailure`.
- `Downloads.GetUpdateSecondRunIdle`: the same unnormalised-path gap as `Downloads.StepNoFailure`.
- `int()` of the `content-length` header (rgudw.py:244) can raise on a malformed header. This is not modelled, because response headers are not modelled.
- Response bodies, `content-length` and chunking: the downloaded bytes are not modelled, only that the file exists afterwards.
- `Downloads.Step`: each URL has one fixed transfer outcome (delivered, a status error, or a stream that breaks after the file was opened). The same URL cannot succeed once and fail later.
- `Sizes.Hundredths`: byte counts of 2^53 and more are not modelled. Above that `float()` loses precision and the rounding differs.
- `Metadata.Package`: sizes with a fractional part (`int(float("1.5"))` truncates) are not modelled either. A size attribute is a whole number below 2^53, or it is treated as absent or unreadable, which aborts.
- `Text.Upper` and `Text.IsDecimal`: only ASCII is modelled. Python's `upper()` and `isdecimal()` also handle other Unicode letters and digits.
- Python's `len` counts code points; the model counts `char`s.
- `Downloads.IsAlreadyDownloaded`: the program returns `None`, not `False`, when a file is missing on a known platform. Callers only test `== True`, so it is a `bool`.
- `Tool.Run`: its contract fixes the dispatch order and the closing message, not the whole outcome. Whole outcomes are pinned by `Downloads.GetUpdateNoFailures` and by the end-to-end scenario `Tool.ScenarioTwoRuns`.
