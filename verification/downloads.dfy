/** Download planning: `GameProcessor.create_per_game_update_folder`,
    `Downloader.is_already_downloaded` and `Downloader.get_update`. The
    filesystem is a set of directory paths and a set of file paths; the
    transfers are inputs saying which URLs fail and how. */
module Downloads {
  import opened Basics
  import opened Text
  import opened Platform
  import opened Metadata

  /** The directories and files that exist. */
  datatype Fs = Fs(dirs: set<string>, files: set<string>)
  {
    /** No path is both a directory and a file. */
    predicate Valid() {
      dirs !! files
    }
  }

  /** An aborted run: what stopped it, and the filesystem as it was left. */
  datatype Halt = Halt(fault: Fault, fs: Fs)

  /** How a download of a URL goes wrong: the request raises before the
      file is opened, or the body stream breaks after it was opened. */
  datatype TransferFailure = StatusError | BrokenStream

  /** The two closing messages of `get_update`. */
  datatype Message = AlreadyDownloaded | DownloadsComplete

  /** The loop state of `get_update`. */
  datatype Plan = Plan(fs: Fs, downloadsLeft: nat)

  /** What a completed `get_update` leaves behind and says. */
  datatype Report = Report(fs: Fs, downloadsLeft: nat, message: Message)

  /** The filesystem grew by at most `path` as a directory. */
  ghost predicate AddedDir(fs: Fs, fs': Fs, path: string) {
    fs'.files == fs.files && fs'.dirs == fs.dirs + {path}
  }

  /** `mkdir(parents=True)` on the download root when it is not a directory. */
  function MakeRoot(root: string, fs: Fs): (r: Result<Fs, Halt>)
    ensures r.Ok? ==> AddedDir(fs, r.value, root)
    ensures r.Err? <==> root !in fs.dirs && root in fs.files
    ensures r.Err? ==> r.error == Halt(FileExists(root), fs)
  {
    if root in fs.dirs then Ok(fs)
    else if root in fs.files then Err(Halt(FileExists(root), fs))
    else Ok(Fs(fs.dirs + {root}, fs.files))
  }

  /** `create_per_game_update_folder`: on a known platform the title's
      folder exists afterwards and nothing else changed; creating it fails
      only where a file has that path. Other platforms do nothing. */
  function CreatePerGameFolder(platform: string, root: string, fs: Fs, id: string): (r: Result<Fs, Halt>)
    ensures Separator(platform).None? ==> r == Ok(fs)
    ensures Separator(platform).Some? ==>
      var folder := FolderPath(root, Separator(platform).value, id);
      && (r.Ok? ==> AddedDir(fs, r.value, folder))
      && (r.Err? <==> folder !in fs.dirs && folder in fs.files)
      && (r.Err? ==> r.error == Halt(FileExists(folder), fs))
  {
    match Separator(platform)
    case None => Ok(fs)
    case Some(sep) =>
      var folder := FolderPath(root, sep, id);
      if folder in fs.dirs then Ok(fs)
      else if folder in fs.files then Err(Halt(FileExists(folder), fs))
      else Ok(Fs(fs.dirs + {folder}, fs.files))
  }

  /** Creating the folder twice is the same as creating it once. */
  lemma CreatePerGameFolderIdempotent(platform: string, root: string, fs: Fs, id: string)
    requires CreatePerGameFolder(platform, root, fs, id).Ok?
    ensures var fs' := CreatePerGameFolder(platform, root, fs, id).value;
      CreatePerGameFolder(platform, root, fs', id) == Ok(fs')
  {
  }

  /** `is_already_downloaded`: true iff the title's file exists, spelled with
      backslashes on win32 and slashes on freebsd, linux and darwin; never
      on another platform. */
  function IsAlreadyDownloaded(platform: string, root: string, fs: Fs, id: string, filename: string): (r: bool)
    ensures r <==>
      || (GetPlatform(platform, "win32") && root + "\\" + id + "\\" + filename in fs.files)
      || (!GetPlatform(platform, "win32") && IsPosix(platform) && root + "/" + id + "/" + filename in fs.files)
  {
    match Separator(platform)
    case Some(sep) => FilePath(root, sep, id, filename) in fs.files
    case None => false
  }

  /** A file name that makes the target path a directory the loop has just
      made sure of: the title folder itself (`""` and `.`) or the root
      (`..`). Opening it for writing raises. */
  predicate NamesDirectory(filename: string) {
    filename == "" || filename == "." || filename == ".."
  }

  /** One iteration of the game loop of `get_update`. */
  function Step(platform: string, root: string, failures: map<string, TransferFailure>, plan: Plan, g: Game): Result<Plan, Halt> {
    match Separator(platform)
    case None =>
      // Neither platform branch runs: no folder, never already downloaded,
      // and the response is requested but nothing is written.
      if g.url.None? then Err(Halt(MissingUrl, plan.fs))
      else if g.url.value in failures && failures[g.url.value] == StatusError then
        Err(Halt(TransferFailed(g.url.value), plan.fs))
      else Ok(Plan(plan.fs, plan.downloadsLeft + 1))
    case Some(sep) =>
      if g.id.None? then Err(Halt(MissingId, plan.fs))
      else
        match CreatePerGameFolder(platform, root, plan.fs, g.id.value)
        case Err(h) => Err(h)
        case Ok(fs1) =>
          if g.url.None? then Err(Halt(MissingUrl, fs1))
          else
            var url := g.url.value;
            var filename := Filename(url);
            if IsAlreadyDownloaded(platform, root, fs1, g.id.value, filename) then Ok(Plan(fs1, plan.downloadsLeft))
            else if url in failures && failures[url] == StatusError then Err(Halt(TransferFailed(url), fs1))
            else
              var target := FilePath(root, sep, g.id.value, filename);
              if NamesDirectory(filename) || target in fs1.dirs then Err(Halt(IsADirectory(target), fs1))
              else
                var fs2 := Fs(fs1.dirs, fs1.files + {target});
                if url in failures then Err(Halt(StreamBroken(url), fs2))
                else Ok(Plan(fs2, plan.downloadsLeft + 1))
  }

  /** The game loop, in game-list order. */
  function Steps(platform: string, root: string, failures: map<string, TransferFailure>, plan: Plan, games: seq<Game>): Result<Plan, Halt>
    decreases |games|
  {
    if |games| == 0 then Ok(plan)
    else
      match Step(platform, root, failures, plan, games[0])
      case Err(h) => Err(h)
      case Ok(p1) => Steps(platform, root, failures, p1, games[1..])
  }

  /** `get_update`: make the root, walk the games, and report whether
      anything had to be downloaded. */
  function GetUpdate(platform: string, root: string, failures: map<string, TransferFailure>, fs: Fs, games: seq<Game>): (r: Result<Report, Halt>)
    ensures r.Ok? ==> (r.value.message == AlreadyDownloaded <==> r.value.downloadsLeft == 0)
  {
    match MakeRoot(root, fs)
    case Err(h) => Err(h)
    case Ok(fs0) =>
      match Steps(platform, root, failures, Plan(fs0, 0), games)
      case Err(h) => Err(h)
      case Ok(p) => Ok(Report(p.fs, p.downloadsLeft, if p.downloadsLeft == 0 then AlreadyDownloaded else DownloadsComplete))
  }

  // ---------------------------------------------------------------------
  // Invariants of every run

  /** The filesystem only grows and never gets a path that is both a
      directory and a file, whether the step finishes or aborts. */
  lemma StepKeepsFs(platform: string, root: string, failures: map<string, TransferFailure>, plan: Plan, g: Game)
    requires plan.fs.Valid()
    ensures var r := Step(platform, root, failures, plan, g);
      var fs' := if r.Ok? then r.value.fs else r.error.fs;
      && fs'.Valid() && plan.fs.dirs <= fs'.dirs && plan.fs.files <= fs'.files
      && (r.Ok? ==> plan.downloadsLeft <= r.value.downloadsLeft)
  {
  }

  /** The same for the whole game loop. */
  lemma {:induction false} StepsKeepFs(platform: string, root: string, failures: map<string, TransferFailure>, plan: Plan, games: seq<Game>)
    requires plan.fs.Valid()
    ensures var r := Steps(platform, root, failures, plan, games);
      var fs' := if r.Ok? then r.value.fs else r.error.fs;
      && fs'.Valid() && plan.fs.dirs <= fs'.dirs && plan.fs.files <= fs'.files
      && (r.Ok? ==> plan.downloadsLeft <= r.value.downloadsLeft)
    decreases |games|
  {
    if |games| > 0 {
      StepKeepsFs(platform, root, failures, plan, games[0]);
      var s := Step(platform, root, failures, plan, games[0]);
      if s.Ok? {
        StepsKeepFs(platform, root, failures, s.value, games[1..]);
      }
    }
  }

  /** `get_update` keeps the filesystem consistent and only adds to it. */
  lemma GetUpdateKeepsFs(platform: string, root: string, failures: map<string, TransferFailure>, fs: Fs, games: seq<Game>)
    requires fs.Valid()
    ensures var r := GetUpdate(platform, root, failures, fs, games);
      var fs' := if r.Ok? then r.value.fs else r.error.fs;
      fs'.Valid() && fs.dirs <= fs'.dirs && fs.files <= fs'.files
  {
    var m := MakeRoot(root, fs);
    if m.Ok? {
      StepsKeepFs(platform, root, failures, Plan(m.value, 0), games);
    }
  }

  /** A download whose stream breaks leaves its file behind, and the next
      run counts that file as already downloaded. */
  lemma BrokenStreamLeavesFile(platform: string, root: string, failures: map<string, TransferFailure>, plan: Plan, g: Game)
    requires Step(platform, root, failures, plan, g).Err?
    requires Step(platform, root, failures, plan, g).error.fault.StreamBroken?
    ensures g.id.Some? && g.url.Some?
    ensures IsAlreadyDownloaded(platform, root, Step(platform, root, failures, plan, g).error.fs, g.id.value, Filename(g.url.value))
  {
  }

  /** A URL ending in `/` has the empty file name, so the target is the
      title folder itself: once the folder exists and the request went
      through, opening the target raises and the run stops there. */
  lemma TrailingSlashAborts(platform: string, root: string, failures: map<string, TransferFailure>, plan: Plan,
                            g: Game, prefix: string)
    requires Separator(platform).Some?
    requires g.id.Some? && g.url == Some(prefix + "/")
    requires FolderPath(root, Separator(platform).value, g.id.value) !in plan.fs.files
    requires FilePath(root, Separator(platform).value, g.id.value, "") !in plan.fs.files
    requires prefix + "/" !in failures
    ensures var folder := FolderPath(root, Separator(platform).value, g.id.value);
      Step(platform, root, failures, plan, g)
        == Err(Halt(IsADirectory(FilePath(root, Separator(platform).value, g.id.value, "")),
                    Fs(plan.fs.dirs + {folder}, plan.fs.files)))
  {
    FilenameAfterLastSlash(prefix, "");
    assert prefix + "/" + "" == prefix + "/";
    var sep := Separator(platform).value;
    var folder := FolderPath(root, sep, g.id.value);
    assert CreatePerGameFolder(platform, root, plan.fs, g.id.value) == Ok(Fs(plan.fs.dirs + {folder}, plan.fs.files));
  }

  // ---------------------------------------------------------------------
  // Runs without transfer failures

  /** A game the loop can place: it has a title id and a url whose file
      name is not a directory. */
  predicate Downloadable(g: Game) {
    g.id.Some? && g.url.Some? && !NamesDirectory(Filename(g.url.value))
  }

  /** The folder a game's update goes into. */
  function Folder(root: string, sep: char, g: Game): string
    requires Downloadable(g)
  {
    FolderPath(root, sep, g.id.value)
  }

  /** The file a game's update is written to. */
  function Target(root: string, sep: char, g: Game): string
    requires Downloadable(g)
  {
    FilePath(root, sep, g.id.value, Filename(g.url.value))
  }

  /** The folders of all the games. */
  function Folders(root: string, sep: char, games: seq<Game>): (r: set<string>)
    requires forall i :: 0 <= i < |games| ==> Downloadable(games[i])
    ensures forall i :: 0 <= i < |games| ==> Folder(root, sep, games[i]) in r
    ensures root !in r
  {
    if |games| == 0 then {} else {Folder(root, sep, games[0])} + Folders(root, sep, games[1..])
  }

  /** The files of all the games. */
  function Targets(root: string, sep: char, games: seq<Game>): (r: set<string>)
    requires forall i :: 0 <= i < |games| ==> Downloadable(games[i])
    ensures forall i :: 0 <= i < |games| ==> Target(root, sep, games[i]) in r
    ensures root !in r
  {
    if |games| == 0 then {} else {Target(root, sep, games[0])} + Targets(root, sep, games[1..])
  }

  /** No folder the run needs is taken by a file, no file it writes is taken
      by a directory, and no game's folder is another game's file. */
  ghost predicate NoClash(fs: Fs, root: string, sep: char, games: seq<Game>)
    requires forall i :: 0 <= i < |games| ==> Downloadable(games[i])
  {
    && (forall i :: 0 <= i < |games| ==>
          Folder(root, sep, games[i]) !in fs.files && Target(root, sep, games[i]) !in fs.dirs)
    && Folders(root, sep, games) !! Targets(root, sep, games)
  }

  /** Counting the new paths of `{t} + a` one element at a time. */
  lemma CountAbsent(t: string, a: set<string>, f: set<string>)
    ensures |({t} + a) - f| == |a - (f + {t})| + (if t in f then 0 else 1)
  {
    if t in f {
      assert ({t} + a) - f == a - (f + {t});
    } else {
      assert ({t} + a) - f == (a - (f + {t})) + {t};
    }
  }

  /** One game without a transfer failure or a clash: its folder and file
      exist afterwards, and it counts iff its file was absent. */
  lemma StepNoFailure(platform: string, root: string, sep: char, failures: map<string, TransferFailure>, plan: Plan, g: Game)
    requires Separator(platform) == Some(sep)
    requires Downloadable(g) && g.url.value !in failures
    requires Folder(root, sep, g) !in plan.fs.files && Target(root, sep, g) !in plan.fs.dirs
    requires Folder(root, sep, g) != Target(root, sep, g)
    ensures var t := Target(root, sep, g);
      Step(platform, root, failures, plan, g) == Ok(Plan(
        Fs(plan.fs.dirs + {Folder(root, sep, g)}, plan.fs.files + {t}),
        plan.downloadsLeft + (if t in plan.fs.files then 0 else 1)))
  {
    var t := Target(root, sep, g);
    var fs1 := Fs(plan.fs.dirs + {Folder(root, sep, g)}, plan.fs.files);
    assert CreatePerGameFolder(platform, root, plan.fs, g.id.value) == Ok(fs1);
    if t in plan.fs.files {
      assert fs1.files + {t} == fs1.files;
    }
  }

  /** Dropping the first game keeps the no-clash condition, also after
      that game's folder and file were added. */
  lemma {:induction false} NoClashRest(fs: Fs, root: string, sep: char, games: seq<Game>)
    requires |games| > 0
    requires forall i :: 0 <= i < |games| ==> Downloadable(games[i])
    requires NoClash(fs, root, sep, games)
    ensures var f := Folder(root, sep, games[0]);
      var t := Target(root, sep, games[0]);
      && Folders(root, sep, games) == {f} + Folders(root, sep, games[1..])
      && Targets(root, sep, games) == {t} + Targets(root, sep, games[1..])
      && f != t
      && NoClash(Fs(fs.dirs + {f}, fs.files + {t}), root, sep, games[1..])
  {
    var rest := games[1..];
    assert forall i :: 0 <= i < |rest| ==> rest[i] == games[i + 1];
  }

  /** Folding one game's folder, file and count into those of the rest. */
  lemma Absorb(p1: Plan, fs: Fs, f: string, t: string, folders: set<string>, targets: set<string>, left: nat,
               allFolders: set<string>, allTargets: set<string>)
    requires p1 == Plan(Fs(fs.dirs + {f}, fs.files + {t}), left + (if t in fs.files then 0 else 1))
    requires allFolders == {f} + folders && allTargets == {t} + targets
    ensures Plan(Fs(p1.fs.dirs + folders, p1.fs.files + targets), p1.downloadsLeft + |targets - p1.fs.files|)
      == Plan(Fs(fs.dirs + allFolders, fs.files + allTargets), left + |allTargets - fs.files|)
  {
    CountAbsent(t, targets, fs.files);
    assert p1.fs.dirs + folders == fs.dirs + allFolders;
    assert p1.fs.files + targets == fs.files + allTargets;
  }

  /** The game loop after a first step that finished. */
  lemma StepsUnfold(platform: string, root: string, failures: map<string, TransferFailure>, plan: Plan, games: seq<Game>)
    requires |games| > 0 && Step(platform, root, failures, plan, games[0]).Ok?
    ensures Steps(platform, root, failures, plan, games)
      == Steps(platform, root, failures, Step(platform, root, failures, plan, games[0]).value, games[1..])
  {
  }

  /** The first game of a loop without transfer failures or path clashes:
      its folder and file join the filesystem, and the rest of the loop
      keeps all three conditions. */
  lemma StepsFirst(platform: string, root: string, sep: char, failures: map<string, TransferFailure>, plan: Plan, games: seq<Game>)
    requires Separator(platform) == Some(sep)
    requires |games| > 0
    requires forall i :: 0 <= i < |games| ==> Downloadable(games[i]) && games[i].url.value !in failures
    requires NoClash(plan.fs, root, sep, games)
    ensures var f := Folder(root, sep, games[0]);
      var t := Target(root, sep, games[0]);
      var rest := games[1..];
      var p1 := Plan(Fs(plan.fs.dirs + {f}, plan.fs.files + {t}), plan.downloadsLeft + (if t in plan.fs.files then 0 else 1));
      && Folders(root, sep, games) == {f} + Folders(root, sep, rest)
      && Targets(root, sep, games) == {t} + Targets(root, sep, rest)
      && NoClash(p1.fs, root, sep, rest)
      && (forall i :: 0 <= i < |rest| ==> Downloadable(rest[i]) && rest[i].url.value !in failures)
      && Steps(platform, root, failures, plan, games) == Steps(platform, root, failures, p1, rest)
  {
    var rest := games[1..];
    NoClashRest(plan.fs, root, sep, games);
    StepNoFailure(platform, root, sep, failures, plan, games[0]);
    StepsUnfold(platform, root, failures, plan, games);
    assert forall i :: 0 <= i < |rest| ==> rest[i] == games[i + 1];
  }

  /** The plan a loop without transfer failures or path clashes reaches:
      each game adds its folder and its file, and counts the file if it was
      absent. */
  function Settled(root: string, sep: char, plan: Plan, games: seq<Game>): Plan
    requires forall i :: 0 <= i < |games| ==> Downloadable(games[i])
    decreases |games|
  {
    if |games| == 0 then plan
    else
      var f := Folder(root, sep, games[0]);
      var t := Target(root, sep, games[0]);
      var rest := games[1..];
      assert forall i :: 0 <= i < |rest| ==> rest[i] == games[i + 1];
      Settled(root, sep, Plan(Fs(plan.fs.dirs + {f}, plan.fs.files + {t}), plan.downloadsLeft + (if t in plan.fs.files then 0 else 1)), rest)
  }

  /** Without transfer failures or path clashes the game loop finishes, one
      game after the other. */
  lemma {:induction false} StepsSettle(platform: string, root: string, sep: char, failures: map<string, TransferFailure>, plan: Plan, games: seq<Game>)
    requires Separator(platform) == Some(sep)
    requires forall i :: 0 <= i < |games| ==> Downloadable(games[i]) && games[i].url.value !in failures
    requires NoClash(plan.fs, root, sep, games)
    ensures Steps(platform, root, failures, plan, games) == Ok(Settled(root, sep, plan, games))
    decreases |games|
  {
    if |games| > 0 {
      var t := Target(root, sep, games[0]);
      var p1 := Plan(Fs(plan.fs.dirs + {Folder(root, sep, games[0])}, plan.fs.files + {t}),
        plan.downloadsLeft + (if t in plan.fs.files then 0 else 1));
      StepsFirst(platform, root, sep, failures, plan, games);
      StepsSettle(platform, root, sep, failures, p1, games[1..]);
    }
  }

  /** The settled plan in closed form: every title folder and every file
      added, and one count per distinct file that was absent. */
  lemma {:induction false} SettledClosed(root: string, sep: char, plan: Plan, games: seq<Game>)
    requires forall i :: 0 <= i < |games| ==> Downloadable(games[i])
    ensures Settled(root, sep, plan, games) == Plan(
      Fs(plan.fs.dirs + Folders(root, sep, games), plan.fs.files + Targets(root, sep, games)),
      plan.downloadsLeft + |Targets(root, sep, games) - plan.fs.files|)
    decreases |games|
  {
    if |games| > 0 {
      var f := Folder(root, sep, games[0]);
      var t := Target(root, sep, games[0]);
      var rest := games[1..];
      assert forall i :: 0 <= i < |rest| ==> rest[i] == games[i + 1];
      var p1 := Plan(Fs(plan.fs.dirs + {f}, plan.fs.files + {t}), plan.downloadsLeft + (if t in plan.fs.files then 0 else 1));
      SettledClosed(root, sep, p1, rest);
      Absorb(p1, plan.fs, f, t, Folders(root, sep, rest), Targets(root, sep, rest), plan.downloadsLeft,
        Folders(root, sep, games), Targets(root, sep, games));
    } else {
      assert plan.fs.dirs + {} == plan.fs.dirs && plan.fs.files + {} == plan.fs.files;
    }
  }

  /** Without transfer failures or path clashes, the game loop creates every
      title folder and every file and counts each file that was absent when
      its game was checked: one per distinct missing path. */
  lemma StepsNoFailures(platform: string, root: string, sep: char, failures: map<string, TransferFailure>, plan: Plan, games: seq<Game>)
    requires Separator(platform) == Some(sep)
    requires forall i :: 0 <= i < |games| ==> Downloadable(games[i]) && games[i].url.value !in failures
    requires NoClash(plan.fs, root, sep, games)
    ensures Steps(platform, root, failures, plan, games) == Ok(Plan(
      Fs(plan.fs.dirs + Folders(root, sep, games), plan.fs.files + Targets(root, sep, games)),
      plan.downloadsLeft + |Targets(root, sep, games) - plan.fs.files|))
  {
    StepsSettle(platform, root, sep, failures, plan, games);
    SettledClosed(root, sep, plan, games);
  }

  /** Under the same conditions, `get_update` ends with the root, every
      title folder and every file present, and reports how many files were
      missing; it says "already downloaded" exactly when none was. */
  lemma GetUpdateNoFailures(platform: string, root: string, sep: char, failures: map<string, TransferFailure>, fs: Fs, games: seq<Game>)
    requires Separator(platform) == Some(sep)
    requires forall i :: 0 <= i < |games| ==> Downloadable(games[i]) && games[i].url.value !in failures
    requires root !in fs.files
    requires NoClash(fs, root, sep, games)
    ensures var missing := |Targets(root, sep, games) - fs.files|;
      GetUpdate(platform, root, failures, fs, games) == Ok(Report(
        Fs(fs.dirs + {root} + Folders(root, sep, games), fs.files + Targets(root, sep, games)),
        missing,
        if missing == 0 then AlreadyDownloaded else DownloadsComplete))
  {
    var fs0 := Fs(fs.dirs + {root}, fs.files);
    assert MakeRoot(root, fs) == Ok(fs0);
    forall i | 0 <= i < |games|
      ensures Target(root, sep, games[i]) != root
    {
      assert |Target(root, sep, games[i])| > |root|;
    }
    assert NoClash(fs0, root, sep, games);
    StepsNoFailures(platform, root, sep, failures, Plan(fs0, 0), games);
  }

  /** Running `get_update` again right after a clean run downloads nothing
      and reports that everything is already downloaded. */
  lemma GetUpdateSecondRunIdle(platform: string, root: string, sep: char, failures: map<string, TransferFailure>, fs: Fs, games: seq<Game>)
    requires Separator(platform) == Some(sep)
    requires forall i :: 0 <= i < |games| ==> Downloadable(games[i]) && games[i].url.value !in failures
    requires root !in fs.files
    requires NoClash(fs, root, sep, games)
    ensures GetUpdate(platform, root, failures, fs, games).Ok?
    ensures var fs' := GetUpdate(platform, root, failures, fs, games).value.fs;
      GetUpdate(platform, root, failures, fs', games) == Ok(Report(fs', 0, AlreadyDownloaded))
  {
    GetUpdateNoFailures(platform, root, sep, failures, fs, games);
    var fs' := GetUpdate(platform, root, failures, fs, games).value.fs;
    var folders := Folders(root, sep, games);
    var targets := Targets(root, sep, games);
    assert fs' == Fs(fs.dirs + {root} + folders, fs.files + targets);
    forall i | 0 <= i < |games|
      ensures Target(root, sep, games[i]) != root && Folder(root, sep, games[i]) != root
    {
      assert |Target(root, sep, games[i])| > |root|;
    }
    assert root !in targets;
    assert NoClash(fs', root, sep, games);
    GetUpdateNoFailures(platform, root, sep, failures, fs', games);
    assert targets - fs'.files == {};
    assert fs'.dirs + {root} + folders == fs'.dirs;
    assert fs'.files + targets == fs'.files;
  }
}
