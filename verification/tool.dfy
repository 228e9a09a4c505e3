/** `main`: resolve the download root, read the command line, collect the
    identifiers, parse their manifests and fetch the updates. */
module Tool {
  import opened Basics
  import opened GameIds
  import opened Platform
  import opened Metadata
  import opened Downloads

  /** How a run ends: the usage text, an abort, or the closing report. */
  datatype Outcome = Usage | Aborted(fault: Fault, fs: Fs) | Finished(report: Report)

  /** `main`. `argv` is `sys.argv`, program name included; `catalog` holds
      the keys of `argv[1]` when it names an existing `games.yml` file. */
  function Run(
    platform: string, home: string, argv: seq<string>, catalog: Option<seq<string>>,
    fetch: string -> Fetched, failures: map<string, TransferFailure>, fs: Fs): (r: Outcome)
    ensures Separator(platform).None? ==> r == Aborted(UnknownPlatform(platform), fs)
    ensures Separator(platform).Some? && |argv| != 2 ==> r == Usage
    ensures Separator(platform).Some? && |argv| == 2 && catalog.None? && |argv[1]| != 9 ==>
      r == Aborted(InvalidArgument, fs)
    ensures r.Finished? ==>
      && |argv| == 2
      && ParseGameIds([], argv[1], catalog).Ok?
      && ParseGameMetadata(ParseGameIds([], argv[1], catalog).value, fetch).Ok?
      && (r.report.message == AlreadyDownloaded <==> r.report.downloadsLeft == 0)
  {
    match VerifyPlatform(platform, home)
    case Err(e) => Aborted(e, fs)
    case Ok(root) =>
      if |argv| < 2 || |argv| >= 3 then Usage
      else
        match ParseGameIds([], argv[1], catalog)
        case Err(e) => Aborted(e, fs)
        case Ok(ids) =>
          match ParseGameMetadata(ids, fetch)
          case Err(e) => Aborted(e, fs)
          case Ok(games) =>
            match GetUpdate(platform, root, failures, fs, games)
            case Err(h) => Aborted(h.fault, h.fs)
            case Ok(rep) => Finished(rep)
  }

  /** The package URL of the worked scenario: `update.pkg` under whatever
      server directory `dir` names. */
  function ScenarioUrl(dir: string): string {
    dir + "/update.pkg"
  }

  /** The feed of the worked scenario: one title, one package of two
      mebibytes. */
  function ScenarioFeed(dir: string): string -> Fetched {
    url =>
      if url == FeedUrl("BLUS12345") then
        Received(Response(200, Document(Manifest(Some("BLUS12345"), Some([
          Package(Some("01.01"), Some(2097152), Some("4.00"), Some(ScenarioUrl(dir)), Some(ParamSfo(Some("Some\nGame"))))])))))
      else Unreachable
  }

  /** The game the scenario's manifest describes. */
  function ScenarioGame(dir: string): Game {
    Game(Some("BLUS12345"), "Some Game", Some(ScenarioUrl(dir)), "2.00", Some("4.00"), Some("01.01"))
  }

  /** The scenario's command line yields one identifier. */
  lemma ScenarioIds()
    ensures ParseGameIds([], "BLUS12345", None) == Ok(["BLUS12345"])
  {
    ListedPrefixAccepted("BLUS", "12345");
    assert "BLUS" + "12345" == "BLUS12345";
    assert |"BLUS12345"| == 9;
    assert ValidateId("BLUS12345") == Ok("BLUS12345");
    assert AddValidatedId([], "BLUS12345") == Ok([] + ["BLUS12345"]);
    assert [] + ["BLUS12345"] == ["BLUS12345"];
  }

  /** The scenario's one package. */
  function ScenarioPackage(dir: string): Package {
    Package(Some("01.01"), Some(2097152), Some("4.00"), Some(ScenarioUrl(dir)), Some(ParamSfo(Some("Some\nGame"))))
  }

  /** The loop variables after the scenario's package. */
  function ScenarioCarry(dir: string): Carry {
    Carry(Bound(Some("01.01")), Bound("2.00"), Bound(Some("4.00")), Bound(Some(ScenarioUrl(dir))), Bound("Some Game"))
  }

  /** The scenario's feed answers with its manifest. */
  lemma ScenarioFeedParses(dir: string)
    ensures GetParse(ScenarioFeed(dir), "BLUS12345")
      == Ok(Some(Response(200, Document(Manifest(Some("BLUS12345"), Some([ScenarioPackage(dir)]))))))
  {
    assert ScenarioFeed(dir)(FeedUrl("BLUS12345"))
      == Received(Response(200, Document(Manifest(Some("BLUS12345"), Some([ScenarioPackage(dir)])))));
  }

  /** The scenario's TITLE with its newline turned into a space. */
  lemma ScenarioName()
    ensures ReplaceNewlines("Some\nGame") == "Some Game"
  {
    ReplaceNewlinesAround("Some", "Game");
    assert "Some" + "\n" + "Game" == "Some\nGame";
    assert "Some" + " " + "Game" == "Some Game";
  }

  /** Reading the scenario's package binds every loop variable, the name
      with its newline turned into a space. */
  lemma ScenarioPackageRead(dir: string)
    ensures ReadPackages(Fresh, [ScenarioPackage(dir)]) == Ok(ScenarioCarry(dir))
  {
    var pkg := ScenarioPackage(dir);
    ScenarioName();
    Sizes.ConvertBytesToMegabytesExamples();
    assert ReadPackage(Fresh, pkg) == Ok(ScenarioCarry(dir));
    assert [pkg][..0] == [];
    assert ReadPackages(Fresh, [pkg]) == ReadPackage(Fresh, pkg);
  }

  /** The bound loop variables make the scenario's game. */
  lemma ScenarioBuild(dir: string)
    ensures BuildGame(Some("BLUS12345"), ScenarioCarry(dir)) == Ok(ScenarioGame(dir))
  {
    assert ScenarioCarry(dir).Complete();
  }

  /** The scenario's manifest yields one game, named with the newline of its
      TITLE turned into a space. */
  lemma ScenarioGames(dir: string)
    ensures ParseGameMetadata(["BLUS12345"], ScenarioFeed(dir)) == Ok([ScenarioGame(dir)])
  {
    ScenarioFeedParses(dir);
    ScenarioPackageRead(dir);
    ScenarioBuild(dir);
    var h := Harvest(Fresh, []);
    var g := ScenarioGame(dir);
    assert h.games + [g] == [g];
    assert ReadTitle(h, ScenarioFeed(dir), "BLUS12345") == Ok(Harvest(ScenarioCarry(dir), [g]));
    assert ["BLUS12345"][..0] == [];
    assert Titles(h, ScenarioFeed(dir), ["BLUS12345"]) == Ok(Harvest(ScenarioCarry(dir), [g]));
  }

  /** The scenario's download paths under a root. */
  lemma ScenarioPaths(dir: string, root: string)
    ensures var g := ScenarioGame(dir);
      var folder := root + "/BLUS12345";
      var file := folder + "/update.pkg";
      && Downloadable(g)
      && Folders(root, '/', [g]) == {folder}
      && Targets(root, '/', [g]) == {file}
      && NoClash(Fs({}, {}), root, '/', [g])
      && root !in {file}
  {
    var g := ScenarioGame(dir);
    FilenameAfterLastSlash(dir, "update.pkg");
    assert dir + "/" + "update.pkg" == ScenarioUrl(dir);
    assert Filename(ScenarioUrl(dir)) == "update.pkg";
    var folder := root + "/BLUS12345";
    var file := folder + "/update.pkg";
    assert Folder(root, '/', g) == folder;
    assert Target(root, '/', g) == file;
    assert |folder| < |file| && |root| < |file|;
  }

  /** The scenario's first download: a fresh filesystem gets the root, the
      title folder and `update.pkg`. */
  lemma ScenarioFirstUpdate(dir: string, root: string)
    ensures var folder := root + "/BLUS12345";
      var fs1 := Fs({root, folder}, {folder + "/update.pkg"});
      GetUpdate("linux", root, map[], Fs({}, {}), [ScenarioGame(dir)]) == Ok(Report(fs1, 1, DownloadsComplete))
  {
    LinuxSeparator();
    ScenarioPaths(dir, root);
    var folder := root + "/BLUS12345";
    var file := folder + "/update.pkg";
    GetUpdateNoFailures("linux", root, '/', map[], Fs({}, {}), [ScenarioGame(dir)]);
    assert {} + {root} + {folder} == {root, folder};
    assert {} + {file} == {file};
    assert {file} - {} == {file};
  }

  /** A second download over the filesystem the first one left fetches
      nothing. */
  lemma ScenarioSecondUpdate(dir: string, root: string)
    ensures var folder := root + "/BLUS12345";
      var fs1 := Fs({root, folder}, {folder + "/update.pkg"});
      GetUpdate("linux", root, map[], fs1, [ScenarioGame(dir)]) == Ok(Report(fs1, 0, AlreadyDownloaded))
  {
    LinuxSeparator();
    ScenarioPaths(dir, root);
    ScenarioFirstUpdate(dir, root);
    GetUpdateSecondRunIdle("linux", root, '/', map[], Fs({}, {}), [ScenarioGame(dir)]);
  }

  /** Linux writes `/` between path components. */
  lemma LinuxSeparator()
    ensures Separator("linux") == Some('/')
  {
    assert "linux"[..5][0] != "win32"[0];
    assert !GetPlatform("linux", "win32");
    assert !GetPlatform("linux", "freebsd");
    assert GetPlatform("linux", "linux");
  }

  /** The parts of `main` before the download loop, on linux: the root
      under the home directory, one identifier, one game. */
  lemma ScenarioPrelude(dir: string, home: string)
    ensures VerifyPlatform("linux", home) == Ok(home + "/PS3 Game Updates")
    ensures ParseGameIds([], "BLUS12345", None) == Ok(["BLUS12345"])
    ensures ParseGameMetadata(["BLUS12345"], ScenarioFeed(dir)) == Ok([ScenarioGame(dir)])
  {
    LinuxSeparator();
    ScenarioIds();
    ScenarioGames(dir);
  }

  /** End to end on linux, for any home directory: the first run creates
      the root, the title folder and `update.pkg` and reports one download;
      a second run over the resulting filesystem downloads nothing and says
      so. */
  lemma ScenarioTwoRuns(dir: string, home: string)
    ensures var root := home + "/PS3 Game Updates";
      var folder := root + "/BLUS12345";
      var fs1 := Fs({root, folder}, {folder + "/update.pkg"});
      && Run("linux", home, ["rgudw", "BLUS12345"], None, ScenarioFeed(dir), map[], Fs({}, {}))
           == Finished(Report(fs1, 1, DownloadsComplete))
      && Run("linux", home, ["rgudw", "BLUS12345"], None, ScenarioFeed(dir), map[], fs1)
           == Finished(Report(fs1, 0, AlreadyDownloaded))
  {
    var root := home + "/PS3 Game Updates";
    ScenarioPrelude(dir, home);
    ScenarioFirstUpdate(dir, root);
    ScenarioSecondUpdate(dir, root);
  }
}
