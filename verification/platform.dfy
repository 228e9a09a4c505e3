/** Platform detection and the paths built from it: `App.get_platform`,
    `App.verify_platform`, the `root + sep + id + sep + filename` pattern the
    program repeats at each call site, and the file name taken from a URL. */
module Platform {
  import opened Basics
  import opened Text

  /** The folder created under the home directory. */
  const UpdatesFolder: string := "PS3 Game Updates"

  /** `get_platform(name)`: `sys.platform.startswith(name)`. */
  predicate GetPlatform(platform: string, name: string) {
    StartsWith(platform, name)
  }

  /** One of the three platforms the program treats as POSIX. */
  predicate IsPosix(platform: string) {
    GetPlatform(platform, "freebsd") || GetPlatform(platform, "linux") || GetPlatform(platform, "darwin")
  }

  /** The path separator the program writes on each platform; win32 is
      tested first. No separator on any other platform. */
  function Separator(platform: string): (sep: Option<char>)
    ensures GetPlatform(platform, "win32") ==> sep == Some('\\')
    ensures !GetPlatform(platform, "win32") && IsPosix(platform) ==> sep == Some('/')
    ensures !GetPlatform(platform, "win32") && !IsPosix(platform) ==> sep == None
  {
    if GetPlatform(platform, "win32") then Some('\\')
    else if IsPosix(platform) then Some('/')
    else None
  }

  /** `verify_platform`: the download root is the home directory, the
      platform's separator and the updates folder; any other platform
      aborts the run. The backslash in the win32 literal is a plain
      character, Python leaving the unknown escape `\P` as written. */
  function VerifyPlatform(platform: string, home: string): (r: Result<string, Fault>)
    ensures GetPlatform(platform, "win32") ==> r == Ok(home + "\\PS3 Game Updates")
    ensures !GetPlatform(platform, "win32") && IsPosix(platform) ==> r == Ok(home + "/PS3 Game Updates")
    ensures r.Err? <==> Separator(platform).None?
    ensures r.Err? ==> r.error == UnknownPlatform(platform)
    ensures r.Ok? ==> r.value == FolderPath(home, Separator(platform).value, UpdatesFolder)
  {
    assert home + ['\\'] + UpdatesFolder == home + "\\PS3 Game Updates";
    assert home + ['/'] + UpdatesFolder == home + "/PS3 Game Updates";
    match Separator(platform)
    case Some(sep) => Ok(home + [sep] + UpdatesFolder)
    case None => Err(UnknownPlatform(platform))
  }

  /** The per-title folder under the download root: the root, the
      separator, then the title id. */
  function FolderPath(root: string, sep: char, id: string): (p: string)
    ensures |p| > |root| && p[..|root|] == root && p[|root|] == sep
    ensures p[|root| + 1..] == id
  {
    root + [sep] + id
  }

  /** The path of one downloaded file inside a per-title folder: the
      folder, the separator, then the file name. */
  function FilePath(root: string, sep: char, id: string, filename: string): (p: string)
    ensures |p| > |FolderPath(root, sep, id)| && p[..|FolderPath(root, sep, id)|] == FolderPath(root, sep, id)
    ensures p[|FolderPath(root, sep, id)|] == sep
    ensures p[|FolderPath(root, sep, id)| + 1..] == filename
  {
    FolderPath(root, sep, id) + [sep] + filename
  }

  /** Under one root, different titles get different folders, and within
      one folder different file names get different paths. */
  lemma {:induction false} PathsDistinguish(root: string, sep: char, a: string, b: string, f: string, g: string)
    ensures FolderPath(root, sep, a) == FolderPath(root, sep, b) <==> a == b
    ensures FilePath(root, sep, a, f) == FilePath(root, sep, a, g) <==> f == g
  {
    var pa, pb := FolderPath(root, sep, a), FolderPath(root, sep, b);
    if pa == pb {
      assert a == pa[|root| + 1..] == pb[|root| + 1..] == b;
    }
    var qf, qg := FilePath(root, sep, a, f), FilePath(root, sep, a, g);
    if qf == qg {
      assert f == qf[|pa| + 1..] == qg[|pa| + 1..] == g;
    }
  }

  /** `url.split("/")[-1]`. */
  function Filename(url: string): string {
    var parts := Split(url, '/');
    parts[|parts| - 1]
  }

  /** The URL is its file name alone, or something, a `/` and the file
      name. */
  lemma SplitAtLastSlash(url: string)
    ensures '/' !in Filename(url)
    ensures url == Filename(url) || exists front :: url == front + ['/'] + Filename(url)
  {
    var parts := Split(url, '/');
    JoinSplit(url, '/');
    if |parts| > 1 {
      JoinLast(parts, '/');
      var front := Join(parts[..|parts| - 1], '/');
      assert url == front + ['/'] + Filename(url);
    }
  }

  /** The file name is the part of the URL after its last `/`: a suffix
      with no `/` in it, preceded by a `/` unless it is the whole URL, and
      the whole URL exactly when the URL has no `/`. */
  lemma FilenameIsLastSegment(url: string)
    ensures '/' !in Filename(url)
    ensures |Filename(url)| <= |url| && url[|url| - |Filename(url)|..] == Filename(url)
    ensures |Filename(url)| < |url| ==> url[|url| - |Filename(url)| - 1] == '/'
    ensures '/' !in url <==> Filename(url) == url
  {
    var f := Filename(url);
    SplitAtLastSlash(url);
    if url != f {
      var front :| url == front + ['/'] + f;
      assert url[|url| - |f|..] == f;
      assert url[|url| - |f| - 1] == '/';
    }
  }

  /** A URL ending in `/name`, where `name` has no `/`, yields `name`. */
  lemma FilenameAfterLastSlash(prefix: string, name: string)
    requires '/' !in name
    ensures Filename(prefix + "/" + name) == name
  {
    var url := prefix + "/" + name;
    var f := Filename(url);
    FilenameIsLastSegment(url);
    assert url[|url| - |name| - 1] == '/';
    if |f| < |name| {
      assert false;
    } else if |f| > |name| {
      assert false;
    }
    assert url[|url| - |name|..] == name;
  }
}
