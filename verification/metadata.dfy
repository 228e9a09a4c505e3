/** The metadata feed: `Downloader.get_parse` and
    `MetadataParser.parse_game_metadata`. The network request and the XML
    parser are outside the model: a request is a total function from the
    feed URL to what came back, and a body that parsed is already a
    `Manifest`. */
module Metadata {
  import opened Basics
  import opened Text
  import opened Sizes

  const FeedPrefix: string := "https://a0.ww.np.dl.playstation.net/tpl/np/"

  /** The manifest URL requested for an identifier. */
  function FeedUrl(id: string): string {
    FeedPrefix + id + "/" + id + "-ver.xml"
  }

  /** A `paramsfo` element; `title` is the text of its `TITLE` child, `None`
      when that child is missing or empty. */
  datatype ParamSfo = ParamSfo(title: Option<string>)

  /** A `package` element. Each attribute may be absent. `size` is `None`
      also when the attribute is not a number `float()` accepts. */
  datatype Package = Package(
    version: Option<string>,
    size: Option<ByteCount>,
    sysver: Option<string>,
    url: Option<string>,
    paramsfo: Option<ParamSfo>)

  /** The parsed manifest: the root's `titleid` attribute and the packages
      of its `tag` child, `None` when there is no such child. */
  datatype Manifest = Manifest(titleid: Option<string>, tag: Option<seq<Package>>)

  /** A response body: empty, not XML, or a parsed manifest. */
  datatype Body = Empty | Unparsable | Document(manifest: Manifest)

  datatype Response = Response(status: int, body: Body)

  /** What one request produced: an exception, or a response. */
  datatype Fetched = Unreachable | Received(response: Response)

  /** The `Game` record: one downloadable update of one title. */
  datatype Game = Game(
    id: Option<string>,
    name: string,
    url: Option<string>,
    size: string,
    sysver: Option<string>,
    version: Option<string>)

  /** A Python local variable: never assigned yet, or holding a value. */
  datatype Slot<T> = Unbound | Bound(value: T)

  /** The loop variables of `parse_game_metadata`. They live for the whole
      call, so a title sees whatever earlier titles left in them. */
  datatype Carry = Carry(
    version: Slot<Option<string>>,
    size: Slot<string>,
    sysver: Slot<Option<string>>,
    url: Slot<Option<string>>,
    name: Slot<string>)
  {
    predicate Complete() {
      version.Bound? && size.Bound? && sysver.Bound? && url.Bound? && name.Bound?
    }
  }

  const Fresh: Carry := Carry(Unbound, Unbound, Unbound, Unbound, Unbound)

  /** The loop variables together with the games added so far. */
  datatype Harvest = Harvest(carry: Carry, games: seq<Game>)

  /** An identifier whose feed answered with something other than an empty
      body or a 404. */
  predicate Emits(fetch: string -> Fetched, id: string) {
    && fetch(FeedUrl(id)).Received?
    && !fetch(FeedUrl(id)).response.body.Empty?
    && fetch(FeedUrl(id)).response.status != 404
  }

  /** `get_parse`: `None` exactly when the body is empty or the status is
      404, otherwise the response itself; a request that raises aborts. */
  function GetParse(fetch: string -> Fetched, id: string): (r: Result<Option<Response>, Fault>)
    ensures r.Err? <==> fetch(FeedUrl(id)).Unreachable?
    ensures r.Err? ==> r.error == FeedUnreachable(FeedUrl(id))
    ensures r.Ok? ==> (r.value.Some? <==> Emits(fetch, id))
    ensures r.Ok? && r.value.Some? ==> r.value.value == fetch(FeedUrl(id)).response
  {
    match fetch(FeedUrl(id))
    case Unreachable => Err(FeedUnreachable(FeedUrl(id)))
    case Received(resp) =>
      if resp.body.Empty? || resp.status == 404 then Ok(None) else Ok(Some(resp))
  }

  /** `s.replace("\n", " ")`. */
  function ReplaceNewlines(s: string): string {
    if |s| == 0 then "" else [if s[0] == '\n' then ' ' else s[0]] + ReplaceNewlines(s[1..])
  }

  /** Replacing keeps the length, turns each newline into a space, leaves
      every other character where it was, and so leaves no newline. */
  lemma {:induction false} ReplaceNewlinesPointwise(s: string)
    ensures var r := ReplaceNewlines(s);
      && |r| == |s|
      && (forall i :: 0 <= i < |s| ==> r[i] == (if s[i] == '\n' then ' ' else s[i]))
      && '\n' !in r
  {
    if |s| > 0 {
      ReplaceNewlinesPointwise(s[1..]);
      var r := ReplaceNewlines(s);
      assert forall i :: 1 <= i < |s| ==> r[i] == ReplaceNewlines(s[1..])[i - 1];
    }
  }

  /** Two lines joined by a newline read as the same two lines joined by a
      space. */
  lemma ReplaceNewlinesAround(a: string, b: string)
    requires '\n' !in a && '\n' !in b
    ensures ReplaceNewlines(a + "\n" + b) == a + " " + b
  {
    var s := a + "\n" + b;
    var r := ReplaceNewlines(s);
    ReplaceNewlinesPointwise(s);
    assert forall i :: 0 <= i < |s| ==> r[i] == (a + " " + b)[i];
  }

  /** A package the loop body reads without raising. */
  predicate WellFormed(p: Package) {
    p.size.Some? && (p.paramsfo.Some? ==> p.paramsfo.value.title.Some?)
  }

  /** The `paramsfo` of the last package that has one. */
  function LastNamed(ps: seq<Package>): (r: Option<ParamSfo>)
    ensures r.Some? ==> |ps| > 0
  {
    if |ps| == 0 then None
    else if ps[|ps| - 1].paramsfo.Some? then ps[|ps| - 1].paramsfo
    else LastNamed(ps[..|ps| - 1])
  }

  /** One pass of the package loop body. */
  function ReadPackage(c: Carry, p: Package): Result<Carry, Fault> {
    if p.size.None? then Err(BadSize)
    else if p.paramsfo.Some? && p.paramsfo.value.title.None? then Err(MissingTitleText)
    else
      var name := if p.paramsfo.Some? then Bound(ReplaceNewlines(p.paramsfo.value.title.value)) else c.name;
      Ok(Carry(Bound(p.version), Bound(ConvertBytesToMegabytes(p.size.value)), Bound(p.sysver), Bound(p.url), name))
  }

  /** The package loop: it finishes iff every package is well formed, and
      then the version, size, system version and url are the last
      package's, the name comes from the last package with a `paramsfo`
      (newlines turned into spaces), and whatever no package set keeps its
      earlier value. */
  function ReadPackages(c: Carry, ps: seq<Package>): (r: Result<Carry, Fault>)
    ensures r.Ok? <==> forall i :: 0 <= i < |ps| ==> WellFormed(ps[i])
    ensures r.Ok? && |ps| == 0 ==> r.value == c
    ensures r.Ok? && |ps| > 0 ==>
      var last := ps[|ps| - 1];
      && last.size.Some?
      && r.value.version == Bound(last.version)
      && r.value.size == Bound(ConvertBytesToMegabytes(last.size.value))
      && r.value.sysver == Bound(last.sysver)
      && r.value.url == Bound(last.url)
    ensures r.Ok? && LastNamed(ps).None? ==> r.value.name == c.name
    ensures r.Ok? && LastNamed(ps).Some? ==>
      LastNamed(ps).value.title.Some? && r.value.name == Bound(ReplaceNewlines(LastNamed(ps).value.title.value))
  {
    if |ps| == 0 then Ok(c)
    else
      var front := ps[..|ps| - 1];
      assert forall i :: 0 <= i < |front| ==> front[i] == ps[i];
      match ReadPackages(c, front)
      case Err(e) => Err(e)
      case Ok(c1) => ReadPackage(c1, ps[|ps| - 1])
  }

  /** `Game(game_id, game_name, game_url, ...)`: reading a loop variable
      that was never assigned raises. */
  function BuildGame(titleid: Option<string>, c: Carry): (r: Result<Game, Fault>)
    ensures r.Ok? <==> c.Complete()
    ensures r.Ok? ==> r.value.id == titleid && Matches(c, r.value)
  {
    if c.Complete() then Ok(Game(titleid, c.name.value, c.url.value, c.size.value, c.sysver.value, c.version.value))
    else Err(UnboundVariable)
  }

  /** The loop variables hold exactly the fields of `g`. */
  predicate Matches(c: Carry, g: Game) {
    c == Carry(Bound(g.version), Bound(g.size), Bound(g.sysver), Bound(g.url), Bound(g.name))
  }

  /** One iteration of the title loop. */
  function ReadTitle(h: Harvest, fetch: string -> Fetched, id: string): Result<Harvest, Fault> {
    match GetParse(fetch, id)
    case Err(e) => Err(e)
    case Ok(None) => Ok(h)
    case Ok(Some(resp)) =>
      if !resp.body.Document? then Err(MalformedXml)
      else
        var m := resp.body.manifest;
        if m.tag.None? then Err(MissingTag)
        else
          match ReadPackages(h.carry, m.tag.value)
          case Err(e) => Err(e)
          case Ok(c) =>
            match BuildGame(m.titleid, c)
            case Err(e) => Err(e)
            case Ok(g) => Ok(Harvest(c, h.games + [g]))
  }

  /** The title loop over the identifiers, in order. */
  function Titles(h: Harvest, fetch: string -> Fetched, ids: seq<string>): Result<Harvest, Fault> {
    if |ids| == 0 then Ok(h)
    else
      match Titles(h, fetch, ids[..|ids| - 1])
      case Err(e) => Err(e)
      case Ok(h1) => ReadTitle(h1, fetch, ids[|ids| - 1])
  }

  /** `parse_game_metadata`: the games it appends to the (empty) game list. */
  function ParseGameMetadata(ids: seq<string>, fetch: string -> Fetched): Result<seq<Game>, Fault> {
    match Titles(Harvest(Fresh, []), fetch, ids)
    case Err(e) => Err(e)
    case Ok(h) => Ok(h.games)
  }

  // ---------------------------------------------------------------------
  // Reference reading of the loop's outcome

  /** The identifiers that produce a game, in order. */
  function Kept(fetch: string -> Fetched, ids: seq<string>): (r: seq<string>)
    ensures |r| <= |ids|
    ensures forall i :: 0 <= i < |r| ==> Emits(fetch, r[i])
    ensures forall i :: 0 <= i < |ids| && Emits(fetch, ids[i]) ==> ids[i] in r
  {
    if |ids| == 0 then []
    else
      var front := Kept(fetch, ids[..|ids| - 1]);
      assert forall i :: 0 <= i < |ids| - 1 ==> ids[..|ids| - 1][i] == ids[i];
      front + (if Emits(fetch, ids[|ids| - 1]) then [ids[|ids| - 1]] else [])
  }

  /** The manifest the feed returned for an identifier, if it parsed. */
  function ManifestOf(fetch: string -> Fetched, id: string): Option<Manifest> {
    if fetch(FeedUrl(id)).Received? && fetch(FeedUrl(id)).response.body.Document?
    then Some(fetch(FeedUrl(id)).response.body.manifest)
    else None
  }

  /** `g` is what the program promises for manifest `m`: its title id, the
      last package's version, size, system version and url, and the name of
      the last package carrying a `paramsfo`. */
  ghost predicate Describes(g: Game, m: Manifest) {
    && g.id == m.titleid
    && m.tag.Some?
    && (|m.tag.value| > 0 ==>
          var last := m.tag.value[|m.tag.value| - 1];
          && last.size.Some?
          && g.version == last.version
          && g.size == ConvertBytesToMegabytes(last.size.value)
          && g.sysver == last.sysver
          && g.url == last.url)
    && (LastNamed(m.tag.value).Some? ==>
          && LastNamed(m.tag.value).value.title.Some?
          && g.name == ReplaceNewlines(LastNamed(m.tag.value).value.title.value))
  }

  /** A title the loop body gets through without raising, whatever the
      loop variables hold. */
  ghost predicate Healthy(fetch: string -> Fetched, id: string) {
    && fetch(FeedUrl(id)).Received?
    && (Emits(fetch, id) ==>
          && ManifestOf(fetch, id).Some?
          && ManifestOf(fetch, id).value.tag.Some?
          && forall p :: p in ManifestOf(fetch, id).value.tag.value ==> WellFormed(p))
  }

  /** A title whose manifest names the game, which sets every loop variable. */
  ghost predicate NamesGame(fetch: string -> Fetched, id: string) {
    && ManifestOf(fetch, id).Some?
    && ManifestOf(fetch, id).value.tag.Some?
    && LastNamed(ManifestOf(fetch, id).value.tag.value).Some?
  }

  /** The title loop emits one game per identifier whose feed answered, in
      order, none for the others; each game describes its manifest; and the
      loop variables end up holding the last game's fields. */
  lemma {:induction false} TitlesEmit(h: Harvest, fetch: string -> Fetched, ids: seq<string>)
    requires Titles(h, fetch, ids).Ok?
    ensures var h' := Titles(h, fetch, ids).value;
      var k := Kept(fetch, ids);
      && |h'.games| == |h.games| + |k|
      && h'.games[..|h.games|] == h.games
      && (forall i :: 0 <= i < |k| ==>
            ManifestOf(fetch, k[i]).Some? && Describes(h'.games[|h.games| + i], ManifestOf(fetch, k[i]).value))
      && (|k| == 0 ==> h' == h)
      && (|k| > 0 ==> Matches(h'.carry, h'.games[|h'.games| - 1]))
  {
    if |ids| > 0 {
      TitlesEmit(h, fetch, ids[..|ids| - 1]);
      TitlesEmitStep(h, fetch, ids);
    }
  }

  /** What `TitlesEmit` states about a run of the title loop. */
  ghost predicate EmitsInOrder(h: Harvest, fetch: string -> Fetched, ids: seq<string>)
    requires Titles(h, fetch, ids).Ok?
  {
    var h' := Titles(h, fetch, ids).value;
    var k := Kept(fetch, ids);
    && |h'.games| == |h.games| + |k|
    && h'.games[..|h.games|] == h.games
    && (forall i :: 0 <= i < |k| ==>
          ManifestOf(fetch, k[i]).Some? && Describes(h'.games[|h.games| + i], ManifestOf(fetch, k[i]).value))
    && (|k| == 0 ==> h' == h)
    && (|k| > 0 ==> Matches(h'.carry, h'.games[|h'.games| - 1]))
  }

  /** The inductive step of `TitlesEmit`. */
  lemma TitlesEmitStep(h: Harvest, fetch: string -> Fetched, ids: seq<string>)
    requires Titles(h, fetch, ids).Ok? && |ids| > 0
    requires Titles(h, fetch, ids[..|ids| - 1]).Ok? ==> EmitsInOrder(h, fetch, ids[..|ids| - 1])
    ensures EmitsInOrder(h, fetch, ids)
  {
    if Emits(fetch, ids[|ids| - 1]) {
      TitlesEmitKept(h, fetch, ids);
    } else {
      var front := ids[..|ids| - 1];
      assert Kept(fetch, ids) == Kept(fetch, front);
      assert Titles(h, fetch, ids).value == Titles(h, fetch, front).value;
    }
  }

  /** `TitlesEmitStep` when the last identifier emits a game. */
  lemma TitlesEmitKept(h: Harvest, fetch: string -> Fetched, ids: seq<string>)
    requires Titles(h, fetch, ids).Ok? && |ids| > 0 && Emits(fetch, ids[|ids| - 1])
    requires Titles(h, fetch, ids[..|ids| - 1]).Ok? ==> EmitsInOrder(h, fetch, ids[..|ids| - 1])
    ensures EmitsInOrder(h, fetch, ids)
  {
    var front := ids[..|ids| - 1];
    var id := ids[|ids| - 1];
    var h1 := Titles(h, fetch, front).value;
    var h' := Titles(h, fetch, ids).value;
    assert h' == ReadTitle(h1, fetch, id).value;
    var k1 := Kept(fetch, front);
    var k := Kept(fetch, ids);
    assert k == k1 + [id];
    var m := ManifestOf(fetch, id).value;
    var c := ReadPackages(h1.carry, m.tag.value).value;
    var g := BuildGame(m.titleid, c).value;
    assert h' == Harvest(c, h1.games + [g]);
    assert h'.games[..|h1.games|] == h1.games;
    assert h'.games[..|h.games|] == h1.games[..|h.games|];
    forall i | 0 <= i < |k|
      ensures ManifestOf(fetch, k[i]).Some? && Describes(h'.games[|h.games| + i], ManifestOf(fetch, k[i]).value)
    {
      if i < |k1| {
        assert k[i] == k1[i];
        assert h'.games[|h.games| + i] == h1.games[|h.games| + i];
      } else {
        assert k[i] == id && h'.games[|h.games| + i] == g;
      }
    }
    assert |h'.games| == |h.games| + |k|;
    assert Matches(h'.carry, h'.games[|h'.games| - 1]);
  }

  /** `g` repeats what `prev` left in the loop variables: everything but
      the title id when the manifest has no packages, and the name when no
      package carries a `paramsfo`. */
  ghost predicate CarriesOver(m: Manifest, g: Game, prev: Game)
    requires m.tag.Some?
  {
    && (|m.tag.value| == 0 ==> g == prev.(id := m.titleid))
    && (LastNamed(m.tag.value).None? ==> g.name == prev.name)
  }

  /** One title's game against the game before it, when the loop variables
      still hold the earlier game's fields. */
  lemma {:induction false} ReadTitleCarryOver(h: Harvest, fetch: string -> Fetched, id: string)
    requires ReadTitle(h, fetch, id).Ok? && Emits(fetch, id)
    requires |h.games| > 0 && Matches(h.carry, h.games[|h.games| - 1])
    ensures ManifestOf(fetch, id).Some? && ManifestOf(fetch, id).value.tag.Some?
    ensures var games := ReadTitle(h, fetch, id).value.games;
      && |games| == |h.games| + 1
      && games[|h.games| - 1] == h.games[|h.games| - 1]
      && CarriesOver(ManifestOf(fetch, id).value, games[|h.games|], games[|h.games| - 1])
  {
    var m := ManifestOf(fetch, id).value;
    var c := ReadPackages(h.carry, m.tag.value).value;
    var g := BuildGame(m.titleid, c).value;
    assert ReadTitle(h, fetch, id).value.games == h.games + [g];
  }

  /** When the first title to emit a game has no packages, or none of its
      packages names the game, the loop reads a variable it never assigned:
      so a run that succeeds had some named package there. Later titles
      reuse what earlier titles left: a title with no packages repeats the
      previous game under its own title id, and a title without a
      `paramsfo` repeats the previous game's name. */
  lemma {:induction false} TitlesCarryOver(h: Harvest, fetch: string -> Fetched, ids: seq<string>, i: nat)
    requires Titles(h, fetch, ids).Ok?
    requires 0 < i < |Kept(fetch, ids)|
    ensures TitlesEmitted(h, fetch, ids, i)
    ensures var h' := Titles(h, fetch, ids).value;
      CarriesOver(ManifestOf(fetch, Kept(fetch, ids)[i]).value, h'.games[|h.games| + i], h'.games[|h.games| + i - 1])
  {
    TitlesEmittedHolds(h, fetch, ids, i);
    var front := ids[..|ids| - 1];
    var id := ids[|ids| - 1];
    var h1 := Titles(h, fetch, front).value;
    var k1 := Kept(fetch, front);
    var k := Kept(fetch, ids);
    var h' := Titles(h, fetch, ids).value;
    if Emits(fetch, id) && i == |k1| {
      TitlesCarryOverLast(h, fetch, ids, i);
    } else {
      TitlesShape(h, fetch, front);
      if Emits(fetch, id) {
        assert k == k1 + [id];
        var m := ManifestOf(fetch, id).value;
        var c := ReadPackages(h1.carry, m.tag.value).value;
        var g := BuildGame(m.titleid, c).value;
        assert h' == Harvest(c, h1.games + [g]);
        assert k[i] == k1[i];
        assert h'.games[|h.games| + i] == h1.games[|h.games| + i];
        assert h'.games[|h.games| + i - 1] == h1.games[|h.games| + i - 1];
      } else {
        assert k == k1;
        assert h' == h1;
      }
      TitlesCarryOver(h, fetch, front, i);
    }
  }

  /** `TitlesCarryOver` for the game of the last identifier. */
  lemma TitlesCarryOverLast(h: Harvest, fetch: string -> Fetched, ids: seq<string>, i: nat)
    requires Titles(h, fetch, ids).Ok?
    requires |ids| > 0 && Emits(fetch, ids[|ids| - 1])
    requires 0 < i == |Kept(fetch, ids[..|ids| - 1])|
    ensures i < |Kept(fetch, ids)| && TitlesEmitted(h, fetch, ids, i)
    ensures var h' := Titles(h, fetch, ids).value;
      CarriesOver(ManifestOf(fetch, Kept(fetch, ids)[i]).value, h'.games[|h.games| + i], h'.games[|h.games| + i - 1])
  {
    var front := ids[..|ids| - 1];
    var id := ids[|ids| - 1];
    var h1 := Titles(h, fetch, front).value;
    var k := Kept(fetch, ids);
    assert k == Kept(fetch, front) + [id];
    TitlesEmittedHolds(h, fetch, ids, i);
    TitlesShape(h, fetch, front);
    assert |h1.games| == |h.games| + i && |h1.games| > 0;
    ReadTitleCarryOver(h1, fetch, id);
    assert k[i] == id;
  }

  /** `TitlesEmitted` holds at every emitted position. */
  lemma TitlesEmittedHolds(h: Harvest, fetch: string -> Fetched, ids: seq<string>, i: nat)
    requires Titles(h, fetch, ids).Ok?
    requires i < |Kept(fetch, ids)|
    ensures TitlesEmitted(h, fetch, ids, i)
  {
    TitlesEmit(h, fetch, ids);
  }

  /** The counting part of `TitlesEmit`. */
  lemma {:induction false} TitlesShape(h: Harvest, fetch: string -> Fetched, ids: seq<string>)
    requires Titles(h, fetch, ids).Ok?
    ensures var h' := Titles(h, fetch, ids).value;
      var k := Kept(fetch, ids);
      && |h'.games| == |h.games| + |k|
      && (|k| > 0 ==> Matches(h'.carry, h'.games[|h'.games| - 1]))
  {
    TitlesEmit(h, fetch, ids);
  }

  /** The facts `TitlesCarryOver` needs in order to name the i-th emitted
      title's manifest and game. */
  ghost predicate TitlesEmitted(h: Harvest, fetch: string -> Fetched, ids: seq<string>, i: nat)
    requires Titles(h, fetch, ids).Ok?
  {
    && i < |Kept(fetch, ids)|
    && |h.games| + i < |Titles(h, fetch, ids).value.games|
    && ManifestOf(fetch, Kept(fetch, ids)[i]).Some?
    && ManifestOf(fetch, Kept(fetch, ids)[i]).value.tag.Some?
  }

  /** One title goes through iff its feed answered, and, when it emits a
      game, its manifest is well formed and every loop variable is set. */
  lemma {:induction false} ReadTitleSucceeds(h: Harvest, fetch: string -> Fetched, id: string)
    requires h.carry == Fresh || h.carry.Complete()
    ensures ReadTitle(h, fetch, id).Ok? <==>
      && Healthy(fetch, id)
      && (Emits(fetch, id) && h.carry == Fresh ==> NamesGame(fetch, id))
    ensures ReadTitle(h, fetch, id).Ok? && Emits(fetch, id) ==> ReadTitle(h, fetch, id).value.carry.Complete()
    ensures ReadTitle(h, fetch, id).Ok? && !Emits(fetch, id) ==> ReadTitle(h, fetch, id).value == h
  {
    if Emits(fetch, id) && ManifestOf(fetch, id).Some? && ManifestOf(fetch, id).value.tag.Some? {
      var ps := ManifestOf(fetch, id).value.tag.value;
      var r := ReadPackages(h.carry, ps);
      assert r.Ok? <==> forall p :: p in ps ==> WellFormed(p) by {
        if forall p :: p in ps ==> WellFormed(p) {
          assert forall i :: 0 <= i < |ps| ==> WellFormed(ps[i]);
        }
      }
    }
  }

  /** `parse_game_metadata` returns normally iff every feed request got an
      answer, every answered manifest is well formed, and the first title
      that emits a game has a package naming it. */
  lemma {:induction false} TitlesSucceed(h: Harvest, fetch: string -> Fetched, ids: seq<string>)
    requires h.carry == Fresh || h.carry.Complete()
    ensures Titles(h, fetch, ids).Ok? <==>
      && (forall i :: 0 <= i < |ids| ==> Healthy(fetch, ids[i]))
      && (h.carry == Fresh && |Kept(fetch, ids)| > 0 ==> NamesGame(fetch, Kept(fetch, ids)[0]))
    ensures Titles(h, fetch, ids).Ok? ==>
      Titles(h, fetch, ids).value.carry == h.carry || Titles(h, fetch, ids).value.carry.Complete()
  {
    if |ids| > 0 {
      TitlesSucceed(h, fetch, ids[..|ids| - 1]);
      TitlesSucceedStep(h, fetch, ids);
    }
  }

  /** Every title in `ids` is healthy. */
  ghost predicate AllHealthy(fetch: string -> Fetched, ids: seq<string>) {
    forall i :: 0 <= i < |ids| ==> Healthy(fetch, ids[i])
  }

  /** Starting from fresh loop variables, the first title to emit a game
      names it. */
  ghost predicate FirstNamed(isFresh: bool, fetch: string -> Fetched, ids: seq<string>) {
    isFresh && |Kept(fetch, ids)| > 0 ==> NamesGame(fetch, Kept(fetch, ids)[0])
  }

  /** `AllHealthy` and `FirstNamed` one title at a time. */
  lemma {:induction false} SuccessConditionSnoc(isFresh: bool, fetch: string -> Fetched, ids: seq<string>)
    requires |ids| > 0
    ensures var front := ids[..|ids| - 1];
      var id := ids[|ids| - 1];
      && (AllHealthy(fetch, ids) <==> AllHealthy(fetch, front) && Healthy(fetch, id))
      && (FirstNamed(isFresh, fetch, ids) <==>
            FirstNamed(isFresh, fetch, front)
            && (isFresh && |Kept(fetch, front)| == 0 && Emits(fetch, id) ==> NamesGame(fetch, id)))
  {
    var front := ids[..|ids| - 1];
    assert forall i :: 0 <= i < |front| ==> front[i] == ids[i];
    if |Kept(fetch, front)| > 0 {
      assert Kept(fetch, ids)[0] == Kept(fetch, front)[0];
    }
  }

  /** The inductive step of `TitlesSucceed`: its statement for all the
      identifiers but the last gives it for all of them. */
  lemma {:induction false} TitlesSucceedStep(h: Harvest, fetch: string -> Fetched, ids: seq<string>)
    requires h.carry == Fresh || h.carry.Complete()
    requires |ids| > 0
    requires var front := ids[..|ids| - 1];
      && (Titles(h, fetch, front).Ok? <==> AllHealthy(fetch, front) && FirstNamed(h.carry == Fresh, fetch, front))
      && (Titles(h, fetch, front).Ok? ==>
        Titles(h, fetch, front).value.carry == h.carry || Titles(h, fetch, front).value.carry.Complete())
    ensures Titles(h, fetch, ids).Ok? <==> AllHealthy(fetch, ids) && FirstNamed(h.carry == Fresh, fetch, ids)
    ensures Titles(h, fetch, ids).Ok? ==>
      Titles(h, fetch, ids).value.carry == h.carry || Titles(h, fetch, ids).value.carry.Complete()
  {
    var front := ids[..|ids| - 1];
    var id := ids[|ids| - 1];
    SuccessConditionSnoc(h.carry == Fresh, fetch, ids);
    if Titles(h, fetch, front).Ok? {
      var h1 := Titles(h, fetch, front).value;
      TitlesEmit(h, fetch, front);
      if |Kept(fetch, front)| > 0 {
        assert h1.carry.Complete();
      } else {
        assert h1 == h;
      }
      ReadTitleSucceeds(h1, fetch, id);
    }
  }

  /** The parser's success condition, read from the fresh loop variables. */
  lemma ParseGameMetadataSucceeds(ids: seq<string>, fetch: string -> Fetched)
    ensures ParseGameMetadata(ids, fetch).Ok? <==>
      && (forall i :: 0 <= i < |ids| ==> Healthy(fetch, ids[i]))
      && (|Kept(fetch, ids)| > 0 ==> NamesGame(fetch, Kept(fetch, ids)[0]))
  {
    TitlesSucceed(Harvest(Fresh, []), fetch, ids);
  }

  /** What a successful parse returns: exactly one game per identifier whose
      feed answered, in identifier order, each describing its manifest. */
  lemma {:induction false} ParseGameMetadataEmits(ids: seq<string>, fetch: string -> Fetched)
    requires ParseGameMetadata(ids, fetch).Ok?
    ensures var games := ParseGameMetadata(ids, fetch).value;
      var k := Kept(fetch, ids);
      && |games| == |k|
      && forall i :: 0 <= i < |k| ==> ManifestOf(fetch, k[i]).Some? && Describes(games[i], ManifestOf(fetch, k[i]).value)
  {
    TitlesEmit(Harvest(Fresh, []), fetch, ids);
  }
}
