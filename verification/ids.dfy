/** Title identifiers: `GameProcessor.validate_id` and the argument dispatch
    of `MetadataParser.parse_game_ids`. */
module GameIds {
  import opened Basics
  import opened Text

  /** The fixed allow-list of four-letter region/platform prefixes, in the
      order the program lists them. */
  const ValidPrefixes: seq<string> := [
    "BCAS", "BCAX", "BCED", "BCES", "BCJB", "BCJS", "BCKS", "BCUS",
    "BLAS", "BLES", "BLJM", "BLJS", "BLJX", "BLKS", "BLUD", "BLUS",
    "MRTC", "NPEA", "NPUB", "NPUA", "NPEB", "NPJB", "NPIA", "NPJA", "NPHA"
  ]

  /** The file name a catalog argument must carry. */
  const CatalogName: string := "games.yml"

  /** Every listed prefix is four upper-case letters. */
  lemma PrefixesAreFourUpperLetters()
    ensures |ValidPrefixes| == 25
    ensures forall i :: 0 <= i < |ValidPrefixes| ==>
      |ValidPrefixes[i]| == 4 && Upper(ValidPrefixes[i]) == ValidPrefixes[i]
  {
  }

  /** What a valid raw identifier looks like, read independently of the
      validator: a known prefix in any letter case followed by at least one
      decimal digit and nothing else. */
  ghost predicate WellFormedId(raw: string) {
    && |raw| > 4
    && Upper(raw[..4]) in ValidPrefixes
    && forall i :: 4 <= i < |raw| ==> IsDigit(raw[i])
  }

  /** `validate_id`: the upper-cased first four characters must be a listed
      prefix and the rest must be decimal; the normalised id is returned,
      otherwise the run aborts naming what it saw. */
  function ValidateId(raw: string): (r: Result<string, Fault>)
    ensures r.Ok? <==> WellFormedId(raw)
    ensures r.Ok? ==> |raw| > 4 && r.value == Upper(raw[..4]) + raw[4..]
    ensures r.Err? ==> r.error == UnknownId(Upper(Take(raw, 4)) + Drop(raw, 4))
  {
    var first := Upper(Take(raw, 4));
    var last := Drop(raw, 4);
    PrefixesAreFourUpperLetters();
    if first in ValidPrefixes && IsDecimal(last) then Ok(first + last)
    else Err(UnknownId(first + last))
  }

  /** Validation is idempotent: a normalised id validates to itself, and
      the letter case of the prefix does not matter. */
  lemma {:induction false} ValidateIdIdempotent(raw: string)
    requires ValidateId(raw).Ok?
    ensures ValidateId(ValidateId(raw).value) == ValidateId(raw)
  {
    var v := ValidateId(raw).value;
    assert v[..4] == Upper(raw[..4]);
    assert v[4..] == raw[4..];
    UpperIdempotent(raw[..4]);
  }

  /** Every listed prefix followed by a five-digit number is accepted as is. */
  lemma {:induction false} ListedPrefixAccepted(prefix: string, digits: string)
    requires prefix in ValidPrefixes
    requires |digits| == 5 && AllDigits(digits)
    ensures ValidateId(prefix + digits) == Ok(prefix + digits)
  {
    PrefixesAreFourUpperLetters();
    var raw := prefix + digits;
    assert raw[..4] == prefix;
    assert raw[4..] == digits;
  }

  /** `validate_id` followed by its `add_game_id`: the id list grows by the
      normalised id or the run aborts with the list untouched. */
  function AddValidatedId(ids: seq<string>, raw: string): (r: Result<seq<string>, Fault>)
    ensures r.Ok? <==> WellFormedId(raw)
    ensures r.Ok? ==> r.value == ids + [Upper(raw[..4]) + raw[4..]]
  {
    match ValidateId(raw)
    case Ok(id) => Ok(ids + [id])
    case Err(e) => Err(e)
  }

  /** `parse_game_ids`. `catalog` is `Some(keys)` when the argument names an
      existing file whose last path component is `games.yml`, holding the
      top-level keys of that YAML document in order; otherwise `None`. */
  function ParseGameIds(ids: seq<string>, arg: string, catalog: Option<seq<string>>): (r: Result<seq<string>, Fault>)
    ensures catalog.Some? ==> r == Ok(ids + catalog.value)
    ensures catalog.None? && |arg| == 9 ==> r == AddValidatedId(ids, arg)
    ensures catalog.None? && |arg| != 9 ==> r == Err(InvalidArgument)
  {
    if catalog.Some? then Ok(ids + catalog.value)
    else if |arg| == 9 then AddValidatedId(ids, arg)
    else Err(InvalidArgument)
  }

  /** Outside the catalog path, a successful dispatch added exactly one
      identifier: a listed upper-case prefix followed by five digits. */
  lemma {:induction false} ParseGameIdsSingle(ids: seq<string>, arg: string)
    requires ParseGameIds(ids, arg, None).Ok?
    ensures var r := ParseGameIds(ids, arg, None).value;
      && |r| == |ids| + 1 && r[..|ids|] == ids
      && |r[|ids|]| == 9
      && r[|ids|][..4] in ValidPrefixes
      && AllDigits(r[|ids|][4..])
  {
    var id := Upper(arg[..4]) + arg[4..];
    assert id[..4] == Upper(arg[..4]);
    assert id[4..] == arg[4..];
    assert ParseGameIds(ids, arg, None).value == ids + [id];
  }

  /** The argument `games.yml` itself, when no such file exists, is judged
      as a nine-character identifier and rejected. */
  lemma MissingCatalogRejected(ids: seq<string>)
    ensures ParseGameIds(ids, CatalogName, None) == Err(UnknownId("GAMEs.yml"))
  {
    assert Take(CatalogName, 4) == "game";
    assert Drop(CatalogName, 4) == "s.yml";
    assert Upper("game") == "GAME";
    assert "GAME" !in ValidPrefixes;
    assert "GAME" + "s.yml" == "GAMEs.yml";
  }
}
