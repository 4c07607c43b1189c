/** The build as the command runs it: list the countries directory, load
    the base dataset, every listed country and the names document, and
    aggregate them. The file system is a map from file name to parsed
    document; a missing file aborts the whole build. */
module Pipeline {
  import opened Document
  import opened StringOrder
  import opened CountryList
  import opened Aggregate

  /** Code of the base dataset, `0.yaml`. */
  const BaseCode: string := "0"

  datatype LoadError =
    | CountryFileMissing(file: string)
    | NamesFileMissing

  /** `load(cc)`: the document parsed from `<cc>.yaml`. */
  function Load(files: map<string, Doc>, code: string): Result<Doc, LoadError>
  {
    var f := FileName(code);
    if f in files then Ok(files[f]) else Err(CountryFileMissing(f))
  }

  /** Loading every listed country in order, stopping at the first file
      that is missing. */
  function LoadAll(files: map<string, Doc>, list: seq<string>): (r: Result<seq<Doc>, LoadError>)
    ensures r.Ok? <==> forall i :: 0 <= i < |list| ==> FileName(list[i]) in files
    ensures r.Ok? ==> (
      && |r.value| == |list|
      && forall i :: 0 <= i < |list| ==> r.value[i] == files[FileName(list[i])])
    ensures r.Err? ==> exists j :: (
      && 0 <= j < |list|
      && FileName(list[j]) !in files
      && r.error == CountryFileMissing(FileName(list[j]))
      && forall i :: 0 <= i < j ==> FileName(list[i]) in files)
  {
    if |list| == 0 then Ok([])
    else
      match Load(files, list[0])
      case Err(e) => Err(e)
      case Ok(d) =>
        match LoadAll(files, list[1..])
        case Err(e) =>
          ghost var j :| 0 <= j < |list[1..]| && FileName(list[1..][j]) !in files &&
                         e == CountryFileMissing(FileName(list[1..][j])) &&
                         forall i :: 0 <= i < j ==> FileName(list[1..][i]) in files;
          assert FileName(list[j + 1]) !in files;
          Err(e)
        case Ok(ds) => Ok([d] + ds)
  }

  /** `build` on a given country list: load the base, the countries and
      the names document, in that order, then aggregate. */
  function BuildFromFiles(files: map<string, Doc>, list: seq<string>, names: Option<Doc>,
                          opts: Options, now: string): (r: Result<Doc, LoadError>)
    ensures r.Ok? <==> (
      && FileName(BaseCode) in files
      && names.Some?
      && forall i :: 0 <= i < |list| ==> FileName(list[i]) in files)
    ensures FileName(BaseCode) !in files ==> r == Err(CountryFileMissing(FileName(BaseCode)))
    ensures r.Ok? ==> exists countries: seq<Doc> ::
              |countries| == |list| &&
              (forall i :: 0 <= i < |list| ==> countries[i] == files[FileName(list[i])]) &&
              r.value == Build(files[FileName(BaseCode)], countries, names.value, opts, now)
  {
    match Load(files, BaseCode)
    case Err(e) => Err(e)
    case Ok(base) =>
      match LoadAll(files, list)
      case Err(e) => Err(e)
      case Ok(countries) =>
        match names
        case None => Err(NamesFileMissing)
        case Some(n) => Ok(Build(base, countries, n, opts, now))
  }

  /** `new Holidays2json(opts).getList().build()`: the country list is the
      sorted codes of the directory listing `dir`. */
  function Run(dir: seq<string>, files: map<string, Doc>, names: Option<Doc>,
               opts: Options, now: string): Result<Doc, LoadError>
  {
    BuildFromFiles(files, GetList(dir), names, opts, now)
  }

  /** When the listing names only files that exist, the base file exists
      and the names document is there, the build cannot fail. */
  lemma RunSucceeds(dir: seq<string>, files: map<string, Doc>, names: Option<Doc>,
                    opts: Options, now: string)
    requires forall f :: f in dir ==> f in files
    requires FileName(BaseCode) in files && names.Some?
    ensures Run(dir, files, names, opts, now).Ok?
  {
    var list := GetList(dir);
    forall i | 0 <= i < |list|
      ensures FileName(list[i]) in files
    {
      assert list[i] in list;
    }
  }

  /** The base dataset `0.yaml` never takes part as a country. */
  lemma BaseIsNotACountry(dir: seq<string>)
    ensures BaseCode !in GetList(dir)
  {
    assert !IsUpper(BaseCode[0]);
  }

  /** Collision resolution on the sorted list: among the listed countries
      defining holiday `k`, the one with the greatest code wins. */
  lemma GreatestCodeWins(dir: seq<string>, files: map<string, Doc>, names: Doc,
                         opts: Options, now: string, k: string, c: string)
    requires Distinct(dir)
    requires forall f :: f in dir ==> f in files
    requires FileName(BaseCode) in files
    requires HolidaysKey !in names
    requires c in GetList(dir) && k in HolidaysOf(files[FileName(c)])
    requires forall d :: d in GetList(dir) && k in HolidaysOf(files[FileName(d)]) ==> LessEq(d, c)
    ensures Run(dir, files, Some(names), opts, now).Ok?
    ensures var h := Run(dir, files, Some(names), opts, now).value[HolidaysKey];
            h.Obj? &&
            (k in h.fields ==> h.fields[k] == HolidaysOf(files[FileName(c)])[k]) &&
            (opts.pick.None? && opts.omit.None? ==> k in h.fields)
  {
    var list := GetList(dir);
    RunSucceeds(dir, files, Some(names), opts, now);
    GetListStrict(dir);
    var r := Run(dir, files, Some(names), opts, now);
    var countries: seq<Doc> :| |countries| == |list| &&
      (forall i :: 0 <= i < |list| ==> countries[i] == files[FileName(list[i])]) &&
      r.value == Build(files[FileName(BaseCode)], countries, names, opts, now);
    var j :| 0 <= j < |list| && list[j] == c;
    forall i | j < i < |countries|
      ensures k !in HolidaysOf(countries[i])
    {
      if k in HolidaysOf(countries[i]) {
        assert list[i] in list;
        assert LessEq(list[i], c);
        AntiSymmetric(list[i], c);
      }
    }
    LastDefinitionWins(countries, k, j);
    BuildHolidays(files[FileName(BaseCode)], countries, names, opts, now);
  }
}
