/** `build`: the aggregate document made from the base dataset, the
    countries' `holidays` mappings, the names document, the pick/omit
    filter and the version stamp. Loading is done by the caller (see
    module Pipeline); here every dataset is already a parsed document. */
module Aggregate {
  import opened Document
  import Version

  const HolidaysKey: string := "holidays"
  const VersionKey: string := "version"

  /** What a country document hands to `Object.assign`: the entries of its
      `holidays` object, or nothing when it has none. */
  function HolidaysOf(doc: Doc): map<string, Value>
  {
    if HolidaysKey in doc && doc[HolidaysKey].Obj? then doc[HolidaysKey].fields else map[]
  }

  /** True when some country in the list defines holiday `k`. */
  ghost predicate DefinedBySome(countries: seq<Doc>, k: string)
  {
    exists i :: 0 <= i < |countries| && k in HolidaysOf(countries[i])
  }

  /** The union of the countries' holiday names. */
  function DefinedKeys(countries: seq<Doc>): set<string>
  {
    if |countries| == 0 then {}
    else DefinedKeys(countries[..|countries| - 1]) + HolidaysOf(countries[|countries| - 1]).Keys
  }

  lemma {:induction false} DefinedKeysMeaning(countries: seq<Doc>, k: string)
    ensures k in DefinedKeys(countries) <==> DefinedBySome(countries, k)
  {
    if |countries| > 0 {
      var init := countries[..|countries| - 1];
      DefinedKeysMeaning(init, k);
      if DefinedBySome(init, k) {
        var i :| 0 <= i < |init| && k in HolidaysOf(init[i]);
        assert countries[i] == init[i];
      }
      if DefinedBySome(countries, k) {
        var i :| 0 <= i < |countries| && k in HolidaysOf(countries[i]);
        if i < |init| {
          assert countries[i] == init[i];
        }
      }
    }
  }

  /** The emptied base `holidays` after `Object.assign` of every country's
      mapping, in list order: it holds exactly the holiday names some
      country defines. */
  function MergeHolidays(countries: seq<Doc>): (r: map<string, Value>)
    ensures r.Keys == DefinedKeys(countries)
  {
    if |countries| == 0 then map[]
    else MergeHolidays(countries[..|countries| - 1]) + HolidaysOf(countries[|countries| - 1])
  }

  /** The merged `holidays` holds a key exactly when some listed country
      defines it. */
  lemma MergedKeysAreDefinedKeys(countries: seq<Doc>, k: string)
    ensures k in MergeHolidays(countries) <==> DefinedBySome(countries, k)
  {
    DefinedKeysMeaning(countries, k);
  }

  /** On a key collision the country latest in the list wins: the merged
      entry is the definition of the last country defining the key. */
  lemma {:induction false} LastDefinitionWins(countries: seq<Doc>, k: string, j: int)
    requires 0 <= j < |countries| && k in HolidaysOf(countries[j])
    requires forall i :: j < i < |countries| ==> k !in HolidaysOf(countries[i])
    ensures k in MergeHolidays(countries)
    ensures MergeHolidays(countries)[k] == HolidaysOf(countries[j])[k]
  {
    var n := |countries|;
    var init := countries[..n - 1];
    MergeStep(countries, k);
    if j < n - 1 {
      assert init[j] == countries[j];
      forall i | j < i < |init|
        ensures k !in HolidaysOf(init[i])
      {
        assert init[i] == countries[i];
      }
      LastDefinitionWins(init, k, j);
    }
  }

  /** One `Object.assign` step, seen from a single key. */
  lemma MergeStep(countries: seq<Doc>, k: string)
    requires |countries| > 0
    ensures var merged := MergeHolidays(countries);
            var before := MergeHolidays(countries[..|countries| - 1]);
            var last := HolidaysOf(countries[|countries| - 1]);
            && (k in merged <==> k in before || k in last)
            && (k in last ==> merged[k] == last[k])
            && (k !in last && k in before ==> merged[k] == before[k])
  {
  }

  /** A holiday only one country defines keeps that country's
      definition, wherever the country stands in the list. */
  lemma SoleDefinitionKept(countries: seq<Doc>, k: string, j: int)
    requires 0 <= j < |countries| && k in HolidaysOf(countries[j])
    requires forall i :: 0 <= i < |countries| && i != j ==> k !in HolidaysOf(countries[i])
    ensures k in MergeHolidays(countries)
    ensures MergeHolidays(countries)[k] == HolidaysOf(countries[j])[k]
  {
    LastDefinitionWins(countries, k, j);
  }

  /** The `pick` and `omit` options. A list given is acted on even when it
      is empty (an array is always truthy); `None` is an absent option. */
  datatype Options = Options(pick: Option<seq<string>>, omit: Option<seq<string>>)

  /** Every entry of `r` is an entry of `m`. */
  ghost predicate Submap(r: map<string, Value>, m: map<string, Value>)
  {
    forall k :: k in r ==> k in m && r[k] == m[k]
  }

  /** `_.pick(holidays, keys)`: the entries whose key is listed. A holidays
      value that is not an object has none of the listed keys. */
  function Pick(h: Value, keys: seq<string>): (r: Value)
    ensures r.Obj?
    ensures h.Obj? ==> Submap(r.fields, h.fields)
    ensures h.Obj? ==> forall k :: k in r.fields <==> k in h.fields && k in keys
    ensures !h.Obj? ==> r.fields == map[]
  {
    match h
    case Obj(m) => Obj(map k | k in m && k in keys :: m[k])
    case _ => Obj(map[])
  }

  /** `_.omit(holidays, keys)`: the entries whose key is not listed. */
  function Omit(h: Value, keys: seq<string>): (r: Value)
    ensures r.Obj?
    ensures h.Obj? ==> Submap(r.fields, h.fields)
    ensures h.Obj? ==> forall k :: k in r.fields <==> k in h.fields && k !in keys
    ensures !h.Obj? ==> r.fields == map[]
  {
    match h
    case Obj(m) => Obj(map k | k in m && k !in keys :: m[k])
    case _ => Obj(map[])
  }

  /** Picking and omitting the same keys split a holidays object in two:
      no entry lands in both halves and together they give it back. */
  lemma PickOmitPartition(m: map<string, Value>, keys: seq<string>)
    ensures Pick(Obj(m), keys).fields.Keys !! Omit(Obj(m), keys).fields.Keys
    ensures Pick(Obj(m), keys).fields + Omit(Obj(m), keys).fields == m
  {
  }

  /** The holidays value the filter works on: the merged countries, unless
      the names document replaced it. */
  function Unfiltered(countries: seq<Doc>, names: Doc): Value
  {
    if HolidaysKey in names then names[HolidaysKey] else Obj(MergeHolidays(countries))
  }

  /** `build`, with the loaded documents and the clock reading as inputs. */
  function Build(base: Doc, countries: seq<Doc>, names: Doc, opts: Options, now: string): (r: Doc)
    ensures r.Keys == base.Keys + names.Keys + {HolidaysKey, VersionKey}
    ensures r[VersionKey] == Scalar(Version.DatePart(now))
    ensures forall k :: k in r && k != HolidaysKey && k != VersionKey ==>
              r[k] == if k in names then names[k] else base[k]
    ensures opts.pick.Some? ==> r[HolidaysKey] == Pick(Unfiltered(countries, names), opts.pick.value)
    ensures opts.pick.None? && opts.omit.Some? ==>
              r[HolidaysKey] == Omit(Unfiltered(countries, names), opts.omit.value)
    ensures opts.pick.None? && opts.omit.None? ==> r[HolidaysKey] == Unfiltered(countries, names)
  {
    var seeded := base[HolidaysKey := Obj(MergeHolidays(countries))];
    var overlaid := seeded + names;
    var filtered :=
      if opts.pick.Some? then overlaid[HolidaysKey := Pick(overlaid[HolidaysKey], opts.pick.value)]
      else if opts.omit.Some? then overlaid[HolidaysKey := Omit(overlaid[HolidaysKey], opts.omit.value)]
      else overlaid;
    filtered[VersionKey := Scalar(Version.DatePart(now))]
  }

  /** When the names document leaves `holidays` alone, the aggregate holds
      only holidays some country defines, each with the definition of the
      last country defining it, and exactly those the filter keeps. */
  lemma BuildHolidays(base: Doc, countries: seq<Doc>, names: Doc, opts: Options, now: string)
    requires HolidaysKey !in names
    ensures var h := Build(base, countries, names, opts, now)[HolidaysKey];
      && h.Obj?
      && Submap(h.fields, MergeHolidays(countries))
      && (forall k :: k in h.fields ==> DefinedBySome(countries, k))
      && (forall k :: k in h.fields <==>
            DefinedBySome(countries, k) &&
            (if opts.pick.Some? then k in opts.pick.value
             else opts.omit.Some? ==> k !in opts.omit.value))
  {
    forall k
      ensures k in DefinedKeys(countries) <==> DefinedBySome(countries, k)
    {
      DefinedKeysMeaning(countries, k);
    }
  }

  /** The base document's own `holidays` never reaches the aggregate. */
  lemma BaseHolidaysDiscarded(base: Doc, countries: seq<Doc>, names: Doc, opts: Options, now: string, h: Value)
    ensures Build(base, countries, names, opts, now) ==
            Build(base[HolidaysKey := h], countries, names, opts, now)
  {
  }

  /** When `pick` is given, `omit` has no effect. */
  lemma PickOverridesOmit(base: Doc, countries: seq<Doc>, names: Doc, p: seq<string>,
                          o1: Option<seq<string>>, o2: Option<seq<string>>, now: string)
    ensures Build(base, countries, names, Options(Some(p), o1), now) ==
            Build(base, countries, names, Options(Some(p), o2), now)
  {
  }
}
