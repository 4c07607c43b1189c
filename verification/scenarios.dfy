/** Worked examples: small concrete documents pushed through the model,
    fixing the behaviour on the cases users of the build ask about. */
module Scenarios {
  import opened Document
  import opened WordMatch
  import opened Features
  import opened FeatureFacts
  import opened Aggregate
  import Version

  /** A `days` object whose only key is "Ramadan" clears `noislamic` and
      nothing else. */
  lemma RamadanClearsIslamicOnly()
    ensures Evidence(Obj(map[DaysKey := Obj(map["Ramadan" := Obj(map[])])])) == {NoIslamic}
  {
    var v := Obj(map[DaysKey := Obj(map["Ramadan" := Obj(map[])])]);
    RamadanIsIslamic();
    assert ReachableDaysKey(v, "Ramadan");
    forall f
      ensures f in Evidence(v) <==> f == NoIslamic
    {
      EvidenceIsReachableNames(v, f);
    }
  }

  lemma RamadanIsIslamic()
    ensures ClassifyKey("Ramadan") == Some(NoIslamic)
  {
    assert WholeWordAt("Ramadan", IslamicMonths[8], 0);
  }

  /** A key naming two calendars clears only the higher-priority one. */
  lemma IslamicBeatsJulian()
    ensures ClassifyKey("julian Ramadan") == Some(NoIslamic)
  {
    assert "julian Ramadan"[7..14] == IslamicMonths[8];
    assert WholeWordAt("julian Ramadan", IslamicMonths[8], 7);
  }

  /** A keyword inside a longer word is not a whole word. */
  lemma EmbeddedKeywordIgnored()
    ensures ClassifyKey("Megajulianfest").None?
  {
    NotAKeyword("Megajulianfest");
  }

  /** Matching is case-sensitive. */
  lemma CapitalisedKeywordIgnored()
    ensures ClassifyKey("Julian").None?
  {
    NotAKeyword("Julian");
  }

  lemma NotAKeyword(key: string)
    requires IsToken(key)
    requires key !in IslamicMonths && key !in JulianWords && key !in ChineseWords
    requires key !in EquinoxWords && key !in HebrewMonths
    ensures ClassifyKey(key).None?
  {
    forall f
      ensures key !in Keywords(f)
    {
      match f
      case NoIslamic =>
      case NoJulian =>
      case NoChinese =>
      case NoEquinox =>
      case NoHebrew =>
    }
    TokenKeyNamesNothing(key);
  }

  /** A document whose only `days` key is "RegularDay" keeps all five
      flags. */
  lemma UnrecognisedDayKeepsAllFlags()
    ensures Evidence(Obj(map["US" := Obj(map[DaysKey := Obj(map["RegularDay" := Obj(map[])])])])) == {}
  {
    var v := Obj(map["US" := Obj(map[DaysKey := Obj(map["RegularDay" := Obj(map[])])])]);
    NotAKeyword("RegularDay");
    forall k | ReachableDaysKey(v, k)
      ensures ClassifyKey(k).None?
    {
      assert ReachableDaysKey(v.fields["US"], k);
      assert k == "RegularDay";
    }
    NothingNamedKeepsAllFlags(v);
  }

  /** In an aggregate, `days` sits at `holidays.<code>.days`; what its
      entries hold (here: anything, even a nested `days` naming Julian
      dates) never matters. */
  lemma NestedDaysValuesIgnored(x: Value, y: Value)
    ensures var tree := (d: Value) => Obj(map[HolidaysKey := Obj(map["SA" :=
              Obj(map[DaysKey := Obj(map["Ramadan" := d])])])]);
            Evidence(tree(x)) == Evidence(tree(Obj(map[DaysKey := Obj(map["julian 12-25" := y])])))
  {
    var tree := (d: Value) => Obj(map[HolidaysKey := Obj(map["SA" :=
                  Obj(map[DaysKey := Obj(map["Ramadan" := d])])])]);
    var v, w := tree(x), tree(Obj(map[DaysKey := Obj(map["julian 12-25" := y])]));
    assert SameOutsideDays(v.fields[HolidaysKey].fields["SA"], w.fields[HolidaysKey].fields["SA"]);
    assert SameOutsideDays(v.fields[HolidaysKey], w.fields[HolidaysKey]);
    DaysValuesNotInspected(v, w);
  }

  const Today: string := "2024-05-01T10:20:30.000Z"

  const BaseDoc: Doc := map[HolidaysKey := Obj(map[]), "region" := Scalar("world")]
  const NamesDoc: Doc := map["title" := Scalar("Holidays")]

  /** A country document defining one holiday. */
  function Country(name: string, rule: Value): Doc
  {
    map[HolidaysKey := Obj(map[name := rule])]
  }

  lemma TodayIsStamped()
    ensures Version.DatePart(Today) == "2024-05-01"
  {
    var date, time := "2024-05-01", "10:20:30.000Z";
    assert Version.NoLineTerminator(date) && Version.NoLineTerminator(time) && 'T' !in time;
    Version.DatePartOfTimestamp(date, time);
    assert Today == date + "T" + time;
  }

  lemma TwoCountriesMerged(a: string, ra: Value, b: string, rb: Value)
    requires a != b
    ensures MergeHolidays([Country(a, ra), Country(b, rb)]) == map[a := ra, b := rb]
  {
    var cs := [Country(a, ra), Country(b, rb)];
    assert cs[..1] == [Country(a, ra)];
    assert MergeHolidays(cs[..1]) == map[a := ra];
  }

  /** With no filter, the aggregate of France's Bastille Day and the
      United States' Independence Day has the base's fields, the names
      document's fields, both holidays and the date stamp (for a clock
      reading such as Today). */
  lemma TwoCountriesUnfiltered(now: string, bastille: Value, independence: Value)
    requires Version.DatePart(now) == "2024-05-01"
    ensures var r := Build(BaseDoc, [Country("BastilleDay", bastille), Country("Independence", independence)],
                           NamesDoc, Options(None, None), now);
            && r.Keys == {"region", "title", HolidaysKey, VersionKey}
            && r["region"] == Scalar("world")
            && r["title"] == Scalar("Holidays")
            && r[HolidaysKey] == Obj(map["BastilleDay" := bastille, "Independence" := independence])
            && r[VersionKey] == Scalar("2024-05-01")
  {
    TwoCountriesMerged("BastilleDay", bastille, "Independence", independence);
  }

  /** `pick` selects keys of the merged holidays mapping: picking "FR"
      when the mapping is keyed by holiday name selects nothing. */
  lemma PickSelectsKeysNotOwners(now: string, bastille: Value, independence: Value)
    ensures Build(BaseDoc, [Country("BastilleDay", bastille), Country("Independence", independence)],
                  NamesDoc, Options(Some(["FR"]), None), now)[HolidaysKey] == Obj(map[])
  {
    TwoCountriesMerged("BastilleDay", bastille, "Independence", independence);
    var h := map["BastilleDay" := bastille, "Independence" := independence];
    assert Pick(Obj(h), ["FR"]).fields.Keys == {};
  }

  /** When each country file keys its `holidays` mapping by its own
      country code, `pick` does select countries. */
  lemma PickSelectsCountryWhenKeyedByCode(now: string, fr: Value, us: Value)
    ensures Build(BaseDoc, [Country("FR", fr), Country("US", us)],
                  NamesDoc, Options(Some(["FR"]), None), now)[HolidaysKey] == Obj(map["FR" := fr])
  {
    TwoCountriesMerged("FR", fr, "US", us);
    var h := map["FR" := fr, "US" := us];
    assert Pick(Obj(h), ["FR"]).fields.Keys == {"FR"};
  }
}
