/** `dive`: the walk over the aggregate that finds which rare calendars
    the holiday rules use. It starts from all five "no..." flags and
    deletes a flag when a key of some `days` object names that calendar;
    the remaining flags tell the code generator what it may compile out. */
module Features {
  import opened Document
  import opened WordMatch

  datatype Flag = NoJulian | NoHebrew | NoIslamic | NoChinese | NoEquinox

  /** The accumulator `dive` starts from when none is passed. */
  const AllFlags: set<Flag> := {NoJulian, NoHebrew, NoIslamic, NoChinese, NoEquinox}

  /** The key whose object's keys are inspected instead of walked. */
  const DaysKey: string := "days"

  const IslamicMonths: seq<string> :=
    ["Muharram", "Safar", "Rabi al-awwal", "Rabi al-thani", "Jumada al-awwal", "Jumada al-thani",
     "Rajab", "Shaban", "Ramadan", "Shawwal", "Dhu al-Qidah", "Dhu al-Hijjah"]
  const JulianWords: seq<string> := ["julian"]
  const ChineseWords: seq<string> := ["chinese", "vietnamese", "korean"]
  const EquinoxWords: seq<string> := ["equinox", "solstice"]
  const HebrewMonths: seq<string> :=
    ["Nisan", "Iyyar", "Sivan", "Tamuz", "Av", "Elul", "Tishrei", "Cheshvan", "Kislev", "Tevet",
     "Shvat", "Adar"]

  /** The alternatives of the pattern that deletes flag `f`. */
  function Keywords(f: Flag): seq<string>
  {
    match f
    case NoIslamic => IslamicMonths
    case NoJulian => JulianWords
    case NoChinese => ChineseWords
    case NoEquinox => EquinoxWords
    case NoHebrew => HebrewMonths
  }

  /** The order in which the patterns are tried. */
  function Rank(f: Flag): nat
  {
    match f
    case NoIslamic => 0
    case NoJulian => 1
    case NoChinese => 2
    case NoEquinox => 3
    case NoHebrew => 4
  }

  /** A `days` key names the calendar of flag `f` as a whole word. */
  predicate Mentions(key: string, f: Flag)
  {
    MatchesAny(key, Keywords(f))
  }

  /** The flag one `days` key deletes: that of the first pattern in the
      if-else chain that matches, or none. */
  function ClassifyKey(key: string): (r: Option<Flag>)
    ensures r.Some? ==> Mentions(key, r.value)
    ensures r.Some? ==> forall g :: Rank(g) < Rank(r.value) ==> !Mentions(key, g)
    ensures r.None? ==> forall g :: !Mentions(key, g)
  {
    if MatchesAny(key, IslamicMonths) then Some(NoIslamic)
    else if MatchesAny(key, JulianWords) then Some(NoJulian)
    else if MatchesAny(key, ChineseWords) then Some(NoChinese)
    else if MatchesAny(key, EquinoxWords) then Some(NoEquinox)
    else if MatchesAny(key, HebrewMonths) then Some(NoHebrew)
    else
      NoFamilyMentioned(key);
      None
  }

  lemma NoFamilyMentioned(key: string)
    requires !MatchesAny(key, IslamicMonths) && !MatchesAny(key, JulianWords)
    requires !MatchesAny(key, ChineseWords) && !MatchesAny(key, EquinoxWords)
    requires !MatchesAny(key, HebrewMonths)
    ensures forall g :: !Mentions(key, g)
  {
    forall g
      ensures !Mentions(key, g)
    {
      match g
      case NoIslamic =>
      case NoJulian =>
      case NoChinese =>
      case NoEquinox =>
      case NoHebrew =>
    }
  }

  /** One iteration over a `days` key: deletes at most one flag, the
      highest-priority calendar the key names. */
  function ClearForKey(macros: set<Flag>, key: string): (r: set<Flag>)
    ensures r <= macros
    ensures forall f, g :: f in macros - r && g in macros - r ==> f == g
    ensures forall f :: f in macros - r ==>
              Mentions(key, f) && forall g :: Rank(g) < Rank(f) ==> !Mentions(key, g)
    ensures forall f :: (
      && f in macros
      && Mentions(key, f)
      && forall g :: Rank(g) < Rank(f) ==> !Mentions(key, g)) ==> f !in r
  {
    match ClassifyKey(key)
    case None => macros
    case Some(f) =>
      RankInjective(f);
      macros - {f}
  }

  lemma RankInjective(f: Flag)
    ensures forall g :: Rank(g) == Rank(f) ==> g == f
  {
  }

  /** The keys `Object.keys` yields for a `days` value. An array or a
      string has only decimal index keys, which name no calendar (see
      FeatureFacts.LetterlessKeyNamesNothing); a scalar has none. */
  function DaysKeys(days: Value): set<string>
  {
    if days.Obj? then days.fields.Keys else {}
  }

  /** Flags named by some key in `keys`. */
  ghost function KeysEvidence(keys: set<string>): set<Flag>
  {
    set f | f in AllFlags && exists k :: k in keys && ClassifyKey(k) == Some(f)
  }

  /** The flags a walk over `v` deletes: those named by a key of a `days`
      object reachable from `v` through objects only. */
  ghost function Evidence(v: Value): set<Flag>
    decreases v, 2
  {
    match v
    case Obj(m) => FieldsEvidence(m, m.Keys)
    case _ => {}
  }

  /** The flags deleted while handling the keys `ks` of object `m`. */
  ghost function FieldsEvidence(m: map<string, Value>, ks: set<string>): set<Flag>
    decreases Obj(m), 1
  {
    set f | f in AllFlags && exists k :: k in ks && k in m && f in FieldEvidence(k, m[k])
  }

  /** The flags deleted while handling one key: the `days` object's keys
      are classified, any other value is walked. */
  ghost function FieldEvidence(k: string, v: Value): set<Flag>
    decreases v, 3
  {
    if k == DaysKey then KeysEvidence(DaysKeys(v)) else Evidence(v)
  }

  lemma KeysEvidenceAdd(done: set<string>, key: string)
    ensures KeysEvidence(done + {key}) ==
            KeysEvidence(done) + (if ClassifyKey(key).Some? then {ClassifyKey(key).value} else {})
  {
    var extra: set<Flag> := if ClassifyKey(key).Some? then {ClassifyKey(key).value} else {};
    forall f | f in KeysEvidence(done + {key})
      ensures f in KeysEvidence(done) + extra
    {
      var k :| k in done + {key} && ClassifyKey(k) == Some(f);
    }
  }

  lemma FieldsEvidenceAdd(m: map<string, Value>, done: set<string>, key: string)
    requires key in m
    ensures FieldsEvidence(m, done + {key}) == FieldsEvidence(m, done) + FieldEvidence(key, m[key])
  {
    forall f | f in FieldsEvidence(m, done + {key})
      ensures f in FieldsEvidence(m, done) + FieldEvidence(key, m[key])
    {
      var k :| k in done + {key} && k in m && f in FieldEvidence(k, m[k]);
    }
    forall f | f in FieldEvidence(key, m[key])
      ensures f in AllFlags
    {
      FlagInAll(f);
    }
  }

  lemma FlagInAll(f: Flag)
    ensures f in AllFlags
  {
  }

  /** The inner `forEach` over the keys of a `days` object, in whatever
      order the keys come. */
  method ClearDays(days: Value, macros: set<Flag>) returns (r: set<Flag>)
    ensures r == macros - KeysEvidence(DaysKeys(days))
  {
    r := macros;
    var todo := DaysKeys(days);
    ghost var done: set<string> := {};
    while todo != {}
      invariant todo + done == DaysKeys(days) && todo !! done
      invariant r == macros - KeysEvidence(done)
      decreases todo
    {
      var key :| key in todo;
      r := ClearForKey(r, key);
      KeysEvidenceAdd(done, key);
      todo := todo - {key};
      done := done + {key};
    }
  }

  /** `dive(data, macros)`: the flags of `macros` for which the walk finds
      no evidence. Keys are visited in whatever order they come, and
      the result is the same for every order. */
  method Dive(data: Value, macros: set<Flag>) returns (r: set<Flag>)
    ensures r == macros - Evidence(data)
    ensures r <= macros
    ensures !data.Obj? ==> r == macros
    decreases data
  {
    r := macros;
    match data {
      case Obj(m) =>
        var todo := m.Keys;
        ghost var done: set<string> := {};
        while todo != {}
          invariant todo + done == m.Keys && todo !! done
          invariant r == macros - FieldsEvidence(m, done)
          decreases todo
        {
          var key :| key in todo;
          if key == DaysKey {
            r := ClearDays(m[key], r);
          } else {
            r := Dive(m[key], r);
          }
          FieldsEvidenceAdd(m, done, key);
          todo := todo - {key};
          done := done + {key};
        }
      case _ =>
    }
  }

  /** `dive(data)` as `prepin` calls it: starting from all five flags. */
  method Detect(data: Value) returns (r: set<Flag>)
    ensures r == AllFlags - Evidence(data)
  {
    r := Dive(data, AllFlags);
  }
}

module FeatureFacts {
  import opened Document
  import opened WordMatch
  import opened Features

  /** `k` is a key of a `days` object that the walk reaches: one hanging
      off an object reached from the root through non-`days` keys only. */
  ghost predicate ReachableDaysKey(v: Value, k: string)
    decreases v
  {
    match v
    case Obj(m) =>
      || (DaysKey in m && k in DaysKeys(m[DaysKey]))
      || exists j :: j in m && j != DaysKey && ReachableDaysKey(m[j], k)
    case _ => false
  }

  /** The walk deletes exactly the flags named by the reachable `days`
      keys: both directions, by induction over the document. */
  lemma {:induction false} EvidenceIsReachableNames(v: Value, f: Flag)
    ensures f in Evidence(v) <==> exists k :: ReachableDaysKey(v, k) && ClassifyKey(k) == Some(f)
    decreases v
  {
    match v
    case Obj(m) =>
      if f in Evidence(v) {
        assert f in FieldsEvidence(m, m.Keys);
        var j :| j in m && f in FieldEvidence(j, m[j]);
        if j == DaysKey {
          assert f in KeysEvidence(DaysKeys(m[j]));
          var k :| k in DaysKeys(m[j]) && ClassifyKey(k) == Some(f);
          assert ReachableDaysKey(v, k);
        } else {
          assert f in Evidence(m[j]);
          EvidenceIsReachableNames(m[j], f);
          var k :| ReachableDaysKey(m[j], k) && ClassifyKey(k) == Some(f);
          assert ReachableDaysKey(v, k);
        }
      }
      if exists k :: ReachableDaysKey(v, k) && ClassifyKey(k) == Some(f) {
        var k :| ReachableDaysKey(v, k) && ClassifyKey(k) == Some(f);
        FlagInAll(f);
        if DaysKey in m && k in DaysKeys(m[DaysKey]) {
          assert f in FieldEvidence(DaysKey, m[DaysKey]);
        } else {
          var j :| j in m && j != DaysKey && ReachableDaysKey(m[j], k);
          EvidenceIsReachableNames(m[j], f);
          assert f in FieldEvidence(j, m[j]);
        }
      }
    case _ =>
  }

  /** When no reachable `days` key names a calendar (in particular when
      the document has no `days` object at all), `dive` keeps all five
      flags. */
  lemma NothingNamedKeepsAllFlags(v: Value)
    requires forall k :: ReachableDaysKey(v, k) ==> ClassifyKey(k).None?
    ensures Evidence(v) == {}
  {
    forall f | f in Evidence(v)
      ensures false
    {
      EvidenceIsReachableNames(v, f);
    }
  }

  /** `v` and `w` are the same tree except, possibly, for what hangs
      under `days` keys: the same keys everywhere the walk goes, and
      `days` values with the same keys. */
  ghost predicate SameOutsideDays(v: Value, w: Value)
    decreases v
  {
    match v
    case Obj(m) =>
      && w.Obj?
      && w.fields.Keys == m.Keys
      && forall k :: k in m ==>
           if k == DaysKey then DaysKeys(m[k]) == DaysKeys(w.fields[k])
           else SameOutsideDays(m[k], w.fields[k])
    case _ => !w.Obj?
  }

  /** The values under a `days` key are never looked at, at any depth:
      replacing them, even by subtrees holding `days` objects of their
      own, changes nothing as long as their keys stay the same. */
  lemma {:induction false} DaysValuesNotInspected(v: Value, w: Value)
    requires SameOutsideDays(v, w)
    ensures Evidence(v) == Evidence(w)
    decreases v
  {
    match v
    case Obj(m) =>
      var n := w.fields;
      forall k | k in m
        ensures FieldEvidence(k, m[k]) == FieldEvidence(k, n[k])
      {
        if k != DaysKey {
          DaysValuesNotInspected(m[k], n[k]);
        }
      }
      forall f | f in FieldsEvidence(m, m.Keys)
        ensures f in FieldsEvidence(n, n.Keys)
      {
        var k :| k in m.Keys && k in m && f in FieldEvidence(k, m[k]);
        assert f in FieldEvidence(k, n[k]);
      }
      forall f | f in FieldsEvidence(n, n.Keys)
        ensures f in FieldsEvidence(m, m.Keys)
      {
        var k :| k in n.Keys && k in n && f in FieldEvidence(k, n[k]);
        assert f in FieldEvidence(k, m[k]);
      }
    case _ =>
  }

  /** A key made of one run of word characters names a calendar only if
      it is that calendar's keyword itself: "MegaJulianFest" or
      "RegularDay" name nothing. */
  lemma SingleTokenMatchesOnlyItself(s: string, w: string)
    requires IsToken(s) && |w| > 0
    ensures ContainsWord(s, w) <==> s == w
  {
    if ContainsWord(s, w) {
      var i :| 0 <= i <= |s| - |w| && WholeWordAt(s, w, i);
      assert IsToken(w) by {
        forall c | 0 <= c < |w| ensures IsWordChar(w[c]) {
          assert w[c] == s[i + c];
        }
      }
      ContainsWordIffToken(s, w);
      RunLengthOfToken(s);
      assert Tokens(s) == [s[..|s|]] + Tokens(s[|s|..]);
      assert Tokens(s[|s|..]) == [];
      assert s[..|s|] == s;
    }
    if s == w {
      assert s[0..|w|] == w;
      assert WholeWordAt(s, w, 0);
    }
  }

  /** A single-token key that is no keyword names nothing. */
  lemma TokenKeyNamesNothing(key: string)
    requires IsToken(key)
    requires forall f :: key !in Keywords(f)
    ensures ClassifyKey(key).None?
  {
    forall f, j | 0 <= j < |Keywords(f)|
      ensures !ContainsWord(key, Keywords(f)[j])
    {
      KeywordsStartWithLetter(f, j);
      SingleTokenMatchesOnlyItself(key, Keywords(f)[j]);
    }
  }

  lemma {:induction false} RunLengthOfToken(s: string)
    requires forall i :: 0 <= i < |s| ==> IsWordChar(s[i])
    ensures RunLength(s) == |s|
  {
    if |s| > 0 {
      RunLengthOfToken(s[1..]);
    }
  }

  predicate IsLetter(c: char)
  {
    ('A' <= c <= 'Z') || ('a' <= c <= 'z')
  }

  /** Every keyword starts with a letter. */
  lemma KeywordsStartWithLetter(f: Flag, j: int)
    requires 0 <= j < |Keywords(f)|
    ensures |Keywords(f)[j]| > 0 && IsLetter(Keywords(f)[j][0])
  {
  }

  /** A key without letters names no calendar. This covers plain dates
      such as "12-25" and the decimal index keys `Object.keys` yields for
      an array or string under `days`. */
  lemma LetterlessKeyNamesNothing(key: string)
    requires forall i :: 0 <= i < |key| ==> !IsLetter(key[i])
    ensures ClassifyKey(key).None?
  {
    forall f, j, i | 0 <= j < |Keywords(f)| && WholeWordAt(key, Keywords(f)[j], i)
      ensures false
    {
      KeywordsStartWithLetter(f, j);
    }
  }
}
