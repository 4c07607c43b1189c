# holidays2json, modelled in Dafny

`scripts/holidays2json.js` builds the single `holidays.json` file of the
date-holidays data set from per-country YAML files. This project models
its three pure parts and proves what they promise:

- **Country discovery** (`getList`). Take the names in the countries
  directory that match `^([A-Z]+)\.yaml$`, strip the extension and sort
  them. Modules `CountryList`, `Sorting` and `StringOrder`.
- **Aggregation** (`build`):
  - load the base dataset `0.yaml` and empty its `holidays`;
  - `Object.assign` every listed country's `holidays` into it, in list order;
  - overlay the names document on the top level;
  - apply `_.pick`, or failing that `_.omit`, to `holidays`;
  - stamp `version` with the date part of the current ISO timestamp.

  Module `Aggregate` covers this build; module `Version` covers the
  stamp; module `Pipeline` covers the loading and the
  `getList().build()` chain.
- **Feature detection** (`dive`). Walk the aggregate through objects
  only. At every `days` key, classify the keys of that object against
  five calendar keyword families, using whole-word, case-sensitive
  regular expressions tried in priority order. Delete the matching flag
  from `nojulian`, `nohebrew`, `noislamic`, `nochinese`, `noequinox`.
  Modules `WordMatch`, `Features` and `FeatureFacts`.

Module `Document` holds the JSON-like value type: objects, arrays and
leaf scalars. Module `Scenarios` pins the behaviour down on small
concrete documents.

Three modelling choices:

- The JavaScript default `sort()` is modelled as lexicographic order on
  characters. For codes made of `A`-`Z` this is the same as the UTF-16
  code-unit order the engine uses.
- `dive` iterates over a key set in an arbitrary order: the loop picks
  keys with `:|`. Since `Dive` meets its contract for every choice, its
  result does not depend on key order.
- The names document is an `Option<Doc>`, because the source loads it
  unconditionally and fails when it is absent.

Two behaviours of the code are easy to misread:

- **Filtering.** `pick` and `omit` filter the *keys* of the merged
  `holidays` mapping (lines 66 and 68). When each country file keys its
  `holidays` by its own country code, picking `FR` keeps France
  (`Scenarios.PickSelectsCountryWhenKeyedByCode`). When the mapping is
  keyed by holiday name, picking `FR` keeps nothing
  (`Scenarios.PickSelectsKeysNotOwners`).
- **Version.** `version` is the part of the ISO timestamp before its
  last `T` (line 71). The model takes the timestamp as input and applies
  the replacement `/^(.*)T.*$/` exactly. `Version.DatePartOfTimestamp`
  shows that a `<date>T<time>` timestamp is stamped `<date>`.

## Model

| member | source | states |
|---|---|---|
| StringOrder.AntiSymmetric | scripts/holidays2json.js:41 | the order `sort()` uses never ranks two different codes equal, so its outcome is determined |
| StringOrder.Transitive | scripts/holidays2json.js:41 | the sort order is transitive, so sorting is well defined |
| Sorting.Sort | scripts/holidays2json.js:41 | the sorted list is ascending and a permutation of its input |
| Sorting.SortedPermutationUnique | scripts/holidays2json.js:41 | two ascending permutations of the same codes are equal: sorting has one possible outcome |
| Sorting.SortedDistinctIsStrict | scripts/holidays2json.js:41 | a permutation of a duplicate-free list is duplicate-free |
| CountryList.Stem | scripts/holidays2json.js:33-37 | a name matching `^([A-Z]+)\.yaml$` yields a non-empty upper-case code whose file name is exactly that name; a name that is not a code's file name yields nothing |
| CountryList.StemOfFileName | scripts/holidays2json.js:11 | the pattern inverts `code + ".yaml"`: it gives back every capital-letter code and rejects every other code, e.g. `0` and `fr` |
| CountryList.Stems | scripts/holidays2json.js:32-40 | the map-then-filter keeps exactly the codes whose file name is listed, and never grows the list |
| CountryList.GetList | scripts/holidays2json.js:30-44 | `getList` is ascending, a permutation of the matched codes, and contains a code iff its `.yaml` file is in the listing |
| CountryList.GetListIsTheSortedStems | scripts/holidays2json.js:32-41 | any ascending arrangement of the matched codes is the list `getList` returns |
| CountryList.StemsDistinct | scripts/holidays2json.js:32-40 | distinct file names give distinct codes |
| CountryList.GetListStrict | scripts/holidays2json.js:30-44 | for a directory listing without repeats, the code list is strictly ascending |
| Version.DatePart | scripts/holidays2json.js:71 | the anchored greedy replacement cuts the timestamp at its last `T` when the text has a `T` and no line terminator, and otherwise leaves it unchanged |
| Version.DatePartOfTimestamp | scripts/holidays2json.js:71 | for a timestamp `<date>T<time>` with no `T` in the time, the stamp is `<date>` |
| Aggregate.MergeHolidays | scripts/holidays2json.js:58-62 | after the fold, `holidays` holds exactly the keys that some country's `holidays` defines |
| Aggregate.MergedKeysAreDefinedKeys | scripts/holidays2json.js:58-62 | the merged `holidays` holds a key iff some listed country defines it |
| Aggregate.DefinedKeysMeaning | scripts/holidays2json.js:60-62 | a key is among the merged keys iff some listed country defines it |
| Aggregate.LastDefinitionWins | scripts/holidays2json.js:60-62 | on a collision the value of the last country in list order that defines the key wins |
| Aggregate.MergeStep | scripts/holidays2json.js:61 | one `Object.assign` adds the country's keys, overwrites shared keys with the country's values and keeps the rest |
| Aggregate.SoleDefinitionKept | scripts/holidays2json.js:60-62 | a key that only one country defines keeps that country's value, wherever the country is in the list |
| Aggregate.Pick | scripts/holidays2json.js:65-66 | `_.pick` keeps exactly the holidays keys that are listed, with their values unchanged |
| Aggregate.Omit | scripts/holidays2json.js:67-68 | `_.omit` keeps exactly the holidays keys that are not listed, with their values unchanged |
| Aggregate.PickOmitPartition | scripts/holidays2json.js:65-68 | picking and omitting the same keys split the holidays into two disjoint halves whose union is the whole |
| Aggregate.Build | scripts/holidays2json.js:57-76 | the aggregate has the base's fields, the names fields, `holidays` and `version`. A names field replaces the base field of the same name. `holidays` is the merge, or the names document's own `holidays`, filtered by pick if given, else by omit, else unchanged. `version` is the stamp whatever the inputs held |
| Aggregate.BuildHolidays | scripts/holidays2json.js:57-69 | when the names document leaves `holidays` alone, the result holds a key iff some country defines it and the filter keeps it, each with its merged value |
| Aggregate.BaseHolidaysDiscarded | scripts/holidays2json.js:58-59 | the base dataset's own `holidays` has no influence on the aggregate |
| Aggregate.PickOverridesOmit | scripts/holidays2json.js:65-69 | when `pick` is given, `omit` is ignored |
| Pipeline.LoadAll | scripts/holidays2json.js:60-62 | loading succeeds iff every listed country's file exists, returning the documents in list order; otherwise it fails on the first missing file |
| Pipeline.BuildFromFiles | scripts/holidays2json.js:57-63 | the build succeeds iff `0.yaml`, every listed file and the names file exist, and then yields `Build` over the listed countries in order; a missing base is reported first |
| Pipeline.RunSucceeds | scripts/holidays2json.js:136 | `getList().build()` on a directory whose listed files all exist, with the base and names present, does not fail |
| Pipeline.BaseIsNotACountry | scripts/holidays2json.js:11 | the base dataset `0` never appears in the country list |
| Pipeline.GreatestCodeWins | scripts/holidays2json.js:41-62 | because the list is sorted, the country with the greatest code among those defining a holiday supplies its value; without a filter the holiday is present |
| WordMatch.ContainsWordIffToken | scripts/holidays2json.js:155-163 | for a keyword of word characters, `\bkeyword\b` matches iff the keyword is one of the key's maximal word-character runs |
| WordMatch.NoMatchInsideWord | scripts/holidays2json.js:155-163 | at any position of a key, a keyword with a word character directly after or directly before it is not a whole word there |
| Features.ClassifyKey | scripts/holidays2json.js:155-165 | a `days` key is classified as the first family in the order islamic, julian, chinese, equinox, hebrew that it mentions as a whole word, and as no family when it mentions none |
| Features.ClearForKey | scripts/holidays2json.js:154-166 | one `days` key removes at most one flag, namely the highest-priority family it mentions, and adds none |
| Features.ClearDays | scripts/holidays2json.js:153-166 | walking a `days` object removes exactly the flags its keys name, whatever the key order |
| Features.Dive | scripts/holidays2json.js:142-174 | `dive` removes exactly the flags some reachable `days` key names, never adds one, and leaves the flags alone on a scalar or array |
| Features.Detect | scripts/holidays2json.js:143-149 | starting from all five flags, the result is all flags minus those for which evidence is found |
| FeatureFacts.EvidenceIsReachableNames | scripts/holidays2json.js:150-170 | a flag is cleared iff some `days` key reached through objects only names that flag's family |
| FeatureFacts.NothingNamedKeepsAllFlags | scripts/holidays2json.js:150-173 | a tree with no `days` object, or whose `days` keys name nothing, keeps all five flags |
| FeatureFacts.DaysValuesNotInspected | scripts/holidays2json.js:153-168 | the values under `days` are never inspected or recursed into, at any depth: two trees that differ only in what hangs under `days` keys (with the same `days` keys) clear the same flags |
| FeatureFacts.SingleTokenMatchesOnlyItself | scripts/holidays2json.js:155-163 | a key made of one word-character run matches a keyword iff it is that keyword |
| FeatureFacts.TokenKeyNamesNothing | scripts/holidays2json.js:155-165 | a one-word key that is no keyword clears nothing |
| FeatureFacts.LetterlessKeyNamesNothing | scripts/holidays2json.js:154-165 | a key with no letters, such as a fixed date or an array index, clears nothing |
| Scenarios.RamadanClearsIslamicOnly | scripts/holidays2json.js:153-156 | a `days` object with the single key `Ramadan` clears `noislamic` and nothing else |
| Scenarios.IslamicBeatsJulian | scripts/holidays2json.js:155-158 | `julian Ramadan` is classified as islamic, the higher priority |
| Scenarios.EmbeddedKeywordIgnored | scripts/holidays2json.js:157 | `Megajulianfest`, with `julian` inside a longer word, names no calendar |
| Scenarios.CapitalisedKeywordIgnored | scripts/holidays2json.js:157 | `Julian` names no calendar: matching is case-sensitive |
| Scenarios.UnrecognisedDayKeepsAllFlags | scripts/holidays2json.js:143-170 | a document whose only `days` key is `RegularDay` keeps all five flags |
| Scenarios.NestedDaysValuesIgnored | scripts/holidays2json.js:153-168 | at `holidays.SA.days`, the value under `Ramadan` is never looked at, even when it holds a `days` object naming Julian dates |
| Scenarios.TodayIsStamped | scripts/holidays2json.js:71 | the timestamp `2024-05-01T10:20:30.000Z` stamps version `2024-05-01` |
| Scenarios.TwoCountriesMerged | scripts/holidays2json.js:58-62 | two countries with different holidays merge into a mapping holding both |
| Scenarios.TwoCountriesUnfiltered | scripts/holidays2json.js:57-76 | with no filter, the base field, the names field, both holidays and the stamp make up the aggregate |
| Scenarios.PickSelectsKeysNotOwners | scripts/holidays2json.js:65-66 | picking `FR` from a mapping keyed by holiday name gives an empty `holidays` |
| Scenarios.PickSelectsCountryWhenKeyedByCode | scripts/holidays2json.js:65-66 | picking `FR` from a mapping keyed by country code keeps only France's entry |

## Left out

- Reading the directory and the files, and writing `holidays.json`, are not modelled. The listing and the parsed documents are inputs, and a missing file is a `LoadError`.
- YAML parsing and its syntax errors are not modelled. Neither is the JSON serialisation with two-space indentation in `save`. Both are library calls.
- The clock is an input: `now` stands for `new Date().toISOString()`.
- `prepin` and its `PrePin` rewriting of the event factories are not modelled. The call is commented out in `build`, and it is asynchronous and external. The flag set it would pass is `Features.Detect`.
- The command-line glue is not modelled: `getOption`, the help text, `process.exit`, and the upper-casing and splitting of option values. `Options` takes the final lists.
- Object key insertion order is not modelled. Documents are unordered maps, and the order only shows in the serialised output.
- Aggregate.MergeHolidays: a country whose `holidays` is an array or a string is taken to contribute nothing. `Object.assign` would copy its index keys. Null, missing, numeric and boolean values are no-ops in both.
- Aggregate.Pick and Aggregate.Omit: when `holidays` is not an object, both give an empty object. Lodash would treat an array or string as indexed. Path syntax in keys (`a.b`) and inherited keys are not modelled either; country codes contain neither.
- Features.DaysKeys: a `days` value of `null` has no keys here, while `Object.keys(null)` throws. An array or string under `days` is given no keys; their index keys would name no calendar anyway (`FeatureFacts.LetterlessKeyNamesNothing`).
- Documents whose top level is not an object are not modelled.
- Leaf values are not distinguished by JavaScript type. Strings, numbers, booleans and null are all `Scalar`.
- The `list` constructor option is not modelled as such. `Pipeline.BuildFromFiles` accepts any country list, and `Pipeline.Run` uses `getList`.
