# infiniscouter core, modelled in Dafny

infiniscouter is a scouting app for robotics competitions. Scouts fill in per-match, pit and
drive-team forms on a phone. The forms are saved in the browser's local storage and later
sent to a server. The server derives the forms from a season's game configuration. It
stores records in a keyed tree, checks them against the form, ranks scouts on a
leaderboard, and imports match schedules from The Blue Alliance (TBA).

This project models the core of that system and proves properties about it:

- `database.dfy` (module `Database`): the server's match-entry tree. It covers the byte key
  built from event, match and team, and the get and set operations. The key is proved
  injective, and a store followed by a read is proved to return what was stored.
- `data_validation.dfy` (module `DataValidation`): the server drops every submitted field
  that the form does not list or whose kind differs from the form's.
- `data.dfy`, `config.dfy`: the value types, the ability ids, and the collection-option
  predicates.
- `match_entry.dfy` (module `MatchEntry`): building a stage's form (pages and entries) from a
  game configuration.
- `game_configs.dfy` (module `GameConfigs`): the derived configuration and its list of
  every metric id. It also covers the merge of the common configuration into each season's
  configuration.
- `leaderboard.dfy` (module `Leaderboard`): grouping every stored record by scout.
- `tba.dfy` (module `Tba`): the conversion of TBA's match and team records.
- `entries.dfy` (module `Entries`): the client's record store on top of local storage. It
  covers the record keys, saving and scanning, the edit-and-persist hook, and the re-upload
  of locally held images.
- `entry_components.dfy`, `match_selector.dfy`, `tba_link.dfy`, `word_cloud.dfy`,
  `leaderboard_page.dfy`: the small client rules. These are the form widgets, the
  match/team picker, the link to a match on TBA, the word cloud of free-text answers, and
  the leaderboard table.
- `assoc.dfy`, `sorting.dfy`, `text.dfy`, `wrappers.dfy`: shared helpers. `Assoc` is an
  association list standing for a hash map. `Sorting` is a stable sort by key. `Text`
  holds decimal text, trimming and ASCII lower-casing.

Where the documented behaviour and the code disagree, the model follows the code:

- A match record's local-storage key is `match--<match>-<team>`. The prefix `match-` already
  ends in a dash and the key function adds another (`client/src/data/entries.ts:219`). The
  same holds for `team--` and `driver--`.
- The client stamps every record with `timestamp_ms` 0. It keeps no sync watermark.

## Model

| member | source | states |
|---|---|---|
| Database.MatchEntryKey | server/src/database.rs:50-59 | the key is the tag `match_entry`, then event, match id and team, each after a 255 byte; its length is their lengths plus three |
| Database.DecodeKeyOf | server/src/database.rs:50-59 | a key can be split back into the event, match id and team it was built from |
| Database.KeyInjective | server/src/database.rs:50-59 | two triples with the same key are the same triple, so records never overwrite each other |
| Database.LookupAfterStore | server/src/database.rs:23-49 | after a store, the stored triple reads the new data and every other triple reads what it read before |
| Database.LookupEmpty | server/src/database.rs:62-70 | a fresh tree holds no record |
| Database.Database.constructor | server/src/database.rs:62-70 | the opened tree starts empty |
| Database.Database.GetMatchEntryData | server/src/database.rs:23-37 | returns the record stored under the triple's key, or none |
| Database.Database.SetMatchEntryData | server/src/database.rs:38-49 | the triple then reads back the written data, and every other triple is unchanged |
| DataValidation.Retained | server/src/data_validation.rs:5-20 | keeps exactly the fields the form lists whose value has the form's kind, with their values unchanged |
| DataValidation.ValidateMatch | server/src/data_validation.rs:4-22 | the record with only the retained fields; year, event, scout and time unchanged |
| DataValidation.ValidateIdempotent | server/src/data_validation.rs:4-22 | validating a validated record changes nothing |
| Data.ParseAbility | server/src/api/data.rs:97-108 | a parsed ability has the parsed id, and each of the three ids parses |
| Data.AbilityIdRoundTrip | server/src/api/data.rs:97-108 | every ability's snake_case id parses back to it |
| Data.ApiEntryTypeFrom | server/src/api/data.rs:54-66 | the API kind of a metric is the form kind a match form gives it |
| Config.CollectionPredicates | server/src/config.rs:70-97 | `Never` is collected nowhere; drive-only excludes match and pit; only `MatchPit` is both; the default is match only |
| GameConfigs.TbaMetric | server/src/config.rs:343-351 | a TBA placeholder metric is a never-collected yes/no metric ordered by its position |
| GameConfigs.TbaCategory | server/src/config.rs:334-353 | the "TBA" category has the TBA order and one metric per property, with id prefix + property |
| GameConfigs.AllCategories | server/src/config.rs:333-354 | the configured categories plus the TBA one, as a permutation sorted by order |
| GameConfigs.UnorderedCategoriesFirst | server/src/config.rs:354 | a category without an order never follows one with an order |
| GameConfigs.MetricIds | server/src/config.rs:373-382 | a Statbotics metric contributes `statbotics-<prop>` per property; any other metric contributes its own id |
| GameConfigs.CategoryMetricIdsExact | server/src/config.rs:363-384 | sorting a category's metrics by order keeps exactly their ids |
| GameConfigs.AllMetricIdsExact | server/src/config.rs:360-386 | the flattened list holds exactly the ids of the listed categories' metrics |
| GameConfigs.From | server/src/config.rs:331-390 | keeps the game configuration; the match, drive-team and pit forms are the forms derived for those stages; `allMetrics` is the id list of the sorted categories |
| GameConfigs.AllCategoriesMembers | server/src/config.rs:333-354 | a category is listed iff it is configured or it is the TBA category |
| GameConfigs.TbaIdOfProp | server/src/config.rs:337-352 | each TBA property's prefixed id is contributed by a TBA metric |
| GameConfigs.TbaIdIsProp | server/src/config.rs:337-352 | every id a TBA metric contributes is a prefixed property |
| GameConfigs.TbaCategoryIds | server/src/config.rs:337-352 | the TBA category contributes exactly the prefixed properties |
| GameConfigs.ListedIdSource | server/src/config.rs:360-386 | a listed id comes from a configured metric or a TBA property |
| GameConfigs.ConfiguredIdListed | server/src/config.rs:360-386 | every id of a configured metric is listed |
| GameConfigs.TbaIdListed | server/src/config.rs:360-386 | every prefixed TBA property is listed |
| GameConfigs.ListedIdsExact | server/src/config.rs:360-386 | `allMetrics` holds an id iff a configured metric or a TBA property contributes it |
| GameConfigs.MergeTeamRowNoPlaceholder | server/src/config.rs:419-432 | a common team row without the placeholder is kept as is |
| GameConfigs.MergeTeamRowIdentity | server/src/config.rs:419-432 | a season row that is the placeholder alone gives back the common row |
| GameConfigs.MergeTeamRowResolved | server/src/config.rs:419-432 | if the season row has no placeholder, the merged row has none |
| GameConfigs.GetMergeCategories | server/src/config.rs:433-444 | a season-only category is unchanged, a common-only one is added, and a shared one is merged |
| GameConfigs.MergeCategoryMetrics | server/src/config.rs:434-440 | a merged category keeps its own order if it has one, else the common order; a common metric overrides the season's |
| GameConfigs.NeverIfStatbotics | server/src/config.rs:447-449 | a Statbotics metric becomes never collected; any other metric is unchanged |
| GameConfigs.ForceNeverMetrics | server/src/config.rs:446-450 | forcing keeps a category's metric ids in place |
| GameConfigs.ForceNever | server/src/config.rs:445-451 | forcing keeps the category ids in place |
| GameConfigs.ForceNeverStatbotics | server/src/config.rs:445-451 | after forcing, every Statbotics metric is never collected |
| GameConfigs.ForceNeverCollectable | server/src/config.rs:445-451 | after forcing, every metric some stage collects can be turned into a form entry |
| GameConfigs.MergedFormsDerivable | server/src/config.rs:418-452 | after the merge, every collected metric is collectable, so all three forms can be derived |
| GameConfigs.MergeRow | server/src/config.rs:419-432 | the loop builds the common row with each placeholder replaced by the season row |
| GameConfigs.InsertMetrics | server/src/config.rs:438-440 | inserting the common metrics one by one gives the insert-all specification |
| GameConfigs.MergeCategoriesInto | server/src/config.rs:433-444 | the loop over the common categories gives the category-merge specification |
| GameConfigs.ForceNeverIn | server/src/config.rs:446-450 | the in-place loop over one category's metrics gives the forcing specification |
| GameConfigs.ForceNeverAll | server/src/config.rs:445-451 | the loop over all categories gives the forcing specification |
| GameConfigs.MergeCommon | server/src/config.rs:418-452 | the merge body yields the merged configuration, from which all forms can be derived |
| MatchEntry.EntryTypeFrom | server/src/config/match_entry.rs:79-98 | an ability becomes yes/no in the pit form; every other kind keeps its kind and parameters |
| MatchEntry.Admitted | server/src/config/match_entry.rs:108-116 | keeps exactly the metrics the stage collects |
| MatchEntry.SortedAdmitted | server/src/config/match_entry.rs:108-117 | the admitted metrics, as a permutation sorted by metric order |
| MatchEntry.SortedIdsAdmitted | server/src/config/match_entry.rs:108-117 | every sorted id belongs to a metric the stage collects |
| MatchEntry.AdmittedIdsSorted | server/src/config/match_entry.rs:108-117 | every metric the stage collects appears among the sorted ids |
| MatchEntry.Layout | server/src/config/match_entry.rs:123-126 | a page lists exactly the ids of the category's collected metrics, in metric order |
| MatchEntry.CategoryPageFrom | server/src/config/match_entry.rs:103-131 | every page comes from a category with a non-empty layout |
| MatchEntry.CategoryPageListed | server/src/config/match_entry.rs:103-131 | every category with something to collect yields its page |
| MatchEntry.OrderedPages | server/src/config/match_entry.rs:132 | the pages are a permutation of the category pages, sorted by category order |
| MatchEntry.EntryOf | server/src/config/match_entry.rs:146-155 | an entry carries its metric's name and its category's name as page |
| MatchEntry.CategoryEntries | server/src/config/match_entry.rs:137-156 | one category contributes an entry for exactly each of its admitted metrics |
| MatchEntry.EntryPairs | server/src/config/match_entry.rs:134-158 | all categories contribute an entry for exactly each admitted metric |
| MatchEntry.FromGameConfig | server/src/config/match_entry.rs:102-161 | the form's pages are the ordered pages without their positions |
| MatchEntry.EntriesAreCollected | server/src/config/match_entry.rs:134-158 | every entry is a metric the stage collects, on its category's page |
| MatchEntry.CollectedAreEntries | server/src/config/match_entry.rs:134-158 | every metric the stage collects has an entry |
| MatchEntry.PageFromCategory | server/src/config/match_entry.rs:103-131 | each page is a category's page and has a non-empty layout |
| MatchEntry.PagesSorted | server/src/config/match_entry.rs:132 | pages appear by non-decreasing category position |
| MatchEntry.CategoryHasPage | server/src/config/match_entry.rs:103-131 | every category with something to collect has its page in the form |
| MatchEntry.PageIdIsEntry | server/src/config/match_entry.rs:102-161 | every id listed on a page has an entry |
| MatchEntry.LayoutIdsAreEntries | server/src/config/match_entry.rs:102-161 | no page refers to an id without an entry |
| Leaderboard.Tagged | server/src/leaderboard.rs:34-65 | a list's records of the current year and event, tagged with their kind |
| Leaderboard.CountedEntriesExact | server/src/leaderboard.rs:34-65 | exactly the records of the current year and event from the three lists are counted |
| Leaderboard.GetLeaderboard | server/src/leaderboard.rs:32-88 | the loop computes the leaderboard of the counted records |
| Leaderboard.FirstWithKey | server/src/leaderboard.rs:66-74 | the first record grouped under a key, or none iff no record has that key |
| Leaderboard.BumpCounts | server/src/leaderboard.rs:75-83 | a record raises exactly its kind's counter, and the total, by one; the name stays |
| Leaderboard.BumpOk | server/src/leaderboard.rs:75-83 | counting a record keeps the team counts summing to the total |
| Leaderboard.NewPersonBump | server/src/leaderboard.rs:66-83 | a scout's first record names them and gives one record of its kind |
| Leaderboard.StepGet | server/src/leaderboard.rs:66-83 | one record changes only its own scout's entry |
| Leaderboard.DescribesOther | server/src/leaderboard.rs:66-83 | another scout's record leaves a scout's description as it was |
| Leaderboard.BumpCountsMatch | server/src/leaderboard.rs:75-79 | a scout's record keeps their counters equal to their record counts |
| Leaderboard.DescribesNew | server/src/leaderboard.rs:66-74 | a scout's first record creates an entry that describes them |
| Leaderboard.DescribesAgain | server/src/leaderboard.rs:75-83 | a later record of a scout keeps their entry describing them |
| Leaderboard.DescribesStep | server/src/leaderboard.rs:66-83 | one loop step keeps every key described |
| Leaderboard.LeaderboardDescribes | server/src/leaderboard.rs:32-88 | the leaderboard lists each key once and describes every key |
| Leaderboard.LeaderboardPersons | server/src/leaderboard.rs:32-88 | a scout appears iff they have a record; their name is from their first record and each counter counts their records of that kind |
| Leaderboard.LeaderboardTotal | server/src/leaderboard.rs:32-88 | summed over all scouts, the totals equal the number of records |
| LeaderboardPage.SortScoutsConsistent | client/src/pages/leaderboard.tsx:13-15 | the comparator is antisymmetric and orders by total, larger first |
| LeaderboardPage.SortedScoutsSpec | client/src/pages/leaderboard.tsx:56 | the rows are a permutation of the scouts with non-increasing totals |
| LeaderboardPage.DisplayName | client/src/pages/leaderboard.tsx:57 | a blank name is shown as "Unknown"; any other name as it is |
| LeaderboardPage.RowOf | client/src/pages/leaderboard.tsx:56-62 | a row's total is the scout's total, the sum of its three counters; the unique-teams column counts the scout's team keys |
| LeaderboardPage.Table | client/src/pages/leaderboard.tsx:56-64 | one row per scout, each the row of the scout in that position of the sorted order; totals never increase down the table; every scout on the board has its row in the table, and every row is the row of a scout on the board |
| LeaderboardPage.UniqueTeamsCount | client/src/pages/leaderboard.tsx:62 | with distinct keys, the unique-teams column is the number of distinct teams |
| LeaderboardPage.SumTotalsPermutation | client/src/pages/leaderboard.tsx:56 | reordering scouts keeps the sum of their totals |
| LeaderboardPage.TableOfLeaderboard | client/src/pages/leaderboard.tsx:56-64 | the server's leaderboard is shown by non-increasing total, and the totals add up to the number of records |
| MatchSelector.ParseDigits | client/src/components/match_and_team_selector.tsx:56-60 | a button text parses iff it is a non-empty run of digits |
| MatchSelector.TeamsForMatch | client/src/components/match_and_team_selector.tsx:26-32 | no match for an unset or zero number; otherwise a qualification match with that number, none only if the schedule has none |
| MatchSelector.FirstQualification | client/src/components/match_and_team_selector.tsx:27-31 | a found match is in the schedule with the number; not found means no such match |
| MatchSelector.FirstQualificationIsFirst | client/src/components/match_and_team_selector.tsx:27-31 | the lookup finds the earliest qualification match with the number |
| MatchSelector.OnMatchInput | client/src/components/match_and_team_selector.tsx:42-47 | typing a match number stores it and clears the team |
| MatchSelector.NoStaleTeam | client/src/components/match_and_team_selector.tsx:42-47 | after a new match number no team button is shown as pressed |
| MatchSelector.TeamButtons | client/src/components/match_and_team_selector.tsx:71-89 | the red teams' numbers then the blue teams', as decimal text |
| MatchSelector.OnTeamButton | client/src/components/match_and_team_selector.tsx:56-60 | pressing a button stores the number its text parses to; the match stays |
| MatchSelector.PressTeam | client/src/components/match_and_team_selector.tsx:56-61 | pressing a team's button picks that team, and only its button shows as pressed |
| Tba.LevelId | server/src/tba.rs:177-198 | `q`/`qm`, `qf`, `sf` and `f` name their levels; any other level is refused; no practice id arises |
| Tba.TrimFrcSuffix | server/src/tba.rs:205 | stripping leaves a suffix that does not start with "frc" |
| Tba.TrimFrcPrefixes | server/src/tba.rs:205 | every leading repetition of "frc" is stripped, and nothing more |
| Tba.TeamKeyRoundTrip | server/src/tba.rs:205 | `frc<n>` parses back to team n |
| Tba.TeamNumberOf | server/src/tba.rs:205 | a team number fits in 32 bits |
| Tba.TeamNumbers | server/src/tba.rs:200-213 | the alliance's team numbers, one per key, in TBA's order |
| Tba.SanitizeScore | server/src/tba.rs:214-227 | a negative score is dropped; any other score is kept |
| Tba.Winner | server/src/tba.rs:228-232 | red or blue only for the exact strings "red" and "blue"; otherwise undecided |
| Tba.IntoMatch | server/src/tba.rs:175-234 | fails iff the level is unknown, with its message; else id, start time, teams, scores and result are the converted fields |
| Tba.ConvertedMatches | server/src/tba.rs:43-46 | keeps exactly the matches whose conversion succeeds |
| Tba.ConvertedInOrder | server/src/tba.rs:43-46 | when every match converts, the result is the conversions one for one, in input order |
| Tba.RealTeams | server/src/tba.rs:122 | keeps exactly the teams outside 9990 to 9999 |
| Tba.TeamName | server/src/tba.rs:127-130 | the nickname, else the name, else "unknown" |
| Tba.TeamInfos | server/src/tba.rs:123-139 | one record per real team, in the order TBA lists them: its number, its name and its avatar flag; every record comes from a real team, and none from a placeholder |
| Tba.EventMatches | server/src/tba.rs:37-57 | the event's matches are a permutation of the converted ones, ordered by start time, none a practice match |
| Tba.EventTeams | server/src/tba.rs:48-53 | every team is filed under its own number, and every listed team is present |
| TbaLink.MatchPartAsWritten | client/src/components/tba_link.tsx:12-23 | the link part as written starts with the level code |
| TbaLink.MatchPart | client/src/components/tba_link.tsx:12-23 | the corrected part starts with the level code, which can be read back from it |
| TbaLink.LinkUrl | client/src/components/tba_link.tsx:24 | the address is TBA's match page, the event, `_`, then the match part as written |
| TbaLink.CorrectedLinkUrl | client/src/components/tba_link.tsx:24 | the same address with the part in TBA's order |
| TbaLink.PartsAgree | client/src/components/tba_link.tsx:12-23 | the part as written equals the corrected one iff the match is not a playoff match or its set and match numbers are equal |
| TbaLink.LinksAgreeOffPlayoffs | client/src/components/tba_link.tsx:12-24 | the link as written equals the corrected one iff the match is not a playoff match or its set and match numbers are equal |
| TbaLink.LinkIsTbaKey | client/src/components/tba_link.tsx:12-24 | with the corrected part, a match imported from TBA links to the page of TBA's own key for it |
| TbaLink.AsWrittenLinksWrongMatch | client/src/components/tba_link.tsx:17-24 | as written, final set 1 match 2 links to `f2m1` while TBA's key is `f1m2` |
| TbaLink.MatchPartInjective | client/src/components/tba_link.tsx:12-24 | equal parts mean the same level and match number, and for a playoff the same match |
| Text.DecimalRoundTrip | client/src/components/match_and_team_selector.tsx:73 | a team's decimal text parses back to the team |
| Text.DecimalInjective | client/src/components/match_and_team_selector.tsx:73 | different teams have different button texts |
| Text.ParseUnsigned | server/src/leaderboard.rs:82 | a parsed team id lies within the integer type's range |
| Text.ParseUnsignedDecimal | server/src/leaderboard.rs:82 | a number's decimal text parses back to it |
| Text.TrimStartSpec | server/src/leaderboard.rs:67 | trimming drops only leading whitespace, and what is kept starts with none |
| Text.TrimEndSpec | server/src/leaderboard.rs:67 | trimming drops only trailing whitespace, and what is kept ends with none |
| Text.TrimEmpty | client/src/pages/leaderboard.tsx:57 | a name trims to nothing iff it is all whitespace |
| Text.LowerAsciiAt | server/src/leaderboard.rs:67 | each character is lower-cased in its place |
| Sorting.SortBy | server/src/config/match_entry.rs:117 | the sort by key gives a permutation of the input, sorted by the key |
| Sorting.InsertByWithKey | server/src/config/match_entry.rs:117 | an inserted element goes in front of every element with its key, and the others keep their order |
| Sorting.SortByStable | server/src/config/match_entry.rs:117 | the sort is stable: for every key, the elements with that key are in the same order as in the input |
| Assoc.Put | server/src/config.rs:439 | a hash-map insert: the key reads the value; an existing key keeps its place, a new key comes last |
| Assoc.GetPutOther | server/src/config.rs:439 | an insert leaves every other key's value |
| Assoc.Increment | server/src/leaderboard.rs:80-83 | `entry().or_default() += 1`: the key's count is one more than before, or one |
| Assoc.IncrementSum | server/src/leaderboard.rs:80-83 | counting a team keeps keys distinct and raises the sum of the counts by one |
| Assoc.IncrementOther | server/src/leaderboard.rs:80-83 | counting a team leaves every other team's count |
| Assoc.GetInsertAll | server/src/config.rs:438-440 | after inserting a map's pairs, a key reads the inserted value if the map has one, else the old value |
| WordCloud.SplitWordsConcat | client/src/components/data_value.tsx:104 | the tokens of a split hold exactly the word characters of the answer, in order |
| WordCloud.SplitWordsTokens | client/src/components/data_value.tsx:104 | tokens are made of word characters; only the first or the last can be empty, and each is empty exactly when the answer is empty or starts, or ends, with a non-word character |
| WordCloud.SplitWordsFirst | client/src/components/data_value.tsx:104 | the first token is empty after a leading separator, and otherwise starts with the answer's first character |
| WordCloud.SplitWordsJoin | client/src/components/data_value.tsx:104 | the answer is the tokens joined by the separators, one fewer than the tokens, each a non-empty run of non-word characters |
| WordCloud.TallyGet | client/src/components/data_value.tsx:106-108 | tallying a word raises its count by one unless it is excluded, and leaves every other count |
| WordCloud.CountWordsDistinct | client/src/components/data_value.tsx:102-110 | each word is listed once |
| WordCloud.CountWordsExact | client/src/components/data_value.tsx:102-110 | a word is counted iff it occurs and is not excluded, and its count is its number of occurrences |
| WordCloud.CountsPositive | client/src/components/data_value.tsx:102-110 | every listed count is at least one |
| WordCloud.RankedSpec | client/src/components/data_value.tsx:111-112 | the ranking is a permutation of the counts and "?", by non-increasing count |
| WordCloud.KeptTotalPositive | client/src/components/data_value.tsx:113-117 | one to fifteen words are kept and their total is positive |
| WordCloud.RoundedShareNearest | client/src/components/data_value.tsx:119 | the share is the integer nearest count × 250 / total, halves rounded up |
| WordCloud.Weight | client/src/components/data_value.tsx:119 | a weight lies in [10, 100] and is the rounded share when that already does |
| WordCloud.WeightMonotone | client/src/components/data_value.tsx:119 | a larger count never gets a smaller weight |
| WordCloud.CloudSpec | client/src/components/data_value.tsx:111-120 | the cloud shows one to fifteen words, weights within [10, 100], by non-increasing weight |
| WordCloud.KeptAreMostFrequent | client/src/components/data_value.tsx:112-113 | a word left out is counted no more often than any word shown |
| WordCloud.CountAnswers | client/src/components/data_value.tsx:102-110 | the nested loops count every token of every answer |
| WordCloud.SumCounts | client/src/components/data_value.tsx:114-117 | the loop sums the kept counts |
| WordCloud.ApplyWeights | client/src/components/data_value.tsx:118-120 | the in-place loop replaces each count by its weight |
| WordCloud.ComputeCloud | client/src/components/data_value.tsx:102-126 | the words and weights handed to the chart are the specified cloud |
| Entries.RecordKeyPrefix | client/src/data/entries.ts:215-265 | a record's key starts with its own kind's prefix and with neither other prefix |
| Entries.SettingsNotScanned | client/src/data/atoms.ts:19-40 | no settings key starts with a record prefix |
| Entries.MatchKeyInjective | client/src/data/entries.ts:215-220 | two match keys are equal only for the same match and team |
| Entries.PitKeyInjective | client/src/data/entries.ts:253-255 | two pit keys are equal only for the same team |
| Entries.DriverKeyInjective | client/src/data/entries.ts:260-265 | two driver keys are equal only for the same match and team |
| Entries.LocalStorage.GetItem | client/src/data/entries.ts:206-209 | the stored item iff the key is present |
| Entries.LocalStorage.SetItem | client/src/data/entries.ts:271-274 | the key then holds the value; a new key is listed last and an existing key keeps its place |
| Entries.LocalStorage.Save | client/src/data/entries.ts:270-295 | a record is stored under its kind's key |
| Entries.SaveThenGet | client/src/data/entries.ts:270-295 | a saved record reads back from its key, and no other key changes |
| Entries.SaveAgain | client/src/data/entries.ts:270-295 | saving the record a key already holds changes nothing |
| Entries.ScanExact | client/src/data/entries.ts:300-314 | a scan returns exactly the stored records under the prefix for the year and event |
| Entries.GetEntries | client/src/data/entries.ts:300-314 | the loop over the storage's keys computes the scan, in key order |
| Entries.SavedIsScanned | client/src/data/entries.ts:161-179 | a saved record of the current event is listed by its kind's scan |
| Entries.ScoutName | client/src/data/entries.ts:194 | a missing or empty scout is listed as "Unknown"; any other name as it is |
| Entries.Scouts | client/src/data/entries.ts:191-197 | each scout of the record's fields is listed exactly once |
| Entries.RecordScouts | client/src/data/entries.ts:184-198 | no scouts for a missing record or another year or event; else the record's scouts |
| Entries.GetMatchScouts | client/src/data/entries.ts:184-198 | the scouts of the record under the match key |
| Entries.GetPitScouts | client/src/data/entries.ts:225-239 | the scouts of the record under the pit key |
| Entries.Edited | client/src/data/entries.ts:67-73 | no value removes the field and a value replaces it; other fields are kept |
| Entries.Loaded | client/src/data/entries.ts:45-62 | the stored data if it is for this year and event, else an empty record |
| Entries.EntryHook.constructor | client/src/data/entries.ts:31-37 | a page starts from an empty, unchanged record |
| Entries.EntryHook.SetEntry | client/src/data/entries.ts:67-81 | an edit applies the setter's rule, re-stamps year, event and time, and marks the record changed |
| Entries.EntryHook.Persist | client/src/data/entries.ts:39-44 | the record is written under the key only when changed, keyed, signed and non-empty; otherwise storage is untouched |
| Entries.EntryHook.Load | client/src/data/entries.ts:45-63 | with a key the page takes the loaded data and is unchanged; without one nothing changes |
| Entries.LoadSaved | client/src/data/entries.ts:39-62 | what a page saves is what it loads back for the same year and event |
| Entries.PromoteImage | client/src/data/entries.ts:96-110 | an image stays local unless it was local and its upload was accepted |
| Entries.PromoteFirst | client/src/data/entries.ts:95-120 | the first j images are promoted and the rest are as they were |
| Entries.PromoteValueUnchanged | client/src/data/entries.ts:93-121 | a field without an accepted local image is left as it is |
| Entries.PromoteFieldsStep | client/src/data/entries.ts:93-121 | promoting one more field sets that field to its promoted value |
| Entries.PromoteNothing | client/src/data/entries.ts:92-123 | promoting no field leaves the record as it is |
| Entries.SentBeforeNext | client/src/data/entries.ts:95-120 | some accepted local image lies before position j + 1 iff one lies before j or the one at j is |
| Entries.SendImage | client/src/data/entries.ts:96-119 | one image promoted; the record is rewritten under its key once some upload was accepted |
| Entries.SendImages | client/src/data/entries.ts:95-120 | a field's images promoted; storage holds the record iff some upload so far was accepted |
| Entries.SendField | client/src/data/entries.ts:93-122 | one more field promoted, with the storage invariant kept |
| Entries.SendRecordImages | client/src/data/entries.ts:92-123 | a record fully promoted and rewritten iff an upload was accepted; otherwise storage is untouched |
| Entries.SaveImageData | client/src/data/entries.ts:88-155 | every record is promoted and written back in order, and the result is always true |
| EntryComponents.ToMime | client/src/components/entry_components.tsx:424-444 | the type is always one of the six image types, and a `.png` name is PNG |
| EntryComponents.ToMimeJpeg | client/src/components/entry_components.tsx:427-432 | `.jpg`, `.jpeg` and `.jfif` names are JPEG |
| EntryComponents.ToMimeHeic | client/src/components/entry_components.tsx:433-434 | `.heic` and `.heif` names are HEIC |
| EntryComponents.ToMimeWebp | client/src/components/entry_components.tsx:435-436 | `.webp` names are WebP |
| EntryComponents.ToMimeGif | client/src/components/entry_components.tsx:437-438 | `.gif` names are GIF |
| EntryComponents.ToMimeBmp | client/src/components/entry_components.tsx:439-440 | `.bmp` names are bitmaps |
| EntryComponents.ToMimeFallback | client/src/components/entry_components.tsx:441-443 | a name without a known extension is taken as JPEG |
| EntryComponents.CounterMinus | client/src/components/entry_components.tsx:253-269 | a field that holds no counter is set to the range start, or 0; a counter goes down by one, and at the range start there is no `setValue` call (`None`) |
| EntryComponents.CounterPlus | client/src/components/entry_components.tsx:312-328 | a field that holds no counter is set to the range start, or 0; a counter goes up by one, and at the range end there is no `setValue` call (`None`) |
| EntryComponents.ButtonsStayInRange | client/src/components/entry_components.tsx:253-328 | with a range, the field holds an in-range counter after either button, whether or not it made a call |
| EntryComponents.CounterTyped | client/src/components/entry_components.tsx:287-299 | a typed number is stored iff it parses and lies in the range, when there is one; else the field is cleared |
| EntryComponents.RemoveNewlines | client/src/components/entry_components.tsx:349-351 | the result has no line feed and is no longer |
| EntryComponents.RemoveNewlinesKeeps | client/src/components/entry_components.tsx:349-351 | text without line feeds is kept, so removal is idempotent |
| EntryComponents.RemoveNewlinesAppend | client/src/components/entry_components.tsx:349-351 | removal works piece by piece, so the kept characters stay in order |
| EntryComponents.RemoveNewlinesCount | client/src/components/entry_components.tsx:349-351 | every other character keeps its number of occurrences |
| EntryComponents.TextValue | client/src/components/entry_components.tsx:347-353 | a multiline field keeps the text as typed; a single-line field drops line feeds only |
| EntryComponents.Choose | client/src/components/entry_components.tsx:145-161 | no selection clears the field; yes/no stores whether "true" was chosen; enum and ability store the option |
| EntryComponents.ChooseSelected | client/src/components/entry_components.tsx:136-161 | choosing the option shown as selected stores the same value again |
| EntryComponents.AddImage | client/src/components/entry_components.tsx:461-476 | a new picture is appended, marked local, after the field's images |
| EntryComponents.WithoutIdMembers | client/src/components/entry_components.tsx:496-502 | the filter keeps exactly the images with another id |
| EntryComponents.RemoveImage | client/src/components/entry_components.tsx:495-503 | removal drops every image with the id and keeps the others in order |
| EntryComponents.RemoveAdded | client/src/components/entry_components.tsx:461-503 | removing a just-added picture with a fresh id restores the field's images |
| EntryComponents.Synced | client/src/components/entry_components.tsx:545-551 | a stored timer shows as stopped at its time; anything else shows as not started |
| EntryComponents.Start | client/src/components/entry_components.tsx:563-569 | starting runs the timer from zero and stores nothing |
| EntryComponents.Stop | client/src/components/entry_components.tsx:578-583 | stopping keeps the elapsed time and stores it in the field |
| EntryComponents.Continue | client/src/components/entry_components.tsx:592-598 | continuing runs on from the stopped time |
| EntryComponents.Reset | client/src/components/entry_components.tsx:602-606 | resetting returns to not started and clears the field |
| EntryComponents.StopContinue | client/src/components/entry_components.tsx:561-611 | stop then continue at once loses no time, and the stored value re-syncs to the widget's state |

## Left out

- Serialisation (serde JSON, YAML, `JSON.stringify`/`JSON.parse`) is modelled as the identity. Records are stored as values.
- The database file, the sled tree's persistence and its error results are left out. `Database.Database.constructor` starts from an empty tree.
- The reading of configuration files is left out: the embedded YAML files, the "missing common config" error, logging a bad file and reading `team_config.yaml`. The merge is modelled for one season's configuration.
- `TBA_PREFIX` is defined in a file that is not part of this model. It is a parameter `tbaPrefix`.
- Rust `HashMap` iteration order is unspecified. Maps that are iterated are association lists in insertion order, and properties that depend on order are stated for any order.
- `Object.keys`/`Object.entries` order, and the order of local storage's `key(i)`, are modelled as insertion order. JavaScript lists integer-like keys first, in ascending order, so the model loses that. For example, a word such as "3" in the word-count dictionary comes first there, and among words with equal counts the fifteen kept can differ from the first-appearance order of `WordCloud.Ranked`. `Entries.Scouts` states no order at all: each scout is listed once.
- A panicking `parse().unwrap()` (team keys in `tba.rs`, team ids in `leaderboard.rs`) and `unimplemented!` for Statbotics and TBA metrics are modelled as preconditions that the input parses or the metric is collectable.
- Network calls (TBA, image uploads) and the avatar cache become parameters: the fetched records, an `accepted` predicate for uploads, and a `hasAvatar` function.
- The event cache of the TBA client is left out; one fetch is modelled.
- Time is a parameter: `Date.now()` becomes `now`, timer values are whole milliseconds, and the 100 ms refresh is left out.
- The word-cloud weight uses exact rational rounding (`Math.round` of `count * 250 / total`), not floating point.
- Lower-casing covers ASCII letters only. Unicode case mapping and `String.trim`'s exact whitespace set beyond the listed characters are not modelled.
- Object prototype keys such as `constructor` in the word-count dictionary are not modelled.
- `parseInt` is modelled only on runs of decimal digits. Other text parses to nothing, which stands for `NaN`.
- IndexedDB (`getImage`, `saveImage`) is left out. `saveImage` in `images.ts` returns no id, so the per-file loop of the image picker is not modelled; only the pure add and remove updates are.
- `LocalImage`, the pie chart and its random colour scheme, and all rendering are left out.
- The scheduling of Preact effects (`useEffect` dependencies) is left out. The save and load effects are methods called explicitly.
- `get_all_match_entries`, `get_all_pit_entries` and `get_all_driver_entries` are not part of this model. The leaderboard takes three lists that stand for their results. Their selection of the current year and event, which the database makes by tree key, is modelled as a filter on each record's own `year` and `event` (`Leaderboard.Tagged`).
- Entries.RecordScouts requires that a record key never holds a setting. The client never writes one there.

## Findings

| source | as written | input that shows it | evidently intended | confidence | as-written member | corrected member |
|---|---|---|---|---|---|---|
| client/src/components/tba_link.tsx:17-22 | a playoff link part is the level, the match number, `m`, then the set number | a final with set 1 and match 2 gets `f2m1` | TBA's key order: the level, the set number, `m`, then the match number (`f1m2`) | not executed | TbaLink.AsWrittenLinksWrongMatch | TbaLink.CorrectedLinkUrl |
