# Undercurrent, modelled in Dafny

Undercurrent finds "hidden gem" GitHub repositories. A Node miner queries
GitHub and writes a ranked `gems.json`:

- it collects candidates from GitHub Trending, a base search query and one
  query per target language;
- it drops churn (config dumps, lists, dated snapshots);
- it derives weekly activity, momentum, merged-PR counts and a maintenance
  age for each repository, and scores it;
- it sorts by score and keeps at most 250 gems, of which at most 75 may be
  "hype" (AI/LLM) repositories.

A validator checks the written file. A Next.js site renders it with a hype
filter, a language filter, a search box, a sort menu and a Gold/Silver/Bronze
badge per gem.

The project models that core on values that have already been fetched. Each
network lookup is an input: the repository batches, the trending names, the
Hacker News flags, the LLM summaries and the bundle sizes. "Now" and every
timestamp are integer milliseconds. Strings are `seq<char>`, lower-cased in
ASCII.

The trending names `External.trendingFullNames` and the trending batches
passed to `Discovery.Discovered` come from the same Trending scrape in the
source (miner/miner.js:342-351 and 406). The model takes them as two
inputs and does not require that each batch is the lookup of the
corresponding name.

| file | module | models |
|---|---|---|
| types.dfy | `Types` | the repository and gem records, the mining configuration and its default keyword lists |
| text.dfy | `Text` | ASCII `toLowerCase`, `includes` and "some word occurs" |
| classifier.dfy | `Classifier` | `isLikelyChurn`, `isHype` |
| score.dfy | `Score` | the exact sub-terms of `calculateScore` |
| activity.dfy | `Activity` | weekly activity and the momentum trend |
| derivation.dfy | `Derivation` | merged-PR count, last merge, maintenance score, and the per-repository record |
| discovery.dfy | `Discovery` | the `allRepos` map as a class, and the three discovery stages |
| sorting.dfy | `Sorting` | the stable descending sort: specification, and an in-place array method |
| ranking.dfy | `Ranking` | the hype quota and total cap loop |
| miner.dfy | `Miner` | `getGems` end to end |
| validate.dfy | `Validate` | `GemSchema`, `GemsResponseSchema`, `validateGems` |
| utils.dfy | `Utils` | the site's `calculateMaintenanceScore` and the guard of `formatBytes` |
| views.dfy | `Views` | the filter, sort and language-list chains the two pages share |
| explorer.dfy | `Explorer` | the Explorer component's view |
| page.dfy | `Page` | the home page's older view |
| gemcard.dfy | `GemCard` | the score badge |

## Model

| member | source | states |
|---|---|---|
| Text.Lower | miner/miner.js:151-152 | lower-casing keeps the length, lower-cases each ASCII capital and leaves every other character alone |
| Text.LowerIdempotent | miner/miner.js:151-152 | lower-casing twice is lower-casing once |
| Text.ContainsAt | miner/miner.js:155 | `includes` holds exactly when the word occurs at some position of the text |
| Text.MentionsAnyIff | miner/miner.js:155 | `words.some(w => a.includes(w) \|\| b.includes(w))` holds exactly when some listed word occurs in one of the two texts |
| Classifier.DatePatternAt | miner/miner.js:160 | the date scan holds exactly when a `dddd-dd-dd` run starts at some position of the name |
| Classifier.DigitRunAtSome | miner/miner.js:160 | the digit scan holds exactly when a run of six digits starts at some position of the name |
| Classifier.ChurnCharacterized | miner/miner.js:150-165 | churn holds exactly when a churn keyword occurs in the lower-cased name or description (a missing description read as ""), or the lower-cased name holds a date or a six-digit run |
| Classifier.DescriptionPatternsIgnored | miner/miner.js:159-164 | digits and dates in the description alone never make a repository churn: the result is as for no description |
| Classifier.HypeCharacterized | miner/miner.js:172-176 | hype holds exactly when some hype keyword occurs as a substring of the lower-cased name or description; churn is not consulted |
| Classifier.ClassifiersIgnoreCase | miner/miner.js:151-152 | texts that lower-case alike classify alike, for both classifiers |
| Classifier.DateInNameIsChurn | miner/miner.js:160-161 | a date anywhere in the lower-cased name makes a repository churn, whatever its description |
| Classifier.DigitRunInNameIsChurn | miner/miner.js:160-161 | six digits in a row anywhere in the lower-cased name make a repository churn |
| Classifier.KeywordInNameIsChurn | miner/miner.js:155-156 | a listed keyword occurring anywhere in the lower-cased name makes a repository churn |
| Classifier.KeywordInNameIsHype | miner/miner.js:175 | a listed keyword occurring anywhere in the lower-cased name makes a repository hype |
| Classifier.DatedNameExample | miner/miner.js:160-161 | "update-2023-10-01" is churn |
| Classifier.NumberedNameExample | miner/miner.js:160-161 | "build123456" is churn |
| Classifier.ShortNumberExample | miner/miner.js:160 | "v12345" holds neither a date nor a six-digit run |
| Classifier.ChurnKeywordExample | miner/miner.js:155 | "my-proxy-list" is churn through "proxy" |
| Classifier.HypeKeywordExample | miner/miner.js:175 | "ai-generator" is hype |
| Classifier.HypeSubstringExample | miner/miner.js:175 | "maintainer" is hype through "ai": the test is on substrings, not words |
| Score.StarsUsed | miner/miner.js:188 | the star count used is at least 1, and is the real count when that is positive |
| Score.MaturityMonths | miner/miner.js:190-205 | effective age lies in [6, 60] months; it equals the raw age inside that range and the nearer bound outside it |
| Score.ContributionIncrements | miner/miner.js:199 | the contribution is 0 with no labels and no good-first issues; each label adds 2 and good-first issues add 50 |
| Score.LanguageMultiplier | miner/miner.js:208-211 | the multiplier is 0.5 for "Plain Text", "HTML" and "CSS" (markup wins over the target list), 1.2 for any other target language, and 1.0 otherwise |
| Score.MultiplierExamples | miner/miner.js:208-211 | with the default target list the multiplier is one of 0.5, 1.0 and 1.2; no language reads as "Plain Text" (0.5); Rust beats plain text |
| Score.Terms | miner/miner.js:187-211 | both divisors of the score are positive, the stars used are at least 1 and at least the real count, and the age is capped at 60 months |
| Score.DegenerateInputsClamped | miner/miner.js:188-190 | a repository with no stars created this instant is scored with 1 star and 6 months |
| Activity.WeeklyCountsOf | miner/miner.js:383-386 | each missing weekly count reads as 0; a present one is kept |
| Activity.ActivityOf | miner/miner.js:388 | activity has four non-negative entries, oldest week first: entry i is the count of week 4 − i counting back from this week |
| Activity.MomentumTrend | miner/miner.js:389-390 | the trend is non-negative and 0 exactly when this week is 0; with a positive trailing sum, trend × sum = 3 × this week; otherwise the trend is 1 or 0 |
| Activity.ChartAgreesWithTrend | miner/miner.js:388-390 | with a positive trailing sum, the trend exceeds 1 exactly when the last activity bar is above the average of the three bars before it |
| Activity.TrendComparesWithAverage | miner/miner.js:389-390 | with a positive trailing sum, the trend exceeds 1 (equals 1) exactly when this week exceeds (equals) the three-week average |
| Activity.RoundCents | miner/miner.js:431 | the result is a whole number of cents, within half a cent of the input (ties upwards); non-negative inputs stay non-negative and 0 stays 0 |
| Activity.RoundCentsUnique | miner/miner.js:431 | that whole number of cents is the only one in the half-cent window, so the rounding is the nearest cent, halves up |
| Activity.RoundedTrendCanHideActivity | miner/miner.js:431 | rounding can turn a positive trend into 0: one commit against a trailing thousand is written as 0 |
| Derivation.MaintenanceScore | miner/miner.js:133-138 | no merge (or an empty timestamp) gives 999; otherwise the result is the whole number of days between now and the merge, in either direction |
| Derivation.CountMergedAfter | miner/miner.js:396 | the merged-PR count is at most the number of nodes; it is 0 exactly when no merge is after the cutoff, and all of them exactly when every merge is |
| Derivation.CountMergedAfterAppend | miner/miner.js:396 | counting the nodes of two lists one after the other gives the sum of their counts |
| Derivation.CountMergedAfterIsSize | miner/miner.js:396 | the count is exactly the number of positions whose merge time is strictly after the cutoff |
| Derivation.LastMergedAt | miner/miner.js:397 | the last merge is absent exactly when the node list is empty, and is otherwise the first node in API order |
| Derivation.NoMergesMeansSentinel | miner/miner.js:395-417 | a repository without merged-PR nodes gets maintenance score 999 |
| Derivation.Topics | miner/miner.js:399 | the topic names are the nodes' names in order; a missing list gives no topics |
| Derivation.ScoreRepo | miner/miner.js:380-453 | the step fails exactly when the issues count is missing or a topic node has no topic. Otherwise every field of the record is tied to the repository: name, full name, URL, stars and push time are copied; activity, recent commits and the rounded trend come from the four weekly counts; merged PRs are the count after the 30-day cutoff; maintenance is the score of the first merged node; the score is `combine` of the exact terms; forks, open issues, language, topics, license and release are derived as written. Featured means trending and on Hacker News, and only a featured gem's description is replaced by the summary. Hype is `isHype` of the original description; the bundle size is looked up only for JavaScript and TypeScript |
| Discovery.Put | miner/miner.js:346-357 | `Map.set` overwrites the value; a present key keeps its position, an absent key is appended; key uniqueness and full-name keying are kept |
| Discovery.PutAll | miner/miner.js:346-357 | a batch of `set`s keeps the keys distinct and equal to the entries' keys |
| Discovery.PutAllKeeps | miner/miner.js:346-357 | a batch of `set`s keeps the old key order as a prefix; the key set becomes the old keys plus the batch's names; entries the batch does not name are untouched |
| Discovery.PutAllKeyed | miner/miner.js:350 | a batch of `set`s under each repository's full name keeps every entry under its own name |
| Discovery.PutIfAbsent | miner/miner.js:366-370 | the insert happens exactly when the key is absent, and is then a `set`; otherwise the map is unchanged |
| Discovery.PutAllAbsent | miner/miner.js:365-371 | a batch of guarded inserts never touches an existing entry, only appends keys, and counts exactly the keys it appended |
| Discovery.PutAllLastWins | miner/miner.js:346-357 | after a batch of `set`s a key holds the last repository of the batch with that name |
| Discovery.PutAllAbsentFirstWins | miner/miner.js:365-371 | after a batch of guarded inserts an absent key holds the first repository of the batch with that name |
| Discovery.NewCountIsFreshKeys | miner/miner.js:364-371 | `newCount` is the number of names in the batch that were not yet keys, and the appended keys are exactly those names |
| Discovery.Values | miner/miner.js:378 | `Array.from(allRepos.values())` lists one repository per key, in key insertion order |
| Discovery.DiscoveredUnique | miner/miner.js:338-378 | after the three discovery stages no two listed repositories share a full name |
| Discovery.DiscoveredStores | miner/miner.js:338-378 | a property that every repository returned by the trending, base and language lookups has, every merged repository has |
| Discovery.DiscoveredFromLookups | miner/miner.js:338-378 | nothing is invented: every merged repository is one that some lookup returned |
| Discovery.RepoIndex.Has | miner/miner.js:367 | `has` holds exactly when the key is in the map |
| Discovery.RepoIndex.Set | miner/miner.js:350 | `set` leaves the map equal to `Put` of the old map |
| Discovery.RepoIndex.SetAll | miner/miner.js:346-357 | a `forEach` of `set`s leaves the map equal to `PutAll` of the old map |
| Discovery.RepoIndex.SetAllAbsent | miner/miner.js:364-371 | the guarded `forEach` leaves the map equal to `PutAllAbsent` of the old map and returns its count |
| Discovery.RepoIndex.ValuesInOrder | miner/miner.js:378 | the values are read out in insertion order |
| Discovery.Discover | miner/miner.js:338-374 | the imperative discovery (ten trending lookups, the base batch, one guarded batch per language) builds exactly the specified map and per-language counts |
| Sorting.InsertPermutes | miner/miner.js:459 | one insertion adds exactly the inserted element |
| Sorting.SortDescPermutes | miner/miner.js:459 | the sort is a permutation of its input |
| Sorting.SortDescSorted | miner/miner.js:459 | the sort's output is in non-increasing key order |
| Sorting.SortDescStable | miner/miner.js:459 | the sort is stable: the elements sharing a key keep their input order |
| Sorting.SortDescConstantKey | src/components/Explorer.tsx:64 | a comparator that always returns 0 leaves the order unchanged |
| Sorting.SubsequenceSorted | miner/miner.js:466-477 | leaving elements out of a sorted sequence keeps it sorted |
| Sorting.SubsequenceWithKey | miner/miner.js:466-477 | leaving elements out keeps the order among equal keys |
| Sorting.SubsequenceTrans | miner/miner.js:378-477 | leaving elements out twice is leaving them out once, so the filter, the dropped failures and the cap compose |
| Sorting.InsertInPlace | miner/miner.js:459 | one insertion step on the array puts the next element where the stable insertion puts it and leaves the rest of the array alone |
| Sorting.SortDescInPlace | miner/miner.js:459 | the in-place array sort leaves the array equal to the stable descending sort of its old contents |
| Ranking.SplitCounts | miner/miner.js:469 | every gem is hype or not: the two counts add up to the total |
| Ranking.SelectBounds | miner/miner.js:463-472 | the selection holds at most the total cap, and at most the hype quota of hype gems |
| Ranking.SelectIsCappedUncapped | miner/miner.js:466-477 | the selection is the first min(cap, n) gems of the quota-only selection: the cap only truncates |
| Ranking.UncappedParts | miner/miner.js:469-476 | without a cap every non-hype gem is admitted, and the hype gems admitted are the first min(quota, hype) hype gems |
| Ranking.SelectLength | miner/miner.js:466-477 | the selection's length is min(cap, nonHype + min(quota, hype)) |
| Ranking.AllNonHypeAdmittedBelowCap | miner/miner.js:474-476 | when the cap is not reached, every non-hype gem is admitted |
| Ranking.SelectSubsequence | miner/miner.js:466-477 | the selection is a subsequence of the sorted list |
| Ranking.SelectGems | miner/miner.js:461-477 | the `for … break` loop with `push` and `hypeCount++` computes the specified selection, and `hypeCount` is its number of hype gems, at most the quota; at most the cap are pushed |
| Ranking.HypeCountSorted | miner/miner.js:459 | sorting does not change the number of hype and non-hype gems |
| Ranking.Rank | miner/miner.js:456-477 | copying into an array, sorting in place and selecting yields the selection of the stable sort, with its hype count |
| Ranking.RankedSorted | miner/miner.js:459-477 | the ranked list is in non-increasing score order |
| Ranking.RankedTiesKeepOrder | miner/miner.js:459-477 | gems with equal scores appear in the ranked list in the order of the scored list; `Miner.MinedTiesKeepDiscoveryOrder` carries this back to discovery order |
| Ranking.RankedLength | miner/miner.js:461-481 | the ranked list has min(cap, nonHype + min(quota, hype)) gems, counted over the scored input |
| Ranking.RankedFromInput | miner/miner.js:459-477 | every ranked gem is a scored gem |
| Miner.NonChurn | miner/miner.js:379 | a repository survives the churn filter exactly when it is discovered and not churn |
| Miner.NonChurnInOrder | miner/miner.js:378-379 | the survivors of the churn filter keep their discovery order |
| Miner.ScoreAll | miner/miner.js:378-456 | at most one record per repository |
| Miner.ScoreAllAppend | miner/miner.js:378-456 | records come out in repository order: scoring two lists one after the other gives the first list's records, then the second's |
| Miner.ScoreAllSubsequence | miner/miner.js:378-456 | scoring a subsequence of the repositories gives a subsequence of the records, in the same order |
| Miner.ScoreAllFrom | miner/miner.js:378-456 | every record comes from a discovered repository whose step succeeded |
| Miner.ScoreAllKeeps | miner/miner.js:450-456 | every repository whose step succeeds contributes its record: only failures are dropped |
| Miner.GetGems | miner/miner.js:326-483 | the pipeline produces the specified document, reports its hype count (at most the quota) and the per-language new counts |
| Miner.MinedBounded | miner/miner.js:461-483 | the document's count equals its number of gems, which is at most the cap; at most the quota are hype; scores are non-increasing |
| Miner.MinedTiesKeepDiscoveryOrder | miner/miner.js:377-477 | written gems that share a score appear in the order their repositories were discovered |
| Miner.MinedProvenance | miner/miner.js:378-456 | every written gem is the record of a discovered, non-churn repository whose step succeeded |
| Miner.MinedAccepted | miner/validate-output.js:5-53 | when every looked-up repository has a non-negative star count and URL-shaped URLs, the validator accepts whatever the miner writes |
| Validate.ValidateGems | miner/validate-output.js:37-65 | a document is accepted exactly when it was read and parsed, passes the schema and its count equals its number of gems; a schema failure is reported before the count |
| Validate.ExitStatus | miner/validate-output.js:40-65 | the exit status is 0 exactly when the document is accepted, and 1 otherwise |
| Validate.CountMismatchExitsOne | miner/validate-output.js:50-53 | a count that differs from the number of gems exits with status 1, as a count mismatch when the schema holds |
| Validate.ScoredRecordPassesSchema | miner/validate-output.js:5-29 | the record the miner assembles passes `GemSchema` given non-negative stars and URL-shaped URLs |
| Utils.CalculateMaintenanceScore | src/lib/utils.ts:25-31 | a null or empty timestamp gives 999; otherwise the result is the whole number of days between now and the timestamp |
| Utils.Symmetric | src/lib/utils.ts:29 | a timestamp d ms in the future gives the same value as one d ms in the past |
| Utils.MonotoneInNow | src/lib/utils.ts:29-30 | for a past timestamp, a later now never gives a smaller value |
| Utils.ExactDays | src/lib/utils.ts:30 | a timestamp exactly n days before now gives n |
| Utils.NineHundredNinetyNineDaysLikeNoMerge | src/lib/utils.ts:26-30 | a merge exactly 999 days ago is indistinguishable from no merge |
| Utils.AgreesWithMiner | src/lib/utils.ts:25-31 | the site's copy agrees with the miner's for every input |
| Utils.Precision | src/lib/utils.ts:12 | a negative precision is read as 0 |
| Utils.FormatBytes | src/lib/utils.ts:8-18 | a falsy byte count (0 or NaN) formats as "0 Bytes"; any other goes to the unit formatting |
| Utils.ZeroBytes | src/lib/utils.ts:9 | 0 and NaN both format as "0 Bytes" for every precision |
| Views.FilterGems | src/components/Explorer.tsx:37-59 | a gem is kept exactly when it is in the input and passes the three filters; nothing is added |
| Views.FilterSubsequence | src/components/Explorer.tsx:37-59 | the filter keeps the input order |
| Views.FilterCharacterized | src/components/Explorer.tsx:38-58 | with no-hype on, gems mentioning a hype word are hidden; a selected language keeps only that language; a non-empty query keeps exactly the gems whose lower-cased name, description or language contains the lower-cased query; an empty query excludes nothing |
| Views.MoreHypeWordsHideMore | src/app/page.tsx:54 | a longer hype-word list only hides more gems |
| Views.FilterOffIsIdentity | src/components/Explorer.tsx:37-59 | with every filter off, the filter returns its input |
| Views.SortGems | src/components/Explorer.tsx:60-65 | the sort keeps the length and the multiset of the filtered gems |
| Views.SortGemsOrders | src/components/Explorer.tsx:60-65 | "score" and "recent" give non-increasing score and push time, "stars" non-decreasing stars, and "saved" keeps the filtered order |
| Views.View | src/components/Explorer.tsx:36-66 | the rendered list holds exactly the input gems that pass the filters |
| Views.ViewIsPermutationWhenUnfiltered | src/components/Explorer.tsx:37-65 | with every filter off, the view is a permutation of the input |
| Views.StrLeTotal | src/components/Explorer.tsx:33 | the default string order compares any two strings |
| Views.StrLeTransitive | src/components/Explorer.tsx:33 | the default string order is transitive |
| Views.SortStringsSorted | src/components/Explorer.tsx:33 | `.sort()` with no comparator yields the strings in ascending order |
| Views.Distinct | src/components/Explorer.tsx:32 | `new Set` keeps each value once, and keeps exactly the values of the input |
| Views.NonEmptyDistinct | src/components/Explorer.tsx:33 | dropping the empty strings keeps distinct values distinct |
| Views.LanguagesCharacterized | src/components/Explorer.tsx:31-34 | the language list is sorted, contains "All", and holds exactly "All" and the non-empty gem languages |
| Views.LanguagesDistinct | src/components/Explorer.tsx:31-34 | no language is listed twice when no gem's language is "All" |
| Explorer.ExplorerView | src/components/Explorer.tsx:36-66 | the result contains only input gems; with no-hype on, none mentions one of the eleven words; a selected language is every result's language; every gem passing the filters is shown; "saved" keeps the filtered order |
| Explorer.ExplorerHypeIsMinerHype | src/components/Explorer.tsx:42-43 | every name and description the Explorer treats as hype, the miner's `isHype` treats as hype too |
| Page.AsSortOption | src/app/page.tsx:13 | the page offers score, recent and stars, never "saved" |
| Page.PageView | src/app/page.tsx:48-78 | the result contains only input gems; with no-hype on, none mentions one of the seven words |
| Page.PageShowsWhatExplorerShows | src/app/page.tsx:54 | on the same gems and view state, every gem the Explorer shows the page shows too |
| GemCard.ScoreLabel | src/components/GemCard.tsx:32-36 | the label is one of "Gold", "Silver", "Bronze" |
| GemCard.ScoreColor | src/components/GemCard.tsx:26-30 | the colour is one of the three tier colours |
| GemCard.BadgeIsBestEarnedTier | src/components/GemCard.tsx:26-36 | label and colour name the same tier, the best tier the score reaches: Gold from 90, Silver from 70, Bronze below |
| GemCard.BadgeMonotone | src/components/GemCard.tsx:32-36 | a higher score never gets a worse badge |
| GemCard.BadgeThresholds | src/components/GemCard.tsx:33-35 | 90 is Gold, 89.99 and 70 are Silver, 69.99 is Bronze |

## Left out

- Network and file I/O are inputs of the model, not modelled:
  - the Trending scrape, the Hacker News lookup, the LLM summary and the bundle-size lookup;
  - the GraphQL requests with their retries, pauses and pagination (`maxPages` is therefore not a field of `MiningConfig`);
  - `fs.writeFileSync`, `fs.existsSync` and `readFileSync`;
  - the `Promise.all` fan-out (the model runs the per-repository steps in order, which gives the same array);
  - all logging.
- The floating-point score formula (`log2`, `log10`, `sqrt`, `Math.round`) is the parameter `combine` over the exact terms. Only the terms and their positive divisors are modelled.
- `Activity.RoundCents` is `Math.round(x * 100) / 100` idealised on reals, with ties rounded up. Binary floating point is not modelled.
- Clock and calendar: every `new Date()` of one run is one `now`. The 30-day cutoff and the weekly windows are inputs. `setMonth`/`setDate` arithmetic and ISO date parsing are not modelled, and `pushed_at` is kept as milliseconds.
- `is_verified` is `Math.random() > 0.9`. That field is not part of the record, and neither is the random sparkline placeholder of the card.
- Lower-casing is ASCII only. Unicode case mapping is not modelled.
- zod's `.url()` check is the parameter `isUrl`. The JSON field types are fixed by the datatypes, so only the value constraints of the schema are checked, and an absent `license` is `None`.
- `Utils.FormatBytes`: only the falsy guard and the precision clamp are modelled. The unit selection (`Math.log`, `toFixed`) is the parameter `inUnits`.
- The examples "awesome-thing is no churn at all" and "database-driver is no hype" are not proved. The model proves the positive examples, and that "v12345" has no pattern (`Classifier.ShortNumberExample`).
- `Views.StrLe` compares characters as Unicode scalar values, as Dafny's `char` is. JavaScript's default sort compares UTF-16 code units. The two orders agree below U+10000 and can differ for text with characters above it.
- `Views.LanguagesDistinct`: requires that no gem's language is "All". A gem whose language is literally "All" would be listed twice.
- The comparators' arithmetic on NaN and on unparseable dates is not modelled. Keys are reals and push times are integers.
- `miner/miner.test.js` calls `calculateScore` with four arguments, and `src/__tests__/GemCard.test.tsx` asserts text the card does not render. Neither test is modelled; the behaviour follows the code.
- The card rendering, the modals, the command palette, the page's fetch with fallback and the other UI components are not modelled.
- A featured gem's description is the LLM summary, but `is_hype` is computed from the original description. The model keeps this, and `Derivation.ScoreRepo` states it.
