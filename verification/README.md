# Burnout self-assessment: scoring engine and local history store

This project is a Dafny model of the two parts of the burnout self-assessment
web app that carry real logic:

- **The scoring engine** (`lib/scoring.ts`, `lib/questions.ts`). The survey
  has 39 items in five categories: emotional exhaustion `em`, reduced personal
  accomplishment `pe`, physical exhaustion `ph`, organizational conflict `or`
  and depersonalization `im`. A sparse map from item id to raw answer goes
  through these steps:
  - it becomes five category scores from 0 to 100. Items 12 and 14 are
    reverse-scored. Each category averages its answers and is rescaled from
    1..5 to 0..100. A category with no answers scores 0.
  - the scores combine into the ABO index, a weighted sum rounded half-up.
  - the index maps to one of four burnout levels.
  - the scores select one to three short "quick win" suggestions.
- **The browser history store** (`lib/storage.ts`). The browser's
  `localStorage` becomes a `map<string, Value>`. Each storage function is a
  pure transformer of that map: the capped anonymous result list, the
  per-user history with timestamp de-duplication, the temporary result moved
  into a user's history at sign-in, program applications with
  de-duplication by id and status updates, and the wipe done by
  `clearAllStorage`.

Files:

| file | module | models |
|---|---|---|
| `option.dfy` | `Optional` | optional values and JavaScript truthiness of optional strings |
| `questions.dfy` | `Questions` | the item table, the categories, their names and descriptions |
| `scoring.dfy` | `Scoring` | `calculateScores`, `calculateABOIndex`, `getBurnoutLevel`, the result record |
| `quickwins.dfy` | `QuickWins` | `getQuickWins` and the stable sort of the categories by score |
| `storage.dfy` | `Storage` | every function of `lib/storage.ts` except the debugging helpers |

How the model is built:

- `Scoring.CalculateScores` is the reference definition. For each category it
  tallies the adjusted answers to items 1..39. `Scoring.CalculateScoresByEntries`
  is the source's loop: it visits the answer keys in any order, looks up
  each key's category in the scoring code's own id→category map, and skips
  unknown ids. It is proved equal to the reference for every input.
- The category order `getQuickWins` uses comes from a stable sort of the
  score record's entries, descending by score. `QuickWins.SortByScore` is
  an insertion sort. It is proved to yield the order "higher score first,
  ties in key order em, pe, ph, or, im". `QuickWins.TopIsUnique` and
  `QuickWins.SecondIsUnique` show that any stable sort gives the same first
  and second place.
- `Math.random()` picks an item from a pool. Here that choice is the index
  parameters `topPick` and `secondPick`, each below the pool size of 3.
- A quick-win item is identified by its pool and position
  (`Pick(category, slot)`), or is the universal `DeepBreath` item.
- Scores are exact `real`s. Answers are `int`s.

## Model

| member | source | states |
|---|---|---|
| `Questions.ItemIdsAreOneToThirtyNine` | lib/questions.ts:10-59 | The table has exactly 39 items, with ids 1..39 in strictly ascending order, so no id repeats and item k is at index k-1. |
| `Questions.ItemCategoriesAndReversal` | lib/questions.ts:12-58 | Items 1-14 are em, 15-18 pe, 19-24 ph, 25-35 or, 36-39 im. `isReversed` holds exactly for items 12 and 14. |
| `Questions.CategorySizes` | lib/questions.ts:12-58 | The categories hold 14, 4, 6, 11 and 4 items. |
| `Questions.CategoryLabelsAreTotal` | lib/questions.ts:61-75 | Every category has a non-empty display name and a non-empty description. |
| `Questions.CategoryNamesAreDistinct` | lib/questions.ts:61-67 | No two categories share a display name. |
| `Scoring.CategoryMapFollowsRanges` | lib/scoring.ts:33-46 | The scoring code's hard-coded id→category map covers id 1..39 and gives each id the category of its range. |
| `Scoring.ScoringTablesAgreeWithQuestions` | lib/scoring.ts:33-49 | The scoring code's id→category map and reversed-item list agree with the question table: the same ids, the same category per id, and reversal exactly where the table marks `isReversed`. |
| `Scoring.CalculateScores` | lib/scoring.ts:23-84 | Reference definition of `calculateScores`. For each category it tallies the adjusted answers to the known items 1..39 and rescales their mean. Its properties are stated by the lemmas below. `CalculateScoresByEntries` shows the key-order loop computes it. `UnknownIdsIgnored` shows ids outside 1..39 do not matter. `ScoresInRange` bounds it to [0, 100] on the 1..5 scale. `UniformAnswersScore` and `SingleAnswerScore` pin down its value on uniform and single answers. |
| `Scoring.AdjustedScore` | lib/scoring.ts:57-62 | The value one answer adds to its category: 6 - score for items 12 and 14, the score itself otherwise. `AdjustedScoreMirrors` states its properties. |
| `Scoring.AdjustedScoreMirrors` | lib/scoring.ts:57-62 | Reverse scoring mirrors an answer around 3. Other items keep their answer. An answer on the 1..5 scale stays on it. |
| `Scoring.RescaledAverage` | lib/scoring.ts:75-81 | A category with no answers scores exactly 0. A tally of answers on the 1..5 scale rescales into 0..100. |
| `Scoring.TallyVisit` | lib/scoring.ts:52-64 | Visiting one more answer key changes a category's tally exactly when the id is a known item of that category. The answer then adds its adjusted value and one to the count. |
| `Scoring.CalculateScoresByEntries` | lib/scoring.ts:23-84 | The aggregation loop computes the reference scores, whatever order it visits the answer keys in. |
| `Scoring.SingleAnswerScore` | lib/scoring.ts:49-62 | A lone answer to item 12 or 14 contributes 6 - raw, and a lone answer to any other item contributes raw. Only that item's category gets a nonzero score. |
| `Scoring.UnknownIdsIgnored` | lib/scoring.ts:33-63 | Answers under ids outside 1..39 are ignored. The scores equal those of the answers restricted to 1..39. |
| `Scoring.UnansweredCategoryScoresZero` | lib/scoring.ts:67-81 | A category none of whose items is answered scores exactly 0. |
| `Scoring.ScoresInRange` | lib/scoring.ts:75-81 | If every answer is in 1..5, every category score is in [0, 100]. |
| `Scoring.RescaledUniform` | lib/scoring.ts:75-81 | A non-empty tally whose answers all count v rescales to (v - 1) / 4 * 100. |
| `Scoring.UniformAnswersScore` | lib/scoring.ts:57-81 | If every item is answered v, except items 12 and 14 answered 6 - v, then every category scores (v - 1) / 4 * 100. |
| `Scoring.WeightedScore` | lib/scoring.ts:88-95 | The weighted sum with weights 0.3, 0.2, 0.2, 0.2 and 0.1. The weights sum to one, so equal category scores give that score back. |
| `Scoring.CalculateABOIndex` | lib/scoring.ts:86-96 | The index is the integer r with r ≤ w + 0.5 < r + 1, where w = 0.3·em + 0.2·pe + 0.2·ph + 0.2·or + 0.1·im. This is Math.round, rounding half up. |
| `Scoring.ABOIndexInRange` | lib/scoring.ts:86-96 | Category scores in [0, 100] give an index in 0..100. |
| `Scoring.ABOIndexMonotone` | lib/scoring.ts:86-96 | Raising any category score never lowers the index. |
| `Scoring.GetBurnoutLevel` | lib/scoring.ts:98-103 | The level is safe iff the index is below 30, caution iff in [30, 50), warning iff in [50, 70), and danger iff 70 or more. |
| `Scoring.BurnoutLevelMonotone` | lib/scoring.ts:98-103 | A higher index never gives a lower level. |
| `Scoring.BurnoutLevelBoundaries` | lib/scoring.ts:98-103 | 29→safe, 30→caution, 49→caution, 50→warning, 69→warning, 70→danger, 100→danger. |
| `Scoring.MakeResult` | app/assessment/page.tsx:146-155 | The assembled result carries the scores of the answers, the ABO index of those scores and the level of that index. The index is in 0..100 when the answers are on the scale. |
| `Scoring.NoAnswersScoreZero` | lib/scoring.ts:67-81 | An empty answer map scores 0 in every category. |
| `Scoring.ZeroScoresZeroIndex` | lib/scoring.ts:86-96 | All-zero category scores give index 0. |
| `Scoring.EmptyAssessment` | lib/scoring.ts:67-103 | With no answers at all, every category scores 0, the index is 0 and the level is safe. |
| `QuickWins.Pool` | lib/scoring.ts:159-275 | Each category's pool holds three items, all of that category. |
| `QuickWins.SortByScore` | lib/scoring.ts:152-153 | The sort returns a permutation of the entries it is given. |
| `QuickWins.InsertKeepsOrder` | lib/scoring.ts:152-153 | Inserting a later entry into an ordered list keeps it ordered: higher score first, ties in key order. |
| `QuickWins.SortIsOrdered` | lib/scoring.ts:152-153 | Sorting entries given in key order yields the list ordered by descending score, with ties kept in key order. This is stability. |
| `QuickWins.Ranking` | lib/scoring.ts:152-153 | The ranking lists all five categories exactly once, in that order. |
| `QuickWins.Top` | lib/scoring.ts:155 | `sortedCategories[0]` scores at least as high as every other category and comes first in key order on a tie. |
| `QuickWins.Second` | lib/scoring.ts:156 | `sortedCategories[1]` is the same for every category except the top one. |
| `QuickWins.TopIsUnique` | lib/scoring.ts:152-155 | Only one category can precede all others, so every stable sort yields the same top category. |
| `QuickWins.SecondIsUnique` | lib/scoring.ts:152-156 | The second place is likewise determined by the order alone. |
| `QuickWins.TiesKeepKeyOrder` | lib/scoring.ts:152-156 | With all scores equal, em comes first and pe second. |
| `QuickWins.Take` | lib/scoring.ts:296 | `slice(0, n)` keeps the first min(n, length) entries unchanged. |
| `QuickWins.Candidates` | lib/scoring.ts:277-294 | The list built before the slice has one to three entries and always ends with the deep-breath item. |
| `QuickWins.GetQuickWins` | lib/scoring.ts:148-297 | There are 1 + [top > 50] + [second > 40] quick wins, and the last is always the deep-breath item. All others are category picks: the `topPick`-th item of the top pool when top > 50, and the `secondPick`-th item of the second pool when second > 40. |
| `QuickWins.SliceNeverTruncates` | lib/scoring.ts:277-296 | The final slice(0, 3) never removes anything, so there are always 1 to 3 quick wins. |
| `QuickWins.PicksComeFromWorstCategories` | lib/scoring.ts:277-285 | Every category-specific quick win comes from the top category's pool (only if it scores above 50) or from the second category's pool (only if it scores above 40). |
| `QuickWins.OnlyDeepBreathWhenMild` | lib/scoring.ts:277-296 | If no category scores above 40, the only quick win is the deep-breath item. |
| `Optional.OrElse` | lib/storage.ts:221 | `s \|\| fallback` on an optional string gives s when s is present and non-empty, else the fallback. |
| `Storage.AppendCapped` | lib/storage.ts:55-60 | Push then shift once past the cap. The new element is last. The rest is the newest part of the old list, in order. The length grows by one, except past the cap, where it stays the same. |
| `Storage.SaveAnswers` | lib/storage.ts:33-37 | Only the current-answers key changes. |
| `Storage.GetAnswers` | lib/storage.ts:39-45 | Answers are returned exactly when the current-answers key holds some, and they are the stored map. |
| `Storage.ClearAnswers` | lib/storage.ts:47-51 | The current-answers key is gone, and nothing else changes. |
| `Storage.AnswersRoundTrip` | lib/storage.ts:33-51 | Saved answers read back unchanged. After clearing, they read back as null. |
| `Storage.SaveDemographics` | lib/storage.ts:78-82 | Only the demographics key changes. |
| `Storage.GetDemographics` | lib/storage.ts:84-90 | Demographics are returned exactly when the demographics key holds some, and they are the stored value. |
| `Storage.DemographicsRoundTrip` | lib/storage.ts:78-90 | Saved demographics read back unchanged. |
| `Storage.GetResults` | lib/storage.ts:65-71 | The stored result list, or empty when the key is missing. |
| `Storage.SaveResult` | lib/storage.ts:53-62 | The new result is last. Below 10 entries it is simply appended. At 10 or more, exactly the oldest entry is dropped and the rest keep their order. No other key changes. |
| `Storage.GetLatestResult` | lib/storage.ts:73-76 | Null iff the list is empty, otherwise its last element. |
| `Storage.LatestAfterSave` | lib/storage.ts:53-76 | After saveResult, the latest result is the one just saved. |
| `Storage.SaveResultKeepsCap` | lib/storage.ts:53-62 | A list of at most 10 results stays at most 10 long. |
| `Storage.HistoryKeyIsDistinct` | lib/storage.ts:97-119 | A user's history key never coincides with the latest-result, temp-result or anonymous result-list key. |
| `Storage.GetUserResults` | lib/storage.ts:124-131 | A user's stored history, or empty when the key is missing. |
| `Storage.AddToHistory` | lib/storage.ts:97-112 | If the history has a result with the same timestamp, the store is unchanged. Otherwise only that history changes, gaining the result with the cap of 20. |
| `Storage.SaveUserResult` | lib/storage.ts:93-122 | The result is always written under `abo_latest_result` (the key the result page reads; `getLatestResult` does not see it). With a user id, a duplicate timestamp leaves the history untouched. Otherwise the result is appended, and at 20 or more entries only the oldest is dropped. Without a user id, the result becomes the temp result and no history changes. No other key changes. |
| `Storage.SaveUserResultLeavesLatestResultAlone` | lib/storage.ts:73-76 | `saveUserResult` never writes the anonymous result list, so `getResults` and `getLatestResult` return the same as before it. |
| `Storage.UserHistoryCapPreserved` | lib/storage.ts:100-112 | A history of at most 20 entries stays within 20. A longer one is not cut back, because each save drops only one entry. |
| `Storage.UserHistoryTimestampsStayDistinct` | lib/storage.ts:100-112 | If a history's timestamps are distinct, they stay distinct after a save. |
| `Storage.SaveUserResultIdempotent` | lib/storage.ts:93-122 | Saving the same result twice leaves the same store as saving it once. |
| `Storage.GetTempResult` | lib/storage.ts:133-139 | The temp result, or null when the key is missing. |
| `Storage.ClearTempResult` | lib/storage.ts:141-145 | The temp result is gone, and nothing else changes. |
| `Storage.MigrateTemporaryResult` | lib/storage.ts:147-168 | With no temp result the store is unchanged. Otherwise the temp result is appended to the user's history, with no de-duplication and no cap, and the temp key is removed. Every other key is untouched. |
| `Storage.AnonymousSaveThenMigrate` | lib/storage.ts:116-167 | A result saved before sign-in and then migrated ends up last in the user's history. No temp result is left, and `abo_latest_result` still holds it. |
| `Storage.MigrateIdempotent` | lib/storage.ts:147-168 | A second migration changes nothing. |
| `Storage.GetUserProgramApplications` | lib/storage.ts:235-242 | An owner's stored applications, or empty when the key is missing. |
| `Storage.ApplicationsKeyInjective` | lib/storage.ts:219-221 | Different owners have different application keys. |
| `Storage.WriteKey` | lib/storage.ts:219-221 | The key the application is written under: the user's, else the session's, else `anonymous`. It equals the key the existing list is read from exactly when the application has a user id. |
| `Storage.ReadKey` | lib/storage.ts:223 | The key `getUserProgramApplications(application.userId \|\| '')` reads. |
| `Storage.SaveProgramApplication` | lib/storage.ts:217-233 | As written: if the list read back already has the id, the store is unchanged. Otherwise the write key holds that list plus the application, and nothing else changes. |
| `Storage.SignedInApplicationStoredOnce` | lib/storage.ts:217-233 | For a signed-in user, ids in the user's list stay distinct and the application is in the list afterwards. |
| `Storage.AnonymousApplicationIsLost` | lib/storage.ts:219-229 | Two anonymous applications saved in one session leave only the second one under the session key. |
| `Storage.SaveProgramApplicationFixed` | lib/storage.ts:217-233 | Corrected: the list is read from the key it is written to. Otherwise the behaviour is the same. |
| `Storage.FixedApplicationStoredOnce` | lib/storage.ts:217-233 | With the fix, every owner's list keeps distinct ids and contains the application afterwards. |
| `Storage.FixedAnonymousApplicationsAccumulate` | lib/storage.ts:217-233 | With the fix, two anonymous applications in one session are both kept, in order. |
| `Storage.FixAgreesForSignedInUsers` | lib/storage.ts:217-233 | For applications with a user id, the fix behaves exactly like the code as written. |
| `Storage.WithStatus` | lib/storage.ts:247-249 | Same length. Entries with the id get the new status. Every entry is unchanged apart from its status. |
| `Storage.UpdateProgramApplicationStatus` | lib/storage.ts:244-255 | The list keeps its length and order. Only the status of matching entries changes. Non-matching entries are unchanged. The key is written even when nothing matches. No other key changes. |
| `Storage.UpdateStatusIdempotent` | lib/storage.ts:244-255 | Setting the same status twice leaves the same store as setting it once. |
| `Storage.UpdateStatusKeepsIds` | lib/storage.ts:244-255 | Every entry keeps its id. |
| `Storage.ClearAllStorage` | lib/storage.ts:196-214 | A key survives iff it is not one of the five named keys and does not contain `abo_results_history_`. Survivors keep their values. |
| `Storage.ClearAllRemovesEveryHistory` | lib/storage.ts:204-210 | Every user's result history is removed. |
| `Storage.ClearAllKeepsResultsAndApplications` | lib/storage.ts:196-214 | The anonymous result list survives. So does the application list of any owner whose name does not itself contain the history pattern. |
| `Storage.ClearAllIdempotent` | lib/storage.ts:196-214 | Clearing twice is the same as clearing once. |

## Findings

| source | as written | input that shows it | evidently intended | confidence | as-written member | corrected member |
|---|---|---|---|---|---|---|
| lib/storage.ts:219-229 | For an application without a user id, the existing list is read from `abo_program_applications_` (empty user). It is then written, with the new application appended, to `abo_program_applications_<sessionId or anonymous>`. | Two applications with different ids, no user id and the same session id, saved into an empty store. The session key ends up holding only the second one, and the first is lost. | Read the list from the same key it is written to. Each session then accumulates its applications, de-duplicated by id. | not executed; medium: the current program page always sets a user id, so only a caller without one reaches this path | `Storage.SaveProgramApplication`, `Storage.AnonymousApplicationIsLost` | `Storage.SaveProgramApplicationFixed`, `Storage.FixedAnonymousApplicationsAccumulate`, `Storage.FixedApplicationStoredOnce` |

## Left out

- `getLevelInfo`, the item prompt texts and the quick-win texts (emoji, title, description, duration, label) are presentation data only. Quick wins are identified by pool and position instead.
- `getCurrentUser` and `debugStorage` are left out: the first returns an opaque user record, and the second only logs. All `console.log` calls are left out.
- The `typeof window` guards are left out. On the server every storage function is a no-op, and the model describes the browser.
- JSON encoding and decoding are taken as the identity. A key holding a value of the wrong shape reads as empty or null here, whereas the source would hand back whatever `JSON.parse` produced.
- Answer keys are integers. `parseInt` applied to a non-canonical key (for example "1.5" read as item 1) is not modelled.
- Answers are integers and scores are exact reals. IEEE-754 rounding, including `Math.round` on values within rounding error of a .5 tie, is not modelled.
- `CategoryScores` has exactly the five category fields. The TypeScript index signature would let extra keys join the sort in `getQuickWins`; the model does not allow that. The tie order of that sort follows the `Object.entries` key order. The model assumes the keys come in the order em, pe, ph, or, im. `calculateScores` builds its record in that order, but a scores object loaded back from the hosted database may not keep it.
- `Math.random` is replaced by the index parameters of `QuickWins.GetQuickWins`.
- The timestamp and demographics of a result are parameters of `Scoring.MakeResult`. Reading the clock and validating the demographics in the assessment page are not part of this model.
- `lib/storage-migration.ts`, `lib/api/*.ts` and `lib/supabase.ts` are not part of this model. They choose between the hosted database and this local store, and make asynchronous SDK calls.
- The pages and components under `app/` and `components/` are not part of this model. The one exception is the result assembly at app/assessment/page.tsx:146-155.
