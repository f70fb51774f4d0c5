# Scan-food history store and nutrition display helpers in Dafny

This project models the logic of a mobile food-scanning app, in two parts.

- **The scan-history store.** This is a newest-first list of scan records kept under one storage key and capped at 100 records. It supports:
  - saving a scan;
  - reading the whole history;
  - filtering it by date prefix, by case-insensitive dish name, or by timestamp range;
  - deleting a record by id;
  - clearing the history;
  - computing statistics: scan count, calorie total, rounded mean health score, and the five most scanned dishes with their counts.
- **The display helpers.** These are the pure functions the cards use. They turn a nutrient value into a rounded percentage of a daily target. They sort percentages and health scores into colour and status bands. They pick a colour for a recommendation text, and they format the recognition confidence.

Storage, the clock and the date formatter are outside the model and come in as parameters:

- The stored value is `History.Stored`: `Absent`, `Corrupt` (unreadable or unparsable) or `Present(items)`.
- `writeOk` and `removeOk` say whether the storage write succeeded.
- A save reads the clock three times. The first two readings are `idMillis` (the id) and `stampMillis` (the timestamp). The third is formatted into the date string `date`.
- `toLowerCase` is the per-character map `fold`.

Module layout:

- `Wrappers`: `Option` and `Result`.
- `Text`: substring search, lower-casing, and decimal rendering of a clock reading.
- `Rounding`: `Math.round` on exact quotients and reals.
- `Seqs`: `filter` and the subsequence relation.
- `History`: the store.
- `HistoryStats`: the statistics.
- One module per display card: `NutritionComparisonCard`, `NutritionInfoPanel`, `FoodRecommendationCard` and `HistoryItemCard`.

The model follows the code where a stricter design would differ:

- Every read failure becomes the empty history. So a save on a corrupt store rewrites it holding just the new record, and a delete on a corrupt store rewrites it empty. A stricter design would have a corrupt store raise an error instead.
- Record ids are the decimal text of a clock reading, so they are not unique in general. `History.SameMillisecondCollides` shows two saves in the same millisecond sharing an id. `History.SaveKeepsIdsUnique` gives the condition under which a save keeps ids unique.

## Model

| member | source | states |
|---|---|---|
| History.GetHistory | src/services/historyService.ts:78-89 | Reading never fails: a missing key and an unreadable value both give the empty history, and a well-formed value reads back verbatim |
| History.Stamp | src/services/historyService.ts:46-57 | The new record carries every caller-supplied field unchanged. Its id is the decimal text of one clock reading and parses back to it. Its timestamp is the other reading and its date is the formatted string |
| History.PushCapped | src/services/historyService.ts:59-65 | Prepending and capping: the new item is at index 0, then the previous records in order, and the length is min(old + 1, 100) |
| History.SaveHistoryItem | src/services/historyService.ts:42-73 | A failed write gives the exact save error message. A successful one stores the new record first, then the previous history in order, cut from the tail to at most 100 records |
| History.SaveOnCorrupt | src/services/historyService.ts:42-73 | Because the read swallows errors, a save over an unreadable value stores exactly the one new record |
| History.SaveRespectsCap | src/services/historyService.ts:63-65 | After any save the history holds at most 100 records |
| History.SameMillisecondCollides | src/services/historyService.ts:48 | Two saves with the same clock reading give the two newest records the same id, so ids are not unique in general |
| History.SaveKeepsIdsUnique | src/services/historyService.ts:46-60 | If ids were pairwise distinct and the new reading's text is not among them, they stay pairwise distinct after the save |
| History.DistinctReadingsDistinctIds | src/services/historyService.ts:48 | Different clock readings always give different ids |
| History.PushAllNewestFirst | src/services/historyService.ts:59-65 | Over any run of saves, the history is the saved records newest first, followed by the earlier history, cut to the first 100 |
| History.SavesFromEmpty | src/services/historyService.ts:59-65 | From an empty store, up to 100 saves read back in reverse order of saving. A longer run keeps exactly the 100 most recent records, newest first |
| History.DeleteHistoryItem | src/services/historyService.ts:122-132 | A failed write gives the exact delete error message. A successful one stores an order-preserving subsequence: no record with the id remains, and every other record is kept as often as it occurred |
| History.DeleteAbsentIsNoop | src/services/historyService.ts:125-126 | Deleting an id no record carries writes back the same history |
| History.DeleteIdempotent | src/services/historyService.ts:125 | Deleting the same id twice gives what deleting it once gave |
| History.DeleteUndoesSave | src/services/historyService.ts:122-126 | Below the cap, deleting the id a save just assigned restores the previous history, provided no older record carries that id |
| History.DeleteOnCorrupt | src/services/historyService.ts:122-132 | A delete over an unreadable value stores the empty history |
| History.ClearHistory | src/services/historyService.ts:137-145 | After a successful clear, reading gives the empty history. A failed removal gives the exact clear error message |
| History.GetHistoryByDate | src/services/historyService.ts:94-102 | An order-preserving subsequence of the history holding exactly the records whose date starts with the prefix, each as often as in the history |
| History.GetHistoryByFood | src/services/historyService.ts:107-117 | An order-preserving subsequence holding exactly the records whose lower-cased name contains the lower-cased query, each as often as in the history |
| History.EmptyQueryMatchesAll | src/services/historyService.ts:110-112 | The empty query selects the whole history |
| History.GetHistoryByTimeRange | src/services/historyService.ts:209-222 | An order-preserving subsequence holding exactly the records with start <= timestamp <= end, both ends included |
| History.InvertedRangeIsEmpty | src/services/historyService.ts:215-217 | A range whose start is after its end selects nothing |
| Seqs.Filter | src/services/historyService.ts:125 | Filtering is an order-preserving subsequence whose elements all pass. Each passing element keeps its multiplicity and each failing one is gone |
| Text.Contains | src/services/historyService.ts:111 | `includes`: a text starting with the query contains it, and a query longer than the text is never contained |
| Text.DecimalString | src/services/historyService.ts:48 | `Date.now().toString()` for a non-negative reading: a non-empty string of decimal digits with no leading zero except for 0 itself |
| Text.ContainsAt | src/services/historyService.ts:111 | The recursive `includes` holds exactly when the query occurs at some position of the text |
| Text.Lower | src/services/historyService.ts:111 | Lower-casing keeps the length and maps every character by the case map |
| Text.ParseDecimalString | src/services/historyService.ts:48 | The decimal text of a reading parses back to that reading |
| Text.DecimalStringInjective | src/services/historyService.ts:48 | Different readings have different decimal texts |
| HistoryStats.Tally | src/services/historyService.ts:175-178 | The counting pass yields one entry per distinct dish with its exact number of occurrences, entries in order of first occurrence |
| HistoryStats.Bump | src/services/historyService.ts:177 | One counting step keeps every existing entry's name in place and adds at most one entry. `BumpSpec` states the counts |
| HistoryStats.BumpSpec | src/services/historyService.ts:177 | Counting a dish once more raises its entry by one in place, or appends it with count 1. No other entry changes |
| HistoryStats.SortByCount | src/services/historyService.ts:182 | The sort is a permutation of the table |
| HistoryStats.SortRanked | src/services/historyService.ts:180-182 | Sorting a first-occurrence-ordered table by descending count gives a list strictly descending in the count-then-first-occurrence order (`Before`). That is the stable sort's result |
| HistoryStats.RankedTally | src/services/historyService.ts:175-182 | The sorted table lists each distinct dish exactly once with its exact count, ranked by count and then by first occurrence |
| HistoryStats.FavoriteFoods | src/services/historyService.ts:180-183 | At most 5 entries, ranked, with exact counts. Any dish left out ranks after every dish kept, and it is left out only when 5 are kept |
| HistoryStats.FavoritesShape | src/services/historyService.ts:180-183 | The favourites have distinct names and non-increasing counts |
| HistoryStats.ReduceCaloriesIsSum | src/services/historyService.ts:171 | The left-to-right `reduce` from a start value adds exactly the calorie total. From 0 it is the total the statistics report |
| HistoryStats.ReduceHealthScoresIsSum | src/services/historyService.ts:172 | The left-to-right `reduce` of health scores from a start value adds exactly the score total the mean is computed from |
| HistoryStats.AverageHealthScore | src/services/historyService.ts:172 | The mean health score rounded half up: within one half of sum / n |
| HistoryStats.ComputeStats | src/services/historyService.ts:157-193 | An empty history gives zeros, '' and []. Otherwise: scans = length, calories = the sum, the rounded mean, the top-5 table, and the most scanned dish = the first favourite's name |
| HistoryStats.GetHistoryStats | src/services/historyService.ts:150-204 | The statistics of whatever reading gives. A missing or unreadable store gives the all-zero statistics |
| HistoryStats.MostScannedIsMode | src/services/historyService.ts:185 | The most scanned dish occurs in the history at least as often as any other dish |
| HistoryStats.StatsAfterClear | src/services/historyService.ts:160-168 | After a clear, the statistics are all zero |
| HistoryStats.StatsAfterSave | src/services/historyService.ts:170-171 | A save below the cap adds one scan and exactly the new record's calories |
| HistoryStats.ModeOfThreeScans | src/services/historyService.ts:175-185 | Two "pho" and one "banh_mi" in any order give "pho" as the most scanned dish, first with count 2 |
| HistoryStats.AverageOfThreeScores | src/services/historyService.ts:172 | Scores 80, 60 and 100 have a rounded mean of 80 |
| Rounding.RoundDiv | src/services/historyService.ts:190 | Math.round of an exact quotient n / d with d > 0: the integer within one half of it, halves going up |
| Rounding.RoundDivUnique | src/services/historyService.ts:190 | Only one integer is within one half of n / d in that sense, so the rounding is determined |
| Rounding.RoundReal | src/components/HistoryItemCard.tsx:35 | Math.round of an exact real: within one half, halves going up |
| NutritionComparisonCard.Percentage | src/components/NutritionComparisonCard.tsx:23-28 | 0 for a zero target. Otherwise the integer within one half of 100 * value / target, for either sign of the target |
| NutritionComparisonCard.PercentageWithinTarget | src/components/NutritionComparisonCard.tsx:23-28 | A value between zero and its target shows 0 to 100 percent |
| NutritionComparisonCard.PercentageMonotone | src/components/NutritionComparisonCard.tsx:27 | For a fixed positive target, a larger value never shows a smaller percentage |
| NutritionComparisonCard.BandMonotone | src/components/NutritionComparisonCard.tsx:30-54 | A larger percentage never falls in an earlier band |
| NutritionComparisonCard.NutrientColor | src/components/NutritionComparisonCard.tsx:30-41 | The colour is the band's entry among green, yellow, orange and red, with bands split at 25, 50 and 75 and each edge in the lower band |
| NutritionComparisonCard.NutrientStatus | src/components/NutritionComparisonCard.tsx:43-54 | The status is the same band's label among 'Tốt', 'Vừa phải', 'Cao' and 'Rất cao' |
| NutritionComparisonCard.StatusMatchesColor | src/components/NutritionComparisonCard.tsx:30-54 | Two percentages share a colour exactly when they share a status, and exactly when they share a band |
| NutritionComparisonCard.BandEdges | src/components/NutritionComparisonCard.tsx:30-41 | 25, 50 and 75 belong to the lower band, and 26, 51 and 76 to the next |
| NutritionComparisonCard.ProgressWidth | src/components/NutritionComparisonCard.tsx:89 | The bar width is the percentage clamped to at most 100 |
| NutritionComparisonCard.BalanceLabel | src/components/NutritionComparisonCard.tsx:152-158 | Exactly one of 'Tốt' and 'Cần chú ý': 'Tốt' exactly when the calorie percentage is at most 30 |
| NutritionComparisonCard.BalanceThreshold | src/components/NutritionComparisonCard.tsx:152-158 | With a positive target the label is 'Tốt' exactly when 200 * calories < 61 * target, that is below 30.5 percent. With a zero target it is always 'Tốt' |
| NutritionComparisonCard.RenderComparison | src/components/NutritionComparisonCard.tsx:63-89 | A row's colour and status come from the same band of its percentage, and the bar never exceeds 100. For a value within its target the bar equals the percentage |
| NutritionInfoPanel.CalculatePercentage | src/components/NutritionInfo.tsx:46-49 | 0 for a missing or zero target, and otherwise the same rounded percentage as the comparison card |
| NutritionInfoPanel.NutrientColor | src/components/NutritionInfo.tsx:51-55 | Three bands split at 25 and 50: green, yellow, red |
| NutritionInfoPanel.AgreesWithComparison | src/components/NutritionInfo.tsx:51-55 | The three-band colour equals the comparison card's colour up to 50 and above 75. Between them this panel shows red where the card shows orange |
| NutritionInfoPanel.RenderNutrientRow | src/components/NutritionInfo.tsx:63-83 | The percentage is 0 without a usable target. The colour is the neutral '#333' whenever percentages are hidden. The guarded children give one of three outcomes. Nothing is drawn when percentages are hidden or the target is missing. With percentages shown, a zero target leaves the number 0 as a bare child of the View, and any other target draws the percentage and target texts |
| NutritionInfoPanel.RowAgreesWithComparisonRow | src/components/NutritionInfo.tsx:63-65 | With a positive target and percentages shown, the row shows the comparison card's percentage for that nutrient and draws its texts. It also shows the card's colour whenever the percentage is at most 50 or above 75 |
| FoodRecommendationCard.RecommendationColor | src/components/FoodRecommendationCard.tsx:21-26 | The first marker found in rule order decides: 'NÊN ĂN' green, 'ĂN VỪA PHẢI' yellow, 'HẠN CHẾ' red. Grey exactly when none occurs |
| FoodRecommendationCard.FirstRuleWins | src/components/FoodRecommendationCard.tsx:21-24 | A text carrying 'HẠN CHẾ' before 'NÊN ĂN' is still green: rule order wins over text order |
| FoodRecommendationCard.HealthScoreColor | src/components/FoodRecommendationCard.tsx:28-32 | A score of at least 80 is green, at least 60 yellow, and otherwise red |
| FoodRecommendationCard.HealthScoreText | src/components/FoodRecommendationCard.tsx:34-38 | The wording of the same three tiers: 'Tuyệt vời', 'Tốt', 'Cần cải thiện' |
| FoodRecommendationCard.TextMatchesColor | src/components/FoodRecommendationCard.tsx:28-38 | Two scores share a colour exactly when they share a text |
| FoodRecommendationCard.ScoreEdges | src/components/FoodRecommendationCard.tsx:28-38 | 80 is in the top tier, 79 and 60 in the middle one, and 59 in the bottom one |
| HistoryItemCard.HealthScoreColor | src/components/HistoryItemCard.tsx:22-26 | A score of at least 80 is GREEN, at least 60 ORANGE, and otherwise RED: the recommendation card's tiers in this card's colours |
| HistoryItemCard.SameTiersAsRecommendationCard | src/components/HistoryItemCard.tsx:22-26 | Two scores share a colour on this card exactly when they share one on the recommendation card |
| HistoryItemCard.RecommendationColor | src/components/HistoryItemCard.tsx:28-32 | 'NÊN' anywhere wins with GREEN, then 'VỪA PHẢI' gives ORANGE, and every other text is RED. There is no neutral colour |
| HistoryItemCard.AgreesWithRecommendationCard | src/components/HistoryItemCard.tsx:28-32 | Recommendation-card green is green here and its yellow is never red here. Its red is red here exactly when the text holds neither 'NÊN' nor 'VỪA PHẢI' |
| HistoryItemCard.NegatedAdviceIsGreen | src/components/HistoryItemCard.tsx:28-29 | 'KHÔNG NÊN ĂN' ("should not eat") is shown green on both cards |
| HistoryItemCard.FormatConfidence | src/components/HistoryItemCard.tsx:34-36 | The shown percentage is within one half of confidence * 100, halves going up |
| HistoryItemCard.ConfidenceInRange | src/components/HistoryItemCard.tsx:34-36 | A confidence in [0, 1] is shown as a whole number from 0 to 100 |

## Left out

- Storage I/O and JSON. Reading, writing and removing the key, and JSON encoding and decoding, are not modelled. Their outcomes arrive as the `Stored` value and the `writeOk`/`removeOk` flags.
- Wrongly typed stored values. A stored value that parses as JSON but is not an array of records is outside the model. `Corrupt` stands for values that fail to read or parse.
- The clock and the date formatter. A save reads the clock three times: `Date.now()` for the id, `Date.now()` for the timestamp, and `new Date()` formatted by `toLocaleString('vi-VN', …)` into the date. All three are parameters of the save, because the clock and locale formatting are outside the program.
- Overlapping saves. Overlapping asynchronous read-modify-write sequences, and the updates they can lose, are concurrency. The model is sequential.
- Floating-point arithmetic. Percentages, the mean health score and the confidence are computed with exact rationals and then rounded. JavaScript doubles can land on the other side of a .5 boundary.
- History.GetHistoryByFood: `toLowerCase` is a per-character map passed as a parameter. Two kinds of Unicode case mapping are not modelled: those that change a string's length, and context-dependent ones such as capital sigma becoming final `ς` at the end of a word.
- HistoryStats.Tally: the counts are kept in a plain object literal, so a dish named after an `Object.prototype` property is not counted as the model says. Affected names include `__proto__`, `constructor`, `toString`, `valueOf` and `hasOwnProperty`. A single record named `__proto__` gives JavaScript no entry at all: the favourites are `[]` and the most scanned dish is `''`. The other inherited names produce string "counts" such as `"function Object() { [native code] }1"`, which the sort compares as NaN. The model treats every name as an ordinary own key, so its favourites, most scanned dish and tie order are not the program's for such names.
- HistoryStats.Tally: entries follow first occurrence, which is JavaScript's order for string keys. Dish names that look like array indices ("1", "42") are ordered numerically by JavaScript. The model does not cover that case, so for such names its tie order is not the program's.
- History.GetHistoryByTimeRange: the range ends are integers. An invalid `Date`, whose `getTime()` is NaN and which selects nothing, is not modelled.
- Numeric fields are modelled as integers: calories, the other nutrients, health scores, timestamps and targets. Confidence is a real.
- HistoryStats.GetHistoryStats: the error branch is not modelled separately, because the read it guards never fails in the model. It would give the same all-zero statistics as the empty history.
- Rendering. Only the values the card helpers compute are modelled (`ComparisonRow`, `NutrientRow`), not the layout that draws them.
- The rest of the app is not modelled: the network services, the user-profile storage, the screens, the other components and the configuration constants.
