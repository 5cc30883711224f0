# Village development index: scoring engine and derived views

This project models the core of a village development index application
(Indeks Desa). An assessment gives each of 48 indicators of one village a score
from 1 to 5. The server's `calculate` handler groups the scores into six
weighted dimensions by the first digit of the indicator code. It normalises
each dimension's mean to 0..100, adds up the weighted total and classifies the
total into one of five development statuses, from "Sangat Tertinggal" to
"Mandiri".

Around that engine the model covers:

- the client's indicator catalog and its status-colour lookup;
- the storage layer's value upsert, cascade delete and assessment queries,
  with each table modelled as a sequence of rows held by a `Database` class;
- the URL templating helper and the 1..5 input constraint of the values update;
- the data that four pages derive from the assessments:
  - the dashboard's counts and averages;
  - the assessment list's search, grouping and create guard;
  - the detail page's form state, save payload, progress and tab navigation;
  - the profile page's validation.

Scores are Dafny `real`s, which are exact. `toFixed` is modelled as rounding
half away from zero to the given number of decimals. Loops of the source are
methods whose loop invariants tie them to recursive specification functions.
The lemmas state the properties of those functions.

Modules, one per source file:

- `ServerRoutes`: `server_routes.dfy`
- `Indicators`: `indicators.dfy`
- `Storage`: `storage.dfy`
- `SharedRoutes`: `shared_routes.dfy`
- `Dashboard`: `dashboard.dfy`
- `AssessmentList`: `assessment_list.dfy`
- `DetailPage`: `detail.dfy`
- `Profile`: `profile.dfy`

Supporting modules:

- `Schema`: row types.
- `Text`: the JavaScript string and number operations used.
- `Seqs`: filter and count.
- `Wrappers`: `Option`.

## Model

| member | source | states |
|---|---|---|
| ServerRoutes.WeightsSumTo100 | server/routes.ts:9-16 | The six server weights add up to exactly 100 and each is positive. |
| ServerRoutes.PrefixesAreDigits | server/routes.ts:9-16 | There are six dimensions and the k-th prefix is the single digit k+1. |
| ServerRoutes.PrefixesDisjoint | server/routes.ts:9-16 | A code starts with at most one dimension prefix, and a code that does not start with '1'..'6' belongs to none. |
| ServerRoutes.MatchingValuesMembers | server/routes.ts:112 | The values kept for a dimension are exactly the values whose code starts with its prefix. |
| ServerRoutes.MatchingValuesAppend | server/routes.ts:112 | Appending a value extends a dimension's matches by that value exactly when its code has the prefix. |
| ServerRoutes.MatchingValuesEmpty | server/routes.ts:112-113 | A dimension has no values exactly when no code starts with its prefix. |
| ServerRoutes.ComputeScores | server/routes.ts:106-142 | The loop over the dimensions builds the score map and the weighted total of the specification, and the status is the band of that total. |
| ServerRoutes.PrefixStep | server/routes.ts:111-133 | One loop iteration adds the next dimension's score to the map and its weighted share to the total. |
| ServerRoutes.TotalStep | server/routes.ts:133 | The running total after dimension d is the total before plus score·weight/100. |
| ServerRoutes.Calculate | server/routes.ts:101-151 | A missing assessment gives not-found and changes nothing. Otherwise the assessment's rows get the status, the total rounded to two decimals and the six scores, all computed afresh from its current values; value rows and villages are unchanged and the assessment is still found afterwards. |
| ServerRoutes.Recalculated | server/routes.ts:144-148 | Writing the scores keeps every row, its id and its village. |
| ServerRoutes.RecalculateIdempotent | server/routes.ts:101-151 | Calculating twice with unchanged values leaves the assessments as calculating once did; Calculate finds the assessment again afterwards, so the second call returns the same scores. |
| ServerRoutes.ScoreMapEntries | server/routes.ts:111-130 | With distinct names, every dimension has an entry in the score map, holding its own score. |
| ServerRoutes.ScoreMapKeys | server/routes.ts:106-130 | The score map's keys are exactly the dimension names. |
| ServerRoutes.DimensionNamesDistinct | server/routes.ts:9-16 | The six dimension names are distinct. |
| ServerRoutes.ScoreMapHasAllSixNames | server/routes.ts:9-130 | Every calculation records all six names, whatever the values. |
| ServerRoutes.ScoreMapAt | server/routes.ts:111-130 | The entry of the k-th dimension is that dimension's score. |
| ServerRoutes.EmptyDimensionScoresZero | server/routes.ts:113-116 | A dimension without any matching value scores exactly 0. |
| ServerRoutes.SumBounds | server/routes.ts:118 | A sum of n values in [lo, hi] lies in [n·lo, n·hi]. |
| ServerRoutes.MatchingInRange | server/routes.ts:112 | The matches of a dimension keep the 1..5 range of the input. |
| ServerRoutes.DimensionScoreRange | server/routes.ts:113-128 | With values in 1..5, an empty dimension scores 0 and a non-empty one scores between 20 and 100. |
| ServerRoutes.UniformDimensionScore | server/routes.ts:118-128 | A dimension whose values all equal v scores 20·v, so all 5s give 100 and all 1s give 20. |
| ServerRoutes.MatchingUniform | server/routes.ts:112 | If all prefixed values equal v, so do all matches. |
| ServerRoutes.WeightedTotalBounds | server/routes.ts:133 | With values in 1..5 and non-negative weights, the total lies between 0 and the sum of the weights. |
| ServerRoutes.TotalInRange | server/routes.ts:9-133 | With values in 1..5 the total lies in [0, 100]. |
| ServerRoutes.WeightedTotalOfEqualScores | server/routes.ts:133 | When every dimension scores s, the total is s times the weight sum over 100. |
| ServerRoutes.TotalOfEqualScores | server/routes.ts:9-133 | When all six dimensions score s, the total is s. |
| ServerRoutes.StatusBands | server/routes.ts:137-142 | Each status is given exactly on its band: below 30, [30,50), [50,70), [70,90), and 90 or more; a boundary goes to the upper band. |
| ServerRoutes.StatusMonotone | server/routes.ts:137-142 | A larger total never gets a lower status. |
| ServerRoutes.StatusOfRoundedTotal | server/routes.ts:137-145 | The status of the unrounded total differs from that of the stored two-decimal total only just below a threshold; 29.996 is stored as 30.00 yet labelled "Sangat Tertinggal". |
| ServerRoutes.ForeignCodeIgnored | server/routes.ts:9-112 | A value whose code does not start with '1'..'6' changes neither the scores nor the total. |
| ServerRoutes.ForeignCodeIgnoredPrefix | server/routes.ts:111-133 | Values that change no dimension score change neither the map nor the total. |
| ServerRoutes.NoValuesScenario | server/routes.ts:111-142 | No values give six scores of 0, a total of 0 and "Sangat Tertinggal". |
| ServerRoutes.SingleEconomyValueScenario | server/routes.ts:111-142 | The single value 3 for "3.1" gives Ekonomi 60, the other five 0, a total of 15.12 and "Sangat Tertinggal". |
| ServerRoutes.AllFoursScenario | server/routes.ts:111-142 | All values 4, with every dimension answered, give six scores of 80, a total of 80 and "Maju". |
| Indicators.CodeShape | client/src/lib/indicators.ts:32-191 | The code "d.k" is the digit d, a dot and the one or two digits of k. |
| Indicators.PendidikanCodes | client/src/lib/indicators.ts:28-37 | Pendidikan holds the codes 1.1 to 1.4, in order. |
| Indicators.KesehatanCodes | client/src/lib/indicators.ts:38-47 | Kesehatan holds the codes 1.5 to 1.8. |
| Indicators.UtilitasDasarCodes | client/src/lib/indicators.ts:48-58 | Utilitas Dasar holds the codes 1.9 to 1.13. |
| Indicators.AktivitasMasyarakatCodes | client/src/lib/indicators.ts:67-76 | Aktivitas Masyarakat holds the codes 2.1 to 2.4. |
| Indicators.FasilitasMasyarakatCodes | client/src/lib/indicators.ts:77-86 | Fasilitas Masyarakat holds the codes 2.5 to 2.8. |
| Indicators.ProduksiDesaCodes | client/src/lib/indicators.ts:95-103 | Produksi Desa holds the codes 3.1 to 3.3. |
| Indicators.FasilitasPendukungEkonomiCodes | client/src/lib/indicators.ts:104-118 | Fasilitas Pendukung Ekonomi holds the codes 3.4 to 3.12. |
| Indicators.PengelolaanLingkunganCodes | client/src/lib/indicators.ts:127-135 | Pengelolaan Lingkungan holds the codes 4.1 to 4.3. |
| Indicators.PenanggulanganBencanaCodes | client/src/lib/indicators.ts:136-143 | Penanggulangan Bencana holds the codes 4.4 and 4.5. |
| Indicators.KondisiAksesJalanCodes | client/src/lib/indicators.ts:152-160 | Kondisi Akses Jalan holds the codes 5.1 to 5.3. |
| Indicators.KemudahanAksesCodes | client/src/lib/indicators.ts:161-168 | Kemudahan Akses holds the codes 5.4 and 5.5. |
| Indicators.KelembagaanDanPelayananCodes | client/src/lib/indicators.ts:177-185 | Kelembagaan dan Pelayanan holds the codes 6.1 to 6.3. |
| Indicators.TataKelolaKeuanganCodes | client/src/lib/indicators.ts:186-193 | Tata Kelola Keuangan holds the codes 6.4 and 6.5. |
| Indicators.LayananDasarCodes | client/src/lib/indicators.ts:22-60 | Dimension 1 lists the codes 1.1 to 1.13 in order. |
| Indicators.SosialCodes | client/src/lib/indicators.ts:61-88 | Dimension 2 lists the codes 2.1 to 2.8. |
| Indicators.EkonomiCodes | client/src/lib/indicators.ts:89-120 | Dimension 3 lists the codes 3.1 to 3.12. |
| Indicators.LingkunganCodes | client/src/lib/indicators.ts:121-145 | Dimension 4 lists the codes 4.1 to 4.5. |
| Indicators.AksesibilitasCodes | client/src/lib/indicators.ts:146-170 | Dimension 5 lists the codes 5.1 to 5.5. |
| Indicators.TataKelolaCodes | client/src/lib/indicators.ts:171-195 | Dimension 6 lists the codes 6.1 to 6.5. |
| Indicators.CodesNumbered | client/src/lib/indicators.ts:21-196 | The catalog has six dimensions; the k-th has id k+1 and the codes "(k+1).1" to "(k+1).n" for its count n of 13, 8, 12, 5, 5, 5. |
| Indicators.CatalogSize | client/src/lib/indicators.ts:21-196 | The catalog holds 48 indicators. |
| Indicators.CodeInjective | client/src/lib/indicators.ts:32-191 | Two codes "d.k" are equal only for the same dimension and number. |
| Indicators.CodesUnique | client/src/lib/indicators.ts:32-191 | No indicator code appears twice anywhere in the catalog. |
| Indicators.RangesDisjoint | client/src/lib/indicators.ts:32-191 | Code runs of different dimensions share no code, and within a run each position has its own code. |
| Indicators.ServerAssignsOwnDimension | client/src/lib/indicators.ts:32-191 | The server's prefix match assigns every catalog code to its own dimension and to no other. |
| Indicators.OwnPrefix | server/routes.ts:9-16 | The code "d.k" for d in 1..6 starts with the prefix of server dimension d only. |
| Indicators.CatalogMatchesServer | client/src/lib/indicators.ts:21-196 | The catalog and the server table list the same six names and weights in the same order, and each server prefix is the rendered catalog id. |
| Indicators.CatalogWeightsSumTo100 | client/src/lib/indicators.ts:25-174 | The catalog weights 26.77, 13.39, 25.20, 14.17, 7.87 and 12.60 add up to exactly 100. |
| Indicators.Badge | client/src/lib/indicators.ts:200-205 | A badge is "bg-", the hue, "-100 text-", the hue, "-800 border-", the hue, "-200": the hue names the background, text and border colour. |
| Indicators.BadgeInjective | client/src/lib/indicators.ts:200-205 | Different hues give different badge classes. |
| Indicators.StatusOfLower | client/src/lib/indicators.ts:199-204 | A matched case is the lower-cased label of the status it returns. |
| Indicators.LowerLabels | client/src/lib/indicators.ts:200-204 | The five switch cases are the five status labels lower-cased. |
| Indicators.StatusOfLowerLabel | client/src/lib/indicators.ts:199-204 | Every status label, lower-cased, selects its own case. |
| Indicators.ColorsDistinct | client/src/lib/indicators.ts:200-205 | The five statuses have five different colours, none of them the gray default. |
| Indicators.StatusColorIff | client/src/lib/indicators.ts:198-204 | A status string gets a status's colour exactly when it equals that label ignoring case. |
| Indicators.StatusColorDefault | client/src/lib/indicators.ts:199-205 | The gray default is returned exactly for a missing status or a string that is no label in any case. |
| Indicators.StatusColorIgnoresCase | client/src/lib/indicators.ts:199 | Lower-casing the input first does not change the colour. |
| Storage.FindFrom | server/storage.ts:169-175 | The search from position k finds the first row with the key at or after k, or reports that there is none. |
| Storage.FindRow | server/storage.ts:169-176 | The row updated for a key is the first row holding it; none is found only when no row holds it. |
| Storage.CodesCons | server/storage.ts:167 | The codes of an input are its first code plus the codes of the rest. |
| Storage.LastValueIsLastOccurrence | server/storage.ts:167-187 | The value that wins for a code is the value of its last occurrence in the input. |
| Storage.SameKeysFindRow | server/storage.ts:176-179 | Overwriting values leaves the position of every key unchanged. |
| Storage.UpsertFinds | server/storage.ts:169-186 | After one upsert the key is present and its first row holds the new value. |
| Storage.UpsertAllKeepsKeysUnique | server/storage.ts:169-186 | If no key held two rows before the upsert loop, none does after. |
| Storage.UpsertAllFrame | server/storage.ts:167-186 | Existing rows keep their keys. Rows of other assessments, and rows whose codes are not in the input, keep their values. New rows belong to this assessment and an input code. |
| Storage.UpsertAllLastWins | server/storage.ts:167-187 | After the loop, every input code has a row, and its first row holds the code's last value in the input. |
| Storage.Overwritten | server/storage.ts:176-179 | Overwriting in place keeps the number of rows. |
| Storage.UpsertAllOnPresentKeys | server/storage.ts:169-179 | When every input code already has a row, the loop only overwrites values and inserts nothing. |
| Storage.UpsertAllIdempotent | server/storage.ts:160-187 | Applying the same input twice leaves the same table as applying it once. |
| Storage.FindVillage | server/storage.ts:105 | The joined village is a village with the assessment's village id, or there is none. |
| Storage.Join | server/storage.ts:100-105 | The inner join holds exactly the assessments that have a village, each paired with that village. |
| Storage.InsertByYear | server/storage.ts:111 | Inserting into a list sorted by descending year keeps it sorted and adds exactly that element. |
| Storage.ConsSorted | server/storage.ts:111 | A head whose year is at least every later year extends a sorted list. |
| Storage.TailBelowHead | server/storage.ts:111 | Every element inserted behind the head has a year of at most the head's. |
| Storage.SortByYearDesc | server/storage.ts:111 | The ordering is sorted by descending year and is a permutation of its input. |
| Storage.FirstWithId | server/storage.ts:143-149 | The returned row is an assessment with this id, or there is none. |
| Storage.FirstJoinedWithId | server/storage.ts:119-127 | The first joined row has this id, or no joined row has it. |
| Storage.SetDerived | server/storage.ts:143-149 | Updating the derived fields keeps the number of assessments. |
| Storage.SetDerivedIdempotent | server/storage.ts:143-149 | Writing the same derived fields twice equals writing them once. |
| Storage.Database.constructor | server/storage.ts:1-192 | A database starts with the given villages, assessments and value rows. |
| Storage.Database.GetAssessments | server/storage.ts:95-116 | The result is sorted by descending year and holds, as a permutation, exactly the joined assessments that pass the filters. A village or year filter applies only when its argument is present and not 0. |
| Storage.Database.GetAssessment | server/storage.ts:118-136 | The result is an assessment with this id, its village and all of its value rows. Not found means no assessment with this id has a village. |
| Storage.Database.UpdateAssessment | server/storage.ts:143-149 | Every assessment with this id gets the status, total and scores. The first one is returned, and the other tables are unchanged. |
| Storage.Database.BulkUpdateAssessmentValues | server/storage.ts:160-187 | The loop over the input leaves the value table equal to the specification upsert of all items; the other tables are unchanged and key uniqueness is preserved. |
| Storage.Database.DeleteAssessment | server/storage.ts:151-154 | Every value row of the assessment and the assessment itself are removed, other rows kept; afterwards the assessment is not found. |
| SharedRoutes.BuildUrl | shared/routes.ts:149-159 | Without params the path is returned unchanged. With params, each entry whose placeholder occurs replaces the first occurrence in the url so far, in entry order. The value is inserted as `String.prototype.replace` inserts it, with "$$", "$&", "$`" and "$'" expanded. |
| SharedRoutes.MissingKeysIgnored | shared/routes.ts:153 | Params whose placeholder does not occur in the url leave it unchanged. |
| SharedRoutes.SubstituteFirst | shared/routes.ts:153-154 | Only the first occurrence of the placeholder is replaced. The text before and after it is kept, and the rendered value goes in with its "$" patterns expanded against that text. A value without "$" goes in literally. |
| Text.Expand | shared/routes.ts:154 | A replacement without "$" is inserted as it is. |
| SharedRoutes.NumberHasNoDollar | shared/routes.ts:153-154 | A numeric parameter renders without "$", so it is always inserted literally. |
| SharedRoutes.MatchPatternKeepsPlaceholder | shared/routes.ts:153-154 | A string value "$&" puts the matched placeholder back: "/a/:id" stays "/a/:id". |
| SharedRoutes.DollarPatternInsertsOneDollar | shared/routes.ts:153-154 | A string value "$$" inserts one "$": "/a/:id" becomes "/a/$". |
| SharedRoutes.AfterPatternCopiesRest | shared/routes.ts:153-154 | A string value "$'" inserts the text after the placeholder: "/a/:id/b" becomes "/a//b/b". |
| SharedRoutes.NoPlaceholderInside | shared/routes.ts:153 | A placeholder cannot start inside a text that holds no colon. |
| SharedRoutes.PlaceholderMatchesLongerName | shared/routes.ts:153-154 | ":id" also matches inside ":idx", so "/api/items/:idx" with id 7 becomes "/api/items/7x". |
| SharedRoutes.CalculateUrl | shared/routes.ts:101-154 | Filling the calculate path with an id gives "/api/assessments/", the decimal id, then "/calculate". |
| SharedRoutes.UpsertAllKeepsRange | shared/routes.ts:113 | Storing an accepted input keeps every stored value in 1..5, the range the scorer assumes. |
| Dashboard.YearOptions | client/src/pages/dashboard.tsx:80 | There are ten year options. |
| Dashboard.YearOptionsRange | client/src/pages/dashboard.tsx:80 | The options run from 2026 down to 2017, strictly descending, and are exactly the years 2017..2026. |
| Dashboard.YearFilterMembers | client/src/pages/dashboard.tsx:43-45 | An assessment is kept exactly when "all" is selected or its year renders as the selection. |
| Dashboard.YearFilterSelectsYear | client/src/pages/dashboard.tsx:43-45 | Selecting a year keeps exactly the assessments of that year. |
| Dashboard.CompletedCountStep | client/src/pages/dashboard.tsx:49 | Each assessment adds one to the completed count exactly when its status is present and non-empty. |
| Dashboard.CountWithStatus | client/src/pages/dashboard.tsx:55-58 | A status count never exceeds the number of assessments. |
| Dashboard.LabelSetMembers | client/src/pages/dashboard.tsx:51-53 | The counted keys are exactly the five status labels. |
| Dashboard.CountStatuses | client/src/pages/dashboard.tsx:51-59 | The counting loop yields the five labels as keys, each with the number of assessments of exactly that status; other statuses are ignored. |
| Dashboard.CountWithStatusStep | client/src/pages/dashboard.tsx:55-58 | One more assessment adds one to the count of its own status only. |
| Dashboard.StatusCountsBound | client/src/pages/dashboard.tsx:49-59 | The five counts add up to at most the completed count, which is at most the number shown. |
| Dashboard.NeedsAttentionCounts | client/src/pages/dashboard.tsx:143 | "Needs Attention" counts the Tertinggal and Sangat Tertinggal assessments and never exceeds the completed count. |
| Dashboard.AverageStatusCard | client/src/pages/dashboard.tsx:132 | The "Avg. Status" card always shows "Berkembang", whatever the data. |
| Dashboard.DimensionAverages | client/src/pages/dashboard.tsx:62-77 | For each catalog dimension in order, the chart point has its name, a full mark of 100 and the one-decimal mean of the non-zero scores stored under its name. |
| Dashboard.UnscoredIgnored | client/src/pages/dashboard.tsx:67 | An assessment without a truthy score for a dimension changes neither its total, its count nor its average. |
| Dashboard.ScoredCountZero | client/src/pages/dashboard.tsx:64-70 | The count is 0 exactly when no assessment has a truthy score for the dimension. |
| Dashboard.NoScoresAverageZero | client/src/pages/dashboard.tsx:74 | Without any truthy score the average is 0. |
| Dashboard.ScoredTotalBounds | client/src/pages/dashboard.tsx:63-70 | With scores in [lo, hi], the total lies between count·lo and count·hi. |
| Dashboard.AverageWithin | client/src/pages/dashboard.tsx:62-77 | With scores in [lo, hi], the average is 0 or lies in [lo, hi], so stored scores in 0..100 give averages in 0..100. |
| AssessmentList.SearchMembers | client/src/pages/assessments/index.tsx:69-73 | An assessment is kept exactly when the lower-cased query occurs in its lower-cased village name, district or status. |
| AssessmentList.EmptyQueryKeepsAll | client/src/pages/assessments/index.tsx:69-73 | An empty query keeps every assessment that has a village, in order. |
| AssessmentList.SearchIgnoresCase | client/src/pages/assessments/index.tsx:69-73 | Lower-casing the query does not change the result. |
| AssessmentList.OfYearStep | client/src/pages/assessments/index.tsx:76-81 | Pushing an assessment extends only the group of its own year. |
| AssessmentList.OfAbsentYear | client/src/pages/assessments/index.tsx:76-81 | A year with no assessment has an empty group. |
| AssessmentList.OfYearMembers | client/src/pages/assessments/index.tsx:76-81 | An assessment is in a year's group exactly when it was found and has that year. |
| AssessmentList.GroupByYear | client/src/pages/assessments/index.tsx:76-81 | The reduce yields one group per year present, holding exactly that year's assessments in their list order. |
| AssessmentList.PushStep | client/src/pages/assessments/index.tsx:76-81 | Creating the missing group and pushing onto it keeps one group per year present, each equal to that year's assessments in order. |
| AssessmentList.GroupsAreYears | client/src/pages/assessments/index.tsx:76-81 | Every group is non-empty and holds only assessments of its year. |
| AssessmentList.MaxOf | client/src/pages/assessments/index.tsx:83 | The chosen year is a member of the set and no member is larger. |
| AssessmentList.MaxExists | client/src/pages/assessments/index.tsx:83 | Every non-empty set of years has a largest member. |
| AssessmentList.MaxWitness | client/src/pages/assessments/index.tsx:83 | The largest member of a non-empty set of years is produced. |
| AssessmentList.SortedDesc | client/src/pages/assessments/index.tsx:83 | The years are listed once each, in strictly descending order. |
| AssessmentList.GroupSizesStep | client/src/pages/assessments/index.tsx:196 | One more assessment adds the number of times its year is listed. |
| AssessmentList.GroupSizesSum | client/src/pages/assessments/index.tsx:196 | With distinct listed years covering every assessment, the group sizes add up to the number of assessments. |
| AssessmentList.GroupedCountMatches | client/src/pages/assessments/index.tsx:76-196 | The groups shown in sorted year order hold the year's assessments and together as many as the search found. |
| AssessmentList.CreateRequest | client/src/pages/assessments/index.tsx:50-57 | Nothing is sent exactly when no village or no year is selected. |
| AssessmentList.CreateFromSelections | client/src/pages/assessments/index.tsx:54-57 | The selected village id and year parse back to themselves in the create request. |
| AssessmentList.OfferedYearsCreate | client/src/pages/assessments/index.tsx:67 | The create dialog offers the years 2026 down to 2017, and each one selected reaches the create request as that year. |
| DetailPage.RouteId | client/src/pages/assessments/detail.tsx:22-23 | A missing or empty route parameter reads as id 0. |
| DetailPage.RouteIdOfNat | client/src/pages/assessments/detail.tsx:22-23 | The route of assessment n reads back as id n. |
| DetailPage.FindKey | client/src/pages/assessments/detail.tsx:32 | The position found is the first entry for the code, or there is no such entry. |
| DetailPage.PutGet | client/src/pages/assessments/detail.tsx:38-48 | After writing a code, that code reads the new value and every other code reads as before. |
| DetailPage.SamePositionsFind | client/src/pages/assessments/detail.tsx:38-48 | Forms with the same keys in the same places find every code at the same place. |
| DetailPage.FindKeyAppend | client/src/pages/assessments/detail.tsx:38-48 | A new last entry is found only for a code not already present. |
| DetailPage.PutKeys | client/src/pages/assessments/detail.tsx:38-48 | Writing a code adds it to the keys, keeps them distinct and grows the form only for a new code. |
| DetailPage.ValueChange | client/src/pages/assessments/detail.tsx:46-48 | A change stores the parsed value under its code and leaves every other code as it was. |
| DetailPage.RadioAnswers | client/src/pages/assessments/detail.tsx:46-48 | Choosing a radio value 1..5 stores that number, which counts as filled. |
| DetailPage.LoadValues | client/src/pages/assessments/detail.tsx:35-44 | The load loop builds the form state of the specification fold over the rows. |
| DetailPage.LoadedAbsent | client/src/pages/assessments/detail.tsx:38-41 | After loading, a code has no value exactly when no row carries it. |
| DetailPage.LoadedLastWins | client/src/pages/assessments/detail.tsx:38-41 | After loading, a code holds the value of the last row that carries it. |
| DetailPage.LoadedKeys | client/src/pages/assessments/detail.tsx:38-41 | The loaded form has distinct keys, exactly the row codes, and no more entries than rows. |
| DetailPage.LoadedDistinctRows | client/src/pages/assessments/detail.tsx:38-41 | Rows with distinct codes load one entry each, in row order. |
| DetailPage.Payload | client/src/pages/assessments/detail.tsx:51-54 | The payload has one item per form entry. |
| DetailPage.PayloadCarriesForm | client/src/pages/assessments/detail.tsx:51-54 | Each form code appears in exactly one payload item, which carries its form value. |
| DetailPage.Validate | shared/routes.ts:110-115 | The body is accepted exactly when every value is a number in 1..5, and then it is passed on item by item. |
| DetailPage.AnsweredFormAccepted | client/src/pages/assessments/detail.tsx:51-56 | A form whose every value is in 1..5 is accepted by the server. |
| DetailPage.SaveStoresForm | client/src/pages/assessments/detail.tsx:50-56 | After an accepted save, each form code's first stored row holds the form's value. |
| DetailPage.FindDimension | client/src/pages/assessments/detail.tsx:85 | The found dimension's id renders as the tab, or no dimension's does. |
| DetailPage.ProgressBounds | client/src/pages/assessments/detail.tsx:85-89 | 0 ≤ filled ≤ total and total ≥ 1, so progress lies in [0, 100]; it is 100 exactly when all are filled. |
| DetailPage.PercentBounds | client/src/pages/assessments/detail.tsx:89 | f/t·100 lies in [0, 100] and is 100 exactly when f = t. |
| DetailPage.CompleteIff | client/src/pages/assessments/detail.tsx:87-260 | On a tab with indicators, the "completed" message shows exactly when every indicator has a truthy value. |
| DetailPage.UnknownTab | client/src/pages/assessments/detail.tsx:85-89 | A tab naming no dimension shows 0 of 1 filled and progress 0. |
| DetailPage.TabShowsDimension | client/src/pages/assessments/detail.tsx:85-88 | Tab k in 1..6 shows the k-th dimension and counts its 13, 8, 12, 5, 5 or 5 indicators. |
| DetailPage.FindNumberedDimension | client/src/pages/assessments/detail.tsx:85 | In a table numbered 1..n, tab j+1 finds the (j+1)-th dimension. |
| DetailPage.NextOrFinish | client/src/pages/assessments/detail.tsx:264-276 | No tab shows both Next and Finish. |
| DetailPage.TabWalk | client/src/pages/assessments/detail.tsx:264-276 | Tabs 1..5 show Next, which moves to the following tab, and not Finish; tab 6 shows Finish only. |
| DetailPage.FirstTabWalk | client/src/pages/assessments/detail.tsx:33-276 | From tab 1, k-1 presses of Next reach tab k. Tab 6 shows Finish, and there is no further Next. |
| DetailPage.WalkStep | client/src/pages/assessments/detail.tsx:264-271 | One more press of Next moves one tab on while Next is shown. |
| DetailPage.Save | client/src/pages/assessments/detail.tsx:50-62 | A save is accepted exactly when every value is in 1..5. It then upserts the payload and otherwise changes nothing. |
| DetailPage.HandleCalculate | client/src/pages/assessments/detail.tsx:64-74 | The save runs first: valid values are upserted, invalid ones change nothing, and neither outcome stops the calculation. The calculation then scores the values as stored after the save. It writes the status, fixed-point total and per-dimension scores onto the assessment and returns them. Without the assessment it reports not-found and leaves the assessments unchanged. Villages never change. |
| Profile.Submit | client/src/pages/profile.tsx:48-100 | An update is sent exactly when every check passes and something changed, and it holds exactly the changed fields. |
| Profile.HandleSubmit | client/src/pages/profile.tsx:48-100 | The early-return handler gives the outcome of the specification. |
| Profile.AlertOrder | client/src/pages/profile.tsx:54-98 | Each alert is raised exactly when its check is the first to fail in the order username, email, password; "No changes" only when nothing changed. |
| Profile.EmailWithAtNotBlank | client/src/pages/profile.tsx:64-71 | An email holding "@" is never blank. |
| Profile.UntouchedFormSendsNothing | client/src/pages/profile.tsx:13-98 | Submitting the form as first shown reports "No changes" and sends nothing. |
| Profile.ResubmitSendsNothing | client/src/pages/profile.tsx:40-98 | After a successful update and the clearing of the passwords, submitting again reports "No changes". |
| Profile.CurrentPasswordAloneRefused | client/src/pages/profile.tsx:76-80 | Filling in only the current password asks for a new password. |
| Profile.SentUpdates | client/src/pages/profile.tsx:54-100 | A sent update holds the edited username and email only, and as password only the confirmed new one of at least six characters, never the current one. |
| Text.ContainsIff | shared/routes.ts:153 | A substring test succeeds exactly when the text occurs at some index. |
| Text.ToLowerIdempotent | client/src/pages/assessments/index.tsx:70-72 | Lower-casing twice equals lower-casing once. |
| Text.TrimEmptyIff | client/src/pages/profile.tsx:55-64 | A trimmed string is empty exactly when it is all white space. |
| Text.NatToStringRoundTrip | client/src/pages/assessments/index.tsx:55-56 | Parsing the decimal rendering of a natural number gives that number back. |
| Text.IntToStringInjective | client/src/pages/dashboard.tsx:45 | Different years render differently. |
| Text.ToFixed2Error | server/routes.ts:145 | Rounding to two decimals moves a value by at most 0.005. |
| Text.ToFixedWithin | client/src/pages/dashboard.tsx:74 | Rounding keeps a value inside any integer bounds around it. |
| Seqs.FilterAppend | client/src/pages/dashboard.tsx:49 | Filtering a concatenation concatenates the filtered parts. |

## Left out

- HTTP routing, status codes and JSON responses are not modelled. The calculate handler's not-found answer is an `Option`.
- A request body that does not parse is not modelled; the payload is shaped by the client model.
- Spreadsheet export (single and bulk) and database seeding are file output and I/O. They are not part of this model.
- Authentication, sessions and password hashing are not part of this model.
- The server route that updates the profile is not part of this model. `Profile.Applied` is the assumed effect of a successful update: the sent username and email replace the user's.
- Data fetching and caching, toasts and alerts as UI, rendering, `window.scrollTo`, the export button and the page layout are left out. Alerts are modelled as outcome values.
- The villages pages, the login page, the routing shell and the village import script are not part of this model.
- Scores are exact reals rather than IEEE doubles. `toFixed` is modelled as rounding half away from zero on exact values; binary rounding at exact ties is not modelled.
- Indicator values and parameter values are integers. The values-update contract admits any number in 1..5; the model admits the integers, which are what the page produces.
- `toLowerCase` and `trim` cover ASCII letters and ASCII white space only. String length counts characters rather than UTF-16 code units.
- `parseInt` is modelled for decimal input with optional leading white space and sign. Hexadecimal prefixes and very large numbers are not modelled.
- Serial row ids and timestamps are not modelled. The lookup before an in-place update has no ORDER BY, so the database may return any matching row. The model takes the first match by position. Upserts keep the (assessment, indicator) keys unique (Storage.UpsertAllKeepsKeysUnique), so there is only one matching row and the two choices agree.
- Transactions and their atomicity are not modelled; `bulkUpdateAssessmentValues` runs to completion.
- Dashboard.CountStatuses: a status equal to an inherited property name of a JavaScript object (such as "constructor") would pass the source's `!== undefined` test. Only the five own keys are modelled.
- AssessmentList.SortedDesc: the years come from object keys, which JavaScript lists in ascending integer order before the descending sort. Only the sorted result is modelled, as the distinct years in descending order.
- The dashboard's total-villages card and the chart data conversion only render counts and are left out.
- The create dialog's server side (inserting the assessment) and the delete confirmation dialog are not part of this model.
- Storage.Database.GetAssessment: the join's row order is the table order; the database's choice of row for a duplicated id is not modelled.
- Status labels are matched as exact strings, with no locale-aware comparison.
