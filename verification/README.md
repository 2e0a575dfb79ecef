# CivicResolve report core, in Dafny

CivicResolve is a small civic issue tracker. Citizens file reports: a pothole,
a broken streetlight, overflowing trash. Staff move each report through
Submitted, In Progress and Resolved. This project models the logic at its
core and proves properties of that model:

- **Report store** (`report_service.dfy`, module `ReportService`). It holds a
  list of reports and an id counter. `getReports` returns a stable sort of
  the list, newest submission first. `createReport` stamps a draft with the
  next id, status Submitted and the current time, and puts it in front.
  `updateReportStatus` rewrites the status of the first report with a given
  id. Its resolution time is set when the new status is Resolved and cleared
  otherwise.
- **Mock classifier** (`gemini_service.dfy`, module `GeminiService`). From a
  description it picks a category and a priority by the text's JavaScript
  length, which counts UTF-16 code units, so a character outside the Basic
  Multilingual Plane counts twice. It builds a title from the first five space-separated pieces plus `"..."`.
- **Types and seed data** (`types.dfy`, `constants.dfy`). These hold the
  three enumerations with their string values, the `Report` record, the five
  seeded reports, and the value lists the admin filters offer.
- **Client mirror** (`app.dfy`, module `App`). The web client keeps its own
  copy of the list. A fetch fills it, it prepends what it creates, and it
  swaps in what it updates.
- **Admin filter** (`admin_view.dfy`) narrows the list by category and
  status. **Dashboard figures** (`analytics_dashboard.dfy`) are the total,
  the per-status counts, and the two chart series. Both keep elements of
  their input in order, which `sequences.dfy` states once for both, beside
  the other generic sequence facts.

The store's mutable module-level state becomes an immutable `Store` value,
and every operation is a pure function that returns the new store beside
its result. The clock is a `now` parameter. Dates are integer milliseconds
since the epoch, so the seed's ISO instants are written out as such.
Coordinates are `real`s and are only copied. The optional `resolvedAt` field
is an `Option`; every other `Report` field is required.

The main invariant is `ReportService.Valid`:

- ids are unique;
- every id is below the counter;
- a report has a resolution time exactly when it is Resolved.

Creation and update preserve it. The seeded store satisfies it. For the
client, `App.Mirrors` says the client list holds exactly the store's
reports, in any order. A fetch establishes it and every add and update
preserves it, so the client and the store always show the same set of ids.

The classifier does not reject an empty description:
`GeminiService.EmptyDescription` proves that it yields a low-priority pothole
titled `"..."`. The only emptiness guard is in the report form, which is not
part of this model.

## Model

| member | source | states |
|---|---|---|
| Types.ValueListsEnumerate | types.ts:2-21 | Each enumeration's value list has the right size: 3 statuses, 6 categories, 3 priorities. Each list contains every member exactly once, in declaration order. |
| Types.NamesAreDistinct | types.ts:2-21 | Distinct members have distinct string values, and no value is the filter wildcard "all". So comparing string values is the same as comparing members. |
| Types.CategoryIndex | types.ts:8-15 | Each category sits at a fixed position of the value list, Pothole at 0 through Other at 5. The classifier indexes by that order. |
| Types.PriorityIndex | types.ts:17-21 | Each priority sits at a fixed position of the value list: Low 0, Medium 1, High 2. |
| ReportService.MaxId | services/reportService.ts:7 | The result bounds every id of a non-empty list from above, and some report has that id. |
| ReportService.InitialNextId | services/reportService.ts:6-7 | The first counter value is above every seeded id. It is 1 for an empty seed; otherwise it is exactly one past the largest seeded id. |
| ReportService.InitialNextIdOfMax | services/reportService.ts:7 | The counter starts one past the seed's largest id, whichever report carries it. |
| ReportService.Init | services/reportService.ts:6-7 | The store starts with the seed list as given. Its counter is above every seeded id: 1 for an empty seed, otherwise one past the largest seeded id. |
| ReportService.InitValid | services/reportService.ts:6-7 | A seed with unique ids and consistent resolution times gives a valid store that holds the seed unchanged. |
| ReportService.InsertNewest | services/reportService.ts:15 | Inserting into a newest-first list keeps it newest first and adds exactly that report. |
| ReportService.InsertNewestTies | services/reportService.ts:15 | The inserted report goes ahead of the reports it ties with; every tie group is otherwise unchanged. |
| ReportService.SortNewestFirst | services/reportService.ts:12-16 | The snapshot is ordered by submission time, non-increasing, and is a permutation of the store's list. |
| ReportService.SortKeepsTies | services/reportService.ts:15 | The sort is stable: reports submitted at the same instant keep their store order. |
| ReportService.NewestFirstUnique | services/reportService.ts:15 | Two newest-first lists that agree on every tie group are equal, so a stable newest-first order is unique. |
| ReportService.DistinctInstantsOrderUnique | services/reportService.ts:15 | When no two instants coincide the order is forced: a newest-first permutation of a strictly newest-first list equals it. |
| ReportService.GetReports | services/reportService.ts:12-16 | The snapshot is a permutation of the store's list, newest first, and reports submitted at the same instant keep their store order. |
| ReportService.GetReportsCharacterized | services/reportService.ts:12-16 | Both directions: a list is the `getReports` result exactly when it is newest first and every tie group appears in store order. |
| ReportService.SortOfSorted | services/reportService.ts:15 | A store list that is already newest first is returned unchanged. |
| ReportService.CreateReport | services/reportService.ts:18-28 | The new report copies every draft field, takes the counter as its id, is Submitted at `now` with no resolution time, and is put in front of the unchanged old list. The counter grows by exactly one. |
| ReportService.CreatePreservesValid | services/reportService.ts:18-28 | Creation keeps the store valid. The new id was unused, and the id set gains exactly that id. |
| ReportService.CreatesIncrease | services/reportService.ts:22 | Two creates in a row hand out strictly increasing ids, and the first report moves to second place. |
| ReportService.FindIndex | services/reportService.ts:31-32 | Returns no index exactly when the id is absent. Otherwise it returns the first position that holds the id. |
| ReportService.Restatus | services/reportService.ts:33-37 | The rewritten record keeps id, draft fields and submission time. It takes the new status, has a resolution time exactly when Resolved, and that time is `now`. |
| ReportService.UpdateReportStatus | services/reportService.ts:30-42 | An unknown id returns nothing and changes nothing. A known id replaces only the first report holding it with its re-statused copy and returns that copy. Length, counter and all other entries are unchanged. |
| ReportService.UpdatePreservesValid | services/reportService.ts:30-42 | An update keeps the store valid and keeps its set of ids. |
| ReportService.ResolveThenReopen | services/reportService.ts:36 | Resolving records the time; moving the report afterwards to any status other than Resolved clears it again and keeps its submission time. |
| ReportService.RunPreservesValid | services/reportService.ts:18-42 | Any run of creates and updates keeps the store valid and never loses an id. The counter advances by exactly the number of creates. |
| Constants.FilterOptions | constants.ts:69-70 | The category and status option lists offer every member of their enumeration, and no option's value equals the "all" wildcard. |
| Constants.CategoryOptionSelects | constants.ts:69 | Picking a category option in the admin filter keeps exactly the reports of that category. |
| Constants.SeedWellFormed | constants.ts:5-67 | The seed ids are 1 to 5 in order and distinct. Only report 3 is Resolved, only it has a resolution time, and that time follows its submission. |
| Constants.FiveWellFormed | constants.ts:5-67 | Any five reports numbered 1 to 5, of which only the third is resolved and only it has a resolution time, have distinct ids in order and consistent resolution records. |
| Constants.InitialStore | constants.ts:5-67 | The store seeded with the mock reports is valid and its counter starts at 6. |
| Constants.SeedListing | constants.ts:15-64 | The first listing of the seeded store shows ids 4, 5, 1, 2, 3. |
| Constants.SortInSeedOrder | constants.ts:15-64 | Any five reports whose submission instants are ordered as the seed's are sort into the order fourth, fifth, first, second, third. |
| GeminiService.JoinSplit | services/geminiService.ts:37 | Joining the pieces of a split with single spaces gives back the original text. |
| GeminiService.JoinFirstPieces | services/geminiService.ts:37 | Joining the first n pieces gives the prefix of the text that stops just before its n-th space, or the whole text when it has fewer than n spaces. |
| GeminiService.CutBeforeSpaceUnique | services/geminiService.ts:37 | At most one prefix of a text stops right before a space while holding exactly n spaces, so the title is well defined. |
| GeminiService.MockTitle | services/geminiService.ts:37 | The title is the description up to, but not including, its fifth space (all of it if it has fewer), followed by `"..."`. |
| GeminiService.ShortDescriptionTitle | services/geminiService.ts:37 | A description with at most four spaces becomes the whole title, followed by `"..."`. |
| GeminiService.Utf16Length | services/geminiService.ts:35-36 | JavaScript's string length lies between the number of characters and twice that number. |
| GeminiService.Utf16LengthBmp | services/geminiService.ts:35-36 | For text drawn only from the Basic Multilingual Plane, JavaScript's length is the number of characters. |
| GeminiService.Utf16LengthConcat | services/geminiService.ts:35-36 | JavaScript's length of a concatenation is the sum of the parts' lengths. With the one-character cases this fixes the length of every string: one unit per Basic Multilingual Plane character, two per character outside it. |
| GeminiService.BmpCharacterCountsOnce | services/geminiService.ts:35-36 | A single character inside the Basic Multilingual Plane has length one. |
| GeminiService.AnalyzeIssueWithAI | services/geminiService.ts:22-45 | The category sits at position length mod 6 of the category list, and the priority at position length mod 3 of the priority list, where the length counts UTF-16 code units. The title is the description up to its fifth space, followed by `"..."`. |
| GeminiService.AstralDescription | services/geminiService.ts:35-36 | A description of one character outside the Basic Multilingual Plane has length two, so it is classified as Trash with High priority. |
| GeminiService.PriorityFollowsCategory | services/geminiService.ts:35-36 | Because 3 divides 6, the priority's position is always the category's position mod 3. |
| GeminiService.ImageIgnored | services/geminiService.ts:22-45 | The result depends on the description alone; any two image payloads give equal results. |
| GeminiService.EmptyDescription | services/geminiService.ts:35-37 | An empty description is not rejected: the result is Pothole, Low, `"..."`. |
| AdminView.Matches | components/AdminView.tsx:19-21 | With both filters on "all" every report passes. A filter naming a category (status) passes only reports of that category (status). A report passes whenever each filter is "all" or names its own value. |
| AdminView.FilteredReports | components/AdminView.tsx:17-23 | The result is a subsequence of the input in its original order. Every result element passes both filters. Each report that passes occurs as often as in the input, and each that fails does not occur. |
| AdminView.Complete | components/AdminView.tsx:18-22 | Every input report that passes both filters appears in the result. |
| AdminView.AllPassesEverything | components/AdminView.tsx:19-20 | With both filters on "all" the list comes back unchanged. |
| AdminView.AllMatchPasses | components/AdminView.tsx:17-23 | A list whose every report passes the filters comes back unchanged. |
| AdminView.FilterIdempotent | components/AdminView.tsx:17-23 | Filtering a filtered list again with the same settings changes nothing. |
| AdminView.CategoryFilterSelects | components/AdminView.tsx:19-21 | Both directions: with the category filter set to a category's value, a report is kept exactly when it has that category and passes the status filter. |
| AdminView.UnknownCategoryMatchesNothing | components/AdminView.tsx:19 | A category filter that is neither "all" nor any category's value keeps no report. |
| AnalyticsDashboard.Count | components/AnalyticsDashboard.tsx:74-76 | The number of reports with a given status (category) is at most the list's length. |
| AnalyticsDashboard.CountExtremes | components/AnalyticsDashboard.tsx:74-76 | Both directions: the count is 0 exactly when no report has the value, and the full length exactly when every report has it. |
| AnalyticsDashboard.CountIsFilterLength | components/AnalyticsDashboard.tsx:74-76 | Counting the reports of a status gives the length of the admin list filtered by that status's value. |
| AnalyticsDashboard.CountIsCategoryFilterLength | components/AnalyticsDashboard.tsx:78-81 | Counting the reports of a category gives the length of the admin list filtered by that category's value. |
| AnalyticsDashboard.AllSlicesTotal | components/AnalyticsDashboard.tsx:78-81 | When every report's key occurs once among the listed values, the per-value counts add up to the number of reports. |
| AnalyticsDashboard.DropEmpty | components/AnalyticsDashboard.tsx:81 | Dropping empty slices keeps order, keeps every non-empty slice, keeps nothing else, and keeps the sum. |
| AnalyticsDashboard.Series | components/AnalyticsDashboard.tsx:78-81 | Over an enumeration listed once each, the series has one positive slice per occurring value, in list order, with that value's count. Values that occur are exactly the ones shown, and the counts add up to the number of reports. |
| AnalyticsDashboard.StatusCountsSum | components/AnalyticsDashboard.tsx:74-76 | The Submitted, In Progress and Resolved counts add up to the number of reports. |
| AnalyticsDashboard.ReportsByCategory | components/AnalyticsDashboard.tsx:78-81 | One slice per occurring category, in declaration order, each with its positive count. A category is shown exactly when it occurs, and the counts add up to the total. |
| AnalyticsDashboard.ReportsByStatus | components/AnalyticsDashboard.tsx:83-87 | At most three slices, one per occurring status, in the order Submitted, In Progress, Resolved, with positive counts that add up to the total. |
| AnalyticsDashboard.Analytics | components/AnalyticsDashboard.tsx:72-90 | The total is the list's length. Each status count is the length of the list filtered by that status, and the three add up to the total. The two series are the per-category and per-status series; both add up to the total, and each status slice carries the same count as the matching status field. |
| App.FetchReports | App.tsx:51-56 | The client list becomes a newest-first permutation of the store's list in which reports submitted at the same instant keep their store order; the store is left as it is. |
| App.AddReport | App.tsx:63-67 | The store creates the report, and the client puts that same report in front of its earlier entries, which stay in order. |
| App.ReplaceById | App.tsx:72-74 | Same length; an entry is replaced exactly when it has the id, and every other entry is unchanged. |
| App.UpdateReportStatus | App.tsx:69-76 | The store is updated. An id the store lacks leaves the client list unchanged. Otherwise every entry with that id becomes the record the store returned, every other entry is unchanged, and the length stays the same. |
| App.MirrorsSameIds | App.tsx:51-76 | When the client mirrors the store, both hold the same set of ids. |
| App.FetchMirrors | App.tsx:51-60 | A fetch from a valid store makes the client mirror it. |
| App.AddPreservesMirror | App.tsx:63-67 | Adding keeps the client a mirror of the store. |
| App.ReplaceByIdMultiset | App.tsx:72-74 | Replacing by id sends lists with equal contents to lists with equal contents. |
| App.ReplaceByIdAtIndex | App.tsx:72-74 | In a list with unique ids, replacing by id equals replacing at the one position holding the id, which is what the store does. |
| App.UpdatePreservesMirror | App.tsx:69-76 | Updating keeps the client a mirror of the store. |
| App.SessionMirrors | App.tsx:51-76 | Starting from a fetch, any sequence of adds and status changes leaves the client holding exactly the store's reports, so both show the same ids. |

## Left out

- Simulated network latency and console logging: each operation is one atomic transition.
- Concurrency between the client's asynchronous handlers: actions are applied one after another.
- The real AI call that is commented out in `services/geminiService.ts` (lines 47-119): it is a foreign network API, and its response parsing runs in a library this model cannot see.
- The wall clock: the current time is the `now` parameter. Nothing is assumed about its monotonicity.
- JavaScript number and `Date` precision: ids and times are unbounded integers, and invalid dates (NaN times) do not arise.
- Coordinates and image URLs: they are opaque fields copied unchanged.
- React rendering, routing, the loading flag and the role effect: these are presentation only.
- The report form (image encoding, random mock location, form state): it is input glue around the store and the classifier. The form is also the only place that refuses an empty description.
- The map's coordinate projection and the pie chart's drawing: floating-point trigonometry for display.
- The icon table in `constants.ts`: it builds React elements.
- Lone surrogates: a JavaScript string can hold an unpaired UTF-16 surrogate, which a Dafny `string` of Unicode scalar values cannot. Descriptions are modelled as well-formed text only.
- AnalyticsDashboard.Analytics: both chart series use one slice type whose number is called `count`. The source calls it `value` in the status series; this is a naming difference only.
