# Blood-pressure tracker core in Dafny

This project models the core of a blood-pressure tracking app. It proves properties of three parts:

- **The classifier and its colour maps** (`constants.tsx`). `GetBPCategory` is the priority cascade that sorts a systolic/diastolic pair into one of five categories. `CategoryColor` and `StatusDotColor` map each category to its badge classes and its status-dot classes. The model proves:
  - each category in closed form, in both directions;
  - that the cascade equals the more severe of the two single-measurement bands;
  - monotonicity;
  - that the three maps (labels, badges, dots) are injective.
- **The "last 7 days" PDF report** (`services/pdfExportService.ts`).
  - The window is the readings from 7 days before the newest one up to the newest one, newest first.
  - The summary block holds the count, the rounded means, and the systolic and diastolic ranges.
  - The row loop has a running y-cursor, page breaks at 270, and headers redrawn on each new page.
  - The footer pass stamps "Page i of N" and the disclaimer on every page.
  - The file name replaces slashes in the date texts with dashes.
  - The jsPDF document is modelled as a log of what is drawn where: row, header and footer marks.
- **The reading store** (`context/BPContext.tsx`). `BPStore` is a class holding the readings, the insights, the analysing flag and the profile. Its methods are `addLog`, `deleteLog`, `updateProfile`, `clearInsights`, `generateInsights` and the mount-time load. The class invariant is that the readings are newest first.

Files:

- `types.dfy` (module `BPTypes`): the records.
- `constants.dfy` (module `Constants`): the classifier and the colour maps.
- `log_order.dfy` (module `LogOrder`): the newest-first sort shared by the store and the report.
  - Both use the comparator `b.timestamp - a.timestamp` with the stable JavaScript sort.
  - The model is a stable insertion sort. Readings with equal timestamps keep their input order.
- `pdf_export_service.dfy` (module `PdfExportService`): the report.
- `bp_context.dfy` (module `BPContext`): the store.

The report's second alert, "no readings in the last 7 days", can never fire. The window always contains the newest reading, because the window is `[newest - 7 days, newest]` and both ends are included. `WindowStartsWithNewest` proves this, and `ExportLast7Days` ensures the outcome is never `NoReadingsInWindow`.

The comment at `context/BPContext.tsx:83` ties clearing the insights to new data. `deleteLog` (lines 87-89) does not touch `insights`, and the model follows the code: `DeleteLog` keeps `insights`.

## Model

| member | source | states |
|---|---|---|
| Constants.GetBPCategory | constants.tsx:4-21 | Each category in closed form, as an if-and-only-if: Crisis iff s>180 or d>120; Stage 2 iff not Crisis and (s>=140 or d>=90); Stage 1 iff s<140, d<90 and (s>=130 or d>=80); Elevated iff 120<=s<=129 and d<80; Normal iff s<120 and d<80. The cascade also equals the more severe of the systolic band and the diastolic band (the diastolic side has no Elevated band) |
| Constants.CategoryMonotone | constants.tsx:4-21 | Raising systolic or diastolic never lowers the category's severity |
| Constants.BoundaryCases | constants.tsx:5-17 | The edge values: 180/120 is Stage 2 because rule one is strict; 181/0 and 0/121 are Crisis; 139/79 and 119/80 are Stage 1; 129/79 and 120/79 are Elevated; 119/79 is Normal |
| Constants.Severity | types.ts:2-8 | The five categories are ranked 0..4, with Normal lowest and Crisis highest |
| Constants.MoreSevere | constants.tsx:4-21 | The result is one of the two arguments and ranks at least as high as both |
| Constants.CategoryColor | constants.tsx:23-32 | `getCategoryColor`: the badge classes of each category, by its hue (emerald, amber, orange, red, purple). `BadgeColorsDistinct` proves that no two categories share them |
| Constants.BadgeColorsDistinct | constants.tsx:23-32 | No two categories share badge classes |
| Constants.StatusDotColor | constants.tsx:34-43 | `getStatusDotColor`: the dot classes of each category, with the crisis dot pulsing. `DotColorsDistinct` proves that no two categories share them |
| Constants.DotColorsDistinct | constants.tsx:34-43 | No two categories share status-dot classes |
| BPTypes.Label | types.ts:2-8 | The string value of each `BPCategory` member. `LabelsDistinct` proves that they are pairwise distinct |
| Constants.LabelsDistinct | types.ts:2-8 | No two categories share a label |
| LogOrder.Insert | context/BPContext.tsx:45-47 | Inserting into a list adds exactly that one reading to it: the length grows by one and the multiset grows by {r} |
| LogOrder.InsertSorted | context/BPContext.tsx:45-47 | Inserting into a newest-first list keeps it newest first |
| LogOrder.SortNewestFirst | context/BPContext.tsx:45-47 | `sortLogsDescending`: the result is a permutation of the input (same length, same multiset) and is newest first |
| LogOrder.SortCons | context/BPContext.tsx:46 | The sort inserts the head into the sorted tail |
| LogOrder.SortKeepsMembers | context/BPContext.tsx:46 | A reading is in the sorted list iff it is in the input |
| LogOrder.SortKeepsAllMembers | context/BPContext.tsx:46 | The same, for every reading at once |
| LogOrder.SortOfSorted | context/BPContext.tsx:45-47 | Sorting a list that is already newest first leaves it unchanged, so the sort is stable and idempotent |
| LogOrder.NewestFirstIsMax | services/pdfExportService.ts:12-13 | The first sorted reading is one of the readings and has the largest timestamp |
| LogOrder.SortedTail | context/BPContext.tsx:45-47 | The tail of a newest-first list is newest first |
| LogOrder.InsertAtHead | context/BPContext.tsx:46 | A reading at least as new as the head of a sorted list goes in front of it |
| LogOrder.InsertPastHead | context/BPContext.tsx:46 | A reading older than the head is inserted into the tail |
| PdfExportService.InRange | services/pdfExportService.ts:20-23 | The inclusive date filter. `InRangeCounts` and `InRangeMembers` give what it keeps, `InRangeCons` and `InRangeAppend` show that it keeps input order, and `InRangeSorted` and `InRangeOfSort` relate it to the sort |
| PdfExportService.InRangeCounts | services/pdfExportService.ts:20-23 | The date filter keeps each in-range reading exactly as often as it occurs and drops every other reading |
| PdfExportService.InRangeMembers | services/pdfExportService.ts:20-23 | A reading is kept iff it occurs and its timestamp lies in [lo, hi] |
| PdfExportService.InRangeSorted | services/pdfExportService.ts:20-23 | Filtering a newest-first list keeps it newest first |
| PdfExportService.InRangeCons | services/pdfExportService.ts:20-23 | The filter keeps or drops the head by its timestamp, then filters the tail |
| PdfExportService.InRangeAppend | services/pdfExportService.ts:20-23 | Filtering distributes over concatenation, so the filter preserves order |
| PdfExportService.InRangeInsert | services/pdfExportService.ts:12-23 | Filtering an insertion equals inserting into the filtered list (or just the filtered list when the reading is out of range) |
| PdfExportService.InRangeOfSort | services/pdfExportService.ts:12-23 | Filtering and the stable newest-first sort commute |
| PdfExportService.InRangeEmpty | services/pdfExportService.ts:20-23 | Readings all older than the lower bound filter to nothing |
| PdfExportService.Latest | services/pdfExportService.ts:12-13 | The anchor is attained by some reading and bounds every reading's timestamp |
| PdfExportService.WindowStart | services/pdfExportService.ts:15-17 | The window's lower bound: 7 days before the newest reading. `WindowContents` and `WindowIgnoresOlder` state what it bounds |
| PdfExportService.Window | services/pdfExportService.ts:12-23 | The sorted readings filtered to [WindowStart, Latest]. `WindowContents` characterises it exactly, `WindowStartsWithNewest` gives its head and `WindowIgnoresOlder` its insensitivity to older readings |
| PdfExportService.WindowContents | services/pdfExportService.ts:12-23 | The window is newest first. It holds every reading from 7 days before the newest up to the newest, both ends inclusive, with its multiplicity, and nothing else |
| PdfExportService.WindowStartsWithNewest | services/pdfExportService.ts:12-28 | The window's first reading is the newest reading, so the window is never empty and the second alert is unreachable |
| PdfExportService.WindowIgnoresOlder | services/pdfExportService.ts:12-23 | Adding readings older than the window start changes neither the anchor nor the window |
| PdfExportService.InRangeIgnoresOlder | services/pdfExportService.ts:20-23 | Readings below the lower bound do not change the sorted, filtered list |
| PdfExportService.LatestIgnoresOlder | services/pdfExportService.ts:12-13 | Readings older than the newest do not move the anchor |
| PdfExportService.RoundHalfUp | services/pdfExportService.ts:50-52 | `Math.round(sum / n)`: the result q satisfies q - 1/2 <= sum/n < q + 1/2 |
| PdfExportService.MaxOf | services/pdfExportService.ts:54-56 | `Math.max(...)`: the result is one of the values and bounds all of them from above |
| PdfExportService.MinOf | services/pdfExportService.ts:55-57 | `Math.min(...)`: the result is one of the values and bounds all of them from below |
| PdfExportService.SumBounds | services/pdfExportService.ts:50-52 | A sum of n values each in [lo, hi] lies in [lo*n, hi*n] |
| PdfExportService.MeanWithinRange | services/pdfExportService.ts:50-57 | The rounded mean lies between the minimum and the maximum |
| PdfExportService.RoundedBetween | services/pdfExportService.ts:50-52 | A value within half a unit of num/den stays between bounds that num/den lies between |
| PdfExportService.Summarize | services/pdfExportService.ts:49-57 | The summary block, over the systolic, diastolic and pulse columns of the window (`Systolics`, `Diastolics`, `Pulses`). The count is the window size, and each mean is the half-up rounded mean of its column. Each minimum and maximum is attained by a reading of the window and bounds every reading. The systolic and diastolic means lie within their ranges |
| PdfExportService.HasNote | services/pdfExportService.ts:125 | `if (log.note)`: the note is present and not the empty string. `LayOutContents` and `LayOutSteps` state its effect: a note line at y+5, and a 15 rather than 7 step |
| PdfExportService.LayOut | services/pdfExportService.ts:94-136 | The rows placed one after another from the first row position. `LayOutContents`, `LayOutCursor`, `LayOutBounds`, `LayOutSteps` and `EveryPageHoldsARow` state its properties, and `PaginateRows` is proved equal to it |
| PdfExportService.LayOutContents | services/pdfExportService.ts:113-133 | Row i shows reading i of the window and its category. It has a note line at y+5 exactly when the note is present and non-empty |
| PdfExportService.LayOutCursor | services/pdfExportService.ts:73-136 | The first row goes on page 1 at y 118 (title 100, headers +10, rows +8). The cursor ends on the last row's page, just below that row. There are never more pages than rows |
| PdfExportService.LayOutBounds | services/pdfExportService.ts:94-111 | Every row is drawn between y 28 and y 270, on a page from 1 to the last |
| PdfExportService.LayOutSteps | services/pdfExportService.ts:94-135 | Consecutive rows: the next row is the previous y plus 7 (15 with a note) on the same page. Once that passes 270, the next row is at 28 on the next page |
| PdfExportService.EveryPageHoldsARow | services/pdfExportService.ts:94-111 | No page is empty: each page from 1 to the last holds at least one row |
| PdfExportService.PaginateRows | services/pdfExportService.ts:72-136 | The row loop yields exactly the layout above. The page count is between 1 and the row count. Headers are drawn once per page: at y 110 on page 1, at y 20 on later pages |
| PdfExportService.StampFooters | services/pdfExportService.ts:139-146 | Page k of N carries "Page k of N" and the disclaimer, for every k from 1 to N |
| PdfExportService.DashesForSlashes | services/pdfExportService.ts:149 | Every '/' becomes '-' and every other character is kept in place, so no slash remains |
| PdfExportService.DashesForSlashesKeepsSlashFree | services/pdfExportService.ts:149 | A date text without slashes passes through unchanged |
| PdfExportService.ReportFileName | services/pdfExportService.ts:149 | The file name holds no slash |
| PdfExportService.ExportLast7Days | services/pdfExportService.ts:5-151 | There is no document iff there are no readings; the in-window alert never fires. Otherwise the report covers the window from 7 days before the newest reading to it. Its summary and rows are those of the window, with page k carrying the column headers (at y 110 on page 1, at y 20 after) and the "Page k of N" footer. Its pages are between 1 and the reading count, and its file name is slash-free |
| BPContext.RemoveId | context/BPContext.tsx:88 | `logs.filter(l => l.id !== id)`. `RemoveIdCounts` and `RemoveIdMembers` give what it keeps, and `RemoveIdCons`, `RemoveIdAppend` and `RemoveIdSorted` show that it keeps order |
| BPContext.RemoveIdCounts | context/BPContext.tsx:87-89 | `deleteLog`'s filter removes every reading with the id and keeps every other reading exactly as often as before |
| BPContext.RemoveIdMembers | context/BPContext.tsx:87-89 | A reading remains iff it was there and has a different id |
| BPContext.RemoveIdCons | context/BPContext.tsx:88 | The filter keeps or drops the head by its id, then filters the tail |
| BPContext.RemoveIdAppend | context/BPContext.tsx:88 | The filter distributes over concatenation, so the remaining readings keep their order |
| BPContext.RemoveIdAbsent | context/BPContext.tsx:88 | Deleting an id that no reading has changes nothing |
| BPContext.RemoveIdSorted | context/BPContext.tsx:87-89 | Deleting keeps the readings newest first |
| BPContext.NewerCount | context/BPContext.tsx:81 | The number of leading readings at least as new as the added one is at most the length |
| BPContext.NewerCountSplits | context/BPContext.tsx:81 | On a newest-first list, readings before that count are at least as new as the added one and readings after it are older |
| BPContext.AfterTiesSplit | context/BPContext.tsx:81 | Placing after the ties is the list cut at the count with the reading in between |
| BPContext.InsertIntoAfterTies | context/BPContext.tsx:81 | Inserting the head in front of a placement gives the placement into the longer list |
| BPContext.SortAppendIsAfterTies | context/BPContext.tsx:79-85 | Appending to a newest-first list and re-sorting places the new reading after every reading at least as new as it |
| BPContext.AddLogPlacement | context/BPContext.tsx:79-85 | After `addLog` the old readings stay in their order. The new one sits after every reading at least as new as it and before every older one |
| BPContext.RemovePlaced | context/BPContext.tsx:87-89 | Removing the placed reading's id, which no other reading has, gives back the list |
| BPContext.DeleteUndoesAdd | context/BPContext.tsx:79-89 | Deleting the id of a just-added reading (an id no other reading has) restores the previous readings exactly |
| BPContext.BPStore.constructor | context/BPContext.tsx:32-42 | The initial state: no readings, no insights, not analysing, and the default profile (30, Other, 150, 5.08, empty conditions and key) |
| BPContext.BPStore.Load | context/BPContext.tsx:50-60 | Each saved item replaces its field. Saved readings are sorted newest first, and missing items leave their fields as they were |
| BPContext.BPStore.AddLog | context/BPContext.tsx:79-85 | The new state holds the re-sort of the old readings plus the new reading with its id: one more reading, the same multiset plus the new one, still newest first. The insights are cleared, and the profile and flag are unchanged |
| BPContext.BPStore.DeleteLog | context/BPContext.tsx:87-89 | The readings are the old ones without that id, still newest first. The insights, profile and flag are unchanged |
| BPContext.BPStore.UpdateProfile | context/BPContext.tsx:91-93 | Replaces the profile; nothing else changes |
| BPContext.BPStore.ClearInsights | context/BPContext.tsx:106-109 | Clears the insights; nothing else changes |
| BPContext.BPStore.GenerateInsights | context/BPContext.tsx:95-104 | With no readings nothing changes. Otherwise the insights become the service's answer, or stay as they were when the call is rejected, and the rejection is passed on. The flag is down again afterwards, and the readings and profile are unchanged |

## Left out

- JSX, the React provider and hook, and every UI component are not part of this model. Neither is the service worker, the build scripts, or the entry form's parsing.
- `exportAHABloodPressureLog`, the standardized log export that `App.tsx` imports, is not part of this model, because its source is not among the files modelled.
- The floating-point marker positions of the charts are CSS placement arithmetic and are not modelled.
- The insight service (`services/geminiService.ts`) is not part of this model. `GenerateInsights` takes it as a function parameter that returns the insights, or `None` for a rejected call.
- BPContext.BPStore.GenerateInsights: models the call as atomic. The interleaving of the `await` with other updates, and the stale closure over `logs`, are not modelled.
- Persistence to localStorage: the save effects and JSON parsing are left out. `Load` takes the already-parsed saved items as `Option`s. `ClearInsights` does not model the removal of the stored key.
- BPContext.BPStore.AddLog: the id comes from `crypto.randomUUID()`, which the model takes as a parameter. Uniqueness is not assumed; `DeleteUndoesAdd` states it as a precondition.
- Timestamps are modelled as integer milliseconds, the value `new Date(timestamp).getTime()` yields. Parsing the ISO string, and invalid dates that give `NaN`, are left out.
- PdfExportService.WindowStart: steps back exactly 7 × 24 h. The source steps the local calendar back 7 days with `setDate`, which differs by an hour across a daylight-saving change.
- PdfExportService.RoundHalfUp: uses exact rational arithmetic. The source rounds a floating-point quotient, which can differ only when the quotient is not exactly representable.
- Locale formatting of dates and times (`toLocaleDateString`, `toLocaleTimeString`) is not modelled. `ExportLast7Days` takes the date format as a parameter, and a row mark carries its reading rather than the formatted date text.
- The "Generated:" line uses the current clock. It and the fixed title, summary and header text are not modelled, and neither are fonts, sizes and the line under the headers.
- PdfExportService.ExportLast7Days: the `alert` calls become the `NoReadings` and `NoReadingsInWindow` outcomes, and `doc.save` becomes the file name in the report.
- PdfExportService.PaginateRows: the page count is the number of pages the row loop opens. The model takes that to be what jsPDF's page counter reports.
- Constants.CategoryColor and Constants.StatusDotColor: the gray `default` branches are unreachable for the five-valued category type and are left out.
