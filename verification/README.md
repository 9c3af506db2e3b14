# FUTBot subscription dashboard — verified model of the list-management core

This project models, in Dafny, the subscription bookkeeping of the FUTBot
dashboard. That covers the following parts:

- **The record store** of the dashboard shell: add, delete, edit, the initial load, and the login guard.
- **The add form**: the duration catalog, the end-date choice, and the draft it submits.
- **The inline edit form and its save handler.**
- **The list's query pipeline**: case-insensitive search, the status filter, the stable sort with its column-header state machine, and ten-row pagination.
- **The bulk operations**: row toggle, select-all, bulk delete, and the CSV export.
- **The three counters of the stats panel.**

Every handler is a pure function from state to state. A few things become explicit parameters:

- **`now`**: the current instant, an `int` of milliseconds since the epoch.
- **The fresh id**: the id the dashboard would draw from `crypto.randomUUID`.
- **The calendar**: the conversion from an instant to local civil time used by the date display.

Modelling choices:
- `toLowerCase` is ASCII lowering (`Text.Lower`).
- `localeCompare` is the lexicographic order on character codes (`Text.LexCompare`).
  - It is proved antisymmetric, transitive, and zero only on equal strings.
  - These are the properties `Array.prototype.sort` needs from it.
- `Array.prototype.sort` is a stable insertion sort (`StableSort.Sort`). It is generic over any comparator that is a total preorder.
- `Array.prototype.slice` is modelled with JavaScript's index resolution, including negative indices (`Paging.Slice`). Pagination is therefore total over every page number.
- The browser's constraint validation of the `required` inputs of the add form is modelled as `Form.Submit` returning `None`. When that validation fails, the submit handler never runs.
  - Email and password are always required.
  - The custom end date is required only while it is selected.
- The `MMM dd, yyyy HH:mm` date display is modelled character by character from civil-time fields (`DisplayDate.Format`).

Two behaviours of the code a reader may not expect:
- The initial load, `saved ? JSON.parse(saved) : []`, has no `try`/`catch`. A malformed saved blob therefore throws rather than giving an empty store. `Store.LoadStore` returns `Failure(MalformedSaved)` for it.
- The store's edit (`editSubscription`) writes the record exactly as given and does not recompute its status. The save handler of the list recomputes it (`Editing.Save`).

## Model

| member | source | states |
|---|---|---|
| Types.ResolveStatus | src/App.tsx:31 | the status is `active` exactly when the end instant is strictly after `now`, `expired` otherwise |
| Durations.FindOption | src/components/SubscriptionForm.tsx:35 | `find` returns the first catalog entry with the given selector, and nothing exactly when no entry has it |
| Durations.HoursFor | src/components/SubscriptionForm.tsx:33-36 | the hours of a preset lie between the six-hour fallback and one year |
| Durations.PresetEnd | src/components/SubscriptionForm.tsx:33-36 | a preset end instant lies between six hours and one year after `now`, so it is always in the future |
| Durations.CatalogShape | src/components/SubscriptionForm.tsx:11-26 | the catalog has six entries with distinct selectors 1..6 and hours 6, 720, 1440, 2160, 4320, 8760 in that order; the default selector is the first entry's |
| Durations.HoursForTable | src/components/SubscriptionForm.tsx:33-36 | selector k in 1..6 yields the hours of the k-th entry; any other selector yields the 6-hour fallback |
| Durations.FindNumbered | src/components/SubscriptionForm.tsx:35 | in a list numbered consecutively from k, `find` by number returns the entry at that offset, and nothing for a number outside the list |
| Store.Add | src/App.tsx:27-34 | add appends exactly one record at the end with the fresh id and the draft's fields; earlier records are unchanged; its status is active iff its end is after `now` |
| Store.AddPreservesUniqueIds | src/App.tsx:27-34 | with an id not already in the store, add keeps all ids distinct and the new id is present |
| Store.Delete | src/App.tsx:36-38 | delete leaves no record with that id, keeps every other record, and keeps the survivors in their relative order (a subsequence) |
| Store.DeleteAbsentIsNoop | src/App.tsx:36-38 | deleting an id that no record carries leaves the store unchanged |
| Store.DeleteIdempotent | src/App.tsx:36-38 | deleting the same id twice is deleting it once |
| Store.DeleteMultiset | src/App.tsx:36-38 | delete removes every copy of the records with that id and keeps every other record with its multiplicity |
| Store.DeletePreservesUniqueIds | src/App.tsx:36-38 | delete cannot introduce a duplicate id |
| Store.Edit | src/App.tsx:40-46 | edit keeps the length and the id sequence, replaces every record with the updated id by the update, and leaves the others as they were |
| Store.EditInPlace | src/App.tsx:40-46 | with unique ids, edit writes the update at the one position that holds its id and keeps the ids unique |
| Store.EditUnknownIsNoop | src/App.tsx:40-46 | editing with an id the store does not hold changes nothing |
| Store.LoadStore | src/App.tsx:14-17 | no saved entry or an empty one gives the empty store; a parsable entry gives the parsed records; an unparsable entry is an error |
| Store.ReloadRoundTrip | src/App.tsx:14-21 | when `parse` inverts a serialiser that never writes the empty string, reloading the saved text of any store gives back that store |
| Store.InitialAuthenticated | src/App.tsx:97-99 | the saved flag authenticates exactly when it is the string `true` |
| Store.HandleLogin | src/App.tsx:101-109 | login authenticates iff email and password are both non-empty and then persists the flag `true`; otherwise it alerts, writes nothing and leaves the flag unchanged |
| Store.LoginSurvivesReload | src/App.tsx:97-109 | after any login, reloading the saved flag gives back exactly the in-memory flag, so a successful login survives a reload |
| Form.Submit | src/components/SubscriptionForm.tsx:28-48 | submission happens iff the required inputs are filled; the draft starts at `now`, passes email and password through, ends at the custom date or `now + hours`, and the three text inputs are cleared |
| Form.CanSubmit | src/components/SubscriptionForm.tsx:62-131 | the browser lets the form submit exactly when email and password are filled and, while the custom date is selected, the end date too (`required` at lines 67, 81 and 118; the duration select always holds a value); `Form.Submit` states that submission happens iff this holds |
| Form.PresetSubmissionIsActive | src/components/SubscriptionForm.tsx:28-43 | a preset submission stored at the same instant is active and ends the catalog's hours after `now`, or six hours after it when the selector is unknown |
| Editing.StartEdit | src/components/SubscriptionList.tsx:41-45 | opening a record for editing loads all its fields, marks its id as edited and selects the custom date |
| Editing.Cancel | src/components/SubscriptionList.tsx:72-76 | cancel closes the edit, empties the form and selects the custom date again, keeping the preset choice |
| Editing.CancelDiscardsEdit | src/components/SubscriptionList.tsx:72-76 | cancelling an opened edit leaves the session as if the record had never been opened, cancelling twice is cancelling once, and a save after a cancel leaves the store unchanged |
| Editing.Save | src/components/SubscriptionList.tsx:47-70 | save does nothing unless email and password are non-empty; otherwise it keeps the id, takes the start date or `now`, the custom end or `now + hours`, sets the status by the end instant and closes the form |
| Editing.ChosenEnd | src/components/SubscriptionList.tsx:51-56 | the end a save writes: the form's end date when the custom date is selected and filled, otherwise the preset, which lies between six hours and a year after `now` |
| Editing.SaveToStore | src/components/SubscriptionList.tsx:47-70 | a save never changes the length or the ids of the store, and an incomplete form leaves the store unchanged |
| Editing.SaveUnchangedRecomputesStatus | src/components/SubscriptionList.tsx:47-70 | opening a stored record and saving it unchanged only recomputes its status against `now`, in place |
| Text.Lower | src/components/SubscriptionList.tsx:159-160 | lowering keeps the length and lowers each character |
| Text.LowerIdempotent | src/components/SubscriptionList.tsx:159-160 | lowering twice is lowering once |
| Text.ContainsIffOccurs | src/components/SubscriptionList.tsx:159-160 | `includes` holds exactly when the needle occurs at some position of the haystack |
| Text.LexCompareAntisymmetric | src/components/SubscriptionList.tsx:169-171 | swapping the operands of the string comparison negates it |
| Text.LexCompareZero | src/components/SubscriptionList.tsx:169-171 | the string comparison is zero only on equal strings |
| Text.LexCompareTransitive | src/components/SubscriptionList.tsx:169-171 | the string comparison is transitive |
| Filtering.FilterSubscriptions | src/components/SubscriptionList.tsx:155-166 | the filtered list is a subsequence of the store; every kept record's lowered email or status contains the lowered term and passes the status filter; every record that passes both is kept, with its multiplicity |
| Filtering.MatchesSearch | src/components/SubscriptionList.tsx:158-160 | the search test: the lowered email or the lowered status contains the lowered term; `Filtering.FilterSubscriptions` keeps a record iff it holds together with the status test, and `Text.ContainsIffOccurs` says what containment means |
| Filtering.MatchesStatus | src/components/SubscriptionList.tsx:162-163 | the status test: the filter is `all` or equals the record's status; `Filtering.StatusOnlyFilter` states the records it keeps |
| Filtering.StatusTextIsLower | src/types.ts:7 | the two status strings are already lower case |
| Filtering.DefaultFilterKeepsAll | src/components/SubscriptionList.tsx:158-163 | an empty term with filter `all` keeps every record in order |
| Filtering.StatusOnlyFilter | src/components/SubscriptionList.tsx:162-163 | with an empty term, a status filter keeps exactly the records of that status |
| Sorting.HandleSort | src/components/SubscriptionList.tsx:105-112 | a click selects the clicked field; on the current field it flips the direction, on another field it starts ascending |
| Sorting.HandleSortTwice | src/components/SubscriptionList.tsx:105-112 | two clicks on the current field restore the sort state; two clicks on another field leave it descending |
| Sorting.KeyOf | src/components/SubscriptionList.tsx:167-181 | the value the sorted column compares: the email, the start or end instant, or the status text |
| Sorting.CompareKeys | src/components/SubscriptionList.tsx:168-181 | `localeCompare` on text keys and the sign of `dateA - dateB` on instants, always -1, 0 or 1; `Sorting.CompareKeysZero` states it ties only equal keys |
| Sorting.Comparator | src/components/SubscriptionList.tsx:167-181 | the `sort` callback: the key comparison, with the operands swapped for `desc`; `Sorting.ComparatorZero` and `Sorting.ComparatorTotalPreorder` state its properties |
| Sorting.CompareKeysZero | src/components/SubscriptionList.tsx:167-181 | two keys compare equal exactly when they are equal |
| Sorting.ComparatorZero | src/components/SubscriptionList.tsx:167-181 | the comparator ties exactly the records with equal keys in the sorted column |
| Sorting.ComparatorTotalPreorder | src/components/SubscriptionList.tsx:167-181 | every sort state selects an antisymmetric, transitive comparator |
| Sorting.SortBy | src/components/SubscriptionList.tsx:167-181 | the sorted list is a permutation of the filtered list, ordered by the chosen field and direction |
| Sorting.SortByDateOrder | src/components/SubscriptionList.tsx:174-178 | on a date column the instants are non-decreasing for `asc` and non-increasing for `desc` |
| Sorting.SortIsStable | src/components/SubscriptionList.tsx:167-181 | records with equal keys keep their input order |
| Sorting.SortDescIsReversedAsc | src/components/SubscriptionList.tsx:167-181 | when no two records share a key, the `desc` order is the exact reverse of the `asc` order |
| StableSort.Sort | src/components/SubscriptionList.tsx:167-181 | for any total preorder, the result is a sorted permutation in which every tie class keeps its input order |
| StableSort.SortKeepsDistinct | src/components/SubscriptionList.tsx:167-181 | a sort cannot tie two elements the input did not tie |
| StableSort.SortedDistinctUnique | src/components/SubscriptionList.tsx:167-181 | without ties, a sorted permutation is unique |
| StableSort.SortFlippedIsReverse | src/components/SubscriptionList.tsx:167-181 | without ties, sorting by the flipped comparator gives the reverse of sorting by the comparator |
| Paging.ResolveIndex | src/components/SubscriptionList.tsx:186 | a `slice` index is clamped into the list, negative indices counting from the end |
| Paging.Slice | src/components/SubscriptionList.tsx:186 | `slice(start, end)`: the elements between the two resolved indices, empty when the end does not pass the start; `Paging.PageOf` and `Paging.PagesCoverAll` state the pages it cuts |
| Paging.PageOf | src/components/SubscriptionList.tsx:184-187 | a page has at most ten rows, and page p is the list from position 10(p-1) up to 10p, both cut at its end |
| Paging.TotalPages | src/components/SubscriptionList.tsx:189 | the page count is the fewest pages of ten that hold all records |
| Paging.TotalPagesZero | src/components/SubscriptionList.tsx:189 | there are no pages exactly when there are no records |
| Paging.PagePastEndIsEmpty | src/components/SubscriptionList.tsx:184-189 | a page past the last page is empty |
| Paging.PagesInRangeAreFilled | src/components/SubscriptionList.tsx:184-189 | every page up to the last is non-empty, and every page before the last is full |
| Paging.PagesPrefix | src/components/SubscriptionList.tsx:184-187 | the first k pages are the first min(10k, n) records |
| Paging.PagesCoverAll | src/components/SubscriptionList.tsx:184-189 | reading pages 1..totalPages in order gives back the whole list |
| Query.Filtered | src/components/SubscriptionList.tsx:155-182 | the listed records are exactly the stored records passing search and filter, with their multiplicity, sorted by the sort state |
| Query.FilteredMembers | src/components/SubscriptionList.tsx:155-182 | a record is listed iff it is stored and passes the search and the status filter |
| Query.Visible | src/components/SubscriptionList.tsx:184-189 | on page p the rendered rows are exactly the listed records from position 10(p-1) up to 10p, both cut at the end of the list, so at most ten; the page count is the ceiling of the number of listed records over ten |
| Query.InitialViewIsFirstTenByEmail | src/components/SubscriptionList.tsx:34-37 | on first render the rows are the first ten stored records in email order |
| Query.SetSearchAsWritten | src/components/SubscriptionList.tsx:202 | typing a search term changes the term and keeps the current page |
| Query.SetStatusFilterAsWritten | src/components/SubscriptionList.tsx:210 | choosing a status changes the filter and keeps the current page |
| Query.StalePageHidesMatches | src/components/SubscriptionList.tsx:455 | on page 2 or later with one page of matches, no row is rendered and the pager is hidden |
| Query.SearchAsWrittenStrands | src/components/SubscriptionList.tsx:202 | a search from page 2 that leaves at most ten matches renders none of them and hides the pager |
| Query.SetSearch | src/components/SubscriptionList.tsx:202 | the corrected search handler changes the term and returns to page 1 |
| Query.SetStatusFilter | src/components/SubscriptionList.tsx:210 | the corrected filter handler changes the filter and returns to page 1 |
| Query.FirstPageRows | src/components/SubscriptionList.tsx:184-187 | on page 1 the rows are the first ten listed records, and some row is shown whenever a record is listed |
| Query.NarrowingShowsFirstMatches | src/components/SubscriptionList.tsx:184-189 | after a corrected search or filter change, the rows are the first ten matches, and some row is shown whenever something matches |
| Selection.Toggle | src/components/SubscriptionList.tsx:122-128 | toggling an id selects it iff it was not selected and leaves the membership of every other id unchanged |
| Selection.ToggleTwice | src/components/SubscriptionList.tsx:122-128 | toggling twice restores the selected set, and the exact selection when the id was not selected |
| Selection.ToggleKeepsDistinct | src/components/SubscriptionList.tsx:122-128 | a selection without repeated ids keeps none after a toggle |
| Selection.SelectAll | src/components/SubscriptionList.tsx:114-120 | select-all selects exactly the filtered ids in list order, and clearing empties the selection |
| Selection.SelectAllChecksHeader | src/components/SubscriptionList.tsx:246 | after select-all the header checkbox reads checked, and over unique ids no id is selected twice |
| Selection.DeleteSelected | src/components/SubscriptionList.tsx:130-133 | the intended bulk delete leaves no selected id in the store, keeps every unselected record in order, and clears the selection |
| Selection.DeleteSelectedIsEachDeleted | src/components/SubscriptionList.tsx:130-133 | the intended bulk delete equals deleting the selected ids one after another, each on the previous result |
| Selection.DeleteSelectedAsWritten | src/components/SubscriptionList.tsx:130-133 | the bulk delete as written keeps only the last `onDelete` result: the store minus the last selected id |
| Selection.AsWrittenKeepsEarlierSelections | src/App.tsx:36-38 | as written, a stored record whose id was selected but is not the last selection survives the bulk delete, while the intended delete removes it |
| Selection.BulkDeleteCounterexample | src/components/SubscriptionList.tsx:130-133 | selecting both of two records and deleting as written removes only the second |
| Stats.CountStatuses | src/components/SubscriptionStats.tsx:13-15 | the total is the number of records, active plus expired is the total, and each count is at most the total |
| Stats.CountsIgnoreOrder | src/components/SubscriptionStats.tsx:13-15 | the counts do not change when the records are permuted |
| Stats.ActiveCountIsFilteredLength | src/components/SubscriptionStats.tsx:14-15 | the active (expired) count is the length of the list filtered to `active` (`expired`) with no search term |
| Stats.AddUpdatesCounts | src/App.tsx:27-34 | adding a record raises the total by one and exactly one of active and expired, chosen by its end instant against `now` |
| DisplayDate.MonthAbbrev | src/components/SubscriptionList.tsx:88 | the month is written as three letters, a capital followed by two lower-case letters |
| DisplayDate.MonthNamedAbbrev | src/components/SubscriptionList.tsx:88 | every month's abbreviation reads back as that month (`Jan` … `Dec`) |
| DisplayDate.MonthAbbrevInjective | src/components/SubscriptionList.tsx:88 | distinct months are written differently |
| DisplayDate.DigitsValue | src/components/SubscriptionList.tsx:88 | the decimal digits of n denote n and have no leading zero |
| DisplayDate.Padded | src/components/SubscriptionList.tsx:88 | numbers are written with digits only, zero-padded to exactly the pattern's width or the number of digits, whichever is larger |
| DisplayDate.PaddedValue | src/components/SubscriptionList.tsx:88 | zero-padding keeps the value: the padded text still denotes n |
| DisplayDate.Format | src/components/SubscriptionList.tsx:88 | the `MMM dd, yyyy HH:mm` text of a civil time; `DisplayDate.FormatHasOneComma` states it holds exactly one comma and no line break or double quote |
| DisplayDate.Display | src/components/SubscriptionList.tsx:86-92 | `formatDateDisplay` of an instant: the format of its civil time; `DisplayDate.DisplayHasOneComma` carries the one-comma property to every instant |
| DisplayDate.FormatHasOneComma | src/components/SubscriptionList.tsx:86-92 | every displayed date holds exactly one comma and no line break or double quote |
| DisplayDate.DisplayHasOneComma | src/components/SubscriptionList.tsx:86-92 | the displayed text of every instant holds exactly one comma and no line break or double quote |
| Csv.Fields | src/components/SubscriptionList.tsx:138-144 | a record exports as email, password, displayed start, displayed end and status, in that order |
| Csv.Row | src/components/SubscriptionList.tsx:139-145 | one data line: the five values joined by bare commas, nothing quoted; `Csv.RowHasSevenCells` states it reads back as seven or more cells |
| Csv.Lines | src/components/SubscriptionList.tsx:137-145 | the export's lines are the header line followed by one line per filtered record, in list order |
| Csv.Export | src/components/SubscriptionList.tsx:135-146 | the text `exportToCSV` puts in the file: the lines joined by line breaks; `Csv.ExportLines` states it splits back into the header and one line per record |
| Csv.HeaderLineIsJoinedHeaders | src/components/SubscriptionList.tsx:136-137 | the first line is `Email,Password,Start Date,End Date,Status` |
| Csv.ExportLines | src/components/SubscriptionList.tsx:135-146 | when no email or password holds a line break, the export has exactly 1 + n lines: the header and each record's five fields joined by commas |
| Csv.HeaderHasFiveCells | src/components/SubscriptionList.tsx:136-137 | the header line reads back as its five column names |
| Csv.RowHasSevenCells | src/components/SubscriptionList.tsx:138-145 | every data line reads back as seven or more comma-separated cells under the five-column header |
| QuotedCsv.QuotedRoundTrip | src/components/SubscriptionList.tsx:135-146 | a quoted field with doubled quotes reads back as the original field |
| QuotedCsv.FieldRoundTrip | src/components/SubscriptionList.tsx:135-146 | every encoded field followed by a delimiter reads back as itself |
| QuotedCsv.RecordRoundTrip | src/components/SubscriptionList.tsx:135-146 | an encoded record reads back as exactly its fields |
| QuotedCsv.ParseDocument | src/components/SubscriptionList.tsx:135-146 | the reader inverts the quoting writer on every document of non-empty records |
| QuotedCsv.PlainRecordUnchanged | src/components/SubscriptionList.tsx:137 | a record with no comma, line break or quote is written exactly as the unquoted export writes it |
| QuotedCsv.ExportRecords | src/components/SubscriptionList.tsx:135-145 | the corrected export writes the header and each filtered record's five values |
| QuotedCsv.ExportReadsBack | src/components/SubscriptionList.tsx:135-146 | the corrected export reads back as the header and exactly the five values of every record |
| QuotedCsv.HeaderUnchanged | src/components/SubscriptionList.tsx:136-137 | the corrected export writes the same header line as the original |

## Left out

- JSX markup, icons, i18n `t(...)` calls, the language toggle and the theme context. These are presentation only.
- `localStorage` reads and writes and `JSON.stringify`. The store is a plain sequence. `JSON.parse` is the `parse` parameter of `Store.LoadStore`.
- The `Blob`, object URL, download link and dated file name of the export. These are DOM I/O; the model stops at the CSV text.
- `crypto.randomUUID` and the clock. They are the `freshId` and `now` parameters.
- ISO-8601 encoding and decoding of dates, `parseISO`, and the `Invalid Date` and `catch` branches of the date formatters. Instants are integers, and every instant is valid.
- The calendar and time-zone conversion from an instant to civil time. It is the `toCivil` parameter of the date display. Years are natural numbers, so dates before year 0 are not modelled.
- `handleDateChange` and `formatDateForInput`. They only move text between the inputs and the edit form.
- Email-format validation of the `type="email"` input.
- The supabase clients under `src/api`, the generated database types, the login form component and the build configuration. None of these is part of this model.
- React re-render mechanics (`useMemo`, `useEffect`). Handlers are pure state-to-state functions.
- Durations.HoursFor: states the range of the hours (6 to 8760) rather than their exact value. The exact value per selector is `Durations.HoursForTable`.
- Durations.PresetEnd: states bounds on the end instant rather than its exact value. The exact value follows from `Form.Submit` and `Editing.Save`, which state `now + hours`.
- Sorting.SortIsStable: stability is stated for the key of every record `x0`, not for keys that no record has. Such keys select no records on either side.
- Csv.ExportLines: requires that no email or password holds a line break. A stored value with one breaks the line count, and the writer does nothing about it.
- QuotedCsv.ParseDocument: requires at least one record and no empty record. The export always has the header and always writes five fields per record.

## Findings

| source | as written | input that shows it | evidently intended | confidence | as-written member | corrected member |
|---|---|---|---|---|---|---|
| src/components/SubscriptionList.tsx:130-133 | `selectedItems.forEach(id => onDelete(id))`, where every `onDelete` call filters the same render-time `subscriptions` array and sets the state to its own result, so the last call wins | two records `a` and `b`, both selected: only `b` is deleted and `a` stays | every selected record is removed | high, not executed | Selection.DeleteSelectedAsWritten | Selection.DeleteSelected |
| src/components/SubscriptionList.tsx:135-146 | the fields are joined by `,` with no quoting, while both dates are displayed as `MMM dd, yyyy HH:mm`, which contains a comma | any record: its line splits into seven or more cells under a five-column header | each record reads back as its five values | high, not executed | Csv.RowHasSevenCells | QuotedCsv.ExportReadsBack |
| src/components/SubscriptionList.tsx:202 | the search box (and the status select at line 210) sets the term but keeps `currentPage`, and the pager is rendered only when `totalPages > 1` (line 455) | eleven records, page 2 open, then a search matching one record: no row is shown and no pager is offered to go back | a narrowed list is shown from its first page | medium, not executed | Query.SearchAsWrittenStrands | Query.NarrowingShowsFirstMatches |
