# Billing website client logic, in Dafny

This project models the browser side of a small billing website. A designer keeps
clients. Each client has one invoice per month, keyed `YYYYMM`, and each invoice lists
projects such as banners, thumbnails and posters, each with an amount and images.
The modelled code is four React components:

- **Client invoices page** (`clientInvoices/InvoiceManager.tsx`, module `ClientInvoices`):
  - turns the server's `YYYYMM` keys into month and year labels;
  - orders the invoice cards newest first and adds up the earnings;
  - refuses to create an invoice for a month that is already listed;
  - picks the invoice a delete confirms;
  - offers the years around the current one.
- **Invoice page** (`invoice/InvoiceManager.tsx`, module `InvoicePage`):
  - reads the month and year from the `month` parameter;
  - totals the project amounts;
  - writes the scope line, "2 Banner & 1 Poster" or "No Projects";
  - applies local edits, additions and deletions to the project list;
  - runs the delete dialog's button (`invoice/DeleteModal.tsx`), which posts the delete and
    then calls the page's `confirmDelete`.
- **Project editor** (`invoice/ProjectModal.tsx`, module `ProjectModal`):
  - loads the form and runs the dirty check;
  - reorders images by drag, removes an image, appends a loaded image;
  - builds the update payload;
  - applies the submit guards (in flight, unchanged, missing ids, 90 MiB ceiling);
  - decides what is handed back to the page.
- **Status toggle** (`invoice/Header.tsx`, module `InvoiceHeader`): a PENDING/PAID switch.
  It ignores clicks while a request is in flight and commits the new status only on an
  ok response.

Shared modules:

- `Wrappers`: `Option`.
- `Projects`: the project record. Its field `type` is named `projectType`, because `type` is a Dafny keyword.
- `JsText`: the JavaScript string built-ins the components use, stated exactly for the inputs they meet:
  - `parseInt(s, 10)`, `substring`, `split(' ')[0]`, `join`, ASCII `toUpperCase`;
  - the month-name lookup.

Modelling choices:

- Amounts are integers. A `NaN` is `None`.
- React state that a handler changes step by step is a class:
  - `ImageList` holds the editor's images and drag cursor;
  - `StatusToggle` holds the header's status and in-flight flag.
- Handlers that compute a new value from old ones are functions, with the old state as input.
- The two array splices of a drag are a method over an `array` (`Reorder`), proved against the
  function `Moved`.
- The dictionary loop of the scope line is a method (`CountTypeWords`), proved against the functions
  `TallyMap` and `Distinct`.

The two invoice pages connect through a link. A client-page card links to the invoice page with its
raw key. `CardLinkShowsCardLabels` proves that, for a six-character key, the invoice page then shows
the same month and year labels as the card. Longer keys can differ (`SevenCharacterKeyLabels`).

On the invoice page, the editor and the header are rendered without a client id, the editor
without an invoice id, and the delete dialog without a project id. The model keeps those ids
optional, and the Findings below follow from that.

## Model

| member | source | states |
|---|---|---|
| ClientInvoices.InvoiceMonthYear | src/client/components/clientInvoices/InvoiceManager.tsx:109-119 | a key that is not six characters long keeps the key as month and the fallback year 2025; a six-character key gives its first four characters as year; the month is the key itself or a month name |
| ClientInvoices.CanonicalKeyLabels | src/client/components/clientInvoices/InvoiceManager.tsx:112-118 | every well-formed key `YYYY`+`MM` with MM in 01..12 shows as that month's name and `YYYY` |
| ClientInvoices.OutOfRangeKeepsKey | src/client/components/clientInvoices/InvoiceManager.tsx:112-118 | a six-character key whose month part is not 1..12 keeps the raw key as month and still takes its year |
| ClientInvoices.MapInvoices | src/client/components/clientInvoices/InvoiceManager.tsx:108-129 | one invoice per raw entry; the id is its position (so ids are distinct); internalId is the raw key; the labels, status and amount come from the raw entry |
| ClientInvoices.SortInvoices | src/client/components/clientInvoices/InvoiceManager.tsx:168-178 | the sorted view is a permutation of the list |
| ClientInvoices.Compare | src/client/components/clientInvoices/InvoiceManager.tsx:173-177 | the comparator is `NaN` exactly when a year does not parse, or the years are equal and a month name is unknown |
| ClientInvoices.CompareZeroIffSamePeriod | src/client/components/clientInvoices/InvoiceManager.tsx:173-177 | the comparator is 0 exactly when both years parse to the same value and both months are the same known month |
| ClientInvoices.CompareAntisymmetric | src/client/components/clientInvoices/InvoiceManager.tsx:173-177 | swapping the invoices negates the comparator, and a `NaN` stays `NaN`; so the sort's reading (`NaN` as 0) is antisymmetric too |
| ClientInvoices.CompareOrders | src/client/components/clientInvoices/InvoiceManager.tsx:174-176 | for invoices with parsable year and known month, the comparator keeps `a` before `b` exactly when `a` is not older (later year, or same year and a month no earlier) |
| ClientInvoices.InsertNewestFirst | src/client/components/clientInvoices/InvoiceManager.tsx:173-177 | inserting a dated invoice into a newest-first list keeps it newest first |
| ClientInvoices.SortedNewestFirst | src/client/components/clientInvoices/InvoiceManager.tsx:168-178 | when every year parses and every month is known, the sorted list runs newest first |
| ClientInvoices.TotalEarnings | src/client/components/clientInvoices/InvoiceManager.tsx:166 | no invoices earn 0; when no amount reads negative the total is not negative |
| ClientInvoices.TotalEarningsAppend | src/client/components/clientInvoices/InvoiceManager.tsx:166 | the earnings of two lists laid end to end are the sum of their earnings |
| ClientInvoices.SortKeepsEarnings | src/client/components/clientInvoices/InvoiceManager.tsx:166-180 | the sorted view adds up to the same earnings as the list; a non-numeric amount counts 0 |
| ClientInvoices.HasInvoiceFor | src/client/components/clientInvoices/InvoiceManager.tsx:184 | true exactly when some listed invoice has the selected month and year |
| ClientInvoices.SaveInvoice | src/client/components/clientInvoices/InvoiceManager.tsx:182-228 | a duplicate month/year opens the duplicate dialog and sends nothing; a request is sent exactly when there is no duplicate and a client id is present, with the selected fields; an ok answer closes the form and refetches; a 409 opens the duplicate dialog; otherwise the dialogs stay as they were |
| ClientInvoices.FindById | src/client/components/clientInvoices/InvoiceManager.tsx:236 | the position of the first invoice whose id is the pending id, or none when no invoice has it (also when nothing is pending) |
| ClientInvoices.DeleteTarget | src/client/components/clientInvoices/InvoiceManager.tsx:235-247 | a delete is requested exactly when an invoice has the pending id, the client id is present and non-empty, and that invoice's raw key is non-empty; the request carries that client id and the raw key of the first invoice with the pending id |
| ClientInvoices.DeleteTargetsRawKey | src/client/components/clientInvoices/InvoiceManager.tsx:236-245 | because ids are positions, confirming the delete of card `k` of a fetched list requests the delete of the `k`-th raw key |
| ClientInvoices.YearList | src/client/components/clientInvoices/InvoiceManager.tsx:148-153 | eleven years, from five before the current year to five after, ascending |
| InvoicePage.ReadInvoiceMeta | src/client/components/invoice/InvoiceManager.tsx:73-89 | the year is the first four characters of the parameter (all of it when shorter); the month is a month name or the parameter itself, and the parameter itself when it has at most four characters; a missing or empty payment status reads "Pending" |
| InvoicePage.MonthLabelRule | src/client/components/invoice/InvoiceManager.tsx:74-77 | for a parameter of any length: when characters 5-6 parse to 1..12 the month is that month's name, and otherwise the month is the whole parameter |
| InvoicePage.FiveCharacterKeyLabels | src/client/components/invoice/InvoiceManager.tsx:74-77 | the five-character parameter "20251" shows "January": its characters 5-6 are just "1" |
| InvoicePage.KeyLabelsWithAnyTail | src/client/components/invoice/InvoiceManager.tsx:73-77 | a parameter of four year characters, a month 01..12 and any tail shows that month's name and those four characters |
| InvoicePage.SevenCharacterKeyLabels | src/client/components/invoice/InvoiceManager.tsx:73-77 | the invoice page names the month of the seven-character key "2025011" ("January"), while the client page keeps the raw key as month with year 2025 |
| InvoicePage.SameLabelsAsClientPage | src/client/components/invoice/InvoiceManager.tsx:73-77 | for a six-character key the invoice page derives the same month and year as the client page |
| InvoicePage.CardLinkShowsCardLabels | src/client/components/clientInvoices/InvoiceManager.tsx:348 | for a card whose raw key has six characters, following its link shows that card's month and year on the invoice page |
| InvoicePage.TotalAmount | src/client/components/invoice/InvoiceManager.tsx:34 | no projects total 0; non-negative amounts give a non-negative total |
| InvoicePage.TotalAmountAppend | src/client/components/invoice/InvoiceManager.tsx:34 | the total of two lists laid end to end is the sum of their totals |
| InvoicePage.Distinct | src/client/components/invoice/InvoiceManager.tsx:38-41 | the dictionary's keys: exactly the words that occur, none twice |
| InvoicePage.DistinctFirstOccurrenceOrder | src/client/components/invoice/InvoiceManager.tsx:38-41 | the keys come in the order in which their first projects appear |
| InvoicePage.SortByValueAscending | src/client/components/invoice/InvoiceManager.tsx:44 | `Object.entries` lists array-index keys in ascending numeric order |
| InvoicePage.EntryOrder | src/client/components/invoice/InvoiceManager.tsx:44 | the entries are a permutation of the keys |
| InvoicePage.OtherKeysInOrder | src/client/components/invoice/InvoiceManager.tsx:44 | the keys that are not array indices keep their insertion order |
| InvoicePage.EntryOrderRule | src/client/components/invoice/InvoiceManager.tsx:44 | for distinct keys, `Object.entries` order: an array-index key is preceded only by array-index keys of no larger value, and the other keys follow in insertion order |
| InvoicePage.EntryOrderWithoutIndexKeys | src/client/components/invoice/InvoiceManager.tsx:44 | with no number-like type word the entries keep the insertion order |
| InvoicePage.TallyMapCounts | src/client/components/invoice/InvoiceManager.tsx:38-41 | the counting dictionary has exactly the words seen as keys, each with its number of occurrences |
| InvoicePage.CountTypeWords | src/client/components/invoice/InvoiceManager.tsx:38-41 | the loop builds the dictionary: its keys are the first type words, each counted as often as it occurs, in first-occurrence order |
| InvoicePage.ProjectScopeText | src/client/components/invoice/InvoiceManager.tsx:37-48 | the text shown is the joined entries of the dictionary in `Object.entries` order, or "No Projects" |
| InvoicePage.ScopeCountsAddUp | src/client/components/invoice/InvoiceManager.tsx:38-46 | the counts in the scope line add up to the number of projects |
| InvoicePage.ScopeText | src/client/components/invoice/InvoiceManager.tsx:37-48 | "No Projects" is shown exactly when there are no projects; otherwise the line starts with a count's digit |
| InvoicePage.EditProject | src/client/components/invoice/InvoiceManager.tsx:144 | each project with the edited id is replaced by the edited project, every other stays, the length is kept |
| InvoicePage.EditUnknownIdIsNoOp | src/client/components/invoice/InvoiceManager.tsx:144 | an edit for an id no project carries leaves the list unchanged |
| InvoicePage.EditIdempotent | src/client/components/invoice/InvoiceManager.tsx:144 | applying the same edit twice is applying it once |
| InvoicePage.AddProject | src/client/components/invoice/InvoiceManager.tsx:135-149 | a submission with an id edits in place; one without is prepended with the id `now` and the rest of the list kept |
| InvoicePage.AddRaisesTotal | src/client/components/invoice/InvoiceManager.tsx:146-147 | adding a new project raises the total by its amount |
| InvoicePage.UpsertProject | src/client/components/invoice/InvoiceManager.tsx:135-149 | corrected handler: a submitted project with an id always ends up in the list, replacing a project with its id or prepended when the id is new; otherwise as `AddProject` |
| InvoicePage.RemoveById | src/client/components/invoice/InvoiceManager.tsx:159 | exactly the projects with the deleted id go; the length drops by their number |
| InvoicePage.RemoveByIdAppend | src/client/components/invoice/InvoiceManager.tsx:159 | removal works piecewise, so the kept projects keep their order |
| InvoicePage.RemoveByIdTotal | src/client/components/invoice/InvoiceManager.tsx:159 | deleting takes exactly the removed projects' amounts off the total |
| InvoicePage.DeleteClick | src/client/components/invoice/InvoiceManager.tsx:152-155 | the id is remembered and the dialog opens; the list is untouched |
| InvoicePage.ConfirmDelete | src/client/components/invoice/InvoiceManager.tsx:157-163 | with no pending id, or the id 0, nothing changes; otherwise the projects with that id go, the dialog closes and the id is forgotten |
| InvoicePage.DeleteClickThenConfirm | src/client/components/invoice/InvoiceManager.tsx:152-163 | running `handleDeleteClick` on a non-zero id and then `confirmDelete` leaves exactly the projects with other ids and closes the dialog |
| InvoicePage.DialogDelete | src/client/components/invoice/DeleteModal.tsx:13-43 | the dialog posts only for a truthy project id; the page's list changes only when an id was posted and the answer was ok; any other answer or failure leaves the page as it was |
| InvoicePage.PageDialogNeverDeletes | src/client/components/invoice/InvoiceManager.tsx:231-235 | as the page renders the dialog (no project id), clicking delete and then the dialog's button posts nothing and keeps the list and the open dialog |
| InvoicePage.DialogWithIdDeletes | src/client/components/invoice/DeleteModal.tsx:13-43 | given the page's pending id, an ok answer removes exactly the projects with the clicked id and closes the dialog; otherwise the list is kept |
| ProjectModal.LoadForm | src/client/components/invoice/ProjectModal.tsx:31-47 | editing loads the project's fields; a new project starts blank with type "Banner" and amount 0 |
| ProjectModal.EveryMatches | src/client/components/invoice/ProjectModal.tsx:62 | the position-wise `every` holds exactly when the images are a prefix of the initial ones |
| ProjectModal.ImagesChanged | src/client/components/invoice/ProjectModal.tsx:61-62 | the count-or-position check is true exactly when the image lists differ |
| ProjectModal.IsDirty | src/client/components/invoice/ProjectModal.tsx:50-66 | a new project is always dirty; an edit is dirty exactly when the form differs from the loaded project |
| ProjectModal.FreshFormIsClean | src/client/components/invoice/ProjectModal.tsx:31-66 | a freshly loaded edit is clean; setting any one field (name, type, amount or images) of it makes it dirty exactly when the new value differs from the project's |
| ProjectModal.Moved | src/client/components/invoice/ProjectModal.tsx:207-210 | the dragged image lands at the target, the other images keep their relative order, and the list is a permutation of the old one |
| ProjectModal.MoveBack | src/client/components/invoice/ProjectModal.tsx:204-213 | dragging an image back to where it came from restores the list |
| ProjectModal.SpliceOut | src/client/components/invoice/ProjectModal.tsx:209 | `splice(from, 1)` on the copied array leaves the list without the dragged position |
| ProjectModal.SpliceIn | src/client/components/invoice/ProjectModal.tsx:210 | `splice(to, 0, x)` inserts the dragged image before position `to` |
| ProjectModal.Reorder | src/client/components/invoice/ProjectModal.tsx:207-210 | the copied array after the two splices is `Moved(images, from, to)` |
| ProjectModal.WithoutIndex | src/client/components/invoice/ProjectModal.tsx:220-222 | an index in range drops exactly that image and keeps the others in order; an index out of range changes nothing |
| ProjectModal.ImageList.constructor | src/client/components/invoice/ProjectModal.tsx:28-43 | the editor starts with the given images and no drag |
| ProjectModal.ImageList.SortStart | src/client/components/invoice/ProjectModal.tsx:200-202 | the drag cursor is set to the index |
| ProjectModal.ImageList.SortEnter | src/client/components/invoice/ProjectModal.tsx:204-214 | with no drag, or onto the image being dragged, nothing changes; otherwise the images become `Moved` and the cursor follows to the target |
| ProjectModal.ImageList.SortEnd | src/client/components/invoice/ProjectModal.tsx:216-218 | the drag cursor is cleared |
| ProjectModal.ImageList.RemoveImage | src/client/components/invoice/ProjectModal.tsx:220-222 | the images become `WithoutIndex` of the old ones |
| ProjectModal.ImageList.AddLoaded | src/client/components/invoice/ProjectModal.tsx:186 | a loaded image is appended |
| ProjectModal.DragThereAndBack | src/client/components/invoice/ProjectModal.tsx:200-218 | a drag that enters a position and then its origin leaves the images as they were |
| ProjectModal.BuildUpdates | src/client/components/invoice/ProjectModal.tsx:87-92 | each scalar field is present exactly when it differs from the edited project, with the form's value; the image list always travels |
| ProjectModal.UpdatesRoundTrip | src/client/components/invoice/ProjectModal.tsx:86-92 | reading the payload over the edited project (absent field keeps its value, images replaced) gives exactly the form's contents |
| ProjectModal.CleanFormChangesNothing | src/client/components/invoice/ProjectModal.tsx:82-92 | for a clean form the payload carries no scalar field and the stored images, so it changes nothing |
| ProjectModal.Submit | src/client/components/invoice/ProjectModal.tsx:68-150 | in flight: nothing; an edit is sent exactly when dirty, with the payload, and stops as unchanged exactly when clean; a create is sent exactly when both ids are present and the body is at most 94371840 bytes, and stops as too large exactly when the ids are present and the body is larger; missing ids stop a create |
| ProjectModal.Completion | src/client/components/invoice/ProjectModal.tsx:105-168 | only a sent request with an ok answer hands a project back; an edit hands back the form under the edited id, a create under the server's new id |
| ProjectModal.AcceptedEditIsShown | src/client/components/invoice/ProjectModal.tsx:112 | an accepted edit of a listed project, handed to the page's own add handler, replaces it with the payload's reading of it |
| ProjectModal.PageNeverCreates | src/client/components/invoice/InvoiceManager.tsx:224-229 | as wired, the page gives the editor no ids, so adding a project always stops at the id guard |
| ProjectModal.PageWithIdsCreates | src/client/components/invoice/ProjectModal.tsx:125-157 | given a client id and invoice key, a create within the size limit is sent with the form's fields |
| ProjectModal.CreatedProjectIsDropped | src/client/components/invoice/ProjectModal.tsx:168 | as written, a created project handed back with its new id leaves the page's list unchanged |
| ProjectModal.CreatedProjectIsShown | src/client/components/invoice/ProjectModal.tsx:168 | with the corrected handler, the created project appears first, under the server's id |
| InvoiceHeader.Toggled | src/client/components/invoice/Header.tsx:26 | the requested status is PENDING or PAID, and PAID exactly when the current one is PENDING |
| InvoiceHeader.ToggleTwice | src/client/components/invoice/Header.tsx:26 | two toggles from PENDING or PAID come back to it |
| InvoiceHeader.StateIsUpper | src/client/components/invoice/Header.tsx:16 | both states are already upper case |
| InvoiceHeader.StatusToggle.constructor | src/client/components/invoice/Header.tsx:13-17 | the status starts as the upper-cased prop, with no request in flight |
| InvoiceHeader.StatusToggle.SyncStatus | src/client/components/invoice/Header.tsx:20-22 | a new prop replaces the status, upper-cased |
| InvoiceHeader.StatusToggle.BeginToggle | src/client/components/invoice/Header.tsx:24-28 | in flight: nothing is sent; otherwise the flag is set and the request asks for the opposite status; the shown status, and so the upper-case invariant, is kept |
| InvoiceHeader.StatusToggle.FinishToggle | src/client/components/invoice/Header.tsx:41-55 | the requested status is committed only on an ok response; on an error response or a failure the status is unchanged; the flag is always cleared |
| InvoiceHeader.StatusToggle.ToggleStatus | src/client/components/invoice/Header.tsx:24-56 | the whole toggle: ignored while in flight; otherwise the opposite status is requested, committed only on ok, and the flag cleared |
| InvoiceHeader.TwoAcceptedToggles | src/client/components/invoice/Header.tsx:24-56 | two accepted toggles from PENDING or PAID (any case) show the first status again |
| InvoiceHeader.FailedToggle | src/client/components/invoice/Header.tsx:43-55 | a rejected or failed toggle leaves the status as it was and the header ready for another click |
| InvoiceHeader.DoubleClick | src/client/components/invoice/Header.tsx:25-28 | a second click while the first request is in flight sends nothing |
| JsText.ParseInt | src/client/components/clientInvoices/InvoiceManager.tsx:114 | the empty string is `NaN`; a string starting with a digit reads as the value of its leading digit run |
| JsText.DigitPrefix | src/client/components/clientInvoices/InvoiceManager.tsx:114 | `parseInt`'s digit run: the longest all-digit prefix |
| JsText.ParseDecimal | src/client/components/clientInvoices/InvoiceManager.tsx:114 | `parseInt(String(n), 10)` is `n` for every natural number |
| JsText.ParseTwoDigits | src/client/components/clientInvoices/InvoiceManager.tsx:114 | the two-digit month field of a key parses to its number |
| JsText.Decimal | src/client/components/invoice/InvoiceManager.tsx:45 | a count is written as digits with no leading zero |
| JsText.Substring | src/client/components/invoice/InvoiceManager.tsx:73-74 | `substring` clamps to the length: the slice when in range, the rest of the string when the end is past it, empty when the start is past it |
| JsText.ToUpper | src/client/components/invoice/Header.tsx:16 | each character is upper-cased in place |
| JsText.ToUpperIdempotent | src/client/components/invoice/Header.tsx:16-21 | upper-casing an upper-cased status changes nothing |
| JsText.FirstWord | src/client/components/invoice/InvoiceManager.tsx:40 | `split(' ')[0]`: the longest space-free prefix, ending at the first space |
| JsText.Join | src/client/components/invoice/InvoiceManager.tsx:46 | the joined text is empty for no entries and starts with the first entry otherwise |
| JsText.MonthIndex | src/client/components/clientInvoices/InvoiceManager.tsx:169-176 | the `monthMap` lookup: a name's position in the month list, or none for an unknown name |
| JsText.MonthIndexOfName | src/client/components/clientInvoices/InvoiceManager.tsx:169-176 | looking up the `i`-th month name gives `i` |

## Left out

- The server is not part of this model. Its routing, the auth middleware, the invoice and project stores, the image store and the create/update/delete endpoints are out of scope. `ApplyUpdates` states only how the editor means its payload to be read.
- `fetch`, `alert`, `console` and React rendering are out of scope. A request is a returned value, and its answer is an input (`CreateResponse`, `Reply`, `Outcome`).
- `new Date()` and `Date.now()` become parameters (`currentYear`, `now`). The default month and year of the new-invoice form are not modelled.
- `FileReader`: loads finish in any order. `AddLoaded` models one load; the order across files is not modelled.
- `TextEncoder`/`JSON.stringify` byte counting: the encoded size is an input of `Submit`.
- JavaScript numbers are integers here. `Number(amount)` of a typed amount is taken as already read: fractions, `NaN` from bad input, and the browser's `required` checks on the name and amount fields are not modelled.
- ProjectModal.Submit: the browser refuses to submit the form while the name or the amount field is empty (both inputs are `required`). The model hands every form to `Submit`, so its "sent exactly when" clauses also cover an empty name or amount that the browser would stop.
- ClientInvoices.Compare: `parseInt(year)` in the comparator has no radix. A year starting with "0x" would read as hexadecimal; the model reads decimal digits only.
- Strings are sequences of Unicode characters, so a length or an index counts characters; JavaScript's `length`, `substring` and `[i]` count UTF-16 code units, which differ for characters outside the Basic Multilingual Plane.
- JsText.ToUpper: only ASCII letters are upper-cased. Other Unicode case mappings (including length-changing ones) are not modelled.
- `Object.entries` lists keys inherited from `Object.prototype` differently, and a key like `__proto__` is special. The model treats every type word as an own key.
- ClientInvoices.SortInvoices: stability and the result for comparators that are not consistent (a `NaN`, read as 0, next to dated invoices) are not proved. Ordering is proved only when every invoice is dated (`SortedNewestFirst`).
- The query-string round trip of the key is not modelled. The card's link puts the raw key into the URL unescaped, and the invoice page reads it back with `URLSearchParams`, which turns `+` into a space, decodes `%XX` and stops at `&` or `#`. The model hands the raw key to the invoice page unchanged.
- A raw invoice month that is not a string (null, a number) is not modelled. The key is a string.
- The client page's client-details fetch, the edit-client dialog, the dashboard, the share button's clipboard and 2-second timer, the scroll indicator and the theme toggle are outside this model.
- ProjectModal.ImageList.SortEnter: it requires the drag cursor and the target to be positions of the current list, as the rendered items guarantee. A drag cursor left past the end by a removal mid-drag is not modelled.
- ProjectModal.Reorder: the copied array has a fixed length, so between the two splices its last slot holds a stale entry rather than being shortened.

## Findings

| source | as written | input that shows it | evidently intended | confidence | as-written member | corrected member |
|---|---|---|---|---|---|---|
| src/client/components/invoice/InvoiceManager.tsx:224-229 | the page renders the project editor without `clientId` and `invoiceId`, and the editor refuses to create a project without them | any new project submitted from the invoice page: the editor alerts "Missing Client ID or Invoice ID" and sends nothing | the page passes its `clientId` parameter and the invoice's key to the editor, so a new project is sent | medium (the create endpoint is not shown); not executed | ProjectModal.PageNeverCreates | ProjectModal.PageWithIdsCreates |
| src/client/components/invoice/InvoiceManager.tsx:135-149 | after a successful create the editor (ProjectModal.tsx line 168) hands the page the project with the server's new id; the page treats any project with an id as an edit, so no project matches and the list is unchanged | once the editor has its ids (first row), a create answered `ok` with `projectId` 7 on a page whose projects have ids 1 and 2: the list stays `[1, 2]` | the created project is prepended, as the page's own add branch does | high; not executed | ProjectModal.CreatedProjectIsDropped | InvoicePage.UpsertProject |
| src/client/components/invoice/InvoiceManager.tsx:231-235 | the page renders the delete dialog without `projectId`, and the dialog's delete button returns at once when `projectId` is missing (DeleteModal.tsx line 14), so `confirmDelete` is never called | click delete on project 5, then the dialog's delete button: nothing is posted, the dialog stays open and project 5 stays listed | the page passes its `projectToDeleteId` to the dialog, so the delete is posted and an ok answer removes the project | high; not executed | InvoicePage.PageDialogNeverDeletes | InvoicePage.DialogWithIdDeletes |
