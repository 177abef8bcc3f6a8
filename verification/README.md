# Civic Pulse: the report form and the solutions search, in Dafny

Civic Pulse is a single-page web application. With it, citizens report civic problems and look up self-help guides. This project models its two pieces of logic:

- **The report form** (`components/ReportPage.tsx`).
  - An eight-rule validator: category, address, a six-digit pincode, district, state, reporter name, at least one photo, and a description of at least 20 characters after trimming.
  - Photo admission: only JPEG, PNG and WEBP files, at most 5 MB each. The code intends the most recent refusal to be the message shown. It fails to do so when a photos error is already present (see "## Findings"); the page model uses the corrected update.
  - A preview handle per photo. Removing a photo by its index also removes its handle.
  - The submission lifecycle: idle, submitting, success, error. The submit control is disabled while a submission is in flight.
- **The solutions search** (`components/SolutionsPage.tsx`). It keeps the guides that match the selected category and whose title or one of whose steps contains the search term, ignoring case. It keeps them in catalogue order.

The entities of `types.ts` are datatypes (`ReportTypes`, `Solutions.Solution`). The five guides of `constants.ts` are the constant `Catalog.Catalog`.

Each event handler becomes a pure function from one page state (`ReportSession.Session`) to the next:

- `Edit` for typing into the text inputs and choosing a category;
- `Attach` for picking files;
- `RemoveImage`;
- `Submit` for the validation and the guard;
- `Resolve` for the end of the simulated request.

`ReportSession.Run` folds a sequence of events. The behaviour is deterministic by construction: every operation is a function.

Apart from that one corrected update, the model follows the code, including where the code departs from what a reader might expect:

- Nothing returns the status to idle once a submission has been made. After a success the draft is empty, so the next submit fails validation and the status stays at success (`ReportSession.SuccessIsSticky`).
- After a success, the preview list is emptied without revoking its handles.

## Model

| member | source | states |
|---|---|---|
| Text.Trim | components/ReportPage.tsx:27 | the trimmed address is the part of the input left after removing a prefix and a suffix made only of whitespace, and it neither starts nor ends with whitespace |
| Text.TrimEmptyIffAllWhitespace | components/ReportPage.tsx:27-31 | a field is blank for the `!x.trim()` test exactly when every character is whitespace, the empty string included |
| Text.TrimNoOp | components/ReportPage.tsx:33 | trimming leaves a string with no whitespace at either end unchanged |
| Text.Includes | components/SolutionsPage.tsx:28-29 | `includes` is true exactly when the needle occurs at some position of the haystack |
| Text.Lower | components/SolutionsPage.tsx:28-29 | lower-casing keeps the length and maps each ASCII capital to its small letter and every other character to itself |
| Text.ContainsEmpty | components/SolutionsPage.tsx:28-29 | every text contains the empty search term |
| ReportTypes.ChoiceValue | types.ts:21-22 | the category field's value is the empty string exactly when no category was chosen, so `!formData.category` tests "unset" |
| Validation.MatchDigits | components/ReportPage.tsx:28 | the anchored pattern `^\d{6}$` accepts exactly the strings of six ASCII digits |
| Validation.PincodeExamples | components/ReportPage.tsx:28 | "123456" is a pincode; "12a456", "12345" and "1234567" are not |
| Validation.Check | components/ReportPage.tsx:26-33 | each field's check, in the source's terms (truthiness, trim, regex, length), fails exactly when that field breaks its declarative rule |
| Validation.FlagAll | components/ReportPage.tsx:25-34 | running the checks over a list of fields adds a message for exactly the listed fields that fail and keeps every other entry |
| Validation.Validate | components/ReportPage.tsx:24-35 | the error map has an entry for exactly the failing fields, each holding that field's message |
| Validation.ValidateForm | components/ReportPage.tsx:24-37 | validation succeeds iff the error map is empty iff the draft passes all eight rules; the map's keys are exactly the failing fields, each holding that field's message |
| Validation.MessagesEndWithPeriod | components/ReportPage.tsx:26-33 | every validation message is a non-empty sentence ending in a full stop |
| Validation.DescriptionThreshold | components/ReportPage.tsx:33 | a description with no surrounding whitespace fails exactly when it has fewer than 20 characters |
| Validation.InitialFormFailsEveryField | components/ReportPage.tsx:5-33 | the empty draft breaks every one of the eight rules |
| Photos.Admit | components/ReportPage.tsx:51-61 | a file is admitted exactly when its type is JPEG, PNG or WEBP and it is at most 5242880 bytes; the type test comes first and decides the message |
| Photos.AdmissionExamples | components/ReportPage.tsx:52-58 | a GIF is refused for its type whatever its size; a 1 KB JPEG and a PNG of exactly 5 MB are admitted; one byte more is refused for its size |
| Photos.ErrorMessagesEndWithPeriod | components/ReportPage.tsx:26-57 | every message the page can show ends with a full stop: both refusal reasons (lines 53 and 57) and the eight validation messages |
| Photos.Accepted | components/ReportPage.tsx:51-61 | the kept files are the admitted ones, in order, each as often as it was picked; every file is kept exactly when every file is admitted |
| Photos.RejectionScan | components/ReportPage.tsx:51-61 | scanning the picked files, each refusal overwrites the message, so the message left is the one for the last refused file, or the prior one if none was refused |
| Photos.LastRejection | components/ReportPage.tsx:51-61 | a refusal message exists exactly when some file is refused, and it is the reason for the last refused file |
| Photos.AttachErrorsAsWritten | components/ReportPage.tsx:47-68 | the code as written: the photos entry ends up present exactly when some file was refused and the old map had no photos entry; other entries are kept |
| Photos.AttachErrors | components/ReportPage.tsx:47-68 | the intended update: the photos entry is present exactly when some picked file was refused, and then holds the last refusal's reason; other entries are kept |
| Photos.AttachErrorsAgreeWithoutPhotosEntry | components/ReportPage.tsx:63-68 | when the old map has no photos entry, the code as written and the intended update agree |
| Photos.AttachErrorsAsWrittenDropsRejection | components/ReportPage.tsx:63-68 | with an old "at least one photo" error and a picked GIF, the code as written clears the photos entry, whereas the intended update reports the wrong type |
| Seqs.WithoutIndex | components/ReportPage.tsx:78-80 | filtering out one position removes exactly that element when the index is in range, and changes nothing otherwise |
| Seqs.Filter | components/SolutionsPage.tsx:26 | `Array.prototype.filter` keeps exactly the elements satisfying the predicate, in order, with their multiplicities |
| ReportSession.NewPreviews | components/ReportPage.tsx:72 | each newly accepted file gets a new handle, distinct from the others and from every handle issued before |
| ReportSession.InitialSessionWf | components/ReportPage.tsx:19-22 | the page's initial state (empty draft, no previews, nothing issued yet) keeps one preview per photo |
| ReportSession.Edit | components/ReportPage.tsx:39-42 | editing writes the new text and category values into the draft and keeps its photos; the errors, previews, status and handle supply are unchanged, and one preview per photo is preserved |
| ReportSession.EditsDuringSubmission | components/ReportPage.tsx:39-42 | text typed while a submission is in flight is discarded by a delivery (the reset at line 97) and kept, with the photos submitted, when the submission fails |
| ReportSession.Attach | components/ReportPage.tsx:44-75 | picking no file list changes nothing; otherwise the admitted files are appended to the draft with one new preview each, the errors follow the corrected photos update `Photos.AttachErrors` rather than the code's key-count comparison (see "## Left out"), the status is untouched, and one preview per photo with no handle shared is preserved |
| ReportSession.AttachOneJpeg | components/ReportPage.tsx:44-75 | attaching a single small JPEG adds it to the draft and clears any photos error |
| ReportSession.RemoveImage | components/ReportPage.tsx:77-84 | an in-range index removes that photo and that preview and revokes exactly that preview's handle, keeping every other handle; an out-of-range index changes nothing and revokes nothing; nothing else changes |
| ReportSession.Submit | components/ReportPage.tsx:87-90 | while submitting nothing happens (the disabled button at line 214); otherwise the error map is replaced by the validator's, and the status becomes submitting exactly when the draft passes |
| ReportSession.Resolve | components/ReportPage.tsx:92-101 | delivery sets success, resets the draft and drops the previews; failure sets error and keeps the draft; errors are untouched |
| ReportSession.SubmitOutcome | components/ReportPage.tsx:87-103 | a failing draft keeps its status and content; a passing one ends in success exactly when delivered, in error exactly when not, and the draft is reset exactly when delivered |
| ReportSession.SuccessIsSticky | components/ReportPage.tsx:87-103 | after a delivery, submitting again flags every field and the status stays at success |
| ReportSession.RunPreservesWf | components/ReportPage.tsx:44-103 | along any sequence of events, photos and previews stay in step with distinct handles, and a status that has left idle never returns to it |
| Solutions.SomeStepIncludes | components/SolutionsPage.tsx:29 | `steps.some(...)` is true exactly when some lowered step contains the lowered term |
| Solutions.Keep | components/SolutionsPage.tsx:27-30 | the filter callback accepts a guide exactly when it matches the category choice and its title or one of its steps contains the term, ignoring case |
| Solutions.FilterSolutions | components/SolutionsPage.tsx:25-32 | the listed guides are exactly the selected ones, in catalogue order, each as often as in the catalogue |
| Solutions.EmptySearchListsCatalog | components/SolutionsPage.tsx:27-29 | with an empty term and all categories the whole catalogue is listed |
| Solutions.CategoryNarrowsAll | components/SolutionsPage.tsx:27-30 | choosing a category lists a subsequence of what "all" lists for the same term |
| Solutions.SearchIgnoresCase | components/SolutionsPage.tsx:28-29 | two terms equal up to case list the same guides |
| Solutions.AbsentCategoryListsNothing | components/SolutionsPage.tsx:27-30 | a category no guide belongs to lists nothing, whatever the term |
| Catalog.UncoveredCategoriesListNothing | constants.ts:64-124 | heavy traffic, poor roads, water/land pollution and "other" have no guide, so choosing them lists nothing |
| Catalog.InitialSearchListsCatalog | components/SolutionsPage.tsx:22-32 | the page's initial state (empty term, all categories) lists the five guides in order |

## Left out

- ReportSession.Attach: the page model updates the photos error with the corrected `Photos.AttachErrors`, not the key-count comparison of components/ReportPage.tsx:63-68. So the model does not promise the code's behaviour when a photos error already exists and a picked file is refused: the code then shows no photos message. That behaviour is modelled separately by `Photos.AttachErrorsAsWritten` and exhibited by `Photos.AttachErrorsAsWrittenDropsRejection`; the two updates agree whenever no photos error exists beforehand (`Photos.AttachErrorsAgreeWithoutPhotosEntry`).
- ReportSession.Edit: `handleInputChange` writes one field per call; one `Edit` step may stand for several such calls, since any draft with the same photos is reached by a series of them.
- Rendering is not modelled: the JSX, styling, icons, and the pages and components outside the report form and the solutions search.
- `URL.createObjectURL` and `URL.revokeObjectURL` are foreign calls. A preview is an opaque handle `Preview(serial)`, and a counter stands in for the freshness of new handles. `RemoveImage` returns the handle it revokes.
- The two-second `setTimeout` and the `Math.random() > 0.1` draw become the parameter `delivered` of `ReportSession.Resolve`. The 90% rate is not modelled.
- ReportSession.Resolve requires a submission in flight, because the code after the `await` only runs after a submit that got through validation. A completion event in any other state is a no-op in `ReportSession.Step`.
- React's asynchronous state batching is not modelled: each handler is one atomic step. The `errors` value captured by the `useCallback` closure is taken to be the current one. Text edits, file picks and removals made while the simulated request is pending are ordinary events.
- Text.Lower: only the ASCII letters are mapped, whereas `toLowerCase` applies the full Unicode case mapping.
- Text.Trim and Validation.DescriptionThreshold: lengths are counted in code points, whereas JavaScript counts UTF-16 code units. Characters outside the Basic Multilingual Plane count once instead of twice.
- The concrete search results for particular terms (for example "pothole") over the five guides are not proved. The general lemmas about `Solutions.FilterSolutions` state the rule for every term.
- The educational topics, the home page and the other static text of `constants.ts` are not modelled.

## Findings

| source | as written | input that shows it | evidently intended | confidence | as-written member | corrected member |
|---|---|---|---|---|---|---|
| components/ReportPage.tsx:63-68 | The new photos message is kept only if the copied error map has more keys than the old one; otherwise the photos entry is deleted. | The old errors hold "At least one photo is required." for photos (for example after a failed submit), and the user picks one 1 KB `image/gif` file. | The photos entry reports the last refusal ("Only JPG, PNG, and WEBP files are allowed.") whenever a picked file is refused. | high; not executed | Photos.AttachErrorsAsWritten (counterexample: Photos.AttachErrorsAsWrittenDropsRejection) | Photos.AttachErrors |
