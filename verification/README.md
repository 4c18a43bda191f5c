# Medlytix medical-record lifecycle, modelled in Dafny

Medlytix is a Next.js application in which doctors write medical records
for patients and patients accept or reject them. This project models its
core as pure functions over an abstract store and proves properties of
that model:

- the four record API handlers: create, list by patient and status,
  update the accepted status, and the user profile;
- the patient's pending-records page, which sends a decision and then
  updates its own list and dialog;
- the dashboard shell: the per-role navigation table, the role read from
  the path, and the highlighted item;
- the voice-note recorder: its `formatTime` display and the state its
  start, data, tick and stop handlers move through;
- the OCR reader: the transform from recognised text to displayed HTML,
  and its component state.

Each handler is a function `(store, request) -> Outcome(response, store')`.
A response is `(success, status, payload)`.

Things the handler does not decide are parameters:

- the store's generated id, creation instant and default status;
- the instant written into `updatedAt`;
- whether the database call raises for a reason of its own (`fault`);
- whether the body can be destructured at all. A body that is not JSON,
  or is `null`, is `None`: destructuring throws and the handler answers
  500. Any other non-object body, such as an array, a number or a string,
  is `Some`, with every field absent.

A request field is `Option<string>`. "Falsy" means absent or the empty
string, as in JavaScript.

Modules, one per source file:

- `Records`: entities, the store, the response shape, and the doctor
  projection.
- `Strings`: the JavaScript string built-ins used, which are
  `toString`, `padStart` and `split`.
- `CreateRecord`, `GetRecords`, `UpdateAcceptedStatus`, `UserProfile`:
  the handlers.
- `PendingPage`, `DashboardLayout`, `AudioRecorder`, `Ocr`: the
  components.
- `Workflow`: properties that span several handlers, including the
  create, accept, list walk-through.

Behaviour of the code worth noting:

- An update of an unknown record id makes the ORM's `update` raise. The
  catch block answers 500 "Error updating record status", not a distinct
  not-found error. A write the store fails for a stored id gets the same
  answer.
- Validation failures answer 404.
- The status is a free string in every handler. The list and update
  handlers accept any non-empty value, not only `pending`, `accepted` or
  `rejected`. Repeated and reversed transitions are accepted:
  last write wins.
- The OCR transform's character class, as written in `OCR.tsx`, holds:
  - '=', ',' and '+';
  - the three characters U+00E2, U+20AC, U+201D. These are the Windows-1252
    reading of the UTF-8 bytes of an em dash;
  - the range `,-,`, which contains only ','.

  So an ASCII hyphen and a real em dash are both kept. The model follows
  the characters in the file.
- `startRecording` does not reset `recordingTime`. A second recording
  continues counting from where the first stopped, and `Start` keeps that
  behaviour.

## Model

| member | source | states |
|---|---|---|
| CreateRecord.Post | src/app/api/create-record/route.ts:5-46 | An unreadable body or a failing insert gives 500 "Error creating medical record"; any falsy required field gives 404 "All Fields are required"; both leave the store unchanged. An id that is already a stored record's key gives 500 as well. Success is exactly "body readable, four required fields present, the store does not fail, the id is fresh": it answers 201 with the new record, which is appended as the one new row. The new record carries every body field, the store's id, the default status, and createdAt == updatedAt. |
| CreateRecord.CreatePreservesUniqueIds | src/app/api/create-record/route.ts:25-35 | Whatever the request, record ids stay unique after creation. |
| CreateRecord.OptionalFieldsNeverReject | src/app/api/create-record/route.ts:21-23 | Medications, special instructions and notes never affect whether creation succeeds, nor its status code. |
| CreateRecord.CreateGrowsByOne | src/app/api/create-record/route.ts:25-35 | The store grows by exactly one record on success and by none otherwise, and the existing records stay as they were. |
| CreateRecord.CreatedStatusIsDefault | src/app/api/create-record/route.ts:25-35 | A created record's status is the store default, whatever the body holds. |
| GetRecords.Select | src/app/api/get-records/route.ts:17-23 | The filter keeps a record exactly as often as the store holds it when both patient id and status match exactly, and drops it otherwise (stated on multisets). |
| GetRecords.SortNewestFirst | src/app/api/get-records/route.ts:33-35 | The ordering is a permutation of its input, with non-increasing updatedAt. |
| GetRecords.Get | src/app/api/get-records/route.ts:5-43 | The store is never written. A missing patient id gives 404 "Patient Id is required" and is checked first; a missing status gives 404 "Request Status is required"; a failing query gives 500. Otherwise the response is 200, and the list holds only exact matches, holds every stored match, is newest first, and carries each record's projected doctor. |
| GetRecords.QueryProperties | src/app/api/get-records/route.ts:17-36 | Taken together: every listed record matches, every match is listed, the list is newest first, and each entry carries its doctor. |
| GetRecords.QueryMatches | src/app/api/get-records/route.ts:17-23 | Every listed record matches both the patient id and the status. |
| GetRecords.QueryComplete | src/app/api/get-records/route.ts:22-23 | Every stored record that matches is listed. |
| GetRecords.QueryOrdered | src/app/api/get-records/route.ts:33-35 | Listed records appear in non-increasing updatedAt order. |
| GetRecords.QueryProjected | src/app/api/get-records/route.ts:24-32 | Each listed record carries its doctor, reduced to id, name and email. |
| GetRecords.QueryCountsMatches | src/app/api/get-records/route.ts:22-36 | The list holds each matching record exactly as many times as the store does: nothing dropped, nothing duplicated. |
| GetRecords.QueryMembership | src/app/api/get-records/route.ts:17-32 | A view is listed if and only if its record is stored, matches, and carries its projected doctor. |
| GetRecords.QuerySingle | src/app/api/get-records/route.ts:17-36 | A store holding one record lists it, with its doctor, exactly when it matches. |
| GetRecords.NoMatchIsEmptySuccess | src/app/api/get-records/route.ts:22-38 | No matching record is not an error: the answer is 200 with an empty list. |
| GetRecords.PendingExcludesDecided | src/app/api/get-records/route.ts:17-20 | A `pending` query never lists an `accepted` or `rejected` record. |
| Records.WithDoctor | src/app/api/get-records/route.ts:24-32 | The view keeps the record. It has a doctor exactly when some user has the record's doctorId, and that doctor is such a user's id, name and email. |
| Records.WithDoctors | src/app/api/get-records/route.ts:24-32 | The projection is applied to each record, with length and order kept. |
| UpdateAcceptedStatus.SetStatus | src/app/api/update-accepted-status/route.ts:12-19 | Records with the id get the new status and the write instant; every other record is unchanged; the length is kept. |
| UpdateAcceptedStatus.FindRecord | src/app/api/update-accepted-status/route.ts:12-21 | The returned record is found exactly when the id is stored, and it is a stored record with that id. |
| UpdateAcceptedStatus.Patch | src/app/api/update-accepted-status/route.ts:5-26 | Falsy id or status gives 404 "Record Id and Status is required"; an unreadable body, an unknown id or a failing store gives 500 "Error updating record status"; failures leave the store unchanged. Success is exactly "both fields present, the id stored and the store not failing", whatever the prior status. On success the target gets the status and the write instant, every other record is untouched, and the updated record is returned. |
| UpdateAcceptedStatus.PatchWrites | src/app/api/update-accepted-status/route.ts:12-21 | A valid request for a stored id, which the store does not fail, writes SetStatus into the store and keeps the users. |
| UpdateAcceptedStatus.PatchRejects | src/app/api/update-accepted-status/route.ts:10-24 | An empty field, an unknown id or a failing store leaves the store as it was. |
| UpdateAcceptedStatus.SetStatusPreservesUniqueIds | src/app/api/update-accepted-status/route.ts:12-19 | The write keeps every id, so unique ids stay unique. |
| UpdateAcceptedStatus.UpdateChangesOne | src/app/api/update-accepted-status/route.ts:12-19 | With unique ids the update is a single-row write: exactly one record, the one with the id, changes. |
| UpdateAcceptedStatus.PatchPreservesUniqueIds | src/app/api/update-accepted-status/route.ts:5-26 | Whatever the request, the handler keeps record ids unique. |
| UpdateAcceptedStatus.SetStatusTwice | src/app/api/update-accepted-status/route.ts:12-19 | Writing the same status at the same instant twice is writing it once. |
| UpdateAcceptedStatus.PatchIdempotent | src/app/api/update-accepted-status/route.ts:12-21 | Repeating an update at the same instant, with the same store behaviour, leaves the store that a single update leaves. |
| UpdateAcceptedStatus.RepeatKeepsStatuses | src/app/api/update-accepted-status/route.ts:16-18 | Repeating a write later changes no record's status or id, and every field other than updatedAt stays as it was. |
| UpdateAcceptedStatus.LastWriteWins | src/app/api/update-accepted-status/route.ts:12-19 | When the store fails neither write, a second update of a stored record succeeds whatever the first wrote. The record then carries the second status, and every other record is as originally stored. |
| UpdateAcceptedStatus.UnknownIdFails | src/app/api/update-accepted-status/route.ts:12-24 | An id that names no record gives 500 and leaves the store unchanged, whether or not the store would fail. |
| UserProfile.FindFirst | src/app/api/get-user-profile/route.ts:15-19 | A result is a stored user matching both id and role. There is none exactly when no stored user matches both. |
| UserProfile.PatientRecords | src/app/api/get-user-profile/route.ts:21-31 | A record is included exactly when it is stored and the user is its patient. |
| UserProfile.DoctorRecords | src/app/api/get-user-profile/route.ts:32 | A record is included exactly when it is stored and the user is its doctor. |
| UserProfile.Get | src/app/api/get-user-profile/route.ts:6-49 | Read-only. A falsy userId or role gives 404 "User Id and role is required"; a failing lookup gives 500 "Error fetching user"; no user matching both gives 404 "User not found". Success is exactly "some user matches both", and it returns that user. The patient records each carry the projected doctor, and every one of the user's records appears. The doctor records are exactly those the user authored. |
| UserProfile.WrongRoleNotFound | src/app/api/get-user-profile/route.ts:15-36 | The role is part of the key: a user's id under a role they do not hold gives "User not found". |
| PendingPage.Without | src/app/dashboard/patient/pending/page.tsx:87 | The filter keeps exactly the entries with another id and never grows the list. |
| PendingPage.WithoutNoMatch | src/app/dashboard/patient/pending/page.tsx:87 | A list without the id is returned unchanged. |
| PendingPage.WithoutAppend | src/app/dashboard/patient/pending/page.tsx:87 | The filter works piecewise on a concatenation, so relative order is kept. |
| PendingPage.BeginUpdate | src/app/dashboard/patient/pending/page.tsx:80 | Marks the record as updating and changes nothing else. |
| PendingPage.FinishUpdate | src/app/dashboard/patient/pending/page.tsx:86-100 | Whatever the reply, nothing is marked as updating afterwards. On a 2xx reply the record leaves the list and the others stay; otherwise the list is unchanged. The dialog closes exactly when it was open on this record and the request succeeded. |
| PendingPage.HandleStatusUpdate | src/app/dashboard/patient/pending/page.tsx:78-101 | The store after the handler is the one the update endpoint leaves. The page ends with nothing marked as updating and the same selection. When the endpoint accepts the write, the record leaves the list and the others stay in order; otherwise the list is unchanged. The dialog closes exactly when it was open on this record and the write was accepted. |
| PendingPage.SendsOnlyDecisions | src/app/dashboard/patient/pending/page.tsx:78-85 | The page only ever sends `accepted` or `rejected`, and with a non-empty id the request passes validation. |
| PendingPage.DecisionOutcome | src/app/dashboard/patient/pending/page.tsx:82-93 | A decision on a stored record that the store does not fail removes exactly that record from the page. On an unknown id or a failed write, the page is as before apart from the updating marker. |
| AudioRecorder.FormatTime | src/components/audio-recorder.tsx:76-80 | The display always has a colon three characters from its end and is at least five characters long. Below 100 minutes it is exactly "MM:SS". |
| AudioRecorder.FormatTimeFields | src/components/audio-recorder.tsx:76-80 | The digits before the colon denote the whole minutes and the two after it the remaining seconds. |
| AudioRecorder.FormatTimeRoundTrip | src/components/audio-recorder.tsx:76-80 | Reading the display back as minutes*60+seconds gives the elapsed seconds. |
| AudioRecorder.TwoDigitsDenotes | src/components/audio-recorder.tsx:79 | Zero padding to width 2 gives at least two digits (exactly two below 100) that denote the number. |
| AudioRecorder.Start | src/components/audio-recorder.tsx:22-58 | With the microphone granted, recording, the timer and an empty chunk buffer are set. When it is refused, nothing changes. recordingTime is kept. |
| AudioRecorder.OnData | src/components/audio-recorder.tsx:29-33 | Only a non-empty chunk is appended; nothing else changes. |
| AudioRecorder.Tick | src/components/audio-recorder.tsx:52-54 | A running timer adds one second; nothing else changes. |
| AudioRecorder.Stop | src/components/audio-recorder.tsx:60-74 | The recorder is stopped exactly when it exists and is recording, and then recording and the timer end. Otherwise nothing changes. Chunks and time are kept. |
| AudioRecorder.StopTwiceIsStopOnce | src/components/audio-recorder.tsx:60-61 | A second stop is guarded out. |
| AudioRecorder.NonEmpty | src/components/audio-recorder.tsx:29-33 | A chunk is kept exactly when it arrived and is non-empty. |
| AudioRecorder.DeliverAppends | src/components/audio-recorder.tsx:29-33 | A run of data events appends exactly the non-empty chunks, in arrival order. |
| AudioRecorder.ConcatNonEmpty | src/components/audio-recorder.tsx:35-36 | Dropping empty chunks does not change the concatenated audio. |
| AudioRecorder.RecordingHoldsArrivals | src/components/audio-recorder.tsx:27-36 | After a fresh start the buffer holds exactly the non-empty chunks that arrived, and the blob holds all the audio that arrived. |
| Strings.NatToString | src/components/audio-recorder.tsx:79 | Decimal rendering: only digits, no leading zero, one character exactly below 10. |
| Strings.ParseNatToString | src/components/audio-recorder.tsx:79 | Parsing the rendering gives the number back. |
| Strings.PadStart | src/components/audio-recorder.tsx:79 | The string is never cut; it ends the result, and every character before it is the fill. |
| Strings.Split | src/components/DashboardLayout.tsx:42 | There is one more piece than separators, and no piece holds a separator. |
| Strings.JoinSplit | src/components/DashboardLayout.tsx:42 | Joining the pieces gives the string back. |
| Strings.SplitJoin | src/components/DashboardLayout.tsx:42 | Splitting a join of separator-free pieces gives the pieces. |
| DashboardLayout.NavigationFor | src/components/DashboardLayout.tsx:15-44 | A navigation list exists exactly for `patient`, `doctor` and `admin`. |
| DashboardLayout.RoleOf | src/components/DashboardLayout.tsx:42 | The third piece exists exactly when the path has at least two slashes, and it holds no slash. |
| DashboardLayout.RoleOfDashboardPath | src/components/DashboardLayout.tsx:42 | The role read from "/dashboard/<role>" or "/dashboard/<role>/..." is that role. |
| DashboardLayout.PendingPathIsPatient | src/components/DashboardLayout.tsx:18-44 | The pending page's path reads as `patient` and shows the patient list. |
| DashboardLayout.PatientLinks | src/components/DashboardLayout.tsx:16-21 | Every patient link reads back as `patient`. |
| DashboardLayout.DoctorLinks | src/components/DashboardLayout.tsx:22-28 | Every doctor link reads back as `doctor`. |
| DashboardLayout.AdminLinks | src/components/DashboardLayout.tsx:29-34 | Every admin link reads back as `admin`. |
| DashboardLayout.NavigationLinksStayInRole | src/components/DashboardLayout.tsx:15-44 | Following any link of a role's list leads to a path with that same role and the same list. |
| DashboardLayout.HrefsDistinct | src/components/DashboardLayout.tsx:15-35 | Within each role the links are pairwise distinct. |
| DashboardLayout.AtMostOneActive | src/components/DashboardLayout.tsx:57-70 | With distinct links, a highlighted item is the only one, so at most one item is highlighted. |
| DashboardLayout.AtMostOneActiveInRole | src/components/DashboardLayout.tsx:57-70 | For every role's list and any path, at most one item is highlighted. |
| DashboardLayout.PrefixIsNotActive | src/components/DashboardLayout.tsx:62 | A role's landing item is not highlighted on its sub-pages: equality, not prefix. |
| DashboardLayout.UnknownRoleHasNoNavigation | src/components/DashboardLayout.tsx:42-44 | A path whose third piece is not a role has no navigation list. |
| Ocr.ReplaceNewlines | src/components/OCR.tsx:84 | No newline survives, and each one adds five characters. |
| Ocr.ReplaceClass | src/components/OCR.tsx:84 | Each class character becomes a space and every other character is kept, position by position. |
| Ocr.DisplayText | src/components/OCR.tsx:84 | The rendered HTML holds no newline and no class character. Its length grows by five per newline. |
| Ocr.DisplayIsPerCharacter | src/components/OCR.tsx:84 | The two chained replacements act character by character. |
| Ocr.DisplayMatchesReference | src/components/OCR.tsx:84 | They equal an independent per-character definition. |
| Ocr.DisplayAppend | src/components/OCR.tsx:84 | The display of a concatenation is the concatenation of the displays. |
| Ocr.ReplacedCharacters | src/components/OCR.tsx:84 | A newline becomes `<br />` and each class character a space. |
| Ocr.KeptCharacters | src/components/OCR.tsx:84 | An ASCII hyphen, an em dash and the angle brackets are kept: nothing is HTML-escaped. |
| Ocr.PlainTextUnchanged | src/components/OCR.tsx:84 | Text with nothing to replace is displayed unchanged. |
| Ocr.HandleImageChange | src/components/OCR.tsx:13-24 | Choosing an image clears the result and status. A preview exists exactly when a file was chosen. |
| Ocr.ReadImageText | src/components/OCR.tsx:26-48 | With no image nothing happens. Otherwise a recognised text becomes the result with status "Completed"; a failure keeps the result and reports the error status. |
| Ocr.BeginRead | src/components/OCR.tsx:27-29 | "Processing..." is shown only when an image is chosen. |
| Workflow.CreatedRecordIsListed | src/app/api/create-record/route.ts:25-40 | A successfully created record is listed for its patient under the default status. |
| Workflow.DecidedRecordIsListed | src/app/api/update-accepted-status/route.ts:12-19 | After a decision the store does not fail, the patient's list under that decision includes the record. |
| Workflow.DecidedRecordLeavesPending | src/app/dashboard/patient/pending/page.tsx:57-62 | After a decision the store does not fail, the `pending` list no longer includes the record. |
| Workflow.PendingAfterDecision | src/app/api/update-accepted-status/route.ts:12-19 | After a decision, a pending query selects exactly the records it selected before, minus the decided one. |
| Workflow.PageAgreesWithRefetch | src/app/dashboard/patient/pending/page.tsx:82-87 | When the page's list came from the pending query, what the page keeps after a decision is exactly what a new query would list, whether or not the store fails the write. |
| Workflow.CreateThenAccept | src/app/api/create-record/route.ts:25-40 | Creating the walk-through record answers 201 with status `pending`. Accepting it succeeds and writes `accepted` and the instant into the one stored record. |
| Workflow.AcceptScenario | src/app/dashboard/patient/pending/page.tsx:78-87 | After the acceptance, `accepted` lists exactly that record with its doctor, and `pending` lists nothing. |

## Left out

- Prisma itself is not modelled. Id generation, the `@default` status and timestamps are parameters.
- The relation semantics are assumed, not modelled:
  - `doctor` is the user whose id is `doctorId`;
  - `medicalRecords` are the records whose `patientId` is the user;
  - `doctorRecords` are the records whose `doctorId` is the user.
- The create handler checks only that `doctorId` is non-empty, and the model stores any such id. Whether the store rejects an id that names no user is left to `fault`, because the database schema is not part of this model.
- A listing shows a record whose `doctorId` names no user with no doctor (`None`). This is an assumption: with a required relation the ORM could instead raise, and the handler would answer 500.
- The handler passes `medications` to the insert as it came. When the body omits it, the model stores an empty list; that default is an assumption about the schema, which is not part of this model.
- JSON bodies and query strings hold only strings, or are absent. A non-string value, such as a number for `patientId`, is not modelled.
- The ORM rejects a role that is not a member of its enum. That rejection is not modelled: the role is compared as a string.
- Store failures in every handler (the query, the insert, the update) and unreadable bodies are parameters (`fault`, `None`). Their causes are not modelled.
- A generated id that collides with a stored record's id is modelled as a failed insert: the primary key rejects it and the handler answers 500.
- The shared `ApiResponse` helper file is not part of this model. `Records.ApiResponse` assumes it answers `{success, message}` with the given status.
- Console logging, toasts, rendering, icons, the dialog's content and the loading flag are not modelled.
- The toast text's reference to the undefined name `status` is not modelled.
- The pending page's initial fetch (`fetchPendingRecords`) and its fixed user id are not modelled. `Workflow.PageAgreesWithRefetch` takes the fetched list as a precondition.
- The recorder's use of the media recorder, the microphone stream, track stopping, object URLs and the 1.5-second processing timeout is not modelled. These are browser I/O, so their events are inputs.
- The recorder's paused state is not modelled, because the component never changes it.
- Tesseract text recognition is not modelled: recognised text is an input. Worker creation and termination are I/O.
- Concurrency between overlapping requests or handler invocations is not modelled. Each call is atomic.
- The order among records with equal `updatedAt` is unspecified, because the database does not fix it. `GetRecords.SortNewestFirst` fixes one order, and no property depends on it.
- Workflow.PageAgreesWithRefetch: the page's list and a fresh query are proved to hold the same entries, not to be in the same order.
- UpdateAcceptedStatus.RepeatKeepsStatuses: stated on the store write `SetStatus`. The handler-level statement follows from it with `PatchWrites` and `PatchRejects`.
- The recorder's initial state is not modelled as a constant. `AudioRecorder.RecordingHoldsArrivals` starts from any state that `Start` is applied to.
- The `add-patient-record`, `transcribe` and `transcribe-test` routes are outside the modelled core, as are the static dashboard pages and the forms.
