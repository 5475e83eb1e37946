# vehicle-validate — a Dafny model of forms and submissions

vehicle-validate lets an administrator build vehicle-inspection forms out of
labelled fields. A client fills a form in and uploads photos. The
administrator then reads, annotates and deletes the submissions. This
project models that bookkeeping in Dafny and proves what the code promises
about it.

The model has four parts.

1. **Server store** (`store.dfy`, `form_controller.dfy`,
   `submission_controller.dfy`, `server.dfy`). The MongoDB collections are a
   value `Db`: a map id→form and a map id→submission, each with its
   insertion order, the set of blob paths on disk, and a counter that stands
   in for ObjectId generation. Each Express handler is a pure step function
   from a `Db` and the request to a new `Db` and a reply (status and body).
   That covers:
   - the form handlers: list, get, create, update, and delete with its
     cascade;
   - the submission handlers: create, list (filtered and newest first),
     notes update, and delete.

   A malformed id in the URL path is its own `IdParam.Malformed` value, and
   each handler answers it with the status of its own `catch`.

   A class `Server.DocumentStore` holds the same state in fields. Every
   handler method is proved equal to its step function. The form-delete and
   submission-delete methods walk the submissions and photos in loops, as
   the source does.
2. **Upload naming** (`uploads.dfy`). The multer `filename` callback is a
   time stamp, a dash, and the original name with each run of white space
   replaced by one dash. The module also has the `UPLOAD_DIR` default and
   the two paths an upload is known by.
3. **Form builder and client page** (`client_app.dfy`, `list_edit.dfy`). These
   come from `public/script.js`:
   - the `currentForm` editor (add, delete, drag-move, all by `splice`);
   - answer collection and its abort on the first failing required field;
   - photo attachment order;
   - the dashboard value display, the photo URL and the client link;
   - how the answers the page sends are stored by the server.
4. **Local-storage variant** (`local_app.dfy`). `script.js` keeps
   `savedForms`, `submissions`, `currentForm`, `editingIndex` and the two
   `localStorage` entries of the editing session (`vv_editForm`,
   `vv_editIndex`) as fields of class `LocalApp.LocalStore`. Forms
   and submissions are addressed by list index, and form delete does not
   cascade.

`common.dfy` (white space and `trim`, decimal rendering, `parseInt`) and
`json.dfy` (JSON values, truthiness, `||`, Mongoose's string cast) are
shared helpers. `scenarios.dfy` proves one end-to-end example: create a
form, submit to it, list.

Three places where the code is looser than it looks:

- `updateForm` calls `findByIdAndUpdate` without `runValidators`, so an
  update is **not** validated the way a create is. The lemma
  `FormController.UpdateSkipsValidation` shows that an empty name is stored.
- The six field kinds appear only in a comment in `models/Form.js`, and any
  type string is accepted (`FormModel.UnknownKindAccepted`).
- multer writes to `UPLOAD_DIR`, but the handler always records
  `uploads/<name>`. The two path strings are equal only when the setting
  is `uploads` (`Uploads.RecordedIsWrittenIff`). Whether they name the
  same file also depends on how each is resolved on disk, which the model
  leaves out.

External effects are parameters:

- the clock, as time stamps;
- `JSON.parse`, as its result (`Payload`);
- `prompt` and `confirm`, as the user's answer;
- the DOM, as the list of controls;
- which `fs.unlinkSync` calls fail, as a set of paths.

## Model

| member | source | states |
|---|---|---|
| FormModel.CastField | models/Form.js:8-12 | a field keeps the given label and type; `required` is true only when given as true and defaults to false |
| FormModel.NewForm | models/Form.js:8-18 | a form is accepted iff its name is a non-empty string and every field has a non-empty label and type; the accepted form has exactly that name, the fields in the given order (empty by default) and `createdAt = now` |
| FormModel.NewFormValid | models/Form.js:9-17 | an accepted form satisfies the schema; each stored field carries its input's label and type, and an omitted `required` is false |
| FormModel.UnknownKindAccepted | models/Form.js:10 | a field of any non-empty type outside the six commented kinds is accepted and stored with that type: kinds are not enforced |
| SubmissionModel.NewSubmission | models/Submission.js:11-17 | a submission references its form; answers default to `{}`, photos to `[]`, notes to `''`, and `submittedAt` to now |
| FormController.ListForms | controllers/formController.js:10-13 | one summary per stored form in insertion order, carrying only its id and name |
| FormController.ListFormsExactlyOnce | controllers/formController.js:12-13 | every stored form is listed, and none twice |
| FormController.GetForm | controllers/formController.js:24-32 | the stored form is returned unchanged with 200; an absent id gives 404; a malformed id gives 500 |
| FormController.CreateForm | controllers/formController.js:40-49 | invalid input gives 400 and stores nothing; otherwise a fresh id holds exactly the given name and fields, it is appended to the order, 201 is returned, and store validity is kept |
| FormController.CreateThenGet | controllers/formController.js:42-45 | after a create, fetching the new id returns the created form |
| FormController.UpdateForm | controllers/formController.js:56-69 | a malformed id gives 400 and an absent id 404, both changing nothing; otherwise only the target's name and fields are replaced (its `createdAt` is kept) and the new version is returned |
| FormController.UpdateTouchesOneForm | controllers/formController.js:58-65 | an update changes no other form, no submission and no blob |
| FormController.UpdateSkipsValidation | controllers/formController.js:58-61 | an update with an empty name and no fields succeeds and stores a form that fails the schema |
| FormController.UnlinkAll | controllers/formController.js:86-96 | a blob is gone after the unlinks iff it was a target whose unlink did not fail |
| FormController.UnlinkAllTwice | controllers/formController.js:86-96 | unlinking one batch after another equals unlinking their union: a failed unlink does not stop the rest |
| FormController.DeleteForm | controllers/formController.js:77-103 | a malformed id gives 500; otherwise the form is removed, exactly the submissions of other forms stay (unchanged), each photo of a cascaded submission is unlinked best-effort, both insertion orders lose exactly the removed ids and keep the rest in order, 200 is returned, and validity is kept |
| FormController.DeleteFormRemovesAll | controllers/formController.js:80-98 | afterwards the form is absent, no submission references it, and listing its submissions gives an empty list |
| FormController.DeleteFormBlobs | controllers/formController.js:83-98 | a blob not referenced by the deleted form's submissions is untouched; a referenced one whose unlink does not fail is removed |
| FormController.DeleteAbsentForm | controllers/formController.js:80-99 | deleting a form that is absent and unreferenced changes nothing |
| FormController.DeleteFormIdempotent | controllers/formController.js:80-99 | deleting a form twice gives the same store and reply as deleting it once |
| SubmissionController.ReceiveUploads | app.js:111 | the upload middleware writes each file under its stored name before the handler runs and changes nothing else |
| SubmissionController.PhotoPaths | controllers/submissionController.js:24-26 | the photo list is `uploads/<name>` for each uploaded file, in upload order |
| SubmissionController.CreateSubmission | controllers/submissionController.js:11-41 | unparseable data or a malformed id gives 400 and an unknown form 404, storing nothing; success (201) iff the data parsed to a non-null value whose `_notes` casts to a string (a string, number, boolean, or an object with a non-empty string `_id`, which casts to that `_id`) and the form exists (otherwise 400 "Invalid submission data", storing nothing); the record has form, answers or `{}`, `_notes` or `''`, the photo paths and `submittedAt = now`; validity is kept |
| SubmissionController.FailedSubmissionKeepsUploads | app.js:111 | when creation fails after the uploads, no record is stored, yet every uploaded file stays on disk |
| SubmissionController.MissingDataDefaults | controllers/submissionController.js:15-19 | a request without `data` stores answers `{}` and notes `''` |
| SubmissionController.ParseBeforeLookup | controllers/submissionController.js:17-22 | unparseable data with an unknown form gives 400, not 404 |
| SubmissionController.SortByTime | controllers/submissionController.js:54-56 | the sorted ids are the same ids (same length, no duplicates added) ordered by `submittedAt` descending |
| SubmissionController.SortByTimePermutes | controllers/submissionController.js:54-56 | the sort is a permutation of the selected ids: each id occurs as often as before |
| SubmissionController.Selected | controllers/submissionController.js:51-52 | the query selects exactly the submissions of the filter's form, or all, without duplicates |
| SubmissionController.ListSubmissions | controllers/submissionController.js:49-62 | a malformed filter gives 500; otherwise 200 with the records newest first |
| SubmissionController.ListSubmissionsMatches | controllers/submissionController.js:51-56 | the listing holds exactly the stored submissions that match the filter, each as stored and each once |
| SubmissionController.UpdateNotes | controllers/submissionController.js:69-83 | a malformed id or an uncastable value gives 400 and an absent id 404, changing nothing; a well-formed, present id with a castable value (a string, number, boolean, or an object with a non-empty string `_id`, which casts to that `_id`) succeeds, the notes become the cast value or `''`, and the updated record is returned |
| SubmissionController.UpdateNotesOnlyNotes | controllers/submissionController.js:71-77 | a notes update leaves form, answers, photos, submittedAt, every other submission, the forms and the blobs as they were |
| SubmissionController.DeleteSubmission | controllers/submissionController.js:90-109 | a malformed id gives 500 and an absent id 404; otherwise the record is removed (from the map and from the insertion order), each of its photos is unlinked best-effort, nothing else changes, and 200 is returned |
| SubmissionController.DeleteSubmissionRemovesAll | controllers/submissionController.js:95-105 | after the delete, photos whose unlink succeeded are gone and the submission is no longer listed |
| SubmissionController.UploadSubmitDelete | controllers/submissionController.js:24-37 | upload, submit and delete restore the submissions; each uploaded file is on disk after the upload and gone after the delete unless its unlink fails |
| Server.DocumentStore.constructor | controllers/formController.js:10-18 | the store starts empty and valid |
| Server.DocumentStore.ReceiveUploads | app.js:111 | the loop writing uploaded files matches `SubmissionController.ReceiveUploads`, and a valid store stays valid |
| Server.DocumentStore.CreateForm | controllers/formController.js:40-50 | new state and reply equal `FormController.CreateForm`, and a valid store stays valid |
| Server.DocumentStore.UpdateForm | controllers/formController.js:56-70 | new state and reply equal `FormController.UpdateForm`, and a valid store stays valid |
| Server.DocumentStore.Unlink | controllers/formController.js:90 | one `unlinkSync` removes the path unless it fails |
| Server.DocumentStore.UnlinkEach | controllers/submissionController.js:95-102 | the photo loop unlinks every photo best-effort (`FormController.UnlinkAll`) |
| Server.DocumentStore.UnlinkPhotosOf | controllers/formController.js:86-96 | the nested loops unlink the photos of every listed submission best-effort |
| Server.DocumentStore.DeleteForm | controllers/formController.js:77-104 | the looping handler's new state and reply equal `FormController.DeleteForm`, and a valid store stays valid |
| Server.DocumentStore.CreateSubmission | controllers/submissionController.js:11-42 | new state and reply equal `SubmissionController.CreateSubmission`, and a valid store stays valid |
| Server.DocumentStore.UpdateNotes | controllers/submissionController.js:69-84 | new state and reply equal `SubmissionController.UpdateNotes`, and a valid store stays valid |
| Server.DocumentStore.DeleteSubmission | controllers/submissionController.js:90-110 | the looping handler's new state and reply equal `SubmissionController.DeleteSubmission`, and a valid store stays valid |
| Scenarios.IntakeScenario | controllers/submissionController.js:28-37 | a created form accepts a submission, which the listing then shows with its answers, no photos and the form's id |
| Uploads.SanitizeNoSpace | app.js:51 | the sanitised name contains no white-space character |
| Uploads.SanitizeRun | app.js:51 | each maximal run of white space becomes exactly one dash, with the text on either side kept |
| Uploads.SanitizeKeepsText | app.js:51 | apart from dashes, the sanitised name has the original's non-white-space characters in their original order |
| Uploads.SanitizeClean | app.js:51 | a name without white space is left unchanged |
| Uploads.SanitizeIdempotent | app.js:51 | sanitising twice equals sanitising once |
| Uploads.StoredNameParts | app.js:52 | the stored name is the decimal time stamp, a dash, then the sanitised name; it holds no white space and `parseInt` reads the time stamp back |
| Uploads.StoredNames | app.js:50-53 | each upload is named from its own time stamp and original name, in order |
| Uploads.UploadDir | app.js:35 | the directory is `uploads` when no override (or an empty one) is set, else the override |
| Uploads.RecordedIsWrittenIff | app.js:35 | the recorded path `uploads/<name>` is the written path iff the upload directory is `uploads` |
| Common.TrimEmptyIff | public/script.js:173-179 | a label trims to empty iff it is all white space |
| Common.TrimIsInfix | public/script.js:366-371 | a trimmed value is the input with only white space cut from both ends |
| Common.ParseIntOfIntToString | script.js:290-300 | `parseInt` reads back a rendered integer |
| ListEdit.SpliceUndo | public/script.js:233-234 | splicing the removed entries back in at the same place restores the list |
| ListEdit.RemoveAtIndex | public/script.js:244-247 | `splice(i, 1)` drops exactly entry i and keeps the rest in order; past the end it does nothing |
| ListEdit.MoveSpec | public/script.js:228-236 | a drop is a permutation of the same length with the moved field at the target index and the rest in their relative order; a drop on itself is a no-op |
| ClientApp.Editor.AddField | public/script.js:171-185 | an all-white-space label alerts and changes nothing; otherwise one field with the trimmed label is appended and the earlier fields are kept |
| ClientApp.Editor.DeleteField | public/script.js:244-247 | entry i is removed and the other fields keep their order |
| ClientApp.Editor.Drop | public/script.js:228-236 | the fields are moved as `ListEdit.Move`: same length, same multiset, moved field at the target |
| ClientApp.Answer | public/script.js:356-371 | a checkbox answers its checked state, a text-like field its trimmed value, and a file field nothing |
| ClientApp.FirstFailure | public/script.js:358-370 | the failure found is the first field in order that is required and empty (or has no files); none is found iff no field fails |
| ClientApp.AnswersKeys | public/script.js:350-373 | the answers hold a label iff some field with that label gave an answer and the label is not `__proto__`, which an object literal takes as its prototype setter |
| ClientApp.AnswersLast | public/script.js:350-373 | the last answering field with a duplicate label wins |
| ClientApp.CollectAnswers | public/script.js:350-373 | the loop with its early return yields `Collect`: the first failure's alert, or the complete answers |
| ClientApp.AttachmentsContents | public/script.js:379-385 | the attached photos are exactly the files of the file fields |
| ClientApp.AttachPhotos | public/script.js:379-385 | the loop attaches photos in field order, and within a field in file order |
| ClientApp.SubmitDataStored | public/script.js:377 | the answers the page sends are stored verbatim with notes `''` and the uploads' photo paths |
| ClientApp.Display | public/script.js:442 | `true` shows as Yes, `false` as No, any other falsy value as Not provided, anything else as itself |
| ClientApp.DisplayAnswer | public/script.js:442 | a checkbox answer shows as Yes or No; a text answer shows as Not provided iff it was all white space |
| ClientApp.StripLeadingSlashes | public/script.js:451 | only leading slashes are removed, and all of them |
| ClientApp.PhotoUrl | public/script.js:451 | a photo URL has exactly one leading slash, then the path with its leading slashes stripped |
| ClientApp.PhotoUrlNormal | public/script.js:451 | normalising a photo URL twice changes nothing |
| ClientApp.PhotoUrlOfRecorded | public/script.js:451 | a recorded photo path is served at `/uploads/<name>` |
| ClientApp.Directory | public/script.js:137 | the base is the page path up to and including its last slash |
| ClientApp.ClientLinkSibling | public/script.js:136-144 | the client link is `form.html?formID=<id>` in the builder page's directory |
| LocalApp.IndexRoundTrip | script.js:285-300 | the editing index saved to the session reads back as the same index (`"null"` for a new form) |
| LocalApp.ParseIndex | script.js:292-296 | `"null"` reads as a new form; a missing value reads as NaN |
| LocalApp.ParseIndexHex | script.js:295 | the radix-less `parseInt` reads `0x1` as 1 and `-0X1A` as -26, and a bare `0x` as NaN |
| LocalApp.FormAt | script.js:350-351 | the client page finds form i only from the link parameter `i` |
| LocalApp.FormAtLink | script.js:123-133 | the link built for form i leads the client page to form i |
| LocalApp.Entry | script.js:359-382 | a file field records its file URLs, a checkbox its state, other fields their trimmed text; a missing element nothing |
| LocalApp.RecordKeys | script.js:354-382 | the record's keys are `_submittedAt`, `_notes` and the labels of the present fields other than `__proto__`, which sets the record's prototype or is ignored; `_notes` is `''` and `_submittedAt` the stamp unless a label overrides them |
| LocalApp.VisibleKeys | script.js:410-411 | the dashboard shows exactly the keys not starting with `_` |
| LocalApp.VisibleKeysOfRecord | script.js:410-411 | a record's visible keys are exactly the labels that do not start with `_` |
| LocalApp.LocalStore.constructor | script.js:31-34 | everything starts empty, with a new form being edited and no session data |
| LocalApp.LocalStore.CreateNewForm | script.js:98-103 | the editor gets the 11-field default template, the index becomes new-form, and both are saved to the session |
| LocalApp.LocalStore.EditForm | script.js:106-111 | a valid index loads that form's fields and saves the session; an out-of-range index throws and changes nothing |
| LocalApp.LocalStore.DeleteForm | script.js:114-120 | a confirmed delete removes entry i (later forms shift down); submissions are not touched |
| LocalApp.LocalStore.SaveFormAndReturn | script.js:261-282 | a new form with a non-blank prompted name is appended; an edit replaces entry i keeping its name and leaving the others; cancel and a bad index change nothing; the session is cleared only on save |
| LocalApp.LocalStore.SaveEditingSession | script.js:285-288 | the session holds the current fields and the rendered editing index |
| LocalApp.LocalStore.LoadEditingSession | script.js:290-300 | stored session data is restored and its index parsed; without it the default template and a new form are used |
| LocalApp.LocalStore.AddField | script.js:160-175 | an all-white-space label alerts and changes nothing; otherwise one field with the trimmed label is appended |
| LocalApp.LocalStore.DeleteField | script.js:256-259 | `currentForm` loses entry i only |
| LocalApp.LocalStore.Drop | script.js:230-241 | `currentForm` is moved as `ListEdit.Move`; nothing else changes |
| LocalApp.FillRecord | script.js:353-382 | the alert names the first field in order that is required and empty (or has no files); with no such field there is no alert and the record holds the stamp, empty notes and one entry per field with an element |
| LocalApp.LocalStore.SubmitClientForm | script.js:348-387 | an unknown form or the first failing required field returns before the push, leaving `submissions` unchanged; otherwise exactly the built record is appended |
| LocalApp.LocalStore.SaveNote | script.js:442-449 | the trimmed input becomes `_notes` of submission i only; a bad index throws and changes nothing |
| LocalApp.LocalStore.DeleteSubmission | script.js:451-457 | a confirmed delete removes entry i |

## Left out

- Express, Mongoose and MongoDB are absent. Middleware, CORS, static serving, connecting and `listen` are glue. Database calls are map operations, and ObjectId generation is the `nextId` counter.
- Database failures other than a malformed id are not modelled: no connection loss, write error or validation error on update. Those error replies cannot arise in the model.
- `SubmissionController.DeleteSubmission`: `sub.remove()` is modelled as removing the record. This assumes a Mongoose version where `Document.remove` exists.
- `FormModel.CastField` stores an absent `label` or `type` as `''`, whereas Mongoose stores no key. The create path rejects such a field, but `FormController.UpdateForm` runs no validators (controllers/formController.js:58-61). So after such an update the source returns a field with no `label`, and the client keys its answer under `undefined`. The model does not tell an absent key from `''`.
- `FormController.UpdateForm`: the body's `name` and `fields` are always given. A body without them, and a field value Mongoose cannot cast, are not modelled.
- `Uploads.RecordedPath`: `path.join` normalisation is not modelled. An upload path is one string throughout.
- `Uploads.RecordedIsWrittenIff` compares the two path strings only. multer resolves `UPLOAD_DIR` against the server's working directory, while the unlinks resolve the recorded path against the project root. So `./uploads`, or an absolute path to the project's `uploads`, names the same files, and the default names other files when the server starts elsewhere. The model assumes a relative directory and a server started in the project root.
- JSON numbers are integers; floating point is not modelled. `Json.CastToString` renders a number as its integer decimal.
- `LocalApp.RecordKeys`: a file field labelled `__proto__` makes its URL array the prototype of the in-memory record. The model keeps own keys only, so it does not capture that prototype. It is neither an own key nor saved by `JSON.stringify`.
- Subdocument `_id`s of fields, and the `_id` and `__v` of records, are not modelled.
- The `toLocaleString` stamp of the local variant is a parameter, as is every other clock reading.
- Deep copies made through `JSON.parse(JSON.stringify(…))` and the JSON encoding of the editing session in `localStorage` are left out. The model's values never alias, so the template cannot change when the copy is edited.
- `URL.createObjectURL` is left out: a file control is given by the URLs of its files.
- DOM rendering, `innerHTML`, `escapeHtml`, `fetch`, the clipboard, `alert` text display and drag-event wiring are left out. The controls are given as values, and `prompt` and `confirm` are given as their answers.
- `ClientApp.Editor.Drop` and `LocalApp.LocalStore.Drop` require both indices to be positions of rendered fields. A drop payload that does not parse to such an index is not modelled.
- `SubmissionController.SortByTime`: the order of submissions with equal `submittedAt` is not stated. MongoDB does not promise one either.
- `SubmissionModel.NewSubmission`: `answers` is a Dafny `map`, so the key insertion order that the dashboards show through `Object.keys` is not modelled. The same holds for the local records (`LocalApp.RecordUpTo`).
- The dashboard `saveNote` of `public/script.js` (lines 478-495) is not part of this model. It only sends a request to the notes handler.
- Handlers are single atomic steps. Interleaving of asynchronous requests, and a crash in the middle of the cascade, are not modelled.
