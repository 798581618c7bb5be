# Page pairing for answer-sheet scans

This project models the upload pipeline of the `imgProAPP` scan-recognition
server in Dafny. A scanner uploads one image per side of an answer sheet,
plus a JSON sidecar. The server does the following:

- stores the upload as a `ScanResult`;
- decides from the page number and the QR code whether the upload is the front (page 1) or the back (page 2) of its sheet;
- finds the template, from its local `ScanTemplate` cache or by polling the main server;
- once both sides are stored, merges the two records into one `AB` record and stacks the two images into one composite.

The two sides of a sheet find each other through their file names alone. A name ends in an `_`-separated run of digits. An odd number looks for its sibling one above, and an even number looks for its sibling one below. Which side is the front is decided by the QR code, not by the number: an odd page whose code is not found is resolved as page 2. The sibling's number is zero-padded to the same width.

Module layout:

| module | file | models |
|---|---|---|
| `Wrappers` | `wrappers.dfy` | `Option`, and `Outcome` (`Raised` stands for a Python exception, which becomes an HTTP 500) |
| `Text` | `text.dfy` | `str.split`, `str.join`, `int()`, `format(n, '0<w>d')` and `in` on strings |
| `FileNames` | `file_names.dfy` | `get_next_file_name` and the sibling name computed by `get_file_scan_result` |
| `JsonValue` | `json_value.dfy` | parsed JSON values and Python truthiness |
| `Models` | `models.dfy` | the `ScanResult`, `Scanner` and `ScanTemplate` records; `upload_to`, `scanner_status`, `Scanner.__str__`, `ScanTemplate.create` |
| `Composite` | `composite.dfy` | `concate_page`: the composite's dimensions and path |
| `ScanStore` | `scan_store.dfy` | the ScanResult table as a class over a map from key to record: `get_file_scan_result`, `merge`, `merge_page`, `delete_page_b` |
| `TemplateCache` | `template_cache.dfy` | the ScanTemplate table as a class, and `get_template_json` with its polling loop |
| `Upload` | `upload.dfy` | `file_upload_view`: the scanner heartbeat, side resolution and the whole request |

Behaviour of the code that is easy to misread:

- **Merge survivor.** The record that survives a merge is the one resolved as page 1 (it carried a QR code), not the one with the odd file name (`merge_page`, imgProAPP/views.py:177-180). The two coincide whenever the front's code is read and the back's code is not; `ScanStore.MergeOrderIndependent` proves that pairing does not depend on arrival order in that case.
- **Composite height.** The back image is resized to the front's size before stacking (imgProAPP/views.py:212). The composite is therefore twice the front's height, which equals "front height + back height" only after the resize.
- **Template page count.** `get_template_json` inserts with `objects.create` and later assigns `template_json` directly (imgProAPP/views.py:228, 240-241). The classmethod `create` that derives `template_pages` is never called on this path, so a filled cache entry keeps the default of 2.
- **Insert conflict.** On an insert conflict, `get_template_json` catches the `IntegrityError` and returns `None` without polling (imgProAPP/views.py:243-245). The view then answers with an Info message. It does not fall back to polling.
- **Sidecar keys.** The sidecar's `qr_code_scanned` is read on every page, after the upload is already saved (imgProAPP/views.py:105, 110). A sidecar without it raises and leaves the new record in the table. The same holds for a missing `qr_code` when the flag is truthy on an odd page.
- **Unfilled template.** A reply without `data` raises a `KeyError` after the pending entry was inserted. Every later call for that id finds the entry and returns its empty json (`TemplateCache.FillThenHit`).

## Model

| member | source | states |
|---|---|---|
| `Text.JoinSplit` | imgProAPP/views.py:28-32 | joining the parts of `s.split(c)` with `c` gives `s` back |
| `Text.ReplaceLast` | imgProAPP/views.py:28-32 | replacing the last part of a split and joining again gives the text up to the last separator followed by the new part |
| `Text.SplitReplaced` | imgProAPP/views.py:28-32 | when the new part holds no separator, splitting the rebuilt text gives the old parts with the new last part |
| `Text.FirstIsStem` | imgProAPP/views.py:104 | `s.split(c)[0]` is the longest prefix of `s` without `c`, followed in `s` by `c` or by nothing |
| `Text.FirstAfter` | imgProAPP/views.py:214 | a prefix free of `c` passes through `split(c)[0]` unchanged |
| `Text.ParseFormat` | imgProAPP/views.py:30-31 | `int(format(v, '0<w>d')) == v` for every integer, negative ones included |
| `Text.Canonical` | imgProAPP/views.py:29-31 | formatting the value of a digit run at the run's own width gives the run back, leading zeros included |
| `Text.HasInfix` | imgProAPP/views.py:128 | `'exam' in s` holds exactly when the text occurs at some index of `s` |
| `FileNames.NextFileName` | imgProAPP/views.py:27-33 | get_next_file_name; its meaning is stated by `FileNames.NextFileNameValue`, `FileNames.NextFileNameShape`, `FileNames.StepAndBack` and `FileNames.NextFileNameRoundTrip` |
| `FileNames.NextFileNameValue` | imgProAPP/views.py:27-33 | the new name is the text up to the last `_` followed by `int(segment) + direction` padded to the segment's width; `None` exactly when `int()` raises |
| `FileNames.NextFileNameShape` | imgProAPP/views.py:27-33 | fails exactly when the last segment is not an integer; otherwise only the last segment changes, into the padded stepped number, and all earlier segments are kept |
| `FileNames.StepAndBack` | imgProAPP/views.py:27-33 | stepping by a direction and back restores the name whenever the stepped number is non-negative and fits the width |
| `FileNames.NextFileNameRoundTrip` | imgProAPP/views.py:27-33 | `get_next_file_name(get_next_file_name(n, 1), -1) == n` when the incremented number does not carry into an extra digit |
| `FileNames.DirectionFlipsParity` | imgProAPP/views.py:160-165 | the step chosen for a number (even: -1, odd: +1) gives a number of the opposite parity, whose own step goes back |
| `FileNames.SiblingName` | imgProAPP/views.py:159-165 | the name get_file_scan_result looks up; its meaning is stated by `FileNames.SiblingNameValue`, `FileNames.SiblingOppositeParity`, `FileNames.SiblingIsAnotherName` and `FileNames.SiblingSymmetric` |
| `FileNames.SiblingNameValue` | imgProAPP/views.py:158-165 | the looked-up name is the name with its last segment stepped in the direction its parity chooses; `None` when the segment is not an integer |
| `FileNames.SiblingOppositeParity` | imgProAPP/views.py:158-165 | the looked-up name's number is the original plus the chosen step, and it has the opposite parity |
| `FileNames.SiblingIsAnotherName` | imgProAPP/views.py:158-167 | the looked-up name is never the name itself, so a page is never paired with its own record |
| `FileNames.SiblingSymmetric` | imgProAPP/views.py:158-165 | pairing is mutual: the sibling of the sibling is the name, for digit runs without carry and an even number that is not zero |
| `FileNames.CarryBreaksPairing` | imgProAPP/views.py:27-33 | without the no-carry condition pairing is not mutual: a name whose number is all nines (10^w - 1) has a sibling one digit wider, and that sibling's own sibling exists but is not the name (`p_9` looks for `p_10`, which looks for `p_09`) |
| `Models.Status.Code` | imgProAPP/models.py:92-97 | a status is stored as an integer in 0..3 |
| `Models.StatusOfCode` | imgProAPP/models.py:92-103 | an integer denotes a status exactly when it is in 0..3, and then that status's code is the integer |
| `Models.StatusCodesAreChoices` | imgProAPP/models.py:92-97 | every status is the status of its own code |
| `Models.NewScanResult` | imgProAPP/models.py:103-117 | a new record starts recognising (status 0), not reverted, with no template, exam, page or temporary file |
| `Models.UploadTo` | imgProAPP/models.py:84-85 | `upload_to`; its meaning is stated by `Models.UploadToComponents` |
| `Models.UploadToComponents` | imgProAPP/models.py:84-85 | for a plain file name `upload_to` is `img/<name up to its first '.'>/<last '_'-segment>`, and neither component contains '/' |
| `Models.StoredPathShape` | imgProAPP/models.py:84-85 | the stored path is the media root joined with `img/<stem>`, then '/', then the last segment |
| `Models.StoredBaseName` | imgProAPP/models.py:84-85 | the stored file's base name is the upload's last `_`-segment |
| `Models.ScannerStatus` | imgProAPP/models.py:63-74 | idle when never active; scanning exactly when active and at most the offset in seconds has passed, so an elapsed time equal to the offset still counts as scanning |
| `Models.IdleStaysIdle` | imgProAPP/models.py:63-74 | once idle, a scanner stays idle at every later time until it is active again |
| `Models.ScannerLabel` | imgProAPP/models.py:76-77 | the name when it is set and non-empty, otherwise the scanner id |
| `Models.CreateTemplate` | imgProAPP/models.py:169-177 | raises when `template_json` is not passed or does not parse; an empty or null text keeps the default of 2 pages; a parsed text gives the length of `pages`, and raises exactly when there is no sized `pages` entry |
| `Composite.ConcatePageGeometry` | imgProAPP/views.py:209-216 | fails exactly when an image cannot be read or the output path has no extension OpenCV can encode; otherwise the composite is as wide as the front, twice the front's height, and is written to the front path up to its first '.', then '_', then the back's file name |
| `Composite.ConcatePage` | imgProAPP/views.py:209-216 | concate_page on image dimensions; its meaning is stated by `Composite.ConcatePageGeometry`, `Composite.BackSizeIrrelevant` and `Composite.ExtensionFromBack` |
| `Composite.Writable` | imgProAPP/views.py:215 | `cv2.imwrite` has an encoder for the path: what follows its last '.' is a known extension; used by `Composite.ExtensionFromBack` |
| `Composite.ExtensionFromBack` | imgProAPP/views.py:214-215 | the composite can be written exactly when the back's file name can: its extension is the back's, so a back stored without an extension makes the write raise |
| `Composite.BackSizeIrrelevant` | imgProAPP/views.py:211-213 | the back image's own size never changes the result |
| `Composite.CompositeName` | imgProAPP/views.py:214 | `page_name` is the front path's last component up to the path's first '.', then '_', then the back's file name |
| `Composite.CompositeNameOfUploads` | imgProAPP/views.py:181-183 | for two uploads stored under a media root without '.', `page_name` is the front's number (its last segment up to '.'), '_' and the back's last segment |
| `ScanStore.FirstNamed` | imgProAPP/views.py:167 | `filter(tmp_file_name=name).first()` returns the smallest key of a record with that name, or nothing when no record has it |
| `ScanStore.MergePair` | imgProAPP/views.py:177-180 | which record of a pair survives and which is deleted; stated by `ScanStore.MergeOrderIndependent` |
| `ScanStore.Merged` | imgProAPP/views.py:195-206 | the record merge() saves; stated by `ScanStore.MergedIsComplete` |
| `ScanStore.AfterMerge` | imgProAPP/views.py:195-206 | the table after merge(); stated by `ScanStore.MergeLeavesOneRecord` |
| `ScanStore.DropFirstNamed` | imgProAPP/views.py:188-191 | the table after delete_page_b; stated by `ScanStore.DropFirstNamedKeeps` and `ScanStore.MergeLeavesOneRecord` |
| `ScanStore.DropFirstNamedKeeps` | imgProAPP/views.py:188-191 | delete_page_b removes at most one row, only one stored under the name, and keeps every other row as it was |
| `ScanStore.MergedIsComplete` | imgProAPP/views.py:195-206 | the merged record has both sides set from the two temporary files, no temporary file, page `AB`, and keeps its own template, exam, status, scanner and rotation |
| `ScanStore.MergeLeavesOneRecord` | imgProAPP/views.py:172-206 | after merge and delete_page_b, the survivor is complete, the other record is gone, and every other record is untouched unless it was the first remaining duplicate of the back's name |
| `ScanStore.MergeOrderIndependent` | imgProAPP/views.py:172-180 | whether the front (with its code) or the back arrives second, the same record survives and the same record is deleted |
| `ScanStore.PageMerge` | imgProAPP/views.py:172-185 | merge_page as a function of the table: a deferral leaves the table as it was; a merge returns a complete record with its composite path, the survivor stored complete, and the page's own record gone unless it survived; every remaining row was there before |
| `ScanStore.ScanTable.constructor` | imgProAPP/models.py:88-151 | the table starts empty |
| `ScanStore.ScanTable.Insert` | imgProAPP/views.py:98-105 | a new record gets the next key and nothing else changes |
| `ScanStore.ScanTable.Save` | imgProAPP/views.py:139-141 | the row under the key becomes the record and nothing else changes |
| `ScanStore.ScanTable.Delete` | imgProAPP/views.py:201 | the row under the key is removed and nothing else changes |
| `ScanStore.ScanTable.GetFileScanResult` | imgProAPP/views.py:158-168 | raises exactly when the name's number cannot be read; otherwise the first record under the sibling name, which is never named like the page itself, or nothing when no record has that name |
| `ScanStore.ScanTable.DeletePageB` | imgProAPP/views.py:188-191 | deletes the first record still stored under the name, if there is one |
| `ScanStore.ScanTable.Merge` | imgProAPP/views.py:195-206 | the survivor is the merged record and is complete; the other key is deleted and the survivor's key holds the merge |
| `ScanStore.ScanTable.MergePage` | imgProAPP/views.py:172-185 | the result and the new table are those of `PageMerge`; with no sibling the table is unchanged and the merge deferred; otherwise the page-1 record survives the merge. A failing composite raises after the merge is saved. On success the composite path and name are on the returned record only, and delete_page_b has run on the back's name |
| `TemplateCache.FirstTruthy` | imgProAPP/views.py:233-236 | the polling loop stops at the first non-empty reply |
| `TemplateCache.Fill` | imgProAPP/views.py:219-245 | get_template_json as a function; its meaning is stated by `TemplateCache.FillTouchesOneEntry`, `TemplateCache.NoIdNoTemplate`, `TemplateCache.FillReturnsFirstAnswer` and `TemplateCache.FillThenHit` |
| `TemplateCache.FillTouchesOneEntry` | imgProAPP/views.py:219-245 | a call adds at most the entry for its id and changes no other entry; it sends requests exactly when it had to insert |
| `TemplateCache.NoIdNoTemplate` | imgProAPP/views.py:221-222 | an absent or empty id returns None and leaves the cache alone |
| `TemplateCache.FillReturnsFirstAnswer` | imgProAPP/views.py:228-242 | a miss returns the `data` of the first non-empty reply, after one request per reply up to it, or raises when that reply has no `data`; the entry exists with page count 2 |
| `TemplateCache.FillThenHit` | imgProAPP/views.py:223-226 | after a fill, the next call for the id sends nothing, changes nothing and returns the stored json, or None when the fill had raised |
| `TemplateCache.TemplateTable.constructor` | imgProAPP/models.py:154-160 | the cache starts empty |
| `TemplateCache.TemplateTable.GetTemplateJson` | imgProAPP/views.py:219-245 | the result, the new cache and the number of requests are those of `Fill`: None for no id or a conflict; a hit with no request; on a miss, a pending entry, polling, then the stored `data` |
| `Upload.HasCode` | imgProAPP/views.py:123 | `if qr_code:`: a code that is present and not empty; used by `Upload.Resolve` and `Upload.Placement` to choose page 1 |
| `Upload.SoughtCode` | imgProAPP/views.py:110-119 | raises exactly when the sidecar lacks `qr_code_scanned`, or lacks `qr_code` on an odd page whose flag is truthy |
| `Upload.EvenPageHasNoCode` | imgProAPP/views.py:110-120 | an even page number from preprocessing never has its code read |
| `Upload.CodeSource` | imgProAPP/views.py:110-119 | on an odd page the code is the scanner's reading (or none for null) when its flag is truthy, otherwise the first symbol decoded from the image, and nothing when none was decoded |
| `Upload.AsFront` | imgProAPP/views.py:123-131 | a page with a code becomes page 1 with the code as template id, the code as exam id when it contains "exam", and side A from its temporary file |
| `Upload.AsBack` | imgProAPP/views.py:132-137 | a page without a code becomes page 2 and takes the sibling record's template id, or none when there is no sibling |
| `Upload.ExamIdOnlyForExams` | imgProAPP/views.py:126-129 | a fresh front gets an exam id exactly when its code contains "exam", and then it equals the template id |
| `Upload.BackInheritsTemplate` | imgProAPP/views.py:123-137 | a back page found after its front takes the front's code as template id |
| `Upload.Resolve` | imgProAPP/views.py:122-140 | raises exactly when there is no code and the name has no number; a page with a code is page 1 with the code as template id; one without is page 2 and inherits the template id of the first record under its sibling's name; the temporary file and rotation are kept |
| `Upload.ResolveSide` | imgProAPP/views.py:122-140 | the result of `Resolve` on the table; with a code, the record resolved as front; without one, raises when the name has no number, else the record resolved as back against the first sibling record |
| `Upload.ScannerTable.constructor` | imgProAPP/models.py:44-57 | no scanners are known at first |
| `Upload.ScannerTable.MarkActive` | imgProAPP/views.py:88-94 | a known scanner gets `last_active = now`; an unknown one is created named after its school and then marked; an unknown school raises and changes nothing; afterwards the scanner is scanning for every non-negative offset |
| `Upload.Stored` | imgProAPP/views.py:96-105 | the first saved record holds the sidecar, the stored image path and the upload name up to its first '.', and starts recognising with no template or page |
| `Upload.Placement` | imgProAPP/views.py:110-141 | seeking the code and resolving the side against the table holding the upload: raises exactly when the code lookup raises, or there is no code and the name has no number; otherwise page 1 exactly when there is a code, with the upload's temporary file kept |
| `Upload.Dispatched` | imgProAPP/views.py:143-151 | the template cache becomes that of `Fill` for the record's template id; a raising fetch is a 500 and an empty template an Info, both with the table unchanged; otherwise the answer and table are `PageMerge`'s, and a success carries the fetched, non-empty template and a complete merged record stored complete |
| `Upload.FetchAndMerge` | imgProAPP/views.py:143-151 | the response, table and cache are those of `Dispatched` |
| `Upload.StoreUpload` | imgProAPP/views.py:98-151 | the upload is inserted under the next key; if `Placement` raises, the answer is a 500 with the inserted row left and the cache unchanged; otherwise the row is replaced by the record `Placement` gives and the rest is `Dispatched` on that table |
| `Upload.FileUploadView` | imgProAPP/views.py:81-155 | missing ids give 400 and change nothing; otherwise the scanner is marked active, or created under its school's name; an unknown scanner of an unknown school or a missing sidecar is a 500 with nothing stored; otherwise the result, table and cache are those of `StoreUpload` for the record `Stored` builds; an Info answer leaves the upload stored as page 1 or 2; a success returns a complete `AB` record with its composite path and a non-empty template, and the survivor is stored as `AB` |

## Left out

- Image work is not modelled: preprocessing (`process`), QR decoding (`pyzbar.decode`), and reading, resizing and writing pixels with OpenCV. The model takes their results as inputs: the page number and the reverted flag, the decoded symbols, the dimensions of each readable image file, and the file extensions OpenCV can write.
- The HTTP requests to the main server are not modelled. The server is reduced to the sequence of replies it gives.
- `scorePaper`, `async_task`, `cache.set`, `print` and the HTTP response bodies are not modelled. A successful request returns what would be handed to the scorer.
- Clocks and time zones are reduced to an integer number of seconds; the floating-point `total_seconds` becomes integer subtraction.
- `int()` is modelled on ASCII digits with an optional sign. Surrounding whitespace, `_` digit separators and non-ASCII digits, which Python also accepts, are not modelled.
- Django's cleaning of uploaded file names (`get_valid_name`) and `MyFileStorage.get_available_name` (the deletion of an existing file) are not modelled. The upload name is used as given.
- Column length limits are not modelled; for example, a generated scanner name may be longer than 10 characters.
- `scanner_json` and `template_json` are text columns, but the model keeps the parsed value. Reading a filled template back from the database would give its text.
- The sidecar's `qr_code` is modelled as missing, null or a string. A code of another JSON type (a number, a list or an object) is not modelled. An unreadable or missing `json` field raises before anything is stored.
- A missing `file` form field is not modelled: the upload is always present. In the source it raises a `KeyError` after the scanner is marked active and before anything is stored (imgProAPP/views.py:93-94, 103).
- ScanResult columns the pipeline never touches are not modelled: OSS paths, sides C and D, student codes, `result_json` and the timestamps. `ScanResult.__str__` is not modelled either.
- Concurrency is not modelled: two workers racing to create the same template, or to merge the same pair. The conflict is an input flag of one call.
- `check_app_view`, `update_school_scanner_view`, `active_scanner_view`, the serializers and the URL routing are not modelled.
- Upload.FileUploadView: requires that some reply from the main server is non-empty even on paths that never poll. The source's loop does not terminate otherwise, and which path polls is only known inside the request.
- ScanStore.ScanTable.MergePage: requires the page to be 1 or 2, the only values `file_upload_view` passes. For any other value the source raises `AttributeError` on `None`.
