/** file_upload_view (imgProAPP/views.py:81-155): an upload from a scanner is
    stored, assigned to a side of its sheet, given a template, and merged
    with the other side once both have arrived. Image preprocessing, QR
    decoding, the clock, the server's replies and the image files OpenCV
    can read and write are inputs. */
module Upload {
  import opened Wrappers
  import opened Text
  import opened FileNames
  import opened JsonValue
  import opened Models
  import opened Composite
  import opened ScanStore
  import opened TemplateCache

  /** The code a page carries, as the view finds it. The sidecar's
      `qr_code_scanned` is read first, on every page, and raises when it is
      missing. The code is sought only on an odd page number from
      preprocessing: then the scanner's own reading when the flag is truthy
      (raising when `qr_code` is missing), else the first symbol decoded from
      the image. */
  function SoughtCode(page: int, sidecar: ScannerJson, decoded: seq<string>): (code: Outcome<Option<string>>)
    ensures code.Raised? <==>
              || sidecar.qrCodeScanned.None?
              || (page % 2 == 1 && Truthy(sidecar.qrCodeScanned.value) && sidecar.qrCode.NoCodeKey?)
  {
    match sidecar.qrCodeScanned
    case None => Raised
    case Some(flag) =>
      if page % 2 != 1 then Ok(None)
      else if Truthy(flag) then
        match sidecar.qrCode
        case NoCodeKey => Raised
        case NullCode => Ok(None)
        case CodeText(text) => Ok(Some(text))
      else if |decoded| > 0 then Ok(Some(decoded[0]))
      else Ok(None)
  }

  /** `if qr_code:`: a code that is present and not empty. */
  predicate HasCode(code: Option<string>) {
    code.Some? && code.value != ""
  }

  /** A page numbered even by preprocessing never has its code read, so it
      is always taken as a back page, whatever the scanner reported. */
  lemma EvenPageHasNoCode(page: int, sidecar: ScannerJson, decoded: seq<string>)
    requires page % 2 == 0 && sidecar.qrCodeScanned.Some?
    ensures SoughtCode(page, sidecar, decoded) == Ok(None)
  {
  }

  /** On an odd page the code comes from the scanner when its flag is
      truthy, and otherwise from the image; no code is made up. */
  lemma CodeSource(page: int, sidecar: ScannerJson, decoded: seq<string>)
    requires page % 2 == 1 && sidecar.qrCodeScanned.Some?
    ensures var scanned := Truthy(sidecar.qrCodeScanned.value);
            var code := SoughtCode(page, sidecar, decoded);
            && (scanned && sidecar.qrCode.CodeText? ==> code == Ok(Some(sidecar.qrCode.text)))
            && (scanned && sidecar.qrCode.NullCode? ==> code == Ok(None))
            && (!scanned ==> code.Ok? && (code.value.Some? <==> |decoded| > 0))
            && (!scanned && |decoded| > 0 ==> code == Ok(Some(decoded[0])))
  {
  }

  /** The front side of a sheet: page 1, the code as template id, the code
      as exam id too when it mentions "exam", and side A from the temporary
      file. */
  function AsFront(r: ScanRecord, code: string, reverted: bool): (f: ScanRecord)
    ensures f.templateId == Some(code) && f.pageId == Page(1) && f.reverted == reverted
    ensures HasInfix(code, "exam") ==> f.examId == Some(code)
    ensures !HasInfix(code, "exam") ==> f.examId == r.examId
    ensures f.fileAName == r.tmpFileName && f.fileALocalPath == r.tmpFile
    ensures f.tmpFileName == r.tmpFileName && f.tmpFile == r.tmpFile
  {
    var withIds := r.(templateId := Some(code));
    var withExam := if HasInfix(code, "exam") then withIds.(examId := Some(code)) else withIds;
    withExam.(fileAName := r.tmpFileName, fileALocalPath := r.tmpFile, reverted := reverted, pageId := Page(1))
  }

  /** The back side of a sheet: page 2 and the template id of the record
      found under the sibling name, if any. */
  function AsBack(r: ScanRecord, sibling: Option<ScanRecord>, reverted: bool): (b: ScanRecord)
    ensures b.pageId == Page(2) && b.reverted == reverted
    ensures sibling.Some? ==> b.templateId == sibling.value.templateId
    ensures sibling.None? ==> b.templateId.None?
    ensures b.examId == r.examId && b.fileAName == r.fileAName
    ensures b.tmpFileName == r.tmpFileName && b.tmpFile == r.tmpFile
  {
    r.(templateId := if sibling.Some? then sibling.value.templateId else None,
       reverted := reverted, pageId := Page(2))
  }

  /** A fresh upload's exam id is set exactly when its code mentions
      "exam", and then equals the template id. */
  lemma ExamIdOnlyForExams(r: ScanRecord, code: string, reverted: bool)
    requires r.examId.None?
    ensures AsFront(r, code, reverted).examId.Some? <==> HasInfix(code, "exam")
    ensures AsFront(r, code, reverted).examId.Some? ==>
              AsFront(r, code, reverted).examId == AsFront(r, code, reverted).templateId
  {
  }

  /** The other side of a sheet inherits the template its pair was given. */
  lemma BackInheritsTemplate(front: ScanRecord, code: string, reverted: bool, back: ScanRecord, reverted2: bool)
    ensures AsBack(back, Some(AsFront(front, code, reverted)), reverted2).templateId == Some(code)
  {
  }

  /** The side assignment of file_upload_view for the stored upload `r`
      (views.py:122-140), as a function of the table it reads: a page with a
      code is the front (page 1) and takes the code as its template id;
      otherwise it is the back (page 2) and inherits the template id of the
      first record stored under its sibling's name, which raises when its
      own name has no number. Returns the record and the page number. */
  function Resolve(rows: map<nat, ScanRecord>, bound: nat, r: ScanRecord, code: Option<string>, reverted: bool)
    : (resolved: Outcome<(ScanRecord, int)>)
    requires r.tmpFileName.Some?
    ensures resolved.Raised? <==> !HasCode(code) && SiblingName(r.tmpFileName.value).None?
    ensures resolved.Ok? ==>
              var (f, side) := resolved.value;
              && side == (if HasCode(code) then 1 else 2) && f.pageId == Page(side)
              && f.tmpFileName == r.tmpFileName && f.tmpFile == r.tmpFile && f.reverted == reverted
    ensures resolved.Ok? && HasCode(code) ==> resolved.value.0.templateId == code
    ensures resolved.Ok? && !HasCode(code) ==>
              var found := FirstNamed(rows, SiblingName(r.tmpFileName.value).value, 0, bound);
              resolved.value.0.templateId == (if found.Some? then rows[found.value].templateId else None)
  {
    if HasCode(code) then Ok((AsFront(r, code.value, reverted), 1))
    else match SiblingName(r.tmpFileName.value)
      case None => Raised
      case Some(sibling) =>
        var found := FirstNamed(rows, sibling, 0, bound);
        Ok((AsBack(r, if found.Some? then Some(rows[found.value]) else None, reverted), 2))
  }

  /** ResolveSide on the table: the record and page number of `Resolve`. */
  method ResolveSide(scans: ScanTable, r: ScanRecord, code: Option<string>, reverted: bool)
    returns (resolved: Outcome<(ScanRecord, int)>)
    requires r.tmpFileName.Some?
    ensures resolved == Resolve(scans.rows, scans.nextId, r, code, reverted)
    ensures HasCode(code) ==> resolved == Ok((AsFront(r, code.value, reverted), 1))
    ensures !HasCode(code) && SiblingName(r.tmpFileName.value).None? ==> resolved.Raised?
    ensures !HasCode(code) && SiblingName(r.tmpFileName.value).Some? ==>
              var found := scans.Find(SiblingName(r.tmpFileName.value).value);
              && (found.Some? ==> found.value in scans.rows)
              && resolved == Ok((AsBack(r, if found.Some? then Some(scans.rows[found.value]) else None, reverted), 2))
  {
    if HasCode(code) {
      return Ok((AsFront(r, code.value, reverted), 1));
    }
    var fileScanResult := scans.GetFileScanResult(r.tmpFileName.value);
    if fileScanResult.Raised? {
      return Raised;
    }
    var sibling := if fileScanResult.value.Some? then Some(scans.rows[fileScanResult.value.value]) else None;
    resolved := Ok((AsBack(r, sibling, reverted), 2));
  }

  /** The Scanner table, keyed by the unique `scanner_id`, and the schools'
      names by `school_id`. */
  class ScannerTable {
    var scanners: map<string, Scanner>
    var schools: map<string, string>

    constructor (schools: map<string, string>)
      ensures this.scanners == map[] && this.schools == schools
    {
      this.scanners := map[];
      this.schools := schools;
    }

    /** Marks the scanner active at `now`, creating it first, attached to the
      school and named after it, when it is not known. An unknown school
      raises (`None.school_name`). */
    method MarkActive(scannerId: string, schoolId: string, now: int) returns (scanner: Outcome<Scanner>)
      modifies this
      ensures schools == old(schools)
      ensures scannerId in old(scanners) ==>
                scanner == Ok(old(scanners)[scannerId].(lastActive := Some(now)))
      ensures scannerId !in old(scanners) && schoolId !in schools ==>
                scanner.Raised? && scanners == old(scanners)
      ensures scannerId !in old(scanners) && schoolId in schools ==>
                scanner == Ok(Scanner(scannerId, Some(schools[schoolId] + "扫描仪"), Some(now), Some(schoolId)))
      ensures scanner.Ok? ==> scanners == old(scanners)[scannerId := scanner.value]
      ensures scanner.Ok? ==> forall offset :: offset >= 0 ==> ScannerStatus(scanner.value, now, offset) == Scanning
    {
      var s;
      if scannerId in scanners {
        s := scanners[scannerId];
      } else {
        if schoolId !in schools {
          return Raised;
        }
        s := Scanner(scannerId, Some(schools[schoolId] + "扫描仪"), None, Some(schoolId));
        scanners := scanners[scannerId := s];
      }
      s := s.(lastActive := Some(now));
      scanners := scanners[scannerId := s];
      scanner := Ok(s);
    }
  }

  /** Why the view answered 200 with an 'Info' message and stopped. */
  datatype InfoReason =
    | NoTemplate  // no template json for this page (none resolved, or still pending)
    | NoPair      // the other side has not arrived yet

  /** The view's response. `Success` carries what is handed to the scorer:
      the merged record and the template; `ServerError` is an exception. */
  datatype Response =
    | BadRequest
    | Info(reason: InfoReason)
    | Success(id: nat, record: ScanRecord, composite: Dims, template: Json)
    | ServerError

  /** The record file_upload_view first saves for an upload: attached to the
      scanner, holding the sidecar JSON, the stored image and the upload's
      name up to its first '.'. */
  function Stored(scannerId: string, sidecar: ScannerJson, mediaRoot: string, uploadName: string): (r: ScanRecord)
    ensures r.tmpFileName == Some(First(uploadName, '.')) && r.tmpFile == Some(StoredPath(mediaRoot, uploadName))
    ensures r.scannerId == scannerId && r.scannerJson == Some(sidecar)
    ensures r.status == Recognizing && r.pageId == NoPage && r.templateId.None? && r.examId.None?
  {
    NewScanResult(scannerId).(scannerJson := Some(sidecar),
                              tmpFile := Some(StoredPath(mediaRoot, uploadName)),
                              tmpFileName := Some(First(uploadName, '.')))
  }

  /** What file_upload_view does once the upload is saved as `record` under
      `id` with page number `side` (views.py:143-151): the response, the
      table and the template cache it leaves. The template is fetched for
      the record's template id; without one (or with the fetch pending) the
      view stops with an 'Info'; otherwise merge_page runs, and its record
      and the template are what is scored. */
  function Dispatched(rows: map<nat, ScanRecord>, bound: nat, entries: map<string, ScanTemplate>,
                      id: nat, record: ScanRecord, side: int,
                      conflict: bool, replies: seq<Json>, media: Media)
    : (d: (Response, map<nat, ScanRecord>, map<string, ScanTemplate>))
    requires forall k :: k in rows ==> TmpConsistent(rows[k])
    requires id in rows && rows[id] == record && record.tmpFileName.Some?
    requires Answers(replies)
    ensures var fill := Fill(entries, record.templateId, conflict, replies);
            && d.2 == fill.entries
            && (fill.result.Raised? ==> d.0 == ServerError && d.1 == rows)
            && (d.0.Success? ==> fill.result == Ok(d.0.template) && Truthy(d.0.template))
            && (fill.result.Ok? && !Truthy(fill.result.value) ==> d.0 == Info(NoTemplate) && d.1 == rows)
    ensures d.0.Info? ==> d.1 == rows
    ensures d.0.Success? ==>
              && Complete(d.0.record) && d.0.record.pageFileLocalPath.Some?
              && d.0.id in d.1 && Complete(d.1[d.0.id])
    ensures !d.0.BadRequest? && forall k :: k in d.1 ==> k in rows && TmpConsistent(d.1[k])
  {
    var fill := Fill(entries, record.templateId, conflict, replies);
    match fill.result
    case Raised => (ServerError, rows, fill.entries)
    case Ok(template) =>
      if !Truthy(template) then (Info(NoTemplate), rows, fill.entries)
      else
        var (merged, after) := PageMerge(rows, bound, side, id, record, media);
        match merged
        case Deferred => (Info(NoPair), after, fill.entries)
        case MergeRaised => (ServerError, after, fill.entries)
        case MergedInto(survivor, r, composite) => (Success(survivor, r, composite, template), after, fill.entries)
  }

  /** The template fetch and the merge of file_upload_view
      (views.py:143-151), on the tables. */
  method FetchAndMerge(scans: ScanTable, templates: TemplateTable, id: nat, record: ScanRecord, side: int,
                       conflict: bool, replies: seq<Json>, media: Media)
    returns (response: Response)
    requires scans.Valid() && id in scans.rows && scans.rows[id] == record && record.tmpFileName.Some?
    requires (side == 1 || side == 2) && Answers(replies)
    modifies scans, templates
    ensures scans.Valid() && scans.nextId == old(scans.nextId)
    ensures (response, scans.rows, templates.entries) ==
              Dispatched(old(scans.rows), old(scans.nextId), old(templates.entries),
                         id, record, side, conflict, replies, media)
  {
    var templateJson, _ := templates.GetTemplateJson(record.templateId, conflict, replies);
    if templateJson.Raised? {
      return ServerError;
    }
    if !Truthy(templateJson.value) {
      return Info(NoTemplate);
    }
    var merged := scans.MergePage(side, id, record, media);
    match merged
    case Deferred =>
      return Info(NoPair);
    case MergeRaised =>
      return ServerError;
    case MergedInto(survivor, r, composite) =>
      response := Success(survivor, r, composite, templateJson.value);
  }

  /** The record an upload inserted under `id` is saved as, with its page
      number (views.py:110-141), or the exception raised on the way: seeking
      the code, or resolving the side against the table holding the upload. */
  function Placement(rows: map<nat, ScanRecord>, id: nat, stored: ScanRecord,
                     page: int, sidecar: ScannerJson, decoded: seq<string>, reverted: bool)
    : (placed: Outcome<(ScanRecord, int)>)
    requires stored.tmpFileName.Some?
    ensures var code := SoughtCode(page, sidecar, decoded);
            placed.Raised? <==>
              code.Raised? || (!HasCode(code.value) && SiblingName(stored.tmpFileName.value).None?)
    ensures placed.Ok? ==>
              var code := SoughtCode(page, sidecar, decoded).value;
              && placed.value.1 == (if HasCode(code) then 1 else 2)
              && placed.value.0.tmpFileName == stored.tmpFileName && placed.value.0.tmpFile == stored.tmpFile
  {
    match SoughtCode(page, sidecar, decoded)
    case Raised => Raised
    case Ok(code) => Resolve(rows[id := stored], id + 1, stored, code, reverted)
  }

  /** The part of file_upload_view after the scanner is marked active and
      the sidecar parsed (views.py:98-151): `stored` is inserted under the
      next key, its code sought and its side resolved; it is saved again
      with its side, and the template fetch and the merge follow. An
      exception on the way leaves the table as far as it got. */
  method StoreUpload(
    scans: ScanTable, templates: TemplateTable, stored: ScanRecord,
    sidecar: ScannerJson, reverted: bool, page: int, decoded: seq<string>,
    templateConflict: bool, replies: seq<Json>, media: Media)
    returns (response: Response)
    requires scans.Valid() && Answers(replies)
    requires stored.tmpFileName.Some? && stored.tmpFile.Some?
    modifies scans, templates
    ensures scans.Valid()
    ensures var id := old(scans.nextId);
            var placed := old(scans.rows)[id := stored];
            var resolved := Placement(old(scans.rows), id, stored, page, sidecar, decoded, reverted);
            && scans.nextId == id + 1
            && (resolved.Raised? ==>
                  response == ServerError && scans.rows == placed && templates.entries == old(templates.entries))
            && (resolved.Ok? ==>
                  var record := resolved.value.0;
                  (response, scans.rows, templates.entries) ==
                    Dispatched(old(scans.rows)[id := record], id + 1, old(templates.entries),
                               id, record, resolved.value.1, templateConflict, replies, media))
  {
    var id := scans.Insert(stored);
    assert templates.entries == old(templates.entries);
    var code := SoughtCode(page, sidecar, decoded);
    if code.Raised? {
      return ServerError;
    }
    var resolved := ResolveSide(scans, stored, code.value, reverted);
    assert resolved == Placement(old(scans.rows), id, stored, page, sidecar, decoded, reverted);
    if resolved.Raised? {
      return ServerError;
    }
    var record := resolved.value.0;
    scans.Save(id, record);
    assert scans.rows == old(scans.rows)[id := record];
    response := FetchAndMerge(scans, templates, id, record, resolved.value.1, templateConflict, replies, media);
  }

  /** file_upload_view. `sidecar` is the parsed `json` form field (`None`: it
      is missing or unreadable), `uploadName` the uploaded file's name,
      `reverted` and `page` what preprocessing reports, `decoded` the
      symbols read from the image, `templateConflict` and `replies` the
      template fetch's environment, `media` the readable image files and the writable extensions. */
  method FileUploadView(
    scanners: ScannerTable, scans: ScanTable, templates: TemplateTable,
    schoolId: Option<string>, scannerId: Option<string>,
    sidecar: Option<ScannerJson>, uploadName: string,
    now: int, mediaRoot: string, reverted: bool, page: int, decoded: seq<string>,
    templateConflict: bool, replies: seq<Json>, media: Media)
    returns (response: Response)
    requires scans.Valid() && Answers(replies)
    modifies scanners, scans, templates
    ensures scans.Valid() && scanners.schools == old(scanners.schools)
    ensures response.BadRequest? <==> !Present(schoolId) || !Present(scannerId)
    ensures response.BadRequest? ==>
              && scanners.scanners == old(scanners.scanners)
              && scans.rows == old(scans.rows) && scans.nextId == old(scans.nextId)
              && templates.entries == old(templates.entries)
    // the scanner is marked active, created first when unknown
    ensures Present(schoolId) && Present(scannerId) && scannerId.value in old(scanners.scanners) ==>
              scanners.scanners == old(scanners.scanners)[scannerId.value :=
                old(scanners.scanners)[scannerId.value].(lastActive := Some(now))]
    ensures Present(schoolId) && Present(scannerId) && scannerId.value !in old(scanners.scanners) &&
            schoolId.value in old(scanners.schools) ==>
              scanners.scanners == old(scanners.scanners)[scannerId.value :=
                Scanner(scannerId.value, Some(old(scanners.schools)[schoolId.value] + "扫描仪"), Some(now), Some(schoolId.value))]
    // an unknown scanner of an unknown school raises before any scanner is created
    ensures Present(schoolId) && Present(scannerId) && scannerId.value !in old(scanners.scanners) &&
            schoolId.value !in old(scanners.schools) ==>
              scanners.scanners == old(scanners.scanners)
    // an unknown scanner of an unknown school, or no readable sidecar: nothing is stored
    ensures Present(schoolId) && Present(scannerId) &&
            ((scannerId.value !in old(scanners.scanners) && schoolId.value !in old(scanners.schools)) || sidecar.None?) ==>
              && response == ServerError
              && scans.rows == old(scans.rows) && scans.nextId == old(scans.nextId)
              && templates.entries == old(templates.entries)
    // otherwise the upload is stored under the next key and carried as far as it gets
    ensures Present(schoolId) && Present(scannerId) && sidecar.Some? &&
            (scannerId.value in old(scanners.scanners) || schoolId.value in old(scanners.schools)) ==>
              var id := old(scans.nextId);
              var stored := Stored(scannerId.value, sidecar.value, mediaRoot, uploadName);
              var placed := old(scans.rows)[id := stored];
              var resolved := Placement(old(scans.rows), id, stored, page, sidecar.value, decoded, reverted);
              && scans.nextId == id + 1
              && (resolved.Raised? ==>
                    response == ServerError && scans.rows == placed && templates.entries == old(templates.entries))
              && (resolved.Ok? ==>
                    var record := resolved.value.0;
                    (response, scans.rows, templates.entries) ==
                      Dispatched(old(scans.rows)[id := record], id + 1, old(templates.entries),
                                 id, record, resolved.value.1, templateConflict, replies, media))
    ensures response.Info? ==>
              && old(scans.nextId) in scans.rows
              && scans.rows[old(scans.nextId)].tmpFileName == Some(First(uploadName, '.'))
              && scans.rows[old(scans.nextId)].pageId in {Page(1), Page(2)}
    ensures response.Success? ==>
              && Complete(response.record) && response.record.pageFileLocalPath.Some?
              && Truthy(response.template)
              && response.id in scans.rows && scans.rows[response.id].pageId == AB
  {
    if !Present(schoolId) || !Present(scannerId) {
      return BadRequest;
    }
    var scanner := scanners.MarkActive(scannerId.value, schoolId.value, now);
    if scanner.Raised? || sidecar.None? {
      return ServerError;
    }
    assert scans.rows == old(scans.rows) && scans.nextId == old(scans.nextId);
    assert templates.entries == old(templates.entries);
    var scanResult := Stored(scannerId.value, sidecar.value, mediaRoot, uploadName);
    response := StoreUpload(scans, templates, scanResult, sidecar.value, reverted, page, decoded,
                            templateConflict, replies, media);
  }
}
