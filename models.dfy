/** The records of imgProAPP/models.py that the pipeline reads and writes,
    and the small helpers defined beside them. */
module Models {
  import opened Wrappers
  import opened Text
  import opened JsonValue

  // ---------------------------------------------------------------------------
  // ScanResult
  // ---------------------------------------------------------------------------

  /** ScanResult.STATUS_CHOICES: recognising, uploading images, syncing to the
      main server, synced. */
  datatype Status = Recognizing | Uploading | Syncing | Synced {
    /** The integer stored in the `status` column. */
    function Code(): (c: int)
      ensures 0 <= c <= 3
    {
      match this
      case Recognizing => 0
      case Uploading => 1
      case Syncing => 2
      case Synced => 3
    }
  }

  /** The choice an integer column value denotes, if any. */
  function StatusOfCode(c: int): (s: Option<Status>)
    ensures s.Some? <==> 0 <= c <= 3
    ensures s.Some? ==> s.value.Code() == c
  {
    if c == 0 then Some(Recognizing)
    else if c == 1 then Some(Uploading)
    else if c == 2 then Some(Syncing)
    else if c == 3 then Some(Synced)
    else None
  }

  /** The four choices are exactly the codes 0..3, one each. */
  lemma StatusCodesAreChoices(s: Status)
    ensures StatusOfCode(s.Code()) == Some(s)
  {
  }

  /** `page_id`: unset, the page number the pipeline assigned (1 or 2), or
      'AB' once both sides are merged. */
  datatype PageId = NoPage | Page(n: int) | AB

  /** The sidecar JSON a scanner uploads with every image. `qrCodeScanned`
      is the value under `qr_code_scanned` (`None`: the key is missing), read
      by its truthiness; `qrCode` is what is under `qr_code`. */
  datatype ScannerJson = ScannerJson(qrCodeScanned: Option<Json>, qrCode: CodeField)

  /** The `qr_code` entry of the sidecar: missing, null, or a string. */
  datatype CodeField = NoCodeKey | NullCode | CodeText(text: string)

  /** The ScanResult columns the pipeline uses. `tmpFile` is the stored path
      of the uploaded image (`tmp_file.path`). */
  datatype ScanRecord = ScanRecord(
    scannerId: string,
    status: Status,
    templateId: Option<string>,
    examId: Option<string>,
    pageId: PageId,
    pageName: Option<string>,
    pageFileLocalPath: Option<string>,
    reverted: bool,
    tmpFile: Option<string>,
    tmpFileName: Option<string>,
    fileAName: Option<string>,
    fileALocalPath: Option<string>,
    fileBName: Option<string>,
    fileBLocalPath: Option<string>,
    scannerJson: Option<ScannerJson>)

  /** `ScanResult()` with its column defaults, attached to a scanner. */
  function NewScanResult(scannerId: string): (r: ScanRecord)
    ensures r.status == Recognizing && r.status.Code() == 0 && !r.reverted
    ensures r.templateId.None? && r.examId.None? && r.pageId == NoPage
    ensures r.tmpFile.None? && r.tmpFileName.None?
  {
    ScanRecord(scannerId, Recognizing, None, None, NoPage, None, None, false,
               None, None, None, None, None, None, None)
  }

  // ---------------------------------------------------------------------------
  // Upload paths
  // ---------------------------------------------------------------------------

  /** `os.path.join(a, b)` on POSIX: an absolute `b` replaces `a`, otherwise a
      '/' is inserted unless `a` is empty or already ends in one. */
  function PathJoin(a: string, b: string): string {
    if |b| > 0 && b[0] == '/' then b
    else if |a| == 0 || a[|a| - 1] == '/' then a + b
    else a + "/" + b
  }

  /** upload_to: `os.path.join("img", filename.split(".")[0],
      filename.split("_")[-1])`. */
  function UploadTo(fileName: string): string {
    PathJoin(PathJoin("img", First(fileName, '.')), Last(fileName, '_'))
  }

  /** Where the storage puts an upload under the media root. */
  function StoredPath(mediaRoot: string, fileName: string): string {
    PathJoin(mediaRoot, UploadTo(fileName))
  }

  /** For a plain file name (no directory part, a non-empty stem) upload_to is
      "img/<stem>/<last '_'-segment>": the stem is the name up to its first
      '.', the segment keeps the extension. */
  lemma UploadToComponents(fileName: string)
    requires '/' !in fileName && First(fileName, '.') != ""
    ensures UploadTo(fileName) == "img/" + First(fileName, '.') + "/" + Last(fileName, '_')
    ensures '/' !in First(fileName, '.') && '/' !in Last(fileName, '_')
  {
    var stem := First(fileName, '.');
    var seg := Last(fileName, '_');
    FirstIsStem(fileName, '.');
    LastIsSuffix(fileName, '_');
    forall k | 0 <= k < |stem| ensures stem[k] != '/' {
      assert stem[k] == fileName[k];
    }
    var j := LastIndexOf(fileName, '_');
    forall k | 0 <= k < |seg| ensures seg[k] != '/' {
      assert seg[k] == fileName[j + 1 + k];
    }
    assert PathJoin("img", stem) == "img/" + stem;
  }

  /** The stored image's file name is the upload's last '_'-segment. */
  lemma StoredBaseName(mediaRoot: string, fileName: string)
    requires '/' !in fileName && First(fileName, '.') != ""
    ensures Last(StoredPath(mediaRoot, fileName), '/') == Last(fileName, '_')
  {
    StoredPathShape(mediaRoot, fileName);
    UploadToComponents(fileName);
    LastAfterSeparator(PathJoin(mediaRoot, "img/" + First(fileName, '.')), Last(fileName, '_'), '/');
  }

  lemma StoredPathShape(mediaRoot: string, fileName: string)
    requires '/' !in fileName && First(fileName, '.') != ""
    ensures StoredPath(mediaRoot, fileName)
            == PathJoin(mediaRoot, "img/" + First(fileName, '.')) + "/" + Last(fileName, '_')
  {
    UploadToComponents(fileName);
    JoinRelative(mediaRoot, "img/" + First(fileName, '.'), Last(fileName, '_'));
  }

  /** Joining onto a relative path that has a directory part. */
  lemma JoinRelative(a: string, d: string, b: string)
    requires |d| > 0 && d[0] != '/'
    ensures PathJoin(a, d + "/" + b) == PathJoin(a, d) + "/" + b
  {
    var t := d + "/" + b;
    assert t[0] == d[0];
    if |a| == 0 || a[|a| - 1] == '/' {
      assert a + t == (a + d) + "/" + b;
    } else {
      assert a + "/" + t == (a + "/" + d) + "/" + b;
    }
  }

  // ---------------------------------------------------------------------------
  // Scanner
  // ---------------------------------------------------------------------------

  /** A scanner device; `lastActive` is the time of its last upload, in
      seconds. */
  datatype Scanner = Scanner(
    scannerId: string,
    scannerName: Option<string>,
    lastActive: Option<int>,
    schoolId: Option<string>)

  datatype ScannerState = Idle | Scanning

  /** Scanner.scanner_status: idle when it never uploaded or when more than
      `activeOffset` seconds have passed since it last did. */
  function ScannerStatus(s: Scanner, now: int, activeOffset: int): (st: ScannerState)
    ensures s.lastActive.None? ==> st == Idle
    ensures st == Scanning <==> s.lastActive.Some? && now - s.lastActive.value <= activeOffset
  {
    if s.lastActive.None? then Idle
    else if now - s.lastActive.value > activeOffset then Idle
    else Scanning
  }

  /** Once idle, a scanner stays idle until it uploads again. */
  lemma IdleStaysIdle(s: Scanner, t1: int, t2: int, activeOffset: int)
    requires t1 <= t2 && ScannerStatus(s, t1, activeOffset) == Idle
    ensures ScannerStatus(s, t2, activeOffset) == Idle
  {
  }

  /** Scanner.__str__: the name when it is non-empty, else the id. */
  function ScannerLabel(s: Scanner): (shown: string)
    ensures s.scannerName.Some? && s.scannerName.value != "" ==> shown == s.scannerName.value
    ensures s.scannerName.None? || s.scannerName.value == "" ==> shown == s.scannerId
  {
    if s.scannerName.Some? && s.scannerName.value != "" then s.scannerName.value else s.scannerId
  }

  // ---------------------------------------------------------------------------
  // ScanTemplate
  // ---------------------------------------------------------------------------

  /** A cached recognition template: `templateJson` is `Null` while pending. */
  datatype ScanTemplate = ScanTemplate(templateId: string, templateJson: Json, templatePages: int)

  /** The column default of `template_pages`. */
  const DefaultTemplatePages: int := 2

  /** The `template_json` keyword argument of ScanTemplate.create: not
      passed at all, passed empty or null, passed a text `json.loads`
      rejects, or passed a text that parses to `json`. */
  datatype TemplateText = NoTemplateKey | Blank | Unparsable | Parsed(json: Json)

  /** ScanTemplate.create. A missing keyword (KeyError) and an unparsable
      text (JSONDecodeError) raise; so do `t_json['pages']` and `len` on a
      document without a sized `pages` entry (KeyError, TypeError). */
  function CreateTemplate(templateId: string, text: TemplateText): (r: Outcome<ScanTemplate>)
    ensures text.NoTemplateKey? || text.Unparsable? ==> r.Raised?
    ensures text.Blank? ==> r == Ok(ScanTemplate(templateId, Null, DefaultTemplatePages))
    ensures text.Parsed? ==>
              (r.Ok? <==> Get(text.json, "pages").Some? && Len(Get(text.json, "pages").value).Some?)
    ensures r.Ok? && text.Parsed? ==>
              r.value.templatePages == Len(Get(text.json, "pages").value).value
    ensures r.Ok? ==> r.value.templateId == templateId
  {
    match text
    case NoTemplateKey => Raised
    case Unparsable => Raised
    case Blank => Ok(ScanTemplate(templateId, Null, DefaultTemplatePages))
    case Parsed(j) =>
      match Get(j, "pages")
      case None => Raised
      case Some(pages) =>
        match Len(pages)
        case None => Raised
        case Some(n) => Ok(ScanTemplate(templateId, j, n))
  }
}
