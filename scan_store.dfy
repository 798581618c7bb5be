/** The ScanResult table and the merge of a front page with its back page
    (imgProAPP/views.py, get_file_scan_result, merge_page, delete_page_b and
    merge). The table is a map from primary key to record; `nextId` is the
    next key the database hands out. */
module ScanStore {
  import opened Wrappers
  import opened Text
  import opened FileNames
  import opened Models
  import opened Composite

  /** The record was stored under this temporary file name. */
  predicate Named(r: ScanRecord, name: string) {
    r.tmpFileName == Some(name)
  }

  /** A stored record's temporary file and file name are set together and
      cleared together. */
  predicate TmpConsistent(r: ScanRecord) {
    r.tmpFileName.Some? == r.tmpFile.Some?
  }

  /** The smallest key in `from .. bound` of a record named `name`: what
      `filter(tmp_file_name=name).first()` returns, the table being ordered by
      key. */
  function FirstNamed(rows: map<nat, ScanRecord>, name: string, from: nat, bound: nat): (r: Option<nat>)
    ensures r.Some? ==> from <= r.value < bound && r.value in rows && Named(rows[r.value], name)
    ensures r.Some? ==> forall k :: from <= k < r.value && k in rows ==> !Named(rows[k], name)
    ensures r.None? ==> forall k :: from <= k < bound && k in rows ==> !Named(rows[k], name)
    decreases bound - from
  {
    if from >= bound then None
    else if from in rows && Named(rows[from], name) then Some(from)
    else FirstNamed(rows, name, from + 1, bound)
  }

  /** The record merge() leaves behind: `a` takes its own temporary file as
      side A and `b`'s as side B, loses its temporary file and becomes 'AB'. */
  function Merged(a: ScanRecord, b: ScanRecord): ScanRecord {
    a.(fileAName := a.tmpFileName, fileALocalPath := a.tmpFile,
       fileBName := b.tmpFileName, fileBLocalPath := b.tmpFile,
       tmpFileName := None, tmpFile := None, pageId := AB)
  }

  /** Both sides present, no temporary file, marked 'AB'. */
  predicate Complete(r: ScanRecord) {
    && r.pageId == AB
    && r.fileAName.Some? && r.fileALocalPath.Some?
    && r.fileBName.Some? && r.fileBLocalPath.Some?
    && r.tmpFileName.None? && r.tmpFile.None?
  }

  /** The table after merge(): `bId` deleted, `aId` replaced by the merge. */
  function AfterMerge(rows: map<nat, ScanRecord>, aId: nat, bId: nat): map<nat, ScanRecord>
    requires aId in rows && bId in rows
  {
    (rows - {bId})[aId := Merged(rows[aId], rows[bId])]
  }

  /** The table after delete_page_b(name): the first record still named
      `name`, if any, is deleted. */
  function DropFirstNamed(rows: map<nat, ScanRecord>, name: string, bound: nat): map<nat, ScanRecord> {
    match FirstNamed(rows, name, 0, bound)
    case None => rows
    case Some(k) => rows - {k}
  }

  /** delete_page_b removes at most one row, and only one named `name`. */
  lemma DropFirstNamedKeeps(rows: map<nat, ScanRecord>, name: string, bound: nat)
    ensures var after := DropFirstNamed(rows, name, bound);
            && (forall id :: id in after ==> id in rows && after[id] == rows[id])
            && (forall id :: id in rows && !Named(rows[id], name) ==> id in after)
  {
  }

  /** What merge_page decides before touching the table: `Raised` when the
      name's number cannot be read, `Ok(None)` when no sibling record exists,
      otherwise the key that survives and the key that is deleted. The page
      that carried a QR code (page 1) survives, whichever number it has. */
  function MergePair(rows: map<nat, ScanRecord>, bound: nat, name: string, page: int, oneId: nat)
    : Outcome<Option<(nat, nat)>>
  {
    match SiblingName(name)
    case None => Raised
    case Some(sibling) =>
      match FirstNamed(rows, sibling, 0, bound)
      case None => Ok(None)
      case Some(k) => Ok(Some(if page == 1 then (oneId, k) else (k, oneId)))
  }

  /** The survivor of a merge is complete and keeps everything else of its
      own record (template, exam, status, scanner, rotation). */
  lemma MergedIsComplete(a: ScanRecord, b: ScanRecord)
    requires a.tmpFileName.Some? && TmpConsistent(a)
    requires b.tmpFileName.Some? && TmpConsistent(b)
    ensures Complete(Merged(a, b)) && TmpConsistent(Merged(a, b))
    ensures Merged(a, b).fileAName == a.tmpFileName && Merged(a, b).fileBName == b.tmpFileName
    ensures Merged(a, b).templateId == a.templateId && Merged(a, b).examId == a.examId
    ensures Merged(a, b).status == a.status && Merged(a, b).scannerId == a.scannerId
    ensures Merged(a, b).reverted == a.reverted
  {
  }

  /** After merge and delete_page_b, the pair is one complete record under
      the survivor's key, the other key is gone, no record is left that a
      later page could pair with under the survivor's old name, and every
      other record is untouched unless it was the first remaining duplicate
      of the deleted page's name. */
  lemma MergeLeavesOneRecord(rows: map<nat, ScanRecord>, aId: nat, bId: nat, bound: nat)
    requires aId != bId && aId in rows && bId in rows
    requires rows[aId].tmpFileName.Some? && TmpConsistent(rows[aId])
    requires rows[bId].tmpFileName.Some? && TmpConsistent(rows[bId])
    ensures var after := DropFirstNamed(AfterMerge(rows, aId, bId), rows[bId].tmpFileName.value, bound);
            && aId in after && Complete(after[aId]) && bId !in after
            && (forall id :: id in after && id != aId ==> id in rows && after[id] == rows[id])
            && (forall id :: id in rows && id != aId && id != bId && id !in after ==>
                  Named(rows[id], rows[bId].tmpFileName.value))
  {
    MergedIsComplete(rows[aId], rows[bId]);
  }

  /** Order does not matter: when a front page and its back page are both
      stored, the front arriving with its code (page 1) and the back arriving
      without one (page 2) choose the same survivor and the same victim. */
  lemma MergeOrderIndependent(rows: map<nat, ScanRecord>, bound: nat, front: string, frontId: nat, backId: nat)
    requires var seg := Last(front, '_');
             |seg| >= 1 && AllDigits(seg) && Value(seg) % 2 == 1 && Value(seg) + 1 < Pow10(|seg|)
    requires SiblingName(front).Some?
    requires FirstNamed(rows, SiblingName(front).value, 0, bound) == Some(backId)
    requires FirstNamed(rows, front, 0, bound) == Some(frontId)
    ensures MergePair(rows, bound, front, 1, frontId) == Ok(Some((frontId, backId)))
    ensures MergePair(rows, bound, SiblingName(front).value, 2, backId) == Ok(Some((frontId, backId)))
  {
    SiblingSymmetric(front);
  }

  /** merge_page as a function of the table: what it reports and the table
      it leaves. The pair is merged into the page-1 record; when the
      composite cannot be made the merge is already saved; otherwise the
      first record still named like side B is deleted as well. */
  function PageMerge(rows: map<nat, ScanRecord>, bound: nat, page: int, oneId: nat, one: ScanRecord, media: Media)
    : (merge: (MergeOutcome, map<nat, ScanRecord>))
    requires forall id :: id in rows ==> TmpConsistent(rows[id])
    requires oneId in rows && rows[oneId] == one && one.tmpFileName.Some?
    ensures merge.0.Deferred? ==> merge.1 == rows
    ensures merge.0.MergedInto? ==>
              && Complete(merge.0.record) && merge.0.record.pageFileLocalPath.Some?
              && merge.0.id in merge.1 && Complete(merge.1[merge.0.id])
              && (oneId == merge.0.id || oneId !in merge.1)
    ensures forall id :: id in merge.1 ==> id in rows && TmpConsistent(merge.1[id])
  {
    match MergePair(rows, bound, one.tmpFileName.value, page, oneId)
    case Raised => (MergeRaised, rows)
    case Ok(None) => (Deferred, rows)
    case Ok(Some((aId, bId))) =>
      SiblingIsAnotherName(one.tmpFileName.value);
      MergedIsComplete(rows[aId], rows[bId]);
      var merged := AfterMerge(rows, aId, bId);
      var s := merged[aId];
      match ConcatePage(s.fileALocalPath.value, s.fileBLocalPath.value, media)
      case Raised => (MergeRaised, merged)
      case Ok(composite) =>
        var path := composite.0;
        DropFirstNamedKeeps(merged, s.fileBName.value, bound);
        (MergedInto(aId, s.(pageFileLocalPath := Some(path), pageName := Some(Last(path, '/'))), composite.1),
         DropFirstNamed(merged, s.fileBName.value, bound))
  }

  class ScanTable {
    var rows: map<nat, ScanRecord>
    var nextId: nat

    ghost predicate Valid()
      reads this
    {
      forall id :: id in rows ==> id < nextId && TmpConsistent(rows[id])
    }

    constructor ()
      ensures Valid() && rows == map[] && nextId == 0
    {
      rows := map[];
      nextId := 0;
    }

    /** `ScanResult.objects.filter(tmp_file_name=name).first()`. */
    function Find(name: string): Option<nat>
      reads this
    {
      FirstNamed(rows, name, 0, nextId)
    }

    /** `save()` of a new record: it gets the next key. */
    method Insert(r: ScanRecord) returns (id: nat)
      requires Valid() && TmpConsistent(r)
      modifies this
      ensures Valid()
      ensures id == old(nextId) && id !in old(rows)
      ensures rows == old(rows)[id := r] && nextId == old(nextId) + 1
    {
      id := nextId;
      rows := rows[id := r];
      nextId := nextId + 1;
    }

    /** `save()` of a record that has a key: the row under that key becomes
      `r` (re-inserted if it had been deleted, as Django does). */
    method Save(id: nat, r: ScanRecord)
      requires Valid() && id < nextId && TmpConsistent(r)
      modifies this
      ensures Valid()
      ensures rows == old(rows)[id := r] && nextId == old(nextId)
    {
      rows := rows[id := r];
    }

    /** `delete()`. */
    method Delete(id: nat)
      requires Valid()
      modifies this
      ensures Valid()
      ensures rows == old(rows) - {id} && nextId == old(nextId)
    {
      rows := rows - {id};
    }

    /** get_file_scan_result: the first record stored under the sibling name.
      It is never the record stored under `name` itself; `Raised` is the
      ValueError of a name whose last segment is not a number. */
    method GetFileScanResult(name: string) returns (found: Outcome<Option<nat>>)
      ensures found.Raised? <==> SiblingName(name).None?
      ensures found.Ok? && found.value.Some? ==>
                var k := found.value.value;
                && k in rows && rows[k].tmpFileName == SiblingName(name)
                && !Named(rows[k], name)
                && forall j :: 0 <= j < k && j in rows ==> rows[j].tmpFileName != SiblingName(name)
      ensures found.Ok? && found.value.None? ==>
                forall j :: 0 <= j < nextId && j in rows ==> rows[j].tmpFileName != SiblingName(name)
      ensures found.Ok? ==> found.value == Find(SiblingName(name).value)
    {
      var sibling := SiblingName(name);
      if sibling.None? {
        found := Raised;
      } else {
        SiblingIsAnotherName(name);
        found := Ok(Find(sibling.value));
      }
    }

    /** delete_page_b: deletes the first record still named `fileBName`. */
    method DeletePageB(fileBName: string)
      requires Valid()
      modifies this
      ensures Valid()
      ensures rows == DropFirstNamed(old(rows), fileBName, old(nextId)) && nextId == old(nextId)
    {
      var fileScan := Find(fileBName);
      if fileScan.Some? {
        Delete(fileScan.value);
      }
    }

    /** merge(a, b): fills both sides of `a`, deletes `b`, clears `a`'s
      temporary file, marks it 'AB' and saves it. */
    method Merge(aId: nat, a: ScanRecord, bId: nat, b: ScanRecord) returns (survivor: ScanRecord)
      requires Valid() && aId != bId && aId < nextId
      requires a.tmpFileName.Some? && TmpConsistent(a)
      requires b.tmpFileName.Some? && TmpConsistent(b)
      modifies this
      ensures Valid()
      ensures survivor == Merged(a, b) && Complete(survivor)
      ensures rows == (old(rows) - {bId})[aId := survivor] && nextId == old(nextId)
    {
      survivor := a;
      survivor := survivor.(fileAName := survivor.tmpFileName);
      survivor := survivor.(fileALocalPath := survivor.tmpFile);
      survivor := survivor.(fileBName := b.tmpFileName);
      survivor := survivor.(fileBLocalPath := b.tmpFile);
      Delete(bId);
      survivor := survivor.(tmpFileName := None);
      survivor := survivor.(tmpFile := None);
      survivor := survivor.(pageId := AB);
      Save(aId, survivor);
    }

    /** merge_page: finds the sibling record, merges the pair into the page-1
      record, composes the two images, records the composite's path and name
      on the returned record, and runs delete_page_b on side B's name. The
      composite path and name are set after the last save(), so they reach
      the returned record but not the table; delete_page_b runs after side B
      is already gone, so it deletes a second record only when another one is
      stored under the same name. */
    method MergePage(page: int, oneId: nat, one: ScanRecord, media: Media)
      returns (out: MergeOutcome)
      requires Valid() && (page == 1 || page == 2)
      requires oneId in rows && rows[oneId] == one && one.tmpFileName.Some?
      modifies this
      ensures Valid() && nextId == old(nextId)
      ensures (out, rows) == PageMerge(old(rows), old(nextId), page, oneId, one, media)
      ensures out.MergedInto? ==>
                && Complete(out.record) && out.record.pageFileLocalPath.Some?
                && out.id in rows && rows[out.id].pageId == AB
      ensures var plan := MergePair(old(rows), old(nextId), one.tmpFileName.value, page, oneId);
              plan.Raised? ==> out == MergeRaised && rows == old(rows)
      ensures var plan := MergePair(old(rows), old(nextId), one.tmpFileName.value, page, oneId);
              plan == Ok(None) ==> out == Deferred && rows == old(rows)
      ensures var plan := MergePair(old(rows), old(nextId), one.tmpFileName.value, page, oneId);
              plan.Ok? && plan.value.Some? ==>
                var aId := plan.value.value.0;
                var bId := plan.value.value.1;
                && aId != bId && aId in old(rows) && bId in old(rows)
                && var merged := AfterMerge(old(rows), aId, bId);
                   var s := merged[aId];
                   match ConcatePage(s.fileALocalPath.value, s.fileBLocalPath.value, media)
                   case Raised => out == MergeRaised && rows == merged
                   case Ok(composite) =>
                     && out == MergedInto(aId, s.(pageFileLocalPath := Some(composite.0),
                                                  pageName := Some(Last(composite.0, '/'))), composite.1)
                     && rows == DropFirstNamed(merged, s.fileBName.value, old(nextId))
    {
      var another := GetFileScanResult(one.tmpFileName.value);
      if another.Raised? {
        return MergeRaised;
      }
      if another.value.None? {
        return Deferred;
      }
      var k := another.value.value;
      var other := rows[k];
      var aId := oneId;
      var survivor;
      if page == 1 {
        survivor := Merge(oneId, one, k, other);
      } else {
        aId := k;
        survivor := Merge(k, other, oneId, one);
      }
      var composite := ConcatePage(survivor.fileALocalPath.value, survivor.fileBLocalPath.value, media);
      if composite.Raised? {
        return MergeRaised;
      }
      var pagePath := composite.value.0;
      survivor := survivor.(pageFileLocalPath := Some(pagePath));
      survivor := survivor.(pageName := Some(Last(pagePath, '/')));
      DeletePageB(survivor.fileBName.value);
      out := MergedInto(aId, survivor, composite.value.1);
    }
  }

  /** What merge_page reports: no sibling yet, the merged record (with the
      composite's path and name) and the composite's dimensions, or an
      exception. */
  datatype MergeOutcome = Deferred | MergedInto(id: nat, record: ScanRecord, composite: Dims) | MergeRaised
}
