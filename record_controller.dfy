/**
 * `MaintenanceRecordController`: each handler parses the path id, calls the service and
 * turns its result into one HTTP answer. A thrown error is classified by the phrases its
 * message contains, so the status depends on the exact wording of the service's messages.
 * The caller's id (`req.user.userId`, set by the authentication middleware) is a parameter.
 */
module RecordController {
  import opened Wrappers
  import opened Text
  import opened Dates
  import opened Messages
  import opened Tables
  import opened RecordService
  import opened Phrases
  import opened Http

  // ---------------------------------------------------------------- createRecord

  /** The answer of `createRecord` to the service's result. */
  function CreateRecordReply(r: Result<RecordResponse>): Reply<RecordResponse> {
    match r
    case Ok(rec) => Reply(201, WithMessage(RecordCreated, rec))
    case Err(m) =>
      if Includes(m, Required) || Includes(m, InvalidStem) then Refuse(400, m)
      else if Includes(m, NotFound) || Includes(m, NotOwned) then Refuse(404, m)
      else Internal(InternalCreateRecord, m)
  }

  /** `POST /maintenance-records`: the database afterwards and the answer. */
  function CreateRecordHandler(d: Db, userId: int, req: CreateRecordRequest): Step<Reply<RecordResponse>>
    requires Consistent(d)
  {
    var s := CreateRecordOutcome(d, req, userId);
    Step(s.db, CreateRecordReply(s.out))
  }

  /**
   * Every failure of `createRecord` is 400, 404 or 500. The 400 phrases are checked first, so
   * a message holding one is 400 whatever else it holds; 400 and 404 answers echo the
   * message, and 500 answers carry it as details.
   */
  lemma CreateRecordFailureClasses(m: string)
    ensures var r := CreateRecordReply(Err(m));
      && (r.status == 400 <==> Includes(m, Required) || Includes(m, InvalidStem))
      && (r.status == 404 <==> !Includes(m, Required) && !Includes(m, InvalidStem) && (Includes(m, NotFound) || Includes(m, NotOwned)))
      && (r.status == 400 || r.status == 404 || r.status == 500)
      && (r.status != 500 ==> r.body == Error(m, None))
      && (r.status == 500 ==> r.body == Error(InternalCreateRecord, Some(m)))
  {
  }

  /**
   * An `asset_id` outside `integer` is answered 500 with the database's error as details; a
   * missing or foreign asset is answered 404 with the service's message. Neither writes anything.
   */
  lemma CreateForeignAssetIs404(d: Db, userId: int, req: CreateRecordRequest)
    requires Consistent(d)
    requires forall a | a in d.assets :: !(a.id == req.assetId && a.userId == userId)
    ensures CreateRecordHandler(d, userId, req) == Step(d,
      if IsInt4(req.assetId) then Refuse(404, AssetNotOwned) else Internal(InternalCreateRecord, OutOfRange(req.assetId)))
  {
    CreateChecksOwnershipFirst(d, req, userId);
    AssetNotOwnedPhrases();
    OutOfRangePhrases(req.assetId);
  }

  /**
   * A request without a service date is answered 500, not 400: the service says
   * 'obrigatória', and the controller looks for 'obrigatório'.
   */
  lemma CreateMissingServiceDateIs500(d: Db, userId: int, req: CreateRecordRequest)
    requires Consistent(d) && OwnedAsset(d.assets, req.assetId, userId).Some?
    requires !Truthy(req.serviceDate)
    ensures CreateRecordHandler(d, userId, req) == Step(d, Internal(InternalCreateRecord, ServiceDateRequired))
  {
    ServiceDateRequiredPhrases();
  }

  /** A next date before the service date is answered 500 on create: its message holds no phrase looked for. */
  lemma CreateNextBeforeServiceIs500(d: Db, userId: int, req: CreateRecordRequest)
    requires Consistent(d) && OwnedAsset(d.assets, req.assetId, userId).Some?
    requires Truthy(req.serviceDate) && ParseIsoDate(req.serviceDate.value).Some?
    requires req.serviceType.Given? && !IsBlank(req.serviceType.value)
    requires Truthy(req.nextDate) && ParseIsoDate(req.nextDate.value).Some?
    requires Before(ParseIsoDate(req.nextDate.value).value, ParseIsoDate(req.serviceDate.value).value)
    ensures CreateRecordHandler(d, userId, req) == Step(d, Internal(InternalCreateRecord, NextBeforeService))
  {
    CreateRejectsNextBeforeService(req);
    NextBeforeServicePhrases();
  }

  /** An unparseable date, or a missing or blank service type, is answered 400 with the service's message. */
  lemma CreateInvalidFieldIs400(d: Db, userId: int, req: CreateRecordRequest)
    requires Consistent(d) && OwnedAsset(d.assets, req.assetId, userId).Some?
    requires Truthy(req.serviceDate)
    requires ParseDates(req.serviceDate, req.nextDate).Err? || !req.serviceType.Given? || IsBlank(req.serviceType.value)
    ensures var s := CreateRecordHandler(d, userId, req);
      && s.db == d && s.out.status == 400 && s.out.body.Error? && s.out.body.details.None?
      && s.out.body.error in {ServiceDateInvalid, NextDateInvalid, ServiceTypeRequired}
  {
    DateInvalidPhrases();
    ServiceTypeRequiredPhrases();
  }

  /** A valid request on an owned asset, with an id left in the record sequence, is answered 201 with the row it appended. */
  lemma CreateValidIs201(d: Db, userId: int, req: CreateRecordRequest)
    requires Consistent(d) && OwnedAsset(d.assets, req.assetId, userId).Some? && ValidateCreate(req).Ok?
    requires d.recordSeq <= MaxInt4
    ensures var s := CreateRecordHandler(d, userId, req);
      && |s.db.records| == |d.records| + 1
      && s.out == Reply(201, WithMessage(RecordCreated, MapRecord(s.db.records[|d.records|], None)))
  {
    CreateInsertsOneRow(d, req, userId);
  }

  /** The same request once the record sequence is exhausted hits the `nextval` error and is answered 500. */
  lemma CreateExhaustedSequenceIs500(d: Db, userId: int, req: CreateRecordRequest)
    requires Consistent(d) && OwnedAsset(d.assets, req.assetId, userId).Some? && ValidateCreate(req).Ok?
    requires d.recordSeq > MaxInt4
    ensures CreateRecordHandler(d, userId, req) == Step(d, Internal(InternalCreateRecord, RecordsSeqExhausted))
  {
    RecordsSeqExhaustedPhrases();
  }

  // ---------------------------------------------------------------- getRecordById

  /** The answer of `getRecordById` to the service's result. */
  function GetRecordReply(r: Result<Option<RecordResponse>>): Reply<RecordResponse> {
    match r
    case Ok(None) => Refuse(404, RecordNotFound)
    case Ok(Some(rec)) => Reply(200, Json(rec))
    case Err(m) =>
      if Includes(m, NotFound) || Includes(m, NotAllowed) || Includes(m, Denied) then Refuse(404, m)
      else Internal(InternalGetRecord, m)
  }

  /** `GET /maintenance-records/:id`. */
  function GetRecordHandler(d: Db, userId: int, id: string): Reply<RecordResponse>
    requires Consistent(d)
  {
    match ParseInt(id)
    case None => Refuse(400, InvalidRecordId)
    case Some(recordId) => GetRecordReply(GetRecord(d, recordId, userId))
  }

  /**
   * With a numeric id: an id outside `integer` is 500 with the database's error as details;
   * an unknown record is 404; a record of someone else's asset is 404 as well, with the
   * service's message; the caller's record is 200 with the record.
   */
  lemma GetRecordAnswers(d: Db, userId: int, id: string, recordId: int)
    requires Consistent(d) && ParseInt(id) == Some(recordId)
    ensures !IsInt4(recordId) ==> GetRecordHandler(d, userId, id) == Internal(InternalGetRecord, OutOfRange(recordId))
    ensures IsInt4(recordId) && (forall x | x in d.records :: x.id != recordId) ==>
      GetRecordHandler(d, userId, id) == Refuse(404, RecordNotFound)
    ensures forall x | x in d.records && x.id == recordId ::
      GetRecordHandler(d, userId, id) ==
        if OwnedAsset(d.assets, x.assetId, userId).Some? then Reply(200, Json(MapRecord(x, None)))
        else Refuse(404, RecordNotFoundOrDenied)
  {
    OutOfRangePhrases(recordId);
    StoredIdsInt4(d);
    forall x | x in d.records && x.id == recordId
      ensures GetRecordHandler(d, userId, id) ==
        if OwnedAsset(d.assets, x.assetId, userId).Some? then Reply(200, Json(MapRecord(x, None)))
        else Refuse(404, RecordNotFoundOrDenied)
    {
      RecordByIdOfMember(d.records, x);
      RecordNotFoundOrDeniedPhrases();
    }
  }

  // ---------------------------------------------------------------- getAllRecordsByAssetId

  /** The answer of `getAllRecordsByAssetId` to the service's result. */
  function GetAllRecordsReply(r: Result<seq<RecordResponse>>): Reply<seq<RecordResponse>> {
    match r
    case Ok(records) => Reply(200, Json(records))
    case Err(m) =>
      if Includes(m, NotFound) || Includes(m, NotOwned) then Refuse(404, m)
      else Internal(InternalListRecords, m)
  }

  /** `GET /assets/:assetId/maintenance-records`. */
  function GetAllRecordsHandler(d: Db, userId: int, assetId: string): Reply<seq<RecordResponse>>
    requires Consistent(d)
  {
    match ParseInt(assetId)
    case None => Refuse(400, InvalidAssetId)
    case Some(id) => GetAllRecordsReply(GetAllRecords(d, id, userId))
  }

  /**
   * With a numeric id: an id outside `integer` is 500 with the database's error as details;
   * a missing or foreign asset is 404; the caller's asset is 200 with its records, newest first.
   */
  lemma GetAllRecordsAnswers(d: Db, userId: int, assetId: string, id: int)
    requires Consistent(d) && ParseInt(assetId) == Some(id)
    ensures !IsInt4(id) ==> GetAllRecordsHandler(d, userId, assetId) == Internal(InternalListRecords, OutOfRange(id))
    ensures IsInt4(id) && OwnedAsset(d.assets, id, userId).None? ==>
      GetAllRecordsHandler(d, userId, assetId) == Refuse(404, AssetNotOwned)
    ensures OwnedAsset(d.assets, id, userId).Some? ==>
      GetAllRecordsHandler(d, userId, assetId) == Reply(200, Json(MapRecords(RecordsOfAsset(d.records, id))))
  {
    AssetNotOwnedPhrases();
    OutOfRangePhrases(id);
    StoredIdsInt4(d);
  }

  // ---------------------------------------------------------------- updateRecord

  /** The answer of `updateRecord` to the service's result. */
  function UpdateRecordReply(r: Result<Option<RecordResponse>>): Reply<RecordResponse> {
    match r
    case Ok(None) => Refuse(404, RecordNotFoundForUpdate)
    case Ok(Some(rec)) => Reply(200, WithMessage(RecordUpdated, rec))
    case Err(m) =>
      if Includes(m, Required) || Includes(m, InvalidStem) || Includes(m, CannotPrecede) || Includes(m, Phrases.Empty) then Refuse(400, m)
      else if Includes(m, NotFound) || Includes(m, Denied) then Refuse(404, m)
      else Internal(InternalUpdateRecord, m)
  }

  /** `PUT /maintenance-records/:id`: the database afterwards and the answer. */
  function UpdateRecordHandler(d: Db, userId: int, id: string, req: UpdateRecordRequest): Step<Reply<RecordResponse>>
    requires Consistent(d)
  {
    match ParseInt(id)
    case None => Step(d, Refuse(400, InvalidRecordId))
    case Some(recordId) =>
      var s := UpdateRecordOutcome(d, recordId, userId, req);
      Step(s.db, UpdateRecordReply(s.out))
  }

  /**
   * Every failure of `updateRecord` is 400, 404 or 500, and the 400 phrases, which here
   * include 'não pode ser anterior' and 'vazio', are checked before the 404 phrases.
   */
  lemma UpdateRecordFailureClasses(m: string)
    ensures var r := UpdateRecordReply(Err(m));
      && (r.status == 400 <==> Includes(m, Required) || Includes(m, InvalidStem) || Includes(m, CannotPrecede) || Includes(m, Phrases.Empty))
      && (r.status == 404 <==> r.status != 400 && (Includes(m, NotFound) || Includes(m, Denied)))
      && (r.status == 400 || r.status == 404 || r.status == 500)
      && (r.status != 500 ==> r.body == Error(m, None))
      && (r.status == 500 ==> r.body == Error(InternalUpdateRecord, Some(m)))
  {
  }

  /** The same date-order error is 500 when creating a record and 400 when updating one. */
  lemma NextBeforeServiceStatusDiffers()
    ensures CreateRecordReply(Err(NextBeforeService)).status == 500
    ensures UpdateRecordReply(Err(NextBeforeService)).status == 400
  {
    NextBeforeServicePhrases();
  }

  /**
   * With a numeric id, an unknown record is answered 404 with the service's message, or 500
   * with the database's error when the id lies outside `integer`; nothing is written.
   */
  lemma UpdateMissingRecordIs404(d: Db, userId: int, id: string, recordId: int, req: UpdateRecordRequest)
    requires Consistent(d) && ParseInt(id) == Some(recordId)
    requires forall x | x in d.records :: x.id != recordId
    ensures UpdateRecordHandler(d, userId, id, req) == Step(d,
      if IsInt4(recordId) then Refuse(404, RecordNotFound) else Internal(InternalUpdateRecord, OutOfRange(recordId)))
  {
    UpdateChecksExistenceThenOwnership(d, recordId, userId, req);
    RecordNotFoundPhrases();
    OutOfRangePhrases(recordId);
  }

  /** A record of someone else's asset is answered 404 with 'Acesso negado...', before any validation. */
  lemma UpdateForeignRecordIs404(d: Db, userId: int, id: string, req: UpdateRecordRequest, x: RecordRow)
    requires Consistent(d) && ParseInt(id) == Some(x.id)
    requires x in d.records && OwnedAsset(d.assets, x.assetId, userId).None?
    ensures UpdateRecordHandler(d, userId, id, req) == Step(d, Refuse(404, AccessDenied))
  {
    RecordByIdOfMember(d.records, x);
    assert UpdateRecordOutcome(d, x.id, userId, req) == Step(d, Err(AccessDenied));
    AccessDeniedPhrases();
  }

  /** On the caller's record, once the dates parse, a `null` service type is 500: the `trim` error holds no phrase looked for. */
  lemma UpdateNullServiceTypeIs500(d: Db, userId: int, id: string, req: UpdateRecordRequest, x: RecordRow)
    requires Consistent(d) && ParseInt(id) == Some(x.id)
    requires x in d.records && OwnedAsset(d.assets, x.assetId, userId).Some?
    requires ParseDates(req.serviceDate, req.nextDate).Ok? && req.serviceType.Null?
    ensures UpdateRecordHandler(d, userId, id, req) == Step(d, Internal(InternalUpdateRecord, TrimOfNull))
  {
    RecordByIdOfMember(d.records, x);
    assert UpdateRecordOutcome(d, x.id, userId, req) == Step(d, Err(TrimOfNull));
    TrimOfNullPhrases();
  }

  /** On the caller's record, once the dates parse, a blank service type is 400 ('vazio'). */
  lemma UpdateBlankServiceTypeIs400(d: Db, userId: int, id: string, req: UpdateRecordRequest, x: RecordRow)
    requires Consistent(d) && ParseInt(id) == Some(x.id)
    requires x in d.records && OwnedAsset(d.assets, x.assetId, userId).Some?
    requires ParseDates(req.serviceDate, req.nextDate).Ok? && req.serviceType.Given? && IsBlank(req.serviceType.value)
    ensures UpdateRecordHandler(d, userId, id, req) == Step(d, Refuse(400, ServiceTypeEmpty))
  {
    RecordByIdOfMember(d.records, x);
    assert UpdateRecordOutcome(d, x.id, userId, req) == Step(d, Err(ServiceTypeEmpty));
    ServiceTypeEmptyPhrases();
  }

  /**
   * On the caller's record, effective dates (the supplied one, else the stored one) out of
   * order are 400 on update, and nothing is written.
   */
  lemma UpdateNextBeforeServiceIs400(d: Db, userId: int, id: string, req: UpdateRecordRequest, x: RecordRow)
    requires Consistent(d) && ParseInt(id) == Some(x.id)
    requires x in d.records && OwnedAsset(d.assets, x.assetId, userId).Some?
    requires ParseDates(req.serviceDate, req.nextDate).Ok?
    requires !req.serviceType.Null? && !(req.serviceType.Given? && IsBlank(req.serviceType.value))
    requires !DatesOrdered(PatchRecord(x, PatchOf(req, ParseDates(req.serviceDate, req.nextDate).value), x.updatedAt))
    ensures UpdateRecordHandler(d, userId, id, req) == Step(d, Refuse(400, NextBeforeService))
  {
    RecordByIdOfMember(d.records, x);
    assert UpdateRecordOutcome(d, x.id, userId, req) == Step(d, Err(NextBeforeService));
    NextBeforeServicePhrases();
  }

  // ---------------------------------------------------------------- deleteRecord

  /** The answer of `deleteRecord` to the service's result. */
  function DeleteRecordReply(r: Result<bool>): Reply<()> {
    match r
    case Ok(false) => Refuse(404, RecordNotFoundForDelete)
    case Ok(true) => Reply(200, Message(RecordDeleted))
    case Err(m) =>
      if Includes(m, NotFound) || Includes(m, Denied) then Refuse(404, m)
      else Internal(InternalDeleteRecord, m)
  }

  /** `DELETE /maintenance-records/:id`: the database afterwards and the answer. */
  function DeleteRecordHandler(d: Db, userId: int, id: string): Step<Reply<()>>
  {
    match ParseInt(id)
    case None => Step(d, Refuse(400, InvalidRecordId))
    case Some(recordId) =>
      var s := DeleteRecordOutcome(d, recordId, userId);
      Step(s.db, DeleteRecordReply(s.out))
  }

  /**
   * With a numeric id, an unknown record is answered 404 with the service's message, or 500
   * with the database's error when the id lies outside `integer`; nothing is written.
   */
  lemma DeleteMissingRecordIs404(d: Db, userId: int, id: string, recordId: int)
    requires Consistent(d) && ParseInt(id) == Some(recordId)
    requires forall x | x in d.records :: x.id != recordId
    ensures DeleteRecordHandler(d, userId, id) == Step(d,
      if IsInt4(recordId) then Refuse(404, RecordNotFound) else Internal(InternalDeleteRecord, OutOfRange(recordId)))
  {
    DeleteRemovesOnlyOwnedRecord(d, recordId, userId);
    RecordNotFoundPhrases();
    OutOfRangePhrases(recordId);
  }

  /**
   * With a numeric id, a delete is 500 exactly when the id lies outside `integer`, or 404,
   * and neither writes anything; or it is 200 and removes exactly the record with that id.
   */
  lemma DeleteRecordAnswers(d: Db, userId: int, id: string, recordId: int)
    requires Consistent(d) && ParseInt(id) == Some(recordId)
    ensures var s := DeleteRecordHandler(d, userId, id);
      && (s.out.status == 500 <==> !IsInt4(recordId))
      && (s.out.status == 500 ==> s.out == Internal(InternalDeleteRecord, OutOfRange(recordId)))
      && (s.out.status in {404, 500} ==> s.db == d)
      && (s.out.status in {404, 500} || s.out == Reply(200, Message(RecordDeleted)))
      && (s.out.status == 200 ==> forall x :: x in s.db.records <==> x in d.records && x.id != recordId)
  {
    DeleteRemovesOnlyOwnedRecord(d, recordId, userId);
    var r := DeleteRecordOutcome(d, recordId, userId).out;
    if r.Err? {
      if !IsInt4(recordId) {
        OutOfRangePhrases(recordId);
      } else if r.error == RecordNotFound {
        RecordNotFoundPhrases();
      } else {
        AccessDeniedPhrases();
      }
    }
  }

  lemma DeleteForeignRecordIs404(d: Db, userId: int, id: string, x: RecordRow)
    requires Consistent(d) && ParseInt(id) == Some(x.id)
    requires x in d.records && OwnedAsset(d.assets, x.assetId, userId).None?
    ensures DeleteRecordHandler(d, userId, id) == Step(d, Refuse(404, AccessDenied))
  {
    RecordByIdOfMember(d.records, x);
    assert DeleteRecordOutcome(d, x.id, userId) == Step(d, Err(AccessDenied));
    AccessDeniedPhrases();
  }

  // ---------------------------------------------------------------- getUpcomingPanel

  /** The answer of `getUpcomingPanel` to the service's result: every failure is 500. */
  function PanelReply(r: Result<seq<RecordResponse>>): (reply: Reply<seq<RecordResponse>>)
    ensures reply.status == 200 <==> r.Ok?
    ensures r.Err? ==> reply == Reply(500, Error(InternalPanel, Some(r.error)))
  {
    match r
    case Ok(rows) => Reply(200, Json(rows))
    case Err(m) => Internal(InternalPanel, m)
  }

  /** `GET /maintenance-records/panel/upcoming`. */
  function PanelHandler(d: Db, userId: int): Reply<seq<RecordResponse>>
    requires Consistent(d)
  {
    PanelReply(Ok(PanelResponses(d, userId)))
  }

  // ---------------------------------------------------------------- the id guard

  /** An id that `parseInt` reads as NaN is answered 400 by every handler, before the service is called. */
  lemma InvalidIdSkipsService(d: Db, userId: int, id: string, req: UpdateRecordRequest)
    requires Consistent(d) && ParseInt(id).None?
    ensures GetRecordHandler(d, userId, id) == Refuse(400, InvalidRecordId)
    ensures UpdateRecordHandler(d, userId, id, req) == Step(d, Refuse(400, InvalidRecordId))
    ensures DeleteRecordHandler(d, userId, id) == Step(d, Refuse(400, InvalidRecordId))
    ensures GetAllRecordsHandler(d, userId, id) == Refuse(400, InvalidAssetId)
  {
  }
}
