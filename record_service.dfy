/**
 * `MaintenanceRecordService`: ownership checks, date parsing and the date-order rule in
 * front of the maintenance-record repository, and the mapping of rows to API responses.
 *
 * The writes are methods on a `Database`, each specified by an outcome function over the
 * database value (the state afterwards and the answer); the reads are functions.
 */
module RecordService {
  import opened Wrappers
  import opened Text
  import opened Dates
  import opened Messages
  import opened Sequences
  import opened Tables
  import opened Panel
  import opened Store

  /** The body of `POST /maintenance-records`. Absent or `null` optional fields are stored as NULL. */
  datatype CreateRecordRequest = CreateRecordRequest(
    assetId: int,
    serviceType: Field<string>,
    serviceDate: Field<string>,
    description: Field<string>,
    cost: Field<Cost>,
    performedBy: Field<string>,
    nextDate: Field<string>,
    nextNotes: Field<string>)

  /** The body of `PUT /maintenance-records/:id`: every key may be left out. */
  datatype UpdateRecordRequest = UpdateRecordRequest(
    serviceType: Field<string>,
    serviceDate: Field<string>,
    description: Field<string>,
    cost: Field<Cost>,
    performedBy: Field<string>,
    nextDate: Field<string>,
    nextNotes: Field<string>)

  /** `MaintenanceRecordResponse`, with the optional `asset_name` of the panel. */
  datatype RecordResponse = RecordResponse(
    id: int,
    assetId: int,
    serviceType: string,
    serviceDate: string,
    description: Option<string>,
    cost: Option<Cost>,
    performedBy: Option<string>,
    nextDate: Option<string>,
    nextNotes: Option<string>,
    createdAt: nat,
    updatedAt: nat,
    assetName: Option<string>)

  /** A JSON string field is truthy: present, not `null`, not empty. */
  predicate Truthy(f: Field<string>) {
    f.Given? && f.value != ""
  }

  // ---------------------------------------------------------------- parseAndValidateDates

  /**
   * What `parseAndValidateDates` returns: the service date when one was given, and the next
   * date with three distinct outcomes: the key left absent (`undefined`), `null`, or a date.
   */
  datatype ParsedDates = ParsedDates(service: Option<Date>, next: Field<Date>)

  function ParseDates(service: Field<string>, next: Field<string>): (r: Result<ParsedDates>)
    ensures Truthy(service) && ParseIsoDate(service.value).None? ==> r == Err(ServiceDateInvalid)
    ensures (Truthy(service) ==> ParseIsoDate(service.value).Some?) && Truthy(next) && ParseIsoDate(next.value).None? ==>
      r == Err(NextDateInvalid)
    ensures r.Ok? <==>
      (Truthy(service) ==> ParseIsoDate(service.value).Some?) && (Truthy(next) ==> ParseIsoDate(next.value).Some?)
    ensures r.Ok? ==> (r.value.service.Some? <==> Truthy(service))
    ensures r.Ok? && Truthy(service) ==> r.value.service == ParseIsoDate(service.value)
    ensures r.Ok? ==> (r.value.next.Null? <==> next.Null?)
    ensures r.Ok? ==> (r.value.next.Given? <==> Truthy(next))
    ensures r.Ok? && Truthy(next) ==> Some(r.value.next.value) == ParseIsoDate(next.value)
    ensures r.Ok? && r.value.service.Some? ==> Valid(r.value.service.value)
    ensures r.Ok? && r.value.next.Given? ==> Valid(r.value.next.value)
  {
    var s := if Truthy(service) then ParseIsoDate(service.value) else None;
    if Truthy(service) && s.None? then Err(ServiceDateInvalid)
    else if next.Null? then Ok(ParsedDates(s, Null))
    else if Truthy(next) then
      match ParseIsoDate(next.value)
      case None => Err(NextDateInvalid)
      case Some(n) => Ok(ParsedDates(s, Given(n)))
    else Ok(ParsedDates(s, Absent))
  }

  // ---------------------------------------------------------------- response mapping

  /** The dates a row can hold: calendar days. */
  predicate StoredDates(r: RecordRow) {
    Valid(r.serviceDate) && (r.nextDate.Some? ==> Valid(r.nextDate.value))
  }

  /**
   * `mapToMaintenanceRecordResponse`: dates rendered from their UTC parts, a missing next
   * date as `null`, and `asset_name` copied only when the row has a non-empty one.
   */
  function MapRecord(row: RecordRow, assetName: Option<string>): (m: RecordResponse)
    requires StoredDates(row)
    ensures m.id == row.id && m.assetId == row.assetId && m.serviceType == row.serviceType
    ensures m.description == row.description && m.cost == row.cost && m.performedBy == row.performedBy
    ensures m.nextNotes == row.nextNotes && m.createdAt == row.createdAt && m.updatedAt == row.updatedAt
    ensures m.nextDate.Some? <==> row.nextDate.Some?
    ensures m.assetName.Some? <==> assetName.Some? && assetName.value != ""
    ensures m.assetName.Some? ==> m.assetName == assetName
  {
    RecordResponse(
      row.id, row.assetId, row.serviceType, FormatUtcDate(row.serviceDate),
      row.description, row.cost, row.performedBy,
      if row.nextDate.Some? then Some(FormatUtcDate(row.nextDate.value)) else None,
      row.nextNotes, row.createdAt, row.updatedAt,
      if assetName.Some? && assetName.value != "" then assetName else None)
  }

  /** For years 1000..9999 the rendered dates are ISO calendar dates that parse back to the stored ones. */
  lemma MapRecordDatesRoundTrip(row: RecordRow, assetName: Option<string>)
    requires StoredDates(row) && 1000 <= row.serviceDate.year <= 9999
    requires row.nextDate.Some? ==> 1000 <= row.nextDate.value.year <= 9999
    ensures MatchesDatePattern(MapRecord(row, assetName).serviceDate)
    ensures ParseIsoDate(MapRecord(row, assetName).serviceDate) == Some(row.serviceDate)
    ensures row.nextDate.Some? ==> ParseIsoDate(MapRecord(row, assetName).nextDate.value) == row.nextDate
  {
    FormatUtcIsIso(row.serviceDate);
    ParseFormatIso(row.serviceDate);
    if row.nextDate.Some? {
      FormatUtcIsIso(row.nextDate.value);
      ParseFormatIso(row.nextDate.value);
    }
  }

  /** `records.map(mapToMaintenanceRecordResponse)`. */
  function MapRecords(rows: seq<RecordRow>): (r: seq<RecordResponse>)
    requires forall x | x in rows :: StoredDates(x)
    ensures |r| == |rows|
    ensures forall i :: 0 <= i < |rows| ==> r[i] == MapRecord(rows[i], None)
  {
    if rows == [] then [] else [MapRecord(rows[0], None)] + MapRecords(rows[1..])
  }

  lemma ConsistentDates(d: Db)
    requires Consistent(d)
    ensures forall x | x in d.records :: StoredDates(x)
  {
  }

  // ---------------------------------------------------------------- createRecord

  /**
   * The checks of `createRecord` after the ownership check, in order: a service date must
   * be given, both dates must parse, the service type must not be blank, and the next date
   * must not precede the service date. The new row takes the remaining fields as sent.
   */
  function ValidateCreate(req: CreateRecordRequest): (r: Result<NewRecord>)
    ensures !Truthy(req.serviceDate) ==> r == Err(ServiceDateRequired)
    ensures Truthy(req.serviceDate) && ParseDates(req.serviceDate, req.nextDate).Err? ==>
      r == Err(ParseDates(req.serviceDate, req.nextDate).error)
    ensures (Truthy(req.serviceDate) && ParseDates(req.serviceDate, req.nextDate).Ok?
      && (req.serviceType.Given? ==> IsBlank(req.serviceType.value))) ==> r == Err(ServiceTypeRequired)
    ensures r.Ok? <==>
      && Truthy(req.serviceDate) && ParseIsoDate(req.serviceDate.value).Some?
      && (Truthy(req.nextDate) ==> ParseIsoDate(req.nextDate.value).Some?)
      && req.serviceType.Given? && !IsBlank(req.serviceType.value)
      && (Truthy(req.nextDate) ==> !Before(ParseIsoDate(req.nextDate.value).value, ParseIsoDate(req.serviceDate.value).value))
    ensures r.Ok? ==>
      && r.value.assetId == req.assetId
      && req.serviceType == Given(r.value.serviceType)
      && Some(r.value.serviceDate) == ParseIsoDate(req.serviceDate.value)
      && r.value.description == FieldValue(req.description)
      && r.value.cost == FieldValue(req.cost)
      && r.value.performedBy == FieldValue(req.performedBy)
      && r.value.nextNotes == FieldValue(req.nextNotes)
      && (r.value.nextDate.Some? <==> Truthy(req.nextDate))
      && (r.value.nextDate.Some? ==> r.value.nextDate == ParseIsoDate(req.nextDate.value))
    ensures r.Ok? ==> DatesValid(r.value)
    ensures r.Ok? && r.value.nextDate.Some? ==> !Before(r.value.nextDate.value, r.value.serviceDate)
  {
    if !Truthy(req.serviceDate) then Err(ServiceDateRequired)
    else
      match ParseDates(req.serviceDate, req.nextDate)
      case Err(e) => Err(e)
      case Ok(dates) =>
        if !req.serviceType.Given? || IsBlank(req.serviceType.value) then Err(ServiceTypeRequired)
        else if dates.next.Given? && Before(dates.next.value, dates.service.value) then Err(NextBeforeService)
        else
          Ok(NewRecord(
            req.assetId, req.serviceType.value, dates.service.value, FieldValue(req.description),
            FieldValue(req.cost), FieldValue(req.performedBy),
            if dates.next.Given? then Some(dates.next.value) else None, FieldValue(req.nextNotes)))
  }

  /** A request that passes the checks but names a next date before its service date. */
  lemma CreateRejectsNextBeforeService(req: CreateRecordRequest)
    requires Truthy(req.serviceDate) && ParseIsoDate(req.serviceDate.value).Some?
    requires req.serviceType.Given? && !IsBlank(req.serviceType.value)
    requires Truthy(req.nextDate) && ParseIsoDate(req.nextDate.value).Some?
    requires Before(ParseIsoDate(req.nextDate.value).value, ParseIsoDate(req.serviceDate.value).value)
    ensures ValidateCreate(req) == Err(NextBeforeService)
  {
    var dates := ParseDates(req.serviceDate, req.nextDate);
    assert dates == Ok(ParsedDates(ParseIsoDate(req.serviceDate.value), Given(ParseIsoDate(req.nextDate.value).value)));
  }

  /**
   * `createRecord`: the answer and the database afterwards. The first query looks up the
   * asset, and fails on an `asset_id` outside `integer`.
   */
  function CreateRecordOutcome(d: Db, req: CreateRecordRequest, userId: int): (s: Step<Result<RecordResponse>>)
    requires Consistent(d)
  {
    if !IsInt4(req.assetId) then Step(d, Err(OutOfRange(req.assetId)))
    else if OwnedAsset(d.assets, req.assetId, userId).None? then Step(d, Err(AssetNotOwned))
    else
      match ValidateCreate(req)
      case Err(e) => Step(d, Err(e))
      case Ok(n) =>
        var s := InsertRecord(d, n);
        if s.out.Ok? then Step(s.db, Ok(MapRecord(s.out.value, None)))
        else Step(s.db, Err(s.out.error))
  }

  /**
   * Ownership is checked before anything else: an `asset_id` outside `integer`, and then a
   * missing or foreign asset, fail the same way whatever the rest of the request says, and
   * nothing is written.
   */
  lemma CreateChecksOwnershipFirst(d: Db, req: CreateRecordRequest, userId: int)
    requires Consistent(d)
    ensures !IsInt4(req.assetId) ==> CreateRecordOutcome(d, req, userId) == Step(d, Err(OutOfRange(req.assetId)))
    ensures IsInt4(req.assetId) && (forall a | a in d.assets :: !(a.id == req.assetId && a.userId == userId)) ==>
      CreateRecordOutcome(d, req, userId) == Step(d, Err(AssetNotOwned))
  {
  }

  /** A request that fails validation writes nothing and answers with the validation error. */
  lemma CreateRejectsWithoutInsert(d: Db, req: CreateRecordRequest, userId: int)
    requires Consistent(d) && ValidateCreate(req).Err?
    ensures CreateRecordOutcome(d, req, userId).db == d
    ensures CreateRecordOutcome(d, req, userId).out.Err?
    ensures OwnedAsset(d.assets, req.assetId, userId).Some? ==>
      CreateRecordOutcome(d, req, userId).out.error == ValidateCreate(req).error
  {
    StoredIdsInt4(d);
  }

  /**
   * A valid request on an owned asset, with an id left in the record sequence, appends
   * exactly one row, holding the request's fields, whose next date is not before its
   * service date; the answer is that row, mapped.
   */
  lemma CreateInsertsOneRow(d: Db, req: CreateRecordRequest, userId: int)
    requires Consistent(d) && OwnedAsset(d.assets, req.assetId, userId).Some? && ValidateCreate(req).Ok?
    requires d.recordSeq <= MaxInt4
    ensures var s := CreateRecordOutcome(d, req, userId);
      && s.out.Ok?
      && |s.db.records| == |d.records| + 1
      && s.db.records[..|d.records|] == d.records
      && var row := s.db.records[|d.records|];
      && row == RowOf(ValidateCreate(req).value, row.id, s.db.clock)
      && (forall x | x in d.records :: x.id != row.id)
      && (row.nextDate.None? || !Before(row.nextDate.value, row.serviceDate))
      && s.out.value == MapRecord(row, None)
      && s.db.users == d.users && s.db.assets == d.assets
      && Consistent(s.db)
  {
    var n := ValidateCreate(req).value;
    var a := OwnedAsset(d.assets, req.assetId, userId).value;
    StoredIdsInt4(d);
    assert a.id in AssetIds(d.assets);
    var s := InsertRecord(d, n);
    assert s.db.records == d.records + [s.out.value];
    assert s.db.records[..|d.records|] == d.records;
  }

  method CreateRecord(db: Database, req: CreateRecordRequest, userId: int) returns (r: Result<RecordResponse>)
    requires db.Valid()
    modifies db
    ensures db.Valid()
    ensures db.State() == CreateRecordOutcome(old(db.State()), req, userId).db
    ensures r == CreateRecordOutcome(old(db.State()), req, userId).out
  {
    if !IsInt4(req.assetId) {
      return Err(OutOfRange(req.assetId));
    }
    var asset := OwnedAsset(db.assets, req.assetId, userId);
    if asset.None? {
      return Err(AssetNotOwned);
    }
    var checked := ValidateCreate(req);
    if checked.Err? {
      return Err(checked.error);
    }
    var row := db.CreateRecord(checked.value);
    if row.Err? {
      return Err(row.error);
    }
    r := Ok(MapRecord(row.value, None));
  }

  // ---------------------------------------------------------------- reads

  /**
   * `getRecordById`: the query fails on an id outside `integer`; otherwise `null` when no
   * record has the id, an error when it exists but its asset is not the caller's, and the
   * mapped record when it is.
   */
  function GetRecord(d: Db, recordId: int, userId: int): (r: Result<Option<RecordResponse>>)
    requires Consistent(d)
    ensures !IsInt4(recordId) ==> r == Err(OutOfRange(recordId))
    ensures r == Ok(None) <==> IsInt4(recordId) && forall x | x in d.records :: x.id != recordId
    ensures IsInt4(recordId) && r.Err? ==> r.error == RecordNotFoundOrDenied
    ensures IsInt4(recordId) ==> (r.Err? <==> exists x | x in d.records ::
      x.id == recordId && forall a | a in d.assets :: !(a.id == x.assetId && a.userId == userId))
    ensures r.Ok? && r.value.Some? ==> exists x | x in d.records ::
      x.id == recordId && OwnedAsset(d.assets, x.assetId, userId).Some? && r.value.value == MapRecord(x, None)
  {
    if !IsInt4(recordId) then Err(OutOfRange(recordId))
    else
    match RecordById(d.records, recordId)
    case None => Ok(None)
    case Some(x) =>
      OnlyRecordWithId(d, x);
      if OwnedAsset(d.assets, x.assetId, userId).None? then Err(RecordNotFoundOrDenied)
      else Ok(Some(MapRecord(x, None)))
  }

  /** Record ids are unique: a stored record is the only one with its id. */
  lemma OnlyRecordWithId(d: Db, x: RecordRow)
    requires Consistent(d) && x in d.records
    ensures forall y | y in d.records && y.id == x.id :: y == x
  {
    forall y | y in d.records && y.id == x.id ensures y == x {
      RecordByIdOfMember(d.records, y);
      RecordByIdOfMember(d.records, x);
    }
  }

  /**
   * `getAllRecordsByAssetId`: an error unless the asset is the caller's (the query fails on
   * an id outside `integer`); otherwise the asset's records, most recent service first,
   * mapped one by one.
   */
  function GetAllRecords(d: Db, assetId: int, userId: int): (r: Result<seq<RecordResponse>>)
    requires Consistent(d)
    ensures r.Err? <==> !IsInt4(assetId) || forall a | a in d.assets :: !(a.id == assetId && a.userId == userId)
    ensures r.Err? ==> r.error == if IsInt4(assetId) then AssetNotOwned else OutOfRange(assetId)
    ensures r.Ok? ==> |r.value| == |RecordsOfAsset(d.records, assetId)|
    ensures r.Ok? ==> forall i :: 0 <= i < |r.value| ==>
      RecordsOfAsset(d.records, assetId)[i] in d.records && r.value[i] == MapRecord(RecordsOfAsset(d.records, assetId)[i], None)
  {
    if !IsInt4(assetId) then Err(OutOfRange(assetId))
    else if OwnedAsset(d.assets, assetId, userId).None? then Err(AssetNotOwned)
    else
      RecordsOfAssetExact(d.records, assetId);
      Ok(MapRecords(RecordsOfAsset(d.records, assetId)))
  }

  /**
   * `getUpcomingMaintenancesForUserPanel`: each panel row mapped, with `asset_name` always
   * set from the joined asset (the spread's own `asset_name` is overwritten).
   */
  function PanelResponses(d: Db, userId: int): (r: seq<RecordResponse>)
    requires Consistent(d)
    ensures |r| == |Upcoming(d, userId)|
    ensures forall i :: 0 <= i < |r| ==>
      Upcoming(d, userId)[i].record in d.records && r[i] == MapRecord(Upcoming(d, userId)[i].record, None).(assetName := Some(Upcoming(d, userId)[i].assetName))
  {
    PanelRowsStored(d, userId);
    PanelMap(Upcoming(d, userId))
  }

  /** Every panel row joins a stored record, whose dates are therefore valid. */
  lemma PanelRowsStored(d: Db, userId: int)
    requires Consistent(d)
    ensures forall i :: 0 <= i < |Upcoming(d, userId)| ==> Upcoming(d, userId)[i].record in d.records
    ensures forall p | p in Upcoming(d, userId) :: StoredDates(p.record)
  {
    var u := Upcoming(d, userId);
    UpcomingRowsOwned(d, userId);
    ConsistentDates(d);
    forall i | 0 <= i < |u| ensures u[i].record in d.records {
      assert u[i] in u;
    }
  }

  function PanelMap(rows: seq<PanelRow>): (r: seq<RecordResponse>)
    requires forall p | p in rows :: StoredDates(p.record)
    ensures |r| == |rows|
    ensures forall i :: 0 <= i < |rows| ==> r[i] == MapRecord(rows[i].record, None).(assetName := Some(rows[i].assetName))
  {
    if rows == [] then []
    else
      var m := MapRecord(rows[0].record, Some(rows[0].assetName));
      [m.(assetName := Some(rows[0].assetName))] + PanelMap(rows[1..])
  }

  // ---------------------------------------------------------------- updateRecord

  /** The next date is absent or not before the service date. */
  predicate DatesOrdered(r: RecordRow) {
    r.nextDate.None? || !Before(r.nextDate.value, r.serviceDate)
  }

  /** `dataForRepo`: exactly the fields that are not `undefined`, with the parsed dates. */
  function PatchOf(req: UpdateRecordRequest, dates: ParsedDates): RecordPatch {
    RecordPatch(
      if req.serviceType.Given? then Some(req.serviceType.value) else None,
      dates.service, req.description, req.cost, req.performedBy, dates.next, req.nextNotes)
  }

  /**
   * The checks of `updateRecord` after the existence and ownership checks, in order: both
   * dates must parse; a `null` service type makes `trim` throw; a supplied service type must
   * not be blank; the effective dates (supplied, else stored) must be in order.
   */
  function ValidateUpdate(existing: RecordRow, req: UpdateRecordRequest): (r: Result<RecordPatch>)
    ensures ParseDates(req.serviceDate, req.nextDate).Err? ==> r == Err(ParseDates(req.serviceDate, req.nextDate).error)
    ensures ParseDates(req.serviceDate, req.nextDate).Ok? && req.serviceType.Null? ==> r == Err(TrimOfNull)
    ensures ParseDates(req.serviceDate, req.nextDate).Ok? && req.serviceType.Given? && IsBlank(req.serviceType.value) ==>
      r == Err(ServiceTypeEmpty)
    ensures (ParseDates(req.serviceDate, req.nextDate).Ok? && !req.serviceType.Null?
      && !(req.serviceType.Given? && IsBlank(req.serviceType.value))) ==>
        var p := PatchOf(req, ParseDates(req.serviceDate, req.nextDate).value);
        r == (if DatesOrdered(PatchRecord(existing, p, existing.updatedAt)) then Ok(p) else Err(NextBeforeService))
    ensures r.Ok? ==> PatchDatesValid(r.value)
    ensures r.Ok? ==> forall now: nat :: DatesOrdered(PatchRecord(existing, r.value, now))
    ensures r.Ok? ==> r.value.description == req.description && r.value.cost == req.cost
    ensures r.Ok? ==> r.value.performedBy == req.performedBy && r.value.nextNotes == req.nextNotes
    ensures r.Ok? ==> (r.value.serviceType.Some? <==> req.serviceType.Given?)
    ensures r.Ok? && r.value.serviceType.Some? ==> r.value.serviceType.value == req.serviceType.value
    ensures r.Ok? ==> (r.value.nextDate.Null? <==> req.nextDate.Null?)
  {
    match ParseDates(req.serviceDate, req.nextDate)
    case Err(e) => Err(e)
    case Ok(dates) =>
      if req.serviceType.Null? then Err(TrimOfNull)
      else if req.serviceType.Given? && IsBlank(req.serviceType.value) then Err(ServiceTypeEmpty)
      else
        var service := if dates.service.Some? then dates.service.value else existing.serviceDate;
        var next := if dates.next.Absent? then existing.nextDate else if dates.next.Null? then None else Some(dates.next.value);
        if next.Some? && Before(next.value, service) then Err(NextBeforeService)
        else Ok(PatchOf(req, dates))
  }

  /** Sending `next_maintenance_date: null` clears the next date and skips the order check. */
  lemma UpdateNullNextSkipsOrder(existing: RecordRow, req: UpdateRecordRequest)
    requires req.nextDate.Null?
    requires Truthy(req.serviceDate) ==> ParseIsoDate(req.serviceDate.value).Some?
    requires req.serviceType.Absent? || (req.serviceType.Given? && !IsBlank(req.serviceType.value))
    ensures ValidateUpdate(existing, req).Ok?
    ensures PatchRecord(existing, ValidateUpdate(existing, req).value, 0).nextDate.None?
  {
    var dates := ParseDates(req.serviceDate, req.nextDate);
    assert dates.Ok? && dates.value.next.Null?;
  }

  /** `updateRecord`: the answer and the database afterwards; the first query fails on an id outside `integer`. */
  function UpdateRecordOutcome(d: Db, recordId: int, userId: int, req: UpdateRecordRequest): (s: Step<Result<Option<RecordResponse>>>)
    requires Consistent(d)
  {
    if !IsInt4(recordId) then Step(d, Err(OutOfRange(recordId)))
    else
    match RecordById(d.records, recordId)
    case None => Step(d, Err(RecordNotFound))
    case Some(existing) =>
      if OwnedAsset(d.assets, existing.assetId, userId).None? then Step(d, Err(AccessDenied))
      else
        match ValidateUpdate(existing, req)
        case Err(e) => Step(d, Err(e))
        case Ok(p) =>
          if NoRecordFields(p) then Step(d, Ok(Some(MapRecord(existing, None))))
          else
            var s := Tables.UpdateRecord(d, recordId, p);
            if s.out.None? then Step(s.db, Ok(None))
            else
              UpdateRecordConsistent(d, recordId, p, d.clock + 1);
              assert s.out.value in s.db.records;
              Step(s.db, Ok(Some(MapRecord(s.out.value, None))))
  }

  /**
   * An id outside `integer`, then a missing record, then a record of someone else's asset,
   * fail before any validation; nothing is written.
   */
  lemma UpdateChecksExistenceThenOwnership(d: Db, recordId: int, userId: int, req: UpdateRecordRequest)
    requires Consistent(d)
    ensures !IsInt4(recordId) ==> UpdateRecordOutcome(d, recordId, userId, req) == Step(d, Err(OutOfRange(recordId)))
    ensures IsInt4(recordId) && (forall x | x in d.records :: x.id != recordId) ==>
      UpdateRecordOutcome(d, recordId, userId, req) == Step(d, Err(RecordNotFound))
    ensures forall x | x in d.records && x.id == recordId
      && (forall a | a in d.assets :: !(a.id == x.assetId && a.userId == userId)) ::
      UpdateRecordOutcome(d, recordId, userId, req) == Step(d, Err(AccessDenied))
  {
    forall x | x in d.records && x.id == recordId
      && (forall a | a in d.assets :: !(a.id == x.assetId && a.userId == userId))
      ensures UpdateRecordOutcome(d, recordId, userId, req) == Step(d, Err(AccessDenied))
    {
      StoredIdsInt4(d);
      RecordByIdOfMember(d.records, x);
    }
  }

  /**
   * A successful update leaves the record's dates in order, and changes that record only:
   * every other row keeps its contents.
   */
  lemma UpdateKeepsDatesOrdered(d: Db, recordId: int, userId: int, req: UpdateRecordRequest)
    requires Consistent(d)
    requires UpdateRecordOutcome(d, recordId, userId, req).out.Ok?
    ensures var d' := UpdateRecordOutcome(d, recordId, userId, req).db;
      && Consistent(d')
      && |d'.records| == |d.records|
      && (forall i :: 0 <= i < |d.records| && d.records[i].id != recordId ==> d'.records[i] == d.records[i])
      && (forall i :: 0 <= i < |d'.records| && d'.records[i].id == recordId ==> DatesOrdered(d'.records[i]))
      && d'.users == d.users && d'.assets == d.assets
  {
    UpdateOkWrites(d, recordId, userId, req);
    var existing := RecordById(d.records, recordId).value;
    var p := ValidateUpdate(existing, req).value;
    var d' := UpdateRecordOutcome(d, recordId, userId, req).db;
    forall i | 0 <= i < |d'.records| && d'.records[i].id == recordId ensures DatesOrdered(d'.records[i]) {
      RecordByIdOfMember(d.records, d.records[i]);
      if NoRecordFields(p) {
        assert PatchRecord(existing, p, 0) == existing.(updatedAt := 0);
      } else {
        assert d'.records[i] == PatchRecord(existing, p, d'.clock);
      }
    }
  }

  /** A successful update found the record, validated the request, and wrote what the repository's update writes, if anything. */
  lemma UpdateOkWrites(d: Db, recordId: int, userId: int, req: UpdateRecordRequest)
    requires Consistent(d)
    requires UpdateRecordOutcome(d, recordId, userId, req).out.Ok?
    ensures RecordById(d.records, recordId).Some?
    ensures ValidateUpdate(RecordById(d.records, recordId).value, req).Ok?
    ensures var p := ValidateUpdate(RecordById(d.records, recordId).value, req).value;
      UpdateRecordOutcome(d, recordId, userId, req).db == (if NoRecordFields(p) then d else Tables.UpdateRecord(d, recordId, p).db)
  {
  }

  /** A request with no field to set writes nothing and answers with the record as it is. */
  lemma UpdateWithoutFieldsWritesNothing(d: Db, recordId: int, userId: int, req: UpdateRecordRequest)
    requires Consistent(d)
    requires req.serviceType.Absent? && !Truthy(req.serviceDate) && req.description.Absent? && req.cost.Absent?
    requires req.performedBy.Absent? && req.nextDate.Absent? && req.nextNotes.Absent?
    requires exists x | x in d.records ::
      x.id == recordId && OwnedAsset(d.assets, x.assetId, userId).Some? && DatesOrdered(x)
    ensures UpdateRecordOutcome(d, recordId, userId, req).db == d
    ensures UpdateRecordOutcome(d, recordId, userId, req).out == Ok(Some(MapRecord(RecordById(d.records, recordId).value, None)))
  {
    var x :| x in d.records && x.id == recordId && OwnedAsset(d.assets, x.assetId, userId).Some? && DatesOrdered(x);
    RecordByIdOfMember(d.records, x);
    var dates := ParseDates(req.serviceDate, req.nextDate);
    assert dates == Ok(ParsedDates(None, Absent));
    assert PatchRecord(x, PatchOf(req, dates.value), x.updatedAt) == x;
  }

  method UpdateRecord(db: Database, recordId: int, userId: int, req: UpdateRecordRequest) returns (r: Result<Option<RecordResponse>>)
    requires db.Valid()
    modifies db
    ensures db.Valid()
    ensures db.State() == UpdateRecordOutcome(old(db.State()), recordId, userId, req).db
    ensures r == UpdateRecordOutcome(old(db.State()), recordId, userId, req).out
  {
    if !IsInt4(recordId) {
      return Err(OutOfRange(recordId));
    }
    var existing := RecordById(db.records, recordId);
    if existing.None? {
      return Err(RecordNotFound);
    }
    if OwnedAsset(db.assets, existing.value.assetId, userId).None? {
      return Err(AccessDenied);
    }
    var checked := ValidateUpdate(existing.value, req);
    if checked.Err? {
      return Err(checked.error);
    }
    if NoRecordFields(checked.value) {
      return Ok(Some(MapRecord(existing.value, None)));
    }
    var updated := db.UpdateRecord(recordId, checked.value);
    if updated.None? {
      return Ok(None);
    }
    assert updated.value in db.records;
    r := Ok(Some(MapRecord(updated.value, None)));
  }

  // ---------------------------------------------------------------- deleteRecord

  /** `deleteRecord`: existence (a query that fails on an id outside `integer`), then ownership, then the repository's delete. */
  function DeleteRecordOutcome(d: Db, recordId: int, userId: int): (s: Step<Result<bool>>)
  {
    if !IsInt4(recordId) then Step(d, Err(OutOfRange(recordId)))
    else
    match RecordById(d.records, recordId)
    case None => Step(d, Err(RecordNotFound))
    case Some(existing) =>
      if OwnedAsset(d.assets, existing.assetId, userId).None? then Step(d, Err(AccessDenied))
      else
        var s := Tables.DeleteRecord(d, recordId);
        Step(s.db, Ok(s.out))
  }

  /** A delete either fails without writing, or removes exactly the caller's record and answers true. */
  lemma DeleteRemovesOnlyOwnedRecord(d: Db, recordId: int, userId: int)
    ensures var s := DeleteRecordOutcome(d, recordId, userId);
      && (!IsInt4(recordId) ==> s == Step(d, Err(OutOfRange(recordId))))
      && (IsInt4(recordId) && (forall x | x in d.records :: x.id != recordId) ==> s == Step(d, Err(RecordNotFound)))
      && (s.out.Err? ==> s.db == d)
      && (s.out.Ok? ==> s.out.value)
      && (s.out.Ok? ==> exists x | x in d.records :: x.id == recordId && OwnedAsset(d.assets, x.assetId, userId).Some?)
      && (s.out.Ok? ==> forall x :: x in s.db.records <==> x in d.records && x.id != recordId)
      && (s.out.Ok? ==> s.db.users == d.users && s.db.assets == d.assets)
  {
  }

  method DeleteRecord(db: Database, recordId: int, userId: int) returns (r: Result<bool>)
    requires db.Valid()
    modifies db
    ensures db.Valid()
    ensures db.State() == DeleteRecordOutcome(old(db.State()), recordId, userId).db
    ensures r == DeleteRecordOutcome(old(db.State()), recordId, userId).out
  {
    if !IsInt4(recordId) {
      return Err(OutOfRange(recordId));
    }
    var existing := RecordById(db.records, recordId);
    if existing.None? {
      return Err(RecordNotFound);
    }
    if OwnedAsset(db.assets, existing.value.assetId, userId).None? {
      return Err(AccessDenied);
    }
    var deleted := db.DeleteRecord(recordId);
    r := Ok(deleted);
  }
}
