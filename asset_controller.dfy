/**
 * `AssetController`: the same shape as the record controller (id guard, service call,
 * message classification), with its own phrase lists and its own order of tests.
 */
module AssetController {
  import opened Wrappers
  import opened Text
  import opened Messages
  import opened Tables
  import opened AssetService
  import opened Phrases
  import opened Http

  // ---------------------------------------------------------------- createAsset

  /** The answer of `createAsset`: 400 for 'obrigatório' or 'inválido', else 500 without details. */
  function CreateAssetReply(r: Result<AssetResponse>): Reply<AssetResponse> {
    match r
    case Ok(asset) => Reply(201, WithMessage(AssetCreated, asset))
    case Err(m) =>
      if Includes(m, Required) || Includes(m, Invalid) then Refuse(400, m)
      else Refuse(500, InternalCreateAsset)
  }

  /** `POST /assets`: the database afterwards and the answer. */
  function CreateAssetHandler(d: Db, userId: int, req: CreateAssetRequest): Step<Reply<AssetResponse>> {
    var s := CreateAssetOutcome(d, req, userId);
    Step(s.db, CreateAssetReply(s.out))
  }

  /** Every failure of `createAsset` is 400 with the message, or 500 with a fixed text and no details. */
  lemma CreateAssetFailureClasses(m: string)
    ensures var r := CreateAssetReply(Err(m));
      && (r.status == 400 <==> Includes(m, Required) || Includes(m, Invalid))
      && (r.status == 400 || r.status == 500)
      && (r.status == 400 ==> r.body == Error(m, None))
      && (r.status == 500 ==> r.body == Error(InternalCreateAsset, None))
  {
  }

  /** A missing or blank name is 400 with 'O nome do ativo é obrigatório.', and nothing is written. */
  lemma CreateAssetWithoutNameIs400(d: Db, userId: int, req: CreateAssetRequest)
    requires NameMissing(req.name)
    ensures CreateAssetHandler(d, userId, req) == Step(d, Refuse(400, AssetNameRequired))
  {
    AssetNameRequiredPhrases();
  }

  /**
   * A named asset for a caller whose user row is gone (the token outlived the account) hits
   * the foreign key, and an exhausted asset sequence fails the insert; either way the answer
   * is a bare 500.
   */
  lemma CreateAssetForMissingUserIs500(d: Db, userId: int, req: CreateAssetRequest)
    requires !NameMissing(req.name) && (userId !in UserIds(d.users) || d.assetSeq > MaxInt4)
    ensures CreateAssetHandler(d, userId, req).out == Refuse(500, InternalCreateAsset)
  {
    AssetUserMissingPhrases();
    AssetsSeqExhaustedPhrases();
  }

  /** A named asset for an existing caller, with an id left in the asset sequence, is 201 with the appended asset. */
  lemma CreateAssetValidIs201(d: Db, userId: int, req: CreateAssetRequest)
    requires Consistent(d) && !NameMissing(req.name) && userId in UserIds(d.users) && d.assetSeq <= MaxInt4
    ensures var s := CreateAssetHandler(d, userId, req);
      && |s.db.assets| == |d.assets| + 1
      && s.out == Reply(201, WithMessage(AssetCreated, MapAsset(s.db.assets[|d.assets|])))
  {
    CreateAssetStoresCallerAsOwner(d, req, userId);
  }

  // ---------------------------------------------------------------- getAssetById

  /** The answer of `getAssetById`: `null` is 404 and every failure is 500. */
  function GetAssetReply(r: Result<Option<AssetResponse>>): Reply<AssetResponse> {
    match r
    case Ok(None) => Refuse(404, AssetNotFound)
    case Ok(Some(asset)) => Reply(200, Json(asset))
    case Err(m) => Internal(InternalGetAsset, m)
  }

  /** `GET /assets/:id`. */
  function GetAssetHandler(d: Db, userId: int, id: string): Reply<AssetResponse> {
    match ParseInt(id)
    case None => Refuse(400, InvalidAssetId)
    case Some(assetId) => GetAssetReply(GetAsset(d, assetId, userId))
  }

  /**
   * With a numeric id: an id outside `integer` is 500 with the database's error as details;
   * otherwise the caller's asset is 200 with the asset, and any other id is 404.
   */
  lemma GetAssetAnswers(d: Db, userId: int, id: string, assetId: int)
    requires ParseInt(id) == Some(assetId)
    ensures !IsInt4(assetId) ==> GetAssetHandler(d, userId, id) == Internal(InternalGetAsset, OutOfRange(assetId))
    ensures IsInt4(assetId) && (forall a | a in d.assets :: !(a.id == assetId && a.userId == userId)) ==>
      GetAssetHandler(d, userId, id) == Refuse(404, AssetNotFound)
    ensures GetAssetHandler(d, userId, id).status == 200 ==>
      exists a | a in d.assets :: a.id == assetId && a.userId == userId &&
        GetAssetHandler(d, userId, id) == Reply(200, Json(MapAsset(a)))
    ensures GetAssetHandler(d, userId, id).status in {200, 404, 500}
    ensures GetAssetHandler(d, userId, id).status == 500 <==> !IsInt4(assetId)
  {
  }

  // ---------------------------------------------------------------- getAllAssets

  /** `GET /assets`: the caller's assets, in name order; a failure would be 500. */
  function GetAllAssetsReply(r: Result<seq<AssetResponse>>): (reply: Reply<seq<AssetResponse>>)
    ensures reply.status == 200 <==> r.Ok?
    ensures r.Err? ==> reply == Reply(500, Error(InternalListAssets, Some(r.error)))
  {
    match r
    case Ok(assets) => Reply(200, Json(assets))
    case Err(m) => Internal(InternalListAssets, m)
  }

  function GetAllAssetsHandler(d: Db, userId: int): Reply<seq<AssetResponse>> {
    GetAllAssetsReply(Ok(GetAllAssets(d, userId)))
  }

  // ---------------------------------------------------------------- updateAsset

  /** The answer of `updateAsset`: here the 404 phrases are checked before the 400 phrases. */
  function UpdateAssetReply(r: Result<Option<AssetResponse>>): Reply<AssetResponse> {
    match r
    case Ok(None) => Refuse(404, AssetNotFoundForUpdate)
    case Ok(Some(asset)) => Reply(200, WithMessage(AssetUpdated, asset))
    case Err(m) =>
      if Includes(m, NotFound) || Includes(m, NotOwned) then Refuse(404, m)
      else if Includes(m, Required) || Includes(m, Invalid) || Includes(m, Phrases.Empty) then Refuse(400, m)
      else Internal(InternalUpdateAsset, m)
  }

  /** `PUT /assets/:id`: the database afterwards and the answer. */
  function UpdateAssetHandler(d: Db, userId: int, id: string, req: AssetPatch): Step<Reply<AssetResponse>> {
    match ParseInt(id)
    case None => Step(d, Refuse(400, InvalidAssetId))
    case Some(assetId) =>
      var s := UpdateAssetOutcome(d, assetId, userId, req);
      Step(s.db, UpdateAssetReply(s.out))
  }

  /**
   * Every failure of `updateAsset` is 404, 400 or 500; a message holding a 404 phrase is
   * 404 even when it also holds a 400 phrase.
   */
  lemma UpdateAssetFailureClasses(m: string)
    ensures var r := UpdateAssetReply(Err(m));
      && (r.status == 404 <==> Includes(m, NotFound) || Includes(m, NotOwned))
      && (r.status == 400 <==> r.status != 404 && (Includes(m, Required) || Includes(m, Invalid) || Includes(m, Phrases.Empty)))
      && (r.status == 400 || r.status == 404 || r.status == 500)
      && (r.status != 500 ==> r.body == Error(m, None))
      && (r.status == 500 ==> r.body == Error(InternalUpdateAsset, Some(m)))
  {
  }

  /**
   * With a numeric id: an id outside `integer` is 500 (the database's error); a missing or
   * foreign asset is 404; on the caller's asset a `null` name is 500 (the `trim` error) and
   * a blank name is 400. None of these writes anything.
   */
  lemma UpdateAssetFailures(d: Db, userId: int, id: string, assetId: int, req: AssetPatch)
    requires Consistent(d) && ParseInt(id) == Some(assetId)
    ensures !IsInt4(assetId) ==>
      UpdateAssetHandler(d, userId, id, req) == Step(d, Internal(InternalUpdateAsset, OutOfRange(assetId)))
    ensures IsInt4(assetId) && OwnedAsset(d.assets, assetId, userId).None? ==>
      UpdateAssetHandler(d, userId, id, req) == Step(d, Refuse(404, AssetNotOwned))
    ensures OwnedAsset(d.assets, assetId, userId).Some? && req.name.Null? ==>
      UpdateAssetHandler(d, userId, id, req) == Step(d, Internal(InternalUpdateAsset, TrimOfNull))
    ensures OwnedAsset(d.assets, assetId, userId).Some? && req.name.Given? && IsBlank(req.name.value) ==>
      UpdateAssetHandler(d, userId, id, req) == Step(d, Refuse(400, AssetNameEmpty))
  {
    StoredIdsInt4(d);
    if !IsInt4(assetId) {
      OutOfRangePhrases(assetId);
    } else if OwnedAsset(d.assets, assetId, userId).None? {
      assert UpdateAssetOutcome(d, assetId, userId, req) == Step(d, Err(AssetNotOwned));
      AssetNotOwnedPhrases();
    } else if req.name.Null? {
      assert UpdateAssetOutcome(d, assetId, userId, req) == Step(d, Err(TrimOfNull));
      TrimOfNullPhrases();
    } else if req.name.Given? && IsBlank(req.name.value) {
      assert UpdateAssetOutcome(d, assetId, userId, req) == Step(d, Err(AssetNameEmpty));
      AssetNameEmptyPhrases();
    }
  }

  /** A successful update of the caller's asset is 200 with the updated asset. */
  lemma UpdateAssetValidIs200(d: Db, userId: int, id: string, assetId: int, req: AssetPatch)
    requires Consistent(d) && ParseInt(id) == Some(assetId)
    requires UpdateAssetOutcome(d, assetId, userId, req).out.Ok?
    ensures var s := UpdateAssetHandler(d, userId, id, req);
      s.out.status == 200 && s.out.body.WithMessage? && s.out.body.message == AssetUpdated
  {
    UpdateAssetSetsSuppliedKeys(d, assetId, userId, req);
  }

  // ---------------------------------------------------------------- deleteAsset

  /** The answer of `deleteAsset`: `false` is 404; failures are 404 for the 404 phrases, else 500. */
  function DeleteAssetReply(r: Result<bool>): Reply<()> {
    match r
    case Ok(false) => Refuse(404, AssetNotFoundForDelete)
    case Ok(true) => Reply(200, Message(AssetDeleted))
    case Err(m) =>
      if Includes(m, NotFound) || Includes(m, NotOwned) then Refuse(404, m)
      else Internal(InternalDeleteAsset, m)
  }

  /** `DELETE /assets/:id`: the database afterwards and the answer. */
  function DeleteAssetHandler(d: Db, userId: int, id: string): Step<Reply<()>> {
    match ParseInt(id)
    case None => Step(d, Refuse(400, InvalidAssetId))
    case Some(assetId) =>
      var s := DeleteAssetOutcome(d, assetId, userId);
      Step(s.db, DeleteAssetReply(s.out))
  }

  /**
   * With a numeric id: an id outside `integer` is 500 and a missing or foreign asset is 404,
   * and neither writes anything; the caller's asset is 200 and is gone, together with its
   * maintenance records.
   */
  lemma DeleteAssetAnswers(d: Db, userId: int, id: string, assetId: int)
    requires Consistent(d) && ParseInt(id) == Some(assetId)
    ensures !IsInt4(assetId) ==>
      DeleteAssetHandler(d, userId, id) == Step(d, Internal(InternalDeleteAsset, OutOfRange(assetId)))
    ensures IsInt4(assetId) && OwnedAsset(d.assets, assetId, userId).None? ==>
      DeleteAssetHandler(d, userId, id) == Step(d, Refuse(404, AssetNotOwned))
    ensures var s := DeleteAssetHandler(d, userId, id);
      OwnedAsset(d.assets, assetId, userId).Some? ==>
        && s.out == Reply(200, Message(AssetDeleted))
        && (forall r :: r in s.db.records <==> r in d.records && r.assetId != assetId)
        && (forall a :: a in s.db.assets <==> a in d.assets && !(a.id == assetId && a.userId == userId))
  {
    StoredIdsInt4(d);
    DeleteAssetCascades(d, assetId, userId);
    AssetNotOwnedPhrases();
    OutOfRangePhrases(assetId);
  }

  // ---------------------------------------------------------------- the id guard

  /** An id that `parseInt` reads as NaN is answered 400 by every handler, before the service is called. */
  lemma InvalidAssetIdSkipsService(d: Db, userId: int, id: string, req: AssetPatch)
    requires ParseInt(id).None?
    ensures GetAssetHandler(d, userId, id) == Refuse(400, InvalidAssetId)
    ensures UpdateAssetHandler(d, userId, id, req) == Step(d, Refuse(400, InvalidAssetId))
    ensures DeleteAssetHandler(d, userId, id) == Step(d, Refuse(400, InvalidAssetId))
  {
  }
}
