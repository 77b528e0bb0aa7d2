/**
 * `AssetService`: the name rule and the ownership check in front of `AssetRepository`,
 * and the mapping of asset rows to API responses, which leaves out `user_id`.
 */
module AssetService {
  import opened Wrappers
  import opened Text
  import opened Messages
  import opened Sequences
  import opened Tables
  import opened Store

  /** The body of `POST /assets`. */
  datatype CreateAssetRequest = CreateAssetRequest(name: Field<string>, description: Field<string>)

  /** `AssetResponse`: the asset without its owner. */
  datatype AssetResponse = AssetResponse(id: int, name: string, description: Option<string>, createdAt: nat, updatedAt: nat)

  /** `mapToAssetResponse`. */
  function MapAsset(a: AssetRow): AssetResponse {
    AssetResponse(a.id, a.name, a.description, a.createdAt, a.updatedAt)
  }

  /** The response does not depend on the owner, and it keeps every other column of the row. */
  lemma MapAssetOmitsOwner(a: AssetRow, b: AssetRow)
    ensures MapAsset(a) == MapAsset(b) <==> a.(userId := b.userId) == b
  {
  }

  /** `assets.map(mapToAssetResponse)`. */
  function MapAssets(rows: seq<AssetRow>): (r: seq<AssetResponse>)
    ensures |r| == |rows|
    ensures forall i :: 0 <= i < |rows| ==> r[i] == MapAsset(rows[i])
  {
    if rows == [] then [] else [MapAsset(rows[0])] + MapAssets(rows[1..])
  }

  /** `!assetData.name || assetData.name.trim() === ''`. */
  predicate NameMissing(name: Field<string>) {
    !name.Given? || IsBlank(name.value)
  }

  // ---------------------------------------------------------------- createAsset

  /** `createAsset`: a name is required; the new asset belongs to the caller. */
  function CreateAssetOutcome(d: Db, req: CreateAssetRequest, userId: int): (s: Step<Result<AssetResponse>>)
  {
    if NameMissing(req.name) then Step(d, Err(AssetNameRequired))
    else
      var s := InsertAsset(d, userId, req.name.value, FieldValue(req.description));
      if s.out.Ok? then Step(s.db, Ok(MapAsset(s.out.value))) else Step(s.db, Err(s.out.error))
  }

  /** A missing or blank name is refused before anything is inserted. */
  lemma CreateAssetRequiresName(d: Db, req: CreateAssetRequest, userId: int)
    requires !req.name.Given? || AllSpace(req.name.value)
    ensures CreateAssetOutcome(d, req, userId) == Step(d, Err(AssetNameRequired))
  {
    if req.name.Given? {
      BlankIffAllSpace(req.name.value);
    }
  }

  /**
   * With a name that is not blank, and an id left in the asset sequence, exactly one asset
   * is appended: it belongs to the caller and holds the name and description as sent; the
   * answer is that asset without its owner.
   */
  lemma CreateAssetStoresCallerAsOwner(d: Db, req: CreateAssetRequest, userId: int)
    requires Consistent(d) && !NameMissing(req.name) && userId in UserIds(d.users) && d.assetSeq <= MaxInt4
    ensures var s := CreateAssetOutcome(d, req, userId);
      && s.out.Ok?
      && |s.db.assets| == |d.assets| + 1
      && s.db.assets[..|d.assets|] == d.assets
      && s.db.assets[|d.assets|].userId == userId
      && s.db.assets[|d.assets|].name == req.name.value
      && s.db.assets[|d.assets|].description == FieldValue(req.description)
      && s.out.value == MapAsset(s.db.assets[|d.assets|])
      && s.db.users == d.users && s.db.records == d.records
      && Consistent(s.db)
  {
    var s := InsertAsset(d, userId, req.name.value, FieldValue(req.description));
    assert s.db.assets[..|d.assets|] == d.assets;
  }

  method CreateAsset(db: Database, req: CreateAssetRequest, userId: int) returns (r: Result<AssetResponse>)
    requires db.Valid()
    modifies db
    ensures db.Valid()
    ensures db.State() == CreateAssetOutcome(old(db.State()), req, userId).db
    ensures r == CreateAssetOutcome(old(db.State()), req, userId).out
  {
    if !req.name.Given? || IsBlank(req.name.value) {
      return Err(AssetNameRequired);
    }
    var row := db.CreateAsset(userId, req.name.value, FieldValue(req.description));
    if row.Err? {
      return Err(row.error);
    }
    r := Ok(MapAsset(row.value));
  }

  // ---------------------------------------------------------------- reads

  /**
   * `getAssetById`: the query fails on an id outside `integer`; otherwise the answer is
   * `null` unless an asset has both that id and the caller as owner.
   */
  function GetAsset(d: Db, assetId: int, userId: int): (r: Result<Option<AssetResponse>>)
    ensures r.Err? <==> !IsInt4(assetId)
    ensures r.Err? ==> r.error == OutOfRange(assetId)
    ensures r == Ok(None) <==> IsInt4(assetId) && forall a | a in d.assets :: !(a.id == assetId && a.userId == userId)
    ensures r.Ok? && r.value.Some? ==>
      exists a | a in d.assets :: a.id == assetId && a.userId == userId && r.value.value == MapAsset(a)
  {
    if !IsInt4(assetId) then Err(OutOfRange(assetId))
    else
      match OwnedAsset(d.assets, assetId, userId)
      case None => Ok(None)
      case Some(a) => Ok(Some(MapAsset(a)))
  }

  /** `getAllAssetsByUser`: the caller's assets in ascending name order, mapped one by one. */
  function GetAllAssets(d: Db, userId: int): (r: seq<AssetResponse>)
    ensures |r| == |AssetsOfUser(d.assets, userId)|
    ensures forall i :: 0 <= i < |r| ==> r[i] == MapAsset(AssetsOfUser(d.assets, userId)[i])
  {
    MapAssets(AssetsOfUser(d.assets, userId))
  }

  function ResponseNameKey(a: AssetResponse): seq<int> { TextKey(a.name) }

  /** The listing shows only assets of the caller. */
  lemma GetAllAssetsOnlyMine(d: Db, userId: int)
    ensures forall i :: 0 <= i < |GetAllAssets(d, userId)| ==>
      exists a | a in d.assets :: a.userId == userId && GetAllAssets(d, userId)[i] == MapAsset(a)
  {
    var mine := AssetsOfUser(d.assets, userId);
    var r := GetAllAssets(d, userId);
    AssetsOfUserExact(d.assets, userId);
    forall i | 0 <= i < |r| ensures exists a | a in d.assets :: a.userId == userId && r[i] == MapAsset(a) {
      assert mine[i] in mine;
    }
  }

  /** The listing shows every asset of the caller. */
  lemma GetAllAssetsAllMine(d: Db, userId: int)
    ensures forall a | a in d.assets && a.userId == userId :: MapAsset(a) in GetAllAssets(d, userId)
  {
    var mine := AssetsOfUser(d.assets, userId);
    var r := GetAllAssets(d, userId);
    AssetsOfUserExact(d.assets, userId);
    forall a | a in d.assets && a.userId == userId ensures MapAsset(a) in r {
      var i :| 0 <= i < |mine| && mine[i] == a;
      assert r[i] == MapAsset(a);
    }
  }

  /** The listing is in ascending name order. */
  lemma GetAllAssetsSorted(d: Db, userId: int)
    ensures SortedBy(GetAllAssets(d, userId), ResponseNameKey)
  {
    var mine := AssetsOfUser(d.assets, userId);
    var r := GetAllAssets(d, userId);
    assert SortedBy(mine, NameKey);
    forall i, j | 0 <= i < j < |r| ensures KeyLe(ResponseNameKey(r[i]), ResponseNameKey(r[j])) {
      assert ResponseNameKey(r[i]) == NameKey(mine[i]);
      assert ResponseNameKey(r[j]) == NameKey(mine[j]);
    }
  }

  // ---------------------------------------------------------------- updateAsset

  /**
   * `updateAsset`: ownership first (a query that fails on an id outside `integer`); then a
   * supplied name must not be blank (a `null` name makes `trim` throw); then the
   * repository's partial update.
   */
  function UpdateAssetOutcome(d: Db, assetId: int, userId: int, req: AssetPatch): (s: Step<Result<Option<AssetResponse>>>)
  {
    if !IsInt4(assetId) then Step(d, Err(OutOfRange(assetId)))
    else if OwnedAsset(d.assets, assetId, userId).None? then Step(d, Err(AssetNotOwned))
    else if req.name.Null? then Step(d, Err(TrimOfNull))
    else if req.name.Given? && IsBlank(req.name.value) then Step(d, Err(AssetNameEmpty))
    else
      var s := Tables.UpdateAsset(d, assetId, userId, req);
      match s.out
      case Err(e) => Step(s.db, Err(e))
      case Ok(None) => Step(s.db, Ok(None))
      case Ok(Some(a)) => Step(s.db, Ok(Some(MapAsset(a))))
  }

  /**
   * An id outside `integer`, then an asset that is missing or someone else's, fail the same
   * way whatever the request holds, and nothing is written.
   */
  lemma UpdateAssetChecksOwnershipFirst(d: Db, assetId: int, userId: int, req: AssetPatch)
    ensures !IsInt4(assetId) ==> UpdateAssetOutcome(d, assetId, userId, req) == Step(d, Err(OutOfRange(assetId)))
    ensures IsInt4(assetId) && (forall a | a in d.assets :: !(a.id == assetId && a.userId == userId)) ==>
      UpdateAssetOutcome(d, assetId, userId, req) == Step(d, Err(AssetNotOwned))
  {
  }

  /**
   * A successful update sets exactly the supplied keys and `updated_at` on the caller's
   * asset, leaves every other asset as it was, and never leaves a blank name.
   */
  lemma UpdateAssetSetsSuppliedKeys(d: Db, assetId: int, userId: int, req: AssetPatch)
    requires Consistent(d) && UpdateAssetOutcome(d, assetId, userId, req).out.Ok?
    ensures var s := UpdateAssetOutcome(d, assetId, userId, req);
      && Consistent(s.db)
      && |s.db.assets| == |d.assets|
      && (forall i :: 0 <= i < |d.assets| && !(d.assets[i].id == assetId && d.assets[i].userId == userId) ==>
          s.db.assets[i] == d.assets[i])
      && (forall i :: 0 <= i < |d.assets| && d.assets[i].id == assetId && d.assets[i].userId == userId ==>
          && s.db.assets[i].name == (if req.name.Given? then req.name.value else d.assets[i].name)
          && s.db.assets[i].description == Assign(d.assets[i].description, req.description)
          && s.db.assets[i].userId == userId && s.db.assets[i].createdAt == d.assets[i].createdAt)
      && (req.name.Given? ==> !IsBlank(req.name.value))
      && s.out.value.Some?
      && s.db.users == d.users && s.db.records == d.records
  {
    assert IsInt4(assetId) && OwnedAsset(d.assets, assetId, userId).Some? && !req.name.Null? && !(req.name.Given? && IsBlank(req.name.value));
    var t := Tables.UpdateAsset(d, assetId, userId, req);
    assert UpdateAssetOutcome(d, assetId, userId, req).db == t.db;
  }

  method UpdateAsset(db: Database, assetId: int, userId: int, req: AssetPatch) returns (r: Result<Option<AssetResponse>>)
    requires db.Valid()
    modifies db
    ensures db.Valid()
    ensures db.State() == UpdateAssetOutcome(old(db.State()), assetId, userId, req).db
    ensures r == UpdateAssetOutcome(old(db.State()), assetId, userId, req).out
  {
    if !IsInt4(assetId) {
      return Err(OutOfRange(assetId));
    }
    if OwnedAsset(db.assets, assetId, userId).None? {
      return Err(AssetNotOwned);
    }
    if req.name.Null? {
      return Err(TrimOfNull);
    }
    if req.name.Given? && IsBlank(req.name.value) {
      return Err(AssetNameEmpty);
    }
    var updated := db.UpdateAsset(assetId, userId, req);
    match updated
    case Err(e) => r := Err(e);
    case Ok(None) => r := Ok(None);
    case Ok(Some(a)) => r := Ok(Some(MapAsset(a)));
  }

  // ---------------------------------------------------------------- deleteAsset

  /** `deleteAsset`: ownership first (a query that fails on an id outside `integer`), then the repository's delete and its answer. */
  function DeleteAssetOutcome(d: Db, assetId: int, userId: int): (s: Step<Result<bool>>)
  {
    if !IsInt4(assetId) then Step(d, Err(OutOfRange(assetId)))
    else if OwnedAsset(d.assets, assetId, userId).None? then Step(d, Err(AssetNotOwned))
    else
      var s := Tables.DeleteAsset(d, assetId, userId);
      Step(s.db, Ok(s.out))
  }

  /**
   * A delete either fails without writing, or answers true and removes the caller's asset
   * together with its maintenance records, and nothing else.
   */
  lemma DeleteAssetCascades(d: Db, assetId: int, userId: int)
    ensures var s := DeleteAssetOutcome(d, assetId, userId);
      && (!IsInt4(assetId) ==> s == Step(d, Err(OutOfRange(assetId))))
      && (IsInt4(assetId) && (forall a | a in d.assets :: !(a.id == assetId && a.userId == userId)) ==> s == Step(d, Err(AssetNotOwned)))
      && (s.out.Err? ==> s.db == d)
      && (s.out.Ok? ==> s.out.value)
      && (s.out.Ok? ==> forall a :: a in s.db.assets <==> a in d.assets && !(a.id == assetId && a.userId == userId))
      && (s.out.Ok? ==> forall r :: r in s.db.records <==> r in d.records && r.assetId != assetId)
      && s.db.users == d.users
  {
  }

  method DeleteAsset(db: Database, assetId: int, userId: int) returns (r: Result<bool>)
    requires db.Valid()
    modifies db
    ensures db.Valid()
    ensures db.State() == DeleteAssetOutcome(old(db.State()), assetId, userId).db
    ensures r == DeleteAssetOutcome(old(db.State()), assetId, userId).out
  {
    if !IsInt4(assetId) {
      return Err(OutOfRange(assetId));
    }
    if OwnedAsset(db.assets, assetId, userId).None? {
      return Err(AssetNotOwned);
    }
    var deleted := db.DeleteAsset(assetId, userId);
    r := Ok(deleted);
  }
}
