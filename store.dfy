/**
 * The database the repositories talk to, as one object whose tables and counters the
 * writes of `UserRepository`, `AssetRepository` and `MaintenanceRecordRepository` update
 * in place. Each write is specified by the statement it runs (module `Tables`); reads are
 * the pure selections of that module applied to the current tables.
 */
module Store {
  import opened Wrappers
  import opened Messages
  import opened Sequences
  import opened Tables

  class Database {
    var users: seq<UserRow>
    var assets: seq<AssetRow>
    var records: seq<RecordRow>
    var userSeq: nat
    var assetSeq: nat
    var recordSeq: nat
    var clock: nat

    /** The current contents, as a value. */
    function State(): Db
      reads this
    {
      Db(users, assets, records, userSeq, assetSeq, recordSeq, clock)
    }

    ghost predicate Valid()
      reads this
    {
      Consistent(State())
    }

    /** The database right after `initDatabase`. */
    constructor ()
      ensures State() == Empty && Valid()
    {
      users, assets, records := [], [], [];
      userSeq, assetSeq, recordSeq, clock := 1, 1, 1, 0;
      EmptyConsistent();
    }

    // ------------------------------------------------------------ UserRepository

    method CreateUser(name: string, email: string, hash: string) returns (r: Result<UserRow>)
      requires Valid()
      modifies this
      ensures Valid()
      ensures State() == InsertUser(old(State()), name, email, hash).db
      ensures r == InsertUser(old(State()), name, email, hash).out
    {
      ghost var before := State();
      var id := userSeq;
      if id > MaxInt4 {
        return Err(UsersSeqExhausted);
      }
      userSeq := userSeq + 1;
      if UserByEmail(users, email).Some? {
        r := Err(DuplicateEmail);
        return;
      }
      clock := clock + 1;
      var row := UserRow(id, name, email, hash, clock, clock);
      users := users + [row];
      r := Ok(row);
      assert State() == InsertUser(before, name, email, hash).db;
    }

    method UpdateUser(id: int, patch: UserPatch) returns (r: Result<Option<UserRow>>)
      requires Valid()
      modifies this
      ensures Valid()
      ensures State() == Tables.UpdateUser(old(State()), id, patch).db
      ensures r == Tables.UpdateUser(old(State()), id, patch).out
    {
      var s := Tables.UpdateUser(State(), id, patch);
      users, clock := s.db.users, s.db.clock;
      r := s.out;
    }

    method DeleteUser(id: int) returns (deleted: bool)
      requires Valid()
      modifies this
      ensures Valid()
      ensures State() == Tables.DeleteUser(old(State()), id).db
      ensures deleted == Tables.DeleteUser(old(State()), id).out
    {
      var s := Tables.DeleteUser(State(), id);
      users, assets, records := s.db.users, s.db.assets, s.db.records;
      deleted := s.out;
    }

    // ------------------------------------------------------------ AssetRepository

    method CreateAsset(userId: int, name: string, description: Option<string>) returns (r: Result<AssetRow>)
      requires Valid()
      modifies this
      ensures Valid()
      ensures State() == InsertAsset(old(State()), userId, name, description).db
      ensures r == InsertAsset(old(State()), userId, name, description).out
    {
      ghost var before := State();
      var id := assetSeq;
      if id > MaxInt4 {
        return Err(AssetsSeqExhausted);
      }
      assetSeq := assetSeq + 1;
      if userId !in UserIds(users) {
        r := Err(AssetUserMissing);
        return;
      }
      clock := clock + 1;
      var row := AssetRow(id, userId, name, description, clock, clock);
      assets := assets + [row];
      r := Ok(row);
      assert State() == InsertAsset(before, userId, name, description).db;
    }

    method UpdateAsset(id: int, userId: int, patch: AssetPatch) returns (r: Result<Option<AssetRow>>)
      requires Valid()
      modifies this
      ensures Valid()
      ensures State() == Tables.UpdateAsset(old(State()), id, userId, patch).db
      ensures r == Tables.UpdateAsset(old(State()), id, userId, patch).out
    {
      var s := Tables.UpdateAsset(State(), id, userId, patch);
      assets, clock := s.db.assets, s.db.clock;
      r := s.out;
    }

    method DeleteAsset(id: int, userId: int) returns (deleted: bool)
      requires Valid()
      modifies this
      ensures Valid()
      ensures State() == Tables.DeleteAsset(old(State()), id, userId).db
      ensures deleted == Tables.DeleteAsset(old(State()), id, userId).out
    {
      var s := Tables.DeleteAsset(State(), id, userId);
      assets, records := s.db.assets, s.db.records;
      deleted := s.out;
    }

    // ------------------------------------------------------------ MaintenanceRecordRepository

    method CreateRecord(n: NewRecord) returns (r: Result<RecordRow>)
      requires Valid() && DatesValid(n)
      modifies this
      ensures Valid()
      ensures State() == InsertRecord(old(State()), n).db
      ensures r == InsertRecord(old(State()), n).out
    {
      ghost var before := State();
      var id := recordSeq;
      if id > MaxInt4 {
        return Err(RecordsSeqExhausted);
      }
      recordSeq := recordSeq + 1;
      if n.assetId !in AssetIds(assets) {
        r := Err(RecordAssetMissing);
        return;
      }
      clock := clock + 1;
      var row := RowOf(n, id, clock);
      records := records + [row];
      r := Ok(row);
      assert State() == InsertRecord(before, n).db;
    }

    method UpdateRecord(id: int, patch: RecordPatch) returns (r: Option<RecordRow>)
      requires Valid() && PatchDatesValid(patch)
      modifies this
      ensures Valid()
      ensures State() == Tables.UpdateRecord(old(State()), id, patch).db
      ensures r == Tables.UpdateRecord(old(State()), id, patch).out
    {
      var s := Tables.UpdateRecord(State(), id, patch);
      records, clock := s.db.records, s.db.clock;
      r := s.out;
    }

    method DeleteRecord(id: int) returns (deleted: bool)
      requires Valid()
      modifies this
      ensures Valid()
      ensures State() == Tables.DeleteRecord(old(State()), id).db
      ensures deleted == Tables.DeleteRecord(old(State()), id).out
    {
      var s := Tables.DeleteRecord(State(), id);
      records := s.db.records;
      deleted := s.out;
    }
  }
}
