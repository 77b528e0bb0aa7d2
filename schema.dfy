/**
 * The three tables of the database (users, assets, maintenance_records) as values, the
 * constraints the schema declares on them, and the effect of every statement the
 * repositories run, as functions from the database before to the database after.
 *
 * Ids come from one SERIAL counter per table, which is consumed by every INSERT, even
 * one that then fails a constraint. `created_at`/`updated_at` come from `clock`, a
 * counter that every INSERT and UPDATE advances and that stands for NOW(). Every key and
 * foreign key is an `integer` (int4), so a sequence hands out at most 2147483647 ids, and
 * a query whose id parameter lies outside that type fails.
 */
module Tables {
  import opened Wrappers
  import opened Dates
  import opened Sequences
  import opened Messages

  /** A NUMERIC(10,2) cost, kept opaque: the text of the value the client sent. */
  datatype Cost = Cost(text: string)

  datatype UserRow = UserRow(id: int, name: string, email: string, passwordHash: string, createdAt: nat, updatedAt: nat)

  datatype AssetRow = AssetRow(id: int, userId: int, name: string, description: Option<string>, createdAt: nat, updatedAt: nat)

  datatype RecordRow = RecordRow(
    id: int,
    assetId: int,
    serviceType: string,
    serviceDate: Date,
    description: Option<string>,
    cost: Option<Cost>,
    performedBy: Option<string>,
    nextDate: Option<Date>,
    nextNotes: Option<string>,
    createdAt: nat,
    updatedAt: nat)

  /** The whole database: three tables, three SERIAL counters (next id to hand out) and the clock. */
  datatype Db = Db(
    users: seq<UserRow>,
    assets: seq<AssetRow>,
    records: seq<RecordRow>,
    userSeq: nat,
    assetSeq: nat,
    recordSeq: nat,
    clock: nat)

  /** The outcome of one statement: the database afterwards and what the statement returned. */
  datatype Step<T> = Step(db: Db, out: T)

  /** The largest `integer` (int4), which is also the largest value of a SERIAL sequence. */
  const MaxInt4 := 0x7FFF_FFFF

  /** A value Postgres accepts for an `integer` parameter. */
  predicate IsInt4(n: int) {
    -0x8000_0000 <= n <= MaxInt4
  }

  function UserIds(users: seq<UserRow>): set<int> { set u | u in users :: u.id }
  function AssetIds(assets: seq<AssetRow>): set<int> { set a | a in assets :: a.id }

  predicate UserStamped(u: UserRow, clock: nat, seqNext: nat) {
    1 <= u.id < seqNext && u.createdAt <= u.updatedAt <= clock
  }

  predicate AssetStamped(a: AssetRow, clock: nat, seqNext: nat) {
    1 <= a.id < seqNext && a.createdAt <= a.updatedAt <= clock
  }

  predicate RecordStamped(r: RecordRow, clock: nat, seqNext: nat) {
    1 <= r.id < seqNext && r.createdAt <= r.updatedAt <= clock && Valid(r.serviceDate)
    && (r.nextDate.Some? ==> Valid(r.nextDate.value))
  }

  /**
   * What the schema guarantees: primary keys are unique and below their SERIAL counter,
   * which never passes the largest `integer`,
   * emails are unique, every asset has its user and every record its asset (the foreign
   * keys), stored dates are calendar dates, and no row was stamped after the clock or
   * updated before it was created.
   */
  predicate Consistent(d: Db) {
    && 1 <= d.userSeq <= MaxInt4 + 1 && 1 <= d.assetSeq <= MaxInt4 + 1 && 1 <= d.recordSeq <= MaxInt4 + 1
    && (forall u | u in d.users :: UserStamped(u, d.clock, d.userSeq))
    && (forall a | a in d.assets :: AssetStamped(a, d.clock, d.assetSeq) && a.userId in UserIds(d.users))
    && (forall r | r in d.records :: RecordStamped(r, d.clock, d.recordSeq) && r.assetId in AssetIds(d.assets))
    && Distinct(d.users, (u: UserRow) => u.id)
    && Distinct(d.users, (u: UserRow) => u.email)
    && Distinct(d.assets, (a: AssetRow) => a.id)
    && Distinct(d.records, (r: RecordRow) => r.id)
  }

  /** The database `initDatabase` leaves behind: empty tables, counters at 1. */
  const Empty := Db([], [], [], 1, 1, 1, 0)

  lemma EmptyConsistent()
    ensures Consistent(Empty)
  {
  }

  /** Every stored key and foreign key is an `integer`, so a lookup by a stored id never fails on its type. */
  lemma StoredIdsInt4(d: Db)
    requires Consistent(d)
    ensures forall u | u in d.users :: IsInt4(u.id)
    ensures forall a | a in d.assets :: IsInt4(a.id) && IsInt4(a.userId)
    ensures forall r | r in d.records :: IsInt4(r.id) && IsInt4(r.assetId)
  {
    forall a | a in d.assets ensures IsInt4(a.userId) {
      var u :| u in d.users && u.id == a.userId;
    }
    forall r | r in d.records ensures IsInt4(r.assetId) {
      var a :| a in d.assets && a.id == r.assetId;
    }
  }

  // ---------------------------------------------------------------- lookups

  /** `SELECT * FROM users WHERE id = $1`, `rows[0] || null`. */
  function UserById(users: seq<UserRow>, id: int): (r: Option<UserRow>)
    ensures r.Some? ==> r.value in users && r.value.id == id
    ensures r.None? <==> id !in UserIds(users)
  {
    if users == [] then None
    else if users[0].id == id then Some(users[0])
    else
      var rest := UserById(users[1..], id);
      assert users == [users[0]] + users[1..];
      assert UserIds(users) == {users[0].id} + UserIds(users[1..]);
      rest
  }

  /** `SELECT * FROM users WHERE email = $1`, `rows[0] || null`. */
  function UserByEmail(users: seq<UserRow>, email: string): (r: Option<UserRow>)
    ensures r.Some? ==> r.value in users && r.value.email == email
    ensures r.None? <==> forall u | u in users :: u.email != email
  {
    if users == [] then None
    else if users[0].email == email then Some(users[0])
    else
      assert users == [users[0]] + users[1..];
      UserByEmail(users[1..], email)
  }

  /** With unique emails, the lookup by email finds every stored user. */
  lemma {:induction false} UserByEmailOfMember(users: seq<UserRow>, x: UserRow)
    requires Distinct(users, (u: UserRow) => u.email) && x in users
    ensures UserByEmail(users, x.email) == Some(x)
  {
    if users[0] != x {
      var k :| 0 <= k < |users| && users[k] == x;
      assert users[0].email != users[k].email;
      assert users[1..][k - 1] == x;
      DistinctTail(users, (u: UserRow) => u.email);
      UserByEmailOfMember(users[1..], x);
    }
  }

  /** With unique ids, the lookup by id finds every stored user. */
  lemma {:induction false} UserByIdOfMember(users: seq<UserRow>, x: UserRow)
    requires Distinct(users, (u: UserRow) => u.id) && x in users
    ensures UserById(users, x.id) == Some(x)
  {
    if users[0] != x {
      var k :| 0 <= k < |users| && users[k] == x;
      assert users[0].id != users[k].id;
      assert users[1..][k - 1] == x;
      DistinctTail(users, (u: UserRow) => u.id);
      UserByIdOfMember(users[1..], x);
    }
  }

  /** `SELECT * FROM assets WHERE id = $1 AND user_id = $2`: a row only when both match. */
  function OwnedAsset(assets: seq<AssetRow>, id: int, userId: int): (r: Option<AssetRow>)
    ensures r.Some? ==> r.value in assets && r.value.id == id && r.value.userId == userId
    ensures r.None? <==> forall a | a in assets :: !(a.id == id && a.userId == userId)
  {
    if assets == [] then None
    else if assets[0].id == id && assets[0].userId == userId then Some(assets[0])
    else
      assert assets == [assets[0]] + assets[1..];
      OwnedAsset(assets[1..], id, userId)
  }

  /** `SELECT * FROM maintenance_records WHERE id = $1`. */
  function RecordById(records: seq<RecordRow>, id: int): (r: Option<RecordRow>)
    ensures r.Some? ==> r.value in records && r.value.id == id
    ensures r.None? <==> forall x | x in records :: x.id != id
  {
    if records == [] then None
    else if records[0].id == id then Some(records[0])
    else
      assert records == [records[0]] + records[1..];
      RecordById(records[1..], id)
  }

  /** The sort key of `ORDER BY name ASC`: the name's code points. */
  function NameKey(a: AssetRow): seq<int> { TextKey(a.name) }

  /** The sort key of `ORDER BY service_date DESC, created_at DESC`. */
  function RecencyKey(r: RecordRow): seq<int> {
    [-r.serviceDate.year, -r.serviceDate.month, -r.serviceDate.day, -(r.createdAt as int)]
  }

  /** `SELECT * FROM assets WHERE user_id = $1 ORDER BY name ASC`. */
  function AssetsOfUser(assets: seq<AssetRow>, userId: int): seq<AssetRow> {
    SortBy(Filter(assets, (a: AssetRow) => a.userId == userId), NameKey)
  }

  /** `SELECT * FROM maintenance_records WHERE asset_id = $1 ORDER BY service_date DESC, created_at DESC`. */
  function RecordsOfAsset(records: seq<RecordRow>, assetId: int): seq<RecordRow> {
    SortBy(Filter(records, (r: RecordRow) => r.assetId == assetId), RecencyKey)
  }

  /** `findAllByUserId` returns exactly the user's assets, each once, in ascending name order. */
  lemma AssetsOfUserExact(assets: seq<AssetRow>, userId: int)
    ensures forall a :: a in AssetsOfUser(assets, userId) <==> a in assets && a.userId == userId
    ensures SortedBy(AssetsOfUser(assets, userId), NameKey)
    ensures multiset(AssetsOfUser(assets, userId)) == multiset(Filter(assets, (a: AssetRow) => a.userId == userId))
  {
    var f := Filter(assets, (a: AssetRow) => a.userId == userId);
    var r := AssetsOfUser(assets, userId);
    forall a ensures a in r <==> a in assets && a.userId == userId {
      calc {
        a in r;
        a in multiset(r);
        a in multiset(f);
        a in f;
      }
      if a in assets && a.userId == userId {
        var i :| 0 <= i < |assets| && assets[i] == a;
      }
    }
  }

  /**
   * `findAllByAssetId` returns exactly the asset's records, each once, ordered by service
   * date and then creation time, both descending: most recent service first.
   */
  lemma RecordsOfAssetExact(records: seq<RecordRow>, assetId: int)
    ensures forall r :: r in RecordsOfAsset(records, assetId) <==> r in records && r.assetId == assetId
    ensures SortedBy(RecordsOfAsset(records, assetId), RecencyKey)
    ensures multiset(RecordsOfAsset(records, assetId)) == multiset(Filter(records, (r: RecordRow) => r.assetId == assetId))
    ensures forall i, j :: 0 <= i < j < |RecordsOfAsset(records, assetId)| ==>
      !Before(RecordsOfAsset(records, assetId)[i].serviceDate, RecordsOfAsset(records, assetId)[j].serviceDate)
  {
    var f := Filter(records, (r: RecordRow) => r.assetId == assetId);
    var s := RecordsOfAsset(records, assetId);
    forall r ensures r in s <==> r in records && r.assetId == assetId {
      calc {
        r in s;
        r in multiset(s);
        r in multiset(f);
        r in f;
      }
      if r in records && r.assetId == assetId {
        var i :| 0 <= i < |records| && records[i] == r;
      }
    }
    forall i, j | 0 <= i < j < |s| ensures !Before(s[i].serviceDate, s[j].serviceDate) {
      RecencyNotBefore(s[i], s[j]);
    }
  }

  lemma RecencyNotBefore(x: RecordRow, y: RecordRow)
    requires KeyLe(RecencyKey(x), RecencyKey(y))
    ensures !Before(x.serviceDate, y.serviceDate)
  {
    var kx, ky := RecencyKey(x), RecencyKey(y);
    if x.serviceDate.year == y.serviceDate.year {
      assert KeyLe(kx[1..], ky[1..]);
      if x.serviceDate.month == y.serviceDate.month {
        assert kx[1..][1..] == kx[2..] && ky[1..][1..] == ky[2..];
        assert KeyLe(kx[2..], ky[2..]);
      }
    }
  }

  // ---------------------------------------------------------------- users

  /** `UserRepository.create`: INSERT name, email, password_hash; email is UNIQUE. */
  function InsertUser(d: Db, name: string, email: string, hash: string): (s: Step<Result<UserRow>>)
    ensures s.out.Ok? <==> d.userSeq <= MaxInt4 && forall u | u in d.users :: u.email != email
    ensures s.out.Ok? ==> s.db.users == d.users + [s.out.value]
    ensures s.out.Ok? ==> s.out.value.name == name && s.out.value.email == email && s.out.value.passwordHash == hash
    ensures s.out.Ok? && Consistent(d) ==> s.out.value.id !in UserIds(d.users)
    ensures s.out.Err? ==> s.out.error == (if d.userSeq > MaxInt4 then UsersSeqExhausted else DuplicateEmail) && s.db.users == d.users
    ensures d.userSeq > MaxInt4 ==> s.db == d
    ensures s.db.assets == d.assets && s.db.records == d.records
    ensures Consistent(d) ==> Consistent(s.db)
  {
    var id := d.userSeq;
    if id > MaxInt4 then Step(d, Err(UsersSeqExhausted))
    else if UserByEmail(d.users, email).Some? then
      Step(d.(userSeq := id + 1), Err(DuplicateEmail))
    else
      var now := d.clock + 1;
      var row := UserRow(id, name, email, hash, now, now);
      var d' := d.(users := d.users + [row], userSeq := id + 1, clock := now);
      if Consistent(d) then
        assert UserIds(d'.users) == UserIds(d.users) + {id};
        forall u | u in d'.users ensures UserStamped(u, now, id + 1) {
          if u != row { assert u in d.users; }
        }
        Step(d', Ok(row))
      else Step(d', Ok(row))
  }

  /** The columns a `Partial<User>` may carry; the `id` key is present in `id` and is never written. */
  datatype UserPatch = UserPatch(id: Option<int>, name: Option<string>, email: Option<string>, passwordHash: Option<string>)

  /** The row after `SET <supplied columns>, updated_at = NOW()`. */
  function PatchUser(u: UserRow, p: UserPatch, now: nat): (r: UserRow)
    ensures r.id == u.id && r.createdAt == u.createdAt && r.updatedAt == now
    ensures p.name.None? ==> r.name == u.name
    ensures p.email.None? ==> r.email == u.email
    ensures p.passwordHash.None? ==> r.passwordHash == u.passwordHash
    ensures p.name.Some? ==> r.name == p.name.value
    ensures p.email.Some? ==> r.email == p.email.value
    ensures p.passwordHash.Some? ==> r.passwordHash == p.passwordHash.value
  {
    u.(name := if p.name.Some? then p.name.value else u.name,
       email := if p.email.Some? then p.email.value else u.email,
       passwordHash := if p.passwordHash.Some? then p.passwordHash.value else u.passwordHash,
       updatedAt := now)
  }

  function PatchUsers(users: seq<UserRow>, id: int, p: UserPatch, now: nat): (r: seq<UserRow>)
    ensures |r| == |users|
    ensures forall i :: 0 <= i < |users| ==> r[i] == if users[i].id == id then PatchUser(users[i], p, now) else users[i]
  {
    seq(|users|, i requires 0 <= i < |users| => if users[i].id == id then PatchUser(users[i], p, now) else users[i])
  }

  /**
   * `UserRepository.update`: the `id` key is dropped; with nothing else left it answers null
   * without writing; otherwise it updates the row with that id, unless the new email
   * belongs to another user, which the UNIQUE constraint refuses.
   */
  function UpdateUser(d: Db, id: int, p: UserPatch): (s: Step<Result<Option<UserRow>>>)
    ensures p.name.None? && p.email.None? && p.passwordHash.None? ==> s == Step(d, Ok(None))
    ensures s.out.Ok? && s.out.value.None? ==> s.db.users == d.users
    ensures s.out.Ok? && s.out.value.Some? ==>
      id in UserIds(d.users) && s.out.value.value in s.db.users && s.out.value.value.id == id
    ensures s.out.Err? ==> s.out.error == DuplicateEmail && s.db == d
    ensures forall i :: 0 <= i < |d.users| && d.users[i].id != id ==> |s.db.users| == |d.users| && s.db.users[i] == d.users[i]
    ensures s.db.assets == d.assets && s.db.records == d.records
    ensures Consistent(d) ==> Consistent(s.db)
  {
    if p.name.None? && p.email.None? && p.passwordHash.None? then Step(d, Ok(None))
    else
      var target := UserById(d.users, id);
      if target.None? then Step(d.(clock := d.clock + 1), Ok(None))
      else if p.email.Some? && exists u | u in d.users :: u.id != id && u.email == p.email.value then
        Step(d, Err(DuplicateEmail))
      else
        var now := d.clock + 1;
        var row := PatchUser(target.value, p, now);
        var users' := PatchUsers(d.users, id, p, now);
        var d' := d.(users := users', clock := now);
        var k :| 0 <= k < |d.users| && d.users[k] == target.value;
        assert users'[k] == row;
        if Consistent(d) then
          UpdateUserConsistent(d, id, p, target.value, now);
          Step(d', Ok(Some(row)))
        else Step(d', Ok(Some(row)))
  }

  lemma UpdateUserConsistent(d: Db, id: int, p: UserPatch, target: UserRow, now: nat)
    requires Consistent(d) && target in d.users && target.id == id && now == d.clock + 1
    requires p.email.Some? ==> forall u | u in d.users :: u.id != id ==> u.email != p.email.value
    ensures Consistent(d.(users := PatchUsers(d.users, id, p, now), clock := now))
  {
    var users' := PatchUsers(d.users, id, p, now);
    PatchUsersKeepsIds(d.users, id, p, now);
    forall i, j | 0 <= i < j < |users'| ensures users'[i].email != users'[j].email {
      assert d.users[i] in d.users && d.users[j] in d.users;
    }
    forall u | u in users' ensures UserStamped(u, now, d.userSeq) {
      var i :| 0 <= i < |users'| && users'[i] == u;
      assert d.users[i] in d.users;
    }
  }

  /** Patching keeps the set of user ids. */
  lemma PatchUsersKeepsIds(users: seq<UserRow>, id: int, p: UserPatch, now: nat)
    ensures UserIds(PatchUsers(users, id, p, now)) == UserIds(users)
  {
    var users' := PatchUsers(users, id, p, now);
    forall x ensures x in UserIds(users') <==> x in UserIds(users) {
      if x in UserIds(users') {
        var u :| u in users' && u.id == x;
        var i :| 0 <= i < |users'| && users'[i] == u;
        assert users[i].id == x;
      }
      if x in UserIds(users) {
        var u :| u in users && u.id == x;
        var i :| 0 <= i < |users| && users[i] == u;
        assert users'[i].id == x;
      }
    }
  }

  /** `UserRepository.delete`; ON DELETE CASCADE removes the user's assets and, through them, their records. */
  function DeleteUser(d: Db, id: int): (s: Step<bool>)
    ensures s.out <==> id in UserIds(d.users)
    ensures forall u :: u in s.db.users <==> u in d.users && u.id != id
    ensures forall a :: a in s.db.assets <==> a in d.assets && a.userId != id
    ensures forall r | r in d.records && Consistent(d) ::
      r in s.db.records <==> exists a | a in d.assets :: a.id == r.assetId && a.userId != id
    ensures Consistent(d) ==> Consistent(s.db)
  {
    var gone := set a | a in d.assets && a.userId == id :: a.id;
    var users' := Filter(d.users, (u: UserRow) => u.id != id);
    var assets' := Filter(d.assets, (a: AssetRow) => a.userId != id);
    var records' := Filter(d.records, (r: RecordRow) => r.assetId !in gone);
    var d' := d.(users := users', assets := assets', records := records');
    DeleteUserFacts(d, id, gone, d');
    Step(d', id in UserIds(d.users))
  }

  lemma DeleteUserFacts(d: Db, id: int, gone: set<int>, d': Db)
    requires gone == set a | a in d.assets && a.userId == id :: a.id
    requires d' == d.(users := Filter(d.users, (u: UserRow) => u.id != id),
                      assets := Filter(d.assets, (a: AssetRow) => a.userId != id),
                      records := Filter(d.records, (r: RecordRow) => r.assetId !in gone))
    ensures forall u :: u in d'.users <==> u in d.users && u.id != id
    ensures forall a :: a in d'.assets <==> a in d.assets && a.userId != id
    ensures forall r | r in d.records && Consistent(d) ::
      r in d'.records <==> exists a | a in d.assets :: a.id == r.assetId && a.userId != id
    ensures Consistent(d) ==> Consistent(d')
  {
    DeleteUserMembers(d, id, gone, d');
    if Consistent(d) {
      GoneIffOwned(d, id, gone);
      DeleteUserConsistent(d, id, gone, d');
    }
  }

  /** What the three filters of `deleteUser` keep. */
  lemma DeleteUserMembers(d: Db, id: int, gone: set<int>, d': Db)
    requires d' == d.(users := Filter(d.users, (u: UserRow) => u.id != id),
                      assets := Filter(d.assets, (a: AssetRow) => a.userId != id),
                      records := Filter(d.records, (r: RecordRow) => r.assetId !in gone))
    ensures forall u :: u in d'.users <==> u in d.users && u.id != id
    ensures forall a :: a in d'.assets <==> a in d.assets && a.userId != id
    ensures forall r | r in d.records :: r in d'.records <==> r.assetId !in gone
  {
    forall u ensures u in d'.users <==> u in d.users && u.id != id {
      if u in d.users && u.id != id { var i :| 0 <= i < |d.users| && d.users[i] == u; }
    }
    forall a ensures a in d'.assets <==> a in d.assets && a.userId != id {
      if a in d.assets && a.userId != id { var i :| 0 <= i < |d.assets| && d.assets[i] == a; }
    }
    forall r | r in d.records ensures r in d'.records <==> r.assetId !in gone {
      var i :| 0 <= i < |d.records| && d.records[i] == r;
    }
  }

  /** With asset ids unique, a record's asset is among the user's exactly when it is not someone else's. */
  lemma GoneIffOwned(d: Db, id: int, gone: set<int>)
    requires Consistent(d)
    requires gone == set a | a in d.assets && a.userId == id :: a.id
    ensures forall r | r in d.records ::
      r.assetId !in gone <==> exists a | a in d.assets :: a.id == r.assetId && a.userId != id
  {
    forall r | r in d.records
      ensures r.assetId !in gone <==> exists a | a in d.assets :: a.id == r.assetId && a.userId != id
    {
      var a :| a in d.assets && a.id == r.assetId;
      if r.assetId in gone {
        var b :| b in d.assets && b.userId == id && b.id == r.assetId;
        forall c | c in d.assets && c.id == r.assetId ensures c.userId == id {
          var i :| 0 <= i < |d.assets| && d.assets[i] == c;
          var j :| 0 <= j < |d.assets| && d.assets[j] == b;
          assert i == j;
        }
      }
    }
  }

  /** `deleteUser` keeps the database consistent: no asset or record is left without its owner. */
  lemma DeleteUserConsistent(d: Db, id: int, gone: set<int>, d': Db)
    requires Consistent(d)
    requires gone == set a | a in d.assets && a.userId == id :: a.id
    requires d' == d.(users := Filter(d.users, (u: UserRow) => u.id != id),
                      assets := Filter(d.assets, (a: AssetRow) => a.userId != id),
                      records := Filter(d.records, (r: RecordRow) => r.assetId !in gone))
    ensures Consistent(d')
  {
    DeleteUserMembers(d, id, gone, d');
    GoneIffOwned(d, id, gone);
    forall a | a in d'.assets ensures a.userId in UserIds(d'.users) {
      var u :| u in d.users && u.id == a.userId;
      assert u in d'.users;
    }
    forall r | r in d'.records ensures r.assetId in AssetIds(d'.assets) {
      var a :| a in d.assets && a.id == r.assetId && a.userId != id;
      assert a in d'.assets;
    }
    FilterDistinct(d.users, (u: UserRow) => u.id != id, (u: UserRow) => u.id);
    FilterDistinct(d.users, (u: UserRow) => u.id != id, (u: UserRow) => u.email);
    FilterDistinct(d.assets, (a: AssetRow) => a.userId != id, (a: AssetRow) => a.id);
    FilterDistinct(d.records, (r: RecordRow) => r.assetId !in gone, (r: RecordRow) => r.id);
  }

  // ---------------------------------------------------------------- assets

  /** `AssetRepository.create`: INSERT name, description, user_id; `fk_user` requires the user. */
  function InsertAsset(d: Db, userId: int, name: string, description: Option<string>): (s: Step<Result<AssetRow>>)
    ensures s.out.Ok? <==> d.assetSeq <= MaxInt4 && userId in UserIds(d.users)
    ensures s.out.Ok? ==> s.db.assets == d.assets + [s.out.value]
    ensures s.out.Ok? ==> s.out.value.userId == userId && s.out.value.name == name && s.out.value.description == description
    ensures s.out.Ok? && Consistent(d) ==> s.out.value.id !in AssetIds(d.assets)
    ensures s.out.Err? ==> s.out.error == (if d.assetSeq > MaxInt4 then AssetsSeqExhausted else AssetUserMissing) && s.db.assets == d.assets
    ensures d.assetSeq > MaxInt4 ==> s.db == d
    ensures s.db.users == d.users && s.db.records == d.records
    ensures Consistent(d) ==> Consistent(s.db)
  {
    var id := d.assetSeq;
    if id > MaxInt4 then Step(d, Err(AssetsSeqExhausted))
    else if userId !in UserIds(d.users) then
      Step(d.(assetSeq := id + 1), Err(AssetUserMissing))
    else
      var now := d.clock + 1;
      var row := AssetRow(id, userId, name, description, now, now);
      var d' := d.(assets := d.assets + [row], assetSeq := id + 1, clock := now);
      if Consistent(d) then
        assert AssetIds(d'.assets) == AssetIds(d.assets) + {id};
        forall a | a in d'.assets ensures AssetStamped(a, now, id + 1) {
          if a != row { assert a in d.assets; }
        }
        forall u | u in d'.users ensures UserStamped(u, now, d.userSeq) { }
        Step(d', Ok(row))
      else Step(d', Ok(row))
  }

  /** The keys of an `UpdateAssetRequest` body: each left out, `null`, or a value. */
  datatype AssetPatch = AssetPatch(name: Field<string>, description: Field<string>)

  predicate NoAssetKeys(p: AssetPatch) { p.name.Absent? && p.description.Absent? }

  /** The row after `SET <supplied columns>, updated_at = NOW()`; `name` is never NULL here. */
  function PatchAsset(a: AssetRow, p: AssetPatch, now: nat): (r: AssetRow)
    requires !p.name.Null?
    ensures r.id == a.id && r.userId == a.userId && r.createdAt == a.createdAt && r.updatedAt == now
    ensures r.name == (if p.name.Given? then p.name.value else a.name)
    ensures p.description.Absent? ==> r.description == a.description
    ensures p.description.Null? ==> r.description == None
    ensures p.description.Given? ==> r.description == Some(p.description.value)
  {
    a.(name := if p.name.Given? then p.name.value else a.name,
       description := match p.description
         case Absent => a.description
         case Null => None
         case Given(v) => Some(v),
       updatedAt := now)
  }

  function PatchAssets(assets: seq<AssetRow>, id: int, userId: int, p: AssetPatch, now: nat): (r: seq<AssetRow>)
    requires !p.name.Null?
    ensures |r| == |assets|
    ensures forall i :: 0 <= i < |assets| ==>
      r[i] == if assets[i].id == id && assets[i].userId == userId then PatchAsset(assets[i], p, now) else assets[i]
  {
    seq(|assets|, i requires 0 <= i < |assets| =>
      if assets[i].id == id && assets[i].userId == userId then PatchAsset(assets[i], p, now) else assets[i])
  }

  /**
   * `AssetRepository.update`: with no keys it is `findById(id, userId)`; otherwise it
   * updates the row matching both id and user_id, if any, where a `null` name is refused
   * by NOT NULL.
   */
  function UpdateAsset(d: Db, id: int, userId: int, p: AssetPatch): (s: Step<Result<Option<AssetRow>>>)
    ensures NoAssetKeys(p) ==> s == Step(d, Ok(OwnedAsset(d.assets, id, userId)))
    ensures s.out.Ok? && s.out.value.None? ==> s.db.assets == d.assets && OwnedAsset(d.assets, id, userId).None?
    ensures s.out.Ok? && s.out.value.Some? ==>
      (s.out.value.value in s.db.assets && s.out.value.value.id == id && s.out.value.value.userId == userId)
    ensures s.out.Err? ==> s.out.error == AssetNameNull && s.db == d && p.name.Null?
    ensures !NoAssetKeys(p) && !p.name.Null? && OwnedAsset(d.assets, id, userId).Some? ==>
      s.out == Ok(Some(PatchAsset(OwnedAsset(d.assets, id, userId).value, p, s.db.clock)))
    ensures |s.db.assets| == |d.assets|
    ensures !NoAssetKeys(p) && !p.name.Null? ==> forall i :: 0 <= i < |d.assets| && d.assets[i].id == id && d.assets[i].userId == userId ==>
      s.db.assets[i] == PatchAsset(d.assets[i], p, s.db.clock)
    ensures forall i :: 0 <= i < |d.assets| && !(d.assets[i].id == id && d.assets[i].userId == userId) ==>
      s.db.assets[i] == d.assets[i]
    ensures s.db.users == d.users && s.db.records == d.records
    ensures Consistent(d) ==> Consistent(s.db)
  {
    var target := OwnedAsset(d.assets, id, userId);
    if NoAssetKeys(p) then Step(d, Ok(target))
    else if target.None? then Step(d.(clock := d.clock + 1), Ok(None))
    else if p.name.Null? then Step(d, Err(AssetNameNull))
    else
      var now := d.clock + 1;
      var assets' := PatchAssets(d.assets, id, userId, p, now);
      var d' := d.(assets := assets', clock := now);
      var k :| 0 <= k < |d.assets| && d.assets[k] == target.value;
      assert assets'[k] == PatchAsset(target.value, p, now);
      if Consistent(d) then
        UpdateAssetConsistent(d, id, userId, p, now);
        Step(d', Ok(Some(assets'[k])))
      else Step(d', Ok(Some(assets'[k])))
  }

  lemma UpdateAssetConsistent(d: Db, id: int, userId: int, p: AssetPatch, now: nat)
    requires Consistent(d) && !p.name.Null? && now == d.clock + 1
    ensures Consistent(d.(assets := PatchAssets(d.assets, id, userId, p, now), clock := now))
  {
    var assets' := PatchAssets(d.assets, id, userId, p, now);
    PatchAssetsKeepsIds(d.assets, id, userId, p, now);
    forall a | a in assets' ensures AssetStamped(a, now, d.assetSeq) && a.userId in UserIds(d.users) {
      var i :| 0 <= i < |assets'| && assets'[i] == a;
      assert d.assets[i] in d.assets;
    }
    forall u | u in d.users ensures UserStamped(u, now, d.userSeq) { }
    forall r | r in d.records ensures RecordStamped(r, now, d.recordSeq) { }
  }

  /** Patching keeps the set of asset ids. */
  lemma PatchAssetsKeepsIds(assets: seq<AssetRow>, id: int, userId: int, p: AssetPatch, now: nat)
    requires !p.name.Null?
    ensures AssetIds(PatchAssets(assets, id, userId, p, now)) == AssetIds(assets)
  {
    var assets' := PatchAssets(assets, id, userId, p, now);
    forall x ensures x in AssetIds(assets') <==> x in AssetIds(assets) {
      if x in AssetIds(assets') {
        var a :| a in assets' && a.id == x;
        var i :| 0 <= i < |assets'| && assets'[i] == a;
        assert assets[i].id == x;
      }
      if x in AssetIds(assets) {
        var a :| a in assets && a.id == x;
        var i :| 0 <= i < |assets| && assets[i] == a;
        assert assets'[i].id == x;
      }
    }
  }

  /** `AssetRepository.delete`; ON DELETE CASCADE removes the asset's records with it. */
  function DeleteAsset(d: Db, id: int, userId: int): (s: Step<bool>)
    ensures s.out <==> OwnedAsset(d.assets, id, userId).Some?
    ensures forall a :: a in s.db.assets <==> a in d.assets && !(a.id == id && a.userId == userId)
    ensures forall r :: r in s.db.records <==> r in d.records && !(s.out && r.assetId == id)
    ensures s.db.users == d.users
    ensures Consistent(d) ==> Consistent(s.db)
  {
    var deleted := OwnedAsset(d.assets, id, userId).Some?;
    var assets' := Filter(d.assets, (a: AssetRow) => !(a.id == id && a.userId == userId));
    var records' := if deleted then Filter(d.records, (r: RecordRow) => r.assetId != id) else d.records;
    var d' := d.(assets := assets', records := records');
    DeleteAssetFacts(d, id, userId, deleted, d');
    Step(d', deleted)
  }

  lemma DeleteAssetFacts(d: Db, id: int, userId: int, deleted: bool, d': Db)
    requires deleted == OwnedAsset(d.assets, id, userId).Some?
    requires d' == d.(assets := Filter(d.assets, (a: AssetRow) => !(a.id == id && a.userId == userId)),
                      records := if deleted then Filter(d.records, (r: RecordRow) => r.assetId != id) else d.records)
    ensures forall a :: a in d'.assets <==> a in d.assets && !(a.id == id && a.userId == userId)
    ensures forall r :: r in d'.records <==> r in d.records && !(deleted && r.assetId == id)
    ensures Consistent(d) ==> Consistent(d')
  {
    forall a ensures a in d'.assets <==> a in d.assets && !(a.id == id && a.userId == userId) {
      if a in d.assets && !(a.id == id && a.userId == userId) { var i :| 0 <= i < |d.assets| && d.assets[i] == a; }
    }
    forall r ensures r in d'.records <==> r in d.records && !(deleted && r.assetId == id) {
      if r in d.records && deleted && r.assetId != id { var i :| 0 <= i < |d.records| && d.records[i] == r; }
    }
    if Consistent(d) {
      forall r | r in d'.records ensures r.assetId in AssetIds(d'.assets) {
        var a :| a in d.assets && a.id == r.assetId;
        assert !(a.id == id && a.userId == userId) by {
          if deleted { assert r.assetId != id; }
        }
        assert a in d'.assets;
      }
      FilterDistinct(d.assets, (a: AssetRow) => !(a.id == id && a.userId == userId), (a: AssetRow) => a.id);
      if deleted {
        FilterDistinct(d.records, (r: RecordRow) => r.assetId != id, (r: RecordRow) => r.id);
      }
    }
  }

  // ---------------------------------------------------------------- maintenance records

  /** The columns `MaintenanceRecordRepository.create` inserts; absent optional fields become NULL. */
  datatype NewRecord = NewRecord(
    assetId: int,
    serviceType: string,
    serviceDate: Date,
    description: Option<string>,
    cost: Option<Cost>,
    performedBy: Option<string>,
    nextDate: Option<Date>,
    nextNotes: Option<string>)

  /** The row a `NewRecord` becomes, with its id and timestamps. */
  function RowOf(n: NewRecord, id: int, now: nat): (r: RecordRow)
    ensures r.id == id && r.assetId == n.assetId && r.createdAt == now && r.updatedAt == now
  {
    RecordRow(id, n.assetId, n.serviceType, n.serviceDate, n.description, n.cost, n.performedBy,
              n.nextDate, n.nextNotes, now, now)
  }

  predicate DatesValid(n: NewRecord) {
    Valid(n.serviceDate) && (n.nextDate.Some? ==> Valid(n.nextDate.value))
  }

  /** `MaintenanceRecordRepository.create`: one row with the supplied fields; `fk_asset` requires the asset. */
  function InsertRecord(d: Db, n: NewRecord): (s: Step<Result<RecordRow>>)
    ensures s.out.Ok? <==> d.recordSeq <= MaxInt4 && n.assetId in AssetIds(d.assets)
    ensures s.out.Ok? ==> s.db.records == d.records + [s.out.value]
    ensures s.out.Ok? ==> s.out.value == RowOf(n, s.out.value.id, s.db.clock)
    ensures s.out.Ok? && Consistent(d) ==> forall r | r in d.records :: r.id != s.out.value.id
    ensures s.out.Err? ==> s.out.error == (if d.recordSeq > MaxInt4 then RecordsSeqExhausted else RecordAssetMissing) && s.db.records == d.records
    ensures d.recordSeq > MaxInt4 ==> s.db == d
    ensures s.db.users == d.users && s.db.assets == d.assets
    ensures Consistent(d) && DatesValid(n) ==> Consistent(s.db)
  {
    var id := d.recordSeq;
    if id > MaxInt4 then Step(d, Err(RecordsSeqExhausted))
    else if n.assetId !in AssetIds(d.assets) then
      Step(d.(recordSeq := id + 1), Err(RecordAssetMissing))
    else
      var now := d.clock + 1;
      var row := RowOf(n, id, now);
      var d' := d.(records := d.records + [row], recordSeq := id + 1, clock := now);
      if Consistent(d) && DatesValid(n) then
        forall r | r in d'.records ensures RecordStamped(r, now, id + 1) {
          if r != row { assert r in d.records; }
        }
        forall u | u in d'.users ensures UserStamped(u, now, d.userSeq) { }
        forall a | a in d'.assets ensures AssetStamped(a, now, d.assetSeq) { }
        Step(d', Ok(row))
      else Step(d', Ok(row))
  }

  /**
   * The columns `MaintenanceRecordRepository.update` may set: each present or not; the
   * nullable ones may also be set to NULL.
   */
  datatype RecordPatch = RecordPatch(
    serviceType: Option<string>,
    serviceDate: Option<Date>,
    description: Field<string>,
    cost: Field<Cost>,
    performedBy: Field<string>,
    nextDate: Field<Date>,
    nextNotes: Field<string>)

  predicate NoRecordFields(p: RecordPatch) {
    p.serviceType.None? && p.serviceDate.None? && p.description.Absent? && p.cost.Absent?
    && p.performedBy.Absent? && p.nextDate.Absent? && p.nextNotes.Absent?
  }

  /** A nullable column after `SET col = $k` for a supplied key, or untouched. */
  function Assign<T>(old_: Option<T>, f: Field<T>): (r: Option<T>)
    ensures f.Absent? ==> r == old_
    ensures f.Null? ==> r.None?
    ensures f.Given? ==> r == Some(f.value)
  {
    match f
    case Absent => old_
    case Null => None
    case Given(v) => Some(v)
  }

  /** The row after `SET <supplied columns>, updated_at = NOW()`. */
  function PatchRecord(r: RecordRow, p: RecordPatch, now: nat): (x: RecordRow)
    ensures x.id == r.id && x.assetId == r.assetId && x.createdAt == r.createdAt && x.updatedAt == now
    ensures x.serviceType == (if p.serviceType.Some? then p.serviceType.value else r.serviceType)
    ensures x.serviceDate == (if p.serviceDate.Some? then p.serviceDate.value else r.serviceDate)
    ensures x.description == Assign(r.description, p.description)
    ensures x.cost == Assign(r.cost, p.cost)
    ensures x.performedBy == Assign(r.performedBy, p.performedBy)
    ensures x.nextDate == Assign(r.nextDate, p.nextDate)
    ensures x.nextNotes == Assign(r.nextNotes, p.nextNotes)
  {
    r.(serviceType := if p.serviceType.Some? then p.serviceType.value else r.serviceType,
       serviceDate := if p.serviceDate.Some? then p.serviceDate.value else r.serviceDate,
       description := Assign(r.description, p.description),
       cost := Assign(r.cost, p.cost),
       performedBy := Assign(r.performedBy, p.performedBy),
       nextDate := Assign(r.nextDate, p.nextDate),
       nextNotes := Assign(r.nextNotes, p.nextNotes),
       updatedAt := now)
  }

  function PatchRecords(records: seq<RecordRow>, id: int, p: RecordPatch, now: nat): (r: seq<RecordRow>)
    ensures |r| == |records|
    ensures forall i :: 0 <= i < |records| ==> r[i] == if records[i].id == id then PatchRecord(records[i], p, now) else records[i]
  {
    seq(|records|, i requires 0 <= i < |records| => if records[i].id == id then PatchRecord(records[i], p, now) else records[i])
  }

  predicate PatchDatesValid(p: RecordPatch) {
    (p.serviceDate.Some? ==> Valid(p.serviceDate.value)) && (p.nextDate.Given? ==> Valid(p.nextDate.value))
  }

  /**
   * `MaintenanceRecordRepository.update`: with no supplied field it is `findById(id)` and
   * writes nothing; otherwise it updates the row with that id, or answers null.
   */
  function UpdateRecord(d: Db, id: int, p: RecordPatch): (s: Step<Option<RecordRow>>)
    ensures NoRecordFields(p) ==> s == Step(d, RecordById(d.records, id))
    ensures s.out.None? ==> s.db.records == d.records && RecordById(d.records, id).None?
    ensures s.out.Some? ==> s.out.value in s.db.records && s.out.value.id == id
    ensures !NoRecordFields(p) && s.out.Some? ==>
      RecordById(d.records, id).Some? && s.out.value == PatchRecord(RecordById(d.records, id).value, p, s.db.clock)
    ensures |s.db.records| == |d.records|
    ensures forall i :: 0 <= i < |d.records| && d.records[i].id != id ==> s.db.records[i] == d.records[i]
    ensures !NoRecordFields(p) ==>
      forall i :: 0 <= i < |d.records| && d.records[i].id == id ==> s.db.records[i] == PatchRecord(d.records[i], p, s.db.clock)
    ensures s.db.users == d.users && s.db.assets == d.assets
    ensures Consistent(d) && PatchDatesValid(p) ==> Consistent(s.db)
  {
    var target := RecordById(d.records, id);
    if NoRecordFields(p) then Step(d, target)
    else if target.None? then Step(d.(clock := d.clock + 1), None)
    else
      var now := d.clock + 1;
      var records' := PatchRecords(d.records, id, p, now);
      var d' := d.(records := records', clock := now);
      var k :| 0 <= k < |d.records| && d.records[k] == target.value;
      assert records'[k] == PatchRecord(target.value, p, now);
      if Consistent(d) && PatchDatesValid(p) then
        UpdateRecordConsistent(d, id, p, now);
        Step(d', Some(records'[k]))
      else Step(d', Some(records'[k]))
  }

  lemma UpdateRecordConsistent(d: Db, id: int, p: RecordPatch, now: nat)
    requires Consistent(d) && PatchDatesValid(p) && now == d.clock + 1
    ensures Consistent(d.(records := PatchRecords(d.records, id, p, now), clock := now))
  {
    var records' := PatchRecords(d.records, id, p, now);
    forall r | r in records' ensures RecordStamped(r, now, d.recordSeq) && r.assetId in AssetIds(d.assets) {
      var i :| 0 <= i < |records'| && records'[i] == r;
      assert d.records[i] in d.records;
    }
    forall u | u in d.users ensures UserStamped(u, now, d.userSeq) { }
    forall a | a in d.assets ensures AssetStamped(a, now, d.assetSeq) { }
  }

  /** With primary keys unique, looking up a stored record's id finds that record. */
  lemma {:induction false} RecordByIdOfMember(records: seq<RecordRow>, x: RecordRow)
    requires Distinct(records, (r: RecordRow) => r.id) && x in records
    ensures RecordById(records, x.id) == Some(x)
  {
    if records[0] != x {
      var k :| 0 <= k < |records| && records[k] == x;
      assert records[0].id != records[k].id;
      assert records[1..][k - 1] == x;
      DistinctTail(records, (r: RecordRow) => r.id);
      RecordByIdOfMember(records[1..], x);
    }
  }

  /** `MaintenanceRecordRepository.delete`: true iff a row with that id existed; it is gone afterwards. */
  function DeleteRecord(d: Db, id: int): (s: Step<bool>)
    ensures s.out <==> RecordById(d.records, id).Some?
    ensures forall r :: r in s.db.records <==> r in d.records && r.id != id
    ensures s.db.users == d.users && s.db.assets == d.assets
    ensures Consistent(d) ==> Consistent(s.db)
  {
    var records' := Filter(d.records, (r: RecordRow) => r.id != id);
    forall r ensures r in records' <==> r in d.records && r.id != id {
      if r in d.records && r.id != id { var i :| 0 <= i < |d.records| && d.records[i] == r; }
    }
    if Consistent(d) then
      FilterDistinct(d.records, (r: RecordRow) => r.id != id, (r: RecordRow) => r.id);
      Step(d.(records := records'), RecordById(d.records, id).Some?)
    else Step(d.(records := records'), RecordById(d.records, id).Some?)
  }
}
