/**
 * The upcoming-maintenance panel, as the query `findUpcomingMaintenancesByUserId`
 * executes it: join each record with its asset, keep the caller's, rank the records of
 * each (asset_id, service_type) group by service_date descending, keep the first-ranked
 * ones that have a next maintenance date, and order those by that date ascending.
 */
module Panel {
  import opened Wrappers
  import opened Dates
  import opened Sequences
  import opened Tables

  /** A row of the query: the record's columns plus `asset_name`. */
  datatype PanelRow = PanelRow(record: RecordRow, assetName: string)

  /** The first asset with that id (there is at most one: `id` is the primary key). */
  function AssetById(assets: seq<AssetRow>, id: int): (r: Option<AssetRow>)
    ensures r.Some? ==> r.value in assets && r.value.id == id
    ensures r.None? ==> id !in AssetIds(assets)
  {
    if assets == [] then None
    else if assets[0].id == id then Some(assets[0])
    else
      assert assets == [assets[0]] + assets[1..];
      assert AssetIds(assets) == {assets[0].id} + AssetIds(assets[1..]);
      AssetById(assets[1..], id)
  }

  /** The record's asset belongs to `userId`. */
  predicate OwnedBy(assets: seq<AssetRow>, r: RecordRow, userId: int) {
    AssetById(assets, r.assetId).Some? && AssetById(assets, r.assetId).value.userId == userId
  }

  /** The joined row of an owned record: the record with its asset's name. */
  function JoinRow(assets: seq<AssetRow>, r: RecordRow): PanelRow
    requires AssetById(assets, r.assetId).Some?
  {
    PanelRow(r, AssetById(assets, r.assetId).value.name)
  }

  /** `maintenance_records mr JOIN assets a ON mr.asset_id = a.id WHERE a.user_id = $1`, in table order. */
  function Joined(records: seq<RecordRow>, assets: seq<AssetRow>, userId: int): (r: seq<PanelRow>)
    ensures forall p | p in r :: p.record in records && OwnedBy(assets, p.record, userId) && p == JoinRow(assets, p.record)
    ensures forall x | x in records && OwnedBy(assets, x, userId) :: JoinRow(assets, x) in r
    ensures |r| <= |records|
  {
    if records == [] then []
    else
      var rest := Joined(records[1..], assets, userId);
      var x := records[0];
      assert records == [x] + records[1..];
      if OwnedBy(assets, x, userId) then [JoinRow(assets, x)] + rest else rest
  }

  /** Same `PARTITION BY mr.asset_id, mr.service_type` group. */
  predicate SameGroup(x: RecordRow, y: RecordRow) {
    x.assetId == y.assetId && x.serviceType == y.serviceType
  }

  function GroupKey(p: PanelRow): (int, string) { (p.record.assetId, p.record.serviceType) }

  /**
   * Row `i` gets `rn = 1`: no row of its group has a later service date. Among rows that
   * tie on the latest date the database picks one; this model picks the first in table order.
   */
  predicate RankedFirst(rows: seq<PanelRow>, i: int)
    requires 0 <= i < |rows|
  {
    forall j | 0 <= j < |rows| && SameGroup(rows[j].record, rows[i].record) ::
      (j < i ==> Before(rows[j].record.serviceDate, rows[i].record.serviceDate))
      && (i < j ==> !Before(rows[i].record.serviceDate, rows[j].record.serviceDate))
  }

  /** The rows with `rn = 1`, from index `k` on. */
  function RankedFrom(rows: seq<PanelRow>, k: nat): (r: seq<PanelRow>)
    requires k <= |rows|
    ensures forall p | p in r :: exists i | k <= i < |rows| :: rows[i] == p && RankedFirst(rows, i)
    ensures forall i | k <= i < |rows| && RankedFirst(rows, i) :: rows[i] in r
    decreases |rows| - k
  {
    if k == |rows| then []
    else if RankedFirst(rows, k) then [rows[k]] + RankedFrom(rows, k + 1)
    else RankedFrom(rows, k + 1)
  }

  /** At most one row of each group is ranked first. */
  lemma RankedFirstUnique(rows: seq<PanelRow>, i: int, j: int)
    requires 0 <= i < |rows| && 0 <= j < |rows| && RankedFirst(rows, i) && RankedFirst(rows, j) && i != j
    ensures !SameGroup(rows[i].record, rows[j].record)
  {
  }

  lemma {:induction false} RankedFromDistinct(rows: seq<PanelRow>, k: nat)
    requires k <= |rows|
    ensures Distinct(RankedFrom(rows, k), GroupKey)
    decreases |rows| - k
  {
    if k < |rows| {
      RankedFromDistinct(rows, k + 1);
      if RankedFirst(rows, k) {
        var rest := RankedFrom(rows, k + 1);
        var r := [rows[k]] + rest;
        forall i, j | 0 <= i < j < |r| ensures GroupKey(r[i]) != GroupKey(r[j]) {
          assert r[j] == rest[j - 1];
          if i == 0 {
            assert r[j] in rest;
            var m :| k + 1 <= m < |rows| && rows[m] == r[j] && RankedFirst(rows, m);
            RankedFirstUnique(rows, k, m);
          } else {
            assert r[i] == rest[i - 1];
          }
        }
      }
    }
  }

  /** The sort key of `ORDER BY next_maintenance_date ASC`. */
  function NextKey(p: PanelRow): seq<int> {
    match p.record.nextDate
    case Some(n) => [n.year, n.month, n.day]
    case None => []
  }

  predicate HasNext(p: PanelRow) { p.record.nextDate.Some? }

  /** `findUpcomingMaintenancesByUserId(userId)` over the tables of `d`. */
  function Upcoming(d: Db, userId: int): seq<PanelRow> {
    var ranked := RankedFrom(Joined(d.records, d.assets, userId), 0);
    SortBy(Filter(ranked, HasNext), NextKey)
  }

  lemma UpcomingMembers(d: Db, userId: int)
    ensures forall p :: p in Upcoming(d, userId) <==>
      p in RankedFrom(Joined(d.records, d.assets, userId), 0) && HasNext(p)
  {
    var ranked := RankedFrom(Joined(d.records, d.assets, userId), 0);
    var f := Filter(ranked, HasNext);
    forall p ensures p in Upcoming(d, userId) <==> p in ranked && HasNext(p) {
      calc {
        p in Upcoming(d, userId);
        p in multiset(Upcoming(d, userId));
        p in multiset(f);
        p in f;
      }
      if p in ranked && HasNext(p) {
        var i :| 0 <= i < |ranked| && ranked[i] == p;
      }
    }
  }

  /** Every panel row is a record of the caller, joined with its asset's name, that has a next date. */
  lemma UpcomingRowsOwned(d: Db, userId: int)
    ensures forall p | p in Upcoming(d, userId) ::
      && p.record in d.records
      && OwnedBy(d.assets, p.record, userId)
      && p == JoinRow(d.assets, p.record)
      && p.record.nextDate.Some?
  {
    UpcomingMembers(d, userId);
  }

  /** A row ranked first was serviced no earlier than any row of its group. */
  lemma RankedFirstIsLatest(rows: seq<PanelRow>, i: int, j: int)
    requires 0 <= i < |rows| && 0 <= j < |rows| && RankedFirst(rows, i)
    requires SameGroup(rows[j].record, rows[i].record)
    ensures !Before(rows[i].record.serviceDate, rows[j].record.serviceDate)
  {
  }

  /**
   * No record of the caller in the same group as a panel row was serviced later: a group
   * whose latest record has no next date never shows an older record instead.
   */
  lemma UpcomingRowsAreLatest(d: Db, userId: int, p: PanelRow, x: RecordRow)
    requires p in Upcoming(d, userId)
    requires x in d.records && OwnedBy(d.assets, x, userId) && SameGroup(x, p.record)
    ensures !Before(p.record.serviceDate, x.serviceDate)
  {
    var joined := Joined(d.records, d.assets, userId);
    UpcomingMembers(d, userId);
    var i :| 0 <= i < |joined| && joined[i] == p && RankedFirst(joined, i);
    assert JoinRow(d.assets, x) in joined;
    var j :| 0 <= j < |joined| && joined[j] == JoinRow(d.assets, x);
    RankedFirstIsLatest(joined, i, j);
  }

  /** Each (asset, service type) group appears at most once. */
  lemma UpcomingOncePerGroup(d: Db, userId: int)
    ensures Distinct(Upcoming(d, userId), GroupKey)
  {
    var ranked := RankedFrom(Joined(d.records, d.assets, userId), 0);
    RankedFromDistinct(Joined(d.records, d.assets, userId), 0);
    FilterDistinct(ranked, HasNext, GroupKey);
    PermutationDistinct(Filter(ranked, HasNext), Upcoming(d, userId), GroupKey);
  }

  /** The panel is ordered by next maintenance date, earliest first. */
  lemma UpcomingSorted(d: Db, userId: int)
    ensures forall i, j | 0 <= i < j < |Upcoming(d, userId)| ::
      Upcoming(d, userId)[i].record.nextDate.Some? && Upcoming(d, userId)[j].record.nextDate.Some?
      && !Before(Upcoming(d, userId)[j].record.nextDate.value, Upcoming(d, userId)[i].record.nextDate.value)
  {
    var u := Upcoming(d, userId);
    UpcomingMembers(d, userId);
    forall i, j | 0 <= i < j < |u|
      ensures u[i].record.nextDate.Some? && u[j].record.nextDate.Some?
        && !Before(u[j].record.nextDate.value, u[i].record.nextDate.value)
    {
      assert u[i] in u && u[j] in u;
      NextKeyNotBefore(u[i], u[j]);
    }
  }

  lemma NextKeyNotBefore(p: PanelRow, q: PanelRow)
    requires HasNext(p) && HasNext(q) && KeyLe(NextKey(p), NextKey(q))
    ensures !Before(q.record.nextDate.value, p.record.nextDate.value)
  {
    var kp, kq := NextKey(p), NextKey(q);
    if p.record.nextDate.value.year == q.record.nextDate.value.year {
      assert KeyLe(kp[1..], kq[1..]);
      if p.record.nextDate.value.month == q.record.nextDate.value.month {
        assert kp[1..][1..] == kp[2..] && kq[1..][1..] == kq[2..];
        assert KeyLe(kp[2..], kq[2..]);
      }
    }
  }

  /**
   * A record of the caller that was serviced strictly after every other record of its
   * group, and that names a next maintenance date, is on the panel.
   */
  lemma UpcomingIncludesLatest(d: Db, userId: int, x: RecordRow)
    requires Consistent(d)
    requires x in d.records && OwnedBy(d.assets, x, userId) && x.nextDate.Some?
    requires forall y | y in d.records && OwnedBy(d.assets, y, userId) && SameGroup(y, x) && y != x ::
      Before(y.serviceDate, x.serviceDate)
    ensures JoinRow(d.assets, x) in Upcoming(d, userId)
  {
    var joined := Joined(d.records, d.assets, userId);
    var p := JoinRow(d.assets, x);
    var i :| 0 <= i < |joined| && joined[i] == p;
    LatestRankedFirst(d, userId, x, i);
    UpcomingMembers(d, userId);
    assert p in Upcoming(d, userId);
  }

  /** The joined row of a record serviced after every other record of its group gets `rn = 1`. */
  lemma LatestRankedFirst(d: Db, userId: int, x: RecordRow, i: int)
    requires Consistent(d)
    requires x in d.records && OwnedBy(d.assets, x, userId)
    requires forall y | y in d.records && OwnedBy(d.assets, y, userId) && SameGroup(y, x) && y != x ::
      Before(y.serviceDate, x.serviceDate)
    requires 0 <= i < |Joined(d.records, d.assets, userId)| && Joined(d.records, d.assets, userId)[i] == JoinRow(d.assets, x)
    ensures RankedFirst(Joined(d.records, d.assets, userId), i)
  {
    var joined := Joined(d.records, d.assets, userId);
    assert Distinct(d.records, RecordKey);
    JoinedDistinctIds(d.records, d.assets, userId);
    forall j | 0 <= j < |joined| && SameGroup(joined[j].record, joined[i].record)
      ensures (j < i ==> Before(joined[j].record.serviceDate, joined[i].record.serviceDate))
        && (i < j ==> !Before(joined[i].record.serviceDate, joined[j].record.serviceDate))
    {
      assert joined[j] in joined;
      if j != i {
        assert joined[j].record.id != joined[i].record.id;
      }
    }
  }

  function RecordKey(r: RecordRow): int { r.id }

  function PanelKey(p: PanelRow): int { p.record.id }

  /** The joined rows come from distinct records when the records have distinct ids. */
  lemma {:induction false} JoinedDistinctIds(records: seq<RecordRow>, assets: seq<AssetRow>, userId: int)
    requires Distinct(records, RecordKey)
    ensures Distinct(Joined(records, assets, userId), PanelKey)
  {
    if records != [] {
      var x := records[0];
      var tail := records[1..];
      DistinctTail(records, RecordKey);
      JoinedDistinctIds(tail, assets, userId);
      if OwnedBy(assets, x, userId) {
        JoinedConsDistinct(records, assets, userId);
      }
    }
  }

  lemma JoinedConsDistinct(records: seq<RecordRow>, assets: seq<AssetRow>, userId: int)
    requires records != [] && OwnedBy(assets, records[0], userId)
    requires Distinct(records, RecordKey)
    requires Distinct(Joined(records[1..], assets, userId), PanelKey)
    ensures Distinct(Joined(records, assets, userId), PanelKey)
  {
    var rest := Joined(records[1..], assets, userId);
    JoinedTailIds(records, assets, userId);
    DistinctCons(JoinRow(assets, records[0]), rest, PanelKey);
    assert Joined(records, assets, userId) == [JoinRow(assets, records[0])] + rest;
  }

  /** No joined row of the tail comes from a record with the head's id. */
  lemma JoinedTailIds(records: seq<RecordRow>, assets: seq<AssetRow>, userId: int)
    requires records != [] && Distinct(records, RecordKey)
    ensures forall p | p in Joined(records[1..], assets, userId) :: PanelKey(p) != records[0].id
  {
    var tail := records[1..];
    forall p | p in Joined(tail, assets, userId) ensures PanelKey(p) != records[0].id {
      var m :| 0 <= m < |tail| && tail[m] == p.record;
      assert records[m + 1] == p.record;
    }
  }
}
