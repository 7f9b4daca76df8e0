/** The retention sweep: what each ceiling removes, and what survives all of them. */
module Retention {
  import opened Model
  import opened Tables
  import opened Ranks

  const MS_PER_DAY: int := 24 * 60 * 60 * 1000
  const LOG_SOURCE_KEY_TTL_MS: int := 24 * 60 * 60 * 1000

  /** The storage ceilings, already clamped to their supported ranges. */
  datatype Policy = Policy(days: nat, perGroup: nat, total: nat, bytesTotal: nat, bytesPerRecord: nat)

  function SaturatingSub(a: Ms, b: int): Ms
    requires b >= 0
  {
    if a - b < I64_MIN then I64_MIN else a - b
  }

  function Minus(a: nat, b: nat): nat { if a >= b then a - b else 0 }

  // ---------------------------------------------------------------- removing and evicting

  /** The payload files of the given rows. */
  function PathsOf(records: Records, ids: set<nat>): set<string> {
    set id | id in ids && id in records && records[id].path.Some? :: records[id].path.value
  }

  /** Takes the bytes of the given rows off their groups; the total never goes below zero. */
  ghost function Discharge(records: Records, groups: Groups, ids: set<nat>): Groups {
    map g | g in groups ::
      groups[g].(payloadBytes := Minus(groups[g].payloadBytes, SumBytes(records, Members(records, g) * ids)))
  }

  ghost function RemoveAll(db: Db, ids: set<nat>): Db {
    db.(records := db.records - ids,
        groups := Discharge(db.records, db.groups, ids),
        files := db.files - PathsOf(db.records, ids))
  }

  function EvictedRow(row: Row): Row { row.(path := None, bytes := 0, state := Evicted) }

  function EvictRows(records: Records, ids: set<nat>): Records {
    map id | id in records :: if id in ids then EvictedRow(records[id]) else records[id]
  }

  ghost function EvictAll(db: Db, ids: set<nat>): Db {
    db.(records := EvictRows(db.records, ids),
        groups := Discharge(db.records, db.groups, ids),
        files := db.files - PathsOf(db.records, ids))
  }

  /** What a group is discharged never exceeds what it holds, so the clamp at zero never acts. */
  lemma DischargeExact(db: Db, exact: bool, g: string, ids: set<nat>)
    requires Aggregates(db, exact) && g in db.groups
    ensures SumBytes(db.records, Members(db.records, g) * ids) <= db.groups[g].payloadBytes
    ensures SumBytes(db.records, Members(db.records, g))
            == SumBytes(db.records, Members(db.records, g) * ids) + SumBytes(db.records, Members(db.records, g) - ids)
  {
    var ms := Members(db.records, g);
    SumSubset(db.records, ms * ids, ms);
    assert ms - ms * ids == ms - ids;
  }

  lemma RemovedHonest(db: Db, exact: bool, g: string, ids: set<nat>)
    requires Aggregates(db, exact) && g in db.groups
    ensures GroupHonest(db.records - ids, g, Discharge(db.records, db.groups, ids)[g], exact)
  {
    var ms, rows := Members(db.records, g), db.records - ids;
    assert Members(rows, g) == ms - ids;
    DischargeExact(db, exact, g, ids);
    SumFrame(db.records, rows, ms - ids);
    SubsetSize(ms - ids, ms);
  }

  lemma RemoveAggregates(db: Db, exact: bool, ids: set<nat>)
    requires Aggregates(db, exact)
    ensures Aggregates(RemoveAll(db, ids), exact)
  {
    var db' := RemoveAll(db, ids);
    forall g | g in db'.groups
      ensures GroupHonest(db'.records, g, db'.groups[g], exact)
    {
      RemovedHonest(db, exact, g, ids);
    }
  }

  /** Unlinking the files of some rows leaves the files of all others. */
  lemma OthersKeepFiles(db: Db, ids: set<nat>, id: nat)
    requires Payloads(db) && IdsBehind(db) && id in db.records && id !in ids && db.records[id].path.Some?
    ensures db.records[id].path.value in db.files - PathsOf(db.records, ids)
  {
    assert RowPayload(db, id);
    if db.records[id].path.value in PathsOf(db.records, ids) {
      var j :| j in ids && j in db.records && db.records[j].path.Some? && db.records[j].path.value == db.records[id].path.value;
      assert RowPayload(db, j);
      RelativePathInjective(id, j);
    }
  }

  lemma RemovePayloads(db: Db, ids: set<nat>)
    requires Payloads(db) && IdsBehind(db)
    ensures Payloads(RemoveAll(db, ids)) && IdsBehind(RemoveAll(db, ids))
  {
    var db' := RemoveAll(db, ids);
    forall id | id in db'.records
      ensures RowPayload(db', id)
    {
      assert RowPayload(db, id);
      if db.records[id].path.Some? {
        OthersKeepFiles(db, ids, id);
      }
    }
  }

  /** Removing rows with their files and bytes keeps the store sound. */
  lemma RemoveSound(db: Db, exact: bool, ids: set<nat>)
    requires Sound(db, exact)
    ensures Sound(RemoveAll(db, ids), exact)
  {
    RemoveAggregates(db, exact, ids);
    RemovePayloads(db, ids);
  }

  lemma {:induction false} EvictedSum(records: Records, ids: set<nat>, s: set<nat>)
    requires s <= records.Keys
    ensures s <= EvictRows(records, ids).Keys
    ensures SumBytes(EvictRows(records, ids), s) == SumBytes(records, s - ids)
    decreases |s|
  {
    var rows := EvictRows(records, ids);
    if s == {} {
      assert s - ids == {};
    } else {
      var x :| x in s;
      EvictedSum(records, ids, s - {x});
      SumRemove(rows, s, x);
      if x in ids {
        assert s - {x} - ids == s - ids;
      } else {
        SumRemove(records, s - ids, x);
        assert s - {x} - ids == s - ids - {x};
      }
    }
  }

  lemma EvictedMembers(records: Records, ids: set<nat>, g: string)
    ensures Members(EvictRows(records, ids), g) == Members(records, g)
    ensures forall id :: id in Members(records, g) ==>
              EvictRows(records, ids)[id].happenedAtMs == records[id].happenedAtMs
  {
  }

  lemma EvictedHonest(db: Db, exact: bool, g: string, ids: set<nat>)
    requires Aggregates(db, exact) && g in db.groups
    ensures GroupHonest(EvictRows(db.records, ids), g, Discharge(db.records, db.groups, ids)[g], exact)
  {
    EvictedMembers(db.records, ids, g);
    DischargeExact(db, exact, g, ids);
    EvictedSum(db.records, ids, Members(db.records, g));
  }

  lemma EvictAggregates(db: Db, exact: bool, ids: set<nat>)
    requires Aggregates(db, exact)
    ensures Aggregates(EvictAll(db, ids), exact)
  {
    var db' := EvictAll(db, ids);
    forall g | g in db'.groups
      ensures GroupHonest(db'.records, g, db'.groups[g], exact)
    {
      EvictedHonest(db, exact, g, ids);
    }
  }

  lemma EvictPayloads(db: Db, ids: set<nat>)
    requires Payloads(db) && IdsBehind(db)
    ensures Payloads(EvictAll(db, ids)) && IdsBehind(EvictAll(db, ids))
  {
    var db' := EvictAll(db, ids);
    forall id | id in db'.records
      ensures RowPayload(db', id)
    {
      assert RowPayload(db, id);
      if id !in ids && db.records[id].path.Some? {
        OthersKeepFiles(db, ids, id);
      }
    }
  }

  /** Evicting payloads keeps the store sound. */
  lemma EvictSound(db: Db, exact: bool, ids: set<nat>)
    requires Sound(db, exact)
    ensures Sound(EvictAll(db, ids), exact)
  {
    EvictAggregates(db, exact, ids);
    EvictPayloads(db, ids);
  }

  // ---------------------------------------------------------------- what each ceiling selects

  function AgedOut(records: Records, cutoffMs: Ms): set<nat> {
    set id | id in records && records[id].happenedAtMs < cutoffMs
  }

  /** The rows of `id`'s group among `s`. */
  function Peers(records: Records, s: set<nat>, id: nat): set<nat>
    requires id in records
  {
    set j | j in s && j in records && records[j].group == records[id].group
  }

  /** `ROW_NUMBER() OVER (PARTITION BY group_id ORDER BY happened_at_ms DESC, id DESC) > keep`. */
  function GroupExcess(records: Records, keep: nat): set<nat> {
    set id | id in records && |NewerIn(records, Peers(records, records.Keys, id), id)| + 1 > keep
  }

  /** The oldest rows beyond the total. */
  function TotalExcess(records: Records, keep: nat): set<nat> {
    if |records| <= keep then {}
    else set id | id in records && |OlderIn(records, records.Keys, id)| < |records| - keep
  }

  ghost predicate EmptyBefore(db: Db, g: string, cutoffMs: Ms)
    requires g in db.groups
  {
    db.groups[g].lastSeenMs < cutoffMs && Members(db.records, g) == {}
  }

  ghost function DropEmptyGroups(db: Db, cutoffMs: Ms): Db {
    db.(groups := map g | g in db.groups && !EmptyBefore(db, g, cutoffMs) :: db.groups[g])
  }

  function WithPath(records: Records): set<nat> { set id | id in records && records[id].path.Some? }

  /** Bytes the index still references. */
  ghost function IndexedBytes(records: Records): nat { SumBytes(records, WithPath(records)) }

  function Candidates(records: Records): set<nat> {
    set id | id in records && records[id].path.Some? && records[id].state != Evicted
  }

  /** The payloads an oldest-first walk over `cands` gives up to free `over` bytes. */
  ghost function Reclaimed(records: Records, cands: set<nat>, over: nat): set<nat>
    requires cands <= records.Keys
    decreases |cands|
  {
    if over == 0 || cands == {} then {}
    else
      assert exists x :: IsOldest(records, cands, x) by {
        var x := OldestOf(records, cands);
      }
      var x :| IsOldest(records, cands, x);
      {x} + Reclaimed(records, cands - {x}, Minus(over, records[x].bytes))
  }

  ghost function EvictOver(db: Db, maxBytes: nat): Db {
    EvictAll(db, Reclaimed(db.records, Candidates(db.records), Minus(IndexedBytes(db.records), maxBytes)))
  }

  /** `LIKE 'prefix%'`, which ignores ASCII case. */
  predicate LikePrefix(s: string, prefix: string) {
    |s| >= |prefix| && forall i :: 0 <= i < |prefix| ==> LowerAscii(s[i]) == LowerAscii(prefix[i])
  }

  predicate KeyKept(key: string, atMs: Ms, nowMs: Ms, cutoffMs: Ms) {
    || LikePrefix(key, "marker:")
    || atMs >= (if LikePrefix(key, "logd:") then SaturatingSub(nowMs, LOG_SOURCE_KEY_TTL_MS) else cutoffMs)
  }

  function PruneKeys(ingested: map<string, Ms>, nowMs: Ms, cutoffMs: Ms): map<string, Ms> {
    map k | k in ingested && KeyKept(k, ingested[k], nowMs, cutoffMs) :: ingested[k]
  }

  // ---------------------------------------------------------------- the sweep

  function Cutoff(nowMs: Ms, p: Policy): Ms { SaturatingSub(nowMs, p.days * MS_PER_DAY) }

  /** The rows left after the three ceilings on rows. */
  ghost function Trimmed(db: Db, nowMs: Ms, p: Policy): Db {
    var aged := RemoveAll(db, AgedOut(db.records, Cutoff(nowMs, p)));
    var perGroup := RemoveAll(aged, GroupExcess(aged.records, p.perGroup));
    RemoveAll(perGroup, TotalExcess(perGroup.records, p.total))
  }

  ghost function Sweep(db: Db, nowMs: Ms, p: Policy): Db {
    var dropped := DropEmptyGroups(Trimmed(db, nowMs, p), Cutoff(nowMs, p));
    var evicted := EvictOver(dropped, p.bytesTotal);
    evicted.(ingested := PruneKeys(db.ingested, nowMs, Cutoff(nowMs, p)))
  }

  lemma DropSound(db: Db, exact: bool, cutoffMs: Ms)
    requires Sound(db, exact)
    ensures Sound(DropEmptyGroups(db, cutoffMs), exact)
  {
    var db' := DropEmptyGroups(db, cutoffMs);
    forall id | id in db'.records
      ensures db'.records[id].group in db'.groups && RowPayload(db', id)
    {
      assert id in Members(db.records, db.records[id].group);
      assert RowPayload(db, id);
    }
  }

  /** A sweep keeps the store sound. */
  lemma SweepSound(db: Db, exact: bool, nowMs: Ms, p: Policy)
    requires Sound(db, exact)
    ensures Sound(Sweep(db, nowMs, p), exact)
  {
    var aged := RemoveAll(db, AgedOut(db.records, Cutoff(nowMs, p)));
    var perGroup := RemoveAll(aged, GroupExcess(aged.records, p.perGroup));
    var trimmed := RemoveAll(perGroup, TotalExcess(perGroup.records, p.total));
    var dropped := DropEmptyGroups(trimmed, Cutoff(nowMs, p));
    RemoveSound(db, exact, AgedOut(db.records, Cutoff(nowMs, p)));
    RemoveSound(aged, exact, GroupExcess(aged.records, p.perGroup));
    RemoveSound(perGroup, exact, TotalExcess(perGroup.records, p.total));
    DropSound(trimmed, exact, Cutoff(nowMs, p));
    EvictSound(dropped, exact, Reclaimed(dropped.records, Candidates(dropped.records),
                                         Minus(IndexedBytes(dropped.records), p.bytesTotal)));
    SoundIgnoresKeys(EvictOver(dropped, p.bytesTotal), exact, PruneKeys(db.ingested, nowMs, Cutoff(nowMs, p)));
  }

  lemma SoundIgnoresKeys(db: Db, exact: bool, keys: map<string, Ms>)
    requires Sound(db, exact)
    ensures Sound(db.(ingested := keys), exact)
  {
    forall id | id in db.records
      ensures RowPayload(db.(ingested := keys), id)
    {
      assert RowPayload(db, id);
    }
  }
}
