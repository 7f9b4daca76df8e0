/** What inserts and folds keep true of the store. */
module WritesSound {
  import opened Model
  import opened Ids
  import opened Tables
  import opened Writes

  /** The 48-bit clock and the 80-bit sequence have room for one more id. */
  predicate IdRoom(db: Db, r: CrashRecord) {
    r.happenedAtMs < TWO_48 && !(NextStamp(db.gen, IdClock(r.happenedAtMs)) == db.gen.lastMs && db.gen.sequence == TWO_80 - 1)
  }

  /** A new id is strictly greater than every id stored, so it cannot collide with one. */
  lemma NewIdIsFresh(db: Db, r: CrashRecord)
    requires IdsBehind(db) && IdRoom(db, r)
    ensures ValidGen(NextGen(db, r)) && NewId(db, r) < TWO_128
    ensures forall id :: id in db.records ==> id < NewId(db, r)
    ensures NewId(db, r) !in db.records
  {
    NextIncreasesExactly(db.gen, IdClock(r.happenedAtMs));
  }

  /** A new id carries the time of its crash, zero if that is negative, or the latest time an id was
      taken before if that is later. */
  lemma NewIdCarriesTime(db: Db, r: CrashRecord)
    requires ValidGen(db.gen)
    ensures var clock := if r.happenedAtMs < 0 then 0 else r.happenedAtMs;
            NewId(db, r) / 0x1_0000_0000_0000_0000_0000
            == (if clock < db.gen.lastMs then db.gen.lastMs else clock) % 0x1_0000_0000_0000
  {
    IdCarriesTime(db.gen, IdClock(r.happenedAtMs));
  }

  lemma NewGroupMembers(db: Db, g: string)
    requires Aggregates(db, false) && g !in db.groups
    ensures Members(db.records, g) == {}
  {
  }

  /** One more row, one more occurrence, wider bounds, more bytes. */
  lemma GrownHonest(rows: Records, exact: bool, id: nat, row: Row, before: Group, after: Group)
    requires GroupHonest(rows, row.group, before, exact) && id !in rows
    requires after.occurrence == before.occurrence + 1 && after.payloadBytes == before.payloadBytes + row.bytes
    requires after.firstSeenMs <= before.firstSeenMs && after.firstSeenMs <= row.happenedAtMs
    requires before.lastSeenMs <= after.lastSeenMs && row.happenedAtMs <= after.lastSeenMs
    ensures GroupHonest(rows[id := row], row.group, after, exact)
  {
    var ms, grown := Members(rows, row.group), rows[id := row];
    assert Members(grown, row.group) == ms + {id};
    SumInsert(grown, ms, id);
    SumFrame(rows, grown, ms);
  }

  lemma FirstHonest(rows: Records, exact: bool, id: nat, row: Row, group: Group)
    requires Members(rows, row.group) == {} && id !in rows
    requires group.occurrence == 1 && group.payloadBytes == row.bytes
    requires group.firstSeenMs == row.happenedAtMs == group.lastSeenMs
    ensures GroupHonest(rows[id := row], row.group, group, exact)
  {
    var grown := rows[id := row];
    assert Members(grown, row.group) == {id};
    SumInsert(grown, {}, id);
    assert {} + {id} == {id};
  }

  lemma UpsertedHonest(db: Db, exact: bool, id: nat, r: CrashRecord, gid: string, w: Option<Written>)
    requires Aggregates(db, exact) && id !in db.records
    ensures var rows := db.records[id := NewRow(gid, r, gid in db.groups, w)];
            GroupHonest(rows, gid, UpsertGroup(db.groups, gid, r, BytesOf(w))[gid], exact)
  {
    var row, after := NewRow(gid, r, gid in db.groups, w), UpsertGroup(db.groups, gid, r, BytesOf(w))[gid];
    if gid in db.groups {
      GrownHonest(db.records, exact, id, row, db.groups[gid], after);
    } else {
      NewGroupMembers(db, gid);
      FirstHonest(db.records, exact, id, row, after);
    }
  }

  lemma InsertRowsLocal(db: Db, id: nat, r: CrashRecord, gid: string, w: Option<Written>, keys: seq<string>, nowMs: Ms)
    requires id !in db.records
    ensures var db' := InsertRows(db, id, r, gid, w, keys, nowMs);
            && SameOutside(db.records, db'.records, gid) && SameGroupsBut(gid, db.groups, db'.groups)
            && SameElsewhere(db, db', id)
  {
  }

  lemma InsertRowsAggregates(db: Db, exact: bool, id: nat, r: CrashRecord, gid: string, w: Option<Written>, keys: seq<string>, nowMs: Ms)
    requires Aggregates(db, exact) && id !in db.records
    ensures Aggregates(InsertRows(db, id, r, gid, w, keys, nowMs), exact)
  {
    UpsertedHonest(db, exact, id, r, gid, w);
    InsertRowsLocal(db, id, r, gid, w, keys, nowMs);
    OneGroupChanged(db, InsertRows(db, id, r, gid, w, keys, nowMs), gid, exact);
  }

  lemma WriteFiles(db: Db, id: nat, r: CrashRecord, cap: nat, fate: Fate)
    ensures var w := WritePayload(db.files, id, r.payload, cap, fate);
            && (forall p :: p != RelativePath(id) ==> (p in w.0 <==> p in db.files))
            && (w.1.Ok? ==> forall p :: p != RelativePath(id) ==> (p in CleanUp(w.0, w.1.value, fate) <==> p in db.files))
            && (w.1.Ok? && w.1.value.Some? ==>
                  var f := w.1.value.value;
                  f.path == RelativePath(id) && f.path in w.0 && Readable(f.state))
  {
  }

  lemma InsertRowsPayloads(db: Db, id: nat, r: CrashRecord, gid: string, w: Option<Written>, keys: seq<string>, nowMs: Ms)
    requires Payloads(db) && IdsBehind(db) && id !in db.records && id <= GenValue(db.gen) && id < TWO_128
    requires w.Some? ==> w.value.path == RelativePath(id) && w.value.path in db.files && Readable(w.value.state)
    ensures Payloads(InsertRows(db, id, r, gid, w, keys, nowMs))
    ensures IdsBehind(InsertRows(db, id, r, gid, w, keys, nowMs))
  {
    InsertRowsLocal(db, id, r, gid, w, keys, nowMs);
    OneRowChanged(db, InsertRows(db, id, r, gid, w, keys, nowMs), id);
  }

  lemma InsertCommitSound(db: Db, exact: bool, id: nat, r: CrashRecord, gid: string, w: Option<Written>, keys: seq<string>, nowMs: Ms)
    requires Sound(db, exact) && id !in db.records && id <= GenValue(db.gen) && id < TWO_128
    requires w.Some? ==> w.value.path == RelativePath(id) && w.value.path in db.files && Readable(w.value.state)
    ensures Sound(InsertRows(db, id, r, gid, w, keys, nowMs), exact)
  {
    InsertRowsAggregates(db, exact, id, r, gid, w, keys, nowMs);
    InsertRowsPayloads(db, id, r, gid, w, keys, nowMs);
  }

  /** An insert, successful or not, keeps the store sound. */
  lemma InsertSound(db: Db, exact: bool, r: CrashRecord, gid: string, cap: nat, keys: seq<string>, nowMs: Ms, fate: Fate)
    requires Sound(db, exact) && IdRoom(db, r)
    ensures Sound(InsertWithSources(db, r, gid, cap, keys, nowMs, fate).0, exact)
  {
    NewIdIsFresh(db, r);
    var id := NewId(db, r);
    WriteFiles(db, id, r, cap, fate);
    var write := WritePayload(db.files, id, r.payload, cap, fate);
    var db1 := db.(gen := NextGen(db, r), files := write.0);
    OneRowChanged(db, db1, id);
    if write.1.Ok? {
      OneRowChanged(db, db1.(files := CleanUp(write.0, write.1.value, fate)), id);
      if fate.commits {
        InsertCommitSound(db1, exact, id, r, gid, write.1.value, keys, nowMs);
      }
    }
  }

  lemma FoldMembers(db: Db, id: nat, row: Row, g: string)
    requires id in db.records && row.group == db.records[id].group
    ensures Members(db.records[id := row], g) == Members(db.records, g)
  {
  }

  lemma FoldedHonest(db: Db, exact: bool, id: nat, row: Row, added: nat)
    requires Aggregates(db, exact) && id in db.records
    requires row.group == db.records[id].group && row.happenedAtMs == db.records[id].happenedAtMs
    requires row.bytes == db.records[id].bytes + added
    ensures var g := row.group;
            GroupHonest(db.records[id := row], g, db.groups[g].(payloadBytes := db.groups[g].payloadBytes + added), exact)
  {
    FoldMembers(db, id, row, row.group);
    SumUpdate(db.records, Members(db.records, row.group), id, row);
  }

  lemma FoldRowsLocal(db: Db, id: nat, r: CrashRecord, w: Option<Written>, keys: seq<string>, nowMs: Ms)
    requires id in db.records && db.records[id].group in db.groups
    ensures var db', g := FoldRows(db, id, r, w, keys, nowMs), db.records[id].group;
            && SameOutside(db.records, db'.records, g) && SameGroupsBut(g, db.groups, db'.groups)
            && SameElsewhere(db, db', id)
            && g in db'.groups
            && db'.groups[g] == db.groups[g].(payloadBytes := db.groups[g].payloadBytes + BytesOf(w))
  {
  }

  lemma FoldRowsAggregates(db: Db, exact: bool, id: nat, r: CrashRecord, w: Option<Written>, keys: seq<string>, nowMs: Ms)
    requires Aggregates(db, exact) && id in db.records && (w.Some? ==> db.records[id].bytes == 0)
    ensures Aggregates(FoldRows(db, id, r, w, keys, nowMs), exact)
  {
    FoldRowsLocal(db, id, r, w, keys, nowMs);
    FoldedHonest(db, exact, id, FoldedRow(db.records[id], r, w), BytesOf(w));
    OneGroupChanged(db, FoldRows(db, id, r, w, keys, nowMs), db.records[id].group, exact);
  }

  /** What a fold attempts to write for the record it found. */
  function FoldWrite(db: Db, id: nat, r: CrashRecord, cap: nat, fate: Fate): (map<string, seq<byte>>, Result<Option<Written>>)
    requires id in db.records
  {
    if db.records[id].state == Absent then WritePayload(db.files, id, r.payload, cap, fate) else (db.files, Ok(None))
  }

  lemma FoldWriteSound(db: Db, exact: bool, id: nat, r: CrashRecord, cap: nat, fate: Fate)
    requires Sound(db, exact) && id in db.records
    ensures Sound(db.(files := FoldWrite(db, id, r, cap, fate).0), exact)
    ensures var w := FoldWrite(db, id, r, cap, fate);
            w.1.Ok? ==> Sound(db.(files := CleanUp(w.0, w.1.value, fate)), exact)
  {
    assert RowPayload(db, id);
    WriteFiles(db, id, r, cap, fate);
    var w := FoldWrite(db, id, r, cap, fate);
    if db.records[id].state == Absent {
      OneRowChanged(db, db.(files := w.0), id);
      if w.1.Ok? {
        OneRowChanged(db, db.(files := CleanUp(w.0, w.1.value, fate)), id);
      }
    }
  }

  lemma FoldRowsPayloads(db: Db, id: nat, r: CrashRecord, w: Option<Written>, keys: seq<string>, nowMs: Ms)
    requires Payloads(db) && IdsBehind(db) && id in db.records && db.records[id].group in db.groups
    requires w.Some? ==> w.value.path == RelativePath(id) && w.value.path in db.files && Readable(w.value.state)
    ensures Payloads(FoldRows(db, id, r, w, keys, nowMs)) && IdsBehind(FoldRows(db, id, r, w, keys, nowMs))
  {
    assert RowPayload(db, id);
    FoldRowsLocal(db, id, r, w, keys, nowMs);
    OneRowChanged(db, FoldRows(db, id, r, w, keys, nowMs), id);
  }

  lemma FoldCommitSound(db: Db, exact: bool, id: nat, r: CrashRecord, w: Option<Written>, keys: seq<string>, nowMs: Ms)
    requires Sound(db, exact) && id in db.records
    requires w.Some? ==> db.records[id].path.None? && w.value.path == RelativePath(id)
                         && w.value.path in db.files && Readable(w.value.state)
    ensures Sound(FoldRows(db, id, r, w, keys, nowMs), exact)
  {
    assert RowPayload(db, id);
    FoldRowsAggregates(db, exact, id, r, w, keys, nowMs);
    FoldRowsPayloads(db, id, r, w, keys, nowMs);
  }

  /** A fold, successful or not, keeps the store sound. */
  lemma FoldSound(db: Db, exact: bool, id: nat, r: CrashRecord, cap: nat, keys: seq<string>, nowMs: Ms, fate: Fate)
    requires Sound(db, exact)
    ensures Sound(FoldInto(db, id, r, cap, keys, nowMs, fate).0, exact)
  {
    if id in db.records {
      var w := FoldWrite(db, id, r, cap, fate);
      FoldWriteSound(db, exact, id, r, cap, fate);
      WriteFiles(db, id, r, cap, fate);
      assert RowPayload(db, id);
      if w.1.Ok? && fate.commits {
        FoldCommitSound(db.(files := w.0), exact, id, r, w.1.value, keys, nowMs);
      }
    }
  }
}
