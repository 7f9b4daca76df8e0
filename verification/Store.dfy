/** The store as the daemon holds it: the tables, files and generator behind its methods. */
module Store {
  import opened Model
  import opened TextOrder
  import opened Ids
  import opened Tables
  import opened Chunks
  import opened Writes
  import opened Ranks
  import opened Retention
  import opened RetentionSpec
  import opened Lifecycle

  // ---------------------------------------------------------------- one row at a time

  function Uncharge(groups: Groups, g: string, bytes: nat): Groups {
    if g in groups then groups[g := groups[g].(payloadBytes := Minus(groups[g].payloadBytes, bytes))] else groups
  }

  lemma DischargedBytes(records: Records, done: set<nat>, x: nat, g: string)
    requires x in records && x !in done
    ensures SumBytes(records, Members(records, g) * (done + {x}))
            == SumBytes(records, Members(records, g) * done) + (if g == records[x].group then records[x].bytes else 0)
  {
    var ms := Members(records, g);
    if g == records[x].group {
      SumInsert(records, ms * done, x);
      assert ms * (done + {x}) == ms * done + {x};
    } else {
      assert ms * (done + {x}) == ms * done;
    }
  }

  lemma DischargeStepAt(records: Records, groups: Groups, done: set<nat>, x: nat, g: string)
    requires x in records && x !in done && g in groups
    ensures Discharge(records, groups, done + {x})[g]
            == Uncharge(Discharge(records, groups, done), records[x].group, records[x].bytes)[g]
  {
    DischargedBytes(records, done, x, g);
  }

  /** Discharging one more row is one more `UPDATE`. */
  lemma DischargeStep(records: Records, groups: Groups, done: set<nat>, x: nat)
    requires x in records && x !in done
    ensures Discharge(records, groups, done + {x})
            == Uncharge(Discharge(records, groups, done), records[x].group, records[x].bytes)
  {
    var next := Discharge(records, groups, done + {x});
    var step := Uncharge(Discharge(records, groups, done), records[x].group, records[x].bytes);
    assert next.Keys == groups.Keys == step.Keys;
    forall g | g in groups
      ensures next[g] == step[g]
    {
      DischargeStepAt(records, groups, done, x, g);
    }
  }

  lemma PathsStep(records: Records, files: map<string, seq<byte>>, done: set<nat>, x: nat)
    requires x in records && x !in done
    ensures files - PathsOf(records, done + {x})
            == if records[x].path.Some? then files - PathsOf(records, done) - {records[x].path.value}
               else files - PathsOf(records, done)
  {
    assert PathsOf(records, done + {x}) == PathsOf(records, done) + PathsOf(records, {x});
    assert PathsOf(records, {x}) == if records[x].path.Some? then {records[x].path.value} else {};
  }

  function EvictOneDb(db: Db, id: nat): Db
    requires id in db.records
  {
    var row := db.records[id];
    db.(records := db.records[id := EvictedRow(row)],
        groups := Uncharge(db.groups, row.group, row.bytes),
        files := if row.path.Some? then db.files - {row.path.value} else db.files)
  }

  /** Evicting one more payload is one more transaction. */
  lemma EvictAllStep(db: Db, done: set<nat>, x: nat)
    requires x in db.records && x !in done
    ensures EvictAll(db, done + {x}) == EvictOneDb(EvictAll(db, done), x)
  {
    DischargeStep(db.records, db.groups, done, x);
    PathsStep(db.records, db.files, done, x);
    assert EvictRows(db.records, done + {x}) == EvictRows(db.records, done)[x := EvictedRow(db.records[x])];
  }

  lemma ReclaimOneMore(records: Records, cands: set<nat>, over: nat, done: set<nat>, id: nat, gone: set<nat>)
    requires cands <= records.Keys && done <= records.Keys && done !! cands && over > 0
    requires IsOldest(records, cands, id) && gone == done + Reclaimed(records, cands, over)
    ensures gone == (done + {id}) + Reclaimed(records, cands - {id}, Minus(over, records[id].bytes))
    ensures SumBytes(records, done + {id}) == SumBytes(records, done) + records[id].bytes
    ensures |done + {id}| == |done| + 1
  {
    ReclaimedStep(records, cands, over, id);
    SumInsert(records, done, id);
  }

  /** Between evictions: `done` is evicted, and what remains to be taken comes from `cands`. */
  ghost predicate Evicting(rows: Records, cands: set<nat>, over: nat, done: set<nat>, gone: set<nat>) {
    cands <= rows.Keys && done <= rows.Keys && done !! cands && gone == done + Reclaimed(rows, cands, over)
  }

  lemma EvictingStep(rows: Records, cands: set<nat>, over: nat, done: set<nat>, gone: set<nat>, id: nat)
    requires Evicting(rows, cands, over, done, gone) && over > 0 && IsOldest(rows, cands, id)
    ensures Evicting(rows, cands - {id}, Minus(over, rows[id].bytes), done + {id}, gone)
    ensures SumBytes(rows, done + {id}) == SumBytes(rows, done) + rows[id].bytes
    ensures |done + {id}| == |done| + 1
  {
    ReclaimOneMore(rows, cands, over, done, id, gone);
  }

  lemma EvictingDone(rows: Records, cands: set<nat>, over: nat, done: set<nat>, gone: set<nat>)
    requires Evicting(rows, cands, over, done, gone) && (over == 0 || cands == {})
    ensures gone == done
  {
  }

  lemma MarkStep(ingested: map<string, Ms>, keys: seq<string>, i: nat, nowMs: Ms)
    requires i < |keys|
    ensures MarkAll(ingested, keys[..i + 1], nowMs)
            == if keys[i] in MarkAll(ingested, keys[..i], nowMs) then MarkAll(ingested, keys[..i], nowMs)
               else MarkAll(ingested, keys[..i], nowMs)[keys[i] := nowMs]
  {
    assert keys[..i + 1] == keys[..i] + [keys[i]];
  }

  /** What one sweep reclaimed. */
  datatype SweepOutcome = SweepOutcome(
    removedRecords: nat,
    removedGroups: nat,
    evictedPayloads: nat,
    reclaimedBytes: nat,
    removedSourceKeys: nat)

  lemma FewerKeys<K, V>(part: map<K, V>, all: map<K, V>)
    requires part.Keys <= all.Keys
    ensures |part| <= |all|
  {
    SubsetSize(part.Keys, all.Keys);
    assert |part| == |part.Keys| && |all| == |all.Keys|;
  }

  lemma DischargeCount(rows: Records, groups: Groups, ids: set<nat>)
    ensures |Discharge(rows, groups, ids)| == |groups|
  {
    var after := Discharge(rows, groups, ids);
    assert after.Keys == groups.Keys && |after| == |after.Keys| && |groups| == |groups.Keys|;
  }

  /** The ceilings on rows remove no group. */
  lemma TrimmedGroupCount(db: Db, nowMs: Ms, p: Policy)
    ensures |Trimmed(db, nowMs, p).groups| == |db.groups|
  {
    var first := AgedOut(db.records, Cutoff(nowMs, p));
    var aged := RemoveAll(db, first);
    var second := GroupExcess(aged.records, p.perGroup);
    var perGroup := RemoveAll(aged, second);
    DischargeCount(db.records, db.groups, first);
    DischargeCount(aged.records, aged.groups, second);
    DischargeCount(perGroup.records, perGroup.groups, TotalExcess(perGroup.records, p.total));
  }

  /** Eviction does not change how many rows there are. */
  lemma EvictCounts(rows: Records, gone: set<nat>)
    ensures |EvictRows(rows, gone)| == |rows|
  {
    var evicted := EvictRows(rows, gone);
    assert evicted.Keys == rows.Keys && |evicted| == |evicted.Keys| && |rows| == |rows.Keys|;
  }

  /** Freeing `over` bytes from `before` led to `after`, and the counts are exact. */
  ghost predicate Freed(before: Db, after: Db, over: nat, evicted: nat, reclaimed: nat) {
    var gone := Reclaimed(before.records, Candidates(before.records), over);
    && after == EvictAll(before, gone)
    && gone <= before.records.Keys && evicted == |gone| && reclaimed == SumBytes(before.records, gone)
  }

  lemma NothingFreed(db: Db)
    ensures Freed(db, db, 0, 0, 0)
  {
    RemoveNothing(db);
  }

  lemma SweepAssembled(start: Db, trimmed: Db, after: Db, nowMs: Ms, p: Policy, evicted: nat, reclaimed: nat)
    requires trimmed == Trimmed(start, nowMs, p)
    requires Freed(DropEmptyGroups(trimmed, Cutoff(nowMs, p)), after, Minus(IndexedBytes(trimmed.records), p.bytesTotal),
                   evicted, reclaimed)
    ensures after.ingested == start.ingested
    ensures Sweep(start, nowMs, p) == after.(ingested := PruneKeys(start.ingested, nowMs, Cutoff(nowMs, p)))
    ensures var gone := SweptPayloads(start, nowMs, p);
            gone <= trimmed.records.Keys && evicted == |gone| && reclaimed == SumBytes(trimmed.records, gone)
  {
  }

  lemma EvictOverCounts(db: Db, maxBytes: nat)
    ensures |EvictOver(db, maxBytes).records| == |db.records| && |EvictOver(db, maxBytes).groups| == |db.groups|
  {
    var gone := Reclaimed(db.records, Candidates(db.records), Minus(IndexedBytes(db.records), maxBytes));
    EvictCounts(db.records, gone);
    DischargeCount(db.records, db.groups, gone);
  }

  class CrashStore {
    var records: Records
    var groups: Groups
    var ingested: map<string, Ms>
    var files: map<string, seq<byte>>
    var gen: Gen

    ghost function Abs(): Db
      reads this
    {
      Db(records, groups, ingested, files, gen)
    }

    constructor ()
      ensures Abs() == EmptyDb()
    {
      records, groups, ingested, files, gen := map[], map[], map[], map[], Gen(0, 0);
    }

    // -------------------------------------------------------------- writing

    method MarkKeys(keys: seq<string>, nowMs: Ms)
      modifies `ingested
      ensures ingested == MarkAll(old(ingested), keys, nowMs)
    {
      var i := 0;
      assert MarkAll(ingested, keys[..0], nowMs) == ingested;
      while i < |keys|
        invariant 0 <= i <= |keys|
        invariant ingested == MarkAll(old(ingested), keys[..i], nowMs)
      {
        MarkStep(old(ingested), keys, i, nowMs);
        if keys[i] !in ingested {
          ingested := ingested[keys[i] := nowMs];
        }
        i := i + 1;
      }
      assert keys[..i] == keys;
    }

    method WriteFile(id: nat, source: PayloadSource, cap: nat, fate: Fate) returns (r: Result<Option<Written>>)
      modifies `files
      ensures (files, r) == WritePayload(old(files), id, source, cap, fate)
    {
      var raw := RawPayload(source, fate.disk);
      if raw.Err? {
        return Err;
      }
      if raw.value == [] {
        return Ok(None);
      }
      var path := RelativePath(id);
      if fate.writeFails {
        if fate.leftover.Some? {
          files := files[path := fate.leftover.value];
        }
        return Err;
      }
      var state := if |raw.value| > cap then Truncated else Present;
      var text := Truncate(raw.value, cap);
      files := files[path := text];
      r := Ok(Some(Written(path, fate.storedBytes, state)));
    }

    method InsertRecord(r: CrashRecord, gid: string, cap: nat, keys: seq<string>, nowMs: Ms, fate: Fate)
      returns (result: Result<nat>)
      modifies this
      ensures (Abs(), result) == InsertWithSources(old(Abs()), r, gid, cap, keys, nowMs, fate)
    {
      gen := Next(gen, IdClock(r.happenedAtMs));
      var id := GenValue(gen);
      var write := WriteFile(id, r.payload, cap, fate);
      if write.Err? {
        return Err;
      }
      var written := write.value;
      if !fate.commits || id in records {
        files := CleanUp(files, written, fate);
        return Err;
      }
      var repeating := gid in groups;
      groups := UpsertGroup(groups, gid, r, BytesOf(written));
      records := records[id := NewRow(gid, r, repeating, written)];
      MarkKeys(keys, nowMs);
      result := Ok(id);
    }

    method FoldIntoRecord(id: nat, r: CrashRecord, cap: nat, keys: seq<string>, nowMs: Ms, fate: Fate)
      returns (result: Result<nat>)
      modifies this
      ensures (Abs(), result) == FoldInto(old(Abs()), id, r, cap, keys, nowMs, fate)
    {
      if id !in records {
        return Err;
      }
      var adopted := None;
      if records[id].state == Absent {
        var write := WriteFile(id, r.payload, cap, fate);
        if write.Err? {
          return Err;
        }
        adopted := write.value;
      }
      if !fate.commits {
        files := CleanUp(files, adopted, fate);
        return Err;
      }
      if adopted.Some? {
        groups := Charge(groups, records[id].group, adopted.value.bytes);
      }
      records := records[id := FoldedRow(records[id], r, adopted)];
      MarkKeys(keys, nowMs);
      result := Ok(id);
    }

    // -------------------------------------------------------------- retention

    method UnlinkFiles(ids: set<nat>)
      requires ids <= records.Keys
      modifies `files
      ensures files == old(files) - PathsOf(records, ids)
    {
      var todo := ids;
      assert PathsOf(records, ids - todo) == {};
      while todo != {}
        invariant todo <= ids
        invariant files == old(files) - PathsOf(records, ids - todo)
        decreases |todo|
      {
        var id :| id in todo;
        PathsStep(records, old(files), ids - todo, id);
        assert ids - (todo - {id}) == ids - todo + {id};
        if records[id].path.Some? {
          files := files - {records[id].path.value};
        }
        todo := todo - {id};
      }
      assert ids - todo == ids;
    }

    method DeleteRows(ids: set<nat>)
      requires ids <= records.Keys
      modifies `records, `groups
      ensures records == old(records) - ids
      ensures groups == Discharge(old(records), old(groups), ids)
    {
      ghost var rows, totals, done := records, groups, {};
      var todo := ids;
      RemoveNothing(old(Abs()));
      while todo != {}
        invariant done + todo == ids && done !! todo
        invariant records == rows - done
        invariant groups == Discharge(rows, totals, done)
        decreases |todo|
      {
        var id :| id in todo;
        DischargeStep(rows, totals, done, id);
        groups := Uncharge(groups, records[id].group, records[id].bytes);
        records := records - {id};
        todo := todo - {id};
        done := done + {id};
      }
    }

    /** Unlinks the files of the selected rows, then deletes the rows one by one. */
    method DeleteRecords(ids: set<nat>) returns (removed: nat)
      requires ids <= records.Keys
      modifies this
      ensures Abs() == RemoveAll(old(Abs()), ids)
      ensures removed == |ids| == |old(records)| - |records|
    {
      UnlinkFiles(ids);
      DeleteRows(ids);
      RemovedCount(old(records), ids);
      removed := |ids|;
    }

    method SumIndexed() returns (total: nat)
      ensures total == IndexedBytes(records)
    {
      var all := WithPath(records);
      var todo := all;
      total := 0;
      assert all - todo == {};
      while todo != {}
        invariant todo <= all
        invariant total == SumBytes(records, all - todo)
        decreases |todo|
      {
        var id :| id in todo;
        SumInsert(records, all - todo, id);
        assert all - (todo - {id}) == all - todo + {id};
        total := total + records[id].bytes;
        todo := todo - {id};
      }
      assert all - todo == all;
    }

    method EvictOne(id: nat)
      requires id in records
      modifies this
      ensures Abs() == EvictOneDb(old(Abs()), id)
    {
      var row := records[id];
      if row.path.Some? {
        files := files - {row.path.value};
      }
      records := records[id := EvictedRow(row)];
      groups := Uncharge(groups, row.group, row.bytes);
    }

    /** Evicts the oldest of the candidates, in a run that started at `start`. */
    method EvictNext(cands: set<nat>, ghost start: Db, ghost done: set<nat>) returns (id: nat, bytes: nat)
      requires Abs() == EvictAll(start, done) && cands != {} && cands <= start.records.Keys && cands !! done
      modifies this
      ensures IsOldest(start.records, cands, id) && bytes == start.records[id].bytes
      ensures Abs() == EvictAll(start, done + {id})
    {
      id := OldestCandidate(cands, start.records);
      bytes := records[id].bytes;
      EvictAllStep(start, done, id);
      EvictOne(id);
    }

    method OldestCandidate(cands: set<nat>, ghost rows: Records) returns (id: nat)
      requires cands != {} && cands <= rows.Keys && cands <= records.Keys
      requires forall j :: j in cands ==> records[j].happenedAtMs == rows[j].happenedAtMs
      ensures IsOldest(rows, cands, id)
    {
      ghost var oldest := OldestOf(records, cands);
      id :| id in cands && forall y :: y in cands && y != id ==> Older(records, id, y);
      forall y | y in cands && y != id
        ensures Older(rows, id, y)
      {
        assert Older(records, id, y);
      }
    }

    /** Evicts oldest first until `excess` bytes are freed or no payload is left. */
    method EvictUntilFreed(excess: nat) returns (evicted: nat, reclaimed: nat)
      modifies this
      ensures Freed(old(Abs()), Abs(), excess, evicted, reclaimed)
    {
      evicted, reclaimed := 0, 0;
      var over, cands := excess, Candidates(records);
      ghost var start, done := Abs(), {};
      ghost var gone := Reclaimed(start.records, cands, excess);
      RemoveNothing(start);
      while over > 0 && cands != {}
        invariant over >= 0 && Evicting(start.records, cands, over, done, gone)
        invariant Abs() == EvictAll(start, done)
        invariant evicted == |done| && reclaimed == SumBytes(start.records, done)
        decreases |cands|
      {
        var id, bytes := EvictNext(cands, start, done);
        EvictingStep(start.records, cands, over, done, gone, id);
        reclaimed := reclaimed + bytes;
        over := Minus(over, bytes);
        evicted := evicted + 1;
        cands := cands - {id};
        done := done + {id};
      }
      EvictingDone(start.records, cands, over, done, gone);
    }

    /** Reclaims payload files, oldest first, until the referenced bytes fit. */
    method EvictPayloadFiles(maxBytes: nat) returns (evicted: nat, reclaimed: nat)
      modifies this
      ensures Freed(old(Abs()), Abs(), Minus(IndexedBytes(old(records)), maxBytes), evicted, reclaimed)
    {
      var total := SumIndexed();
      if total <= maxBytes {
        NothingFreed(Abs());
        return 0, 0;
      }
      evicted, reclaimed := EvictUntilFreed(total - maxBytes);
    }

    method DropEmptyGroupsBefore(cutoffMs: Ms) returns (removed: nat)
      modifies `groups
      ensures Abs() == DropEmptyGroups(old(Abs()), cutoffMs)
      ensures removed == |old(groups)| - |groups|
    {
      ghost var all := groups;
      var before := |groups|;
      var used := set id | id in records :: records[id].group;
      groups := map g | g in groups && !(groups[g].lastSeenMs < cutoffMs && g !in used) :: groups[g];
      UsedGroups(old(Abs()));
      FewerKeys(groups, all);
      removed := before - |groups|;
    }

    method PruneSourceKeys(nowMs: Ms, cutoffMs: Ms) returns (removed: nat)
      modifies `ingested
      ensures ingested == PruneKeys(old(ingested), nowMs, cutoffMs)
      ensures forall k :: k in old(ingested) ==>
                if LikePrefix(k, "marker:") then k in ingested
                else if LikePrefix(k, "logd:") then
                  k in ingested <==> old(ingested)[k] >= SaturatingSub(nowMs, LOG_SOURCE_KEY_TTL_MS)
                else k in ingested <==> old(ingested)[k] >= cutoffMs
      ensures forall k :: k in ingested ==> k in old(ingested) && ingested[k] == old(ingested)[k]
      ensures removed == |old(ingested)| - |ingested|
    {
      ghost var all := ingested;
      var before := |ingested|;
      ingested := PruneKeys(ingested, nowMs, cutoffMs);
      FewerKeys(ingested, all);
      removed := before - |ingested|;
    }

    method TrimRows(nowMs: Ms, p: Policy) returns (removed: nat)
      modifies this
      ensures Abs() == Trimmed(old(Abs()), nowMs, p)
      ensures removed == |old(records)| - |records|
    {
      var aged := DeleteRecords(AgedOut(records, Cutoff(nowMs, p)));
      var perGroup := DeleteRecords(GroupExcess(records, p.perGroup));
      var total := DeleteRecords(TotalExcess(records, p.total));
      removed := aged + perGroup + total;
    }

    method DropAndEvict(cutoffMs: Ms, maxBytes: nat) returns (dropped: nat, evicted: nat, reclaimed: nat)
      modifies this
      ensures Freed(DropEmptyGroups(old(Abs()), cutoffMs), Abs(), Minus(IndexedBytes(old(records)), maxBytes),
                    evicted, reclaimed)
      ensures |records| == |old(records)| && dropped == |old(groups)| - |groups|
    {
      dropped := DropEmptyGroupsBefore(cutoffMs);
      EvictOverCounts(Abs(), maxBytes);
      evicted, reclaimed := EvictPayloadFiles(maxBytes);
    }

    /** The sweep, ceiling by ceiling. */
    method SweepNow(nowMs: Ms, p: Policy) returns (outcome: SweepOutcome)
      modifies this
      ensures Abs() == Sweep(old(Abs()), nowMs, p)
      ensures outcome.removedRecords == |old(records)| - |records|
      ensures outcome.removedGroups == |old(groups)| - |groups|
      ensures var gone, rows := SweptPayloads(old(Abs()), nowMs, p), Trimmed(old(Abs()), nowMs, p).records;
              gone <= rows.Keys && outcome.evictedPayloads == |gone| && outcome.reclaimedBytes == SumBytes(rows, gone)
      ensures outcome.removedSourceKeys == |old(ingested)| - |ingested|
    {
      ghost var start := Abs();
      var removed := TrimRows(nowMs, p);
      ghost var trimmed := Abs();
      var dropped, evicted, reclaimed := DropAndEvict(Cutoff(nowMs, p), p.bytesTotal);
      SweepAssembled(start, trimmed, Abs(), nowMs, p, evicted, reclaimed);
      TrimmedGroupCount(start, nowMs, p);
      var pruned := PruneSourceKeys(nowMs, Cutoff(nowMs, p));
      outcome := SweepOutcome(removed, dropped, evicted, reclaimed, pruned);
    }

    // -------------------------------------------------------------- opening

    /** `SELECT MAX(id)`: the stored id whose text sorts last. */
    method LatestId() returns (latest: Option<nat>)
      requires Representable(records)
      ensures latest.None? <==> records == map[]
      ensures latest.Some? ==> IsLatestText(records, latest.value)
    {
      var todo := records.Keys;
      latest := None;
      while todo != {}
        invariant todo <= records.Keys
        invariant latest.None? <==> todo == records.Keys
        invariant latest.Some? ==> latest.value in records && latest.value !in todo
        invariant latest.Some? ==> forall j :: j in records && j !in todo ==> j <= latest.value
        decreases |todo|
      {
        var id :| id in todo;
        todo := todo - {id};
        if latest.None? {
          latest := Some(id);
        } else {
          EncodeOrder(latest.value, id);
          if LexLess(Encode(latest.value), Encode(id)) {
            latest := Some(id);
          }
        }
      }
      if latest.Some? {
        LargestIsLatest(records, latest.value);
      }
    }

    method ResumeIds()
      requires Representable(records)
      modifies `gen
      ensures gen == ResumedGen(records)
    {
      var latest := LatestId();
      gen := Gen(0, 0);
      if latest.Some? {
        ResumedFrom(records, latest.value);
        var value := DecodeText(Encode(latest.value));
        if value.Some? {
          gen := ResumeAfter(gen, value.value);
        }
      }
    }

    method UnlinkUnreferenced(referenced: set<string>) returns (removed: nat)
      modifies `files
      ensures files == old(files) - (old(files).Keys - referenced)
      ensures removed == |old(files).Keys - referenced|
    {
      ghost var before, gone := files, {};
      var todo := files.Keys;
      removed := 0;
      while todo != {}
        invariant todo <= before.Keys && gone == before.Keys - todo - referenced
        invariant files == before - gone && removed == |gone|
        decreases |todo|
      {
        var p :| p in todo;
        OrphanStep(before, todo, referenced, p);
        todo := todo - {p};
        if p !in referenced {
          files := files - {p};
          removed := removed + 1;
          gone := gone + {p};
        }
      }
    }

    /** Removes the payload files no row refers to. */
    method RemoveOrphans() returns (removed: nat)
      modifies `files
      ensures files == map p | p in old(files) && p in PathsOf(records, records.Keys) :: old(files)[p]
      ensures removed == |old(files).Keys - PathsOf(records, records.Keys)|
    {
      var referenced := set id | id in records && records[id].path.Some? :: records[id].path.value;
      ReferencedPaths(records, referenced);
      removed := UnlinkUnreferenced(referenced);
    }

    /** Opens the store over what is on disk. */
    method Reopen() returns (removed: nat)
      requires Representable(records)
      modifies this
      ensures Abs() == Open(old(Abs()))
      ensures removed == |old(files).Keys - PathsOf(records, records.Keys)|
    {
      ResumeIds();
      removed := RemoveOrphans();
    }

    // -------------------------------------------------------------- deletion

    /** Deletes report how many rows and groups they removed. */
    method DeleteEverything() returns (removedRecords: nat, removedGroups: nat)
      modifies this
      ensures Abs() == Delete(old(Abs()), All)
      ensures removedRecords == |old(records)| - |records| && removedGroups == |old(groups)| - |groups|
    {
      UnlinkFiles(records.Keys);
      assert records - records.Keys == map[];
      removedRecords, removedGroups := |records|, |groups|;
      records, groups := map[], map[];
    }

    method DeleteGroup(g: string) returns (removedRecords: nat, removedGroups: nat)
      modifies this
      ensures Abs() == Delete(old(Abs()), OfGroup(g))
      ensures removedRecords == |old(records)| - |records| && removedGroups == |old(groups)| - |groups|
    {
      ghost var db := Abs();
      removedRecords := DropRowsOf(g);
      assert Abs() == db.(records := records, files := files);
      removedGroups := DropGroup(g);
      assert Abs() == db.(records := records, files := files, groups := groups);
      GroupDeleted(db, Abs(), g);
    }

    method DeleteIds(list: seq<nat>) returns (removedRecords: nat, removedGroups: nat)
      modifies this
      ensures Abs() == Delete(old(Abs()), OfIds(list))
      ensures removedRecords == |old(records)| - |records| && removedGroups == |old(groups)| - |groups|
    {
      if list == [] {
        return 0, 0;
      }
      var ids := set id | id in list && id in records;
      removedRecords := DropRows(ids);
      removedGroups := DropGroupsWithoutRows();
    }

    /** Unlinks the files of the rows and removes the rows; groups keep their byte totals. */
    method DropRows(ids: set<nat>) returns (removed: nat)
      requires ids <= records.Keys
      modifies `records, `files
      ensures records == old(records) - ids && files == old(files) - PathsOf(old(records), ids)
      ensures removed == |old(records)| - |records|
    {
      UnlinkFiles(ids);
      RemovedCount(records, ids);
      records := records - ids;
      removed := |ids|;
    }

    method DropRowsOf(g: string) returns (removed: nat)
      modifies `records, `files
      ensures records == old(records) - Members(old(records), g)
      ensures files == old(files) - PathsOf(old(records), Members(old(records), g))
      ensures removed == |old(records)| - |records|
    {
      var ids := set id | id in records && records[id].group == g;
      assert ids == Members(records, g);
      removed := DropRows(ids);
    }

    method DropGroup(g: string) returns (removed: nat)
      modifies `groups
      ensures groups == old(groups) - {g} && removed == |old(groups)| - |groups|
    {
      var gone := {g} * groups.Keys;
      RemovedCount(groups, gone);
      assert groups - gone == groups - {g};
      groups := groups - {g};
      removed := |gone|;
    }

    /** Removes every group that no row belongs to. */
    method DropGroupsWithoutRows() returns (removed: nat)
      modifies `groups
      ensures groups == map g | g in old(groups) && Members(records, g) != {} :: old(groups)[g]
      ensures removed == |old(groups)| - |groups|
    {
      ghost var all := groups;
      var before := |groups|;
      var used := set id | id in records :: records[id].group;
      UsedGroups(Abs());
      groups := map g | g in groups && g in used :: groups[g];
      FewerKeys(groups, all);
      removed := before - |groups|;
    }
  }

  /** Deleting a group: its rows, their files, and the group. */
  lemma GroupDeleted(db: Db, db': Db, g: string)
    requires db'.records == db.records - Members(db.records, g)
    requires db'.files == db.files - PathsOf(db.records, Members(db.records, g))
    requires db'.groups == db.groups - {g} && db'.ingested == db.ingested && db'.gen == db.gen
    ensures db' == Delete(db, OfGroup(g))
  {
  }

  lemma LargestIsLatest(rows: Records, id: nat)
    requires Representable(rows) && id in rows && forall j :: j in rows ==> j <= id
    ensures IsLatestText(rows, id)
  {
    forall j | j in rows && j != id
      ensures LexLess(Encode(j), Encode(id))
    {
      EncodeOrder(j, id);
    }
  }

  lemma LatestIsUnique(rows: Records, id: nat)
    requires IsLatestText(rows, id)
    ensures forall j: nat :: IsLatestText(rows, j) ==> j == id
  {
    forall j: nat | IsLatestText(rows, j)
      ensures j == id
    {
      if j != id {
        LexTransitive(Encode(j), Encode(id), Encode(j));
        LexIrreflexive(Encode(j));
      }
    }
  }

  lemma ResumedFrom(rows: Records, id: nat)
    requires IsLatestText(rows, id)
    ensures ResumedGen(rows) == if DecodeDigits(Encode(id)).Some?
                                then ResumeAfter(Gen(0, 0), DecodeDigits(Encode(id)).value) else Gen(0, 0)
  {
    LatestIsUnique(rows, id);
  }

  lemma OrphanStep(before: map<string, seq<byte>>, todo: set<string>, referenced: set<string>, p: string)
    requires p in todo && todo <= before.Keys
    ensures var gone, rest := before.Keys - todo - referenced, before.Keys - (todo - {p}) - referenced;
            if p in referenced then rest == gone
            else p !in gone && rest == gone + {p} && before - gone - {p} == before - rest
  {
  }

  lemma ReferencedPaths(rows: Records, referenced: set<string>)
    requires referenced == set id | id in rows && rows[id].path.Some? :: rows[id].path.value
    ensures referenced == PathsOf(rows, rows.Keys)
  {
  }

  lemma RemovedCount<K, V>(rows: map<K, V>, ids: set<K>)
    requires ids <= rows.Keys
    ensures |rows - ids| == |rows| - |ids|
  {
    assert (rows - ids).Keys + ids == rows.Keys;
    assert |rows - ids| == |(rows - ids).Keys| && |rows| == |rows.Keys|;
  }

  lemma UsedGroups(db: Db)
    ensures forall g :: Members(db.records, g) == {} <==> g !in (set id | id in db.records :: db.records[id].group)
  {
    forall g
      ensures Members(db.records, g) == {} <==> g !in (set id | id in db.records :: db.records[id].group)
    {
      if id :| id in db.records && db.records[id].group == g {
        assert id in Members(db.records, g);
      }
    }
  }
}
