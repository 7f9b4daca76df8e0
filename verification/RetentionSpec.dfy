/**
 The sweep against a declarative reading of its ceilings: exactly which rows, groups and
 payloads survive, and that sweeping again at the same instant changes nothing.
 */
module RetentionSpec {
  import opened Model
  import opened Tables
  import opened Ranks
  import opened Retention

  // ---------------------------------------------------------------- surviving rows

  /** Rows inside the retention window. */
  function InWindow(records: Records, cutoffMs: Ms): set<nat> {
    set id | id in records && records[id].happenedAtMs >= cutoffMs
  }

  /** Of `s`, the newest `keep` rows of each group. */
  function NewestPerGroup(records: Records, s: set<nat>, keep: nat): set<nat>
    requires s <= records.Keys
  {
    set id | id in s && id in Newest(records, Peers(records, s, id), keep)
  }

  /** The newest `total` of the newest `perGroup` of each group's rows in the window. */
  function Survivors(records: Records, nowMs: Ms, p: Policy): set<nat> {
    Newest(records, NewestPerGroup(records, InWindow(records, Cutoff(nowMs, p)), p.perGroup), p.total)
  }

  /** `rows` is the part of `records` on `s`. */
  ghost predicate IsPart(rows: Records, records: Records, s: set<nat>) {
    rows.Keys == s && s <= records.Keys && forall id :: id in s ==> rows[id] == records[id]
  }

  lemma PartNewer(rows: Records, records: Records, s: set<nat>, id: nat)
    requires IsPart(rows, records, s) && id in s
    ensures Peers(rows, s, id) == Peers(records, s, id)
    ensures NewerIn(rows, Peers(rows, s, id), id) == NewerIn(records, Peers(records, s, id), id)
    ensures NewerIn(rows, s, id) == NewerIn(records, s, id)
  {
    RankFrame(rows, records, s, id);
    RankFrame(rows, records, Peers(records, s, id), id);
  }

  lemma PerGroupTrim(rows: Records, records: Records, s: set<nat>, keep: nat)
    requires IsPart(rows, records, s)
    ensures IsPart(rows - GroupExcess(rows, keep), records, NewestPerGroup(records, s, keep))
  {
    forall id | id in s
      ensures id in GroupExcess(rows, keep) <==> id !in NewestPerGroup(records, s, keep)
    {
      PartNewer(rows, records, s, id);
    }
    assert (rows - GroupExcess(rows, keep)).Keys == NewestPerGroup(records, s, keep);
  }

  /** Deleting the oldest beyond the total is keeping the newest up to it. */
  lemma TotalTrim(rows: Records, records: Records, s: set<nat>, keep: nat)
    requires IsPart(rows, records, s)
    ensures IsPart(rows - TotalExcess(rows, keep), records, Newest(records, s, keep))
  {
    assert |rows| == |rows.Keys| == |s|;
    forall id | id in s
      ensures id in TotalExcess(rows, keep) <==> id !in Newest(records, s, keep)
    {
      RankSplit(rows, s, id);
      PartNewer(rows, records, s, id);
    }
    assert (rows - TotalExcess(rows, keep)).Keys == Newest(records, s, keep);
  }

  /** The rows a sweep leaves, before payloads are evicted, are the declared survivors, unchanged. */
  lemma TrimmedRows(db: Db, nowMs: Ms, p: Policy)
    ensures IsPart(Trimmed(db, nowMs, p).records, db.records, Survivors(db.records, nowMs, p))
  {
    var cut := Cutoff(nowMs, p);
    var aged := RemoveAll(db, AgedOut(db.records, cut));
    assert IsPart(aged.records, db.records, InWindow(db.records, cut));
    PerGroupTrim(aged.records, db.records, InWindow(db.records, cut), p.perGroup);
    var perGroup := RemoveAll(aged, GroupExcess(aged.records, p.perGroup));
    TotalTrim(perGroup.records, db.records, NewestPerGroup(db.records, InWindow(db.records, cut), p.perGroup), p.total);
  }

  // ---------------------------------------------------------------- evicted payloads

  lemma ReclaimedStep(records: Records, cands: set<nat>, over: nat, x: nat)
    requires cands <= records.Keys && over > 0 && IsOldest(records, cands, x)
    ensures Reclaimed(records, cands, over) == {x} + Reclaimed(records, cands - {x}, Minus(over, records[x].bytes))
  {
    var y :| IsOldest(records, cands, y)
             && Reclaimed(records, cands, over) == {y} + Reclaimed(records, cands - {y}, Minus(over, records[y].bytes));
    OldestUnique(records, cands, x, y);
  }

  /** The payloads given up are an oldest-first prefix of the candidates. */
  lemma {:induction false} ReclaimedPrefix(records: Records, cands: set<nat>, over: nat)
    requires cands <= records.Keys
    ensures Reclaimed(records, cands, over) <= cands
    ensures forall x, y :: x in Reclaimed(records, cands, over) && y in cands && Older(records, y, x) ==>
              y in Reclaimed(records, cands, over)
    decreases |cands|
  {
    if over > 0 && cands != {} {
      var o := OldestOf(records, cands);
      ReclaimedStep(records, cands, over, o);
      ReclaimedPrefix(records, cands - {o}, Minus(over, records[o].bytes));
    }
  }

  /** They free enough, or everything was given up. */
  lemma {:induction false} ReclaimedEnough(records: Records, cands: set<nat>, over: nat)
    requires cands <= records.Keys
    ensures Reclaimed(records, cands, over) <= cands
    ensures SumBytes(records, Reclaimed(records, cands, over)) >= over || Reclaimed(records, cands, over) == cands
    decreases |cands|
  {
    if over > 0 && cands != {} {
      var o := OldestOf(records, cands);
      var rest := Reclaimed(records, cands - {o}, Minus(over, records[o].bytes));
      ReclaimedStep(records, cands, over, o);
      ReclaimedEnough(records, cands - {o}, Minus(over, records[o].bytes));
      SumInsert(records, rest, o);
      assert rest + {o} == {o} + rest;
    }
  }

  /** No payload is given up in vain: the older ones before it had not freed enough. */
  lemma {:induction false} ReclaimedNeeded(records: Records, cands: set<nat>, over: nat, x: nat)
    requires cands <= records.Keys && x in Reclaimed(records, cands, over)
    ensures x in cands && SumBytes(records, OlderIn(records, cands, x)) < over
    decreases |cands|
  {
    var o := OldestOf(records, cands);
    ReclaimedStep(records, cands, over, o);
    if x == o {
      assert OlderIn(records, cands, x) == {};
    } else {
      ReclaimedNeeded(records, cands - {o}, Minus(over, records[o].bytes), x);
      var before := OlderIn(records, cands - {o}, x);
      SumInsert(records, before, o);
      assert OlderIn(records, cands, x) == before + {o};
    }
  }

  lemma CandidatesAreReadable(db: Db)
    requires Payloads(db)
    ensures Candidates(db.records) == WithPath(db.records)
  {
    forall id | id in db.records
      ensures db.records[id].path.Some? ==> db.records[id].state != Evicted
    {
      assert RowPayload(db, id);
    }
  }

  /** After eviction the referenced bytes fit the quota. */
  lemma EvictFits(db: Db, maxBytes: nat)
    requires Payloads(db)
    ensures IndexedBytes(EvictOver(db, maxBytes).records) <= maxBytes
  {
    CandidatesAreReadable(db);
    var cands, over := Candidates(db.records), Minus(IndexedBytes(db.records), maxBytes);
    var gone := Reclaimed(db.records, cands, over);
    ReclaimedEnough(db.records, cands, over);
    var rows := EvictRows(db.records, gone);
    assert WithPath(rows) == cands - gone;
    EvictedSum(db.records, gone, cands - gone);
    assert cands - gone - gone == cands - gone;
    SumSubset(db.records, gone, cands);
  }

  // ---------------------------------------------------------------- the sweep as a whole

  ghost function DroppedDb(db: Db, nowMs: Ms, p: Policy): Db { DropEmptyGroups(Trimmed(db, nowMs, p), Cutoff(nowMs, p)) }

  ghost function SweptPayloads(db: Db, nowMs: Ms, p: Policy): set<nat> {
    var d := DroppedDb(db, nowMs, p);
    Reclaimed(d.records, Candidates(d.records), Minus(IndexedBytes(d.records), p.bytesTotal))
  }

  lemma TrimmedSound(db: Db, exact: bool, nowMs: Ms, p: Policy)
    requires Sound(db, exact)
    ensures Sound(Trimmed(db, nowMs, p), exact) && Sound(DroppedDb(db, nowMs, p), exact)
  {
    var aged := RemoveAll(db, AgedOut(db.records, Cutoff(nowMs, p)));
    var perGroup := RemoveAll(aged, GroupExcess(aged.records, p.perGroup));
    RemoveSound(db, exact, AgedOut(db.records, Cutoff(nowMs, p)));
    RemoveSound(aged, exact, GroupExcess(aged.records, p.perGroup));
    RemoveSound(perGroup, exact, TotalExcess(perGroup.records, p.total));
    DropSound(Trimmed(db, nowMs, p), exact, Cutoff(nowMs, p));
  }

  lemma SweptParts(db: Db, nowMs: Ms, p: Policy)
    ensures Sweep(db, nowMs, p).records == EvictRows(Trimmed(db, nowMs, p).records, SweptPayloads(db, nowMs, p))
    ensures Sweep(db, nowMs, p).groups
            == Discharge(Trimmed(db, nowMs, p).records, DroppedDb(db, nowMs, p).groups, SweptPayloads(db, nowMs, p))
    ensures Sweep(db, nowMs, p).records == EvictOver(DroppedDb(db, nowMs, p), p.bytesTotal).records
  {
  }

  lemma EvictedPart(rows: Records, all: Records, kept: set<nat>, gone: set<nat>)
    requires IsPart(rows, all, kept)
    ensures kept <= all.Keys && EvictRows(rows, gone).Keys == kept
    ensures forall id :: id in kept ==>
              EvictRows(rows, gone)[id] == if id in gone then EvictedRow(all[id]) else all[id]
  {
  }

  /** The rows after a sweep: exactly the declared survivors, each unchanged unless its payload
      was reclaimed. */
  lemma SweepRows(db: Db, nowMs: Ms, p: Policy)
    ensures Survivors(db.records, nowMs, p) <= db.records.Keys
    ensures var swept := Sweep(db, nowMs, p).records;
            && swept.Keys == Survivors(db.records, nowMs, p)
            && (forall id :: id in swept ==>
                  swept[id] == if id in SweptPayloads(db, nowMs, p) then EvictedRow(db.records[id]) else db.records[id])
  {
    TrimmedRows(db, nowMs, p);
    SweptParts(db, nowMs, p);
    EvictedPart(Trimmed(db, nowMs, p).records, db.records, Survivors(db.records, nowMs, p), SweptPayloads(db, nowMs, p));
  }

  /** A sweep takes a group's history from its old end: with a row, every newer row of its group
      survives. */
  lemma SweepKeepsNewer(db: Db, nowMs: Ms, p: Policy, id: nat, newer: nat)
    requires id in Sweep(db, nowMs, p).records && newer in db.records
    requires Older(db.records, id, newer) && db.records[newer].group == db.records[id].group
    ensures newer in Sweep(db, nowMs, p).records
  {
    var rows, window := db.records, InWindow(db.records, Cutoff(nowMs, p));
    var perGroup := NewestPerGroup(rows, window, p.perGroup);
    SweepRows(db, nowMs, p);
    assert newer in window;
    assert Peers(rows, window, newer) == Peers(rows, window, id);
    NewestUpward(rows, Peers(rows, window, id), p.perGroup, id, newer);
    NewestUpward(rows, perGroup, p.total, id, newer);
  }

  /** After a sweep the referenced bytes fit the quota. */
  lemma SweepFits(db: Db, exact: bool, nowMs: Ms, p: Policy)
    requires Sound(db, exact)
    ensures IndexedBytes(Sweep(db, nowMs, p).records) <= p.bytesTotal
  {
    TrimmedSound(db, exact, nowMs, p);
    SweptParts(db, nowMs, p);
    EvictFits(DroppedDb(db, nowMs, p), p.bytesTotal);
  }

  lemma RemoveGroups(db: Db, ids: set<nat>, g: string)
    ensures g in RemoveAll(db, ids).groups <==> g in db.groups
    ensures g in db.groups ==> RemoveAll(db, ids).groups[g] == db.groups[g].(payloadBytes := RemoveAll(db, ids).groups[g].payloadBytes)
  {
  }

  lemma TrimmedGroups(db: Db, nowMs: Ms, p: Policy, g: string)
    ensures var t := Trimmed(db, nowMs, p);
            && (g in t.groups <==> g in db.groups)
            && (g in db.groups ==> t.groups[g] == db.groups[g].(payloadBytes := t.groups[g].payloadBytes))
  {
    var aged := RemoveAll(db, AgedOut(db.records, Cutoff(nowMs, p)));
    var perGroup := RemoveAll(aged, GroupExcess(aged.records, p.perGroup));
    RemoveGroups(db, AgedOut(db.records, Cutoff(nowMs, p)), g);
    RemoveGroups(aged, GroupExcess(aged.records, p.perGroup), g);
    RemoveGroups(perGroup, TotalExcess(perGroup.records, p.total), g);
  }

  lemma SurvivingMembers(rows: Records, records: Records, s: set<nat>, g: string)
    requires IsPart(rows, records, s)
    ensures Members(rows, g) == {} <==> forall id :: id in s ==> records[id].group != g
  {
    if id :| id in s && records[id].group == g {
      assert id in Members(rows, g);
    }
  }

  lemma DischargedGroups(records: Records, groups: Groups, ids: set<nat>, g: string)
    ensures g in Discharge(records, groups, ids) <==> g in groups
    ensures g in groups ==>
              Discharge(records, groups, ids)[g] == groups[g].(payloadBytes := Discharge(records, groups, ids)[g].payloadBytes)
  {
  }

  /** The groups after a sweep: a group goes exactly when it was last seen before the window and
      no row of it survives; in the others only the byte total changes, so the occurrence count
      and the first and last sighting keep their meaning. */
  lemma SweepGroups(db: Db, nowMs: Ms, p: Policy, g: string)
    ensures Survivors(db.records, nowMs, p) <= db.records.Keys
    ensures g in Sweep(db, nowMs, p).groups <==>
            && g in db.groups
            && !(db.groups[g].lastSeenMs < Cutoff(nowMs, p)
                 && forall id :: id in Survivors(db.records, nowMs, p) ==> db.records[id].group != g)
    ensures g in Sweep(db, nowMs, p).groups ==>
              Sweep(db, nowMs, p).groups[g]
              == db.groups[g].(payloadBytes := Sweep(db, nowMs, p).groups[g].payloadBytes)
  {
    var t := Trimmed(db, nowMs, p);
    TrimmedRows(db, nowMs, p);
    TrimmedGroups(db, nowMs, p, g);
    SurvivingMembers(t.records, db.records, Survivors(db.records, nowMs, p), g);
    SweptParts(db, nowMs, p);
    DischargedGroups(t.records, DroppedDb(db, nowMs, p).groups, SweptPayloads(db, nowMs, p), g);
  }

  // ---------------------------------------------------------------- sweeping twice

  lemma SumNothing(records: Records, ids: set<nat>)
    ensures SumBytes(records, ids * {}) == 0
  {
    assert ids * {} == {};
  }

  lemma RemoveNothing(db: Db)
    ensures RemoveAll(db, {}) == db && EvictAll(db, {}) == db
  {
    forall g | g in db.groups
      ensures Discharge(db.records, db.groups, {})[g] == db.groups[g]
    {
      SumNothing(db.records, Members(db.records, g));
    }
    assert Discharge(db.records, db.groups, {}) == db.groups;
    assert EvictRows(db.records, {}) == db.records;
    assert db.records - {} == db.records;
    assert PathsOf(db.records, {}) == {};
    assert db.files - {} == db.files;
  }

  lemma PerGroupSettled(rows: Records, records: Records, s: set<nat>, all: set<nat>, keep: nat)
    requires all <= records.Keys && rows.Keys == s <= NewestPerGroup(records, all, keep)
    requires forall id :: id in s ==> rows[id].happenedAtMs == records[id].happenedAtMs && rows[id].group == records[id].group
    ensures GroupExcess(rows, keep) == {}
  {
    forall id | id in rows
      ensures |NewerIn(rows, Peers(rows, rows.Keys, id), id)| + 1 <= keep
    {
      assert id in Newest(records, Peers(records, all, id), keep);
      SubsetSize(NewerIn(rows, Peers(rows, rows.Keys, id), id), NewerIn(records, Peers(records, all, id), id));
    }
  }

  lemma SurvivorsSettled(rows: Records, records: Records, nowMs: Ms, p: Policy)
    requires rows.Keys == Survivors(records, nowMs, p)
    requires forall id :: id in rows ==> rows[id].happenedAtMs == records[id].happenedAtMs && rows[id].group == records[id].group
    ensures AgedOut(rows, Cutoff(nowMs, p)) == {}
    ensures GroupExcess(rows, p.perGroup) == {}
    ensures TotalExcess(rows, p.total) == {}
  {
    var inWindow := InWindow(records, Cutoff(nowMs, p));
    var perGroup := NewestPerGroup(records, inWindow, p.perGroup);
    assert rows.Keys <= perGroup <= inWindow;
    PerGroupSettled(rows, records, rows.Keys, inWindow, p.perGroup);
    NewestSize(records, perGroup, p.total);
    assert |rows| == |rows.Keys|;
  }

  lemma TrimSettled(db: Db, nowMs: Ms, p: Policy)
    requires AgedOut(db.records, Cutoff(nowMs, p)) == {}
    requires GroupExcess(db.records, p.perGroup) == {} && TotalExcess(db.records, p.total) == {}
    ensures Trimmed(db, nowMs, p) == db
  {
    RemoveNothing(db);
  }

  lemma DropSettled(db: Db, nowMs: Ms, p: Policy)
    requires forall g :: g in db.groups ==> !EmptyBefore(db, g, Cutoff(nowMs, p))
    ensures DropEmptyGroups(db, Cutoff(nowMs, p)) == db
  {
    assert DropEmptyGroups(db, Cutoff(nowMs, p)).groups == db.groups;
  }

  lemma PruneSettled(keys: map<string, Ms>, nowMs: Ms, cutoffMs: Ms)
    ensures PruneKeys(PruneKeys(keys, nowMs, cutoffMs), nowMs, cutoffMs) == PruneKeys(keys, nowMs, cutoffMs)
  {
  }

  lemma NoGroupEmpty(db: Db, nowMs: Ms, p: Policy, g: string)
    requires g in Sweep(db, nowMs, p).groups
    ensures !EmptyBefore(Sweep(db, nowMs, p), g, Cutoff(nowMs, p))
  {
    var swept := Sweep(db, nowMs, p);
    SweepRows(db, nowMs, p);
    SweepGroups(db, nowMs, p, g);
    if swept.groups[g].lastSeenMs < Cutoff(nowMs, p) {
      var id :| id in Survivors(db.records, nowMs, p) && db.records[id].group == g;
      assert id in Members(swept.records, g);
    }
  }

  /** A second sweep at the same instant does nothing. */
  lemma SweepTwice(db: Db, exact: bool, nowMs: Ms, p: Policy)
    requires Sound(db, exact)
    ensures Sweep(Sweep(db, nowMs, p), nowMs, p) == Sweep(db, nowMs, p)
  {
    var swept := Sweep(db, nowMs, p);
    SweepRows(db, nowMs, p);
    SurvivorsSettled(swept.records, db.records, nowMs, p);
    TrimSettled(swept, nowMs, p);
    forall g | g in swept.groups
      ensures !EmptyBefore(swept, g, Cutoff(nowMs, p))
    {
      NoGroupEmpty(db, nowMs, p, g);
    }
    DropSettled(swept, nowMs, p);
    SweepFits(db, exact, nowMs, p);
    EvictSettled(swept, p.bytesTotal);
    PruneSettled(db.ingested, nowMs, Cutoff(nowMs, p));
  }

  lemma EvictSettled(db: Db, maxBytes: nat)
    requires IndexedBytes(db.records) <= maxBytes
    ensures EvictOver(db, maxBytes) == db
  {
    RemoveNothing(db);
  }
}
