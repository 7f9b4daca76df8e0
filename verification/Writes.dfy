/**
 Writing to the store: the payload file, the insert and the fold as one transaction each,
 and the search for a stored record that a new one is a second view of. Disk and database
 failures are an explicit fate, so both outcomes of every call are covered.
 */
module Writes {
  import opened Model
  import opened Ids
  import opened Tables
  import opened Chunks

  datatype Result<+T> = Ok(value: T) | Err

  /** How one write turns out: which source files can be read, whether the payload write fails
      and what it leaves behind, the compressed size, whether the transaction commits, and
      whether the clean-up after a failed one succeeds. */
  datatype Fate = Fate(
    disk: map<string, seq<byte>>,
    writeFails: bool,
    leftover: Option<seq<byte>>,
    storedBytes: nat,
    commits: bool,
    cleans: bool)

  datatype Written = Written(path: string, bytes: nat, state: PayloadState)

  // ---------------------------------------------------------------- payload files

  function RawPayload(source: PayloadSource, disk: map<string, seq<byte>>): Result<seq<byte>> {
    match source
    case NoPayload => Ok([])
    case Inline(bytes) => Ok(bytes)
    case File(path) => if path in disk then Ok(disk[path]) else Err
  }

  function WritePayload(files: map<string, seq<byte>>, id: nat, source: PayloadSource, cap: nat, fate: Fate)
    : (map<string, seq<byte>>, Result<Option<Written>>)
  {
    var raw := RawPayload(source, fate.disk);
    if raw.Err? then (files, Err)
    else if raw.value == [] then (files, Ok(None))
    else if fate.writeFails then
      (if fate.leftover.Some? then files[RelativePath(id) := fate.leftover.value] else files, Err)
    else
      (files[RelativePath(id) := TruncateUtf8(raw.value, cap)],
       Ok(Some(Written(RelativePath(id), fate.storedBytes, if |raw.value| > cap then Truncated else Present))))
  }

  function CleanUp(files: map<string, seq<byte>>, written: Option<Written>, fate: Fate): map<string, seq<byte>> {
    if written.Some? && fate.cleans then files - {written.value.path} else files
  }

  /** A payload write touches no file but the record's own. */
  lemma WriteTouchesOwnFile(files: map<string, seq<byte>>, id: nat, source: PayloadSource, cap: nat, fate: Fate, p: string)
    requires p != RelativePath(id)
    ensures var r := WritePayload(files, id, source, cap, fate);
            && (p in r.0 <==> p in files) && (p in files ==> r.0[p] == files[p])
            && (r.1.Ok? ==> (p in CleanUp(r.0, r.1.value, fate) <==> p in files)
                            && (p in files ==> CleanUp(r.0, r.1.value, fate)[p] == files[p]))
  {
  }

  // ---------------------------------------------------------------- source keys

  /** `INSERT ... ON CONFLICT DO NOTHING` for each key. */
  function MarkAll(ingested: map<string, Ms>, keys: seq<string>, nowMs: Ms): map<string, Ms> {
    ingested + map k | k in keys && k !in ingested :: nowMs
  }

  /** Each key is marked: a known one keeps its time, a new one gets this one; nothing else changes. */
  ghost predicate MarkedNow(before: map<string, Ms>, after: map<string, Ms>, keys: seq<string>, nowMs: Ms) {
    forall k :: (k in after <==> k in before || k in keys)
                && (k in after ==> after[k] == if k in before then before[k] else nowMs)
  }

  lemma MarkAllMarks(ingested: map<string, Ms>, keys: seq<string>, nowMs: Ms)
    ensures MarkedNow(ingested, MarkAll(ingested, keys, nowMs), keys, nowMs)
  {
  }

  // ---------------------------------------------------------------- insert

  function Coalesce(a: Option<string>, b: Option<string>): Option<string> { if a.Some? then a else b }

  function UpsertGroup(groups: Groups, gid: string, r: CrashRecord, bytes: nat): Groups {
    if gid in groups then
      var g := groups[gid];
      groups[gid := g.(occurrence := g.occurrence + 1,
                       firstSeenMs := MinMs(g.firstSeenMs, r.happenedAtMs),
                       lastSeenMs := MaxMs(g.lastSeenMs, r.happenedAtMs),
                       payloadBytes := g.payloadBytes + bytes,
                       summaryClass := Coalesce(r.summaryClass, g.summaryClass),
                       summaryText := Coalesce(r.summaryText, g.summaryText),
                       selfHandled := r.selfHandled,
                       isSystemApp := r.isSystemApp,
                       packageInstalled := r.packageInstalled)]
    else
      groups[gid := Group(r.packageName, r.processName, r.userId, r.kind, r.isSystemApp, r.packageInstalled,
                          r.packageName == r.processName, r.selfHandled, r.summaryClass, r.summaryText,
                          1, r.happenedAtMs, r.happenedAtMs, bytes)]
  }

  function NewRow(gid: string, r: CrashRecord, repeating: bool, w: Option<Written>): Row {
    Row(gid, r.happenedAtMs, r.pid, r.sources, r.versionName, r.versionCode, r.isForeground, repeating,
        r.droppedCount, if w.Some? then Some(w.value.path) else None,
        if w.Some? then w.value.bytes else 0, if w.Some? then w.value.state else Absent)
  }

  function BytesOf(w: Option<Written>): nat { if w.Some? then w.value.bytes else 0 }

  function InsertRows(db: Db, id: nat, r: CrashRecord, gid: string, w: Option<Written>, keys: seq<string>, nowMs: Ms): Db {
    db.(groups := UpsertGroup(db.groups, gid, r, BytesOf(w)),
        records := db.records[id := NewRow(gid, r, gid in db.groups, w)],
        ingested := MarkAll(db.ingested, keys, nowMs))
  }

  /** The clock reading an id is derived from; a negative one becomes zero. */
  function IdClock(ms: Ms): nat { if ms < 0 then 0 else ms }

  function NextGen(db: Db, r: CrashRecord): Gen { Next(db.gen, IdClock(r.happenedAtMs)) }

  function NewId(db: Db, r: CrashRecord): nat { GenValue(NextGen(db, r)) }

  /** One insert: a fresh id, then the payload file, then all rows and keys in one transaction.
      A row with the id already present fails the transaction on the primary key. */
  function InsertWithSources(db: Db, r: CrashRecord, gid: string, cap: nat, keys: seq<string>, nowMs: Ms, fate: Fate)
    : (Db, Result<nat>)
  {
    var id := NewId(db, r);
    var write := WritePayload(db.files, id, r.payload, cap, fate);
    var db1 := db.(gen := NextGen(db, r), files := write.0);
    if write.1.Err? then (db1, Err)
    else if !fate.commits || id in db.records then
      (db1.(files := CleanUp(write.0, write.1.value, fate)), Err)
    else (InsertRows(db1, id, r, gid, write.1.value, keys, nowMs), Ok(id))
  }

  // ---------------------------------------------------------------- companions

  /** A crash ends its process, an ANR or a WTF does not. */
  function CompanionWindow(kind: CrashKind): nat {
    if kind == JavaException || kind == NativeCrash then DEFAULT_MERGE_WINDOW_MS else 0
  }

  /** A stored row that may be the same crash seen by another source, or the same artefact read again. */
  predicate Qualifies(db: Db, r: CrashRecord, window: nat, id: nat) {
    && r.pid != 0
    && id in db.records
    && db.records[id].group in db.groups
    && var row := db.records[id];
       var g := db.groups[row.group];
       && row.pid == r.pid
       && g.processName == r.processName
       && g.kind == r.kind
       && g.userId == r.userId
       && Distance(row.happenedAtMs, r.happenedAtMs) <= window
       && (row.happenedAtMs == r.happenedAtMs || row.sources !! r.sources)
  }

  /** How far a stored row is from the record in time. */
  function Gap(db: Db, r: CrashRecord, id: nat): nat {
    if id in db.records then Distance(db.records[id].happenedAtMs, r.happenedAtMs) else 0
  }

  /** The query returns a nearest qualifying row; among equally near ones any may come first. */
  ghost predicate IsCompanion(db: Db, r: CrashRecord, window: nat, id: nat) {
    && Qualifies(db, r, window, id)
    && forall j :: Qualifies(db, r, window, j) ==> Gap(db, r, id) <= Gap(db, r, j)
  }

  ghost predicate HasCompanion(db: Db, r: CrashRecord, window: nat) { exists id :: Qualifies(db, r, window, id) }

  lemma {:induction false} NearestOf(db: Db, r: CrashRecord, ids: set<nat>) returns (best: nat)
    requires ids != {}
    ensures best in ids
    ensures forall j :: j in ids ==> Gap(db, r, best) <= Gap(db, r, j)
    decreases |ids|
  {
    var first :| first in ids;
    var rest := ids - {first};
    assert forall j :: j in ids ==> j == first || j in rest;
    if rest == {} {
      best := first;
    } else {
      var other := NearestOf(db, r, rest);
      best := if Gap(db, r, other) < Gap(db, r, first) then other else first;
    }
  }

  /** The query finds a row exactly when some row qualifies. */
  lemma CompanionExists(db: Db, r: CrashRecord, window: nat)
    ensures HasCompanion(db, r, window) <==> exists id :: IsCompanion(db, r, window, id)
  {
    if HasCompanion(db, r, window) {
      var ids := set id | id in db.records && Qualifies(db, r, window, id);
      var x :| Qualifies(db, r, window, x);
      assert x in ids;
      var id := NearestOf(db, r, ids);
      assert IsCompanion(db, r, window, id);
    }
  }

  /** The row the query returned, with `tie` breaking ties among equally near ones. */
  ghost function Companion(db: Db, r: CrashRecord, window: nat, tie: nat): (found: Option<nat>)
    ensures found.Some? <==> HasCompanion(db, r, window)
    ensures found.Some? ==> IsCompanion(db, r, window, found.value)
  {
    CompanionExists(db, r, window);
    if IsCompanion(db, r, window, tie) then Some(tie)
    else if HasCompanion(db, r, window) then
      var id :| IsCompanion(db, r, window, id);
      Some(id)
    else None
  }

  // ---------------------------------------------------------------- fold

  function FoldedRow(row: Row, r: CrashRecord, w: Option<Written>): Row {
    var merged := row.(sources := row.sources + r.sources);
    if w.Some? then merged.(path := Some(w.value.path), bytes := w.value.bytes, state := w.value.state) else merged
  }

  function Charge(groups: Groups, gid: string, bytes: nat): Groups {
    if gid in groups then groups[gid := groups[gid].(payloadBytes := groups[gid].payloadBytes + bytes)] else groups
  }

  function FoldRows(db: Db, id: nat, r: CrashRecord, w: Option<Written>, keys: seq<string>, nowMs: Ms): Db
    requires id in db.records
  {
    db.(records := db.records[id := FoldedRow(db.records[id], r, w)],
        groups := if w.Some? then Charge(db.groups, db.records[id].group, w.value.bytes) else db.groups,
        ingested := MarkAll(db.ingested, keys, nowMs))
  }

  /** Adds a second source's evidence to a stored record; its payload is adopted only when the
      record never had one. A row that is gone fails the transaction. */
  function FoldInto(db: Db, id: nat, r: CrashRecord, cap: nat, keys: seq<string>, nowMs: Ms, fate: Fate)
    : (Db, Result<nat>)
  {
    if id !in db.records then (db, Err)
    else
      var write := if db.records[id].state == Absent then WritePayload(db.files, id, r.payload, cap, fate)
                   else (db.files, Ok(None));
      var db1 := db.(files := write.0);
      if write.1.Err? then (db1, Err)
      else if !fate.commits then (db1.(files := CleanUp(write.0, write.1.value, fate)), Err)
      else (FoldRows(db1, id, r, write.1.value, keys, nowMs), Ok(id))
  }

  // ---------------------------------------------------------------- what a write leaves on disk

  /** The text that a payload source yields. */
  predicate Reads(source: PayloadSource, disk: map<string, seq<byte>>, text: seq<byte>) {
    match source
    case NoPayload => text == []
    case Inline(bytes) => text == bytes
    case File(path) => path in disk && text == disk[path]
  }

  /** The row holds the text: under its own path, cut to whole characters that fit the cap, marked as
      truncated exactly when it was cut, and counted with its stored size. */
  predicate HoldsText(row: Row, files: map<string, seq<byte>>, id: nat, text: seq<byte>, cap: nat, storedBytes: nat) {
    && row.path == Some(RelativePath(id))
    && RelativePath(id) in files && files[RelativePath(id)] == TruncateUtf8(text, cap)
    && row.state == (if |text| > cap then Truncated else Present)
    && row.bytes == storedBytes
  }

  /** The payload columns of a row. */
  predicate SamePayload(a: Row, b: Row) { a.path == b.path && a.bytes == b.bytes && a.state == b.state }

  /** Files of every other record are as they were. */
  ghost predicate SameOtherFiles(before: map<string, seq<byte>>, after: map<string, seq<byte>>, id: nat) {
    forall p :: p != RelativePath(id) ==> (p in after <==> p in before) && (p in before ==> after[p] == before[p])
  }

  /** The group of the row is charged, and no other group or column changes. */
  ghost predicate Charges(before: Groups, after: Groups, gid: string, bytes: nat) {
    && after.Keys == before.Keys
    && forall g :: g in before ==>
         after[g] == before[g].(payloadBytes := before[g].payloadBytes + (if g == gid then bytes else 0))
  }

  /** What a fold does with the text of the record: a row that never had one adopts it and its group
      is charged; otherwise payload, files and groups stay as they are. */
  ghost predicate Adopts(db: Db, db': Db, id: nat, text: seq<byte>, cap: nat, storedBytes: nat)
    requires id in db.records && id in db'.records
  {
    if db.records[id].state == Absent && text != [] then
      && HoldsText(db'.records[id], db'.files, id, text, cap, storedBytes)
      && SameOtherFiles(db.files, db'.files, id)
      && Charges(db.groups, db'.groups, db.records[id].group, storedBytes)
    else SamePayload(db'.records[id], db.records[id]) && db'.files == db.files && db'.groups == db.groups
  }

  lemma RawReads(source: PayloadSource, disk: map<string, seq<byte>>)
    ensures RawPayload(source, disk).Ok? ==> Reads(source, disk, RawPayload(source, disk).value)
    ensures forall text :: Reads(source, disk, text) ==> RawPayload(source, disk) == Ok(text)
  {
  }

  lemma ChargeIsCharges(groups: Groups, gid: string, bytes: nat)
    ensures Charges(groups, Charge(groups, gid, bytes), gid, bytes)
  {
  }

  /** A successful fold gives a row without payload the record's text, and leaves any other payload
      alone; the text is needed only where it is adopted. */
  lemma FoldAdopts(db: Db, id: nat, r: CrashRecord, cap: nat, keys: seq<string>, nowMs: Ms, fate: Fate)
    requires FoldInto(db, id, r, cap, keys, nowMs, fate).1.Ok?
    ensures var db' := FoldInto(db, id, r, cap, keys, nowMs, fate).0;
            && id in db.records && id in db'.records
            && (db.records[id].state == Absent ==> exists text :: Reads(r.payload, fate.disk, text))
            && (forall text :: Reads(r.payload, fate.disk, text) ==> Adopts(db, db', id, text, cap, fate.storedBytes))
            && (db.records[id].state != Absent ==> Adopts(db, db', id, [], cap, fate.storedBytes))
  {
    RawReads(r.payload, fate.disk);
    ChargeIsCharges(db.groups, db.records[id].group, fate.storedBytes);
  }

  /** A successful insert gives its row the record's text, or no payload if there is none. */
  lemma InsertHolds(db: Db, r: CrashRecord, gid: string, cap: nat, keys: seq<string>, nowMs: Ms, fate: Fate)
    requires InsertWithSources(db, r, gid, cap, keys, nowMs, fate).1.Ok?
    ensures var id, db' := NewId(db, r), InsertWithSources(db, r, gid, cap, keys, nowMs, fate).0;
            && id in db'.records && SameOtherFiles(db.files, db'.files, id)
            && (exists text :: Reads(r.payload, fate.disk, text))
            && forall text :: Reads(r.payload, fate.disk, text) ==>
                 if text != [] then HoldsText(db'.records[id], db'.files, id, text, cap, fate.storedBytes)
                 else db'.records[id].path == None && db'.records[id].bytes == 0 && db'.records[id].state == Absent
  {
    RawReads(r.payload, fate.disk);
  }

  /** A transaction that fails takes the file it had written with it, if the clean-up works. */
  lemma FailedInsertLeavesNoFile(db: Db, r: CrashRecord, gid: string, cap: nat, keys: seq<string>, nowMs: Ms, fate: Fate)
    requires InsertWithSources(db, r, gid, cap, keys, nowMs, fate).1.Err? && !fate.writeFails && fate.cleans
    ensures var files := InsertWithSources(db, r, gid, cap, keys, nowMs, fate).0.files;
            files == if Reads(r.payload, fate.disk, []) || forall text :: !Reads(r.payload, fate.disk, text) then db.files
                     else db.files - {RelativePath(NewId(db, r))}
  {
    RawReads(r.payload, fate.disk);
  }

  // ---------------------------------------------------------------- what an insert leaves in the tables

  /** The row carries the record's columns, and says whether its group was there before. */
  predicate RowTells(row: Row, r: CrashRecord, gid: string, repeating: bool) {
    && row.group == gid && row.isRepeating == repeating
    && row.happenedAtMs == r.happenedAtMs && row.pid == r.pid && row.sources == r.sources
    && row.versionName == r.versionName && row.versionCode == r.versionCode
    && row.isForeground == r.isForeground && row.droppedCount == r.droppedCount
  }

  /** The columns that every crash of a group brings anew. */
  predicate TellsLatest(g: Group, r: CrashRecord) {
    g.selfHandled == r.selfHandled && g.isSystemApp == r.isSystemApp && g.packageInstalled == r.packageInstalled
  }

  /** The columns that the first crash of a group settles. */
  predicate TellsFirst(g: Group, r: CrashRecord) {
    && g.packageName == r.packageName && g.processName == r.processName && g.userId == r.userId && g.kind == r.kind
    && (g.isMainProcess <==> r.packageName == r.processName)
  }

  predicate SameFirst(a: Group, b: Group) {
    && a.packageName == b.packageName && a.processName == b.processName && a.userId == b.userId && a.kind == b.kind
    && a.isMainProcess == b.isMainProcess
  }

  /** One crash of a group that had none. */
  predicate Begins(after: Group, r: CrashRecord, bytes: nat) {
    && TellsFirst(after, r) && TellsLatest(after, r)
    && after.summaryClass == r.summaryClass && after.summaryText == r.summaryText
    && after.occurrence == 1 && after.payloadBytes == bytes
    && after.firstSeenMs == r.happenedAtMs && after.lastSeenMs == r.happenedAtMs
  }

  /** One crash more of a group. */
  predicate Gains(before: Group, after: Group, r: CrashRecord, bytes: nat) {
    && SameFirst(after, before) && TellsLatest(after, r)
    && after.summaryClass == (if r.summaryClass.Some? then r.summaryClass else before.summaryClass)
    && after.summaryText == (if r.summaryText.Some? then r.summaryText else before.summaryText)
    && after.occurrence == before.occurrence + 1 && after.payloadBytes == before.payloadBytes + bytes
    && after.firstSeenMs == (if r.happenedAtMs < before.firstSeenMs then r.happenedAtMs else before.firstSeenMs)
    && after.lastSeenMs == (if r.happenedAtMs > before.lastSeenMs then r.happenedAtMs else before.lastSeenMs)
  }

  /** The group gains the crash, or begins with it; every other group is as it was. */
  ghost predicate GroupGains(before: Groups, after: Groups, gid: string, r: CrashRecord, bytes: nat) {
    && after.Keys == before.Keys + {gid}
    && (forall g :: g in before && g != gid ==> after[g] == before[g])
    && if gid in before then Gains(before[gid], after[gid], r, bytes) else Begins(after[gid], r, bytes)
  }

  lemma UpsertGains(groups: Groups, gid: string, r: CrashRecord, bytes: nat)
    ensures GroupGains(groups, UpsertGroup(groups, gid, r, bytes), gid, r, bytes)
  {
  }

  lemma NewRowTells(gid: string, r: CrashRecord, repeating: bool, w: Option<Written>)
    ensures RowTells(NewRow(gid, r, repeating, w), r, gid, repeating) && NewRow(gid, r, repeating, w).bytes == BytesOf(w)
  {
  }
}
