/**
 Recording one merged crash: enrichment, the configured exclusion, the fold into a stored
 companion or the insert, and the sweep that follows an insert. Everything the daemon reads
 from elsewhere, and every failure, comes from an explicit environment.
 */
module Ingest {
  import opened Model
  import opened Ids
  import opened Tables
  import opened Writes
  import opened WritesSound
  import opened Retention

  /** One call's surroundings: what enrichment and configuration answer, the group id the
      fingerprint hashes to, which of several equally near companions the query returns, and
      where a step fails. `marks` is how many keys an exclusion manages to mark. */
  datatype Env = Env(
    enrichFails: bool,
    versionName: Option<string>,
    versionCode: Option<int>,
    isSystemApp: bool,
    packageInstalled: bool,
    accepted: bool,
    marks: nat,
    lookupFails: bool,
    tie: nat,
    groupId: string,
    policy: Policy,
    fate: Fate,
    nowMs: Ms,
    sweepFails: bool,
    sweepMs: Ms)

  datatype Outcome = Stored(id: nat) | Folded(id: nat) | Excluded | Failed

  /** Enrichment settles the version and origin columns and nothing else. */
  function Enrich(r: CrashRecord, env: Env): CrashRecord {
    r.(versionName := env.versionName, versionCode := env.versionCode,
       isSystemApp := env.isSystemApp, packageInstalled := env.packageInstalled)
  }

  ghost function Exclude(db: Db, keys: seq<string>, env: Env): (Db, Outcome) {
    if env.marks < |keys| then (db.(ingested := MarkAll(db.ingested, keys[..env.marks], env.nowMs)), Failed)
    else (db.(ingested := MarkAll(db.ingested, keys, env.nowMs)), Excluded)
  }

  ghost function AfterInsert(db: Db, env: Env): Db {
    if env.sweepFails then db else Sweep(db, env.sweepMs, env.policy)
  }

  /** The one transaction of an accepted crash: a fold into its companion, or an insert. */
  ghost function Attempt(db: Db, r: CrashRecord, keys: seq<string>, env: Env): (Db, Outcome) {
    var found := Companion(db, r, CompanionWindow(r.kind), env.tie);
    if found.Some? then
      var f := FoldInto(db, found.value, r, env.policy.bytesPerRecord, keys, env.nowMs, env.fate);
      (f.0, if f.1.Ok? then Folded(found.value) else Failed)
    else
      var i := InsertWithSources(db, r, env.groupId, env.policy.bytesPerRecord, keys, env.nowMs, env.fate);
      (i.0, if i.1.Ok? then Stored(i.1.value) else Failed)
  }

  /** What is committed before any sweep. */
  ghost function Committed(db: Db, r: CrashRecord, keys: seq<string>, env: Env): (Db, Outcome) {
    if env.enrichFails then (db, Failed)
    else if !env.accepted then Exclude(db, keys, env)
    else if env.lookupFails then (db, Failed)
    else Attempt(db, Enrich(r, env), keys, env)
  }

  ghost function IngestWithSources(db: Db, r: CrashRecord, keys: seq<string>, env: Env): (Db, Outcome) {
    var done := Committed(db, r, keys, env);
    (if done.1.Stored? then AfterInsert(done.0, env) else done.0, done.1)
  }

  // ---------------------------------------------------------------- the store stays sound

  lemma AttemptSound(db: Db, exact: bool, r: CrashRecord, keys: seq<string>, env: Env)
    requires Sound(db, exact) && IdRoom(db, r)
    ensures Sound(Attempt(db, r, keys, env).0, exact)
  {
    var found := Companion(db, r, CompanionWindow(r.kind), env.tie);
    if found.Some? {
      FoldSound(db, exact, found.value, r, env.policy.bytesPerRecord, keys, env.nowMs, env.fate);
    } else {
      InsertSound(db, exact, r, env.groupId, env.policy.bytesPerRecord, keys, env.nowMs, env.fate);
    }
  }

  lemma CommittedSound(db: Db, exact: bool, r: CrashRecord, keys: seq<string>, env: Env)
    requires Sound(db, exact) && IdRoom(db, r)
    ensures Sound(Committed(db, r, keys, env).0, exact)
  {
    SoundIgnoresKeys(db, exact, Committed(db, r, keys, env).0.ingested);
    AttemptSound(db, exact, Enrich(r, env), keys, env);
  }

  /** Whatever happens to it, one ingest leaves the store sound. */
  lemma IngestSound(db: Db, exact: bool, r: CrashRecord, keys: seq<string>, env: Env)
    requires Sound(db, exact) && IdRoom(db, r)
    ensures Sound(IngestWithSources(db, r, keys, env).0, exact)
  {
    CommittedSound(db, exact, r, keys, env);
    SweepSound(Committed(db, r, keys, env).0, exact, env.sweepMs, env.policy);
  }

  // ---------------------------------------------------------------- keys and rows commit together

  /** The text of the record can be read. */
  ghost predicate HasText(r: CrashRecord, env: Env) { exists text :: Reads(r.payload, env.fate.disk, text) }

  /** The new row holds the text, or none if there is none. */
  ghost predicate StoresText(db: Db, db': Db, r: CrashRecord, env: Env, id: nat)
    requires id in db'.records
  {
    && HasText(r, env) && SameOtherFiles(db.files, db'.files, id)
    && forall text :: Reads(r.payload, env.fate.disk, text) ==>
         var row := db'.records[id];
         if text != [] then HoldsText(row, db'.files, id, text, env.policy.bytesPerRecord, env.fate.storedBytes)
         else row.path == None && row.bytes == 0 && row.state == Absent
  }

  /** The insert left one row more, under an id that no row had: it tells the record's columns and
      holds its text, and its group gains it. */
  ghost predicate StoresRow(db: Db, db': Db, r: CrashRecord, env: Env, id: nat) {
    && id !in db.records && db'.records.Keys == db.records.Keys + {id}
    && (forall j :: j in db.records ==> db'.records[j] == db.records[j])
    && RowTells(db'.records[id], r, env.groupId, env.groupId in db.groups)
    && StoresText(db, db', r, env, id)
    && GroupGains(db.groups, db'.groups, env.groupId, r, db'.records[id].bytes)
  }

  /** What the fold did with the text of the record. */
  ghost predicate AdoptsText(db: Db, db': Db, r: CrashRecord, env: Env, id: nat)
    requires id in db.records && id in db'.records
  {
    if db.records[id].state == Absent then
      && HasText(r, env)
      && forall text :: Reads(r.payload, env.fate.disk, text) ==>
           Adopts(db, db', id, text, env.policy.bytesPerRecord, env.fate.storedBytes)
    else Adopts(db, db', id, [], env.policy.bytesPerRecord, env.fate.storedBytes)
  }

  /** The fold changed one row, a nearest companion of the record, which gained its sources, and
      its text if it never had one. */
  ghost predicate FoldsRow(db: Db, db': Db, r: CrashRecord, env: Env, id: nat) {
    && IsCompanion(db, r, CompanionWindow(r.kind), id)
    && db'.records.Keys == db.records.Keys
    && db'.records[id].(path := db.records[id].path, bytes := db.records[id].bytes, state := db.records[id].state)
       == db.records[id].(sources := db.records[id].sources + r.sources)
    && (forall j :: j in db.records && j != id ==> db'.records[j] == db.records[j])
    && AdoptsText(db, db', r, env, id)
  }

  lemma FoldCommits(db: Db, id: nat, r: CrashRecord, keys: seq<string>, env: Env)
    requires IsCompanion(db, r, CompanionWindow(r.kind), id)
    ensures var f := FoldInto(db, id, r, env.policy.bytesPerRecord, keys, env.nowMs, env.fate);
            if f.1.Ok? then FoldsRow(db, f.0, r, env, id) && f.0.ingested == MarkAll(db.ingested, keys, env.nowMs)
            else f.0.records == db.records && f.0.groups == db.groups && f.0.ingested == db.ingested
  {
    if FoldInto(db, id, r, env.policy.bytesPerRecord, keys, env.nowMs, env.fate).1.Ok? {
      FoldAdopts(db, id, r, env.policy.bytesPerRecord, keys, env.nowMs, env.fate);
    }
  }

  lemma InsertStores(db: Db, r: CrashRecord, keys: seq<string>, env: Env)
    requires InsertWithSources(db, r, env.groupId, env.policy.bytesPerRecord, keys, env.nowMs, env.fate).1.Ok?
    ensures var i := InsertWithSources(db, r, env.groupId, env.policy.bytesPerRecord, keys, env.nowMs, env.fate);
            StoresRow(db, i.0, r, env, i.1.value)
  {
    var id := NewId(db, r);
    var w := WritePayload(db.files, id, r.payload, env.policy.bytesPerRecord, env.fate).1.value;
    InsertHolds(db, r, env.groupId, env.policy.bytesPerRecord, keys, env.nowMs, env.fate);
    NewRowTells(env.groupId, r, env.groupId in db.groups, w);
    UpsertGains(db.groups, env.groupId, r, BytesOf(w));
  }

  lemma InsertCommits(db: Db, r: CrashRecord, keys: seq<string>, env: Env)
    ensures var i := InsertWithSources(db, r, env.groupId, env.policy.bytesPerRecord, keys, env.nowMs, env.fate);
            if i.1.Ok? then StoresRow(db, i.0, r, env, i.1.value) && i.0.ingested == MarkAll(db.ingested, keys, env.nowMs)
            else i.0.records == db.records && i.0.groups == db.groups && i.0.ingested == db.ingested
  {
    if InsertWithSources(db, r, env.groupId, env.policy.bytesPerRecord, keys, env.nowMs, env.fate).1.Ok? {
      InsertStores(db, r, keys, env);
    }
  }

  /** Where a recorded crash ended up. */
  ghost predicate Keeps(db: Db, db': Db, r: CrashRecord, env: Env, o: Outcome)
    requires o.Stored? || o.Folded?
  {
    if o.Stored? then !HasCompanion(db, r, CompanionWindow(r.kind)) && StoresRow(db, db', r, env, o.id)
    else FoldsRow(db, db', r, env, o.id)
  }

  lemma AttemptCommits(db: Db, r: CrashRecord, keys: seq<string>, env: Env)
    ensures var a := Attempt(db, r, keys, env);
            && (a.1.Stored? || a.1.Folded? ==>
                  Keeps(db, a.0, r, env, a.1) && a.0.ingested == MarkAll(db.ingested, keys, env.nowMs))
            && (a.1.Failed? ==>
                  a.0.records == db.records && a.0.groups == db.groups && a.0.ingested == db.ingested)
            && !a.1.Excluded?
  {
    var found := Companion(db, r, CompanionWindow(r.kind), env.tie);
    if found.Some? {
      FoldCommits(db, found.value, r, keys, env);
    } else {
      InsertCommits(db, r, keys, env);
    }
  }

  /** A crash and its source keys commit together: as a row of its own under a new id, if no stored
      row is its companion, or in a nearest companion, which gains its sources. A failure of an
      accepted crash leaves rows, groups and keys as they were; an exclusion touches only the keys. */
  lemma CommitsTogether(db: Db, r: CrashRecord, keys: seq<string>, env: Env)
    ensures var done := Committed(db, r, keys, env);
            && (done.1.Stored? || done.1.Folded? ==>
                  && Keeps(db, done.0, Enrich(r, env), env, done.1)
                  && done.0.ingested == MarkAll(db.ingested, keys, env.nowMs))
            && (done.1.Failed? && env.accepted ==>
                  done.0.records == db.records && done.0.groups == db.groups && done.0.ingested == db.ingested)
            && (!env.accepted ==>
                  done.0.records == db.records && done.0.groups == db.groups && done.0.files == db.files)
  {
    if !env.enrichFails && env.accepted && !env.lookupFails {
      AttemptCommits(db, Enrich(r, env), keys, env);
    }
  }

  /** What the row of a stored crash says: the versions as enrichment found them, all else as the
      crash brought it. */
  lemma StoredColumns(db: Db, r: CrashRecord, keys: seq<string>, env: Env)
    requires Committed(db, r, keys, env).1.Stored?
    ensures var id, db' := Committed(db, r, keys, env).1.id, Committed(db, r, keys, env).0;
            && id !in db.records && id in db'.records
            && var row := db'.records[id];
               && row.group == env.groupId && (row.isRepeating <==> env.groupId in db.groups)
               && row.versionName == env.versionName && row.versionCode == env.versionCode
               && row.happenedAtMs == r.happenedAtMs && row.pid == r.pid && row.sources == r.sources
               && row.isForeground == r.isForeground && row.droppedCount == r.droppedCount
               && env.groupId in db'.groups
               && db'.groups[env.groupId].isSystemApp == env.isSystemApp
               && db'.groups[env.groupId].packageInstalled == env.packageInstalled
               && db'.groups[env.groupId].selfHandled == r.selfHandled
  {
    CommitsTogether(db, r, keys, env);
  }

  // ---------------------------------------------------------------- a second view of a stored crash

  /** The stored row is the same crash seen by another source, or the same artefact read again: same
      known pid, process, kind and user, and the same millisecond; or, for a crash that ended its
      process, at most ten seconds apart with no source in common. */
  predicate IsSecondView(db: Db, r: CrashRecord, id: nat) {
    && r.pid != 0 && id in db.records && db.records[id].group in db.groups && db.records[id].pid == r.pid
    && var row, g := db.records[id], db.groups[db.records[id].group];
       && g.processName == r.processName && g.kind == r.kind && g.userId == r.userId
       && (row.happenedAtMs == r.happenedAtMs
           || ((r.kind == JavaException || r.kind == NativeCrash)
               && -10_000 <= row.happenedAtMs - r.happenedAtMs <= 10_000
               && forall s :: s in row.sources ==> s !in r.sources))
  }

  lemma SecondViewExactly(db: Db, r: CrashRecord, id: nat)
    ensures Qualifies(db, r, CompanionWindow(r.kind), id) <==> IsSecondView(db, r, id)
  {
  }

  /** A recorded crash is folded exactly if some stored row is a second view of it, and then into one
      of the nearest of these; otherwise it is stored as a row of its own. */
  lemma FoldsExactly(db: Db, r: CrashRecord, keys: seq<string>, env: Env)
    requires env.accepted
    ensures var o := IngestWithSources(db, r, keys, env).1;
            && !o.Excluded?
            && (o.Folded? ==>
                  && IsSecondView(db, r, o.id)
                  && forall j :: IsSecondView(db, r, j) ==>
                       Distance(db.records[o.id].happenedAtMs, r.happenedAtMs) <= Distance(db.records[j].happenedAtMs, r.happenedAtMs))
            && (o.Stored? ==> forall j :: !IsSecondView(db, r, j))
  {
    var e := Enrich(r, env);
    forall j: nat
      ensures Qualifies(db, e, CompanionWindow(r.kind), j) <==> IsSecondView(db, r, j)
    {
      SecondViewExactly(db, e, j);
    }
    CommitsTogether(db, r, keys, env);
  }

  // ---------------------------------------------------------------- reading the same crash again

  /** A stored row describes the record: same pid, process, kind, user and millisecond. */
  predicate SameCrash(db: Db, r: CrashRecord, id: nat) {
    && id in db.records
    && db.records[id].group in db.groups
    && db.records[id].pid == r.pid
    && db.groups[db.records[id].group].processName == r.processName
    && db.groups[db.records[id].group].kind == r.kind
    && db.groups[db.records[id].group].userId == r.userId
    && db.records[id].happenedAtMs == r.happenedAtMs
  }

  /** No row, group or occurrence was added or lost. */
  ghost predicate SameCounts(db: Db, db': Db) {
    && db'.records.Keys == db.records.Keys
    && db'.groups.Keys == db.groups.Keys
    && forall g :: g in db.groups ==> db'.groups[g].occurrence == db.groups[g].occurrence
  }

  lemma FoldKeepsCounts(db: Db, id: nat, r: CrashRecord, cap: nat, keys: seq<string>, nowMs: Ms, fate: Fate)
    ensures SameCounts(db, FoldInto(db, id, r, cap, keys, nowMs, fate).0)
  {
  }

  /** An accepted record that agrees with a stored row on pid, process, kind, user and exact
      millisecond adds no row, group or occurrence, whatever else is stored and however the
      call ends; if it succeeds, it is folded into a row of that same millisecond. */
  lemma ReingestAddsNothing(db: Db, r: CrashRecord, keys: seq<string>, env: Env, id: nat)
    requires env.accepted && r.pid != 0 && SameCrash(db, r, id)
    ensures SameCounts(db, IngestWithSources(db, r, keys, env).0)
    ensures var o := IngestWithSources(db, r, keys, env).1;
            o.Failed? || (o.Folded? && o.id in db.records && db.records[o.id].happenedAtMs == r.happenedAtMs)
  {
    var e, window := Enrich(r, env), CompanionWindow(r.kind);
    assert Qualifies(db, e, window, id);
    assert Gap(db, e, id) == 0;
    var found := Companion(db, e, window, env.tie);
    FoldKeepsCounts(db, found.value, e, env.policy.bytesPerRecord, keys, env.nowMs, env.fate);
  }

  lemma FoldedInto(db: Db, id: nat, r: CrashRecord, cap: nat, keys: seq<string>, nowMs: Ms, fate: Fate)
    requires FoldInto(db, id, r, cap, keys, nowMs, fate).1.Ok?
    ensures var db' := FoldInto(db, id, r, cap, keys, nowMs, fate).0;
            && id in db.records && id in db'.records
            && db'.records[id].sources == db.records[id].sources + r.sources
            && db'.records[id].happenedAtMs == db.records[id].happenedAtMs
            && db'.records[id].group == db.records[id].group
            && db'.records[id].pid == db.records[id].pid
            && (forall j :: j in db.records && j != id ==> j in db'.records && db'.records[j] == db.records[j])
  {
  }

  /** What a fold does: the target is a nearest qualifying row; its sources grow by exactly the
      record's, it adopts the record's text if it never had one, its time, group and pid stay, no
      other row changes, and no occurrence is counted. */
  lemma FoldIsLocal(db: Db, r: CrashRecord, keys: seq<string>, env: Env)
    requires IngestWithSources(db, r, keys, env).1.Folded?
    ensures var id, db' := IngestWithSources(db, r, keys, env).1.id, IngestWithSources(db, r, keys, env).0;
            && IsCompanion(db, Enrich(r, env), CompanionWindow(r.kind), id)
            && SameCounts(db, db')
            && db'.records[id].sources == db.records[id].sources + r.sources
            && db'.records[id].happenedAtMs == db.records[id].happenedAtMs
            && db'.records[id].group == db.records[id].group
            && db'.records[id].pid == db.records[id].pid
            && (forall j :: j in db.records && j != id ==> db'.records[j] == db.records[j])
            && AdoptsText(db, db', r, env, id)
  {
    var id, e := IngestWithSources(db, r, keys, env).1.id, Enrich(r, env);
    FoldAdopts(db, id, e, env.policy.bytesPerRecord, keys, env.nowMs, env.fate);
    FoldedInto(db, id, e, env.policy.bytesPerRecord, keys, env.nowMs, env.fate);
    FoldKeepsCounts(db, id, e, env.policy.bytesPerRecord, keys, env.nowMs, env.fate);
  }

  /** An ANR or a WTF folds only on the exact millisecond. */
  lemma SurvivorsFoldExactly(db: Db, r: CrashRecord, keys: seq<string>, env: Env)
    requires IngestWithSources(db, r, keys, env).1.Folded? && (r.kind == Anr || r.kind == Wtf)
    ensures var id := IngestWithSources(db, r, keys, env).1.id;
            id in db.records && db.records[id].happenedAtMs == r.happenedAtMs
  {
  }

  /** The row a record was folded into qualifies for the same record again exactly when their
      milliseconds are equal: otherwise their source masks overlap now. */
  lemma FoldTargetAgain(db: Db, r: CrashRecord, keys: seq<string>, env: Env, again: CrashRecord)
    requires IngestWithSources(db, r, keys, env).1.Folded?
    requires SameSighting(r, again)
    ensures var id, db' := IngestWithSources(db, r, keys, env).1.id, IngestWithSources(db, r, keys, env).0;
            && id in db.records
            && (Qualifies(db', again, CompanionWindow(r.kind), id)
                <==> r.sources == {} || db.records[id].happenedAtMs == r.happenedAtMs)
  {
    var id, db' := IngestWithSources(db, r, keys, env).1.id, IngestWithSources(db, r, keys, env).0;
    FoldIsLocal(db, r, keys, env);
    FoldKeepsGroups(db, r, keys, env);
    if r.sources != {} {
      var s :| s in r.sources;
      assert s in db'.records[id].sources && s in again.sources;
    }
  }

  /** The same crash, up to what enrichment settles. */
  predicate SameSighting(r: CrashRecord, again: CrashRecord) {
    && again.kind == r.kind && again.processName == r.processName && again.userId == r.userId
    && again.pid == r.pid && again.happenedAtMs == r.happenedAtMs && again.sources == r.sources
  }

  /** Same groups up to their byte totals. */
  ghost predicate SameButBytes(before: Groups, after: Groups) {
    && after.Keys == before.Keys
    && forall g :: g in before ==> after[g].(payloadBytes := before[g].payloadBytes) == before[g]
  }

  lemma ChargeTouchesBytes(groups: Groups, gid: string, bytes: nat)
    ensures SameButBytes(groups, Charge(groups, gid, bytes))
  {
  }

  lemma FoldTouchesBytes(db: Db, id: nat, r: CrashRecord, cap: nat, keys: seq<string>, nowMs: Ms, fate: Fate)
    requires FoldInto(db, id, r, cap, keys, nowMs, fate).1.Ok?
    ensures SameButBytes(db.groups, FoldInto(db, id, r, cap, keys, nowMs, fate).0.groups)
  {
    var w := FoldWrite(db, id, r, cap, fate).1.value;
    if w.Some? {
      ChargeTouchesBytes(db.groups, db.records[id].group, w.value.bytes);
    }
  }

  lemma FoldKeepsGroups(db: Db, r: CrashRecord, keys: seq<string>, env: Env)
    requires IngestWithSources(db, r, keys, env).1.Folded?
    ensures SameButBytes(db.groups, IngestWithSources(db, r, keys, env).0.groups)
  {
    var id, e := IngestWithSources(db, r, keys, env).1.id, Enrich(r, env);
    FoldTouchesBytes(db, id, e, env.policy.bytesPerRecord, keys, env.nowMs, env.fate);
  }

  /** What guards a folded record against a replay, seen before the fold: it names no source, the
      chosen row has its millisecond, or another stored row is its companion too. */
  ghost predicate Guarded(db: Db, r: CrashRecord, id: nat)
    requires id in db.records
  {
    || r.sources == {}
    || db.records[id].happenedAtMs == r.happenedAtMs
    || exists j :: j != id && Qualifies(db, r, CompanionWindow(r.kind), j)
  }

  /** After a fold, the same record again finds a companion exactly when it was guarded. */
  lemma ReplayFindsCompanion(db: Db, r: CrashRecord, keys: seq<string>, env: Env, again: CrashRecord)
    requires IngestWithSources(db, r, keys, env).1.Folded?
    requires SameSighting(r, again)
    ensures var id, db' := IngestWithSources(db, r, keys, env).1.id, IngestWithSources(db, r, keys, env).0;
            && id in db.records
            && (HasCompanion(db', again, CompanionWindow(r.kind)) <==> Guarded(db, r, id))
  {
    var id, db' := IngestWithSources(db, r, keys, env).1.id, IngestWithSources(db, r, keys, env).0;
    var w := CompanionWindow(r.kind);
    FoldIsLocal(db, r, keys, env);
    FoldTargetAgain(db, r, keys, env, again);
    FoldKeepsGroups(db, r, keys, env);
    forall j | j != id
      ensures Qualifies(db', again, w, j) <==> Qualifies(db, r, w, j)
    {
      assert j in db'.records <==> j in db.records;
    }
  }

  /** So a second reading of a folded record is stored as a row of its own exactly when nothing
      guards it; only the record's source keys can then keep it away. */
  lemma ReplayStoresExactly(db: Db, r: CrashRecord, keys: seq<string>, env: Env, keys2: seq<string>, env2: Env)
    requires IngestWithSources(db, r, keys, env).1.Folded? && env2.accepted
    ensures var id, db' := IngestWithSources(db, r, keys, env).1.id, IngestWithSources(db, r, keys, env).0;
            var o := IngestWithSources(db', r, keys2, env2).1;
            && id in db.records
            && (o.Failed? || (o.Stored? && !Guarded(db, r, id) && o.id !in db'.records) || (o.Folded? && Guarded(db, r, id)))
  {
    var db' := IngestWithSources(db, r, keys, env).0;
    ReplayFindsCompanion(db, r, keys, env, Enrich(r, env2));
    CommitsTogether(db', r, keys2, env2);
  }

  // ---------------------------------------------------------------- a replay that is stored

  function SampleRecord(source: Source, atMs: Ms): CrashRecord {
    CrashRecord(JavaException, "app", "app", 0, 7, atMs, None, None, false, true, None, false, None, {source}, None, None,
                "JavaException", [], NoPayload)
  }

  /** Nothing fails; no sweep runs. */
  function SampleEnv(): Env {
    Env(false, None, None, false, true, true, 0, false, 0, "group", Policy(0, 0, 0, 0, 0), Fate(map[], false, None, 0, true, true),
        0, true, 0)
  }

  /** Reading `source` at `atMs` into the store. */
  ghost function Read(db: Db, source: Source, atMs: Ms): (Db, Outcome) {
    IngestWithSources(db, SampleRecord(source, atMs), [], SampleEnv())
  }

  lemma ReadCommits(db: Db, source: Source, atMs: Ms)
    requires NewId(db, SampleRecord(source, atMs)) !in db.records
    ensures var env, done := SampleEnv(), Read(db, source, atMs);
            && (done.1.Stored? || done.1.Folded?)
            && Keeps(db, done.0, Enrich(SampleRecord(source, atMs), env), env, done.1)
            && (done.1.Stored? ==> done.1.id == NewId(db, SampleRecord(source, atMs)))
            && done.0.gen == (if done.1.Stored? then NextGen(db, SampleRecord(source, atMs)) else db.gen)
  {
    CommitsTogether(db, SampleRecord(source, atMs), [], SampleEnv());
  }

  /** A store with one Java exception of process 7, seen in the events at `atMs`. */
  ghost predicate HoldsEvent(db: Db, id: nat, atMs: Ms) {
    && db.records.Keys == {id} && db.groups.Keys == {"group"}
    && db.records[id].group == "group" && db.records[id].pid == 7 && db.records[id].happenedAtMs == atMs
    && db.records[id].sources == {Events}
    && db.groups["group"].processName == "app" && db.groups["group"].kind == JavaException && db.groups["group"].userId == 0
  }

  lemma EventIsStored()
    ensures var one := Read(EmptyDb(), Events, 1_000);
            one.1 == Stored(GenValue(Gen(1_000, 0))) && one.0.gen == Gen(1_000, 0) && HoldsEvent(one.0, one.1.id, 1_000)
  {
    ReadCommits(EmptyDb(), Events, 1_000);
  }

  lemma EntryIsFolded(db: Db, id: nat)
    requires HoldsEvent(db, id, 1_000) && id == GenValue(Gen(1_000, 0)) && db.gen == Gen(1_000, 0)
    ensures var two := Read(db, Dropbox, 1_500);
            two.1 == Folded(id) && two.0.records.Keys == {id} && two.0.gen == db.gen
  {
    ReadCommits(db, Dropbox, 1_500);
    assert Qualifies(db, Enrich(SampleRecord(Dropbox, 1_500), SampleEnv()), DEFAULT_MERGE_WINDOW_MS, id);
  }

  lemma EntryIsStoredAgain(db: Db, id: nat)
    requires HoldsEvent(db, id, 1_000) && id == GenValue(Gen(1_000, 0)) && db.gen == Gen(1_000, 0)
    requires Read(db, Dropbox, 1_500).1 == Folded(id)
    requires Read(db, Dropbox, 1_500).0.records.Keys == {id} && Read(db, Dropbox, 1_500).0.gen == db.gen
    ensures var two := Read(db, Dropbox, 1_500).0;
            var three := Read(two, Dropbox, 1_500);
            three.1.Stored? && three.1.id != id && three.0.records.Keys == {id, three.1.id}
  {
    var two := Read(db, Dropbox, 1_500).0;
    ReadCommits(two, Dropbox, 1_500);
    ReplayStoresExactly(db, SampleRecord(Dropbox, 1_500), [], SampleEnv(), [], SampleEnv());
  }

  /** The event of a crash is stored, its dropbox entry half a second later is folded into it, and
      the dropbox entry read again is stored as a second row. */
  lemma ReplayIsStored()
    ensures var one := Read(EmptyDb(), Events, 1_000);
            var two := Read(one.0, Dropbox, 1_500);
            var three := Read(two.0, Dropbox, 1_500);
            && one.1.Stored? && two.1 == Folded(one.1.id) && two.0.records.Keys == {one.1.id}
            && three.1.Stored? && three.1.id != one.1.id && three.0.records.Keys == {one.1.id, three.1.id}
  {
    EventIsStored();
    var one := Read(EmptyDb(), Events, 1_000);
    EntryIsFolded(one.0, one.1.id);
    EntryIsStoredAgain(one.0, one.1.id);
  }
}
