/** Whole lifetimes of the store: every mix of ingests, sweeps, deletions, key marks and restarts. */
module StoreRuns {
  import opened Model
  import opened Ids
  import opened Tables
  import opened Chunks
  import opened Writes
  import opened WritesSound
  import opened Retention
  import opened Lifecycle
  import opened Ingest

  datatype StoreOp =
    | IngestOp(record: CrashRecord, keys: seq<string>, env: Env)
    | SweepOp(nowMs: Ms, policy: Policy)
    | DeleteOp(target: DeleteTarget)
    | MarkOp(key: string, nowMs: Ms)
    | Restart

  ghost function Apply(db: Db, op: StoreOp): Db {
    match op
    case IngestOp(r, keys, env) => IngestWithSources(db, r, keys, env).0
    case SweepOp(nowMs, p) => Sweep(db, nowMs, p)
    case DeleteOp(target) => Delete(db, target)
    case MarkOp(key, nowMs) => db.(ingested := MarkAll(db.ingested, [key], nowMs))
    case Restart => Open(db)
  }

  /** An ingest needs room for one more id: a clock below 2^48 ms and an unexhausted sequence. */
  predicate HasRoom(db: Db, op: StoreOp) { op.IngestOp? ==> IdRoom(db, op.record) }

  /** Deleting by ids is the one operation that leaves the byte totals of groups alone. */
  predicate KeepsBytesExact(op: StoreOp) { op.DeleteOp? ==> !op.target.OfIds? }

  lemma ApplySound(db: Db, exact: bool, op: StoreOp)
    requires Sound(db, exact) && HasRoom(db, op) && (exact ==> KeepsBytesExact(op))
    ensures Sound(Apply(db, op), exact)
  {
    match op
    case IngestOp(r, keys, env) => IngestSound(db, exact, r, keys, env);
    case SweepOp(nowMs, p) => SweepSound(db, exact, nowMs, p);
    case DeleteOp(target) =>
      DeletePayloads(db, target);
      if target.OfIds? {
        DeleteByIdsAggregates(db, target.ids);
      } else {
        DeleteWholeAggregates(db, exact, target);
      }
    case MarkOp(key, nowMs) => SoundIgnoresKeys(db, exact, MarkAll(db.ingested, [key], nowMs));
    case Restart => OpenSound(db, exact);
  }

  /** A lifetime: the states before each operation and after the last. */
  ghost predicate IsRun(states: seq<Db>, ops: seq<StoreOp>) {
    && |states| == |ops| + 1
    && states[0] == EmptyDb()
    && forall i :: 0 <= i < |ops| ==> HasRoom(states[i], ops[i]) && states[i + 1] == Apply(states[i], ops[i])
  }

  lemma EmptySound()
    ensures Sound(EmptyDb(), true)
  {
  }

  lemma SoundWeakens(db: Db)
    requires Sound(db, true)
    ensures Sound(db, false)
  {
    forall g | g in db.groups
      ensures GroupHonest(db.records, g, db.groups[g], false)
    {
    }
  }

  /** In every state of every lifetime: each group's occurrence count covers its surviving rows,
      its first and last sighting bracket them, its byte total is at least their sum; every row
      with a readable payload owns an existing file of its own; and the generator is at or past
      every stored id. */
  lemma {:induction false} SoundAlways(states: seq<Db>, ops: seq<StoreOp>, i: nat)
    requires IsRun(states, ops) && i < |states|
    ensures Sound(states[i], false)
  {
    if i == 0 {
      EmptySound();
      SoundWeakens(EmptyDb());
    } else {
      SoundAlways(states, ops, i - 1);
      ApplySound(states[i - 1], false, ops[i - 1]);
    }
  }

  /** As long as nothing was deleted by ids, the byte totals are exact. */
  lemma {:induction false} BytesExact(states: seq<Db>, ops: seq<StoreOp>, i: nat)
    requires IsRun(states, ops) && i < |states| && forall j :: 0 <= j < i ==> KeepsBytesExact(ops[j])
    ensures Sound(states[i], true)
  {
    if i == 0 {
      EmptySound();
    } else {
      BytesExact(states, ops, i - 1);
      ApplySound(states[i - 1], true, ops[i - 1]);
    }
  }

  /** At every point of every lifetime a new id is strictly greater than every id then stored,
      and its payload file is nobody's: clock jumps, deletions and restarts notwithstanding. */
  lemma IdsGrowAlways(states: seq<Db>, ops: seq<StoreOp>, i: nat)
    requires IsRun(states, ops) && i < |ops| && ops[i].IngestOp?
    ensures forall id :: id in states[i].records ==> id < NewId(states[i], ops[i].record)
    ensures forall id :: id in states[i].records ==>
              states[i].records[id].path != Some(RelativePath(NewId(states[i], ops[i].record)))
  {
    var db, r := states[i], ops[i].record;
    SoundAlways(states, ops, i);
    NewIdIsFresh(db, r);
    forall id | id in db.records
      ensures db.records[id].path != Some(RelativePath(NewId(db, r)))
    {
      assert RowPayload(db, id);
      if db.records[id].path.Some? && RelativePath(id) == RelativePath(NewId(db, r)) {
        RelativePathInjective(id, NewId(db, r));
      }
    }
  }

  /** No file is shared: two rows with a payload name two files. */
  lemma FilesHaveOneOwner(states: seq<Db>, ops: seq<StoreOp>, i: nat, a: nat, b: nat)
    requires IsRun(states, ops) && i < |states| && a in states[i].records && b in states[i].records
    requires states[i].records[a].path.Some? && states[i].records[a].path == states[i].records[b].path
    ensures a == b && states[i].records[a].path.value in states[i].files
  {
    SoundAlways(states, ops, i);
    assert RowPayload(states[i], a) && RowPayload(states[i], b);
    RelativePathInjective(a, b);
  }

  /** After a restart the payload files are exactly the referenced ones. */
  lemma RestartSweepsOrphans(states: seq<Db>, ops: seq<StoreOp>, i: nat)
    requires IsRun(states, ops) && i < |ops| && ops[i] == Restart
    ensures states[i + 1].files.Keys == PathsOf(states[i].records, states[i].records.Keys)
    ensures states[i + 1].records == states[i].records
  {
    SoundAlways(states, ops, i);
    OpenFilesExact(states[i]);
  }

  // ---------------------------------------------------------------- a lifetime that loses bytes

  /** A crash whose text takes ten bytes on disk, and one without text a minute later. */
  function WithText(): CrashRecord { SampleRecord(Events, 1_000).(payload := Inline([65])) }

  function WithoutText(): CrashRecord { SampleRecord(Events, 61_000) }

  function TenBytes(): Env { SampleEnv().(fate := Fate(map[], false, None, 10, true, true)) }

  /** One group with the two rows. */
  ghost predicate HoldsBoth(db: Db, first: nat, second: nat) {
    && first != second && db.records.Keys == {first, second} && db.groups.Keys == {"group"}
    && db.records[first].group == "group" && db.records[second].group == "group"
    && db.records[first].bytes == 10 && db.records[second].bytes == 0
  }

  ghost function AfterFirst(): Db { Apply(EmptyDb(), IngestOp(WithText(), [], TenBytes())) }

  lemma FirstIsStored()
    ensures var db := AfterFirst();
            && db.gen == Gen(1_000, 0) && db.records.Keys == {GenValue(Gen(1_000, 0))} && db.groups.Keys == {"group"}
            && var row := db.records[GenValue(Gen(1_000, 0))];
               row.group == "group" && row.bytes == 10 && row.happenedAtMs == 1_000
  {
    CommitsTogether(EmptyDb(), WithText(), [], TenBytes());
  }

  /** The second crash has no companion, and goes into the same group. */
  lemma SecondIsStored(db: Db, first: nat)
    requires db.gen == Gen(1_000, 0) && db.records.Keys == {first} && first == GenValue(db.gen) && db.groups.Keys == {"group"}
    requires db.records[first].group == "group" && db.records[first].bytes == 10 && db.records[first].happenedAtMs == 1_000
    ensures HoldsBoth(Apply(db, IngestOp(WithoutText(), [], TenBytes())), first, GenValue(Gen(61_000, 0)))
    ensures HasRoom(db, IngestOp(WithoutText(), [], TenBytes()))
  {
    var r := Enrich(WithoutText(), TenBytes());
    assert NextGen(db, r) == Gen(61_000, 0);
    assert !HasCompanion(db, r, CompanionWindow(r.kind));
    CommitsTogether(db, WithoutText(), [], TenBytes());
  }

  lemma FirstLosesBytes(db: Db, first: nat, second: nat)
    requires HoldsBoth(db, first, second)
    ensures LosesBytes(db, Targeted(db.records, OfIds([first])), "group")
  {
    var ids := Targeted(db.records, OfIds([first]));
    assert ids == {first};
    assert Members(db.records, "group") == {first, second};
    assert second in Members(db.records, "group") - ids;
    assert Members(db.records, "group") * ids == {first};
    SumRemove(db.records, {first}, first);
  }

  lemma TotalsGoWrong(db: Db, first: nat, second: nat)
    requires HoldsBoth(db, first, second) && Aggregates(db, true)
    ensures !Aggregates(Delete(db, OfIds([first])), true)
  {
    FirstLosesBytes(db, first, second);
    DeleteByIdsExactly(db, [first]);
  }

  /** One operation leads from one state to the next. */
  ghost predicate Follows(db: Db, op: StoreOp, db': Db) { HasRoom(db, op) && db' == Apply(db, op) }

  ghost predicate Chained(states: seq<Db>, ops: seq<StoreOp>, follows: (Db, StoreOp, Db) -> bool) {
    |states| == |ops| + 1 && forall i :: 0 <= i < |ops| ==> follows(states[i], ops[i], states[i + 1])
  }

  lemma ThreeChained(s: seq<Db>, ops: seq<StoreOp>, follows: (Db, StoreOp, Db) -> bool)
    requires |s| == 4 && |ops| == 3 && follows(s[0], ops[0], s[1]) && follows(s[1], ops[1], s[2]) && follows(s[2], ops[2], s[3])
    ensures Chained(s, ops, follows)
  {
  }

  lemma ChainIsRun(states: seq<Db>, ops: seq<StoreOp>)
    requires Chained(states, ops, Follows) && states[0] == EmptyDb()
    ensures IsRun(states, ops)
  {
    forall i | 0 <= i < |ops|
      ensures HasRoom(states[i], ops[i]) && states[i + 1] == Apply(states[i], ops[i])
    {
      assert Follows(states[i], ops[i], states[i + 1]);
    }
  }

  lemma TwoThenDelete(states: seq<Db>, ops: seq<StoreOp>, first: nat, second: nat)
    requires IsRun(states, ops) && |ops| == 3 && KeepsBytesExact(ops[0]) && KeepsBytesExact(ops[1])
    requires ops[2] == DeleteOp(OfIds([first])) && HoldsBoth(states[2], first, second)
    ensures LosesBytes(states[2], Targeted(states[2].records, OfIds([first])), "group")
    ensures Aggregates(states[2], true) && !Aggregates(states[3], true)
  {
    BytesExact(states, ops, 2);
    FirstLosesBytes(states[2], first, second);
    TotalsGoWrong(states[2], first, second);
  }

  /** A lifetime in which the totals stop being exact: two crashes of one group are stored, and the
      one with text is deleted by its id. */
  lemma BytesBecomeInexact() returns (states: seq<Db>, ops: seq<StoreOp>)
    ensures IsRun(states, ops) && |ops| == 3 && ops[2].DeleteOp? && ops[2].target.OfIds?
    ensures LosesBytes(states[2], Targeted(states[2].records, ops[2].target), "group")
    ensures Aggregates(states[2], true) && !Aggregates(states[3], true)
  {
    var first, second := GenValue(Gen(1_000, 0)), GenValue(Gen(61_000, 0));
    var x, y := IngestOp(WithText(), [], TenBytes()), IngestOp(WithoutText(), [], TenBytes());
    FirstIsStored();
    SecondIsStored(AfterFirst(), first);
    ops := [x, y, DeleteOp(OfIds([first]))];
    states := [EmptyDb(), AfterFirst(), Apply(AfterFirst(), y), Apply(Apply(AfterFirst(), y), ops[2])];
    ThreeChained(states, ops, Follows);
    ChainIsRun(states, ops);
    TwoThenDelete(states, ops, first, second);
  }

  // ---------------------------------------------------------------- what a payload file holds

  /** The file is gone, or as it was. */
  predicate KeptAt(before: map<string, seq<byte>>, now: map<string, seq<byte>>, p: string) {
    p in now ==> p in before && now[p] == before[p]
  }

  /** Files only disappear; none changes. */
  ghost predicate Shrinks(before: map<string, seq<byte>>, now: map<string, seq<byte>>) {
    forall p :: KeptAt(before, now, p)
  }

  lemma TrimShrinks(db: Db, nowMs: Ms, p: Policy)
    ensures Shrinks(db.files, Trimmed(db, nowMs, p).files)
  {
  }

  lemma SweepShrinks(db: Db, nowMs: Ms, p: Policy)
    ensures Shrinks(db.files, Sweep(db, nowMs, p).files)
  {
    TrimShrinks(db, nowMs, p);
    var trimmed := Trimmed(db, nowMs, p);
    assert Shrinks(trimmed.files, Sweep(db, nowMs, p).files);
    forall q
      ensures KeptAt(db.files, Sweep(db, nowMs, p).files, q)
    {
      assert KeptAt(db.files, trimmed.files, q) && KeptAt(trimmed.files, Sweep(db, nowMs, p).files, q);
    }
  }

  lemma FoldKeepsFile(db: Db, id: nat, r: CrashRecord, cap: nat, keys: seq<string>, nowMs: Ms, fate: Fate, path: string)
    requires id in db.records ==> path != RelativePath(id) || db.records[id].state != Absent
    ensures KeptAt(db.files, FoldInto(db, id, r, cap, keys, nowMs, fate).0.files, path)
  {
    if path != RelativePath(id) {
      WriteTouchesOwnFile(db.files, id, r.payload, cap, fate, path);
    }
  }

  lemma InsertKeepsFile(db: Db, r: CrashRecord, gid: string, cap: nat, keys: seq<string>, nowMs: Ms, fate: Fate, path: string)
    requires path != RelativePath(NewId(db, r))
    ensures KeptAt(db.files, InsertWithSources(db, r, gid, cap, keys, nowMs, fate).0.files, path)
  {
    WriteTouchesOwnFile(db.files, NewId(db, r), r.payload, cap, fate, path);
  }

  lemma OtherPath(a: nat, b: nat)
    requires a < TWO_128 && b < TWO_128 && a != b
    ensures RelativePath(a) != RelativePath(b)
  {
    if RelativePath(a) == RelativePath(b) {
      RelativePathInjective(a, b);
    }
  }

  /** A row whose payload file stands. */
  predicate Holds(db: Db, id: nat) {
    id in db.records && db.records[id].path == Some(RelativePath(id)) && Readable(db.records[id].state)
  }

  /** A write for one record leaves the file of every other as it was. */
  lemma AttemptKeepsFile(db: Db, r: CrashRecord, keys: seq<string>, env: Env, id: nat)
    requires IdsBehind(db) && IdRoom(db, r) && Holds(db, id)
    ensures KeptAt(db.files, Attempt(db, r, keys, env).0.files, RelativePath(id))
  {
    var found, cap := Companion(db, r, CompanionWindow(r.kind), env.tie), env.policy.bytesPerRecord;
    if found.Some? {
      if found.value != id {
        OtherPath(id, found.value);
      }
      FoldKeepsFile(db, found.value, r, cap, keys, env.nowMs, env.fate, RelativePath(id));
    } else {
      NewIdIsFresh(db, r);
      OtherPath(id, NewId(db, r));
      InsertKeepsFile(db, r, env.groupId, cap, keys, env.nowMs, env.fate, RelativePath(id));
    }
  }

  lemma IngestKeepsFile(db: Db, r: CrashRecord, keys: seq<string>, env: Env, id: nat)
    requires IdsBehind(db) && IdRoom(db, r) && Holds(db, id)
    ensures KeptAt(db.files, IngestWithSources(db, r, keys, env).0.files, RelativePath(id))
  {
    var done := Committed(db, r, keys, env).0;
    AttemptKeepsFile(db, Enrich(r, env), keys, env, id);
    assert KeptAt(db.files, done.files, RelativePath(id));
    SweepShrinks(done, env.sweepMs, env.policy);
    assert KeptAt(done.files, Sweep(done, env.sweepMs, env.policy).files, RelativePath(id));
  }

  lemma DeleteShrinks(db: Db, target: DeleteTarget)
    ensures Shrinks(db.files, Delete(db, target).files)
  {
  }

  lemma ApplyKeepsFile(db: Db, op: StoreOp, id: nat)
    requires IdsBehind(db) && HasRoom(db, op) && Holds(db, id)
    ensures KeptAt(db.files, Apply(db, op).files, RelativePath(id))
  {
    match op
    case IngestOp(r, keys, env) => IngestKeepsFile(db, r, keys, env, id);
    case SweepOp(nowMs, p) =>
      SweepShrinks(db, nowMs, p);
      assert KeptAt(db.files, Sweep(db, nowMs, p).files, RelativePath(id));
    case DeleteOp(target) =>
      DeleteShrinks(db, target);
      assert KeptAt(db.files, Delete(db, target).files, RelativePath(id));
    case MarkOp(key, nowMs) =>
    case Restart =>
  }

  lemma SoundHolds(db: Db, id: nat)
    requires Sound(db, false) && id in db.records && db.records[id].path.Some?
    ensures IdsBehind(db) && Holds(db, id) && RelativePath(id) in db.files
  {
    assert RowPayload(db, id);
  }

  lemma RunHolds(states: seq<Db>, ops: seq<StoreOp>, i: nat, id: nat)
    requires IsRun(states, ops) && i < |states| && id in states[i].records && states[i].records[id].path.Some?
    ensures IdsBehind(states[i]) && Holds(states[i], id) && RelativePath(id) in states[i].files
  {
    SoundAlways(states, ops, i);
    SoundHolds(states[i], id);
  }

  /** The file is in both states, with the same bytes. */
  predicate SameFile(a: Db, b: Db, path: string) { path in a.files && path in b.files && b.files[path] == a.files[path] }

  lemma StepKeepsFile(states: seq<Db>, ops: seq<StoreOp>, k: nat, id: nat)
    requires IsRun(states, ops) && k < |ops|
    requires id in states[k].records && states[k].records[id].path.Some?
    requires id in states[k + 1].records && states[k + 1].records[id].path.Some?
    ensures SameFile(states[k], states[k + 1], RelativePath(id))
  {
    RunHolds(states, ops, k, id);
    RunHolds(states, ops, k + 1, id);
    ApplyKeepsFile(states[k], ops[k], id);
  }

  lemma {:induction false} FileStays(states: seq<Db>, path: string, i: nat, j: nat)
    requires i <= j < |states| && path in states[i].files
    requires forall k :: i <= k < j ==> SameFile(states[k], states[k + 1], path)
    ensures SameFile(states[i], states[j], path)
  {
    if i < j {
      FileStays(states, path, i, j - 1);
      assert SameFile(states[j - 1], states[j - 1 + 1], path);
    }
  }

  /** A stored payload is never rewritten: for as long as its row refers to it, the file holds
      the bytes it held at first, whatever else the store does. */
  lemma PayloadKeepsItsBytes(states: seq<Db>, ops: seq<StoreOp>, i: nat, j: nat, id: nat)
    requires IsRun(states, ops) && i <= j < |states|
    requires forall k :: i <= k <= j ==> id in states[k].records && states[k].records[id].path.Some?
    ensures Holds(states[i], id) && Holds(states[j], id)
    ensures SameFile(states[i], states[j], RelativePath(id))
  {
    RunHolds(states, ops, i, id);
    RunHolds(states, ops, j, id);
    forall k | i <= k < j
      ensures SameFile(states[k], states[k + 1], RelativePath(id))
    {
      StepKeepsFile(states, ops, k, id);
    }
    FileStays(states, RelativePath(id), i, j);
  }

  /** What the file holds at first: the longest whole-character prefix of the crash text that
      fits the cap. */
  lemma InsertedPayload(db: Db, r: CrashRecord, gid: string, cap: nat, keys: seq<string>, nowMs: Ms, fate: Fate)
    requires InsertWithSources(db, r, gid, cap, keys, nowMs, fate).1.Ok?
    ensures var raw := RawPayload(r.payload, fate.disk);
            var id, db' := NewId(db, r), InsertWithSources(db, r, gid, cap, keys, nowMs, fate).0;
            && raw.Ok? && id in db'.records
            && (db'.records[id].path.Some? <==> raw.value != [])
            && (raw.value != [] ==>
                  && RelativePath(id) in db'.files && db'.files[RelativePath(id)] == TruncateUtf8(raw.value, cap)
                  && (db'.records[id].state == Truncated <==> |raw.value| > cap))
  {
  }

  // ---------------------------------------------------------------- how long a source key is remembered

  /** No sweep of the operation outlives the key: what it guards is still to be recognised. */
  predicate SparesKey(op: StoreOp, key: string, atMs: Ms) {
    match op
    case SweepOp(nowMs, p) => KeyKept(key, atMs, nowMs, Cutoff(nowMs, p))
    case IngestOp(_, _, env) => KeyKept(key, atMs, env.sweepMs, Cutoff(env.sweepMs, env.policy))
    case DeleteOp(_) => true
    case MarkOp(_, _) => true
    case Restart => true
  }

  /** Marking again does not renew a key. */
  lemma MarkKeepsKey(ingested: map<string, Ms>, keys: seq<string>, nowMs: Ms, key: string)
    requires key in ingested
    ensures key in MarkAll(ingested, keys, nowMs) && MarkAll(ingested, keys, nowMs)[key] == ingested[key]
  {
  }

  lemma CommittedKeepsKey(db: Db, r: CrashRecord, keys: seq<string>, env: Env, key: string)
    requires key in db.ingested
    ensures var done := Committed(db, r, keys, env).0; key in done.ingested && done.ingested[key] == db.ingested[key]
  {
    CommitsTogether(db, r, keys, env);
    MarkKeepsKey(db.ingested, keys, env.nowMs, key);
    if env.marks < |keys| {
      MarkKeepsKey(db.ingested, keys[..env.marks], env.nowMs, key);
    }
    AttemptCommits(db, Enrich(r, env), keys, env);
  }

  lemma ApplyKeepsKey(db: Db, op: StoreOp, key: string)
    requires key in db.ingested && SparesKey(op, key, db.ingested[key])
    ensures key in Apply(db, op).ingested && Apply(db, op).ingested[key] == db.ingested[key]
  {
    match op
    case IngestOp(r, keys, env) => CommittedKeepsKey(db, r, keys, env, key);
    case SweepOp(_, _) =>
    case DeleteOp(_) =>
    case MarkOp(k, nowMs) => MarkKeepsKey(db.ingested, [k], nowMs, key);
    case Restart =>
  }

  lemma StepKeepsKey(states: seq<Db>, ops: seq<StoreOp>, i: nat, key: string)
    requires IsRun(states, ops) && i < |ops| && key in states[i].ingested && SparesKey(ops[i], key, states[i].ingested[key])
    ensures key in states[i + 1].ingested && states[i + 1].ingested[key] == states[i].ingested[key]
  {
    ApplyKeepsKey(states[i], ops[i], key);
  }

  /** The operations from `i` up to `j` all spare the key. */
  predicate AllSpare(ops: seq<StoreOp>, i: nat, j: nat, key: string, atMs: Ms)
    requires i <= j <= |ops|
  {
    forall k :: i <= k < j ==> SparesKey(ops[k], key, atMs)
  }

  /** A marked key keeps its time and stays marked, through ingests, deletions of the history and
      restarts, until a sweep comes after its lifetime. */
  lemma {:induction false} KeysStayUntilPruned(states: seq<Db>, ops: seq<StoreOp>, i: nat, j: nat, key: string)
    requires IsRun(states, ops) && i <= j < |states| && key in states[i].ingested
    requires AllSpare(ops, i, j, key, states[i].ingested[key])
    ensures key in states[j].ingested && states[j].ingested[key] == states[i].ingested[key]
  {
    if i < j {
      assert AllSpare(ops, i, j - 1, key, states[i].ingested[key]);
      KeysStayUntilPruned(states, ops, i, j - 1, key);
      StepKeepsKey(states, ops, j - 1, key);
    }
  }

  lemma MarkersAreSpared(op: StoreOp, key: string, atMs: Ms)
    requires LikePrefix(key, "marker:")
    ensures SparesKey(op, key, atMs)
  {
  }

  /** Markers are never forgotten. */
  lemma MarkersStay(states: seq<Db>, ops: seq<StoreOp>, i: nat, j: nat, key: string)
    requires IsRun(states, ops) && i <= j < |states| && key in states[i].ingested && LikePrefix(key, "marker:")
    ensures key in states[j].ingested && states[j].ingested[key] == states[i].ingested[key]
  {
    forall k | i <= k < j
      ensures SparesKey(ops[k], key, states[i].ingested[key])
    {
      MarkersAreSpared(ops[k], key, states[i].ingested[key]);
    }
    KeysStayUntilPruned(states, ops, i, j, key);
  }
}
