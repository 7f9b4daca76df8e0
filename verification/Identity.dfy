/**
 What a stored row says about its crash, over whole lifetimes: group ids are digests of the
 group key, so a group carries the identity of every crash in it, a stored row keeps describing
 its crash, and reading that crash again adds nothing.
 */
module Identity {
  import opened Model
  import opened GroupKey
  import opened Tables
  import opened Retention
  import opened RetentionSpec
  import opened Ingest
  import opened StoreRuns

  // ---------------------------------------------------------------- group ids

  /** How a record is named: the bytes of its strings, its normalised frames, and the digest of the
      fed stream. */
  datatype Naming = Naming(utf8: string -> seq<byte>, frames: seq<string> -> FrameList, digest: seq<byte> -> string)

  /** The record's strings can be allocated, and its user is a 32-bit number. */
  predicate Feedable(n: Naming, r: CrashRecord) {
    && |n.utf8(r.packageName)| <= I64_MAX && |n.utf8(r.processName)| <= I64_MAX && |n.utf8(r.primary)| <= I64_MAX
    && -0x8000_0000 <= r.userId <= 0x7FFF_FFFF
  }

  function KeyOf(n: Naming, r: CrashRecord): Key
    requires Feedable(n, r)
  {
    Key(n.utf8(r.packageName), n.utf8(r.processName), r.userId, r.kind, n.utf8(r.primary), n.frames(r.frames))
  }

  function GroupId(n: Naming, r: CrashRecord): string
    requires Feedable(n, r)
  {
    n.digest(PreImage(KeyOf(n, r)))
  }

  /** The digest tells the two records' streams apart if they differ. */
  predicate Apart(n: Naming, a: CrashRecord, b: CrashRecord)
    requires Feedable(n, a) && Feedable(n, b)
  {
    GroupId(n, a) == GroupId(n, b) ==> PreImage(KeyOf(n, a)) == PreImage(KeyOf(n, b))
  }

  ghost predicate Encodes(n: Naming) { forall s, t :: n.utf8(s) == n.utf8(t) ==> s == t }

  predicate SameIdentity(a: CrashRecord, b: CrashRecord) {
    a.packageName == b.packageName && a.processName == b.processName && a.userId == b.userId && a.kind == b.kind
  }

  /** Crashes of one group are of one package, process, user and kind. */
  lemma GroupIdSeparates(n: Naming, a: CrashRecord, b: CrashRecord)
    requires Encodes(n) && Feedable(n, a) && Feedable(n, b) && Apart(n, a, b)
    requires GroupId(n, a) == GroupId(n, b)
    ensures SameIdentity(a, b)
  {
    PreImageInjective(KeyOf(n, a), KeyOf(n, b));
  }

  predicate NamesIngest(n: Naming, op: StoreOp) {
    op.IngestOp? ==> Feedable(n, op.record) && op.env.groupId == GroupId(n, op.record)
  }

  /** The lifetime's group ids are the names of its records, with no collision of digests. */
  ghost predicate Named(n: Naming, ops: seq<StoreOp>) {
    && Encodes(n)
    && (forall x :: 0 <= x < |ops| ==> NamesIngest(n, ops[x]))
    && (forall x, y :: 0 <= x < |ops| && 0 <= y < |ops| && ops[x].IngestOp? && ops[y].IngestOp? ==>
          Feedable(n, ops[x].record) && Feedable(n, ops[y].record) && Apart(n, ops[x].record, ops[y].record))
  }

  // ---------------------------------------------------------------- what one operation keeps

  /** The group carries the record's identity. */
  predicate Carries(g: Group, r: CrashRecord) {
    g.packageName == r.packageName && g.processName == r.processName && g.userId == r.userId && g.kind == r.kind
  }

  predicate SameColumns(a: Group, b: Group) {
    a.packageName == b.packageName && a.processName == b.processName && a.userId == b.userId && a.kind == b.kind
  }

  /** Groups keep their identity columns; a new one takes those of the record ingested. */
  ghost predicate KeepsColumns(db: Db, db': Db, op: StoreOp) {
    forall g :: g in db'.groups ==>
      if g in db.groups then SameColumns(db'.groups[g], db.groups[g])
      else op.IngestOp? && op.env.groupId == g && Carries(db'.groups[g], op.record)
  }

  /** Rows keep what identifies their crash. */
  ghost predicate KeepsRows(db: Db, db': Db) {
    forall id :: id in db.records && id in db'.records ==>
      && db'.records[id].group == db.records[id].group
      && db'.records[id].pid == db.records[id].pid
      && db'.records[id].happenedAtMs == db.records[id].happenedAtMs
  }

  lemma CommittedColumns(db: Db, r: CrashRecord, keys: seq<string>, env: Env)
    ensures KeepsColumns(db, Committed(db, r, keys, env).0, IngestOp(r, keys, env))
    ensures KeepsRows(db, Committed(db, r, keys, env).0)
  {
    var done := Committed(db, r, keys, env);
    CommitsTogether(db, r, keys, env);
    if done.1.Folded? {
      FoldKeepsGroups(db, r, keys, env);
    }
  }

  lemma SweepColumns(db: Db, nowMs: Ms, p: Policy)
    ensures forall g :: g in Sweep(db, nowMs, p).groups ==>
              g in db.groups && SameColumns(Sweep(db, nowMs, p).groups[g], db.groups[g])
    ensures KeepsRows(db, Sweep(db, nowMs, p))
  {
    SweepRows(db, nowMs, p);
    forall g | g in Sweep(db, nowMs, p).groups
      ensures g in db.groups && SameColumns(Sweep(db, nowMs, p).groups[g], db.groups[g])
    {
      SweepGroups(db, nowMs, p, g);
    }
  }

  lemma IngestColumns(db: Db, r: CrashRecord, keys: seq<string>, env: Env)
    ensures KeepsColumns(db, IngestWithSources(db, r, keys, env).0, IngestOp(r, keys, env))
    ensures KeepsRows(db, IngestWithSources(db, r, keys, env).0)
  {
    var done := Committed(db, r, keys, env);
    CommittedColumns(db, r, keys, env);
    if done.1.Stored? && !env.sweepFails {
      SweepColumns(done.0, env.sweepMs, env.policy);
    }
  }

  lemma ApplyColumns(db: Db, op: StoreOp)
    ensures KeepsColumns(db, Apply(db, op), op) && KeepsRows(db, Apply(db, op))
  {
    match op
    case IngestOp(r, keys, env) => IngestColumns(db, r, keys, env);
    case SweepOp(nowMs, p) => SweepColumns(db, nowMs, p);
    case DeleteOp(_) =>
    case MarkOp(_, _) =>
    case Restart =>
  }

  // ---------------------------------------------------------------- groups over a lifetime

  /** An ingest before `i` named the group, and the group carries its record's identity. */
  ghost predicate NamedBefore(db: Db, ops: seq<StoreOp>, i: nat, g: string)
    requires g in db.groups
  {
    exists x :: 0 <= x < i && x < |ops| && ops[x].IngestOp? && ops[x].env.groupId == g && Carries(db.groups[g], ops[x].record)
  }

  lemma NamedStays(db: Db, db': Db, ops: seq<StoreOp>, i: nat, g: string)
    requires i < |ops| && KeepsColumns(db, db', ops[i]) && g in db'.groups
    requires g in db.groups ==> NamedBefore(db, ops, i, g)
    ensures NamedBefore(db', ops, i + 1, g)
  {
    if g in db.groups {
      var x :| 0 <= x < i && ops[x].IngestOp? && ops[x].env.groupId == g && Carries(db.groups[g], ops[x].record);
    }
  }

  lemma StepColumns(states: seq<Db>, ops: seq<StoreOp>, i: nat)
    requires IsRun(states, ops) && i < |ops|
    ensures KeepsColumns(states[i], states[i + 1], ops[i]) && KeepsRows(states[i], states[i + 1])
  {
    ApplyColumns(states[i], ops[i]);
  }

  lemma {:induction false} NamedThroughout(states: seq<Db>, ops: seq<StoreOp>, i: nat, g: string)
    requires i < |states| && i <= |ops| && g in states[i].groups && states[0].groups == map[]
    requires forall k :: 0 <= k < i ==> KeepsColumns(states[k], states[k + 1], ops[k])
    ensures NamedBefore(states[i], ops, i, g)
  {
    if i > 0 {
      if g in states[i - 1].groups {
        NamedThroughout(states, ops, i - 1, g);
      }
      NamedStays(states[i - 1], states[i - 1 + 1], ops, i - 1, g);
    }
  }

  lemma GroupsAreNamed(states: seq<Db>, ops: seq<StoreOp>, i: nat, g: string)
    requires IsRun(states, ops) && i < |states| && g in states[i].groups
    ensures NamedBefore(states[i], ops, i, g)
  {
    forall k | 0 <= k < i
      ensures KeepsColumns(states[k], states[k + 1], ops[k])
    {
      StepColumns(states, ops, k);
    }
    NamedThroughout(states, ops, i, g);
  }

  /** A group that an ingest would go into already carries the record's identity. */
  lemma GroupCarriesIdentity(n: Naming, states: seq<Db>, ops: seq<StoreOp>, i: nat)
    requires IsRun(states, ops) && Named(n, ops) && i < |ops| && ops[i].IngestOp?
    requires ops[i].env.groupId in states[i].groups
    ensures Carries(states[i].groups[ops[i].env.groupId], ops[i].record)
  {
    var g := ops[i].env.groupId;
    GroupsAreNamed(states, ops, i, g);
    var x :| 0 <= x < i && ops[x].IngestOp? && ops[x].env.groupId == g && Carries(states[i].groups[g], ops[x].record);
    assert NamesIngest(n, ops[x]) && NamesIngest(n, ops[i]);
    GroupIdSeparates(n, ops[x].record, ops[i].record);
  }

  // ---------------------------------------------------------------- rows over a lifetime

  /** The answer of an ingest. */
  ghost function AnswerOf(db: Db, op: StoreOp): Outcome
    requires op.IngestOp?
  {
    IngestWithSources(db, op.record, op.keys, op.env).1
  }

  /** The ingest put its crash into this row: as a row of its own, or into one of its millisecond. */
  ghost predicate Records(db: Db, op: StoreOp, id: nat) {
    && op.IngestOp?
    && (AnswerOf(db, op) == Stored(id)
        || (AnswerOf(db, op) == Folded(id) && id in db.records && db.records[id].happenedAtMs == op.record.happenedAtMs))
  }

  /** What a new row says of its crash before any sweep. */
  lemma NewRowDescribes(db: Db, r: CrashRecord, keys: seq<string>, env: Env, id: nat)
    requires Committed(db, r, keys, env).1 == Stored(id)
    requires env.groupId in db.groups ==> Carries(db.groups[env.groupId], r)
    ensures SameCrash(Committed(db, r, keys, env).0, r, id)
  {
    CommitsTogether(db, r, keys, env);
  }

  /** A row that keeps its place keeps describing its crash. */
  lemma DescriptionStays(db: Db, db': Db, op: StoreOp, r: CrashRecord, id: nat)
    requires KeepsColumns(db, db', op) && KeepsRows(db, db') && Aggregates(db', false)
    requires SameCrash(db, r, id) && id in db'.records
    ensures SameCrash(db', r, id)
  {
  }

  lemma StoredDescribes(db: Db, r: CrashRecord, keys: seq<string>, env: Env, id: nat)
    requires Committed(db, r, keys, env).1 == Stored(id)
    requires env.groupId in db.groups ==> Carries(db.groups[env.groupId], r)
    requires Aggregates(IngestWithSources(db, r, keys, env).0, false) && id in IngestWithSources(db, r, keys, env).0.records
    ensures SameCrash(IngestWithSources(db, r, keys, env).0, r, id)
  {
    var done := Committed(db, r, keys, env);
    NewRowDescribes(db, r, keys, env, id);
    if !env.sweepFails {
      SweepColumns(done.0, env.sweepMs, env.policy);
      DescriptionStays(done.0, Sweep(done.0, env.sweepMs, env.policy), SweepOp(env.sweepMs, env.policy), r, id);
    }
  }

  lemma FoldedDescribes(db: Db, r: CrashRecord, keys: seq<string>, env: Env, id: nat)
    requires IngestWithSources(db, r, keys, env).1 == Folded(id)
    requires id in db.records && db.records[id].happenedAtMs == r.happenedAtMs
    ensures SameCrash(IngestWithSources(db, r, keys, env).0, r, id)
  {
    FoldIsLocal(db, r, keys, env);
    FoldKeepsGroups(db, r, keys, env);
  }

  /** The row an ingest put its crash into describes that crash, unless a sweep took it at once. */
  lemma RecordedDescribes(n: Naming, states: seq<Db>, ops: seq<StoreOp>, x: nat, id: nat)
    requires IsRun(states, ops) && Named(n, ops) && x < |ops| && Records(states[x], ops[x], id)
    requires id in states[x + 1].records
    ensures SameCrash(states[x + 1], ops[x].record, id)
  {
    var db, op := states[x], ops[x];
    SoundAlways(states, ops, x + 1);
    if AnswerOf(db, op).Stored? {
      if op.env.groupId in db.groups {
        GroupCarriesIdentity(n, states, ops, x);
      }
      StoredDescribes(db, op.record, op.keys, op.env, id);
    } else {
      FoldedDescribes(db, op.record, op.keys, op.env, id);
    }
  }

  lemma StepDescribes(states: seq<Db>, ops: seq<StoreOp>, k: nat, r: CrashRecord, id: nat)
    requires IsRun(states, ops) && k < |ops| && SameCrash(states[k], r, id) && id in states[k + 1].records
    ensures SameCrash(states[k + 1], r, id)
  {
    StepColumns(states, ops, k);
    SoundAlways(states, ops, k + 1);
    DescriptionStays(states[k], states[k + 1], ops[k], r, id);
  }

  lemma {:induction false} DescribedThroughout(states: seq<Db>, x: nat, j: nat, r: CrashRecord, id: nat)
    requires x <= j < |states| && SameCrash(states[x], r, id)
    requires forall k :: x <= k < j ==> (SameCrash(states[k], r, id) ==> SameCrash(states[k + 1], r, id))
    ensures SameCrash(states[j], r, id)
  {
    if x < j {
      DescribedThroughout(states, x, j - 1, r, id);
      assert SameCrash(states[j - 1], r, id) ==> SameCrash(states[j - 1 + 1], r, id);
    }
  }

  /** A stored row keeps describing its crash for as long as it stays. */
  lemma RowKeepsDescribing(states: seq<Db>, ops: seq<StoreOp>, x: nat, j: nat, r: CrashRecord, id: nat)
    requires IsRun(states, ops) && x <= j < |states| && SameCrash(states[x], r, id)
    requires forall k :: x <= k <= j ==> id in states[k].records
    ensures SameCrash(states[j], r, id)
  {
    forall k | x <= k < j && SameCrash(states[k], r, id)
      ensures SameCrash(states[k + 1], r, id)
    {
      StepDescribes(states, ops, k, r, id);
    }
    DescribedThroughout(states, x, j, r, id);
  }

  /** Read again: in every lifetime, once a crash was put into a row of its millisecond and as long
      as that row stays, ingesting the same crash again, with whatever keys and failures, adds no
      row, group or occurrence; if it succeeds it is folded into a row of that millisecond. */
  lemma ReadAgainAddsNothing(n: Naming, states: seq<Db>, ops: seq<StoreOp>, x: nat, j: nat, id: nat,
                             again: CrashRecord, keys: seq<string>, env: Env)
    requires IsRun(states, ops) && Named(n, ops) && x < j < |states| && Records(states[x], ops[x], id)
    requires forall k :: x < k <= j ==> id in states[k].records
    requires SameSighting(ops[x].record, again) && again.pid != 0 && env.accepted
    ensures SameCounts(states[j], IngestWithSources(states[j], again, keys, env).0)
    ensures var o := IngestWithSources(states[j], again, keys, env).1;
            o.Failed? || (o.Folded? && o.id in states[j].records && states[j].records[o.id].happenedAtMs == again.happenedAtMs)
  {
    RecordedDescribes(n, states, ops, x, id);
    RowKeepsDescribing(states, ops, x + 1, j, ops[x].record, id);
    assert SameCrash(states[j], again, id);
    ReingestAddsNothing(states[j], again, keys, env, id);
  }
}
