/**
 What a group's row says over whole lifetimes: for as long as the group stays, its columns are
 those of the crashes stored into it, in order, and sweeps and deletions change none of them.
 */
module Histories {
  import opened Model
  import opened Tables
  import opened Writes
  import opened WritesSound
  import opened Retention
  import opened RetentionSpec
  import opened Ceilings
  import opened Lifecycle
  import opened Ingest
  import opened StoreRuns

  // ---------------------------------------------------------------- the crashes of a group

  /** The operation stored its crash into the group. */
  ghost predicate StoresInto(db: Db, op: StoreOp, g: string) {
    op.IngestOp? && op.env.groupId == g && IngestWithSources(db, op.record, op.keys, op.env).1.Stored?
  }

  /** Whether operation `k` stored its crash into the group. */
  ghost function Into(states: seq<Db>, ops: seq<StoreOp>, g: string): nat -> bool {
    (k: nat) => k < |ops| && k < |states| && StoresInto(states[k], ops[k], g)
  }

  /** The crash of operation `k`, as enriched. */
  function CrashAt(ops: seq<StoreOp>): nat -> Option<CrashRecord> {
    (k: nat) => if k < |ops| && ops[k].IngestOp? then Some(Enrich(ops[k].record, ops[k].env)) else None
  }

  /** The crashes stored by the operations from `x` up to `j`, in order. */
  ghost function History(into: nat -> bool, crash: nat -> Option<CrashRecord>, x: nat, j: nat): seq<CrashRecord>
    decreases j
  {
    if j <= x then []
    else
      var init := History(into, crash, x, j - 1);
      if into(j - 1) && crash(j - 1).Some? then init + [crash(j - 1).value] else init
  }

  /** The column holds the latest value that a crash brought, or nothing if none did. */
  ghost predicate LatestKnown(h: seq<CrashRecord>, v: Option<string>, get: CrashRecord -> Option<string>) {
    if v.None? then forall i :: 0 <= i < |h| ==> get(h[i]).None?
    else exists k :: 0 <= k < |h| && get(h[k]) == v && forall i :: k < i < |h| ==> get(h[i]).None?
  }

  function ClassOf(r: CrashRecord): Option<string> { r.summaryClass }

  function TextOf(r: CrashRecord): Option<string> { r.summaryText }

  /** The first and last sighting are the earliest and the latest of the crashes. */
  predicate Spans(g: Group, h: seq<CrashRecord>) {
    && (forall i :: 0 <= i < |h| ==> g.firstSeenMs <= h[i].happenedAtMs <= g.lastSeenMs)
    && (exists i :: 0 <= i < |h| && h[i].happenedAtMs == g.firstSeenMs)
    && (exists i :: 0 <= i < |h| && h[i].happenedAtMs == g.lastSeenMs)
  }

  /** The group's row in terms of its crashes. */
  ghost predicate Tells(g: Group, h: seq<CrashRecord>) {
    && h != [] && g.occurrence == |h|
    && TellsFirst(g, h[0]) && TellsLatest(g, h[|h| - 1])
    && Spans(g, h)
    && LatestKnown(h, g.summaryClass, ClassOf) && LatestKnown(h, g.summaryText, TextOf)
  }

  /** Same row up to the byte total. */
  predicate SameTale(a: Group, b: Group) { b == a.(payloadBytes := b.payloadBytes) }

  lemma TaleBegins(g: Group, r: CrashRecord, bytes: nat)
    requires Begins(g, r, bytes)
    ensures Tells(g, [r])
  {
    assert [r][0] == r;
  }

  lemma SpansMore(before: Group, after: Group, h: seq<CrashRecord>, r: CrashRecord, bytes: nat)
    requires Spans(before, h) && Gains(before, after, r, bytes)
    ensures Spans(after, h + [r])
  {
    var all := h + [r];
    assert all[|h|] == r && forall i :: 0 <= i < |h| ==> all[i] == h[i];
    var first :| 0 <= first < |h| && h[first].happenedAtMs == before.firstSeenMs;
    var last :| 0 <= last < |h| && h[last].happenedAtMs == before.lastSeenMs;
    assert all[if after.firstSeenMs == before.firstSeenMs then first else |h|].happenedAtMs == after.firstSeenMs;
    assert all[if after.lastSeenMs == before.lastSeenMs then last else |h|].happenedAtMs == after.lastSeenMs;
  }

  lemma KnownMore(h: seq<CrashRecord>, r: CrashRecord, v: Option<string>, get: CrashRecord -> Option<string>)
    requires LatestKnown(h, v, get)
    ensures LatestKnown(h + [r], if get(r).Some? then get(r) else v, get)
  {
    var all := h + [r];
    assert all[|h|] == r && forall i :: 0 <= i < |h| ==> all[i] == h[i];
    if get(r).None? && v.Some? {
      var k :| 0 <= k < |h| && get(h[k]) == v && forall i :: k < i < |h| ==> get(h[i]).None?;
      assert get(all[k]) == v && forall i :: k < i < |all| ==> get(all[i]).None?;
    }
  }

  lemma TaleGrows(before: Group, after: Group, h: seq<CrashRecord>, r: CrashRecord, bytes: nat)
    requires Tells(before, h) && Gains(before, after, r, bytes)
    ensures Tells(after, h + [r])
  {
    SpansMore(before, after, h, r, bytes);
    KnownMore(h, r, before.summaryClass, ClassOf);
    KnownMore(h, r, before.summaryText, TextOf);
    assert (h + [r])[0] == h[0];
  }

  lemma TaleStays(a: Group, b: Group, h: seq<CrashRecord>)
    requires Tells(a, h) && SameTale(a, b)
    ensures Tells(b, h)
  {
  }

  // ---------------------------------------------------------------- one operation

  /** How the row of a group came about: begun by a crash, grown by one, or as it was but for its
      byte total. */
  ghost predicate Continues(before: Option<Group>, after: Group, crash: Option<CrashRecord>) {
    if crash.Some? then
      exists mid, bytes :: SameTale(mid, after)
        && if before.Some? then Gains(before.value, mid, crash.value, bytes) else Begins(mid, crash.value, bytes)
    else before.Some? && SameTale(before.value, after)
  }

  function RowOf(groups: Groups, g: string): Option<Group> { if g in groups then Some(groups[g]) else None }

  /** The crash that the operation stored into the group. */
  ghost function StoredBy(db: Db, op: StoreOp, g: string): Option<CrashRecord> {
    if StoresInto(db, op, g) then Some(Enrich(op.record, op.env)) else None
  }

  lemma SweepContinues(db: Db, nowMs: Ms, p: Policy, g: string)
    requires g in Sweep(db, nowMs, p).groups
    ensures g in db.groups && SameTale(db.groups[g], Sweep(db, nowMs, p).groups[g])
  {
    SweepGroups(db, nowMs, p, g);
  }

  /** Before any sweep. */
  lemma CommitContinues(db: Db, r: CrashRecord, keys: seq<string>, env: Env, g: string)
    requires g in Committed(db, r, keys, env).0.groups
    ensures Continues(RowOf(db.groups, g), Committed(db, r, keys, env).0.groups[g], StoredBy(db, IngestOp(r, keys, env), g))
  {
    var done := Committed(db, r, keys, env);
    CommitsTogether(db, r, keys, env);
    if done.1.Folded? {
      FoldKeepsGroups(db, r, keys, env);
    } else if done.1.Stored? {
      GainContinues(db.groups, done.0.groups, env.groupId, Enrich(r, env), done.0.records[done.1.id].bytes, g);
    }
  }

  lemma GainContinues(before: Groups, after: Groups, gid: string, r: CrashRecord, bytes: nat, g: string)
    requires GroupGains(before, after, gid, r, bytes) && g in after
    ensures Continues(RowOf(before, g), after[g], if g == gid then Some(r) else None)
  {
    assert SameTale(after[g], after[g]);
  }

  lemma SameTaleTwice(a: Group, b: Group, c: Group)
    requires SameTale(a, b) && SameTale(b, c)
    ensures SameTale(a, c)
  {
  }

  lemma ContinuesThen(before: Option<Group>, mid: Group, after: Group, crash: Option<CrashRecord>)
    requires Continues(before, mid, crash) && SameTale(mid, after)
    ensures Continues(before, after, crash)
  {
    if crash.Some? {
      var first, bytes :| SameTale(first, mid)
        && if before.Some? then Gains(before.value, first, crash.value, bytes) else Begins(first, crash.value, bytes);
      SameTaleTwice(first, mid, after);
    } else {
      SameTaleTwice(before.value, mid, after);
    }
  }

  lemma IngestContinues(db: Db, r: CrashRecord, keys: seq<string>, env: Env, g: string)
    requires g in IngestWithSources(db, r, keys, env).0.groups
    ensures Continues(RowOf(db.groups, g), IngestWithSources(db, r, keys, env).0.groups[g],
                      StoredBy(db, IngestOp(r, keys, env), g))
  {
    var done := Committed(db, r, keys, env);
    if done.1.Stored? && !env.sweepFails {
      SweepContinues(done.0, env.sweepMs, env.policy, g);
    }
    CommitContinues(db, r, keys, env, g);
    ContinuesThen(RowOf(db.groups, g), done.0.groups[g], IngestWithSources(db, r, keys, env).0.groups[g],
                  StoredBy(db, IngestOp(r, keys, env), g));
  }

  lemma ApplyContinues(db: Db, op: StoreOp, g: string)
    requires g in Apply(db, op).groups
    ensures Continues(RowOf(db.groups, g), Apply(db, op).groups[g], StoredBy(db, op, g))
  {
    match op
    case IngestOp(r, keys, env) => IngestContinues(db, r, keys, env, g);
    case SweepOp(nowMs, p) => SweepContinues(db, nowMs, p, g);
    case DeleteOp(target) => DeleteContinues(db, target, g);
    case MarkOp(_, _) =>
    case Restart =>
  }

  lemma DeleteContinues(db: Db, target: DeleteTarget, g: string)
    requires g in Delete(db, target).groups
    ensures g in db.groups && Delete(db, target).groups[g] == db.groups[g]
  {
  }

  lemma TaleContinues(before: Option<Group>, after: Group, crash: Option<CrashRecord>, h: seq<CrashRecord>)
    requires Continues(before, after, crash)
    requires if before.Some? then Tells(before.value, h) else h == []
    ensures Tells(after, if crash.Some? then h + [crash.value] else h)
  {
    if crash.Some? {
      var mid, bytes :| SameTale(mid, after)
        && if before.Some? then Gains(before.value, mid, crash.value, bytes) else Begins(mid, crash.value, bytes);
      if before.Some? {
        TaleGrows(before.value, mid, h, crash.value, bytes);
        TaleStays(mid, after, h + [crash.value]);
      } else {
        TaleBegins(mid, crash.value, bytes);
        assert [] + [crash.value] == [crash.value];
        TaleStays(mid, after, [crash.value]);
      }
    } else {
      TaleStays(before.value, after, h);
    }
  }

  // ---------------------------------------------------------------- whole lifetimes

  /** The crash of operation `k` if it was stored. */
  ghost function Taken(into: nat -> bool, crash: nat -> Option<CrashRecord>, k: nat): Option<CrashRecord> {
    if into(k) then crash(k) else None
  }

  ghost predicate ContinuesAt(row: nat -> Option<Group>, into: nat -> bool, crash: nat -> Option<CrashRecord>, k: nat) {
    row(k + 1).Some? && Continues(row(k), row(k + 1).value, Taken(into, crash, k))
  }

  lemma TaleAt(row: nat -> Option<Group>, into: nat -> bool, crash: nat -> Option<CrashRecord>, x: nat, k: nat)
    requires x <= k && ContinuesAt(row, into, crash, k)
    requires if k == x then row(x) == None else ToldAt(row, into, crash, x, k)
    ensures ToldAt(row, into, crash, x, k + 1)
  {
    TaleContinues(row(k), row(k + 1).value, Taken(into, crash, k), History(into, crash, x, k));
  }

  lemma {:induction false} Forward(holds: nat -> bool, x: nat, j: nat)
    requires x <= j && holds(x) && forall k: nat :: x <= k < j && holds(k) ==> holds(k + 1)
    ensures holds(j)
  {
    if x < j {
      Forward(holds, x, j - 1);
    }
  }

  ghost predicate ToldAt(row: nat -> Option<Group>, into: nat -> bool, crash: nat -> Option<CrashRecord>, x: nat, k: nat) {
    row(k).Some? && Tells(row(k).value, History(into, crash, x, k))
  }

  /** The row of the group in each state. */
  function RowAt(states: seq<Db>, g: string): nat -> Option<Group> {
    (k: nat) => if k < |states| then RowOf(states[k].groups, g) else None
  }

  lemma StepContinues(states: seq<Db>, ops: seq<StoreOp>, k: nat, g: string)
    requires IsRun(states, ops) && k < |ops| && g in states[k + 1].groups
    ensures ContinuesAt(RowAt(states, g), Into(states, ops, g), CrashAt(ops), k)
  {
    ApplyContinues(states[k], ops[k], g);
    assert Taken(Into(states, ops, g), CrashAt(ops), k) == StoredBy(states[k], ops[k], g);
  }

  /** From the operation that began a group and for as long as it stays: it counts the crashes stored
      into it, its first and last sighting are their earliest and latest, its package, process, user
      and kind are those of the first, its flags those of the latest, and its summary is the latest
      that any of them brought. */
  lemma GroupTellsItsHistory(states: seq<Db>, ops: seq<StoreOp>, x: nat, j: nat, g: string)
    requires IsRun(states, ops) && x < j < |states| && g !in states[x].groups
    requires forall k :: x < k <= j ==> g in states[k].groups
    ensures Tells(states[j].groups[g], History(Into(states, ops, g), CrashAt(ops), x, j))
  {
    var told := Told(states, ops, x, g);
    NextTold(states, ops, x, x, g);
    forall k: nat | x + 1 <= k < j && told(k)
      ensures told(k + 1)
    {
      NextTold(states, ops, x, k, g);
    }
    Forward(told, x + 1, j);
    TellsInState(states, ops, x, j, g);
  }

  /** The row of the group tells the crashes stored into it since operation `x`. */
  ghost function Told(states: seq<Db>, ops: seq<StoreOp>, x: nat, g: string): nat -> bool {
    (k: nat) => ToldAt(RowAt(states, g), Into(states, ops, g), CrashAt(ops), x, k)
  }

  lemma NextTold(states: seq<Db>, ops: seq<StoreOp>, x: nat, k: nat, g: string)
    requires IsRun(states, ops) && x <= k < |ops| && g in states[k + 1].groups
    requires if k == x then g !in states[x].groups else Told(states, ops, x, g)(k)
    ensures Told(states, ops, x, g)(k + 1)
  {
    StepContinues(states, ops, k, g);
    TaleAt(RowAt(states, g), Into(states, ops, g), CrashAt(ops), x, k);
  }

  lemma TellsInState(states: seq<Db>, ops: seq<StoreOp>, x: nat, j: nat, g: string)
    requires j < |states| && g in states[j].groups && Told(states, ops, x, g)(j)
    ensures Tells(states[j].groups[g], History(Into(states, ops, g), CrashAt(ops), x, j))
  {
  }

  // ---------------------------------------------------------------- the sweep after an insert

  /** A stored crash is followed by a sweep unless that fails: what is left are the rows that survive
      it, within the quota. Nothing else is ever swept by an ingest. */
  lemma InsertThenSweeps(db: Db, exact: bool, r: CrashRecord, keys: seq<string>, env: Env)
    requires Sound(db, exact) && IdRoom(db, r)
    ensures var done, after := Committed(db, r, keys, env), IngestWithSources(db, r, keys, env);
            && after.1 == done.1
            && if done.1.Stored? && !env.sweepFails then
                 && IndexedBytes(after.0.records) <= env.policy.bytesTotal
                 && forall id :: id in after.0.records
                      <==> AmongNewest(done.0, id, env.sweepMs, env.policy)
                           && NewerOverall(done.0, id, env.sweepMs, env.policy) < env.policy.total
               else after.0 == done.0
  {
    var done := Committed(db, r, keys, env);
    if done.1.Stored? && !env.sweepFails {
      CommittedSound(db, exact, r, keys, env);
      SweepFits(done.0, exact, env.sweepMs, env.policy);
      forall id: nat
        ensures id in Sweep(done.0, env.sweepMs, env.policy).records
                <==> AmongNewest(done.0, id, env.sweepMs, env.policy)
                     && NewerOverall(done.0, id, env.sweepMs, env.policy) < env.policy.total
      {
        RowSurvivesExactly(done.0, env.sweepMs, env.policy, id);
      }
    }
  }
}
