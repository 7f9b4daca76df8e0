/** The ingest thread as the daemon runs it: a merger, a store and the keys still to be marked. */
module Daemon {
  import opened Model
  import opened Tables
  import opened Writes
  import opened Ingest
  import opened Sorting
  import opened Pipeline
  import M = Merger
  import Store

  lemma PersistAllStep(n: Node, cs: seq<MergedCrash>, envs: nat -> Env, i: nat)
    requires i < |cs|
    ensures PersistAll(n, cs[..i + 1], envs) == PersistOne(PersistAll(n, cs[..i], envs), cs[i], envs(i))
  {
    assert cs[..i + 1][..i] == cs[..i];
  }

  lemma PersistAllAgree(n: Node, cs: seq<MergedCrash>, a: nat -> Env, b: nat -> Env)
    requires forall i :: 0 <= i < |cs| ==> a(i) == b(i)
    ensures PersistAll(n, cs, a) == PersistAll(n, cs, b)
  {
  }

  lemma SiftedStep(keys: seq<string>, fails: nat -> bool, wanted: bool, i: nat)
    requires i < |keys|
    ensures Sifted(keys[..i + 1], fails, wanted)
            == if fails(i) == wanted then Sifted(keys[..i], fails, wanted) + [keys[i]] else Sifted(keys[..i], fails, wanted)
  {
    assert keys[..i + 1][..i] == keys[..i];
  }

  lemma MarkOneMore(ingested: map<string, Ms>, keys: seq<string>, key: string, nowMs: Ms)
    ensures MarkAll(ingested, keys + [key], nowMs) == MarkAll(MarkAll(ingested, keys, nowMs), [key], nowMs)
  {
  }

  /** Two surroundings that differ at most in which equally near companion the query returns. */
  predicate SameButTie(a: Env, b: Env) { a.(tie := b.tie) == b }

  class IngestThread {
    const merger: M.CrashMerger
    const store: Store.CrashStore
    var waiting: seq<string>
    ghost var log: seq<Event>

    ghost function Abs(): Node
      reads this, merger, store
    {
      Node(merger.Abs(), store.Abs(), waiting, log)
    }

    constructor (window: Ms, store: Store.CrashStore)
      ensures this.store == store && fresh(merger)
      ensures Abs() == Boot(store.Abs(), window)
    {
      this.merger := new M.CrashMerger(window);
      this.store := store;
      waiting, log := [], [];
    }

    /** The companion query: one scan keeping the nearest qualifying row so far. */
    method FindCompanion(r: CrashRecord, window: nat) returns (found: Option<nat>)
      ensures found.Some? <==> HasCompanion(store.Abs(), r, window)
      ensures found.Some? ==> IsCompanion(store.Abs(), r, window, found.value)
    {
      var db := Db(store.records, store.groups, store.ingested, store.files, store.gen);
      var todo := store.records.Keys;
      found := None;
      while todo != {}
        invariant todo <= db.records.Keys
        invariant found.Some? ==> Qualifies(db, r, window, found.value)
        invariant forall j :: j in db.records && j !in todo && Qualifies(db, r, window, j) ==>
                    found.Some? && Gap(db, r, found.value) <= Gap(db, r, j)
        decreases |todo|
      {
        var id :| id in todo;
        todo := todo - {id};
        if Qualifies(db, r, window, id) && (found.None? || Gap(db, r, id) < Gap(db, r, found.value)) {
          found := Some(id);
        }
      }
    }

    method MarkExcluded(keys: seq<string>, env: Env) returns (o: Outcome)
      modifies store
      ensures (store.Abs(), o) == Exclude(old(store.Abs()), keys, env)
    {
      if env.marks < |keys| {
        store.MarkKeys(keys[..env.marks], env.nowMs);
        return Failed;
      }
      store.MarkKeys(keys, env.nowMs);
      o := Excluded;
    }

    /** The fold or insert of an accepted crash, and the sweep after an insert. */
    method RecordAccepted(r: CrashRecord, keys: seq<string>, env: Env) returns (o: Outcome, ghost used: Env)
      modifies store
      ensures SameButTie(env, used)
      ensures (if o.Stored? then AfterInsert(Attempt(old(store.Abs()), r, keys, used).0, used)
               else Attempt(old(store.Abs()), r, keys, used).0) == store.Abs()
      ensures o == Attempt(old(store.Abs()), r, keys, used).1
    {
      used := env;
      var existing := FindCompanion(r, CompanionWindow(r.kind));
      if existing.Some? {
        used := env.(tie := existing.value);
        var folded := store.FoldIntoRecord(existing.value, r, env.policy.bytesPerRecord, keys, env.nowMs, env.fate);
        o := if folded.Ok? then Folded(existing.value) else Failed;
        return;
      }
      var inserted := store.InsertRecord(r, env.groupId, env.policy.bytesPerRecord, keys, env.nowMs, env.fate);
      if inserted.Err? {
        return Failed, used;
      }
      o := Stored(inserted.value);
      if !env.sweepFails {
        var _ := store.SweepNow(env.sweepMs, env.policy);
      }
    }

    method IngestCrash(r: CrashRecord, keys: seq<string>, env: Env) returns (o: Outcome, ghost used: Env)
      modifies store
      ensures SameButTie(env, used)
      ensures (store.Abs(), o) == IngestWithSources(old(store.Abs()), r, keys, used)
    {
      used := env;
      if env.enrichFails {
        return Failed, used;
      }
      if !env.accepted {
        o := MarkExcluded(keys, env);
        return;
      }
      if env.lookupFails {
        return Failed, used;
      }
      o, used := RecordAccepted(Enrich(r, env), keys, env);
    }

    /** Persists one completed crash and answers the merger. */
    method PersistCrash(c: MergedCrash, env: Env) returns (ghost used: Env)
      modifies this, merger, store
      ensures SameButTie(env, used)
      ensures Abs() == PersistOne(old(Abs()), c, used)
    {
      ghost var before := Abs();
      var o;
      o, used := IngestCrash(c.record, c.sourceKeys, env);
      if o.Failed? {
        merger.RejectCompletion(c.completionId);
        log := log + Trace(c, o, used) + [Refused(c.completionId), GaveUp(Unsaved(before.m, c))];
      } else {
        merger.ConfirmPersisted(c.completionId);
        log := log + Trace(c, o, used) + [Confirmed(c.completionId)];
      }
    }

    method PersistEach(cs: seq<MergedCrash>, envs: nat -> Env) returns (ghost used: nat -> Env)
      modifies this, merger, store
      ensures forall i: nat :: SameButTie(envs(i), used(i))
      ensures Abs() == PersistAll(old(Abs()), cs, used)
    {
      used := envs;
      var i := 0;
      while i < |cs|
        invariant 0 <= i <= |cs|
        invariant forall j: nat :: SameButTie(envs(j), used(j))
        invariant Abs() == PersistAll(old(Abs()), cs[..i], used)
      {
        ghost var chosen := PersistCrash(cs[i], envs(i));
        ghost var next := (j: nat) => if j == i then chosen else used(j);
        PersistAllAgree(old(Abs()), cs[..i], used, next);
        PersistAllStep(old(Abs()), cs, next, i);
        used := next;
        i := i + 1;
      }
      assert cs[..i] == cs;
    }

    method ReleaseKeys()
      modifies this, merger
      ensures Abs() == Release(old(Abs()))
    {
      ghost var freed := FreedEvents(M.Released(merger.suppressed, merger.recent));
      var keys := merger.TakeConfirmedSuppressedKeys();
      waiting := waiting + keys;
      log := log + freed;
    }

    /** Marks the waiting keys; those whose marking fails wait for the next pass. */
    method MarkSourceKeys(fails: nat -> bool, nowMs: Ms)
      modifies this, store
      ensures Abs() == MarkWaiting(old(Abs()), fails, nowMs)
    {
      var keys, i := waiting, 0;
      ghost var before := store.Abs();
      waiting := [];
      while i < |keys|
        invariant 0 <= i <= |keys|
        invariant waiting == Sifted(keys[..i], fails, true)
        invariant store.Abs() == before.(ingested := MarkAll(before.ingested, Sifted(keys[..i], fails, false), nowMs))
        invariant log == old(log)
      {
        SiftedStep(keys, fails, true, i);
        SiftedStep(keys, fails, false, i);
        if fails(i) {
          waiting := waiting + [keys[i]];
        } else {
          MarkOneMore(before.ingested, Sifted(keys[..i], fails, false), keys[i], nowMs);
          store.MarkKeys([keys[i]], nowMs);
        }
        i := i + 1;
      }
      assert keys[..i] == keys;
    }

    method PersistCompleted(cs: seq<MergedCrash>, envs: nat -> Env, fails: nat -> bool, nowMs: Ms)
      returns (ghost used: nat -> Env)
      modifies this, merger, store
      ensures forall i: nat :: SameButTie(envs(i), used(i))
      ensures Abs() == Persist(old(Abs()), cs, used, fails, nowMs)
    {
      used := PersistEach(cs, envs);
      ReleaseKeys();
      MarkSourceKeys(fails, nowMs);
    }

    /** One turn of the loop: a fragment, a timeout, or the drain at shutdown. */
    method TakeStep(s: Step) returns (ghost taken: Step)
      modifies this, merger, store
      ensures taken == s.(envs := taken.envs) && forall i: nat :: SameButTie(s.envs(i), taken.envs(i))
      ensures Abs() == Take(old(Abs()), taken)
    {
      var completed;
      match s {
        case Receive(f, _, _, _) => completed := merger.IngestFragment(f);
        case Timeout(watermark, _, _, _) => completed := merger.FlushBefore(watermark);
        case Stop(_, _, _) => completed := merger.DrainAll();
      }
      ghost var used := PersistCompleted(completed, s.envs, s.fails, s.nowMs);
      taken := s.(envs := used);
    }
  }
}
