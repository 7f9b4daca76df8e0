/**
 The ingest thread: fragments and timeouts drive the merger, completed crashes go to the
 store, and the store's answers go back to the merger. A log of what was committed,
 dismissed, confirmed, refused and freed lets the acknowledgement of every source key be
 traced to its cause, over every interleaving and every failure.
 */
module Pipeline {
  import opened Model
  import opened Tables
  import opened Writes
  import opened Ingest
  import opened Sorting
  import M = Merger
  import L = Ledger
  import S = Suppression

  datatype Event =
    | Commit(crash: MergedCrash, outcome: Outcome)
    | Dismiss(crash: MergedCrash, marked: seq<string>)
    | Confirmed(id: nat)
    | Refused(id: nat)
    | GaveUp(keys: seq<string>)
    | Freed(owner: nat, key: string)

  /** The merger, the store, the freed keys still to be marked, and the log. */
  datatype Node = Node(m: M.State, db: Db, waiting: seq<string>, log: seq<Event>)

  // ---------------------------------------------------------------- the steps

  /** What one ingest leaves in the log besides its answer. */
  function Trace(c: MergedCrash, o: Outcome, env: Env): seq<Event> {
    if o.Stored? || o.Folded? then [Commit(c, o)]
    else if o.Excluded? then [Dismiss(c, c.sourceKeys)]
    else if !env.enrichFails && !env.accepted && env.marks < |c.sourceKeys| then [Dismiss(c, c.sourceKeys[..env.marks])]
    else []
  }

  ghost predicate Fails(n: Node, c: MergedCrash, env: Env) {
    IngestWithSources(n.db, c.record, c.sourceKeys, env).1.Failed?
  }

  /** The keys a refusal leaves unacknowledged: the crash's own, and those it had absorbed. */
  function Unsaved(m: M.State, c: MergedCrash): seq<string> {
    c.sourceKeys + M.KeysIn(L.OwnedBy(m.suppressed, c.completionId))
  }

  ghost function PersistOne(n: Node, c: MergedCrash, env: Env): Node {
    var r := IngestWithSources(n.db, c.record, c.sourceKeys, env);
    var log := n.log + Trace(c, r.1, env);
    if r.1.Failed? then
      n.(db := r.0, m := M.Reject(n.m, c.completionId), log := log + [Refused(c.completionId), GaveUp(Unsaved(n.m, c))])
    else
      n.(db := r.0, m := M.Confirm(n.m, c.completionId), log := log + [Confirmed(c.completionId)])
  }

  /** Persists the completed crashes in order; `envs` gives each its surroundings. */
  ghost function PersistAll(n: Node, cs: seq<MergedCrash>, envs: nat -> Env): Node {
    if cs == [] then n
    else
      var last := cs[|cs| - 1];
      PersistOne(PersistAll(n, cs[..|cs| - 1], envs), last, envs(|cs| - 1))
  }

  function FreedEvents(ks: seq<(nat, string)>): seq<Event> {
    if ks == [] then [] else FreedEvents(ks[..|ks| - 1]) + [Freed(ks[|ks| - 1].0, ks[|ks| - 1].1)]
  }

  /** Takes the suppressed keys whose completion is stored. */
  function Release(n: Node): Node {
    var taken := M.TakeConfirmed(n.m);
    n.(m := taken.0, waiting := n.waiting + taken.1, log := n.log + FreedEvents(M.Released(n.m.suppressed, n.m.recent)))
  }

  /** The waiting keys whose marking fails or succeeds; `fails` decides by position. */
  function Sifted(keys: seq<string>, fails: nat -> bool, wanted: bool): seq<string> {
    if keys == [] then []
    else
      var init := Sifted(keys[..|keys| - 1], fails, wanted);
      if fails(|keys| - 1) == wanted then init + [keys[|keys| - 1]] else init
  }

  function MarkWaiting(n: Node, fails: nat -> bool, nowMs: Ms): Node {
    n.(db := n.db.(ingested := MarkAll(n.db.ingested, Sifted(n.waiting, fails, false), nowMs)),
       waiting := Sifted(n.waiting, fails, true))
  }

  ghost function Persist(n: Node, cs: seq<MergedCrash>, envs: nat -> Env, fails: nat -> bool, nowMs: Ms): Node {
    MarkWaiting(Release(PersistAll(n, cs, envs)), fails, nowMs)
  }

  datatype Step =
    | Receive(f: Fragment, envs: nat -> Env, fails: nat -> bool, nowMs: Ms)
    | Timeout(watermark: Ms, envs: nat -> Env, fails: nat -> bool, nowMs: Ms)
    | Stop(envs: nat -> Env, fails: nat -> bool, nowMs: Ms)

  function Advance(m: M.State, s: Step): (M.State, seq<MergedCrash>) {
    match s
    case Receive(f, _, _, _) => M.Ingest(m, f)
    case Timeout(watermark, _, _, _) => M.Flush(m, watermark)
    case Stop(_, _, _) => M.Drain(m)
  }

  ghost function Take(n: Node, s: Step): Node {
    var a := Advance(n.m, s);
    Persist(n.(m := a.0), a.1, s.envs, s.fails, s.nowMs)
  }

  ghost function Run(n: Node, steps: seq<Step>): Node {
    if steps == [] then n else Take(Run(n, steps[..|steps| - 1]), steps[|steps| - 1])
  }

  function Boot(db: Db, window: Ms): Node { Node(M.Fresh(window), db, [], []) }

  // ---------------------------------------------------------------- what the log must explain

  /** An event that accounts for marking a key. */
  predicate Explains(e: Event, k: string) {
    match e
    case Commit(c, _) => k in c.sourceKeys
    case Dismiss(_, marked) => k in marked
    case Freed(_, key) => key == k
    case Confirmed(_) => false
    case Refused(_) => false
    case GaveUp(_) => false
  }

  ghost predicate Explained(log: seq<Event>, k: string) { exists e :: e in log && Explains(e, k) }

  /** Every marked key was marked before the daemon started or is explained by the log, every
      waiting key was freed, and every freed key belongs to a confirmed, never refused completion. */
  ghost predicate AckSafe(n: Node, db0: Db) {
    && (forall k :: k in n.db.ingested ==> k in db0.ingested || Explained(n.log, k))
    && (forall k :: k in n.waiting ==> Explained(n.log, k))
    && (forall owner, k :: Freed(owner, k) in n.log ==> Confirmed(owner) in n.log && Refused(owner) !in n.log)
  }

  /** The merger's side of the handshake between steps: no key is left suppressed, and every
      remembered completion is stored. */
  ghost predicate Quiet(m: M.State) {
    S.IdsIncrease(m) && m.suppressed == [] && forall r :: r in m.recent ==> r.persisted
  }

  /** The log answers each completion at most once, and only issued ones; a remembered stored
      completion was confirmed. */
  ghost predicate Answered(n: Node) {
    && (forall id: nat :: Confirmed(id) in n.log ==> Refused(id) !in n.log && id < n.m.nextId)
    && (forall id: nat :: Refused(id) in n.log ==> id < n.m.nextId)
    && (forall r :: r in n.m.recent && r.persisted ==> Confirmed(r.completionId) in n.log)
  }

  ghost predicate Settled(log: seq<Event>, id: nat) { Confirmed(id) in log || Refused(id) in log }

  /** The loop over completed crashes, before position `i`. */
  ghost predicate Midway(n: Node, db0: Db, cs: seq<MergedCrash>, i: nat) {
    && S.IdsIncrease(n.m)
    && AckSafe(n, db0) && Answered(n)
    && (forall r :: r in n.m.recent && !r.persisted ==> exists j :: i <= j < |cs| && cs[j].completionId == r.completionId)
    && (forall k :: k in n.m.suppressed ==> exists r :: r in n.m.recent && r.completionId == k.0)
    && (forall j :: i <= j < |cs| ==> cs[j].completionId < n.m.nextId && !Settled(n.log, cs[j].completionId))
  }

  ghost predicate Distinct(cs: seq<MergedCrash>) {
    forall i, j :: 0 <= i < j < |cs| ==> cs[i].completionId != cs[j].completionId
  }

  // ---------------------------------------------------------------- one completion

  lemma SweepOnlyPrunes(db: Db, nowMs: Ms, p: Retention.Policy)
    ensures Retention.Sweep(db, nowMs, p).ingested.Keys <= db.ingested.Keys
  {
  }

  /** Where the keys in the table after one ingest come from. */
  lemma IngestKeys(n: Node, c: MergedCrash, env: Env, k: string)
    requires k in PersistOne(n, c, env).db.ingested
    ensures k in n.db.ingested || Explained(PersistOne(n, c, env).log, k)
  {
    var r := IngestWithSources(n.db, c.record, c.sourceKeys, env);
    var done := Committed(n.db, c.record, c.sourceKeys, env);
    CommitsTogether(n.db, c.record, c.sourceKeys, env);
    if done.1.Stored? {
      SweepOnlyPrunes(done.0, env.sweepMs, env.policy);
    }
    if k !in n.db.ingested {
      var trace := Trace(c, r.1, env);
      assert k in done.0.ingested;
      assert |trace| == 1 && Explains(trace[0], k);
      assert trace[0] in PersistOne(n, c, env).log;
    }
  }

  lemma LogGrows(n: Node, c: MergedCrash, env: Env)
    ensures var id, log := c.completionId, PersistOne(n, c, env).log;
            && (forall e :: e in n.log ==> e in log)
            && (forall e :: e in log ==> e in n.log || e.Commit? || e.Dismiss? || e.GaveUp? || e == Confirmed(id) || e == Refused(id))
            && (Confirmed(id) in log <==> (Confirmed(id) in n.log || !Fails(n, c, env)))
            && (Refused(id) in log <==> (Refused(id) in n.log || Fails(n, c, env)))
  {
  }

  lemma PersistOneAckSafe(n: Node, db0: Db, c: MergedCrash, env: Env)
    requires AckSafe(n, db0) && !Settled(n.log, c.completionId)
    ensures AckSafe(PersistOne(n, c, env), db0)
  {
    var n' := PersistOne(n, c, env);
    LogGrows(n, c, env);
    forall k | k in n'.db.ingested
      ensures k in db0.ingested || Explained(n'.log, k)
    {
      IngestKeys(n, c, env, k);
      if k in n.db.ingested && k !in db0.ingested {
        var e :| e in n.log && Explains(e, k);
        assert e in n'.log;
      }
    }
    forall k | k in n'.waiting
      ensures Explained(n'.log, k)
    {
      var e :| e in n.log && Explains(e, k);
      assert e in n'.log;
    }
  }

  lemma ConfirmedRecents(m: M.State, id: nat)
    requires S.IdsIncrease(m)
    ensures S.IdsIncrease(M.Confirm(m, id))
    ensures forall r :: r in M.Confirm(m, id).recent && r.completionId == id ==> r.persisted
    ensures forall r :: r in M.Confirm(m, id).recent && r.completionId != id ==> r in m.recent
    ensures forall r :: r in m.recent ==> exists q :: q in M.Confirm(m, id).recent && q.completionId == r.completionId
  {
    S.MarkIncreases(m, id);
    MarkedAll(m.recent, id);
    S.MarkedPointwise(m.recent, id);
    forall r | r in m.recent
      ensures exists q :: q in M.Confirm(m, id).recent && q.completionId == r.completionId
    {
      var i :| 0 <= i < |m.recent| && m.recent[i] == r;
      assert M.Confirm(m, id).recent[i] in M.Confirm(m, id).recent;
    }
  }

  lemma {:induction false} MarkedAll(rs: seq<M.Recent>, id: nat)
    requires S.Increasing(rs)
    ensures forall r :: r in M.MarkPersisted(rs, id) && r.completionId == id ==> r.persisted
  {
    if rs != [] {
      if rs[0].completionId == id {
        forall r | r in rs[1..]
          ensures r.completionId != id
        {
          var j :| 0 <= j < |rs[1..]| && rs[1..][j] == r;
          assert rs[j + 1] == r;
        }
      } else {
        MarkedAll(rs[1..], id);
      }
    }
  }

  lemma RejectedRecents(m: M.State, id: nat)
    requires S.IdsIncrease(m)
    ensures S.IdsIncrease(M.Reject(m, id))
    ensures forall r :: r in M.Reject(m, id).recent <==> r in m.recent && r.completionId != id
    ensures forall k :: k in M.Reject(m, id).suppressed <==> k in m.suppressed && k.0 != id
  {
    S.WithoutMembers(m.recent, id);
    S.WithoutIncreasing(m.recent, id);
    S.WithoutOwnerMembers(m.suppressed, id);
  }

  lemma PersistOneAnswered(n: Node, c: MergedCrash, env: Env)
    requires S.IdsIncrease(n.m) && Answered(n) && !Settled(n.log, c.completionId) && c.completionId < n.m.nextId
    ensures Answered(PersistOne(n, c, env))
  {
    LogGrows(n, c, env);
    if Fails(n, c, env) {
      RejectedRecents(n.m, c.completionId);
    } else {
      ConfirmedRecents(n.m, c.completionId);
    }
  }

  /** The remembered completions after one answer: this one is stored or forgotten. */
  lemma PersistOneRecents(n: Node, c: MergedCrash, env: Env)
    requires S.IdsIncrease(n.m)
    ensures var n' := PersistOne(n, c, env);
            && S.IdsIncrease(n'.m)
            && n'.m.nextId == n.m.nextId
            && (forall r :: r in n'.m.recent && !r.persisted ==> r in n.m.recent && r.completionId != c.completionId)
  {
    if Fails(n, c, env) {
      RejectedRecents(n.m, c.completionId);
    } else {
      ConfirmedRecents(n.m, c.completionId);
    }
  }

  lemma PersistOneSuppressed(n: Node, c: MergedCrash, env: Env)
    requires S.IdsIncrease(n.m)
    requires forall k :: k in n.m.suppressed ==> exists r :: r in n.m.recent && r.completionId == k.0
    ensures var n' := PersistOne(n, c, env);
            forall k :: k in n'.m.suppressed ==> exists r :: r in n'.m.recent && r.completionId == k.0
  {
    var n' := PersistOne(n, c, env);
    forall k | k in n'.m.suppressed
      ensures exists r :: r in n'.m.recent && r.completionId == k.0
    {
      if Fails(n, c, env) {
        RejectedRecents(n.m, c.completionId);
        var r :| r in n.m.recent && r.completionId == k.0;
        assert r in n'.m.recent;
      } else {
        ConfirmedRecents(n.m, c.completionId);
        var r :| r in n.m.recent && r.completionId == k.0;
      }
    }
  }

  lemma PersistOneMidway(n: Node, db0: Db, cs: seq<MergedCrash>, i: nat, env: Env)
    requires Midway(n, db0, cs, i) && Distinct(cs) && i < |cs|
    ensures Midway(PersistOne(n, cs[i], env), db0, cs, i + 1)
  {
    var c, n' := cs[i], PersistOne(n, cs[i], env);
    PersistOneAckSafe(n, db0, c, env);
    PersistOneAnswered(n, c, env);
    PersistOneRecents(n, c, env);
    PersistOneSuppressed(n, c, env);
    forall r | r in n'.m.recent && !r.persisted
      ensures exists j :: i + 1 <= j < |cs| && cs[j].completionId == r.completionId
    {
      var j :| i <= j < |cs| && cs[j].completionId == r.completionId;
      assert j != i;
    }
    forall j | i + 1 <= j < |cs|
      ensures cs[j].completionId < n'.m.nextId && !Settled(n'.log, cs[j].completionId)
    {
      LogGrows(n, c, env);
    }
  }

  lemma {:induction false} PersistAllMidway(n: Node, db0: Db, cs: seq<MergedCrash>, envs: nat -> Env, i: nat)
    requires Midway(n, db0, cs, 0) && Distinct(cs) && i <= |cs|
    ensures Midway(PersistAll(n, cs[..i], envs), db0, cs, i)
  {
    if i > 0 {
      PersistAllMidway(n, db0, cs, envs, i - 1);
      assert cs[..i][..i - 1] == cs[..i - 1];
      PersistOneMidway(PersistAll(n, cs[..i - 1], envs), db0, cs, i - 1, envs(i - 1));
    }
  }

  // ---------------------------------------------------------------- releasing and marking

  lemma {:induction false} FreedMembers(ks: seq<(nat, string)>)
    ensures forall e :: e in FreedEvents(ks) <==> (e.Freed? && (e.owner, e.key) in ks)
  {
    if ks != [] {
      FreedMembers(ks[..|ks| - 1]);
      assert ks == ks[..|ks| - 1] + [ks[|ks| - 1]];
    }
  }

  /** Once every remembered completion is stored, taking leaves no key suppressed. */
  lemma {:induction false} NothingWaits(ks: seq<(nat, string)>, rs: seq<M.Recent>)
    requires forall k :: k in ks ==> M.Persisted(rs, k.0)
    ensures M.Waiting(ks, rs) == [] && M.Released(ks, rs) == ks
  {
    if ks != [] {
      assert ks == ks[..|ks| - 1] + [ks[|ks| - 1]];
      NothingWaits(ks[..|ks| - 1], rs);
      assert ks[|ks| - 1] in ks;
    }
  }

  lemma OwnersPersisted(n: Node, db0: Db, cs: seq<MergedCrash>)
    requires Midway(n, db0, cs, |cs|)
    ensures forall r :: r in n.m.recent ==> r.persisted
    ensures forall k :: k in n.m.suppressed ==> M.Persisted(n.m.recent, k.0)
  {
    forall k | k in n.m.suppressed
      ensures M.Persisted(n.m.recent, k.0)
    {
      var r :| r in n.m.recent && r.completionId == k.0;
      var i :| 0 <= i < |n.m.recent| && n.m.recent[i] == r;
    }
  }

  lemma ReleaseSafe(n: Node, db0: Db, cs: seq<MergedCrash>)
    requires Midway(n, db0, cs, |cs|)
    ensures Quiet(Release(n).m) && AckSafe(Release(n), db0) && Answered(Release(n))
  {
    var n', ks := Release(n), n.m.suppressed;
    OwnersPersisted(n, db0, cs);
    NothingWaits(ks, n.m.recent);
    FreedMembers(ks);
    assert n'.log == n.log + FreedEvents(ks);
    ReleaseExplains(n, db0);
    forall owner, k | Freed(owner, k) in n'.log
      ensures Confirmed(owner) in n'.log && Refused(owner) !in n'.log
    {
      if Freed(owner, k) !in n.log {
        assert (owner, k) in ks;
        var r :| r in n.m.recent && r.completionId == owner;
        assert Confirmed(owner) in n.log;
      }
    }
  }

  lemma ReleaseExplains(n: Node, db0: Db)
    requires AckSafe(n, db0)
    requires M.Released(n.m.suppressed, n.m.recent) == n.m.suppressed
    ensures forall k :: k in Release(n).db.ingested ==> k in db0.ingested || Explained(Release(n).log, k)
    ensures forall k :: k in Release(n).waiting ==> Explained(Release(n).log, k)
  {
    var n', ks := Release(n), n.m.suppressed;
    FreedMembers(ks);
    forall k | Explained(n.log, k)
      ensures Explained(n'.log, k)
    {
      var e :| e in n.log && Explains(e, k);
      assert e in n'.log;
    }
    forall k | k in n'.waiting
      ensures Explained(n'.log, k)
    {
      if k !in n.waiting {
        assert k in M.KeysIn(ks);
        var i :| 0 <= i < |ks| && ks[i].1 == k;
        assert ks[i] in ks;
        assert Freed(ks[i].0, k) in FreedEvents(ks);
        assert Explains(Freed(ks[i].0, k), k);
      }
    }
  }

  lemma {:induction false} SiftedMembers(keys: seq<string>, fails: nat -> bool, wanted: bool)
    ensures forall k :: k in Sifted(keys, fails, wanted) ==> k in keys
  {
    if keys != [] {
      SiftedMembers(keys[..|keys| - 1], fails, wanted);
      assert keys == keys[..|keys| - 1] + [keys[|keys| - 1]];
    }
  }

  lemma MarkWaitingSafe(n: Node, db0: Db, fails: nat -> bool, nowMs: Ms)
    requires AckSafe(n, db0)
    ensures AckSafe(MarkWaiting(n, fails, nowMs), db0)
  {
    SiftedMembers(n.waiting, fails, true);
    SiftedMembers(n.waiting, fails, false);
  }

  // ---------------------------------------------------------------- one step

  /** Between steps: the handshake is quiet and every acknowledgement is accounted for. */
  ghost predicate Inv(n: Node, db0: Db) { Quiet(n.m) && AckSafe(n, db0) && Answered(n) }

  lemma {:induction false} IdIsEmitted(cs: seq<MergedCrash>, id: nat)
    ensures L.IdCount(cs, id) > 0 <==> exists j :: 0 <= j < |cs| && cs[j].completionId == id
  {
    if cs != [] {
      var n := |cs| - 1;
      IdIsEmitted(cs[..n], id);
      if exists j :: 0 <= j < n && cs[..n][j].completionId == id {
        var j :| 0 <= j < n && cs[..n][j].completionId == id;
        assert cs[j].completionId == id;
      }
      if j :| 0 <= j < |cs| && cs[j].completionId == id {
        assert j < n ==> cs[..n][j].completionId == id;
      }
    }
  }

  lemma {:induction false} IdsAreDistinct(cs: seq<MergedCrash>)
    requires forall id: nat :: L.IdCount(cs, id) <= 1
    ensures Distinct(cs)
  {
    if cs != [] {
      var n := |cs| - 1;
      var last := cs[n].completionId;
      forall id: nat
        ensures L.IdCount(cs[..n], id) <= 1
      {
        assert L.IdCount(cs, id) >= L.IdCount(cs[..n], id);
      }
      IdsAreDistinct(cs[..n]);
      assert L.IdCount(cs, last) == L.IdCount(cs[..n], last) + 1;
      IdIsEmitted(cs[..n], last);
      forall i, j | 0 <= i < j < |cs|
        ensures cs[i].completionId != cs[j].completionId
      {
        assert cs[..n][i] == cs[i];
        assert j < n ==> cs[..n][j] == cs[j];
      }
    }
  }

  /** A step of the merger emits each newly issued id exactly once. */
  lemma AdvanceIds(m: M.State, s: Step, id: nat)
    ensures L.IdCount(Advance(m, s).1, id) == L.IdsBetween(m.nextId, Advance(m, s).0.nextId, id)
    ensures m.nextId <= Advance(m, s).0.nextId
  {
    match s
    case Receive(f, _, _, _) =>
      L.FlushCounts(m, f.happenedAtMs, "", id);
      var flushed := M.Flush(m, f.happenedAtMs);
      L.PlaceCounts(flushed.0, f, flushed.1, "", id);
    case Timeout(watermark, _, _, _) => L.FlushCounts(m, watermark, "", id);
    case Stop(_, _, _) => L.DrainCounts(m, "", id);
  }

  lemma PlaceOwner(m: M.State, f: Fragment, done: seq<MergedCrash>)
    requires m.suppressed == []
    ensures forall k :: k in M.Place(m, f, done).0.suppressed ==>
              exists r :: r in M.Place(m, f, done).0.recent && r.completionId == k.0
  {
    var found, absorber := M.NearestPending(m.pending, f, m.window), M.NearestRecent(m.recent, f, m.window);
    if found.None? && absorber.Some? {
      assert m.recent[absorber.value] in m.recent;
    }
  }

  lemma AdvanceRecents(m: M.State, s: Step)
    requires Quiet(m)
    ensures var m' := Advance(m, s).0;
            && S.IdsIncrease(m')
            && (forall r :: r in m'.recent ==>
                  r in m.recent || (!r.persisted && m.nextId <= r.completionId < m'.nextId))
            && (forall k :: k in m'.suppressed ==> exists r :: r in m'.recent && r.completionId == k.0)
  {
    match s
    case Receive(f, _, _, _) =>
      S.IngestRecents(m, f);
      var flushed := M.Flush(m, f.happenedAtMs);
      PlaceOwner(flushed.0, f, flushed.1);
    case Timeout(watermark, _, _, _) => S.FlushRecents(m, watermark);
    case Stop(_, _, _) =>
  }

  lemma AdvanceIdsOnce(m: M.State, s: Step)
    ensures forall id: nat :: L.IdCount(Advance(m, s).1, id) <= 1
  {
    forall id: nat
      ensures L.IdCount(Advance(m, s).1, id) <= 1
    {
      AdvanceIds(m, s, id);
    }
  }

  /** The crashes a step completes carry distinct, newly issued ids. */
  lemma AdvanceCompletes(m: M.State, s: Step)
    ensures var m', cs := Advance(m, s).0, Advance(m, s).1;
            && m.nextId <= m'.nextId
            && Distinct(cs)
            && (forall j :: 0 <= j < |cs| ==> m.nextId <= cs[j].completionId < m'.nextId)
  {
    var cs := Advance(m, s).1;
    AdvanceIds(m, s, 0);
    AdvanceIdsOnce(m, s);
    IdsAreDistinct(cs);
    forall j | 0 <= j < |cs|
      ensures m.nextId <= cs[j].completionId < Advance(m, s).0.nextId
    {
      AdvanceIds(m, s, cs[j].completionId);
      IdIsEmitted(cs, cs[j].completionId);
    }
  }

  lemma NewIdIsEmitted(m: M.State, s: Step, id: nat)
    requires m.nextId <= id < Advance(m, s).0.nextId
    ensures var cs := Advance(m, s).1; exists j :: 0 <= j < |cs| && cs[j].completionId == id
  {
    AdvanceIds(m, s, id);
    IdIsEmitted(Advance(m, s).1, id);
  }

  lemma AdvanceKeepsAnswers(n: Node, db0: Db, m': M.State)
    requires AckSafe(n, db0) && Answered(n) && n.m.nextId <= m'.nextId
    requires forall r :: r in m'.recent ==> r in n.m.recent || (n.m.nextId <= r.completionId && !r.persisted)
    ensures AckSafe(n.(m := m'), db0) && Answered(n.(m := m'))
  {
  }

  lemma AdvanceMidway(n: Node, db0: Db, s: Step)
    requires Inv(n, db0)
    ensures Distinct(Advance(n.m, s).1)
    ensures Midway(n.(m := Advance(n.m, s).0), db0, Advance(n.m, s).1, 0)
  {
    var m', cs := Advance(n.m, s).0, Advance(n.m, s).1;
    AdvanceRecents(n.m, s);
    AdvanceCompletes(n.m, s);
    AdvanceKeepsAnswers(n, db0, m');
    forall r | r in m'.recent && !r.persisted
      ensures exists j :: 0 <= j < |cs| && cs[j].completionId == r.completionId
    {
      NewIdIsEmitted(n.m, s, r.completionId);
    }
  }

  lemma StepInv(n: Node, db0: Db, s: Step)
    requires Inv(n, db0)
    ensures Inv(Take(n, s), db0)
  {
    var a := Advance(n.m, s);
    var start := n.(m := a.0);
    AdvanceMidway(n, db0, s);
    PersistAllMidway(start, db0, a.1, s.envs, |a.1|);
    assert a.1[..|a.1|] == a.1;
    var done := PersistAll(start, a.1, s.envs);
    ReleaseSafe(done, db0, a.1);
    MarkWaitingSafe(Release(done), db0, s.fails, s.nowMs);
  }

  /** Acknowledgement safety, over every interleaving of arrivals, timeouts and storage success
      or failure: a source key is in the ingested table only if it was there at the start, or it
      is carried by a crash that the log shows stored or folded, or marked for one excluded by
      configuration, or the completion that absorbed it was confirmed and never refused. Between
      steps no key is left suppressed, so none is forgotten. */
  lemma {:induction false} AcknowledgementsAreSafe(db0: Db, window: Ms, steps: seq<Step>)
    ensures AckSafe(Run(Boot(db0, window), steps), db0)
    ensures Quiet(Run(Boot(db0, window), steps).m)
    ensures Answered(Run(Boot(db0, window), steps))
  {
    if steps != [] {
      AcknowledgementsAreSafe(db0, window, steps[..|steps| - 1]);
      StepInv(Run(Boot(db0, window), steps[..|steps| - 1]), db0, steps[|steps| - 1]);
    }
  }

  // ---------------------------------------------------------------- nothing is forgotten

  ghost predicate Abandoned(log: seq<Event>, k: string) {
    exists e :: e in log && e.GaveUp? && k in e.keys
  }

  /** The crash that carries the key was stored, folded or excluded. */
  ghost predicate Recorded(log: seq<Event>, k: string) {
    exists e :: e in log && (e.Commit? || e.Dismiss?) && Explains(e, k)
  }

  /** What can have become of a source key that is not marked: still pending, recorded with its
      crash, given up because the store refused its crash, or waiting to be marked. */
  ghost predicate Traced(n: Node, k: string) {
    M.KeyIsPending(n.m.pending, k) || Recorded(n.log, k) || Abandoned(n.log, k) || k in n.waiting
  }

  predicate Carried(cs: seq<MergedCrash>, i: nat, k: string) {
    exists j :: i <= j < |cs| && k in cs[j].sourceKeys
  }

  predicate Absorbed(m: M.State, k: string) {
    exists j :: 0 <= j < |m.suppressed| && m.suppressed[j].1 == k
  }

  lemma {:induction false} CarriedExactly(cs: seq<MergedCrash>, k: string)
    requires L.EmittedCount(cs, k) > 0
    ensures Carried(cs, 0, k)
  {
    var n := |cs| - 1;
    L.CountPositive(cs[n].sourceKeys, k);
    if k !in cs[n].sourceKeys {
      CarriedExactly(cs[..n], k);
      var j :| 0 <= j < n && k in cs[..n][j].sourceKeys;
      assert k in cs[j].sourceKeys;
    }
  }

  lemma {:induction false} AbsorbedExactly(ks: seq<(nat, string)>, k: string)
    ensures L.OwnedCount(ks, k) > 0 <==> exists j :: 0 <= j < |ks| && ks[j].1 == k
  {
    if ks != [] {
      var n := |ks| - 1;
      AbsorbedExactly(ks[..n], k);
      if j :| 0 <= j < n && ks[..n][j].1 == k {
        assert ks[j].1 == k;
      }
      if j :| 0 <= j < |ks| && ks[j].1 == k {
        assert j < n ==> ks[..n][j].1 == k;
      }
    }
  }

  /** The merger's part: a key it holds or is handed stays pending, is emitted, or is absorbed. */
  lemma AdvanceKeeps(m: M.State, s: Step, k: string)
    requires M.KeyIsPending(m.pending, k) || (s.Receive? && s.f.sourceKey == Some(k))
    ensures var m', cs := Advance(m, s).0, Advance(m, s).1;
            M.KeyIsPending(m'.pending, k) || Carried(cs, 0, k) || Absorbed(m', k)
  {
    var m', cs := Advance(m, s).0, Advance(m, s).1;
    L.KeyIsPendingExactly(m.pending, k);
    L.KeyIsPendingExactly(m'.pending, k);
    AbsorbedExactly(m'.suppressed, k);
    match s {
      case Receive(f, _, _, _) =>
        L.FlushCounts(m, f.happenedAtMs, k, 0);
        var flushed := M.Flush(m, f.happenedAtMs);
        L.PlaceCounts(flushed.0, f, flushed.1, k, 0);
        L.KeyIsPendingExactly(flushed.0.pending, k);
      case Timeout(watermark, _, _, _) => L.FlushCounts(m, watermark, k, 0);
      case Stop(_, _, _) => L.DrainCounts(m, k, 0);
    }
    if L.EmittedCount(cs, k) > 0 {
      CarriedExactly(cs, k);
    }
  }

  /** A crash's own keys are acknowledged or given up when it is persisted. */
  lemma PersistOneDelivers(n: Node, c: MergedCrash, env: Env, k: string)
    requires k in c.sourceKeys
    ensures Recorded(PersistOne(n, c, env).log, k) || Abandoned(PersistOne(n, c, env).log, k)
  {
    var n' := PersistOne(n, c, env);
    if Fails(n, c, env) {
      assert GaveUp(Unsaved(n.m, c)) in n'.log;
    } else {
      var o := IngestWithSources(n.db, c.record, c.sourceKeys, env).1;
      var e := Trace(c, o, env)[0];
      assert e in n'.log && Explains(e, k);
    }
  }

  lemma PersistOneAbsorbed(n: Node, c: MergedCrash, env: Env, k: string)
    requires Absorbed(n.m, k)
    ensures Absorbed(PersistOne(n, c, env).m, k) || Abandoned(PersistOne(n, c, env).log, k)
  {
    var n' := PersistOne(n, c, env);
    if Fails(n, c, env) {
      var owned := L.OwnedBy(n.m.suppressed, c.completionId);
      AbsorbedExactly(n.m.suppressed, k);
      L.RejectPartitions(n.m.suppressed, c.completionId, k);
      AbsorbedExactly(n'.m.suppressed, k);
      AbsorbedExactly(owned, k);
      if !Absorbed(n'.m, k) {
        var j :| 0 <= j < |owned| && owned[j].1 == k;
        assert M.KeysIn(owned)[j] == k;
        assert GaveUp(Unsaved(n.m, c)) in n'.log;
      }
    }
  }

  lemma LoggedStays(n: Node, n': Node, k: string)
    requires forall e :: e in n.log ==> e in n'.log
    ensures Recorded(n.log, k) ==> Recorded(n'.log, k)
    ensures Abandoned(n.log, k) ==> Abandoned(n'.log, k)
  {
    if Recorded(n.log, k) {
      var e :| e in n.log && (e.Commit? || e.Dismiss?) && Explains(e, k);
      assert e in n'.log;
    }
    if Abandoned(n.log, k) {
      var e :| e in n.log && e.GaveUp? && k in e.keys;
      assert e in n'.log;
    }
  }

  lemma {:induction false} PersistAllDelivers(n: Node, cs: seq<MergedCrash>, envs: nat -> Env, i: nat, k: string)
    requires i <= |cs|
    requires Traced(n, k) || Carried(cs, 0, k) || Absorbed(n.m, k)
    ensures var n' := PersistAll(n, cs[..i], envs); Traced(n', k) || Carried(cs, i, k) || Absorbed(n'.m, k)
    ensures PersistAll(n, cs[..i], envs).m.pending == n.m.pending
  {
    if i > 0 {
      PersistAllDelivers(n, cs, envs, i - 1, k);
      assert cs[..i][..i - 1] == cs[..i - 1];
      var mid, c := PersistAll(n, cs[..i - 1], envs), cs[i - 1];
      var env := envs(i - 1);
      LogGrows(mid, c, env);
      LoggedStays(mid, PersistOne(mid, c, env), k);
      if k in c.sourceKeys {
        PersistOneDelivers(mid, c, env, k);
      } else if Carried(cs, i - 1, k) {
        var j :| i - 1 <= j < |cs| && k in cs[j].sourceKeys;
        assert Carried(cs, i, k);
      } else if Absorbed(mid.m, k) {
        PersistOneAbsorbed(mid, c, env, k);
      }
    }
  }

  /** With every absorber stored, releasing queues every absorbed key. */
  lemma ReleaseDelivers(n: Node, k: string)
    requires M.Released(n.m.suppressed, n.m.recent) == n.m.suppressed
    requires Traced(n, k) || Absorbed(n.m, k)
    ensures Traced(Release(n), k)
  {
    var n', ks := Release(n), n.m.suppressed;
    FreedMembers(ks);
    LoggedStays(n, n', k);
    if Absorbed(n.m, k) {
      var j :| 0 <= j < |ks| && ks[j].1 == k;
      assert M.KeysIn(ks)[j] == k;
    }
  }

  /** A queued key is marked or queued again. */
  lemma {:induction false} SiftedBoth(keys: seq<string>, fails: nat -> bool, k: string)
    requires k in keys
    ensures k in Sifted(keys, fails, true) || k in Sifted(keys, fails, false)
  {
    var init := keys[..|keys| - 1];
    assert keys == init + [keys[|keys| - 1]];
    if k in init {
      SiftedBoth(init, fails, k);
    }
  }

  lemma MarkDelivers(n: Node, fails: nat -> bool, nowMs: Ms, k: string)
    requires Traced(n, k)
    ensures Traced(MarkWaiting(n, fails, nowMs), k) || k in MarkWaiting(n, fails, nowMs).db.ingested
  {
    if k in n.waiting {
      SiftedBoth(n.waiting, fails, k);
    }
  }

  lemma StepDelivers(n: Node, db0: Db, s: Step, k: string)
    requires Inv(n, db0)
    requires Traced(n, k) || (s.Receive? && s.f.sourceKey == Some(k))
    ensures Traced(Take(n, s), k) || k in Take(n, s).db.ingested
  {
    var a := Advance(n.m, s);
    var start := n.(m := a.0);
    AdvanceMidway(n, db0, s);
    PersistAllMidway(start, db0, a.1, s.envs, |a.1|);
    assert a.1[..|a.1|] == a.1;
    if M.KeyIsPending(n.m.pending, k) || (s.Receive? && s.f.sourceKey == Some(k)) {
      AdvanceKeeps(n.m, s, k);
    }
    PersistAllDelivers(start, a.1, s.envs, |a.1|, k);
    var done := PersistAll(start, a.1, s.envs);
    OwnersPersisted(done, db0, a.1);
    NothingWaits(done.m.suppressed, done.m.recent);
    ReleaseDelivers(done, k);
    MarkDelivers(Release(done), s.fails, s.nowMs, k);
  }

  /** It holds after some step from the `j`th on. */
  ghost predicate Since(holds: seq<Step> -> bool, steps: seq<Step>, j: nat) {
    exists i :: j < i <= |steps| && holds(steps[..i])
  }

  lemma SinceStays(holds: seq<Step> -> bool, steps: seq<Step>, j: nat)
    requires steps != [] && Since(holds, steps[..|steps| - 1], j)
    ensures Since(holds, steps, j)
  {
    var init := steps[..|steps| - 1];
    var i :| j < i <= |init| && holds(init[..i]);
    assert init[..i] == steps[..i];
  }

  lemma SinceNow(holds: seq<Step> -> bool, steps: seq<Step>, j: nat)
    requires j < |steps| && holds(steps)
    ensures Since(holds, steps, j)
  {
    assert steps[..|steps|] == steps;
  }

  /** The key is in the ingested table after these steps. */
  ghost function Marks(db0: Db, window: Ms, k: string): seq<Step> -> bool {
    (steps: seq<Step>) => k in Run(Boot(db0, window), steps).db.ingested
  }

  /** The last step leaves a key traced or marked. */
  lemma LastStepDelivers(db0: Db, window: Ms, steps: seq<Step>, j: nat, k: string)
    requires j < |steps| && Inv(Run(Boot(db0, window), steps[..|steps| - 1]), db0)
    requires Traced(Run(Boot(db0, window), steps[..|steps| - 1]), k)
             || (steps[|steps| - 1].Receive? && steps[|steps| - 1].f.sourceKey == Some(k))
    ensures Traced(Run(Boot(db0, window), steps), k) || Since(Marks(db0, window, k), steps, j)
  {
    StepDelivers(Run(Boot(db0, window), steps[..|steps| - 1]), db0, steps[|steps| - 1], k);
    if Marks(db0, window, k)(steps) {
      SinceNow(Marks(db0, window, k), steps, j);
    }
  }

  /** No source is forgotten: in every run, each key handed to the merger is still pending, was
      recorded with its crash, was given up because the store refused its crash, waits to be marked,
      or has been marked since it arrived. */
  lemma {:induction false} NoSourceIsForgotten(db0: Db, window: Ms, steps: seq<Step>, j: nat, k: string)
    requires j < |steps| && steps[j].Receive? && steps[j].f.sourceKey == Some(k)
    ensures Traced(Run(Boot(db0, window), steps), k) || Since(Marks(db0, window, k), steps, j)
  {
    var init := steps[..|steps| - 1];
    AcknowledgementsAreSafe(db0, window, init);
    if j < |steps| - 1 {
      NoSourceIsForgotten(db0, window, init, j, k);
      if Since(Marks(db0, window, k), init, j) {
        SinceStays(Marks(db0, window, k), steps, j);
        return;
      }
    }
    LastStepDelivers(db0, window, steps, j, k);
  }

  // ---------------------------------------------------------------- marking the freed keys

  /** The keys freed in a log, in order. */
  function FreedKeys(log: seq<Event>): seq<string> {
    if log == [] then []
    else
      var init, last := FreedKeys(log[..|log| - 1]), log[|log| - 1];
      if last.Freed? then init + [last.key] else init
  }

  lemma {:induction false} FreedKeysAppend(a: seq<Event>, b: seq<Event>)
    ensures FreedKeys(a + b) == FreedKeys(a) + FreedKeys(b)
  {
    if b == [] {
      assert a + b == a;
    } else {
      var init := b[..|b| - 1];
      FreedKeysAppend(a, init);
      assert (a + b)[..|a + b| - 1] == a + init;
    }
  }

  lemma {:induction false} FreedEventsKeys(ks: seq<(nat, string)>)
    ensures FreedKeys(FreedEvents(ks)) == M.KeysIn(ks)
  {
    if ks == [] {
      assert M.KeysIn(ks) == [];
    } else {
      var init := ks[..|ks| - 1];
      FreedEventsKeys(init);
      var all, last := FreedEvents(ks), Freed(ks[|ks| - 1].0, ks[|ks| - 1].1);
      assert all == FreedEvents(init) + [last] && all[..|all| - 1] == FreedEvents(init);
      assert M.KeysIn(ks) == M.KeysIn(init) + [ks[|ks| - 1].1];
    }
  }

  lemma PersistOneExtends(n: Node, c: MergedCrash, env: Env) returns (more: seq<Event>)
    ensures PersistOne(n, c, env).log == n.log + more && forall e :: e in more ==> !e.Freed?
  {
    var o := IngestWithSources(n.db, c.record, c.sourceKeys, env).1;
    var trace := Trace(c, o, env);
    more := trace + if o.Failed? then [Refused(c.completionId), GaveUp(Unsaved(n.m, c))] else [Confirmed(c.completionId)];
  }

  lemma PersistOneFreesNone(n: Node, c: MergedCrash, env: Env)
    ensures n.log <= PersistOne(n, c, env).log
    ensures FreedKeys(PersistOne(n, c, env).log) == FreedKeys(n.log)
  {
    var more := PersistOneExtends(n, c, env);
    FreedKeysAppend(n.log, more);
    NothingFreed(more);
  }

  lemma {:induction false} NothingFreed(log: seq<Event>)
    requires forall e :: e in log ==> !e.Freed?
    ensures FreedKeys(log) == []
  {
    if log != [] {
      NothingFreed(log[..|log| - 1]);
      assert log[|log| - 1] in log;
    }
  }

  lemma {:induction false} PersistAllFreesNone(n: Node, cs: seq<MergedCrash>, envs: nat -> Env)
    ensures n.log <= PersistAll(n, cs, envs).log
    ensures FreedKeys(PersistAll(n, cs, envs).log) == FreedKeys(n.log)
    ensures PersistAll(n, cs, envs).waiting == n.waiting
  {
    if cs != [] {
      PersistAllFreesNone(n, cs[..|cs| - 1], envs);
      PersistOneFreesNone(PersistAll(n, cs[..|cs| - 1], envs), cs[|cs| - 1], envs(|cs| - 1));
    }
  }

  /** `picked` lists the positions of `s` where the test holds, in order, and `rest` is `s` there. */
  ghost predicate PickedBy(s: seq<string>, test: nat -> bool, picked: seq<nat>, rest: seq<string>) {
    && (forall i, j :: 0 <= i < j < |picked| ==> picked[i] < picked[j])
    && (forall i: nat :: i in picked <==> i < |s| && test(i))
    && |rest| == |picked|
    && forall j :: 0 <= j < |rest| ==> picked[j] < |s| && rest[j] == s[picked[j]]
  }

  lemma {:induction false} SiftedPicks(keys: seq<string>, fails: nat -> bool, wanted: bool) returns (picked: seq<nat>)
    ensures PickedBy(keys, (i: nat) => fails(i) == wanted, picked, Sifted(keys, fails, wanted))
  {
    picked := [];
    if keys != [] {
      var n := |keys| - 1;
      picked := SiftedPicks(keys[..n], fails, wanted);
      assert forall j :: 0 <= j < |picked| ==> picked[j] in picked;
      if fails(n) == wanted {
        picked := picked + [n];
      }
    }
  }

  /** The daemon once the crashes a step completed are persisted. */
  ghost function Persisted(n: Node, s: Step): Node {
    var a := Advance(n.m, s);
    PersistAll(n.(m := a.0), a.1, s.envs)
  }

  /** What a step does with the keys `todo` it has to mark: each one is in the ingested table
      afterwards unless its marking failed, those that failed wait in order, and the table gains no
      other key and only the time of the step. `before` is the table the marking started from. */
  ghost predicate MarksAll(todo: seq<string>, fails: nat -> bool, nowMs: Ms, picked: seq<nat>,
                           before: map<string, Ms>, after: map<string, Ms>, waiting: seq<string>)
  {
    && PickedBy(todo, fails, picked, waiting)
    && (forall i: nat :: i < |todo| && !fails(i) ==> todo[i] in after)
    && (forall k :: k in before ==> k in after && after[k] == before[k])
    && (forall k :: k in after && k !in before ==> after[k] == nowMs && exists i: nat :: i < |todo| && !fails(i) && todo[i] == k)
  }

  lemma MarkAllSpreads(before: map<string, Ms>, todo: seq<string>, fails: nat -> bool, nowMs: Ms) returns (picked: seq<nat>)
    ensures MarksAll(todo, fails, nowMs, picked, before, MarkAll(before, Sifted(todo, fails, false), nowMs), Sifted(todo, fails, true))
  {
    var marked := Sifted(todo, fails, false);
    picked := SiftedPicks(todo, fails, true);
    var others := SiftedPicks(todo, fails, false);
    forall i: nat | i < |todo| && !fails(i)
      ensures todo[i] in marked
    {
      assert i in others;
      var j :| 0 <= j < |others| && others[j] == i;
      assert marked[j] == todo[i];
    }
    forall k | k in marked
      ensures exists i: nat :: i < |todo| && !fails(i) && todo[i] == k
    {
      var j :| 0 <= j < |marked| && marked[j] == k;
      assert others[j] in others;
    }
  }

  lemma TakeIsMarking(n: Node, s: Step)
    ensures Take(n, s) == MarkWaiting(Release(Persisted(n, s)), s.fails, s.nowMs)
    ensures FreedKeys(Persisted(n, s).log) == FreedKeys(n.log) && Persisted(n, s).waiting == n.waiting
  {
    var a := Advance(n.m, s);
    PersistAllFreesNone(n.(m := a.0), a.1, s.envs);
  }

  lemma ReleaseQueues(n: Node) returns (freed: seq<string>)
    ensures FreedKeys(Release(n).log) == FreedKeys(n.log) + freed
    ensures Release(n).waiting == n.waiting + freed && Release(n).db == n.db
  {
    var ks := M.Released(n.m.suppressed, n.m.recent);
    freed := M.KeysIn(ks);
    FreedKeysAppend(n.log, FreedEvents(ks));
    FreedEventsKeys(ks);
  }

  lemma MarkingIsExact(n: Node, fails: nat -> bool, nowMs: Ms) returns (picked: seq<nat>)
    ensures MarksAll(n.waiting, fails, nowMs, picked, n.db.ingested, MarkWaiting(n, fails, nowMs).db.ingested,
                     MarkWaiting(n, fails, nowMs).waiting)
    ensures MarkWaiting(n, fails, nowMs).log == n.log
  {
    picked := MarkAllSpreads(n.db.ingested, n.waiting, fails, nowMs);
  }

  /** Over every step, each key waiting before it or freed in it is marked, or waits once more in
      order if its marking failed. */
  lemma EveryFreedKeyIsMarked(n: Node, s: Step) returns (freed: seq<string>, picked: seq<nat>)
    ensures FreedKeys(Take(n, s).log) == FreedKeys(n.log) + freed
    ensures MarksAll(n.waiting + freed, s.fails, s.nowMs, picked, Persisted(n, s).db.ingested, Take(n, s).db.ingested,
                     Take(n, s).waiting)
  {
    TakeIsMarking(n, s);
    freed := ReleaseQueues(Persisted(n, s));
    picked := MarkingIsExact(Release(Persisted(n, s)), s.fails, s.nowMs);
  }
}
