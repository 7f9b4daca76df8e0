/**
 What stands behind every acknowledgement of a run: the transaction that committed or
 dismissed a crash, the received sightings it was merged from, and, for a key freed because
 its sighting came late, the recorded crash of the same occurrence that absorbed it.
 */
module Acknowledgement {
  import opened Model
  import opened Tables
  import opened Writes
  import opened Ingest
  import opened Evidence
  import opened Sorting
  import opened Pipeline
  import opened Timing
  import opened Placement
  import M = Merger
  import L = Ledger
  import S = Suppression
  import O = Occurrences

  // ---------------------------------------------------------------- the transaction behind an event

  /** The daemon before step `i`. */
  ghost function Until(db0: Db, window: Ms, steps: seq<Step>, i: nat): Node
    requires i <= |steps|
  {
    Run(Boot(db0, window), steps[..i])
  }

  /** The crashes that step `i` completes. */
  ghost function Batch(db0: Db, window: Ms, steps: seq<Step>, i: nat): seq<MergedCrash>
    requires i < |steps|
  {
    Advance(Until(db0, window, steps, i).m, steps[i]).1
  }

  /** The daemon in step `i` just before its `j`th completed crash is persisted. */
  ghost function Moment(db0: Db, window: Ms, steps: seq<Step>, i: nat, j: nat): Node
    requires i < |steps| && j <= |Batch(db0, window, steps, i)|
  {
    var n := Until(db0, window, steps, i);
    PersistAll(n.(m := Advance(n.m, steps[i]).0), Batch(db0, window, steps, i)[..j], steps[i].envs)
  }

  /** The event says what became of a crash. */
  predicate IsRecord(e: Event) { e.Commit? || e.Dismiss? }

  /** The event is what the store's answer to this crash left in the log. */
  ghost predicate Answers(before: Db, c: MergedCrash, env: Env, e: Event) {
    e in Trace(c, IngestWithSources(before, c.record, c.sourceKeys, env).1, env)
  }

  /** What one persisted crash adds to the log. */
  lemma PersistOneAdds(n: Node, c: MergedCrash, env: Env, e: Event)
    requires e in PersistOne(n, c, env).log && e !in n.log && IsRecord(e)
    ensures Answers(n.db, c, env, e)
  {
  }

  lemma {:induction false} PersistAllAdds(n: Node, cs: seq<MergedCrash>, envs: nat -> Env, e: Event) returns (j: nat)
    requires e in PersistAll(n, cs, envs).log && e !in n.log && IsRecord(e)
    ensures j < |cs| && Answers(PersistAll(n, cs[..j], envs).db, cs[j], envs(j), e)
  {
    var k := |cs| - 1;
    var mid := PersistAll(n, cs[..k], envs);
    if e in mid.log {
      j := PersistAllAdds(n, cs[..k], envs, e);
      assert cs[..k][..j] == cs[..j];
    } else {
      j := k;
      PersistOneAdds(mid, cs[k], envs(k), e);
    }
  }

  lemma StepAdds(n: Node, s: Step, e: Event)
    requires e in Take(n, s).log && IsRecord(e)
    ensures e in Persisted(n, s).log
  {
    var done := Persisted(n, s);
    FreedMembers(M.Released(done.m.suppressed, done.m.recent));
  }

  /** The event is what the store answered to the `j`th crash of step `i`. */
  ghost predicate AnsweredAt(db0: Db, window: Ms, steps: seq<Step>, i: nat, j: nat, e: Event) {
    && i < |steps| && j < |Batch(db0, window, steps, i)|
    && Answers(Moment(db0, window, steps, i, j).db, Batch(db0, window, steps, i)[j], steps[i].envs(j), e)
  }

  lemma AnsweredInPrefix(db0: Db, window: Ms, steps: seq<Step>, k: nat, i: nat, j: nat, e: Event)
    requires k <= |steps| && AnsweredAt(db0, window, steps[..k], i, j, e)
    ensures AnsweredAt(db0, window, steps, i, j, e)
  {
    assert steps[..k][..i] == steps[..i];
  }

  lemma AnsweredLast(db0: Db, window: Ms, steps: seq<Step>, k: nat, e: Event) returns (j: nat)
    requires |steps| == k + 1 && IsRecord(e)
    requires e in Take(Until(db0, window, steps, k), steps[k]).log && e !in Until(db0, window, steps, k).log
    ensures AnsweredAt(db0, window, steps, k, j, e)
  {
    var n := Until(db0, window, steps, k);
    StepAdds(n, steps[k], e);
    var a := Advance(n.m, steps[k]);
    j := PersistAllAdds(n.(m := a.0), a.1, steps[k].envs, e);
  }

  lemma {:induction false} EventHasMoment(db0: Db, window: Ms, steps: seq<Step>, e: Event) returns (i: nat, j: nat)
    requires e in Run(Boot(db0, window), steps).log && IsRecord(e)
    ensures AnsweredAt(db0, window, steps, i, j, e)
  {
    var k := |steps| - 1;
    if e in Until(db0, window, steps, k).log {
      i, j := EventHasMoment(db0, window, steps[..k], e);
      AnsweredInPrefix(db0, window, steps, k, i, j, e);
    } else {
      i := k;
      j := AnsweredLast(db0, window, steps, k, e);
    }
  }

  /** The transaction that a commit or a dismissal stands for. */
  ghost predicate Transacted(before: Db, env: Env, e: Event)
    requires IsRecord(e)
  {
    var done := Committed(before, e.crash.record, e.crash.sourceKeys, env);
    match e
    case Commit(c, o) =>
      && env.accepted && done.1 == o && (o.Stored? || o.Folded?)
      && Keeps(before, done.0, Enrich(c.record, env), env, o)
      && MarkedNow(before.ingested, done.0.ingested, c.sourceKeys, env.nowMs)
    case Dismiss(c, marked) =>
      && !env.accepted && marked <= c.sourceKeys
      && done.0 == before.(ingested := done.0.ingested)
      && MarkedNow(before.ingested, done.0.ingested, marked, env.nowMs)
  }

  lemma TraceIsTransacted(before: Db, c: MergedCrash, env: Env, e: Event)
    requires Answers(before, c, env, e)
    ensures IsRecord(e) && e.crash == c && Transacted(before, env, e)
  {
    CommitsTogether(before, c.record, c.sourceKeys, env);
    MarkAllMarks(before.ingested, if e.Commit? then c.sourceKeys else e.marked, env.nowMs);
  }

  /** Every commit in the log is one transaction of the run that put the crash into the store, as
      a new row with the crash's columns or into its nearest companion, together with all its
      source keys; every dismissal is an exclusion by the configuration that touched only keys. */
  lemma MarkedWithItsCrash(db0: Db, window: Ms, steps: seq<Step>, e: Event) returns (i: nat, j: nat)
    requires e in Run(Boot(db0, window), steps).log && IsRecord(e)
    ensures i < |steps| && j < |Batch(db0, window, steps, i)| && Batch(db0, window, steps, i)[j] == e.crash
    ensures Transacted(Moment(db0, window, steps, i, j).db, steps[i].envs(j), e)
  {
    i, j := EventHasMoment(db0, window, steps, e);
    TraceIsTransacted(Moment(db0, window, steps, i, j).db, Batch(db0, window, steps, i)[j], steps[i].envs(j), e);
  }

  // ---------------------------------------------------------------- the sightings received

  /** The sightings that the steps received, in order. */
  function Received(steps: seq<Step>): seq<Fragment> {
    if steps == [] then []
    else
      var init, last := Received(steps[..|steps| - 1]), steps[|steps| - 1];
      if last.Receive? then init + [last.f] else init
  }

  /** Step `i` received the sighting that `n` others came before. */
  predicate Brought(steps: seq<Step>, i: nat, n: nat) {
    && i < |steps| && n < |Received(steps)|
    && steps[i].Receive? && steps[i].f == Received(steps)[n] && |Received(steps[..i])| == n
  }

  lemma {:induction false} ReceivedAt(steps: seq<Step>, n: nat) returns (i: nat)
    requires n < |Received(steps)|
    ensures Brought(steps, i, n)
  {
    var k := |steps| - 1;
    if n < |Received(steps[..k])| {
      i := ReceivedAt(steps[..k], n);
      assert steps[..k][..i] == steps[..i];
    } else {
      i := k;
    }
  }

  // ---------------------------------------------------------------- where the log's crashes come from

  ghost predicate HasRecord(log: seq<Event>, id: nat) {
    exists e :: e in log && IsRecord(e) && e.crash.completionId == id
  }

  /** Recorded crashes are completions of arrivals, with no key of others marked; a confirmed
      completion is recorded; a freed key came late for its owner. */
  ghost predicate LogSourced(log: seq<Event>, o: O.Origin, window: Ms) {
    && (forall e :: e in log && IsRecord(e) ==> O.Completes(o, e.crash, window))
    && (forall e :: e in log && e.Dismiss? ==> e.marked <= e.crash.sourceKeys)
    && (forall id: nat :: Confirmed(id) in log ==> HasRecord(log, id))
    && (forall owner: nat, k :: Freed(owner, k) in log ==> O.CameLate(o.arrived, owner, k))
  }

  ghost predicate NodeSourced(n: Node, o: O.Origin) {
    O.Sourced(n.m, o) && LogSourced(n.log, o, n.m.window)
  }

  lemma LogStaysSourced(log: seq<Event>, o: O.Origin, o': O.Origin, window: Ms)
    requires LogSourced(log, o, window) && O.Extends(o, o') && o.arrived <= o'.arrived
    ensures LogSourced(log, o', window)
  {
    forall owner: nat, k | Freed(owner, k) in log
      ensures O.CameLate(o'.arrived, owner, k)
    {
      assert O.CameLate(o.arrived, owner, k);
      var n :| 0 <= n < |o.arrived| && o.arrived[n].role == O.LateFor(owner) && o.arrived[n].sighting.sourceKey == Some(k);
      assert o'.arrived[n] == o.arrived[n];
    }
  }

  /** The merger call that a step makes. */
  function CallOf(s: Step): L.Op {
    match s
    case Receive(f, _, _, _) => L.Arrive(f)
    case Timeout(watermark, _, _, _) => L.FlushTo(watermark)
    case Stop(_, _, _) => L.DrainOut
  }

  lemma AdvanceIsCall(m: M.State, s: Step)
    ensures Advance(m, s) == O.Call(m, CallOf(s)) && Advance(m, s).0.window == m.window
    ensures CallOf(s).Arrive? <==> s.Receive?
    ensures s.Receive? ==> CallOf(s).f == s.f
  {
  }

  lemma AdvanceSourced(m: M.State, o: O.Origin, s: Step) returns (o': O.Origin)
    requires O.Sourced(m, o)
    ensures O.Sourced(Advance(m, s).0, o') && O.AllComplete(o', Advance(m, s).1, m.window)
    ensures O.Extends(o, o') && o.arrived <= o'.arrived && Advance(m, s).0.window == m.window
    ensures O.SightingOf(o'.arrived) == if s.Receive? then O.SightingOf(o.arrived) + [s.f] else O.SightingOf(o.arrived)
  {
    AdvanceIsCall(m, s);
    o' := O.CallSourced(m, o, CallOf(s));
  }

  /** A crash persisted without failure leaves a record of itself. */
  lemma PersistedIsRecorded(n: Node, c: MergedCrash, env: Env)
    requires !Fails(n, c, env)
    ensures HasRecord(PersistOne(n, c, env).log, c.completionId)
  {
    var trace := Trace(c, IngestWithSources(n.db, c.record, c.sourceKeys, env).1, env);
    assert trace[0] in PersistOne(n, c, env).log;
  }

  lemma PersistOneRecords(n: Node, o: O.Origin, c: MergedCrash, env: Env, e: Event)
    requires LogSourced(n.log, o, n.m.window) && O.Completes(o, c, n.m.window)
    requires e in PersistOne(n, c, env).log && IsRecord(e)
    ensures O.Completes(o, e.crash, n.m.window) && (e.Dismiss? ==> e.marked <= e.crash.sourceKeys)
  {
    if e !in n.log {
      PersistOneAdds(n, c, env, e);
      TraceIsTransacted(n.db, c, env, e);
    }
  }

  lemma RecordStays(log: seq<Event>, more: seq<Event>, id: nat)
    requires HasRecord(log, id) && forall e :: e in log ==> e in more
    ensures HasRecord(more, id)
  {
    var e :| e in log && IsRecord(e) && e.crash.completionId == id;
    assert e in more;
  }

  lemma PersistOneLog(n: Node, o: O.Origin, c: MergedCrash, env: Env)
    requires LogSourced(n.log, o, n.m.window) && O.Completes(o, c, n.m.window)
    ensures LogSourced(PersistOne(n, c, env).log, o, n.m.window)
  {
    var log := PersistOne(n, c, env).log;
    LogGrows(n, c, env);
    forall e | e in log && IsRecord(e)
      ensures O.Completes(o, e.crash, n.m.window) && (e.Dismiss? ==> e.marked <= e.crash.sourceKeys)
    {
      PersistOneRecords(n, o, c, env, e);
    }
    forall id: nat | Confirmed(id) in log
      ensures HasRecord(log, id)
    {
      if Confirmed(id) in n.log {
        RecordStays(n.log, log, id);
      } else {
        PersistedIsRecorded(n, c, env);
      }
    }
  }

  lemma PersistOneSourced(n: Node, o: O.Origin, c: MergedCrash, env: Env)
    requires NodeSourced(n, o) && O.Completes(o, c, n.m.window)
    ensures NodeSourced(PersistOne(n, c, env), o) && PersistOne(n, c, env).m.window == n.m.window
  {
    PersistOneLog(n, o, c, env);
    O.ConfirmSourced(n.m, o, c.completionId);
    O.RejectSourced(n.m, o, c.completionId);
  }

  lemma {:induction false} PersistAllSourced(n: Node, o: O.Origin, cs: seq<MergedCrash>, envs: nat -> Env)
    requires NodeSourced(n, o) && O.AllComplete(o, cs, n.m.window)
    ensures NodeSourced(PersistAll(n, cs, envs), o) && PersistAll(n, cs, envs).m.window == n.m.window
  {
    if cs != [] {
      var init, last := cs[..|cs| - 1], cs[|cs| - 1];
      PersistAllSourced(n, o, init, envs);
      assert last in cs;
      PersistOneSourced(PersistAll(n, init, envs), o, last, envs(|cs| - 1));
    }
  }

  lemma ReleaseSourced(n: Node, o: O.Origin)
    requires NodeSourced(n, o)
    ensures NodeSourced(Release(n), o)
  {
    var ks, n' := M.Released(n.m.suppressed, n.m.recent), Release(n);
    O.TakeSourced(n.m, o);
    FreedMembers(ks);
    S.ReleasedMembers(n.m.suppressed, n.m.recent);
    forall id: nat | Confirmed(id) in n'.log
      ensures HasRecord(n'.log, id)
    {
      RecordStays(n.log, n'.log, id);
    }
  }

  /** Persisting what the merger handed out keeps the sightings where they went. */
  lemma StepSourcedFrom(n: Node, o: O.Origin, o': O.Origin, s: Step)
    requires NodeSourced(n, o) && O.Extends(o, o') && o.arrived <= o'.arrived
    requires O.Sourced(Advance(n.m, s).0, o') && O.AllComplete(o', Advance(n.m, s).1, n.m.window)
    requires Advance(n.m, s).0.window == n.m.window
    ensures NodeSourced(Take(n, s), o') && Take(n, s).m.window == n.m.window
  {
    var a := Advance(n.m, s);
    LogStaysSourced(n.log, o, o', n.m.window);
    PersistAllSourced(n.(m := a.0), o', a.1, s.envs);
    ReleaseSourced(Persisted(n, s), o');
  }

  lemma StepSourced(n: Node, o: O.Origin, s: Step) returns (o': O.Origin)
    requires NodeSourced(n, o)
    ensures NodeSourced(Take(n, s), o') && Take(n, s).m.window == n.m.window
    ensures O.SightingOf(o'.arrived) == if s.Receive? then O.SightingOf(o.arrived) + [s.f] else O.SightingOf(o.arrived)
  {
    o' := AdvanceSourced(n.m, o, s);
    StepSourcedFrom(n, o, o', s);
  }

  /** In every run of the daemon the merger's state, the recorded crashes and the freed keys come
      from the sightings the steps received, each in one role. */
  lemma {:induction false} DaemonSourced(db0: Db, window: Ms, steps: seq<Step>) returns (o: O.Origin)
    ensures O.SightingOf(o.arrived) == Received(steps)
    ensures Run(Boot(db0, window), steps).m.window == window
    ensures NodeSourced(Run(Boot(db0, window), steps), o)
  {
    if steps == [] {
      o := O.Origin([], [], []);
    } else {
      var init := DaemonSourced(db0, window, steps[..|steps| - 1]);
      o := StepSourced(Run(Boot(db0, window), steps[..|steps| - 1]), init, steps[|steps| - 1]);
    }
  }

  /** The sightings known once the merger took step `i`, before its crashes are persisted. */
  lemma OriginAt(db0: Db, window: Ms, steps: seq<Step>, i: nat) returns (o: O.Origin)
    requires i < |steps|
    ensures O.SightingOf(o.arrived) == Received(steps[..i + 1])
    ensures O.Sourced(Advance(Until(db0, window, steps, i).m, steps[i]).0, o)
    ensures O.AllComplete(o, Batch(db0, window, steps, i), window)
  {
    var before := DaemonSourced(db0, window, steps[..i]);
    o := AdvanceSourced(Until(db0, window, steps, i).m, before, steps[i]);
    assert steps[..i + 1][..i] == steps[..i];
  }

  /** The sighting is one of a crash's, all of one occurrence. */
  ghost predicate IsSightingOf(f: Fragment, o: O.Origin, c: MergedCrash, window: Ms) {
    && O.Completes(o, c, window)
    && var fs := O.SightingsOf(o, c.completionId);
       f in fs && forall y :: 0 <= y < |fs| ==> SameOccurrence(fs[y], f)
  }

  /** The step received a sighting that brought the key. */
  predicate Brings(steps: seq<Step>, x: nat, k: string) {
    x < |steps| && steps[x].Receive? && steps[x].f.sourceKey == Some(k)
  }

  /** The arrival that brought a key is one of the sightings of the crash. */
  lemma KeyArrived(o: O.Origin, c: MergedCrash, window: Ms, k: string) returns (n: nat)
    requires O.Completes(o, c, window) && k in c.sourceKeys
    ensures n < |o.arrived| && o.arrived[n].sighting.sourceKey == Some(k)
    ensures IsSightingOf(o.arrived[n].sighting, o, c, window)
  {
    n := O.KeyWasBrought(o, c, window, k);
    var root := o.closed[c.completionId - 1];
    O.SightingsAreSelected(o.arrived, root);
    assert n in O.Positions(o.arrived, root);
    var y :| 0 <= y < |O.Positions(o.arrived, root)| && O.Positions(o.arrived, root)[y] == n;
    assert O.SightingsOf(o, c.completionId)[y] == o.arrived[n].sighting;
  }

  lemma KeyReceived(o: O.Origin, c: MergedCrash, window: Ms, steps: seq<Step>, k: string) returns (x: nat)
    requires O.SightingOf(o.arrived) == Received(steps) && O.Completes(o, c, window) && k in c.sourceKeys
    ensures Brings(steps, x, k) && IsSightingOf(steps[x].f, o, c, window)
  {
    var n := KeyArrived(o, c, window, k);
    x := ReceivedAt(steps, n);
    assert O.SightingOf(o.arrived)[n] == o.arrived[n].sighting;
  }

  // ---------------------------------------------------------------- main results

  /** Every crash the daemon stored, folded or dismissed was merged from sightings received no
      later than the step that recorded it, agrees with each of them, and carries exactly their
      source keys. */
  lemma CommitDescribesItsSightings(db0: Db, window: Ms, steps: seq<Step>, e: Event) returns (i: nat, o: O.Origin)
    requires e in Run(Boot(db0, window), steps).log && IsRecord(e)
    ensures i < |steps| && e.crash in Batch(db0, window, steps, i)
    ensures O.SightingOf(o.arrived) == Received(steps[..i + 1])
    ensures O.Sourced(Advance(Until(db0, window, steps, i).m, steps[i]).0, o) && O.Completes(o, e.crash, window)
    ensures O.Describes(e.crash, O.SightingsOf(o, e.crash.completionId))
  {
    var j;
    i, j := MarkedWithItsCrash(db0, window, steps, e);
    o := OriginAt(db0, window, steps, i);
    O.CompleteDescribes(o, e.crash, window);
  }

  /** Each key of a recorded crash was received, no later than the step that recorded it, with a
      sighting that is one of the crash's and of the same occurrence as all its others. */
  lemma MarkedKeyWasReceived(db0: Db, window: Ms, steps: seq<Step>, e: Event, k: string)
    returns (x: nat, i: nat, o: O.Origin)
    requires e in Run(Boot(db0, window), steps).log && IsRecord(e) && k in e.crash.sourceKeys
    ensures x <= i < |steps| && e.crash in Batch(db0, window, steps, i)
    ensures O.SightingOf(o.arrived) == Received(steps[..i + 1])
    ensures Brings(steps, x, k) && IsSightingOf(steps[x].f, o, e.crash, window)
  {
    i, o := CommitDescribesItsSightings(db0, window, steps, e);
    x := KeyReceived(o, e.crash, window, steps[..i + 1], k);
  }

  /** The late sighting is of the same crash as all of those behind the recorded one. */
  ghost predicate IsLateFor(f: Fragment, o: O.Origin, c: MergedCrash, window: Ms) {
    O.Completes(o, c, window) && O.SameCrashSeen(O.SightingsOf(o, c.completionId), f, window)
  }

  lemma LateReceived(o: O.Origin, window: Ms, steps: seq<Step>, owner: nat, k: string) returns (x: nat)
    requires O.SightingOf(o.arrived) == Received(steps)
    requires O.AllJustified(o, window) && O.CameLate(o.arrived, owner, k)
    ensures Brings(steps, x, k)
    ensures O.Handed(o, owner) && O.SameCrashSeen(O.SightingsOf(o, owner), steps[x].f, window)
  {
    var n :| 0 <= n < |o.arrived| && o.arrived[n].role == O.LateFor(owner) && o.arrived[n].sighting.sourceKey == Some(k);
    assert O.Justified(o, n, window);
    x := ReceivedAt(steps, n);
    assert O.SightingOf(o.arrived)[n] == o.arrived[n].sighting;
  }

  /** A key is acknowledged on the strength of another crash only if a step received its sighting,
      it came late for that crash, whose sightings are of the same occurrence and first seen no
      further than the window away, and that crash was stored, folded or excluded. */
  lemma FreedWithItsCrash(db0: Db, window: Ms, steps: seq<Step>, owner: nat, k: string)
    returns (x: nat, e: Event, o: O.Origin)
    requires Freed(owner, k) in Run(Boot(db0, window), steps).log
    ensures O.SightingOf(o.arrived) == Received(steps)
    ensures e in Run(Boot(db0, window), steps).log && IsRecord(e) && e.crash.completionId == owner
    ensures Brings(steps, x, k) && IsLateFor(steps[x].f, o, e.crash, window)
  {
    var log := Run(Boot(db0, window), steps).log;
    o := DaemonSourced(db0, window, steps);
    x := LateReceived(o, window, steps, owner, k);
    AcknowledgementsAreSafe(db0, window, steps);
    assert HasRecord(log, owner);
    e :| e in log && IsRecord(e) && e.crash.completionId == owner;
  }

  /** Acknowledged for its crash: in every run, a source key is in the ingested table only if it
      was there before the daemon started, or a step received a sighting that brought it and the
      log records a crash, stored, folded or excluded, that the sighting is one of or came late
      for, and whose received sightings are all of the same occurrence as this one. */
  lemma AcknowledgedForItsCrash(db0: Db, window: Ms, steps: seq<Step>, k: string) returns (x: nat, e: Event, o: O.Origin)
    requires k in Run(Boot(db0, window), steps).db.ingested && k !in db0.ingested
    ensures O.SightingOf(o.arrived) == Received(steps)
    ensures e in Run(Boot(db0, window), steps).log && IsRecord(e) && Brings(steps, x, k)
    ensures IsSightingOf(steps[x].f, o, e.crash, window) || IsLateFor(steps[x].f, o, e.crash, window)
  {
    var log := Run(Boot(db0, window), steps).log;
    AcknowledgementsAreSafe(db0, window, steps);
    assert Explained(log, k);
    var cause :| cause in log && Explains(cause, k);
    if cause.Freed? {
      x, e, o := FreedWithItsCrash(db0, window, steps, cause.owner, k);
    } else {
      e := cause;
      o := DaemonSourced(db0, window, steps);
      x := KeyReceived(o, e.crash, window, steps, k);
    }
  }

  // ---------------------------------------------------------------- when crashes are handed to the store

  /** What the merger's part of a step does to the open occurrences. */
  ghost predicate HandsOut(m: M.State, o: O.Origin, s: Step, mid: O.Origin, o': O.Origin) {
    match s
    case Receive(f, _, _, _) =>
      && o'.arrived != [] && o'.arrived[|o'.arrived| - 1].sighting == f
      && var role := o'.arrived[|o'.arrived| - 1].role;
         && (forall r :: r in mid.open <==> r in o.open && !Expired(O.Sightings(o.arrived, r), m.window, f.happenedAtMs))
         && RoleIsRight(M.Flush(m, f.happenedAtMs).0, mid, f, role)
         && OpenAfter(mid, o', role, m.window)
    case Timeout(watermark, _, _, _) =>
      forall r :: r in o'.open <==> r in o.open && !Expired(O.Sightings(o.arrived, r), m.window, watermark)
    case Stop(_, _, _) => o'.open == [] && o'.arrived == o.arrived && |o'.closed| == |o.closed| + |o.open|
  }

  lemma AdvanceHandsOut(m: M.State, o: O.Origin, s: Step) returns (mid: O.Origin, o': O.Origin)
    requires O.Sourced(m, o)
    ensures HandsOut(m, o, s, mid, o') && mid.arrived == o.arrived
    ensures O.Extends(o, mid) && O.Extends(mid, o') && o.arrived <= o'.arrived
    ensures O.Sourced(Advance(m, s).0, o') && O.AllComplete(o', Advance(m, s).1, m.window)
  {
    mid := o;
    match s {
      case Receive(f, _, _, _) =>
        var role;
        mid, o', role := ArrivalExactly(m, o, f);
      case Timeout(watermark, _, _, _) => o' := FlushExactly(m, o, watermark);
      case Stop(_, _, _) => o' := O.DrainSourced(m, o);
    }
  }

  /** What a step of the daemon hands to the store. On an arrival, first the expired occurrences, then
      the one the sighting completed; the sighting takes the role the rule demands. On a timeout,
      exactly the occurrences expired by its watermark. When it stops, all of them. */
  lemma StepHandsOut(n: Node, o: O.Origin, s: Step) returns (mid: O.Origin, o': O.Origin)
    requires NodeSourced(n, o)
    ensures NodeSourced(Take(n, s), o') && mid.arrived == o.arrived && HandsOut(n.m, o, s, mid, o')
  {
    mid, o' := AdvanceHandsOut(n.m, o, s);
    AdvanceIsCall(n.m, s);
    ExtendsTwice(o, mid, o');
    StepSourcedFrom(n, o, o', s);
  }

  lemma ExtendsTwice(a: O.Origin, b: O.Origin, c: O.Origin)
    requires O.Extends(a, b) && O.Extends(b, c)
    ensures O.Extends(a, c)
  {
  }
}
