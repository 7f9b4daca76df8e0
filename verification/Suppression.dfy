/**
 The handshake with storage: which late keys a completion may release, and when the list of
 suppressed keys can be trusted.
 */
module Suppression {
  import opened Model
  import opened Evidence
  import opened Sorting
  import opened Merger
  import opened Ledger

  ghost predicate Increasing(rs: seq<Recent>) {
    forall i, j :: 0 <= i < j < |rs| ==> rs[i].completionId < rs[j].completionId
  }

  /** Recent completions carry increasing, issued ids. */
  ghost predicate IdsIncrease(m: State) {
    && m.nextId >= 1
    && (forall r :: r in m.recent ==> 1 <= r.completionId < m.nextId)
    && Increasing(m.recent)
  }

  lemma IncreasingSnoc(rs: seq<Recent>, last: Recent)
    requires Increasing(rs) && forall r :: r in rs ==> r.completionId < last.completionId
    ensures Increasing(rs + [last])
  {
    forall i | 0 <= i < |rs|
      ensures rs[i].completionId < last.completionId
    {
      assert rs[i] in rs;
    }
  }

  /** A recent completion was not rejected, and counts as persisted only if it was confirmed. */
  ghost predicate RecentHonest(a: Account, r: Recent) {
    r.completionId !in a.rejected && (r.persisted ==> r.completionId in a.confirmed)
  }

  ghost predicate Honest(w: World) {
    && IdsIncrease(w.m)
    && (forall r :: r in w.m.recent ==> RecentHonest(w.a, r))
    && (forall k :: k in w.m.suppressed ==> 1 <= k.0 < w.m.nextId && k.0 !in w.a.rejected)
    && (forall id :: id in w.a.confirmed || id in w.a.rejected ==> 1 <= id < w.m.nextId)
  }

  lemma {:induction false} RetainMembers(rs: seq<Recent>, window: Ms, watermark: Ms)
    ensures forall r :: r in Retain(rs, window, watermark) ==> r in rs
  {
    if rs != [] {
      RetainMembers(rs[..|rs| - 1], window, watermark);
      assert rs == rs[..|rs| - 1] + [rs[|rs| - 1]];
    }
  }

  lemma LastIsLargest(rs: seq<Recent>, r: Recent)
    requires Increasing(rs) && rs != [] && r in rs[..|rs| - 1]
    ensures r.completionId < rs[|rs| - 1].completionId
  {
    var x :| 0 <= x < |rs| - 1 && rs[..|rs| - 1][x] == r;
    assert rs[x] == r;
  }

  lemma {:induction false} RetainIncreasing(rs: seq<Recent>, window: Ms, watermark: Ms)
    requires Increasing(rs)
    ensures Increasing(Retain(rs, window, watermark))
  {
    if rs != [] {
      var n := |rs| - 1;
      var init := Retain(rs[..n], window, watermark);
      RetainIncreasing(rs[..n], window, watermark);
      RetainMembers(rs[..n], window, watermark);
      forall r | r in init
        ensures r.completionId < rs[n].completionId
      {
        LastIsLargest(rs, r);
      }
      IncreasingSnoc(init, rs[n]);
    }
  }

  lemma {:induction false} WithoutMembers(rs: seq<Recent>, id: nat)
    ensures forall r :: r in WithoutRecent(rs, id) <==> r in rs && r.completionId != id
  {
    if rs != [] {
      WithoutMembers(rs[..|rs| - 1], id);
      assert rs == rs[..|rs| - 1] + [rs[|rs| - 1]];
    }
  }

  lemma {:induction false} WithoutIncreasing(rs: seq<Recent>, id: nat)
    requires Increasing(rs)
    ensures Increasing(WithoutRecent(rs, id))
  {
    if rs != [] {
      var n := |rs| - 1;
      var init := WithoutRecent(rs[..n], id);
      WithoutIncreasing(rs[..n], id);
      WithoutMembers(rs[..n], id);
      forall r | r in init
        ensures r.completionId < rs[n].completionId
      {
        LastIsLargest(rs, r);
      }
      IncreasingSnoc(init, rs[n]);
    }
  }

  /** Confirming touches nothing but one `persisted` flag. */
  lemma {:induction false} MarkedPointwise(rs: seq<Recent>, id: nat)
    ensures |MarkPersisted(rs, id)| == |rs|
    ensures forall i :: 0 <= i < |rs| ==>
              MarkPersisted(rs, id)[i] == rs[i]
              || (rs[i].completionId == id && MarkPersisted(rs, id)[i] == rs[i].(persisted := true))
  {
    if rs != [] && rs[0].completionId != id {
      MarkedPointwise(rs[1..], id);
    }
  }

  lemma {:induction false} WithoutOwnerMembers(ks: seq<(nat, string)>, id: nat)
    ensures forall k :: k in WithoutOwner(ks, id) <==> k in ks && k.0 != id
  {
    if ks != [] {
      WithoutOwnerMembers(ks[..|ks| - 1], id);
      assert ks == ks[..|ks| - 1] + [ks[|ks| - 1]];
    }
  }

  lemma {:induction false} ReleasedMembers(ks: seq<(nat, string)>, rs: seq<Recent>)
    ensures forall k :: k in Released(ks, rs) <==> k in ks && Persisted(rs, k.0)
    ensures forall k :: k in Waiting(ks, rs) <==> k in ks && !Persisted(rs, k.0)
  {
    if ks != [] {
      ReleasedMembers(ks[..|ks| - 1], rs);
      assert ks == ks[..|ks| - 1] + [ks[|ks| - 1]];
    }
  }

  /** Where the recent list of a flush comes from: survivors, then the newly completed. */
  lemma FlushRecents(m: State, watermark: Ms)
    requires IdsIncrease(m)
    ensures IdsIncrease(Flush(m, watermark).0)
    ensures forall r :: r in Flush(m, watermark).0.recent ==>
              r in m.recent || (!r.persisted && m.nextId <= r.completionId < Flush(m, watermark).0.nextId)
  {
    var taken := Split(m.pending, 0, m.window, watermark).1;
    var old_, new_ := Retain(m.recent, m.window, watermark), RecentAll(taken, m.nextId);
    RetainMembers(m.recent, m.window, watermark);
    RetainIncreasing(m.recent, m.window, watermark);
    assert forall i :: 0 <= i < |old_| ==> old_[i] in old_;
    assert forall i :: 0 <= i < |new_| ==> new_[i].completionId == m.nextId + i && !new_[i].persisted;
  }

  lemma SettleRecents(m: State, i: nat, done: seq<MergedCrash>)
    requires IdsIncrease(m) && i < |m.pending|
    ensures IdsIncrease(Settle(m, i, done).0) && m.nextId <= Settle(m, i, done).0.nextId
    ensures forall r :: r in Settle(m, i, done).0.recent ==>
              r in m.recent || (!r.persisted && m.nextId <= r.completionId < Settle(m, i, done).0.nextId)
    ensures Settle(m, i, done).0.suppressed == m.suppressed
  {
    IncreasingSnoc(m.recent, RecentOf(m.pending[i], m.nextId));
  }

  lemma PlaceRecents(m: State, f: Fragment, done: seq<MergedCrash>)
    requires IdsIncrease(m)
    ensures IdsIncrease(Place(m, f, done).0) && m.nextId <= Place(m, f, done).0.nextId
    ensures forall r :: r in Place(m, f, done).0.recent ==>
              r in m.recent || (!r.persisted && m.nextId <= r.completionId < Place(m, f, done).0.nextId)
    ensures forall k :: k in Place(m, f, done).0.suppressed ==>
              k in m.suppressed || exists r :: r in m.recent && r.completionId == k.0
  {
    if !IsDuplicate(m, f) {
      var found := NearestPending(m.pending, f, m.window);
      var absorber := NearestRecent(m.recent, f, m.window);
      if found.Some? {
        SettleRecents(m.(pending := m.pending[found.value := Merge(m.pending[found.value], f)]), found.value, done);
      } else if absorber.Some? {
        assert m.recent[absorber.value] in m.recent;
      } else {
        SettleRecents(m.(pending := m.pending + [Open(f)]), |m.pending|, done);
      }
    }
  }

  lemma IngestRecents(m: State, f: Fragment)
    requires IdsIncrease(m)
    ensures IdsIncrease(Ingest(m, f).0) && m.nextId <= Ingest(m, f).0.nextId
    ensures forall r :: r in Ingest(m, f).0.recent ==>
              r in m.recent || (!r.persisted && m.nextId <= r.completionId < Ingest(m, f).0.nextId)
    ensures forall k :: k in Ingest(m, f).0.suppressed ==>
              || k in m.suppressed
              || (exists r :: r in m.recent && r.completionId == k.0)
              || m.nextId <= k.0 < Ingest(m, f).0.nextId
  {
    var flushed := Flush(m, f.happenedAtMs);
    FlushRecents(m, f.happenedAtMs);
    PlaceRecents(flushed.0, f, flushed.1);
    forall k | k in Ingest(m, f).0.suppressed && k !in m.suppressed
      ensures (exists r :: r in m.recent && r.completionId == k.0) || m.nextId <= k.0 < Ingest(m, f).0.nextId
    {
      var r :| r in flushed.0.recent && r.completionId == k.0;
    }
  }

  lemma MarkIncreases(m: State, id: nat)
    requires IdsIncrease(m)
    ensures IdsIncrease(Confirm(m, id))
    ensures forall r :: r in Confirm(m, id).recent ==>
              r in m.recent || (r.completionId == id && exists q :: q in m.recent && r == q.(persisted := true))
  {
    MarkedPointwise(m.recent, id);
    forall r | r in Confirm(m, id).recent && r !in m.recent
      ensures r.completionId == id && exists q :: q in m.recent && r == q.(persisted := true)
    {
      var i :| 0 <= i < |m.recent| && Confirm(m, id).recent[i] == r;
      assert m.recent[i] in m.recent;
    }
    forall r | r in Confirm(m, id).recent
      ensures 1 <= r.completionId < m.nextId
    {
      var i :| 0 <= i < |m.recent| && Confirm(m, id).recent[i] == r;
      assert m.recent[i] in m.recent;
    }
  }

  lemma ArriveHonest(w: World, f: Fragment)
    requires Honest(w)
    ensures Honest(Step(w, Arrive(f)))
  {
    IngestRecents(w.m, f);
    var w' := Step(w, Arrive(f));
    forall r | r in w'.m.recent
      ensures RecentHonest(w'.a, r)
    {
    }
    forall k | k in w'.m.suppressed
      ensures 1 <= k.0 < w'.m.nextId && k.0 !in w'.a.rejected
    {
    }
  }

  lemma ConfirmHonest(w: World, id: nat)
    requires Honest(w)
    ensures Honest(Step(w, ConfirmId(id)))
  {
    MarkIncreases(w.m, id);
    var w' := Step(w, ConfirmId(id));
    forall r | r in w'.m.recent
      ensures RecentHonest(w'.a, r)
    {
      if r !in w.m.recent {
        var q :| q in w.m.recent && r == q.(persisted := true);
      }
    }
  }

  lemma RejectHonest(w: World, id: nat)
    requires Honest(w)
    ensures Honest(Step(w, RejectId(id)))
  {
    WithoutMembers(w.m.recent, id);
    WithoutIncreasing(w.m.recent, id);
    WithoutOwnerMembers(w.m.suppressed, id);
  }

  lemma StepHonest(w: World, op: Op)
    requires Honest(w)
    ensures Honest(Step(w, op))
  {
    match op
    case Arrive(f) => ArriveHonest(w, f);
    case FlushTo(watermark) => FlushRecents(w.m, watermark);
    case DrainOut =>
    case ConfirmId(id) => ConfirmHonest(w, id);
    case RejectId(id) => RejectHonest(w, id);
    case Take => ReleasedMembers(w.m.suppressed, w.m.recent);
  }

  lemma {:induction false} HonestAlways(window: Ms, ops: seq<Op>)
    ensures Honest(Run(Start(window), ops))
  {
    if ops != [] {
      HonestAlways(window, ops[..|ops| - 1]);
      StepHonest(Run(Start(window), ops[..|ops| - 1]), ops[|ops| - 1]);
    }
  }

  /** In every reachable state, the keys a take would release belong to completions the store
      confirmed and never rejected. */
  lemma ReleaseIsSafe(window: Ms, ops: seq<Op>, owner: nat, key: string)
    requires var m := Run(Start(window), ops).m; (owner, key) in Released(m.suppressed, m.recent)
    ensures var a := Run(Start(window), ops).a; owner in a.confirmed && owner !in a.rejected
  {
    var w := Run(Start(window), ops);
    HonestAlways(window, ops);
    ReleasedMembers(w.m.suppressed, w.m.recent);
    var i :| 0 <= i < |w.m.recent| && w.m.recent[i].completionId == owner && w.m.recent[i].persisted;
    assert w.m.recent[i] in w.m.recent;
  }
}
