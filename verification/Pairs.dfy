/** Two sightings on a fresh merger: exactly when they end in one occurrence. */
module Pairs {
  import opened Model
  import opened Evidence
  import opened Merger
  import opened Ledger
  import opened Joining
  import opened Timing
  import opened Occurrences
  import opened Placement

  /** One kind, process and crash: equal known pids and no two users, or one user if a pid is missing. */
  predicate OneCrash(f: Fragment, g: Fragment) {
    && f.kind == g.kind && f.processName == g.processName
    && if f.pid != 0 && g.pid != 0 then f.pid == g.pid && (f.userId == g.userId || f.userId.None? || g.userId.None?)
       else f.userId.Some? && f.userId == g.userId
  }

  /** A dropbox entry after the file of an ANR. */
  predicate Trails(f: Fragment, g: Fragment) { f.kind == Anr && f.source == AnrFile && g.source == Dropbox }

  /** The rule in milliseconds: at most two seconds apart, or the window if that is shorter. Under a
      negative window only one instant counts, a completion that did not wait is forgotten at once,
      and an entry after the file of an ANR may come at any later time. */
  predicate Meet(f: Fragment, g: Fragment, window: Ms) {
    var apart := Distance(f.happenedAtMs, g.happenedAtMs);
    && OneCrash(f, g)
    && if window >= 0 then apart <= 2_000 && apart <= window
       else
         && (f.kind == Wtf && f.source in {Events, Dropbox} ==> g.happenedAtMs == I64_MIN)
         && (apart == 0 || (Trails(f, g) && g.happenedAtMs > f.happenedAtMs + window && g.happenedAtMs > I64_MIN))
  }

  lemma PairAgrees(f: Fragment, g: Fragment)
    ensures Agrees([f], g) <==> OneCrash(f, g)
  {
    assert [f][0] == f;
  }

  lemma PairNear(f: Fragment, g: Fragment, bound: int)
    requires bound >= 0
    ensures Near([f], g, bound) <==> Distance(f.happenedAtMs, g.happenedAtMs) <= bound
  {
    assert IsEarliest([f], 0);
  }

  lemma PairNames(f: Fragment, s: Source)
    ensures Names([f], s) <==> f.source == s
  {
    assert [f][0] == f;
  }

  lemma PairFits(f: Fragment, g: Fragment, window: Ms)
    requires f.source != g.source
    ensures var apart := Distance(f.happenedAtMs, g.happenedAtMs);
            && (Fits([f], g, window) <==> OneCrash(f, g) && (apart == 0 || (apart <= window && apart <= 2_000)))
            && (FitsLate([f], g, window)
                <==> OneCrash(f, g) && (if Trails(f, g) then window < 0 || apart <= window
                                        else apart == 0 || (apart <= window && apart <= 2_000)))
  {
    PairAgrees(f, g);
    PairNames(f, g.source);
    PairNames(f, AnrFile);
    PairNear(f, g, if window < 0 then 0 else if window < 2_000 then window else 2_000);
    if window >= 0 {
      PairNear(f, g, window);
    }
  }

  /** How long the first sighting waits by itself. */
  function Alone(f: Fragment, window: Ms): Ms {
    if f.kind == Wtf && f.source in {Events, Dropbox} then 0
    else if f.userId.Some? && f.kind != Wtf && (f.source == Dropbox || (f.kind == NativeCrash && f.source == Tombstone)) then 250
    else window
  }

  lemma AloneExactly(f: Fragment, window: Ms)
    ensures Wait([f], window) == Alone(f, window)
  {
    PairNames(f, Events);
    PairNames(f, CrashBuffer);
    PairNames(f, Dropbox);
    PairNames(f, Tombstone);
    PairNames(f, AnrFile);
    assert [f][0] == f;
  }

  /** The first sighting is still waiting when the second arrives. */
  predicate StillWaits(f: Fragment, g: Fragment, window: Ms) {
    Alone(f, window) != 0 && (g.happenedAtMs == I64_MIN || g.happenedAtMs <= f.happenedAtMs + Alone(f, window))
  }

  lemma ExpiredAlone(f: Fragment, g: Fragment, window: Ms)
    ensures Expired([f], window, g.happenedAtMs) <==>
              g.happenedAtMs > I64_MIN && f.happenedAtMs + Alone(f, window) < g.happenedAtMs
  {
    AloneExactly(f, window);
    assert IsLatest([f], 0);
  }

  lemma YoungAlone(f: Fragment, window: Ms, watermark: Ms)
    ensures Young([f], window, watermark) <==> watermark == I64_MIN || f.happenedAtMs + window >= watermark
  {
    assert IsEarliest([f], 0);
  }

  lemma SomeRoot(s: seq<nat>) returns (r: nat)
    requires s != []
    ensures r in s
  {
    r := s[0];
  }

  /** On a fresh merger nothing is there to join. */
  lemma FirstRole(m: State, mid: Origin, f: Fragment, role: Role)
    requires mid.arrived == [] && mid.open == [] && m.recent == [] && RoleIsRight(m, mid, f, role)
    ensures role == Joins(0)
  {
  }

  /** The first sighting opens an occurrence, which waits or is handed out. */
  lemma FirstOpens(window: Ms, f: Fragment) returns (o: Origin)
    ensures var m := Ingest(Fresh(window), f).0;
            && Sourced(m, o) && m.window == window && AllComplete(o, Ingest(Fresh(window), f).1, window)
            && o.arrived == [Arrival(f, Joins(0))] && Sightings(o.arrived, 0) == [f]
            && (if Alone(f, window) != 0 then o.open == [0] && o.closed == [] else o.open == [] && o.closed == [0])
            && forall id: nat :: IsRemembered(m, id) <==> 1 <= id <= |o.closed|
  {
    var none := Origin([], [], []);
    var mid, role;
    mid, o, role := ArrivalExactly(Fresh(window), none, f);
    if mid.open != [] {
      var r := SomeRoot(mid.open);
    }
    FirstRole(Flush(Fresh(window), f.happenedAtMs).0, mid, f, role);
    assert Sightings([], 0) == [];
    ArrivalAdds([], Arrival(f, Joins(0)), 0);
    assert [] + [Arrival(f, role)] == [Arrival(f, role)];
    AloneExactly(f, window);
    OneRoot(Ingest(Fresh(window), f).0, o, f);
  }

  lemma OneRoot(m: State, o: Origin, f: Fragment)
    requires Sourced(m, o) && o.arrived == [Arrival(f, Joins(0))]
    ensures 0 in o.open || 0 in o.closed
    ensures 0 in o.open ==> o.open == [0] && o.closed == []
    ensures 0 !in o.open ==> o.open == [] && o.closed == [0]
  {
    assert Justified(o, 0, m.window);
    RootsBelow(o);
  }

  /** Distinct roots below one: at most one. */
  lemma RootsBelow(o: Origin)
    requires Rooted(o) && |o.arrived| == 1
    ensures |o.open| + |o.closed| <= 1 && (forall r :: r in o.open || r in o.closed ==> r == 0)
  {
    var s := o.open + o.closed;
    if |s| > 1 {
      assert s[0] in s && s[1] in s;
      UniqueApart(s, 0, 1);
    }
  }

  // ---------------------------------------------------------------- the second sighting

  /** The first waits: the second meets it by joining. */
  lemma WaitingMeets(f: Fragment, g: Fragment, window: Ms)
    requires f.source != g.source && StillWaits(f, g, window)
    ensures Fits([f], g, window) <==> Meet(f, g, window)
  {
    PairFits(f, g, window);
  }

  /** The second's arrival ends the wait: it meets the first by being absorbed. */
  lemma ExpiredMeets(f: Fragment, g: Fragment, window: Ms)
    requires f.source != g.source && Alone(f, window) != 0 && !StillWaits(f, g, window)
    ensures FitsLate([f], g, window) <==> Meet(f, g, window)
  {
    PairFits(f, g, window);
  }

  /** The first did not wait: the second meets it if it is still remembered. */
  lemma AtOnceMeets(f: Fragment, g: Fragment, window: Ms)
    requires f.source != g.source && Alone(f, window) == 0
    ensures Young([f], window, g.happenedAtMs) && FitsLate([f], g, window) <==> Meet(f, g, window)
  {
    PairFits(f, g, window);
    YoungAlone(f, window, g.happenedAtMs);
  }

  /** What becomes of the second. */
  function SecondRole(f: Fragment, g: Fragment, window: Ms): Role {
    if !Meet(f, g, window) then Joins(1) else if StillWaits(f, g, window) then Joins(0) else LateFor(1)
  }

  /** The first occurrence is still open: the second joins it or opens another. */
  lemma OpenTakes(m: State, mid: Origin, f: Fragment, g: Fragment, role: Role)
    requires mid.arrived == [Arrival(f, Joins(0))] && Sightings(mid.arrived, 0) == [f]
    requires (f.sourceKey.Some? ==> f.sourceKey != g.sourceKey) && (forall r :: r in mid.open <==> r == 0) && mid.closed == []
    requires RoleIsRight(m, mid, g, role)
    ensures role == if Fits([f], g, m.window) then Joins(0) else Joins(1)
  {
    assert FitsOpen(mid, 0, g, m.window) <==> Fits([f], g, m.window);
  }

  /** The first occurrence is completed: it absorbs the second if it is remembered. */
  lemma ClosedTakes(m: State, mid: Origin, f: Fragment, g: Fragment, role: Role)
    requires mid.arrived == [Arrival(f, Joins(0))] && Sightings(mid.arrived, 0) == [f]
    requires mid.open == [] && mid.closed == [0] && RoleIsRight(m, mid, g, role)
    ensures role == if IsRemembered(m, 1) && FitsLate([f], g, m.window) then LateFor(1) else Joins(1)
  {
    assert SightingsOf(mid, 1) == [f];
    assert FitsRemembered(m, mid, 1, g) <==> IsRemembered(m, 1) && FitsLate([f], g, m.window);
  }

  /** Whether the first completion is remembered when the second sighting arrives. */
  lemma FirstRemembered(m1: State, o1: Origin, m: State, mid: Origin, f: Fragment, g: Fragment)
    requires Sightings(o1.arrived, 0) == [f] && mid.closed == [0] && (o1.closed == [] || o1.closed == [0])
    requires forall id: nat :: IsRemembered(m1, id) <==> 1 <= id <= |o1.closed|
    requires RemembersAfter(m1, o1, g.happenedAtMs, m, mid)
    ensures IsRemembered(m, 1) <==> o1.closed == [] || Young([f], m1.window, g.happenedAtMs)
  {
    if o1.closed == [0] {
      assert SightingsOf(o1, 1) == [f];
    }
  }

  lemma ClosedMeets(m: State, mid: Origin, f: Fragment, g: Fragment, role: Role, window: Ms)
    requires f.source != g.source && m.window == window && !StillWaits(f, g, window)
    requires mid.arrived == [Arrival(f, Joins(0))] && Sightings(mid.arrived, 0) == [f]
    requires mid.open == [] && mid.closed == [0] && RoleIsRight(m, mid, g, role)
    requires IsRemembered(m, 1) <==> Alone(f, window) != 0 || Young([f], window, g.happenedAtMs)
    ensures role == SecondRole(f, g, window)
  {
    ClosedTakes(m, mid, f, g, role);
    if Alone(f, window) != 0 {
      ExpiredMeets(f, g, window);
    } else {
      AtOnceMeets(f, g, window);
    }
  }

  /** The second sighting joins the first while it waits, is absorbed by it once it is completed,
      and opens an occurrence of its own exactly if the two do not meet. */
  lemma SecondTakes(window: Ms, f: Fragment, g: Fragment, m1: State, o1: Origin, mid: Origin, role: Role)
    requires f.source != g.source && (f.sourceKey.Some? ==> f.sourceKey != g.sourceKey)
    requires m1.window == window && o1.arrived == [Arrival(f, Joins(0))] == mid.arrived && Sightings(o1.arrived, 0) == [f]
    requires if Alone(f, window) != 0 then o1.open == [0] && o1.closed == [] else o1.open == [] && o1.closed == [0]
    requires forall id: nat :: IsRemembered(m1, id) <==> 1 <= id <= |o1.closed|
    requires forall r :: r in mid.open <==> r in o1.open && !Expired(Sightings(o1.arrived, r), window, g.happenedAtMs)
    requires if 0 in mid.open then mid.closed == [] else mid.open == [] && mid.closed == [0]
    requires RemembersAfter(m1, o1, g.happenedAtMs, Flush(m1, g.happenedAtMs).0, mid)
    requires RoleIsRight(Flush(m1, g.happenedAtMs).0, mid, g, role)
    ensures role == SecondRole(f, g, window)
  {
    var m := Flush(m1, g.happenedAtMs).0;
    assert m.window == window;
    ExpiredAlone(f, g, window);
    if StillWaits(f, g, window) {
      WaitingMeets(f, g, window);
      OpenTakes(m, mid, f, g, role);
    } else {
      FirstRemembered(m1, o1, m, mid, f, g);
      ClosedMeets(m, mid, f, g, role, window);
    }
  }

  // ---------------------------------------------------------------- how many occurrences

  /** Every root is the root of some arrival. */
  lemma RootHasArrival(m: State, o: Origin, r: nat) returns (n: nat)
    requires Sourced(m, o) && (r in o.open || r in o.closed)
    ensures n < |o.arrived| && o.arrived[n].role == Joins(r)
  {
    JoinedIsChain(m, o, r);
    SightingsAreSelected(o.arrived, r);
    n := Positions(o.arrived, r)[0];
    assert n in Positions(o.arrived, r);
  }

  lemma {:induction false} CountRoots(s: seq<nat>, bound: nat)
    requires Unique(s) && forall r: nat :: r in s <==> r < bound
    ensures |s| == bound
    decreases bound
  {
    if bound > 0 {
      assert bound - 1 in s;
      var i :| 0 <= i < |s| && s[i] == bound - 1;
      var rest: seq<nat> := s[..i] + s[i + 1..];
      assert s == s[..i] + [s[i]] + s[i + 1..];
      assert multiset(s) == multiset(rest) + multiset{s[i]};
      forall r: nat
        ensures multiset(rest)[r] <= 1 && (r in rest <==> r < bound - 1)
      {
        assert multiset(s)[r] == multiset(rest)[r] + multiset{s[i]}[r];
        assert r in rest <==> multiset(rest)[r] > 0;
        assert r in s <==> multiset(s)[r] > 0;
      }
      CountRoots(rest, bound - 1);
    } else if s != [] {
      var r := SomeRoot(s);
    }
  }

  lemma TwoArrivals(m: State, o: Origin, f: Fragment, g: Fragment, role: Role)
    requires Sourced(m, o) && o.arrived == [Arrival(f, Joins(0)), Arrival(g, role)]
    requires role == Joins(0) || role == Joins(1) || role.LateFor?
    ensures |m.pending| + m.nextId - 1 == if role == Joins(1) then 2 else 1
  {
    var s, bound := o.open + o.closed, if role == Joins(1) then 2 else 1;
    assert Justified(o, 0, m.window) && Justified(o, 1, m.window);
    forall r: nat
      ensures r in s <==> r < bound
    {
      if r in s {
        var n := RootHasArrival(m, o, r);
      }
    }
    CountRoots(s, bound);
  }

  ghost function After(window: Ms, f: Fragment, g: Fragment): World { Run(Start(window), [Arrive(f), Arrive(g)]) }

  lemma TwoCalls(window: Ms, f: Fragment, g: Fragment)
    ensures var one := Ingest(Fresh(window), f);
            After(window, f, g).m == Ingest(one.0, g).0
            && After(window, f, g).a.emitted == one.1 + Ingest(one.0, g).1
  {
    var ops := [Arrive(f), Arrive(g)];
    assert ops[..1] == [Arrive(f)] && ops[..1][..0] == [];
    var first := Step(Start(window), Arrive(f));
    assert Run(Start(window), ops[..1]) == first;
    StepIsCall(Start(window), Arrive(f));
    StepIsCall(first, Arrive(g));
    assert [] + Ingest(Fresh(window), f).1 == Ingest(Fresh(window), f).1;
  }

  lemma SecondArrives(window: Ms, f: Fragment, g: Fragment) returns (o: Origin)
    requires f.source != g.source && (f.sourceKey.Some? ==> f.sourceKey != g.sourceKey)
    ensures Sourced(Ingest(Ingest(Fresh(window), f).0, g).0, o)
    ensures o.arrived == [Arrival(f, Joins(0)), Arrival(g, SecondRole(f, g, window))]
    ensures AllComplete(o, Ingest(Fresh(window), f).1 + Ingest(Ingest(Fresh(window), f).0, g).1, window)
  {
    var m1 := Ingest(Fresh(window), f).0;
    var o1 := FirstOpens(window, f);
    var mid, role;
    mid, o, role := ArrivalExactly(m1, o1, g);
    FlushedRoots(m1, o1, f, g, mid);
    SecondTakes(window, f, g, m1, o1, mid, role);
    ExtendsComplete(o1, mid, Ingest(Fresh(window), f).1, window);
    ExtendsComplete(mid, o, Ingest(Fresh(window), f).1, window);
    EmittedMore(o, Ingest(Fresh(window), f).1, Ingest(m1, g).1, window);
  }

  /** Two sightings from different collectors, one after the other on a fresh merger, end in one
      occurrence exactly if they meet, and in two otherwise. */
  lemma TwoSightings(window: Ms, f: Fragment, g: Fragment) returns (o: Origin)
    requires f.source != g.source && (f.sourceKey.Some? ==> f.sourceKey != g.sourceKey)
    ensures Traced(After(window, f, g), o) && After(window, f, g).m.window == window
    ensures o.arrived == [Arrival(f, Joins(0)), Arrival(g, SecondRole(f, g, window))]
    ensures var m := After(window, f, g).m; |m.pending| + m.nextId - 1 == if Meet(f, g, window) then 1 else 2
  {
    TwoCalls(window, f, g);
    o := PairEnds(After(window, f, g), window, f, g);
  }

  lemma PairEnds(w: World, window: Ms, f: Fragment, g: Fragment) returns (o: Origin)
    requires f.source != g.source && (f.sourceKey.Some? ==> f.sourceKey != g.sourceKey)
    requires w.m == Ingest(Ingest(Fresh(window), f).0, g).0
    requires w.a.emitted == Ingest(Fresh(window), f).1 + Ingest(Ingest(Fresh(window), f).0, g).1
    ensures Traced(w, o) && w.m.window == window
    ensures o.arrived == [Arrival(f, Joins(0)), Arrival(g, SecondRole(f, g, window))]
    ensures |w.m.pending| + w.m.nextId - 1 == if Meet(f, g, window) then 1 else 2
  {
    o := SecondArrives(window, f, g);
    KeepsWindow(window, f, g);
    TwoArrivals(w.m, o, f, g, SecondRole(f, g, window));
  }

  lemma KeepsWindow(window: Ms, f: Fragment, g: Fragment)
    ensures Ingest(Ingest(Fresh(window), f).0, g).0.window == window
  {
  }

  lemma FlushedRoots(m1: State, o1: Origin, f: Fragment, g: Fragment, mid: Origin)
    requires Sourced(Flush(m1, g.happenedAtMs).0, mid) && mid.arrived == [Arrival(f, Joins(0))]
    ensures if 0 in mid.open then mid.closed == [] else mid.open == [] && mid.closed == [0]
  {
    OneRoot(Flush(m1, g.happenedAtMs).0, mid, f);
  }

  lemma PairSightings(f: Fragment, g: Fragment)
    ensures Sightings([Arrival(f, Joins(0)), Arrival(g, Joins(0))], 0) == [f, g]
  {
    var a := [Arrival(f, Joins(0)), Arrival(g, Joins(0))];
    assert a[..1] == [Arrival(f, Joins(0))] && a[..1][..0] == [];
    assert Sightings(a[..1], 0) == [f];
  }

  lemma PairSources(f: Fragment, g: Fragment)
    ensures Build([f, g]).sources == {f.source, g.source}
  {
    assert [f, g][..1] == [f];
  }

  /** Both sightings joined the first: every occurrence is what the two built. */
  lemma OnlyBoth(m: State, o: Origin, f: Fragment, g: Fragment, r: nat)
    requires Sourced(m, o) && o.arrived == [Arrival(f, Joins(0)), Arrival(g, Joins(0))]
    requires r in o.open || r in o.closed
    ensures Sightings(o.arrived, r) == [f, g]
  {
    var n := RootHasArrival(m, o, r);
    PairSightings(f, g);
  }

  /** While the first waits, the two that meet are one occurrence that names both collectors. */
  lemma OneOccurrenceNamesBoth(window: Ms, f: Fragment, g: Fragment)
    requires f.source != g.source && (f.sourceKey.Some? ==> f.sourceKey != g.sourceKey)
    requires Meet(f, g, window) && StillWaits(f, g, window)
    ensures var w := After(window, f, g);
            && |w.m.pending| + w.m.nextId - 1 == 1
            && (forall p :: p in w.m.pending ==> p.sources == {f.source, g.source})
            && (forall c :: c in w.a.emitted ==> c.record.sources == {f.source, g.source})
  {
    var w := After(window, f, g);
    var o := TwoSightings(window, f, g);
    PairSources(f, g);
    forall p | p in w.m.pending
      ensures p.sources == {f.source, g.source}
    {
      var j :| 0 <= j < |w.m.pending| && w.m.pending[j] == p;
      assert BuiltBy(w.m.pending[j], o.arrived, o.open[j], window);
      OnlyBoth(w.m, o, f, g, o.open[j]);
    }
    forall c | c in w.a.emitted
      ensures c.record.sources == {f.source, g.source}
    {
      assert Completes(o, c, window);
      OnlyBoth(w.m, o, f, g, o.closed[c.completionId - 1]);
    }
  }
}
