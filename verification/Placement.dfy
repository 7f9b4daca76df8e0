/**
 What becomes of every arriving sighting, said of the sightings already there: which occurrence
 it joins, which completion absorbs it, when it opens an occurrence, and which occurrences are
 handed out and remembered.
 */
module Placement {
  import opened Model
  import opened Evidence
  import opened Sorting
  import opened Merger
  import opened Ledger
  import opened Joining
  import opened Timing
  import opened Occurrences

  // ---------------------------------------------------------------- the role of an arrival

  /** A sighting of a waiting occurrence brought the key. */
  predicate KeyWaits(o: Origin, key: Option<string>) {
    && key.Some?
    && exists r :: r in o.open && exists i :: 0 <= i < |Sightings(o.arrived, r)| && Sightings(o.arrived, r)[i].sourceKey == key
  }

  ghost predicate FitsOpen(o: Origin, root: nat, f: Fragment, window: Ms) {
    root in o.open && Fits(Sightings(o.arrived, root), f, window)
  }

  predicate HasId(rs: seq<Recent>, id: nat) { exists i :: 0 <= i < |rs| && rs[i].completionId == id }

  predicate IsRemembered(m: State, id: nat) { HasId(m.recent, id) }

  ghost predicate FitsRemembered(m: State, o: Origin, id: nat, f: Fragment) {
    IsRemembered(m, id) && Handed(o, id) && FitsLate(SightingsOf(o, id), f, m.window)
  }

  /** The earliest of `fs` is no further from `f` than the earliest of `gs`. */
  ghost predicate NoFurther(fs: seq<Fragment>, gs: seq<Fragment>, f: Fragment) {
    forall i, j :: IsEarliest(fs, i) && IsEarliest(gs, j) ==>
      Distance(fs[i].happenedAtMs, f.happenedAtMs) <= Distance(gs[j].happenedAtMs, f.happenedAtMs)
  }

  /** The rule: a sighting whose key waits already is turned away; else it joins the nearest waiting
      occurrence it fits; else the nearest remembered completion it fits late absorbs it; else it
      opens an occurrence. */
  ghost predicate RoleIsRight(m: State, o: Origin, f: Fragment, role: Role) {
    if KeyWaits(o, f.sourceKey) then role == Repeats
    else if exists r :: FitsOpen(o, r, f, m.window) then
      && role.Joins? && FitsOpen(o, role.root, f, m.window)
      && forall r :: FitsOpen(o, r, f, m.window) ==> NoFurther(Sightings(o.arrived, role.root), Sightings(o.arrived, r), f)
    else if exists id :: FitsRemembered(m, o, id, f) then
      && role.LateFor? && FitsRemembered(m, o, role.completionId, f)
      && forall id :: FitsRemembered(m, o, id, f) ==> NoFurther(SightingsOf(o, role.completionId), SightingsOf(o, id), f)
    else role == Joins(|o.arrived|)
  }

  lemma KeyWaitsExactly(m: State, o: Origin, f: Fragment)
    requires Sourced(m, o)
    ensures IsDuplicate(m, f) <==> KeyWaits(o, f.sourceKey)
  {
    if f.sourceKey.Some? {
      var key := f.sourceKey.value;
      if i :| 0 <= i < |m.pending| && key in m.pending[i].sourceKeys {
        assert BuiltBy(m.pending[i], o.arrived, o.open[i], m.window);
        KeyCameFromFragment(Sightings(o.arrived, o.open[i]), key);
        assert o.open[i] in o.open;
      }
      if KeyWaits(o, f.sourceKey) {
        var r :| r in o.open && exists i :: 0 <= i < |Sightings(o.arrived, r)| && Sightings(o.arrived, r)[i].sourceKey == f.sourceKey;
        var j :| 0 <= j < |o.open| && o.open[j] == r;
        assert BuiltBy(m.pending[j], o.arrived, o.open[j], m.window);
        KeyCameFromFragment(Sightings(o.arrived, r), key);
      }
    }
  }

  /** A waiting occurrence admits the sighting exactly when it fits what arrived for it. */
  lemma OpenFitsExactly(m: State, o: Origin, f: Fragment, i: nat)
    requires Sourced(m, o) && i < |m.pending|
    ensures PendingMatches(m.pending[i], f, m.window) <==> FitsOpen(o, o.open[i], f, m.window)
    ensures exists x :: IsEarliest(Sightings(o.arrived, o.open[i]), x)
                        && Sightings(o.arrived, o.open[i])[x].happenedAtMs == m.pending[i].firstMs
  {
    assert BuiltBy(m.pending[i], o.arrived, o.open[i], m.window);
    JoinsExactly(Sightings(o.arrived, o.open[i]), f, m.window);
    ChainSums(Sightings(o.arrived, o.open[i]), m.window);
  }

  lemma RememberedFitsExactly(m: State, o: Origin, f: Fragment, i: nat)
    requires Sourced(m, o) && i < |m.recent|
    ensures var id := m.recent[i].completionId;
            && Handed(o, id)
            && (RecentMatches(m.recent[i], f, m.window) <==> FitsRemembered(m, o, id, f))
            && exists x :: IsEarliest(SightingsOf(o, id), x) && SightingsOf(o, id)[x].happenedAtMs == m.recent[i].firstMs
  {
    var r := m.recent[i];
    assert Remembered(o, r, m.window);
    AbsorbsExactly(r, SightingsOf(o, r.completionId), f, m.window);
    ChainSums(SightingsOf(o, r.completionId), m.window);
  }

  lemma CloserIsNoFurther(fs: seq<Fragment>, gs: seq<Fragment>, f: Fragment, x: int, y: int)
    requires IsEarliest(fs, x) && IsEarliest(gs, y)
    requires Distance(fs[x].happenedAtMs, f.happenedAtMs) <= Distance(gs[y].happenedAtMs, f.happenedAtMs)
    ensures NoFurther(fs, gs, f)
  {
  }

  lemma JoinIsNearest(m: State, o: Origin, f: Fragment, i: nat)
    requires Sourced(m, o) && NearestPending(m.pending, f, m.window) == Some(i)
    ensures FitsOpen(o, o.open[i], f, m.window)
    ensures forall r :: FitsOpen(o, r, f, m.window) ==> NoFurther(Sightings(o.arrived, o.open[i]), Sightings(o.arrived, r), f)
  {
    OpenFitsExactly(m, o, f, i);
    var fs := Sightings(o.arrived, o.open[i]);
    var x :| IsEarliest(fs, x) && fs[x].happenedAtMs == m.pending[i].firstMs;
    forall r | FitsOpen(o, r, f, m.window)
      ensures NoFurther(fs, Sightings(o.arrived, r), f)
    {
      var j :| 0 <= j < |o.open| && o.open[j] == r;
      OpenFitsExactly(m, o, f, j);
      var gs := Sightings(o.arrived, r);
      var y :| IsEarliest(gs, y) && gs[y].happenedAtMs == m.pending[j].firstMs;
      CloserIsNoFurther(fs, gs, f, x, y);
    }
  }

  lemma AbsorberIsNearest(m: State, o: Origin, f: Fragment, i: nat)
    requires Sourced(m, o) && NearestRecent(m.recent, f, m.window) == Some(i)
    ensures FitsRemembered(m, o, m.recent[i].completionId, f)
    ensures forall id :: FitsRemembered(m, o, id, f) ==>
              NoFurther(SightingsOf(o, m.recent[i].completionId), SightingsOf(o, id), f)
  {
    RememberedFitsExactly(m, o, f, i);
    var fs := SightingsOf(o, m.recent[i].completionId);
    var x :| IsEarliest(fs, x) && fs[x].happenedAtMs == m.recent[i].firstMs;
    forall id | FitsRemembered(m, o, id, f)
      ensures NoFurther(fs, SightingsOf(o, id), f)
    {
      var j :| 0 <= j < |m.recent| && m.recent[j].completionId == id;
      RememberedFitsExactly(m, o, f, j);
      var gs := SightingsOf(o, id);
      var y :| IsEarliest(gs, y) && gs[y].happenedAtMs == m.recent[j].firstMs;
      CloserIsNoFurther(fs, gs, f, x, y);
    }
  }

  lemma NothingOpenFits(m: State, o: Origin, f: Fragment)
    requires Sourced(m, o) && NearestPending(m.pending, f, m.window).None?
    ensures forall r :: !FitsOpen(o, r, f, m.window)
  {
    forall r | r in o.open
      ensures !FitsOpen(o, r, f, m.window)
    {
      var j :| 0 <= j < |o.open| && o.open[j] == r;
      OpenFitsExactly(m, o, f, j);
    }
  }

  lemma NothingRememberedFits(m: State, o: Origin, f: Fragment)
    requires Sourced(m, o) && NearestRecent(m.recent, f, m.window).None?
    ensures forall id :: !FitsRemembered(m, o, id, f)
  {
    forall id | IsRemembered(m, id)
      ensures !FitsRemembered(m, o, id, f)
    {
      var j :| 0 <= j < |m.recent| && m.recent[j].completionId == id;
      RememberedFitsExactly(m, o, f, j);
    }
  }

  /** Every sighting takes the role the rule over the sightings demands. */
  lemma RoleExactly(m: State, o: Origin, f: Fragment)
    requires Sourced(m, o)
    ensures RoleIsRight(m, o, f, RoleOf(m, o, f))
  {
    var found, absorber := NearestPending(m.pending, f, m.window), NearestRecent(m.recent, f, m.window);
    KeyWaitsExactly(m, o, f);
    if !IsDuplicate(m, f) {
      if found.Some? {
        JoinIsNearest(m, o, f, found.value);
      } else {
        NothingOpenFits(m, o, f);
        if absorber.Some? {
          AbsorberIsNearest(m, o, f, absorber.value);
        } else {
          NothingRememberedFits(m, o, f);
        }
      }
    }
  }

  // ---------------------------------------------------------------- what is handed out and remembered

  /** The completion is young enough: its earliest sighting and the window reach the watermark. */
  ghost predicate Young(fs: seq<Fragment>, window: Ms, watermark: Ms) {
    watermark == I64_MIN || exists i :: IsEarliest(fs, i) && fs[i].happenedAtMs + window >= watermark
  }

  /** Remembered afterwards: the young ones among those remembered before, and every one completed
      in between. */
  ghost predicate RemembersAfter(m: State, o: Origin, watermark: Ms, m': State, o': Origin) {
    forall id: nat :: IsRemembered(m', id) <==>
      (IsRemembered(m, id) && Handed(o, id) && Young(SightingsOf(o, id), m.window, watermark))
      || |o.closed| < id <= |o'.closed|
  }

  lemma {:induction false} RetainExactly(rs: seq<Recent>, window: Ms, watermark: Ms, r: Recent)
    ensures r in Retain(rs, window, watermark) <==> r in rs && (r.firstMs + window >= watermark || watermark == I64_MIN)
  {
    if rs != [] {
      RetainExactly(rs[..|rs| - 1], window, watermark, r);
      assert rs == rs[..|rs| - 1] + [rs[|rs| - 1]];
    }
  }

  lemma YoungExactly(m: State, o: Origin, r: Recent, watermark: Ms)
    requires Sourced(m, o) && r in m.recent
    ensures Handed(o, r.completionId)
    ensures Young(SightingsOf(o, r.completionId), m.window, watermark)
            <==> r.firstMs + m.window >= watermark || watermark == I64_MIN
  {
    assert Remembered(o, r, m.window);
    var fs := SightingsOf(o, r.completionId);
    ChainSums(fs, m.window);
    var x :| IsEarliest(fs, x) && fs[x].happenedAtMs == r.firstMs;
    if i :| IsEarliest(fs, i) && fs[i].happenedAtMs + m.window >= watermark {
      assert fs[i].happenedAtMs == fs[x].happenedAtMs;
    }
  }

  lemma HasIdAppend(a: seq<Recent>, b: seq<Recent>, id: nat)
    ensures HasId(a + b, id) <==> HasId(a, id) || HasId(b, id)
  {
    var all := a + b;
    if i :| 0 <= i < |all| && all[i].completionId == id {
      assert if i < |a| then a[i].completionId == id else b[i - |a|].completionId == id;
    }
    if i :| 0 <= i < |a| && a[i].completionId == id {
      assert all[i] == a[i];
    }
    if i :| 0 <= i < |b| && b[i].completionId == id {
      assert all[|a| + i] == b[i];
    }
  }

  lemma NewIds(taken: seq<Pending>, first: nat, id: nat)
    ensures HasId(RecentAll(taken, first), id) <==> first <= id < first + |taken|
  {
    if first <= id < first + |taken| {
      assert RecentAll(taken, first)[id - first].completionId == id;
    }
  }

  lemma YoungIds(m: State, o: Origin, watermark: Ms, id: nat)
    requires Sourced(m, o)
    ensures HasId(Retain(m.recent, m.window, watermark), id)
            <==> IsRemembered(m, id) && Handed(o, id) && Young(SightingsOf(o, id), m.window, watermark)
  {
    var kept := Retain(m.recent, m.window, watermark);
    if i :| 0 <= i < |kept| && kept[i].completionId == id {
      assert kept[i] in kept;
      RetainExactly(m.recent, m.window, watermark, kept[i]);
      YoungExactly(m, o, kept[i], watermark);
      var j :| 0 <= j < |m.recent| && m.recent[j] == kept[i];
    }
    if i :| 0 <= i < |m.recent| && m.recent[i].completionId == id && Handed(o, id) && Young(SightingsOf(o, id), m.window, watermark) {
      YoungExactly(m, o, m.recent[i], watermark);
      RetainExactly(m.recent, m.window, watermark, m.recent[i]);
      var j :| 0 <= j < |kept| && kept[j] == m.recent[i];
    }
  }

  lemma FlushRemembers(m: State, o: Origin, watermark: Ms, o': Origin)
    requires Sourced(m, o) && Sourced(Flush(m, watermark).0, o')
    ensures RemembersAfter(m, o, watermark, Flush(m, watermark).0, o')
  {
    var taken := Split(m.pending, 0, m.window, watermark).1;
    forall id: nat
      ensures IsRemembered(Flush(m, watermark).0, id) <==>
              (IsRemembered(m, id) && Handed(o, id) && Young(SightingsOf(o, id), m.window, watermark))
              || |o.closed| < id <= |o'.closed|
    {
      HasIdAppend(Retain(m.recent, m.window, watermark), RecentAll(taken, m.nextId), id);
      NewIds(taken, m.nextId, id);
      YoungIds(m, o, watermark, id);
    }
  }

  /** A flush hands out exactly the expired occurrences, remembers them, and forgets exactly the
      completions that are no longer young. */
  lemma FlushExactly(m: State, o: Origin, watermark: Ms) returns (o': Origin)
    requires Sourced(m, o)
    ensures Sourced(Flush(m, watermark).0, o') && o'.arrived == o.arrived && Extends(o, o')
    ensures AllComplete(o', Flush(m, watermark).1, m.window)
    ensures forall r :: r in o'.open <==> r in o.open && !Expired(Sightings(o.arrived, r), m.window, watermark)
    ensures RemembersAfter(m, o, watermark, Flush(m, watermark).0, o') && |o.closed| <= |o'.closed|
  {
    o' := FlushSourced(m, o, watermark);
    forall r | r in o.open
      ensures RootOverdue(o, r, m.window, watermark) <==> Expired(Sightings(o.arrived, r), m.window, watermark)
    {
      var j :| 0 <= j < |o.open| && o.open[j] == r;
      assert BuiltBy(m.pending[j], o.arrived, o.open[j], m.window);
      OverdueExactly(Sightings(o.arrived, r), m.window, watermark);
    }
    FlushRemembers(m, o, watermark, o');
  }

  lemma SettleRecents(m: State, i: nat, done: seq<MergedCrash>, before: seq<Recent>)
    requires i < |m.pending| && before == m.recent
    ensures var m' := Settle(m, i, done).0;
            forall id: nat :: IsRemembered(m', id) <==> IsRemembered(m, id) || m.nextId <= id < m'.nextId
  {
    var m' := Settle(m, i, done).0;
    forall id: nat
      ensures IsRemembered(m', id) <==> IsRemembered(m, id) || m.nextId <= id < m'.nextId
    {
      if x :| 0 <= x < |m'.recent| && m'.recent[x].completionId == id {
        assert x < |m.recent| ==> m.recent[x].completionId == id;
      }
      if x :| 0 <= x < |m.recent| && m.recent[x].completionId == id {
        assert m'.recent[x] == m.recent[x];
      }
      if m.nextId <= id < m'.nextId {
        assert m'.recent[|m.recent|].completionId == id;
      }
    }
  }

  lemma PlaceRemembers(m: State, f: Fragment, done: seq<MergedCrash>)
    ensures var m' := Place(m, f, done).0;
            forall id: nat :: IsRemembered(m', id) <==> IsRemembered(m, id) || m.nextId <= id < m'.nextId
  {
    var found := NearestPending(m.pending, f, m.window);
    if !IsDuplicate(m, f) {
      if found.Some? {
        SettleRecents(m.(pending := m.pending[found.value := Merge(m.pending[found.value], f)]), found.value, done, m.recent);
      } else if NearestRecent(m.recent, f, m.window).None? {
        SettleRecents(m.(pending := m.pending + [Open(f)]), |m.pending|, done, m.recent);
      }
    }
  }

  /** The occurrence the sighting joined stays exactly if it is worth waiting for more. */
  ghost predicate OpenAfter(o: Origin, o': Origin, role: Role, window: Ms) {
    forall r :: r in o'.open <==>
      if role == Joins(r) then Sightings(o'.arrived, r) != [] && Wait(Sightings(o'.arrived, r), window) != 0 else r in o.open
  }

  /** The occurrence a sighting joined is a chain, wherever it is now. */
  lemma JoinedIsChain(m: State, o: Origin, root: nat)
    requires Sourced(m, o) && (root in o.open || root in o.closed)
    ensures IsChain(Sightings(o.arrived, root), m.window)
  {
    if root in o.open {
      var j :| 0 <= j < |o.open| && o.open[j] == root;
      assert BuiltBy(m.pending[j], o.arrived, o.open[j], m.window);
    } else {
      var j :| 0 <= j < |o.closed| && o.closed[j] == root;
      assert Handed(o, j + 1) && SightingsOf(o, j + 1) == Sightings(o.arrived, root);
    }
  }

  lemma OpenAfterExactly(m: State, o: Origin, o': Origin, role: Role)
    requires Sourced(m, o') && StaysOpen(o, o', role, m.window)
    requires o'.arrived != [] && o'.arrived[|o'.arrived| - 1].role == role
    ensures OpenAfter(o, o', role, m.window)
  {
    if role.Joins? {
      assert Justified(o', |o'.arrived| - 1, m.window);
      JoinedIsChain(m, o', role.root);
      DelayExactly(Sightings(o'.arrived, role.root), m.window);
    }
  }

  lemma RemembersBoth(m: State, o: Origin, watermark: Ms, m1: State, o1: Origin, m2: State, o2: Origin)
    requires RemembersAfter(m, o, watermark, m1, o1)
    requires |o.closed| <= |o1.closed| <= |o2.closed|
    requires forall id: nat :: IsRemembered(m2, id) <==> IsRemembered(m1, id) || |o1.closed| < id <= |o2.closed|
    ensures RemembersAfter(m, o, watermark, m2, o2)
  {
  }

  lemma RightRole(m: State, o: Origin, f: Fragment, role: Role)
    requires Sourced(m, o) && role == RoleOf(m, o, f)
    ensures RoleIsRight(m, o, f, role)
  {
    RoleExactly(m, o, f);
  }

  lemma PlacedExactly(m: State, o: Origin, f: Fragment, done: seq<MergedCrash>) returns (o': Origin, role: Role)
    requires Sourced(m, o) && AllComplete(o, done, m.window)
    ensures role == RoleOf(m, o, f)
    ensures o'.arrived == o.arrived + [Arrival(f, role)] && Extends(o, o') && |o.closed| <= |o'.closed|
    ensures OpenAfter(o, o', role, m.window)
    ensures Sourced(Place(m, f, done).0, o') && AllComplete(o', Place(m, f, done).1, m.window)
  {
    o', role := PlaceSourced(m, o, f, done);
    PlacedClosed(m, o, f, done, o');
    PlaceKeepsWindow(m, f, done);
    OpenAfterExactly(Place(m, f, done).0, o, o', role);
  }

  lemma PlaceKeepsWindow(m: State, f: Fragment, done: seq<MergedCrash>)
    ensures Place(m, f, done).0.window == m.window
  {
  }

  lemma PlacedClosed(m: State, o: Origin, f: Fragment, done: seq<MergedCrash>, o': Origin)
    requires OccurrencesSourced(m, o) && OccurrencesSourced(Place(m, f, done).0, o')
    ensures |o.closed| <= |o'.closed|
  {
  }

  lemma ArrivalRemembers(m: State, o: Origin, f: Fragment, mid: Origin, o': Origin)
    requires RemembersAfter(m, o, f.happenedAtMs, Flush(m, f.happenedAtMs).0, mid)
    requires |mid.closed| + 1 == Flush(m, f.happenedAtMs).0.nextId && |o'.closed| + 1 == Ingest(m, f).0.nextId
    requires |o.closed| <= |mid.closed| <= |o'.closed|
    ensures RemembersAfter(m, o, f.happenedAtMs, Ingest(m, f).0, o')
  {
    var flushed := Flush(m, f.happenedAtMs);
    PlaceRemembers(flushed.0, f, flushed.1);
    RemembersBoth(m, o, f.happenedAtMs, flushed.0, mid, Ingest(m, f).0, o');
  }

  /** What happens when a sighting arrives: the expired occurrences are handed out first, then it
      takes the role the rule demands, and the occurrence it joined is handed out at once exactly if
      its evidence leaves nothing to wait for. */
  lemma ArrivalExactly(m: State, o: Origin, f: Fragment) returns (mid: Origin, o': Origin, role: Role)
    requires Sourced(m, o)
    ensures mid.arrived == o.arrived && Extends(o, mid)
    ensures forall r :: r in mid.open <==> r in o.open && !Expired(Sightings(o.arrived, r), m.window, f.happenedAtMs)
    ensures Sourced(Flush(m, f.happenedAtMs).0, mid) && RoleIsRight(Flush(m, f.happenedAtMs).0, mid, f, role)
    ensures RemembersAfter(m, o, f.happenedAtMs, Flush(m, f.happenedAtMs).0, mid)
    ensures o'.arrived == o.arrived + [Arrival(f, role)] && Extends(mid, o')
    ensures OpenAfter(mid, o', role, m.window)
    ensures Sourced(Ingest(m, f).0, o') && AllComplete(o', Ingest(m, f).1, m.window)
    ensures RemembersAfter(m, o, f.happenedAtMs, Ingest(m, f).0, o')
  {
    var flushed := Flush(m, f.happenedAtMs);
    mid := FlushExactly(m, o, f.happenedAtMs);
    o', role := PlacedExactly(flushed.0, mid, f, flushed.1);
    RightRole(flushed.0, mid, f, role);
    ArrivalRemembers(m, o, f, mid, o');
  }

  // ---------------------------------------------------------------- the order of what is handed out

  lemma SettledInOrder(m: State, i: nat, done: seq<MergedCrash>)
    requires i < |m.pending| && Sorted(done)
    ensures Sorted(Settle(m, i, done).1)
  {
    SortByTimeSorts(done + [Finish(m.pending[i], m.nextId)]);
  }

  /** What one call hands out is in time order. */
  lemma HandedOutInOrder(m: State, op: Op)
    ensures Sorted(Call(m, op).1)
  {
    match op
    case Arrive(f) =>
      var flushed := Flush(m, f.happenedAtMs);
      var n := flushed.0;
      SortByTimeSorts(FinishAll(Split(m.pending, 0, m.window, f.happenedAtMs).1, m.nextId));
      var found := NearestPending(n.pending, f, n.window);
      if found.Some? {
        SettledInOrder(n.(pending := n.pending[found.value := Merge(n.pending[found.value], f)]), found.value, flushed.1);
      } else {
        SettledInOrder(n.(pending := n.pending + [Open(f)]), |n.pending|, flushed.1);
      }
    case FlushTo(watermark) => SortByTimeSorts(FinishAll(Split(m.pending, 0, m.window, watermark).1, m.nextId));
    case DrainOut => SortByTimeSorts(FinishAll(m.pending, m.nextId));
    case ConfirmId(_) =>
    case RejectId(_) =>
    case Take =>
  }

  // ---------------------------------------------------------------- over whole runs

  /** At every point of every run an arriving sighting meets the rule. */
  lemma EveryArrivalIsRight(window: Ms, ops: seq<Op>, f: Fragment) returns (o: Origin, mid: Origin, o': Origin, role: Role)
    ensures var m := Run(Start(window), ops).m;
            && SightingOf(o.arrived) == ArrivedIn(ops) && Traced(Run(Start(window), ops), o) && m.window == window
            && mid.arrived == o.arrived && o'.arrived == o.arrived + [Arrival(f, role)]
            && (forall r :: r in mid.open <==> r in o.open && !Expired(Sightings(o.arrived, r), window, f.happenedAtMs))
            && Sourced(Flush(m, f.happenedAtMs).0, mid) && RoleIsRight(Flush(m, f.happenedAtMs).0, mid, f, role)
            && RemembersAfter(m, o, f.happenedAtMs, Flush(m, f.happenedAtMs).0, mid)
            && OpenAfter(mid, o', role, window)
            && Sourced(Ingest(m, f).0, o') && RemembersAfter(m, o, f.happenedAtMs, Ingest(m, f).0, o')
  {
    o := EverySightingIsPlaced(window, ops);
    mid, o', role := ArrivalExactly(Run(Start(window), ops).m, o, f);
  }

  /** Between calls every open occurrence has evidence still worth waiting for. */
  lemma OpenOccurrencesWait(window: Ms, ops: seq<Op>) returns (o: Origin)
    ensures SightingOf(o.arrived) == ArrivedIn(ops) && Traced(Run(Start(window), ops), o)
    ensures forall r :: r in o.open ==> Sightings(o.arrived, r) != [] && Wait(Sightings(o.arrived, r), window) != 0
  {
    var m := Run(Start(window), ops).m;
    o := EverySightingIsPlaced(window, ops);
    NothingWaitsInVain(window, ops);
    forall r | r in o.open
      ensures Sightings(o.arrived, r) != [] && Wait(Sightings(o.arrived, r), window) != 0
    {
      var j :| 0 <= j < |o.open| && o.open[j] == r;
      assert BuiltBy(m.pending[j], o.arrived, o.open[j], window) && m.pending[j] in m.pending;
      DelayExactly(Sightings(o.arrived, r), window);
    }
  }
}
