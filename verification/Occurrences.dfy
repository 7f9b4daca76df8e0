/**
 Where every sighting of a run went. Each arrival gets exactly one role: it joined one
 occurrence, it came late for a completed one, or its key was pending already. Pending and
 emitted occurrences are what the arrivals in their role built, and nothing else.
 */
module Occurrences {
  import opened Model
  import opened Evidence
  import opened Sorting
  import opened Merger
  import opened Ledger
  import opened Reports
  import S = Suppression

  /** `Joins(root)`: the sighting belongs to the occurrence that the arrival at position `root`
      opened. */
  datatype Role = Joins(root: nat) | LateFor(completionId: nat) | Repeats

  datatype Arrival = Arrival(sighting: Fragment, role: Role)

  /** The arrivals of a run in order, and the positions that opened its occurrences: `open` beside
      the pending ones, `closed` beside the completion ids handed out, from 1 on. */
  datatype Origin = Origin(arrived: seq<Arrival>, open: seq<nat>, closed: seq<nat>)

  // ---------------------------------------------------------------- the sightings of one occurrence

  /** The sightings with one root, in order of arrival. */
  function Sightings(a: seq<Arrival>, root: nat): seq<Fragment> {
    if a == [] then []
    else
      var init, last := Sightings(a[..|a| - 1], root), a[|a| - 1];
      if last.role == Joins(root) then init + [last.sighting] else init
  }

  /** Where they stand among the arrivals. */
  function Positions(a: seq<Arrival>, root: nat): seq<nat> {
    if a == [] then []
    else
      var n := |a| - 1;
      if a[n].role == Joins(root) then Positions(a[..n], root) + [n] else Positions(a[..n], root)
  }

  lemma {:induction false} PositionsMark(a: seq<Arrival>, root: nat)
    ensures forall n: nat :: n in Positions(a, root) <==> n < |a| && a[n].role == Joins(root)
    ensures forall i, j :: 0 <= i < j < |Positions(a, root)| ==> Positions(a, root)[i] < Positions(a, root)[j]
  {
    if a != [] {
      var n := |a| - 1;
      var init := Positions(a[..n], root);
      PositionsMark(a[..n], root);
      assert forall i :: 0 <= i < |init| ==> init[i] in init;
    }
  }

  /** The sightings of an occurrence are a strictly increasing selection of the arrivals: all with
      its root and no other. */
  lemma {:induction false} SightingsAreSelected(a: seq<Arrival>, root: nat)
    ensures |Positions(a, root)| == |Sightings(a, root)|
    ensures forall i, j :: 0 <= i < j < |Positions(a, root)| ==> Positions(a, root)[i] < Positions(a, root)[j]
    ensures forall n: nat :: n in Positions(a, root) <==> n < |a| && a[n].role == Joins(root)
    ensures forall i :: 0 <= i < |Positions(a, root)| ==>
              Positions(a, root)[i] < |a| && Sightings(a, root)[i] == a[Positions(a, root)[i]].sighting
  {
    PositionsMark(a, root);
    if a != [] {
      var n := |a| - 1;
      SightingsAreSelected(a[..n], root);
      assert forall m :: 0 <= m < n ==> a[..n][m] == a[m];
    }
  }

  lemma ArrivalAdds(a: seq<Arrival>, x: Arrival, root: nat)
    ensures Sightings(a + [x], root)
            == if x.role == Joins(root) then Sightings(a, root) + [x.sighting] else Sightings(a, root)
  {
    assert (a + [x])[..|a|] == a;
  }

  /** An arrival that no earlier one could have joined starts a chain of its own. */
  lemma {:induction false} NoSightings(a: seq<Arrival>, root: nat)
    requires forall n :: 0 <= n < |a| ==> a[n].role != Joins(root)
    ensures Sightings(a, root) == []
  {
    if a != [] {
      NoSightings(a[..|a| - 1], root);
    }
  }

  // ---------------------------------------------------------------- what the merger's state comes from

  /** The pending occurrence is what the arrivals with this root built. */
  ghost predicate BuiltBy(p: Pending, a: seq<Arrival>, root: nat, window: Ms) {
    IsChain(Sightings(a, root), window) && p == Build(Sightings(a, root))
  }

  ghost predicate AllBuilt(ps: seq<Pending>, a: seq<Arrival>, rs: seq<nat>, window: Ms) {
    |ps| == |rs| && forall j :: 0 <= j < |ps| ==> BuiltBy(ps[j], a, rs[j], window)
  }

  predicate Handed(o: Origin, id: nat) { 1 <= id <= |o.closed| }

  /** The sightings behind a completion. */
  function SightingsOf(o: Origin, id: nat): seq<Fragment>
    requires Handed(o, id)
  {
    Sightings(o.arrived, o.closed[id - 1])
  }

  /** The crash is the completion of the arrivals behind its id. */
  ghost predicate Completes(o: Origin, c: MergedCrash, window: Ms) {
    && Handed(o, c.completionId)
    && IsChain(SightingsOf(o, c.completionId), window)
    && c == Finish(Build(SightingsOf(o, c.completionId)), c.completionId)
  }

  ghost predicate AllComplete(o: Origin, out: seq<MergedCrash>, window: Ms) {
    forall c :: c in out ==> Completes(o, c, window)
  }

  /** The recent completion is what is remembered of the arrivals behind its id. */
  ghost predicate Remembered(o: Origin, r: Recent, window: Ms) {
    && Handed(o, r.completionId)
    && IsChain(SightingsOf(o, r.completionId), window)
    && r.(persisted := false) == RecentOf(Build(SightingsOf(o, r.completionId)), r.completionId)
  }

  /** The chain and the late sighting are of one crash, close in time. */
  ghost predicate SameCrashSeen(fs: seq<Fragment>, f: Fragment, window: Ms) {
    && fs != []
    && (forall i :: 0 <= i < |fs| ==> SameOccurrence(fs[i], f))
    && (window >= 0 ==> Distance(Build(fs).firstMs, f.happenedAtMs) <= window)
  }

  /** The arrival at `j` belongs to an occurrence and brought the key. */
  predicate Brings(a: seq<Arrival>, j: nat, key: Option<string>) {
    j < |a| && a[j].role.Joins? && key.Some? && a[j].sighting.sourceKey == key
  }

  /** The role of an arrival is justified: its occurrence is known, the completion it came late for
      is of the same crash, or an earlier arrival brought its key. */
  ghost predicate Justified(o: Origin, n: nat, window: Ms)
    requires n < |o.arrived|
  {
    var x := o.arrived[n];
    match x.role
    case Joins(root) => root in o.open || root in o.closed
    case LateFor(id) => Handed(o, id) && SameCrashSeen(SightingsOf(o, id), x.sighting, window)
    case Repeats => exists j: nat :: j < n && Brings(o.arrived, j, x.sighting.sourceKey)
  }

  ghost predicate AllJustified(o: Origin, window: Ms) {
    forall n :: 0 <= n < |o.arrived| ==> Justified(o, n, window)
  }

  /** No two occurrences share a root. */
  ghost predicate Unique(s: seq<nat>) { forall r: nat :: multiset(s)[r] <= 1 }

  ghost predicate Rooted(o: Origin) {
    Unique(o.open + o.closed) && forall r :: r in o.open || r in o.closed ==> r < |o.arrived|
  }

  /** The suppressed key was brought by an arrival that came late for its owner. */
  ghost predicate CameLate(a: seq<Arrival>, owner: nat, k: string) {
    exists n :: 0 <= n < |a| && a[n].role == LateFor(owner) && a[n].sighting.sourceKey == Some(k)
  }

  /** The occurrences, open and closed, are what their arrivals built. */
  ghost predicate OccurrencesSourced(m: State, o: Origin) {
    && |o.closed| + 1 == m.nextId
    && AllBuilt(m.pending, o.arrived, o.open, m.window)
    && (forall id: nat :: Handed(o, id) ==> IsChain(SightingsOf(o, id), m.window))
  }

  /** So is what is remembered of the completed ones. */
  ghost predicate MemoriesSourced(m: State, o: Origin) {
    && (forall r :: r in m.recent ==> Remembered(o, r, m.window))
    && (forall k :: k in m.suppressed ==> CameLate(o.arrived, k.0, k.1))
  }

  ghost predicate Sourced(m: State, o: Origin) {
    OccurrencesSourced(m, o) && MemoriesSourced(m, o) && Rooted(o) && AllJustified(o, m.window)
  }

  /** The sightings behind every completion stay what they were. */
  ghost predicate Extends(o: Origin, o': Origin) {
    forall id: nat :: Handed(o, id) ==> Handed(o', id) && SightingsOf(o', id) == SightingsOf(o, id)
  }

  lemma ExtendsComplete(o: Origin, o': Origin, out: seq<MergedCrash>, window: Ms)
    requires Extends(o, o') && AllComplete(o, out, window)
    ensures AllComplete(o', out, window)
  {
    forall c | c in out
      ensures Completes(o', c, window)
    {
      assert Completes(o, c, window);
    }
  }

  // ---------------------------------------------------------------- distinct roots

  lemma UniqueApart(s: seq<nat>, i: nat, j: nat)
    requires Unique(s) && i < j < |s|
    ensures s[i] != s[j]
  {
    assert s == s[..j] + s[j..];
    assert s[i] == s[..j][i] && s[j] == s[j..][0];
    assert s[i] in multiset(s[..j]) && s[j] in multiset(s[j..]);
    assert multiset(s)[s[j]] == multiset(s[..j])[s[j]] + multiset(s[j..])[s[j]];
  }

  /** An open root is neither closed nor another open one. */
  lemma OpenRootApart(o: Origin, i: nat)
    requires Rooted(o) && i < |o.open|
    ensures forall j :: 0 <= j < |o.open| && j != i ==> o.open[j] != o.open[i]
    ensures forall j :: 0 <= j < |o.closed| ==> o.closed[j] != o.open[i]
  {
    var s := o.open + o.closed;
    forall j | 0 <= j < |s| && j != i
      ensures s[j] != s[i]
    {
      if i < j {
        UniqueApart(s, i, j);
      } else {
        UniqueApart(s, j, i);
      }
    }
    assert forall j :: 0 <= j < |o.open| ==> o.open[j] == s[j];
    assert forall j :: 0 <= j < |o.closed| ==> o.closed[j] == s[|o.open| + j];
  }

  // ---------------------------------------------------------------- closing occurrences

  /** The relation holds between each occurrence and its root. */
  ghost predicate Paired(ps: seq<Pending>, rs: seq<nat>, holds: (Pending, nat) -> bool) {
    |ps| == |rs| && forall j :: 0 <= j < |ps| ==> holds(ps[j], rs[j])
  }

  /** Taking the root at `i` with the swap, and sorting out the rest, moves every root once. */
  lemma MovedRoots(rs: seq<nat>, i: nat, kept: seq<nat>, rest: seq<nat>)
    requires i < |rs| && multiset(kept) + multiset(rest) == multiset(SwapRemove(rs, i))
    ensures multiset(kept) + multiset([rs[i]] + rest) == multiset(rs)
  {
    SwapRemoveContents(rs, i);
    assert multiset([rs[i]] + rest) == multiset{rs[i]} + multiset(rest);
  }

  lemma SwapRemovePaired(ps: seq<Pending>, rs: seq<nat>, i: nat, holds: (Pending, nat) -> bool)
    requires Paired(ps, rs, holds) && i < |ps|
    ensures Paired(SwapRemove(ps, i), SwapRemove(rs, i), holds)
  {
  }

  /** The flush loop moves the roots along with the occurrences. */
  lemma {:induction false} SplitRoots(ps: seq<Pending>, rs: seq<nat>, i: nat, window: Ms, watermark: Ms,
                                      holds: (Pending, nat) -> bool)
    returns (kept: seq<nat>, taken: seq<nat>)
    requires Paired(ps, rs, holds) && i <= |ps|
    ensures Paired(Split(ps, i, window, watermark).0, kept, holds)
    ensures Paired(Split(ps, i, window, watermark).1, taken, holds)
    ensures multiset(kept) + multiset(taken) == multiset(rs)
    decreases |ps| - i
  {
    if i == |ps| {
      kept, taken := rs, [];
    } else if Overdue(ps[i], window, watermark) {
      var rest;
      SwapRemovePaired(ps, rs, i, holds);
      kept, rest := SplitRoots(SwapRemove(ps, i), SwapRemove(rs, i), i, window, watermark, holds);
      MovedRoots(rs, i, kept, rest);
      taken := [rs[i]] + rest;
    } else {
      kept, taken := SplitRoots(ps, rs, i + 1, window, watermark, holds);
    }
  }

  ghost function Built(a: seq<Arrival>, window: Ms): (Pending, nat) -> bool {
    (p: Pending, root: nat) => BuiltBy(p, a, root, window)
  }

  lemma SplitBuilt(m: State, o: Origin, watermark: Ms) returns (kept: seq<nat>, taken: seq<nat>)
    requires AllBuilt(m.pending, o.arrived, o.open, m.window)
    ensures var s := Split(m.pending, 0, m.window, watermark);
            AllBuilt(s.0, o.arrived, kept, m.window) && AllBuilt(s.1, o.arrived, taken, m.window)
    ensures multiset(kept) + multiset(taken) == multiset(o.open)
  {
    kept, taken := SplitRoots(m.pending, o.open, 0, m.window, watermark, Built(o.arrived, m.window));
  }

  lemma SwapRemoveBuilt(m: State, o: Origin, i: nat)
    requires AllBuilt(m.pending, o.arrived, o.open, m.window) && i < |m.pending|
    ensures AllBuilt(SwapRemove(m.pending, i), o.arrived, SwapRemove(o.open, i), m.window)
  {
    SwapRemovePaired(m.pending, o.open, i, Built(o.arrived, m.window));
  }

  /** Some open roots are closed: nothing else about the arrivals changes. */
  ghost predicate Closes(o: Origin, o': Origin, taken: seq<nat>) {
    && o'.arrived == o.arrived
    && o'.closed == o.closed + taken
    && multiset(o'.open) + multiset(taken) == multiset(o.open)
  }

  lemma ClosesKeepsRoots(o: Origin, o': Origin, taken: seq<nat>, window: Ms)
    requires Closes(o, o', taken) && Rooted(o) && AllJustified(o, window)
    ensures Rooted(o') && AllJustified(o', window)
  {
    assert multiset(o'.open + o'.closed) == multiset(o.open + o.closed);
    forall r: nat
      ensures r in o'.open || r in taken <==> r in o.open
    {
      assert r in o.open <==> r in multiset(o.open);
      assert r in o'.open || r in taken <==> r in multiset(o'.open) + multiset(taken);
    }
    forall n | 0 <= n < |o'.arrived|
      ensures Justified(o', n, window)
    {
      assert Justified(o, n, window);
    }
  }

  /** Completing some occurrences keeps what was known of the ones before. */
  lemma ClosesKeepsOld(m: State, o: Origin, o': Origin, taken: seq<nat>, r: Recent)
    requires Closes(o, o', taken) && r in m.recent && MemoriesSourced(m, o)
    ensures Remembered(o', r, m.window)
  {
    assert Remembered(o, r, m.window);
  }

  /** What the merger hands out and remembers for an occurrence it completes. */
  lemma FinishCompletes(o: Origin, p: Pending, id: nat, window: Ms)
    requires Handed(o, id) && BuiltBy(p, o.arrived, o.closed[id - 1], window)
    ensures Completes(o, Finish(p, id), window) && Remembered(o, RecentOf(p, id), window)
    ensures IsChain(SightingsOf(o, id), window)
  {
  }

  lemma ClosedCompletes(o: Origin, o': Origin, taken: seq<nat>, ps: seq<Pending>, j: nat, window: Ms)
    requires Closes(o, o', taken) && AllBuilt(ps, o.arrived, taken, window) && j < |ps|
    ensures var first := |o.closed| + 1;
            && Completes(o', FinishAll(ps, first)[j], window) && Remembered(o', RecentAll(ps, first)[j], window)
            && IsChain(SightingsOf(o', first + j), window)
  {
    var first := |o.closed| + 1;
    assert o'.closed[|o.closed| + j] == taken[j];
    FinishCompletes(o', ps[j], first + j, window);
    FinishAllAt(ps, first, j);
  }

  lemma FinishAllAt(ps: seq<Pending>, first: nat, j: nat)
    requires j < |ps|
    ensures FinishAll(ps, first)[j] == Finish(ps[j], first + j)
    ensures RecentAll(ps, first)[j] == RecentOf(ps[j], first + j)
  {
  }

  lemma ClosedCrashes(o: Origin, o': Origin, taken: seq<nat>, ps: seq<Pending>, window: Ms)
    requires Closes(o, o', taken) && AllBuilt(ps, o.arrived, taken, window)
    ensures AllComplete(o', FinishAll(ps, |o.closed| + 1), window)
  {
    var out := FinishAll(ps, |o.closed| + 1);
    forall j | 0 <= j < |out|
      ensures Completes(o', out[j], window)
    {
      ClosedCompletes(o, o', taken, ps, j, window);
    }
  }

  lemma ClosedMemories(o: Origin, o': Origin, taken: seq<nat>, ps: seq<Pending>, window: Ms)
    requires Closes(o, o', taken) && AllBuilt(ps, o.arrived, taken, window)
    ensures forall r :: r in RecentAll(ps, |o.closed| + 1) ==> Remembered(o', r, window)
  {
    var rs := RecentAll(ps, |o.closed| + 1);
    forall j | 0 <= j < |rs|
      ensures Remembered(o', rs[j], window)
    {
      ClosedCompletes(o, o', taken, ps, j, window);
    }
  }

  lemma SortComplete(o: Origin, out: seq<MergedCrash>, window: Ms)
    requires AllComplete(o, out, window)
    ensures AllComplete(o, SortByTime(out), window)
  {
    SortByTimeSorts(out);
    forall c | c in SortByTime(out)
      ensures c in out
    {
      assert c in multiset(SortByTime(out));
      assert c in multiset(out);
    }
  }

  lemma ClosedChains(m: State, o: Origin, o': Origin, taken: seq<nat>, ps: seq<Pending>)
    requires OccurrencesSourced(m, o) && Closes(o, o', taken) && AllBuilt(ps, o.arrived, taken, m.window)
    ensures forall id: nat :: Handed(o', id) ==> IsChain(SightingsOf(o', id), m.window)
  {
    forall id: nat | Handed(o', id)
      ensures IsChain(SightingsOf(o', id), m.window)
    {
      if id <= |o.closed| {
        assert SightingsOf(o', id) == SightingsOf(o, id);
      } else {
        ClosedCompletes(o, o', taken, ps, id - |o.closed| - 1, m.window);
      }
    }
  }

  /** The occurrence that the root opened is overdue. */
  predicate RootOverdue(o: Origin, root: nat, window: Ms, watermark: Ms) {
    Sightings(o.arrived, root) != [] && Overdue(Build(Sightings(o.arrived, root)), window, watermark)
  }

  lemma SplitTakesOverdue(m: State, o: Origin, watermark: Ms, kept: seq<nat>, gone: seq<nat>)
    requires var s := Split(m.pending, 0, m.window, watermark);
             AllBuilt(s.0, o.arrived, kept, m.window) && AllBuilt(s.1, o.arrived, gone, m.window)
    ensures forall r :: r in kept ==> !RootOverdue(o, r, m.window, watermark)
    ensures forall r :: r in gone ==> RootOverdue(o, r, m.window, watermark)
  {
    var s := Split(m.pending, 0, m.window, watermark);
    SplitPartitions(m.pending, 0, m.window, watermark);
    forall r | r in kept
      ensures !RootOverdue(o, r, m.window, watermark)
    {
      var j :| 0 <= j < |kept| && kept[j] == r;
      assert BuiltBy(s.0[j], o.arrived, kept[j], m.window) && s.0[j] in s.0;
    }
    forall r | r in gone
      ensures RootOverdue(o, r, m.window, watermark)
    {
      var j :| 0 <= j < |gone| && gone[j] == r;
      assert BuiltBy(s.1[j], o.arrived, gone[j], m.window) && s.1[j] in s.1;
    }
  }

  lemma SharedMembers(kept: seq<nat>, gone: seq<nat>, all: seq<nat>)
    requires multiset(kept) + multiset(gone) == multiset(all)
    ensures forall r :: r in all <==> r in kept || r in gone
  {
    forall r
      ensures r in all <==> r in kept || r in gone
    {
      assert r in all <==> r in multiset(all);
      assert r in kept || r in gone <==> r in multiset(kept) + multiset(gone);
    }
  }

  /** A flush closes the roots of the overdue occurrences and no other. */
  lemma FlushSourced(m: State, o: Origin, watermark: Ms) returns (o': Origin)
    requires Sourced(m, o)
    ensures Sourced(Flush(m, watermark).0, o')
    ensures o'.arrived == o.arrived && Extends(o, o')
    ensures AllComplete(o', Flush(m, watermark).1, m.window)
    ensures forall r :: r in o'.open <==> r in o.open && !RootOverdue(o, r, m.window, watermark)
  {
    var taken := Split(m.pending, 0, m.window, watermark).1;
    var kept, gone := SplitBuilt(m, o, watermark);
    SplitTakesOverdue(m, o, watermark, kept, gone);
    SharedMembers(kept, gone, o.open);
    o' := o.(open := kept, closed := o.closed + gone);
    ClosesKeepsRoots(o, o', gone, m.window);
    ClosedChains(m, o, o', gone, taken);
    ClosedCrashes(o, o', gone, taken, m.window);
    ClosedMemories(o, o', gone, taken, m.window);
    SortComplete(o', FinishAll(taken, m.nextId), m.window);
    FlushMemories(m, o, o', gone, watermark);
  }

  lemma FlushMemories(m: State, o: Origin, o': Origin, gone: seq<nat>, watermark: Ms)
    requires MemoriesSourced(m, o) && Closes(o, o', gone)
    requires var taken := Split(m.pending, 0, m.window, watermark).1;
             forall r :: r in RecentAll(taken, m.nextId) ==> Remembered(o', r, m.window)
    ensures MemoriesSourced(Flush(m, watermark).0, o')
  {
    S.RetainMembers(m.recent, m.window, watermark);
    forall r | r in Retain(m.recent, m.window, watermark)
      ensures Remembered(o', r, m.window)
    {
      ClosesKeepsOld(m, o, o', gone, r);
    }
  }

  lemma DrainSourced(m: State, o: Origin) returns (o': Origin)
    requires Sourced(m, o)
    ensures Sourced(Drain(m).0, o')
    ensures o'.arrived == o.arrived && Extends(o, o')
    ensures o'.open == [] && |o'.closed| == |o.closed| + |o.open|
    ensures AllComplete(o', Drain(m).1, m.window)
  {
    o' := o.(open := [], closed := o.closed + o.open);
    ClosesKeepsRoots(o, o', o.open, m.window);
    ClosedChains(m, o, o', o.open, m.pending);
    ClosedCrashes(o, o', o.open, m.pending, m.window);
    SortComplete(o', FinishAll(m.pending, m.nextId), m.window);
    forall r | r in m.recent
      ensures Remembered(o', r, m.window)
    {
      ClosesKeepsOld(m, o, o', o.open, r);
    }
  }

  lemma RootIsGone(o: Origin, i: nat)
    requires Rooted(o) && i < |o.open|
    ensures forall r :: r in SwapRemove(o.open, i) <==> r in o.open && r != o.open[i]
  {
    var rest := SwapRemove(o.open, i);
    OpenRootApart(o, i);
    forall r | r in rest
      ensures r in o.open && r != o.open[i]
    {
      var j :| 0 <= j < |rest| && rest[j] == r;
      assert r == o.open[if j == i then |o.open| - 1 else j];
    }
    forall r | r in o.open && r != o.open[i]
      ensures r in rest
    {
      var j :| 0 <= j < |o.open| && o.open[j] == r;
      assert rest[if j == |o.open| - 1 then i else j] == r;
    }
  }

  /** Completing one occurrence closes its root. */
  lemma FinishedSourced(m: State, o: Origin, i: nat) returns (o': Origin)
    requires Sourced(m, o) && i < |m.pending|
    ensures Sourced(Finished(m, i), o')
    ensures o'.arrived == o.arrived && Extends(o, o')
    ensures Completes(o', Finish(m.pending[i], m.nextId), m.window)
    ensures forall r :: r in o'.open <==> r in o.open && r != o.open[i]
  {
    var id, p, taken := m.nextId, m.pending[i], [o.open[i]];
    RootIsGone(o, i);
    o' := o.(open := SwapRemove(o.open, i), closed := o.closed + taken);
    assert BuiltBy(p, o.arrived, o.open[i], m.window);
    SwapRemoveContents(o.open, i);
    SwapRemoveBuilt(m, o, i);
    ClosesKeepsRoots(o, o', taken, m.window);
    ClosedChains(m, o, o', taken, [p]);
    FinishCompletes(o', p, id, m.window);
    FinishedMemories(m, o, o', taken, i);
  }

  lemma FinishedMemories(m: State, o: Origin, o': Origin, taken: seq<nat>, i: nat)
    requires MemoriesSourced(m, o) && Closes(o, o', taken) && i < |m.pending|
    requires Remembered(o', RecentOf(m.pending[i], m.nextId), m.window)
    ensures MemoriesSourced(Finished(m, i), o')
  {
    forall r | r in m.recent
      ensures Remembered(o', r, m.window)
    {
      ClosesKeepsOld(m, o, o', taken, r);
    }
  }

  lemma SettleSourced(m: State, o: Origin, i: nat, done: seq<MergedCrash>) returns (o': Origin)
    requires Sourced(m, o) && i < |m.pending| && AllComplete(o, done, m.window)
    ensures Sourced(Settle(m, i, done).0, o')
    ensures o'.arrived == o.arrived && Extends(o, o')
    ensures AllComplete(o', Settle(m, i, done).1, m.window)
    ensures forall r :: r in o'.open <==> r in o.open && (r == o.open[i] ==> CompletionDelay(m.pending[i], m.window) != 0)
  {
    o' := o;
    if CompletionDelay(m.pending[i], m.window) == 0 {
      o' := FinishedSourced(m, o, i);
      ExtendsComplete(o, o', done, m.window);
      SortComplete(o', done + [Finish(m.pending[i], m.nextId)], m.window);
    }
  }

  // ---------------------------------------------------------------- one more arrival

  function With(o: Origin, f: Fragment, role: Role): Origin {
    o.(arrived := o.arrived + [Arrival(f, role)])
  }

  /** The arrival joins no occurrence that is closed. */
  ghost predicate JoinsNoneClosed(o: Origin, role: Role) {
    forall id: nat :: Handed(o, id) ==> role != Joins(o.closed[id - 1])
  }

  lemma WithKeepsClosed(o: Origin, f: Fragment, role: Role)
    requires JoinsNoneClosed(o, role)
    ensures Extends(o, With(o, f, role))
  {
    forall id: nat | Handed(o, id)
      ensures SightingsOf(With(o, f, role), id) == SightingsOf(o, id)
    {
      ArrivalAdds(o.arrived, Arrival(f, role), o.closed[id - 1]);
    }
  }

  lemma WithKeepsMemories(m: State, o: Origin, f: Fragment, role: Role)
    requires MemoriesSourced(m, o) && JoinsNoneClosed(o, role)
    ensures MemoriesSourced(m, With(o, f, role))
  {
    var o' := With(o, f, role);
    WithKeepsClosed(o, f, role);
    forall r | r in m.recent
      ensures Remembered(o', r, m.window)
    {
      assert Remembered(o, r, m.window);
    }
    forall k | k in m.suppressed
      ensures CameLate(o'.arrived, k.0, k.1)
    {
      var n :| 0 <= n < |o.arrived| && o.arrived[n].role == LateFor(k.0) && o.arrived[n].sighting.sourceKey == Some(k.1);
      assert o'.arrived[n] == o.arrived[n];
    }
  }

  lemma WithKeepsRole(o: Origin, f: Fragment, role: Role, n: nat, window: Ms)
    requires n < |o.arrived| && Justified(o, n, window) && JoinsNoneClosed(o, role)
    ensures Justified(With(o, f, role), n, window)
  {
    var o' := With(o, f, role);
    WithKeepsClosed(o, f, role);
    assert o'.arrived[n] == o.arrived[n];
    if o.arrived[n].role.Repeats? {
      var j: nat :| j < n && Brings(o.arrived, j, o.arrived[n].sighting.sourceKey);
      assert Brings(o'.arrived, j, o'.arrived[n].sighting.sourceKey);
    }
  }

  lemma WithKeepsRoles(o: Origin, f: Fragment, role: Role, window: Ms)
    requires AllJustified(o, window) && JoinsNoneClosed(o, role)
    requires Justified(With(o, f, role), |o.arrived|, window)
    ensures AllJustified(With(o, f, role), window)
  {
    forall n | 0 <= n < |o.arrived| + 1
      ensures Justified(With(o, f, role), n, window)
    {
      if n < |o.arrived| {
        WithKeepsRole(o, f, role, n, window);
      }
    }
  }

  lemma WithKeepsOccurrences(m: State, o: Origin, f: Fragment, role: Role)
    requires OccurrencesSourced(m, o) && JoinsNoneClosed(o, role)
    requires forall i :: 0 <= i < |o.open| ==> role != Joins(o.open[i])
    ensures OccurrencesSourced(m, With(o, f, role))
  {
    WithKeepsClosed(o, f, role);
    forall i | 0 <= i < |o.open|
      ensures BuiltBy(m.pending[i], With(o, f, role).arrived, o.open[i], m.window)
    {
      ArrivalAdds(o.arrived, Arrival(f, role), o.open[i]);
      assert BuiltBy(m.pending[i], o.arrived, o.open[i], m.window);
    }
  }

  /** A key that is pending was brought by an earlier arrival. */
  lemma PendingKeyWasBrought(m: State, o: Origin, key: string) returns (j: nat)
    requires OccurrencesSourced(m, o) && KeyIsPending(m.pending, key)
    ensures Brings(o.arrived, j, Some(key))
  {
    var i :| 0 <= i < |m.pending| && key in m.pending[i].sourceKeys;
    var fs := Sightings(o.arrived, o.open[i]);
    assert BuiltBy(m.pending[i], o.arrived, o.open[i], m.window);
    KeyCameFromFragment(fs, key);
    var x :| 0 <= x < |fs| && fs[x].sourceKey == Some(key);
    SightingsAreSelected(o.arrived, o.open[i]);
    j := Positions(o.arrived, o.open[i])[x];
  }

  /** A sighting whose key is pending already is turned away. */
  lemma RepeatSourced(m: State, o: Origin, f: Fragment)
    requires Sourced(m, o) && IsDuplicate(m, f)
    ensures Sourced(m, With(o, f, Repeats))
  {
    var o' := With(o, f, Repeats);
    var j := PendingKeyWasBrought(m, o, f.sourceKey.value);
    assert Brings(o'.arrived, j, f.sourceKey);
    WithKeepsOccurrences(m, o, f, Repeats);
    WithKeepsMemories(m, o, f, Repeats);
    WithKeepsRoles(o, f, Repeats, m.window);
  }

  /** A sighting that a recent completion absorbs is of the same crash as every one behind it. */
  lemma AbsorbedSharesCrash(r: Recent, fs: seq<Fragment>, f: Fragment, window: Ms)
    requires IsChain(fs, window) && r.(persisted := false) == RecentOf(Build(fs), r.completionId)
    requires RecentMatches(r, f, window)
    ensures SameCrashSeen(fs, f, window)
  {
    ChainCovered(fs, window);
    var p := Build(fs);
    assert r.pid == p.pid && r.user == ValueOf(p.user) && r.kind == p.kind.value && r.process == p.process;
    forall i | 0 <= i < |fs|
      ensures SameOccurrence(fs[i], f)
    {
      assert Covers(p, fs[i]);
    }
  }

  lemma LateSourced(m: State, o: Origin, f: Fragment, r: Recent)
    requires Sourced(m, o) && r in m.recent && RecentMatches(r, f, m.window)
    ensures Sourced(m.(suppressed := Suppress(m.suppressed, r.completionId, f.sourceKey)), With(o, f, LateFor(r.completionId)))
  {
    var role := LateFor(r.completionId);
    var o' := With(o, f, role);
    assert Remembered(o, r, m.window);
    WithKeepsClosed(o, f, role);
    AbsorbedSharesCrash(r, SightingsOf(o, r.completionId), f, m.window);
    WithKeepsOccurrences(m, o, f, role);
    WithKeepsMemories(m, o, f, role);
    WithKeepsRoles(o, f, role, m.window);
    assert f.sourceKey.Some? ==> o'.arrived[|o.arrived|].role == role && CameLate(o'.arrived, r.completionId, f.sourceKey.value);
  }

  lemma ChainGrows(fs: seq<Fragment>, f: Fragment, window: Ms)
    requires IsChain(fs, window) && PendingMatches(Build(fs), f, window)
    ensures IsChain(fs + [f], window) && Build(fs + [f]) == Merge(Build(fs), f)
  {
    assert (fs + [f])[..|fs|] == fs;
  }

  /** A sighting that a pending occurrence admits joins it, and it alone. */
  lemma JoinSourced(m: State, o: Origin, f: Fragment, i: nat)
    requires Sourced(m, o) && i < |m.pending| && PendingMatches(m.pending[i], f, m.window)
    ensures JoinsNoneClosed(o, Joins(o.open[i]))
    ensures Sourced(m.(pending := m.pending[i := Merge(m.pending[i], f)]), With(o, f, Joins(o.open[i])))
  {
    var role := Joins(o.open[i]);
    var o', m' := With(o, f, role), m.(pending := m.pending[i := Merge(m.pending[i], f)]);
    OpenRootApart(o, i);
    WithKeepsClosed(o, f, role);
    forall j | 0 <= j < |o.open|
      ensures BuiltBy(m'.pending[j], o'.arrived, o.open[j], m.window)
    {
      assert BuiltBy(m.pending[j], o.arrived, o.open[j], m.window);
      ArrivalAdds(o.arrived, Arrival(f, role), o.open[j]);
      if j == i {
        ChainGrows(Sightings(o.arrived, o.open[i]), f, m.window);
      }
    }
    WithKeepsMemories(m, o, f, role);
    WithKeepsRoles(o, f, role, m.window);
  }

  /** Roots of a new occurrence are fresh. */
  lemma FreshRoot(o: Origin)
    requires Rooted(o)
    ensures var n := |o.arrived|;
            n !in o.open && n !in o.closed && JoinsNoneClosed(o, Joins(n)) && Unique(o.open + [n] + o.closed)
  {
    var n := |o.arrived|;
    forall r: nat
      ensures multiset(o.open + [n] + o.closed)[r] <= 1
    {
      assert multiset(o.open + [n] + o.closed)[r] == multiset(o.open + o.closed)[r] + multiset([n])[r];
      assert n !in multiset(o.open + o.closed);
    }
  }

  /** No arrival so far has the next position as its root. */
  lemma NothingJoinedYet(o: Origin, window: Ms)
    requires Rooted(o) && AllJustified(o, window)
    ensures Sightings(o.arrived, |o.arrived|) == []
  {
    forall n | 0 <= n < |o.arrived|
      ensures o.arrived[n].role != Joins(|o.arrived|)
    {
      assert Justified(o, n, window);
    }
    NoSightings(o.arrived, |o.arrived|);
  }

  /** A sighting that arrived as the root of a new occurrence. */
  function Opened(o: Origin, f: Fragment): Origin {
    With(o, f, Joins(|o.arrived|)).(open := o.open + [|o.arrived|])
  }

  lemma OpenBuilt(m: State, o: Origin, f: Fragment)
    requires OccurrencesSourced(m, o) && Rooted(o) && AllJustified(o, m.window)
    ensures AllBuilt(m.pending + [Open(f)], Opened(o, f).arrived, Opened(o, f).open, m.window)
  {
    var n, o' := |o.arrived|, Opened(o, f);
    NothingJoinedYet(o, m.window);
    forall j | 0 <= j < |o'.open|
      ensures BuiltBy((m.pending + [Open(f)])[j], o'.arrived, o'.open[j], m.window)
    {
      ArrivalAdds(o.arrived, Arrival(f, Joins(n)), o'.open[j]);
      if j < |o.open| {
        assert BuiltBy(m.pending[j], o.arrived, o.open[j], m.window);
        assert o.open[j] in o.open;
      } else {
        assert Sightings(o'.arrived, n) == [f];
      }
    }
  }

  lemma OpenRoles(o: Origin, f: Fragment, window: Ms)
    requires Rooted(o) && AllJustified(o, window)
    ensures AllJustified(Opened(o, f), window)
  {
    var n := |o.arrived|;
    var grown := o.(open := o.open + [n]);
    FreshRoot(o);
    forall x | 0 <= x < n
      ensures Justified(grown, x, window)
    {
      assert Justified(o, x, window);
    }
    WithKeepsRoles(grown, f, Joins(n), window);
    assert With(grown, f, Joins(n)) == Opened(o, f);
  }

  /** Any other sighting opens an occurrence of its own. */
  lemma OpenSourced(m: State, o: Origin, f: Fragment)
    requires Sourced(m, o)
    ensures JoinsNoneClosed(o, Joins(|o.arrived|))
    ensures Sourced(m.(pending := m.pending + [Open(f)]), Opened(o, f))
  {
    var o1, o' := With(o, f, Joins(|o.arrived|)), Opened(o, f);
    FreshRoot(o);
    WithKeepsClosed(o, f, Joins(|o.arrived|));
    OpenBuilt(m, o, f);
    OpenRoles(o, f, m.window);
    forall id: nat | Handed(o', id)
      ensures IsChain(SightingsOf(o', id), m.window)
    {
      assert SightingsOf(o', id) == SightingsOf(o1, id) == SightingsOf(o, id);
    }
    WithKeepsMemories(m, o, f, Joins(|o.arrived|));
    OpenKeepsMemories(m, o1, o');
  }

  lemma OpenKeepsMemories(m: State, o: Origin, o': Origin)
    requires MemoriesSourced(m, o) && o'.arrived == o.arrived && o'.closed == o.closed
    ensures MemoriesSourced(m, o')
  {
    forall r | r in m.recent
      ensures Remembered(o', r, m.window)
    {
      assert Remembered(o, r, m.window);
    }
  }

  // ---------------------------------------------------------------- one step of the merger

  /** The role the merger gives a sighting: a pending key first, then the nearest occurrence that
      admits it, then the nearest completion that absorbs it, and otherwise an occurrence of its own. */
  function RoleOf(m: State, o: Origin, f: Fragment): Role
    requires |m.pending| == |o.open|
  {
    var found, absorber := NearestPending(m.pending, f, m.window), NearestRecent(m.recent, f, m.window);
    if IsDuplicate(m, f) then Repeats
    else if found.Some? then Joins(o.open[found.value])
    else if absorber.Some? then LateFor(m.recent[absorber.value].completionId)
    else Joins(|o.arrived|)
  }

  /** The root's occurrence still waits with the sightings it has now. */
  ghost predicate RootWaits(o: Origin, root: nat, window: Ms) {
    Sightings(o.arrived, root) != [] && CompletionDelay(Build(Sightings(o.arrived, root)), window) != 0
  }

  /** The occurrences that stay open when a sighting took its role: all others, and the one it
      joined if that still waits. */
  ghost predicate StaysOpen(o: Origin, o': Origin, role: Role, window: Ms) {
    forall r :: r in o'.open <==>
      if role == Joins(r) then RootWaits(o', r, window) else r in o.open
  }

  lemma SettledStaysOpen(m: State, o: Origin, i: nat, o': Origin)
    requires Sourced(m, o) && i < |m.pending| && o'.arrived == o.arrived
    requires forall r :: r in o'.open <==> r in o.open && (r == o.open[i] ==> CompletionDelay(m.pending[i], m.window) != 0)
    ensures StaysOpen(o, o', Joins(o.open[i]), m.window)
  {
    assert BuiltBy(m.pending[i], o.arrived, o.open[i], m.window);
  }

  /** A placed sighting is given one role: it repeats a pending key, joins the occurrence it was
      matched with, came late for a completion, or opens an occurrence. Every other occurrence
      keeps the sightings it had. */
  lemma PlaceSourced(m: State, o: Origin, f: Fragment, done: seq<MergedCrash>) returns (o': Origin, role: Role)
    requires Sourced(m, o) && AllComplete(o, done, m.window)
    ensures Sourced(Place(m, f, done).0, o')
    ensures o'.arrived == o.arrived + [Arrival(f, role)] && Extends(o, o')
    ensures AllComplete(o', Place(m, f, done).1, m.window)
    ensures role == RoleOf(m, o, f) && StaysOpen(o, o', role, m.window)
  {
    var found, absorber := NearestPending(m.pending, f, m.window), NearestRecent(m.recent, f, m.window);
    role := RoleOf(m, o, f);
    if IsDuplicate(m, f) {
      o' := With(o, f, role);
      RepeatSourced(m, o, f);
      WithKeepsClosed(o, f, role);
      ExtendsComplete(o, With(o, f, role), done, m.window);
    } else if found.Some? {
      o' := PlaceJoins(m, o, f, done, found.value);
    } else if absorber.Some? {
      o' := With(o, f, role);
      LateSourced(m, o, f, m.recent[absorber.value]);
      WithKeepsClosed(o, f, role);
      ExtendsComplete(o, With(o, f, role), done, m.window);
    } else {
      o' := PlaceOpens(m, o, f, done);
    }
  }

  lemma PlaceJoins(m: State, o: Origin, f: Fragment, done: seq<MergedCrash>, i: nat) returns (o': Origin)
    requires Sourced(m, o) && AllComplete(o, done, m.window)
    requires i < |m.pending| && PendingMatches(m.pending[i], f, m.window)
    ensures var s := Settle(m.(pending := m.pending[i := Merge(m.pending[i], f)]), i, done);
            Sourced(s.0, o') && AllComplete(o', s.1, m.window)
    ensures o'.arrived == o.arrived + [Arrival(f, Joins(o.open[i]))] && Extends(o, o')
    ensures StaysOpen(o, o', Joins(o.open[i]), m.window)
  {
    var role, m1 := Joins(o.open[i]), m.(pending := m.pending[i := Merge(m.pending[i], f)]);
    var o1 := With(o, f, role);
    JoinSourced(m, o, f, i);
    WithKeepsClosed(o, f, role);
    ExtendsComplete(o, o1, done, m.window);
    o' := SettleSourced(m1, o1, i, done);
    SettledStaysOpen(m1, o1, i, o');
  }

  lemma PlaceOpens(m: State, o: Origin, f: Fragment, done: seq<MergedCrash>) returns (o': Origin)
    requires Sourced(m, o) && AllComplete(o, done, m.window)
    ensures var s := Settle(m.(pending := m.pending + [Open(f)]), |m.pending|, done);
            Sourced(s.0, o') && AllComplete(o', s.1, m.window)
    ensures o'.arrived == o.arrived + [Arrival(f, Joins(|o.arrived|))] && Extends(o, o')
    ensures StaysOpen(o, o', Joins(|o.arrived|), m.window)
  {
    var role, m1, o1 := Joins(|o.arrived|), m.(pending := m.pending + [Open(f)]), Opened(o, f);
    OpenSourced(m, o, f);
    WithKeepsClosed(o, f, role);
    ExtendsComplete(o, With(o, f, role), done, m.window);
    ExtendsComplete(With(o, f, role), o1, done, m.window);
    o' := SettleSourced(m1, o1, |m.pending|, done);
    SettledStaysOpen(m1, o1, |m.pending|, o');
  }

  lemma IngestSourced(m: State, o: Origin, f: Fragment) returns (o': Origin, role: Role)
    requires Sourced(m, o)
    ensures Sourced(Ingest(m, f).0, o')
    ensures o'.arrived == o.arrived + [Arrival(f, role)] && Extends(o, o')
    ensures AllComplete(o', Ingest(m, f).1, m.window)
  {
    var flushed := Flush(m, f.happenedAtMs);
    var o1 := FlushSourced(m, o, f.happenedAtMs);
    o', role := PlaceSourced(flushed.0, o1, f, flushed.1);
  }

  /** Answers to the merger change what is remembered, not where it came from. */
  lemma ConfirmSourced(m: State, o: Origin, id: nat)
    requires Sourced(m, o)
    ensures Sourced(Confirm(m, id), o)
  {
    S.MarkedPointwise(m.recent, id);
    forall r | r in Confirm(m, id).recent
      ensures Remembered(o, r, m.window)
    {
      var i :| 0 <= i < |m.recent| && Confirm(m, id).recent[i] == r;
      assert Remembered(o, m.recent[i], m.window);
    }
  }

  lemma RejectSourced(m: State, o: Origin, id: nat)
    requires Sourced(m, o)
    ensures Sourced(Reject(m, id), o)
  {
    S.WithoutMembers(m.recent, id);
    S.WithoutOwnerMembers(m.suppressed, id);
  }

  lemma TakeSourced(m: State, o: Origin)
    requires Sourced(m, o)
    ensures Sourced(TakeConfirmed(m).0, o)
  {
    S.ReleasedMembers(m.suppressed, m.recent);
  }

  // ---------------------------------------------------------------- whole runs

  /** The sightings the calls handed to the merger. */
  function ArrivedIn(ops: seq<Op>): seq<Fragment> {
    if ops == [] then []
    else
      var init, last := ArrivedIn(ops[..|ops| - 1]), ops[|ops| - 1];
      if last.Arrive? then init + [last.f] else init
  }

  function SightingOf(a: seq<Arrival>): (fs: seq<Fragment>)
    ensures |fs| == |a|
  {
    seq(|a|, i requires 0 <= i < |a| => a[i].sighting)
  }

  lemma EmittedMore(o: Origin, before: seq<MergedCrash>, out: seq<MergedCrash>, window: Ms)
    requires AllComplete(o, before, window) && AllComplete(o, out, window)
    ensures AllComplete(o, before + out, window)
  {
  }

  lemma ArrivedMore(a: seq<Arrival>, x: Arrival)
    ensures SightingOf(a + [x]) == SightingOf(a) + [x.sighting]
  {
  }

  /** The run's account against where its sightings went. */
  ghost predicate Traced(w: World, o: Origin) {
    Sourced(w.m, o) && AllComplete(o, w.a.emitted, w.m.window)
  }

  /** One call: the new state, and what is handed out. */
  function Call(m: State, op: Op): (State, seq<MergedCrash>) {
    match op
    case Arrive(f) => Ingest(m, f)
    case FlushTo(watermark) => Flush(m, watermark)
    case DrainOut => Drain(m)
    case ConfirmId(id) => (Confirm(m, id), [])
    case RejectId(id) => (Reject(m, id), [])
    case Take => (TakeConfirmed(m).0, [])
  }

  lemma StepIsCall(w: World, op: Op)
    ensures Step(w, op).m == Call(w.m, op).0
    ensures Step(w, op).a.emitted == w.a.emitted + Call(w.m, op).1
    ensures Call(w.m, op).0.window == w.m.window
  {
  }

  lemma CallSourced(m: State, o: Origin, op: Op) returns (o': Origin)
    requires Sourced(m, o)
    ensures Sourced(Call(m, op).0, o') && AllComplete(o', Call(m, op).1, m.window)
    ensures Extends(o, o') && o.arrived <= o'.arrived
    ensures SightingOf(o'.arrived) == if op.Arrive? then SightingOf(o.arrived) + [op.f] else SightingOf(o.arrived)
  {
    match op
    case Arrive(f) =>
      var role;
      o', role := IngestSourced(m, o, f);
      ArrivedMore(o.arrived, Arrival(f, role));
    case FlushTo(watermark) => o' := FlushSourced(m, o, watermark);
    case DrainOut => o' := DrainSourced(m, o);
    case ConfirmId(id) =>
      o' := o;
      ConfirmSourced(m, o, id);
    case RejectId(id) =>
      o' := o;
      RejectSourced(m, o, id);
    case Take =>
      o' := o;
      TakeSourced(m, o);
  }

  lemma StepTraced(w: World, o: Origin, op: Op) returns (o': Origin)
    requires Traced(w, o)
    ensures Traced(Step(w, op), o') && Step(w, op).m.window == w.m.window
    ensures SightingOf(o'.arrived) == if op.Arrive? then SightingOf(o.arrived) + [op.f] else SightingOf(o.arrived)
  {
    o' := CallSourced(w.m, o, op);
    StepIsCall(w, op);
    ExtendsComplete(o, o', w.a.emitted, w.m.window);
    EmittedMore(o', w.a.emitted, Call(w.m, op).1, w.m.window);
  }

  /** Over every run: each sighting that arrived has one role; each pending and each emitted
      occurrence is what the sightings in its role built, one after another, and no others; a late
      sighting is of the same crash as the completion it came late for; and the key of a repeated
      one was brought before. */
  lemma {:induction false} EverySightingIsPlaced(window: Ms, ops: seq<Op>) returns (o: Origin)
    ensures SightingOf(o.arrived) == ArrivedIn(ops)
    ensures Run(Start(window), ops).m.window == window
    ensures Traced(Run(Start(window), ops), o)
  {
    if ops == [] {
      o := Origin([], [], []);
    } else {
      var init := EverySightingIsPlaced(window, ops[..|ops| - 1]);
      o := StepTraced(Run(Start(window), ops[..|ops| - 1]), init, ops[|ops| - 1]);
    }
  }

  /** The root of the `h`th occurrence: the open ones first, then the closed ones. */
  function Holder(o: Origin, h: nat): nat
    requires h < |o.open| + |o.closed|
  {
    (o.open + o.closed)[h]
  }

  /** The arrival at `n` is among the sightings of the `h`th occurrence and of no other. */
  ghost predicate HeldOnlyBy(o: Origin, n: nat, h: nat) {
    && h < |o.open| + |o.closed|
    && n in Positions(o.arrived, Holder(o, h))
    && forall g :: 0 <= g < |o.open| + |o.closed| && n in Positions(o.arrived, Holder(o, g)) ==> g == h
  }

  lemma HolderOf(o: Origin, n: nat, window: Ms) returns (h: nat)
    requires Rooted(o) && AllJustified(o, window) && n < |o.arrived| && o.arrived[n].role.Joins?
    ensures HeldOnlyBy(o, n, h)
  {
    var s, root := o.open + o.closed, o.arrived[n].role.root;
    assert Justified(o, n, window);
    assert root in s;
    h :| 0 <= h < |s| && s[h] == root;
    PositionsMark(o.arrived, root);
    forall g | 0 <= g < |s| && n in Positions(o.arrived, s[g])
      ensures g == h
    {
      PositionsMark(o.arrived, s[g]);
      if g < h {
        UniqueApart(s, g, h);
      } else if h < g {
        UniqueApart(s, h, g);
      }
    }
  }

  /** A sighting that joined an occurrence is in exactly one, pending or emitted, and an emitted
      one was emitted exactly once. */
  lemma SightingInOneOccurrence(window: Ms, ops: seq<Op>, n: nat) returns (o: Origin, h: nat)
    requires n < |ArrivedIn(ops)|
    ensures SightingOf(o.arrived) == ArrivedIn(ops) && Traced(Run(Start(window), ops), o)
    ensures o.arrived[n].role.Joins? ==> HeldOnlyBy(o, n, h)
    ensures o.arrived[n].role.Joins? && h >= |o.open| ==>
              IdCount(Run(Start(window), ops).a.emitted, h - |o.open| + 1) == 1
  {
    o := EverySightingIsPlaced(window, ops);
    h := 0;
    if o.arrived[n].role.Joins? {
      h := HolderOf(o, n, window);
      if h >= |o.open| {
        CompletionIdsExact(window, ops, h - |o.open| + 1);
      }
    }
  }

  // ---------------------------------------------------------------- what the emitted crashes say

  /** What an emitted crash says of the sightings behind it: its record reports them in every
      column, and its keys are theirs. */
  ghost predicate Describes(c: MergedCrash, fs: seq<Fragment>) {
    && fs != []
    && IsReport(c.record, fs)
    && (forall k :: k in c.sourceKeys <==> exists i :: 0 <= i < |fs| && fs[i].sourceKey == Some(k))
  }

  lemma CompleteDescribes(o: Origin, c: MergedCrash, window: Ms)
    requires Completes(o, c, window)
    ensures Describes(c, SightingsOf(o, c.completionId))
  {
    var fs := SightingsOf(o, c.completionId);
    FinishReports(fs, c.completionId, window);
    forall k: string
      ensures k in c.sourceKeys <==> exists i :: 0 <= i < |fs| && fs[i].sourceKey == Some(k)
    {
      KeyCameFromFragment(fs, k);
    }
  }

  /** Every crash handed to the store reports the sightings that arrived for it in every column, and
      carries exactly their source keys. */
  lemma EmittedDescribesItsSightings(window: Ms, ops: seq<Op>, c: MergedCrash) returns (o: Origin)
    requires c in Run(Start(window), ops).a.emitted
    ensures SightingOf(o.arrived) == ArrivedIn(ops) && Traced(Run(Start(window), ops), o)
    ensures Handed(o, c.completionId) && Describes(c, SightingsOf(o, c.completionId))
  {
    o := EverySightingIsPlaced(window, ops);
    assert Completes(o, c, Run(Start(window), ops).m.window);
    CompleteDescribes(o, c, window);
  }

  /** A key that a crash carries was brought by one sighting behind it, at a known position, and
      that sighting is of the same occurrence as every other one behind the crash. */
  lemma KeyWasBrought(o: Origin, c: MergedCrash, window: Ms, k: string) returns (n: nat)
    requires Completes(o, c, window) && k in c.sourceKeys
    ensures n < |o.arrived| && o.arrived[n].role == Joins(o.closed[c.completionId - 1])
    ensures o.arrived[n].sighting.sourceKey == Some(k)
    ensures var fs := SightingsOf(o, c.completionId);
            forall i :: 0 <= i < |fs| ==> SameOccurrence(o.arrived[n].sighting, fs[i])
  {
    var fs, root := SightingsOf(o, c.completionId), o.closed[c.completionId - 1];
    KeyCameFromFragment(fs, k);
    var x :| 0 <= x < |fs| && fs[x].sourceKey == Some(k);
    SightingsAreSelected(o.arrived, root);
    n := Positions(o.arrived, root)[x];
    assert n in Positions(o.arrived, root);
    forall i | 0 <= i < |fs|
      ensures SameOccurrence(o.arrived[n].sighting, fs[i])
    {
      ChainIsOneOccurrence(fs, window, x, i);
    }
  }

  // ---------------------------------------------------------------- nothing waits in vain

  /** Every pending occurrence still has evidence worth waiting for. */
  ghost predicate AllWait(m: State) { forall p :: p in m.pending ==> CompletionDelay(p, m.window) != 0 }

  lemma {:induction false} SplitKeepsMembers(ps: seq<Pending>, i: nat, window: Ms, watermark: Ms, p: Pending)
    requires i <= |ps|
    requires p in Split(ps, i, window, watermark).0
    ensures p in ps
    decreases |ps| - i
  {
    if i < |ps| {
      if Overdue(ps[i], window, watermark) {
        SplitKeepsMembers(SwapRemove(ps, i), i, window, watermark, p);
      } else {
        SplitKeepsMembers(ps, i + 1, window, watermark, p);
      }
    }
  }

  lemma FlushKeepsWaiting(m: State, watermark: Ms)
    requires AllWait(m)
    ensures AllWait(Flush(m, watermark).0)
  {
    forall p | p in Flush(m, watermark).0.pending
      ensures p in m.pending
    {
      SplitKeepsMembers(m.pending, 0, m.window, watermark, p);
    }
  }

  lemma SettleKeepsWaiting(m: State, i: nat, done: seq<MergedCrash>)
    requires i < |m.pending|
    requires forall j :: 0 <= j < |m.pending| && j != i ==> CompletionDelay(m.pending[j], m.window) != 0
    ensures AllWait(Settle(m, i, done).0)
  {
    if CompletionDelay(m.pending[i], m.window) == 0 {
      var rest := SwapRemove(m.pending, i);
      forall p | p in rest
        ensures CompletionDelay(p, m.window) != 0
      {
        var j :| 0 <= j < |rest| && rest[j] == p;
        assert p == m.pending[if j == i then |m.pending| - 1 else j];
      }
    }
  }

  lemma PlaceKeepsWaiting(m: State, f: Fragment, done: seq<MergedCrash>)
    requires AllWait(m)
    ensures AllWait(Place(m, f, done).0)
  {
    if !IsDuplicate(m, f) {
      var found := NearestPending(m.pending, f, m.window);
      assert forall j :: 0 <= j < |m.pending| ==> m.pending[j] in m.pending;
      if found.Some? {
        SettleKeepsWaiting(m.(pending := m.pending[found.value := Merge(m.pending[found.value], f)]), found.value, done);
      } else if NearestRecent(m.recent, f, m.window).None? {
        SettleKeepsWaiting(m.(pending := m.pending + [Open(f)]), |m.pending|, done);
      }
    }
  }

  /** Between calls no occurrence with complete evidence is kept waiting. */
  lemma {:induction false} NothingWaitsInVain(window: Ms, ops: seq<Op>)
    ensures AllWait(Run(Start(window), ops).m)
  {
    if ops != [] {
      var w, op := Run(Start(window), ops[..|ops| - 1]), ops[|ops| - 1];
      NothingWaitsInVain(window, ops[..|ops| - 1]);
      match op {
        case Arrive(f) =>
          FlushKeepsWaiting(w.m, f.happenedAtMs);
          var flushed := Flush(w.m, f.happenedAtMs);
          PlaceKeepsWaiting(flushed.0, f, flushed.1);
        case FlushTo(watermark) => FlushKeepsWaiting(w.m, watermark);
        case DrainOut =>
        case ConfirmId(_) =>
        case RejectId(_) =>
        case Take =>
      }
    }
  }
}
