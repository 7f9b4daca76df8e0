/**
 Whole runs of the merger. An account records what every call took in and gave out; the
 theorems say that no source key is lost or duplicated and that completion ids are never
 reused.
 */
module Ledger {
  import opened Model
  import opened Evidence
  import opened Sorting
  import opened Merger

  // ---------------------------------------------------------------- counting keys and ids

  /** How often a key occurs in a list of keys. */
  function Count(s: seq<string>, k: string): nat {
    if s == [] then 0 else Count(s[..|s| - 1], k) + (if s[|s| - 1] == k then 1 else 0)
  }

  function PendingCount(ps: seq<Pending>, k: string): nat {
    if ps == [] then 0 else PendingCount(ps[..|ps| - 1], k) + Count(ps[|ps| - 1].sourceKeys, k)
  }

  function EmittedCount(out: seq<MergedCrash>, k: string): nat {
    if out == [] then 0 else EmittedCount(out[..|out| - 1], k) + Count(out[|out| - 1].sourceKeys, k)
  }

  /** How many emitted occurrences carry a completion id. */
  function IdCount(out: seq<MergedCrash>, id: nat): nat {
    if out == [] then 0 else IdCount(out[..|out| - 1], id) + (if out[|out| - 1].completionId == id then 1 else 0)
  }

  function OwnedCount(ks: seq<(nat, string)>, k: string): nat {
    if ks == [] then 0 else OwnedCount(ks[..|ks| - 1], k) + (if ks[|ks| - 1].1 == k then 1 else 0)
  }

  function KeyCount(key: Option<string>, k: string): nat { if key == Some(k) then 1 else 0 }

  lemma CountSnoc(s: seq<string>, x: string, k: string)
    ensures Count(s + [x], k) == Count(s, k) + (if x == k then 1 else 0)
  {
    assert (s + [x])[..|s|] == s;
  }

  lemma {:induction false} CountPositive(s: seq<string>, k: string)
    ensures Count(s, k) > 0 <==> k in s
  {
    if s != [] {
      CountPositive(s[..|s| - 1], k);
      assert s == s[..|s| - 1] + [s[|s| - 1]];
    }
  }

  lemma {:induction false} CountTwo(s: seq<string>, x: nat, y: nat)
    requires x < y < |s| && s[x] == s[y]
    ensures Count(s, s[x]) >= 2
  {
    var n := |s| - 1;
    if y < n {
      CountTwo(s[..n], x, y);
    } else {
      assert s[..n][x] == s[x];
      CountPositive(s[..n], s[x]);
    }
  }

  lemma PendingSnoc(ps: seq<Pending>, p: Pending, k: string)
    ensures PendingCount(ps + [p], k) == PendingCount(ps, k) + Count(p.sourceKeys, k)
  {
    assert (ps + [p])[..|ps|] == ps;
  }

  lemma {:induction false} PendingCons(p: Pending, ps: seq<Pending>, k: string)
    ensures PendingCount([p] + ps, k) == Count(p.sourceKeys, k) + PendingCount(ps, k)
  {
    if ps == [] {
      assert [p] + ps == [] + [p];
      PendingSnoc([], p, k);
    } else {
      var init, last := ps[..|ps| - 1], ps[|ps| - 1];
      assert [p] + ps == ([p] + init) + [last];
      PendingSnoc([p] + init, last, k);
      PendingCons(p, init, k);
    }
  }

  lemma {:induction false} PendingUpdate(ps: seq<Pending>, i: nat, p: Pending, k: string)
    requires i < |ps|
    ensures PendingCount(ps[i := p], k) + Count(ps[i].sourceKeys, k) == PendingCount(ps, k) + Count(p.sourceKeys, k)
  {
    var n := |ps| - 1;
    if i == n {
      assert ps[i := p][..n] == ps[..n];
    } else {
      PendingUpdate(ps[..n], i, p, k);
      assert ps[i := p][..n] == ps[..n][i := p];
    }
  }

  lemma PendingSwapRemove(ps: seq<Pending>, i: nat, k: string)
    requires i < |ps|
    ensures PendingCount(ps, k) == PendingCount(SwapRemove(ps, i), k) + Count(ps[i].sourceKeys, k)
  {
    var n := |ps| - 1;
    if i < n {
      PendingUpdate(ps[..n], i, ps[n], k);
    }
  }

  lemma {:induction false} PendingSplit(ps: seq<Pending>, i: nat, window: Ms, watermark: Ms, k: string)
    requires i <= |ps|
    ensures PendingCount(ps, k) == PendingCount(Split(ps, i, window, watermark).0, k)
                                   + PendingCount(Split(ps, i, window, watermark).1, k)
    decreases |ps| - i
  {
    if i < |ps| {
      if Overdue(ps[i], window, watermark) {
        PendingSplit(SwapRemove(ps, i), i, window, watermark, k);
        PendingSwapRemove(ps, i, k);
        PendingCons(ps[i], Split(SwapRemove(ps, i), i, window, watermark).1, k);
      } else {
        PendingSplit(ps, i + 1, window, watermark, k);
      }
    }
  }

  lemma {:induction false} KeyIsPendingExactly(ps: seq<Pending>, key: string)
    ensures KeyIsPending(ps, key) <==> PendingCount(ps, key) > 0
  {
    if ps != [] {
      var n := |ps| - 1;
      KeyIsPendingExactly(ps[..n], key);
      CountPositive(ps[n].sourceKeys, key);
      if KeyIsPending(ps, key) {
        var i :| 0 <= i < |ps| && key in ps[i].sourceKeys;
        assert i < n ==> key in ps[..n][i].sourceKeys;
      }
      if KeyIsPending(ps[..n], key) {
        var i :| 0 <= i < n && key in ps[..n][i].sourceKeys;
        assert key in ps[i].sourceKeys;
      }
    }
  }

  lemma EmittedSnoc(out: seq<MergedCrash>, c: MergedCrash, k: string, id: nat)
    ensures EmittedCount(out + [c], k) == EmittedCount(out, k) + Count(c.sourceKeys, k)
    ensures IdCount(out + [c], id) == IdCount(out, id) + (if c.completionId == id then 1 else 0)
  {
    assert (out + [c])[..|out|] == out;
  }

  lemma {:induction false} EmittedAppend(a: seq<MergedCrash>, b: seq<MergedCrash>, k: string, id: nat)
    ensures EmittedCount(a + b, k) == EmittedCount(a, k) + EmittedCount(b, k)
    ensures IdCount(a + b, id) == IdCount(a, id) + IdCount(b, id)
  {
    if b == [] {
      assert a + b == a;
    } else {
      EmittedAppend(a, b[..|b| - 1], k, id);
      assert (a + b)[..|a + b| - 1] == a + b[..|b| - 1];
    }
  }

  lemma {:induction false} EmittedInsert(s: seq<MergedCrash>, c: MergedCrash, k: string, id: nat)
    ensures EmittedCount(Insert(s, c), k) == EmittedCount(s, k) + Count(c.sourceKeys, k)
    ensures IdCount(Insert(s, c), id) == IdCount(s, id) + (if c.completionId == id then 1 else 0)
  {
    if s == [] || At(s[|s| - 1]) <= At(c) {
      EmittedSnoc(s, c, k, id);
    } else {
      EmittedInsert(s[..|s| - 1], c, k, id);
      EmittedSnoc(Insert(s[..|s| - 1], c), s[|s| - 1], k, id);
    }
  }

  lemma {:induction false} EmittedSort(s: seq<MergedCrash>, k: string, id: nat)
    ensures EmittedCount(SortByTime(s), k) == EmittedCount(s, k)
    ensures IdCount(SortByTime(s), id) == IdCount(s, id)
  {
    if s != [] {
      EmittedSort(s[..|s| - 1], k, id);
      EmittedInsert(SortByTime(s[..|s| - 1]), s[|s| - 1], k, id);
    }
  }

  lemma {:induction false} EmittedFinishAll(taken: seq<Pending>, first: nat, k: string, id: nat)
    ensures EmittedCount(FinishAll(taken, first), k) == PendingCount(taken, k)
    ensures IdCount(FinishAll(taken, first), id) == if first <= id < first + |taken| then 1 else 0
  {
    if taken != [] {
      var init, last := taken[..|taken| - 1], taken[|taken| - 1];
      EmittedFinishAll(init, first, k, id);
      FinishAllSnoc(init, last, first);
      assert taken == init + [last];
      EmittedSnoc(FinishAll(init, first), Finish(last, first + |init|), k, id);
    }
  }

  lemma OwnedSnoc(ks: seq<(nat, string)>, x: (nat, string), k: string)
    ensures OwnedCount(ks + [x], k) == OwnedCount(ks, k) + (if x.1 == k then 1 else 0)
  {
    assert (ks + [x])[..|ks|] == ks;
  }

  lemma {:induction false} OwnedAppend(a: seq<(nat, string)>, b: seq<(nat, string)>, k: string)
    ensures OwnedCount(a + b, k) == OwnedCount(a, k) + OwnedCount(b, k)
  {
    if b == [] {
      assert a + b == a;
    } else {
      OwnedAppend(a, b[..|b| - 1], k);
      assert (a + b)[..|a + b| - 1] == a + b[..|b| - 1];
    }
  }

  /** Taking confirmed keys partitions the suppressed ones. */
  lemma {:induction false} TakePartitions(ks: seq<(nat, string)>, rs: seq<Recent>, k: string)
    ensures OwnedCount(ks, k) == OwnedCount(Released(ks, rs), k) + OwnedCount(Waiting(ks, rs), k)
  {
    if ks != [] {
      var init, last := ks[..|ks| - 1], ks[|ks| - 1];
      TakePartitions(init, rs, k);
      OwnedSnoc(Released(init, rs), last, k);
      OwnedSnoc(Waiting(init, rs), last, k);
    }
  }

  /** The suppressed keys a rejection gives up. */
  function OwnedBy(ks: seq<(nat, string)>, id: nat): seq<(nat, string)> {
    if ks == [] then []
    else
      var init := OwnedBy(ks[..|ks| - 1], id);
      if ks[|ks| - 1].0 == id then init + [ks[|ks| - 1]] else init
  }

  lemma {:induction false} RejectPartitions(ks: seq<(nat, string)>, id: nat, k: string)
    ensures OwnedCount(ks, k) == OwnedCount(OwnedBy(ks, id), k) + OwnedCount(WithoutOwner(ks, id), k)
  {
    if ks != [] {
      var init, last := ks[..|ks| - 1], ks[|ks| - 1];
      RejectPartitions(init, id, k);
      OwnedSnoc(OwnedBy(init, id), last, k);
      OwnedSnoc(WithoutOwner(init, id), last, k);
    }
  }

  // ---------------------------------------------------------------- runs

  datatype Op =
    | Arrive(f: Fragment)
    | FlushTo(watermark: Ms)
    | DrainOut
    | ConfirmId(id: nat)
    | RejectId(id: nat)
    | Take

  /** What the calls so far took in and gave out. `confirmed` and `rejected` keep the issued
      completion ids the store reported on. */
  datatype Account = Account(
    ingested: seq<string>,
    duplicates: seq<string>,
    emitted: seq<MergedCrash>,
    released: seq<(nat, string)>,
    dropped: seq<(nat, string)>,
    confirmed: set<nat>,
    rejected: set<nat>)

  datatype World = World(m: State, a: Account)

  function Start(window: Ms): World {
    World(Fresh(window), Account([], [], [], [], [], {}, {}))
  }

  function Issued(m: State, id: nat): set<nat> { if 1 <= id < m.nextId then {id} else {} }

  predicate IsDuplicate(m: State, f: Fragment) {
    f.sourceKey.Some? && KeyIsPending(m.pending, f.sourceKey.value)
  }

  function Note(keys: seq<string>, key: Option<string>): seq<string> {
    if key.Some? then keys + [key.value] else keys
  }

  lemma NoteCount(keys: seq<string>, key: Option<string>, k: string)
    ensures Count(Note(keys, key), k) == Count(keys, k) + KeyCount(key, k)
  {
    if key.Some? {
      CountSnoc(keys, key.value, k);
    }
  }

  function NoteArrival(a: Account, key: Option<string>, duplicate: bool, out: seq<MergedCrash>): Account {
    a.(ingested := Note(a.ingested, key),
       duplicates := if duplicate then Note(a.duplicates, key) else a.duplicates,
       emitted := a.emitted + out)
  }

  function Step(w: World, op: Op): World {
    var m, a := w.m, w.a;
    match op
    case Arrive(f) =>
      var r := Ingest(m, f);
      World(r.0, NoteArrival(a, f.sourceKey, IsDuplicate(Flush(m, f.happenedAtMs).0, f), r.1))
    case FlushTo(watermark) =>
      var r := Flush(m, watermark);
      World(r.0, a.(emitted := a.emitted + r.1))
    case DrainOut =>
      var r := Drain(m);
      World(r.0, a.(emitted := a.emitted + r.1))
    case ConfirmId(id) => World(Confirm(m, id), a.(confirmed := a.confirmed + Issued(m, id)))
    case RejectId(id) =>
      World(Reject(m, id), a.(dropped := a.dropped + OwnedBy(m.suppressed, id), rejected := a.rejected + Issued(m, id)))
    case Take =>
      World(TakeConfirmed(m).0, a.(released := a.released + Released(m.suppressed, m.recent)))
  }

  function Run(w: World, ops: seq<Op>): World {
    if ops == [] then w else Step(Run(w, ops[..|ops| - 1]), ops[|ops| - 1])
  }

  // ---------------------------------------------------------------- conservation

  /** Everything that can have become of a key, counted. */
  function Accounted(w: World, k: string): nat {
    PendingCount(w.m.pending, k) + EmittedCount(w.a.emitted, k) + OwnedCount(w.m.suppressed, k)
    + OwnedCount(w.a.released, k) + OwnedCount(w.a.dropped, k) + Count(w.a.duplicates, k)
  }

  function IdsBetween(from: nat, to: nat, id: nat): nat { if from <= id < to then 1 else 0 }

  lemma FlushCounts(m: State, watermark: Ms, k: string, id: nat)
    ensures PendingCount(m.pending, k)
            == PendingCount(Flush(m, watermark).0.pending, k) + EmittedCount(Flush(m, watermark).1, k)
    ensures IdCount(Flush(m, watermark).1, id) == IdsBetween(m.nextId, Flush(m, watermark).0.nextId, id)
    ensures m.nextId <= Flush(m, watermark).0.nextId
  {
    var taken := Split(m.pending, 0, m.window, watermark).1;
    PendingSplit(m.pending, 0, m.window, watermark, k);
    EmittedFinishAll(taken, m.nextId, k, id);
    EmittedSort(FinishAll(taken, m.nextId), k, id);
  }

  lemma DrainCounts(m: State, k: string, id: nat)
    ensures PendingCount(m.pending, k) == EmittedCount(Drain(m).1, k)
    ensures IdCount(Drain(m).1, id) == IdsBetween(m.nextId, Drain(m).0.nextId, id)
  {
    EmittedFinishAll(m.pending, m.nextId, k, id);
    EmittedSort(FinishAll(m.pending, m.nextId), k, id);
  }

  lemma SortedSnocCounts(done: seq<MergedCrash>, c: MergedCrash, k: string, id: nat)
    ensures EmittedCount(SortByTime(done + [c]), k) == EmittedCount(done, k) + Count(c.sourceKeys, k)
    ensures IdCount(SortByTime(done + [c]), id) == IdCount(done, id) + (if c.completionId == id then 1 else 0)
  {
    EmittedSnoc(done, c, k, id);
    EmittedSort(done + [c], k, id);
  }

  lemma {:induction false} SettleCounts(m: State, i: nat, done: seq<MergedCrash>, k: string, id: nat)
    requires i < |m.pending|
    ensures PendingCount(m.pending, k) + EmittedCount(done, k)
            == PendingCount(Settle(m, i, done).0.pending, k) + EmittedCount(Settle(m, i, done).1, k)
    ensures PendingCount(Settle(m, i, done).0.pending, k) <= PendingCount(m.pending, k)
    ensures IdCount(Settle(m, i, done).1, id) == IdCount(done, id) + IdsBetween(m.nextId, Settle(m, i, done).0.nextId, id)
    ensures m.nextId <= Settle(m, i, done).0.nextId
    ensures Settle(m, i, done).0.suppressed == m.suppressed
  {
    if CompletionDelay(m.pending[i], m.window) == 0 {
      PendingSwapRemove(m.pending, i, k);
      SortedSnocCounts(done, Finish(m.pending[i], m.nextId), k, id);
    }
  }

  lemma MergeKeysCount(keys: seq<string>, key: Option<string>, k: string)
    requires key.Some? ==> key.value !in keys
    ensures Count(MergeKeys(keys, key), k) == Count(keys, k) + KeyCount(key, k)
  {
    if key.Some? {
      CountSnoc(keys, key.value, k);
    }
  }

  lemma OpenKeysCount(key: Option<string>, k: string)
    ensures Count(KeySeq(key), k) == KeyCount(key, k)
  {
    if key.Some? {
      CountSnoc([], key.value, k);
      assert [] + [key.value] == [key.value];
    }
  }

  /** What a placed fragment adds: its key, unless that key is pending already. */
  function Added(m: State, f: Fragment, k: string): nat { if IsDuplicate(m, f) then 0 else KeyCount(f.sourceKey, k) }

  lemma PlaceCounts(m: State, f: Fragment, done: seq<MergedCrash>, k: string, id: nat)
    ensures PendingCount(m.pending, k) + EmittedCount(done, k) + OwnedCount(m.suppressed, k) + Added(m, f, k)
            == PendingCount(Place(m, f, done).0.pending, k) + EmittedCount(Place(m, f, done).1, k)
               + OwnedCount(Place(m, f, done).0.suppressed, k)
    ensures PendingCount(Place(m, f, done).0.pending, k) <= PendingCount(m.pending, k) + Added(m, f, k)
    ensures IdCount(Place(m, f, done).1, id) == IdCount(done, id) + IdsBetween(m.nextId, Place(m, f, done).0.nextId, id)
    ensures m.nextId <= Place(m, f, done).0.nextId
  {
    if !IsDuplicate(m, f) {
      var found := NearestPending(m.pending, f, m.window);
      if found.Some? {
        var i := found.value;
        var p := Merge(m.pending[i], f);
        PendingUpdate(m.pending, i, p, k);
        MergeKeysCount(m.pending[i].sourceKeys, f.sourceKey, k);
        SettleCounts(m.(pending := m.pending[i := p]), i, done, k, id);
      } else {
        var absorber := NearestRecent(m.recent, f, m.window);
        if absorber.Some? {
          if f.sourceKey.Some? {
            OwnedSnoc(m.suppressed, (m.recent[absorber.value].completionId, f.sourceKey.value), k);
          }
        } else {
          PendingSnoc(m.pending, Open(f), k);
          OpenKeysCount(f.sourceKey, k);
          SettleCounts(m.(pending := m.pending + [Open(f)]), |m.pending|, done, k, id);
        }
      }
    }
  }

  lemma ArrivalConserves(w: World, key: Option<string>, duplicate: bool, m': State, out: seq<MergedCrash>, k: string)
    requires Count(w.a.ingested, k) == Accounted(w, k)
    requires PendingCount(w.m.pending, k) + OwnedCount(w.m.suppressed, k) + (if duplicate then 0 else KeyCount(key, k))
             == PendingCount(m'.pending, k) + EmittedCount(out, k) + OwnedCount(m'.suppressed, k)
    ensures var w' := World(m', NoteArrival(w.a, key, duplicate, out));
            Count(w'.a.ingested, k) == Accounted(w', k)
  {
    EmittedAppend(w.a.emitted, out, k, 0);
    NoteCount(w.a.ingested, key, k);
    NoteCount(w.a.duplicates, key, k);
  }

  lemma ArriveConserves(w: World, f: Fragment, k: string)
    requires Count(w.a.ingested, k) == Accounted(w, k)
    ensures Count(Step(w, Arrive(f)).a.ingested, k) == Accounted(Step(w, Arrive(f)), k)
  {
    var flushed := Flush(w.m, f.happenedAtMs);
    var r := Place(flushed.0, f, flushed.1);
    FlushCounts(w.m, f.happenedAtMs, k, 0);
    PlaceCounts(flushed.0, f, flushed.1, k, 0);
    ArrivalConserves(w, f.sourceKey, IsDuplicate(flushed.0, f), r.0, r.1, k);
  }

  lemma StepConserves(w: World, op: Op, k: string)
    requires Count(w.a.ingested, k) == Accounted(w, k)
    ensures Count(Step(w, op).a.ingested, k) == Accounted(Step(w, op), k)
  {
    var m, a := w.m, w.a;
    match op
    case Arrive(f) => ArriveConserves(w, f, k);
    case FlushTo(watermark) =>
      FlushCounts(m, watermark, k, 0);
      EmittedAppend(a.emitted, Flush(m, watermark).1, k, 0);
    case DrainOut =>
      DrainCounts(m, k, 0);
      EmittedAppend(a.emitted, Drain(m).1, k, 0);
    case ConfirmId(id) =>
    case RejectId(id) =>
      RejectPartitions(m.suppressed, id, k);
      OwnedAppend(a.dropped, OwnedBy(m.suppressed, id), k);
    case Take =>
      TakePartitions(m.suppressed, m.recent, k);
      OwnedAppend(a.released, Released(m.suppressed, m.recent), k);
  }

  /** Key conservation over every run: counted with multiplicity, the keys ever ingested are
      those pending, emitted, still suppressed, released, dropped by a rejection, or turned away
      because they were already pending. */
  lemma {:induction false} KeysConserved(window: Ms, ops: seq<Op>, k: string)
    ensures Count(Run(Start(window), ops).a.ingested, k) == Accounted(Run(Start(window), ops), k)
  {
    if ops != [] {
      KeysConserved(window, ops[..|ops| - 1], k);
      StepConserves(Run(Start(window), ops[..|ops| - 1]), ops[|ops| - 1], k);
    }
  }

  // ---------------------------------------------------------------- no key pending twice

  lemma PlaceKeepsUnique(m: State, f: Fragment, done: seq<MergedCrash>, k: string)
    requires PendingCount(m.pending, k) <= 1
    ensures PendingCount(Place(m, f, done).0.pending, k) <= 1
  {
    PlaceCounts(m, f, done, k, 0);
    if f.sourceKey == Some(k) {
      KeyIsPendingExactly(m.pending, k);
    }
  }

  lemma StepKeepsUnique(w: World, op: Op, k: string)
    requires PendingCount(w.m.pending, k) <= 1
    ensures PendingCount(Step(w, op).m.pending, k) <= 1
  {
    match op
    case Arrive(f) =>
      FlushCounts(w.m, f.happenedAtMs, k, 0);
      var flushed := Flush(w.m, f.happenedAtMs);
      PlaceKeepsUnique(flushed.0, f, flushed.1, k);
    case FlushTo(watermark) => FlushCounts(w.m, watermark, k, 0);
    case DrainOut =>
    case ConfirmId(id) =>
    case RejectId(id) =>
    case Take =>
  }

  lemma {:induction false} KeyPendingOnce(window: Ms, ops: seq<Op>, k: string)
    ensures PendingCount(Run(Start(window), ops).m.pending, k) <= 1
  {
    if ops != [] {
      KeyPendingOnce(window, ops[..|ops| - 1], k);
      StepKeepsUnique(Run(Start(window), ops[..|ops| - 1]), ops[|ops| - 1], k);
    }
  }

  lemma {:induction false} PendingCountAtLeast(ps: seq<Pending>, i: nat, j: nat, k: string)
    requires i < |ps| && j < |ps|
    ensures i == j ==> Count(ps[i].sourceKeys, k) <= PendingCount(ps, k)
    ensures i != j ==> Count(ps[i].sourceKeys, k) + Count(ps[j].sourceKeys, k) <= PendingCount(ps, k)
  {
    var n := |ps| - 1;
    if i < n && j < n {
      PendingCountAtLeast(ps[..n], i, j, k);
    } else if i < n {
      PendingCountAtLeast(ps[..n], i, i, k);
    } else if j < n {
      PendingCountAtLeast(ps[..n], j, j, k);
    }
  }

  /** In every reachable state the pending key lists are duplicate-free and pairwise disjoint. */
  lemma PendingKeysDisjoint(window: Ms, ops: seq<Op>, i: nat, j: nat, x: nat, y: nat)
    requires var ps := Run(Start(window), ops).m.pending;
             && i < |ps| && j < |ps| && x < |ps[i].sourceKeys| && y < |ps[j].sourceKeys|
             && ps[i].sourceKeys[x] == ps[j].sourceKeys[y]
    ensures i == j && x == y
  {
    var ps := Run(Start(window), ops).m.pending;
    var k := ps[i].sourceKeys[x];
    KeyPendingOnce(window, ops, k);
    PendingCountAtLeast(ps, i, j, k);
    CountPositive(ps[i].sourceKeys, k);
    CountPositive(ps[j].sourceKeys, k);
    if i == j && x < y {
      CountTwo(ps[i].sourceKeys, x, y);
    } else if i == j && y < x {
      CountTwo(ps[i].sourceKeys, y, x);
    }
  }

  lemma StepDuplicatesCovered(w: World, op: Op, k: string)
    requires Count(w.a.duplicates, k) > 0 ==> PendingCount(w.m.pending, k) + EmittedCount(w.a.emitted, k) > 0
    ensures Count(Step(w, op).a.duplicates, k) > 0 ==>
              PendingCount(Step(w, op).m.pending, k) + EmittedCount(Step(w, op).a.emitted, k) > 0
  {
    var m, a := w.m, w.a;
    match op
    case Arrive(f) =>
      var flushed := Flush(m, f.happenedAtMs);
      FlushCounts(m, f.happenedAtMs, k, 0);
      PlaceGrows(flushed.0, f, flushed.1, k);
      EmittedAppend(a.emitted, Ingest(m, f).1, k, 0);
      NoteCount(a.duplicates, f.sourceKey, k);
      KeyIsPendingExactly(flushed.0.pending, k);
    case FlushTo(watermark) =>
      FlushCounts(m, watermark, k, 0);
      EmittedAppend(a.emitted, Flush(m, watermark).1, k, 0);
    case DrainOut =>
      DrainCounts(m, k, 0);
      EmittedAppend(a.emitted, Drain(m).1, k, 0);
    case ConfirmId(id) =>
    case RejectId(id) =>
    case Take =>
  }

  /** A pending key stays pending or is emitted; an emitted one stays emitted. */
  lemma PlaceGrows(m: State, f: Fragment, done: seq<MergedCrash>, k: string)
    ensures PendingCount(m.pending, k) + EmittedCount(done, k)
            <= PendingCount(Place(m, f, done).0.pending, k) + EmittedCount(Place(m, f, done).1, k)
  {
    if !IsDuplicate(m, f) {
      var found := NearestPending(m.pending, f, m.window);
      if found.Some? {
        var i := found.value;
        var p := Merge(m.pending[i], f);
        PendingUpdate(m.pending, i, p, k);
        MergeKeysCount(m.pending[i].sourceKeys, f.sourceKey, k);
        SettleCounts(m.(pending := m.pending[i := p]), i, done, k, 0);
      } else if NearestRecent(m.recent, f, m.window).None? {
        PendingSnoc(m.pending, Open(f), k);
        SettleCounts(m.(pending := m.pending + [Open(f)]), |m.pending|, done, k, 0);
      }
    }
  }

  lemma {:induction false} DuplicatesCovered(window: Ms, ops: seq<Op>, k: string)
    ensures var w := Run(Start(window), ops);
            Count(w.a.duplicates, k) > 0 ==> PendingCount(w.m.pending, k) + EmittedCount(w.a.emitted, k) > 0
  {
    if ops != [] {
      DuplicatesCovered(window, ops[..|ops| - 1], k);
      StepDuplicatesCovered(Run(Start(window), ops[..|ops| - 1]), ops[|ops| - 1], k);
    }
  }

  /** Every key ever ingested is pending, was emitted with an occurrence, is suppressed, was
      released, or was dropped by a rejection: turning a duplicate away loses nothing. */
  lemma NoKeyLost(window: Ms, ops: seq<Op>, k: string)
    requires k in Run(Start(window), ops).a.ingested
    ensures var w := Run(Start(window), ops);
            PendingCount(w.m.pending, k) + EmittedCount(w.a.emitted, k) + OwnedCount(w.m.suppressed, k)
            + OwnedCount(w.a.released, k) + OwnedCount(w.a.dropped, k) > 0
  {
    CountPositive(Run(Start(window), ops).a.ingested, k);
    KeysConserved(window, ops, k);
    DuplicatesCovered(window, ops, k);
  }

  // ---------------------------------------------------------------- completion ids

  /** Completion ids are handed out from 1 upward, each to exactly one emitted occurrence. */
  predicate IdExact(w: World, id: nat) {
    w.m.nextId >= 1 && IdCount(w.a.emitted, id) == IdsBetween(1, w.m.nextId, id)
  }

  lemma StepIdExact(w: World, op: Op, id: nat)
    requires IdExact(w, id)
    ensures IdExact(Step(w, op), id)
  {
    match op
    case Arrive(f) =>
      var flushed := Flush(w.m, f.happenedAtMs);
      FlushCounts(w.m, f.happenedAtMs, "", id);
      PlaceCounts(flushed.0, f, flushed.1, "", id);
      EmittedAppend(w.a.emitted, Ingest(w.m, f).1, "", id);
    case FlushTo(watermark) =>
      FlushCounts(w.m, watermark, "", id);
      EmittedAppend(w.a.emitted, Flush(w.m, watermark).1, "", id);
    case DrainOut =>
      DrainCounts(w.m, "", id);
      EmittedAppend(w.a.emitted, Drain(w.m).1, "", id);
    case ConfirmId(_) =>
    case RejectId(_) =>
    case Take =>
  }

  lemma {:induction false} CompletionIdsExact(window: Ms, ops: seq<Op>, id: nat)
    ensures IdExact(Run(Start(window), ops), id)
  {
    if ops != [] {
      CompletionIdsExact(window, ops[..|ops| - 1], id);
      StepIdExact(Run(Start(window), ops[..|ops| - 1]), ops[|ops| - 1], id);
    }
  }
}
