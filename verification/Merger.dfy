/**
 The correlation state machine: pending occurrences, recently completed ones, and the keys
 of late sightings that a recent completion absorbed.
 */
module Merger {
  import opened Model
  import opened Evidence
  import opened Sorting

  /** What is remembered of a completed occurrence, to absorb a slower companion source. */
  datatype Recent = Recent(
    completionId: nat,
    persisted: bool,
    kind: CrashKind,
    process: string,
    user: Option<int>,
    pid: int,
    firstMs: Ms,
    sources: Sources,
    anrFile: Option<string>)

  datatype State = State(
    window: Ms,
    pending: seq<Pending>,
    recent: seq<Recent>,
    suppressed: seq<(nat, string)>,
    nextId: nat)

  function Fresh(window: Ms): State { State(window, [], [], [], 1) }

  function SaturatingAdd(a: Ms, b: Ms): Ms {
    if a + b > I64_MAX then I64_MAX else if a + b < I64_MIN then I64_MIN else a + b
  }

  // ---------------------------------------------------------------- completing a pending

  /** The part of a process name before the first colon. */
  function PackageOfProcess(process: string): string {
    if process == [] || process[0] == ':' then [] else [process[0]] + PackageOfProcess(process[1..])
  }

  function KindName(kind: CrashKind): string {
    match kind
    case JavaException => "JavaException"
    case Anr => "Anr"
    case NativeCrash => "NativeCrash"
    case Wtf => "Wtf"
  }

  function OrElse<T>(v: Option<T>, default: T): T { if v.Some? then v.value else default }

  function Finish(p: Pending, id: nat): MergedCrash {
    var primary := OrElse(ValueOf(p.summaryClass), OrElse(ValueOf(p.text), KindName(p.kind.value)));
    MergedCrash(
      id,
      CrashRecord(
        p.kind.value, OrElse(ValueOf(p.package), PackageOfProcess(p.process)), p.process,
        OrElse(ValueOf(p.user), 0), p.pid, p.firstMs, ValueOf(p.versionName), ValueOf(p.versionCode),
        OrElse(ValueOf(p.system), false), true, ValueOf(p.foreground),
        p.kind.value == JavaException && CrashBuffer in p.sources && Events !in p.sources,
        p.dropped, p.sources, ValueOf(p.summaryClass), ValueOf(p.text), primary, p.frames.value, p.payload.value),
      p.sourceKeys)
  }

  function RecentOf(p: Pending, id: nat): Recent {
    Recent(id, false, p.kind.value, p.process, ValueOf(p.user), p.pid, p.firstMs, p.sources, p.anrFile)
  }

  predicate RecentMatches(r: Recent, f: Fragment, window: Ms) {
    var repeated := RepeatsAnrFile(r.kind, r.sources, r.anrFile, f);
    var trailing := r.kind == Anr && AnrFile in r.sources && f.source == Dropbox;
    && (f.source in r.sources ==> repeated)
    && IdentityMatches(r.pid, r.user, f.pid, f.userId)
    && r.process == f.processName
    && r.kind == f.kind
    && Within(Distance(r.firstMs, f.happenedAtMs), if repeated || trailing then window else Skew(window))
  }

  // ---------------------------------------------------------------- choosing the nearest

  /** The first of the nearest pending occurrences that admit the fragment. */
  function NearestPending(ps: seq<Pending>, f: Fragment, window: Ms): (r: Option<nat>)
    ensures r.None? ==> forall i :: 0 <= i < |ps| ==> !PendingMatches(ps[i], f, window)
    ensures r.Some? ==> r.value < |ps| && PendingMatches(ps[r.value], f, window)
    ensures r.Some? ==> forall i :: 0 <= i < |ps| && PendingMatches(ps[i], f, window) ==>
                          Distance(ps[r.value].firstMs, f.happenedAtMs) <= Distance(ps[i].firstMs, f.happenedAtMs)
                          && (Distance(ps[r.value].firstMs, f.happenedAtMs) == Distance(ps[i].firstMs, f.happenedAtMs)
                              ==> r.value <= i)
  {
    if ps == [] then None
    else
      var n := |ps| - 1;
      var best := NearestPending(ps[..n], f, window);
      assert forall i :: 0 <= i < n ==> ps[..n][i] == ps[i];
      if PendingMatches(ps[n], f, window)
         && (best.None? || Distance(ps[n].firstMs, f.happenedAtMs) < Distance(ps[best.value].firstMs, f.happenedAtMs))
      then Some(n) else best
  }

  /** The first of the nearest recent completions that absorb the fragment. */
  function NearestRecent(rs: seq<Recent>, f: Fragment, window: Ms): (r: Option<nat>)
    ensures r.None? ==> forall i :: 0 <= i < |rs| ==> !RecentMatches(rs[i], f, window)
    ensures r.Some? ==> r.value < |rs| && RecentMatches(rs[r.value], f, window)
    ensures r.Some? ==> forall i :: 0 <= i < |rs| && RecentMatches(rs[i], f, window) ==>
                          Distance(rs[r.value].firstMs, f.happenedAtMs) <= Distance(rs[i].firstMs, f.happenedAtMs)
                          && (Distance(rs[r.value].firstMs, f.happenedAtMs) == Distance(rs[i].firstMs, f.happenedAtMs)
                              ==> r.value <= i)
  {
    if rs == [] then None
    else
      var n := |rs| - 1;
      var best := NearestRecent(rs[..n], f, window);
      assert forall i :: 0 <= i < n ==> rs[..n][i] == rs[i];
      if RecentMatches(rs[n], f, window)
         && (best.None? || Distance(rs[n].firstMs, f.happenedAtMs) < Distance(rs[best.value].firstMs, f.happenedAtMs))
      then Some(n) else best
  }

  /** The pass over the pending occurrences, one further. */
  lemma NearestPendingStep(ps: seq<Pending>, i: nat, f: Fragment, window: Ms)
    requires i < |ps|
    ensures var best := NearestPending(ps[..i], f, window);
            NearestPending(ps[..i + 1], f, window)
            == if PendingMatches(ps[i], f, window)
                  && (best.None? || Distance(ps[i].firstMs, f.happenedAtMs) < Distance(ps[best.value].firstMs, f.happenedAtMs))
               then Some(i) else best
  {
    assert ps[..i + 1][..i] == ps[..i];
  }

  lemma NearestRecentStep(rs: seq<Recent>, i: nat, f: Fragment, window: Ms)
    requires i < |rs|
    ensures var best := NearestRecent(rs[..i], f, window);
            NearestRecent(rs[..i + 1], f, window)
            == if RecentMatches(rs[i], f, window)
                  && (best.None? || Distance(rs[i].firstMs, f.happenedAtMs) < Distance(rs[best.value].firstMs, f.happenedAtMs))
               then Some(i) else best
  {
    assert rs[..i + 1][..i] == rs[..i];
  }

  // ---------------------------------------------------------------- flushing

  predicate Overdue(p: Pending, window: Ms, watermark: Ms) {
    SaturatingAdd(p.lastMs, CompletionDelay(p, window)) < watermark
  }

  function SwapRemove<T>(s: seq<T>, i: nat): (r: seq<T>)
    requires i < |s|
    ensures |r| == |s| - 1
    ensures r[..i] == s[..i]
  {
    var n := |s| - 1;
    if i == n then s[..n] else s[..n][i := s[n]]
  }

  lemma SwapRemoveContents<T>(s: seq<T>, i: nat)
    requires i < |s|
    ensures multiset(s) == multiset(SwapRemove(s, i)) + multiset{s[i]}
  {
    var n := |s| - 1;
    assert s == s[..n] + [s[n]];
  }

  /** The flush loop from index `i`: what stays, in the order the swaps leave it, and what is
      taken, in the order it is taken. */
  function Split(ps: seq<Pending>, i: nat, window: Ms, watermark: Ms): (seq<Pending>, seq<Pending>)
    requires i <= |ps|
    decreases |ps| - i
  {
    if i == |ps| then (ps, [])
    else if Overdue(ps[i], window, watermark) then
      var (kept, taken) := Split(SwapRemove(ps, i), i, window, watermark);
      (kept, [ps[i]] + taken)
    else Split(ps, i + 1, window, watermark)
  }

  function FinishAll(taken: seq<Pending>, id: nat): (out: seq<MergedCrash>) {
    seq(|taken|, j requires 0 <= j < |taken| => Finish(taken[j], id + j))
  }

  function RecentAll(taken: seq<Pending>, id: nat): (out: seq<Recent>) {
    seq(|taken|, j requires 0 <= j < |taken| => RecentOf(taken[j], id + j))
  }

  lemma FinishAllSnoc(taken: seq<Pending>, p: Pending, id: nat)
    ensures FinishAll(taken + [p], id) == FinishAll(taken, id) + [Finish(p, id + |taken|)]
    ensures RecentAll(taken + [p], id) == RecentAll(taken, id) + [RecentOf(p, id + |taken|)]
  {
  }

  /** Recent completions are forgotten once the window has passed their first sighting. */
  function Retain(rs: seq<Recent>, window: Ms, watermark: Ms): seq<Recent> {
    if rs == [] then []
    else
      var init := Retain(rs[..|rs| - 1], window, watermark);
      if SaturatingAdd(rs[|rs| - 1].firstMs, window) >= watermark then init + [rs[|rs| - 1]] else init
  }

  function Flush(m: State, watermark: Ms): (State, seq<MergedCrash>) {
    var (kept, taken) := Split(m.pending, 0, m.window, watermark);
    (m.(pending := kept,
        recent := Retain(m.recent, m.window, watermark) + RecentAll(taken, m.nextId),
        nextId := m.nextId + |taken|),
     SortByTime(FinishAll(taken, m.nextId)))
  }

  /** The flush loop at index `i`, with `taken` finished so far. */
  ghost predicate Splitting(start: seq<Pending>, now: seq<Pending>, i: nat, taken: seq<Pending>, window: Ms, watermark: Ms) {
    && i <= |now|
    && Split(start, 0, window, watermark).0 == Split(now, i, window, watermark).0
    && Split(start, 0, window, watermark).1 == taken + Split(now, i, window, watermark).1
  }

  lemma SplittingStep(start: seq<Pending>, now: seq<Pending>, i: nat, taken: seq<Pending>, window: Ms, watermark: Ms)
    requires Splitting(start, now, i, taken, window, watermark) && i < |now|
    ensures if Overdue(now[i], window, watermark)
            then Splitting(start, SwapRemove(now, i), i, taken + [now[i]], window, watermark)
            else Splitting(start, now, i + 1, taken, window, watermark)
  {
    if Overdue(now[i], window, watermark) {
      var rest := Split(SwapRemove(now, i), i, window, watermark).1;
      assert taken + ([now[i]] + rest) == (taken + [now[i]]) + rest;
    }
  }

  /** The state and output of the flush loop that started in `m`, at index `i`. */
  ghost predicate Flushing(m: State, now: State, out: seq<MergedCrash>, i: nat, taken: seq<Pending>, watermark: Ms) {
    && Splitting(m.pending, now.pending, i, taken, m.window, watermark)
    && now == m.(pending := now.pending,
                 recent := m.recent + RecentAll(taken, m.nextId),
                 nextId := m.nextId + |taken|)
    && out == FinishAll(taken, m.nextId)
  }

  function Finished(m: State, i: nat): State
    requires i < |m.pending|
  {
    m.(pending := SwapRemove(m.pending, i), recent := m.recent + [RecentOf(m.pending[i], m.nextId)], nextId := m.nextId + 1)
  }

  lemma FlushingStart(m: State, watermark: Ms)
    ensures Flushing(m, m, [], 0, [], watermark)
  {
    var rest := Split(m.pending, 0, m.window, watermark).1;
    assert [] + rest == rest;
    assert m.recent + RecentAll([], m.nextId) == m.recent;
  }

  lemma FlushingStep(m: State, now: State, out: seq<MergedCrash>, i: nat, taken: seq<Pending>, watermark: Ms)
    requires Flushing(m, now, out, i, taken, watermark) && i < |now.pending|
    ensures if Overdue(now.pending[i], m.window, watermark)
            then Flushing(m, Finished(now, i), out + [Finish(now.pending[i], now.nextId)], i, taken + [now.pending[i]], watermark)
            else Flushing(m, now, out, i + 1, taken, watermark)
  {
    SplittingStep(m.pending, now.pending, i, taken, m.window, watermark);
    FinishAllSnoc(taken, now.pending[i], m.nextId);
  }

  lemma FlushingEnd(m: State, kept: State, now: State, out: seq<MergedCrash>, taken: seq<Pending>, watermark: Ms)
    requires kept == m.(recent := Retain(m.recent, m.window, watermark))
    requires Flushing(kept, now, out, |now.pending|, taken, watermark)
    ensures Flush(m, watermark) == (now, SortByTime(out))
  {
    assert taken + [] == taken;
  }

  lemma {:induction false} SplitPartitions(ps: seq<Pending>, i: nat, window: Ms, watermark: Ms)
    requires i <= |ps|
    requires forall j :: 0 <= j < i ==> !Overdue(ps[j], window, watermark)
    ensures var (kept, taken) := Split(ps, i, window, watermark);
            && multiset(kept) + multiset(taken) == multiset(ps)
            && (forall p :: p in kept ==> !Overdue(p, window, watermark))
            && (forall p :: p in taken ==> Overdue(p, window, watermark))
    decreases |ps| - i
  {
    if i < |ps| {
      if Overdue(ps[i], window, watermark) {
        var rest := SwapRemove(ps, i);
        assert forall j :: 0 <= j < i ==> rest[j] == rest[..i][j] == ps[..i][j] == ps[j];
        SplitPartitions(rest, i, window, watermark);
        SwapRemoveContents(ps, i);
        var (kept, taken) := Split(rest, i, window, watermark);
        assert multiset([ps[i]] + taken) == multiset{ps[i]} + multiset(taken);
      } else {
        SplitPartitions(ps, i + 1, window, watermark);
      }
    }
  }

  /** A flush emits exactly the overdue occurrences, each once, in time order, and keeps the
      rest: despite the swaps nothing is lost, duplicated or skipped. */
  lemma FlushPartitions(m: State, watermark: Ms)
    ensures var (m', out) := Flush(m, watermark);
            exists taken: seq<Pending> ::
              && multiset(m'.pending) + multiset(taken) == multiset(m.pending)
              && (forall p :: p in m'.pending ==> !Overdue(p, m.window, watermark))
              && (forall p :: p in taken ==> Overdue(p, m.window, watermark))
              && multiset(out) == multiset(FinishAll(taken, m.nextId))
              && Sorted(out)
              && |out| == |taken| == m'.nextId - m.nextId
  {
    var (kept, taken) := Split(m.pending, 0, m.window, watermark);
    SplitPartitions(m.pending, 0, m.window, watermark);
    var all := FinishAll(taken, m.nextId);
    SortByTimeSorts(all);
    assert |SortByTime(all)| == |multiset(SortByTime(all))| == |multiset(all)| == |taken|;
  }

  // ---------------------------------------------------------------- ingesting one fragment

  predicate KeyIsPending(ps: seq<Pending>, key: string) {
    exists i :: 0 <= i < |ps| && key in ps[i].sourceKeys
  }

  /** Completes the occurrence just touched when no further evidence is worth waiting for. */
  function Settle(m: State, i: nat, done: seq<MergedCrash>): (State, seq<MergedCrash>)
    requires i < |m.pending|
  {
    if CompletionDelay(m.pending[i], m.window) == 0 then
      (Finished(m, i), SortByTime(done + [Finish(m.pending[i], m.nextId)]))
    else (m, done)
  }

  /** Remembers the key of an absorbed fragment with the completion that absorbed it. */
  function Suppress(ks: seq<(nat, string)>, owner: nat, key: Option<string>): seq<(nat, string)> {
    if key.Some? then ks + [(owner, key.value)] else ks
  }

  /** What an arriving fragment meets once the overdue occurrences are flushed. */
  function Place(m: State, f: Fragment, done: seq<MergedCrash>): (State, seq<MergedCrash>) {
    if f.sourceKey.Some? && KeyIsPending(m.pending, f.sourceKey.value) then (m, done)
    else
      var found := NearestPending(m.pending, f, m.window);
      if found.Some? then
        var i := found.value;
        Settle(m.(pending := m.pending[i := Merge(m.pending[i], f)]), i, done)
      else
        var absorber := NearestRecent(m.recent, f, m.window);
        if absorber.Some? then
          (m.(suppressed := Suppress(m.suppressed, m.recent[absorber.value].completionId, f.sourceKey)), done)
        else
          Settle(m.(pending := m.pending + [Open(f)]), |m.pending|, done)
  }

  function Ingest(m: State, f: Fragment): (State, seq<MergedCrash>) {
    var (flushed, done) := Flush(m, f.happenedAtMs);
    Place(flushed, f, done)
  }

  // ---------------------------------------------------------------- the rest of the interface

  function Drain(m: State): (State, seq<MergedCrash>) {
    (m.(pending := [], nextId := m.nextId + |m.pending|), SortByTime(FinishAll(m.pending, m.nextId)))
  }

  /** Marks the first recent completion with the id. */
  function MarkPersisted(rs: seq<Recent>, id: nat): seq<Recent> {
    if rs == [] then []
    else if rs[0].completionId == id then [rs[0].(persisted := true)] + rs[1..]
    else [rs[0]] + MarkPersisted(rs[1..], id)
  }

  /** One step of the search for the completion to mark. */
  lemma MarkStep(rs: seq<Recent>, i: nat, id: nat)
    requires i < |rs|
    ensures rs[..i] + MarkPersisted(rs[i..], id)
            == if rs[i].completionId == id then rs[i := rs[i].(persisted := true)]
               else rs[..i + 1] + MarkPersisted(rs[i + 1..], id)
  {
    var rest := rs[i..];
    assert rest[0] == rs[i] && rest[1..] == rs[i + 1..];
    assert rs[..i + 1] == rs[..i] + [rs[i]];
  }

  function Confirm(m: State, id: nat): State { m.(recent := MarkPersisted(m.recent, id)) }

  function WithoutRecent(rs: seq<Recent>, id: nat): seq<Recent> {
    if rs == [] then []
    else
      var init := WithoutRecent(rs[..|rs| - 1], id);
      if rs[|rs| - 1].completionId != id then init + [rs[|rs| - 1]] else init
  }

  function WithoutOwner(ks: seq<(nat, string)>, id: nat): seq<(nat, string)> {
    if ks == [] then []
    else
      var init := WithoutOwner(ks[..|ks| - 1], id);
      if ks[|ks| - 1].0 != id then init + [ks[|ks| - 1]] else init
  }

  function Reject(m: State, id: nat): State {
    m.(recent := WithoutRecent(m.recent, id), suppressed := WithoutOwner(m.suppressed, id))
  }

  predicate Persisted(rs: seq<Recent>, id: nat) {
    exists i :: 0 <= i < |rs| && rs[i].completionId == id && rs[i].persisted
  }

  /** Suppressed keys whose completion reached the store, and the ones still waiting. */
  function Released(ks: seq<(nat, string)>, rs: seq<Recent>): seq<(nat, string)> {
    if ks == [] then []
    else
      var init := Released(ks[..|ks| - 1], rs);
      if Persisted(rs, ks[|ks| - 1].0) then init + [ks[|ks| - 1]] else init
  }

  function Waiting(ks: seq<(nat, string)>, rs: seq<Recent>): seq<(nat, string)> {
    if ks == [] then []
    else
      var init := Waiting(ks[..|ks| - 1], rs);
      if Persisted(rs, ks[|ks| - 1].0) then init else init + [ks[|ks| - 1]]
  }

  function KeysIn(ks: seq<(nat, string)>): seq<string> {
    seq(|ks|, i requires 0 <= i < |ks| => ks[i].1)
  }

  function TakeConfirmed(m: State): (State, seq<string>) {
    (m.(suppressed := Waiting(m.suppressed, m.recent)), KeysIn(Released(m.suppressed, m.recent)))
  }

  // ---------------------------------------------------------------- the object

  /** The merger as the ingest thread holds it. */
  class CrashMerger {
    const window: Ms
    var pending: seq<Pending>
    var recent: seq<Recent>
    var suppressed: seq<(nat, string)>
    var nextId: nat

    ghost function Abs(): State
      reads this
    {
      State(window, pending, recent, suppressed, nextId)
    }

    constructor (window: Ms)
      ensures Abs() == Fresh(window)
    {
      this.window := window;
      pending, recent, suppressed, nextId := [], [], [], 1;
    }

    method FinishPending(i: nat) returns (c: MergedCrash)
      requires i < |pending|
      modifies this
      ensures c == Finish(old(pending)[i], old(nextId))
      ensures Abs() == Finished(old(Abs()), i)
    {
      var p := pending[i];
      pending := SwapRemove(pending, i);
      var id := nextId;
      nextId := nextId + 1;
      recent := recent + [RecentOf(p, id)];
      c := Finish(p, id);
    }

    method FlushBefore(watermark: Ms) returns (out: seq<MergedCrash>)
      modifies this
      ensures (Abs(), out) == Flush(old(Abs()), watermark)
    {
      RetainRecent(watermark);
      ghost var kept := Abs();
      ghost var taken: seq<Pending> := [];
      out := [];
      var i := 0;
      FlushingStart(kept, watermark);
      while i < |pending|
        invariant 0 <= i && Flushing(kept, Abs(), out, i, taken, watermark)
        decreases |pending| - i
      {
        FlushingStep(kept, Abs(), out, i, taken, watermark);
        if Overdue(pending[i], window, watermark) {
          taken := taken + [pending[i]];
          var c := FinishPending(i);
          out := out + [c];
        } else {
          i := i + 1;
        }
      }
      FlushingEnd(old(Abs()), kept, Abs(), out, taken, watermark);
      out := SortByTime(out);
    }

    method RetainRecent(watermark: Ms)
      modifies `recent
      ensures recent == Retain(old(recent), window, watermark)
    {
      var all, j := recent, 0;
      recent := [];
      while j < |all|
        invariant 0 <= j <= |all|
        invariant recent == Retain(all[..j], window, watermark)
      {
        assert all[..j + 1][..j] == all[..j];
        if SaturatingAdd(all[j].firstMs, window) >= watermark {
          recent := recent + [all[j]];
        }
        j := j + 1;
      }
      assert all[..j] == all;
    }

    method SettleAt(index: nat, done: seq<MergedCrash>) returns (completed: seq<MergedCrash>)
      requires index < |pending|
      modifies this
      ensures (Abs(), completed) == Settle(old(Abs()), index, done)
    {
      completed := done;
      if CompletionDelay(pending[index], window) == 0 {
        var c := FinishPending(index);
        completed := SortByTime(completed + [c]);
      }
    }

    /** One pass over the pending occurrences, keeping the first of the nearest that match. */
    method FindPending(f: Fragment) returns (found: Option<nat>)
      ensures found == NearestPending(pending, f, window)
      ensures found.None? <==> forall i :: 0 <= i < |pending| ==> !PendingMatches(pending[i], f, window)
      ensures found.Some? ==>
                forall i :: 0 <= i < |pending| && PendingMatches(pending[i], f, window) ==>
                  var best, other := Distance(pending[found.value].firstMs, f.happenedAtMs), Distance(pending[i].firstMs, f.happenedAtMs);
                  best < other || (best == other && found.value <= i)
    {
      found := None;
      var i := 0;
      while i < |pending|
        invariant 0 <= i <= |pending|
        invariant found == NearestPending(pending[..i], f, window)
      {
        NearestPendingStep(pending, i, f, window);
        if PendingMatches(pending[i], f, window) {
          var distance := Distance(pending[i].firstMs, f.happenedAtMs);
          if found.None? || distance < Distance(pending[found.value].firstMs, f.happenedAtMs) {
            found := Some(i);
          }
        }
        i := i + 1;
      }
      assert pending[..i] == pending;
    }

    /** The same over the recent completions. */
    method FindRecent(f: Fragment) returns (found: Option<nat>)
      ensures found == NearestRecent(recent, f, window)
      ensures found.None? <==> forall i :: 0 <= i < |recent| ==> !RecentMatches(recent[i], f, window)
      ensures found.Some? ==>
                forall i :: 0 <= i < |recent| && RecentMatches(recent[i], f, window) ==>
                  var best, other := Distance(recent[found.value].firstMs, f.happenedAtMs), Distance(recent[i].firstMs, f.happenedAtMs);
                  best < other || (best == other && found.value <= i)
    {
      found := None;
      var i := 0;
      while i < |recent|
        invariant 0 <= i <= |recent|
        invariant found == NearestRecent(recent[..i], f, window)
      {
        NearestRecentStep(recent, i, f, window);
        if RecentMatches(recent[i], f, window) {
          var distance := Distance(recent[i].firstMs, f.happenedAtMs);
          if found.None? || distance < Distance(recent[found.value].firstMs, f.happenedAtMs) {
            found := Some(i);
          }
        }
        i := i + 1;
      }
      assert recent[..i] == recent;
    }

    method PlaceFragment(f: Fragment, done: seq<MergedCrash>) returns (completed: seq<MergedCrash>)
      modifies this
      ensures (Abs(), completed) == Place(old(Abs()), f, done)
    {
      if f.sourceKey.Some? && KeyIsPending(pending, f.sourceKey.value) {
        return done;
      }
      var found := FindPending(f);
      if found.Some? {
        pending := pending[found.value := Merge(pending[found.value], f)];
        completed := SettleAt(found.value, done);
        return;
      }
      var absorber := FindRecent(f);
      if absorber.Some? {
        suppressed := Suppress(suppressed, recent[absorber.value].completionId, f.sourceKey);
        return done;
      }
      pending := pending + [Open(f)];
      completed := SettleAt(|pending| - 1, done);
    }

    method IngestFragment(f: Fragment) returns (completed: seq<MergedCrash>)
      modifies this
      ensures (Abs(), completed) == Ingest(old(Abs()), f)
    {
      completed := FlushBefore(f.happenedAtMs);
      completed := PlaceFragment(f, completed);
    }

    method DrainAll() returns (out: seq<MergedCrash>)
      modifies this
      ensures (Abs(), out) == Drain(old(Abs()))
    {
      var taken, j := pending, 0;
      pending := [];
      out := [];
      while j < |taken|
        invariant 0 <= j <= |taken|
        invariant out == FinishAll(taken[..j], old(nextId))
        invariant nextId == old(nextId) + j
        invariant Abs() == old(Abs()).(pending := [], nextId := nextId)
      {
        out := out + [Finish(taken[j], nextId)];
        nextId := nextId + 1;
        j := j + 1;
      }
      assert taken[..j] == taken;
      out := SortByTime(out);
    }

    /** Finds the first recent completion with the id and marks it. */
    method ConfirmPersisted(id: nat)
      modifies `recent
      ensures Abs() == Confirm(old(Abs()), id)
    {
      var i := 0;
      while i < |recent|
        invariant 0 <= i <= |recent| && recent == old(recent)
        invariant MarkPersisted(recent, id) == recent[..i] + MarkPersisted(recent[i..], id)
      {
        MarkStep(recent, i, id);
        if recent[i].completionId == id {
          recent := recent[i := recent[i].(persisted := true)];
          return;
        }
        i := i + 1;
      }
      assert recent[..i] == recent && recent[i..] == [];
    }

    method RejectCompletion(id: nat)
      modifies `recent, `suppressed
      ensures Abs() == Reject(old(Abs()), id)
    {
      ForgetRecent(id);
      var ks, j := suppressed, 0;
      suppressed := [];
      while j < |ks|
        invariant 0 <= j <= |ks|
        invariant suppressed == WithoutOwner(ks[..j], id)
        invariant recent == WithoutRecent(old(recent), id)
      {
        assert ks[..j + 1][..j] == ks[..j];
        if ks[j].0 != id {
          suppressed := suppressed + [ks[j]];
        }
        j := j + 1;
      }
      assert ks[..j] == ks;
    }

    method ForgetRecent(id: nat)
      modifies `recent
      ensures recent == WithoutRecent(old(recent), id)
    {
      var rs, i := recent, 0;
      recent := [];
      while i < |rs|
        invariant 0 <= i <= |rs|
        invariant recent == WithoutRecent(rs[..i], id)
      {
        assert rs[..i + 1][..i] == rs[..i];
        if rs[i].completionId != id {
          recent := recent + [rs[i]];
        }
        i := i + 1;
      }
      assert rs[..i] == rs;
    }

    method TakeConfirmedSuppressedKeys() returns (confirmed: seq<string>)
      modifies this
      ensures (Abs(), confirmed) == TakeConfirmed(old(Abs()))
    {
      var all, j := suppressed, 0;
      suppressed := [];
      confirmed := [];
      while j < |all|
        invariant 0 <= j <= |all|
        invariant confirmed == KeysIn(Released(all[..j], recent))
        invariant Abs() == old(Abs()).(suppressed := Waiting(all[..j], recent))
      {
        assert all[..j + 1][..j] == all[..j];
        if Persisted(recent, all[j].0) {
          confirmed := confirmed + [all[j].1];
        } else {
          suppressed := suppressed + [all[j]];
        }
        j := j + 1;
      }
      assert all[..j] == all;
    }
  }
}
