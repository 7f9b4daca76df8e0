/**
 Folding several sightings of one crash into a pending occurrence: which fragment
 may join, what joining changes, and what the folded evidence says about the
 fragments it came from.
 */
module Evidence {
  import opened Model

  const MAX_SOURCE_SKEW_MS: int := 2_000
  const RICH_SOURCE_SETTLE_WINDOW_MS: int := 250

  // ---------------------------------------------------------------- ranked fields

  /** A value together with the quality of the fragment that supplied it. */
  datatype Ranked<T> = Ranked(quality: Quality, value: T)

  /** An equal or better fragment replaces what is there. */
  function Replace<T>(slot: Ranked<T>, q: Quality, v: T): Ranked<T> {
    if Rank(q) >= Rank(slot.quality) then Ranked(q, v) else slot
  }

  function RankedOf<T>(q: Quality, v: Option<T>): Option<Ranked<T>> {
    match v
    case None => None
    case Some(x) => Some(Ranked(q, x))
  }

  function MergeRanked<T>(slot: Option<Ranked<T>>, q: Quality, v: Option<T>): Option<Ranked<T>> {
    match v
    case None => slot
    case Some(x) => if slot.None? then Some(Ranked(q, x)) else Some(Replace(slot.value, q, x))
  }

  function ValueOf<T>(slot: Option<Ranked<T>>): Option<T> {
    match slot
    case None => None
    case Some(r) => Some(r.value)
  }

  function MaxKnown(a: Option<nat>, b: Option<nat>): Option<nat> {
    match (a, b)
    case (Some(x), Some(y)) => Some(if x >= y then x else y)
    case (None, _) => b
    case (_, None) => a
  }

  // ---------------------------------------------------------------- pending occurrences

  datatype Pending = Pending(
    kind: Ranked<CrashKind>,
    package: Option<Ranked<string>>,
    process: string,
    user: Option<Ranked<int>>,
    pid: int,
    firstMs: Ms,
    lastMs: Ms,
    versionName: Option<Ranked<string>>,
    versionCode: Option<Ranked<int>>,
    system: Option<Ranked<bool>>,
    foreground: Option<Ranked<bool>>,
    dropped: Option<nat>,
    summaryClass: Option<Ranked<string>>,
    text: Option<Ranked<string>>,
    frames: Ranked<seq<string>>,
    payload: Ranked<PayloadSource>,
    sources: Sources,
    sourceKeys: seq<string>,
    anrFile: Option<string>)

  function KeySeq(key: Option<string>): seq<string> {
    if key.Some? then [key.value] else []
  }

  function Open(f: Fragment): Pending {
    var q := f.quality;
    Pending(
      Ranked(q, f.kind), RankedOf(q, f.packageName), f.processName, RankedOf(q, f.userId), f.pid,
      f.happenedAtMs, f.happenedAtMs, RankedOf(q, f.versionName), RankedOf(q, f.versionCode),
      RankedOf(q, f.isSystem), RankedOf(q, f.isForeground), f.droppedCount,
      RankedOf(q, f.summaryClass), RankedOf(q, f.summaryText), Ranked(q, f.frames), Ranked(q, f.payload),
      {f.source}, KeySeq(f.sourceKey), if f.source == AnrFile then f.sourceInstance else None)
  }

  /** Frames and payload are guarded twice: the outer test admits any value into an empty
      slot, and `Replace` then asks for the quality again. */
  function MergeFrames(slot: Ranked<seq<string>>, q: Quality, v: seq<string>): Ranked<seq<string>> {
    if v != [] && (slot.value == [] || Rank(q) >= Rank(slot.quality)) then Replace(slot, q, v) else slot
  }

  function MergePayload(slot: Ranked<PayloadSource>, q: Quality, v: PayloadSource): Ranked<PayloadSource> {
    if !v.NoPayload? && (slot.value.NoPayload? || Rank(q) >= Rank(slot.quality)) then Replace(slot, q, v) else slot
  }

  function MergeKeys(keys: seq<string>, key: Option<string>): seq<string> {
    if key.Some? && key.value !in keys then keys + [key.value] else keys
  }

  function Merge(p: Pending, f: Fragment): Pending {
    var q := f.quality;
    p.(
    sourceKeys := MergeKeys(p.sourceKeys, f.sourceKey),
    anrFile := if f.source == AnrFile && p.anrFile.None? then f.sourceInstance else p.anrFile,
    pid := if p.pid == 0 && f.pid != 0 then f.pid else p.pid,
    firstMs := MinMs(p.firstMs, f.happenedAtMs),
    lastMs := MaxMs(p.lastMs, f.happenedAtMs),
    sources := p.sources + {f.source},
    kind := Replace(p.kind, q, f.kind),
    package := MergeRanked(p.package, q, f.packageName),
    user := MergeRanked(p.user, q, f.userId),
    versionName := MergeRanked(p.versionName, q, f.versionName),
    versionCode := MergeRanked(p.versionCode, q, f.versionCode),
    system := MergeRanked(p.system, q, f.isSystem),
    foreground := MergeRanked(p.foreground, q, f.isForeground),
    dropped := MaxKnown(p.dropped, f.droppedCount),
    summaryClass := MergeRanked(p.summaryClass, q, f.summaryClass),
    text := MergeRanked(p.text, q, f.summaryText),
    frames := MergeFrames(p.frames, q, f.frames),
    payload := MergePayload(p.payload, q, f.payload))
  }

  // ---------------------------------------------------------------- who may join

  /** The source converts the signed allowance to unsigned, and a negative one becomes the
      largest unsigned value: a negative allowance admits every distance. */
  predicate Within(distance: nat, allowed: int) { allowed < 0 || distance <= allowed }

  function Skew(window: Ms): (skew: int)
    ensures 0 <= skew <= MAX_SOURCE_SKEW_MS
  {
    if window < 0 then 0 else if window > MAX_SOURCE_SKEW_MS then MAX_SOURCE_SKEW_MS else window
  }

  predicate IdentityMatches(leftPid: int, leftUser: Option<int>, rightPid: int, rightUser: Option<int>) {
    if leftPid != 0 && rightPid != 0 then
      leftPid == rightPid && (leftUser.Some? && rightUser.Some? ==> leftUser == rightUser)
    else
      leftUser.Some? && rightUser.Some? && leftUser == rightUser
  }

  predicate SameInstance(file: Option<string>, incoming: Option<string>) {
    file.Some? && incoming.Some? && file == incoming
  }

  predicate RepeatsAnrFile(kind: CrashKind, sources: Sources, file: Option<string>, f: Fragment) {
    && kind == Anr
    && f.source == AnrFile
    && AnrFile in sources
    && SameInstance(file, f.sourceInstance)
  }

  predicate PendingMatches(p: Pending, f: Fragment, window: Ms) {
    var repeated := f.kind == Anr && RepeatsAnrFile(p.kind.value, p.sources, p.anrFile, f);
    && (f.source !in p.sources || repeated)
    && IdentityMatches(p.pid, ValueOf(p.user), f.pid, f.userId)
    && p.process == f.processName
    && p.kind.value == f.kind
    && Within(Distance(p.firstMs, f.happenedAtMs), if repeated then window else Skew(window))
  }

  /** How long a pending occurrence waits for more evidence. */
  function CompletionDelay(p: Pending, window: Ms): Ms {
    var hasEvents := Events in p.sources;
    var hasDropbox := Dropbox in p.sources;
    var hasUser := p.user.Some?;
    var kind := p.kind.value;
    if kind == JavaException && hasEvents && CrashBuffer in p.sources then 0
    else if kind == NativeCrash && hasEvents && Tombstone in p.sources && p.kind.quality == Protobuf then 0
    else if kind == Anr && hasEvents && AnrFile in p.sources then 0
    else if kind == Wtf && (hasEvents || hasDropbox) then 0
    else if kind == NativeCrash && hasUser && Tombstone in p.sources then RICH_SOURCE_SETTLE_WINDOW_MS
    else if kind != Wtf && hasUser && hasDropbox then RICH_SOURCE_SETTLE_WINDOW_MS
    else window
  }

  // ---------------------------------------------------------------- what a pending is a fold of

  /** The pending occurrence that fragments build up, in arrival order. */
  function Build(fs: seq<Fragment>): Pending
    requires fs != []
  {
    if |fs| == 1 then Open(fs[0]) else Merge(Build(fs[..|fs| - 1]), fs[|fs| - 1])
  }

  /** Every fragment after the first was admitted by what the earlier ones had built. */
  predicate IsChain(fs: seq<Fragment>, window: Ms) {
    && fs != []
    && (|fs| > 1 ==>
          && IsChain(fs[..|fs| - 1], window)
          && PendingMatches(Build(fs[..|fs| - 1]), fs[|fs| - 1], window))
  }

  /** The fragments agree on who crashed: one kind and one process, one user among those that
      know it, one pid among those that know it. */
  predicate SameOccurrence(a: Fragment, b: Fragment) {
    && a.kind == b.kind
    && a.processName == b.processName
    && (a.userId.Some? && b.userId.Some? ==> a.userId == b.userId)
    && (a.pid != 0 && b.pid != 0 ==> a.pid == b.pid)
  }

  /** What the folded identity fields say about one contributing fragment. */
  predicate Covers(p: Pending, f: Fragment) {
    && p.kind.value == f.kind
    && p.process == f.processName
    && (f.userId.Some? ==> ValueOf(p.user) == f.userId)
    && (f.pid != 0 ==> p.pid == f.pid)
    && f.source in p.sources
    && p.firstMs <= f.happenedAtMs <= p.lastMs
  }

  lemma CoversStep(p: Pending, f: Fragment, g: Fragment, window: Ms)
    requires PendingMatches(p, f, window) && p.firstMs <= p.lastMs && (Covers(p, g) || g == f)
    ensures Covers(Merge(p, f), g) && Merge(p, f).firstMs <= Merge(p, f).lastMs
  {
  }

  lemma {:induction false} ChainCovered(fs: seq<Fragment>, window: Ms)
    requires IsChain(fs, window)
    ensures Build(fs).firstMs <= Build(fs).lastMs
    ensures forall i :: 0 <= i < |fs| ==> Covers(Build(fs), fs[i])
  {
    var n := |fs|;
    if n > 1 {
      var init := fs[..n - 1];
      ChainCovered(init, window);
      CoversStep(Build(init), fs[n - 1], fs[n - 1], window);
      forall i | 0 <= i < n
        ensures Covers(Build(fs), fs[i])
      {
        if i < n - 1 {
          assert Covers(Build(init), init[i]);
        }
        CoversStep(Build(init), fs[n - 1], fs[i], window);
      }
    }
  }

  function SourcesOf(fs: seq<Fragment>): Sources {
    if fs == [] then {} else SourcesOf(fs[..|fs| - 1]) + {fs[|fs| - 1].source}
  }

  lemma {:induction false} SourcesOfMembers(fs: seq<Fragment>, s: Source)
    ensures s in SourcesOf(fs) <==> exists i :: 0 <= i < |fs| && fs[i].source == s
  {
    if fs != [] {
      var n := |fs|;
      var init := fs[..n - 1];
      SourcesOfMembers(init, s);
      assert forall i :: 0 <= i < n - 1 ==> init[i] == fs[i];
      if s in SourcesOf(init) {
        var i :| 0 <= i < |init| && init[i].source == s;
        assert fs[i].source == s;
      } else if s in SourcesOf(fs) {
        assert fs[n - 1].source == s;
      }
    }
  }

  /** The collectors a pending names are exactly those of its fragments. */
  lemma {:induction false} ChainSources(fs: seq<Fragment>)
    requires fs != []
    ensures Build(fs).sources == SourcesOf(fs)
    ensures Build(fs).anrFile.Some? ==> AnrFile in Build(fs).sources
  {
    if |fs| == 1 {
      assert fs[..0] == [];
    } else {
      ChainSources(fs[..|fs| - 1]);
    }
  }

  /** All sightings folded into one occurrence describe the same crash. */
  lemma ChainIsOneOccurrence(fs: seq<Fragment>, window: Ms, i: nat, j: nat)
    requires IsChain(fs, window) && i < |fs| && j < |fs|
    ensures SameOccurrence(fs[i], fs[j])
  {
    ChainCovered(fs, window);
    assert Covers(Build(fs), fs[i]) && Covers(Build(fs), fs[j]);
  }

  lemma AnrFileStep(p: Pending, f: Fragment, window: Ms)
    requires PendingMatches(p, f, window) && (p.anrFile.Some? ==> AnrFile in p.sources)
    requires Merge(p, f).anrFile.Some?
    ensures f.source == AnrFile ==> f.sourceInstance == Merge(p, f).anrFile
    ensures AnrFile in p.sources ==> p.anrFile == Merge(p, f).anrFile
  {
  }

  /** The ANR file a pending remembers is the one every ANR-file sighting named. */
  lemma {:induction false} ChainAnrFile(fs: seq<Fragment>, window: Ms, i: nat)
    requires IsChain(fs, window) && i < |fs| && fs[i].source == AnrFile
    requires Build(fs).anrFile.Some?
    ensures fs[i].sourceInstance == Build(fs).anrFile
  {
    var n := |fs|;
    if n > 1 {
      var init := fs[..n - 1];
      ChainSources(init);
      AnrFileStep(Build(init), fs[n - 1], window);
      if i < n - 1 {
        assert init[i] == fs[i];
        SourcesOfMembers(init, AnrFile);
        ChainAnrFile(init, window, i);
      }
    }
  }

  /** No collector contributes twice to one occurrence, except an ANR dump file that Android
      reopened: then both sightings name the same file and the crash is an ANR. */
  lemma {:induction false} ChainRepeatsOnlyAnrFiles(fs: seq<Fragment>, window: Ms, i: nat, j: nat)
    requires IsChain(fs, window) && i < j < |fs| && fs[i].source == fs[j].source
    ensures fs[j].source == AnrFile && fs[j].kind == Anr
    ensures fs[i].sourceInstance.Some? && fs[i].sourceInstance == fs[j].sourceInstance
  {
    var n := |fs|;
    var init := fs[..n - 1];
    assert init[i] == fs[i];
    if j < n - 1 {
      assert init[j] == fs[j];
      ChainRepeatsOnlyAnrFiles(init, window, i, j);
    } else {
      ChainSources(init);
      SourcesOfMembers(init, fs[j].source);
      ChainAnrFile(init, window, i);
    }
  }

  lemma SpanStep(p: Pending, f: Fragment, window: Ms)
    requires PendingMatches(p, f, window) && p.firstMs <= p.lastMs
    requires window >= 0 || f.source !in p.sources
    ensures Merge(p, f).firstMs <= Merge(p, f).lastMs
    ensures Merge(p, f).lastMs - Merge(p, f).firstMs
            <= p.lastMs - p.firstMs + (if f.source in p.sources then window else Skew(window))
  {
  }

  /** `n` steps of `x` each. */
  function Steps(n: int, x: int): int { if n <= 0 then 0 else Steps(n - 1, x) + x }

  lemma {:induction false} StepsIsProduct(n: nat, x: int)
    ensures Steps(n, x) == n * x
  {
    if n > 0 {
      StepsIsProduct(n - 1, x);
      assert n * x == (n - 1) * x + x;
    }
  }

  /** The most a chain of `distinct` collectors and `repeats` ANR-file repeats can span. */
  function SpanBound(distinct: int, repeats: int, window: Ms): int {
    Steps(distinct - 1, Skew(window)) + Steps(repeats, if window > 0 then window else 0)
  }

  /** A pending built from `n` fragments spans no more than its bound. */
  predicate SpanBounded(p: Pending, n: int, window: Ms) {
    0 <= p.lastMs - p.firstMs <= SpanBound(|p.sources|, n - |p.sources|, window)
  }

  lemma SpanBoundedStep(p: Pending, f: Fragment, n: int, window: Ms)
    requires PendingMatches(p, f, window) && SpanBounded(p, n, window) && 1 <= |p.sources| <= n
    requires window >= 0 || f.source !in p.sources
    ensures SpanBounded(Merge(p, f), n + 1, window)
  {
    SpanStep(p, f, window);
    SourcesGrow(p, f);
  }

  /** How far apart the sightings of one occurrence can be: each new collector stretches the
      span by at most the skew, each repeat of an ANR file by at most the window. */
  lemma {:induction false} ChainSpan(fs: seq<Fragment>, window: Ms)
    requires IsChain(fs, window)
    requires window >= 0 || |fs| == |Build(fs).sources|
    ensures 1 <= |Build(fs).sources| <= |fs|
    ensures SpanBounded(Build(fs), |fs|, window)
  {
    if |fs| > 1 {
      var init, f := fs[..|fs| - 1], fs[|fs| - 1];
      ChainSourcesBound(init, window);
      SourcesGrow(Build(init), f);
      ChainSpan(init, window);
      SpanBoundedStep(Build(init), f, |init|, window);
    }
  }

  lemma SourcesGrow(p: Pending, f: Fragment)
    ensures |Merge(p, f).sources| == if f.source in p.sources then |p.sources| else |p.sources| + 1
  {
    if f.source in p.sources {
      assert p.sources + {f.source} == p.sources;
    }
  }

  lemma {:induction false} ChainSourcesBound(fs: seq<Fragment>, window: Ms)
    requires IsChain(fs, window)
    ensures 1 <= |Build(fs).sources| <= |fs|
  {
    if |fs| > 1 {
      ChainSourcesBound(fs[..|fs| - 1], window);
      SourcesGrow(Build(fs[..|fs| - 1]), fs[|fs| - 1]);
    }
  }

  /** Without a repeated ANR file the span is bounded by the collectors alone. */
  lemma ChainSpanWithoutRepeats(fs: seq<Fragment>, window: Ms)
    requires IsChain(fs, window)
    requires forall i, j :: 0 <= i < j < |fs| ==> fs[i].source != fs[j].source
    ensures |fs| == |Build(fs).sources|
    ensures Build(fs).lastMs - Build(fs).firstMs <= (|Build(fs).sources| - 1) * Skew(window)
  {
    ChainDistinctSources(fs, window);
    ChainSpan(fs, window);
    StepsIsProduct(|fs| - 1, Skew(window));
  }

  lemma {:induction false} ChainDistinctSources(fs: seq<Fragment>, window: Ms)
    requires IsChain(fs, window)
    requires forall i, j :: 0 <= i < j < |fs| ==> fs[i].source != fs[j].source
    ensures |fs| == |Build(fs).sources|
  {
    var n := |fs|;
    if n > 1 {
      var init := fs[..n - 1];
      ChainDistinctSources(init, window);
      ChainSources(init);
      SourcesOfMembers(init, fs[n - 1].source);
      assert forall i :: 0 <= i < n - 1 ==> init[i].source != fs[n - 1].source;
      SourcesGrow(Build(init), fs[n - 1]);
    }
  }

  /** The source keys of the fragments, each once, in arrival order. */
  function KeysOfFragments(fs: seq<Fragment>): seq<string> {
    if fs == [] then [] else MergeKeys(KeysOfFragments(fs[..|fs| - 1]), fs[|fs| - 1].sourceKey)
  }

  lemma {:induction false} ChainKeys(fs: seq<Fragment>)
    requires fs != []
    ensures Build(fs).sourceKeys == KeysOfFragments(fs)
  {
    if |fs| == 1 {
      assert fs[..0] == [];
    } else {
      ChainKeys(fs[..|fs| - 1]);
    }
  }

  lemma {:induction false} KeysCameFromFragments(fs: seq<Fragment>, key: string)
    ensures key in KeysOfFragments(fs) <==> exists i :: 0 <= i < |fs| && fs[i].sourceKey == Some(key)
  {
    if fs != [] {
      var n := |fs|;
      var init := fs[..n - 1];
      KeysCameFromFragments(init, key);
      if key in KeysOfFragments(fs) {
        if key in KeysOfFragments(init) {
          var i :| 0 <= i < |init| && init[i].sourceKey == Some(key);
          assert fs[i].sourceKey == Some(key);
        } else {
          assert fs[n - 1].sourceKey == Some(key);
        }
      }
      if i :| 0 <= i < n && fs[i].sourceKey == Some(key) {
        if i < n - 1 {
          assert init[i].sourceKey == Some(key);
        }
      }
    }
  }

  /** An occurrence carries a source key exactly when one of its sightings brought it. */
  lemma KeyCameFromFragment(fs: seq<Fragment>, key: string)
    requires fs != []
    ensures key in Build(fs).sourceKeys <==> exists i :: 0 <= i < |fs| && fs[i].sourceKey == Some(key)
  {
    ChainKeys(fs);
    KeysCameFromFragments(fs, key);
  }
}
