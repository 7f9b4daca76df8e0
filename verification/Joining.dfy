/**
 Which sightings meet, said of the sightings themselves: when a further sighting joins an
 occurrence, when a completed occurrence absorbs it, and how long an occurrence waits.
 */
module Joining {
  import opened Model
  import opened Evidence
  import opened Merger

  // ---------------------------------------------------------------- who fits

  predicate Names(fs: seq<Fragment>, s: Source) { exists i :: 0 <= i < |fs| && fs[i].source == s }

  predicate KnowsPid(fs: seq<Fragment>) { exists i :: 0 <= i < |fs| && fs[i].pid != 0 }

  predicate KnowsUser(fs: seq<Fragment>) { exists i :: 0 <= i < |fs| && fs[i].userId.Some? }

  /** No sighting contradicts the further one, and pid or user are known on both sides. */
  predicate Agrees(fs: seq<Fragment>, f: Fragment) {
    && (forall i :: 0 <= i < |fs| ==> SameOccurrence(fs[i], f))
    && ((KnowsPid(fs) && f.pid != 0) || (KnowsUser(fs) && f.userId.Some?))
  }

  /** The further sighting reopened an ANR file that one of them came from. */
  predicate SameFile(fs: seq<Fragment>, f: Fragment) {
    && f.kind == Anr && f.source == AnrFile && f.sourceInstance.Some?
    && exists i :: 0 <= i < |fs| && fs[i].source == AnrFile && fs[i].sourceInstance == f.sourceInstance
  }

  predicate IsEarliest(fs: seq<Fragment>, i: int) {
    0 <= i < |fs| && forall j :: 0 <= j < |fs| ==> fs[i].happenedAtMs <= fs[j].happenedAtMs
  }

  /** The sighting lies within `bound` milliseconds of the earliest one. */
  ghost predicate Near(fs: seq<Fragment>, f: Fragment, bound: int) {
    exists i :: IsEarliest(fs, i) && -bound <= fs[i].happenedAtMs - f.happenedAtMs <= bound
  }

  /** Companions of one crash lie at most two seconds apart, less if the window is shorter. */
  ghost predicate NearCompanion(fs: seq<Fragment>, f: Fragment, window: Ms) {
    Near(fs, f, if window < 0 then 0 else if window < 2_000 then window else 2_000)
  }

  /** Further dumps of one ANR file may take the whole window; a negative one admits any distance. */
  ghost predicate NearDump(fs: seq<Fragment>, f: Fragment, window: Ms) { window < 0 || Near(fs, f, window) }

  /** The sighting joins the occurrence that the others built. */
  ghost predicate Fits(fs: seq<Fragment>, f: Fragment, window: Ms) {
    && Agrees(fs, f)
    && (if SameFile(fs, f) then NearDump(fs, f, window) else !Names(fs, f.source) && NearCompanion(fs, f, window))
  }

  /** The completed occurrence absorbs the sighting: after an ANR file, a dropbox entry has the
      whole window too. */
  ghost predicate FitsLate(fs: seq<Fragment>, f: Fragment, window: Ms) {
    && Agrees(fs, f)
    && (if SameFile(fs, f) then NearDump(fs, f, window)
        else
          && !Names(fs, f.source)
          && (if f.kind == Anr && f.source == Dropbox && Names(fs, AnrFile) then NearDump(fs, f, window)
              else NearCompanion(fs, f, window)))
  }

  // ---------------------------------------------------------------- what an occurrence remembers of its sightings

  predicate IsLatest(fs: seq<Fragment>, i: int) {
    0 <= i < |fs| && forall j :: 0 <= j < |fs| ==> fs[j].happenedAtMs <= fs[i].happenedAtMs
  }

  /** Some ANR-file sighting names the file. */
  predicate FromFile(fs: seq<Fragment>, x: string) {
    exists i :: 0 <= i < |fs| && fs[i].source == AnrFile && fs[i].sourceInstance == Some(x)
  }

  ghost predicate SumsIdentity(p: Pending, fs: seq<Fragment>) {
    && (p.pid != 0 <==> KnowsPid(fs))
    && (p.user.Some? <==> KnowsUser(fs))
    && forall s :: s in p.sources <==> Names(fs, s)
  }

  ghost predicate SumsFile(p: Pending, fs: seq<Fragment>) {
    && (p.anrFile.Some? ==> AnrFile in p.sources)
    && forall x: string :: p.anrFile == Some(x) <==> FromFile(fs, x)
  }

  ghost predicate SumsTimes(p: Pending, fs: seq<Fragment>) {
    && (exists i :: IsEarliest(fs, i) && p.firstMs == fs[i].happenedAtMs)
    && (exists i :: IsLatest(fs, i) && p.lastMs == fs[i].happenedAtMs)
  }

  /** The columns the rules look at, said of the sightings. */
  ghost predicate Sums(p: Pending, fs: seq<Fragment>) { SumsIdentity(p, fs) && SumsFile(p, fs) && SumsTimes(p, fs) }

  lemma NamesGrow(fs: seq<Fragment>, f: Fragment, s: Source)
    ensures Names(fs + [f], s) <==> Names(fs, s) || f.source == s
  {
    assert (fs + [f])[|fs|] == f;
    if i :| 0 <= i < |fs| && fs[i].source == s {
      assert (fs + [f])[i] == fs[i];
    }
  }

  lemma KnowledgeGrows(fs: seq<Fragment>, f: Fragment)
    ensures KnowsPid(fs + [f]) <==> KnowsPid(fs) || f.pid != 0
    ensures KnowsUser(fs + [f]) <==> KnowsUser(fs) || f.userId.Some?
  {
    assert (fs + [f])[|fs|] == f;
    if i :| 0 <= i < |fs| && fs[i].pid != 0 {
      assert (fs + [f])[i] == fs[i];
    }
    if i :| 0 <= i < |fs| && fs[i].userId.Some? {
      assert (fs + [f])[i] == fs[i];
    }
  }

  lemma IdentityStep(p: Pending, fs: seq<Fragment>, f: Fragment)
    requires SumsIdentity(p, fs)
    ensures SumsIdentity(Merge(p, f), fs + [f])
  {
    KnowledgeGrows(fs, f);
    forall s
      ensures s in Merge(p, f).sources <==> Names(fs + [f], s)
    {
      NamesGrow(fs, f, s);
    }
  }

  lemma FilesGrow(fs: seq<Fragment>, f: Fragment, x: string)
    ensures FromFile(fs + [f], x) <==> FromFile(fs, x) || (f.source == AnrFile && f.sourceInstance == Some(x))
  {
    assert (fs + [f])[|fs|] == f;
    if i :| 0 <= i < |fs| && fs[i].source == AnrFile && fs[i].sourceInstance == Some(x) {
      assert (fs + [f])[i] == fs[i];
    }
  }

  lemma FileStep(p: Pending, fs: seq<Fragment>, f: Fragment, window: Ms)
    requires SumsFile(p, fs) && PendingMatches(p, f, window)
    ensures SumsFile(Merge(p, f), fs + [f])
  {
    forall x: string
      ensures Merge(p, f).anrFile == Some(x) <==> FromFile(fs + [f], x)
    {
      FilesGrow(fs, f, x);
    }
  }

  lemma TimesStep(p: Pending, fs: seq<Fragment>, f: Fragment)
    requires SumsTimes(p, fs)
    ensures SumsTimes(Merge(p, f), fs + [f])
  {
    var all := fs + [f];
    var first :| IsEarliest(fs, first) && p.firstMs == fs[first].happenedAtMs;
    var last :| IsLatest(fs, last) && p.lastMs == fs[last].happenedAtMs;
    assert forall i :: 0 <= i < |fs| ==> all[i] == fs[i];
    assert IsEarliest(all, if f.happenedAtMs < p.firstMs then |fs| else first);
    assert IsLatest(all, if f.happenedAtMs > p.lastMs then |fs| else last);
  }

  lemma SumsStep(p: Pending, fs: seq<Fragment>, f: Fragment, window: Ms)
    requires Sums(p, fs) && PendingMatches(p, f, window)
    ensures Sums(Merge(p, f), fs + [f])
  {
    IdentityStep(p, fs, f);
    FileStep(p, fs, f, window);
    TimesStep(p, fs, f);
  }

  lemma SumsOne(fs: seq<Fragment>)
    requires |fs| == 1
    ensures Sums(Open(fs[0]), fs)
  {
    assert IsEarliest(fs, 0) && IsLatest(fs, 0);
  }

  /** What holds of one sighting and is kept by each that is admitted holds of a chain. */
  lemma {:induction false} ByArrival(holds: (Pending, seq<Fragment>) -> bool, fs: seq<Fragment>, window: Ms)
    requires IsChain(fs, window) && forall gs: seq<Fragment> :: |gs| == 1 ==> holds(Open(gs[0]), gs)
    requires forall p, gs, f :: holds(p, gs) && PendingMatches(p, f, window) ==> holds(Merge(p, f), gs + [f])
    ensures holds(Build(fs), fs)
  {
    var n := |fs|;
    if n > 1 {
      ByArrival(holds, fs[..n - 1], window);
      assert fs == fs[..n - 1] + [fs[n - 1]];
    }
  }

  lemma ChainSums(fs: seq<Fragment>, window: Ms)
    requires IsChain(fs, window)
    ensures Sums(Build(fs), fs)
  {
    var sums := (p: Pending, gs: seq<Fragment>) => Sums(p, gs);
    forall gs: seq<Fragment> | |gs| == 1
      ensures sums(Open(gs[0]), gs)
    {
      SumsOne(gs);
    }
    forall p, gs, f | sums(p, gs) && PendingMatches(p, f, window)
      ensures sums(Merge(p, f), gs + [f])
    {
      SumsStep(p, gs, f, window);
    }
    ByArrival(sums, fs, window);
  }

  // ---------------------------------------------------------------- the rules, exactly

  lemma AgreesExactly(fs: seq<Fragment>, f: Fragment, window: Ms)
    requires IsChain(fs, window)
    ensures var p := Build(fs);
            Agrees(fs, f)
            <==> IdentityMatches(p.pid, ValueOf(p.user), f.pid, f.userId) && p.process == f.processName && p.kind.value == f.kind
  {
    var p := Build(fs);
    ChainSums(fs, window);
    ChainCovered(fs, window);
    assert Covers(p, fs[0]);
    if Agrees(fs, f) {
      assert SameOccurrence(fs[0], f);
      if i :| 0 <= i < |fs| && fs[i].pid != 0 {
        assert Covers(p, fs[i]) && SameOccurrence(fs[i], f);
      }
      if i :| 0 <= i < |fs| && fs[i].userId.Some? {
        assert Covers(p, fs[i]) && SameOccurrence(fs[i], f);
      }
    } else {
      forall i | 0 <= i < |fs|
        ensures Covers(p, fs[i])
      {
      }
    }
  }

  lemma NearExactly(fs: seq<Fragment>, f: Fragment, window: Ms, bound: int)
    requires IsChain(fs, window) && bound >= 0
    ensures Near(fs, f, bound) <==> Distance(Build(fs).firstMs, f.happenedAtMs) <= bound
  {
    ChainSums(fs, window);
    var first :| IsEarliest(fs, first) && Build(fs).firstMs == fs[first].happenedAtMs;
    if Near(fs, f, bound) {
      var i :| IsEarliest(fs, i) && -bound <= fs[i].happenedAtMs - f.happenedAtMs <= bound;
      assert fs[i].happenedAtMs == fs[first].happenedAtMs;
    }
  }

  lemma SameFileExactly(fs: seq<Fragment>, f: Fragment, window: Ms)
    requires IsChain(fs, window) && Build(fs).kind.value == f.kind
    ensures SameFile(fs, f) <==> RepeatsAnrFile(Build(fs).kind.value, Build(fs).sources, Build(fs).anrFile, f)
  {
    ChainSums(fs, window);
    if f.sourceInstance.Some? {
      assert Build(fs).anrFile == Some(f.sourceInstance.value) <==> FromFile(fs, f.sourceInstance.value);
    }
  }

  /** A further sighting is admitted by a waiting occurrence exactly when it fits its sightings: no
      contradiction, pid or user known on both sides, a collector not heard yet and at most two
      seconds from the earliest, or the same ANR file within the window. */
  lemma JoinsExactly(fs: seq<Fragment>, f: Fragment, window: Ms)
    requires IsChain(fs, window)
    ensures PendingMatches(Build(fs), f, window) <==> Fits(fs, f, window)
  {
    AgreesExactly(fs, f, window);
    if Build(fs).kind.value == f.kind {
      SameFileExactly(fs, f, window);
      ChainSums(fs, window);
      NearExactly(fs, f, window, Skew(window));
      if window >= 0 {
        NearExactly(fs, f, window, window);
      }
    }
  }

  /** What a completion remembers absorbs a sighting exactly when it fits late. */
  lemma AbsorbsExactly(r: Recent, fs: seq<Fragment>, f: Fragment, window: Ms)
    requires IsChain(fs, window) && r.(persisted := false) == RecentOf(Build(fs), r.completionId)
    ensures RecentMatches(r, f, window) <==> FitsLate(fs, f, window)
  {
    var p := Build(fs);
    assert r.pid == p.pid && r.user == ValueOf(p.user) && r.kind == p.kind.value && r.process == p.process;
    assert r.sources == p.sources && r.anrFile == p.anrFile && r.firstMs == p.firstMs;
    AgreesExactly(fs, f, window);
    if p.kind.value == f.kind {
      SameFileExactly(fs, f, window);
      ChainSums(fs, window);
      NearExactly(fs, f, window, Skew(window));
      if window >= 0 {
        NearExactly(fs, f, window, window);
      }
    }
  }
}
