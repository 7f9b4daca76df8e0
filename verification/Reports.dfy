/**
 The record handed to the store, column by column, said of the sightings behind it.
 */
module Reports {
  import opened Model
  import opened Evidence
  import opened Ranking
  import opened Merger
  import opened Joining

  /** The column is empty when no sighting carries it, and otherwise holds the latest value among the
      best-ranked sightings that do. */
  ghost predicate Best<T(!new)>(fs: seq<Fragment>, v: Option<T>, get: Fragment -> Option<T>) {
    if v.None? then forall k :: 0 <= k < |fs| ==> get(fs[k]).None?
    else exists k :: Wins(fs, CarrierAt(fs, get), k) && get(fs[k]) == v
  }

  /** The same, with a default when no sighting carries it. */
  ghost predicate BestOr<T(!new)>(fs: seq<Fragment>, v: T, get: Fragment -> Option<T>, default: T) {
    Best(fs, Some(v), get) || (v == default && Best(fs, None, get))
  }

  /** Bulky evidence: the first sighting counts even when it brings none. */
  ghost predicate BestBody<T(!new)>(fs: seq<Fragment>, v: T, get: Fragment -> T, empty: T -> bool) {
    exists k :: Wins(fs, CountsFrom(fs, get, empty), k) && get(fs[k]) == v
  }

  /** The part of a process name before the first colon. */
  predicate IsPackagePart(package: string, process: string) {
    && package <= process && ':' !in package
    && (package == process || process[|package|] == ':')
  }

  /** What groups crashes: the class, else the text, else the kind. */
  function Primary(summaryClass: Option<string>, summaryText: Option<string>, kind: CrashKind): string {
    if summaryClass.Some? then summaryClass.value
    else if summaryText.Some? then summaryText.value
    else match kind
      case JavaException => "JavaException"
      case Anr => "Anr"
      case NativeCrash => "NativeCrash"
      case Wtf => "Wtf"
  }

  ghost predicate ReportsIdentity(r: CrashRecord, fs: seq<Fragment>) {
    && (forall i :: 0 <= i < |fs| ==> r.kind == fs[i].kind && r.processName == fs[i].processName)
    && (forall i :: 0 <= i < |fs| && fs[i].pid != 0 ==> r.pid == fs[i].pid)
    && (!KnowsPid(fs) ==> r.pid == 0)
    && (exists i :: IsEarliest(fs, i) && r.happenedAtMs == fs[i].happenedAtMs)
    && (forall s :: s in r.sources <==> Names(fs, s))
    && (r.selfHandled <==> r.kind == JavaException && Names(fs, CrashBuffer) && !Names(fs, Events))
  }

  /** Without a package the process name gives it, without a user it is the first. */
  ghost predicate ReportsOwner(r: CrashRecord, fs: seq<Fragment>) {
    && (Best(fs, Some(r.packageName), PackageOf)
        || (Best(fs, None, PackageOf) && IsPackagePart(r.packageName, r.processName)))
    && BestOr(fs, r.userId, UserOf, 0)
  }

  /** The largest count that a sighting reported, if any did. */
  predicate LargestDrop(fs: seq<Fragment>, v: Option<nat>) {
    && (forall i :: 0 <= i < |fs| && fs[i].droppedCount.Some? ==> v.Some? && fs[i].droppedCount.value <= v.value)
    && (v.Some? ==> exists i :: 0 <= i < |fs| && fs[i].droppedCount == v)
  }

  ghost predicate ReportsState(r: CrashRecord, fs: seq<Fragment>) {
    && Best(fs, r.versionName, VersionNameOf) && Best(fs, r.versionCode, VersionCodeOf)
    && BestOr(fs, r.isSystemApp, SystemOf, false) && r.packageInstalled
    && Best(fs, r.isForeground, ForegroundOf)
    && LargestDrop(fs, r.droppedCount)
  }

  ghost predicate ReportsEvidence(r: CrashRecord, fs: seq<Fragment>) {
    && Best(fs, r.summaryClass, ClassOf) && Best(fs, r.summaryText, TextOf)
    && r.primary == Primary(r.summaryClass, r.summaryText, r.kind)
    && BestBody(fs, r.frames, FramesOf, NoFrames)
    && BestBody(fs, r.payload, PayloadOf, PayloadMissing)
  }

  /** Every column of the record. */
  ghost predicate IsReport(r: CrashRecord, fs: seq<Fragment>) {
    ReportsIdentity(r, fs) && ReportsOwner(r, fs) && ReportsState(r, fs) && ReportsEvidence(r, fs)
  }

  lemma WinnerIsBest<T(!new)>(fs: seq<Fragment>, slot: Option<Ranked<T>>, get: Fragment -> Option<T>)
    requires HoldsWinner(fs, slot, get)
    ensures Best(fs, ValueOf(slot), get)
  {
    if slot.Some? {
      var k :| Wins(fs, CarrierAt(fs, get), k) && get(fs[k]) == Some(slot.value.value) && slot.value.quality == fs[k].quality;
    }
  }

  lemma WinnerIsBestBody<T(!new)>(fs: seq<Fragment>, slot: Ranked<T>, get: Fragment -> T, empty: T -> bool)
    requires SlotHoldsWinner(fs, slot, get, empty)
    ensures BestBody(fs, slot.value, get, empty)
  {
    var k :| Wins(fs, CountsFrom(fs, get, empty), k) && slot.value == get(fs[k]) && slot.quality == fs[k].quality;
  }

  lemma {:induction false} PackagePart(process: string)
    ensures IsPackagePart(PackageOfProcess(process), process)
  {
    if process != [] && process[0] != ':' {
      PackagePart(process[1..]);
      assert process == [process[0]] + process[1..];
    }
  }

  lemma FinishIdentity(fs: seq<Fragment>, id: nat, window: Ms)
    requires IsChain(fs, window)
    ensures ReportsIdentity(Finish(Build(fs), id).record, fs)
  {
    var p := Build(fs);
    ChainSums(fs, window);
    ChainCovered(fs, window);
    forall i | 0 <= i < |fs|
      ensures Covers(p, fs[i])
    {
    }
  }

  lemma FinishOwner(fs: seq<Fragment>, id: nat)
    requires fs != []
    ensures ReportsOwner(Finish(Build(fs), id).record, fs)
  {
    var p := Build(fs);
    FieldsHoldWinners(fs);
    WinnerIsBest(fs, p.package, PackageOf);
    WinnerIsBest(fs, p.user, UserOf);
    PackagePart(p.process);
  }

  lemma DropIsLargest(fs: seq<Fragment>)
    requires fs != []
    ensures LargestDrop(fs, Build(fs).dropped)
  {
    QualityAndDropsAreLargest(fs);
  }

  lemma FinishState(fs: seq<Fragment>, id: nat)
    requires fs != []
    ensures ReportsState(Finish(Build(fs), id).record, fs)
  {
    var p := Build(fs);
    FieldsHoldWinners(fs);
    DropIsLargest(fs);
    WinnerIsBest(fs, p.versionName, VersionNameOf);
    WinnerIsBest(fs, p.versionCode, VersionCodeOf);
    WinnerIsBest(fs, p.system, SystemOf);
    WinnerIsBest(fs, p.foreground, ForegroundOf);
  }

  lemma FinishEvidence(fs: seq<Fragment>, id: nat)
    requires fs != []
    ensures ReportsEvidence(Finish(Build(fs), id).record, fs)
  {
    var p := Build(fs);
    FieldsHoldWinners(fs);
    SlotsHoldWinners(fs);
    WinnerIsBest(fs, p.summaryClass, ClassOf);
    WinnerIsBest(fs, p.text, TextOf);
    WinnerIsBestBody(fs, p.frames, FramesOf, NoFrames);
    WinnerIsBestBody(fs, p.payload, PayloadOf, PayloadMissing);
  }

  /** Completing an occurrence reports its sightings in every column. */
  lemma FinishReports(fs: seq<Fragment>, id: nat, window: Ms)
    requires IsChain(fs, window)
    ensures IsReport(Finish(Build(fs), id).record, fs)
  {
    FinishIdentity(fs, id, window);
    FinishOwner(fs, id);
    FinishState(fs, id);
    FinishEvidence(fs, id);
  }

  // ---------------------------------------------------------------- the report is determined

  lemma OneWinner(fs: seq<Fragment>, counts: int -> bool, i: int, j: int)
    requires Wins(fs, counts, i) && Wins(fs, counts, j)
    ensures i == j
  {
  }

  lemma OneBest<T(!new)>(fs: seq<Fragment>, a: Option<T>, b: Option<T>, get: Fragment -> Option<T>)
    requires Best(fs, a, get) && Best(fs, b, get)
    ensures a == b
  {
    if a.Some? && b.Some? {
      var i :| Wins(fs, CarrierAt(fs, get), i) && get(fs[i]) == a;
      var j :| Wins(fs, CarrierAt(fs, get), j) && get(fs[j]) == b;
      OneWinner(fs, CarrierAt(fs, get), i, j);
    }
  }

  lemma OneBestOr<T(!new)>(fs: seq<Fragment>, a: T, b: T, get: Fragment -> Option<T>, default: T)
    requires BestOr(fs, a, get, default) && BestOr(fs, b, get, default)
    ensures a == b
  {
    OneBest(fs, if Best(fs, Some(a), get) then Some(a) else None, if Best(fs, Some(b), get) then Some(b) else None, get);
  }

  lemma OneBestBody<T(!new)>(fs: seq<Fragment>, a: T, b: T, get: Fragment -> T, empty: T -> bool)
    requires BestBody(fs, a, get, empty) && BestBody(fs, b, get, empty)
    ensures a == b
  {
    var i :| Wins(fs, CountsFrom(fs, get, empty), i) && get(fs[i]) == a;
    var j :| Wins(fs, CountsFrom(fs, get, empty), j) && get(fs[j]) == b;
    OneWinner(fs, CountsFrom(fs, get, empty), i, j);
  }

  lemma OnePackagePart(a: string, b: string, process: string)
    requires IsPackagePart(a, process) && IsPackagePart(b, process)
    ensures a == b
  {
  }

  lemma OnePackage(a: CrashRecord, b: CrashRecord, fs: seq<Fragment>)
    requires a.processName == b.processName && ReportsOwner(a, fs) && ReportsOwner(b, fs)
    ensures a.packageName == b.packageName
  {
    if Best(fs, None, PackageOf) {
      if Best(fs, Some(a.packageName), PackageOf) {
        OneBest(fs, Some(a.packageName), None, PackageOf);
      } else if Best(fs, Some(b.packageName), PackageOf) {
        OneBest(fs, Some(b.packageName), None, PackageOf);
      } else {
        OnePackagePart(a.packageName, b.packageName, a.processName);
      }
    } else {
      OneBest(fs, Some(a.packageName), Some(b.packageName), PackageOf);
    }
  }

  lemma OneIdentity(a: CrashRecord, b: CrashRecord, fs: seq<Fragment>)
    requires fs != [] && ReportsIdentity(a, fs) && ReportsIdentity(b, fs)
    ensures a.kind == b.kind && a.processName == b.processName
    ensures a.pid == b.pid && a.happenedAtMs == b.happenedAtMs && a.sources == b.sources && a.selfHandled == b.selfHandled
  {
    assert a.kind == fs[0].kind == b.kind && a.processName == fs[0].processName == b.processName;
    if i :| 0 <= i < |fs| && fs[i].pid != 0 {
      assert a.pid == fs[i].pid == b.pid;
    }
  }

  lemma OneVersion(a: CrashRecord, b: CrashRecord, fs: seq<Fragment>)
    requires Best(fs, a.versionName, VersionNameOf) && Best(fs, b.versionName, VersionNameOf)
    requires Best(fs, a.versionCode, VersionCodeOf) && Best(fs, b.versionCode, VersionCodeOf)
    ensures a.versionName == b.versionName && a.versionCode == b.versionCode
  {
    OneBest(fs, a.versionName, b.versionName, VersionNameOf);
    OneBest(fs, a.versionCode, b.versionCode, VersionCodeOf);
  }

  lemma OneSystem(a: CrashRecord, b: CrashRecord, fs: seq<Fragment>)
    requires BestOr(fs, a.isSystemApp, SystemOf, false) && BestOr(fs, b.isSystemApp, SystemOf, false)
    requires Best(fs, a.isForeground, ForegroundOf) && Best(fs, b.isForeground, ForegroundOf)
    ensures a.isSystemApp == b.isSystemApp && a.isForeground == b.isForeground
  {
    OneBestOr(fs, a.isSystemApp, b.isSystemApp, SystemOf, false);
    OneBest(fs, a.isForeground, b.isForeground, ForegroundOf);
  }

  lemma OneDrop(fs: seq<Fragment>, a: Option<nat>, b: Option<nat>)
    requires LargestDrop(fs, a) && LargestDrop(fs, b)
    ensures a == b
  {
  }

  lemma OneState(a: CrashRecord, b: CrashRecord, fs: seq<Fragment>)
    requires ReportsState(a, fs) && ReportsState(b, fs)
    ensures a.versionName == b.versionName && a.versionCode == b.versionCode && a.isSystemApp == b.isSystemApp
    ensures a.packageInstalled == b.packageInstalled && a.isForeground == b.isForeground && a.droppedCount == b.droppedCount
  {
    OneVersion(a, b, fs);
    OneSystem(a, b, fs);
    OneDrop(fs, a.droppedCount, b.droppedCount);
  }

  lemma OneEvidence(a: CrashRecord, b: CrashRecord, fs: seq<Fragment>)
    requires ReportsEvidence(a, fs) && ReportsEvidence(b, fs) && a.kind == b.kind
    ensures a.summaryClass == b.summaryClass && a.summaryText == b.summaryText && a.primary == b.primary
    ensures a.frames == b.frames && a.payload == b.payload
  {
    OneBest(fs, a.summaryClass, b.summaryClass, ClassOf);
    OneBest(fs, a.summaryText, b.summaryText, TextOf);
    OneBestBody(fs, a.frames, b.frames, FramesOf, NoFrames);
    OneBestBody(fs, a.payload, b.payload, PayloadOf, PayloadMissing);
  }

  /** The sightings leave no choice: two records that report the same ones are equal. */
  lemma ReportIsUnique(a: CrashRecord, b: CrashRecord, fs: seq<Fragment>)
    requires fs != [] && IsReport(a, fs) && IsReport(b, fs)
    ensures a == b
  {
    OneIdentity(a, b, fs);
    OnePackage(a, b, fs);
    OneBestOr(fs, a.userId, b.userId, UserOf, 0);
    OneState(a, b, fs);
    OneEvidence(a, b, fs);
  }
}
