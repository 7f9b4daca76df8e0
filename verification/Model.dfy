/** The vocabulary shared by the collectors, the merger and the store. */
module Model {

  datatype Option<+T> = None | Some(value: T)

  /** Milliseconds since the epoch, as the source's signed 64-bit integers. */
  const I64_MIN: int := -0x8000_0000_0000_0000
  const I64_MAX: int := 0x7FFF_FFFF_FFFF_FFFF
  type Ms = x: int | I64_MIN <= x <= I64_MAX

  type I32 = x: int | -0x8000_0000 <= x <= 0x7FFF_FFFF

  type byte = x: int | 0 <= x < 256

  function MinMs(a: Ms, b: Ms): Ms { if a <= b then a else b }

  function MaxMs(a: Ms, b: Ms): Ms { if a >= b then a else b }

  function Distance(a: int, b: int): nat { if a >= b then a - b else b - a }

  /** How long sightings of one crash may lie apart, unless the merger is given another window. */
  const DEFAULT_MERGE_WINDOW_MS: Ms := 10_000

  /** SQLite's `LIKE` folds the case of ASCII letters and of nothing else. */
  function LowerAscii(c: char): char { if 'A' <= c <= 'Z' then c - 'A' + 'a' else c }

  lemma SubsetSize<T>(a: set<T>, b: set<T>)
    requires a <= b
    ensures |a| <= |b|
    ensures |a| == |b| ==> a == b
  {
    assert b == a + (b - a);
  }

  datatype CrashKind = JavaException | Anr | NativeCrash | Wtf

  /** One collector. A fragment names exactly one; a pending or stored crash carries a set. */
  datatype Source = Events | CrashBuffer | Dropbox | Tombstone | AnrFile

  type Sources = set<Source>

  datatype Quality = Text | Structured | Artifact | Protobuf

  /** The declaration order of the qualities is their order of preference. */
  function Rank(q: Quality): nat {
    match q
    case Text => 0
    case Structured => 1
    case Artifact => 2
    case Protobuf => 3
  }

  /** Where the bulky text of a crash comes from; a file is named by its path. */
  datatype PayloadSource = NoPayload | Inline(bytes: seq<byte>) | File(path: string)

  /** One sighting of a crash by one collector. */
  datatype Fragment = Fragment(
    source: Source,
    quality: Quality,
    kind: CrashKind,
    packageName: Option<string>,
    processName: string,
    userId: Option<int>,
    pid: int,
    happenedAtMs: Ms,
    versionName: Option<string>,
    versionCode: Option<int>,
    isSystem: Option<bool>,
    isForeground: Option<bool>,
    droppedCount: Option<nat>,
    summaryClass: Option<string>,
    summaryText: Option<string>,
    frames: seq<string>,
    payload: PayloadSource,
    sourceKey: Option<string>,
    sourceInstance: Option<string>)

  /** One merged occurrence, as handed to the store. `primary` and `frames` feed the fingerprint. */
  datatype CrashRecord = CrashRecord(
    kind: CrashKind,
    packageName: string,
    processName: string,
    userId: int,
    pid: int,
    happenedAtMs: Ms,
    versionName: Option<string>,
    versionCode: Option<int>,
    isSystemApp: bool,
    packageInstalled: bool,
    isForeground: Option<bool>,
    selfHandled: bool,
    droppedCount: Option<nat>,
    sources: Sources,
    summaryClass: Option<string>,
    summaryText: Option<string>,
    primary: string,
    frames: seq<string>,
    payload: PayloadSource)
}
