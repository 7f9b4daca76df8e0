/**
 When an occurrence is handed out and how long it is remembered, said of its sightings: which
 evidence is complete at once, which settles in a quarter of a second, and what waits for the
 window.
 */
module Timing {
  import opened Model
  import opened Evidence
  import opened Ranking
  import opened Merger
  import opened Joining

  // ---------------------------------------------------------------- how long an occurrence waits

  /** Nothing worth waiting for is missing. */
  predicate Complete(fs: seq<Fragment>)
    requires fs != []
  {
    match fs[0].kind
    case JavaException => Names(fs, Events) && Names(fs, CrashBuffer)
    case NativeCrash =>
      Names(fs, Events) && Names(fs, Tombstone) && exists i :: 0 <= i < |fs| && fs[i].quality == Protobuf
    case Anr => Names(fs, Events) && Names(fs, AnrFile)
    case Wtf => Names(fs, Events) || Names(fs, Dropbox)
  }

  /** A body with its user is there; only a richer artefact may still come. */
  predicate Settles(fs: seq<Fragment>)
    requires fs != []
  {
    && KnowsUser(fs) && fs[0].kind != Wtf
    && (Names(fs, Dropbox) || (fs[0].kind == NativeCrash && Names(fs, Tombstone)))
  }

  /** The milliseconds it waits after its latest sighting. */
  function Wait(fs: seq<Fragment>, window: Ms): Ms
    requires fs != []
  {
    if Complete(fs) then 0 else if Settles(fs) then 250 else window
  }

  lemma ProtobufExactly(fs: seq<Fragment>)
    requires fs != []
    ensures Build(fs).kind.quality == Protobuf <==> exists i :: 0 <= i < |fs| && fs[i].quality == Protobuf
  {
    QualityAndDropsAreLargest(fs);
    if i :| 0 <= i < |fs| && fs[i].quality == Protobuf {
      assert Rank(fs[i].quality) <= Rank(Build(fs).kind.quality);
    }
  }

  /** A pending occurrence waits as its sightings say. */
  lemma DelayExactly(fs: seq<Fragment>, window: Ms)
    requires IsChain(fs, window)
    ensures CompletionDelay(Build(fs), window) == Wait(fs, window)
  {
    ChainSums(fs, window);
    ChainCovered(fs, window);
    ProtobufExactly(fs);
    assert Covers(Build(fs), fs[0]);
  }

  /** The moment `watermark` is past the wait after the latest sighting; sums stay in 64 bits. */
  ghost predicate Expired(fs: seq<Fragment>, window: Ms, watermark: Ms) {
    && fs != [] && watermark > I64_MIN
    && exists i :: IsLatest(fs, i) && fs[i].happenedAtMs + Wait(fs, window) < watermark
  }

  lemma OverdueExactly(fs: seq<Fragment>, window: Ms, watermark: Ms)
    requires IsChain(fs, window)
    ensures Overdue(Build(fs), window, watermark) <==> Expired(fs, window, watermark)
  {
    DelayExactly(fs, window);
    ChainSums(fs, window);
    var last :| IsLatest(fs, last) && Build(fs).lastMs == fs[last].happenedAtMs;
    if Expired(fs, window, watermark) {
      var i :| IsLatest(fs, i) && fs[i].happenedAtMs + Wait(fs, window) < watermark;
      assert fs[i].happenedAtMs == fs[last].happenedAtMs;
    }
  }
}
