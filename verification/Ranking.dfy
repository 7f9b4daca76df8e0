/**
 What the ranked fields of a folded occurrence hold, for any number of fragments in any
 order: a declarative winner for each field, and the one case where an empty frame list or
 payload survives evidence that could have filled it.
 */
module Ranking {
  import opened Model
  import opened Evidence

  /** Fragment `k` is the latest of the best-ranked fragments for which `counts` holds. */
  ghost predicate Wins(fs: seq<Fragment>, counts: int -> bool, k: int) {
    && 0 <= k < |fs|
    && counts(k)
    && forall j :: 0 <= j < |fs| && counts(j) ==>
         Rank(fs[j].quality) < Rank(fs[k].quality) || (fs[j].quality == fs[k].quality && j <= k)
  }

  /** One more fragment either takes over or leaves the winner where it was. */
  lemma WinsStep(fs: seq<Fragment>, before: int -> bool, after: int -> bool, k: int)
    requires fs != [] && Wins(fs[..|fs| - 1], before, k)
    requires forall j :: 0 <= j < |fs| - 1 ==> before(j) == after(j)
    ensures after(|fs| - 1) && Rank(fs[|fs| - 1].quality) >= Rank(fs[k].quality) ==> Wins(fs, after, |fs| - 1)
    ensures !(after(|fs| - 1) && Rank(fs[|fs| - 1].quality) >= Rank(fs[k].quality)) ==> Wins(fs, after, k)
  {
    var init := fs[..|fs| - 1];
    assert forall j :: 0 <= j < |init| ==> init[j] == fs[j];
    assert before(k) == after(k);
    forall j | 0 <= j < |init| && after(j)
      ensures Rank(fs[j].quality) < Rank(fs[k].quality) || (fs[j].quality == fs[k].quality && j <= k)
    {
      assert before(j) && init[j] == fs[j] && init[k] == fs[k];
    }
  }

  // ---------------------------------------------------------------- optional fields

  function CarrierAt<T>(fs: seq<Fragment>, get: Fragment -> Option<T>): int -> bool {
    k => 0 <= k < |fs| && get(fs[k]).Some?
  }

  /** An optional field is absent when no fragment carries it, and otherwise holds the winner's. */
  ghost predicate HoldsWinner<T(!new)>(fs: seq<Fragment>, slot: Option<Ranked<T>>, get: Fragment -> Option<T>) {
    if slot.None? then forall k :: 0 <= k < |fs| ==> get(fs[k]).None?
    else exists k :: Wins(fs, CarrierAt(fs, get), k)
                     && get(fs[k]) == Some(slot.value.value) && slot.value.quality == fs[k].quality
  }

  function FoldField<T>(fs: seq<Fragment>, get: Fragment -> Option<T>): Option<Ranked<T>> {
    if fs == [] then None
    else MergeRanked(FoldField(fs[..|fs| - 1], get), fs[|fs| - 1].quality, get(fs[|fs| - 1]))
  }

  lemma {:induction false} FoldFieldHoldsWinner<T(!new)>(fs: seq<Fragment>, get: Fragment -> Option<T>)
    ensures HoldsWinner(fs, FoldField(fs, get), get)
  {
    if fs != [] {
      var n := |fs|;
      var init, last := fs[..n - 1], fs[n - 1];
      FoldFieldHoldsWinner(init, get);
      var before, after := FoldField(init, get), FoldField(fs, get);
      assert forall k :: 0 <= k < n - 1 ==> init[k] == fs[k];
      if before.Some? {
        var k :| Wins(init, CarrierAt(init, get), k)
                 && get(init[k]) == Some(before.value.value) && before.value.quality == init[k].quality;
        WinsStep(fs, CarrierAt(init, get), CarrierAt(fs, get), k);
      } else if get(last).Some? {
        assert Wins(fs, CarrierAt(fs, get), n - 1);
      }
    }
  }

  /** There is at most one winner, so `HoldsWinner` determines the slot. */
  lemma WinnerIsUnique<T(!new)>(fs: seq<Fragment>, a: Option<Ranked<T>>, b: Option<Ranked<T>>, get: Fragment -> Option<T>)
    requires HoldsWinner(fs, a, get) && HoldsWinner(fs, b, get)
    ensures a == b
  {
    if a.Some? && b.Some? {
      var i :| Wins(fs, CarrierAt(fs, get), i) && get(fs[i]) == Some(a.value.value) && a.value.quality == fs[i].quality;
      var j :| Wins(fs, CarrierAt(fs, get), j) && get(fs[j]) == Some(b.value.value) && b.value.quality == fs[j].quality;
      assert CarrierAt(fs, get)(i) && CarrierAt(fs, get)(j);
      assert i == j;
    }
  }

  function PackageOf(f: Fragment): Option<string> { f.packageName }
  function UserOf(f: Fragment): Option<int> { f.userId }
  function VersionNameOf(f: Fragment): Option<string> { f.versionName }
  function VersionCodeOf(f: Fragment): Option<int> { f.versionCode }
  function SystemOf(f: Fragment): Option<bool> { f.isSystem }
  function ForegroundOf(f: Fragment): Option<bool> { f.isForeground }
  function ClassOf(f: Fragment): Option<string> { f.summaryClass }
  function TextOf(f: Fragment): Option<string> { f.summaryText }

  lemma {:induction false} BuildFoldsFields(fs: seq<Fragment>)
    requires fs != []
    ensures Build(fs).package == FoldField(fs, PackageOf)
    ensures Build(fs).user == FoldField(fs, UserOf)
    ensures Build(fs).versionName == FoldField(fs, VersionNameOf)
    ensures Build(fs).versionCode == FoldField(fs, VersionCodeOf)
    ensures Build(fs).system == FoldField(fs, SystemOf)
    ensures Build(fs).foreground == FoldField(fs, ForegroundOf)
    ensures Build(fs).summaryClass == FoldField(fs, ClassOf)
    ensures Build(fs).text == FoldField(fs, TextOf)
  {
    if |fs| > 1 {
      BuildFoldsFields(fs[..|fs| - 1]);
    }
  }

  /** Each optional field of the folded occurrence is the last-arriving value among the
      best-ranked fragments that carry it. */
  lemma FieldsHoldWinners(fs: seq<Fragment>)
    requires fs != []
    ensures HoldsWinner(fs, Build(fs).package, PackageOf)
    ensures HoldsWinner(fs, Build(fs).user, UserOf)
    ensures HoldsWinner(fs, Build(fs).versionName, VersionNameOf)
    ensures HoldsWinner(fs, Build(fs).versionCode, VersionCodeOf)
    ensures HoldsWinner(fs, Build(fs).system, SystemOf)
    ensures HoldsWinner(fs, Build(fs).foreground, ForegroundOf)
    ensures HoldsWinner(fs, Build(fs).summaryClass, ClassOf)
    ensures HoldsWinner(fs, Build(fs).text, TextOf)
  {
    BuildFoldsFields(fs);
    FoldFieldHoldsWinner(fs, PackageOf);
    FoldFieldHoldsWinner(fs, UserOf);
    FoldFieldHoldsWinner(fs, VersionNameOf);
    FoldFieldHoldsWinner(fs, VersionCodeOf);
    FoldFieldHoldsWinner(fs, SystemOf);
    FoldFieldHoldsWinner(fs, ForegroundOf);
    FoldFieldHoldsWinner(fs, ClassOf);
    FoldFieldHoldsWinner(fs, TextOf);
  }

  // ---------------------------------------------------------------- frames and payload

  /** Frames and payload: the first fragment counts even when it brings nothing. */
  function CountsFrom<T>(fs: seq<Fragment>, get: Fragment -> T, empty: T -> bool): int -> bool {
    k => 0 <= k < |fs| && (k == 0 || !empty(get(fs[k])))
  }

  ghost predicate SlotHoldsWinner<T(!new)>(fs: seq<Fragment>, slot: Ranked<T>, get: Fragment -> T, empty: T -> bool) {
    exists k :: Wins(fs, CountsFrom(fs, get, empty), k)
                && slot.value == get(fs[k]) && slot.quality == fs[k].quality
  }

  function MergeSlot<T>(slot: Ranked<T>, q: Quality, v: T, empty: T -> bool): Ranked<T> {
    if !empty(v) && (empty(slot.value) || Rank(q) >= Rank(slot.quality)) then Replace(slot, q, v) else slot
  }

  function FoldSlot<T>(fs: seq<Fragment>, get: Fragment -> T, empty: T -> bool): Ranked<T>
    requires fs != []
  {
    var n := |fs|;
    if n == 1 then Ranked(fs[0].quality, get(fs[0]))
    else MergeSlot(FoldSlot(fs[..n - 1], get, empty), fs[n - 1].quality, get(fs[n - 1]), empty)
  }

  lemma {:induction false} FoldSlotHoldsWinner<T(!new)>(fs: seq<Fragment>, get: Fragment -> T, empty: T -> bool)
    requires fs != []
    ensures SlotHoldsWinner(fs, FoldSlot(fs, get, empty), get, empty)
  {
    var n := |fs|;
    if n == 1 {
      assert Wins(fs, CountsFrom(fs, get, empty), 0);
    } else {
      var init, last := fs[..n - 1], fs[n - 1];
      FoldSlotHoldsWinner(init, get, empty);
      var before := FoldSlot(init, get, empty);
      var k :| Wins(init, CountsFrom(init, get, empty), k)
               && before.value == get(init[k]) && before.quality == init[k].quality;
      WinsStep(fs, CountsFrom(init, get, empty), CountsFrom(fs, get, empty), k);
      assert init[k] == fs[k];
      assert CountsFrom(fs, get, empty)(n - 1) == !empty(get(last));
      assert FoldSlot(fs, get, empty) == if !empty(get(last)) && Rank(last.quality) >= Rank(before.quality)
                                         then Ranked(last.quality, get(last)) else before;
    }
  }

  /** The slot stays empty exactly when the first fragment brought nothing and every later
      carrier ranked below it. */
  lemma SlotEmptyExactly<T(!new)>(fs: seq<Fragment>, slot: Ranked<T>, get: Fragment -> T, empty: T -> bool)
    requires fs != [] && SlotHoldsWinner(fs, slot, get, empty)
    ensures empty(slot.value) <==>
            && empty(get(fs[0]))
            && forall j :: 0 < j < |fs| && !empty(get(fs[j])) ==> Rank(fs[j].quality) < Rank(fs[0].quality)
  {
    var counts := CountsFrom(fs, get, empty);
    var k :| Wins(fs, counts, k) && slot.value == get(fs[k]) && slot.quality == fs[k].quality;
    assert counts(0) && counts(k);
    if empty(slot.value) {
      forall j | 0 < j < |fs| && !empty(get(fs[j]))
        ensures Rank(fs[j].quality) < Rank(fs[0].quality)
      {
        assert counts(j);
      }
    } else if k > 0 {
      assert !empty(get(fs[k])) && Rank(fs[k].quality) >= Rank(fs[0].quality);
    }
  }

  function FramesOf(f: Fragment): seq<string> { f.frames }
  function NoFrames(v: seq<string>): bool { v == [] }
  function PayloadOf(f: Fragment): PayloadSource { f.payload }
  function PayloadMissing(v: PayloadSource): bool { v.NoPayload? }

  lemma {:induction false} BuildFoldsSlots(fs: seq<Fragment>)
    requires fs != []
    ensures Build(fs).frames == FoldSlot(fs, FramesOf, NoFrames)
    ensures Build(fs).payload == FoldSlot(fs, PayloadOf, PayloadMissing)
  {
    if |fs| > 1 {
      BuildFoldsSlots(fs[..|fs| - 1]);
    }
  }

  /** Frames and payload hold the winner, counting the first fragment, and stay empty exactly
      when the first was empty and every later carrier had lower quality. */
  lemma SlotsHoldWinners(fs: seq<Fragment>)
    requires fs != []
    ensures SlotHoldsWinner(fs, Build(fs).frames, FramesOf, NoFrames)
    ensures SlotHoldsWinner(fs, Build(fs).payload, PayloadOf, PayloadMissing)
    ensures Build(fs).frames.value == [] <==>
            && fs[0].frames == []
            && forall j :: 0 < j < |fs| && fs[j].frames != [] ==> Rank(fs[j].quality) < Rank(fs[0].quality)
    ensures Build(fs).payload.value.NoPayload? <==>
            && fs[0].payload.NoPayload?
            && forall j :: 0 < j < |fs| && !fs[j].payload.NoPayload? ==> Rank(fs[j].quality) < Rank(fs[0].quality)
  {
    BuildFoldsSlots(fs);
    FoldSlotHoldsWinner(fs, FramesOf, NoFrames);
    FoldSlotHoldsWinner(fs, PayloadOf, PayloadMissing);
    SlotEmptyExactly(fs, Build(fs).frames, FramesOf, NoFrames);
    SlotEmptyExactly(fs, Build(fs).payload, PayloadOf, PayloadMissing);
  }

  // ---------------------------------------------------------------- the intended slot rule

  /** The rule the outer guard reads as: anything fills an empty slot. */
  function MergeSlotIntended<T>(slot: Ranked<T>, q: Quality, v: T, empty: T -> bool): Ranked<T> {
    if !empty(v) && (empty(slot.value) || Rank(q) >= Rank(slot.quality)) then Ranked(q, v) else slot
  }

  function FoldSlotIntended<T>(fs: seq<Fragment>, get: Fragment -> T, empty: T -> bool): Ranked<T>
    requires fs != []
  {
    var n := |fs|;
    if n == 1 then Ranked(fs[0].quality, get(fs[0]))
    else MergeSlotIntended(FoldSlotIntended(fs[..n - 1], get, empty), fs[n - 1].quality, get(fs[n - 1]), empty)
  }

  /** Some fragment after the first carries a value. */
  predicate LaterCarrier<T>(fs: seq<Fragment>, get: Fragment -> T, empty: T -> bool) {
    exists j :: 0 < j < |fs| && !empty(get(fs[j]))
  }

  /** Some fragment after the first carries a value and ranks no lower than the first. */
  predicate LaterEqualCarrier<T>(fs: seq<Fragment>, get: Fragment -> T, empty: T -> bool) {
    exists j :: 0 < j < |fs| && !empty(get(fs[j])) && Rank(fs[j].quality) >= Rank(fs[0].quality)
  }

  /** One more sighting may be one more carrier. */
  lemma CarriersGrow<T>(init: seq<Fragment>, last: Fragment, get: Fragment -> T, empty: T -> bool)
    requires init != []
    ensures LaterCarrier(init + [last], get, empty) <==> LaterCarrier(init, get, empty) || !empty(get(last))
    ensures LaterEqualCarrier(init + [last], get, empty)
            <==> LaterEqualCarrier(init, get, empty) || (!empty(get(last)) && Rank(last.quality) >= Rank(init[0].quality))
  {
    var fs := init + [last];
    assert fs[|init|] == last;
    if LaterCarrier(init, get, empty) {
      var j :| 0 < j < |init| && !empty(get(init[j]));
      assert !empty(get(fs[j]));
    }
    if LaterEqualCarrier(init, get, empty) {
      var j :| 0 < j < |init| && !empty(get(init[j])) && Rank(init[j].quality) >= Rank(init[0].quality);
      assert !empty(get(fs[j])) && Rank(fs[j].quality) >= Rank(fs[0].quality);
    }
  }

  lemma {:induction false} IntendedRelation<T>(fs: seq<Fragment>, get: Fragment -> T, empty: T -> bool)
    requires fs != []
    ensures var code, intent := FoldSlot(fs, get, empty), FoldSlotIntended(fs, get, empty);
            if !empty(get(fs[0])) || !LaterCarrier(fs, get, empty) || LaterEqualCarrier(fs, get, empty)
            then code == intent && (!empty(get(fs[0])) || LaterEqualCarrier(fs, get, empty) ==> !empty(code.value))
                 && Rank(code.quality) >= Rank(fs[0].quality)
                 && (!LaterCarrier(fs, get, empty) ==> code == Ranked(fs[0].quality, get(fs[0])))
            else code == Ranked(fs[0].quality, get(fs[0])) && !empty(intent.value)
                 && Rank(intent.quality) < Rank(fs[0].quality)
  {
    var n := |fs|;
    if n > 1 {
      var init, last := fs[..n - 1], fs[n - 1];
      IntendedRelation(init, get, empty);
      CarriersGrow(init, last, get, empty);
      assert fs == init + [last];
    }
  }

  /** The frames kept are the ones the outer guard intends exactly when the first fragment had
      frames, or no later one had, or a later one at least as good as the first had. */
  lemma FramesAsIntendedExactly(fs: seq<Fragment>)
    requires fs != []
    ensures Build(fs).frames.value == FoldSlotIntended(fs, FramesOf, NoFrames).value <==>
            fs[0].frames != [] || !LaterCarrier(fs, FramesOf, NoFrames) || LaterEqualCarrier(fs, FramesOf, NoFrames)
  {
    BuildFoldsSlots(fs);
    IntendedRelation(fs, FramesOf, NoFrames);
  }

  lemma PayloadAsIntendedExactly(fs: seq<Fragment>)
    requires fs != []
    ensures Build(fs).payload.value == FoldSlotIntended(fs, PayloadOf, PayloadMissing).value <==>
            || !fs[0].payload.NoPayload?
            || !LaterCarrier(fs, PayloadOf, PayloadMissing)
            || LaterEqualCarrier(fs, PayloadOf, PayloadMissing)
  {
    BuildFoldsSlots(fs);
    IntendedRelation(fs, PayloadOf, PayloadMissing);
  }

  function Sighting(source: Source, quality: Quality, payload: PayloadSource): Fragment {
    Fragment(source, quality, JavaException, None, "app", None, 42, 0, None, None, None, None, None, None, None,
             [], payload, None, None)
  }

  /** The failing family is inhabited: an events sighting without a body, then a crash-buffer
      sighting of lower quality with one, join into one occurrence that still has no payload. */
  lemma LowerRankedPayloadIsLost(body: seq<byte>)
    ensures var fs := [Sighting(Events, Structured, NoPayload), Sighting(CrashBuffer, Text, Inline(body))];
            IsChain(fs, 10_000) && Build(fs).payload.value.NoPayload?
            && FoldSlotIntended(fs, PayloadOf, PayloadMissing).value == Inline(body)
  {
    var a, b := Sighting(Events, Structured, NoPayload), Sighting(CrashBuffer, Text, Inline(body));
    var fs := [a, b];
    assert fs[..1] == [a];
    assert Build([a]) == Open(a);
    assert Build(fs) == Merge(Open(a), b);
    assert PendingMatches(Open(a), b, 10_000);
  }

  // ---------------------------------------------------------------- kind quality and drop count

  function FoldQuality(fs: seq<Fragment>): Quality
    requires fs != []
  {
    var last := fs[|fs| - 1].quality;
    if |fs| == 1 then last
    else
      var before := FoldQuality(fs[..|fs| - 1]);
      if Rank(last) >= Rank(before) then last else before
  }

  function FoldDropped(fs: seq<Fragment>): Option<nat> {
    if fs == [] then None else MaxKnown(FoldDropped(fs[..|fs| - 1]), fs[|fs| - 1].droppedCount)
  }

  lemma {:induction false} BuildFoldsQualityAndDrops(fs: seq<Fragment>)
    requires fs != []
    ensures Build(fs).kind.quality == FoldQuality(fs)
    ensures Build(fs).dropped == FoldDropped(fs)
  {
    if |fs| > 1 {
      BuildFoldsQualityAndDrops(fs[..|fs| - 1]);
    }
  }

  lemma {:induction false} FoldQualityIsBest(fs: seq<Fragment>)
    requires fs != []
    ensures forall j :: 0 <= j < |fs| ==> Rank(fs[j].quality) <= Rank(FoldQuality(fs))
    ensures exists j :: 0 <= j < |fs| && FoldQuality(fs) == fs[j].quality
  {
    var n := |fs|;
    if n == 1 {
      assert FoldQuality(fs) == fs[0].quality;
    } else {
      var init := fs[..n - 1];
      FoldQualityIsBest(init);
      var j :| 0 <= j < |init| && FoldQuality(init) == init[j].quality;
      assert forall i :: 0 <= i < n - 1 ==> fs[i] == init[i];
      assert FoldQuality(fs) == fs[n - 1].quality || FoldQuality(fs) == fs[j].quality;
    }
  }

  lemma {:induction false} FoldDroppedIsLargest(fs: seq<Fragment>)
    ensures forall j :: 0 <= j < |fs| && fs[j].droppedCount.Some? ==>
              FoldDropped(fs).Some? && fs[j].droppedCount.value <= FoldDropped(fs).value
    ensures FoldDropped(fs).Some? ==> exists j :: 0 <= j < |fs| && fs[j].droppedCount == FoldDropped(fs)
  {
    if fs != [] {
      var n := |fs|;
      var init := fs[..n - 1];
      FoldDroppedIsLargest(init);
      assert forall i :: 0 <= i < n - 1 ==> fs[i] == init[i];
      if FoldDropped(fs).Some? && FoldDropped(fs) != fs[n - 1].droppedCount {
        var j :| 0 <= j < |init| && init[j].droppedCount == FoldDropped(init);
        assert fs[j].droppedCount == FoldDropped(fs);
      }
    }
  }

  /** The quality attached to the kind is the best seen, which is what completes a native crash;
      the drop count is the largest any fragment reported. */
  lemma QualityAndDropsAreLargest(fs: seq<Fragment>)
    requires fs != []
    ensures forall j :: 0 <= j < |fs| ==> Rank(fs[j].quality) <= Rank(Build(fs).kind.quality)
    ensures exists j :: 0 <= j < |fs| && Build(fs).kind.quality == fs[j].quality
    ensures forall j :: 0 <= j < |fs| && fs[j].droppedCount.Some? ==>
              Build(fs).dropped.Some? && fs[j].droppedCount.value <= Build(fs).dropped.value
    ensures Build(fs).dropped.Some? ==> exists j :: 0 <= j < |fs| && fs[j].droppedCount == Build(fs).dropped
  {
    BuildFoldsQualityAndDrops(fs);
    FoldQualityIsBest(fs);
    FoldDroppedIsLargest(fs);
  }
}
