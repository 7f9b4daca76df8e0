/** The stored form of a set of sources: one bit each in a 32-bit mask. */
module Masks {
  import opened Model

  const KNOWN: bv32 := 0x1F

  function Bit(s: Source): bv32 {
    match s
    case Events => 1
    case CrashBuffer => 2
    case Dropbox => 4
    case Tombstone => 8
    case AnrFile => 16
  }

  /** The mask has the source's bit. */
  predicate Has(mask: bv32, s: Source) {
    match s
    case Events => mask & 1 != 0
    case CrashBuffer => mask & 2 != 0
    case Dropbox => mask & 4 != 0
    case Tombstone => mask & 8 != 0
    case AnrFile => mask & 16 != 0
  }

  /** The sources a mask names. */
  function SourcesOf(mask: bv32): Sources { set s: Source | Has(mask, s) }

  function BitIf(present: bool, s: Source): bv32 { if present then Bit(s) else 0 }

  function Combined(events: bool, crashBuffer: bool, dropbox: bool, tombstone: bool, anrFile: bool): bv32 {
    BitIf(events, Events) | BitIf(crashBuffer, CrashBuffer) | BitIf(dropbox, Dropbox) | BitIf(tombstone, Tombstone)
    | BitIf(anrFile, AnrFile)
  }

  function MaskOf(s: Sources): bv32 {
    Combined(Events in s, CrashBuffer in s, Dropbox in s, Tombstone in s, AnrFile in s)
  }

  function FromBitsTruncate(bits: bv32): bv32 { bits & KNOWN }

  function Union(a: bv32, b: bv32): bv32 { a | b }

  predicate Contains(a: bv32, b: bv32) { a & b == b }

  predicate Intersects(a: bv32, b: bv32) { a & b != 0 }

  /** Only bits this build knows. */
  predicate Clean(mask: bv32) { FromBitsTruncate(mask) == mask }

  // ---------------------------------------------------------------- bit by bit

  lemma CombinedBits(e: bool, c: bool, d: bool, t: bool, a: bool)
    ensures var m := Combined(e, c, d, t, a);
            && Clean(m)
            && (Has(m, Events) <==> e) && (Has(m, CrashBuffer) <==> c) && (Has(m, Dropbox) <==> d)
            && (Has(m, Tombstone) <==> t) && (Has(m, AnrFile) <==> a)
  {
  }

  lemma CombinedOf(m: bv32)
    ensures Combined(Has(m, Events), Has(m, CrashBuffer), Has(m, Dropbox), Has(m, Tombstone), Has(m, AnrFile))
            == FromBitsTruncate(m)
  {
  }

  /** Bit by bit, as literals: the union has a bit when either mask has it. */
  lemma UnionBits(a: bv32, b: bv32)
    ensures (a | b) & 1 != 0 <==> a & 1 != 0 || b & 1 != 0
    ensures (a | b) & 2 != 0 <==> a & 2 != 0 || b & 2 != 0
    ensures (a | b) & 4 != 0 <==> a & 4 != 0 || b & 4 != 0
    ensures (a | b) & 8 != 0 <==> a & 8 != 0 || b & 8 != 0
    ensures (a | b) & 16 != 0 <==> a & 16 != 0 || b & 16 != 0
  {
  }

  lemma AndBits(a: bv32, b: bv32)
    ensures (a & b) & 1 != 0 <==> a & 1 != 0 && b & 1 != 0
    ensures (a & b) & 2 != 0 <==> a & 2 != 0 && b & 2 != 0
    ensures (a & b) & 4 != 0 <==> a & 4 != 0 && b & 4 != 0
    ensures (a & b) & 8 != 0 <==> a & 8 != 0 && b & 8 != 0
    ensures (a & b) & 16 != 0 <==> a & 16 != 0 && b & 16 != 0
  {
  }

  lemma UnionBit(a: bv32, b: bv32, s: Source)
    ensures Has(Union(a, b), s) <==> Has(a, s) || Has(b, s)
  {
    UnionBits(a, b);
  }

  lemma AndBit(a: bv32, b: bv32, s: Source)
    ensures Has(a & b, s) <==> Has(a, s) && Has(b, s)
  {
    AndBits(a, b);
  }

  // ---------------------------------------------------------------- sets

  /** Sets and masks say the same: reading a written mask gives the set back. */
  lemma SourcesRoundTrip(sources: Sources)
    ensures Clean(MaskOf(sources)) && SourcesOf(MaskOf(sources)) == sources
  {
    CombinedBits(Events in sources, CrashBuffer in sources, Dropbox in sources, Tombstone in sources, AnrFile in sources);
    forall s: Source
      ensures s in SourcesOf(MaskOf(sources)) <==> s in sources
    {
      match s
      case Events =>
      case CrashBuffer =>
      case Dropbox =>
      case Tombstone =>
      case AnrFile =>
    }
  }

  /** Writing a read mask drops exactly the bits this build does not know. */
  lemma MaskRoundTrip(mask: bv32)
    ensures MaskOf(SourcesOf(mask)) == FromBitsTruncate(mask)
  {
    CombinedOf(mask);
  }

  lemma UnionIsUnion(a: bv32, b: bv32)
    ensures SourcesOf(Union(a, b)) == SourcesOf(a) + SourcesOf(b)
  {
    var both := Union(a, b);
    forall s: Source
      ensures Has(both, s) <==> Has(a, s) || Has(b, s)
    {
      UnionBit(a, b, s);
    }
    JoinedSets(both, a, b);
  }

  lemma JoinedSets(both: bv32, a: bv32, b: bv32)
    requires forall s: Source :: Has(both, s) <==> Has(a, s) || Has(b, s)
    ensures SourcesOf(both) == SourcesOf(a) + SourcesOf(b)
  {
  }

  lemma AndIsIntersection(a: bv32, b: bv32)
    ensures SourcesOf(a & b) == SourcesOf(a) * SourcesOf(b)
  {
    forall s: Source
      ensures s in SourcesOf(a & b) <==> s in SourcesOf(a) * SourcesOf(b)
    {
      AndBit(a, b, s);
    }
  }

  lemma AndClean(a: bv32, b: bv32)
    requires Clean(a) || Clean(b)
    ensures Clean(a & b)
  {
  }

  lemma EmptyExactly(mask: bv32)
    requires Clean(mask)
    ensures mask == 0 <==> SourcesOf(mask) == {}
  {
    CombinedOf(mask);
    if SourcesOf(mask) == {} {
      forall s: Source
        ensures !Has(mask, s)
      {
        assert s !in SourcesOf(mask);
      }
    }
  }

  /** Two masks intersect exactly when their sets share a source, as long as one holds known bits
      only. */
  lemma IntersectsExactly(a: bv32, b: bv32)
    requires Clean(a) || Clean(b)
    ensures Intersects(a, b) <==> !(SourcesOf(a) !! SourcesOf(b))
  {
    AndIsIntersection(a, b);
    AndClean(a, b);
    EmptyExactly(a & b);
  }

  /** A mask contains another of known bits exactly when its set does. */
  lemma ContainsExactly(a: bv32, b: bv32)
    requires Clean(b)
    ensures Contains(a, b) <==> SourcesOf(b) <= SourcesOf(a)
  {
    AndIsIntersection(a, b);
    if SourcesOf(b) <= SourcesOf(a) {
      assert SourcesOf(a & b) == SourcesOf(b);
      MaskRoundTrip(a & b);
      MaskRoundTrip(b);
      AndClean(a, b);
    }
  }

  /** The bits as they are stored. */
  lemma StoredBits()
    ensures MaskOf({Events}) == 0x01 && MaskOf({CrashBuffer}) == 0x02 && MaskOf({Dropbox}) == 0x04
    ensures MaskOf({Tombstone}) == 0x08 && MaskOf({AnrFile}) == 0x10
  {
  }
}
