/** Cutting text for storage and reading it back in pieces. */
module Chunks {
  import opened Model
  import opened Utf8

  // ---------------------------------------------------------------- truncation

  function BackUp(s: seq<byte>, end: nat): (e: nat)
    ensures e <= end
    ensures e == 0 || IsCharBoundary(s, e)
    ensures forall j :: e < j <= end ==> !IsCharBoundary(s, j)
  {
    if end == 0 || IsCharBoundary(s, end) then end else BackUp(s, end - 1)
  }

  /** How many bytes survive a cut at `max`: back to a character boundary, or the raw cut when
      no boundary is left. */
  function KeptBytes(s: seq<byte>, max: nat): (n: nat)
    ensures n <= |s| && n <= max
    ensures max >= 1 && s != [] ==> n >= 1
  {
    if |s| <= max then |s|
    else
      var e := BackUp(s, max);
      if e == 0 then max else e
  }

  function TruncateUtf8(s: seq<byte>, max: nat): seq<byte> { s[..KeptBytes(s, max)] }

  method Truncate(bytes: seq<byte>, max: nat) returns (out: seq<byte>)
    ensures out == TruncateUtf8(bytes, max)
  {
    if |bytes| <= max {
      return bytes;
    }
    var end := max;
    while end > 0 && !IsCharBoundary(bytes, end)
      invariant 0 <= end <= max
      invariant BackUp(bytes, end) == BackUp(bytes, max)
    {
      end := end - 1;
    }
    if end == 0 {
      end := max;
    }
    out := bytes[..end];
  }

  /** Cutting well-formed text keeps the longest whole-character prefix that fits, unless not
      even the first character does: then, and only then, the cut is raw. */
  lemma TruncateLongest(s: seq<byte>, max: nat)
    requires Valid(s)
    ensures (Boundary(s, KeptBytes(s, max)) && forall j :: KeptBytes(s, max) < j <= max && j <= |s| ==> !Boundary(s, j))
            <==> max == 0 || s == [] || LeadLen(s[0]) <= max
  {
    forall j | 0 <= j <= |s|
      ensures Boundary(s, j) <==> IsCharBoundary(s, j)
    {
      BoundaryExactly(s, j);
    }
    if |s| > max && max > 0 {
      var n := LeadLen(s[0]);
      if n <= max {
        assert Boundary(s, n);
        assert IsCharBoundary(s, n);
      } else {
        assert forall j :: 1 <= j <= max ==> Cont(s[j]);
      }
    }
  }

  /** A limit of four bytes or more never splits a character. */
  lemma TruncateWhole(s: seq<byte>, max: nat)
    requires Valid(s) && (max >= 4 || max >= |s|)
    ensures Boundary(s, KeptBytes(s, max)) && Valid(TruncateUtf8(s, max))
  {
    var n := KeptBytes(s, max);
    if max >= |s| {
      BoundaryExactly(s, |s|);
    } else {
      TruncateLongest(s, max);
    }
    BetweenBoundaries(s, 0, n);
  }

  // ---------------------------------------------------------------- chunked reads

  /** One chunk read: the bytes returned, where to resume, and whether the end was reached. */
  datatype Chunk = Chunk(bytes: seq<byte>, next: nat, eof: bool)

  function ReadChunk(s: seq<byte>, offset: nat, len: nat): Chunk {
    var start := if offset <= |s| then offset else |s|;
    var end := if start + len <= |s| then start + len else |s|;
    var slice := TruncateUtf8(s[start..], end - start);
    Chunk(slice, start + |slice|, start + |slice| >= |s|)
  }

  /** Any nonzero request makes progress and returns exactly the bytes it moved past. */
  lemma ReadChunkProgress(s: seq<byte>, offset: nat, len: nat)
    requires offset <= |s| && len >= 1
    ensures var c := ReadChunk(s, offset, len);
            && c.next <= |s| && c.bytes == s[offset..c.next] && |c.bytes| <= len
            && (c.eof <==> c.next == |s|)
            && (offset < |s| ==> c.next > offset)
  {
    var c := ReadChunk(s, offset, len);
    assert c.bytes == s[offset..][..|c.bytes|] == s[offset..c.next];
  }

  /** In a suffix that starts on a boundary, boundaries are those of the whole text. */
  lemma SuffixBoundary(s: seq<byte>, a: nat, i: nat)
    requires Valid(s) && a + i <= |s| && Boundary(s, a)
    ensures Valid(s[a..]) && (Boundary(s[a..], i) <==> Boundary(s, a + i))
  {
    BoundaryExactly(s, |s|);
    BetweenBoundaries(s, a, |s|);
    assert s[a..|s|] == s[a..];
    BoundaryExactly(s[a..], i);
    BoundaryExactly(s, a + i);
  }

  /** A request of at least four bytes that starts between characters ends between characters. */
  lemma ReadChunkKeepsCharacters(s: seq<byte>, offset: nat, len: nat)
    requires Valid(s) && Boundary(s, offset) && len >= 4
    ensures Boundary(s, ReadChunk(s, offset, len).next) && Valid(ReadChunk(s, offset, len).bytes)
  {
    var rest, n := s[offset..], if offset + len <= |s| then len else |s| - offset;
    SuffixBoundary(s, offset, 0);
    TruncateWhole(rest, n);
    SuffixBoundary(s, offset, KeptBytes(rest, n));
  }

  /** All bytes of a list of pieces, in order. */
  function Join<T>(parts: seq<seq<T>>): seq<T> {
    if parts == [] then [] else Join(parts[..|parts| - 1]) + parts[|parts| - 1]
  }

  lemma JoinSnoc<T>(parts: seq<seq<T>>, p: seq<T>)
    ensures Join(parts + [p]) == Join(parts) + p
  {
    assert (parts + [p])[..|parts|] == parts;
  }

  ghost predicate AllValid(parts: seq<seq<byte>>) { forall i :: 0 <= i < |parts| ==> Valid(parts[i]) }

  /** The text a reader assembles by decoding each piece on its own. */
  ghost function TextOf(parts: seq<seq<byte>>): seq<seq<byte>>
    requires AllValid(parts)
  {
    if parts == [] then [] else TextOf(parts[..|parts| - 1]) + Decode(parts[|parts| - 1])
  }

  /** Decoding whole-character pieces separately is decoding them together. */
  lemma {:induction false} TextOfJoin(parts: seq<seq<byte>>)
    requires AllValid(parts)
    ensures Valid(Join(parts)) && TextOf(parts) == Decode(Join(parts))
  {
    if parts != [] {
      TextOfJoin(parts[..|parts| - 1]);
      ValidAppend(Join(parts[..|parts| - 1]), parts[|parts| - 1]);
    }
  }

  /** The chunks from `offset` on, each requested where the last one ended. */
  function ChunksFrom(payload: seq<byte>, offset: nat, len: nat): seq<seq<byte>>
    requires offset <= |payload| && len >= 1
    decreases |payload| - offset
  {
    ReadChunkProgress(payload, offset, len);
    var c := ReadChunk(payload, offset, len);
    if c.eof then [c.bytes] else [c.bytes] + ChunksFrom(payload, c.next, len)
  }

  /** The handle loop: request chunks until one reports the end. */
  method ReadThroughHandle(payload: seq<byte>, len: nat) returns (parts: seq<seq<byte>>)
    requires len >= 1
    ensures parts == ChunksFrom(payload, 0, len)
  {
    parts := [];
    var offset := 0;
    while true
      invariant offset <= |payload|
      invariant ChunksFrom(payload, 0, len) == parts + ChunksFrom(payload, offset, len)
      decreases |payload| - offset
    {
      var c := ReadChunk(payload, offset, len);
      ReadChunkProgress(payload, offset, len);
      parts := parts + [c.bytes];
      if c.eof {
        return;
      }
      offset := c.next;
    }
  }

  lemma {:induction false} JoinCons<T>(p: seq<T>, parts: seq<seq<T>>)
    ensures Join([p] + parts) == p + Join(parts)
  {
    if parts == [] {
      assert [p] + parts == [] + [p];
      JoinSnoc([], p);
    } else {
      var init, last := parts[..|parts| - 1], parts[|parts| - 1];
      JoinCons(p, init);
      assert [p] + parts == ([p] + init) + [last];
      JoinSnoc([p] + init, last);
      assert (p + Join(init)) + last == p + (Join(init) + last);
    }
  }

  /** Every byte from the offset on arrives once, in order, whatever the request size. */
  lemma {:induction false} ChunksConserve(payload: seq<byte>, offset: nat, len: nat)
    requires offset <= |payload| && len >= 1
    ensures Join(ChunksFrom(payload, offset, len)) == payload[offset..]
    decreases |payload| - offset
  {
    ReadChunkProgress(payload, offset, len);
    var c := ReadChunk(payload, offset, len);
    if c.eof {
      JoinCons(c.bytes, []);
      assert [c.bytes] + [] == [c.bytes];
    } else {
      ChunksConserve(payload, c.next, len);
      JoinCons(c.bytes, ChunksFrom(payload, c.next, len));
    }
  }

  /** With requests of four bytes or more no chunk of well-formed text splits a character. */
  lemma {:induction false} ChunksAreWhole(payload: seq<byte>, offset: nat, len: nat)
    requires Valid(payload) && Boundary(payload, offset) && len >= 4
    ensures AllValid(ChunksFrom(payload, offset, len))
    decreases |payload| - offset
  {
    ReadChunkProgress(payload, offset, len);
    ReadChunkKeepsCharacters(payload, offset, len);
    var c := ReadChunk(payload, offset, len);
    if !c.eof {
      ChunksAreWhole(payload, c.next, len);
    }
  }

  // ---------------------------------------------------------------- the descriptor loop

  /** The manager's length test is looser than the syntax: it accepts C0, C1 and F5 to F7. */
  function ExpectedLen(lead: byte): nat {
    if lead < 0x80 then 1
    else if 0xC0 <= lead <= 0xDF then 2
    else if 0xE0 <= lead <= 0xEF then 3
    else if 0xF0 <= lead <= 0xF7 then 4
    else 1
  }

  function WalkBack(s: seq<byte>, index: nat, steps: nat): nat
    requires index <= |s|
    decreases 4 - steps
  {
    if index > 0 && steps < 4 && Cont(s[index - 1]) then WalkBack(s, index - 1, steps + 1) else index
  }

  lemma {:induction false} WalkBackBound(s: seq<byte>, index: nat, steps: nat)
    requires index <= |s|
    ensures WalkBack(s, index, steps) <= index
    decreases 4 - steps
  {
    if index > 0 && steps < 4 && Cont(s[index - 1]) {
      WalkBackBound(s, index - 1, steps + 1);
    }
  }

  function LastCharBoundary(s: seq<byte>): (r: nat)
    ensures r <= |s|
  {
    WalkBackBound(s, |s|, 0);
    var index := WalkBack(s, |s|, 0);
    if index == 0 then |s|
    else if |s| - (index - 1) >= ExpectedLen(s[index - 1]) then |s|
    else index - 1
  }

  method FindLastCharBoundary(s: seq<byte>) returns (r: nat)
    ensures r == LastCharBoundary(s)
  {
    var index, steps := |s|, 0;
    while index > 0 && steps < 4 && Cont(s[index - 1])
      invariant 0 <= index <= |s| && 0 <= steps <= 4
      invariant WalkBack(s, index, steps) == WalkBack(s, |s|, 0)
      decreases index
    {
      index := index - 1;
      steps := steps + 1;
    }
    if index == 0 {
      return |s|;
    }
    var available := |s| - (index - 1);
    r := if available >= ExpectedLen(s[index - 1]) then |s| else index - 1;
  }

  /** Walking back from inside or from the end of a character stops just after its lead byte. */
  lemma {:induction false} WalkBackFindsLead(s: seq<byte>, lead: nat, index: nat, steps: nat)
    requires lead < index <= |s| && !Cont(s[lead]) && index - lead - 1 + steps <= 3
    requires forall j :: lead < j < index ==> Cont(s[j])
    ensures WalkBack(s, index, steps) == lead + 1
    decreases index
  {
    if index > lead + 1 {
      WalkBackFindsLead(s, lead, index - 1, steps + 1);
    }
  }

  /** The scan over a text whose last, possibly unfinished, character starts at `lead`. */
  lemma LastCharBoundaryAt(s: seq<byte>, lead: nat)
    requires lead < |s| <= lead + LeadLen(s[lead]) && 1 <= LeadLen(s[lead]) <= 4
    requires forall j :: lead < j < |s| ==> Cont(s[j])
    ensures LastCharBoundary(s) == if |s| == lead + LeadLen(s[lead]) then |s| else lead
  {
    WalkBackFindsLead(s, lead, |s|, 0);
  }

  /** On any nonempty prefix of well-formed text the scan finds the last character boundary:
      what it holds back is less than one character. */
  lemma LastCharBoundaryOfPrefix(text: seq<byte>, n: nat)
    requires Valid(text) && 1 <= n <= |text|
    ensures var r := LastCharBoundary(text[..n]);
            r <= n && n - r <= 3 && Boundary(text, r) && forall j :: r < j <= n ==> !Boundary(text, j)
  {
    var s := text[..n];
    var lead := CoveringChar(text, 0, n - 1);
    assert s[lead] == text[lead] && forall j :: lead < j < n ==> s[j] == text[j];
    LastCharBoundaryAt(s, lead);
    forall j | lead < j <= n && j < lead + LeadLen(text[lead])
      ensures !Boundary(text, j)
    {
      BoundaryExactly(text, j);
    }
  }

  /** The descriptor loop after some reads: the pieces emitted, and the bytes held back. */
  datatype Reader = Reader(parts: seq<seq<byte>>, carry: seq<byte>)

  function ReadOn(r: Reader, piece: seq<byte>): Reader {
    var combined := r.carry + piece;
    var safeEnd := LastCharBoundary(combined);
    Reader(r.parts + [combined[..safeEnd]], combined[safeEnd..])
  }

  function ReadPieces(pieces: seq<seq<byte>>): Reader {
    if pieces == [] then Reader([], []) else ReadOn(ReadPieces(pieces[..|pieces| - 1]), pieces[|pieces| - 1])
  }

  /** What is held back at the end of the stream is emitted too. */
  function Shown(r: Reader): seq<seq<byte>> { if r.carry == [] then r.parts else r.parts + [r.carry] }

  /** The descriptor loop over the nonempty reads of a stream. */
  method ReadThroughDescriptor(pieces: seq<seq<byte>>) returns (parts: seq<seq<byte>>)
    requires forall i :: 0 <= i < |pieces| ==> pieces[i] != []
    ensures parts == Shown(ReadPieces(pieces))
  {
    var carry: seq<byte> := [];
    parts := [];
    var k := 0;
    while k < |pieces|
      invariant 0 <= k <= |pieces|
      invariant Reader(parts, carry) == ReadPieces(pieces[..k])
    {
      assert pieces[..k + 1][..k] == pieces[..k];
      var combined := carry + pieces[k];
      var safeEnd := FindLastCharBoundary(combined);
      carry := combined[safeEnd..];
      parts := parts + [combined[..safeEnd]];
      k := k + 1;
    }
    assert pieces[..k] == pieces;
    if carry != [] {
      parts := parts + [carry];
    }
  }

  lemma CutAndRejoin(head: seq<byte>, a: seq<byte>, b: seq<byte>, k: nat)
    requires k <= |a + b|
    ensures (head + (a + b)[..k]) + (a + b)[k..] == head + a + b
  {
  }

  lemma ReadOnConserves(r: Reader, piece: seq<byte>)
    ensures var r' := ReadOn(r, piece); Join(r'.parts) + r'.carry == Join(r.parts) + r.carry + piece
  {
    var safeEnd := LastCharBoundary(r.carry + piece);
    JoinSnoc(r.parts, (r.carry + piece)[..safeEnd]);
    CutAndRejoin(Join(r.parts), r.carry, piece, safeEnd);
  }

  /** However the stream splits its reads, no byte is lost, repeated or reordered. */
  lemma {:induction false} DescriptorConserves(pieces: seq<seq<byte>>)
    ensures var r := ReadPieces(pieces); Join(r.parts) + r.carry == Join(pieces)
    ensures Join(Shown(ReadPieces(pieces))) == Join(pieces)
  {
    if pieces != [] {
      var init, last := pieces[..|pieces| - 1], pieces[|pieces| - 1];
      DescriptorConserves(init);
      ReadOnConserves(ReadPieces(init), last);
    }
    JoinSnoc(ReadPieces(pieces).parts, ReadPieces(pieces).carry);
  }

  lemma SuffixStep(rest: seq<byte>, combined: seq<byte>)
    requires Valid(rest) && combined != [] && combined <= rest
    ensures var r := LastCharBoundary(combined);
            |combined| - r <= 3 && Boundary(rest, r) && Valid(combined[..r])
  {
    assert rest[..|combined|] == combined;
    LastCharBoundaryOfPrefix(rest, |combined|);
    var r := LastCharBoundary(combined);
    BetweenBoundaries(rest, 0, r);
    assert rest[0..r] == combined[..r];
  }

  /** One read keeps what was emitted on a character boundary of the text. */
  lemma ReadOnKeepsCharacters(text: seq<byte>, r: Reader, piece: seq<byte>)
    requires Valid(text) && piece != [] && Join(r.parts) + r.carry + piece <= text
    requires Boundary(text, |Join(r.parts)|)
    ensures var r' := ReadOn(r, piece);
            Boundary(text, |Join(r'.parts)|) && |r'.carry| <= 3 && Valid(r'.parts[|r.parts|])
  {
    var n, combined := |Join(r.parts)|, r.carry + piece;
    var safeEnd := LastCharBoundary(combined);
    assert Join(r.parts) + r.carry + piece == Join(r.parts) + combined;
    assert combined <= text[n..];
    SuffixBoundary(text, n, 0);
    SuffixStep(text[n..], combined);
    SuffixBoundary(text, n, safeEnd);
    JoinSnoc(r.parts, combined[..safeEnd]);
  }

  /** Reading any part of well-formed text, however split: the pieces emitted are whole
      characters, and never more than three bytes are held back. */
  lemma {:induction false} DescriptorHoldsBackLittle(text: seq<byte>, pieces: seq<seq<byte>>)
    requires Valid(text) && Join(pieces) <= text && forall i :: 0 <= i < |pieces| ==> pieces[i] != []
    ensures var r := ReadPieces(pieces);
            AllValid(r.parts) && |r.carry| <= 3 && Boundary(text, |Join(r.parts)|)
  {
    if pieces != [] {
      var init, last := pieces[..|pieces| - 1], pieces[|pieces| - 1];
      assert Join(init) <= Join(pieces);
      DescriptorHoldsBackLittle(text, init);
      DescriptorConserves(init);
      ReadOnKeepsCharacters(text, ReadPieces(init), last);
    }
  }

  lemma RestIsValid(shown: seq<byte>, rest: seq<byte>)
    requires Valid(shown + rest) && Boundary(shown + rest, |shown|)
    ensures Valid(rest)
  {
    SuffixBoundary(shown + rest, |shown|, 0);
    assert (shown + rest)[|shown|..] == rest;
  }

  /** At the end of well-formed text everything shown is whole characters. */
  lemma {:induction false} DescriptorShowsCharacters(pieces: seq<seq<byte>>)
    requires Valid(Join(pieces)) && forall i :: 0 <= i < |pieces| ==> pieces[i] != []
    ensures AllValid(Shown(ReadPieces(pieces)))
  {
    var r := ReadPieces(pieces);
    DescriptorHoldsBackLittle(Join(pieces), pieces);
    DescriptorConserves(pieces);
    RestIsValid(Join(r.parts), r.carry);
  }

  /** Both readers show the text of the payload, whatever the request size and however the
      stream splits. */
  lemma ReadersAgree(payload: seq<byte>, len: nat, pieces: seq<seq<byte>>)
    requires Valid(payload) && len >= 4
    requires Join(pieces) == payload && forall i :: 0 <= i < |pieces| ==> pieces[i] != []
    ensures AllValid(ChunksFrom(payload, 0, len)) && AllValid(Shown(ReadPieces(pieces)))
    ensures TextOf(ChunksFrom(payload, 0, len)) == TextOf(Shown(ReadPieces(pieces))) == Decode(payload)
  {
    ChunksAreWhole(payload, 0, len);
    ChunksConserve(payload, 0, len);
    DescriptorShowsCharacters(pieces);
    DescriptorConserves(pieces);
    TextOfJoin(ChunksFrom(payload, 0, len));
    TextOfJoin(Shown(ReadPieces(pieces)));
  }
}
