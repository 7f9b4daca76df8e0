/** Well-formed UTF-8, as the syntax in section 4 of RFC 3629 gives it, and its decoding. */
module Utf8 {
  import opened Model

  /** A continuation byte, 10xxxxxx. */
  predicate Cont(b: byte) { 0x80 <= b < 0xC0 }

  /** The length the lead byte announces; 0 when it cannot start a character. */
  function LeadLen(b: byte): nat {
    if b < 0x80 then 1
    else if 0xC2 <= b <= 0xDF then 2
    else if 0xE0 <= b <= 0xEF then 3
    else if 0xF0 <= b <= 0xF4 then 4
    else 0
  }

  /** Overlong forms, surrogates and values past U+10FFFF are excluded by the second byte. */
  predicate SecondOk(lead: byte, b: byte) {
    && Cont(b)
    && (lead == 0xE0 ==> b >= 0xA0)
    && (lead == 0xED ==> b <= 0x9F)
    && (lead == 0xF0 ==> b >= 0x90)
    && (lead == 0xF4 ==> b <= 0x8F)
  }

  /** A whole character starts at `i`. */
  predicate CharAt(s: seq<byte>, i: nat) {
    && i < |s|
    && 1 <= LeadLen(s[i]) <= |s| - i
    && (LeadLen(s[i]) >= 2 ==> SecondOk(s[i], s[i + 1]))
    && (LeadLen(s[i]) >= 3 ==> Cont(s[i + 2]))
    && (LeadLen(s[i]) >= 4 ==> Cont(s[i + 3]))
  }

  predicate ValidFrom(s: seq<byte>, i: nat)
    requires i <= |s|
    decreases |s| - i
  {
    i == |s| || (CharAt(s, i) && ValidFrom(s, i + LeadLen(s[i])))
  }

  predicate Valid(s: seq<byte>) { ValidFrom(s, 0) }

  /** The characters from `i` on, each as its bytes. */
  function DecodeFrom(s: seq<byte>, i: nat): seq<seq<byte>>
    requires i <= |s| && ValidFrom(s, i)
    decreases |s| - i
  {
    if i == |s| then [] else [s[i..i + LeadLen(s[i])]] + DecodeFrom(s, i + LeadLen(s[i]))
  }

  function Decode(s: seq<byte>): seq<seq<byte>>
    requires Valid(s)
  {
    DecodeFrom(s, 0)
  }

  /** Stepping over whole characters from `i` arrives at `j`. */
  predicate Reaches(s: seq<byte>, i: nat, j: nat)
    requires j <= |s|
    decreases |s| - i
  {
    i == j || (i < j && CharAt(s, i) && Reaches(s, i + LeadLen(s[i]), j))
  }

  /** Positions between characters. */
  predicate Boundary(s: seq<byte>, i: nat) { i <= |s| && Reaches(s, 0, i) }

  /** The byte-level test: the end, or a byte that does not continue a character. */
  predicate IsCharBoundary(s: seq<byte>, i: nat) {
    if i < |s| then !Cont(s[i]) else i == |s|
  }

  lemma {:induction false} ReachesExactly(s: seq<byte>, i: nat, j: nat)
    requires i <= j <= |s| && ValidFrom(s, i)
    ensures Reaches(s, i, j) <==> IsCharBoundary(s, j)
    decreases |s| - i
  {
    if i < j {
      var n := LeadLen(s[i]);
      if j < i + n {
        assert Cont(s[j]);
      } else {
        ReachesExactly(s, i + n, j);
      }
    }
  }

  /** In well-formed text the byte-level test finds exactly the positions between characters. */
  lemma BoundaryExactly(s: seq<byte>, i: nat)
    requires Valid(s) && i <= |s|
    ensures Boundary(s, i) <==> IsCharBoundary(s, i)
  {
    ReachesExactly(s, 0, i);
  }

  lemma {:induction false} ReachesValid(s: seq<byte>, i: nat, j: nat)
    requires i <= j <= |s| && ValidFrom(s, i) && Reaches(s, i, j)
    ensures ValidFrom(s, j)
    decreases |s| - i
  {
    if i < j {
      ReachesValid(s, i + LeadLen(s[i]), j);
    }
  }

  /** A character is recognised by its own bytes alone. */
  lemma SameChar(s: seq<byte>, i: nat, t: seq<byte>, j: nat)
    requires CharAt(s, i) && j + LeadLen(s[i]) <= |t| && t[j..j + LeadLen(s[i])] == s[i..i + LeadLen(s[i])]
    ensures CharAt(t, j) && LeadLen(t[j]) == LeadLen(s[i])
  {
    var n := LeadLen(s[i]);
    var c := s[i..i + n];
    assert c[0] == s[i] == t[j];
    if n >= 2 {
      assert c[1] == s[i + 1] == t[j + 1];
    }
    if n >= 3 {
      assert c[2] == s[i + 2] == t[j + 2];
    }
    if n >= 4 {
      assert c[3] == s[i + 3] == t[j + 3];
    }
  }

  lemma SliceOfSlice(s: seq<byte>, a: nat, b: nat, x: nat, y: nat)
    requires a <= x <= y <= b <= |s|
    ensures |s[a..b]| == b - a && s[a..b][x - a..y - a] == s[x..y]
  {
    var part := s[a..b];
    forall k | 0 <= k < y - x
      ensures part[x - a..y - a][k] == s[x..y][k]
    {
      assert part[x - a + k] == s[x + k];
    }
  }

  lemma {:induction false} SliceValid(s: seq<byte>, a: nat, i: nat, b: nat)
    requires a <= i <= b <= |s| && Reaches(s, i, b)
    ensures ValidFrom(s[a..b], i - a)
    decreases |s| - i
  {
    if i < b {
      var n := LeadLen(s[i]);
      SliceValid(s, a, i + n, b);
      SliceOfSlice(s, a, b, i, i + n);
      SameChar(s, i, s[a..b], i - a);
    }
  }

  lemma {:induction false} ReachesBetween(s: seq<byte>, i: nat, a: nat, b: nat)
    requires i <= a <= b <= |s| && Reaches(s, i, a) && Reaches(s, i, b)
    ensures Reaches(s, a, b)
    decreases |s| - i
  {
    if i < a {
      ReachesBetween(s, i + LeadLen(s[i]), a, b);
    }
  }

  /** What lies between two boundaries of well-formed text is well-formed. */
  lemma BetweenBoundaries(s: seq<byte>, a: nat, b: nat)
    requires a <= b <= |s| && Boundary(s, a) && Boundary(s, b)
    ensures Valid(s[a..b])
  {
    ReachesBetween(s, 0, a, b);
    SliceValid(s, a, a, b);
  }

  lemma ShiftedChar(s: seq<byte>, t: seq<byte>, d: nat, j: nat)
    requires d <= |s| && s[d..] == t && CharAt(t, j)
    ensures CharAt(s, d + j) && LeadLen(s[d + j]) == LeadLen(t[j])
    ensures s[d + j..d + j + LeadLen(t[j])] == t[j..j + LeadLen(t[j])]
  {
    var n := LeadLen(t[j]);
    assert s[d + j..d + j + n] == t[j..j + n];
    SameChar(t, j, s, d + j);
  }

  lemma {:induction false} ShiftedValid(s: seq<byte>, t: seq<byte>, d: nat, j: nat)
    requires d <= |s| && s[d..] == t && j <= |t| && ValidFrom(t, j)
    ensures ValidFrom(s, d + j)
    decreases |t| - j
  {
    if j < |t| {
      ShiftedChar(s, t, d, j);
      ShiftedValid(s, t, d, j + LeadLen(t[j]));
    }
  }

  /** The characters of a suffix do not depend on what stands before it. */
  lemma {:induction false} ShiftedFrom(s: seq<byte>, t: seq<byte>, d: nat, j: nat)
    requires d <= |s| && s[d..] == t && j <= |t| && ValidFrom(t, j)
    ensures ValidFrom(s, d + j) && DecodeFrom(s, d + j) == DecodeFrom(t, j)
    decreases |t| - j
  {
    ShiftedValid(s, t, d, j);
    if j < |t| {
      ShiftedChar(s, t, d, j);
      ShiftedFrom(s, t, d, j + LeadLen(t[j]));
    }
  }

  lemma {:induction false} PrependedFrom(a: seq<byte>, b: seq<byte>, i: nat)
    requires i <= |a| && ValidFrom(a, i) && Valid(b)
    ensures ValidFrom(a + b, i)
    decreases |a| - i
  {
    if i == |a| {
      ShiftedFrom(a + b, b, |a|, 0);
    } else {
      PrependedFrom(a, b, i + LeadLen(a[i]));
      assert (a + b)[i..i + LeadLen(a[i])] == a[i..i + LeadLen(a[i])];
      SameChar(a, i, a + b, i);
    }
  }

  /** The first character is read the same in both texts. */
  lemma SameStart(a: seq<byte>, both: seq<byte>, i: nat)
    requires i < |a| && a <= both && ValidFrom(a, i) && ValidFrom(both, i)
    ensures var n := LeadLen(a[i]);
            && LeadLen(both[i]) == n && i + n <= |a| && both[i..i + n] == a[i..i + n]
            && ValidFrom(a, i + n) && ValidFrom(both, i + n)
  {
    assert both[i] == a[i];
    assert a == both[..|a|];
  }

  lemma {:induction false} PrependedDecode(a: seq<byte>, b: seq<byte>, i: nat)
    requires i <= |a| && ValidFrom(a, i) && Valid(b) && ValidFrom(a + b, i)
    ensures DecodeFrom(a + b, i) == DecodeFrom(a, i) + Decode(b)
    decreases |a| - i
  {
    var both := a + b;
    if i == |a| {
      ShiftedFrom(both, b, |a|, 0);
    } else {
      var n := LeadLen(a[i]);
      SameStart(a, both, i);
      PrependedDecode(a, b, i + n);
      PrependOne(a[i..i + n], DecodeFrom(a, i + n), Decode(b));
    }
  }

  lemma PrependOne(c: seq<byte>, xs: seq<seq<byte>>, ys: seq<seq<byte>>)
    ensures [c] + (xs + ys) == ([c] + xs) + ys
  {
  }

  /** Well-formed pieces join to well-formed text with the characters of both. */
  lemma ValidAppend(a: seq<byte>, b: seq<byte>)
    requires Valid(a) && Valid(b)
    ensures Valid(a + b) && Decode(a + b) == Decode(a) + Decode(b)
  {
    PrependedFrom(a, b, 0);
    PrependedDecode(a, b, 0);
  }

  /** The character that covers a position starts at most three bytes back. */
  lemma {:induction false} CoveringChar(s: seq<byte>, from: nat, i: nat) returns (e: nat)
    requires from <= i < |s| && ValidFrom(s, from)
    ensures from <= e <= i < e + LeadLen(s[e]) <= |s| && CharAt(s, e)
    ensures Reaches(s, from, e) && Reaches(s, from, e + LeadLen(s[e]))
    ensures forall j :: e < j < e + LeadLen(s[e]) ==> Cont(s[j])
    decreases |s| - from
  {
    var n := LeadLen(s[from]);
    if i < from + n {
      e := from;
    } else {
      e := CoveringChar(s, from + n, i);
    }
  }
}
