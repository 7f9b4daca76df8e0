/** The page cursor: what it holds, its text on the wire, and the check of its use. */
module CursorText {
  import opened Model
  import opened Decimal

  datatype SortKey = LastSeenDesc | FirstSeenDesc | OccurrenceDesc | PackageAsc

  predicate AnchorIsText(sort: SortKey) { sort == PackageAsc }

  predicate IsDescending(sort: SortKey) { sort != PackageAsc }

  datatype Anchor = IntAnchor(value: int) | TextAnchor(text: string)

  datatype Cursor = Cursor(sort: SortKey, anchor: Anchor, tiebreak: string)

  const SEPARATOR: char := '|'
  const VERSION: string := "1"

  // ---------------------------------------------------------------- printing

  function SortName(sort: SortKey): string {
    match sort
    case LastSeenDesc => "last_seen_desc"
    case FirstSeenDesc => "first_seen_desc"
    case OccurrenceDesc => "occurrence_desc"
    case PackageAsc => "package_asc"
  }

  function AnchorKind(a: Anchor): string { if a.IntAnchor? then "i" else "t" }

  function AnchorText(a: Anchor): string { if a.IntAnchor? then Show(a.value) else a.text }

  function Joined(head: string, rest: string): string { head + [SEPARATOR] + rest }

  function Print(c: Cursor): string {
    Joined(VERSION, Joined(SortName(c.sort), Joined(AnchorKind(c.anchor), Joined(AnchorText(c.anchor), c.tiebreak))))
  }

  /** Version and sort, as every text starts. */
  function Start(sort: SortKey): string {
    "1|" + (match sort
            case LastSeenDesc => "last_seen_desc"
            case FirstSeenDesc => "first_seen_desc"
            case OccurrenceDesc => "occurrence_desc"
            case PackageAsc => "package_asc") + "|"
  }

  lemma StartIsJoined(sort: SortKey)
    ensures Start(sort) == Joined("1", Joined(SortName(sort), []))
  {
    var name := SortName(sort);
    assert "1|" == "1" + [SEPARATOR] && "|" == [SEPARATOR] + [];
    assert Start(sort) == "1|" + name + "|";
    assert "1" + [SEPARATOR] + (name + [SEPARATOR] + []) == "1" + [SEPARATOR] + name + [SEPARATOR];
  }

  lemma JoinedAppend(a: string, b: string, c: string)
    ensures Joined(a, b + c) == Joined(a, b) + c
  {
  }

  /** The text of a cursor: version, sort, kind of anchor, anchor and tiebreak. */
  lemma PrintedText(c: Cursor)
    ensures Print(c) == Start(c.sort)
                        + (if c.anchor.IntAnchor? then "i|" + Show(c.anchor.value) else "t|" + c.anchor.text)
                        + "|" + c.tiebreak
  {
    var tail := Joined(AnchorKind(c.anchor), Joined(AnchorText(c.anchor), c.tiebreak));
    StartIsJoined(c.sort);
    assert [] + tail == tail;
    JoinedAppend(SortName(c.sort), [], tail);
    JoinedAppend("1", Joined(SortName(c.sort), []), tail);
    assert Print(c) == Start(c.sort) + tail;
    assert tail == (if c.anchor.IntAnchor? then "i|" + Show(c.anchor.value) else "t|" + c.anchor.text) + "|" + c.tiebreak;
    Regrouped(Start(c.sort), if c.anchor.IntAnchor? then "i|" + Show(c.anchor.value) else "t|" + c.anchor.text, "|" + c.tiebreak);
  }

  lemma Regrouped(a: string, b: string, c: string)
    ensures a + b + c == a + (b + c)
  {
  }

  // ---------------------------------------------------------------- parsing

  /** The text up to the first separator, and what follows it if there is one. */
  function NextPart(s: string): (string, Option<string>) {
    if s == [] then ([], None)
    else if s[0] == SEPARATOR then ([], Some(s[1..]))
    else
      var r := NextPart(s[1..]);
      ([s[0]] + r.0, r.1)
  }

  function SortNamed(name: string): Option<SortKey> {
    if name == "last_seen_desc" then Some(LastSeenDesc)
    else if name == "first_seen_desc" then Some(FirstSeenDesc)
    else if name == "occurrence_desc" then Some(OccurrenceDesc)
    else if name == "package_asc" then Some(PackageAsc)
    else None
  }

  function ParseAnchor(kind: string, text: string): Option<Anchor> {
    if kind == "i" then
      var v := ParseI64(text);
      if v.Some? then Some(IntAnchor(v.value)) else None
    else if kind == "t" then Some(TextAnchor(text))
    else None
  }

  /** The part after the version and the sort: kind, anchor and, uncut, the tiebreak. */
  function ParseTail(sort: SortKey, s: string): Option<Cursor> {
    var kind := NextPart(s);
    if kind.1.None? then None
    else
      var anchor := NextPart(kind.1.value);
      if anchor.1.None? then None
      else
        var parsed := ParseAnchor(kind.0, anchor.0);
        if parsed.None? then None else Some(Cursor(sort, parsed.value, anchor.1.value))
  }

  function Parse(s: string): Option<Cursor> {
    var version := NextPart(s);
    if version.0 != VERSION || version.1.None? then None
    else
      var name := NextPart(version.1.value);
      var sort := SortNamed(name.0);
      if sort.None? || name.1.None? then None else ParseTail(sort.value, name.1.value)
  }

  // ---------------------------------------------------------------- the round trip

  predicate Plain(s: string) { forall i :: 0 <= i < |s| ==> s[i] != SEPARATOR }

  lemma {:induction false} NextPartJoined(head: string, rest: string)
    requires Plain(head)
    ensures NextPart(Joined(head, rest)) == (head, Some(rest))
  {
    var s := Joined(head, rest);
    if head == [] {
      assert s[1..] == rest;
    } else {
      assert Plain(head[1..]);
      assert s[0] == head[0] && s[1..] == Joined(head[1..], rest);
      NextPartJoined(head[1..], rest);
      assert head == [head[0]] + head[1..];
    }
  }

  lemma {:induction false} NextPartPlain(s: string)
    ensures Plain(NextPart(s).0)
    ensures NextPart(s).1.Some? ==> s == Joined(NextPart(s).0, NextPart(s).1.value)
    ensures NextPart(s).1.None? ==> s == NextPart(s).0
  {
    if s != [] && s[0] != SEPARATOR {
      NextPartPlain(s[1..]);
    }
  }

  lemma SortNames(sort: SortKey)
    ensures SortNamed(SortName(sort)) == Some(sort) && Plain(SortName(sort))
  {
    match sort
    case LastSeenDesc =>
    case FirstSeenDesc => assert SortName(sort)[0] != "last_seen_desc"[0];
    case OccurrenceDesc => assert SortName(sort)[0] != "last_seen_desc"[0] && SortName(sort)[0] != "first_seen_desc"[0];
    case PackageAsc =>
      assert SortName(sort)[0] != "last_seen_desc"[0];
      assert SortName(sort)[0] != "first_seen_desc"[0] && SortName(sort)[0] != "occurrence_desc"[0];
  }

  lemma PrefixParses(c: Cursor)
    ensures Parse(Print(c)) == ParseTail(c.sort, Joined(AnchorKind(c.anchor), Joined(AnchorText(c.anchor), c.tiebreak)))
  {
    var tail := Joined(AnchorKind(c.anchor), Joined(AnchorText(c.anchor), c.tiebreak));
    NextPartJoined(VERSION, Joined(SortName(c.sort), tail));
    SortNames(c.sort);
    NextPartJoined(SortName(c.sort), tail);
  }

  lemma IntAnchorIsPlain(v: int)
    ensures Plain(Show(v))
  {
    forall i | 0 <= i < |Show(v)|
      ensures Show(v)[i] != SEPARATOR
    {
      ShowCharacters(v, i);
    }
  }

  /** What a printed cursor is read back as, for every cursor. */
  lemma ParsePrint(c: Cursor)
    ensures var part := NextPart(Joined(AnchorText(c.anchor), c.tiebreak));
            && part.1.Some?
            && Parse(Print(c))
               == match c.anchor
                  case IntAnchor(v) => if I64_MIN <= v <= I64_MAX then Some(c) else None
                  case TextAnchor(_) => Some(Cursor(c.sort, TextAnchor(part.0), part.1.value))
  {
    var rest := Joined(AnchorText(c.anchor), c.tiebreak);
    PrefixParses(c);
    NextPartJoined(AnchorKind(c.anchor), rest);
    if c.anchor.IntAnchor? {
      IntAnchorIsPlain(c.anchor.value);
      NextPartJoined(AnchorText(c.anchor), c.tiebreak);
      ParseShow(c.anchor.value);
    } else {
      NextPartPlain(rest);
      assert rest[|c.anchor.text|] == SEPARATOR;
    }
  }

  /** A cursor that survives its text: a 64-bit integer anchor, or a text anchor without the
      separator. */
  predicate Printable(c: Cursor) {
    match c.anchor
    case IntAnchor(v) => I64_MIN <= v <= I64_MAX
    case TextAnchor(text) => Plain(text)
  }

  /** Echoing a cursor back yields the same cursor exactly when it is printable. */
  lemma RoundTripExactly(c: Cursor)
    ensures Parse(Print(c)) == Some(c) <==> Printable(c)
  {
    ParsePrint(c);
    if c.anchor.TextAnchor? {
      var rest := Joined(c.anchor.text, c.tiebreak);
      NextPartPlain(rest);
      if Plain(c.anchor.text) {
        NextPartJoined(c.anchor.text, c.tiebreak);
      }
    }
  }

  lemma JoinedNests(a: string, b: string, c: string)
    ensures Joined(Joined(a, b), c) == Joined(a, Joined(b, c))
  {
  }

  /** A text anchor that holds the separator is cut at it, and the rest slides into the tiebreak. */
  lemma SeparatorShiftsTheAnchor(c: Cursor, before: string, after: string)
    requires c.anchor == TextAnchor(Joined(before, after)) && Plain(before)
    ensures Parse(Print(c)) == Some(Cursor(c.sort, TextAnchor(before), Joined(after, c.tiebreak)))
  {
    var rest := Joined(after, c.tiebreak);
    ParsePrint(c);
    JoinedNests(before, after, c.tiebreak);
    NextPartJoined(before, rest);
    assert NextPart(Joined(AnchorText(c.anchor), c.tiebreak)) == (before, Some(rest));
  }

  /** A cursor is accepted only for the sort it was issued for, with an anchor of its type. */
  predicate ValidFor(c: Cursor, sort: SortKey) {
    c.sort == sort && (c.anchor.TextAnchor? <==> AnchorIsText(sort))
  }
}
