/** The binary event format of the log buffers, and its recursive parser. */
module EventCodec {
  import opened Model
  import opened ByteOrder
  import opened Utf8

  const TYPE_INT: byte := 0
  const TYPE_LONG: byte := 1
  const TYPE_STRING: byte := 2
  const TYPE_LIST: byte := 3
  const TYPE_FLOAT: byte := 4
  const MAX_DEPTH: nat := 16
  const MAX_ELEMENTS: nat := 255
  const MAX_STRING_BYTES: nat := 65536

  type U32 = x: int | 0 <= x < 0x1_0000_0000

  /** A float is its bits; a string is its UTF-8 bytes. */
  datatype Value =
    | Int(i: I32)
    | Long(l: Ms)
    | Str(text: seq<byte>)
    | List(items: seq<Value>)
    | Float(bits: U32)

  datatype Error = Truncated | LengthOutOfBounds | LimitExceeded | NestingTooDeep | InvalidUtf8 | UnsupportedType

  /** A parse stops with an error, or with a value and the position after it. */
  datatype Parsed<T> = Bad(error: Error) | Good(value: T, next: nat)

  // ---------------------------------------------------------------- encoding

  function EncodeInt(v: I32): seq<byte> {
    Widths();
    ToLe(Unsigned(v, 4), 4)
  }

  function EncodeLong(v: Ms): seq<byte> {
    Widths();
    ToLe(Unsigned(v, 8), 8)
  }

  function Encode(v: Value): (s: seq<byte>)
    ensures |s| >= 1
    decreases v
  {
    match v
    case Int(i) => [TYPE_INT] + EncodeInt(i)
    case Long(l) => [TYPE_LONG] + EncodeLong(l)
    case Str(text) => [TYPE_STRING] + ToLe(|text|, 4) + text
    case List(items) => [TYPE_LIST, |items| % 256] + EncodeAll(items)
    case Float(bits) => [TYPE_FLOAT] + ToLe(bits, 4)
  }

  function EncodeAll(vs: seq<Value>): seq<byte>
    decreases vs
  {
    if vs == [] then [] else EncodeAll(vs[..|vs| - 1]) + Encode(vs[|vs| - 1])
  }

  /** The values the format can carry below `depth` enclosing lists. */
  predicate Fits(v: Value, depth: nat) {
    depth < MAX_DEPTH &&
    match v
    case Str(text) => |text| <= MAX_STRING_BYTES && Valid(text)
    case List(items) => |items| <= MAX_ELEMENTS && forall i :: 0 <= i < |items| ==> Fits(items[i], depth + 1)
    case Int(_) => true
    case Long(_) => true
    case Float(_) => true
  }

  // ---------------------------------------------------------------- the parser

  function ReadBytes(b: seq<byte>, i: nat, length: nat): Parsed<seq<byte>>
    requires i <= |b|
  {
    if length > |b| - i then Bad(LengthOutOfBounds) else Good(b[i..i + length], i + length)
  }

  function ParseInt(b: seq<byte>, i: nat): Parsed<Value>
    requires i <= |b|
  {
    Widths();
    var r := ReadBytes(b, i, 4);
    if r.Bad? then Bad(r.error) else Good(Int(Signed(FromLe(r.value), 4)), r.next)
  }

  function ParseLong(b: seq<byte>, i: nat): Parsed<Value>
    requires i <= |b|
  {
    Widths();
    var r := ReadBytes(b, i, 8);
    if r.Bad? then Bad(r.error) else Good(Long(Signed(FromLe(r.value), 8)), r.next)
  }

  function ParseFloat(b: seq<byte>, i: nat): Parsed<Value>
    requires i <= |b|
  {
    Widths();
    var r := ReadBytes(b, i, 4);
    if r.Bad? then Bad(r.error) else Good(Float(FromLe(r.value)), r.next)
  }

  function ParseString(b: seq<byte>, i: nat): Parsed<Value>
    requires i <= |b|
  {
    var size := ReadBytes(b, i, 4);
    if size.Bad? then Bad(size.error)
    else if FromLe(size.value) > MAX_STRING_BYTES then Bad(LimitExceeded)
    else
      var text := ReadBytes(b, size.next, FromLe(size.value));
      if text.Bad? then Bad(text.error)
      else if !Valid(text.value) then Bad(InvalidUtf8)
      else Good(Str(text.value), text.next)
  }

  /** One value at `i`. The list length is one byte, so the limit on elements cannot be exceeded. */
  function ParseValue(b: seq<byte>, i: nat, depth: nat): (r: Parsed<Value>)
    requires i <= |b| && depth <= MAX_DEPTH
    ensures r.Good? ==> i < r.next <= |b|
    decreases MAX_DEPTH - depth, 0
  {
    if depth >= MAX_DEPTH then Bad(NestingTooDeep)
    else if i == |b| then Bad(Truncated)
    else if b[i] == TYPE_INT then ParseInt(b, i + 1)
    else if b[i] == TYPE_LONG then ParseLong(b, i + 1)
    else if b[i] == TYPE_STRING then ParseString(b, i + 1)
    else if b[i] == TYPE_LIST then
      if i + 1 == |b| then Bad(Truncated)
      else
        var items := ParseItems(b, i + 2, depth + 1, b[i + 1]);
        if items.Bad? then Bad(items.error) else Good(List(items.value), items.next)
    else if b[i] == TYPE_FLOAT then ParseFloat(b, i + 1)
    else Bad(UnsupportedType)
  }

  function ParseItems(b: seq<byte>, i: nat, depth: nat, count: nat): (r: Parsed<seq<Value>>)
    requires i <= |b| && depth <= MAX_DEPTH
    ensures r.Good? ==> i <= r.next <= |b|
    decreases MAX_DEPTH - depth, count + 1
  {
    if count == 0 then Good([], i)
    else
      var init := ParseItems(b, i, depth, count - 1);
      if init.Bad? then init
      else
        var last := ParseValue(b, init.next, depth);
        if last.Bad? then Bad(last.error) else Good(init.value + [last.value], last.next)
  }

  // ---------------------------------------------------------------- as the source runs it

  datatype Read<T> = Ok(value: T) | Err(error: Error)

  /** Bounds-checked reads that advance a position. */
  class Cursor {
    const bytes: seq<byte>
    var position: nat

    ghost predicate Inside()
      reads this
    {
      position <= |bytes|
    }

    constructor (bytes: seq<byte>)
      ensures this.bytes == bytes && position == 0 && Inside()
    {
      this.bytes := bytes;
      position := 0;
    }

    method ReadByte() returns (r: Read<byte>)
      requires Inside()
      modifies this
      ensures Inside()
      ensures if old(position) == |bytes| then r == Err(Truncated) && position == old(position)
              else r == Ok(bytes[old(position)]) && position == old(position) + 1
    {
      if position >= |bytes| {
        return Err(Truncated);
      }
      r := Ok(bytes[position]);
      position := position + 1;
    }

    method Read(length: nat) returns (r: Read<seq<byte>>)
      requires Inside()
      modifies this
      ensures Inside()
      ensures match ReadBytes(bytes, old(position), length)
              case Bad(e) => r == Err(e) && position == old(position)
              case Good(v, next) => r == Ok(v) && position == next
    {
      if length > |bytes| - position {
        return Err(LengthOutOfBounds);
      }
      r := Ok(bytes[position..position + length]);
      position := position + length;
    }
  }

  /** A method's answer agrees with the parser: the same value and end, or the same error. */
  ghost predicate Answers<T>(spec: Parsed<T>, r: Read<T>, position: nat) {
    match spec
    case Bad(e) => r == Err(e)
    case Good(v, next) => r == Ok(v) && position == next
  }

  method ParseStringAt(cursor: Cursor) returns (r: Read<Value>)
    requires cursor.Inside()
    modifies cursor
    ensures cursor.Inside() && Answers(ParseString(cursor.bytes, old(cursor.position)), r, cursor.position)
  {
    var size := cursor.Read(4);
    if size.Err? {
      return Err(size.error);
    }
    var length := FromLe(size.value);
    if length > MAX_STRING_BYTES {
      return Err(LimitExceeded);
    }
    var text := cursor.Read(length);
    if text.Err? {
      return Err(text.error);
    }
    if !Valid(text.value) {
      return Err(InvalidUtf8);
    }
    r := Ok(Str(text.value));
  }

  /** The recursive parser: a loop over a list's elements inside a recursion over its depth. */
  method ParseValueAt(cursor: Cursor, depth: nat) returns (r: Read<Value>)
    requires cursor.Inside() && depth <= MAX_DEPTH
    modifies cursor
    ensures cursor.Inside() && Answers(ParseValue(cursor.bytes, old(cursor.position), depth), r, cursor.position)
    decreases MAX_DEPTH - depth, 1
  {
    if depth >= MAX_DEPTH {
      return Err(NestingTooDeep);
    }
    var tag := cursor.ReadByte();
    if tag.Err? {
      return Err(tag.error);
    }
    if tag.value == TYPE_STRING {
      r := ParseStringAt(cursor);
    } else if tag.value == TYPE_LIST {
      r := ParseListAt(cursor, depth);
    } else {
      r := ParseNumberAt(cursor, tag.value);
    }
  }

  method ParseNumberAt(cursor: Cursor, tag: byte) returns (r: Read<Value>)
    requires cursor.Inside() && tag != TYPE_STRING && tag != TYPE_LIST
    modifies cursor
    ensures cursor.Inside()
    ensures var b, i := cursor.bytes, old(cursor.position);
            Answers(if tag == TYPE_INT then ParseInt(b, i) else if tag == TYPE_LONG then ParseLong(b, i)
                    else if tag == TYPE_FLOAT then ParseFloat(b, i) else Bad(UnsupportedType), r, cursor.position)
  {
    Widths();
    if tag > TYPE_FLOAT {
      return Err(UnsupportedType);
    }
    var number := cursor.Read(if tag == TYPE_LONG then 8 else 4);
    if number.Err? {
      return Err(number.error);
    }
    var n := FromLe(number.value);
    r := Ok(if tag == TYPE_INT then Int(Signed(n, 4)) else if tag == TYPE_LONG then Long(Signed(n, 8)) else Float(n));
  }

  method ParseListAt(cursor: Cursor, depth: nat) returns (r: Read<Value>)
    requires cursor.Inside() && depth < MAX_DEPTH
    modifies cursor
    ensures cursor.Inside()
    ensures var b, i := cursor.bytes, old(cursor.position);
            if i == |b| then r == Err(Truncated)
            else match ParseItems(b, i + 1, depth + 1, b[i])
                 case Bad(e) => r == Err(e)
                 case Good(vs, next) => r == Ok(List(vs)) && cursor.position == next
    decreases MAX_DEPTH - depth, 0
  {
    var count := cursor.ReadByte();
    if count.Err? {
      return Err(count.error);
    }
    ghost var start := cursor.position;
    var values: seq<Value> := [];
    var k := 0;
    while k < count.value
      invariant 0 <= k <= count.value && cursor.Inside()
      invariant ParseItems(cursor.bytes, start, depth + 1, k) == Good(values, cursor.position)
    {
      var v := ParseValueAt(cursor, depth + 1);
      if v.Err? {
        FailureStays(cursor.bytes, start, depth + 1, k + 1, count.value);
        return Err(v.error);
      }
      values := values + [v.value];
      k := k + 1;
    }
    r := Ok(List(values));
  }

  lemma {:induction false} FailureStays(b: seq<byte>, i: nat, depth: nat, k: nat, count: nat)
    requires i <= |b| && depth <= MAX_DEPTH && k <= count && ParseItems(b, i, depth, k).Bad?
    ensures ParseItems(b, i, depth, count) == ParseItems(b, i, depth, k)
  {
    if k < count {
      FailureStays(b, i, depth, k, count - 1);
    }
  }

  // ---------------------------------------------------------------- the parser inverts the encoding

  /** The bytes `s` stand in `b` at `i`. */
  predicate At(b: seq<byte>, i: nat, s: seq<byte>) { i + |s| <= |b| && b[i..i + |s|] == s }

  lemma AtAppend(b: seq<byte>, i: nat, s: seq<byte>, t: seq<byte>)
    ensures At(b, i, s + t) <==> At(b, i, s) && At(b, i + |s|, t)
  {
    if i + |s + t| <= |b| {
      var whole := b[i..i + |s + t|];
      assert whole[..|s|] == b[i..i + |s|] && whole[|s|..] == b[i + |s|..i + |s| + |t|];
      assert (s + t)[..|s|] == s && (s + t)[|s|..] == t;
      assert whole == whole[..|s|] + whole[|s|..];
    }
  }

  lemma AtByte(b: seq<byte>, i: nat, x: byte)
    ensures At(b, i, [x]) <==> i < |b| && b[i] == x
  {
    if i < |b| {
      assert b[i..i + 1] == [b[i]];
    }
  }

  /** Reading `w` bytes at `i` and decoding them is the same as finding their encoding there. */
  lemma ReadLe(b: seq<byte>, i: nat, w: nat, n: nat)
    requires i <= |b| && n < Pow256(w)
    ensures At(b, i, ToLe(n, w)) <==> i + w <= |b| && FromLe(b[i..i + w]) == n
  {
    FromToLe(n, w);
    if i + w <= |b| {
      ToFromLe(b[i..i + w]);
    }
  }

  /** The value, its end, and that it may stand at this depth. */
  predicate Encodes(b: seq<byte>, i: nat, depth: nat, v: Value, next: nat) {
    Fits(v, depth) && At(b, i, Encode(v)) && next == i + |Encode(v)|
  }

  lemma IntExactly(b: seq<byte>, i: nat, v: I32, next: nat)
    requires i <= |b|
    ensures ParseInt(b, i) == Good(Int(v), next) <==> At(b, i, EncodeInt(v)) && next == i + 4
  {
    Widths();
    ReadLe(b, i, 4, Unsigned(v, 4));
  }

  lemma LongExactly(b: seq<byte>, i: nat, v: Ms, next: nat)
    requires i <= |b|
    ensures ParseLong(b, i) == Good(Long(v), next) <==> At(b, i, EncodeLong(v)) && next == i + 8
  {
    Widths();
    ReadLe(b, i, 8, Unsigned(v, 8));
  }

  lemma FloatExactly(b: seq<byte>, i: nat, bits: U32, next: nat)
    requires i <= |b|
    ensures ParseFloat(b, i) == Good(Float(bits), next) <==> At(b, i, ToLe(bits, 4)) && next == i + 4
  {
    Widths();
    ReadLe(b, i, 4, bits);
  }

  lemma StringExactly(b: seq<byte>, i: nat, text: seq<byte>, next: nat)
    requires i <= |b|
    ensures ParseString(b, i) == Good(Str(text), next)
            <==> (&& |text| <= MAX_STRING_BYTES && Valid(text)
                  && At(b, i, ToLe(|text|, 4) + text) && next == i + 4 + |text|)
  {
    Widths();
    AtAppend(b, i, ToLe(|text|, 4), text);
    if |text| <= MAX_STRING_BYTES {
      ReadLe(b, i, 4, |text|);
    }
  }

  lemma IntCase(b: seq<byte>, i: nat, depth: nat, x: I32, next: nat)
    requires i <= |b| && depth < MAX_DEPTH
    ensures ParseValue(b, i, depth) == Good(Int(x), next) <==> Encodes(b, i, depth, Int(x), next)
  {
    AtAppend(b, i, [TYPE_INT], EncodeInt(x));
    AtByte(b, i, TYPE_INT);
    if i < |b| {
      IntExactly(b, i + 1, x, next);
    }
  }

  lemma LongCase(b: seq<byte>, i: nat, depth: nat, x: Ms, next: nat)
    requires i <= |b| && depth < MAX_DEPTH
    ensures ParseValue(b, i, depth) == Good(Long(x), next) <==> Encodes(b, i, depth, Long(x), next)
  {
    AtAppend(b, i, [TYPE_LONG], EncodeLong(x));
    AtByte(b, i, TYPE_LONG);
    if i < |b| {
      LongExactly(b, i + 1, x, next);
    }
  }

  lemma FloatCase(b: seq<byte>, i: nat, depth: nat, bits: U32, next: nat)
    requires i <= |b| && depth < MAX_DEPTH
    ensures ParseValue(b, i, depth) == Good(Float(bits), next) <==> Encodes(b, i, depth, Float(bits), next)
  {
    AtAppend(b, i, [TYPE_FLOAT], ToLe(bits, 4));
    AtByte(b, i, TYPE_FLOAT);
    if i < |b| {
      FloatExactly(b, i + 1, bits, next);
    }
  }

  lemma StringCase(b: seq<byte>, i: nat, depth: nat, text: seq<byte>, next: nat)
    requires i <= |b| && depth < MAX_DEPTH
    ensures ParseValue(b, i, depth) == Good(Str(text), next) <==> Encodes(b, i, depth, Str(text), next)
  {
    assert Encode(Str(text)) == [TYPE_STRING] + (ToLe(|text|, 4) + text);
    AtAppend(b, i, [TYPE_STRING], ToLe(|text|, 4) + text);
    AtByte(b, i, TYPE_STRING);
    if i < |b| {
      StringExactly(b, i + 1, text, next);
    }
  }

  /** The parser answers with a value and an end exactly when that value, within the limits, is
      encoded there and ends there. */
  lemma {:induction false} ParseExactly(b: seq<byte>, i: nat, depth: nat, v: Value, next: nat)
    requires i <= |b| && depth <= MAX_DEPTH
    ensures ParseValue(b, i, depth) == Good(v, next) <==> Encodes(b, i, depth, v, next)
    decreases v, 0
  {
    if depth < MAX_DEPTH {
      match v
      case Int(x) => IntCase(b, i, depth, x, next);
      case Long(x) => LongCase(b, i, depth, x, next);
      case Str(text) => StringCase(b, i, depth, text, next);
      case List(items) => ListExactly(b, i, depth, items, next);
      case Float(bits) => FloatCase(b, i, depth, bits, next);
    }
  }

  lemma ListHead(b: seq<byte>, i: nat, count: byte, rest: seq<byte>)
    ensures At(b, i, [TYPE_LIST, count] + rest)
            <==> i + 1 < |b| && b[i] == TYPE_LIST && b[i + 1] == count && At(b, i + 2, rest)
  {
    AtAppend(b, i, [TYPE_LIST, count], rest);
    assert [TYPE_LIST, count] == [TYPE_LIST] + [count];
    AtAppend(b, i, [TYPE_LIST], [count]);
    AtByte(b, i, TYPE_LIST);
    AtByte(b, i + 1, count);
  }

  predicate AllFit(vs: seq<Value>, depth: nat) { forall i :: 0 <= i < |vs| ==> Fits(vs[i], depth) }

  lemma FitsList(items: seq<Value>, depth: nat)
    requires depth < MAX_DEPTH
    ensures Fits(List(items), depth) <==> |items| <= MAX_ELEMENTS && AllFit(items, depth + 1)
  {
  }

  /** A list within the limits is a type byte, a count and its elements. */
  lemma ListEncodes(b: seq<byte>, i: nat, depth: nat, items: seq<Value>, next: nat)
    requires i <= |b| && depth < MAX_DEPTH
    ensures Encodes(b, i, depth, List(items), next)
            <==> (&& i + 1 < |b| && b[i] == TYPE_LIST && b[i + 1] == |items|
                  && AllFit(items, depth + 1) && At(b, i + 2, EncodeAll(items)) && next == i + 2 + |EncodeAll(items)|)
  {
    FitsList(items, depth);
    ListHead(b, i, |items| % 256, EncodeAll(items));
  }

  lemma ListForm(b: seq<byte>, i: nat, depth: nat, items: seq<Value>, next: nat)
    requires i <= |b| && depth < MAX_DEPTH
    ensures ParseValue(b, i, depth) == Good(List(items), next)
            <==> (&& i + 1 < |b| && b[i] == TYPE_LIST && b[i + 1] == |items|
                  && ParseItems(b, i + 2, depth + 1, b[i + 1]) == Good(items, next))
  {
    if i + 1 < |b| && b[i] == TYPE_LIST {
      ItemsCount(b, i + 2, depth + 1, b[i + 1]);
    }
  }

  lemma ListFromItems(b: seq<byte>, i: nat, depth: nat, items: seq<Value>, next: nat)
    requires i <= |b| && depth < MAX_DEPTH
    requires i + 1 < |b| ==>
               (ParseItems(b, i + 2, depth + 1, |items|) == Good(items, next)
                <==> AllFit(items, depth + 1) && At(b, i + 2, EncodeAll(items)) && next == i + 2 + |EncodeAll(items)|)
    ensures ParseValue(b, i, depth) == Good(List(items), next) <==> Encodes(b, i, depth, List(items), next)
  {
    ListForm(b, i, depth, items, next);
    ListEncodes(b, i, depth, items, next);
  }

  lemma {:induction false} ListExactly(b: seq<byte>, i: nat, depth: nat, items: seq<Value>, next: nat)
    requires i <= |b| && depth < MAX_DEPTH
    ensures ParseValue(b, i, depth) == Good(List(items), next) <==> Encodes(b, i, depth, List(items), next)
    decreases items, 1
  {
    if i + 1 < |b| {
      ItemsExactly(b, i + 2, depth + 1, items, next);
    }
    ListFromItems(b, i, depth, items, next);
  }

  lemma {:induction false} ItemsCount(b: seq<byte>, i: nat, depth: nat, count: nat)
    requires i <= |b| && depth <= MAX_DEPTH
    ensures ParseItems(b, i, depth, count).Good? ==> |ParseItems(b, i, depth, count).value| == count
  {
    if count > 0 {
      ItemsCount(b, i, depth, count - 1);
    }
  }

  lemma {:induction false} ItemsExactly(b: seq<byte>, i: nat, depth: nat, items: seq<Value>, next: nat)
    requires i <= |b| && depth <= MAX_DEPTH
    ensures ParseItems(b, i, depth, |items|) == Good(items, next)
            <==> (AllFit(items, depth) && At(b, i, EncodeAll(items)) && next == i + |EncodeAll(items)|)
    decreases items, 0
  {
    if items != [] {
      var n := |items| - 1;
      var init, last := items[..n], items[n];
      assert items == init + [last];
      var mid := i + |EncodeAll(init)|;
      AtAppend(b, i, EncodeAll(init), Encode(last));
      ItemsExactly(b, i, depth, init, mid);
      if mid <= |b| {
        ParseExactly(b, mid, depth, last, next);
      }
      var got := ParseItems(b, i, depth, n);
      if got.Good? {
        ItemsCount(b, i, depth, n);
      }
      assert AllFit(items, depth) <==> AllFit(init, depth) && Fits(last, depth);
      if ParseItems(b, i, depth, |items|) == Good(items, next) {
        assert got.value == init;
        ItemsExactly(b, i, depth, init, got.next);
      }
    }
  }

  // ---------------------------------------------------------------- a whole event

  datatype Event = Event(tag: I32, value: Value)

  /** The tag, then one value; bytes after it are not looked at. */
  function ParsePayload(b: seq<byte>): Parsed<Event> {
    var tag := ParseInt(b, 0);
    if tag.Bad? then Bad(tag.error)
    else
      var v := ParseValue(b, tag.next, 0);
      if v.Bad? then Bad(v.error) else Good(Event(tag.value.i, v.value), v.next)
  }

  method ParseEventPayload(bytes: seq<byte>) returns (r: Read<Event>)
    ensures match ParsePayload(bytes)
            case Bad(e) => r == Err(e)
            case Good(event, _) => r == Ok(event)
  {
    Widths();
    var cursor := new Cursor(bytes);
    var tag := cursor.Read(4);
    if tag.Err? {
      return Err(tag.error);
    }
    var v := ParseValueAt(cursor, 0);
    if v.Err? {
      return Err(v.error);
    }
    r := Ok(Event(Signed(FromLe(tag.value), 4), v.value));
  }

  function EncodePayload(e: Event): seq<byte> { EncodeInt(e.tag) + Encode(e.value) }

  /** A payload parses to an event exactly when it starts with that event's encoding: decoding
      inverts encoding, consumes exactly its bytes, and re-encodes to what it consumed. */
  lemma PayloadExactly(b: seq<byte>, e: Event, next: nat)
    ensures ParsePayload(b) == Good(e, next)
            <==> (Fits(e.value, 0) && At(b, 0, EncodePayload(e)) && next == |EncodePayload(e)|)
  {
    AtAppend(b, 0, EncodeInt(e.tag), Encode(e.value));
    IntExactly(b, 0, e.tag, 4);
    if |b| >= 4 {
      ParseExactly(b, 4, 0, e.value, next);
    }
  }

  /** Every event within the limits survives, whatever follows it. */
  lemma RoundTrip(e: Event, trailing: seq<byte>)
    requires Fits(e.value, 0)
    ensures ParsePayload(EncodePayload(e) + trailing) == Good(e, |EncodePayload(e)|)
  {
    var b := EncodePayload(e) + trailing;
    assert b[0..|EncodePayload(e)|] == EncodePayload(e);
    PayloadExactly(b, e, |EncodePayload(e)|);
  }

  // ---------------------------------------------------------------- the bytes on the wire

  /** Four bytes are read least significant first. */
  lemma FourBytes(b: seq<byte>)
    requires |b| == 4
    ensures var x: int, y: int, z: int, w: int := b[0], b[1], b[2], b[3];
            FromLe(b) == x + 0x100 * y + 0x1_0000 * z + 0x100_0000 * w
  {
    assert FromLe(b[1..]) == b[1] + 256 * FromLe(b[1..][1..]);
    assert b[1..][1..] == b[2..] && FromLe(b[2..]) == b[2] + 256 * FromLe(b[2..][1..]);
    assert b[2..][1..] == b[3..] && FromLe(b[3..]) == b[3] + 256 * FromLe(b[3..][1..]);
  }

  /** What each value looks like on the wire: a type byte, 0 for an integer, 1 for a long, 2 for a
      string, 3 for a list and 4 for a float, then the number in two's complement, least significant
      byte first, the length and the text, or the count and the elements. */
  lemma WireBytes(i: I32, l: Ms, text: seq<byte>, items: seq<Value>, bits: U32)
    requires |text| <= MAX_STRING_BYTES && |items| <= MAX_ELEMENTS
    ensures var b := Encode(Int(i)); |b| == 5 && b[0] == 0 && FromLe(b[1..]) == if i < 0 then 0x1_0000_0000 + i else i
    ensures var b := Encode(Long(l));
            |b| == 9 && b[0] == 1 && FromLe(b[1..]) == if l < 0 then 0x1_0000_0000_0000_0000 + l else l
    ensures var b := Encode(Str(text)); |b| == 5 + |text| && b[0] == 2 && FromLe(b[1..5]) == |text| && b[5..] == text
    ensures var b := Encode(List(items)); |b| >= 2 && b[0] == 3 && b[1] == |items| && b[2..] == EncodeAll(items)
    ensures var b := Encode(Float(bits));
            |b| == 5 && b[0] == 4 && FromLe(b[1..]) == bits
            && var x: int, y: int, z: int, w: int := b[1], b[2], b[3], b[4];
               bits == x + 0x100 * y + 0x1_0000 * z + 0x100_0000 * w
  {
    Widths();
    FromToLe(Unsigned(i, 4), 4);
    FromToLe(Unsigned(l, 8), 8);
    FromToLe(|text|, 4);
    FromToLe(bits, 4);
    FourBytes(ToLe(bits, 4));
    assert Encode(Int(i))[1..] == EncodeInt(i) && Encode(Long(l))[1..] == EncodeLong(l);
    assert Encode(Float(bits))[1..] == ToLe(bits, 4) && Encode(Str(text))[1..5] == ToLe(|text|, 4);
  }
}
