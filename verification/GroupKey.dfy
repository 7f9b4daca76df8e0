/** The byte stream behind a group id: every field length-prefixed, so that no two keys share it. */
module GroupKey {
  import opened Model
  import opened ByteOrder
  import opened Decimal

  const TWO_64: nat := 0x1_0000_0000_0000_0000

  /** The UTF-8 bytes of a string; allocations are bounded by the largest signed 64-bit size. */
  type Text = s: seq<byte> | |s| <= I64_MAX

  type FrameList = s: seq<Text> | |s| <= I64_MAX

  /** What decides which group a crash belongs to. */
  datatype Key = Key(package: Text, process: Text, userId: I32, kind: CrashKind, primary: Text, frames: FrameList)

  // ---------------------------------------------------------------- the stream

  function Ascii(s: string): seq<byte> { seq(|s|, i requires 0 <= i < |s| => s[i] as int % 256) }

  function KindCode(kind: CrashKind): nat {
    match kind
    case JavaException => 0
    case Anr => 1
    case NativeCrash => 2
    case Wtf => 3
  }

  function Feed(value: seq<byte>): seq<byte> { BigEndian(|value|, 8) + value }

  function FeedAll(values: seq<seq<byte>>): seq<byte> {
    if values == [] then [] else Feed(values[0]) + FeedAll(values[1..])
  }

  function PreImage(k: Key): seq<byte> {
    Feed(k.package) + (Feed(k.process) + (Feed(Ascii(Show(k.userId))) + (Feed(Ascii(Show(KindCode(k.kind))))
    + (Feed(k.primary) + (Feed(Ascii(Show(|k.frames|))) + FeedAll(k.frames))))))
  }

  lemma {:induction false} FeedAllSnoc(values: seq<seq<byte>>, last: seq<byte>)
    ensures FeedAll(values + [last]) == FeedAll(values) + Feed(last)
  {
    if values == [] {
      assert FeedAll([last]) == Feed(last) + FeedAll([]);
      assert values + [last] == [last];
    } else {
      FeedAllSnoc(values[1..], last);
      assert (values + [last])[1..] == values[1..] + [last];
    }
  }

  /** Feeds the hasher field by field, then frame by frame. */
  method HashInput(k: Key) returns (fed: seq<byte>)
    ensures fed == PreImage(k)
  {
    fed := Feed(k.package);
    fed := fed + Feed(k.process);
    fed := fed + Feed(Ascii(Show(k.userId)));
    fed := fed + Feed(Ascii(Show(KindCode(k.kind))));
    fed := fed + Feed(k.primary);
    fed := fed + Feed(Ascii(Show(|k.frames|)));
    fed := FeedFrames(fed, k.frames);
    Regroup(Feed(k.package), Feed(k.process), Feed(Ascii(Show(k.userId))), Feed(Ascii(Show(KindCode(k.kind)))),
            Feed(k.primary), Feed(Ascii(Show(|k.frames|))), FeedAll(k.frames));
  }

  lemma Regroup(a: seq<byte>, b: seq<byte>, c: seq<byte>, d: seq<byte>, e: seq<byte>, f: seq<byte>, g: seq<byte>)
    ensures a + b + c + d + e + f + g == a + (b + (c + (d + (e + (f + g)))))
  {
    assert e + f + g == e + (f + g);
    assert c + d + (e + f + g) == c + (d + (e + (f + g)));
    assert a + b + c + d + e + f + g == a + b + (c + d + (e + f + g));
  }

  method FeedFrames(head: seq<byte>, frames: seq<Text>) returns (fed: seq<byte>)
    ensures fed == head + FeedAll(frames)
  {
    fed := head;
    var i := 0;
    while i < |frames|
      invariant 0 <= i <= |frames|
      invariant fed == head + FeedAll(frames[..i])
    {
      FeedAllSnoc(frames[..i], frames[i]);
      assert frames[..i + 1] == frames[..i] + [frames[i]];
      assert head + FeedAll(frames[..i]) + Feed(frames[i]) == head + (FeedAll(frames[..i]) + Feed(frames[i]));
      fed := fed + Feed(frames[i]);
      i := i + 1;
    }
    assert frames[..i] == frames;
  }

  // ---------------------------------------------------------------- it is injective

  /** A fed field can be read back off the front of any stream. */
  lemma FeedIsPrefixFree(a: seq<byte>, b: seq<byte>, x: seq<byte>, y: seq<byte>)
    requires |a| < TWO_64 && |b| < TWO_64 && Feed(a) + x == Feed(b) + y
    ensures a == b && x == y
  {
    var s, t := Feed(a) + x, Feed(b) + y;
    assert s[..8] == BigEndian(|a|, 8) && t[..8] == BigEndian(|b|, 8);
    Widths();
    BigEndianInjective(|a|, |b|, 8);
    assert s[8..8 + |a|] == a && t[8..8 + |b|] == b;
    assert s[8 + |a|..] == x && t[8 + |b|..] == y;
  }

  lemma {:induction false} FeedAllInjective(xs: seq<Text>, ys: seq<Text>)
    requires |xs| == |ys| && FeedAll(xs) == FeedAll(ys)
    ensures xs == ys
  {
    if xs != [] {
      FeedIsPrefixFree(xs[0], ys[0], FeedAll(xs[1..]), FeedAll(ys[1..]));
      FeedAllInjective(xs[1..], ys[1..]);
      assert xs == [xs[0]] + xs[1..] && ys == [ys[0]] + ys[1..];
    }
  }

  lemma AsciiNumbers(a: int, b: int)
    requires Ascii(Show(a)) == Ascii(Show(b))
    requires I64_MIN <= a <= I64_MAX && I64_MIN <= b <= I64_MAX
    ensures a == b
  {
    var s, t := Show(a), Show(b);
    assert |s| == |Ascii(s)| && |t| == |Ascii(t)|;
    forall i | 0 <= i < |s|
      ensures s[i] == t[i]
    {
      ShowCharacters(a, i);
      ShowCharacters(b, i);
      assert Ascii(s)[i] == Ascii(t)[i];
    }
    assert s == t;
    ParseShow(a);
    ParseShow(b);
  }

  lemma {:induction false} DigitsBound(n: nat)
    ensures |Digits(n)| <= n + 1
  {
    if n >= 10 {
      DigitsBound(n / 10);
    }
  }

  /** Numbers print short enough to be fed. */
  lemma NumberIsText(v: int)
    requires I64_MIN / 2 <= v <= I64_MAX
    ensures |Ascii(Show(v))| <= I64_MAX + 1
  {
    DigitsBound(if v < 0 then -v else v);
  }

  /** The fields a key's stream starts with, and what follows them. */
  lemma HeadsAgree(a: Key, b: Key)
    requires PreImage(a) == PreImage(b)
    ensures a.package == b.package && a.process == b.process && a.userId == b.userId
    ensures var x, y := Feed(Ascii(Show(KindCode(a.kind)))) + (Feed(a.primary) + (Feed(Ascii(Show(|a.frames|))) + FeedAll(a.frames))),
                        Feed(Ascii(Show(KindCode(b.kind)))) + (Feed(b.primary) + (Feed(Ascii(Show(|b.frames|))) + FeedAll(b.frames)));
            x == y
  {
    var x, y := Feed(Ascii(Show(KindCode(a.kind)))) + (Feed(a.primary) + (Feed(Ascii(Show(|a.frames|))) + FeedAll(a.frames))),
                Feed(Ascii(Show(KindCode(b.kind)))) + (Feed(b.primary) + (Feed(Ascii(Show(|b.frames|))) + FeedAll(b.frames)));
    NumberIsText(a.userId);
    NumberIsText(b.userId);
    var u, v := Ascii(Show(a.userId)), Ascii(Show(b.userId));
    FeedIsPrefixFree(a.package, b.package, Feed(a.process) + (Feed(u) + x), Feed(b.process) + (Feed(v) + y));
    FeedIsPrefixFree(a.process, b.process, Feed(u) + x, Feed(v) + y);
    FeedIsPrefixFree(u, v, x, y);
    AsciiNumbers(a.userId, b.userId);
  }

  /** Two keys feed the hash the same bytes only if they agree on package, process, user, kind,
      primary and the whole list of frames, whatever the strings contain. */
  lemma PreImageInjective(a: Key, b: Key)
    requires PreImage(a) == PreImage(b)
    ensures a == b
  {
    HeadsAgree(a, b);
    var i, j := Ascii(Show(KindCode(a.kind))), Ascii(Show(KindCode(b.kind)));
    var m, n := Ascii(Show(|a.frames|)), Ascii(Show(|b.frames|));
    NumberIsText(KindCode(a.kind));
    NumberIsText(KindCode(b.kind));
    NumberIsText(|a.frames|);
    NumberIsText(|b.frames|);
    FeedIsPrefixFree(i, j, Feed(a.primary) + (Feed(m) + FeedAll(a.frames)), Feed(b.primary) + (Feed(n) + FeedAll(b.frames)));
    AsciiNumbers(KindCode(a.kind), KindCode(b.kind));
    FeedIsPrefixFree(a.primary, b.primary, Feed(m) + FeedAll(a.frames), Feed(n) + FeedAll(b.frames));
    FeedIsPrefixFree(m, n, FeedAll(a.frames), FeedAll(b.frames));
    AsciiNumbers(|a.frames|, |b.frames|);
    FeedAllInjective(a.frames, b.frames);
  }

  // ---------------------------------------------------------------- the stream of one key

  lemma SmallLength(n: nat)
    requires n < 256
    ensures BigEndian(n, 8) == [0, 0, 0, 0, 0, 0, 0, n]
  {
    assert BigEndian(0, 1) == [0] && BigEndian(0, 2) == [0, 0] && BigEndian(0, 3) == [0, 0, 0];
    assert BigEndian(0, 5) == [0, 0, 0, 0, 0] && BigEndian(0, 7) == [0, 0, 0, 0, 0, 0, 0];
  }

  /** The bytes of one key: package "p", process "q" of user 7, an ANR with text "t" and no frames. */
  lemma SampleStream()
    ensures PreImage(Key([112], [113], 7, Anr, [116], []))
            == [0, 0, 0, 0, 0, 0, 0, 1, 112] + ([0, 0, 0, 0, 0, 0, 0, 1, 113] + ([0, 0, 0, 0, 0, 0, 0, 1, 55]
               + ([0, 0, 0, 0, 0, 0, 0, 1, 49] + ([0, 0, 0, 0, 0, 0, 0, 1, 116] + [0, 0, 0, 0, 0, 0, 0, 1, 48]))))
  {
    SmallLength(1);
    assert Show(7) == ['7'] && Show(1) == ['1'] && Show(0) == ['0'];
    assert Ascii(Show(7)) == [55] && Ascii(Show(1)) == [49] && Ascii(Show(0)) == [48];
    assert Feed([48]) + [] == Feed([48]);
  }
}
