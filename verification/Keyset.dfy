/** Keyset pages over a set of positions, and walks through them while the set changes. */
module Keyset {
  import opened Model
  import opened TextOrder

  datatype Key = KInt(value: int) | KText(text: string)

  /** Where a row stands in a listing: its sort column, then its id. */
  datatype Pos = Pos(key: Key, id: string)

  // ---------------------------------------------------------------- the order

  /** SQLite sorts integers before text. */
  predicate KeyLess(a: Key, b: Key) {
    match (a, b)
    case (KInt(x), KInt(y)) => x < y
    case (KText(x), KText(y)) => LexLess(x, y)
    case (KInt(_), KText(_)) => true
    case (KText(_), KInt(_)) => false
  }

  predicate PosLess(a: Pos, b: Pos) { KeyLess(a.key, b.key) || (a.key == b.key && LexLess(a.id, b.id)) }

  /** `a` is listed before `b`. */
  predicate Before(desc: bool, a: Pos, b: Pos) { if desc then PosLess(b, a) else PosLess(a, b) }

  lemma KeyOrder(a: Key, b: Key, c: Key)
    ensures !KeyLess(a, a)
    ensures KeyLess(a, b) && KeyLess(b, c) ==> KeyLess(a, c)
    ensures KeyLess(a, b) || a == b || KeyLess(b, a)
  {
    if a.KText? && b.KText? {
      LexTotal(a.text, b.text);
      if c.KText? && LexLess(a.text, b.text) && LexLess(b.text, c.text) {
        LexTransitive(a.text, b.text, c.text);
      }
    }
    if a.KText? {
      LexIrreflexive(a.text);
    }
  }

  lemma PosTransitive(a: Pos, b: Pos, c: Pos)
    requires PosLess(a, b) && PosLess(b, c)
    ensures PosLess(a, c)
  {
    KeyOrder(a.key, b.key, c.key);
    if a.key == b.key == c.key {
      LexTransitive(a.id, b.id, c.id);
    }
  }

  lemma BeforeTransitive(desc: bool, a: Pos, b: Pos, c: Pos)
    requires Before(desc, a, b) && Before(desc, b, c)
    ensures Before(desc, a, c)
  {
    if desc {
      PosTransitive(c, b, a);
    } else {
      PosTransitive(a, b, c);
    }
  }

  lemma BeforeIrreflexive(desc: bool, a: Pos)
    ensures !Before(desc, a, a)
  {
    KeyOrder(a.key, a.key, a.key);
    LexIrreflexive(a.id);
  }

  lemma BeforeTotal(desc: bool, a: Pos, b: Pos)
    ensures Before(desc, a, b) || a == b || Before(desc, b, a)
  {
    KeyOrder(a.key, b.key, b.key);
    LexTotal(a.id, b.id);
  }

  // ---------------------------------------------------------------- the plain sort

  ghost predicate Ordered(desc: bool, s: seq<Pos>) {
    forall i, j :: 0 <= i < j < |s| ==> Before(desc, s[i], s[j])
  }

  ghost predicate IsFirst(desc: bool, s: set<Pos>, m: Pos) {
    m in s && forall p :: p in s && p != m ==> Before(desc, m, p)
  }

  lemma {:induction false} FirstOf(desc: bool, s: set<Pos>) returns (m: Pos)
    requires s != {}
    ensures IsFirst(desc, s, m)
    decreases |s|
  {
    m :| m in s;
    var rest := s - {m};
    assert forall p :: p in s ==> p == m || p in rest;
    if rest != {} {
      var r := FirstOf(desc, rest);
      BeforeTotal(desc, m, r);
      if Before(desc, r, m) {
        m := r;
      } else {
        forall p | p in s && p != m
          ensures Before(desc, m, p)
        {
          if p != r {
            BeforeTransitive(desc, m, r, p);
          }
        }
      }
    }
  }

  lemma FirstExists(desc: bool, s: set<Pos>)
    requires s != {}
    ensures exists m :: IsFirst(desc, s, m)
  {
    var m := FirstOf(desc, s);
  }

  /** The rows in listing order. */
  ghost function Sorted(desc: bool, s: set<Pos>): seq<Pos> {
    if s == {} then []
    else
      FirstExists(desc, s);
      var m :| IsFirst(desc, s, m);
      [m] + Sorted(desc, s - {m})
  }

  /** A listing of a set: every row once, in order. */
  ghost predicate Lists(desc: bool, r: seq<Pos>, s: set<Pos>) {
    Ordered(desc, r) && |r| == |s| && forall p :: p in r <==> p in s
  }

  lemma {:induction false} SortedLists(desc: bool, s: set<Pos>)
    ensures Lists(desc, Sorted(desc, s), s)
    decreases |s|
  {
    if s != {} {
      FirstExists(desc, s);
      var m :| IsFirst(desc, s, m) && Sorted(desc, s) == [m] + Sorted(desc, s - {m});
      var rest := Sorted(desc, s - {m});
      SortedLists(desc, s - {m});
      assert forall i :: 0 <= i < |rest| ==> rest[i] in rest;
    }
  }

  lemma SomeMember(s: seq<Pos>) returns (p: Pos)
    requires s != []
    ensures p in s
  {
    p := s[0];
  }

  /** There is only one way to list a set in order. */
  lemma {:induction false} OrderedUnique(desc: bool, a: seq<Pos>, b: seq<Pos>)
    requires Ordered(desc, a) && Ordered(desc, b) && forall p :: p in a <==> p in b
    ensures a == b
  {
    if a == [] {
      if b != [] {
        var p := SomeMember(b);
      }
    } else if b == [] {
      var p := SomeMember(a);
    } else {
      assert a[0] in b && b[0] in a;
      FirstsAgree(desc, a, b);
      forall p
        ensures p in a[1..] <==> p in b[1..]
      {
        RestMembers(desc, a, p);
        RestMembers(desc, b, p);
      }
      OrderedUnique(desc, a[1..], b[1..]);
      assert a == [a[0]] + a[1..] && b == [b[0]] + b[1..];
    }
  }

  lemma FirstsAgree(desc: bool, a: seq<Pos>, b: seq<Pos>)
    requires Ordered(desc, a) && Ordered(desc, b) && a != [] && b != []
    requires a[0] in b && b[0] in a
    ensures a[0] == b[0]
  {
    if a[0] != b[0] {
      BeforeTransitive(desc, a[0], b[0], a[0]);
      BeforeIrreflexive(desc, a[0]);
    }
  }

  lemma RestMembers(desc: bool, s: seq<Pos>, p: Pos)
    requires Ordered(desc, s) && s != []
    ensures p in s[1..] <==> p in s && p != s[0]
  {
    BeforeIrreflexive(desc, s[0]);
    assert s == [s[0]] + s[1..];
    if p in s[1..] {
      var i :| 0 <= i < |s[1..]| && s[1..][i] == p;
      assert s[i + 1] == p && Before(desc, s[0], s[i + 1]);
    }
  }

  // ---------------------------------------------------------------- one page

  ghost function After(desc: bool, s: set<Pos>, from: Option<Pos>): set<Pos> {
    set p | p in s && (from.None? || Before(desc, from.value, p))
  }

  /** A page holds at least one row. */
  type Size = n: nat | n >= 1 witness 1

  datatype Page = Page(items: seq<Pos>, next: Option<Pos>)

  /** One row more than the page holds tells whether another page exists. */
  ghost function Fetch(desc: bool, s: set<Pos>, from: Option<Pos>, limit: Size): Page
  {
    var rows := Sorted(desc, After(desc, s, from));
    var got := if |rows| > limit + 1 then rows[..limit + 1] else rows;
    if |got| > limit then Page(got[..limit], Some(got[limit - 1])) else Page(got, None)
  }

  /** A page of the listing `rows`: its first rows, and a cursor exactly when rows are left. */
  ghost predicate IsPage(rows: seq<Pos>, limit: Size, pg: Page)
  {
    if |rows| > limit then pg.items == rows[..limit] && pg.next == Some(rows[limit - 1])
    else pg.items == rows && pg.next == None
  }

  lemma FetchShape(desc: bool, s: set<Pos>, from: Option<Pos>, limit: Size)
    ensures IsPage(Sorted(desc, After(desc, s, from)), limit, Fetch(desc, s, from, limit))
  {
    var rows := Sorted(desc, After(desc, s, from));
    if |rows| > limit + 1 {
      assert rows[..limit + 1][..limit] == rows[..limit];
    }
  }

  /** A page is in order, from the rows ahead, and skips nothing before its end. */
  ghost predicate Faithful(desc: bool, ahead: set<Pos>, pg: Page) {
    && Ordered(desc, pg.items)
    && (forall p :: p in pg.items ==> p in ahead)
    && (pg.next.Some? ==> pg.items != [] && pg.next.value == pg.items[|pg.items| - 1])
    && (forall p :: p in ahead ==> p in pg.items || (pg.next.Some? && Before(desc, pg.next.value, p)))
  }

  lemma PageFaithful(desc: bool, ahead: set<Pos>, rows: seq<Pos>, limit: Size, pg: Page)
    requires Lists(desc, rows, ahead) && IsPage(rows, limit, pg)
    ensures Faithful(desc, ahead, pg)
  {
    assert forall i :: 0 <= i < |pg.items| ==> pg.items[i] == rows[i] && rows[i] in rows;
    forall p | p in ahead
      ensures p in pg.items || (pg.next.Some? && Before(desc, pg.next.value, p))
    {
      assert p in rows;
      var i :| 0 <= i < |rows| && rows[i] == p;
      if i < |pg.items| {
        assert pg.items[i] == p;
      }
    }
  }

  lemma FetchFaithful(desc: bool, s: set<Pos>, from: Option<Pos>, limit: Size)
    ensures Faithful(desc, After(desc, s, from), Fetch(desc, s, from, limit))
  {
    var ahead := After(desc, s, from);
    FetchShape(desc, s, from, limit);
    SortedLists(desc, ahead);
    PageFaithful(desc, ahead, Sorted(desc, ahead), limit, Fetch(desc, s, from, limit));
  }

  // ---------------------------------------------------------------- a walk

  /** What a client holds after some pages: the rows, the cursor, and whether it is finished. */
  datatype Walk = Walk(items: seq<Pos>, from: Option<Pos>, done: bool)

  function Extended(w: Walk, pg: Page): Walk { Walk(w.items + pg.items, pg.next, pg.next.None?) }

  /** The first `i` pages, where page `j` is read from `tables(j)` with size `limits(j)`. */
  ghost function WalkTo(desc: bool, tables: nat -> set<Pos>, limits: nat -> Size, i: nat): Walk
  {
    if i == 0 then Walk([], None, false)
    else
      var w := WalkTo(desc, tables, limits, i - 1);
      if w.done then w
      else
        Extended(w, Fetch(desc, tables(i - 1), w.from, limits(i - 1)))
  }

  /** The cursor is the last row so far, and before the first page there is none. */
  predicate AtLast(w: Walk) {
    if w.from.Some? then w.items != [] && w.from.value == w.items[|w.items| - 1] else w.done || w.items == []
  }

  lemma OrderedAppend(desc: bool, a: seq<Pos>, b: seq<Pos>)
    requires Ordered(desc, a) && Ordered(desc, b)
    requires a != [] ==> forall p :: p in b ==> Before(desc, a[|a| - 1], p)
    ensures Ordered(desc, a + b)
  {
    forall i, j | 0 <= i < |a| <= j < |a + b|
      ensures Before(desc, a[i], (a + b)[j])
    {
      var p := (a + b)[j];
      assert p == b[j - |a|] && p in b;
      if i < |a| - 1 {
        BeforeTransitive(desc, a[i], a[|a| - 1], p);
      }
    }
  }

  lemma ExtendOrdered(desc: bool, w: Walk, s: set<Pos>, pg: Page)
    requires Ordered(desc, w.items) && AtLast(w) && !w.done && Faithful(desc, After(desc, s, w.from), pg)
    ensures Ordered(desc, w.items + pg.items) && AtLast(Extended(w, pg))
  {
    forall p | p in pg.items && w.items != []
      ensures Before(desc, w.items[|w.items| - 1], p)
    {
      assert p in After(desc, s, w.from);
    }
    OrderedAppend(desc, w.items, pg.items);
  }

  /** However the table changes between pages, positions only advance: no row comes twice. */
  lemma {:induction false} WalkAdvances(desc: bool, tables: nat -> set<Pos>, limits: nat -> Size, i: nat)
    ensures Ordered(desc, WalkTo(desc, tables, limits, i).items)
    ensures AtLast(WalkTo(desc, tables, limits, i))
  {
    if i > 0 {
      var w := WalkTo(desc, tables, limits, i - 1);
      WalkAdvances(desc, tables, limits, i - 1);
      if !w.done {
        FetchFaithful(desc, tables(i - 1), w.from, limits(i - 1));
        ExtendOrdered(desc, w, tables(i - 1), Fetch(desc, tables(i - 1), w.from, limits(i - 1)));
      }
    }
  }

  /** Returned, or still ahead of the cursor. */
  predicate NotSkipped(desc: bool, w: Walk, p: Pos) {
    p in w.items || (!w.done && (w.from.None? || Before(desc, w.from.value, p)))
  }

  lemma ExtendKeeps(desc: bool, w: Walk, s: set<Pos>, pg: Page, p: Pos)
    requires !w.done && NotSkipped(desc, w, p) && p in s && Faithful(desc, After(desc, s, w.from), pg)
    ensures NotSkipped(desc, Extended(w, pg), p)
  {
    assert p in w.items || p in After(desc, s, w.from);
  }

  /** A row of every table so far was returned, or is still ahead of the cursor. */
  lemma {:induction false} WalkSkipsNothing(desc: bool, tables: nat -> set<Pos>, limits: nat -> Size, i: nat, p: Pos)
    requires forall j :: 0 <= j < i ==> p in tables(j)
    ensures NotSkipped(desc, WalkTo(desc, tables, limits, i), p)
  {
    if i > 0 {
      var w := WalkTo(desc, tables, limits, i - 1);
      WalkSkipsNothing(desc, tables, limits, i - 1, p);
      if !w.done {
        FetchFaithful(desc, tables(i - 1), w.from, limits(i - 1));
        ExtendKeeps(desc, w, tables(i - 1), Fetch(desc, tables(i - 1), w.from, limits(i - 1)), p);
      }
    }
  }

  lemma ItemFromTable(desc: bool, s: set<Pos>, from: Option<Pos>, limit: Size, p: Pos)
    requires p in Fetch(desc, s, from, limit).items
    ensures p in s
  {
    FetchFaithful(desc, s, from, limit);
    assert p in After(desc, s, from);
  }

  lemma NewItem(w: Walk, pg: Page, p: Pos)
    requires p in Extended(w, pg).items && p !in w.items
    ensures p in pg.items
  {
  }

  lemma {:induction false} WalkReadsTables(desc: bool, tables: nat -> set<Pos>, limits: nat -> Size, i: nat, p: Pos)
    returns (j: nat)
    requires p in WalkTo(desc, tables, limits, i).items
    ensures j < i && p in tables(j)
  {
    var w := WalkTo(desc, tables, limits, i - 1);
    if p in w.items {
      j := WalkReadsTables(desc, tables, limits, i - 1, p);
    } else {
      j := i - 1;
      NewItem(w, Fetch(desc, tables(i - 1), w.from, limits(i - 1)), p);
      ItemFromTable(desc, tables(i - 1), w.from, limits(i - 1), p);
    }
  }

  /** Row `p` stands at position `k` of the listing, and its id nowhere else. */
  predicate ListedOnceAt(items: seq<Pos>, p: Pos, k: nat) {
    k < |items| && items[k] == p && forall j :: 0 <= j < |items| && j != k ==> items[j].id != p.id
  }

  /** A row present throughout with an unchanged sort key is returned exactly once by a finished
      walk, whatever is inserted, deleted or moved around it. */
  lemma StableRowListedOnce(desc: bool, tables: nat -> set<Pos>, limits: nat -> Size, i: nat, p: Pos) returns (k: nat)
    requires forall j :: 0 <= j < i ==> p in tables(j)
    requires forall j, q :: 0 <= j < i && q in tables(j) && q.id == p.id ==> q == p
    requires WalkTo(desc, tables, limits, i).done
    ensures ListedOnceAt(WalkTo(desc, tables, limits, i).items, p, k)
  {
    var items := WalkTo(desc, tables, limits, i).items;
    WalkSkipsNothing(desc, tables, limits, i, p);
    WalkAdvances(desc, tables, limits, i);
    k :| 0 <= k < |items| && items[k] == p;
    forall j | 0 <= j < |items| && j != k
      ensures items[j].id != p.id
    {
      var read := WalkReadsTables(desc, tables, limits, i, items[j]);
      BeforeIrreflexive(desc, p);
      assert if j < k then Before(desc, items[j], items[k]) else Before(desc, items[k], items[j]);
    }
  }

  // ---------------------------------------------------------------- a table at rest

  /** The rows of a listing after one of them are those its cursor admits. */
  lemma RestIsAfter(desc: bool, s: set<Pos>, from: Option<Pos>, rows: seq<Pos>, limit: Size, p: Pos)
    requires Lists(desc, rows, After(desc, s, from)) && limit < |rows|
    ensures p in rows[limit..] <==> p in After(desc, s, Some(rows[limit - 1]))
  {
    var last := rows[limit - 1];
    if p in rows[limit..] {
      var i :| 0 <= i < |rows[limit..]| && rows[limit..][i] == p;
      assert p == rows[limit + i] && p in rows;
    }
    if p in After(desc, s, Some(last)) {
      assert last in rows;
      if from.Some? {
        BeforeTransitive(desc, from.value, last, p);
      }
      assert p in rows;
      var i :| 0 <= i < |rows| && rows[i] == p;
      NotBeforeItself(desc, rows, i, limit - 1);
      assert rows[limit..][i - limit] == p;
    }
  }

  lemma RestIsSorted(desc: bool, s: set<Pos>, from: Option<Pos>, rows: seq<Pos>, limit: Size)
    requires Lists(desc, rows, After(desc, s, from)) && limit < |rows|
    ensures rows[limit..] == Sorted(desc, After(desc, s, Some(rows[limit - 1])))
  {
    var rest, ahead := rows[limit..], After(desc, s, Some(rows[limit - 1]));
    SortedLists(desc, ahead);
    forall p
      ensures p in rest <==> p in Sorted(desc, ahead)
    {
      RestIsAfter(desc, s, from, rows, limit, p);
    }
    OrderedUnique(desc, rest, Sorted(desc, ahead));
  }

  /** The rows after a page are the rows after its cursor. */
  lemma FetchSplits(desc: bool, s: set<Pos>, from: Option<Pos>, limit: Size)
    ensures var pg := Fetch(desc, s, from, limit);
            Sorted(desc, After(desc, s, from)) == pg.items + Remaining(desc, s, pg.next, pg.next.None?)
  {
    var rows := Sorted(desc, After(desc, s, from));
    FetchShape(desc, s, from, limit);
    if |rows| > limit {
      SortedLists(desc, After(desc, s, from));
      RestIsSorted(desc, s, from, rows, limit);
      assert rows == rows[..limit] + rows[limit..];
    }
  }

  /** The rows a client has not been given yet. */
  ghost function Remaining(desc: bool, s: set<Pos>, from: Option<Pos>, done: bool): seq<Pos> {
    if done then [] else Sorted(desc, After(desc, s, from))
  }

  lemma NotBeforeItself(desc: bool, rows: seq<Pos>, i: nat, last: nat)
    requires Ordered(desc, rows) && i < |rows| && last < |rows| && Before(desc, rows[last], rows[i])
    ensures i > last
  {
    if i <= last {
      if i < last {
        BeforeTransitive(desc, rows[i], rows[last], rows[i]);
      }
      BeforeIrreflexive(desc, rows[i]);
    }
  }

  lemma Regroup(all: seq<Pos>, a: seq<Pos>, b: seq<Pos>, ahead: seq<Pos>, left: seq<Pos>)
    requires all == a + ahead && ahead == b + left
    ensures all == (a + b) + left
  {
  }

  /** What was returned and what is ahead make up the sorted table. */
  ghost predicate Accounts(desc: bool, s: set<Pos>, w: Walk) {
    Sorted(desc, s) == w.items + Remaining(desc, s, w.from, w.done)
  }

  lemma AccountsStep(desc: bool, s: set<Pos>, w: Walk, limit: Size)
    requires Accounts(desc, s, w) && !w.done
    ensures Accounts(desc, s, Extended(w, Fetch(desc, s, w.from, limit)))
  {
    var pg := Fetch(desc, s, w.from, limit);
    FetchSplits(desc, s, w.from, limit);
    Regroup(Sorted(desc, s), w.items, pg.items, Remaining(desc, s, w.from, false),
            Remaining(desc, s, pg.next, pg.next.None?));
  }

  lemma {:induction false} StaticWalk(desc: bool, tables: nat -> set<Pos>, limits: nat -> Size, s: set<Pos>, i: nat)
    requires forall j :: 0 <= j < i ==> tables(j) == s
    ensures Accounts(desc, s, WalkTo(desc, tables, limits, i))
    ensures !WalkTo(desc, tables, limits, i).done ==> |WalkTo(desc, tables, limits, i).items| >= i
  {
    if i == 0 {
      assert After(desc, s, None) == s;
    } else {
      var w := WalkTo(desc, tables, limits, i - 1);
      StaticWalk(desc, tables, limits, s, i - 1);
      if !w.done {
        AccountsStep(desc, s, w, limits(i - 1));
        FetchFaithful(desc, s, w.from, limits(i - 1));
      }
    }
  }

  /** A walk over a table at rest ends, and its pages concatenate to the sorted table. */
  lemma StaticWalkIsTheSort(desc: bool, tables: nat -> set<Pos>, limits: nat -> Size, s: set<Pos>, i: nat)
    requires forall j :: 0 <= j < i ==> tables(j) == s
    ensures i > |s| ==> WalkTo(desc, tables, limits, i).done
    ensures WalkTo(desc, tables, limits, i).done ==> WalkTo(desc, tables, limits, i).items == Sorted(desc, s)
  {
    StaticWalk(desc, tables, limits, s, i);
    SortedLists(desc, s);
  }
}
