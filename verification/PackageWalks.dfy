/** Listing by package name: when the walk over groups at rest is right although a cursor with the
    separator in its anchor does not survive its text. */
module PackageWalks {
  import opened Model
  import opened TextOrder
  import opened Tables
  import opened CursorText
  import opened Keyset
  import opened Listing
  import opened Clients
  import opened Walks

  /** A view by package name. */
  ghost predicate ByText(view: set<Pos>) { forall p :: p in view ==> p.key.KText? }

  predicate PlainAt(p: Pos) { p.key.KText? && Plain(p.key.text) }

  /** No name before row `k` holds the separator. */
  predicate PlainBefore(rows: seq<Pos>, k: nat) { forall x :: 0 <= x < k && x < |rows| ==> PlainAt(rows[x]) }

  /** The condition: only the last name may hold it. */
  predicate PlainButLast(rows: seq<Pos>) { forall x :: 0 <= x < |rows| - 1 ==> PlainAt(rows[x]) }

  ghost predicate AtRest(views: nat -> set<Pos>, view: set<Pos>) { forall j: nat :: views(j) == view }

  /** One row a page. */
  function Ones(): nat -> nat { (j: nat) => 1 }

  /** A page with a cursor leaves rows. */
  lemma PageLeavesRows(view: set<Pos>, from: Option<Pos>, size: Size)
    requires Fetch(false, view, from, size).next.Some?
    ensures Remaining(false, view, Fetch(false, view, from, size).next, false) != []
  {
    FetchSplits(false, view, from, size);
    FetchShape(false, view, from, size);
  }

  /** How far a walk over a view at rest is: its cursor is a row before the last. */
  ghost predicate Midwalk(w: Walk, rows: seq<Pos>) {
    && |w.items| <= |rows| && w.items == rows[..|w.items|]
    && (w.from.Some? ==> 0 < |w.items| < |rows| && w.from.value == rows[|w.items| - 1])
  }

  lemma WalkAt(view: set<Pos>, views: nat -> set<Pos>, sizes: nat -> Size, i: nat)
    requires AtRest(views, view)
    ensures Midwalk(WalkTo(false, views, sizes, i), Sorted(false, view))
  {
    var w := WalkTo(false, views, sizes, i);
    StaticWalk(false, views, sizes, view, i);
    WalkAdvances(false, views, sizes, i);
    if w.from.Some? {
      CursorLeavesRows(view, views, sizes, i);
    }
  }

  lemma {:induction false} CursorLeavesRows(view: set<Pos>, views: nat -> set<Pos>, sizes: nat -> Size, i: nat)
    requires AtRest(views, view) && WalkTo(false, views, sizes, i).from.Some?
    ensures !WalkTo(false, views, sizes, i).done
    ensures Remaining(false, view, WalkTo(false, views, sizes, i).from, false) != []
  {
    var before := WalkTo(false, views, sizes, i - 1);
    if before.done {
      if before.from.Some? {
        CursorLeavesRows(view, views, sizes, i - 1);
      }
    } else {
      PageLeavesRows(view, before.from, sizes(i - 1));
    }
  }

  /** With one row a page, `i` pages hold at most `i` rows. */
  lemma {:induction false} OneRowEach(views: nat -> set<Pos>, i: nat)
    ensures |WalkTo(false, views, Sizes(Ones()), i).items| <= i
  {
    if i > 0 {
      var w := WalkTo(false, views, Sizes(Ones()), i - 1);
      OneRowEach(views, i - 1);
      assert Sizes(Ones())(i - 1) == 1;
    }
  }

  /** The client sees the keyset walk while every cursor it echoes survives: to the end, if every
      name but the last is plain, and otherwise up to the page with the first other name. */
  lemma PlainWalk(view: set<Pos>, views: nat -> set<Pos>, limits: nat -> nat, i: nat, k: nat)
    requires AtRest(views, view) && ByText(view) && PlainBefore(Sorted(false, view), k)
    requires k + 1 >= |Sorted(false, view)| || (limits == Ones() && i <= k + 1)
    ensures Agrees(PackageAsc, views, limits, i)
  {
    forall n: nat | n < i
      ensures EchoWorks(PackageAsc, views, limits, n)
    {
      EchoSurvives(view, views, limits, n, k);
    }
    EchoingWalk(PackageAsc, views, limits, i);
  }

  lemma EchoSurvives(view: set<Pos>, views: nat -> set<Pos>, limits: nat -> nat, i: nat, k: nat)
    requires AtRest(views, view) && ByText(view) && PlainBefore(Sorted(false, view), k)
    requires k + 1 >= |Sorted(false, view)| || (limits == Ones() && i <= k)
    ensures EchoWorks(PackageAsc, views, limits, i)
  {
    var w := WalkTo(false, views, Sizes(limits), i);
    WalkAt(view, views, Sizes(limits), i);
    if w.from.Some? {
      if limits == Ones() {
        OneRowEach(views, i);
      }
      assert PlainAt(Sorted(false, view)[|w.items| - 1]);
    }
  }

  /** Every name but the last is plain: the walk is right for every choice of limits. */
  lemma PlainIsRight(view: set<Pos>, views: nat -> set<Pos>, limits: nat -> nat, i: nat)
    requires AtRest(views, view) && ByText(view) && PlainButLast(Sorted(false, view))
    ensures RightAt(ClientTo(Viewed(PackageAsc, views), limits, i), false, view, i)
  {
    var n := |Sorted(false, view)|;
    PlainWalk(view, views, limits, i, if n == 0 then 0 else n - 1);
    StaticWalkIsTheSort(false, views, Sizes(limits), view, i);
  }

  // ---------------------------------------------------------------- the first name with the separator

  /** With one row a page and the first names plain, the client is at the row after `k + 1` pages. */
  lemma {:induction false} WalkIsAt(view: set<Pos>, views: nat -> set<Pos>, k: nat)
    requires AtRest(views, view) && k + 1 < |Sorted(false, view)|
    ensures var w, rows := WalkTo(false, views, Sizes(Ones()), k + 1), Sorted(false, view);
            !w.done && w.items == rows[..k + 1] && w.from == Some(rows[k])
  {
    var rows, sizes := Sorted(false, view), Sizes(Ones());
    var before, w := WalkTo(false, views, sizes, k), WalkTo(false, views, sizes, k + 1);
    if k > 0 {
      WalkIsAt(view, views, k - 1);
    }
    StaticWalk(false, views, sizes, view, k);
    assert !before.done;
    StaticWalk(false, views, sizes, view, k + 1);
    OneRowEach(views, k + 1);
    WalkAt(view, views, sizes, k + 1);
    assert w == Extended(before, Fetch(false, view, before.from, 1));
  }

  /** A page of one row is the first row ahead. */
  lemma FirstAhead(view: set<Pos>, from: Option<Pos>, p: Pos) returns (r: Pos)
    requires p in After(false, view, from)
    ensures Fetch(false, view, from, 1).items == [r] && r in view && (r == p || Before(false, r, p))
  {
    var ahead := After(false, view, from);
    var rows := Sorted(false, ahead);
    SortedLists(false, ahead);
    FetchShape(false, view, from, 1);
    assert p in rows;
    r := rows[0];
    assert r in rows;
  }

  lemma AtOrBefore(view: set<Pos>, k: nat, r: Pos) returns (x: nat)
    requires k < |Sorted(false, view)| && r in view
    requires r == Sorted(false, view)[k] || Before(false, r, Sorted(false, view)[k])
    ensures x <= k && Sorted(false, view)[x] == r
  {
    var rows := Sorted(false, view);
    SortedLists(false, view);
    assert r in rows;
    x :| 0 <= x < |rows| && rows[x] == r;
    if k < x {
      NotBeforeItself(false, rows, k, x);
    }
  }

  /** Echoing the cursor of such a row asks for a page that starts at or before it. */
  lemma EchoGoesBack(view: set<Pos>, k: nat) returns (x: nat)
    requires ByText(view) && k < |Sorted(false, view)| && !PlainAt(Sorted(false, view)[k])
    ensures var rows := Sorted(false, view);
            x <= k
            && var r := View(PackageAsc, view)(Some(Printed(PackageAsc)(rows[k])), 1);
               r.Some? && r.value.ids == [rows[x].id]
  {
    var rows := Sorted(false, view);
    SortedLists(false, view);
    var p := rows[k];
    assert p in rows && p.key.KText?;
    RowAheadOfItsOwnCursor(p.key.text, p.id);
    var echoed := Parse(Print(CursorAt(PackageAsc, p)));
    var r := FirstAhead(view, PosAt(echoed), p);
    x := AtOrBefore(view, k, r);
    assert IdsOf([r]) == [r.id];
  }

  /** At the first name with the separator that is not the last, a client that asks for one row a
      page is given a row again that it has already. */
  lemma RowComesAgain(view: set<Pos>, views: nat -> set<Pos>, k: nat) returns (x: nat)
    requires AtRest(views, view) && ByText(view) && k + 1 < |Sorted(false, view)|
    requires PlainBefore(Sorted(false, view), k) && !PlainAt(Sorted(false, view)[k])
    ensures var rows := Sorted(false, view);
            x <= k
            && ClientTo(Viewed(PackageAsc, views), Ones(), k + 2).ids == IdsOf(rows[..k + 1]) + [rows[x].id]
  {
    WalkIsAt(view, views, k);
    PlainWalk(view, views, Ones(), k + 1, k);
    x := EchoGoesBack(view, k);
  }

  // ---------------------------------------------------------------- when listing by package is right

  /** A client of a list of groups at rest, by package name. */
  ghost function PackageClient(groups: Groups, f: CrashFilter, limits: nat -> nat, i: nat): Client {
    ClientTo(GroupServers(_ => groups, f, PackageAsc), limits, i)
  }

  /** The groups in listing order. */
  ghost function Rows(groups: Groups, f: CrashFilter): seq<Pos> { Sorted(false, GroupView(groups, f, PackageAsc)) }

  /** The walk is right for every choice of limits. */
  ghost predicate AlwaysRight(groups: Groups, f: CrashFilter) {
    forall limits: nat -> nat, i: nat :: RightAt(PackageClient(groups, f, limits, i), false, GroupView(groups, f, PackageAsc), i)
  }

  ghost function PackageViews(groups: Groups, f: CrashFilter): nat -> set<Pos> { GroupViews(_ => groups, f, PackageAsc) }

  lemma ViewsAtRest(groups: Groups, f: CrashFilter)
    ensures AtRest(PackageViews(groups, f), GroupView(groups, f, PackageAsc)) && ByText(GroupView(groups, f, PackageAsc))
  {
  }

  lemma PackageClientViews(groups: Groups, f: CrashFilter, limits: nat -> nat, i: nat)
    requires ValidFilter(f)
    ensures PackageClient(groups, f, limits, i) == ClientTo(Viewed(PackageAsc, PackageViews(groups, f)), limits, i)
  {
    GroupClientViews(_ => groups, f, PackageAsc, limits, i);
  }

  lemma {:induction false} FirstNotPlain(rows: seq<Pos>, n: nat) returns (k: nat)
    requires n < |rows| && !PlainAt(rows[n])
    ensures k <= n && !PlainAt(rows[k]) && PlainBefore(rows, k)
  {
    if x: nat :| x < n && !PlainAt(rows[x]) {
      k := FirstNotPlain(rows, x);
    } else {
      k := n;
    }
  }

  /** A listing by package names no group twice. */
  lemma NoIdTwice(groups: Groups, f: CrashFilter, x: nat, y: nat)
    requires x < y < |Rows(groups, f)|
    ensures Rows(groups, f)[x].id != Rows(groups, f)[y].id
  {
    var view := GroupView(groups, f, PackageAsc);
    var rows := Sorted(false, view);
    SortedLists(false, view);
    assert rows[x] in view && rows[y] in view && Before(false, rows[x], rows[y]);
    BeforeIrreflexive(false, rows[x]);
  }

  lemma GroupComesAgain(groups: Groups, f: CrashFilter, k: nat) returns (x: nat)
    requires ValidFilter(f) && k + 1 < |Rows(groups, f)|
    requires PlainBefore(Rows(groups, f), k) && !PlainAt(Rows(groups, f)[k])
    ensures x <= k
    ensures PackageClient(groups, f, Ones(), k + 2).ids == IdsOf(Rows(groups, f)[..k + 1]) + [Rows(groups, f)[x].id]
  {
    ViewsAtRest(groups, f);
    x := RowComesAgain(GroupView(groups, f, PackageAsc), PackageViews(groups, f), k);
    PackageClientViews(groups, f, Ones(), k + 2);
  }

  lemma RightClientListsAll(groups: Groups, f: CrashFilter, k: nat)
    requires AlwaysRight(groups, f) && k < |Rows(groups, f)|
    ensures PackageClient(groups, f, Ones(), k + 1).ids <= IdsOf(Rows(groups, f))
  {
    var view := GroupView(groups, f, PackageAsc);
    SortedLists(false, view);
    ClientGrows(GroupServers(_ => groups, f, PackageAsc), Ones(), k + 1, |view| + 1);
    assert RightAt(PackageClient(groups, f, Ones(), |view| + 1), false, view, |view| + 1);
  }

  lemma NotAPrefix(rows: seq<Pos>, k: nat, x: nat)
    requires x <= k < |rows| - 1 && rows[x].id != rows[k + 1].id
    ensures !(IdsOf(rows[..k + 1]) + [rows[x].id] <= IdsOf(rows))
  {
    assert (IdsOf(rows[..k + 1]) + [rows[x].id])[k + 1] == rows[x].id;
    assert IdsOf(rows)[k + 1] == rows[k + 1].id;
  }

  /** If a name before the last holds the separator, the walk with one row a page goes wrong. */
  lemma SeparatorGoesWrong(groups: Groups, f: CrashFilter, n: nat)
    requires ValidFilter(f) && n + 1 < |Rows(groups, f)| && !PlainAt(Rows(groups, f)[n])
    ensures !AlwaysRight(groups, f)
  {
    var k := FirstNotPlain(Rows(groups, f), n);
    var x := GroupComesAgain(groups, f, k);
    NoIdTwice(groups, f, x, k + 1);
    NotAPrefix(Rows(groups, f), k, x);
    if AlwaysRight(groups, f) {
      RightClientListsAll(groups, f, k + 1);
    }
  }

  /** Over groups at rest, listing by package name is right for every choice of limits, never
      refused, ended, and each group once in order, exactly when no name but the last of the sorted
      list holds the separator. */
  lemma PackagesAtRestExactly(groups: Groups, f: CrashFilter)
    requires ValidFilter(f)
    ensures AlwaysRight(groups, f) <==> PlainButLast(Rows(groups, f))
  {
    var view, rows := GroupView(groups, f, PackageAsc), Rows(groups, f);
    if PlainButLast(rows) {
      ViewsAtRest(groups, f);
      forall limits: nat -> nat, i: nat
        ensures RightAt(PackageClient(groups, f, limits, i), false, view, i)
      {
        PackageClientViews(groups, f, limits, i);
        PlainIsRight(view, PackageViews(groups, f), limits, i);
      }
    } else {
      var n :| 0 <= n < |rows| - 1 && !PlainAt(rows[n]);
      SeparatorGoesWrong(groups, f, n);
    }
  }

  // ---------------------------------------------------------------- a walk that lists a group twice

  function Everything(): CrashFilter {
    CrashFilter([], [], [], None, None, true, true, false, false, "")
  }

  function Named(package: string): Group {
    Group(package, package, 0, JavaException, false, true, true, false, None, None, 1, 0, 0, 0)
  }

  function TwoGroups(): Groups { map["g1" := Named("b|x"), "g2" := Named("c")] }

  lemma TwoGroupsSorted()
    ensures Rows(TwoGroups(), Everything()) == [Pos(KText("b|x"), "g1"), Pos(KText("c"), "g2")]
  {
    var view, a, b := GroupView(TwoGroups(), Everything(), PackageAsc), Pos(KText("b|x"), "g1"), Pos(KText("c"), "g2");
    assert Keeps(Everything(), Named("b|x")) && Keeps(Everything(), Named("c"));
    assert TwoGroups()["g1"] == Named("b|x") && TwoGroups()["g2"] == Named("c");
    assert view == {a, b};
    assert Before(false, a, b) by {
      assert LexLess("b|x", "c");
    }
    SortedLists(false, view);
    OrderedUnique(false, Sorted(false, view), [a, b]);
  }

  lemma FirstTwice(rows: seq<Pos>, a: Pos, b: Pos)
    requires rows == [a, b]
    ensures IdsOf(rows[..1]) + [rows[0].id] == [a.id, a.id]
  {
  }

  /** Two groups, one row a page: the second page is the first group again. */
  lemma GroupListedTwice()
    ensures PackageClient(TwoGroups(), Everything(), Ones(), 2).ids == ["g1", "g1"]
  {
    var a, b := Pos(KText("b|x"), "g1"), Pos(KText("c"), "g2");
    TwoGroupsSorted();
    assert !PlainAt(a) by {
      assert a.key.text[1] == SEPARATOR;
    }
    var x := GroupComesAgain(TwoGroups(), Everything(), 0);
    FirstTwice(Rows(TwoGroups(), Everything()), a, b);
  }
}
