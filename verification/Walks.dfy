/** Walks through the printed cursor: what a client sees that echoes each cursor's text back. */
module Walks {
  import opened Model
  import opened TextOrder
  import opened Ids
  import opened Tables
  import opened CursorText
  import opened Keyset
  import opened Listing
  import opened Clients

  /** Reads the cursor's text, lists, and prints the next cursor; a text that does not parse is refused. */
  ghost function Served(list: (Option<Cursor>, nat) -> Option<Listed>): Server {
    (from: Option<string>, limit: nat) =>
      if from.Some? && Parse(from.value).None? then None
      else
        var r := list(if from.Some? then Parse(from.value) else None, limit);
        if r.None? then None else Some(Reply(r.value.ids, if r.value.next.Some? then Some(Print(r.value.next.value)) else None))
  }

  /** Pages of a view. */
  ghost function View(sort: SortKey, view: set<Pos>): Server {
    Served((c: Option<Cursor>, limit: nat) => ListView(sort, view, c, limit))
  }

  ghost function Viewed(sort: SortKey, views: nat -> set<Pos>): nat -> Server { (j: nat) => View(sort, views(j)) }

  ghost function GroupServer(groups: Groups, f: CrashFilter, sort: SortKey): Server {
    Served((c: Option<Cursor>, limit: nat) => ListGroups(groups, f, sort, c, limit))
  }

  ghost function GroupServers(tables: nat -> Groups, f: CrashFilter, sort: SortKey): nat -> Server {
    (j: nat) => GroupServer(tables(j), f, sort)
  }

  ghost function RecordServer(records: Records, group: string): Server {
    Served((c: Option<Cursor>, limit: nat) => ListRecords(records, group, c, limit))
  }

  ghost function RecordServers(tables: nat -> Records, group: string): nat -> Server {
    (j: nat) => RecordServer(tables(j), group)
  }

  lemma SameLists(a: (Option<Cursor>, nat) -> Option<Listed>, b: (Option<Cursor>, nat) -> Option<Listed>)
    requires forall c, limit :: a(c, limit) == b(c, limit)
    ensures SameAnswers(Served(a), Served(b))
  {
    forall from: Option<string>, limit: nat
      ensures Served(a)(from, limit) == Served(b)(from, limit)
    {
      var c := if from.Some? then Parse(from.value) else None;
      assert a(c, limit) == b(c, limit);
    }
  }

  /** Every row's cursor survives its text and fits the sort. */
  ghost predicate Addressable(sort: SortKey, view: set<Pos>) {
    forall p :: p in view ==> Printable(CursorAt(sort, p)) && ValidFor(CursorAt(sort, p), sort)
  }

  ghost predicate AllAddressable(sort: SortKey, views: nat -> set<Pos>, i: nat) {
    forall j: nat :: j < i ==> Addressable(sort, views(j))
  }

  predicate Survives(sort: SortKey, from: Option<Pos>) {
    from.Some? ==> Printable(CursorAt(sort, from.value)) && ValidFor(CursorAt(sort, from.value), sort)
  }

  function Printed(sort: SortKey): Pos -> string { (p: Pos) => Print(CursorAt(sort, p)) }

  function Sizes(limits: nat -> nat): nat -> Size { (j: nat) => EffectiveLimit(limits(j)) }

  lemma ViewPage(sort: SortKey, view: set<Pos>, from: Option<Pos>, limit: nat)
    requires from.Some? ==> ValidFor(CursorAt(sort, from.value), sort)
    ensures var pg := Fetch(IsDescending(sort), view, from, EffectiveLimit(limit));
            ListView(sort, view, CursorFor(sort, from), limit) == Some(Listed(IdsOf(pg.items), CursorFor(sort, pg.next)))
  {
    assert PosAt(CursorFor(sort, from)) == from;
  }

  lemma EchoIsPage(sort: SortKey, view: set<Pos>, from: Option<Pos>, limit: nat)
    requires Survives(sort, from)
    ensures ServesPage(View(sort, view), limit, Printed(sort), Fetch(IsDescending(sort), view, from, EffectiveLimit(limit)), from)
  {
    ViewPage(sort, view, from, limit);
    if from.Some? {
      RoundTripExactly(CursorAt(sort, from.value));
    }
  }

  /** After `i` pages the client holds what the keyset walk returned. */
  ghost predicate Agrees(sort: SortKey, views: nat -> set<Pos>, limits: nat -> nat, i: nat) {
    InStep(Viewed(sort, views), limits, Printed(sort), IsDescending(sort), views, Sizes(limits), i)
  }

  /** The cursor the client echoes after `i` pages survives its text. */
  ghost predicate EchoWorks(sort: SortKey, views: nat -> set<Pos>, limits: nat -> nat, i: nat) {
    Survives(sort, WalkTo(IsDescending(sort), views, Sizes(limits), i).from)
  }

  lemma EchoIsServed(sort: SortKey, views: nat -> set<Pos>, limits: nat -> nat, n: nat)
    requires EchoWorks(sort, views, limits, n)
    ensures ServedAt(Viewed(sort, views), limits, Printed(sort), IsDescending(sort), views, Sizes(limits), n)
  {
    EchoIsPage(sort, views(n), WalkTo(IsDescending(sort), views, Sizes(limits), n).from, limits(n));
  }

  /** A client that echoes surviving cursors sees the keyset walk. */
  lemma EchoingWalk(sort: SortKey, views: nat -> set<Pos>, limits: nat -> nat, i: nat)
    requires forall n: nat :: n < i ==> EchoWorks(sort, views, limits, n)
    ensures Agrees(sort, views, limits, i)
  {
    forall n: nat | n < i
      ensures ServedAt(Viewed(sort, views), limits, Printed(sort), IsDescending(sort), views, Sizes(limits), n)
    {
      EchoIsServed(sort, views, limits, n);
    }
    ServedWalk(Viewed(sort, views), limits, Printed(sort), IsDescending(sort), views, Sizes(limits), i);
  }

  /** When every row's cursor survives its text, an echoing client sees the keyset walk. */
  lemma ClientSeesTheWalk(sort: SortKey, views: nat -> set<Pos>, limits: nat -> nat, i: nat)
    requires AllAddressable(sort, views, i)
    ensures Agrees(sort, views, limits, i)
  {
    forall n: nat | n < i
      ensures EchoWorks(sort, views, limits, n)
    {
      CursorAddressable(sort, views, limits, n);
    }
    EchoingWalk(sort, views, limits, i);
  }

  lemma CursorAddressable(sort: SortKey, views: nat -> set<Pos>, limits: nat -> nat, i: nat)
    requires AllAddressable(sort, views, i)
    ensures EchoWorks(sort, views, limits, i)
  {
    var w := WalkTo(IsDescending(sort), views, Sizes(limits), i);
    WalkAdvances(IsDescending(sort), views, Sizes(limits), i);
    if w.from.Some? {
      var j := WalkReadsTables(IsDescending(sort), views, Sizes(limits), i, w.from.value);
      assert Addressable(sort, views(j));
    }
  }

  lemma {:induction false} PrefixIsLess(s: string, t: string)
    requires |s| < |t| && s == t[..|s|]
    ensures LexLess(s, t)
  {
    if s != [] {
      assert s[0] == t[0] && s[1..] == t[1..][..|s| - 1];
      PrefixIsLess(s[1..], t[1..]);
    }
  }

  lemma CutAnchorIsPrefix(text: string, tiebreak: string)
    requires !Plain(text)
    ensures var cut := NextPart(Joined(text, tiebreak)).0; |cut| < |text| && cut == text[..|cut|]
  {
    var s := Joined(text, tiebreak);
    var part := NextPart(s);
    NextPartPlain(s);
    var k :| 0 <= k < |text| && text[k] == SEPARATOR;
    assert s[k] == SEPARATOR;
    assert forall i :: 0 <= i < |part.0| ==> part.0[i] == s[i];
  }

  /** Why package names must not hold the separator: the echoed cursor of a row admits that same
      row again exactly when its name holds one. */
  lemma RowAheadOfItsOwnCursor(text: string, id: string)
    ensures var p := Pos(KText(text), id);
            var echoed := Parse(Print(CursorAt(PackageAsc, p)));
            && echoed.Some? && ValidFor(echoed.value, PackageAsc)
            && (Before(false, PosAt(echoed).value, p) <==> !Plain(text))
  {
    var p := Pos(KText(text), id);
    ParsePrint(CursorAt(PackageAsc, p));
    if Plain(text) {
      RoundTripExactly(CursorAt(PackageAsc, p));
      BeforeIrreflexive(false, p);
    } else {
      CutAnchorIsPrefix(text, id);
      PrefixIsLess(NextPart(Joined(text, id)).0, text);
    }
  }

  // ---------------------------------------------------------------- rows that stay

  predicate NamedOnceAt(ids: seq<string>, id: string, k: nat) {
    k < |ids| && ids[k] == id && forall j :: 0 <= j < |ids| && j != k ==> ids[j] != id
  }

  /** A row stands in every view so far, and its id stands nowhere else. */
  ghost predicate Stands(views: nat -> set<Pos>, i: nat, p: Pos) {
    && (forall j :: 0 <= j < i ==> p in views(j))
    && (forall j, q :: 0 <= j < i && q in views(j) && q.id == p.id ==> q == p)
  }

  lemma RowNamedOnce(sort: SortKey, views: nat -> set<Pos>, limits: nat -> nat, i: nat, p: Pos) returns (k: nat)
    requires AllAddressable(sort, views, i) && Stands(views, i, p)
    requires ClientTo(Viewed(sort, views), limits, i).done
    ensures NamedOnceAt(ClientTo(Viewed(sort, views), limits, i).ids, p.id, k)
    ensures !ClientTo(Viewed(sort, views), limits, i).failed
  {
    ClientSeesTheWalk(sort, views, limits, i);
    k := StableRowListedOnce(IsDescending(sort), views, Sizes(limits), i, p);
  }

  // ---------------------------------------------------------------- groups

  /** Group rows whose cursors survive: any integer column in range, or package names without
      the separator. */
  predicate GroupsAddressable(groups: Groups, sort: SortKey) {
    match sort
    case PackageAsc => forall id :: id in groups ==> Plain(groups[id].packageName)
    case OccurrenceDesc => forall id :: id in groups ==> groups[id].occurrence <= I64_MAX
    case LastSeenDesc => true
    case FirstSeenDesc => true
  }

  lemma GroupViewAddressable(groups: Groups, f: CrashFilter, sort: SortKey)
    requires GroupsAddressable(groups, sort)
    ensures Addressable(sort, GroupView(groups, f, sort))
  {
  }

  ghost function GroupViews(tables: nat -> Groups, f: CrashFilter, sort: SortKey): nat -> set<Pos>
  {
    (j: nat) => GroupView(tables(j), f, sort)
  }

  /** Listing groups is viewing them through the filter. */
  lemma GroupServerIsView(groups: Groups, f: CrashFilter, sort: SortKey)
    requires ValidFilter(f)
    ensures SameAnswers(GroupServer(groups, f, sort), View(sort, GroupView(groups, f, sort)))
  {
    var listed := (c: Option<Cursor>, limit: nat) => ListGroups(groups, f, sort, c, limit);
    var viewed := (c: Option<Cursor>, limit: nat) => ListView(sort, GroupView(groups, f, sort), c, limit);
    forall c: Option<Cursor>, limit: nat
      ensures listed(c, limit) == viewed(c, limit)
    {
      ListGroupsIsKeyset(groups, f, sort, c, limit);
    }
    SameLists(listed, viewed);
  }

  lemma GroupClientViews(tables: nat -> Groups, f: CrashFilter, sort: SortKey, limits: nat -> nat, i: nat)
    requires ValidFilter(f)
    ensures ClientTo(GroupServers(tables, f, sort), limits, i) == ClientTo(Viewed(sort, GroupViews(tables, f, sort)), limits, i)
  {
    var servers, views := GroupServers(tables, f, sort), Viewed(sort, GroupViews(tables, f, sort));
    forall j: nat | j < i
      ensures SameAnswers(servers(j), views(j))
    {
      GroupServerIsView(tables(j), f, sort);
    }
    SameClients(servers, views, limits, i);
  }

  /** A finished walk through printed cursors names a matching group exactly once if it was there
      throughout with an unchanged sort column, whatever happened to the other groups. */
  lemma GroupListedOnce(tables: nat -> Groups, f: CrashFilter, sort: SortKey, limits: nat -> nat, i: nat, id: string, key: Key)
    returns (k: nat)
    requires ValidFilter(f) && forall j :: 0 <= j < i ==> GroupsAddressable(tables(j), sort)
    requires forall j :: 0 <= j < i ==> id in tables(j) && Keeps(f, tables(j)[id]) && Column(tables(j)[id], sort) == key
    requires ClientTo(GroupServers(tables, f, sort), limits, i).done
    ensures NamedOnceAt(ClientTo(GroupServers(tables, f, sort), limits, i).ids, id, k)
    ensures !ClientTo(GroupServers(tables, f, sort), limits, i).failed
  {
    var views := GroupViews(tables, f, sort);
    forall j | 0 <= j < i
      ensures Addressable(sort, views(j)) && Pos(key, id) in views(j)
    {
      GroupViewAddressable(tables(j), f, sort);
    }
    GroupClientViews(tables, f, sort, limits, i);
    k := RowNamedOnce(sort, views, limits, i, Pos(key, id));
  }

  /** The walk was never refused, ends, and what it named is the sorted view. */
  ghost predicate RightAt(c: Client, desc: bool, view: set<Pos>, i: nat) {
    && !c.failed
    && (i > |view| ==> c.done)
    && (c.done ==> c.ids == IdsOf(Sorted(desc, view)))
  }

  lemma ViewAtRest(sort: SortKey, view: set<Pos>, views: nat -> set<Pos>, limits: nat -> nat, i: nat)
    requires Addressable(sort, view) && forall j: nat :: views(j) == view
    ensures RightAt(ClientTo(Viewed(sort, views), limits, i), IsDescending(sort), view, i)
  {
    ClientSeesTheWalk(sort, views, limits, i);
    StaticWalkIsTheSort(IsDescending(sort), views, Sizes(limits), view, i);
  }

  /** On groups at rest the pages, fetched through printed cursors, concatenate to the filtered
      groups in sorted order, and the walk ends; only an unusable filter is refused. */
  lemma GroupsAtRest(groups: Groups, f: CrashFilter, sort: SortKey, limits: nat -> nat, i: nat)
    requires GroupsAddressable(groups, sort)
    ensures var c := ClientTo(GroupServers(_ => groups, f, sort), limits, i);
            if ValidFilter(f) then RightAt(c, IsDescending(sort), GroupView(groups, f, sort), i)
            else c.ids == [] && (i > 0 ==> c.failed)
  {
    if ValidFilter(f) {
      GroupViewAddressable(groups, f, sort);
      GroupClientViews(_ => groups, f, sort, limits, i);
      ViewAtRest(sort, GroupView(groups, f, sort), GroupViews(_ => groups, f, sort), limits, i);
    } else {
      RefusedAtOnce(groups, f, sort, limits, i);
    }
  }

  lemma {:induction false} RefusedAtOnce(groups: Groups, f: CrashFilter, sort: SortKey, limits: nat -> nat, i: nat)
    requires !ValidFilter(f)
    ensures var c := ClientTo(GroupServers(_ => groups, f, sort), limits, i);
            c.ids == [] && c.from == None && (i > 0 ==> c.failed && c.done)
  {
    if i > 0 {
      RefusedAtOnce(groups, f, sort, limits, i - 1);
      assert GroupServers(_ => groups, f, sort)(i - 1) == GroupServer(groups, f, sort);
      assert GroupServer(groups, f, sort)(None, limits(i - 1)) == None;
    }
  }

  // ---------------------------------------------------------------- records

  ghost function RecordViews(tables: nat -> Records, group: string): nat -> set<Pos> { (j: nat) => RecordView(tables(j), group) }

  lemma RecordViewAddressable(records: Records, group: string)
    ensures Addressable(LastSeenDesc, RecordView(records, group))
  {
  }

  lemma RecordStands(records: Records, group: string, id: nat)
    requires id in records && records[id].group == group && forall r :: r in records ==> r < TWO_128
    ensures Pos(KInt(records[id].happenedAtMs), Encode(id)) in RecordView(records, group)
    ensures forall q :: q in RecordView(records, group) && q.id == Encode(id) ==> q.key == KInt(records[id].happenedAtMs)
  {
    forall q | q in RecordView(records, group) && q.id == Encode(id)
      ensures q.key == KInt(records[id].happenedAtMs)
    {
      var r :| r in records && records[r].group == group && q == Pos(KInt(records[r].happenedAtMs), Encode(r));
      DecodeEncode(r);
      DecodeEncode(id);
    }
  }

  lemma RecordViewsStand(tables: nat -> Records, group: string, i: nat, id: nat, at: Ms)
    requires forall j, r :: 0 <= j < i && r in tables(j) ==> r < TWO_128
    requires forall j :: 0 <= j < i ==> id in tables(j) && tables(j)[id].group == group && tables(j)[id].happenedAtMs == at
    ensures Stands(RecordViews(tables, group), i, Pos(KInt(at), Encode(id)))
    ensures AllAddressable(LastSeenDesc, RecordViews(tables, group), i)
  {
    var views, p := RecordViews(tables, group), Pos(KInt(at), Encode(id));
    forall j: nat | j < i
      ensures Addressable(LastSeenDesc, views(j)) && p in views(j)
      ensures forall q :: q in views(j) && q.id == p.id ==> q == p
    {
      RecordViewAddressable(tables(j), group);
      RecordStands(tables(j), group, id);
    }
  }

  lemma RecordServerIsView(records: Records, group: string)
    ensures SameAnswers(RecordServer(records, group), View(LastSeenDesc, RecordView(records, group)))
  {
    var listed := (c: Option<Cursor>, limit: nat) => ListRecords(records, group, c, limit);
    var viewed := (c: Option<Cursor>, limit: nat) => ListView(LastSeenDesc, RecordView(records, group), c, limit);
    forall c: Option<Cursor>, limit: nat
      ensures listed(c, limit) == viewed(c, limit)
    {
      ListRecordsIsKeyset(records, group, c, limit);
    }
    SameLists(listed, viewed);
  }

  lemma RecordClientViews(tables: nat -> Records, group: string, limits: nat -> nat, i: nat)
    ensures ClientTo(RecordServers(tables, group), limits, i)
            == ClientTo(Viewed(LastSeenDesc, RecordViews(tables, group)), limits, i)
  {
    var servers, views := RecordServers(tables, group), Viewed(LastSeenDesc, RecordViews(tables, group));
    forall j: nat | j < i
      ensures SameAnswers(servers(j), views(j))
    {
      RecordServerIsView(tables(j), group);
    }
    SameClients(servers, views, limits, i);
  }

  /** A finished walk over a group's records names each record that was there throughout exactly
      once. Its cursor always survives: the anchor is a 64-bit timestamp. */
  lemma RecordListedOnce(tables: nat -> Records, group: string, limits: nat -> nat, i: nat, id: nat, at: Ms)
    returns (k: nat)
    requires forall j, r :: 0 <= j < i && r in tables(j) ==> r < TWO_128
    requires forall j :: 0 <= j < i ==> id in tables(j) && tables(j)[id].group == group && tables(j)[id].happenedAtMs == at
    requires i > 0 && ClientTo(RecordServers(tables, group), limits, i).done
    ensures NamedOnceAt(ClientTo(RecordServers(tables, group), limits, i).ids, Encode(id), k)
    ensures !ClientTo(RecordServers(tables, group), limits, i).failed
  {
    var views, p := RecordViews(tables, group), Pos(KInt(at), Encode(id));
    RecordClientViews(tables, group, limits, i);
    RecordViewsStand(tables, group, i, id, at);
    k := RowNamedOnce(LastSeenDesc, views, limits, i, p);
  }

  /** On records at rest the pages concatenate to the group's records, newest first, and the walk
      ends, for every choice of limits. */
  lemma RecordsAtRest(records: Records, group: string, limits: nat -> nat, i: nat)
    ensures RightAt(ClientTo(RecordServers(_ => records, group), limits, i), true, RecordView(records, group), i)
  {
    RecordClientViews(_ => records, group, limits, i);
    RecordViewAddressable(records, group);
    ViewAtRest(LastSeenDesc, RecordView(records, group), RecordViews(_ => records, group), limits, i);
  }
}
