/**
 What a client of the lists is given, said of the stored columns: which groups and records, and in
 which order.
 */
module ListOrder {
  import opened Model
  import opened TextOrder
  import opened Ids
  import opened Tables
  import opened Search
  import opened CursorText
  import opened Keyset
  import opened Listing
  import opened Clients
  import opened Walks

  // ---------------------------------------------------------------- which groups

  /** A user's app is always shown, a preinstalled one and a process without a package on request. */
  predicate Shown(f: CrashFilter, g: Group) {
    if !g.packageInstalled then f.includeSystemProcesses
    else if g.isSystemApp then f.includeSystemApps
    else true
  }

  /** Each restriction that is asked for holds of the group. */
  predicate Matches(f: CrashFilter, g: Group) {
    && (f.packages == [] || g.packageName in f.packages)
    && (f.kinds == [] || g.kind in f.kinds)
    && (f.userIds == [] || g.userId in f.userIds)
    && (f.timeFromMs.None? || f.timeFromMs.value <= g.lastSeenMs)
    && (f.timeToMs.None? || g.firstSeenMs < f.timeToMs.value)
    && Shown(f, g)
    && (!f.onlyMainProcess || g.isMainProcess)
    && (!f.onlySelfHandled || g.selfHandled)
    && (Occurs(f.query, g.packageName)
        || (g.summaryClass.Some? && Occurs(f.query, g.summaryClass.value))
        || (g.summaryText.Some? && Occurs(f.query, g.summaryText.value)))
  }

  lemma OccursInNothing(query: string, text: string)
    ensures query == "" ==> Occurs(query, text)
    ensures Occurs(query, "") ==> query == ""
  {
    if query == "" {
      assert StartsWith(text[0..], query);
    }
  }

  /** The `WHERE` clause keeps exactly the groups that match. */
  lemma KeepsExactly(f: CrashFilter, g: Group)
    ensures Keeps(f, g) <==> Matches(f, g)
  {
    SearchIsSubstring(f.query, g);
    OccursInNothing(f.query, g.packageName);
  }

  /** An instant inside the span of the group and the range asked for. */
  predicate InBoth(f: CrashFilter, g: Group, t: int)
    requires f.timeFromMs.Some? && f.timeToMs.Some?
  {
    g.firstSeenMs <= t <= g.lastSeenMs && f.timeFromMs.value <= t < f.timeToMs.value
  }

  /** Asking for a time range asks for the groups whose span overlaps it. */
  lemma TimeIsOverlap(f: CrashFilter, g: Group)
    requires g.firstSeenMs <= g.lastSeenMs && Keeps(f.(timeFromMs := None, timeToMs := None), g)
    requires f.timeFromMs.Some? && f.timeToMs.Some? && f.timeFromMs.value < f.timeToMs.value
    ensures Keeps(f, g) <==> exists t: int :: InBoth(f, g, t)
  {
    if Keeps(f, g) {
      assert InBoth(f, g, if g.firstSeenMs < f.timeFromMs.value then f.timeFromMs.value else g.firstSeenMs);
    }
    KeepsExactly(f, g);
    KeepsExactly(f.(timeFromMs := None, timeToMs := None), g);
  }

  // ---------------------------------------------------------------- the order of groups

  /** Group `a` comes before `b`. */
  predicate Precedes(groups: Groups, sort: SortKey, a: string, b: string)
    requires a in groups && b in groups
  {
    match sort
    case LastSeenDesc =>
      groups[a].lastSeenMs > groups[b].lastSeenMs || (groups[a].lastSeenMs == groups[b].lastSeenMs && LexLess(b, a))
    case FirstSeenDesc =>
      groups[a].firstSeenMs > groups[b].firstSeenMs || (groups[a].firstSeenMs == groups[b].firstSeenMs && LexLess(b, a))
    case OccurrenceDesc =>
      groups[a].occurrence > groups[b].occurrence || (groups[a].occurrence == groups[b].occurrence && LexLess(b, a))
    case PackageAsc =>
      LexLess(groups[a].packageName, groups[b].packageName)
      || (groups[a].packageName == groups[b].packageName && LexLess(a, b))
  }

  /** The ids are of matching groups, each once, in order. */
  ghost predicate OrderedGroups(groups: Groups, f: CrashFilter, sort: SortKey, ids: seq<string>) {
    && (forall x :: 0 <= x < |ids| ==> ids[x] in groups && Matches(f, groups[ids[x]]))
    && (forall x, y :: 0 <= x < y < |ids| ==> Precedes(groups, sort, ids[x], ids[y]))
  }

  lemma PlaceOfGroup(groups: Groups, f: CrashFilter, sort: SortKey, p: Pos)
    requires p in GroupView(groups, f, sort)
    ensures p.id in groups && Matches(f, groups[p.id]) && p.key == Column(groups[p.id], sort)
  {
    KeepsExactly(f, groups[p.id]);
  }

  lemma OrderOfPlaces(groups: Groups, f: CrashFilter, sort: SortKey, p: Pos, q: Pos)
    requires p in GroupView(groups, f, sort) && q in GroupView(groups, f, sort) && Before(IsDescending(sort), p, q)
    ensures p.id in groups && q.id in groups && Precedes(groups, sort, p.id, q.id)
  {
  }

  lemma ItemsAreOrdered(groups: Groups, f: CrashFilter, sort: SortKey, items: seq<Pos>)
    requires Ordered(IsDescending(sort), items) && forall p :: p in items ==> p in GroupView(groups, f, sort)
    ensures OrderedGroups(groups, f, sort, IdsOf(items))
  {
    forall x | 0 <= x < |items|
      ensures items[x].id in groups && Matches(f, groups[items[x].id])
    {
      assert items[x] in items;
      PlaceOfGroup(groups, f, sort, items[x]);
    }
    forall x, y | 0 <= x < y < |items|
      ensures Precedes(groups, sort, items[x].id, items[y].id)
    {
      assert items[x] in items && items[y] in items;
      OrderOfPlaces(groups, f, sort, items[x], items[y]);
    }
  }

  lemma WalkReadsView(desc: bool, view: set<Pos>, views: nat -> set<Pos>, sizes: nat -> Size, i: nat)
    requires forall j: nat :: views(j) == view
    ensures forall p :: p in WalkTo(desc, views, sizes, i).items ==> p in view
  {
    forall p | p in WalkTo(desc, views, sizes, i).items
      ensures p in view
    {
      var j := WalkReadsTables(desc, views, sizes, i, p);
    }
  }

  /** What a client of an addressable view at rest holds: an ordered part of the view, and all of it
      once it is done. */
  lemma ClientHolds(sort: SortKey, view: set<Pos>, views: nat -> set<Pos>, limits: nat -> nat, i: nat) returns (items: seq<Pos>)
    requires Addressable(sort, view) && forall j: nat :: views(j) == view
    ensures var c := ClientTo(Viewed(sort, views), limits, i);
            && c.ids == IdsOf(items) && Ordered(IsDescending(sort), items)
            && (forall p :: p in items ==> p in view)
            && (c.done ==> forall p :: p in view ==> p in items)
  {
    var desc, sizes := IsDescending(sort), Sizes(limits);
    ClientSeesTheWalk(sort, views, limits, i);
    items := WalkTo(desc, views, sizes, i).items;
    WalkAdvances(desc, views, sizes, i);
    WalkReadsView(desc, view, views, sizes, i);
    StaticWalkIsTheSort(desc, views, sizes, view, i);
    SortedLists(desc, view);
  }

  lemma ViewHasAll(groups: Groups, f: CrashFilter, sort: SortKey, items: seq<Pos>, id: string)
    requires id in groups && Matches(f, groups[id]) && forall p :: p in GroupView(groups, f, sort) ==> p in items
    ensures id in IdsOf(items)
  {
    KeepsExactly(f, groups[id]);
    var p := Pos(Column(groups[id], sort), id);
    assert p in GroupView(groups, f, sort);
    var x :| 0 <= x < |items| && items[x] == p;
    assert IdsOf(items)[x] == id;
  }

  /** Over groups at rest a client holds matching groups in the order of the sort's own column, ties
      by id, and every matching group once it is done. */
  lemma GroupsAreOrdered(groups: Groups, f: CrashFilter, sort: SortKey, limits: nat -> nat, i: nat)
    requires ValidFilter(f) && GroupsAddressable(groups, sort)
    ensures var c := ClientTo(GroupServers(_ => groups, f, sort), limits, i);
            && OrderedGroups(groups, f, sort, c.ids)
            && (c.done ==> forall id :: id in groups && Matches(f, groups[id]) ==> id in c.ids)
  {
    var view, views := GroupView(groups, f, sort), GroupViews(_ => groups, f, sort);
    GroupClientViews(_ => groups, f, sort, limits, i);
    GroupViewAddressable(groups, f, sort);
    var items := ClientHolds(sort, view, views, limits, i);
    ItemsAreOrdered(groups, f, sort, items);
    if ClientTo(GroupServers(_ => groups, f, sort), limits, i).done {
      forall id | id in groups && Matches(f, groups[id])
        ensures id in IdsOf(items)
      {
        ViewHasAll(groups, f, sort, items, id);
      }
    }
  }

  // ---------------------------------------------------------------- the order of records

  /** The ids are the texts of `rows`, rows of the group, newest first. */
  predicate OrderedRecords(records: Records, group: string, ids: seq<string>, rows: seq<nat>) {
    && |ids| == |rows|
    && (forall x :: 0 <= x < |rows| ==>
          rows[x] in records && records[rows[x]].group == group && ids[x] == Encode(rows[x]))
    && (forall x, y :: 0 <= x < y < |rows| ==>
          && rows[x] in records && rows[y] in records
          && var a, b := records[rows[x]].happenedAtMs, records[rows[y]].happenedAtMs;
             a > b || (a == b && rows[x] > rows[y]))
  }

  lemma {:induction false} RowsOf(records: Records, group: string, items: seq<Pos>) returns (rows: seq<nat>)
    requires forall p :: p in items ==> p in RecordView(records, group)
    ensures |rows| == |items|
    ensures forall x :: 0 <= x < |rows| ==>
              rows[x] in records && records[rows[x]].group == group
              && items[x] == Pos(KInt(records[rows[x]].happenedAtMs), Encode(rows[x]))
  {
    rows := [];
    if items != [] {
      var n := |items| - 1;
      rows := RowsOf(records, group, items[..n]);
      assert items[n] in items;
      var id :| id in records && records[id].group == group && items[n] == Pos(KInt(records[id].happenedAtMs), Encode(id));
      rows := rows + [id];
    }
  }

  lemma RowsAreOrdered(records: Records, group: string, items: seq<Pos>, rows: seq<nat>)
    requires Representable(records) && Ordered(true, items) && |rows| == |items|
    requires forall x :: 0 <= x < |rows| ==>
               rows[x] in records && records[rows[x]].group == group
               && items[x] == Pos(KInt(records[rows[x]].happenedAtMs), Encode(rows[x]))
    ensures OrderedRecords(records, group, IdsOf(items), rows)
  {
    forall x, y | 0 <= x < y < |rows|
      ensures var a, b := records[rows[x]].happenedAtMs, records[rows[y]].happenedAtMs;
              a > b || (a == b && rows[x] > rows[y])
    {
      assert Before(true, items[x], items[y]);
      EncodeOrder(rows[y], rows[x]);
    }
  }

  /** Over records at rest a client holds records of the group, newest first, ties by id, and every
      one once it is done. */
  lemma RecordsAreOrdered(records: Records, group: string, limits: nat -> nat, i: nat) returns (rows: seq<nat>)
    requires Representable(records)
    ensures var c := ClientTo(RecordServers(_ => records, group), limits, i);
            && OrderedRecords(records, group, c.ids, rows)
            && (c.done ==> forall id :: id in records && records[id].group == group ==> id in rows)
  {
    var view, views := RecordView(records, group), RecordViews(_ => records, group);
    RecordClientViews(_ => records, group, limits, i);
    RecordViewAddressable(records, group);
    var items := ClientHolds(LastSeenDesc, view, views, limits, i);
    rows := RowsOf(records, group, items);
    RowsAreOrdered(records, group, items, rows);
    if ClientTo(RecordServers(_ => records, group), limits, i).done {
      forall id | id in records && records[id].group == group
        ensures id in rows
      {
        var p := Pos(KInt(records[id].happenedAtMs), Encode(id));
        assert p in view;
        var x :| 0 <= x < |items| && items[x] == p;
        DecodeEncode(id);
        DecodeEncode(rows[x]);
      }
    }
  }
}
