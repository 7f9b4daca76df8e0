/** The list requests over the index: filter, order, cursor and limit, as the queries state them. */
module Listing {
  import opened Model
  import opened TextOrder
  import opened Ids
  import opened Tables
  import opened Search
  import opened CursorText
  import opened Keyset

  const DEFAULT_PAGE_LIMIT: nat := 50
  const MAX_PAGE_LIMIT: nat := 200

  /** `query` is the trimmed search text; an empty list or text restricts nothing. */
  datatype CrashFilter = CrashFilter(
    packages: seq<string>,
    kinds: seq<CrashKind>,
    userIds: seq<int>,
    timeFromMs: Option<Ms>,
    timeToMs: Option<Ms>,
    includeSystemApps: bool,
    includeSystemProcesses: bool,
    onlyMainProcess: bool,
    onlySelfHandled: bool,
    query: string)

  predicate ValidFilter(f: CrashFilter) {
    f.timeFromMs.Some? && f.timeToMs.Some? ==> f.timeFromMs.value <= f.timeToMs.value
  }

  function Coalesce(s: Option<string>): string { if s.Some? then s.value else "" }

  ghost predicate Searched(query: string, g: Group) {
    query != "" ==>
      Like(Pattern(query), g.packageName)
      || Like(Pattern(query), Coalesce(g.summaryClass))
      || Like(Pattern(query), Coalesce(g.summaryText))
  }

  /** The `WHERE` clause of a filter. */
  ghost predicate Keeps(f: CrashFilter, g: Group) {
    && (f.packages != [] ==> g.packageName in f.packages)
    && (f.kinds != [] ==> g.kind in f.kinds)
    && (f.userIds != [] ==> g.userId in f.userIds)
    && (f.timeFromMs.Some? ==> g.lastSeenMs >= f.timeFromMs.value)
    && (f.timeToMs.Some? ==> g.firstSeenMs < f.timeToMs.value)
    && (f.includeSystemApps || !(g.isSystemApp && g.packageInstalled))
    && (f.includeSystemProcesses || g.packageInstalled)
    && (f.onlyMainProcess ==> g.isMainProcess)
    && (f.onlySelfHandled ==> g.selfHandled)
    && Searched(f.query, g)
  }

  /** The search finds a group exactly when the query occurs in its package, its summary class or
      its summary text, up to ASCII case; an empty query keeps every group. */
  lemma SearchIsSubstring(query: string, g: Group)
    ensures Searched(query, g) <==>
              Occurs(query, g.packageName)
              || Occurs(query, Coalesce(g.summaryClass))
              || Occurs(query, Coalesce(g.summaryText))
  {
    PatternMatchesSubstring(query, g.packageName);
    PatternMatchesSubstring(query, Coalesce(g.summaryClass));
    PatternMatchesSubstring(query, Coalesce(g.summaryText));
    if query == "" {
      assert StartsWith(g.packageName[0..], query);
    }
  }

  /** The page size: the default for none asked, the asked one in range, the largest beyond it. */
  function EffectiveLimit(limit: nat): (r: Size)
    ensures 1 <= limit <= MAX_PAGE_LIMIT ==> r == limit
    ensures limit == 0 ==> r == 50
    ensures limit > MAX_PAGE_LIMIT ==> r == 200
  {
    if limit == 0 then DEFAULT_PAGE_LIMIT else if limit > MAX_PAGE_LIMIT then MAX_PAGE_LIMIT else limit
  }

  // ---------------------------------------------------------------- the queries

  function Column(g: Group, sort: SortKey): Key {
    match sort
    case LastSeenDesc => KInt(g.lastSeenMs)
    case FirstSeenDesc => KInt(g.firstSeenMs)
    case OccurrenceDesc => KInt(g.occurrence)
    case PackageAsc => KText(g.packageName)
  }

  function AnchorKey(a: Anchor): Key { if a.IntAnchor? then KInt(a.value) else KText(a.text) }

  /** The keyset clause: past the anchor, or at it and past the tiebreak. */
  predicate Resumes(c: Cursor, column: Key, id: string) {
    var anchor := AnchorKey(c.anchor);
    if IsDescending(c.sort) then KeyLess(column, anchor) || (column == anchor && LexLess(id, c.tiebreak))
    else KeyLess(anchor, column) || (column == anchor && LexLess(c.tiebreak, id))
  }

  /** The cursor that resumes after a group. */
  function CursorAfter(id: string, g: Group, sort: SortKey): Cursor {
    var anchor := match sort
      case LastSeenDesc => IntAnchor(g.lastSeenMs)
      case FirstSeenDesc => IntAnchor(g.firstSeenMs)
      case OccurrenceDesc => IntAnchor(g.occurrence)
      case PackageAsc => TextAnchor(g.packageName);
    Cursor(sort, anchor, id)
  }

  function IdsOf(ps: seq<Pos>): seq<string> { seq(|ps|, i requires 0 <= i < |ps| => ps[i].id) }

  datatype Listed = Listed(ids: seq<string>, next: Option<Cursor>)

  ghost function SelectedGroups(groups: Groups, f: CrashFilter, sort: SortKey, cursor: Option<Cursor>): set<Pos> {
    set id | id in groups && Keeps(f, groups[id])
             && (cursor.None? || Resumes(cursor.value, Column(groups[id], sort), id))
           :: Pos(Column(groups[id], sort), id)
  }

  function FirstRows(rows: seq<Pos>, n: nat): seq<Pos> { if |rows| > n then rows[..n] else rows }

  function GroupPage(groups: Groups, sort: SortKey, rows: seq<Pos>, size: Size): Listed {
    var got := FirstRows(rows, size + 1);
    if |got| > size && got[size - 1].id in groups then
      var last := got[size - 1].id;
      Listed(IdsOf(got[..size]), Some(CursorAfter(last, groups[last], sort)))
    else Listed(IdsOf(got), None)
  }

  /** One page of groups; an unusable filter or cursor is refused. */
  ghost function ListGroups(groups: Groups, f: CrashFilter, sort: SortKey, cursor: Option<Cursor>, limit: nat)
    : Option<Listed>
  {
    if !ValidFilter(f) || (cursor.Some? && !ValidFor(cursor.value, sort)) then None
    else
      var rows := Sorted(IsDescending(sort), SelectedGroups(groups, f, sort, cursor));
      Some(GroupPage(groups, sort, rows, EffectiveLimit(limit)))
  }

  ghost function SelectedRecords(records: Records, group: string, cursor: Option<Cursor>): set<Pos> {
    set id | id in records && records[id].group == group
             && (cursor.None? || Resumes(cursor.value, KInt(records[id].happenedAtMs), Encode(id)))
           :: Pos(KInt(records[id].happenedAtMs), Encode(id))
  }

  function RecordPage(rows: seq<Pos>, size: Size): Listed {
    var got := FirstRows(rows, size + 1);
    if |got| > size && got[size - 1].key.KInt? then
      Listed(IdsOf(got[..size]), Some(Cursor(LastSeenDesc, IntAnchor(got[size - 1].key.value), got[size - 1].id)))
    else Listed(IdsOf(got), None)
  }

  /** One page of the occurrences in a group, newest first. */
  ghost function ListRecords(records: Records, group: string, cursor: Option<Cursor>, limit: nat): Option<Listed> {
    if cursor.Some? && !ValidFor(cursor.value, LastSeenDesc) then None
    else Some(RecordPage(Sorted(true, SelectedRecords(records, group, cursor)), EffectiveLimit(limit)))
  }

  // ---------------------------------------------------------------- the queries are keyset pages

  /** The rows a filter keeps, at their positions. */
  ghost function GroupView(groups: Groups, f: CrashFilter, sort: SortKey): set<Pos> {
    set id | id in groups && Keeps(f, groups[id]) :: Pos(Column(groups[id], sort), id)
  }

  ghost function RecordView(records: Records, group: string): set<Pos> {
    set id | id in records && records[id].group == group :: Pos(KInt(records[id].happenedAtMs), Encode(id))
  }

  function KeyAnchor(k: Key): Anchor { if k.KInt? then IntAnchor(k.value) else TextAnchor(k.text) }

  function CursorAt(sort: SortKey, p: Pos): Cursor { Cursor(sort, KeyAnchor(p.key), p.id) }

  function PosAt(c: Option<Cursor>): Option<Pos> {
    if c.Some? then Some(Pos(AnchorKey(c.value.anchor), c.value.tiebreak)) else None
  }

  function CursorFor(sort: SortKey, p: Option<Pos>): Option<Cursor> {
    if p.Some? then Some(CursorAt(sort, p.value)) else None
  }

  /** The page of a view after a cursor. */
  ghost function ListView(sort: SortKey, view: set<Pos>, cursor: Option<Cursor>, limit: nat): Option<Listed> {
    if cursor.Some? && !ValidFor(cursor.value, sort) then None
    else
      var pg := Fetch(IsDescending(sort), view, PosAt(cursor), EffectiveLimit(limit));
      Some(Listed(IdsOf(pg.items), CursorFor(sort, pg.next)))
  }

  lemma SelectedIsAfter(groups: Groups, f: CrashFilter, sort: SortKey, cursor: Option<Cursor>)
    requires cursor.Some? ==> ValidFor(cursor.value, sort)
    ensures SelectedGroups(groups, f, sort, cursor) == After(IsDescending(sort), GroupView(groups, f, sort), PosAt(cursor))
  {
    var selected, after := SelectedGroups(groups, f, sort, cursor),
                           After(IsDescending(sort), GroupView(groups, f, sort), PosAt(cursor));
    forall p
      ensures p in selected <==> p in after
    {
      assert p in selected ==> p.id in groups && p == Pos(Column(groups[p.id], sort), p.id);
      assert p in GroupView(groups, f, sort) ==> p.id in groups && p == Pos(Column(groups[p.id], sort), p.id);
    }
  }

  lemma SelectedRow(groups: Groups, f: CrashFilter, sort: SortKey, cursor: Option<Cursor>, p: Pos)
    requires p in SelectedGroups(groups, f, sort, cursor)
    ensures p.id in groups && CursorAfter(p.id, groups[p.id], sort) == CursorAt(sort, p)
  {
  }

  lemma GroupPageIsPage(groups: Groups, sort: SortKey, rows: seq<Pos>, size: Size, pg: Page)
    requires IsPage(rows, size, pg)
    requires forall p :: p in rows ==> p.id in groups && CursorAfter(p.id, groups[p.id], sort) == CursorAt(sort, p)
    ensures GroupPage(groups, sort, rows, size) == Listed(IdsOf(pg.items), CursorFor(sort, pg.next))
  {
    if |rows| > size {
      assert rows[size - 1] in rows;
      assert |rows| > size + 1 ==> rows[..size + 1][..size] == rows[..size];
    }
  }

  lemma RowsSelected(groups: Groups, f: CrashFilter, sort: SortKey, cursor: Option<Cursor>, rows: seq<Pos>)
    requires rows == Sorted(IsDescending(sort), SelectedGroups(groups, f, sort, cursor))
    ensures forall p :: p in rows ==> p.id in groups && CursorAfter(p.id, groups[p.id], sort) == CursorAt(sort, p)
  {
    SortedLists(IsDescending(sort), SelectedGroups(groups, f, sort, cursor));
    forall p | p in rows
      ensures p.id in groups && CursorAfter(p.id, groups[p.id], sort) == CursorAt(sort, p)
    {
      SelectedRow(groups, f, sort, cursor, p);
    }
  }

  /** The group query returns the keyset page of the groups its filter keeps. */
  lemma ListGroupsIsKeyset(groups: Groups, f: CrashFilter, sort: SortKey, cursor: Option<Cursor>, limit: nat)
    ensures ListGroups(groups, f, sort, cursor, limit)
            == if ValidFilter(f) then ListView(sort, GroupView(groups, f, sort), cursor, limit) else None
  {
    if ValidFilter(f) && (cursor.Some? ==> ValidFor(cursor.value, sort)) {
      var desc, size, view := IsDescending(sort), EffectiveLimit(limit), GroupView(groups, f, sort);
      var rows := Sorted(desc, SelectedGroups(groups, f, sort, cursor));
      SelectedIsAfter(groups, f, sort, cursor);
      RowsSelected(groups, f, sort, cursor, rows);
      FetchShape(desc, view, PosAt(cursor), size);
      GroupPageIsPage(groups, sort, rows, size, Fetch(desc, view, PosAt(cursor), size));
    }
  }

  lemma SelectedRecordsAfter(records: Records, group: string, cursor: Option<Cursor>)
    requires cursor.Some? ==> ValidFor(cursor.value, LastSeenDesc)
    ensures SelectedRecords(records, group, cursor) == After(true, RecordView(records, group), PosAt(cursor))
  {
    var selected, after := SelectedRecords(records, group, cursor), After(true, RecordView(records, group), PosAt(cursor));
    forall p
      ensures p in selected <==> p in after
    {
      if p in selected {
        var id :| id in records && records[id].group == group
                  && (cursor.None? || Resumes(cursor.value, KInt(records[id].happenedAtMs), Encode(id)))
                  && p == Pos(KInt(records[id].happenedAtMs), Encode(id));
      }
      if p in after {
        var id :| id in records && records[id].group == group && p == Pos(KInt(records[id].happenedAtMs), Encode(id));
        assert cursor.None? || Resumes(cursor.value, KInt(records[id].happenedAtMs), Encode(id));
      }
    }
  }

  lemma RecordPageIsPage(rows: seq<Pos>, size: Size, pg: Page)
    requires IsPage(rows, size, pg) && forall p :: p in rows ==> p.key.KInt?
    ensures RecordPage(rows, size) == Listed(IdsOf(pg.items), CursorFor(LastSeenDesc, pg.next))
  {
    if |rows| > size {
      assert rows[size - 1] in rows;
      assert |rows| > size + 1 ==> rows[..size + 1][..size] == rows[..size];
    }
  }

  /** The record query returns the keyset page of the group's records. */
  lemma ListRecordsIsKeyset(records: Records, group: string, cursor: Option<Cursor>, limit: nat)
    ensures ListRecords(records, group, cursor, limit)
            == ListView(LastSeenDesc, RecordView(records, group), cursor, limit)
  {
    if cursor.Some? ==> ValidFor(cursor.value, LastSeenDesc) {
      var size, view, rows := EffectiveLimit(limit), RecordView(records, group), Sorted(true, SelectedRecords(records, group, cursor));
      SelectedRecordsAfter(records, group, cursor);
      SortedLists(true, SelectedRecords(records, group, cursor));
      FetchShape(true, view, PosAt(cursor), size);
      RecordPageIsPage(rows, size, Fetch(true, view, PosAt(cursor), size));
    }
  }
}
