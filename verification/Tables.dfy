/** The crash index: three tables, the payload files beside them, and the id generator. */
module Tables {
  import opened Model
  import opened Ids

  datatype PayloadState = Present | Truncated | Evicted | Absent

  predicate Readable(s: PayloadState) { s == Present || s == Truncated }

  /** A row of `crash_record`; the id is its key. */
  datatype Row = Row(
    group: string,
    happenedAtMs: Ms,
    pid: int,
    sources: Sources,
    versionName: Option<string>,
    versionCode: Option<int>,
    isForeground: Option<bool>,
    isRepeating: bool,
    droppedCount: Option<nat>,
    path: Option<string>,
    bytes: nat,
    state: PayloadState)

  /** A row of `crash_group`; the group id is its key. */
  datatype Group = Group(
    packageName: string,
    processName: string,
    userId: int,
    kind: CrashKind,
    isSystemApp: bool,
    packageInstalled: bool,
    isMainProcess: bool,
    selfHandled: bool,
    summaryClass: Option<string>,
    summaryText: Option<string>,
    occurrence: nat,
    firstSeenMs: Ms,
    lastSeenMs: Ms,
    payloadBytes: nat)

  type Records = map<nat, Row>
  type Groups = map<string, Group>

  datatype Db = Db(
    records: Records,
    groups: Groups,
    ingested: map<string, Ms>,
    files: map<string, seq<byte>>,
    gen: Gen)

  function EmptyDb(): Db { Db(map[], map[], map[], map[], Gen(0, 0)) }

  // ---------------------------------------------------------------- payload paths

  /** Sharded by the first two characters of the id. */
  function RelativePath(id: nat): string { Encode(id)[..2] + "/" + Encode(id) + ".zst" }

  /** No two records share a payload file. */
  lemma RelativePathInjective(a: nat, b: nat)
    requires a < TWO_128 && b < TWO_128 && RelativePath(a) == RelativePath(b)
    ensures a == b
  {
    assert RelativePath(a)[3..3 + ID_CHARS] == Encode(a);
    assert RelativePath(b)[3..3 + ID_CHARS] == Encode(b);
    EncodeOrder(a, b);
  }

  // ---------------------------------------------------------------- sums over rows

  ghost function SumBytes(records: Records, ids: set<nat>): nat
    requires ids <= records.Keys
    decreases |ids|
  {
    if ids == {} then 0
    else
      var x :| x in ids;
      records[x].bytes + SumBytes(records, ids - {x})
  }

  /** The sum does not depend on which row is taken out first. */
  lemma {:induction false} SumRemove(records: Records, ids: set<nat>, x: nat)
    requires ids <= records.Keys && x in ids
    ensures SumBytes(records, ids) == records[x].bytes + SumBytes(records, ids - {x})
    decreases |ids|
  {
    var y :| y in ids && SumBytes(records, ids) == records[y].bytes + SumBytes(records, ids - {y});
    if y != x {
      SumRemove(records, ids - {y}, x);
      SumRemove(records, ids - {x}, y);
      assert ids - {y} - {x} == ids - {x} - {y};
    }
  }

  lemma SumInsert(records: Records, ids: set<nat>, x: nat)
    requires ids <= records.Keys && x in records && x !in ids
    ensures SumBytes(records, ids + {x}) == records[x].bytes + SumBytes(records, ids)
  {
    SumRemove(records, ids + {x}, x);
    assert ids + {x} - {x} == ids;
  }

  /** Only the byte columns of the summed rows matter. */
  lemma {:induction false} SumFrame(r: Records, s: Records, ids: set<nat>)
    requires ids <= r.Keys && ids <= s.Keys && forall x :: x in ids ==> r[x].bytes == s[x].bytes
    ensures SumBytes(r, ids) == SumBytes(s, ids)
    decreases |ids|
  {
    if ids != {} {
      var x :| x in ids;
      SumFrame(r, s, ids - {x});
      SumRemove(r, ids, x);
      SumRemove(s, ids, x);
    }
  }

  /** Rewriting one summed row changes the sum by the change of its byte column. */
  lemma SumUpdate(records: Records, ids: set<nat>, id: nat, row: Row)
    requires ids <= records.Keys && id in ids
    ensures ids <= records[id := row].Keys
    ensures SumBytes(records[id := row], ids) == SumBytes(records, ids) - records[id].bytes + row.bytes
  {
    SumRemove(records, ids, id);
    SumRemove(records[id := row], ids, id);
    SumFrame(records, records[id := row], ids - {id});
  }

  lemma {:induction false} SumSubset(records: Records, a: set<nat>, b: set<nat>)
    requires a <= b <= records.Keys
    ensures SumBytes(records, b) == SumBytes(records, a) + SumBytes(records, b - a)
    decreases |a|
  {
    if a == {} {
      assert b - a == b;
    } else {
      var x :| x in a;
      SumRemove(records, a, x);
      SumRemove(records, b, x);
      SumSubset(records, a - {x}, b - {x});
      assert (b - {x}) - (a - {x}) == b - a;
    }
  }

  // ---------------------------------------------------------------- invariants

  ghost function Members(records: Records, g: string): set<nat> {
    set id | id in records && records[id].group == g
  }

  /** One group's aggregates against its surviving rows. With `exact`, the byte total is the sum
      of the rows; without it, an upper bound. */
  ghost predicate GroupHonest(records: Records, g: string, group: Group, exact: bool) {
    && |Members(records, g)| <= group.occurrence
    && SumBytes(records, Members(records, g)) <= group.payloadBytes
    && (exact ==> SumBytes(records, Members(records, g)) == group.payloadBytes)
    && forall id :: id in Members(records, g) ==> group.firstSeenMs <= records[id].happenedAtMs <= group.lastSeenMs
  }

  ghost predicate Aggregates(db: Db, exact: bool) {
    && (forall id :: id in db.records ==> db.records[id].group in db.groups)
    && (forall g :: g in db.groups ==> GroupHonest(db.records, g, db.groups[g], exact))
  }

  /** A row has a path exactly when its payload is readable; the path is its own, and the file exists. */
  ghost predicate RowPayload(db: Db, id: nat)
    requires id in db.records
  {
    var r := db.records[id];
    && (r.path.Some? <==> Readable(r.state))
    && (r.path.Some? ==> r.path.value == RelativePath(id) && r.path.value in db.files)
    && (r.path.None? ==> r.bytes == 0)
  }

  ghost predicate Payloads(db: Db) { forall id :: id in db.records ==> RowPayload(db, id) }

  /** Stored ids are 128-bit values. */
  ghost predicate Representable(records: Records) { forall id :: id in records ==> id < TWO_128 }

  /** The generator is at or past every stored id. */
  ghost predicate IdsBehind(db: Db) {
    ValidGen(db.gen) && Representable(db.records) && forall id :: id in db.records ==> id <= GenValue(db.gen)
  }

  ghost predicate Sound(db: Db, exact: bool) { Aggregates(db, exact) && Payloads(db) && IdsBehind(db) }

  // ---------------------------------------------------------------- changing one group, one row

  /** Rows of every group but `g` are the same. */
  ghost predicate SameOutside(r: Records, s: Records, g: string) {
    && (forall id :: id in r && r[id].group != g ==> id in s && s[id] == r[id])
    && (forall id :: id in s && s[id].group != g ==> id in r && r[id] == s[id])
  }

  lemma HonestFrame(r: Records, s: Records, g: string, h: string, group: Group, exact: bool)
    requires GroupHonest(r, h, group, exact) && SameOutside(r, s, g) && g != h
    ensures GroupHonest(s, h, group, exact)
  {
    assert Members(s, h) == Members(r, h);
    SumFrame(r, s, Members(r, h));
  }

  /** Only the row of group `g` differs. */
  ghost predicate SameGroupsBut(g: string, before: Groups, after: Groups) {
    forall h :: h != g ==> (h in after <==> h in before) && (h in before ==> after[h] == before[h])
  }

  /** A change confined to one group keeps the aggregates if that group stays honest. */
  lemma OneGroupChanged(db: Db, db': Db, g: string, exact: bool)
    requires Aggregates(db, exact)
    requires SameOutside(db.records, db'.records, g)
    requires g in db'.groups && GroupHonest(db'.records, g, db'.groups[g], exact)
    requires SameGroupsBut(g, db.groups, db'.groups)
    ensures Aggregates(db', exact)
  {
    forall h | h in db'.groups
      ensures GroupHonest(db'.records, h, db'.groups[h], exact)
    {
      if h != g {
        HonestFrame(db.records, db'.records, g, h, db.groups[h], exact);
      }
    }
  }

  /** Rows and files of every record but `id` are the same. */
  ghost predicate SameElsewhere(db: Db, db': Db, id: nat) {
    && (forall j :: j != id && j in db'.records ==> j in db.records && db'.records[j] == db.records[j])
    && (forall p :: p != RelativePath(id) ==> (p in db'.files <==> p in db.files))
  }

  /** A change confined to one record and its file keeps the payload invariant if that record does. */
  lemma OneRowChanged(db: Db, db': Db, id: nat)
    requires Payloads(db) && IdsBehind(db) && id < TWO_128
    requires SameElsewhere(db, db', id)
    requires id in db'.records ==> RowPayload(db', id)
    ensures Payloads(db')
  {
    forall j | j in db'.records
      ensures RowPayload(db', j)
    {
      if j != id {
        assert RowPayload(db, j);
        if RelativePath(j) == RelativePath(id) {
          RelativePathInjective(j, id);
        }
      }
    }
  }
}
