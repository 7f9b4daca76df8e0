/** Deleting at the user's request, and opening the store after a restart. */
module Lifecycle {
  import opened Model
  import opened Ids
  import opened TextOrder
  import opened Tables
  import opened Retention

  datatype DeleteTarget = All | OfGroup(group: string) | OfIds(ids: seq<nat>)

  ghost function Targeted(records: Records, target: DeleteTarget): set<nat> {
    match target
    case All => records.Keys
    case OfGroup(g) => Members(records, g)
    case OfIds(ids) => set id | id in ids && id in records
  }

  /** Removes the rows and files asked for. Deleting by ids then removes every group with no row
      left, and unlike the sweep does not take the bytes of the deleted rows off their groups. */
  ghost function Delete(db: Db, target: DeleteTarget): Db {
    var ids := Targeted(db.records, target);
    var kept := db.(records := db.records - ids, files := db.files - PathsOf(db.records, ids));
    match target
    case All => kept.(groups := map[])
    case OfGroup(g) => kept.(groups := db.groups - {g})
    case OfIds(list) =>
      if list == [] then db
      else kept.(groups := map g | g in db.groups && Members(kept.records, g) != {} :: db.groups[g])
  }

  /** The request names the row. */
  predicate IsAsked(db: Db, target: DeleteTarget, id: nat)
    requires id in db.records
  {
    match target
    case All => true
    case OfGroup(g) => db.records[id].group == g
    case OfIds(ids) => id in ids
  }

  /** The group outlives the request: it is not the one asked for, and after a delete by ids it still
      has a row. */
  ghost predicate Outlives(db: Db, target: DeleteTarget, g: string) {
    match target
    case All => false
    case OfGroup(asked) => g != asked
    case OfIds(ids) => ids == [] || exists id :: id in db.records && db.records[id].group == g && id !in ids
  }

  /** What a delete removes: exactly the rows asked for, with their files, and the groups that do not
      outlive it; every row and group left is as it was. */
  lemma DeleteExactly(db: Db, target: DeleteTarget)
    ensures var db' := Delete(db, target);
            && (forall id :: id in db'.records <==> id in db.records && !IsAsked(db, target, id))
            && (forall id :: id in db'.records ==> db'.records[id] == db.records[id])
            && (forall g :: g in db'.groups <==> g in db.groups && Outlives(db, target, g))
            && (forall g :: g in db'.groups ==> db'.groups[g] == db.groups[g])
            && (forall p :: p in db'.files <==>
                  p in db.files && forall id :: id in db.records && IsAsked(db, target, id) ==> db.records[id].path != Some(p))
            && (forall p :: p in db'.files ==> db'.files[p] == db.files[p])
            && db'.ingested == db.ingested && db'.gen == db.gen
  {
    var db' := Delete(db, target);
    forall p: string
      ensures p in PathsOf(db.records, Targeted(db.records, target))
              <==> exists id :: id in db.records && IsAsked(db, target, id) && db.records[id].path == Some(p)
    {
      PathAsked(db, target, p);
    }
    if target.OfIds? && target.ids != [] {
      forall g: string
        ensures Members(db'.records, g) != {} <==> exists id :: id in db.records && db.records[id].group == g && id !in target.ids
      {
        LeftInGroup(db, target.ids, g);
      }
    }
  }

  lemma PathAsked(db: Db, target: DeleteTarget, p: string)
    ensures p in PathsOf(db.records, Targeted(db.records, target))
            <==> exists id :: id in db.records && IsAsked(db, target, id) && db.records[id].path == Some(p)
  {
    forall id | id in db.records
      ensures id in Targeted(db.records, target) <==> IsAsked(db, target, id)
    {
    }
  }

  lemma LeftInGroup(db: Db, ids: seq<nat>, g: string)
    ensures Members(db.records - Targeted(db.records, OfIds(ids)), g) != {}
            <==> exists id :: id in db.records && db.records[id].group == g && id !in ids
  {
    var left := Members(db.records - Targeted(db.records, OfIds(ids)), g);
    forall id
      ensures id in left <==> id in db.records && db.records[id].group == g && id !in ids
    {
    }
  }

  lemma DeletePayloads(db: Db, target: DeleteTarget)
    requires Payloads(db) && IdsBehind(db)
    ensures Payloads(Delete(db, target)) && IdsBehind(Delete(db, target))
  {
    var ids, db' := Targeted(db.records, target), Delete(db, target);
    forall id | id in db'.records
      ensures RowPayload(db', id)
    {
      assert RowPayload(db, id);
      if db' != db && db.records[id].path.Some? {
        OthersKeepFiles(db, ids, id);
      }
    }
  }

  /** Deleting everything or a whole group leaves the other groups exactly as they were. */
  lemma DeleteWholeAggregates(db: Db, exact: bool, target: DeleteTarget)
    requires Aggregates(db, exact) && !target.OfIds?
    ensures Aggregates(Delete(db, target), exact)
  {
    var db' := Delete(db, target);
    if target.OfGroup? {
      forall h | h in db'.groups
        ensures GroupHonest(db'.records, h, db'.groups[h], exact)
      {
        HonestFrame(db.records, db'.records, target.group, h, db.groups[h], exact);
      }
    }
  }

  lemma DeletedByIds(db: Db, exact: bool, ids: set<nat>, g: string)
    requires Aggregates(db, exact) && g in db.groups
    ensures GroupHonest(db.records - ids, g, db.groups[g], false)
    ensures exact ==> (GroupHonest(db.records - ids, g, db.groups[g], true)
                       <==> SumBytes(db.records, Members(db.records, g) * ids) == 0)
  {
    SubsetHonest(db.records, db.records - ids, ids, g, db.groups[g], exact);
  }

  lemma RemainingBytes(rows: Records, ids: set<nat>, g: string)
    ensures Members(rows - ids, g) == Members(rows, g) - ids
    ensures SumBytes(rows, Members(rows, g))
            == SumBytes(rows, Members(rows, g) * ids) + SumBytes(rows - ids, Members(rows - ids, g))
  {
    var ms := Members(rows, g);
    assert Members(rows - ids, g) == ms - ids;
    SumSubset(rows, ms * ids, ms);
    assert ms - ms * ids == ms - ids;
    SumFrame(rows, rows - ids, ms - ids);
  }

  lemma SubsetHonest(rows: Records, rest: Records, ids: set<nat>, g: string, group: Group, exact: bool)
    requires GroupHonest(rows, g, group, exact) && rest == rows - ids
    ensures GroupHonest(rest, g, group, false)
    ensures exact ==> (GroupHonest(rest, g, group, true) <==> SumBytes(rows, Members(rows, g) * ids) == 0)
  {
    RemainingBytes(rows, ids, g);
    SubsetSize(Members(rest, g), Members(rows, g));
  }

  /** Deleting by ids keeps every aggregate but the byte totals, which become upper bounds. */
  lemma DeleteByIdsAggregates(db: Db, list: seq<nat>)
    requires Aggregates(db, false)
    ensures Aggregates(Delete(db, OfIds(list)), false)
  {
    var ids, db' := Targeted(db.records, OfIds(list)), Delete(db, OfIds(list));
    if list != [] {
      forall g | g in db'.groups
        ensures GroupHonest(db'.records, g, db'.groups[g], false)
      {
        DeletedByIds(db, false, ids, g);
      }
      forall id | id in db'.records
        ensures db'.records[id].group in db'.groups
      {
        assert id in Members(db'.records, db.records[id].group);
      }
    }
  }

  /** Some bytes of a group that keeps a row are deleted. */
  ghost predicate LosesBytes(db: Db, ids: set<nat>, g: string) {
    Members(db.records, g) - ids != {} && SumBytes(db.records, Members(db.records, g) * ids) > 0
  }

  lemma DeletedGroup(db: Db, list: seq<nat>, g: string)
    requires Aggregates(db, true) && list != [] && g in db.groups
    ensures var ids, db' := Targeted(db.records, OfIds(list)), Delete(db, OfIds(list));
            && (g in db'.groups <==> Members(db.records, g) - ids != {})
            && (g in db'.groups ==> db'.groups[g] == db.groups[g]
                                    && (GroupHonest(db'.records, g, db'.groups[g], true) <==> !LosesBytes(db, ids, g)))
  {
    var ids, db' := Targeted(db.records, OfIds(list)), Delete(db, OfIds(list));
    assert Members(db'.records, g) == Members(db.records, g) - ids;
    DeletedByIds(db, true, ids, g);
  }

  /** The byte totals stay exact under a delete by ids exactly when no group that keeps a row
      loses payload bytes. */
  lemma DeleteByIdsExactly(db: Db, list: seq<nat>)
    requires Aggregates(db, true) && list != []
    ensures Aggregates(Delete(db, OfIds(list)), true) <==>
            forall g :: g in db.groups ==> !LosesBytes(db, Targeted(db.records, OfIds(list)), g)
  {
    var ids, db' := Targeted(db.records, OfIds(list)), Delete(db, OfIds(list));
    DeleteByIdsAggregates(db, list);
    if Aggregates(db', true) {
      forall g | g in db.groups
        ensures !LosesBytes(db, ids, g)
      {
        DeletedGroup(db, list, g);
      }
    }
    if forall g :: g in db.groups ==> !LosesBytes(db, ids, g) {
      forall g | g in db'.groups
        ensures GroupHonest(db'.records, g, db'.groups[g], true)
      {
        DeletedGroup(db, list, g);
      }
    }
  }

  // ---------------------------------------------------------------- opening

  /** `SELECT MAX(id)`: the stored id whose text sorts last. */
  ghost predicate IsLatestText(records: Records, id: nat) {
    id in records && forall j :: j in records && j != id ==> LexLess(Encode(j), Encode(id))
  }

  lemma {:induction false} LargestId(ids: set<nat>) returns (m: nat)
    requires ids != {}
    ensures m in ids && forall j :: j in ids ==> j <= m
    decreases |ids|
  {
    var a :| a in ids;
    var rest := ids - {a};
    assert forall j :: j in ids ==> j == a || j in rest;
    if rest == {} {
      m := a;
    } else {
      var b := LargestId(rest);
      m := if a >= b then a else b;
    }
  }

  /** The textual maximum exists and is the numeric maximum. */
  lemma LatestTextIsLargest(records: Records)
    requires Representable(records) && records != map[]
    ensures exists id :: IsLatestText(records, id)
    ensures forall id: nat :: IsLatestText(records, id) ==> forall j :: j in records ==> j <= id
  {
    var m := LargestId(records.Keys);
    forall j | j in records && j != m
      ensures LexLess(Encode(j), Encode(m))
    {
      EncodeOrder(j, m);
    }
    assert IsLatestText(records, m);
    forall id: nat | IsLatestText(records, id)
      ensures forall j :: j in records ==> j <= id
    {
      if id != m {
        EncodeOrder(m, id);
      }
    }
  }

  /** A fresh generator, resumed from the latest stored id if there is one that decodes. */
  ghost function ResumedGen(records: Records): Gen {
    if exists id :: IsLatestText(records, id) then
      var id :| IsLatestText(records, id);
      var value := DecodeDigits(Encode(id));
      if value.Some? then ResumeAfter(Gen(0, 0), value.value) else Gen(0, 0)
    else Gen(0, 0)
  }

  /** Opening resumes the ids past the stored ones and removes files nothing references. */
  ghost function Open(db: Db): Db {
    db.(gen := ResumedGen(db.records),
        files := map p | p in db.files && p in PathsOf(db.records, db.records.Keys) :: db.files[p])
  }

  lemma ResumedBehind(records: Records)
    requires Representable(records)
    ensures ValidGen(ResumedGen(records)) && forall id :: id in records ==> id <= GenValue(ResumedGen(records))
  {
    if records != map[] {
      LatestTextIsLargest(records);
      var id :| IsLatestText(records, id)
                && ResumedGen(records) == (if DecodeDigits(Encode(id)).Some?
                                              then ResumeAfter(Gen(0, 0), DecodeDigits(Encode(id)).value) else Gen(0, 0));
      DecodeEncode(id);
      ResumeIsMax(Gen(0, 0), id);
    }
  }

  /** After opening, the shard files are exactly those the index references. */
  lemma OpenFilesExact(db: Db)
    requires Payloads(db)
    ensures Open(db).files.Keys == PathsOf(db.records, db.records.Keys)
  {
    forall p | p in PathsOf(db.records, db.records.Keys)
      ensures p in db.files
    {
      var id :| id in db.records && db.records[id].path.Some? && db.records[id].path.value == p;
      assert RowPayload(db, id);
    }
  }

  lemma OpenPayloads(db: Db)
    requires Payloads(db) && Representable(db.records)
    ensures Payloads(Open(db)) && IdsBehind(Open(db))
  {
    ResumedBehind(db.records);
    OpenFilesExact(db);
    forall id | id in db.records
      ensures RowPayload(Open(db), id)
    {
      assert RowPayload(db, id);
    }
  }

  /** Opening makes the store sound whatever the last generator was: the new one is at or past
      every stored id. */
  lemma OpenSound(db: Db, exact: bool)
    requires Aggregates(db, exact) && Payloads(db) && Representable(db.records)
    ensures Sound(Open(db), exact)
  {
    OpenPayloads(db);
  }
}
