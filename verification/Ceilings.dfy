/**
 What a sweep leaves, said in days, counts and milliseconds of the stored rows: exactly which rows,
 groups and source keys survive.
 */
module Ceilings {
  import opened Model
  import opened Tables
  import opened Ranks
  import opened Retention
  import opened RetentionSpec

  // ---------------------------------------------------------------- rows

  /** The row is no older than the configured days. */
  predicate InDays(db: Db, id: nat, nowMs: Ms, p: Policy) {
    id in db.records && db.records[id].happenedAtMs + p.days * 86_400_000 >= nowMs
  }

  /** Later in time, or of the same millisecond with a greater id. */
  predicate Newer(db: Db, j: nat, id: nat)
    requires j in db.records && id in db.records
  {
    var a, b := db.records[j].happenedAtMs, db.records[id].happenedAtMs;
    a > b || (a == b && j > id)
  }

  /** How many rows in days of its group are newer. */
  ghost function NewerInGroup(db: Db, id: nat, nowMs: Ms, p: Policy): nat
    requires id in db.records
  {
    |set j | j in db.records && InDays(db, j, nowMs, p) && db.records[j].group == db.records[id].group && Newer(db, j, id)|
  }

  /** The row is among the newest of its group. */
  ghost predicate AmongNewest(db: Db, id: nat, nowMs: Ms, p: Policy) {
    InDays(db, id, nowMs, p) && NewerInGroup(db, id, nowMs, p) < p.perGroup
  }

  /** How many rows that are among the newest of their groups are newer. */
  ghost function NewerOverall(db: Db, id: nat, nowMs: Ms, p: Policy): nat
    requires id in db.records
  {
    |set j | j in db.records && AmongNewest(db, j, nowMs, p) && Newer(db, j, id)|
  }

  lemma WindowExactly(db: Db, nowMs: Ms, p: Policy, id: nat)
    ensures id in InWindow(db.records, Cutoff(nowMs, p)) <==> InDays(db, id, nowMs, p)
  {
  }

  lemma PeersExactly(db: Db, nowMs: Ms, p: Policy, id: nat)
    requires id in db.records
    ensures var window := InWindow(db.records, Cutoff(nowMs, p));
            |NewerIn(db.records, Peers(db.records, window, id), id)| == NewerInGroup(db, id, nowMs, p)
  {
    var window := InWindow(db.records, Cutoff(nowMs, p));
    assert NewerIn(db.records, Peers(db.records, window, id), id)
        == set j | j in db.records && InDays(db, j, nowMs, p) && db.records[j].group == db.records[id].group && Newer(db, j, id);
  }

  lemma NewestExactly(db: Db, nowMs: Ms, p: Policy, id: nat)
    ensures id in NewestPerGroup(db.records, InWindow(db.records, Cutoff(nowMs, p)), p.perGroup)
            <==> AmongNewest(db, id, nowMs, p)
  {
    WindowExactly(db, nowMs, p, id);
    if id in db.records {
      PeersExactly(db, nowMs, p, id);
    }
  }

  lemma OverallExactly(db: Db, nowMs: Ms, p: Policy, id: nat)
    requires id in db.records
    ensures var newest := NewestPerGroup(db.records, InWindow(db.records, Cutoff(nowMs, p)), p.perGroup);
            |NewerIn(db.records, newest, id)| == NewerOverall(db, id, nowMs, p)
  {
    var newest := NewestPerGroup(db.records, InWindow(db.records, Cutoff(nowMs, p)), p.perGroup);
    var mine := set j | j in db.records && AmongNewest(db, j, nowMs, p) && Newer(db, j, id);
    forall j
      ensures j in NewerIn(db.records, newest, id) <==> j in mine
    {
      if j in db.records {
        NewestExactly(db, nowMs, p, j);
      }
    }
    assert NewerIn(db.records, newest, id) == mine;
  }

  /** A row survives a sweep exactly if it is no older than the configured days, fewer than the
      allowed number of such rows of its group are newer, and fewer than the allowed total of the
      rows that meet both are newer. */
  lemma RowSurvivesExactly(db: Db, nowMs: Ms, p: Policy, id: nat)
    ensures id in Sweep(db, nowMs, p).records
            <==> AmongNewest(db, id, nowMs, p) && NewerOverall(db, id, nowMs, p) < p.total
  {
    SweepRows(db, nowMs, p);
    NewestExactly(db, nowMs, p, id);
    if id in db.records {
      OverallExactly(db, nowMs, p, id);
    }
  }

  /** A group goes exactly if it was last seen before the configured days and no row of it survives. */
  lemma GroupSurvivesExactly(db: Db, nowMs: Ms, p: Policy, g: string)
    ensures g in Sweep(db, nowMs, p).groups
            <==> g in db.groups
                 && (db.groups[g].lastSeenMs + p.days * 86_400_000 >= nowMs
                     || exists id :: id in db.records && db.records[id].group == g && id in Sweep(db, nowMs, p).records)
  {
    SweepGroups(db, nowMs, p, g);
    SweepRows(db, nowMs, p);
  }

  // ---------------------------------------------------------------- source keys

  /** How long a source key is remembered: a marker for ever, a log entry for one day, any other
      artefact for the configured days. */
  lemma KeySurvivesExactly(db: Db, nowMs: Ms, p: Policy, key: string)
    requires key in db.ingested
    ensures key in Sweep(db, nowMs, p).ingested
            <==> (LikePrefix(key, "marker:")
                  || db.ingested[key] + (if LikePrefix(key, "logd:") then 86_400_000 else p.days * 86_400_000) >= nowMs)
    ensures key in Sweep(db, nowMs, p).ingested ==> Sweep(db, nowMs, p).ingested[key] == db.ingested[key]
  {
  }
}
