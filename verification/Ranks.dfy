/** Ranking rows by age: the order `ORDER BY happened_at_ms, id` gives, and counting along it. */
module Ranks {
  import opened Model
  import opened Tables

  /** `a` comes before `b` in time order, ties broken by id. */
  predicate Older(records: Records, a: nat, b: nat) {
    && a in records && b in records
    && (records[a].happenedAtMs < records[b].happenedAtMs
        || (records[a].happenedAtMs == records[b].happenedAtMs && a < b))
  }

  function NewerIn(records: Records, s: set<nat>, id: nat): set<nat> { set j | j in s && Older(records, id, j) }

  function OlderIn(records: Records, s: set<nat>, id: nat): set<nat> { set j | j in s && Older(records, j, id) }

  /** The newest `n` rows of `s`. */
  function Newest(records: Records, s: set<nat>, n: nat): set<nat> { set id | id in s && |NewerIn(records, s, id)| < n }

  ghost predicate IsOldest(records: Records, s: set<nat>, x: nat) {
    x in s && forall y :: y in s && y != x ==> Older(records, x, y)
  }

  lemma {:induction false} OldestOf(records: Records, s: set<nat>) returns (x: nat)
    requires s != {} && s <= records.Keys
    ensures IsOldest(records, s, x)
    decreases |s|
  {
    var a :| a in s;
    var rest := s - {a};
    assert forall z :: z in s ==> z == a || z in rest;
    if rest == {} {
      x := a;
    } else {
      var b := OldestOf(records, rest);
      x := if Older(records, a, b) then a else b;
    }
  }

  lemma OldestUnique(records: Records, s: set<nat>, x: nat, y: nat)
    requires IsOldest(records, s, x) && IsOldest(records, s, y)
    ensures x == y
  {
  }

  /** Every row is older, newer or the row itself. */
  lemma RankSplit(records: Records, s: set<nat>, id: nat)
    requires s <= records.Keys && id in s
    ensures |OlderIn(records, s, id)| + |NewerIn(records, s, id)| + 1 == |s|
  {
    var o, n := OlderIn(records, s, id), NewerIn(records, s, id);
    assert o !! n && id !in o && id !in n;
    assert s == o + n + {id};
  }

  /** Keeping the newest is closed upward: whatever is newer than a kept row is kept. */
  lemma NewestUpward(records: Records, s: set<nat>, n: nat, id: nat, j: nat)
    requires s <= records.Keys && id in Newest(records, s, n) && j in s && Older(records, id, j)
    ensures j in Newest(records, s, n)
  {
    SubsetSize(NewerIn(records, s, j), NewerIn(records, s, id));
  }

  /** There are exactly `n` of them, or all there are. */
  lemma {:induction false} NewestSize(records: Records, s: set<nat>, n: nat)
    requires s <= records.Keys
    ensures |Newest(records, s, n)| == if n < |s| then n else |s|
    decreases |s|
  {
    if s != {} {
      var x := OldestOf(records, s);
      var rest := s - {x};
      assert NewerIn(records, s, x) == rest;
      assert |rest| == |s| - 1;
      if |s| - 1 < n {
        forall id | id in s
          ensures |NewerIn(records, s, id)| < n
        {
          RankSplit(records, s, id);
        }
        assert Newest(records, s, n) == s;
      } else {
        NewestSize(records, rest, n);
        forall id | id in rest
          ensures NewerIn(records, s, id) == NewerIn(records, rest, id)
        {
        }
        assert Newest(records, s, n) == Newest(records, rest, n);
      }
    }
  }

  /** Ranks depend only on the rows ranked. */
  lemma RankFrame(r: Records, t: Records, s: set<nat>, id: nat)
    requires s <= r.Keys && s <= t.Keys && id in s && forall j :: j in s ==> r[j].happenedAtMs == t[j].happenedAtMs
    ensures NewerIn(r, s, id) == NewerIn(t, s, id) && OlderIn(r, s, id) == OlderIn(t, s, id)
  {
  }
}
