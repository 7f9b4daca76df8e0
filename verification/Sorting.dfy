/** Sorting completed crashes: `sort_by_key` is a stable sort, specified here by insertion. */
module Sorting {
  import opened Model

  /** An emitted occurrence with the durable keys of the sources that contributed to it. */
  datatype MergedCrash = MergedCrash(completionId: nat, record: CrashRecord, sourceKeys: seq<string>)

  function At(c: MergedCrash): Ms { c.record.happenedAtMs }

  function Insert(s: seq<MergedCrash>, c: MergedCrash): seq<MergedCrash> {
    if s == [] || At(s[|s| - 1]) <= At(c) then s + [c]
    else Insert(s[..|s| - 1], c) + [s[|s| - 1]]
  }

  function SortByTime(s: seq<MergedCrash>): seq<MergedCrash> {
    if s == [] then [] else Insert(SortByTime(s[..|s| - 1]), s[|s| - 1])
  }

  ghost predicate Sorted(s: seq<MergedCrash>) {
    forall i, j :: 0 <= i < j < |s| ==> At(s[i]) <= At(s[j])
  }

  /** The completions that happened at one instant, in order. */
  function AtInstant(s: seq<MergedCrash>, t: Ms): seq<MergedCrash> {
    if s == [] then []
    else AtInstant(s[..|s| - 1], t) + (if At(s[|s| - 1]) == t then [s[|s| - 1]] else [])
  }

  lemma AtInstantAppend(s: seq<MergedCrash>, c: MergedCrash, t: Ms)
    ensures AtInstant(s + [c], t) == AtInstant(s, t) + (if At(c) == t then [c] else [])
  {
    assert (s + [c])[..|s|] == s;
  }

  lemma {:induction false} InsertContents(s: seq<MergedCrash>, c: MergedCrash)
    ensures multiset(Insert(s, c)) == multiset(s) + multiset{c}
  {
    if s != [] && At(s[|s| - 1]) > At(c) {
      InsertContents(s[..|s| - 1], c);
      assert s == s[..|s| - 1] + [s[|s| - 1]];
    }
  }

  lemma {:induction false} InsertMembers(s: seq<MergedCrash>, c: MergedCrash)
    ensures forall d :: d in Insert(s, c) <==> d in s || d == c
  {
    if s != [] && At(s[|s| - 1]) > At(c) {
      InsertMembers(s[..|s| - 1], c);
      assert s == s[..|s| - 1] + [s[|s| - 1]];
    }
  }

  lemma {:induction false} InsertSorted(s: seq<MergedCrash>, c: MergedCrash)
    requires Sorted(s)
    ensures Sorted(Insert(s, c))
  {
    if s != [] && At(s[|s| - 1]) > At(c) {
      var init, last := s[..|s| - 1], s[|s| - 1];
      var r := Insert(init, c);
      InsertSorted(init, c);
      InsertMembers(init, c);
      forall i | 0 <= i < |r|
        ensures At(r[i]) <= At(last)
      {
        assert r[i] in r;
      }
    }
  }

  lemma {:induction false} InsertStable(s: seq<MergedCrash>, c: MergedCrash, t: Ms)
    ensures AtInstant(Insert(s, c), t) == AtInstant(s, t) + (if At(c) == t then [c] else [])
  {
    if s == [] || At(s[|s| - 1]) <= At(c) {
      AtInstantAppend(s, c, t);
    } else {
      var init, last := s[..|s| - 1], s[|s| - 1];
      InsertStable(init, c, t);
      AtInstantAppend(Insert(init, c), last, t);
    }
  }

  /** The sort returns the same completions in time order. */
  lemma {:induction false} SortByTimeSorts(s: seq<MergedCrash>)
    ensures Sorted(SortByTime(s))
    ensures multiset(SortByTime(s)) == multiset(s)
  {
    if s != [] {
      var init, last := s[..|s| - 1], s[|s| - 1];
      SortByTimeSorts(init);
      InsertSorted(SortByTime(init), last);
      InsertContents(SortByTime(init), last);
      assert s == init + [last];
    }
  }

  /** The sort keeps arrival order among the completions of one instant. */
  lemma {:induction false} SortByTimeStable(s: seq<MergedCrash>, t: Ms)
    ensures AtInstant(SortByTime(s), t) == AtInstant(s, t)
  {
    if s != [] {
      var init, last := s[..|s| - 1], s[|s| - 1];
      SortByTimeStable(init, t);
      InsertStable(SortByTime(init), last, t);
    }
  }
}
