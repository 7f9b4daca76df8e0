/** Free-text search: SQLite's `LIKE … ESCAPE '\'` and the pattern built from a user's query. */
module Search {
  import opened Model

  const ESCAPE: char := '\\'

  /** SQLite's pattern matcher: `%` stands for any text, `_` for any one character, and the
      escape character makes the next one literal; a pattern that ends in it matches nothing. */
  ghost predicate Like(p: string, s: string)
    decreases |p|
  {
    if p == [] then s == []
    else if p[0] == '%' then exists k :: 0 <= k <= |s| && Like(p[1..], s[k..])
    else if p[0] == '_' then s != [] && Like(p[1..], s[1..])
    else if p[0] == ESCAPE then |p| >= 2 && s != [] && LowerAscii(p[1]) == LowerAscii(s[0]) && Like(p[2..], s[1..])
    else s != [] && LowerAscii(p[0]) == LowerAscii(s[0]) && Like(p[1..], s[1..])
  }

  predicate IsMeta(c: char) { c == ESCAPE || c == '%' || c == '_' }

  function Escaped(q: string): string {
    if q == [] then [] else (if IsMeta(q[0]) then [ESCAPE, q[0]] else [q[0]]) + Escaped(q[1..])
  }

  lemma {:induction false} EscapedSnoc(q: string, c: char)
    ensures Escaped(q + [c]) == Escaped(q) + (if IsMeta(c) then [ESCAPE, c] else [c])
  {
    if q == [] {
      assert Escaped([]) == [] && (q + [c])[1..] == [];
    } else {
      assert (q + [c])[1..] == q[1..] + [c];
      EscapedSnoc(q[1..], c);
    }
  }

  function Pattern(q: string): string { ['%'] + Escaped(q) + ['%'] }

  /** Builds the pattern character by character. */
  method LikePattern(query: string) returns (pattern: string)
    ensures pattern == Pattern(query)
  {
    pattern := ['%'];
    var i := 0;
    while i < |query|
      invariant 0 <= i <= |query|
      invariant pattern == ['%'] + Escaped(query[..i])
    {
      EscapedSnoc(query[..i], query[i]);
      assert query[..i + 1] == query[..i] + [query[i]];
      if IsMeta(query[i]) {
        pattern := pattern + [ESCAPE];
      }
      pattern := pattern + [query[i]];
      i := i + 1;
    }
    assert query[..i] == query;
    pattern := pattern + ['%'];
  }

  /** The query stands at the start of the text, up to ASCII case. */
  predicate StartsWith(s: string, q: string) {
    |q| <= |s| && forall i :: 0 <= i < |q| ==> LowerAscii(s[i]) == LowerAscii(q[i])
  }

  /** The query occurs in the text, up to ASCII case. */
  predicate Occurs(q: string, s: string) { exists k :: 0 <= k <= |s| && StartsWith(s[k..], q) }

  lemma PercentMatchesAll(s: string)
    ensures Like(['%'], s)
  {
    assert s[|s|..] == [] && ['%'][1..] == [];
    assert Like([], s[|s|..]);
  }

  lemma StartsWithStep(s: string, q: string)
    requires q != []
    ensures StartsWith(s, q) <==> s != [] && LowerAscii(s[0]) == LowerAscii(q[0]) && StartsWith(s[1..], q[1..])
  {
    if s != [] && LowerAscii(s[0]) == LowerAscii(q[0]) && StartsWith(s[1..], q[1..]) {
      forall i | 0 <= i < |q|
        ensures LowerAscii(s[i]) == LowerAscii(q[i])
      {
        assert i > 0 ==> LowerAscii(s[1..][i - 1]) == LowerAscii(q[1..][i - 1]);
      }
    }
  }

  lemma {:induction false} EscapedMatchesPrefix(q: string, s: string)
    ensures Like(Escaped(q) + ['%'], s) <==> StartsWith(s, q)
  {
    if q == [] {
      assert Escaped(q) + ['%'] == ['%'];
      PercentMatchesAll(s);
    } else {
      var p, rest := Escaped(q) + ['%'], Escaped(q[1..]) + ['%'];
      assert if IsMeta(q[0]) then p[0] == ESCAPE && p[1] == q[0] && p[2..] == rest else p[0] == q[0] && p[1..] == rest;
      StartsWithStep(s, q);
      if s != [] {
        EscapedMatchesPrefix(q[1..], s[1..]);
      }
    }
  }

  /** Escaping preserves meaning: the built pattern matches a text exactly when the query, taken
      literally, occurs in it up to ASCII case. */
  lemma PatternMatchesSubstring(q: string, s: string)
    ensures Like(Pattern(q), s) <==> Occurs(q, s)
  {
    var rest := Escaped(q) + ['%'];
    assert Pattern(q)[0] == '%' && Pattern(q)[1..] == rest;
    forall k | 0 <= k <= |s|
      ensures Like(rest, s[k..]) <==> StartsWith(s[k..], q)
    {
      EscapedMatchesPrefix(q, s[k..]);
    }
  }
}
