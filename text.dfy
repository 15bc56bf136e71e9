/**
 * Case-insensitive substring matching, the meaning given here to Postgres
 * `column ILIKE '%' || q || '%'`: ASCII letters are folded to lower case and the
 * query is matched literally (no `%` or `_` wildcards inside it).
 */
module Text {

  function LowerChar(c: char): char
  {
    if 'A' <= c <= 'Z' then (c as int + 32) as char else c
  }

  function Lower(s: string): (r: string)
    ensures |r| == |s|
    ensures forall i :: 0 <= i < |s| ==> r[i] == LowerChar(s[i])
  {
    seq(|s|, i requires 0 <= i < |s| => LowerChar(s[i]))
  }

  /** `sub` occurs in `s` starting at position `i`. */
  predicate OccursAt(sub: string, s: string, i: int)
  {
    0 <= i && i + |sub| <= |s| && s[i..i + |sub|] == sub
  }

  /** The reference meaning of "`sub` is a substring of `s`". */
  ghost predicate OccursIn(sub: string, s: string)
  {
    exists i :: OccursAt(sub, s, i)
  }

  /** Left-to-right substring search. */
  function Contains(s: string, sub: string): bool
    decreases |s|
  {
    if |sub| > |s| then false
    else if sub <= s then true
    else Contains(s[1..], sub)
  }

  /** The search agrees with the reference meaning, in both directions. */
  lemma {:induction false} ContainsIff(s: string, sub: string)
    ensures Contains(s, sub) <==> OccursIn(sub, s)
    decreases |s|
  {
    if |sub| <= |s| && sub <= s {
      assert OccursAt(sub, s, 0);
    } else if |sub| <= |s| {
      ContainsIff(s[1..], sub);
      if Contains(s[1..], sub) {
        var i :| OccursAt(sub, s[1..], i);
        assert s[1..][i..i + |sub|] == s[i + 1..i + 1 + |sub|];
        assert OccursAt(sub, s, i + 1);
      }
      if OccursIn(sub, s) {
        var i :| OccursAt(sub, s, i);
        assert i != 0;
        assert s[1..][i - 1..i - 1 + |sub|] == s[i..i + |sub|];
        assert OccursAt(sub, s[1..], i - 1);
      }
    }
  }

  /** `field ILIKE '%' || query || '%'`. */
  predicate ILikeContains(field: string, query: string)
  {
    Contains(Lower(field), Lower(query))
  }

  lemma LowerIdempotent(s: string)
    ensures Lower(Lower(s)) == Lower(s)
  {
  }

  /** The match ignores the case of both the column and the query. */
  lemma ILikeIgnoresCase(field: string, query: string)
    ensures ILikeContains(Lower(field), query) == ILikeContains(field, query)
    ensures ILikeContains(field, Lower(query)) == ILikeContains(field, query)
  {
    LowerIdempotent(field);
    LowerIdempotent(query);
  }

  /** Every literal occurrence is found, and the empty query matches every column. */
  lemma ILikeFindsOccurrence(field: string, query: string)
    ensures OccursIn(query, field) ==> ILikeContains(field, query)
    ensures ILikeContains(field, "")
  {
    if OccursIn(query, field) {
      var i :| OccursAt(query, field, i);
      assert Lower(field)[i..i + |query|] == Lower(query);
      assert OccursAt(Lower(query), Lower(field), i);
      ContainsIff(Lower(field), Lower(query));
    }
    assert OccursAt("", Lower(field), 0);
    ContainsIff(Lower(field), Lower(""));
  }
}
