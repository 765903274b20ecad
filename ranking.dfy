/**
 * The pick-order ranking: the dictionary built from the shuffled list of
 * player names, mapping each name to its 1-based position. Built left to
 * right, so when a name occurs twice the later position overwrites the
 * earlier one.
 */
module Ranking {

  /** No name occurs twice. */
  predicate Distinct(s: seq<string>) {
    forall i, j :: 0 <= i < j < |s| ==> s[i] != s[j]
  }

  /** `{name: idx + 1 for idx, name in enumerate(s)}`, one insertion per position. */
  function RankMap(s: seq<string>): (m: map<string, int>)
    ensures m.Keys == set x | x in s
    ensures forall x :: x in m ==> 1 <= m[x] <= |s|
  {
    if s == [] then map[]
    else
      var init := s[..|s| - 1];
      assert s == init + [s[|s| - 1]];
      RankMap(init)[s[|s| - 1] := |s|]
  }

  /** A name's rank is the position (plus one) of its LAST occurrence. */
  lemma {:induction false} RankIsLastOccurrence(s: seq<string>, x: string)
    requires x in s
    ensures x in RankMap(s)
    ensures var k := RankMap(s)[x];
      1 <= k <= |s| && s[k - 1] == x &&
      forall j :: k <= j < |s| ==> s[j] != x
  {
    var init := s[..|s| - 1];
    assert s == init + [s[|s| - 1]];
    if s[|s| - 1] != x {
      assert x in init;
      RankIsLastOccurrence(init, x);
    }
  }

  /** Two different names never share a rank, even when names repeat. */
  lemma RanksAreInjective(s: seq<string>, x: string, y: string)
    requires x in s && y in s && x != y
    ensures RankMap(s)[x] != RankMap(s)[y]
  {
    RankIsLastOccurrence(s, x);
    RankIsLastOccurrence(s, y);
  }

  /** With distinct names, the name at position i gets rank i + 1. */
  lemma RankOfDistinct(s: seq<string>, i: int)
    requires Distinct(s) && 0 <= i < |s|
    ensures RankMap(s)[s[i]] == i + 1
  {
    RankIsLastOccurrence(s, s[i]);
  }

  /** With distinct names, the ranks are exactly 1..N: no gaps (and, by
      RanksAreInjective, no duplicates). */
  lemma RanksAreOneToN(s: seq<string>)
    requires Distinct(s)
    ensures forall k :: k in RankMap(s).Values <==> 1 <= k <= |s|
  {
    var m := RankMap(s);
    forall k | 1 <= k <= |s| ensures k in m.Values {
      RankOfDistinct(s, k - 1);
      assert m[s[k - 1]] == k;
    }
  }

  /** Repeated names: with ["Ana", "Bia", "Ana"] the later "Ana" wins rank 3 and rank 1 is never given. */
  lemma RepeatedNameExample()
    ensures RankMap(["Ana", "Bia", "Ana"]) == map["Ana" := 3, "Bia" := 2]
    ensures 1 !in RankMap(["Ana", "Bia", "Ana"]).Values
  {
  }
}
