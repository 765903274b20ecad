/**
 * The bracket draw: the shuffled (name, team) list is cut in half into
 * bracket A and bracket B, and A[i] is paired with B[i].
 */
module Bracket {
  import opened Common
  import opened Players

  /** One matchup: a player from bracket A against one from bracket B. */
  datatype Pairing = Pairing(home: Entry, away: Entry)

  /** The cut at N/2: `chave_a = s[:N//2]`, `chave_b = s[N//2:]`. */
  function Split(s: seq<Entry>): (r: (seq<Entry>, seq<Entry>))
    ensures r.0 + r.1 == s
    ensures |r.0| == |s| / 2 && |r.0| <= |r.1|
    ensures |s| % 2 == 0 ==> |r.0| == |r.1|
  {
    (s[..|s| / 2], s[|s| / 2..])
  }

  /** The pairing loop: one matchup per player of bracket A, in order. */
  method PairUp(a: seq<Entry>, b: seq<Entry>) returns (pairs: seq<Pairing>)
    requires |a| <= |b|
    ensures |pairs| == |a|
    ensures forall i :: 0 <= i < |a| ==> pairs[i] == Pairing(a[i], b[i])
  {
    pairs := [];
    for i := 0 to |a|
      invariant |pairs| == i
      invariant forall k :: 0 <= k < i ==> pairs[k] == Pairing(a[k], b[k])
    {
      pairs := pairs + [Pairing(a[i], b[i])];
    }
  }

  /** Every player appearing in the matchups, with multiplicity. */
  function Members(pairs: seq<Pairing>): multiset<Entry> {
    if pairs == [] then multiset{}
    else Members(pairs[..|pairs| - 1]) + multiset{pairs[|pairs| - 1].home, pairs[|pairs| - 1].away}
  }

  /** Pairing two lists index-wise uses every player of both exactly once. */
  lemma {:induction false} MembersOfPairing(pairs: seq<Pairing>, a: seq<Entry>, b: seq<Entry>)
    requires |pairs| == |a| == |b|
    requires forall i :: 0 <= i < |pairs| ==> pairs[i] == Pairing(a[i], b[i])
    ensures Members(pairs) == multiset(a) + multiset(b)
  {
    if pairs != [] {
      var n := |pairs| - 1;
      var p, a', b' := pairs[..n], a[..n], b[..n];
      assert multiset(a) == multiset(a') + multiset{a[n]} by {
        assert a == a' + [a[n]];
      }
      assert multiset(b) == multiset(b') + multiset{b[n]} by {
        assert b == b' + [b[n]];
      }
      MembersOfPairing(p, a', b');
      assert Members(pairs) == Members(p) + multiset{a[n], b[n]};
    }
  }

  /**
   * The draw on an already shuffled list: an odd count is an error; otherwise
   * N/2 matchups, the i-th pairing shuffled[i] with shuffled[i + N/2], using
   * every player exactly once.
   */
  method Draw(shuffled: seq<Entry>) returns (r: Result<seq<Pairing>>)
    ensures r.Err? <==> |shuffled| % 2 != 0
    ensures r.Err? ==> r.error == OddPlayerCount
    ensures r.Ok? ==> |r.value| == |shuffled| / 2
    ensures r.Ok? ==> forall i :: 0 <= i < |r.value| ==>
      r.value[i] == Pairing(shuffled[i], shuffled[i + |shuffled| / 2])
    ensures r.Ok? ==> Members(r.value) == multiset(shuffled)
  {
    if |shuffled| % 2 != 0 {
      return Err(OddPlayerCount);
    }
    var (a, b) := Split(shuffled);
    var pairs := PairUp(a, b);
    MembersOfPairing(pairs, a, b);
    assert multiset(a) + multiset(b) == multiset(shuffled) by {
      assert a + b == shuffled;
    }
    r := Ok(pairs);
  }
}
