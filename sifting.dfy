/** Reference definition of key sifting, independent of how either
    implementation builds its keys: the positions at which sender and
    receiver chose the same basis, and the selection of a list at those
    positions. */
module Sifting {

  /** The positions i with lo <= i < n at which the two basis lists agree,
      in increasing order. */
  function MatchesFrom(aBases: seq<char>, bBases: seq<char>, lo: nat, n: nat): (ps: seq<nat>)
    requires lo <= n <= |aBases| && n <= |bBases|
    ensures |ps| <= n - lo
    ensures forall k :: 0 <= k < |ps| ==> lo <= ps[k] < n && aBases[ps[k]] == bBases[ps[k]]
    ensures forall j, k :: 0 <= j < k < |ps| ==> ps[j] < ps[k]
    decreases n - lo
  {
    if lo == n then []
    else
      var rest := MatchesFrom(aBases, bBases, lo + 1, n);
      if aBases[lo] == bBases[lo] then [lo] + rest else rest
  }

  /** The matching positions below n. */
  function Matches(aBases: seq<char>, bBases: seq<char>, n: nat): seq<nat>
    requires n <= |aBases| && n <= |bBases|
  {
    MatchesFrom(aBases, bBases, 0, n)
  }

  /** The same positions as a set, for counting them. */
  function MatchSet(aBases: seq<char>, bBases: seq<char>, lo: nat, n: nat): set<nat>
    requires lo <= n <= |aBases| && n <= |bBases|
  {
    set i: nat | lo <= i < n && aBases[i] == bBases[i]
  }

  /** The elements of s at the positions ps, in the order of ps. */
  function Pick<T>(s: seq<T>, ps: seq<nat>): seq<T>
    requires forall k :: 0 <= k < |ps| ==> ps[k] < |s|
  {
    seq(|ps|, k requires 0 <= k < |ps| => s[ps[k]])
  }

  /** Every agreeing position in range is listed. */
  lemma {:induction false} MatchesFromComplete(aBases: seq<char>, bBases: seq<char>, lo: nat, n: nat, i: nat)
    requires lo <= i < n <= |aBases| && n <= |bBases|
    requires aBases[i] == bBases[i]
    ensures i in MatchesFrom(aBases, bBases, lo, n)
    decreases n - lo
  {
    if lo < i {
      MatchesFromComplete(aBases, bBases, lo + 1, n, i);
    }
  }

  /** Extending the range by one position appends that position if it matches. */
  lemma {:induction false} MatchesFromSnoc(aBases: seq<char>, bBases: seq<char>, lo: nat, n: nat)
    requires lo <= n < |aBases| && n < |bBases|
    ensures MatchesFrom(aBases, bBases, lo, n + 1)
            == MatchesFrom(aBases, bBases, lo, n) + (if aBases[n] == bBases[n] then [n] else [])
    decreases n - lo
  {
    if lo < n {
      MatchesFromSnoc(aBases, bBases, lo + 1, n);
    }
  }

  /** The number of matching positions is the size of the set of them. */
  lemma {:induction false} MatchCount(aBases: seq<char>, bBases: seq<char>, lo: nat, n: nat)
    requires lo <= n <= |aBases| && n <= |bBases|
    ensures |MatchesFrom(aBases, bBases, lo, n)| == |MatchSet(aBases, bBases, lo, n)|
    decreases n - lo
  {
    if lo < n {
      MatchCount(aBases, bBases, lo + 1, n);
      MatchesFromStep(aBases, bBases, lo, n);
      MatchSetStep(aBases, bBases, lo, n);
    } else {
      MatchSetEmpty(aBases, bBases, lo, n);
    }
  }

  lemma MatchesFromStep(aBases: seq<char>, bBases: seq<char>, lo: nat, n: nat)
    requires lo < n <= |aBases| && n <= |bBases|
    ensures |MatchesFrom(aBases, bBases, lo, n)|
            == |MatchesFrom(aBases, bBases, lo + 1, n)| + (if aBases[lo] == bBases[lo] then 1 else 0)
  {
  }

  lemma MatchSetStep(aBases: seq<char>, bBases: seq<char>, lo: nat, n: nat)
    requires lo < n <= |aBases| && n <= |bBases|
    ensures |MatchSet(aBases, bBases, lo, n)|
            == |MatchSet(aBases, bBases, lo + 1, n)| + (if aBases[lo] == bBases[lo] then 1 else 0)
  {
    var all, rest := MatchSet(aBases, bBases, lo, n), MatchSet(aBases, bBases, lo + 1, n);
    if aBases[lo] == bBases[lo] {
      assert all == {lo} + rest;
    } else {
      assert all == rest;
    }
  }

  lemma MatchSetEmpty(aBases: seq<char>, bBases: seq<char>, lo: nat, n: nat)
    requires lo == n <= |aBases| && n <= |bBases|
    ensures |MatchSet(aBases, bBases, lo, n)| == 0
  {
    var none := MatchSet(aBases, bBases, lo, n);
    assert none == {} by {
      forall i: nat | i in none ensures false { }
    }
  }

  lemma PickSnoc<T>(s: seq<T>, ps: seq<nat>, p: nat)
    requires forall k :: 0 <= k < |ps| ==> ps[k] < |s|
    requires p < |s|
    ensures Pick(s, ps + [p]) == Pick(s, ps) + [s[p]]
  {
    assert Pick(s, ps + [p])[|ps|] == s[p];
  }

  lemma PickCons<T>(s: seq<T>, p: nat, ps: seq<nat>)
    requires forall k :: 0 <= k < |ps| ==> ps[k] < |s|
    requires p < |s|
    ensures Pick(s, [p] + ps) == [s[p]] + Pick(s, ps)
  {
    assert Pick(s, [p] + ps)[0] == s[p];
  }
}
