/** The classical helpers of the circuit-based variant: random bits and
    bases, and the one-sided sifting of a key. */
module BB84Protocol {
  import opened Qubits
  import opened Sifting

  /** `random_bits(n)`; the i-th bit is drawn from coins(i). */
  function RandomBits(n: int, coins: Coins): (bits: seq<int>)
    ensures |bits| == RangeLength(n)
    ensures AllBits(bits)
  {
    var bits := seq(RangeLength(n), (i: nat) => RandBit(coins(i)));
    assert forall i :: 0 <= i < |bits| ==> bits[i] == RandBit(coins(i));
    bits
  }

  /** `random_bases(n)`; the i-th basis is drawn from choices(i). */
  function RandomBases(n: int, choices: Coins): (bases: seq<char>)
    ensures |bases| == RangeLength(n)
    ensures AllBases(bases)
  {
    var bases := seq(RangeLength(n), (i: nat) => RandBasis(choices(i)));
    assert forall i :: 0 <= i < |bases| ==> bases[i] == RandBasis(choices(i));
    bases
  }

  /** `sift_key`: walk the three lists together, stopping at the end of the
      shortest, and keep the bit wherever the two bases agree. */
  function SiftKey(bits: seq<int>, aliceBases: seq<char>, bobBases: seq<char>): (key: seq<int>)
    ensures |key| <= Zip3(|bits|, |aliceBases|, |bobBases|)
    decreases |bits|
  {
    if |bits| == 0 || |aliceBases| == 0 || |bobBases| == 0 then []
    else
      (if aliceBases[0] == bobBases[0] then [bits[0]] else [])
      + SiftKey(bits[1..], aliceBases[1..], bobBases[1..])
  }

  lemma {:induction false} SiftKeySelectsFrom(bits: seq<int>, aliceBases: seq<char>, bobBases: seq<char>, lo: nat)
    requires lo <= Zip3(|bits|, |aliceBases|, |bobBases|)
    ensures var n := Zip3(|bits|, |aliceBases|, |bobBases|);
            SiftKey(bits[lo..], aliceBases[lo..], bobBases[lo..]) == Pick(bits, MatchesFrom(aliceBases, bobBases, lo, n))
    decreases |bits| - lo
  {
    var n := Zip3(|bits|, |aliceBases|, |bobBases|);
    if lo < n {
      SiftKeySelectsFrom(bits, aliceBases, bobBases, lo + 1);
      assert bits[lo..][1..] == bits[lo + 1..];
      assert aliceBases[lo..][1..] == aliceBases[lo + 1..];
      assert bobBases[lo..][1..] == bobBases[lo + 1..];
      var rest := MatchesFrom(aliceBases, bobBases, lo + 1, n);
      if aliceBases[lo] == bobBases[lo] {
        PickCons(bits, lo, rest);
      }
    }
  }

  /** The key is the in-order subsequence of `bits` at exactly the
      positions, below the length of the zip, where the bases agree. */
  lemma SiftKeySelects(bits: seq<int>, aliceBases: seq<char>, bobBases: seq<char>)
    ensures SiftKey(bits, aliceBases, bobBases)
            == Pick(bits, Matches(aliceBases, bobBases, Zip3(|bits|, |aliceBases|, |bobBases|)))
  {
    SiftKeySelectsFrom(bits, aliceBases, bobBases, 0);
    assert bits[0..] == bits && aliceBases[0..] == aliceBases && bobBases[0..] == bobBases;
  }

  /** The key is as long as the number of agreeing positions. */
  lemma SiftKeyLength(bits: seq<int>, aliceBases: seq<char>, bobBases: seq<char>)
    ensures var n := Zip3(|bits|, |aliceBases|, |bobBases|);
            |SiftKey(bits, aliceBases, bobBases)| == |MatchSet(aliceBases, bobBases, 0, n)|
  {
    SiftKeySelects(bits, aliceBases, bobBases);
    MatchCount(aliceBases, bobBases, 0, Zip3(|bits|, |aliceBases|, |bobBases|));
  }

  /** When every aligned pair of bases agrees, the whole (truncated) bit list is kept. */
  lemma {:induction false} SiftKeyAllMatch(bits: seq<int>, aliceBases: seq<char>, bobBases: seq<char>)
    requires forall i :: 0 <= i < Zip3(|bits|, |aliceBases|, |bobBases|) ==> aliceBases[i] == bobBases[i]
    ensures SiftKey(bits, aliceBases, bobBases) == bits[..Zip3(|bits|, |aliceBases|, |bobBases|)]
    decreases |bits|
  {
    var n := Zip3(|bits|, |aliceBases|, |bobBases|);
    if n > 0 {
      assert aliceBases[0] == bobBases[0];
      SiftKeyAllMatch(bits[1..], aliceBases[1..], bobBases[1..]);
      assert bits[..n] == [bits[0]] + bits[1..][..n - 1];
    }
  }

  /** When no aligned pair of bases agrees, the key is empty. */
  lemma {:induction false} SiftKeyNoneMatch(bits: seq<int>, aliceBases: seq<char>, bobBases: seq<char>)
    requires forall i :: 0 <= i < Zip3(|bits|, |aliceBases|, |bobBases|) ==> aliceBases[i] != bobBases[i]
    ensures SiftKey(bits, aliceBases, bobBases) == []
    decreases |bits|
  {
    var n := Zip3(|bits|, |aliceBases|, |bobBases|);
    if n > 0 {
      assert aliceBases[0] != bobBases[0];
      SiftKeyNoneMatch(bits[1..], aliceBases[1..], bobBases[1..]);
    }
  }
}
