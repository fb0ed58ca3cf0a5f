/** The two sifting implementations agree: the one-sided `sift_key` gives
    the first of the two keys `sift_keys` builds, whenever the list of
    Bob's results is long enough not to cut the zip short. */
module Agreement {
  import opened Qubits
  import opened Sifting
  import BB84
  import BB84Protocol

  lemma SiftKeyIsAliceSiftedKey(bits: seq<int>, aliceBases: seq<char>, bobBases: seq<char>, bobResults: seq<int>)
    requires |bobResults| >= Zip3(|bits|, |aliceBases|, |bobBases|)
    ensures BB84Protocol.SiftKey(bits, aliceBases, bobBases)
            == BB84.SiftedKeys(bits, aliceBases, bobBases, bobResults).0
  {
    BB84Protocol.SiftKeySelects(bits, aliceBases, bobBases);
    assert Zip4(|bits|, |aliceBases|, |bobBases|, |bobResults|) == Zip3(|bits|, |aliceBases|, |bobBases|);
  }

  /** If Bob's list is shorter, `sift_keys` stops early and the two differ. */
  lemma ShortResultsTruncate()
    ensures BB84Protocol.SiftKey([1], [X], [X]) == [1]
    ensures BB84.SiftedKeys([1], [X], [X], []).0 == []
  {
    assert Matches([X], [X], 1) == [0];
  }
}
