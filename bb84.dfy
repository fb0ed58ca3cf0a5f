/** The classical BB84 simulation: Alice prepares (bit, basis) pairs, an
    optional intercept-resend eavesdropper (Eve) measures and re-prepares
    them, Bob measures in his own bases, both sides sift to the positions
    where their bases agree, and the quantum bit error rate (QBER) compares
    two sifted keys. Every random draw is read from an explicit coin stream. */
module BB84 {
  import opened Qubits
  import opened Sifting

  datatype Option<T> = None | Some(value: T)

  /** A prepared qubit: the classical pair it carries. */
  datatype Qubit = Qubit(bit: int, basis: char)

  /** What Eve did at one position. Both Eve fields are None when she let
      the qubit pass. */
  datatype EveRecord = EveRecord(intercepted: bool, eveBasis: Option<char>, eveMeas: Option<int>)

  // ---------------------------------------------------------------------
  // Randomness source

  /** `generate_bits(n)`; the i-th bit is drawn from coins(i). */
  function GenerateBits(n: int, coins: Coins): (bits: seq<int>)
    ensures |bits| == RangeLength(n)
    ensures AllBits(bits)
  {
    var bits := seq(RangeLength(n), (i: nat) => RandBit(coins(i)));
    assert forall i :: 0 <= i < |bits| ==> bits[i] == RandBit(coins(i));
    bits
  }

  /** `generate_bases(n)`; the i-th basis is drawn from choices(i). */
  function GenerateBases(n: int, choices: Coins): (bases: seq<char>)
    ensures |bases| == RangeLength(n)
    ensures AllBases(bases)
  {
    var bases := seq(RangeLength(n), (i: nat) => RandBasis(choices(i)));
    assert forall i :: 0 <= i < |bases| ==> bases[i] == RandBasis(choices(i));
    bases
  }

  /** Every sequence of bits can come out of GenerateBits. */
  lemma GenerateBitsReachesAll(s: seq<int>)
    requires AllBits(s)
    ensures exists coins: Coins :: GenerateBits(|s|, coins) == s
  {
    var coins: Coins := (i: nat) => i < |s| && s[i] == 1;
    var bits := GenerateBits(|s|, coins);
    forall i | 0 <= i < |s| ensures bits[i] == s[i] {
      assert bits[i] == RandBit(coins(i));
    }
    assert bits == s;
  }

  /** Every sequence of bases can come out of GenerateBases. */
  lemma GenerateBasesReachesAll(s: seq<char>)
    requires AllBases(s)
    ensures exists choices: Coins :: GenerateBases(|s|, choices) == s
  {
    var choices: Coins := (i: nat) => i < |s| && s[i] == Z;
    var bases := GenerateBases(|s|, choices);
    forall i | 0 <= i < |s| ensures bases[i] == s[i] {
      assert bases[i] == RandBasis(choices(i));
    }
    assert bases == s;
  }

  // ---------------------------------------------------------------------
  // Preparation and measurement (specification functions)

  /** The qubits Alice sends: her bits and bases, paired by `zip`. */
  function Prepare(bits: seq<int>, bases: seq<char>): (qs: seq<Qubit>)
    ensures |qs| == Min(|bits|, |bases|)
    ensures forall i :: 0 <= i < |qs| ==> qs[i].bit == bits[i] && qs[i].basis == bases[i]
  {
    seq(Min(|bits|, |bases|), i requires 0 <= i < Min(|bits|, |bases|) => Qubit(bits[i], bases[i]))
  }

  /** Measuring one qubit: in the preparation basis the prepared bit comes
      out; in the other basis the outcome is a fresh draw. */
  function Measure(q: Qubit, basis: char, coin: bool): (r: int)
    ensures q.basis == basis ==> r == q.bit
    ensures q.basis != basis ==> r == RandBit(coin)
    ensures IsBit(q.bit) ==> IsBit(r)
  {
    if q.basis == basis then q.bit else RandBit(coin)
  }

  /** Measuring a list of qubits position by position in the given bases. */
  function Observe(qs: seq<Qubit>, bases: seq<char>, coins: Coins): (r: seq<int>)
    ensures |r| == Min(|qs|, |bases|)
    ensures forall i :: 0 <= i < |r| && qs[i].basis == bases[i] ==> r[i] == qs[i].bit
    ensures forall i :: 0 <= i < |r| && qs[i].basis != bases[i] ==> r[i] == RandBit(coins(i))
    ensures (forall i :: 0 <= i < |qs| ==> IsBit(qs[i].bit)) ==> AllBits(r)
  {
    var r := seq(Min(|qs|, |bases|), i requires 0 <= i < Min(|qs|, |bases|) => Measure(qs[i], bases[i], coins(i)));
    assert forall i :: 0 <= i < |r| ==> r[i] == Measure(qs[i], bases[i], coins(i));
    r
  }

  lemma ObserveAt(qs: seq<Qubit>, bases: seq<char>, coins: Coins, i: nat)
    requires i < |qs| && i < |bases|
    ensures Observe(qs, bases, coins)[i] == Measure(qs[i], bases[i], coins(i))
  {
  }

  /** Eve at one position: if she intercepts, she measures in a basis of her
      own and forwards her outcome prepared in her basis; otherwise the
      qubit passes unchanged. */
  function EveStep(q: Qubit, intercept: bool, choice: bool, coin: bool): (out: (Qubit, EveRecord))
    ensures intercept ==> out.0.basis == RandBasis(choice)
                          && out.1 == EveRecord(true, Some(out.0.basis), Some(out.0.bit))
    ensures intercept && out.0.basis == q.basis ==> out.0.bit == q.bit
    ensures intercept && out.0.basis != q.basis ==> out.0.bit == RandBit(coin)
    ensures !intercept ==> out == (q, EveRecord(false, None, None))
    ensures IsBit(q.bit) ==> IsBit(out.0.bit)
  {
    if intercept then
      var eBasis := RandBasis(choice);
      var eMeas := Measure(q, eBasis, coin);
      (Qubit(eMeas, eBasis), EveRecord(true, Some(eBasis), Some(eMeas)))
    else
      (q, EveRecord(false, None, None))
  }

  /** Intercept-resend over all positions: the forwarded qubits and Eve's records. */
  function Eavesdrop(qs: seq<Qubit>, intercepts: Coins, eveChoices: Coins, eveCoins: Coins)
    : (out: (seq<Qubit>, seq<EveRecord>))
    ensures |out.0| == |qs| && |out.1| == |qs|
    ensures forall i :: 0 <= i < |qs| && intercepts(i) ==>
              && out.0[i].basis == RandBasis(eveChoices(i))
              && out.1[i] == EveRecord(true, Some(out.0[i].basis), Some(out.0[i].bit))
    ensures forall i :: 0 <= i < |qs| && intercepts(i) && out.0[i].basis == qs[i].basis ==>
              out.0[i].bit == qs[i].bit
    ensures forall i :: 0 <= i < |qs| && intercepts(i) && out.0[i].basis != qs[i].basis ==>
              out.0[i].bit == RandBit(eveCoins(i))
    ensures forall i :: 0 <= i < |qs| && !intercepts(i) ==>
              out.0[i] == qs[i] && out.1[i] == EveRecord(false, None, None)
    ensures (forall i :: 0 <= i < |qs| ==> IsBit(qs[i].bit)) ==>
              forall i :: 0 <= i < |qs| ==> IsBit(out.0[i].bit)
  {
    (seq(|qs|, i requires 0 <= i < |qs| => EveStep(qs[i], intercepts(i), eveChoices(i), eveCoins(i)).0),
     seq(|qs|, i requires 0 <= i < |qs| => EveStep(qs[i], intercepts(i), eveChoices(i), eveCoins(i)).1))
  }

  // ---------------------------------------------------------------------
  // Measurement by Bob

  /** `measure_bits_no_eve`: Bob measures Alice's qubits directly. */
  method MeasureBitsNoEve(aliceBits: seq<int>, aliceBases: seq<char>, bobBases: seq<char>, coins: Coins)
    returns (results: seq<int>)
    ensures results == Observe(Prepare(aliceBits, aliceBases), bobBases, coins)
    ensures |results| == Zip3(|aliceBits|, |aliceBases|, |bobBases|)
    ensures forall i :: 0 <= i < |results| && aliceBases[i] == bobBases[i] ==> results[i] == aliceBits[i]
    ensures AllBits(aliceBits) ==> AllBits(results)
  {
    ghost var spec := Observe(Prepare(aliceBits, aliceBases), bobBases, coins);
    var n := Zip3(|aliceBits|, |aliceBases|, |bobBases|);
    results := [];
    for i := 0 to n
      invariant results == spec[..i]
    {
      if aliceBases[i] == bobBases[i] {
        results := results + [aliceBits[i]];
      } else {
        results := results + [RandBit(coins(i))];
      }
    }
  }

  /** `measure_bits_with_eve`: Eve intercepts where intercepts(i) holds (the
      draw `random.random() < eve_prob`), then Bob measures what she forwards. */
  method MeasureBitsWithEve(aliceBits: seq<int>, aliceBases: seq<char>, bobBases: seq<char>,
                            intercepts: Coins, eveChoices: Coins, eveCoins: Coins, bobCoins: Coins)
    returns (bobResults: seq<int>, eveInfo: seq<EveRecord>)
    ensures bobResults == BobWithEve(aliceBits, aliceBases, bobBases, intercepts, eveChoices, eveCoins, bobCoins)
    ensures eveInfo == Eavesdrop(Prepare(aliceBits, aliceBases), intercepts, eveChoices, eveCoins).1
    ensures |eveInfo| == Min(|aliceBits|, |aliceBases|)
    ensures |bobResults| == Zip3(|aliceBits|, |aliceBases|, |bobBases|)
    ensures forall i :: 0 <= i < |eveInfo| ==> (eveInfo[i].intercepted <==> intercepts(i))
    ensures forall i :: 0 <= i < |eveInfo| && eveInfo[i].eveBasis == Some(aliceBases[i]) ==>
              eveInfo[i].eveMeas == Some(aliceBits[i])
    ensures forall i :: 0 <= i < |bobResults| && !intercepts(i) && aliceBases[i] == bobBases[i] ==>
              bobResults[i] == aliceBits[i]
    ensures forall i :: 0 <= i < |bobResults| && eveInfo[i].eveBasis == Some(bobBases[i]) ==>
              eveInfo[i].eveMeas == Some(bobResults[i])
    ensures AllBits(aliceBits) ==> AllBits(bobResults)
  {
    ghost var sent := Prepare(aliceBits, aliceBases);
    ghost var spec := Eavesdrop(sent, intercepts, eveChoices, eveCoins);
    var m := Min(|aliceBits|, |aliceBases|);
    var qubitsAfterEve: seq<Qubit> := [];
    eveInfo := [];
    for i := 0 to m
      invariant qubitsAfterEve == spec.0[..i] && eveInfo == spec.1[..i]
    {
      if intercepts(i) {
        var eBasis := RandBasis(eveChoices(i));
        var eMeas := if eBasis == aliceBases[i] then aliceBits[i] else RandBit(eveCoins(i));
        qubitsAfterEve := qubitsAfterEve + [Qubit(eMeas, eBasis)];
        eveInfo := eveInfo + [EveRecord(true, Some(eBasis), Some(eMeas))];
      } else {
        qubitsAfterEve := qubitsAfterEve + [Qubit(aliceBits[i], aliceBases[i])];
        eveInfo := eveInfo + [EveRecord(false, None, None)];
      }
    }
    assert qubitsAfterEve == spec.0;
    ghost var observed := Observe(qubitsAfterEve, bobBases, bobCoins);
    var n := Min(|qubitsAfterEve|, |bobBases|);
    bobResults := [];
    for i := 0 to n
      invariant bobResults == observed[..i]
    {
      var q := qubitsAfterEve[i];
      ObserveAt(qubitsAfterEve, bobBases, bobCoins, i);
      assert observed[..i + 1] == observed[..i] + [Measure(q, bobBases[i], bobCoins(i))];
      if q.basis == bobBases[i] {
        bobResults := bobResults + [q.bit];
      } else {
        bobResults := bobResults + [RandBit(bobCoins(i))];
      }
    }
  }

  /** The results Bob obtains when Eve is on the line (the specification of
      MeasureBitsWithEve's first result). */
  function BobWithEve(aliceBits: seq<int>, aliceBases: seq<char>, bobBases: seq<char>,
                      intercepts: Coins, eveChoices: Coins, eveCoins: Coins, bobCoins: Coins): (r: seq<int>)
    ensures |r| == Zip3(|aliceBits|, |aliceBases|, |bobBases|)
    ensures forall i :: 0 <= i < |r| && !intercepts(i) && aliceBases[i] == bobBases[i] ==>
              r[i] == aliceBits[i]
    ensures forall i :: 0 <= i < |r| && !intercepts(i) && aliceBases[i] != bobBases[i] ==>
              r[i] == RandBit(bobCoins(i))
    ensures forall i :: 0 <= i < |r| && intercepts(i) && RandBasis(eveChoices(i)) == bobBases[i] ==>
              r[i] == (if RandBasis(eveChoices(i)) == aliceBases[i] then aliceBits[i] else RandBit(eveCoins(i)))
    ensures forall i :: 0 <= i < |r| && intercepts(i) && RandBasis(eveChoices(i)) != bobBases[i] ==>
              r[i] == RandBit(bobCoins(i))
    ensures AllBits(aliceBits) ==> AllBits(r)
  {
    Observe(Eavesdrop(Prepare(aliceBits, aliceBases), intercepts, eveChoices, eveCoins).0, bobBases, bobCoins)
  }

  // ---------------------------------------------------------------------
  // Sifting

  /** The two sifted keys: Alice's bits and Bob's results at the positions,
      below the length of the zip, where the bases agree. */
  function SiftedKeys(aliceBits: seq<int>, aliceBases: seq<char>, bobBases: seq<char>, bobResults: seq<int>)
    : (keys: (seq<int>, seq<int>))
    ensures var n := Zip4(|aliceBits|, |aliceBases|, |bobBases|, |bobResults|);
            |keys.0| == |keys.1| == |MatchSet(aliceBases, bobBases, 0, n)| <= n
  {
    var n := Zip4(|aliceBits|, |aliceBases|, |bobBases|, |bobResults|);
    var ps := Matches(aliceBases, bobBases, n);
    MatchCount(aliceBases, bobBases, 0, n);
    (Pick(aliceBits, ps), Pick(bobResults, ps))
  }

  /** `sift_keys`. */
  method SiftKeys(aliceBits: seq<int>, aliceBases: seq<char>, bobBases: seq<char>, bobResults: seq<int>)
    returns (aliceKey: seq<int>, bobKey: seq<int>)
    ensures (aliceKey, bobKey) == SiftedKeys(aliceBits, aliceBases, bobBases, bobResults)
    ensures |aliceKey| == |bobKey|
  {
    var n := Zip4(|aliceBits|, |aliceBases|, |bobBases|, |bobResults|);
    aliceKey, bobKey := [], [];
    ghost var ps: seq<nat> := [];
    for i := 0 to n
      invariant ps == MatchesFrom(aliceBases, bobBases, 0, i)
      invariant aliceKey == Pick(aliceBits, ps) && bobKey == Pick(bobResults, ps)
    {
      MatchesFromSnoc(aliceBases, bobBases, 0, i);
      if aliceBases[i] == bobBases[i] {
        PickSnoc(aliceBits, ps, i);
        PickSnoc(bobResults, ps, i);
        aliceKey := aliceKey + [aliceBits[i]];
        bobKey := bobKey + [bobResults[i]];
        ps := ps + [i];
      }
    }
  }

  /** Without Eve, sifting Bob's results yields exactly Alice's key. */
  lemma NoEveKeysAgree(aliceBits: seq<int>, aliceBases: seq<char>, bobBases: seq<char>, coins: Coins)
    ensures var results := Observe(Prepare(aliceBits, aliceBases), bobBases, coins);
            SiftedKeys(aliceBits, aliceBases, bobBases, results).0
            == SiftedKeys(aliceBits, aliceBases, bobBases, results).1
  {
    var results := Observe(Prepare(aliceBits, aliceBases), bobBases, coins);
    var keys := SiftedKeys(aliceBits, aliceBases, bobBases, results);
    var ps := Matches(aliceBases, bobBases, Zip4(|aliceBits|, |aliceBases|, |bobBases|, |results|));
    forall k | 0 <= k < |keys.0| ensures keys.0[k] == keys.1[k] {
      assert aliceBases[ps[k]] == bobBases[ps[k]];
    }
  }

  // ---------------------------------------------------------------------
  // QBER

  /** The number of positions below L at which a and b differ. */
  function Mismatches(a: seq<int>, b: seq<int>, L: nat): (m: nat)
    requires L <= |a| && L <= |b|
    ensures m == |MismatchSet(a, b, L)|
    ensures m <= L
    ensures m == 0 <==> forall i :: 0 <= i < L ==> a[i] == b[i]
    ensures m == L <==> forall i :: 0 <= i < L ==> a[i] != b[i]
  {
    if L == 0 then
      MismatchSetEmpty(a, b);
      0
    else
      MismatchSetStep(a, b, L);
      Mismatches(a, b, L - 1) + (if a[L - 1] != b[L - 1] then 1 else 0)
  }

  /** The positions below L at which a and b differ. */
  ghost function MismatchSet(a: seq<int>, b: seq<int>, L: nat): set<nat>
    requires L <= |a| && L <= |b|
  {
    set i: nat | i < L && a[i] != b[i]
  }

  lemma MismatchSetEmpty(a: seq<int>, b: seq<int>)
    ensures |MismatchSet(a, b, 0)| == 0
  {
    var none := MismatchSet(a, b, 0);
    assert none == {} by {
      forall i: nat | i in none ensures false { }
    }
  }

  lemma MismatchSetStep(a: seq<int>, b: seq<int>, L: nat)
    requires 0 < L <= |a| && L <= |b|
    ensures |MismatchSet(a, b, L)| == |MismatchSet(a, b, L - 1)| + (if a[L - 1] != b[L - 1] then 1 else 0)
  {
    var all, rest := MismatchSet(a, b, L), MismatchSet(a, b, L - 1);
    if a[L - 1] != b[L - 1] {
      assert all == rest + {L - 1};
    } else {
      assert all == rest;
    }
  }

  /** `calculate_qber`: the percentage of mismatched positions over the
      common prefix of the two keys, or 0 when either key is empty. The
      source's second guard `L == 0` cannot fire once both keys are
      non-empty, so it has no counterpart here. */
  function CalculateQber(aliceKey: seq<int>, bobKey: seq<int>): (q: real)
    ensures |aliceKey| == 0 || |bobKey| == 0 ==> q == 0.0
    ensures 0.0 <= q <= 100.0
    ensures |aliceKey| > 0 && |bobKey| > 0 ==>
              (q == 0.0 <==> forall i :: 0 <= i < Min(|aliceKey|, |bobKey|) ==> aliceKey[i] == bobKey[i])
    ensures |aliceKey| > 0 && |bobKey| > 0 ==>
              (q == 100.0 <==> forall i :: 0 <= i < Min(|aliceKey|, |bobKey|) ==> aliceKey[i] != bobKey[i])
    ensures |aliceKey| > 0 && |bobKey| > 0 ==>
              var L := Min(|aliceKey|, |bobKey|);
              q * (L as real) == 100.0 * (|MismatchSet(aliceKey, bobKey, L)| as real)
  {
    if |aliceKey| == 0 || |bobKey| == 0 then 0.0
    else
      var L := Min(|aliceKey|, |bobKey|);
      var m := Mismatches(aliceKey, bobKey, L);
      RatioPercent(m, L);
      (m as real / L as real) * 100.0
  }

  /** 100 * m / L lies in [0, 100] and hits either end exactly when m does. */
  lemma RatioPercent(m: nat, L: nat)
    requires 0 < L && m <= L
    ensures var q := (m as real / L as real) * 100.0;
            0.0 <= q <= 100.0 && (q == 0.0 <==> m == 0) && (q == 100.0 <==> m == L)
    ensures (m as real / L as real) * 100.0 * (L as real) == 100.0 * (m as real)
  {
    var r, l := m as real / L as real, L as real;
    assert r * l == m as real;
    assert r * 100.0 * l == 100.0 * (r * l);
    assert (1.0 - r) * l == (L - m) as real;
    if m == 0 {
      assert r == 0.0;
    } else {
      assert r > 0.0;
    }
    if m == L {
      assert r == 1.0;
    } else {
      assert 1.0 - r > 0.0;
    }
  }

  // ---------------------------------------------------------------------
  // Eavesdropping and errors

  /** A sifted position can carry an error only if Eve intercepted it and
      measured in the basis Alice did not use. */
  lemma ErrorsNeedWrongEveBasis(aliceBits: seq<int>, aliceBases: seq<char>, bobBases: seq<char>,
                                intercepts: Coins, eveChoices: Coins, eveCoins: Coins, bobCoins: Coins, i: nat)
    requires i < Zip3(|aliceBits|, |aliceBases|, |bobBases|)
    requires aliceBases[i] == bobBases[i]
    ensures var r := BobWithEve(aliceBits, aliceBases, bobBases, intercepts, eveChoices, eveCoins, bobCoins);
            r[i] != aliceBits[i] ==> intercepts(i) && RandBasis(eveChoices(i)) != aliceBases[i]
  {
  }

  /** Conversely, where Eve intercepts a sifted position in the basis Alice
      did not use, Bob's result is his own fresh draw, whatever Alice's bit:
      for a bit of Alice's, exactly one value of that draw makes an error. */
  lemma WrongEveBasisGivesBobsDraw(aliceBits: seq<int>, aliceBases: seq<char>, bobBases: seq<char>,
                                   intercepts: Coins, eveChoices: Coins, eveCoins: Coins, bobCoins: Coins, i: nat)
    requires i < Zip3(|aliceBits|, |aliceBases|, |bobBases|)
    requires aliceBases[i] == bobBases[i]
    requires intercepts(i) && RandBasis(eveChoices(i)) != aliceBases[i]
    ensures var r := BobWithEve(aliceBits, aliceBases, bobBases, intercepts, eveChoices, eveCoins, bobCoins);
            r[i] == RandBit(bobCoins(i))
    ensures var r := BobWithEve(aliceBits, aliceBases, bobBases, intercepts, eveChoices, eveCoins, bobCoins);
            IsBit(aliceBits[i]) ==> (r[i] != aliceBits[i] <==> bobCoins(i) == (aliceBits[i] == 0))
  {
    var forwarded := Eavesdrop(Prepare(aliceBits, aliceBases), intercepts, eveChoices, eveCoins).0;
    assert forwarded[i].basis == RandBasis(eveChoices(i));
    ObserveAt(forwarded, bobBases, bobCoins, i);
  }

  /** With no interception at all, Bob's results are those of a run without
      Eve, and Eve's records all say that nothing was intercepted. */
  lemma NoInterceptionIsNoEve(aliceBits: seq<int>, aliceBases: seq<char>, bobBases: seq<char>,
                              intercepts: Coins, eveChoices: Coins, eveCoins: Coins, bobCoins: Coins)
    requires forall i: nat :: !intercepts(i)
    ensures BobWithEve(aliceBits, aliceBases, bobBases, intercepts, eveChoices, eveCoins, bobCoins)
            == Observe(Prepare(aliceBits, aliceBases), bobBases, bobCoins)
    ensures var log := Eavesdrop(Prepare(aliceBits, aliceBases), intercepts, eveChoices, eveCoins).1;
            forall i :: 0 <= i < |log| ==> log[i] == EveRecord(false, None, None)
  {
    var sent := Prepare(aliceBits, aliceBases);
    assert Eavesdrop(sent, intercepts, eveChoices, eveCoins).0 == sent;
  }

  /** When Eve intercepts nothing, the QBER between Alice's key from a run
      without Eve and Bob's key from the run with Eve is 0, whatever the
      coins of the two runs. */
  lemma NoInterceptionZeroQber(aliceBits: seq<int>, aliceBases: seq<char>, bobBases: seq<char>,
                               noEveCoins: Coins, intercepts: Coins, eveChoices: Coins, eveCoins: Coins,
                               bobCoins: Coins)
    requires forall i: nat :: !intercepts(i)
    ensures var noEve := Observe(Prepare(aliceBits, aliceBases), bobBases, noEveCoins);
            var withEve := BobWithEve(aliceBits, aliceBases, bobBases, intercepts, eveChoices, eveCoins, bobCoins);
            CalculateQber(SiftedKeys(aliceBits, aliceBases, bobBases, noEve).0,
                          SiftedKeys(aliceBits, aliceBases, bobBases, withEve).1) == 0.0
  {
    var noEve := Observe(Prepare(aliceBits, aliceBases), bobBases, noEveCoins);
    var withEve := BobWithEve(aliceBits, aliceBases, bobBases, intercepts, eveChoices, eveCoins, bobCoins);
    NoInterceptionIsNoEve(aliceBits, aliceBases, bobBases, intercepts, eveChoices, eveCoins, bobCoins);
    NoEveKeysAgree(aliceBits, aliceBases, bobBases, bobCoins);
    assert SiftedKeys(aliceBits, aliceBases, bobBases, noEve).0
        == SiftedKeys(aliceBits, aliceBases, bobBases, withEve).0;
  }

  /** Intercept-resend can be detected: in this one-qubit run Eve measures
      in the basis Alice did not use, and Bob's draw falls against Alice's
      bit, so the sifted keys disagree everywhere. */
  lemma InterceptionCanShowFullQber()
    ensures var withEve := BobWithEve([0], [X], [X], _ => true, _ => true, _ => true, _ => true);
            CalculateQber(SiftedKeys([0], [X], [X], withEve).0, SiftedKeys([0], [X], [X], withEve).1) == 100.0
  {
    var withEve := BobWithEve([0], [X], [X], _ => true, _ => true, _ => true, _ => true);
    assert withEve == [1];
    assert Matches([X], [X], 1) == [0];
  }
}
