# BB84 quantum key distribution: classical simulation core

This project is a Dafny model of the classical BB84 simulation (Bennett and
Brassard, 1984) in `bb84.py`, plus the pure helpers of `bb84_protocol.py`.
Alice draws random bits and bases (`'X'` or `'Z'`). Bob measures each qubit
in a basis of his own. A matching basis gives back the prepared bit, and a
mismatched one gives a fresh random bit. Eve, the eavesdropper, can run
intercept-resend before Bob: she measures in a random basis and forwards her
outcome, prepared in her basis. Both sides then sift to the positions where
Alice's and Bob's bases agree. The QBER (quantum bit error rate) is the
percentage of positions at which two sifted keys differ.

Randomness is an explicit input. A `Coins` value (`nat -> bool`) is an
arbitrary stream of draws, one per position (fairness is not modelled). `random.randint(0, 1)` at position i
reads `coins(i)`, and `random.choice(['X', 'Z'])` reads a choice stream.
Eve's `random.random() < eve_prob` is one boolean per position, `intercepts(i)`.
Each operation is then a deterministic function of its lists and its streams,
and the lemmas quantify over all of them.

Every operation that combines lists walks them with `zip` (or, in `calculate_qber`, up to the shorter length). So output
lengths are the minimum of the input lengths (`Zip3`, `Zip4`), and the
model keeps that truncation. Bits are integers and bases are characters, as
in the source. Facts about output ranges are therefore stated under the
hypothesis that the inputs are bits.

Modules:
- `Qubits` (qubits.dfy): bits, basis symbols, coin streams, `zip` lengths.
- `Sifting` (sifting.dfy): the reference definition of sifting. `MatchesFrom`
  lists the agreeing positions in increasing order, `MatchSet` gives the
  same positions as a set, and `Pick` selects a list at given positions.
- `BB84` (bb84.dfy): `bb84.py`. The three looping functions are methods with
  loop invariants, each proved equal to a specification function. The
  generators and `calculate_qber` are functions.
- `BB84Protocol` (bb84_protocol.dfy): `random_bits`, `random_bases` and
  `sift_key` of `bb84_protocol.py`.
- `Agreement` (agreement.dfy): `sift_key` against `sift_keys`.

## Model

| member | source | states |
|---|---|---|
| `Sifting.MatchesFrom` | bb84.py:74-75 | the positions it lists are in range, strictly increasing and all agreeing, and there are at most as many as the range is long |
| `Sifting.MatchesFromComplete` | bb84.py:74-75 | every agreeing position in range is listed, so the list holds exactly the agreeing positions |
| `Sifting.MatchCount` | bb84.py:74-77 | the number of listed positions is the size of the set of agreeing positions |
| `BB84.GenerateBits` | bb84.py:5-7 | `generate_bits(n)` has `len(range(n))` elements (none for negative n), each 0 or 1 |
| `BB84.GenerateBases` | bb84.py:10-12 | `generate_bases(n)` has `len(range(n))` elements, each `'X'` or `'Z'` |
| `BB84.GenerateBitsReachesAll` | bb84.py:5-7 | every list of 0/1 bits is an output of `generate_bits` for some draws |
| `BB84.GenerateBasesReachesAll` | bb84.py:10-12 | every list of `'X'`/`'Z'` bases is an output of `generate_bases` for some draws |
| `BB84.Prepare` | bb84.py:43 | Alice's qubits are her bits and bases paired position by position, as long as the shorter list |
| `BB84.Measure` | bb84.py:48 | measuring a qubit in its preparation basis gives the prepared bit; in the other basis the outcome is the fresh draw, whatever the prepared bit; a bit stays a bit |
| `BB84.Observe` | bb84.py:57-61 | measuring gives one outcome per zipped position; where the measurement basis equals the preparation basis the outcome is the prepared bit, elsewhere it is the position's own fresh draw, independent of the prepared bit; outcomes are bits when the prepared bits are |
| `BB84.Eavesdrop` | bb84.py:43-53 | an intercepted position records `intercepted=True` with Eve's drawn basis and forwards (Eve's bit, Eve's basis); Eve's bit equals Alice's when Eve used Alice's basis and is Eve's own fresh draw when she used the other one; a non-intercepted position forwards Alice's qubit unchanged and records `intercepted=False` with both Eve fields None |
| `BB84.EveStep` | bb84.py:44-53 | one position of intercept-resend: when intercepting, Eve's drawn basis, her outcome (Alice's bit in Alice's basis, her own draw otherwise) forwarded in her basis, and the matching record; otherwise Alice's qubit unchanged with an empty record |
| `BB84.MeasureBitsNoEve` | bb84.py:15-26 | `measure_bits_no_eve` returns the measurement of Alice's qubits in Bob's bases: min of the three lengths, Alice's bit wherever the bases match, only bits when Alice's are bits |
| `BB84.MeasureBitsWithEve` | bb84.py:29-63 | `measure_bits_with_eve` returns `BobWithEve` (Bob's measurement of the qubits Eve forwards) and Eve's records; the records cover min(len bits, len bases) positions, Bob's results the min of three; `intercepted` is exactly the intercept draw; Eve's bit is Alice's when her basis is Alice's; Bob's result is Alice's bit at non-intercepted matching positions and Eve's bit where Eve's basis is Bob's |
| `BB84.BobWithEve` | bb84.py:44-61 | Bob's results with Eve on the line: min of three lengths; Alice's bit at non-intercepted matching positions; Bob's own draw at non-intercepted mismatched positions; Eve's outcome where Eve's basis is Bob's; Bob's own draw where it is not; bits when Alice's are bits |
| `BB84.SiftedKeys` | bb84.py:66-78 | the two keys have equal length, the number of agreeing positions within the four-way zip, so at most that zip's length |
| `BB84.SiftKeys` | bb84.py:66-78 | `sift_keys` returns Alice's bits and Bob's results at exactly the agreeing positions, in order |
| `BB84.NoEveKeysAgree` | bb84.py:20-26 | sifting the results of `measure_bits_no_eve` yields Bob's key equal to Alice's key |
| `BB84.Mismatches` | bb84.py:92 | the mismatch count is the number of positions below L at which the lists differ, so at most L; it is 0 exactly when the first L positions agree and L exactly when they all differ |
| `BB84.CalculateQber` | bb84.py:81-93 | the QBER is 0 if either key is empty; for non-empty keys it is 100 times the number of differing positions below L = min of the lengths, divided by L, so it lies in [0, 100] and is 0 exactly when the common prefixes agree and 100 exactly when they differ at every position |
| `BB84.RatioPercent` | bb84.py:93 | the percentage 100·m/L lies in [0, 100] and is 0 or 100 exactly when m is 0 or L |
| `BB84.ErrorsNeedWrongEveBasis` | bb84.py:44-61 | a sifted position where Bob's result differs from Alice's bit was intercepted by Eve in the basis Alice did not use |
| `BB84.WrongEveBasisGivesBobsDraw` | bb84.py:44-61 | at a sifted position Eve intercepted in the basis Alice did not use, Bob's result is his own fresh draw whatever Alice's bit, so exactly one value of that draw gives an error |
| `BB84.NoInterceptionIsNoEve` | bb84.py:51-61 | when Eve never intercepts, Bob's results are those of a run without Eve with the same coins, and every record says nothing was intercepted |
| `BB84.NoInterceptionZeroQber` | bb84.py:81-93 | when Eve never intercepts, the QBER between Alice's key from the run without Eve and Bob's key from the run with Eve is 0, whatever the draws |
| `BB84.InterceptionCanShowFullQber` | bb84.py:44-61 | a one-qubit run in which Eve measures in the basis Alice did not use and Bob's draw falls against Alice's bit gives a QBER of 100 |
| `BB84Protocol.RandomBits` | bb84_protocol.py:6-7 | `random_bits(n)` has `len(range(n))` elements, each 0 or 1 |
| `BB84Protocol.RandomBases` | bb84_protocol.py:10-11 | `random_bases(n)` has `len(range(n))` elements, each `'X'` or `'Z'` |
| `BB84Protocol.SiftKey` | bb84_protocol.py:47 | `sift_key` is no longer than the shortest of its three inputs |
| `BB84Protocol.SiftKeySelects` | bb84_protocol.py:47 | `sift_key` is the in-order subsequence of the bits at exactly the agreeing positions below the zip length |
| `BB84Protocol.SiftKeyLength` | bb84_protocol.py:47 | the length of `sift_key` is the number of agreeing positions below the zip length |
| `BB84Protocol.SiftKeyAllMatch` | bb84_protocol.py:47 | when every aligned pair of bases agrees, `sift_key` is the bit list cut to the zip length |
| `BB84Protocol.SiftKeyNoneMatch` | bb84_protocol.py:47 | when no aligned pair of bases agrees, `sift_key` is empty |
| `Agreement.SiftKeyIsAliceSiftedKey` | bb84_protocol.py:46-47 | `sift_key(bits, a, b)` equals the first key of `sift_keys(bits, a, b, r)` for every r at least as long as the three-way zip |
| `Agreement.ShortResultsTruncate` | bb84.py:74 | with a shorter r, `sift_keys` stops early, so its first key can be shorter than `sift_key` |

## Left out

- app.py is not part of this model. It holds web routes, page rendering and module-level lists shared across requests.
- `encode_qubits` and `measure_qubits` (bb84_protocol.py:14-43) build circuits and run a simulator library, which cannot be seen or verified.
- The draw order is not modelled. The source draws from one global generator, in an order that depends on the branches taken. The model gives each kind of draw its own stream, indexed by position. Neither the exact sequence of generator calls nor the fairness or independence of the draws is captured: no lemma assumes anything about how the draws are distributed.
- `eve_prob` and the float comparison `random.random() < eve_prob` (bb84.py:44) are replaced by the per-position boolean `intercepts(i)`. The default `eve_prob=1.0` means every `intercepts(i)` holds, because `random.random()` is below 1.
- `CalculateQber`: does not model the floating-point arithmetic or `round(..., 2)` (bb84.py:93). The result is the exact rational 100·mismatches/L, division first as in the source. Its two "exactly when" directions hold for this exact ratio only: the source reports 0.0 whenever 100·m/L < 0.005 (one mismatch in 20001 positions, say) and 100.0 whenever 100·(L−m)/L < 0.005 (one agreement in 20001 positions), although the prefixes then do not all agree or all differ.
- `CalculateQber`: the source's second guard `if L == 0` (bb84.py:90-91) cannot fire after the emptiness guard, so it has no counterpart.
- The unused local `n = len(alice_bits)` in `measure_bits_with_eve` (bb84.py:39) has no counterpart.
- Statistical claims are not modelled: the 50/50 outcome on a basis mismatch, and a QBER near 25% under full interception. Coins are parameters, so only per-run facts that hold for every draw are proved.
- Python's dynamic typing is narrowed: bits are integers and bases are characters. The source compares bases with `==` and copies bits, so other value types would behave the same way.
- `generate_bits` and `generate_bases` accept any integer n, and `range` of a negative n is empty; `zip` cuts lists of unequal length to the shortest. The model follows the code in both cases.
