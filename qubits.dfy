/** Vocabulary shared by both simulation files: bits, the two basis symbols,
    random draws made explicit, and the length of a `zip` over aligned lists. */
module Qubits {

  /** An arbitrary infinite stream of draws, one per position (fairness is
      not modelled: no fact proved assumes how the draws are distributed). Every random
      draw of the simulation reads the entry of the position it is made for,
      so that a run is a deterministic function of its inputs and its draws. */
  type Coins = nat -> bool

  /** The two basis symbols. */
  const X: char := 'X'
  const Z: char := 'Z'

  predicate IsBit(b: int) { b == 0 || b == 1 }

  predicate IsBasis(c: char) { c == X || c == Z }

  predicate AllBits(s: seq<int>) { forall i :: 0 <= i < |s| ==> IsBit(s[i]) }

  predicate AllBases(s: seq<char>) { forall i :: 0 <= i < |s| ==> IsBasis(s[i]) }

  /** `random.randint(0, 1)`, the outcome of the draw being `coin`. */
  function RandBit(coin: bool): int { if coin then 1 else 0 }

  /** `random.choice(['X', 'Z'])`; `coin` says whether the second entry was chosen. */
  function RandBasis(coin: bool): char { if coin then Z else X }

  /** The length of `range(n)`, which is empty when n is negative. */
  function RangeLength(n: int): nat { if n < 0 then 0 else n }

  function Min(a: nat, b: nat): nat { if a <= b then a else b }

  /** The length of `zip` over three lists: the shortest one. */
  function Zip3(a: nat, b: nat, c: nat): nat { Min(Min(a, b), c) }

  /** The length of `zip` over four lists: the shortest one. */
  function Zip4(a: nat, b: nat, c: nat, d: nat): nat { Min(Zip3(a, b, c), d) }
}
