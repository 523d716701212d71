// What several parts share: the limits of machine words, what the driver says to
// the two calls that follow a launch, and one fact of arithmetic.
module Common {

  const UINT32: nat := 0x1_0000_0000
  const UINT64: nat := 0x1_0000_0000_0000_0000

  type Word = x: nat | x < UINT64

  // Whether creating and recording an event works out for a launch.
  datatype Calls = Calls(createOk: bool, recordOk: bool)

  function Pow(base: nat, n: nat): nat {
    if n == 0 then 1 else base * Pow(base, n - 1)
  }

  function Distance(a: nat, b: nat): nat {
    if a >= b then a - b else b - a
  }

  // b lies between a and c, either way round.
  predicate Between(a: nat, b: nat, c: nat) {
    a <= b <= c || c <= b <= a
  }

  lemma MulLe(a: nat, b: nat, c: nat, d: nat)
    requires a <= b && c <= d
    ensures a * c <= b * d && c * a <= d * b
  {
    assert a * c <= b * c;
    assert b * c <= b * d;
  }
}
