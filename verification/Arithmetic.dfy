/** Unsigned machine arithmetic, and facts about products that the solver does not find in a larger context. */
module Arithmetic {

  const WORD: nat := 0x1_0000_0000

  type U32 = x: nat | x < WORD
  type U8 = x: nat | x < 256

  /** Sum and difference as unsigned 32-bit arithmetic leaves them. */
  function Add32(a: U32, b: U32): U32 { if a + b < WORD then a + b else a + b - WORD }
  function Sub32(a: U32, b: U32): U32 { if b <= a then a - b else a - b + WORD }

  function Min(a: nat, b: nat): nat { if a <= b then a else b }

  lemma MulMonotone(a: nat, b: nat, c: nat)
    requires a <= b
    ensures a * c <= b * c
  {}

  lemma NoMultiple(n: nat, c: nat)
    requires n == 0
    ensures n * c == 0
  {}

  lemma Distribute(n: nat, c: nat)
    ensures (n + 1) * c == n * c + c
  {}

  lemma WholeGroups(got: nat, n: nat)
    requires n > 0
    ensures got / n * n <= got < (got / n + 1) * n
  {
    Distribute(got / n, n);
    assert got == got / n * n + got % n;
  }
}
