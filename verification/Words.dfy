/** Signed 64-bit arithmetic as Go does it: what does not fit wraps around. */
module Words {

  const MAX_INT64 := 0x7fff_ffff_ffff_ffff

  function Pow2(n: nat): nat {
    if n == 0 then 1 else 2 * Pow2(n - 1)
  }

  lemma {:induction false} Pow2Grows(m: nat, n: nat)
    requires m <= n
    ensures 0 < Pow2(m) <= Pow2(n)
  {
    if m < n {
      Pow2Grows(m, n - 1);
    } else if n > 0 {
      Pow2Grows(n - 1, n - 1);
    }
  }

  /** The 64-bit word that a number becomes. */
  function Wrapped(x: int): (w: int)
    ensures -MAX_INT64 - 1 <= w <= MAX_INT64
    ensures -MAX_INT64 - 1 <= x <= MAX_INT64 ==> w == x
  {
    (x + MAX_INT64 + 1) % 0x1_0000_0000_0000_0000 - MAX_INT64 - 1
  }

  /** One shifted left: bit 63 is the sign, and nothing is left beyond it. */
  function ShiftedOne(n: nat): int {
    if n < 63 then Pow2(n) else if n == 63 then -MAX_INT64 - 1 else 0
  }
}
