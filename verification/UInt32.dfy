/** Counters of type uint32_t. */
module UInt32 {

  const UINT32: nat := 0x1_0000_0000

  // the value a uint32_t holds after net x increments
  function Wrapped(x: int): (n: nat)
    ensures n < UINT32
    ensures 0 <= x < UINT32 ==> n == x
  {
    x % UINT32
  }

  // ++ and -- on a uint32_t
  function Succ(n: nat): nat { if n == UINT32 - 1 then 0 else n + 1 }

  function Pred(n: nat): nat { if n == 0 then UINT32 - 1 else n - 1 }

  /** Both wrap around modulo 2^32. */
  lemma WrapAround(x: int)
    ensures Wrapped(x + 1) == Succ(Wrapped(x))
    ensures Wrapped(x - 1) == Pred(Wrapped(x))
  {
  }

  /** Adding d goes unnoticed exactly when d is a multiple of 2^32. */
  lemma UnnoticedIff(x: int, d: int)
    ensures Wrapped(x + d) == Wrapped(x) <==> Wrapped(d) == 0
  {
    assert x + d == (x / UINT32 + d / UINT32) * UINT32 + (x % UINT32 + d % UINT32);
  }
}
