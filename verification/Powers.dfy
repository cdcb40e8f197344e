/** Powers of two. */
module Powers {
  import opened Division

  function Pow2(n: nat): (p: nat)
    ensures p >= 1
  {
    if n == 0 then 1 else 2 * Pow2(n - 1)
  }

  lemma {:induction false} Pow2Adds(a: nat, b: nat)
    ensures Pow2(a + b) == Pow2(a) * Pow2(b)
  {
    if a > 0 {
      Pow2Adds(a - 1, b);
    }
  }

  lemma {:induction false} Pow2Grows(a: nat, b: nat)
    requires a < b
    ensures 2 * Pow2(a) <= Pow2(b)
    decreases b
  {
    if a + 1 < b {
      Pow2Grows(a, b - 1);
    }
  }

  /** Dividing by a power of two takes off its exponent; modulo a power of two, a
      power of two is itself or nothing. */
  lemma Pow2Divides(a: nat, b: nat)
    ensures Pow2(a) / Pow2(b) == if a >= b then Pow2(a - b) else 0
    ensures Pow2(a) % Pow2(b) == if a >= b then 0 else Pow2(a)
  {
    if a >= b {
      Pow2Adds(a - b, b);
      QuotientIs(Pow2(a), Pow2(b), Pow2(a - b), 0);
    } else {
      Pow2Grows(a, b);
      QuotientIs(Pow2(a), Pow2(b), 0, Pow2(a));
    }
  }
}
