/** Powers of two and integer logarithms, shared by the modules that count with them. */
module Powers {

  function Pow2(n: nat): (p: nat)
    ensures p >= 1
  {
    if n == 0 then 1 else 2 * Pow2(n - 1)
  }

  lemma DoublePow2(n: nat)
    ensures Pow2(n + 1) == 2 * Pow2(n)
  {
  }

  /** floor(log2 n), with Log2(0) == 0. */
  function Log2(n: nat): nat {
    if n < 2 then 0 else 1 + Log2(n / 2)
  }

  lemma {:induction false} Log2Unique(n: nat, l: nat)
    requires Pow2(l) <= n < Pow2(l + 1)
    ensures Log2(n) == l
  {
    if l > 0 {
      Log2Unique(n / 2, l - 1);
    }
  }

  lemma {:induction false} Log2Range(n: nat)
    requires n > 0
    ensures Pow2(Log2(n)) <= n < Pow2(Log2(n) + 1)
  {
    if n >= 2 {
      Log2Range(n / 2);
    }
  }

  lemma {:induction false} Pow2Monotone(a: nat, b: nat)
    requires a <= b
    ensures Pow2(a) <= Pow2(b)
    decreases b
  {
    if a < b {
      Pow2Monotone(a, b - 1);
    }
  }

  lemma {:induction false} Log2Bound(n: nat, l: nat)
    requires Pow2(l) <= n
    ensures l <= Log2(n)
  {
    if l > 0 {
      Log2Bound(n / 2, l - 1);
    }
  }
}
