/** The few facts about division by a symbolic size that the solver needs to be told. */
module DivMod {
  lemma SmallMultiple(n: nat, k: int)
    requires n > 0 && 0 - n < n * k < n
    ensures k == 0
  {
    if k > 0 {
      Monotone(n, 1, k);
    } else if k < 0 {
      Monotone(n, k, -1);
    }
  }

  lemma Monotone(n: nat, a: int, b: int)
    requires a <= b
    ensures n * a <= n * b
  {
    assert n * b - n * a == n * (b - a);
  }

  /** Quotient and remainder are determined by what they must satisfy. */
  lemma Unique(n: nat, q: int, r: int)
    requires n > 0 && 0 <= r < n
    ensures (n * q + r) / n == q && (n * q + r) % n == r
  {
    var x := n * q + r;
    var q', r' := x / n, x % n;
    assert x == n * q' + r';
    assert n * (q - q') == n * q - n * q' == r' - r;
    SmallMultiple(n, q - q');
  }

  lemma Parts(x: nat, n: nat)
    requires n > 0
    ensures x == n * (x / n) + x % n && 0 <= x % n < n && x / n >= 0
  {
    var q, r := x / n, x % n;
    assert x == n * q + r;
    if q < 0 {
      Monotone(n, q, -1);
    }
  }

  lemma DivMonotone(x: nat, y: nat, n: nat)
    requires n > 0 && x <= y
    ensures x / n <= y / n
  {
    Parts(x, n);
    Parts(y, n);
    var q, q' := x / n, y / n;
    if q' < q {
      Monotone(n, q' + 1, q);
    }
  }

  lemma AddMultiple(x: nat, n: nat)
    requires n > 0
    ensures (x + n) / n == x / n + 1 && (x + n) % n == x % n
  {
    Parts(x, n);
    assert x + n == n * (x / n + 1) + x % n;
    Unique(n, x / n + 1, x % n);
  }

  // ----- powers of two -----

  function Pow2(k: nat): nat {
    if k == 0 then 1 else 2 * Pow2(k - 1)
  }

  lemma Associate(a: nat, b: nat, c: nat)
    ensures a * (b * c) == (a * b) * c
  {
  }

  lemma {:induction false} Pow2Sum(a: nat, b: nat)
    ensures Pow2(a + b) == Pow2(a) * Pow2(b)
  {
    if a > 0 {
      Pow2Sum(a - 1, b);
      assert Pow2(a + b) == 2 * Pow2(a - 1 + b);
      Associate(2, Pow2(a - 1), Pow2(b));
    }
  }

  lemma Pow2Quotient(a: nat, b: nat)
    requires b <= a
    ensures Pow2(b) > 0 && Pow2(a) / Pow2(b) == Pow2(a - b) && Pow2(a) % Pow2(b) == 0
  {
    Pow2Positive(b);
    Pow2Sum(b, a - b);
    Unique(Pow2(b), Pow2(a - b), 0);
  }

  lemma {:induction false} Pow2Positive(k: nat)
    ensures Pow2(k) > 0
  {
    if k > 0 {
      Pow2Positive(k - 1);
    }
  }

  lemma {:induction false} Pow2Monotone(a: nat, b: nat)
    requires a <= b
    ensures Pow2(a) <= Pow2(b)
  {
    if a < b {
      Pow2Monotone(a, b - 1);
      Pow2Positive(b - 1);
    }
  }

  /** Of two powers of two the smaller divides the larger. */
  lemma Pow2Compare(a: nat, b: nat)
    ensures Pow2(b) > 0 && (Pow2(a) <= Pow2(b) || Pow2(a) % Pow2(b) == 0)
  {
    Pow2Positive(b);
    if a <= b {
      Pow2Monotone(a, b);
    } else {
      Pow2Quotient(a, b);
    }
  }
}
