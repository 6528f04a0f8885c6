/** "n choose k": Pascal's triangle as the reference, and the source's multiplicative loop. */
module Binomial {

  /** Pascal's rule with the usual boundary rows; the reference definition of n choose k. */
  function Choose(n: nat, k: nat): nat
  {
    if k == 0 then 1
    else if n == 0 then 0
    else Choose(n - 1, k - 1) + Choose(n - 1, k)
  }

  lemma {:induction false} ChooseAbove(n: nat, k: nat)
    requires k > n
    ensures Choose(n, k) == 0
  {
    if n > 0 {
      ChooseAbove(n - 1, k - 1);
      ChooseAbove(n - 1, k);
    }
  }

  lemma {:induction false} ChooseAll(n: nat)
    ensures Choose(n, n) == 1
  {
    if n > 0 {
      ChooseAll(n - 1);
      ChooseAbove(n - 1, n);
    }
  }

  lemma {:induction false} ChooseOne(n: nat)
    ensures Choose(n, 1) == n
  {
    if n > 0 {
      ChooseOne(n - 1);
    }
  }

  /** The absorption identity k·C(n, k) = n·C(n − 1, k − 1), which makes the source's division exact. */
  lemma {:induction false} Absorption(n: nat, k: nat)
    requires 1 <= k <= n
    ensures k * Choose(n, k) == n * Choose(n - 1, k - 1)
  {
    if k == 1 {
      ChooseOne(n);
    } else {
      var a := Choose(n - 1, k - 1);
      var b := Choose(n - 1, k);
      var c := Choose(n - 2, k - 2);
      var e := Choose(n - 2, k - 1);
      assert Choose(n, k) == a + b;
      assert a == c + e;
      Absorption(n - 1, k - 1);
      assert (k - 1) * a == (n - 1) * c;
      if k <= n - 1 {
        Absorption(n - 1, k);
      } else {
        ChooseAbove(n - 1, k);
        ChooseAbove(n - 2, k - 1);
      }
      assert k * b == (n - 1) * e;
      Distribute(k, a, b);
      Distribute(n - 1, c, e);
      assert k * a == a + (k - 1) * a;
      assert n * a == a + (n - 1) * a;
    }
  }

  lemma Distribute(k: int, a: int, b: int)
    ensures k * (a + b) == k * a + k * b
    ensures k * a == a + (k - 1) * a
  {
  }

  /** The source's step: C(m − 1, i − 1)·m / i is exactly C(m, i). */
  lemma ChooseStep(m: nat, i: nat)
    requires 1 <= i <= m
    ensures Choose(m - 1, i - 1) * m / i == Choose(m, i)
  {
    Absorption(m, i);
    assert Choose(m - 1, i - 1) * m == i * Choose(m, i);
    DivExact(Choose(m, i), i);
  }

  lemma DivExact(a: int, b: int)
    requires b > 0
    ensures (b * a) / b == a
  {
    var q, r := (b * a) / b, (b * a) % b;
    assert b * a == b * q + r && 0 <= r < b;
    assert b * (a - q) == r by {
      Distribute(b, a, -q);
    }
    if a - q >= 1 {
      MulAtLeast(b, a - q);
    } else if a - q <= -1 {
      MulAtLeast(b, q - a);
      Distribute(b, a, -q);
      Distribute(b, q, -a);
    }
  }

  lemma MulAtLeast(b: int, c: int)
    requires b > 0 && c >= 1
    ensures b * c >= b
  {
  }

  /**
   * The source's iterative binomial coefficient: -1 when k is out of range, otherwise the
   * running product C(n − k + i, i) built one factor at a time.
   */
  method BinomialCoefficient(n: int, k: int) returns (result: int)
    ensures 0 <= k <= n ==> result == Choose(n, k)
    ensures !(0 <= k <= n) ==> result == -1
  {
    result := -1;
    if k >= 0 && n >= k {
      result := 1;
      var i := 1;
      while i <= k
        invariant 1 <= i <= k + 1
        invariant result == Choose(n - k + i - 1, i - 1)
      {
        ChooseStep(n - k + i, i);
        result := result * (n - (k - i));
        result := result / i;
        i := i + 1;
      }
    }
  }
}
