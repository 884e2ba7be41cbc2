/** Division and remainder. The recursive forms say the same as `/` and `%`, step by step, and
    keep products of variables out of the proofs that use them. */
module Arith {
  function Remainder(h: nat, n: nat): (r: nat)
    requires n > 0
    ensures r < n
    decreases h
  {
    if h < n then h else Remainder(h - n, n)
  }

  function Quotient(h: nat, n: nat): nat
    requires n > 0
    decreases h
  {
    if h < n then 0 else 1 + Quotient(h - n, n)
  }

  lemma {:induction false} RemainderIs(h: nat, n: nat)
    requires n > 0
    ensures Remainder(h, n) == h % n && Quotient(h, n) == h / n
    decreases h
  {
    if h < n {
      DivModIs(h, n, 0);
    } else {
      RemainderIs(h - n, n);
      var q, r := (h - n) / n, (h - n) % n;
      assert h == r + n * q + n == r + n * (q + 1);
      DivModIs(r, n, q + 1);
    }
  }

  lemma {:induction false} QuotientMonotone(a: nat, b: nat, n: nat)
    requires n > 0 && a <= b
    ensures Quotient(a, n) <= Quotient(b, n)
    decreases b
  {
    if a >= n { QuotientMonotone(a - n, b - n, n); }
  }

  lemma {:induction false} QuotientPositiveIff(h: nat, n: nat)
    requires n > 0
    ensures Quotient(h, n) > 0 <==> h >= n
  {
  }

  lemma {:induction false} QuotientFits(h: nat, n: nat)
    requires n > 0
    ensures n * Quotient(h, n) <= h
    decreases h
  {
    if h >= n {
      QuotientFits(h - n, n);
      assert n * (1 + Quotient(h - n, n)) == n + n * Quotient(h - n, n);
    }
  }

  lemma MulLe(a: nat, b: nat, c: nat)
    requires b <= c
    ensures a * b <= a * c
  {
  }

  lemma DivModIs(r: nat, k: nat, q: nat)
    requires r < k
    ensures (r + k * q) % k == r && (r + k * q) / k == q
  {
    var v := r + k * q;
    assert v == k * (v / k) + v % k;
    if v / k < q {
      MulLe(k, v / k + 1, q);
    } else if v / k > q {
      MulLe(k, q + 1, v / k);
    }
  }
}
