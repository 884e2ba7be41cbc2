/** Router numbers of a k-ary n-cube and their coordinates. Routers are numbered so that
    dimension 0 is the least significant base-k digit. */
module Digits {
  import opened Arith

  function Pow(k: nat, n: nat): nat {
    if n == 0 then 1 else k * Pow(k, n - 1)
  }

  predicate Coords(k: nat, x: seq<nat>) {
    forall i | 0 <= i < |x| :: x[i] < k
  }

  /** The router number of coordinates `x`. */
  function Number(k: nat, x: seq<nat>): nat {
    if x == [] then 0 else x[0] + k * Number(k, x[1..])
  }

  function Low(k: nat, v: nat): (d: nat)
    requires k > 0
    ensures d < k
  {
    v % k
  }

  function High(k: nat, v: nat): (q: nat)
    requires k > 0
    ensures v == Low(k, v) + k * q
  {
    v / k
  }

  function CoordsOf(k: nat, v: nat, n: nat): (x: seq<nat>)
    requires k > 0
    ensures |x| == n
    decreases n
  {
    if n == 0 then [] else [Low(k, v)] + CoordsOf(k, High(k, v), n - 1)
  }

  lemma {:induction false} CoordsInRange(k: nat, v: nat, n: nat)
    requires k > 0
    ensures Coords(k, CoordsOf(k, v, n))
    decreases n
  {
    if n > 0 { CoordsInRange(k, High(k, v), n - 1); }
  }

  lemma {:induction false} PowPositive(k: nat, n: nat)
    requires k > 0
    ensures Pow(k, n) > 0
  {
    if n > 0 { PowPositive(k, n - 1); }
  }

  /** Every router number below k^n is the number of its coordinates. */
  lemma {:induction false} NumberOfCoords(k: nat, v: nat, n: nat)
    requires k > 0 && v < Pow(k, n)
    ensures Number(k, CoordsOf(k, v, n)) == v
    decreases n
  {
    if n > 0 {
      QuotientBound(v, k, Pow(k, n - 1));
      NumberOfCoords(k, High(k, v), n - 1);
      var x := CoordsOf(k, v, n);
      assert x[0] == Low(k, v) && x[1..] == CoordsOf(k, High(k, v), n - 1);
    }
  }

  /** ... and coordinates are those of their number. */
  lemma {:induction false} CoordsOfNumber(k: nat, x: seq<nat>)
    requires k > 0 && Coords(k, x)
    ensures CoordsOf(k, Number(k, x), |x|) == x
  {
    if x != [] {
      DropLow(k, x);
      CoordsOfNumber(k, x[1..]);
      assert Low(k, Number(k, x)) == x[0] && High(k, Number(k, x)) == Number(k, x[1..]);
    }
  }

  lemma QuotientBound(v: nat, k: nat, p: nat)
    requires k > 0 && v < k * p
    ensures High(k, v) < p
  {
    if High(k, v) >= p {
      MulLe(k, p, High(k, v));
    }
  }

  /** Dividing by the radix drops the lowest coordinate. */
  lemma DropLow(k: nat, x: seq<nat>)
    requires k > 0 && Coords(k, x) && x != []
    ensures Number(k, x) % k == x[0] && Number(k, x) / k == Number(k, x[1..])
  {
    DivModIs(x[0], k, Number(k, x[1..]));
  }

  lemma {:induction false} NumberBound(k: nat, x: seq<nat>)
    requires Coords(k, x)
    ensures Number(k, x) < Pow(k, |x|)
  {
    if x != [] {
      NumberBound(k, x[1..]);
      MulLe(k, Number(k, x[1..]) + 1, Pow(k, |x| - 1));
    }
  }

  /** The highest coordinate weighs k^(n-1). */
  lemma {:induction false} SplitTop(k: nat, x: seq<nat>)
    requires Coords(k, x) && x != []
    ensures Number(k, x) == Number(k, x[..|x| - 1]) + Pow(k, |x| - 1) * x[|x| - 1]
  {
    var n := |x| - 1;
    if n == 0 {
      assert x[..n] == [] && x[1..] == [];
    } else {
      SplitTop(k, x[1..]);
      assert x[1..][..n - 1] == x[..n][1..];
      Distribute(k, Number(k, x[..n][1..]), Pow(k, n - 1), x[n]);
      assert x[..n][0] == x[0];
    }
  }

  lemma Distribute(k: nat, a: nat, p: nat, t: nat)
    ensures k * (a + p * t) == k * a + (k * p) * t
  {
  }

  /** Dividing by k^(n-1) keeps only the highest coordinate; the remainder drops it. */
  lemma DropHigh(k: nat, x: seq<nat>)
    requires k > 0 && Coords(k, x) && x != []
    ensures Pow(k, |x| - 1) > 0
    ensures Number(k, x) / Pow(k, |x| - 1) == x[|x| - 1]
    ensures Number(k, x) % Pow(k, |x| - 1) == Number(k, x[..|x| - 1])
  {
    PowPositive(k, |x| - 1);
    SplitTop(k, x);
    NumberBound(k, x[..|x| - 1]);
    DivModIs(Number(k, x[..|x| - 1]), Pow(k, |x| - 1), x[|x| - 1]);
  }

  lemma {:induction false} NumberInjective(k: nat, x: seq<nat>, y: seq<nat>)
    requires k > 0 && Coords(k, x) && Coords(k, y) && |x| == |y| && Number(k, x) == Number(k, y)
    ensures x == y
  {
    if x != [] {
      DropLow(k, x);
      DropLow(k, y);
      NumberInjective(k, x[1..], y[1..]);
      assert x == [x[0]] + x[1..] && y == [y[0]] + y[1..];
    }
  }

  lemma {:induction false} SplitAt(k: nat, x: seq<nat>, d: nat)
    requires d <= |x|
    ensures Number(k, x) == Number(k, x[..d]) + Pow(k, d) * Number(k, x[d..])
  {
    if d == 0 {
      assert x[d..] == x;
    } else {
      SplitAt(k, x[1..], d - 1);
      assert x[1..][..d - 1] == x[..d][1..] && x[1..][d - 1..] == x[d..];
      Distribute(k, Number(k, x[..d][1..]), Pow(k, d - 1), Number(k, x[d..]));
    }
  }

  /** Coordinate d, read off the router number. */
  lemma DigitAt(k: nat, x: seq<nat>, d: nat)
    requires k > 0 && Coords(k, x) && d < |x|
    ensures Pow(k, d) > 0 && Number(k, x) / Pow(k, d) % k == x[d]
  {
    PowPositive(k, d);
    SplitAt(k, x, d);
    NumberBound(k, x[..d]);
    DivModIs(Number(k, x[..d]), Pow(k, d), Number(k, x[d..]));
    DropLow(k, x[d..]);
  }

  /** Scaling both sides of a division by the same factor changes nothing but the remainder's
      scale. */
  lemma ScaledDivMod(a: nat, b: nat, c: nat)
    requires b > 0 && c > 0
    ensures b * c > 0 && (a * c) / (b * c) == a / b && (a * c) % (b * c) == (a % b) * c
  {
    var q, r := a / b, a % b;
    assert a == b * q + r;
    assert a * c == (b * q + r) * c == (b * c) * q + r * c;
    MulLess(r, b, c);
    DivModIs(r * c, b * c, q);
  }

  lemma MulLess(a: nat, b: nat, c: nat)
    requires a < b && c > 0
    ensures a * c < b * c
  {
  }

  lemma {:induction false} PowAdd(k: nat, a: nat, b: nat)
    ensures Pow(k, a + b) == Pow(k, a) * Pow(k, b)
  {
    if a > 0 {
      PowAdd(k, a - 1, b);
      assert k * (Pow(k, a - 1) * Pow(k, b)) == (k * Pow(k, a - 1)) * Pow(k, b);
    }
  }

  /** Moving one step in dimension `d` changes the router number by k^d. */
  lemma {:induction false} StepInDimension(k: nat, x: seq<nat>, d: nat, v: nat)
    requires d < |x|
    ensures Number(k, x[d := v]) == Number(k, x) - Pow(k, d) * x[d] + Pow(k, d) * v
  {
    if d == 0 {
      assert x[d := v][1..] == x[1..];
    } else {
      assert x[d := v][1..] == x[1..][d - 1 := v];
      StepInDimension(k, x[1..], d - 1, v);
      var p := Pow(k, d - 1);
      assert k * (p * x[d]) == (k * p) * x[d];
      assert k * (p * v) == (k * p) * v;
    }
  }
}
