/** Polynomials over GF(2). A polynomial is the finite set of the exponents whose
    coefficient is 1, so extensional set equality is equality of polynomials. */
module Gf2 {
  type Poly = set<nat>

  const ZERO: Poly := {}
  const ONE: Poly := {0}

  function Add(p: Poly, q: Poly): Poly {
    (p - q) + (q - p)
  }

  /** p(x) * x^k */
  function Shift(p: Poly, k: nat): (r: Poly)
    ensures forall e: nat :: e in r <==> e >= k && e - k in p
  {
    var r := set e | e in p :: e + k;
    assert forall e: nat | e >= k && e - k in p :: e in r by {
      forall e: nat | e >= k && e - k in p ensures e in r {
        assert (e - k) + k == e;
      }
    }
    r
  }

  function Scale(b: bool, p: Poly): Poly {
    if b then p else ZERO
  }

  /** h(x) * p(x), where h lists the coefficients of the first factor from the
      highest power down to the constant term (Horner's rule). */
  function Mul(h: seq<bool>, p: Poly): Poly {
    if |h| == 0 then ZERO
    else Add(Shift(Mul(h[..|h| - 1], p), 1), Scale(h[|h| - 1], p))
  }

  /** The polynomial whose coefficients, highest power first, are h. */
  function OfBits(h: seq<bool>): Poly {
    Mul(h, ONE)
  }

  ghost predicate DegreeBelow(p: Poly, n: nat) {
    forall e :: e in p ==> e < n
  }

  /** r is the remainder of p by g when g has degree n. */
  ghost predicate IsRemainder(p: Poly, g: Poly, n: nat, r: Poly) {
    DegreeBelow(r, n) && exists q: seq<bool> :: p == Add(Mul(q, g), r)
  }

  lemma ShiftAdd(p: Poly, q: Poly, k: nat)
    ensures Shift(Add(p, q), k) == Add(Shift(p, k), Shift(q, k))
  {}

  lemma ShiftShift(p: Poly, j: nat, k: nat)
    ensures Shift(Shift(p, j), k) == Shift(p, j + k)
  {}

  lemma MulSnoc(h: seq<bool>, b: bool, p: Poly)
    ensures Mul(h + [b], p) == Add(Shift(Mul(h, p), 1), Scale(b, p))
  {
    assert (h + [b])[..|h|] == h;
  }

  /** The coefficient list really names the exponents: position i carries x^(|h|-1-i). */
  lemma {:induction false} OfBitsExponents(h: seq<bool>, e: nat)
    ensures e in OfBits(h) <==> e < |h| && h[|h| - 1 - e]
  {
    if |h| > 0 {
      var t := h[..|h| - 1];
      if e > 0 { OfBitsExponents(t, e - 1); }
    }
  }

  function Padded(h: seq<bool>, k: nat): (r: seq<bool>) {
    seq(k, i => false) + h
  }

  lemma {:induction false} MulPadded(h: seq<bool>, k: nat, p: Poly)
    ensures Mul(Padded(h, k), p) == Mul(h, p)
  {
    var w := Padded(h, k);
    if |h| > 0 {
      MulPadded(h[..|h| - 1], k, p);
      assert w[..|w| - 1] == Padded(h[..|h| - 1], k);
    } else if k > 0 {
      MulPadded(h, k - 1, p);
      assert w[..|w| - 1] == Padded(h, k - 1);
      assert Shift(ZERO, 1) == ZERO;
    }
  }

  function AddBits(a: seq<bool>, b: seq<bool>): seq<bool>
    requires |a| == |b|
  {
    seq(|a|, i requires 0 <= i < |a| => a[i] != b[i])
  }

  lemma {:induction false} MulXor(a: seq<bool>, b: seq<bool>, p: Poly)
    requires |a| == |b|
    ensures Mul(AddBits(a, b), p) == Add(Mul(a, p), Mul(b, p))
  {
    if |a| > 0 {
      var n := |a| - 1;
      MulXor(a[..n], b[..n], p);
      assert AddBits(a, b)[..n] == AddBits(a[..n], b[..n]);
      ShiftAdd(Mul(a[..n], p), Mul(b[..n], p), 1);
    }
  }

  /** A multiple of a polynomial of degree n is either zero or has degree at least n. */
  lemma {:induction false} MultipleDegree(h: seq<bool>, g: Poly, n: nat) returns (top: nat)
    requires n in g && DegreeBelow(g, n + 1)
    ensures Mul(h, g) == ZERO || (top >= n && top in Mul(h, g) && DegreeBelow(Mul(h, g), top + 1))
  {
    top := n;
    if |h| > 0 {
      var t := h[..|h| - 1];
      var up := MultipleDegree(t, g, n);
      if Mul(t, g) != ZERO {
        top := up + 1;
      } else {
        assert Shift(ZERO, 1) == ZERO;
      }
    }
  }

  /** Division with remainder is unique, so IsRemainder names one polynomial. */
  lemma RemainderUnique(p: Poly, g: Poly, n: nat, r: Poly, s: Poly)
    requires n in g && DegreeBelow(g, n + 1)
    requires IsRemainder(p, g, n, r) && IsRemainder(p, g, n, s)
    ensures r == s
  {
    var a: seq<bool> :| p == Add(Mul(a, g), r);
    var b: seq<bool> :| p == Add(Mul(b, g), s);
    var q := DifferenceOfMultiples(a, b, g);
    var top := MultipleDegree(q, g, n);
    SameSum(Mul(a, g), r, Mul(b, g), s);
    hide Mul;
    assert DegreeBelow(Add(r, s), n);
    assert Add(r, s) == ZERO;
    forall e: nat ensures e in r <==> e in s {
      assert e !in Add(r, s);
    }
  }

  lemma SameSum(a: Poly, r: Poly, b: Poly, s: Poly)
    requires Add(a, r) == Add(b, s)
    ensures Add(a, b) == Add(r, s)
  {
    forall e: nat ensures e in Add(a, b) <==> e in Add(r, s) {
      assert e in Add(a, r) <==> e in Add(b, s);
    }
  }

  lemma DifferenceOfMultiples(a: seq<bool>, b: seq<bool>, g: Poly) returns (q: seq<bool>)
    ensures Mul(q, g) == Add(Mul(a, g), Mul(b, g))
  {
    var m := if |a| > |b| then |a| else |b|;
    MulPadded(a, m - |a|, g);
    MulPadded(b, m - |b|, g);
    q := AddBits(Padded(a, m - |a|), Padded(b, m - |b|));
    MulXor(Padded(a, m - |a|), Padded(b, m - |b|), g);
  }
}
