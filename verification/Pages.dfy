/** The page mask `offset & ~(page - 1)` on which mapped reads are aligned. */
module Pages {

  function Pow2(p: nat): (r: nat)
    ensures r > 0
  {
    if p == 0 then 1 else 2 * Pow2(p - 1)
  }

  /** Bitwise `a & ~m`. */
  function AndNot(a: nat, m: nat): (r: nat)
    ensures r <= a
  {
    if a == 0 then 0
    else 2 * AndNot(a / 2, m / 2) + (if a % 2 == 1 && m % 2 == 0 then 1 else 0)
  }

  lemma AndNotZero(a: nat)
    ensures AndNot(a, 0) == a
  {}

  /** One bit of the mask: if it rounds a/2 down, it rounds a down. */
  lemma MaskStep(a: nat, half: nat)
    requires a > 0 && half > 0 && AndNot(a / 2, half - 1) == a / 2 - a / 2 % half
    ensures AndNot(a, 2 * half - 1) == a - a % (2 * half)
  {
    assert (2 * half - 1) / 2 == half - 1 && (2 * half - 1) % 2 == 1;
    HalveMod(a, half);
  }

  /** Masking with a power of two minus one rounds down to a multiple of it. */
  lemma {:induction false} MaskRoundsDown(a: nat, p: nat)
    ensures AndNot(a, Pow2(p) - 1) == a - a % Pow2(p)
  {
    if p == 0 {
      AndNotZero(a);
    } else if a > 0 {
      MaskRoundsDown(a / 2, p - 1);
      MaskStep(a, Pow2(p - 1));
    } else {
      DivModUnique(0, Pow2(p), 0, 0);
    }
  }

  lemma HalveMod(a: nat, half: nat)
    requires half > 0
    ensures a % (2 * half) == 2 * (a / 2 % half) + a % 2
  {
    var q, r := a / 2 / half, a / 2 % half;
    assert a == 2 * (q * half + r) + a % 2;
    assert 2 * (q * half) == q * (2 * half);
    assert a == q * (2 * half) + (2 * r + a % 2);
    DivModUnique(a, 2 * half, q, 2 * r + a % 2);
  }

  lemma AtLeastOnce(e: int, d: int)
    requires e >= 1 && d > 0
    ensures e * d >= d
  {}

  lemma DivModUnique(a: nat, d: nat, q: nat, r: nat)
    requires d > 0 && r < d && a == q * d + r
    ensures a % d == r
  {
    var q', r' := a / d, a % d;
    assert a == q' * d + r' by { assert a == d * q' + r'; assert d * q' == q' * d; }
    SameQuotient(d, q, r, q', r');
  }

  lemma SameQuotient(d: nat, q: nat, r: nat, q': nat, r': nat)
    requires r < d && r' < d && q * d + r == q' * d + r'
    ensures r == r'
  {
    assert (q - q') * d == q * d - q' * d;
    if q > q' {
      AtLeastOnce(q - q', d);
    } else if q < q' {
      assert (q' - q) * d == q' * d - q * d;
      AtLeastOnce(q' - q, d);
    }
  }

  lemma MultipleStays(a: nat, each: nat, page: nat)
    requires page > 0 && a % page == 0 && each % page == 0
    ensures (a + each) % page == 0
  {
    var q, q' := a / page, each / page;
    assert a + each == (q + q') * page + 0;
    DivModUnique(a + each, page, q + q', 0);
  }
}
