/** The clock of utils.c: the do_div macro divides 64 by 32 bits in two machine divisions. */
module Ticks {
  import opened Common

  const CYCLESPERTICK := 109000

  type Long = n: int | 0 <= n < TWO32 * TWO32

  /** The machine instruction divides upper:low and faults when the quotient does not fit. */
  predicate Fits(upper: Word, low: Word, base: Word)
    requires base != 0
  {
    (upper * TWO32 + low) / base < TWO32
  }

  method Divl(upper: Word, low: Word, base: Word) returns (quotient: Word, remainder: Word)
    requires base != 0 && Fits(upper, low, base)
    ensures upper * TWO32 + low == base * quotient + remainder && remainder < base
  {
    var n := upper * TWO32 + low;
    DivisionParts(n, base);
    quotient, remainder := n / base, n % base;
  }

  lemma DivisionParts(n: nat, base: Word)
    requires base != 0
    ensures 0 <= n / base && n % base < base && n == base * (n / base) + n % base
  {
  }

  /** One machine division is enough exactly for a small upper half. */
  lemma FitsIffUpperIsSmall(upper: Word, low: Word, base: Word)
    requires base != 0
    ensures Fits(upper, low, base) <==> upper < base
  {
    var n := upper * TWO32 + low;
    QuotientBelow(n, base, TWO32);
    assert base * TWO32 > n <==> base > upper;
  }

  lemma QuotientBelow(n: nat, base: nat, k: nat)
    requires base > 0
    ensures n / base < k <==> n < base * k
  {
    var q, r := n / base, n % base;
    assert n == base * q + r;
    if q < k {
      MulGrows(base, k, q + 1);
    } else {
      MulGrows(base, q, k);
    }
  }

  lemma MulGrows(b: nat, x: nat, y: nat)
    requires x >= y
    ensures b * x >= b * y
  {
  }

  /** A quotient and remainder of the right size are the only ones. */
  lemma DivisionIsUnique(n: nat, base: nat, q: int, r: nat)
    requires base > 0 && n == base * q + r && r < base
    ensures q == n / base && r == n % base
  {
    var d, e := n / base, n % base;
    assert n == base * d + e;
    assert base * (q - d) == e - r && base * (d - q) == r - e;
    if q > d {
      MulGrows(base, q - d, 1);
    }
    if q < d {
      MulGrows(base, d - q, 1);
    }
  }

  /** do_div: the dividend becomes the quotient, the result is the remainder. */
  method DoDiv(n: Long, base: Word) returns (quotient: Long, mod: Word)
    requires base != 0
    ensures quotient == n / base && mod == n % base
  {
    var low: Word, high: Word := n % TWO32, n / TWO32;
    var upper: Word := high;
    ghost var top: Word := high;
    if high != 0 {
      DivisionParts(high, base);
      assert high / base <= high by { QuotientBounded(high, base); }
      upper := high % base;
      high := high / base;
    }
    assert top == base * high + upper && upper < base by {
      if top == 0 {
        assert base * 0 == 0;
      }
    }
    FitsIffUpperIsSmall(upper, low, base);
    low, mod := Divl(upper, low, base);
    TwoSteps(base, high, upper, low, mod, n, top);
    DivisionIsUnique(n, base, high * TWO32 + low, mod);
    quotient := high * TWO32 + low;
  }

  lemma QuotientBounded(x: nat, base: nat)
    requires base > 0
    ensures x / base <= x
  {
    if x / base > x {
      MulGrows(base, x / base, x + 1);
      MulGrows(x + 1, base, 1);
    }
  }

  lemma TwoSteps(base: int, high: int, upper: int, low: int, mod: int, n: int, top: int)
    requires top == base * high + upper
    requires upper * TWO32 + n % TWO32 == base * low + mod && top == n / TWO32
    ensures n == base * (high * TWO32 + low) + mod
  {
    assert n == top * TWO32 + n % TWO32;
    assert top * TWO32 == base * high * TWO32 + upper * TWO32;
    assert base * (high * TWO32 + low) == base * high * TWO32 + base * low;
  }

  /** get_ticks at a reading of the cycle counter; the result is cut to 32 bits. */
  method GetTicks(eax: Word, edx: Word) returns (ticks: Word)
    ensures ticks == (edx * 0x1_0000_0000 + eax) / 109000 % 0x1_0000_0000
  {
    var t, rest := DoDiv(edx * TWO32 + eax, CYCLESPERTICK);
    ticks := t % TWO32;
  }
}
