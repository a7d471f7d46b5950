/**
 * Fixed-width fields packed into a machine word, stated with arithmetic
 * instead of shifts and masks. With `base` a power of two, digit `k` of a
 * word in that base is the bit field `(w >> (k * log2(base))) & (base - 1)`:
 * base 2 gives the single bits of a bitmap word, base 4 the 2-bit cell tags
 * of a cells word. Writing a digit is the clear-then-or sequence
 * `w & ~(mask << shift) | (d << shift)`.
 */
module Packing {
  /** `base` raised to the power `k`. */
  function Pow(base: nat, k: nat): (r: nat)
    ensures base >= 1 ==> r >= 1
  {
    if k == 0 then 1 else base * Pow(base, k - 1)
  }

  /** Digit `k` of `w` in `base`. */
  function Digit(w: nat, base: nat, k: nat): (d: nat)
    requires base >= 2
    ensures d < base
  {
    if k == 0 then w % base else Digit(w / base, base, k - 1)
  }

  /** `w` with digit `k` replaced by `d`, all other digits kept. */
  function Update(w: nat, base: nat, k: nat, d: nat): nat
    requires base >= 2 && d < base
  {
    if k == 0 then (w / base) * base + d
    else Update(w / base, base, k - 1, d) * base + w % base
  }

  lemma MulMonotone(a: int, b: int, c: nat)
    requires a <= b
    ensures a * c <= b * c
  {
  }

  /** Euclidean division by `base` recovers quotient and remainder. */
  lemma DivModParts(q: nat, r: nat, base: nat)
    requires base >= 2 && r < base
    ensures (q * base + r) / base == q && (q * base + r) % base == r
  {
    var n := q * base + r;
    var q', r' := n / base, n % base;
    assert n == q' * base + r';
    if q' > q {
      assert q' * base == (q' - q) * base + q * base;
      MulMonotone(1, q' - q, base);
    } else if q' < q {
      assert q * base == (q - q') * base + q' * base;
      MulMonotone(1, q - q', base);
    }
  }

  /** A word below `p * base` has its quotient by `base` below `p`. */
  lemma DivBelow(w: nat, base: nat, p: nat)
    requires base >= 2 && w < p * base
    ensures w / base < p
  {
    if w / base >= p {
      MulMonotone(p, w / base, base);
    }
  }

  /** Writing digit `k` reads back as written and leaves every other digit alone. */
  lemma {:induction false} DigitUpdate(w: nat, base: nat, k: nat, d: nat, j: nat)
    requires base >= 2 && d < base
    ensures Digit(Update(w, base, k, d), base, j) == if j == k then d else Digit(w, base, j)
    decreases k
  {
    var q, r := w / base, w % base;
    if k == 0 {
      var u := Update(w, base, 0, d);
      assert u == q * base + d;
      DivModParts(q, d, base);
      assert u / base == q && u % base == d;
      if j != 0 {
        assert Digit(u, base, j) == Digit(q, base, j - 1);
      }
    } else {
      var high := Update(q, base, k - 1, d);
      var u := Update(w, base, k, d);
      assert u == high * base + r;
      DivModParts(high, r, base);
      assert u / base == high && u % base == r;
      if j != 0 {
        assert Digit(u, base, j) == Digit(high, base, j - 1);
        DigitUpdate(q, base, k - 1, d, j - 1);
      }
    }
  }

  /** A digit `low` below a quotient `high < p` stays below `p * base`. */
  lemma ComposeBelow(high: nat, low: nat, base: nat, p: nat)
    requires base >= 2 && low < base && high < p
    ensures high * base + low < p * base
  {
    MulMonotone(high + 1, p, base);
  }

  /** Writing the lowest digit keeps the word below `base^n`. */
  lemma UpdateLowBound(w: nat, base: nat, d: nat, n: nat)
    requires base >= 2 && d < base && 0 < n && w < Pow(base, n)
    ensures Update(w, base, 0, d) < Pow(base, n)
  {
    var p := Pow(base, n - 1);
    PowStep(base, n);
    DivBelow(w, base, p);
    ComposeBelow(w / base, d, base, p);
  }

  /** Writing a digit below position `n` keeps the word below `base^n`. */
  lemma {:induction false} UpdateBound(w: nat, base: nat, k: nat, d: nat, n: nat)
    requires base >= 2 && d < base && k < n && w < Pow(base, n)
    ensures Update(w, base, k, d) < Pow(base, n)
    decreases k
  {
    if k == 0 {
      UpdateLowBound(w, base, d, n);
    } else {
      var q, r := w / base, w % base;
      var p := Pow(base, n - 1);
      PowStep(base, n);
      DivBelow(w, base, p);
      UpdateBound(q, base, k - 1, d, n - 1);
      var high := Update(q, base, k - 1, d);
      assert Update(w, base, k, d) == high * base + r;
      ComposeBelow(high, r, base, p);
    }
  }

  lemma PowStep(base: nat, n: nat)
    requires n >= 1
    ensures Pow(base, n) == Pow(base, n - 1) * base
  {
  }

  /** Every one of the low `n` bits of `2^n - 1` is set. */
  lemma {:induction false} AllOnesDigit(n: nat, j: nat)
    requires j < n
    ensures Digit(Pow(2, n) - 1, 2, j) == 1
  {
    if j != 0 {
      assert (Pow(2, n) - 1) / 2 == Pow(2, n - 1) - 1;
      AllOnesDigit(n - 1, j - 1);
    }
  }

  /** Two bits per cell: a base-4 word of `k` digits is a binary word of `2k` digits. */
  lemma {:induction false} PowSquare(k: nat)
    ensures Pow(4, k) == Pow(2, 2 * k)
  {
    if k != 0 {
      PowSquare(k - 1);
    }
  }

  /** Every digit of the zero word is zero. */
  lemma {:induction false} DigitZero(base: nat, k: nat)
    requires base >= 2
    ensures Digit(0, base, k) == 0
  {
    if k != 0 {
      DigitZero(base, k - 1);
    }
  }
}
