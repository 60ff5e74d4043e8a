/** Machine words and the small arithmetic the flash layout needs.
    A stored word is an integer in two's complement, whatever its width: the erased
    word, all ones, is -1 and the all-zero word is 0. */
module Words {

  /** What a flash cell holding `a` holds after `b` is programmed into it: the bitwise
      AND of the two words, taken on their (unbounded) two's complement digits. */
  function And(a: int, b: int): (r: int)
    decreases if a >= 0 then a else -a
  {
    if a == 0 || b == 0 then 0
    else if a == -1 then b
    else if b == -1 then a
    else 2 * And(a / 2, b / 2) + (if a % 2 == 1 && b % 2 == 1 then 1 else 0)
  }

  /** Digit `k` of a word, from the last one on; above the digits of a negative word there are only ones. */
  predicate Digit(a: int, k: nat)
    decreases k
  {
    if k == 0 then a % 2 == 1 else Digit(a / 2, k - 1)
  }

  /** The AND of any two words, whatever their signs, has a one exactly where both have one. */
  lemma {:induction false} AndDigits(a: int, b: int, k: nat)
    ensures Digit(And(a, b), k) <==> Digit(a, k) && Digit(b, k)
    decreases k
  {
    if k > 0 {
      assert And(a, b) / 2 == And(a / 2, b / 2);
      AndDigits(a / 2, b / 2, k - 1);
    }
  }

  /** The digits make the word: no other function but AND has that law. */
  lemma {:induction false} DigitsSame(a: int, b: int)
    requires forall k: nat :: Digit(a, k) <==> Digit(b, k)
    ensures a == b
    decreases (if a >= 0 then a else -a) + (if b >= 0 then b else -b)
  {
    assert Digit(a, 0) <==> Digit(b, 0);
    if !(-1 <= a <= 0 && -1 <= b <= 0) {
      forall k: nat
        ensures Digit(a / 2, k) <==> Digit(b / 2, k)
      {
        assert Digit(a, k + 1) <==> Digit(b, k + 1);
      }
      DigitsSame(a / 2, b / 2);
    }
  }

  lemma {:induction false} AndIdempotent(a: int)
    ensures And(a, a) == a
    decreases if a >= 0 then a else -a
  {
    if a != 0 && a != -1 {
      AndIdempotent(a / 2);
    }
  }

  /** Every set bit of `b` is set in `a`: programming `b` over `a` stores exactly `b`. */
  predicate Covers(a: int, b: int) {
    And(a, b) == b
  }

  /** Quotient and remainder by repeated subtraction. */
  function Quot(a: nat, b: nat): (q: nat)
    requires b > 0
  {
    if a < b then 0 else 1 + Quot(a - b, b)
  }

  function Rem(a: nat, b: nat): (r: nat)
    requires b > 0
    ensures r < b
  {
    if a < b then a else Rem(a - b, b)
  }

  lemma {:induction false} QuotRem(a: nat, b: nat)
    requires b > 0
    ensures a == Quot(a, b) * b + Rem(a, b)
  {
    if a >= b {
      QuotRem(a - b, b);
      assert Quot(a, b) * b == Quot(a - b, b) * b + b;
    }
  }

  lemma {:induction false} QuotRemOf(q: nat, r: nat, b: nat)
    requires r < b
    ensures q * b + r >= 0
    ensures Quot(q * b + r, b) == q && Rem(q * b + r, b) == r
  {
    if q > 0 {
      QuotRemOf(q - 1, r, b);
      assert q * b + r - b == (q - 1) * b + r;
      assert (q - 1) * b >= 0;
    }
  }

  /** One further: within the same multiple, or at the next one. */
  lemma {:induction false} QuotRemNext(a: nat, b: nat)
    requires b > 0
    ensures Rem(a, b) + 1 < b ==> Quot(a + 1, b) == Quot(a, b) && Rem(a + 1, b) == Rem(a, b) + 1
    ensures Rem(a, b) + 1 == b ==> Quot(a + 1, b) == Quot(a, b) + 1 && Rem(a + 1, b) == 0
  {
    if a >= b {
      QuotRemNext(a - b, b);
    }
  }

  lemma {:induction false} QuotMonotone(a: nat, b: nat, d: nat)
    requires a <= b && d > 0
    ensures Quot(a, d) <= Quot(b, d)
  {
    if a >= d {
      QuotMonotone(a - d, b - d, d);
    }
  }

  /** Quot and Rem are the division and remainder the source's macros use. */
  lemma QuotRemDivMod(a: nat, b: nat)
    requires b > 0
    ensures Quot(a, b) == a / b && Rem(a, b) == a % b
  {
    QuotRemOf(a / b, a % b, b);
    assert a == (a / b) * b + a % b;
  }
}
