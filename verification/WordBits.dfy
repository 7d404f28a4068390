// Unsigned words as numbers, bit by bit.

module WordBits {

  const LIMIT := 0x1_0000_0000

  type Word = w: nat | w < LIMIT     // uint32_t

  // 1UL & (w >> n)
  predicate BitAt(w: nat, n: nat)
  {
    if n == 0 then w % 2 == 1 else BitAt(w / 2, n - 1)
  }

  // The same, not to be unfolded
  predicate IsSet(w: nat, n: nat)
  {
    BitAt(w, n)
  }

  // 1UL << n, before it is cut off
  function Power(n: nat): (p: nat)
    ensures p >= 1
  {
    if n == 0 then 1 else 2 * Power(n - 1)
  }

  // a | b, a & b and a & ~b
  function Or(a: nat, b: nat): nat
  {
    if a == 0 then b else (if a % 2 == 1 || b % 2 == 1 then 1 else 0) + 2 * Or(a / 2, b / 2)
  }

  function And(a: nat, b: nat): nat
  {
    if a == 0 then 0 else (if a % 2 == 1 && b % 2 == 1 then 1 else 0) + 2 * And(a / 2, b / 2)
  }

  function AndNot(a: nat, b: nat): (r: nat)
    ensures r <= a <= r + b
  {
    if a == 0 then 0 else (if a % 2 == 1 && b % 2 == 0 then 1 else 0) + 2 * AndNot(a / 2, b / 2)
  }

  // Clearing the lowest two bits
  lemma ClearTwo(a: nat)
    ensures AndNot(a, 3) == a / 4 * 4
  {
    ClearNone(a / 4);
    assert AndNot(a / 2, 1) == 2 * AndNot(a / 4, 0);
    assert AndNot(a, 3) == 2 * AndNot(a / 2, 1);
  }

  lemma {:induction false} ClearNone(a: nat)
    ensures AndNot(a, 0) == a
  {
    if a > 0 { ClearNone(a / 2); }
  }

  lemma {:induction false} ZeroBits(n: nat)
    ensures !BitAt(0, n)
  {
    if n > 0 { ZeroBits(n - 1); }
  }

  lemma {:induction false} OrBits(a: nat, b: nat, n: nat)
    ensures BitAt(Or(a, b), n) <==> BitAt(a, n) || BitAt(b, n)
  {
    if a == 0 {
      ZeroBits(n);
    } else if n > 0 {
      OrBits(a / 2, b / 2, n - 1);
    }
  }

  lemma {:induction false} AndBits(a: nat, b: nat, n: nat)
    ensures BitAt(And(a, b), n) <==> BitAt(a, n) && BitAt(b, n)
  {
    if a == 0 {
      ZeroBits(n);
    } else if n > 0 {
      AndBits(a / 2, b / 2, n - 1);
    }
  }

  lemma {:induction false} AndNotBits(a: nat, b: nat, n: nat)
    ensures BitAt(AndNot(a, b), n) <==> BitAt(a, n) && !BitAt(b, n)
  {
    if a == 0 {
      ZeroBits(n);
    } else if n > 0 {
      AndNotBits(a / 2, b / 2, n - 1);
    }
  }

  lemma {:induction false} PowerBits(k: nat, n: nat)
    ensures BitAt(Power(k), n) <==> n == k
  {
    if k == 0 {
      if n > 0 { ZeroBits(n - 1); }
    } else if n > 0 {
      PowerBits(k - 1, n - 1);
    }
  }

  lemma {:induction false} OrBelow(a: nat, b: nat, k: nat)
    requires a < Power(k) && b < Power(k)
    ensures Or(a, b) < Power(k)
  {
    if a != 0 {
      OrBelow(a / 2, b / 2, k - 1);
    }
  }

  lemma {:induction false} AndBelow(a: nat, b: nat, k: nat)
    requires a < Power(k)
    ensures And(a, b) < Power(k)
  {
    if a != 0 {
      AndBelow(a / 2, b / 2, k - 1);
    }
  }

  // A number is its bits.
  lemma {:induction false} SameBits(a: nat, b: nat)
    requires forall n: nat :: BitAt(a, n) <==> BitAt(b, n)
    ensures a == b
  {
    if a == 0 && b == 0 {
    } else {
      assert BitAt(a, 0) <==> BitAt(b, 0);
      forall n: nat ensures BitAt(a / 2, n) <==> BitAt(b / 2, n) {
        assert BitAt(a, n + 1) <==> BitAt(b, n + 1);
      }
      SameBits(a / 2, b / 2);
    }
  }

  lemma {:induction false} HighBits(a: nat, k: nat, n: nat)
    requires a < Power(k) && n >= k
    ensures !BitAt(a, n)
  {
    if k == 0 {
      ZeroBits(n);
    } else {
      HighBits(a / 2, k - 1, n - 1);
    }
  }

  // (a & b) == b: every bit of b is in a.
  lemma ContainsIffBits(a: nat, b: nat)
    ensures And(a, b) == b <==> forall n: nat :: IsSet(b, n) ==> IsSet(a, n)
  {
    forall n: nat ensures IsSet(And(a, b), n) <==> IsSet(a, n) && IsSet(b, n) { AndBits(a, b, n); }
    if forall n: nat :: IsSet(b, n) ==> IsSet(a, n) {
      forall n: nat ensures BitAt(And(a, b), n) <==> BitAt(b, n) {
        assert IsSet(And(a, b), n) <==> IsSet(b, n);
      }
      SameBits(And(a, b), b);
    }
  }

  // All k bits set: the largest number below 2^k.
  lemma {:induction false} AllSet(a: nat, k: nat)
    requires a < Power(k) && forall n: nat :: 0 <= n < k ==> BitAt(a, n)
    ensures a == Power(k) - 1
  {
    if k > 0 {
      assert BitAt(a, 0);
      forall n: nat | 0 <= n < k - 1 ensures BitAt(a / 2, n) { assert BitAt(a, n + 1); }
      AllSet(a / 2, k - 1);
    }
  }

  lemma {:induction false} FullBits(k: nat, n: nat)
    requires n < k
    ensures BitAt(Power(k) - 1, n)
  {
    if n > 0 {
      assert (Power(k) - 1) / 2 == Power(k - 1) - 1;
      FullBits(k - 1, n - 1);
    }
  }

  lemma PowerWord()
    ensures Power(32) == LIMIT
  {
    assert Power(8) == 0x100;
    assert Power(16) == 0x1_0000 by { assert Power(12) == 0x1000; }
    assert Power(24) == 0x100_0000 by { assert Power(20) == 0x10_0000; }
    assert Power(28) == 0x1000_0000;
  }

  lemma {:induction false} PowerMonotone(m: nat, n: nat)
    requires m < n
    ensures Power(m) < Power(n)
  {
    if m + 1 < n { PowerMonotone(m, n - 1); }
  }

  // ---------- the word operations of the map ----------

  function Mask(n: nat): Word
    requires n < 32
  {
    PowerMonotone(n, 32);
    PowerWord();
    Power(n)
  }

  function OrWord(a: Word, b: Word): Word
  {
    PowerWord();
    OrBelow(a, b, 32);
    Or(a, b)
  }

  function AndWord(a: Word, b: Word): Word
  {
    PowerWord();
    AndBelow(a, b, 32);
    And(a, b)
  }

  function AndNotWord(a: Word, b: Word): Word
  {
    AndNot(a, b)
  }

  const FULL: Word := 0xFFFFFFFF

  lemma FullIffAllSet(w: Word)
    ensures w == FULL <==> forall n: nat :: n < 32 ==> IsSet(w, n)
  {
    PowerWord();
    if w == FULL {
      forall n: nat | n < 32 ensures IsSet(w, n) { FullBits(32, n); }
    }
    if forall n: nat :: n < 32 ==> IsSet(w, n) {
      forall n: nat | n < 32 ensures BitAt(w, n) { assert IsSet(w, n); }
      AllSet(w, 32);
    }
  }
}
