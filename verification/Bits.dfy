/** Bits of integers, and machine words as numbers.  `Bit` reads a negative number in two's
    complement, so a C word and the signed number it stands for have the same low bits. */
module Bits {

  function Pow2(n: nat): (p: nat)
    ensures p > 0
  {
    if n == 0 then 1 else 2 * Pow2(n - 1)
  }

  predicate Bit(x: int, k: nat)
    decreases k
  {
    if k == 0 then x % 2 == 1 else Bit(x / 2, k - 1)
  }

  function And(x: nat, y: nat): nat {
    if x == 0 || y == 0 then 0 else 2 * And(x / 2, y / 2) + x % 2 * (y % 2)
  }

  function Or(x: nat, y: nat): nat {
    if x == 0 || y == 0 then x + y
    else 2 * Or(x / 2, y / 2) + (if x % 2 == 1 then 1 else y % 2)
  }

  function Xor(x: nat, y: nat): nat {
    if x == 0 || y == 0 then x + y
    else 2 * Xor(x / 2, y / 2) + (if x % 2 != y % 2 then 1 else 0)
  }

  // ---- division ----

  lemma DivUnique(x: int, d: int, q: int, r: int)
    requires 0 <= r < d && x == q * d + r
    ensures x / d == q && x % d == r
  {
    var e := x / d - q;
    assert e * d == r - x % d;
    assert e >= 1 ==> e * d >= d;
    assert e <= -1 ==> e * d <= -d;
  }

  lemma NotNegative(x: int, y: int)
    requires x >= 0 && y >= 0
    ensures x * y >= 0
  {}

  lemma TwoDigits(q: int, r2: int, r1: int, a: int, b: int)
    ensures (q * b + r2) * a + r1 == q * (a * b) + (r2 * a + r1)
  {
    assert (q * b + r2) * a == q * b * a + r2 * a;
    assert q * b * a == q * (a * b);
  }

  lemma TwoDigitsBelow(r2: int, r1: int, a: int, b: int)
    requires 0 <= r1 < a && 0 <= r2 < b
    ensures 0 <= r2 * a + r1 < a * b
  {
    NotNegative(r2, a);
    NotNegative(b - r2 - 1, a);
  }

  lemma DivDiv(x: int, a: int, b: int)
    requires a > 0 && b > 0
    ensures a * b > 0 && x / (a * b) == x / a / b
  {
    var y := x / a;
    var r1 := x % a;
    var q, r2 := y / b, y % b;
    TwoDigits(q, r2, r1, a, b);
    TwoDigitsBelow(r2, r1, a, b);
    DivUnique(x, a * b, q, r2 * a + r1);
  }

  lemma AddMultiple(x: int, q: int, d: int)
    requires d > 0
    ensures (q * d + x) / d == q + x / d && (q * d + x) % d == x % d
  {
    assert (q + x / d) * d == q * d + x / d * d;
    DivUnique(q * d + x, d, q + x / d, x % d);
  }

  lemma QuotientBelow(q: int, d: int, r: int)
    requires 0 <= r < d && q * d + r >= 0
    ensures 0 <= q <= q * d + r
  {
    assert q >= 0 ==> q * (d - 1) >= 0;
    assert q <= -1 ==> q * d <= -d;
  }

  lemma DivBelow(x: nat, d: nat)
    requires d > 0
    ensures 0 <= x / d <= x
  {
    QuotientBelow(x / d, d, x % d);
  }

  lemma Associate(x: int, y: int, z: int)
    ensures x * (y * z) == x * y * z
  {}

  lemma {:induction false} Pow2Add(m: nat, n: nat)
    ensures Pow2(m + n) == Pow2(m) * Pow2(n)
  {
    if m > 0 {
      Pow2Add(m - 1, n);
      Associate(2, Pow2(m - 1), Pow2(n));
    }
  }

  lemma Pow2Less(m: nat, n: nat)
    requires m <= n
    ensures Pow2(m) <= Pow2(n)
  {
    Pow2Add(m, n - m);
    assert Pow2(m) * Pow2(n - m) >= Pow2(m) * 1;
  }

  lemma DropMultiple(x: int, q: int, r: int, a: int, b: int)
    requires a > 0 && x == q * (a * b) + r
    ensures x % a == r % a
  {
    assert q * (a * b) == q * b * a;
    AddMultiple(r, q * b, a);
  }

  lemma ModMod(x: int, m: nat, n: nat)
    requires m <= n
    ensures x % Pow2(n) % Pow2(m) == x % Pow2(m)
  {
    hide Pow2;
    Pow2Add(m, n - m);
    DropMultiple(x, x / Pow2(n), x % Pow2(n), Pow2(m), Pow2(n - m));
  }

  // ---- the bits of the results of word operations ----

  /** Bit k is the k-th binary digit. */
  lemma {:induction false} BitIsDigit(x: int, k: nat)
    ensures Bit(x, k) <==> x / Pow2(k) % 2 == 1
    decreases k
  {
    if k > 0 {
      BitIsDigit(x / 2, k - 1);
      DivDiv(x, 2, Pow2(k - 1));
    }
  }

  lemma {:induction false} NoBits(k: nat)
    ensures !Bit(0, k)
  {
    if k > 0 {
      NoBits(k - 1);
    }
  }

  lemma {:induction false} BitAnd(x: nat, y: nat, k: nat)
    ensures Bit(And(x, y), k) <==> Bit(x, k) && Bit(y, k)
    decreases k
  {
    if x == 0 || y == 0 {
      NoBits(k);
    } else if k > 0 {
      BitAnd(x / 2, y / 2, k - 1);
    }
  }

  lemma {:induction false} BitOr(x: nat, y: nat, k: nat)
    ensures Bit(Or(x, y), k) <==> Bit(x, k) || Bit(y, k)
    decreases k
  {
    if x == 0 || y == 0 {
      NoBits(k);
    } else if k > 0 {
      BitOr(x / 2, y / 2, k - 1);
    }
  }

  lemma {:induction false} BitXor(x: nat, y: nat, k: nat)
    ensures Bit(Xor(x, y), k) <==> Bit(x, k) != Bit(y, k)
    decreases k
  {
    if x == 0 || y == 0 {
      NoBits(k);
    } else if k > 0 {
      BitXor(x / 2, y / 2, k - 1);
    }
  }

  lemma {:induction false} BitComplement(x: int, k: nat)
    ensures Bit(-1 - x, k) <==> !Bit(x, k)
    decreases k
  {
    if k > 0 {
      BitComplement(x / 2, k - 1);
      assert (-1 - x) / 2 == -1 - x / 2;
    }
  }

  lemma {:induction false} BitShiftRight(x: int, n: nat, k: nat)
    ensures Bit(x / Pow2(n), k) <==> Bit(x, n + k)
    decreases n
  {
    if n > 0 {
      BitShiftRight(x / 2, n - 1, k);
      DivDiv(x, 2, Pow2(n - 1));
    }
  }

  lemma {:induction false} BitShiftLeft(x: int, n: nat, k: nat)
    ensures Bit(x * Pow2(n), k) <==> k >= n && Bit(x, k - n)
    decreases n
  {
    if n > 0 {
      var y := x * Pow2(n - 1);
      assert x * Pow2(n) == 2 * y;
      if k > 0 {
        BitShiftLeft(x, n - 1, k - 1);
      }
    }
  }

  lemma ModTwice(x: int, p: int)
    requires p > 0
    ensures x % (2 * p) == x % 2 + 2 * (x / 2 % p)
  {
    var q := x / 2 / p;
    assert q * (2 * p) == 2 * (q * p);
    DivUnique(x, 2 * p, q, x % 2 + 2 * (x / 2 % p));
  }

  lemma {:induction false} BitMod(x: int, n: nat, k: nat)
    ensures Bit(x % Pow2(n), k) <==> k < n && Bit(x, k)
    decreases n
  {
    if n == 0 {
      NoBits(k);
    } else {
      ModTwice(x, Pow2(n - 1));
      DivUnique(x % Pow2(n), 2, x / 2 % Pow2(n - 1), x % 2);
      if k > 0 {
        BitMod(x / 2, n - 1, k - 1);
      }
    }
  }

  /** A number with n ones. */
  lemma {:induction false} BitOnes(n: nat, k: nat)
    ensures Bit(Pow2(n) - 1, k) <==> k < n
  {
    if n == 0 {
      NoBits(k);
    } else if k > 0 {
      BitOnes(n - 1, k - 1);
      assert (2 * Pow2(n - 1) - 1) / 2 == Pow2(n - 1) - 1;
    }
  }

  lemma {:induction false} BitAbove(x: nat, n: nat, k: nat)
    requires x < Pow2(n) && n <= k
    ensures !Bit(x, k)
    decreases k
  {
    if n == 0 {
      NoBits(k);
    } else {
      BitAbove(x / 2, n - 1, k - 1);
    }
  }

  // ---- sizes ----

  lemma {:induction false} AndBelow(x: nat, y: nat)
    ensures And(x, y) <= x && And(x, y) <= y
  {
    if x > 0 && y > 0 {
      AndBelow(x / 2, y / 2);
    }
  }

  lemma {:induction false} OrBelow(x: nat, y: nat, n: nat)
    requires x < Pow2(n) && y < Pow2(n)
    ensures Or(x, y) < Pow2(n)
  {
    if x > 0 && y > 0 {
      OrBelow(x / 2, y / 2, n - 1);
    }
  }

  lemma {:induction false} XorBelow(x: nat, y: nat, n: nat)
    requires x < Pow2(n) && y < Pow2(n)
    ensures Xor(x, y) < Pow2(n)
  {
    if x > 0 && y > 0 {
      XorBelow(x / 2, y / 2, n - 1);
    }
  }

  /** Numbers below 2^n with the same n bits are the same number. */
  lemma {:induction false} SameBits(x: nat, y: nat, n: nat)
    requires x < Pow2(n) && y < Pow2(n)
    requires forall k: nat :: k < n ==> (Bit(x, k) <==> Bit(y, k))
    ensures x == y
  {
    if n > 0 {
      forall k: nat | k < n - 1 ensures Bit(x / 2, k) <==> Bit(y / 2, k) {
        assert (Bit(x, k + 1) <==> Bit(y, k + 1));
      }
      SameBits(x / 2, y / 2, n - 1);
      assert Bit(x, 0) <==> Bit(y, 0);
    }
  }

  // ---- masks, and sums written as "or" ----

  lemma AndOnes(x: nat, n: nat)
    ensures And(x, Pow2(n) - 1) == x % Pow2(n)
  {
    hide And, Bit, Pow2;
    AndBelow(x, Pow2(n) - 1);
    forall k: nat ensures Bit(And(x, Pow2(n) - 1), k) <==> Bit(x % Pow2(n), k) {
      BitAnd(x, Pow2(n) - 1, k);
      BitOnes(n, k);
      BitMod(x, n, k);
    }
    SameBits(And(x, Pow2(n) - 1), x % Pow2(n), n);
  }

  lemma {:induction false} OrDisjoint(x: nat, y: nat, n: nat)
    requires y < Pow2(n)
    ensures Or(x * Pow2(n), y) == x * Pow2(n) + y
  {
    if n > 0 && x > 0 && y > 0 {
      var p := Pow2(n - 1);
      assert x * (2 * p) == 2 * (x * p);
      OrDisjoint(x, y / 2, n - 1);
    }
  }

  lemma BitOfOne(k: nat)
    ensures Bit(1, k) <==> k == 0
  {
    BitOnes(1, k);
  }

  lemma AndPower(x: nat, n: nat)
    ensures And(x, Pow2(n)) != 0 <==> Bit(x, n)
  {
    hide And, Bit, Pow2;
    forall k: nat
      ensures Bit(And(x, Pow2(n)), k) <==> k == n && Bit(x, k)
      ensures !Bit(0, k)
    {
      BitAnd(x, Pow2(n), k);
      BitShiftLeft(1, n, k);
      if k >= n {
        BitOfOne(k - n);
      }
      NoBits(k);
    }
    AndBelow(x, Pow2(n));
    if !Bit(x, n) {
      Pow2Twice(n);
      SameBits(And(x, Pow2(n)), 0, n + 1);
    }
  }

  lemma Pow2Twice(n: nat)
    ensures Pow2(n + 1) == 2 * Pow2(n)
  {}

  // ---- signed numbers ----

  /** The signed number of n bits. */
  function Signed(v: int, n: nat): int
    requires n > 0
  {
    var u := v % Pow2(n);
    if u < Pow2(n - 1) then u else u - Pow2(n)
  }

  lemma SignedInRange(v: nat, n: nat)
    requires n > 0 && v < Pow2(n)
    ensures Signed(v, n) == if v < Pow2(n - 1) then v else v - Pow2(n)
  {
    DivUnique(v, Pow2(n), 0, v);
  }

  lemma SignedIsItself(v: int, n: nat)
    requires n > 0
    ensures Signed(v, n) == v <==> 0 - Pow2(n - 1) <= v < Pow2(n - 1)
  {
    if 0 <= v < Pow2(n - 1) {
      DivUnique(v, Pow2(n), 0, v);
    } else if 0 - Pow2(n - 1) <= v < 0 {
      DivUnique(v, Pow2(n), -1, v + Pow2(n));
    }
  }
}
