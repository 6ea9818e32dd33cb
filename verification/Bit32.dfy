/** The bit32 library: 32-bit operations carried out on 64-bit words.  Arguments are Lua
    integers; each operation first reads its argument as an unsigned word. */
module Bit32 {
  import opened Options
  import opened Bits

  const NBITS: nat := 32

  const MinInteger: int := -0x8000_0000_0000_0000
  const MaxInteger: int := 0x7FFF_FFFF_FFFF_FFFF

  predicate Word(x: int) {
    0 <= x < Pow2(64)
  }

  // ---- the operators on `lua_Unsigned` ----

  function Unsigned(n: int): nat {
    n % Pow2(64)
  }

  function Not(x: nat): nat {
    (-1 - x) % Pow2(64)
  }

  function Shl(x: nat, n: nat): nat
    requires n < 64
  {
    x * Pow2(n) % Pow2(64)
  }

  function Shr(x: nat, n: nat): nat
    requires n < 64
  {
    DivBelow(x, Pow2(n));
    x / Pow2(n)
  }

  function AllOnes(): nat {
    Not(Shl(Shl(Not(0), NBITS - 1), 1))
  }

  function Trim(x: nat): nat {
    And(x, AllOnes())
  }

  function Mask(n: nat): nat
    requires 1 <= n <= NBITS
  {
    Not(Shl(Shl(AllOnes(), 1), n - 1))
  }

  // ---- their bits ----

  lemma BitUnsigned(n: int, k: nat)
    ensures Word(Unsigned(n))
    ensures Bit(Unsigned(n), k) <==> k < 64 && Bit(n, k)
  {
    BitMod(n, 64, k);
  }

  lemma BitNot(x: nat, k: nat)
    ensures Word(Not(x))
    ensures Bit(Not(x), k) <==> k < 64 && !Bit(x, k)
  {
    BitMod(-1 - x, 64, k);
    BitComplement(x, k);
  }

  lemma BitShl(x: nat, n: nat, k: nat)
    requires n < 64
    ensures Word(Shl(x, n))
    ensures Bit(Shl(x, n), k) <==> n <= k < 64 && Bit(x, k - n)
  {
    BitMod(x * Pow2(n), 64, k);
    BitShiftLeft(x, n, k);
  }

  lemma BitAllOnes(k: nat)
    ensures Word(AllOnes())
    ensures Bit(AllOnes(), k) <==> k < 32
  {
    hide Not, Shl, Pow2;
    BitNot(Shl(Shl(Not(0), 31), 1), k);
    BitShl(Shl(Not(0), 31), 1, k);
    if k >= 1 {
      BitShl(Not(0), 31, k - 1);
      if k >= 32 {
        BitNot(0, k - 32);
        NoBits(k - 32);
      }
    }
  }

  lemma BitTrim(x: nat, k: nat)
    ensures Trim(x) <= x
    ensures Bit(Trim(x), k) <==> k < 32 && Bit(x, k)
  {
    BitAnd(x, AllOnes(), k);
    BitAllOnes(k);
    AndBelow(x, AllOnes());
  }

  /** The mask has its n ones, and stray ones from bit n + 32 up. */
  lemma BitMask(n: nat, k: nat)
    requires 1 <= n <= NBITS
    ensures Word(Mask(n))
    ensures Bit(Mask(n), k) <==> k < n || n + 32 <= k < 64
  {
    hide Not, Shl, AllOnes, Pow2;
    BitNot(Shl(Shl(AllOnes(), 1), n - 1), k);
    BitShl(Shl(AllOnes(), 1), n - 1, k);
    if k >= n - 1 {
      BitShl(AllOnes(), 1, k - n + 1);
      if k >= n {
        BitAllOnes(k - n);
      }
    }
  }

  /** Trimming is reduction modulo 2^32, also for the word of a negative number. */
  lemma TrimIsMod(n: int)
    ensures Trim(Unsigned(n)) == n % Pow2(32)
  {
    hide Bit, Trim, Unsigned, Pow2;
    BitUnsigned(n, 0);
    BitTrim(Unsigned(n), 0);
    Pow2Less(32, 64);
    forall k: nat ensures Bit(Trim(Unsigned(n)), k) <==> Bit(n % Pow2(32), k) {
      BitTrim(Unsigned(n), k);
      BitUnsigned(n, k);
      BitMod(n, 32, k);
    }
    SameBits(Trim(Unsigned(n)), n % Pow2(32), 64);
  }

  lemma TrimBelow(x: nat)
    requires Word(x)
    ensures Trim(x) == x % Pow2(32) < Pow2(32)
  {
    hide Trim, Pow2;
    DivUnique(x, Pow2(64), 0, x);
    TrimIsMod(x);
  }

  // ---- band, btest, bor, bxor, bnot ----

  predicate InAll(args: seq<int>, k: nat) {
    forall j :: 0 <= j < |args| ==> Bit(args[j], k)
  }

  predicate InSome(args: seq<int>, k: nat) {
    exists j :: 0 <= j < |args| && Bit(args[j], k)
  }

  method AndAux(args: seq<int>) returns (r: nat)
    ensures r < Pow2(32)
    ensures forall k: nat :: Bit(r, k) <==> k < 32 && InAll(args, k)
  {
    hide Bit, Trim, Unsigned, Not, Pow2;
    r := Not(0);
    BitNot(0, 0);
    forall k: nat ensures Bit(r, k) <==> k < 64 {
      BitNot(0, k);
      NoBits(k);
    }
    for i := 0 to |args|
      invariant Word(r)
      invariant forall k: nat :: Bit(r, k) <==> k < 64 && forall j :: 0 <= j < i ==> Bit(args[j], k)
    {
      ghost var r0 := r;
      r := And(r, Unsigned(args[i]));
      AndBelow(r0, Unsigned(args[i]));
      forall k: nat ensures Bit(r, k) <==> Bit(r0, k) && k < 64 && Bit(args[i], k) {
        BitAnd(r0, Unsigned(args[i]), k);
        BitUnsigned(args[i], k);
      }
    }
    TrimBelow(r);
    forall k: nat ensures Bit(Trim(r), k) <==> k < 32 && Bit(r, k) {
      BitTrim(r, k);
    }
    r := Trim(r);
  }

  method BTest(args: seq<int>) returns (b: bool)
    ensures b <==> exists k: nat :: k < 32 && InAll(args, k)
  {
    hide Bit, Pow2;
    var r := AndAux(args);
    b := r != 0;
    forall k: nat ensures !Bit(0, k) {
      NoBits(k);
    }
    if forall k: nat :: !Bit(r, k) {
      SameBits(r, 0, 32);
    }
  }

  method BOr(args: seq<int>) returns (r: nat)
    ensures r < Pow2(32)
    ensures forall k: nat :: Bit(r, k) <==> k < 32 && InSome(args, k)
  {
    hide Bit, Trim, Unsigned, Pow2;
    r := 0;
    forall k: nat ensures !Bit(0, k) {
      NoBits(k);
    }
    for i := 0 to |args|
      invariant Word(r)
      invariant forall k: nat :: Bit(r, k) <==> k < 64 && exists j :: 0 <= j < i && Bit(args[j], k)
    {
      ghost var r0 := r;
      r := Or(r, Unsigned(args[i]));
      BitUnsigned(args[i], 0);
      OrBelow(r0, Unsigned(args[i]), 64);
      forall k: nat ensures Bit(r, k) <==> Bit(r0, k) || (k < 64 && Bit(args[i], k)) {
        BitOr(r0, Unsigned(args[i]), k);
        BitUnsigned(args[i], k);
      }
    }
    TrimBelow(r);
    forall k: nat ensures Bit(Trim(r), k) <==> k < 32 && Bit(r, k) {
      BitTrim(r, k);
    }
    r := Trim(r);
  }

  /** How many of the arguments have bit k. */
  function Carrying(args: seq<int>, k: nat): nat {
    if args == [] then 0
    else Carrying(args[..|args| - 1], k) + if Bit(args[|args| - 1], k) then 1 else 0
  }

  method BXor(args: seq<int>) returns (r: nat)
    ensures r < Pow2(32)
    ensures forall k: nat :: Bit(r, k) <==> k < 32 && Carrying(args, k) % 2 == 1
  {
    hide Bit, Trim, Unsigned, Pow2;
    r := 0;
    forall k: nat ensures !Bit(0, k) {
      NoBits(k);
    }
    for i := 0 to |args|
      invariant Word(r)
      invariant forall k: nat :: Bit(r, k) <==> k < 64 && Carrying(args[..i], k) % 2 == 1
    {
      ghost var r0 := r;
      r := Xor(r, Unsigned(args[i]));
      BitUnsigned(args[i], 0);
      XorBelow(r0, Unsigned(args[i]), 64);
      assert args[..i + 1][..i] == args[..i];
      forall k: nat ensures Bit(r, k) <==> Bit(r0, k) != (k < 64 && Bit(args[i], k)) {
        BitXor(r0, Unsigned(args[i]), k);
        BitUnsigned(args[i], k);
      }
    }
    assert args[..|args|] == args;
    TrimBelow(r);
    forall k: nat ensures Bit(Trim(r), k) <==> k < 32 && Bit(r, k) {
      BitTrim(r, k);
    }
    r := Trim(r);
  }

  function BNot(n: int): (r: nat)
    ensures r == (-1 - n) % Pow2(32)
  {
    NotIsMod(n);
    Trim(Not(Unsigned(n)))
  }

  lemma NotIsMod(n: int)
    ensures Trim(Not(Unsigned(n))) == (-1 - n) % Pow2(32)
  {
    hide Bit, Trim, Unsigned, Not, Pow2;
    var r := Not(Unsigned(n));
    BitNot(Unsigned(n), 0);
    TrimBelow(r);
    forall k: nat ensures k < 32 ==> (Bit(Trim(r), k) <==> Bit((-1 - n) % Pow2(32), k)) {
      BitTrim(r, k);
      BitNot(Unsigned(n), k);
      BitUnsigned(n, k);
      BitMod(-1 - n, 32, k);
      BitComplement(n, k);
    }
    SameBits(Trim(r), (-1 - n) % Pow2(32), 32);
  }

  // ---- shifts ----

  /** A shift by a negative amount goes right and fills with zeros; amounts of 32 and more
      need no case of their own here. */
  function Shifted(n: int, i: int): (r: nat)
    ensures r < Pow2(32)
  {
    if i < 0 then DivBelow(n % Pow2(32), Pow2(-i)); n % Pow2(32) / Pow2(-i)
    else n * Pow2(i) % Pow2(32)
  }

  lemma BitShifted(n: int, i: int, k: nat)
    ensures Bit(Shifted(n, i), k) <==> k < 32 && 0 <= k - i < 32 && Bit(n, k - i)
  {
    hide Pow2;
    if i < 0 {
      BitShiftRight(n % Pow2(32), -i, k);
      BitMod(n, 32, k - i);
    } else {
      BitMod(n * Pow2(i), 32, k);
      BitShiftLeft(n, i, k);
    }
  }

  /** Numbers of 32 bits are equal when their bits are. */
  lemma Same32(x: nat, y: nat)
    requires x < Pow2(32) && y < Pow2(32)
    requires forall k: nat :: k < 32 ==> (Bit(x, k) <==> Bit(y, k))
    ensures x == y
  {
    SameBits(x, y, 32);
  }

  lemma ShiftRightIsShifted(n: int, i: int)
    requires 0 < i
    ensures Shifted(n, -i) == if i >= NBITS then 0 else Shr(Trim(Unsigned(n)), i)
  {
    hide Bit, Trim, Unsigned, Pow2;
    TrimIsMod(n);
    if i >= NBITS {
      forall k: nat ensures Bit(Shifted(n, -i), k) <==> Bit(0, k) {
        BitShifted(n, -i, k);
        NoBits(k);
      }
      Same32(Shifted(n, -i), 0);
    }
  }

  lemma ShiftLeftIsShifted(n: int, i: int)
    requires 0 <= i
    ensures Shifted(n, i) == Trim(if i >= NBITS then 0 else Shl(Unsigned(n), i))
  {
    hide Bit, Trim, Unsigned, Shl, Pow2;
    var x := if i >= NBITS then 0 else Shl(Unsigned(n), i);
    if i < NBITS {
      BitShl(Unsigned(n), i, 0);
    }
    TrimBelow(x);
    forall k: nat ensures k < 32 ==> (Bit(Shifted(n, i), k) <==> Bit(Trim(x), k)) {
      BitShifted(n, i, k);
      BitTrim(x, k);
      NoBits(k);
      if i < NBITS {
        BitShl(Unsigned(n), i, k);
        if i <= k {
          BitUnsigned(n, k - i);
        }
      }
    }
    Same32(Shifted(n, i), Trim(x));
  }

  /** Shifting the word of a number is shifting the number. */
  lemma WordShifts(n: int, i: int)
    ensures Word(Unsigned(n)) && Shifted(Unsigned(n), i) == Shifted(n, i)
  {
    hide Bit, Shifted, Pow2;
    BitUnsigned(n, 0);
    forall k: nat | k < 32 ensures Bit(Shifted(Unsigned(n), i), k) <==> Bit(Shifted(n, i), k) {
      BitShifted(Unsigned(n), i, k);
      BitShifted(n, i, k);
      if 0 <= k - i < 32 {
        BitUnsigned(n, k - i);
      }
    }
    Same32(Shifted(Unsigned(n), i), Shifted(n, i));
  }

  lemma WordIsUnsigned(word: nat)
    requires Word(word)
    ensures Unsigned(word) == word
  {
    DivUnique(word, Pow2(64), 0, word);
  }

  method BShift(word: nat, amount: int) returns (r: nat)
    requires Word(word) && MinInteger < amount <= MaxInteger
    ensures r == Shifted(word, amount)
  {
    hide Bit, Trim, Unsigned, Pow2;
    var i := amount;
    r := word;
    WordIsUnsigned(word);
    if i < 0 {
      i := -i;
      ShiftRightIsShifted(word, i);
      r := Trim(r);
      if i >= NBITS {
        r := 0;
      } else {
        r := Shr(r, i);
      }
    } else {
      ShiftLeftIsShifted(word, i);
      if i >= NBITS {
        r := 0;
      } else {
        r := Shl(r, i);
      }
      r := Trim(r);
    }
  }

  method LShift(n: int, i: int) returns (r: nat)
    requires MinInteger < i <= MaxInteger
    ensures r == Shifted(n, i) < Pow2(32)
  {
    WordShifts(n, i);
    r := BShift(Unsigned(n), i);
  }

  method RShift(n: int, i: int) returns (r: nat)
    requires MinInteger < i <= MaxInteger
    ensures r == Shifted(n, -i) < Pow2(32)
  {
    WordShifts(n, -i);
    r := BShift(Unsigned(n), -i);
  }

  /** A shift by 32 or more in either direction leaves nothing. */
  lemma ShiftedAway(n: int, i: int)
    requires i <= -32 || 32 <= i
    ensures Shifted(n, i) == 0
  {
    hide Bit, Shifted, Pow2;
    forall k: nat ensures Bit(Shifted(n, i), k) <==> Bit(0, k) {
      BitShifted(n, i, k);
      NoBits(k);
    }
    Same32(Shifted(n, i), 0);
  }

  predicate Kept(n: int, i: int, j: int, k: nat) {
    k < 32 && 0 <= k - j - i < 32 && Bit(n, k - j - i) ==> 0 <= k - j < 32
  }

  /** Two shifts are one by the sum, if and only if they go the same way or no bit that the
      sum would keep is lost on the way. */
  lemma ShiftsAdd(n: int, i: int, j: int)
    ensures Shifted(Shifted(n, i), j) == Shifted(n, i + j) <==>
            forall k: nat :: Kept(n, i, j, k)
  {
    hide Bit, Shifted, Pow2;
    var x, y := Shifted(Shifted(n, i), j), Shifted(n, i + j);
    forall k: nat
      ensures k < 32 && Kept(n, i, j, k) ==> (Bit(x, k) <==> Bit(y, k))
      ensures x == y ==> Kept(n, i, j, k)
    {
      BitShifted(n, i + j, k);
      BitShifted(Shifted(n, i), j, k);
      if 0 <= k - j {
        BitShifted(n, i, k - j);
      }
    }
    if forall k: nat :: Kept(n, i, j, k) {
      Same32(x, y);
    }
  }

  // ---- the arithmetic shift ----

  /** Right shift of the signed number, rounding down; a negative amount shifts left. */
  function ArithmeticShifted(n: int, i: int): (r: nat)
    ensures r < Pow2(32)
  {
    if i < 0 then n * Pow2(-i) % Pow2(32) else Signed(n, 32) / Pow2(i) % Pow2(32)
  }

  lemma BitSigned(n: int, k: nat)
    ensures Bit(Signed(n, 32), k) <==> Bit(n, if k < 32 then k else 31)
  {
    hide Pow2;
    var u := n % Pow2(32);
    BitMod(n, 32, k);
    BitMod(n, 32, 31);
    Pow2Twice(31);
    if u < Pow2(31) {
      BitAbove(u, 31, 31);
      if k >= 31 {
        BitAbove(u, 31, k);
      }
    } else {
      var s := u - Pow2(32);
      DivUnique(s, Pow2(32), -1, u);
      BitMod(s, 32, k);
      BitMod(s, 32, 31);
      BitAbove(-1 - s, 31, 31);
      BitComplement(s, 31);
      if k >= 31 {
        BitAbove(-1 - s, 31, k);
        BitComplement(s, k);
      }
    }
  }

  lemma SignTest(x: nat)
    ensures And(x, Shl(1, NBITS - 1)) != 0 <==> Bit(x, 31)
  {
    hide And, Bit;
    AndPower(x, 31);
    OneShifted();
  }

  lemma OneShifted()
    ensures Shl(1, NBITS - 1) == Pow2(31)
  {
    hide Pow2;
    Pow2Less(31, 63);
    Pow2Twice(63);
    DivUnique(Pow2(31), Pow2(64), 0, Pow2(31));
  }

  lemma BitArithmeticShifted(n: int, i: int, k: nat)
    requires 0 <= i
    ensures Bit(ArithmeticShifted(n, i), k) <==> k < 32 && Bit(n, if i + k < 32 then i + k else 31)
  {
    hide Bit, Pow2, Signed;
    BitMod(Signed(n, 32) / Pow2(i), 32, k);
    BitShiftRight(Signed(n, 32), i, k);
    BitSigned(n, i + k);
  }

  /** For a number whose sign bit is clear the plain shift will do. */
  lemma PositiveIsPlain(n: int, i: int)
    requires 0 <= i && !Bit(n, 31)
    ensures ArithmeticShifted(n, i) == Shifted(n, -i)
  {
    hide Bit, Pow2, ArithmeticShifted, Shifted;
    forall k: nat ensures Bit(ArithmeticShifted(n, i), k) <==> Bit(Shifted(n, -i), k) {
      BitArithmeticShifted(n, i, k);
      BitShifted(n, -i, k);
    }
    Same32(ArithmeticShifted(n, i), Shifted(n, -i));
  }

  /** The branch for a set sign bit: the untrimmed word is shifted and ones put above it. */
  function SignFilled(u: nat, i: nat): nat {
    if i >= NBITS then AllOnes() else Trim(Or(Shr(u, i), Not(Shr(Trim(Not(0)), i))))
  }

  lemma NegativeIsFilled(n: int, i: nat)
    requires Bit(n, 31)
    ensures SignFilled(Unsigned(n), i) == ArithmeticShifted(n, i)
  {
    hide Bit, Pow2, ArithmeticShifted, Trim, Not, Shr, AllOnes, Unsigned;
    BitUnsigned(n, 0);
    SignFilledBelow(Unsigned(n), i);
    forall k: nat | k < 32
      ensures Bit(SignFilled(Unsigned(n), i), k) <==> Bit(ArithmeticShifted(n, i), k)
    {
      BitArithmeticShifted(n, i, k);
      BitSignFilled(n, i, k);
    }
    Same32(SignFilled(Unsigned(n), i), ArithmeticShifted(n, i));
  }

  lemma BitSignFilled(n: int, i: nat, k: nat)
    requires k < 32
    ensures Bit(SignFilled(Unsigned(n), i), k) <==> i + k >= 32 || Bit(n, i + k)
  {
    hide Bit, Pow2, Trim, Not, Unsigned, AllOnes;
    var u := Unsigned(n);
    BitAllOnes(k);
    if i < NBITS {
      var high := Shr(Trim(Not(0)), i);
      BitTrim(Or(Shr(u, i), Not(high)), k);
      BitOr(Shr(u, i), Not(high), k);
      BitNot(high, k);
      BitShiftRight(Trim(Not(0)), i, k);
      BitTrim(Not(0), i + k);
      BitNot(0, i + k);
      NoBits(i + k);
      BitShiftRight(u, i, k);
      BitUnsigned(n, i + k);
    }
  }

  lemma SignFilledBelow(u: nat, i: nat)
    requires Word(u)
    ensures SignFilled(u, i) < Pow2(32)
  {
    hide Bit, Pow2, Trim, Not, AllOnes;
    if i < NBITS {
      var high := Shr(Trim(Not(0)), i);
      BitNot(high, 0);
      DivBelow(u, Pow2(i));
      OrBelow(Shr(u, i), Not(high), 64);
      TrimBelow(Or(Shr(u, i), Not(high)));
    } else {
      BitAllOnes(0);
      TrimBelow(AllOnes());
      forall k: nat ensures Bit(Trim(AllOnes()), k) <==> Bit(AllOnes(), k) {
        BitTrim(AllOnes(), k);
        BitAllOnes(k);
      }
      BitTrim(AllOnes(), 0);
      SameBits(Trim(AllOnes()), AllOnes(), 64);
    }
  }

  method ARShift(n: int, i: int) returns (r: nat)
    requires MinInteger < i <= MaxInteger
    ensures r == ArithmeticShifted(n, i) < Pow2(32)
  {
    hide Bit, Pow2, Signed, ArithmeticShifted, Trim, Not, Shl, Shr, AllOnes, Unsigned;
    r := Unsigned(n);
    WordShifts(n, -i);
    SignTest(r);
    BitUnsigned(n, 31);
    if i < 0 || And(r, Shl(1, NBITS - 1)) == 0 {
      if i >= 0 {
        PositiveIsPlain(n, i);
      } else {
        NegativeAmount(n, i);
      }
      r := BShift(r, -i);
    } else {
      NegativeIsFilled(n, i);
      if i >= NBITS {
        r := AllOnes();
      } else {
        r := Trim(Or(Shr(r, i), Not(Shr(Trim(Not(0)), i))));
      }
    }
  }

  lemma NegativeAmount(n: int, i: int)
    requires i < 0
    ensures ArithmeticShifted(n, i) == Shifted(n, -i)
  {}

  // ---- rotation ----

  function BRot(n: int, d: int): nat {
    var i := And(Unsigned(d), NBITS - 1);
    var r := Trim(Unsigned(n));
    if 0 < i < NBITS then Trim(Or(Shl(r, i), Shr(r, NBITS - i))) else Trim(r)
  }

  lemma MaskIsRemainder(d: int)
    ensures And(Unsigned(d), NBITS - 1) == d % NBITS
  {
    AndOnes(Unsigned(d), 5);
    SmallModulus(d);
  }

  lemma SmallModulus(d: int)
    ensures Pow2(5) == 32 && Unsigned(d) % 32 == d % 32
  {
    ModMod(d, 5, 64);
    assert Pow2(5) == 32;
  }

  lemma Around(k: int, d: int)
    requires 0 <= k < 32
    ensures (k - d) % 32 == if k >= d % 32 then k - d % 32 else k - d % 32 + 32
  {}

  /** Bit k of the result is the bit d places below it, counting round. */
  lemma BitRot(n: int, d: int, k: nat)
    ensures BRot(n, d) < Pow2(32)
    ensures Bit(BRot(n, d), k) <==> k < 32 && Bit(n, (k - d) % 32)
  {
    hide Bit, Pow2, Trim, Not, Shl, Unsigned;
    MaskIsRemainder(d);
    var i, u := d % 32, Unsigned(n);
    var r := Trim(u);
    BitUnsigned(n, 0);
    TrimBelow(u);
    BitTrim(u, 0);
    if k < 32 {
      Around(k, d);
    }
    if 0 < i {
      BitShl(r, i, k);
      BitShiftRight(r, 32 - i, k);
      DivBelow(r, Pow2(32 - i));
      BitOr(Shl(r, i), Shr(r, 32 - i), k);
      BitTrim(Or(Shl(r, i), Shr(r, 32 - i)), k);
      OrBelow(Shl(r, i), Shr(r, 32 - i), 64);
      TrimBelow(Or(Shl(r, i), Shr(r, 32 - i)));
      BitTrim(u, k + 32 - i);
      BitUnsigned(n, k + 32 - i);
      if k >= i {
        BitTrim(u, k - i);
        BitUnsigned(n, k - i);
      }
    } else {
      TrimBelow(r);
      BitTrim(r, k);
      BitTrim(u, k);
      BitUnsigned(n, k);
    }
  }

  lemma TwoTurns(k: int, a: int, b: int)
    ensures ((k - b) % 32 - a) % 32 == (k - (a + b)) % 32
  {
    var q := (k - b) / 32;
    AddMultiple((k - b) % 32 - a, q, 32);
  }

  lemma RotationsAdd(n: int, a: int, b: int)
    ensures BRot(BRot(n, a), b) == BRot(n, a + b)
  {
    hide BRot, Bit, Pow2;
    var x, y := BRot(BRot(n, a), b), BRot(n, a + b);
    BitRot(BRot(n, a), b, 0);
    BitRot(n, a + b, 0);
    forall k: nat ensures k < 32 ==> (Bit(x, k) <==> Bit(y, k)) {
      BitRot(BRot(n, a), b, k);
      BitRot(n, a, (k - b) % 32);
      BitRot(n, a + b, k);
      TwoTurns(k, a, b);
    }
    Same32(x, y);
  }

  function LRotate(n: int, d: int): nat {
    BRot(n, d)
  }

  function RRotate(n: int, d: int): nat
    requires MinInteger < d <= MaxInteger
  {
    BRot(n, -d)
  }

  lemma FullTurn(n: int, d: int)
    requires d % 32 == 0
    ensures BRot(n, d) == n % Pow2(32)
  {
    hide BRot, Bit, Pow2;
    BitRot(n, d, 0);
    forall k: nat ensures k < 32 ==> (Bit(BRot(n, d), k) <==> Bit(n % Pow2(32), k)) {
      BitRot(n, d, k);
      BitMod(n, 32, k);
      assert k < 32 ==> (k - d) % 32 == k;
    }
    Same32(BRot(n, d), n % Pow2(32));
  }

  /** A left rotation by 1 moves every bit up, a right rotation down. */
  lemma RotateBits(n: int, d: int, k: nat)
    requires MinInteger < d <= MaxInteger
    ensures Bit(LRotate(n, d), k) <==> k < 32 && Bit(n, (k - d) % 32)
    ensures Bit(RRotate(n, d), k) <==> k < 32 && Bit(n, (k + d) % 32)
    ensures LRotate(n, d) < Pow2(32) && RRotate(n, d) < Pow2(32)
  {
    hide BRot, Bit, Pow2;
    BitRot(n, d, k);
    BitRot(n, -d, k);
  }

  lemma RotateBack(n: int, d: int)
    requires MinInteger < d <= MaxInteger
    ensures RRotate(LRotate(n, d), d) == n % Pow2(32) == LRotate(RRotate(n, d), d)
  {
    hide BRot, Pow2;
    RotationsAdd(n, d, -d);
    RotationsAdd(n, -d, d);
    FullTurn(n, 0);
  }

  /** Only the low 32 bits of the number and the amount modulo 32 matter... */
  lemma RotationDependsOn(n: int, n': int, d: int, d': int)
    requires n % Pow2(32) == n' % Pow2(32) && d % 32 == d' % 32
    ensures BRot(n, d) == BRot(n', d')
  {
    hide BRot, Bit, Pow2;
    BitRot(n, d, 0);
    BitRot(n', d', 0);
    forall k: nat | k < 32 ensures Bit(BRot(n, d), k) <==> Bit(BRot(n', d'), k) {
      BitRot(n, d, k);
      BitRot(n', d', k);
      Around(k, d);
      Around(k, d');
      BitMod(n, 32, (k - d) % 32);
      BitMod(n', 32, (k - d') % 32);
    }
    Same32(BRot(n, d), BRot(n', d'));
  }

  /** ... and amounts that differ modulo 32 are told apart by the number 1. */
  lemma RotationTells(d: int, d': int)
    requires BRot(1, d) == BRot(1, d')
    ensures d % 32 == d' % 32
  {
    hide BRot, Bit, Pow2;
    var k := d % 32;
    BitRot(1, d, k);
    BitRot(1, d', k);
    Around(k, d);
    Around(k, d');
    BitOfOne((k - d) % 32);
    BitOfOne((k - d') % 32);
  }

  // ---- fields ----

  datatype FieldError = NegativeField | NonPositiveWidth | NonExistentBits

  datatype Result<T> = Ok(value: T) | Err(error: FieldError)

  datatype Field = Field(start: nat, width: nat)

  predicate InWord(a: Field) {
    0 < a.width && a.start + a.width <= NBITS
  }

  predicate Covers(a: Field, k: int) {
    a.start <= k < a.start + a.width
  }

  function Width(w: Option<int>): int {
    if w.Some? then w.value else 1
  }

  function FieldArgs(f: int, w: Option<int>): (r: Result<Field>)
    requires f + Width(w) <= MaxInteger
    ensures r == Err(NegativeField) <==> f < 0
    ensures r == Err(NonPositiveWidth) <==> 0 <= f && Width(w) <= 0
    ensures r == Err(NonExistentBits) <==> 0 <= f && 0 < Width(w) && NBITS < f + Width(w)
    ensures r.Ok? <==> 0 <= f && 0 < Width(w) && f + Width(w) <= NBITS
    ensures r.Ok? ==> InWord(r.value) && r.value == Field(f, Width(w))
  {
    if f < 0 then Err(NegativeField)
    else if Width(w) <= 0 then Err(NonPositiveWidth)
    else if f + Width(w) > NBITS then Err(NonExistentBits)
    else Ok(Field(f, Width(w)))
  }

  function BExtract(n: int, f: int, w: Option<int>): (r: Result<nat>)
    requires f + Width(w) <= MaxInteger
    ensures r == Err(NegativeField) <==> f < 0
    ensures r == Err(NonPositiveWidth) <==> 0 <= f && Width(w) <= 0
    ensures r == Err(NonExistentBits) <==> 0 <= f && 0 < Width(w) && NBITS < f + Width(w)
    ensures r.Ok? <==> 0 <= f && 0 < Width(w) && f + Width(w) <= NBITS
    ensures r.Ok? ==> r.value == n / Pow2(f) % Pow2(Width(w)) < Pow2(32)
  {
    match FieldArgs(f, w)
    case Ok(a) => GetIsField(n, a); Ok(Get(n, a))
    case Err(e) => Err(e)
  }

  function BReplace(n: int, v: int, f: int, w: Option<int>): (r: Result<nat>)
    requires f + Width(w) <= MaxInteger
    ensures r == Err(NegativeField) <==> f < 0
    ensures r == Err(NonPositiveWidth) <==> 0 <= f && Width(w) <= 0
    ensures r == Err(NonExistentBits) <==> 0 <= f && 0 < Width(w) && NBITS < f + Width(w)
    ensures r.Ok? <==> 0 <= f && 0 < Width(w) && f + Width(w) <= NBITS
    ensures r.Ok? ==> r.value < Pow2(32)
    ensures r.Ok? ==> forall k: nat :: Bit(r.value, k) <==>
              if f <= k < f + Width(w) then Bit(v, k - f) else k < 32 && Bit(n, k)
  {
    match FieldArgs(f, w)
    case Ok(a) => PutBelow(n, v, a); BitsPut(n, v, a); Ok(Put(n, v, a))
    case Err(e) => Err(e)
  }

  /** A field is there or not, whatever the numbers are. */
  predicate IsField(f: int, w: Option<int>) {
    0 <= f && match w case None => f < 32 case Some(i) => 0 < i && f + i <= 32
  }

  lemma FieldIsThere(f: int, w: Option<int>)
    requires IsField(f, w)
    ensures f + Width(w) <= MaxInteger && FieldArgs(f, w) == Ok(Field(f, Width(w)))
    ensures w.Some? ==> Width(w) == w.value
    ensures w == None ==> Width(w) == 1
  {}

  lemma FieldExactly(n: int, v: int, f: int, w: Option<int>)
    requires f + Width(w) <= MaxInteger
    ensures BExtract(n, f, w).Ok? <==> IsField(f, w)
    ensures BReplace(n, v, f, w).Ok? <==> IsField(f, w)
  {}

  // ---- the laws of extract and replace ----

  /** Without a width the field is a single bit. */
  lemma OneBit(n: int, v: int, f: int, k: nat)
    requires 0 <= f < 32
    ensures f + Width(None) <= MaxInteger
    ensures BExtract(n, f, None) == Ok(if Bit(n, f) then 1 else 0)
    ensures BReplace(n, v, f, None).Ok?
    ensures Bit(BReplace(n, v, f, None).value, k) <==> if k == f then v % 2 == 1 else k < 32 && Bit(n, k)
  {
    BitIsDigit(n, f);
    Pow2Twice(0);
  }

  lemma ExtractReplaced(n: int, v: int, f: int, w: Option<int>)
    requires IsField(f, w)
    ensures f + Width(w) <= MaxInteger && BReplace(n, v, f, w).Ok?
    ensures BExtract(BReplace(n, v, f, w).value, f, w) ==
            Ok(v % Pow2(match w case None => 1 case Some(i) => i))
  {
    hide Get, Put, Pow2;
    FieldIsThere(f, w);
    GetPut(n, v, Field(f, Width(w)));
  }

  /** A field apart from the replaced one is not changed. */
  lemma ExtractApart(n: int, v: int, f: int, w: Option<int>, g: int, u: Option<int>)
    requires IsField(f, w) && IsField(g, u)
    requires f + Width(w) <= g || g + Width(u) <= f
    ensures f + Width(w) <= MaxInteger && g + Width(u) <= MaxInteger && BReplace(n, v, f, w).Ok?
    ensures BExtract(BReplace(n, v, f, w).value, g, u) == BExtract(n, g, u)
  {
    hide Get, Put, Pow2;
    FieldIsThere(f, w);
    FieldIsThere(g, u);
    GetPutApart(n, v, Field(f, Width(w)), Field(g, Width(u)));
  }

  lemma ReplaceOwn(n: int, f: int, w: Option<int>)
    requires IsField(f, w)
    ensures f + Width(w) <= MaxInteger && BExtract(n, f, w).Ok?
    ensures BReplace(n, BExtract(n, f, w).value, f, w) == Ok(n % Pow2(32))
  {
    hide Get, Put, Pow2;
    FieldIsThere(f, w);
    PutGet(n, Field(f, Width(w)));
  }

  lemma ReplaceTwice(n: int, v: int, v': int, f: int, w: Option<int>)
    requires IsField(f, w)
    ensures f + Width(w) <= MaxInteger && BReplace(n, v, f, w).Ok?
    ensures BReplace(BReplace(n, v, f, w).value, v', f, w) == BReplace(n, v', f, w)
  {
    hide Get, Put, Pow2;
    FieldIsThere(f, w);
    PutPut(n, v, v', Field(f, Width(w)));
  }

  lemma ReplacesCommute(n: int, v: int, v': int, f: int, w: Option<int>, g: int, u: Option<int>)
    requires IsField(f, w) && IsField(g, u)
    requires f + Width(w) <= g || g + Width(u) <= f
    ensures f + Width(w) <= MaxInteger && g + Width(u) <= MaxInteger
    ensures BReplace(n, v, f, w).Ok? && BReplace(n, v', g, u).Ok?
    ensures BReplace(BReplace(n, v, f, w).value, v', g, u) == BReplace(BReplace(n, v', g, u).value, v, f, w)
  {
    hide Get, Put, Pow2;
    FieldIsThere(f, w);
    FieldIsThere(g, u);
    PutsCommute(n, v, v', Field(f, Width(w)), Field(g, Width(u)));
  }

  // ---- why ----

  function Get(n: int, a: Field): nat
    requires InWord(a)
  {
    And(Shr(Trim(Unsigned(n)), a.start), Mask(a.width))
  }

  function Put(n: int, v: int, a: Field): nat
    requires InWord(a)
  {
    var m := Mask(a.width);
    Or(And(Trim(Unsigned(n)), Not(Shl(m, a.start))), Shl(And(Trim(Unsigned(v)), m), a.start))
  }

  lemma BitGet(n: int, a: Field, k: nat)
    requires InWord(a)
    ensures Word(Get(n, a))
    ensures Bit(Get(n, a), k) <==> k < a.width && Bit(n, a.start + k)
  {
    hide Bit, Pow2, Trim, Unsigned, Mask;
    var r := Trim(Unsigned(n));
    BitAnd(Shr(r, a.start), Mask(a.width), k);
    BitMask(a.width, k);
    AndBelow(Shr(r, a.start), Mask(a.width));
    BitShiftRight(r, a.start, k);
    BitTrim(Unsigned(n), a.start + k);
    BitUnsigned(n, a.start + k);
  }

  lemma BitPut(n: int, v: int, a: Field, k: nat)
    requires InWord(a)
    ensures Word(Put(n, v, a))
    ensures Bit(Put(n, v, a), k) <==>
            if Covers(a, k) then Bit(v, k - a.start) else k < 32 && Bit(n, k)
  {
    hide Bit, Pow2, Trim, Unsigned, Mask, Not, Shl;
    var r, m := Trim(Unsigned(n)), Mask(a.width);
    var u := And(Trim(Unsigned(v)), m);
    BitOr(And(r, Not(Shl(m, a.start))), Shl(u, a.start), k);
    BitAnd(r, Not(Shl(m, a.start)), k);
    BitTrim(Unsigned(n), k);
    BitUnsigned(n, k);
    BitNot(Shl(m, a.start), k);
    BitShl(m, a.start, k);
    BitShl(u, a.start, k);
    AndBelow(r, Not(Shl(m, a.start)));
    OrBelow(And(r, Not(Shl(m, a.start))), Shl(u, a.start), 64);
    if k >= a.start {
      BitMask(a.width, k - a.start);
      BitAnd(Trim(Unsigned(v)), m, k - a.start);
      BitTrim(Unsigned(v), k - a.start);
      BitUnsigned(v, k - a.start);
    }
  }

  lemma BitsPut(n: int, v: int, a: Field)
    requires InWord(a)
    ensures forall k: nat :: Bit(Put(n, v, a), k) <==>
              if a.start <= k < a.start + a.width then Bit(v, k - a.start) else k < 32 && Bit(n, k)
  {
    hide Bit, Pow2, Put;
    forall k: nat ensures Bit(Put(n, v, a), k) <==>
      if a.start <= k < a.start + a.width then Bit(v, k - a.start) else k < 32 && Bit(n, k)
    {
      BitPut(n, v, a, k);
    }
  }

  lemma GetIsField(n: int, a: Field)
    requires InWord(a)
    ensures Get(n, a) == n / Pow2(a.start) % Pow2(a.width) < Pow2(32)
  {
    hide Bit, Get, Pow2;
    var y := n / Pow2(a.start) % Pow2(a.width);
    Pow2Less(a.width, 32);
    Pow2Less(a.width, 64);
    BitGet(n, a, 0);
    forall k: nat ensures Bit(Get(n, a), k) <==> Bit(y, k) {
      BitGet(n, a, k);
      BitMod(n / Pow2(a.start), a.width, k);
      BitShiftRight(n, a.start, k);
    }
    SameBits(Get(n, a), y, 64);
  }

  lemma PutBelow(n: int, v: int, a: Field)
    requires InWord(a)
    ensures Put(n, v, a) < Pow2(32)
  {
    hide Bit, Put, Pow2;
    var x := Put(n, v, a);
    BitPut(n, v, a, 0);
    Pow2Less(32, 64);
    forall k: nat ensures Bit(x, k) <==> Bit(x % Pow2(32), k) {
      BitPut(n, v, a, k);
      BitMod(x, 32, k);
    }
    SameBits(x, x % Pow2(32), 64);
  }

  lemma GetPut(n: int, v: int, a: Field)
    requires InWord(a)
    ensures Get(Put(n, v, a), a) == v % Pow2(a.width)
  {
    hide Bit, Get, Put, Pow2;
    var x := Get(Put(n, v, a), a);
    Pow2Less(a.width, 64);
    BitGet(Put(n, v, a), a, 0);
    forall k: nat ensures Bit(x, k) <==> Bit(v % Pow2(a.width), k) {
      BitGet(Put(n, v, a), a, k);
      BitPut(n, v, a, a.start + k);
      BitMod(v, a.width, k);
    }
    SameBits(x, v % Pow2(a.width), 64);
  }

  predicate Disjoint(a: Field, b: Field) {
    a.start + a.width <= b.start || b.start + b.width <= a.start
  }

  lemma GetPutApart(n: int, v: int, a: Field, b: Field)
    requires InWord(a) && InWord(b) && Disjoint(a, b)
    ensures Get(Put(n, v, a), b) == Get(n, b)
  {
    hide Bit, Get, Put, Pow2;
    BitGet(Put(n, v, a), b, 0);
    BitGet(n, b, 0);
    forall k: nat ensures Bit(Get(Put(n, v, a), b), k) <==> Bit(Get(n, b), k) {
      BitGet(Put(n, v, a), b, k);
      BitGet(n, b, k);
      BitPut(n, v, a, b.start + k);
    }
    SameBits(Get(Put(n, v, a), b), Get(n, b), 64);
  }

  lemma PutGet(n: int, a: Field)
    requires InWord(a)
    ensures Put(n, Get(n, a), a) == n % Pow2(32)
  {
    hide Bit, Get, Put, Pow2;
    PutBelow(n, Get(n, a), a);
    forall k: nat ensures Bit(Put(n, Get(n, a), a), k) <==> Bit(n % Pow2(32), k) {
      BitPut(n, Get(n, a), a, k);
      BitMod(n, 32, k);
      if Covers(a, k) {
        BitGet(n, a, k - a.start);
      }
    }
    Same32(Put(n, Get(n, a), a), n % Pow2(32));
  }

  lemma PutPut(n: int, v: int, v': int, a: Field)
    requires InWord(a)
    ensures Put(Put(n, v, a), v', a) == Put(n, v', a)
  {
    hide Bit, Put, Pow2;
    var x, y := Put(Put(n, v, a), v', a), Put(n, v', a);
    PutBelow(Put(n, v, a), v', a);
    PutBelow(n, v', a);
    forall k: nat ensures Bit(x, k) <==> Bit(y, k) {
      BitPut(Put(n, v, a), v', a, k);
      BitPut(n, v, a, k);
      BitPut(n, v', a, k);
    }
    Same32(x, y);
  }

  lemma PutsCommute(n: int, v: int, v': int, a: Field, b: Field)
    requires InWord(a) && InWord(b) && Disjoint(a, b)
    ensures Put(Put(n, v, a), v', b) == Put(Put(n, v', b), v, a)
  {
    hide Bit, Put, Pow2;
    var x, y := Put(Put(n, v, a), v', b), Put(Put(n, v', b), v, a);
    PutBelow(Put(n, v, a), v', b);
    PutBelow(Put(n, v', b), v, a);
    forall k: nat ensures Bit(x, k) <==> Bit(y, k) {
      BitPut(Put(n, v, a), v', b, k);
      BitPut(n, v, a, k);
      BitPut(Put(n, v', b), v, a, k);
      BitPut(n, v', b, k);
    }
    Same32(x, y);
  }
}
