/** Numbers kept in memory low byte first. */
module ByteOrder {
  import opened Bits

  type Byte = b: int | 0 <= b < 256

  // ---- the two directions ----

  function Value(s: seq<Byte>): nat {
    if s == [] then 0 else s[0] + 256 * Value(s[1..])
  }

  /** The low n bytes; a negative number counts as its two's complement. */
  function Bytes(v: int, n: nat): (s: seq<Byte>)
    ensures |s| == n
    decreases n
  {
    if n == 0 then [] else [v % 256] + Bytes(v / 256, n - 1)
  }

  lemma {:induction false} BytesOfValue(s: seq<Byte>)
    ensures Bytes(Value(s), |s|) == s
  {
    if s != [] {
      BytesOfValue(s[1..]);
      DivUnique(Value(s), 256, Value(s[1..]), s[0]);
    }
  }

  lemma LowPart(v: int, p: int)
    requires p > 0
    ensures v % 256 + 256 * (v / 256 % p) == v % (256 * p)
  {
    var q := v / 256 / p;
    var r := v % 256 + 256 * (v / 256 % p);
    assert v / 256 == q * p + v / 256 % p;
    assert 256 * (q * p) == q * (256 * p);
    DivUnique(v, 256 * p, q, r);
  }

  lemma OneByteMore(v: int, n: nat)
    requires n > 0
    ensures v % Pow2(8 * n) == v % 256 + 256 * (v / 256 % Pow2(8 * (n - 1)))
    ensures v / Pow2(8 * n) == v / 256 / Pow2(8 * (n - 1))
  {
    Pow2Add(8, 8 * (n - 1));
    assert Pow2(8) == 256;
    LowPart(v, Pow2(8 * (n - 1)));
    DivDiv(v, 256, Pow2(8 * (n - 1)));
  }

  lemma {:induction false} ValueOfBytes(v: int, n: nat)
    ensures Value(Bytes(v, n)) == v % Pow2(8 * n)
    decreases n
  {
    if n > 0 {
      ValueOfBytes(v / 256, n - 1);
      OneByteMore(v, n);
    }
  }

  /** Only the low bytes are stored. */
  lemma {:induction false} BytesOfLow(v: int, n: nat, m: nat)
    requires n <= m
    ensures Bytes(v % Pow2(8 * m), n) == Bytes(v, n)
    decreases n
  {
    hide Pow2;
    if n > 0 {
      OneByteMore(v, m);
      DivUnique(v % Pow2(8 * m), 256, v / 256 % Pow2(8 * (m - 1)), v % 256);
      BytesOfLow(v / 256, n - 1, m - 1);
    }
  }

  lemma {:induction false} BytesInTwoParts(v: int, n: nat, m: nat)
    ensures Bytes(v, n + m) == Bytes(v, n) + Bytes(v / Pow2(8 * n), m)
    decreases n
  {
    hide Pow2;
    if n > 0 {
      OneByteMore(v, n);
      BytesInTwoParts(v / 256, n - 1, m);
    } else {
      PowZero();
    }
  }

  lemma PowZero()
    ensures Pow2(0) == 1
  {}

  // ---- loads, byte by byte ----

  function Uint2(a: seq<Byte>): nat
    requires |a| >= 2
  {
    a[0] as int + (a[1] as int) * 0x100
  }

  function Uint3(a: seq<Byte>): nat
    requires |a| >= 3
  {
    a[0] as int + (a[1] as int) * 0x100 + (a[2] as int) * 0x1_0000
  }

  function Uint4(a: seq<Byte>): nat
    requires |a| >= 4
  {
    a[0] as int + (a[1] as int) * 0x100 + (a[2] as int) * 0x1_0000 + (a[3] as int) * 0x100_0000
  }

  function Uint5(a: seq<Byte>): nat
    requires |a| >= 5
  {
    Uint4(a) + (a[4] as int) * 0x1_0000_0000
  }

  function Uint6(a: seq<Byte>): nat
    requires |a| >= 6
  {
    Uint4(a) + (a[4] as int) * 0x1_0000_0000 + (a[5] as int) * 0x100_0000_0000
  }

  function Uint8(a: seq<Byte>): nat
    requires |a| >= 8
  {
    Uint4(a) + Uint4(a[4..]) * 0x1_0000_0000
  }

  /** Sign extension by hand: a fourth byte of ones is put above a set top bit. */
  function Sint3(a: seq<Byte>): int
    requires |a| >= 3
  {
    var low := Or(Or((a[2] as int) * 0x1_0000, (a[1] as int) * 0x100), a[0]);
    var high := Or(Or(Or(0xFF00_0000, (a[2] as int) * 0x1_0000), (a[1] as int) * 0x100), a[0]);
    Signed(if And(a[2], 128) != 0 then high else low, 32)
  }

  lemma {:induction false} TopByte(s: seq<Byte>, n: nat)
    requires n < |s|
    ensures Value(s[..n + 1]) == Value(s[..n]) + Pow2(8 * n) * s[n]
  {
    if n > 0 {
      var t := s[1..];
      TopByte(t, n - 1);
      assert s[..n + 1][1..] == t[..n] && s[..n][1..] == t[..n - 1];
      Pow2Add(8, 8 * (n - 1));
      assert Pow2(8) == 256;
      Associate(256, Pow2(8 * (n - 1)), s[n]);
    }
  }

  lemma Low3(a: seq<Byte>)
    requires |a| >= 3
    ensures Value(a[..2]) == Uint2(a) && Value(a[..3]) == Uint3(a)
  {
    hide Value, Pow2;
    EmptyValue();
    PowZero();
    Powers();
    TopByte(a, 0);
    TopByte(a, 1);
    TopByte(a, 2);
  }

  lemma Low6(a: seq<Byte>)
    requires |a| >= 6
    ensures Value(a[..4]) == Uint4(a) && Value(a[..5]) == Uint5(a) && Value(a[..6]) == Uint6(a)
  {
    hide Value, Pow2;
    Powers();
    Low3(a);
    TopByte(a, 3);
    TopByte(a, 4);
    TopByte(a, 5);
  }

  lemma Low8(a: seq<Byte>)
    requires |a| >= 8
    ensures Value(a[..8]) == Uint8(a)
  {
    hide Value, Pow2;
    Powers();
    Low6(a);
    TopByte(a, 6);
    TopByte(a, 7);
  }

  /** Loads look at their own bytes only. */
  lemma Padded(a: seq<Byte>)
    ensures forall n :: 0 <= n <= |a| ==> (a + [0, 0, 0, 0, 0, 0])[..n] == a[..n]
  {}

  /** The forms that add up bytes give what a word access gives on a machine that keeps its
      words low byte first. */
  lemma LoadsAreValues(a: seq<Byte>)
    ensures |a| >= 2 ==> Uint2(a) == Value(a[..2])
    ensures |a| >= 3 ==> Uint3(a) == Value(a[..3])
    ensures |a| >= 4 ==> Uint4(a) == Value(a[..4])
    ensures |a| >= 5 ==> Uint5(a) == Value(a[..5])
    ensures |a| >= 6 ==> Uint6(a) == Value(a[..6])
    ensures |a| >= 8 ==> Uint8(a) == Value(a[..8])
  {
    hide Value;
    Padded(a);
    Low6(a + [0, 0, 0, 0, 0, 0]);
    Low3(a + [0, 0, 0, 0, 0, 0]);
    if |a| >= 8 {
      Low8(a);
    }
  }

  lemma EmptyValue()
    ensures Value([]) == 0
  {}

  lemma Powers()
    ensures Pow2(8) == 0x100 && Pow2(16) == 0x1_0000 && Pow2(24) == 0x100_0000
    ensures Pow2(7) == 0x80 && Pow2(23) == 0x80_0000 && Pow2(31) == 0x8000_0000
    ensures Pow2(32) == 0x1_0000_0000 && Pow2(40) == 0x100_0000_0000
    ensures Pow2(48) == 0x1_0000_0000_0000 && Pow2(56) == 0x100_0000_0000_0000
  {}

  /** `uint3korr` on x86 takes the low part of a word of four bytes. */
  function Uint3Word(a: seq<Byte>): nat
    requires |a| >= 4
  {
    And(Value(a[..4]), 0xFF_FFFF)
  }

  lemma Uint3WordAgrees(a: seq<Byte>)
    requires |a| >= 4
    ensures Uint3Word(a) == Uint3(a)
  {
    hide Value, And;
    Powers();
    AndOnes(Value(a[..4]), 24);
    LoadsAreValues(a);
    DivUnique(Uint4(a), Pow2(24), a[3], Uint3(a));
  }

  lemma OrBytes(b3: int, b2: int, b1: int, b0: int)
    requires 0 <= b3 < 256 && 0 <= b2 < 256 && 0 <= b1 < 256 && 0 <= b0 < 256
    ensures Or(Or(b2 * 0x1_0000, b1 * 0x100), b0) == b2 * 0x1_0000 + b1 * 0x100 + b0
    ensures Or(Or(Or(b3 * 0x100_0000, b2 * 0x1_0000), b1 * 0x100), b0) ==
            b3 * 0x100_0000 + b2 * 0x1_0000 + b1 * 0x100 + b0
  {
    hide Or, Pow2;
    Powers();
    OrDisjoint(b2, b1 * 0x100, 16);
    OrDisjoint(b2 * 0x100 + b1, b0, 8);
    OrDisjoint(b3, b2 * 0x1_0000, 24);
    OrDisjoint(b3 * 0x100 + b2, b1 * 0x100, 16);
    OrDisjoint(b3 * 0x1_0000 + b2 * 0x100 + b1, b0, 8);
  }

  lemma TopBitSet(b: Byte)
    ensures And(b, 128) != 0 <==> b >= 128
  {
    hide And, Bit;
    assert Pow2(7) == 128;
    AndPower(b, 7);
    BitIsDigit(b, 7);
  }

  lemma Sint3IsSigned(a: seq<Byte>)
    requires |a| >= 3
    ensures Sint3(a) == Signed(Uint3(a), 24)
  {
    hide Or, And, Pow2, Signed;
    Powers();
    OrBytes(255, a[2], a[1], a[0]);
    TopBitSet(a[2]);
    SignedInRange(Uint3(a), 32);
    SignedInRange(Uint3(a), 24);
    SignedInRange(0xFF00_0000 + Uint3(a), 32);
  }

  // ---- stores ----

  function Stored(t: seq<Byte>, o: nat, v: int, n: nat): seq<Byte>
    requires o + n <= |t|
  {
    t[..o] + Bytes(v, n) + t[o + n..]
  }

  /** Each byte of a number by a shift and a cast. */
  lemma {:induction false} ByteAt(v: int, n: nat, i: nat)
    requires i < n
    ensures Bytes(v, n)[i] == v / Pow2(8 * i) % 256
    decreases i
  {
    hide Pow2;
    if i > 0 {
      ByteAt(v / 256, n - 1, i - 1);
      OneByteMore(v, i);
    } else {
      PowZero();
    }
  }

  lemma IsStored(t: seq<Byte>, t': seq<Byte>, o: nat, v: int, n: nat)
    requires |t| == |t'| && o + n <= |t| && n <= 6
    requires t'[..o] == t[..o] && t'[o + n..] == t[o + n..]
    requires n > 0 ==> t'[o] == v % 256
    requires n > 1 ==> t'[o + 1] == v / 0x100 % 256
    requires n > 2 ==> t'[o + 2] == v / 0x1_0000 % 256
    requires n > 3 ==> t'[o + 3] == v / 0x100_0000 % 256
    requires n > 4 ==> t'[o + 4] == v / 0x1_0000_0000 % 256
    requires n > 5 ==> t'[o + 5] == v / 0x100_0000_0000 % 256
    ensures t' == Stored(t, o, v, n)
  {
    hide Pow2, Bytes;
    Powers();
    PowZero();
    forall i: nat | i < n ensures t'[o + i] == Bytes(v, n)[i] {
      ByteAt(v, n, i);
    }
    assert t' == t'[..o] + t'[o..o + n] + t'[o + n..];
  }

  method Int2Store(t: array<Byte>, o: nat, v: int)
    requires o + 2 <= t.Length
    modifies t
    ensures t[..] == Stored(old(t[..]), o, v, 2)
  {
    hide Pow2, Bytes;
    var u := v % 0x1_0000_0000;
    t[o] := u % 256;
    t[o + 1] := u / 0x100 % 256;
    Powers();
    BytesOfLow(v, 2, 4);
    IsStored(old(t[..]), t[..], o, u, 2);
  }

  method Int3Store(t: array<Byte>, o: nat, v: int)
    requires o + 3 <= t.Length
    modifies t
    ensures t[..] == Stored(old(t[..]), o, v, 3)
  {
    hide Pow2, Bytes;
    t[o] := v % 256;
    t[o + 1] := v / 0x100 % 256;
    t[o + 2] := v / 0x1_0000 % 256;
    IsStored(old(t[..]), t[..], o, v, 3);
  }

  method Int4Store(t: array<Byte>, o: nat, v: int)
    requires o + 4 <= t.Length
    modifies t
    ensures t[..] == Stored(old(t[..]), o, v, 4)
  {
    hide Pow2, Bytes;
    t[o] := v % 256;
    t[o + 1] := v / 0x100 % 256;
    t[o + 2] := v / 0x1_0000 % 256;
    t[o + 3] := v / 0x100_0000 % 256;
    IsStored(old(t[..]), t[..], o, v, 4);
  }

  method Int5Store(t: array<Byte>, o: nat, v: int)
    requires o + 5 <= t.Length
    modifies t
    ensures t[..] == Stored(old(t[..]), o, v, 5)
  {
    hide Pow2, Bytes;
    t[o] := v % 256;
    t[o + 1] := v / 0x100 % 256;
    t[o + 2] := v / 0x1_0000 % 256;
    t[o + 3] := v / 0x100_0000 % 256;
    t[o + 4] := v / 0x1_0000_0000 % 256;
    IsStored(old(t[..]), t[..], o, v, 5);
  }

  method Int6Store(t: array<Byte>, o: nat, v: int)
    requires o + 6 <= t.Length
    modifies t
    ensures t[..] == Stored(old(t[..]), o, v, 6)
  {
    hide Pow2, Bytes;
    t[o] := v % 256;
    t[o + 1] := v / 0x100 % 256;
    t[o + 2] := v / 0x1_0000 % 256;
    t[o + 3] := v / 0x100_0000 % 256;
    t[o + 4] := v / 0x1_0000_0000 % 256;
    t[o + 5] := v / 0x100_0000_0000 % 256;
    IsStored(old(t[..]), t[..], o, v, 6);
  }

  method Int8Store(t: array<Byte>, o: nat, v: int)
    requires o + 8 <= t.Length
    modifies t
    ensures t[..] == Stored(old(t[..]), o, v, 8)
  {
    hide Pow2, Bytes;
    Int4Store(t, o, v % 0x1_0000_0000);
    Int4Store(t, o + 4, v / 0x1_0000_0000 % 0x1_0000_0000);
    Powers();
    BytesOfLow(v, 4, 4);
    BytesOfLow(v / 0x1_0000_0000, 4, 4);
    BytesInTwoParts(v, 4, 4);
  }

  // ---- loads and stores together ----

  /** What is stored is read back modulo the size of the field... */
  lemma LoadStored(t: seq<Byte>, o: nat, v: int, n: nat)
    requires o + n <= |t|
    ensures Value(Stored(t, o, v, n)[o..o + n]) == v % Pow2(8 * n)
  {
    ValueOfBytes(v, n);
    assert Stored(t, o, v, n)[o..o + n] == Bytes(v, n);
  }

  /** ... storing what is read changes nothing... */
  lemma StoreLoaded(t: seq<Byte>, o: nat, n: nat)
    requires o + n <= |t|
    ensures Stored(t, o, Value(t[o..o + n]), n) == t
  {
    BytesOfValue(t[o..o + n]);
  }

  /** ... and a signed number of three bytes comes back if and only if it fits. */
  lemma Sint3Stored(t: seq<Byte>, o: nat, v: int)
    requires o + 3 <= |t|
    ensures Sint3(Stored(t, o, v, 3)[o..]) == v <==> -0x80_0000 <= v < 0x80_0000
  {
    hide Pow2, Bytes, Value, Sint3;
    var a := Stored(t, o, v, 3)[o..];
    Powers();
    Sint3IsSigned(a);
    LoadsAreValues(a);
    LoadStored(t, o, v, 3);
    assert a[..3] == Stored(t, o, v, 3)[o..o + 3];
    SignedIsItself(v, 24);
  }
}
