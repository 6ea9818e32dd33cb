/** The stream cipher: each byte is combined with a key byte and with the ciphertext byte
    before it.  Sending and receiving have cursors of their own, eight bits wide. */
module Crypt {
  import opened Bits
  import opened ByteOrder

  type Key = k: seq<Byte> | |k| > 0 witness [0]

  /** `i` is the place in the key, `j` the last ciphertext byte. */
  datatype Cursor = Cursor(i: Byte, j: Byte)

  // ---- one byte ----

  function XorByte(a: Byte, b: Byte): Byte {
    XorBelow(a, b, 8);
    assert Pow2(8) == 256;
    Xor(a, b)
  }

  /** It differs from either byte in the bits of the other. */
  lemma XorByteBits(a: Byte, b: Byte, k: nat)
    ensures Bit(XorByte(a, b), k) <==> Bit(a, k) != Bit(b, k)
  {
    BitXor(a, b, k);
  }

  /** The cast to an unsigned byte. */
  function Wrap(x: int): Byte {
    x % 256
  }

  function Within(i: Byte, key: Key): (k: Byte)
    ensures k < |key|
  {
    i % |key|
  }

  function NextPlace(i: Byte, key: Key): Byte {
    Wrap(Within(i, key) + 1)
  }

  function Enc(c: Cursor, key: Key, p: Byte): Byte {
    Wrap(XorByte(p, key[Within(c.i, key)]) + c.j as int)
  }

  function Dec(c: Cursor, key: Key, x: Byte): Byte {
    XorByte(Wrap(x as int - c.j as int), key[Within(c.i, key)])
  }

  // ---- a stream, each byte under the key in force when it passed ----

  function Place(i: Byte, keys: seq<Key>): Byte {
    if keys == [] then i else NextPlace(Place(i, keys[..|keys| - 1]), keys[|keys| - 1])
  }

  /** The cursor after ciphertext x. */
  function After(c: Cursor, x: seq<Byte>, keys: seq<Key>): Cursor {
    Cursor(Place(c.i, keys), if x == [] then c.j else x[|x| - 1])
  }

  function Encrypted(c: Cursor, t: seq<Byte>, keys: seq<Key>): (x: seq<Byte>)
    requires |keys| == |t|
    ensures |x| == |t|
  {
    if t == [] then []
    else
      var n := |t| - 1;
      var x := Encrypted(c, t[..n], keys[..n]);
      x + [Enc(After(c, x, keys[..n]), keys[n], t[n])]
  }

  function Decrypted(c: Cursor, x: seq<Byte>, keys: seq<Key>): (t: seq<Byte>)
    requires |keys| == |x|
    ensures |t| == |x|
  {
    if x == [] then []
    else
      var n := |x| - 1;
      Decrypted(c, x[..n], keys[..n]) + [Dec(After(c, x[..n], keys[..n]), keys[n], x[n])]
  }

  /** The key byte that the n-th byte of a stream meets. */
  function KeyByteAt(i: Byte, keys: seq<Key>, n: nat): Byte
    requires n < |keys|
  {
    keys[n][Within(Place(i, keys[..n]), keys[n])]
  }

  function Repeat(key: Key, n: nat): (keys: seq<Key>)
    ensures |keys| == n
  {
    seq(n, _ => key)
  }

  // ---- what the streams are, byte by byte ----

  lemma {:induction false} EncryptedAt(c: Cursor, t: seq<Byte>, keys: seq<Key>, n: nat)
    requires |keys| == |t| && n < |t|
    ensures var x := Encrypted(c, t, keys);
            && x[..n] == Encrypted(c, t[..n], keys[..n])
            && x[n] == Enc(After(c, x[..n], keys[..n]), keys[n], t[n])
  {
    var m := |t| - 1;
    if n < m {
      EncryptedAt(c, t[..m], keys[..m], n);
      assert t[..m][..n] == t[..n] && keys[..m][..n] == keys[..n];
    }
  }

  lemma {:induction false} DecryptedAt(c: Cursor, x: seq<Byte>, keys: seq<Key>, n: nat)
    requires |keys| == |x| && n < |x|
    ensures Decrypted(c, x, keys)[n] == Dec(After(c, x[..n], keys[..n]), keys[n], x[n])
  {
    var m := |x| - 1;
    if n < m {
      DecryptedAt(c, x[..m], keys[..m], n);
      assert x[..m][..n] == x[..n] && keys[..m][..n] == keys[..n];
    }
  }

  /** One byte, from any cursor and under any key: the cursor's place counts modulo the length of
      the key it now meets, and wraps as a byte. */
  lemma OneByteSent(c: Cursor, t: Byte, key: Key)
    ensures var x := (Xor(t, key[c.i % |key|]) + c.j) % 256;
            Encrypted(c, [t], [key]) == [x] && After(c, [x], [key]) == Cursor((c.i % |key| + 1) % 256, x)
  {
    var x := Wrap(Xor(t, key[c.i % |key|]) + c.j);
    assert [t][..0] == [] && [key][..0] == [];
    assert Encrypted(c, [], []) == [] && After(c, [], []) == c;
    assert Place(c.i, [key]) == NextPlace(Place(c.i, []), key);
  }

  lemma OneByteReceived(c: Cursor, x: Byte, key: Key)
    ensures (x as int - c.j as int) % 256 >= 0
    ensures Decrypted(c, [x], [key]) == [Xor((x as int - c.j as int) % 256, key[c.i % |key|])]
  {
    assert [x][..0] == [] && [key][..0] == [];
    assert Decrypted(c, [], []) == [] && After(c, [], []) == c;
  }

  // ---- chunks ----

  lemma {:induction false} PlaceInChunks(i: Byte, ks: seq<Key>, ls: seq<Key>)
    ensures Place(i, ks + ls) == Place(Place(i, ks), ls)
  {
    if ls != [] {
      var n := |ls| - 1;
      PlaceInChunks(i, ks, ls[..n]);
      assert (ks + ls)[..|ks + ls| - 1] == ks + ls[..n];
    } else {
      assert ks + ls == ks;
    }
  }

  lemma AfterInChunks(c: Cursor, x: seq<Byte>, y: seq<Byte>, ks: seq<Key>, ls: seq<Key>)
    ensures After(c, x + y, ks + ls) == After(After(c, x, ks), y, ls)
  {
    PlaceInChunks(c.i, ks, ls);
  }

  lemma {:induction false} EncryptedInChunks(c: Cursor, s: seq<Byte>, t: seq<Byte>, ks: seq<Key>, ls: seq<Key>)
    requires |ks| == |s| && |ls| == |t|
    ensures var x := Encrypted(c, s, ks);
            Encrypted(c, s + t, ks + ls) == x + Encrypted(After(c, x, ks), t, ls)
  {
    hide After;
    if t != [] {
      var n := |t| - 1;
      var x := Encrypted(c, s, ks);
      EncryptedInChunks(c, s, t[..n], ks, ls[..n]);
      assert (s + t)[..|s + t| - 1] == s + t[..n] && (ks + ls)[..|s + t| - 1] == ks + ls[..n];
      AfterInChunks(c, x, Encrypted(After(c, x, ks), t[..n], ls[..n]), ks, ls[..n]);
    } else {
      assert s + t == s && ks + ls == ks;
    }
  }

  lemma {:induction false} DecryptedInChunks(c: Cursor, x: seq<Byte>, y: seq<Byte>, ks: seq<Key>, ls: seq<Key>)
    requires |ks| == |x| && |ls| == |y|
    ensures Decrypted(c, x + y, ks + ls) == Decrypted(c, x, ks) + Decrypted(After(c, x, ks), y, ls)
  {
    hide After;
    if y != [] {
      var n := |y| - 1;
      DecryptedInChunks(c, x, y[..n], ks, ls[..n]);
      assert (x + y)[..|x + y| - 1] == x + y[..n] && (ks + ls)[..|x + y| - 1] == ks + ls[..n];
      AfterInChunks(c, x, y[..n], ks, ls[..n]);
    } else {
      assert x + y == x && ks + ls == ks;
    }
  }

  // ---- the cipher undone ----

  lemma XorBack(a: Byte, b: Byte, d: Byte)
    ensures XorByte(XorByte(a, b), d) == a <==> b == d
    ensures XorByte(a, d) == XorByte(b, d) <==> a == b
  {
    hide Bit, Xor, Pow2;
    var x := XorByte(XorByte(a, b), d);
    ByteBits();
    forall k: nat
      ensures Bit(x, k) <==> ((Bit(a, k) != Bit(b, k)) != Bit(d, k))
      ensures Bit(XorByte(a, d), k) <==> Bit(a, k) != Bit(d, k)
      ensures Bit(XorByte(b, d), k) <==> Bit(b, k) != Bit(d, k)
    {
      BitXor(a, b, k);
      BitXor(XorByte(a, b), d, k);
      BitXor(a, d, k);
      BitXor(b, d, k);
    }
    if x == a {
      SameBits(b, d, 8);
    }
    if b == d {
      SameBits(x, a, 8);
    }
    if XorByte(a, d) == XorByte(b, d) {
      SameBits(a, b, 8);
    }
  }

  lemma ByteBits()
    ensures Pow2(8) == 256
  {}

  /** A received byte is the byte that was sent if and only if it met the same key byte at
      both ends, whatever happened to the bytes before it. */
  lemma RecoveredExactly(c: Cursor, t: seq<Byte>, ks: seq<Key>, ls: seq<Key>, n: nat)
    requires |ks| == |ls| == |t| && n < |t|
    ensures Decrypted(c, Encrypted(c, t, ks), ls)[n] == t[n] <==>
            KeyByteAt(c.i, ks, n) == KeyByteAt(c.i, ls, n)
  {
    hide Encrypted, Decrypted, XorByte, Place, Wrap, Within;
    var x := Encrypted(c, t, ks);
    EncryptedAt(c, t, ks, n);
    DecryptedAt(c, x, ls, n);
    var j := After(c, x[..n], ks[..n]).j;
    Unshift(XorByte(t[n], KeyByteAt(c.i, ks, n)), j);
    XorBack(t[n], KeyByteAt(c.i, ks, n), KeyByteAt(c.i, ls, n));
  }

  lemma Unshift(a: Byte, j: Byte)
    ensures Wrap(Wrap(a + j as int) as int - j as int) == a
  {}

  lemma RoundTrip(c: Cursor, t: seq<Byte>, ks: seq<Key>)
    requires |ks| == |t|
    ensures Decrypted(c, Encrypted(c, t, ks), ks) == t
  {
    hide Encrypted, Decrypted;
    forall n: nat | n < |t| ensures Decrypted(c, Encrypted(c, t, ks), ks)[n] == t[n] {
      RecoveredExactly(c, t, ks, ks, n);
    }
  }

  /** Changing one ciphertext byte changes that byte of the text and the next one, always, and
      no other. */
  lemma OneByteChanged(c: Cursor, x: seq<Byte>, keys: seq<Key>, m: nat, b: Byte, n: nat)
    requires |keys| == |x| && m < |x| && n < |x| && b != x[m]
    ensures Decrypted(c, x[m := b], keys)[n] != Decrypted(c, x, keys)[n] <==> n == m || n == m + 1
  {
    hide Decrypted, XorByte, Place;
    var y := x[m := b];
    DecryptedAt(c, x, keys, n);
    DecryptedAt(c, y, keys, n);
    assert n <= m ==> x[..n] == y[..n];
    var d := KeyByteAt(c.i, keys, n);
    var jx, jy := After(c, x[..n], keys[..n]).j, After(c, y[..n], keys[..n]).j;
    ShiftDiffers(x[n], y[n], jx, jy);
    XorBack((x[n] as int - jx as int) % 256, (y[n] as int - jy as int) % 256, d);
  }

  lemma ShiftDiffers(a: Byte, b: Byte, j: Byte, k: Byte)
    requires a == b || j == k
    ensures (a as int - j as int) % 256 == (b as int - k as int) % 256 <==> a == b && j == k
  {}

  // ---- from the start, under one key ----

  function Period(key: Key): nat {
    if |key| < 256 then |key| else 256
  }

  lemma SmallRemainder(r: nat, m: nat)
    requires r < m
    ensures r % m == r
  {
    DivUnique(r, m, 0, r);
  }

  lemma StepInKey(r: nat, key: Key)
    requires r < Period(key)
    ensures (r + 1) % 256 % |key| == if r + 1 == Period(key) then 0 else r + 1
  {
    if r + 1 == |key| < 256 {
      DivUnique(r + 1, |key|, 1, 0);
    } else {
      SmallRemainder((r + 1) % 256, |key|);
    }
  }

  /** The cursor is a byte, so only the first 256 bytes of a longer key are ever used. */
  lemma {:induction false} PlaceInKey(key: Key, n: nat)
    ensures Place(0, Repeat(key, n)) % |key| == n % Period(key)
  {
    if n > 0 {
      PlaceInKey(key, n - 1);
      assert Repeat(key, n)[..n - 1] == Repeat(key, n - 1);
      NextRemainder(n - 1, Period(key));
      StepInKey((n - 1) % Period(key), key);
    } else {
      SmallRemainder(0, |key|);
      SmallRemainder(0, Period(key));
    }
  }

  lemma NextRemainder(n: nat, m: nat)
    requires m > 0
    ensures (n + 1) % m == if n % m + 1 == m then 0 else n % m + 1
  {
    if n % m + 1 == m {
      assert (n / m + 1) * m == n / m * m + m;
      DivUnique(n + 1, m, n / m + 1, 0);
    } else {
      DivUnique(n + 1, m, n / m, n % m + 1);
    }
  }

  lemma KeyByteFromStart(key: Key, count: nat, n: nat)
    requires n < count
    ensures KeyByteAt(0, Repeat(key, count), n) == key[n % if |key| < 256 then |key| else 256]
  {
    PlaceInKey(key, n);
    assert Repeat(key, count)[..n] == Repeat(key, n);
  }

  /** The sum of the bytes so far, each combined with its key byte. */
  function Sum(t: seq<Byte>, key: Key): nat {
    if t == [] then 0
    else
      var n := |t| - 1;
      Sum(t[..n], key) + Xor(t[n], key[n % if |key| < 256 then |key| else 256])
  }

  lemma XorByteIsXor(a: Byte, b: Byte)
    ensures XorByte(a, b) == Xor(a, b)
  {}

  lemma AddByte(a: int, b: int)
    ensures (a + b % 256) % 256 == (b + a) % 256
  {}

  lemma {:induction false} CiphertextIsSum(t: seq<Byte>, key: Key, n: nat)
    requires n < |t|
    ensures Encrypted(Cursor(0, 0), t, Repeat(key, |t|))[n] == Sum(t[..n + 1], key) % 256
  {
    hide Encrypted, XorByte, Xor;
    var c, keys := Cursor(0, 0), Repeat(key, |t|);
    var x := Encrypted(c, t, keys);
    EncryptedAt(c, t, keys, n);
    KeyByteFromStart(key, |t|, n);
    var a := Xor(t[n], key[n % Period(key)]);
    XorByteIsXor(t[n], key[n % Period(key)]);
    assert t[..n + 1][..n] == t[..n];
    if n > 0 {
      CiphertextIsSum(t, key, n - 1);
      AddByte(a, Sum(t[..n], key));
    }
  }

  // ---- the object ----

  const DefaultText: string :=
    "A0aBCD1bcd2E3eFG" + "H4fgh5IJKLMNOPij" + "klmnopQ6qRST7rst" + "8U9uVWX+vwx/YyzZ"

  function Codes(text: string): (s: seq<Byte>)
    ensures |s| == |text|
  {
    seq(|text|, i requires 0 <= i < |text| => text[i] as int % 256)
  }

  function DefaultKey(): Key {
    Codes(DefaultText)
  }

  lemma TwoTexts(s: string, t: string)
    ensures Codes(s + t) == Codes(s) + Codes(t)
  {}

  lemma FirstHalf()
    ensures Codes("A0aBCD1bcd2E3eFG") == [65, 48, 97, 66, 67, 68, 49, 98, 99, 100, 50, 69, 51, 101, 70, 71]
    ensures Codes("H4fgh5IJKLMNOPij") == [72, 52, 102, 103, 104, 53, 73, 74, 75, 76, 77, 78, 79, 80, 105, 106]
  {}

  lemma SecondHalf()
    ensures Codes("klmnopQ6qRST7rst") == [107, 108, 109, 110, 111, 112, 81, 54, 113, 82, 83, 84, 55, 114, 115, 116]
    ensures Codes("8U9uVWX+vwx/YyzZ") == [56, 85, 57, 117, 86, 87, 88, 43, 118, 119, 120, 47, 89, 121, 122, 90]
  {}

  /** The default key, byte by byte. */
  lemma DefaultKeyIs()
    ensures DefaultKey() ==
            [65, 48, 97, 66, 67, 68, 49, 98, 99, 100, 50, 69, 51, 101, 70, 71] +
            [72, 52, 102, 103, 104, 53, 73, 74, 75, 76, 77, 78, 79, 80, 105, 106] +
            [107, 108, 109, 110, 111, 112, 81, 54, 113, 82, 83, 84, 55, 114, 115, 116] +
            [56, 85, 57, 117, 86, 87, 88, 43, 118, 119, 120, 47, 89, 121, 122, 90]
  {
    hide Codes;
    FirstHalf();
    SecondHalf();
    TwoTexts("A0aBCD1bcd2E3eFG", "H4fgh5IJKLMNOPij");
    TwoTexts("A0aBCD1bcd2E3eFG" + "H4fgh5IJKLMNOPij", "klmnopQ6qRST7rst");
    TwoTexts("A0aBCD1bcd2E3eFG" + "H4fgh5IJKLMNOPij" + "klmnopQ6qRST7rst", "8U9uVWX+vwx/YyzZ");
  }

  /** An object without a key takes the default one when it is first used. */
  function Effective(key: seq<Byte>): Key {
    if key == [] then DefaultKey() else key
  }

  class NDCrypt {
    var sendI: Byte
    var sendJ: Byte
    var recvI: Byte
    var recvJ: Byte
    var key: seq<Byte>

    constructor ()
      ensures Sender() == Receiver() == Cursor(0, 0) && key == []
    {
      sendI, sendJ, recvI, recvJ := 0, 0, 0, 0;
      key := [];
    }

    function Sender(): Cursor
      reads this
    {
      Cursor(sendI, sendJ)
    }

    function Receiver(): Cursor
      reads this
    {
      Cursor(recvI, recvJ)
    }

    method Init()
      modifies this
      ensures Sender() == Receiver() == Cursor(0, 0) && key == old(key)
    {
      sendI, sendJ, recvI, recvJ := 0, 0, 0, 0;
    }

    method SetKey(newKey: seq<Byte>)
      modifies this`key
      ensures key == newKey
    {
      key := newKey;
    }

    method EncryptSend(data: array<Byte>, n: nat)
      requires n <= data.Length
      modifies this`key, this`sendI, this`sendJ, data
      ensures key == Effective(old(key))
      ensures data[..n] == Encrypted(old(Sender()), old(data[..n]), Repeat(key, n))
      ensures data[n..] == old(data[n..])
      ensures Sender() == After(old(Sender()), data[..n], Repeat(key, n))
    {
      hide Encrypted, After, DefaultKey, XorByte, Within, Wrap;
      if |key| == 0 {
        key := DefaultKey();
      }
      ghost var k: Key := key;
      ghost var c, t := Sender(), data[..n];
      EncryptNone(c);
      for i := 0 to n
        invariant key == k
        invariant data[..i] == Encrypted(c, t[..i], Repeat(k, i))
        invariant data[i..] == old(data[i..])
        invariant Sender() == After(c, data[..i], Repeat(k, i))
      {
        ghost var x := data[..i];
        assert data[i] == t[i];
        EncryptOneMore(c, t, k, i, x);
        sendI := Within(sendI, key);
        sendJ := Wrap(XorByte(data[i], key[sendI]) + sendJ as int);
        data[i] := sendJ;
        sendI := Wrap(sendI + 1);
        assert data[..i + 1] == x + [sendJ];
      }
      assert t[..n] == t;
    }

    method DecryptRecv(data: array<Byte>, n: nat)
      requires n <= data.Length
      modifies this`key, this`recvI, this`recvJ, data
      ensures key == Effective(old(key))
      ensures data[..n] == Decrypted(old(Receiver()), old(data[..n]), Repeat(key, n))
      ensures data[n..] == old(data[n..])
      ensures Receiver() == After(old(Receiver()), old(data[..n]), Repeat(key, n))
    {
      hide Decrypted, After, DefaultKey, XorByte, Within, Wrap;
      if |key| == 0 {
        key := DefaultKey();
      }
      ghost var k: Key := key;
      ghost var c, x := Receiver(), data[..n];
      EncryptNone(c);
      for i := 0 to n
        invariant key == k
        invariant data[..i] == Decrypted(c, x[..i], Repeat(k, i))
        invariant data[i..] == old(data[i..])
        invariant Receiver() == After(c, x[..i], Repeat(k, i))
      {
        ghost var before := data[..i];
        assert data[i] == x[i];
        DecryptOneMore(c, x, k, i);
        recvI := Within(recvI, key);
        var value := XorByte(Wrap(data[i] as int - recvJ as int), key[recvI]);
        recvI := Wrap(recvI + 1);
        recvJ := data[i];
        data[i] := value;
        assert data[..i + 1] == before + [value];
      }
      assert x[..n] == x;
    }
  }

  lemma EncryptNone(c: Cursor)
    ensures Encrypted(c, [], []) == Decrypted(c, [], []) == [] && After(c, [], []) == c
  {}

  lemma EncryptOneMore(c: Cursor, t: seq<Byte>, key: Key, i: nat, x: seq<Byte>)
    requires i < |t| && x == Encrypted(c, t[..i], Repeat(key, i))
    ensures var d := After(c, x, Repeat(key, i)); var e := Enc(d, key, t[i]);
            && Encrypted(c, t[..i + 1], Repeat(key, i + 1)) == x + [e]
            && After(c, x + [e], Repeat(key, i + 1)) == Cursor(NextPlace(d.i, key), e)
  {
    assert t[..i + 1][..i] == t[..i] && Repeat(key, i + 1)[..i] == Repeat(key, i);
  }

  lemma DecryptOneMore(c: Cursor, x: seq<Byte>, key: Key, i: nat)
    requires i < |x|
    ensures var d := After(c, x[..i], Repeat(key, i));
            && Decrypted(c, x[..i + 1], Repeat(key, i + 1)) ==
               Decrypted(c, x[..i], Repeat(key, i)) + [Dec(d, key, x[i])]
            && After(c, x[..i + 1], Repeat(key, i + 1)) == Cursor(NextPlace(d.i, key), x[i])
  {
    assert x[..i + 1][..i] == x[..i] && Repeat(key, i + 1)[..i] == Repeat(key, i);
  }
}
