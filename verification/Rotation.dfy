/** Rotation of a sequence by any whole number of places. */
module Rotation {
  import opened Bits

  function Rotated<T>(s: seq<T>, n: int): (r: seq<T>)
    ensures |r| == |s|
  {
    if s == [] then [] else s[|s| - n % |s|..] + s[..|s| - n % |s|]
  }

  function Reversed<T>(s: seq<T>): (r: seq<T>)
    ensures |r| == |s|
  {
    seq(|s|, i requires 0 <= i < |s| => s[|s| - 1 - i])
  }

  // ---- three reversals rotate ----

  lemma SwapByReversing<T>(a: seq<T>, b: seq<T>)
    ensures Reversed(Reversed(a) + Reversed(b)) == b + a
  {}

  /** The prefix to swap, for an amount of up to the length either way. */
  lemma SwapIsRotation<T>(s: seq<T>, n: int, k: nat)
    requires -|s| <= n <= |s| && k == if n >= 0 then |s| - n else -n
    ensures s[k..] + s[..k] == Rotated(s, n)
  {
    var m := |s|;
    if 0 <= n < m {
      DivUnique(n, m, 0, n);
    } else if -m < n < 0 {
      DivUnique(n, m, -1, n + m);
    } else if m > 0 {
      DivUnique(n, m, if n == m then 1 else -1, 0);
    }
  }

  lemma ThreeReversals<T>(s: seq<T>, n: int, k: nat)
    requires -|s| <= n <= |s| && k == if n >= 0 then |s| - n else -n
    ensures Reversed(Reversed(s[..k]) + Reversed(s[k..])) == Rotated(s, n)
  {
    SwapByReversing(s[..k], s[k..]);
    SwapIsRotation(s, n, k);
  }

  // ---- the same on a segment of a sequence ----

  function Flipped<T>(s: seq<T>, p: nat, q: nat): (r: seq<T>)
    requires p <= q <= |s|
    ensures |r| == |s|
  {
    s[..p] + Reversed(s[p..q]) + s[q..]
  }

  /** Elements exchanged one by one between the ends of a segment. */
  lemma IsFlipped<T>(s: seq<T>, t: seq<T>, p: nat, q: nat)
    requires p <= q <= |s| == |t|
    requires forall k :: 0 <= k < |s| && (k < p || q <= k) ==> t[k] == s[k]
    requires forall k :: p <= k < q ==> t[k] == s[p + q - 1 - k]
    ensures t == Flipped(s, p, q)
  {
    var f := Flipped(s, p, q);
    forall k | 0 <= k < |s| ensures t[k] == f[k] {
      if p <= k < q {
        assert f[k] == Reversed(s[p..q])[k - p];
      }
    }
  }

  function Turned<T>(s: seq<T>, p: nat, q: nat, n: int): (r: seq<T>)
    requires p <= q <= |s|
    ensures |r| == |s|
  {
    s[..p] + Rotated(s[p..q], n) + s[q..]
  }

  lemma TurnedKeeps<T>(s: seq<T>, p: nat, q: nat, n: int)
    requires p <= q <= |s|
    ensures Turned(s, p, q, n)[..p] == s[..p] && Turned(s, p, q, n)[q..] == s[q..]
    ensures Turned(s, p, q, n)[p..q] == Rotated(s[p..q], n)
  {}

  lemma ThreeFlips<T>(s: seq<T>, p: nat, t: nat, n: int, q: nat)
    requires p <= t <= |s| && p - t <= n <= t - p && q == if n >= 0 then t - n else p - n
    ensures Flipped(Flipped(Flipped(s, p, q), q, t), p, t) == Turned(s, p, t, n)
  {
    hide Reversed, Rotated;
    var x, y := Reversed(s[p..q]), Reversed(s[q..t]);
    ThreeReversals(s[p..t], n, q - p);
    assert s[p..t][..q - p] == s[p..q] && s[p..t][q - p..] == s[q..t];
    assert Flipped(s, p, q)[q..t] == s[q..t];
    assert Flipped(Flipped(s, p, q), q, t)[p..t] == x + y;
  }

  // ---- what rotation does ----

  lemma Congruent(x: int, y: int, m: int)
    requires m > 0
    ensures (x % m + y) % m == (x + y) % m && (x - y % m) % m == (x - y) % m
  {
    var q, p := x / m, y / m;
    assert q * m + (x % m + y) == x + y;
    AddMultiple(x % m + y, q, m);
    assert -p * m + (x - y % m) == x - y;
    AddMultiple(x - y % m, -p, m);
  }

  lemma InRange(i: int, m: int)
    requires 0 < m && -m <= i < m
    ensures i % m == if i >= 0 then i else i + m
  {
    DivUnique(i, m, if i >= 0 then 0 else -1, if i >= 0 then i else i + m);
  }

  /** Every element moves up by n places, counting round. */
  lemma RotatedAt<T>(s: seq<T>, n: int, i: nat)
    requires i < |s|
    ensures Rotated(s, n)[(i + n) % |s|] == s[i]
    ensures Rotated(s, n)[i] == s[(i - n) % |s|]
  {
    var m := |s|;
    var r := n % m;
    Congruent(n, i, m);
    Congruent(i, n, m);
    InRange(i - r, m);
    InRange(i + r - m, m);
    AddMultiple(i + r - m, 1, m);
  }

  lemma RotationKeepsElements<T>(s: seq<T>, n: int)
    ensures multiset(Rotated(s, n)) == multiset(s)
  {
    if s != [] {
      var k := |s| - n % |s|;
      assert s == s[..k] + s[k..];
    }
  }

  /** Two rotations are one by any amount congruent to their sum. */
  lemma RotationsAdd<T>(s: seq<T>, a: int, b: int, c: int)
    requires s != [] ==> c % |s| == (a + b) % |s|
    ensures Rotated(Rotated(s, a), b) == Rotated(s, c)
  {
    hide Rotated;
    var m := |s|;
    forall i: nat | i < m ensures Rotated(Rotated(s, a), b)[i] == Rotated(s, c)[i] {
      RotatedAt(Rotated(s, a), b, i);
      RotatedAt(s, a, (i - b) % m);
      RotatedAt(s, c, i);
      Congruent(i - b, -a, m);
      Congruent(i, c, m);
      Congruent(i, a + b, m);
    }
  }

  lemma NotRotated<T>(s: seq<T>)
    ensures Rotated(s, 0) == s
  {
    SwapIsRotation(s, 0, |s|);
  }

  lemma RotatedBack<T>(s: seq<T>, n: int)
    ensures Rotated(Rotated(s, n), -n) == s
  {
    hide Rotated;
    NotRotated(s);
    RotationsAdd(s, n, -n, 0);
  }

  /** By one place up, the last element comes first; by one down, the first comes last. */
  lemma RotatedByOne<T>(s: seq<T>)
    requires s != []
    ensures Rotated(s, 1) == [s[|s| - 1]] + s[..|s| - 1]
    ensures Rotated(s, -1) == s[1..] + [s[0]]
  {
    SwapIsRotation(s, 1, |s| - 1);
    SwapIsRotation(s, -1, 1);
  }

  /** By one up, the last element is put in at place p; by one down, the element at place p is
      taken out and put at the end. */
  lemma TurnedByOne<T>(s: seq<T>, p: nat, q: nat)
    requires p < q <= |s|
    ensures Turned(s, p, q, 1)[..q] == s[..p] + [s[q - 1]] + s[p..q - 1]
    ensures Turned(s, p, q, -1)[..q] == s[..p] + s[p + 1..q] + [s[p]]
  {
    hide Rotated;
    var u := s[p..q];
    RotatedByOne(u);
    assert u[..q - 1 - p] == s[p..q - 1] && u[1..] == s[p + 1..q];
    assert Turned(s, p, q, 1)[..q] == s[..p] + Rotated(u, 1);
    assert Turned(s, p, q, -1)[..q] == s[..p] + Rotated(u, -1);
  }

  /** Two rotations of the same segment, one after the other. */
  lemma TurnsAdd<T>(s: seq<T>, p: nat, q: nat, a: int, b: int, c: int)
    requires p <= q <= |s| && (p < q ==> c % (q - p) == (a + b) % (q - p))
    ensures Turned(Turned(s, p, q, a), p, q, b) == Turned(s, p, q, c)
  {
    hide Rotated;
    TurnedKeeps(s, p, q, a);
    RotationsAdd(s[p..q], a, b, c);
  }

  lemma TurnedBack<T>(s: seq<T>, p: nat, q: nat, n: int)
    requires p <= q <= |s|
    ensures Turned(Turned(s, p, q, n), p, q, -n) == s
    ensures multiset(Turned(s, p, q, n)) == multiset(s)
  {
    hide Rotated;
    TurnedKeeps(s, p, q, n);
    RotatedBack(s[p..q], n);
    RotationKeepsElements(s[p..q], n);
    assert s == s[..p] + s[p..q] + s[q..];
  }
}
