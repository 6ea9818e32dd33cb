/** Finding the end of a string without its trailing spaces, a machine word at a time. */
module SkipSpace {
  import opened Bits
  import opened Rotation
  import opened ByteOrder

  const Space: Byte := 0x20

  /** A string at an address. */
  datatype Text = Text(ptr: nat, bytes: seq<Byte>)

  function End(s: Text): nat {
    s.ptr + |s.bytes|
  }

  /** `end[-1]`: inside the string only. */
  function ByteBefore(s: Text, end: nat): Byte
    requires s.ptr < end <= End(s)
  {
    s.bytes[end - s.ptr - 1]
  }

  predicate Aligned(a: nat, w: nat)
    requires w > 0
  {
    a % w == 0
  }

  /** `((unsigned *) end)[-1]` for words of w bytes: inside the string and aligned only.  The
      bytes of a word may stand in either order. */
  function WordBefore(s: Text, end: nat, w: nat, lowFirst: bool): nat
    requires w > 0 && s.ptr <= end - w && end <= End(s) && Aligned(end, w)
  {
    var word := s.bytes[end - w - s.ptr..end - s.ptr];
    Value(if lowFirst then word else Reversed(word))
  }

  /** A word of four bytes, in either order. */
  lemma FourBytes(s: Text, end: nat)
    requires s.ptr + 4 <= end <= End(s) && Aligned(end, 4)
    ensures var b := s.bytes[end - 4 - s.ptr..end - s.ptr];
            && WordBefore(s, end, 4, true) ==
               b[0] as int + b[1] as int * 0x100 + b[2] as int * 0x1_0000 + b[3] as int * 0x100_0000
            && WordBefore(s, end, 4, false) ==
               b[3] as int + b[2] as int * 0x100 + b[1] as int * 0x1_0000 + b[0] as int * 0x100_0000
  {
    hide Value;
    var b := s.bytes[end - 4 - s.ptr..end - s.ptr];
    LoadsAreValues(b);
    LoadsAreValues(Reversed(b));
    assert b[..4] == b && Reversed(b)[..4] == Reversed(b);
  }

  function SpaceInt(w: nat): nat
    requires w == 4 || w == 8
  {
    if w == 4 then 0x2020_2020 else 0x2020_2020_2020_2020
  }

  predicate Blank(s: seq<Byte>) {
    forall i :: 0 <= i < |s| ==> s[i] == Space
  }

  lemma BlankValue(word: seq<Byte>)
    requires (|word| == 4 || |word| == 8) && Blank(word)
    ensures Value(word) == SpaceInt(|word|)
  {
    hide Value;
    LoadsAreValues(word);
    assert word[..|word|] == word;
  }

  lemma BlankWord(word: seq<Byte>)
    requires |word| == 4 || |word| == 8
    ensures Value(word) == SpaceInt(|word|) <==> Blank(word)
  {
    hide Value, Bytes, SpaceInt;
    var blank := seq(|word|, _ => Space);
    BlankValue(blank);
    BytesOfValue(blank);
    BytesOfValue(word);
    if Blank(word) {
      BlankValue(word);
    }
  }

  /** A word equals the constant if and only if all its bytes are spaces, on any machine. */
  lemma WordIsBlank(s: Text, end: nat, w: nat, lowFirst: bool)
    requires (w == 4 || w == 8) && s.ptr <= end - w && end <= End(s) && Aligned(end, w)
    ensures WordBefore(s, end, w, lowFirst) == SpaceInt(w) <==>
            Blank(s.bytes[end - w - s.ptr..end - s.ptr])
  {
    hide Value, SpaceInt, Reversed;
    var word := s.bytes[end - w - s.ptr..end - s.ptr];
    BlankWord(word);
    BlankWord(Reversed(word));
    BlankBackwards(word);
  }

  lemma BlankBackwards(word: seq<Byte>)
    ensures Blank(Reversed(word)) <==> Blank(word)
  {
    forall i | 0 <= i < |word| ensures word[i] == Reversed(word)[|word| - 1 - i] {}
  }

  /** The plain loop, a byte at a time. */
  function Trimmed(s: Text, end: nat): (r: nat)
    requires s.ptr <= end <= End(s)
    ensures s.ptr <= r <= end
  {
    if end > s.ptr && ByteBefore(s, end) == Space then Trimmed(s, end - 1) else end
  }

  lemma ShorterSlice<T>(s: seq<T>, a: nat, b: nat)
    requires a < b <= |s|
    ensures s[a..b][..b - a - 1] == s[a..b - 1]
  {}

  lemma TrimmedStep(s: Text, end: nat)
    requires s.ptr <= end <= End(s)
    ensures end > s.ptr && ByteBefore(s, end) == Space ==> Trimmed(s, end) == Trimmed(s, end - 1)
    ensures end == s.ptr || ByteBefore(s, end) != Space ==> Trimmed(s, end) == end
  {}

  /** Where it ends: everything from there on is spaces, and what comes before is not one. */
  lemma {:induction false} TrimmedIs(s: Text, end: nat, r: nat)
    requires s.ptr <= r <= end <= End(s)
    ensures r == Trimmed(s, end) <==>
            && Blank(s.bytes[r - s.ptr..end - s.ptr])
            && (r == s.ptr || ByteBefore(s, r) != Space)
  {
    hide Blank;
    var b := s.bytes[r - s.ptr..end - s.ptr];
    if end > r {
      BlankLast(b);
      ShorterSlice(s.bytes, r - s.ptr, end - s.ptr);
      TrimmedIs(s, end - 1, r);
    } else {
      NoneIsBlank();
    }
  }

  lemma NoneIsBlank()
    ensures Blank([])
  {}

  lemma BlankLast(b: seq<Byte>)
    requires b != []
    ensures Blank(b) <==> Blank(b[..|b| - 1]) && b[|b| - 1] == Space
  {}

  lemma {:induction false} TrimmedPast(s: Text, end: nat, e: nat)
    requires s.ptr <= e <= end <= End(s) && Blank(s.bytes[e - s.ptr..end - s.ptr])
    ensures Trimmed(s, end) == Trimmed(s, e)
  {
    if end > e {
      var b := s.bytes[e - s.ptr..end - s.ptr];
      BlankLast(b);
      ShorterSlice(s.bytes, e - s.ptr, end - s.ptr);
      TrimmedPast(s, end - 1, e);
    }
  }

  /** The last address up to a that a word may have. */
  function WordDown(a: nat, w: nat): nat
    requires w > 0
  {
    a / w * w
  }

  lemma WordDownIs(a: nat, w: nat)
    requires w == 4 || w == 8
    ensures a - w < WordDown(a, w) <= a && Aligned(WordDown(a, w), w)
  {
    if w == 4 {
      assert a / w * w == a / 4 * 4;
    } else {
      assert a / w * w == a / 8 * 8;
    }
  }

  lemma WordApart(x: nat, y: nat, w: nat)
    requires w == 4 || w == 8
    requires x < y && Aligned(x, w) && Aligned(y, w)
    ensures x + w <= y && Aligned(y - w, w)
  {
    var k := y / w - x / w;
    assert y == x + k * w;
    assert k <= 0 ==> k * w <= 0;
    assert k >= 1 ==> (k - 1) * w >= 0;
    AddMultiple(y - w, 1, w);
  }

  lemma EndIsFound(s: Text, end: nat)
    requires end == Trimmed(s, End(s))
    ensures s.ptr <= end <= s.ptr + |s.bytes|
    ensures forall i :: end - s.ptr <= i < |s.bytes| ==> s.bytes[i] == 0x20
    ensures end > s.ptr ==> s.bytes[end - s.ptr - 1] != 0x20
  {
    TrimmedIs(s, End(s), end);
    var b := s.bytes[end - s.ptr..End(s) - s.ptr];
    forall i | end - s.ptr <= i < |s.bytes| ensures s.bytes[i] == 0x20 {
      assert s.bytes[i] == b[i - (end - s.ptr)];
    }
  }

  /** The loop over whole words. */
  method SkipWords(s: Text, from: nat, startWords: nat, w: nat, lowFirst: bool) returns (end: nat)
    requires (w == 4 || w == 8) && s.ptr <= startWords < from <= End(s)
    requires Aligned(from, w) && Aligned(startWords, w)
    ensures startWords <= end <= from && Trimmed(s, end) == Trimmed(s, from)
  {
    hide Blank, WordBefore, Aligned, SpaceInt, Trimmed;
    end := from;
    WordApart(startWords, end, w);
    while end > startWords && WordBefore(s, end, w, lowFirst) == SpaceInt(w)
      invariant startWords <= end <= from && Aligned(end, w)
      invariant end > startWords ==> end - w >= startWords && Aligned(end - w, w)
      invariant Trimmed(s, end) == Trimmed(s, from)
    {
      WordIsBlank(s, end, w, lowFirst);
      TrimmedPast(s, end, end - w);
      end := end - w;
      if end > startWords {
        WordApart(startWords, end, w);
      }
    }
  }

  method SkipTrailingSpace(s: Text, w: nat, lowFirst: bool) returns (end: nat)
    requires w == 4 || w == 8
    ensures end == Trimmed(s, End(s))
    ensures s.ptr <= end <= s.ptr + |s.bytes|
    ensures forall i :: end - s.ptr <= i < |s.bytes| ==> s.bytes[i] == 0x20
    ensures end > s.ptr ==> s.bytes[end - s.ptr - 1] != 0x20
  {
    hide Blank, WordBefore, WordDown, Aligned, SpaceInt, Trimmed;
    end := End(s);
    if |s.bytes| > 20 {
      var endWords := WordDown(end, w);
      var startWords := WordDown(s.ptr + w - 1, w);
      WordDownIs(end, w);
      WordDownIs(s.ptr + w - 1, w);
      if endWords > s.ptr {
        while end > endWords && ByteBefore(s, end) == Space
          invariant s.ptr < endWords <= end <= End(s)
          invariant Trimmed(s, end) == Trimmed(s, End(s))
        {
          TrimmedStep(s, end);
          end := end - 1;
        }
        if ByteBefore(s, end) == Space && startWords < endWords {
          end := SkipWords(s, end, startWords, w, lowFirst);
        }
      }
    }
    while end > s.ptr && ByteBefore(s, end) == Space
      invariant s.ptr <= end <= End(s)
      invariant Trimmed(s, end) == Trimmed(s, End(s))
    {
      TrimmedStep(s, end);
      end := end - 1;
    }
    TrimmedStep(s, end);
    EndIsFound(s, end);
  }
}
