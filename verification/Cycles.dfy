/** What cycles of objects do to reference counting, and what their absence is good for. */
module Cycles {
  import opened Options
  import opened Ownership

  /** Objects that keep each other alive: each of them is held by a member of one of them. */
  ghost predicate Ring<P, O>(m: Memory<P, O>, s: set<O>) {
    s != {} && forall o :: o in s ==> HeldWithin(m, s, o)
  }

  ghost predicate HeldWithin<P, O>(m: Memory<P, O>, s: set<O>, o: O) {
    exists h :: h in On(m, o) && MemberOf(m, h, s)
  }

  lemma IsHeldWithin<P, O>(m: Memory<P, O>, s: set<O>, o: O, h: P)
    requires h in m.target && m.target[h] == Some(o) && MemberOf(m, h, s)
    ensures HeldWithin(m, s, o)
  {
    assert h in On(m, o);
  }

  lemma HolderWithin<P, O>(m: Memory<P, O>, s: set<O>, o: O) returns (h: P)
    requires HeldWithin(m, s, o)
    ensures h in m.target && m.target[h] == Some(o) && MemberOf(m, h, s)
  {
    h :| h in On(m, o) && MemberOf(m, h, s);
  }

  ghost predicate AcyclicBeyond<P, O>(m: Memory<P, O>, reached: set<O>) {
    forall s :: s <= m.layout.Keys - reached ==> !Ring(m, s)
  }

  ghost predicate Acyclic<P, O>(m: Memory<P, O>) {
    AcyclicBeyond(m, {})
  }

  /** To see that there is no ring it is enough to rank the objects so that members hold
      objects of lower rank. */
  lemma RankedIsAcyclic<P, O>(m: Memory<P, O>, rank: map<O, nat>)
    requires m.layout.Keys <= rank.Keys
    requires forall h :: h in m.target && h in m.place && m.place[h].Member? && m.target[h].Some? &&
                         m.place[h].of in m.layout && m.target[h].value in m.layout
               ==> rank[m.target[h].value] < rank[m.place[h].of]
    ensures Acyclic(m)
  {
    forall s | s <= m.layout.Keys - {} ensures !Ring(m, s) {
      if s != {} {
        var o := Highest(s, rank);
        if HeldWithin(m, s, o) {
          var h := HolderWithin(m, s, o);
        }
      }
    }
  }

  lemma {:induction false} Highest<O>(s: set<O>, rank: map<O, nat>) returns (o: O)
    requires s != {} && s <= rank.Keys
    ensures o in s && forall x :: x in s ==> rank[x] <= rank[o]
  {
    o :| o in s;
    if s != {o} {
      var p := Highest(s - {o}, rank);
      forall x | x in s ensures x == o || x in s - {o} {}
      o := if rank[p] < rank[o] then o else p;
    }
  }

  // ---- leaks ----

  /** `reached` holds whatever can be got at from the program's variables. */
  ghost predicate Reaches<P, O>(m: Memory<P, O>, reached: set<O>) {
    && m.unwrapped <= reached
    && (forall h :: h in m.target && h in m.place && m.target[h].Some? &&
                    (m.place[h] == Variable || m.place[h].of in reached)
          ==> m.target[h].value in reached)
  }

  /** Every live object can be got at if and only if there is no ring among those that cannot:
      a ring that is still held from a variable is no leak. */
  lemma LeaksExactly<P, O>(m: Memory<P, O>, reached: set<O>)
    requires Valid(m) && Reaches(m, reached)
    ensures m.layout.Keys <= reached <==> AcyclicBeyond(m, reached)
  {
    hide Valid, On;
    var lost := m.layout.Keys - reached;
    LostIsRing(m, reached);
    if lost == {} {
      forall o | o in m.layout ensures o in reached {
        assert o !in lost;
      }
    }
    forall s | s <= lost && lost == {} ensures !Ring(m, s) {}
  }

  lemma LostIsRing<P, O>(m: Memory<P, O>, reached: set<O>)
    requires Valid(m) && Reaches(m, reached)
    ensures m.layout.Keys - reached != {} ==> Ring(m, m.layout.Keys - reached)
  {
    hide Valid, HeldWithin;
    var lost := m.layout.Keys - reached;
    MembersHaveOwners(m);
    forall o | o in lost ensures HeldWithin(m, lost, o) {
      var h := SomeHandle(m, o);
      IsHeldWithin(m, lost, o, h);
    }
  }

  lemma SomeHandle<P, O>(m: Memory<P, O>, o: O) returns (h: P)
    requires Valid(m) && o in m.layout && o !in m.unwrapped
    ensures h in m.target && h in m.place && m.target[h] == Some(o)
  {
    assert On(m, o) != {};
    h :| h in On(m, o);
  }

  lemma MembersHaveOwners<P, O>(m: Memory<P, O>)
    requires Valid(m)
    ensures forall h :: h in m.target ==> h in m.place
    ensures forall h :: h in m.target && m.place[h].Member? ==> m.place[h].of in m.layout
  {}

  /** A ring survives every release that sets out with it. */
  lemma RingStays<P, O>(b: Memory<P, O>, e: Memory<P, O>, s: set<O>)
    requires Valid(e) && Cascade(b, e) && Ring(b, s) && s <= b.layout.Keys
    ensures s <= e.layout.Keys && Ring(e, s)
  {
    hide Valid, Cascade, Closed, Ring, On;
    var gone := b.layout.Keys - s;
    WithoutRing(b, s);
    FreedIsLeast(b, e);
    FreedAreGone(b, e);
    assert Elements(Since(b, e)) <= gone;
    RingAfter(b, e, s);
  }

  lemma RingAfter<P, O>(b: Memory<P, O>, e: Memory<P, O>, s: set<O>)
    requires Valid(e) && Cascade(b, e) && Ring(b, s) && s <= b.layout.Keys && s <= e.layout.Keys
    ensures Ring(e, s)
  {
    hide Valid, Cascade, HeldWithin, MemberOf;
    forall o | o in s ensures HeldWithin(e, s, o) {
      var h := HolderWithin(b, s, o);
      MemberStays(b, e, s, h);
      IsHeldWithin(e, s, o, h);
    }
  }

  lemma MemberStays<P, O>(b: Memory<P, O>, e: Memory<P, O>, s: set<O>, h: P)
    requires Valid(e) && Cascade(b, e) && s <= e.layout.Keys
    requires h in b.target && MemberOf(b, h, s)
    ensures h in e.target && e.target[h] == b.target[h] && MemberOf(e, h, s)
  {
    hide Justified;
    GoneWithOwner(b, e, h);
    FreedAreGone(b, e);
  }

  lemma WithoutRing<P, O>(b: Memory<P, O>, s: set<O>)
    requires Ring(b, s) && s <= b.layout.Keys
    ensures Closed(b, b.layout.Keys - s)
  {
    hide HeldWithin;
    var gone := b.layout.Keys - s;
    forall o | o in b.layout && o !in b.unwrapped && o !in gone
      ensures exists h :: h in On(b, o) && !MemberOf(b, h, gone)
    {
      var h := HolderWithin(b, s, o);
      assert h in On(b, o) && !MemberOf(b, h, gone);
    }
  }

  /** A memory without rings has none after a release. */
  lemma AcyclicShrinks<P, O>(b: Memory<P, O>, m: Memory<P, O>)
    requires Acyclic(b) && Cascade(b, m)
    ensures Acyclic(m)
  {
    hide Ring, Cascade;
    CascadeShrinks(b, m);
    forall s | s <= m.layout.Keys - {} ensures !Ring(m, s) {
      if Ring(m, s) {
        RingBefore(b, m, s);
      }
    }
  }

  lemma CascadeShrinks<P, O>(b: Memory<P, O>, m: Memory<P, O>)
    requires Cascade(b, m)
    ensures m.layout.Keys <= b.layout.Keys && m.place == b.place
    ensures forall h :: h in m.target ==> h in b.target && m.target[h] == b.target[h]
  {}

  lemma RingBefore<P, O>(b: Memory<P, O>, m: Memory<P, O>, s: set<O>)
    requires Cascade(b, m) && Ring(m, s)
    ensures Ring(b, s)
  {
    hide Cascade, HeldWithin;
    CascadeShrinks(b, m);
    forall o | o in s ensures HeldWithin(b, s, o) {
      var h := HolderWithin(m, s, o);
      IsHeldWithin(b, s, o, h);
    }
  }

  // ---- releases ----

  /** What a release is bound to free. */
  ghost function Doomed<P, O>(b: Memory<P, O>): set<O> {
    set o | o in b.layout && !Stays(b, o)
  }

  lemma DoomedIsClosed<P, O>(b: Memory<P, O>)
    ensures Closed(b, Doomed(b))
  {
    forall o | o in b.layout && o !in b.unwrapped && o !in Doomed(b)
      ensures exists h :: h in On(b, o) && !MemberOf(b, h, Doomed(b))
    {
      var gone :| gone <= b.layout.Keys && Closed(b, gone) && o !in gone;
      var h :| h in On(b, o) && !MemberOf(b, h, gone);
      assert Doomed(b) <= gone;
    }
  }

  lemma NotDoomed<P, O>(b: Memory<P, O>, o: O)
    requires o in b.layout
    requires o in b.unwrapped || exists h :: h in On(b, o) && !MemberOf(b, h, Doomed(b))
    ensures Stays(b, o)
  {
    hide On, Stays;
    var less := Doomed(b) - {o};
    DoomedIsClosed(b);
    forall x | x in b.layout && x !in b.unwrapped && x !in less
      ensures exists h :: h in On(b, x) && !MemberOf(b, h, less)
    {
      var h :| h in On(b, x) && !MemberOf(b, h, Doomed(b));
      assert !MemberOf(b, h, less);
    }
    StaysBy(b, less, o);
  }

  lemma StaysBy<P, O>(b: Memory<P, O>, gone: set<O>, o: O)
    requires gone <= b.layout.Keys && Closed(b, gone) && o !in gone
    ensures Stays(b, o)
  {}

  /** A doomed object is held by members of doomed objects only. */
  lemma HeldByDoomed<P, O>(b: Memory<P, O>, o: O)
    requires o in Doomed(b)
    ensures o in b.layout && o !in b.unwrapped
    ensures forall h :: h in On(b, o) ==> MemberOf(b, h, Doomed(b))
  {
    hide On, Stays;
    if o in b.unwrapped {
      NotDoomed(b, o);
    }
    forall h | h in On(b, o) ensures MemberOf(b, h, Doomed(b)) {
      if !MemberOf(b, h, Doomed(b)) {
        NotDoomed(b, o);
      }
    }
  }

  /** If letting go dooms the object that the handle belongs to, memory has a ring. */
  lemma DoomedOwnerIsRing<P, O>(m: Memory<P, O>, h: P)
    requires Valid(m) && h in m.target && h in m.place && m.place[h].Member?
    requires m.place[h].of in Doomed(Drop(m, h))
    ensures Ring(m, Doomed(Drop(m, h)))
  {
    hide Valid, Doomed, HeldWithin;
    var b := Drop(m, h);
    var s := Doomed(b);
    forall o | o in s ensures HeldWithin(m, s, o) {
      HeldByDoomed(b, o);
      var k := SomeHandle(m, o);
      assert k != h ==> k in On(b, o);
      IsHeldWithin(m, s, o, k);
    }
  }

  /** Without rings, letting go never costs a handle its owner. */
  lemma AcyclicSurvives<P, O>(m: Memory<P, O>, h: P)
    requires Valid(m) && Acyclic(m) && h in m.target
    ensures h in m.place && Survives(m, h, h)
  {
    hide Valid;
    MembersHaveOwners(m);
    NoRing(m, Doomed(Drop(m, h)));
    if m.place[h].Member? && m.place[h].of in Doomed(Drop(m, h)) {
      DoomedOwnerIsRing(m, h);
    }
  }

  lemma NoRing<P, O>(m: Memory<P, O>, s: set<O>)
    requires Acyclic(m) && s <= m.layout.Keys
    ensures !Ring(m, s)
  {
    assert s <= m.layout.Keys - {};
  }

  /** What outlives letting go also outlives pointing elsewhere, and holds the new object. */
  lemma RepointStays<P, O>(m: Memory<P, O>, h: P, t: Option<O>)
    requires h in m.target && h in m.place && (t.Some? ==> t.value in m.count)
    requires Survives(m, h, h)
    ensures Outlives(Repoint(m, h, t), h)
    ensures t.Some? ==> Stays(Repoint(m, h, t), t.value)
  {
    var b := Repoint(m, h, t);
    if m.place[h].Member? {
      var gone :| gone <= m.layout.Keys && Closed(Drop(m, h), gone) && m.place[h].of !in gone;
      var less := set x | x in gone && t != Some(x);
      forall o | o in b.layout && o !in b.unwrapped && o !in less
        ensures exists k :: k in On(b, o) && !MemberOf(b, k, less)
      {
        if t == Some(o) {
          assert h in On(b, o);
        } else {
          assert o !in gone && o !in m.unwrapped;
          var k :| k in On(Drop(m, h), o) && !MemberOf(Drop(m, h), k, gone);
          assert k in On(b, o) && !MemberOf(b, k, less);
        }
      }
      StaysBy(b, less, m.place[h].of);
      if t.Some? {
        StaysBy(b, less, t.value);
      }
    } else if t.Some? {
      HeldStays(b, h, t.value);
    }
  }

  /** An assignment that takes hold before it lets go: the new object is still there if and
      only if it stays; always, and the pointer too, if the pointer is a variable, if there are
      no rings, or whenever it could have let go without being destroyed. */
  ghost predicate TargetKept<P, O>(m: Memory<P, O>, h: P, t: Option<O>, e: Memory<P, O>) {
    && h in m.target && h in m.place && (t.Some? ==> t.value in m.count)
    && (t.Some? ==> (t.value in e.layout <==> m.target[h] == t || Stays(Repoint(m, h, t), t.value)))
    && (m.place[h] == Variable || Acyclic(m) || Survives(m, h, h) ==>
          h in e.target && e.target[h] == t && (t.Some? ==> t.value in e.layout))
  }

  /** What a caller reads off it. */
  lemma TargetKeptMeans<P, O>(m: Memory<P, O>, h: P, o: O, e: Memory<P, O>)
    requires TargetKept(m, h, Some(o), e)
    ensures h in m.target && h in m.place && o in m.count
    ensures o in e.layout <==> m.target[h] == Some(o) || Stays(Repoint(m, h, Some(o)), o)
    ensures Acyclic(m) || m.place[h] == Variable ==> h in e.target && e.target[h] == Some(o) && o in e.layout
  {}

  lemma NewTargetStays<P, O>(m: Memory<P, O>, h: P, t: Option<O>, e: Memory<P, O>)
    requires Valid(m) && Valid(e) && Pointed(m, h, t, e)
    ensures TargetKept(m, h, t, e)
  {
    hide Valid, Pointed, Acyclic, Stays, Outlives, Repoint, Survives;
    PointedExactly(m, h, t, e);
    PointedHas(m, h, t, e);
    if Acyclic(m) {
      AcyclicSurvives(m, h);
    }
    if m.place[h] == Variable {
      VariableSurvives(m, h, h);
    }
    if Survives(m, h, h) {
      RepointStays(m, h, t);
    }
  }

  /** How such an assignment ends. */
  lemma AssignmentEnds<P, O>(m: Memory<P, O>, h: P, t: Option<O>, e: Memory<P, O>)
    requires Valid(m) && h in m.target && (t.Some? ==> t.value in m.count) && m.target[h] != t
    requires Consistent(e) && e.dying == map[] && e.detached == None && Cascade(Repoint(m, h, t), e)
    ensures Valid(e) && |e.target| <= |m.target| && Smaller(m, e)
    ensures Pointed(m, h, t, e) && TargetKept(m, h, t, e)
  {
    hide Consistent, Cascade, Repoint, TargetKept, Smaller;
    RepointChanges(m, h, t);
    Settled(Repoint(m, h, t), e);
    SmallerTwice(m, m, Repoint(m, h, t), e);
    SmallerSize(m, e);
    NewTargetStays(m, h, t, e);
  }

  lemma VariableSurvives<P, O>(m: Memory<P, O>, h: P, g: P)
    requires h in m.target && g in m.place && m.place[g] == Variable
    ensures Survives(m, h, g)
  {}

  lemma PointedHas<P, O>(m: Memory<P, O>, h: P, t: Option<O>, e: Memory<P, O>)
    requires Pointed(m, h, t, e)
    ensures h in m.target && (t.Some? ==> t.value in m.count)
  {}

  /** With a ring the new object can be lost: a.p holds b, b.q holds a, b.r holds c, and there is
      nothing else.  Then a.p = c ends with all three deleted. */
  function ThreeObjects<P, O>(p: P, q: P, r: P, a: O, b: O, c: O): Memory<P, O> {
    Memory(map[p := Some(b), q := Some(a), r := Some(c)],
           map[p := Member(a, 0), q := Member(b, 0), r := Member(b, 1)],
           map[a := [p], b := [q, r], c := []], map[a := 1, b := 1, c := 1], {}, map[], None, [])
  }

  lemma ThreeHeld<P, O>(p: P, q: P, r: P, a: O, b: O, c: O)
    requires p != q && p != r && q != r && a != b && a != c && b != c
    ensures var m := ThreeObjects(p, q, r, a, b, c);
            && On(m, a) == {q} && On(m, b) == {p} && On(m, c) == {r}
            && m.target.Keys == {p, q, r} && m.place.Keys == {p, q, r} && m.count.Keys == m.layout.Keys == {a, b, c}
            && On(Repoint(m, p, Some(c)), a) == {q} && On(Repoint(m, p, Some(c)), b) == {}
            && On(Repoint(m, p, Some(c)), c) == {p, r}
  {}

  lemma ThreeValid<P, O>(p: P, q: P, r: P, a: O, b: O, c: O)
    requires p != q && p != r && q != r && a != b && a != c && b != c
    ensures Valid(ThreeObjects(p, q, r, a, b, c))
  {
    hide On;
    ThreeHeld(p, q, r, a, b, c);
  }

  lemma ThreeRing<P, O>(p: P, q: P, r: P, a: O, b: O, c: O)
    requires p != q && p != r && q != r && a != b && a != c && b != c
    ensures Ring(ThreeObjects(p, q, r, a, b, c), {a, b})
  {
    hide On;
    var m := ThreeObjects(p, q, r, a, b, c);
    IsHeldWithin(m, {a, b}, a, q);
    IsHeldWithin(m, {a, b}, b, p);
  }

  lemma RingLosesTarget<P, O>(p: P, q: P, r: P, a: O, b: O, c: O)
    requires p != q && p != r && q != r && a != b && a != c && b != c
    ensures var m := ThreeObjects(p, q, r, a, b, c);
            && Valid(m) && Ring(m, {a, b}) && m.target.Keys == {p, q, r} && m.count.Keys == {a, b, c}
            && !Stays(Repoint(m, p, Some(c)), c)
  {
    hide On, Valid, Ring;
    var m := ThreeObjects(p, q, r, a, b, c);
    ThreeHeld(p, q, r, a, b, c);
    ThreeValid(p, q, r, a, b, c);
    ThreeRing(p, q, r, a, b, c);
    forall gone | Closed(Repoint(m, p, Some(c)), gone) ensures c in gone {
      assert b in gone;
      assert a in gone;
    }
  }

  /** In the same memory a.p cannot even let go: its release deletes a, and a.p with it. */
  lemma RingDestroysItself<P, O>(p: P, q: P, r: P, a: O, b: O, c: O)
    requires p != q && p != r && q != r && a != b && a != c && b != c
    ensures var m := ThreeObjects(p, q, r, a, b, c);
            Valid(m) && p in m.target && p in m.place && !Survives(m, p, p)
  {
    hide Valid;
    var m := ThreeObjects(p, q, r, a, b, c);
    ThreeValid(p, q, r, a, b, c);
    ThreeHeld(p, q, r, a, b, c);
    var e := Drop(m, p);
    assert On(e, b) == {} && On(e, a) == {q};
    forall gone | Closed(e, gone) ensures a in gone {
      assert b in gone;
    }
  }

  // ---- how to see that an object stays ----

  /** What a release cannot start from: an object that nothing has held yet, that a variable
      holds, or that is part of a ring. */
  ghost predicate Anchored<P, O>(b: Memory<P, O>, o: O) {
    o in b.layout && (Rooted(b, o) || InRing(b, o))
  }

  ghost predicate Rooted<P, O>(b: Memory<P, O>, o: O) {
    o in b.unwrapped || exists h :: h in On(b, o) && h in b.place && b.place[h] == Variable
  }

  ghost predicate InRing<P, O>(b: Memory<P, O>, o: O) {
    exists s :: s <= b.layout.Keys && Ring(b, s) && o in s
  }

  /** Each object holds the next. */
  ghost predicate IsChain<P, O>(b: Memory<P, O>, path: seq<O>) {
    forall n: nat :: n + 1 < |path| ==> Link(b, path, n)
  }

  ghost predicate Link<P, O>(b: Memory<P, O>, path: seq<O>, n: nat)
    requires n + 1 < |path|
  {
    path[n] in b.layout && path[n + 1] in b.layout && HeldWithin(b, {path[n]}, path[n + 1])
  }

  /** What an anchored chain leads to stays ... */
  lemma {:induction false} ChainStays<P, O>(b: Memory<P, O>, path: seq<O>)
    requires path != [] && Anchored(b, path[0]) && IsChain(b, path)
    ensures Stays(b, path[|path| - 1])
  {
    hide HeldWithin, Stays;
    var n := |path| - 1;
    if n == 0 {
      AnchorStays(b, path[0]);
    } else {
      forall k: nat | k + 1 < |path[..n]| ensures Link(b, path[..n], k) {
        assert Link(b, path, k);
      }
      ChainStays(b, path[..n]);
      assert Link(b, path, n - 1);
      HeldByStaying(b, path[n - 1], path[n]);
    }
  }

  lemma AnchorStays<P, O>(b: Memory<P, O>, o: O)
    requires Anchored(b, o)
    ensures Stays(b, o)
  {
    hide On, Stays, Ring;
    if InRing(b, o) {
      var s :| s <= b.layout.Keys && Ring(b, s) && o in s;
      WithoutRing(b, s);
      StaysBy(b, b.layout.Keys - s, o);
    } else {
      if o in b.unwrapped {
        NotDoomed(b, o);
      } else {
        var h :| h in On(b, o) && h in b.place && b.place[h] == Variable;
        assert !MemberOf(b, h, Doomed(b));
        NotDoomed(b, o);
      }
    }
  }

  lemma HeldByStaying<P, O>(b: Memory<P, O>, w: O, o: O)
    requires o in b.layout && Stays(b, w) && HeldWithin(b, {w}, o)
    ensures Stays(b, o)
  {
    hide Stays;
    var h := HolderWithin(b, {w}, o);
    assert h in On(b, o) && !MemberOf(b, h, Doomed(b));
    NotDoomed(b, o);
  }

  /** ... and to whatever stays an anchored chain leads. */
  lemma StaysByChain<P, O>(b: Memory<P, O>, o: O) returns (path: seq<O>)
    requires o in b.layout && Stays(b, o)
    requires forall h :: h in b.target && h in b.place && b.place[h].Member? ==> b.place[h].of in b.layout
    requires forall h :: h in b.target ==> h in b.place
    ensures path != [] && Anchored(b, path[0]) && IsChain(b, path) && path[|path| - 1] == o
  {
    path := ChainBack(b, [o]);
  }

  lemma StayingHolder<P, O>(b: Memory<P, O>, x: O) returns (h: P)
    requires x in b.layout && Stays(b, x) && !Rooted(b, x)
    requires forall h :: h in b.target && h in b.place && b.place[h].Member? ==> b.place[h].of in b.layout
    requires forall h :: h in b.target ==> h in b.place
    ensures h in b.target && b.target[h] == Some(x) && h in b.place && b.place[h].Member?
    ensures b.place[h].of in b.layout && Stays(b, b.place[h].of) && HeldWithin(b, {b.place[h].of}, x)
  {
    hide Stays;
    DoomedIsClosed(b);
    h :| h in On(b, x) && !MemberOf(b, h, Doomed(b));
    assert b.place[h].Member?;
    IsHeldWithin(b, {b.place[h].of}, x, h);
  }

  /** A chain whose first object is held by a later one. */
  lemma ChainIsRing<P, O>(b: Memory<P, O>, path: seq<O>, n: nat)
    requires IsChain(b, path) && n < |path| && HeldWithin(b, {path[n]}, path[0])
    requires forall k :: 0 <= k < |path| ==> path[k] in b.layout
    ensures InRing(b, path[0])
  {
    hide HeldWithin;
    var s := Elements(path[..n + 1]);
    forall o | o in s ensures HeldWithin(b, s, o) {
      var k :| 0 <= k <= n && path[k] == o;
      if k == 0 {
        WithinMore(b, path[n], s, o);
      } else {
        assert Link(b, path, k - 1);
        assert path[k - 1] == path[..n + 1][k - 1];
        WithinMore(b, path[k - 1], s, o);
      }
    }
    assert path[0] == path[..n + 1][0] && path[0] in s;
    assert Ring(b, s) && s <= b.layout.Keys;
  }

  lemma WithinMore<P, O>(b: Memory<P, O>, w: O, s: set<O>, o: O)
    requires HeldWithin(b, {w}, o) && w in s
    ensures HeldWithin(b, s, o)
  {
    var h := HolderWithin(b, {w}, o);
    IsHeldWithin(b, s, o, h);
  }

  lemma LongerChain<P, O>(b: Memory<P, O>, path: seq<O>, w: O)
    requires IsChain(b, path) && path != [] && w in b.layout && path[0] in b.layout && HeldWithin(b, {w}, path[0])
    ensures IsChain(b, [w] + path)
  {
    hide HeldWithin;
    var longer := [w] + path;
    forall n: nat | n + 1 < |longer| ensures Link(b, longer, n) {
      assert n > 0 ==> Link(b, path, n - 1);
    }
  }

  /** Goes back from holder to holder; a holder met again closes a ring. */
  lemma {:induction false} ChainBack<P, O>(b: Memory<P, O>, path: seq<O>) returns (longer: seq<O>)
    requires path != [] && IsChain(b, path) && Stays(b, path[0])
    requires forall n :: 0 <= n < |path| ==> path[n] in b.layout
    requires forall h :: h in b.target && h in b.place && b.place[h].Member? ==> b.place[h].of in b.layout
    requires forall h :: h in b.target ==> h in b.place
    ensures longer != [] && Anchored(b, longer[0]) && IsChain(b, longer)
    ensures longer[|longer| - 1] == path[|path| - 1]
    decreases b.layout.Keys - Elements(path)
  {
    hide HeldWithin, Stays, On, Rooted, InRing;
    longer := path;
    if !Rooted(b, path[0]) {
      var h := StayingHolder(b, path[0]);
      var w := b.place[h].of;
      if w in path {
        var n :| 0 <= n < |path| && path[n] == w;
        ChainIsRing(b, path, n);
      } else {
        LongerChain(b, path, w);
        var next := [w] + path;
        assert next[0] == w;
        assert w in b.layout.Keys - Elements(path) && w !in b.layout.Keys - Elements(next);
        longer := ChainBack(b, next);
      }
    }
  }
}
