/** Memory as a reference-counting scheme sees it: handles that hold objects, objects that
    own member handles, and a count per object.  The smart-pointer modules keep such a
    memory as their ghost state.  The steps a release is made of are functions here, and
    the lemmas say what every step keeps and what a whole release comes to. */
module Ownership {
  import opened Options

  /** Where a handle lives: it is a variable of the program or a member of an object. */
  datatype Place<+O> = Variable | Member(of: O, slot: nat)

  datatype Memory<P, O> = Memory(
    target: map<P, Option<O>>,    // the live handles and what they hold
    place: map<P, Place<O>>,      // where every handle lives
    layout: map<O, seq<P>>,       // the live objects and their member handles
    count: map<O, int>,           // the live objects and their counts
    unwrapped: set<O>,            // the live objects no handle has held yet
    dying: map<O, nat>,           // running destructors and how many members they have left
    detached: Option<O>,          // an object whose count still includes a handle that let go of it
    freed: seq<O>)                // the deleted objects, in the order the deletions began

  function EmptyMemory<P, O>(): Memory<P, O> {
    Memory(map[], map[], map[], map[], {}, map[], None, [])
  }

  lemma EmptyIsValid<P, O>()
    ensures Valid<P, O>(EmptyMemory())
  {
    hide On;
  }

  function On<P, O>(m: Memory<P, O>, o: O): set<P> {
    set h | h in m.target && m.target[h] == Some(o)
  }

  /** Every count is the number of handles on the object, and an object whose count has
      returned to zero is being deleted. */
  ghost predicate Counted<P, O>(m: Memory<P, O>) {
    && m.count.Keys == m.layout.Keys
    && (forall h :: h in m.target && m.target[h].Some? ==> m.target[h].value in m.count)
    && (forall o :: o in m.count ==> m.count[o] == |On(m, o)| + (if m.detached == Some(o) then 1 else 0))
    && (forall o :: o in m.count && m.count[o] == 0 ==> o in m.unwrapped || o in m.dying)
    && (forall o :: o in m.dying ==> o in m.count && o !in m.unwrapped && m.count[o] == 0)
    && (forall o :: o in m.unwrapped ==> o in m.count && m.count[o] == 0)
    && (m.detached.Some? ==> m.detached.value in m.count)
  }

  function Left<P, O>(m: Memory<P, O>, o: O): nat
    requires o in m.layout
  {
    if o in m.dying then m.dying[o] else |m.layout[o]|
  }

  /** Member handles live exactly as long as the object they belong to; a destructor that
      is running has destroyed its last members already ... */
  ghost predicate Listed<P, O>(m: Memory<P, O>) {
    && (forall o :: o in m.dying ==> o in m.layout && m.dying[o] <= |m.layout[o]|)
    && (forall o, i :: o in m.layout && 0 <= i < |m.layout[o]| ==>
          && m.layout[o][i] in m.place && m.place[m.layout[o][i]] == Member(o, i)
          && (m.layout[o][i] in m.target <==> i < Left(m, o)))
  }

  /** ... and there are no other member handles. */
  ghost predicate Placed<P, O>(m: Memory<P, O>) {
    && m.target.Keys <= m.place.Keys
    && (forall h :: h in m.target && m.place[h].Member? ==>
          && m.place[h].of in m.layout && m.place[h].slot < |m.layout[m.place[h].of]|
          && m.layout[m.place[h].of][m.place[h].slot] == h)
  }

  ghost predicate MembersOwned<P, O>(m: Memory<P, O>) {
    Listed(m) && Placed(m)
  }

  /** No object is deleted twice, and a deleted object is gone once its destructor ends. */
  ghost predicate FreedOnce<P, O>(m: Memory<P, O>) {
    && (forall i, j :: 0 <= i < j < |m.freed| ==> m.freed[i] != m.freed[j])
    && (forall o :: o in m.freed && o in m.layout ==> o in m.dying)
  }

  ghost predicate Consistent<P, O>(m: Memory<P, O>) {
    Counted(m) && MembersOwned(m) && FreedOnce(m)
  }

  /** The memory a caller sees: no destructor is running. */
  ghost predicate Valid<P, O>(m: Memory<P, O>) {
    Consistent(m) && m.dying == map[] && m.detached == None
  }

  // ---- what a release does ----

  /** The objects freed between `b` and `m`. */
  function Since<P, O>(b: Memory<P, O>, m: Memory<P, O>): seq<O> {
    if |b.freed| <= |m.freed| then m.freed[|b.freed|..] else []
  }

  /** The handle is a member of one of `gone`. */
  ghost predicate MemberOf<P, O>(m: Memory<P, O>, h: P, gone: set<O>) {
    h in m.place && m.place[h].Member? && m.place[h].of in gone
  }

  function Elements<O>(s: seq<O>): set<O> {
    set o | o in s
  }

  /** From `b` to `m`, objects were freed and exactly their members destroyed; the other
      handles still hold what they held. */
  ghost predicate Shrinks<P, O>(b: Memory<P, O>, m: Memory<P, O>) {
    && b.freed <= m.freed && m.unwrapped == b.unwrapped && m.place == b.place
    && m.layout.Keys <= b.layout.Keys
    && (forall o :: o in m.layout ==> m.layout[o] == b.layout[o])
    && (forall o :: o in Since(b, m) ==> o in b.layout)
    && (forall o :: o in b.layout.Keys - m.layout.Keys ==> o in Since(b, m))
    && (forall h :: h in m.target ==> h in b.target && m.target[h] == b.target[h])
    && (forall h :: h in b.target.Keys - m.target.Keys ==> MemberOf(b, h, Elements(Since(b, m))))
  }

  /** Every object freed was held in `b` only by members of objects freed before it. */
  ghost predicate Justified<P, O>(b: Memory<P, O>, m: Memory<P, O>) {
    forall k, h :: |b.freed| <= k < |m.freed| && h in On(b, m.freed[k]) ==>
      MemberOf(b, h, Elements(m.freed[|b.freed|..k]))
  }

  /** `m` comes about in the release that began in `b`, where a handle has just let go. */
  ghost predicate Cascade<P, O>(b: Memory<P, O>, m: Memory<P, O>) {
    Shrinks(b, m) && Justified(b, m)
  }

  // ---- the steps of a release ----

  /** A handle ends: what it holds is detached, and if it is a member, the destructor of
      its object has come one member further. */
  function End<P, O>(m: Memory<P, O>, h: P): Memory<P, O>
    requires h in m.target && h in m.place
  {
    var dying := match m.place[h] case Variable => m.dying case Member(o, i) => m.dying[o := i];
    m.(target := m.target - {h}, detached := m.target[h], dying := dying)
  }

  /** The count of the detached object is lowered; at zero its deletion begins. */
  function Lower<P, O>(m: Memory<P, O>, o: O): Memory<P, O>
    requires o in m.count && o in m.layout
  {
    var n := m.count[o] - 1;
    var m1 := m.(count := m.count[o := n], detached := None);
    if n == 0 then m1.(dying := m.dying[o := |m.layout[o]|], freed := m.freed + [o]) else m1
  }

  /** The memory of a deleted object is given back. */
  function Free<P, O>(m: Memory<P, O>, o: O): Memory<P, O> {
    m.(layout := m.layout - {o}, count := m.count - {o}, dying := m.dying - {o})
  }

  lemma EndCounted<P, O>(m: Memory<P, O>, h: P)
    requires Counted(m) && MembersOwned(m) && m.detached == None && h in m.target
    requires m.place[h].Member? ==> m.place[h].of in m.dying
    ensures Counted(End(m, h))
    ensures m.target[h].Some? ==> m.target[h].value !in End(m, h).dying
  {
    var e := End(m, h);
    forall o | o in m.count
      ensures On(e, o) == On(m, o) - {h}
      ensures m.target[h] == Some(o) <==> h in On(m, o)
    {}
  }

  lemma EndMembers<P, O>(m: Memory<P, O>, h: P)
    requires MembersOwned(m) && FreedOnce(m) && h in m.target
    requires m.place[h].Member? ==> m.place[h].of in m.dying && m.dying[m.place[h].of] == m.place[h].slot + 1
    ensures MembersOwned(End(m, h)) && FreedOnce(End(m, h))
  {}

  lemma EndCascade<P, O>(b: Memory<P, O>, m: Memory<P, O>, h: P)
    requires MembersOwned(m) && Cascade(b, m)
    requires h in m.target && m.place[h].Member? && m.place[h].of in Since(b, m)
    ensures Cascade(b, End(m, h))
  {
    assert Since(b, End(m, h)) == Since(b, m);
  }

  lemma SameOn<P, O>(m: Memory<P, O>, e: Memory<P, O>)
    requires e.target == m.target
    ensures forall x :: On(e, x) == On(m, x)
  {}

  lemma LowerCounted<P, O>(m: Memory<P, O>, o: O)
    requires Counted(m) && m.detached == Some(o) && o !in m.dying && o in m.layout
    ensures Counted(Lower(m, o))
  {
    hide On;
    SameOn(m, Lower(m, o));
  }

  lemma LowerMembers<P, O>(m: Memory<P, O>, o: O)
    requires MembersOwned(m) && FreedOnce(m) && o !in m.dying && o in m.layout && o in m.count
    ensures MembersOwned(Lower(m, o)) && FreedOnce(Lower(m, o))
  {
    hide MembersOwned, FreedOnce;
    LowerOwned(m, o);
    LowerFreed(m, o);
  }

  lemma LowerOwned<P, O>(m: Memory<P, O>, o: O)
    requires MembersOwned(m) && o !in m.dying && o in m.layout && o in m.count
    ensures MembersOwned(Lower(m, o))
  {
    hide Listed, Placed;
    LowerListed(m, o);
    LowerPlaced(m, o);
  }

  lemma LowerListed<P, O>(m: Memory<P, O>, o: O)
    requires Listed(m) && o !in m.dying && o in m.layout && o in m.count
    ensures Listed(Lower(m, o))
  {}

  lemma LowerPlaced<P, O>(m: Memory<P, O>, o: O)
    requires Placed(m) && o in m.layout && o in m.count
    ensures Placed(Lower(m, o))
  {}

  lemma LowerFreed<P, O>(m: Memory<P, O>, o: O)
    requires FreedOnce(m) && o !in m.dying && o in m.layout && o in m.count
    ensures FreedOnce(Lower(m, o))
  {}

  lemma LowerShrinks<P, O>(b: Memory<P, O>, m: Memory<P, O>, o: O)
    requires o in m.count && o in m.layout && Shrinks(b, m)
    ensures Shrinks(b, Lower(m, o))
    ensures m.count[o] == 1 ==> o in Since(b, Lower(m, o))
  {
    assert m.count[o] == 1 ==> Since(b, Lower(m, o)) == Since(b, m) + [o];
  }

  lemma LowerJustified<P, O>(b: Memory<P, O>, m: Memory<P, O>, o: O)
    requires Counted(m) && m.detached == Some(o) && o in m.layout
    requires Cascade(b, m)
    ensures Justified(b, Lower(m, o))
  {
    if m.count[o] == 1 {
      var e := Lower(m, o);
      forall k | |b.freed| <= k < |m.freed| ensures e.freed[|b.freed|..k] == m.freed[|b.freed|..k] {}
      assert e.freed[|b.freed|..|m.freed|] == Since(b, m);
      forall h | h in On(b, o) ensures MemberOf(b, h, Elements(Since(b, m))) {
        assert On(m, o) == {};
        assert h in m.target ==> h in On(m, o);
      }
    }
  }

  lemma FreeCounted<P, O>(m: Memory<P, O>, o: O)
    requires Counted(m) && m.detached == None && o in m.dying
    ensures Counted(Free(m, o))
  {
    var e := Free(m, o);
    assert On(m, o) == {};
    forall x | x in m.count ensures On(e, x) == On(m, x) {}
    forall h | h in m.target ensures m.target[h] != Some(o) { assert m.target[h] == Some(o) ==> h in On(m, o); }
  }

  lemma FreeMembers<P, O>(m: Memory<P, O>, o: O)
    requires MembersOwned(m) && FreedOnce(m) && o in m.dying && m.dying[o] == 0
    ensures MembersOwned(Free(m, o)) && FreedOnce(Free(m, o))
  {}

  lemma FreeCascade<P, O>(b: Memory<P, O>, m: Memory<P, O>, o: O)
    requires Cascade(b, m) && o in Since(b, m)
    ensures Cascade(b, Free(m, o))
  {
    assert Since(b, Free(m, o)) == Since(b, m);
  }

  lemma EndKeeps<P, O>(b: Memory<P, O>, m: Memory<P, O>, h: P)
    requires Consistent(m) && m.detached == None && h in m.target && h in m.place
    requires match m.place[h]
             case Variable => b == End(m, h)
             case Member(o, i) => Cascade(b, m) && o in Since(b, m) && o in m.dying && m.dying[o] == i + 1
    ensures Consistent(End(m, h)) && Cascade(b, End(m, h))
    ensures m.target[h].Some? ==>
              m.target[h].value in m.layout && m.target[h].value !in End(m, h).dying
  {
    hide Cascade;
    EndCounted(m, h);
    EndMembers(m, h);
    if m.place[h].Member? {
      EndCascade(b, m, h);
    } else {
      CascadeStarts(b);
    }
  }

  lemma CascadeStarts<P, O>(b: Memory<P, O>)
    ensures Cascade(b, b)
  {}

  lemma LowerKeeps<P, O>(b: Memory<P, O>, m: Memory<P, O>, o: O)
    requires Consistent(m) && Cascade(b, m) && m.detached == Some(o) && o !in m.dying
    ensures o in m.layout && o in m.count && m.count[o] > 0
    ensures Consistent(Lower(m, o)) && Cascade(b, Lower(m, o))
    ensures m.count[o] == 1 ==>
              && o in Since(b, Lower(m, o))
              && Lower(m, o).layout.Keys - Lower(m, o).dying.Keys < m.layout.Keys - m.dying.Keys
  {
    assert o in m.layout.Keys - m.dying.Keys;
    LowerCounted(m, o);
    LowerMembers(m, o);
    LowerShrinks(b, m, o);
    LowerJustified(b, m, o);
  }

  lemma FreeKeeps<P, O>(b: Memory<P, O>, m: Memory<P, O>, o: O)
    requires Consistent(m) && Cascade(b, m) && m.detached == None
    requires o in m.dying && m.dying[o] == 0 && o in Since(b, m)
    ensures Consistent(Free(m, o)) && Cascade(b, Free(m, o))
  {
    hide Cascade;
    FreeCounted(m, o);
    FreeMembers(m, o);
    FreeCascade(b, m, o);
  }

  /** The member an unfinished destructor comes to next is still alive. */
  lemma NextMember<P, O>(m: Memory<P, O>, o: O)
    requires Consistent(m) && o in m.dying && m.dying[o] > 0
    ensures o in m.layout && m.dying[o] <= |m.layout[o]|
    ensures var h := m.layout[o][m.dying[o] - 1];
            h in m.target && h in m.place && m.place[h] == Member(o, m.dying[o] - 1)
  {}

  lemma DyingHasNoCount<P, O>(m: Memory<P, O>, o: O)
    requires Consistent(m) && o in m.dying
    ensures o in m.layout && o in m.count && m.count[o] == 0
  {}

  /** Memory only shrinks while a release runs. */
  ghost predicate Smaller<P, O>(b: Memory<P, O>, m: Memory<P, O>) {
    m.layout.Keys <= b.layout.Keys && m.target.Keys <= b.target.Keys && b.freed <= m.freed
  }

  lemma SmallerTwice<P, O>(b: Memory<P, O>, m0: Memory<P, O>, m1: Memory<P, O>, m2: Memory<P, O>)
    requires Smaller(m0, m1) && Smaller(m1, m2)
    ensures Smaller(m0, m2)
    ensures m1.layout.Keys <= m0.layout.Keys
    ensures forall o :: o in Since(b, m1) ==> o in Since(b, m2)
  {}

  lemma SmallerSize<P, O>(m0: Memory<P, O>, m: Memory<P, O>)
    requires Smaller(m0, m)
    ensures |m.target| <= |m0.target| && m.target.Keys <= m0.target.Keys && m.layout.Keys <= m0.layout.Keys
  {
    Subset(m.target.Keys, m0.target.Keys);
  }

  lemma ValidCounted<P, O>(m: Memory<P, O>)
    requires Valid(m)
    ensures Counted(m) && Consistent(m) && m.dying == map[] && m.detached == None
  {}

  lemma DetachedBound<P, O>(m: Memory<P, O>, o: O)
    requires Consistent(m) && m.detached == Some(o)
    ensures o in m.count && o in m.layout && o !in m.unwrapped && 0 < m.count[o] <= |m.target| + 1
  {
    Subset(On(m, o), m.target.Keys);
  }

  /** How lowering a count changes memory. */
  lemma LowerStep<P, O>(m: Memory<P, O>, o: O)
    requires o in m.count && o in m.layout
    ensures var e := Lower(m, o);
            && e.target == m.target && e.layout == m.layout && e.place == m.place && e.unwrapped == m.unwrapped
            && e.detached == None && e.count == m.count[o := m.count[o] - 1] && Smaller(m, e)
            && e.dying == (if m.count[o] == 1 then m.dying[o := |m.layout[o]|] else m.dying)
  {}

  lemma EndSmaller<P, O>(m: Memory<P, O>, h: P)
    requires h in m.target && h in m.place
    ensures Smaller(m, End(m, h)) && h !in End(m, h).target
  {}

  /** How giving back an object changes memory. */
  lemma FreeStep<P, O>(m: Memory<P, O>, o: O)
    ensures var e := Free(m, o);
            && e.target == m.target && e.place == m.place && e.detached == m.detached && e.dying == m.dying - {o}
            && o !in e.layout && Smaller(m, e)
  {}

  /** How letting go changes memory. */
  lemma DropStep<P, O>(m: Memory<P, O>, h: P)
    requires h in m.target
    ensures var e := Drop(m, h);
            && e.target == m.target[h := None] && e.target.Keys == m.target.Keys
            && e.place == m.place && e.dying == m.dying
            && e.detached == m.target[h] && e.layout == m.layout && e.count == m.count && Smaller(m, e)
  {}

  lemma SmallerSame<P, O>(m: Memory<P, O>)
    ensures Smaller(m, m)
  {}

  lemma SmallerSteps<P, O>(m0: Memory<P, O>, m: Memory<P, O>, o: O)
    requires Smaller(m0, m)
    ensures Smaller(m0, Free(m, o))
    ensures o in m.count && o in m.layout ==> Smaller(m0, Lower(m, o))
    ensures m.layout.Keys <= m0.layout.Keys
  {}

  // ---- what a caller does to memory ----

  function AddHandle<P, O>(m: Memory<P, O>, h: P): Memory<P, O> {
    m.(target := m.target[h := None], place := m.place[h := Variable])
  }

  /** A new object, to which there is only a raw pointer so far. */
  function AddObject<P, O>(m: Memory<P, O>, o: O): Memory<P, O> {
    m.(layout := m.layout[o := []], count := m.count[o := 0], unwrapped := m.unwrapped + {o})
  }

  function AddMember<P, O>(m: Memory<P, O>, o: O, h: P): Memory<P, O>
    requires o in m.layout
  {
    m.(target := m.target[h := None], place := m.place[h := Member(o, |m.layout[o]|)],
       layout := m.layout[o := m.layout[o] + [h]])
  }

  lemma AddObjectChanges<P, O>(m: Memory<P, O>, o: O)
    ensures var e := AddObject(m, o);
            && e.target == m.target && e.place == m.place && e.layout.Keys == m.layout.Keys + {o} && o in e.layout
            && AddMembers(e, o, []) == e
  {}

  lemma AddMemberChanges<P, O>(m: Memory<P, O>, o: O, h: P)
    requires o in m.layout
    ensures var e := AddMember(m, o, h);
            e.target.Keys == m.target.Keys + {h} && e.layout.Keys == m.layout.Keys && o in e.layout
  {}

  function AddMembers<P, O>(m: Memory<P, O>, o: O, hs: seq<P>): (e: Memory<P, O>)
    requires o in m.layout
    ensures o in e.layout
  {
    if hs == [] then m else AddMember(AddMembers(m, o, hs[..|hs| - 1]), o, hs[|hs| - 1])
  }

  lemma AddMembersOne<P, O>(m: Memory<P, O>, o: O, hs: seq<P>, h: P)
    requires o in m.layout
    ensures AddMembers(m, o, []) == m && AddMembers(m, o, hs + [h]) == AddMember(AddMembers(m, o, hs), o, h)
  {
    assert (hs + [h])[..|hs|] == hs;
  }

  /** The handle lets go of what it holds; the count is not lowered yet. */
  function Drop<P, O>(m: Memory<P, O>, h: P): Memory<P, O>
    requires h in m.target
  {
    m.(target := m.target[h := None], detached := m.target[h])
  }

  /** The handle, which holds nothing, takes hold of `o`. */
  function Take<P, O>(m: Memory<P, O>, h: P, o: O): Memory<P, O>
    requires o in m.count
  {
    m.(target := m.target[h := Some(o)], count := m.count[o := m.count[o] + 1], unwrapped := m.unwrapped - {o})
  }

  lemma AddHandleKeeps<P, O>(m: Memory<P, O>, h: P)
    requires Valid(m) && h !in m.target
    ensures Valid(AddHandle(m, h))
  {
    forall o | o in m.count ensures On(AddHandle(m, h), o) == On(m, o) {}
  }

  lemma AddObjectKeeps<P, O>(m: Memory<P, O>, o: O)
    requires Valid(m) && o !in m.layout && o !in m.freed
    ensures Valid(AddObject(m, o))
  {
    hide Counted;
    AddObjectCounted(m, o);
  }

  lemma AddObjectCounted<P, O>(m: Memory<P, O>, o: O)
    requires Counted(m) && m.detached == None && o !in m.layout
    ensures Counted(AddObject(m, o))
  {
    hide On;
    SameOn(m, AddObject(m, o));
    NobodyOn(m, o);
  }

  lemma NobodyOn<P, O>(m: Memory<P, O>, o: O)
    requires Counted(m) && o !in m.layout
    ensures On(m, o) == {}
  {}

  lemma AddMemberKeeps<P, O>(m: Memory<P, O>, o: O, h: P)
    requires Valid(m) && o in m.layout && h !in m.target
    ensures Valid(AddMember(m, o, h))
  {
    hide Counted, MembersOwned;
    AddMemberCounted(m, o, h);
    AddMemberOwned(m, o, h);
  }

  lemma AddMemberCounted<P, O>(m: Memory<P, O>, o: O, h: P)
    requires Counted(m) && o in m.layout && h !in m.target
    ensures Counted(AddMember(m, o, h))
  {
    forall x | x in m.count ensures On(AddMember(m, o, h), x) == On(m, x) {}
  }

  lemma AddMemberOwned<P, O>(m: Memory<P, O>, o: O, h: P)
    requires MembersOwned(m) && m.dying == map[] && o in m.layout && h !in m.target
    ensures MembersOwned(AddMember(m, o, h))
  {
    hide Listed, Placed;
    AddMemberListed(m, o, h);
    AddMemberPlaced(m, o, h);
  }

  lemma AddMemberListed<P, O>(m: Memory<P, O>, o: O, h: P)
    requires MembersOwned(m) && m.dying == map[] && o in m.layout && h !in m.target
    ensures Listed(AddMember(m, o, h))
  {
    hide Placed;
  }

  lemma AddMemberPlaced<P, O>(m: Memory<P, O>, o: O, h: P)
    requires Placed(m) && o in m.layout && h !in m.target
    ensures Placed(AddMember(m, o, h))
  {}

  lemma DropCounted<P, O>(m: Memory<P, O>, h: P)
    requires Counted(m) && m.detached == None && h in m.target
    ensures Counted(Drop(m, h))
  {
    forall o | o in m.count
      ensures On(Drop(m, h), o) == On(m, o) - {h}
      ensures m.target[h] == Some(o) <==> h in On(m, o)
    {}
  }

  lemma TakeOn<P, O>(m: Memory<P, O>, h: P, o: O, x: O)
    requires o in m.count && h in m.target && m.target[h] == None
    ensures h !in On(m, x)
    ensures On(Take(m, h, o), x) == if x == o then On(m, x) + {h} else On(m, x)
  {}

  lemma TakeCounted<P, O>(m: Memory<P, O>, h: P, o: O)
    requires Counted(m) && o in m.count && o !in m.dying && h in m.target && m.target[h] == None
    ensures Counted(Take(m, h, o))
  {
    hide On;
    forall x | x in m.count
      ensures On(Take(m, h, o), x) == if x == o then On(m, x) + {h} else On(m, x)
      ensures h !in On(m, x)
    {
      TakeOn(m, h, o, x);
    }
  }

  lemma DropKeeps<P, O>(m: Memory<P, O>, h: P)
    requires Valid(m) && h in m.target
    ensures Consistent(Drop(m, h))
    ensures m.target[h].Some? ==> m.target[h].value in m.layout
  {
    DropCounted(m, h);
  }

  lemma DropNothing<P, O>(m: Memory<P, O>, h: P)
    requires Valid(m) && h in m.target
    ensures m.target[h] == None ==> Drop(m, h) == m
  {}

  lemma NotHeld<P, O>(m: Memory<P, O>, o: O)
    requires Counted(m) && o in m.unwrapped
    ensures o in m.layout && o in m.count && m.count[o] == 0 && o !in m.dying
    ensures m.detached == None ==> forall g :: g in m.target ==> m.target[g] != Some(o)
  {
    forall g | g in m.target && m.target[g] == Some(o) ensures g in On(m, o) {}
  }

  lemma RoomToTake<P, O>(m: Memory<P, O>, h: P)
    requires Valid(m) && h in m.target && m.target[h] == None
    ensures forall o :: o in m.count ==> 0 <= m.count[o] < |m.target|
  {
    forall o | o in m.count ensures 0 <= m.count[o] < |m.target| {
      Subset(On(m, o), m.target.Keys - {h});
    }
  }

  lemma TakeKeeps<P, O>(m: Memory<P, O>, h: P, o: O)
    requires Consistent(m) && o in m.count && o !in m.dying && h in m.target && m.target[h] == None
    ensures Consistent(Take(m, h, o))
  {
    hide Counted, On;
    TakeCounted(m, h, o);
  }

  lemma TakeValid<P, O>(m: Memory<P, O>, h: P, o: O)
    requires Valid(m) && o in m.count && h in m.target && m.target[h] == None
    ensures Valid(Take(m, h, o)) && Take(m, h, o).target.Keys == m.target.Keys
  {
    TakeKeeps(m, h, o);
  }

  /** Memory in which `h` has let go of what it held and taken hold of `t`. */
  function Repoint<P, O>(m: Memory<P, O>, h: P, t: Option<O>): Memory<P, O>
    requires h in m.target && (t.Some? ==> t.value in m.count)
  {
    if t == None then Drop(m, h) else Take(Drop(m, h), h, t.value)
  }

  lemma RepointChanges<P, O>(m: Memory<P, O>, h: P, t: Option<O>)
    requires h in m.target && (t.Some? ==> t.value in m.count)
    ensures var e := Repoint(m, h, t);
            && e.detached == m.target[h] && e.dying == m.dying && e.layout == m.layout && e.place == m.place
            && e.target == m.target[h := t]
            && e.count == (if t == None then m.count else m.count[t.value := m.count[t.value] + 1])
            && e.count.Keys == m.count.Keys && e.target.Keys == m.target.Keys && e.freed == m.freed
            && e.unwrapped == (if t == None then m.unwrapped else m.unwrapped - {t.value})
            && Smaller(m, e)
  {}

  lemma RepointKeeps<P, O>(m: Memory<P, O>, h: P, t: Option<O>)
    requires Valid(m) && h in m.target && (t.Some? ==> t.value in m.count) && m.target[h] != t
    ensures Consistent(Repoint(m, h, t)) && Cascade(Repoint(m, h, t), Repoint(m, h, t))
    ensures h in m.place && (m.target[h].Some? ==> m.target[h].value in m.layout)
    ensures t.Some? ==> 0 <= m.count[t.value] < |m.target|
    ensures m.dying == map[]
  {
    DropKeeps(m, h);
    CascadeStarts(Repoint(m, h, t));
    if t.Some? {
      Subset(On(m, t.value), m.target.Keys - {h});
      hide Counted;
      TakeKeeps(Drop(m, h), h, t.value);
    }
  }

  /** Memory with a new variable `h` that holds `t`. */
  function NewHandle<P, O>(m: Memory<P, O>, h: P, t: Option<O>): Memory<P, O>
    requires t.Some? ==> t.value in m.count
  {
    if t == None then AddHandle(m, h) else Take(AddHandle(m, h), h, t.value)
  }

  lemma NewHandleKeeps<P, O>(m: Memory<P, O>, h: P, t: Option<O>)
    requires Valid(m) && h !in m.target && (t.Some? ==> t.value in m.count)
    ensures Valid(NewHandle(m, h, t))
    ensures t.Some? ==> 0 <= m.count[t.value] <= |m.target|
  {
    AddHandleKeeps(m, h);
    if t.Some? {
      Subset(On(m, t.value), m.target.Keys);
      hide Counted;
      TakeKeeps(AddHandle(m, h), h, t.value);
    }
  }

  /** Once its release is over, memory is valid again, and the variables have kept theirs. */
  lemma Settled<P, O>(b: Memory<P, O>, m: Memory<P, O>)
    requires Consistent(m) && m.dying == map[] && m.detached == None && Cascade(b, m)
    ensures Valid(m) && |m.target| <= |b.target|
    ensures forall h :: h in b.target && h in b.place && b.place[h] == Variable ==>
              h in m.target && m.target[h] == b.target[h]
    ensures forall h :: h in m.target && m.target[h].Some? ==> m.target[h].value in m.layout
    ensures Smaller(b, m)
  {
    Subset(m.target.Keys, b.target.Keys);
    forall h | h in b.target && h in b.place && b.place[h] == Variable ensures h in m.target {
      assert !MemberOf(b, h, Elements(Since(b, m)));
    }
  }

  lemma {:induction false} Subset<T>(a: set<T>, b: set<T>)
    requires a <= b
    ensures |a| <= |b|
  {
    if x :| x in a {
      Subset(a - {x}, b - {x});
    }
  }

  // ---- what a whole release comes to ----

  /** If all handles on an object are members of `gone`, the object is in `gone` too. */
  ghost predicate Closed<P, O>(b: Memory<P, O>, gone: set<O>) {
    forall o :: o in b.layout && o !in b.unwrapped && o !in gone ==>
      exists h :: h in On(b, o) && !MemberOf(b, h, gone)
  }

  /** A release frees the least closed set of objects: everything that is no longer held
      from outside of it, and nothing more. */
  lemma FreedIsLeast<P, O>(b: Memory<P, O>, m: Memory<P, O>)
    requires Valid(m) && Cascade(b, m)
    ensures Closed(b, Elements(Since(b, m)))
    ensures forall gone :: Closed(b, gone) ==> Elements(Since(b, m)) <= gone
  {
    hide Valid, Cascade, Closed, Consistent;
    FreedIsClosed(b, m);
    ValidCounted(m);
    forall gone | Closed(b, gone) ensures Elements(Since(b, m)) <= gone {
      assert b.freed <= m.freed by { CascadeGrows(b, m); }
      FreedWithin(b, m, gone, |m.freed|);
      assert m.freed[|b.freed|..] == m.freed[|b.freed|..|m.freed|];
    }
  }

  lemma CascadeGrows<P, O>(b: Memory<P, O>, m: Memory<P, O>)
    requires Cascade(b, m)
    ensures b.freed <= m.freed
  {}

  lemma FreedIsClosed<P, O>(b: Memory<P, O>, m: Memory<P, O>)
    requires Valid(m) && Cascade(b, m)
    ensures Closed(b, Elements(Since(b, m)))
  {
    hide Justified;
    var freed := Elements(Since(b, m));
    forall o | o in b.layout && o !in b.unwrapped && o !in freed
      ensures exists h :: h in On(b, o) && !MemberOf(b, h, freed)
    {
      assert On(m, o) != {};
      var h :| h in On(m, o);
      assert h in On(b, o);
      assert !MemberOf(b, h, freed);
    }
  }

  lemma {:induction false} FreedWithin<P, O>(b: Memory<P, O>, m: Memory<P, O>, gone: set<O>, n: nat)
    requires Consistent(m) && Cascade(b, m) && Closed(b, gone) && |b.freed| <= n <= |m.freed|
    ensures Elements(m.freed[|b.freed|..n]) <= gone
  {
    hide Consistent, Shrinks;
    if n > |b.freed| {
      assert b.freed <= m.freed by { CascadeGrows(b, m); }
      FreedWithin(b, m, gone, n - 1);
      var o := m.freed[n - 1];
      assert o in Since(b, m);
      FreedWasHeld(b, m, o);
      assert o in gone;
      assert m.freed[|b.freed|..n] == m.freed[|b.freed|..n - 1] + [o];
    }
  }

  lemma FreedWasHeld<P, O>(b: Memory<P, O>, m: Memory<P, O>, o: O)
    requires Consistent(m) && Cascade(b, m) && o in Since(b, m)
    ensures o in b.layout && o !in b.unwrapped
  {
    hide Justified, MembersOwned;
  }

  // ---- which handles outlive a release ----

  /** The release that begins in `b` leaves the object alone. */
  ghost predicate Stays<P, O>(b: Memory<P, O>, o: O) {
    exists gone :: gone <= b.layout.Keys && Closed(b, gone) && o !in gone
  }

  /** The release that begins in `b` leaves the handle alone. */
  ghost predicate Outlives<P, O>(b: Memory<P, O>, g: P)
    requires g in b.place
  {
    b.place[g] == Variable || Stays(b, b.place[g].of)
  }

  /** Letting go of what `h` holds leaves `g` alone. */
  ghost predicate Survives<P, O>(m: Memory<P, O>, h: P, g: P)
    requires h in m.target && g in m.place
  {
    Outlives(Drop(m, h), g)
  }

  /** That condition is exact: an object is still there after the release if and only if it
      stays ... */
  lemma StaysExactly<P, O>(b: Memory<P, O>, e: Memory<P, O>, o: O)
    requires Valid(e) && Cascade(b, e) && o in b.layout
    ensures Stays(b, o) <==> o in e.layout
  {
    hide Valid, Closed, Justified;
    FreedIsLeast(b, e);
    FreedAreGone(b, e);
    assert Elements(Since(b, e)) <= b.layout.Keys;
  }

  lemma FreedAreGone<P, O>(b: Memory<P, O>, e: Memory<P, O>)
    requires Valid(e) && Cascade(b, e)
    ensures forall o :: o in b.layout ==> (o in Since(b, e) <==> o !in e.layout)
  {
    hide Justified;
  }

  /** ... and so is a handle if and only if it outlives the release. */
  lemma OutlivesExactly<P, O>(b: Memory<P, O>, e: Memory<P, O>, g: P)
    requires Valid(e) && Cascade(b, e) && g in b.target && g in b.place
    requires b.place[g].Member? ==> b.place[g].of in b.layout
    ensures Outlives(b, g) <==> g in e.target
    ensures g in e.target ==> e.target[g] == b.target[g]
  {
    hide Valid, Closed, Justified, Stays;
    if b.place[g].Member? {
      GoneWithOwner(b, e, g);
      StaysExactly(b, e, b.place[g].of);
      FreedAreGone(b, e);
    } else {
      assert !MemberOf(b, g, Elements(Since(b, e)));
    }
  }

  lemma SurvivesExactly<P, O>(m: Memory<P, O>, h: P, g: P, e: Memory<P, O>)
    requires Valid(m) && h in m.target && g in m.target && g in m.place
    requires Valid(e) && Cascade(Drop(m, h), e)
    ensures Survives(m, h, g) <==> g in e.target
  {
    hide Cascade, Outlives;
    OutlivesExactly(Drop(m, h), e, g);
  }

  /** At no time during the release is the owner of such a handle deleted. */
  lemma OutlivesNow<P, O>(b: Memory<P, O>, m: Memory<P, O>, g: P, o: O)
    requires Consistent(m) && Cascade(b, m) && g in b.place && Outlives(b, g)
    requires o in Since(b, m)
    ensures b.place[g].Member? ==> b.place[g].of != o
  {
    hide Consistent, Cascade, Closed;
    if b.place[g].Member? {
      var gone :| gone <= b.layout.Keys && Closed(b, gone) && b.place[g].of !in gone;
      CascadeGrows(b, m);
      FreedWithin(b, m, gone, |m.freed|);
      assert m.freed[|b.freed|..] == m.freed[|b.freed|..|m.freed|];
    }
  }

  lemma GoneWithOwner<P, O>(b: Memory<P, O>, e: Memory<P, O>, g: P)
    requires Valid(e) && Cascade(b, e) && g in b.target && g in b.place && b.place[g].Member?
    ensures g in e.target <==> b.place[g].of !in Since(b, e)
  {
    hide Justified;
    if g !in e.target {
      assert MemberOf(b, g, Elements(Since(b, e)));
    }
  }

  /** The only handle on an object takes the object's members with it: after `p = p->next`
      through a scheme that releases before it reads, there is no `next` left to read. */
  lemma OnlyHandleDooms<P, O>(m: Memory<P, O>, h: P, o: O, g: P)
    requires Valid(m) && h in m.target && m.target[h] == Some(o) && m.count[o] == 1
    requires g in m.target && g in m.place && m.place[g].Member? && m.place[g].of == o
    ensures !Survives(m, h, g)
  {
    var b := Drop(m, h);
    assert h in On(m, o) && On(b, o) == On(m, o) - {h};
    assert |On(b, o)| == 0;
    forall gone | Closed(b, gone) ensures o in gone {}
  }

  /** Another handle on the object is all it takes for every handle to survive. */
  lemma SharedReleaseIsSafe<P, O>(m: Memory<P, O>, h: P, o: O, g: P)
    requires Valid(m) && h in m.target && m.target[h] == Some(o) && m.count[o] > 1
    requires g in m.target && g in m.place
    ensures Survives(m, h, g)
  {
    var b := Drop(m, h);
    forall x | x in b.layout && x !in b.unwrapped
      ensures exists k :: k in On(b, x) && !MemberOf(b, k, {})
    {
      assert On(b, x) == On(m, x) - {h};
      assert h in On(m, x) <==> x == o;
      assert |On(b, x)| > 0;
      var k :| k in On(b, x);
      assert !MemberOf(b, k, {});
    }
    assert Closed(b, {});
  }

  /** An object on which there is a variable stays. */
  lemma HeldStays<P, O>(b: Memory<P, O>, k: P, o: O)
    requires k in b.target && k in b.place && b.place[k] == Variable && b.target[k] == Some(o)
    ensures Stays(b, o)
  {
    var gone := b.layout.Keys - {o};
    assert k in On(b, o) && !MemberOf(b, k, gone);
    assert Closed(b, gone);
  }

  /** `h` was pointed at `t`, which comes before the release of what it held. */
  ghost predicate Pointed<P, O>(m: Memory<P, O>, h: P, t: Option<O>, e: Memory<P, O>) {
    && h in m.target && (t.Some? ==> t.value in m.count)
    && if m.target[h] == t then e == m else Cascade(Repoint(m, h, t), e)
  }

  /** What it was pointed at is still there if and only if it stays, and `h` itself if and only
      if it outlives the release. */
  lemma PointedExactly<P, O>(m: Memory<P, O>, h: P, t: Option<O>, e: Memory<P, O>)
    requires Valid(m) && Valid(e) && Pointed(m, h, t, e)
    ensures h in m.place
    ensures h in e.target <==> m.target[h] == t || Outlives(Repoint(m, h, t), h)
    ensures h in e.target ==> e.target[h] == t
    ensures t.Some? ==> (t.value in e.layout <==> m.target[h] == t || Stays(Repoint(m, h, t), t.value))
  {
    hide Cascade, Stays;
    var b := Repoint(m, h, t);
    if m.target[h] != t {
      OutlivesExactly(b, e, h);
      if t.Some? {
        StaysExactly(b, e, t.value);
      }
    }
  }

  /** Once the release is over, memory is valid again and such a handle is still there. */
  lemma SettledHandle<P, O>(b: Memory<P, O>, m: Memory<P, O>, g: P)
    requires Consistent(m) && m.dying == map[] && m.detached == None && Cascade(b, m)
    requires g in b.target && g in b.place && Outlives(b, g)
    ensures Valid(m) && |m.target| <= |b.target|
    ensures g in m.target && m.target[g] == b.target[g]
  {
    hide Closed, Justified, Counted, FreedOnce, MembersOwned;
    Settled(b, m);
    if g !in m.target && b.place[g].Member? {
      assert MemberOf(b, g, Elements(Since(b, m)));
      OutlivesNow(b, m, g, b.place[g].of);
      assert false;
    }
  }

  // ---- schemes that change a handle's fields only after its release ----

  /** From `m`, the handle let go of what it held, which came to `e`, and took hold of `t`. */
  ghost predicate Replaced<P, O>(m: Memory<P, O>, h: P, t: Option<O>, e: Memory<P, O>, m': Memory<P, O>) {
    && h in m.target && (t.Some? ==> t.value in e.count)
    && (if m.target[h] == None then e == m else Valid(e) && Cascade(Drop(m, h), e))
    && m' == if t.Some? then Take(e, h, t.value) else e
  }

  /** The stale handles will not be destroyed meanwhile. */
  ghost predicate Spared<P, O>(b: Memory<P, O>, stale: set<P>) {
    forall h :: h in stale ==> h in b.place && Outlives(b, h)
  }

  /** Between `p0` and `p1` only the pointers of `busy` handles changed. */
  ghost predicate Idle<P, V>(p0: map<P, V>, p1: map<P, V>, busy: set<P>) {
    forall h :: h in p0.Keys - busy ==> h in p1 && p1[h] == p0[h]
  }

  /** An object whose members are being destroyed has no member among the spared handles. */
  lemma NotSpared<P, O>(b: Memory<P, O>, m: Memory<P, O>, stale: set<P>, o: O, i: nat)
    requires Consistent(m) && Cascade(b, m) && Spared(b, stale) && o in Since(b, m)
    requires o in m.layout && i < |m.layout[o]|
    ensures m.layout[o][i] !in stale
  {
    hide Outlives, Closed, Justified, Counted, FreedOnce;
    var h := m.layout[o][i];
    if h in stale {
      OutlivesNow(b, m, h, o);
    }
  }

  lemma IdleTwice<P, V>(p0: map<P, V>, p1: map<P, V>, p2: map<P, V>, busy0: set<P>, busy1: set<P>)
    requires Idle(p0, p1, busy0) && Idle(p1, p2, busy1) && busy1 <= busy0
    ensures Idle(p0, p2, busy0)
    ensures forall h :: h in p1.Keys - busy1 ==> h in p2 && p2[h] == p1[h]
  {}

  lemma IdleMore<P, V>(p0: map<P, V>, p1: map<P, V>, busy: set<P>, more: set<P>)
    requires Idle(p0, p1, busy) && busy <= more
    ensures Idle(p0, p1, more)
  {}

  lemma IdleSame<P, V>(p: map<P, V>, busy: set<P>)
    ensures Idle(p, p, busy)
  {}

  lemma IdleExcept<P, V>(p0: map<P, V>, p1: map<P, V>, busy: set<P>, h: P, v: V)
    requires Idle(p0, p1, busy)
    ensures Idle(p0, p1[h := v], busy + {h}) && (h in busy ==> Idle(p0, p1 - {h}, busy))
    ensures h in p0 && h !in busy ==> h in p1 && p1[h] == p0[h]
  {}
}
