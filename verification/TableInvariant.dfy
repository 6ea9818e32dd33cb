/** The table of reference counts that LuaBridge's `RefCountedPtr` keeps by address, and how
    each step of a program keeps it in accord with the handles there are. */
module TableInvariant {
  import opened Options
  import opened Ownership

  const INT_MAX := 0x7FFF_FFFF

  /** An object, as opposed to the address it happens to have. */
  datatype Obj = Obj(address: nat, serial: nat)

  /** What memory holds, and which object is (or was last) at each address. */
  datatype Image = Image(
    refCounts: map<nat, int>,       // the table
    pointee: map<nat, nat>,         // `m_p` of every handle
    members: map<nat, seq<nat>>,    // the live objects, with their member handles
    id: map<nat, Obj>,
    births: nat,
    resetting: set<nat>)            // handles whose `m_p` is about to be cleared

  /** What a pointer points to. */
  function At(s: Image, a: nat): Option<Obj> {
    if a != 0 && a in s.id then Some(s.id[a]) else None
  }

  /** Reading an absent entry of the table makes it zero. */
  function Lookup(refCounts: map<nat, int>, a: nat): int {
    if a in refCounts then refCounts[a] else 0
  }

  /** Every handle holds what it points to, or nothing any more if it is being reset. */
  ghost predicate Pointing(m: Memory<nat, Obj>, s: Image) {
    forall h :: h in m.target ==>
      && h in s.pointee
      && (h !in s.resetting ==>
            (s.pointee[h] == 0 || s.pointee[h] in s.id) && m.target[h] == At(s, s.pointee[h]))
      && (h in s.resetting ==> m.target[h] == None)
  }

  /** Every live object is the one at its address, and its members are recorded there ... */
  ghost predicate Housed(m: Memory<nat, Obj>, s: Image) {
    forall o :: o in m.layout ==>
      At(s, o.address) == Some(o) && o.address in s.members && s.members[o.address] == m.layout[o]
  }

  /** ... and what is recorded at an address belongs to a live object, each with an identity
      of its own. */
  ghost predicate Known(m: Memory<nat, Obj>, s: Image) {
    && m.count.Keys == m.layout.Keys
    && (forall a :: a in s.members ==> a != 0 && a in s.id && s.id[a] in m.layout)
    && (forall a :: a in s.id ==> s.id[a].address == a && s.id[a].serial < s.births)
    && (forall o :: o in m.freed ==> o.serial < s.births)
  }

  ghost predicate Located(m: Memory<nat, Obj>, s: Image) {
    Housed(m, s) && Known(m, s)
  }

  /** The entry of a live object is its count; every other entry is zero. */
  ghost predicate Tabled(m: Memory<nat, Obj>, s: Image) {
    && (forall a :: a in s.members ==>
          a in s.id && s.id[a] in m.count && Lookup(s.refCounts, a) == m.count[s.id[a]])
    && (forall a :: a in s.refCounts && a != 0 && a !in s.members ==> s.refCounts[a] == 0)
  }

  ghost predicate Matches(m: Memory<nat, Obj>, s: Image) {
    Pointing(m, s) && Located(m, s) && Tabled(m, s) && |m.target| <= INT_MAX
  }

  function Bump(s: Image, p: nat, change: int): Image {
    s.(refCounts := s.refCounts[p := Lookup(s.refCounts, p) + change])
  }

  /** Memory with a new object at the free address `a`. */
  function Born(s: Image, a: nat): Image {
    s.(members := s.members[a := []], id := s.id[a := Obj(a, s.births)], births := s.births + 1)
  }
}

/** Each step of a program keeps the table, the handles and memory in accord. */
module TableSteps {
  import opened Options
  import opened Ownership
  import opened TableInvariant

  lemma EmptyMatches()
    ensures Matches(EmptyMemory(), Image(map[], map[], map[], map[], 0, {}))
  {}

  lemma Live(m: Memory<nat, Obj>, s: Image, p: nat)
    requires Matches(m, s) && p in s.members
    ensures p != 0 && p in s.id && s.id[p] in m.layout && s.id[p] in m.count && At(s, p) == Some(s.id[p])
    ensures s.members[p] == m.layout[s.id[p]] && Lookup(s.refCounts, p) == m.count[s.id[p]]
  {}

  lemma HeldIsLive(m: Memory<nat, Obj>, s: Image, h: nat)
    requires Matches(m, s) && Consistent(m) && h in m.target && h !in s.resetting
    ensures h in s.pointee && h in m.place && m.target[h] == At(s, s.pointee[h])
    ensures s.pointee[h] != 0 ==> s.pointee[h] in s.members && m.target[h] == Some(s.id[s.pointee[h]])
  {}

  lemma AddHandleMatches(m: Memory<nat, Obj>, s: Image, h: nat, counts: map<nat, int>)
    requires Matches(m, s) && |m.target| < INT_MAX && h !in s.resetting
    requires forall a :: a != 0 ==> Lookup(counts, a) == Lookup(s.refCounts, a)
    ensures Matches(AddHandle(m, h), s.(refCounts := counts, pointee := s.pointee[h := 0]))
  {
    hide Located;
    AddHandleLocated(m, s, h, counts);
    AddHandleTabled(m, s, h, counts);
  }

  lemma AddHandleLocated(m: Memory<nat, Obj>, s: Image, h: nat, counts: map<nat, int>)
    requires Located(m, s)
    ensures Located(AddHandle(m, h), s.(refCounts := counts, pointee := s.pointee[h := 0]))
  {}

  lemma AddHandleTabled(m: Memory<nat, Obj>, s: Image, h: nat, counts: map<nat, int>)
    requires Tabled(m, s) && forall a :: a != 0 ==> Lookup(counts, a) == Lookup(s.refCounts, a)
    requires Located(m, s)
    ensures Tabled(AddHandle(m, h), s.(refCounts := counts, pointee := s.pointee[h := 0]))
  {
    forall a | a in counts && a != 0 && a !in s.members ensures counts[a] == 0 {
      assert Lookup(counts, a) == Lookup(s.refCounts, a);
    }
  }

  lemma NewHandleMatches(m: Memory<nat, Obj>, s: Image, h: nat, p: nat)
    requires Matches(m, s) && |m.target| < INT_MAX && h !in s.resetting && (p != 0 ==> p in s.members)
    ensures At(s, p).Some? ==> At(s, p).value in m.count
    ensures Matches(NewHandle(m, h, At(s, p)), Bump(s, p, 1).(pointee := s.pointee[h := p]))
  {
    hide Matches;
    if p == 0 {
      AddHandleMatches(m, s, h, Bump(s, p, 1).refCounts);
    } else {
      Live(m, s, p);
      AddHandleMatches(m, s, h, s.refCounts);
      TakeMatches(AddHandle(m, h), s.(pointee := s.pointee[h := 0]), h, p);
      assert s.pointee[h := 0][h := p] == s.pointee[h := p];
    }
  }

  lemma NewObjectMatches(m: Memory<nat, Obj>, s: Image, a: nat)
    requires Matches(m, s) && Counted(m) && a != 0 && a !in s.members
    ensures Obj(a, s.births) !in m.layout && Obj(a, s.births) !in m.freed
    ensures Matches(AddObject(m, Obj(a, s.births)), Born(s, a))
  {
    hide Counted, Pointing, Located, Tabled;
    NewObjectPointing(m, s, a);
    FreshIdentity(m, s, a);
    NewObjectLocated(m, s, a);
    NewObjectTabled(m, s, a);
  }

  lemma NewObjectPointing(m: Memory<nat, Obj>, s: Image, a: nat)
    requires Pointing(m, s) && Located(m, s) && Counted(m) && a != 0 && a !in s.members
    ensures Pointing(AddObject(m, Obj(a, s.births)), Born(s, a))
  {
    forall h | h in m.target && m.target[h].Some? ensures m.target[h].value.address in s.members {}
  }

  lemma NewObjectLocated(m: Memory<nat, Obj>, s: Image, a: nat)
    requires Located(m, s) && a != 0 && a !in s.members
    ensures Located(AddObject(m, Obj(a, s.births)), Born(s, a))
  {
    hide Housed, Known;
    NewObjectHoused(m, s, a);
    NewObjectKnown(m, s, a);
  }

  lemma NewObjectHoused(m: Memory<nat, Obj>, s: Image, a: nat)
    requires Located(m, s) && a != 0 && a !in s.members
    ensures Housed(AddObject(m, Obj(a, s.births)), Born(s, a))
  {}

  lemma NewObjectKnown(m: Memory<nat, Obj>, s: Image, a: nat)
    requires Located(m, s) && a != 0 && a !in s.members
    ensures Known(AddObject(m, Obj(a, s.births)), Born(s, a))
  {}

  lemma FreshIdentity(m: Memory<nat, Obj>, s: Image, a: nat)
    requires Located(m, s)
    ensures Obj(a, s.births) !in m.layout && Obj(a, s.births) !in m.freed
  {}

  lemma NewObjectTabled(m: Memory<nat, Obj>, s: Image, a: nat)
    requires Tabled(m, s) && Located(m, s) && a != 0 && a !in s.members
    ensures Tabled(AddObject(m, Obj(a, s.births)), Born(s, a))
  {}

  lemma NewMemberMatches(m: Memory<nat, Obj>, s: Image, a: nat, h: nat)
    requires Matches(m, s) && a in s.members && |m.target| < INT_MAX && h !in s.resetting
    ensures a in s.id && s.id[a] in m.layout
    ensures Matches(AddMember(m, s.id[a], h),
                    s.(members := s.members[a := s.members[a] + [h]], pointee := s.pointee[h := 0]))
  {
    hide Located;
    NewMemberLocated(m, s, a, h);
  }

  lemma NewMemberLocated(m: Memory<nat, Obj>, s: Image, a: nat, h: nat)
    requires Located(m, s) && a in s.members
    ensures a in s.id && s.id[a] in m.layout && s.id[a].address == a
    ensures Located(AddMember(m, s.id[a], h),
                    s.(members := s.members[a := s.members[a] + [h]], pointee := s.pointee[h := 0]))
  {}

  lemma DropMatches(m: Memory<nat, Obj>, s: Image, h: nat)
    requires Matches(m, s) && h in m.target
    ensures Matches(Drop(m, h), s.(resetting := s.resetting + {h}))
  {}

  lemma EndMatches(m: Memory<nat, Obj>, s: Image, h: nat)
    requires Matches(m, s) && h in m.target && h in m.place
    ensures Matches(End(m, h), s)
  {
    Subset(End(m, h).target.Keys, m.target.Keys);
  }

  lemma LowerMatches(m: Memory<nat, Obj>, s: Image, p: nat)
    requires Matches(m, s) && p in s.members
    ensures p in s.id && s.id[p] in m.layout
    ensures Matches(Lower(m, s.id[p]), Bump(s, p, -1))
  {
    hide Located, Pointing, Tabled;
    LowerPointing(m, s, p);
    LowerLocated(m, s, p);
    LowerTabled(m, s, p);
  }

  /** What `--getRefCounts()[m_p]` comes to. */
  lemma LowerEntry(b: Memory<nat, Obj>, m: Memory<nat, Obj>, s: Image, p: nat)
    requires Matches(m, s) && Consistent(m) && Cascade(b, m) && p in s.members
    requires m.detached == At(s, p) && p in s.id && s.id[p] !in m.dying
    ensures var o, n := s.id[p], Lookup(s.refCounts, p);
            && o in m.layout && o in m.count && m.detached == Some(o) && n > 0
            && Matches(Lower(m, o), Bump(s, p, -1))
            && Consistent(Lower(m, o)) && Cascade(b, Lower(m, o))
            && Lower(m, o).target == m.target && Lower(m, o).detached == None && Smaller(m, Lower(m, o))
            && if n == 1
               then
                 && Lower(m, o).dying == m.dying[o := |m.layout[o]|]
                 && s.members[p] == m.layout[o] && o in Since(b, Lower(m, o))
                 && Lower(m, o).layout.Keys - Lower(m, o).dying.Keys < m.layout.Keys - m.dying.Keys
               else Lower(m, o).dying == m.dying
  {
    hide Consistent, Cascade, Smaller, Since, Matches, On, Lower;
    Live(m, s, p);
    LowerMatches(m, s, p);
    LowerKeeps(b, m, s.id[p]);
    LowerStep(m, s.id[p]);
  }

  lemma LowerLocated(m: Memory<nat, Obj>, s: Image, p: nat)
    requires Located(m, s) && p in s.members
    ensures p in s.id && s.id[p] in m.layout
    ensures Located(Lower(m, s.id[p]), Bump(s, p, -1))
  {}

  lemma LowerPointing(m: Memory<nat, Obj>, s: Image, p: nat)
    requires Pointing(m, s) && Located(m, s) && p in s.members
    ensures p in s.id && s.id[p] in m.layout
    ensures Pointing(Lower(m, s.id[p]), Bump(s, p, -1))
  {}

  lemma LowerTabled(m: Memory<nat, Obj>, s: Image, p: nat)
    requires Tabled(m, s) && Located(m, s) && p in s.members
    ensures Tabled(Lower(m, s.id[p]), Bump(s, p, -1))
  {
    hide Housed;
    forall a | a in s.members && a != p ensures s.id[a] != s.id[p] {}
  }

  lemma FreeMatches(m: Memory<nat, Obj>, s: Image, p: nat)
    requires Matches(m, s) && p in s.members && p in s.id && s.id[p] in m.count && m.count[s.id[p]] == 0
    ensures Matches(Free(m, s.id[p]), s.(members := s.members - {p}))
  {
    hide Located, Tabled;
    FreeLocated(m, s, p);
    FreeTabled(m, s, p);
  }

  lemma FreeTabled(m: Memory<nat, Obj>, s: Image, p: nat)
    requires Tabled(m, s) && Located(m, s) && p in s.members && p in s.id && s.id[p] in m.count && m.count[s.id[p]] == 0
    ensures Tabled(Free(m, s.id[p]), s.(members := s.members - {p}))
  {
    FreeLocated(m, s, p);
  }

  lemma FreeLocated(m: Memory<nat, Obj>, s: Image, p: nat)
    requires Located(m, s) && p in s.members && p in s.id
    ensures Located(Free(m, s.id[p]), s.(members := s.members - {p}))
    ensures forall a :: a in s.members - {p} ==> a in s.id && s.id[a] != s.id[p]
  {
    forall a | a in s.members && a != p ensures s.id[a] != s.id[p] {}
  }

  /** `m_p = 0` at the end of a reset; the handle may be gone already. */
  lemma ClearMatches(m: Memory<nat, Obj>, s: Image, h: nat)
    requires Matches(m, s) && (h in m.target ==> h in s.resetting)
    ensures Matches(m, s.(pointee := s.pointee[h := 0]))
    ensures h in s.pointee && s.pointee[h] == 0 ==> Matches(m, s.(resetting := s.resetting - {h}))
  {
    hide Located, Tabled, Pointing;
    ClearPointing(m, s, h);
    ClearOthers(m, s, s.(pointee := s.pointee[h := 0]));
    ClearOthers(m, s, s.(resetting := s.resetting - {h}));
  }

  lemma ClearPointing(m: Memory<nat, Obj>, s: Image, h: nat)
    requires Pointing(m, s) && (h in m.target ==> h in s.resetting)
    ensures Pointing(m, s.(pointee := s.pointee[h := 0]))
    ensures h in s.pointee && s.pointee[h] == 0 ==> Pointing(m, s.(resetting := s.resetting - {h}))
  {}

  /** Objects and entries do not depend on what the handles point to. */
  lemma ClearOthers(m: Memory<nat, Obj>, s: Image, s': Image)
    requires Located(m, s) && Tabled(m, s) && s' == s.(pointee := s'.pointee, resetting := s'.resetting)
    ensures Located(m, s') && Tabled(m, s')
  {}

  lemma ForgetMatches(m: Memory<nat, Obj>, s: Image, h: nat)
    requires Matches(m, s) && h !in m.target
    ensures Matches(m, s.(pointee := s.pointee - {h}))
  {}

  lemma TakeMatches(m: Memory<nat, Obj>, s: Image, h: nat, p: nat)
    requires Matches(m, s) && h in m.target && h !in s.resetting && p in s.members && m.target[h] == None
    ensures p in s.id && s.id[p] in m.count
    ensures Matches(Take(m, h, s.id[p]), Bump(s, p, 1).(pointee := s.pointee[h := p]))
  {
    hide Located, Tabled, Pointing;
    TakeLocated(m, s, h, p);
    TakePointing(m, s, h, p);
    TakeTabled(m, s, h, p);
    assert Take(m, h, s.id[p]).target.Keys == m.target.Keys;
  }

  lemma TakeLocated(m: Memory<nat, Obj>, s: Image, h: nat, p: nat)
    requires Located(m, s) && p in s.members
    ensures p in s.id && s.id[p] in m.count
    ensures Located(Take(m, h, s.id[p]), Bump(s, p, 1).(pointee := s.pointee[h := p]))
  {}

  lemma TakePointing(m: Memory<nat, Obj>, s: Image, h: nat, p: nat)
    requires Located(m, s) && Pointing(m, s) && h in m.target && h !in s.resetting && p in s.members
    ensures p in s.id && s.id[p] in m.count
    ensures Pointing(Take(m, h, s.id[p]), Bump(s, p, 1).(pointee := s.pointee[h := p]))
  {
    hide Housed;
  }

  lemma TakeTabled(m: Memory<nat, Obj>, s: Image, h: nat, p: nat)
    requires Tabled(m, s) && Located(m, s) && p in s.members
    ensures Tabled(Take(m, h, s.id[p]), Bump(s, p, 1).(pointee := s.pointee[h := p]))
  {}

  lemma SamePointer(m0: Memory<nat, Obj>, s0: Image, m: Memory<nat, Obj>, s: Image, g: nat)
    requires Matches(m0, s0) && Matches(m, s) && g in m0.target && g in m.target && s.id == s0.id
    requires g !in s0.resetting && g !in s.resetting && m.target[g] == m0.target[g]
    ensures g in s0.pointee && g in s.pointee && s.pointee[g] == s0.pointee[g]
  {}

  lemma NewTargetMatches(m: Memory<nat, Obj>, s: Image, h: nat, p: nat)
    requires Matches(m, s) && h in m.target && h !in s.resetting && m.target[h] == None && (p != 0 ==> p in s.members)
    ensures p == 0 ==> Matches(m, Bump(s, p, 1).(pointee := s.pointee[h := p]))
    ensures p != 0 ==> p in s.id && s.id[p] in m.count &&
                       Matches(Take(m, h, s.id[p]), Bump(s, p, 1).(pointee := s.pointee[h := p]))
  {
    if p != 0 {
      TakeMatches(m, s, h, p);
    }
  }

  /** The entry of an object's address is the number of handles on it; all others are zero. */
  lemma EntryIsHandles(m: Memory<nat, Obj>, s: Image, a: nat)
    requires Matches(m, s) && Valid(m) && a != 0
    ensures a in s.members ==> a in s.id && Lookup(s.refCounts, a) == |On(m, s.id[a])|
    ensures a !in s.members ==> Lookup(s.refCounts, a) == 0
  {}

  lemma StillDying(m: Memory<nat, Obj>, s: Image, o: Obj, p: nat)
    requires Matches(m, s) && Consistent(m) && o in m.dying && p in s.id && s.id[p] == o
    ensures p in s.members && s.members[p] == m.layout[o] && m.dying[o] <= |m.layout[o]|
  {}
}
