/** The reference counts of LuaBridge's `RefCountedPtr`: one table for the whole program maps
    an object's address to its count.  Entries are never erased, so the entry of a freed
    address must be back at zero by the time the address is handed out again.

    Memory is a class whose maps hold what is stored at each address; address 0 is null. */
module TableCount {
  import opened Options
  import opened Ownership
  import opened TableInvariant
  import opened TableSteps

  /** The program: the table is its static variable, and the handles' methods are its code. */
  class Program {
    var refCounts: map<nat, int>
    var pointee: map<nat, nat>
    var members: map<nat, seq<nat>>
    ghost var m: Memory<nat, Obj>
    ghost var id: map<nat, Obj>
    ghost var births: nat
    ghost var resetting: set<nat>

    ghost function Now(): Image
      reads this
    {
      Image(refCounts, pointee, members, id, births, resetting)
    }

    /** What every operation finds and leaves behind: the entry of each live object is the
        number of handles on it, and every other address has none. */
    ghost predicate Ready()
      reads this
    {
      Matches(m, Now()) && Valid(m) && resetting == {}
    }

    constructor ()
      ensures Ready() && m == EmptyMemory()
    {
      hide Valid, Matches;
      EmptyIsValid<nat, Obj>();
      EmptyMatches();
      refCounts, pointee, members := map[], map[], map[];
      m := EmptyMemory();
      id, births, resetting := map[], 0, {};
    }

    /** `RefCountedPtr(T* p)` for a variable at `h`; with `p` taken from another handle this
        is the copy constructor. */
    method Construct(h: nat, p: nat)
      requires Ready() && h !in m.target && (p != 0 ==> p in members) && |m.target| < INT_MAX
      modifies this
      ensures Ready() && id == old(id) && members == old(members) && pointee == old(pointee)[h := p]
      ensures m == old(NewHandle(m, h, At(Now(), p)))
    {
      hide Valid, Matches;
      NewHandleMatches(m, Now(), h, p);
      NewHandleKeeps(m, h, At(Now(), p));
      m := NewHandle(m, h, At(Now(), p));
      pointee := pointee[h := p];
      refCounts := refCounts[p := Lookup(refCounts, p) + 1];
    }

    /** `new T` at the free address `a`; its member handles are declared next. */
    method Allocate(a: nat)
      requires Ready() && a != 0 && a !in members
      modifies this
      ensures Ready() && a in members && m == AddObject(old(m), Obj(a, old(births))) && Lookup(refCounts, a) == 0
      ensures a in id && id[a] == Obj(a, old(births)) && members[a] == []
    {
      hide Valid, Matches;
      NewObjectMatches(m, Now(), a) by { ValidCounted(m); }
      AddObjectKeeps(m, Obj(a, births));
      m := AddObject(m, Obj(a, births));
      members, id, births := members[a := []], id[a := Obj(a, births)], births + 1;
      Live(m, Now(), a);
    }

    method DeclareMember(a: nat, h: nat)
      requires Ready() && a in members && h !in m.target && |m.target| < INT_MAX
      modifies this
      ensures Ready() && members == old(members)[a := old(members[a]) + [h]]
      ensures id == old(id) && a in id && id[a] in old(m).layout && m == AddMember(old(m), id[a], h)
    {
      hide Valid, Matches;
      Live(m, Now(), a);
      NewMemberMatches(m, Now(), a, h);
      AddMemberKeeps(m, id[a], h);
      m := AddMember(m, id[a], h);
      members, pointee := members[a := members[a] + [h]], pointee[h := 0];
    }

    // ---- releasing ----

    /** The second half of `reset()`: the entry goes down, at zero the object is deleted, and
        `m_p` is cleared.  `b` is memory as it was when the release began. */
    method Release(h: nat, ghost b: Memory<nat, Obj>)
      requires Matches(m, Now()) && Consistent(m) && Cascade(b, m) && Spared(b, resetting)
      requires h in pointee && pointee[h] in members
      requires m.detached == At(Now(), pointee[h]) && id[pointee[h]] !in m.dying
      requires h in m.target ==> h in resetting
      modifies this
      ensures Matches(m, Now()) && Consistent(m) && Cascade(b, m)
      ensures m.detached == None && Smaller(old(m), m) && m.dying == old(m.dying)
      ensures id == old(id) && resetting == old(resetting) && h in pointee && pointee[h] == 0
      ensures Idle(old(pointee), pointee, old(m.target.Keys) - resetting + {h})
      ensures old(pointee[h]) in members <==> old(Lookup(refCounts, pointee[h])) > 1
      decreases m.layout.Keys - m.dying.Keys, 1
    {
      hide Consistent, Cascade, Smaller, Since, Matches, On, Lower, Spared, Idle;
      var p := pointee[h];
      ghost var busy := m.target.Keys - resetting;
      Live(m, Now(), p);
      LowerEntry(b, m, Now(), p);
      IdleSame(pointee, busy);
      refCounts, m := refCounts[p := Lookup(refCounts, p) - 1], Lower(m, id[p]);
      if refCounts[p] <= 0 {
        ghost var m1 := m;
        Delete(p, b);
        SmallerTwice(b, old(m), m1, m);
      }
      SmallerSize(old(m), m);
      ClearMatches(m, Now(), h);
      IdleExcept(old(pointee), pointee, busy, h, 0);
      pointee := pointee[h := 0];
    }

    /** `delete m_p`: the member handles are destroyed in reverse order of declaration. */
    method Delete(p: nat, ghost b: Memory<nat, Obj>)
      requires Matches(m, Now()) && Consistent(m) && Cascade(b, m) && Spared(b, resetting)
      requires p in members && p in id && id[p] in m.dying && m.dying[id[p]] == |members[p]|
      requires m.detached == None && id[p] in Since(b, m)
      modifies this
      ensures Matches(m, Now()) && Consistent(m) && Cascade(b, m)
      ensures m.detached == None && Smaller(old(m), m) && m.dying == old(m.dying) - {old(id[p])}
      ensures id == old(id) && resetting == old(resetting) && p !in members
      ensures Idle(old(pointee), pointee, old(m.target.Keys) - resetting)
      decreases m.layout.Keys - m.dying.Keys, 4
    {
      hide Consistent, Cascade, Smaller, Since, Matches, On, Free, Spared, Idle;
      DestroyMembers(p, b);
      Live(m, Now(), p);
      DyingHasNoCount(m, id[p]);
      FreeMatches(m, Now(), p);
      FreeKeeps(b, m, id[p]);
      SmallerSteps(old(m), m, id[p]);
      FreeStep(m, id[p]);
      members, m := members - {p}, Free(m, id[p]);
    }

    method DestroyMembers(p: nat, ghost b: Memory<nat, Obj>)
      requires Matches(m, Now()) && Consistent(m) && Cascade(b, m) && Spared(b, resetting)
      requires p in members && p in id && id[p] in m.dying && m.dying[id[p]] == |members[p]|
      requires m.detached == None && id[p] in Since(b, m)
      modifies this
      ensures Matches(m, Now()) && Consistent(m) && Cascade(b, m) && p in members
      ensures m.detached == None && Smaller(old(m), m) && m.dying == old(m.dying)[old(id[p]) := 0]
      ensures id == old(id) && resetting == old(resetting) && id[p] in Since(b, m)
      ensures Idle(old(pointee), pointee, old(m.target.Keys) - resetting)
      decreases m.layout.Keys - m.dying.Keys, 3
    {
      hide Consistent, Cascade, Smaller, Since, Matches, On, Spared, Idle;
      ghost var o, busy := id[p], m.target.Keys - resetting;
      SmallerSame(m);
      IdleSame(pointee, busy);
      var i := |members[p]|;
      while i > 0
        invariant p in members && 0 <= i <= |members[p]|
        invariant Matches(m, Now()) && Consistent(m) && Cascade(b, m)
        invariant m.detached == None && Smaller(old(m), m) && m.dying == old(m.dying)[o := i]
        invariant id == old(id) && resetting == old(resetting) && o in Since(b, m)
        invariant Idle(old(pointee), pointee, busy)
      {
        ghost var m1, p1 := m, pointee;
        Live(m, Now(), p);
        NextMember(m, o);
        SmallerSize(old(m), m);
        NotSpared(b, m, resetting, o, i - 1);
        i := i - 1;
        Destroy(members[p][i], b);
        SmallerTwice(b, old(m), m1, m);
        IdleTwice(old(pointee), p1, pointee, busy, m1.target.Keys - resetting);
        StillDying(m, Now(), o, p);
      }
    }

    /** The destructor. */
    method Destroy(h: nat, ghost b: Memory<nat, Obj>)
      requires Matches(m, Now()) && Consistent(m) && m.detached == None && Spared(b, resetting)
      requires h in m.target && h in m.place && h !in resetting
      requires match m.place[h]
               case Variable => b == End(m, h)
               case Member(o, i) =>
                 Cascade(b, m) && o in Since(b, m) && o in m.dying && m.dying[o] == i + 1
      modifies this
      ensures Matches(m, Now()) && Consistent(m) && Cascade(b, m)
      ensures m.detached == None && Smaller(old(m), m)
      ensures match old(m.place[h])
              case Variable => m.dying == old(m.dying)
              case Member(o, i) => m.dying == old(m.dying)[o := i]
      ensures id == old(id) && resetting == old(resetting)
      ensures Idle(old(pointee), pointee, old(m.target.Keys) - resetting)
      decreases m.layout.Keys - m.dying.Keys, 2
    {
      hide Consistent, Cascade, Smaller, Since, Matches, On, Spared, Idle;
      ghost var m0, busy := m, m.target.Keys - resetting;
      HeldIsLive(m, Now(), h);
      EndMatches(m, Now(), h);
      EndKeeps(b, m, h);
      m := End(m, h);
      EndSmaller(m0, h);
      SmallerSame(m);
      IdleSame(pointee, busy);
      if pointee[h] != 0 {
        ghost var m1 := m;
        Release(h, b);
        SmallerTwice(b, m0, m1, m);
        IdleMore(old(pointee), pointee, m1.target.Keys - resetting + {h}, busy);
      }
      SmallerSize(End(m0, h), m);
      ForgetMatches(m, Now(), h);
      IdleExcept(old(pointee), pointee, busy, h, 0);
      pointee := pointee - {h};
    }

    // ---- what the program does with its handles ----

    /** A variable goes out of scope. */
    method Leave(h: nat)
      requires Ready() && h in m.target && h in m.place && m.place[h] == Variable
      modifies this
      ensures Ready() && Cascade(End(old(m), h), m)
    {
      hide Valid, Matches, Consistent, Cascade, Smaller, On, Idle, End, Outlives;
      ghost var b := End(m, h);
      ValidCounted(m);
      Destroy(h, b);
      Settled(b, m);
    }

    /** `reset()`.  The handle must not be destroyed by its own release. */
    method Reset(h: nat)
      requires Ready() && h in m.target
      requires pointee[h] != 0 ==> h in m.place && Survives(m, h, h)
      modifies this
      ensures Ready() && id == old(id) && h in m.target && pointee[h] == 0
      ensures old(pointee[h]) == 0 ==> m == old(m)
      ensures old(pointee[h]) != 0 ==> Cascade(Drop(old(m), h), m)
    {
      hide Valid, Matches, Consistent, Cascade, Smaller, On, Idle, Closed, Drop;
      ValidCounted(m);
      HeldIsLive(m, Now(), h);
      if pointee[h] != 0 {
        ghost var b := Drop(m, h);
        DropMatches(m, Now(), h);
        DropKeeps(m, h);
        DropStep(m, h);
        CascadeStarts(b);
        m, resetting := b, {h};
        Release(h, b);
        SettledHandle(b, m, h);
        ClearMatches(m, Now(), h);
        resetting := {};
      }
    }

    /** `operator=` from a pointer of the same type.  The old object is let go before the
        source is read, so both handles must outlive that. */
    method Assign(h: nat, g: nat) returns (ghost e: Memory<nat, Obj>)
      requires Ready() && h in m.target && g in m.target && g in m.place && h in m.place
      requires pointee[h] != 0 && pointee[h] != pointee[g] ==> Survives(m, h, h) && Survives(m, h, g)
      modifies this
      ensures Ready() && id == old(id) && h in m.target && pointee[h] == old(pointee[g])
      ensures old(pointee[h] == pointee[g]) ==> m == old(m)
      ensures old(pointee[h] != pointee[g]) ==> Replaced(old(m), h, old(At(Now(), pointee[g])), e, m)
    {
      e := m;
      if pointee[h] != pointee[g] {
        e := Replace(h, g);
      }
    }

    /** `operator=` from a pointer of another type: the same, but never skipped. */
    method AssignConverted(h: nat, g: nat) returns (ghost e: Memory<nat, Obj>)
      requires Ready() && h in m.target && g in m.target && g in m.place && h in m.place && h != g
      requires pointee[h] != 0 ==> Survives(m, h, h) && Survives(m, h, g)
      modifies this
      ensures Ready() && id == old(id) && h in m.target && pointee[h] == old(pointee[g])
      ensures Replaced(old(m), h, old(At(Now(), pointee[g])), e, m)
    {
      e := Replace(h, g);
    }

    method Replace(h: nat, g: nat) returns (ghost e: Memory<nat, Obj>)
      requires Ready() && h in m.target && g in m.target && g in m.place && h in m.place && h != g
      requires pointee[h] != 0 ==> Survives(m, h, h) && Survives(m, h, g)
      modifies this
      ensures Ready() && id == old(id) && h in m.target && pointee[h] == old(pointee[g])
      ensures Replaced(old(m), h, old(At(Now(), pointee[g])), e, m)
    {
      hide Valid, Matches, Consistent, Cascade, Smaller, On, Outlives, Drop, Take;
      HeldIsLive(m, Now(), h) by { ValidCounted(m); }
      ResetBeside(h, g);
      e := m;
      var p := pointee[g];
      NewTargetMatches(m, Now(), h, p);
      pointee := pointee[h := p];
      refCounts := refCounts[p := Lookup(refCounts, p) + 1];
      if p != 0 {
        TakeValid(m, h, id[p]);
        m := Take(m, h, id[p]);
      }
    }

    /** `reset()` when another handle has to outlive it as well. */
    method ResetBeside(h: nat, g: nat)
      requires Ready() && h in m.target && g in m.target && g in m.place && h in m.place && h != g
      requires pointee[h] != 0 ==> Survives(m, h, h) && Survives(m, h, g)
      modifies this
      ensures Ready() && id == old(id) && h in m.target && pointee[h] == 0 && m.target[h] == None
      ensures old(pointee[h]) == 0 ==> m == old(m)
      ensures old(pointee[h]) != 0 ==> Cascade(Drop(old(m), h), m)
      ensures g in m.target && g in pointee && pointee[g] == old(pointee[g])
      ensures pointee[g] != 0 ==> pointee[g] in members
    {
      hide Valid, Matches, Consistent, Cascade, Smaller, On, Outlives, Drop, Take;
      ghost var m0 := m;
      ValidCounted(m);
      HeldIsLive(m, Now(), g);
      DropStep(m, h);
      Reset(h);
      ValidCounted(m);
      if m != m0 {
        SettledHandle(Drop(m0, h), m, g);
      }
      HeldIsLive(m, Now(), h);
      HeldIsLive(m, Now(), g);
      SamePointer(m0, old(Now()), m, Now(), g);
    }
  }
}
