/** The reference counts of `NDRefCounted`: the handles on an object share a counter that lives
    in a cell of its own.  The cell is deleted right after the object.

    Memory is a class whose maps hold what is stored at each handle, object and cell. */
module CellCount {
  import opened Options
  import opened Ownership
  import opened CellInvariant
  import opened CellSteps

  class Program {
    var pObject: map<nat, Option<nat>>
    var pCount: map<nat, nat>
    var counter: map<nat, int>
    var members: map<nat, seq<nat>>
    ghost var m: Memory<nat, nat>
    ghost var cell: map<nat, nat>
    ghost var owner: map<nat, nat>
    ghost var stale: set<nat>

    ghost function Now(): Image
      reads this
    {
      Image(pObject, pCount, counter, members, cell, owner, stale)
    }

    /** What every operation finds and leaves behind. */
    ghost predicate Ready()
      reads this
    {
      Matches(m, Now()) && Valid(m) && stale == {}
    }

    constructor ()
      ensures Ready() && m == EmptyMemory() && counter == map[]
    {
      hide Valid, Matches;
      EmptyIsValid<nat, nat>();
      EmptyMatches();
      pObject, pCount, counter, members := map[], map[], map[], map[];
      m := EmptyMemory();
      cell, owner, stale := map[], map[], {};
    }

    // ---- handles and objects come into being ----

    method Default(h: nat)
      requires Ready() && h !in m.target && |m.target| + 1 < Width
      modifies this
      ensures Ready() && m == old(AddHandle(m, h)) && counter == old(counter)
      ensures h in pObject && pObject[h] == None
    {
      hide Valid, Matches;
      AddHandleMatches(m, Now(), h);
      AddHandleKeeps(m, h);
      m := AddHandle(m, h);
      pObject, pCount := pObject[h := None], pCount[h := 0];
    }

    /** The constructor from a raw pointer, which makes the cell, at a free place `c`.  The
        object must not have been wrapped before. */
    method Wrap(h: nat, p: Option<nat>, c: nat)
      requires Ready() && h !in m.target && |m.target| + 1 < Width
      requires p.Some? ==> p.value in m.unwrapped && c != 0 && c !in counter
      modifies this
      ensures Ready() && h in pObject && pObject[h] == p
      ensures p.Some? ==> p.value in old(m).count && counter == old(counter)[c := 1]
      ensures p == None ==> counter == old(counter)
      ensures m == NewHandle(old(m), h, p)
    {
      hide Valid, Matches, NewHandle;
      WrapAny(m, Now(), h, p, c);
      m := NewHandle(m, h, p);
      if p.Some? {
        cell, owner, counter := cell[p.value := c], owner[c := p.value], counter[c := 1];
      }
      pObject, pCount := pObject[h := p], pCount[h := if p.Some? then c else 0];
    }

    /** The copy constructor. */
    method Copy(h: nat, g: nat)
      requires Ready() && h !in m.target && g in m.target && |m.target| + 1 < Width
      modifies this
      ensures Ready() && g in old(pObject) && h in pObject && pObject[h] == old(pObject[g])
      ensures pObject[h].Some? ==> pObject[h].value in old(m).count
      ensures m == NewHandle(old(m), h, pObject[h])
    {
      hide Valid, Matches, Consistent, Counted, On;
      ValidCounted(m);
      HeldIsLive(m, Now(), g);
      NewHandleKeeps(m, h, pObject[g]);
      CopyMatches(m, Now(), h, pObject[g]);
      m := NewHandle(m, h, pObject[g]);
      pObject, pCount := pObject[h := pObject[g]], pCount[h := pCount[g]];
      if pCount[h] != 0 {
        counter := counter[pCount[h] := (counter[pCount[h]] + 1) % Width];
      }
    }

    /** `new T`; its member handles are declared next. */
    method Allocate(o: nat)
      requires Ready() && o !in m.layout && o !in m.freed
      modifies this
      ensures Ready() && m == AddObject(old(m), o) && counter == old(counter)
    {
      hide Valid, Matches;
      NewObjectMatches(m, Now(), o);
      AddObjectKeeps(m, o);
      m := AddObject(m, o);
      members := members[o := []];
    }

    method DeclareMember(o: nat, h: nat)
      requires Ready() && o in m.layout && h !in m.target && |m.target| + 1 < Width
      modifies this
      ensures Ready() && m == AddMember(old(m), o, h) && counter == old(counter)
    {
      hide Valid, Matches;
      NewMemberMatches(m, Now(), o, h);
      AddMemberKeeps(m, o, h);
      m := AddMember(m, o, h);
      members := members[o := members[o] + [h]];
      pObject, pCount := pObject[h := None], pCount[h := 0];
    }

    // ---- releasing ----

    /** `releaseRef()`, for a handle that holds `o`: at zero the object is deleted, then the
        cell, and both fields are cleared.  `b` is memory as it was when the release began. */
    method Release(h: nat, ghost b: Memory<nat, nat>)
      requires Matches(m, Now()) && Consistent(m) && Cascade(b, m) && Spared(b, stale)
      requires h in pObject && pObject[h].Some? && m.detached == pObject[h] && pObject[h].value !in m.dying
      requires h in pCount && pCount[h] == CellOf(Now(), pObject[h])
      requires h in m.target ==> h in stale
      modifies this
      ensures Matches(m, Now()) && Consistent(m) && Cascade(b, m)
      ensures m.detached == None && Smaller(old(m), m) && m.dying == old(m.dying)
      ensures cell == old(cell) && owner == old(owner) && stale == old(stale)
      ensures Idle(old(pCount), pCount, old(m.target.Keys) - stale + {h})
      ensures old(pCount[h]) in old(counter)
      ensures old(pCount[h]) in counter <==> old(counter[pCount[h]]) > 1
      decreases m.layout.Keys - m.dying.Keys, 1
    {
      hide Consistent, Cascade, Smaller, Since, Matches, On, Lower, Spared, Idle, Free;
      var o := pObject[h].value;
      ghost var busy := m.target.Keys - stale;
      LowerCell(b, m, Now(), o);
      IdleSame(pCount, busy);
      counter, m := counter[pCount[h] := (counter[pCount[h]] - 1) % Width], Lower(m, o);
      if counter[pCount[h]] == 0 {
        ghost var m1 := m;
        DestroyMembers(o, b);
        SmallerTwice(b, old(m), m1, m);
        SmallerSteps(old(m), m, o);
        IdleExcept(old(pCount), pCount, busy, h, 0);
        GiveBack(h, o, b);
      } else {
        IdleMore(old(pCount), pCount, busy, busy + {h});
      }
    }

    /** The memory of the object, then that of its cell. */
    method GiveBack(h: nat, o: nat, ghost b: Memory<nat, nat>)
      requires Matches(m, Now()) && Consistent(m) && Cascade(b, m) && m.detached == None
      requires o in members && o in m.dying && m.dying[o] == 0 && o in Since(b, m)
      requires h in pCount && o in cell && pCount[h] == cell[o] && (h in m.target ==> h in stale)
      modifies this
      ensures Matches(m, Now()) && Consistent(m) && Cascade(b, m) && m == Free(old(m), o)
      ensures m.detached == None && m.dying == old(m.dying) - {o}
      ensures counter == old(counter) - {old(pCount[h])} && pCount == old(pCount)[h := 0]
      ensures cell == old(cell) && owner == old(owner) && stale == old(stale)
    {
      hide Consistent, Cascade, Smaller, Since, Matches, On, Free;
      StillDying(m, Now(), o);
      FreeMatches(m, Now(), o);
      FreeKeeps(b, m, o);
      FreeStep(m, o);
      ClearMatches(Free(m, o), Now().(members := members - {o}, counter := counter - {pCount[h]}), h);
      members, pObject := members - {o}, pObject[h := None];
      counter, pCount := counter - {pCount[h]}, pCount[h := 0];
      m := Free(m, o);
    }

    /** `delete m_pObject`: the member handles are destroyed in reverse order. */
    method DestroyMembers(o: nat, ghost b: Memory<nat, nat>)
      requires Matches(m, Now()) && Consistent(m) && Cascade(b, m) && Spared(b, stale)
      requires o in members && o in m.dying && m.dying[o] == |members[o]|
      requires m.detached == None && o in Since(b, m)
      modifies this
      ensures Matches(m, Now()) && Consistent(m) && Cascade(b, m) && o in members
      ensures m.detached == None && Smaller(old(m), m) && m.dying == old(m.dying)[o := 0]
      ensures cell == old(cell) && owner == old(owner) && stale == old(stale) && o in Since(b, m)
      ensures Idle(old(pCount), pCount, old(m.target.Keys) - stale)
      decreases m.layout.Keys - m.dying.Keys, 3
    {
      hide Consistent, Cascade, Smaller, Since, Matches, On, Spared, Idle;
      ghost var busy := m.target.Keys - stale;
      SmallerSame(m);
      IdleSame(pCount, busy);
      var i := |members[o]|;
      while i > 0
        invariant o in members && 0 <= i <= |members[o]|
        invariant Matches(m, Now()) && Consistent(m) && Cascade(b, m)
        invariant m.detached == None && Smaller(old(m), m) && m.dying == old(m.dying)[o := i]
        invariant cell == old(cell) && owner == old(owner) && stale == old(stale) && o in Since(b, m)
        invariant Idle(old(pCount), pCount, busy)
      {
        ghost var m1, p1 := m, pCount;
        StillDying(m, Now(), o);
        NextMember(m, o);
        SmallerSize(old(m), m);
        NotSpared(b, m, stale, o, i - 1);
        i := i - 1;
        Destroy(members[o][i], b);
        SmallerTwice(b, old(m), m1, m);
        IdleTwice(old(pCount), p1, pCount, busy, m1.target.Keys - stale);
        StillDying(m, Now(), o);
      }
    }

    /** The destructor. */
    method Destroy(h: nat, ghost b: Memory<nat, nat>)
      requires Matches(m, Now()) && Consistent(m) && m.detached == None && Spared(b, stale)
      requires h in m.target && h in m.place && h !in stale
      requires match m.place[h]
               case Variable => b == End(m, h)
               case Member(o, i) =>
                 Cascade(b, m) && o in Since(b, m) && o in m.dying && m.dying[o] == i + 1
      modifies this
      ensures Matches(m, Now()) && Consistent(m) && Cascade(b, m)
      ensures m.detached == None && Smaller(old(m), m)
      ensures match old(m.place[h])
              case Variable => m.dying == old(m.dying)
              case Member(o, i) => m.dying == old(m.dying)[o := i]
      ensures cell == old(cell) && owner == old(owner) && stale == old(stale)
      ensures Idle(old(pCount), pCount, old(m.target.Keys) - stale)
      decreases m.layout.Keys - m.dying.Keys, 2
    {
      hide Consistent, Cascade, Smaller, Since, Matches, On, Spared, Idle;
      ghost var m0, busy := m, m.target.Keys - stale;
      HeldIsLive(m, Now(), h);
      EndMatches(m, Now(), h);
      EndKeeps(b, m, h);
      m := End(m, h);
      EndSmaller(m0, h);
      SmallerSame(m);
      IdleSame(pCount, busy);
      if pObject[h].Some? {
        ghost var m1 := m;
        Release(h, b);
        SmallerTwice(b, m0, m1, m);
        IdleMore(old(pCount), pCount, m1.target.Keys - stale + {h}, busy);
      }
      SmallerSize(End(m0, h), m);
      ForgetMatches(m, Now(), h);
      IdleExcept(old(pCount), pCount, busy, h, 0);
      pObject, pCount := pObject - {h}, pCount - {h};
    }

    /** A variable goes out of scope. */
    method Leave(h: nat)
      requires Ready() && h in m.target && h in m.place && m.place[h] == Variable
      modifies this
      ensures Ready() && Cascade(End(old(m), h), m)
    {
      hide Valid, Matches, Consistent, Cascade, Smaller, On, Idle, End, Outlives;
      ghost var b := End(m, h);
      ValidCounted(m);
      Destroy(h, b);
      Settled(b, m);
    }

    // ---- assignment ----

    /** `operator=`: the old object is let go before the source is read, so both handles must
        outlive that. */
    method Assign(h: nat, g: nat) returns (ghost e: Memory<nat, nat>)
      requires Ready() && h in m.target && g in m.target && g in m.place && h in m.place
      requires pObject[h].Some? && h != g ==> Survives(m, h, h) && Survives(m, h, g)
      modifies this
      ensures Ready() && h in pObject && g in old(pObject) && pObject[h] == old(pObject[g])
      ensures h == g ==> m == old(m)
      ensures h != g ==> Replaced(old(m), h, pObject[h], e, m)
    {
      hide Valid, Matches, Consistent, On, Drop, Take, Survives, Cascade;
      e := m;
      ValidCounted(m);
      HeldIsLive(m, Now(), g);
      if h != g {
        LetGo(h, g);
        e := m;
        TakeOver(h, g);
      }
    }

    /** The first half of an assignment; the fields of the handle are not yet set anew. */
    method LetGo(h: nat, g: nat)
      requires Ready() && h in m.target && g in m.target && g in m.place && h in m.place && h != g
      requires pObject[h].Some? ==> Survives(m, h, h) && Survives(m, h, g)
      modifies this
      ensures Matches(m, Now()) && Valid(m) && stale == {h}
      ensures h in m.target && m.target[h] == None && g in m.target && m.target[g] == old(m.target[g])
      ensures if old(m.target[h]) == None then m == old(m) else Cascade(Drop(old(m), h), m)
    {
      hide Valid, Matches, Consistent, Cascade, Smaller, On, Idle, Closed, Drop, Outlives;
      ghost var b := Drop(m, h);
      ValidCounted(m);
      HeldIsLive(m, Now(), h);
      DropStep(m, h);
      DropNothing(m, h);
      DropMatches(m, Now(), h);
      assert stale + {h} == {h};
      stale := {h};
      if pObject[h].Some? {
        DropKeeps(m, h);
        CascadeStarts(b);
        m := b;
        Release(h, b);
        SettledHandle(b, m, h);
        SettledHandle(b, m, g);
      }
    }

    /** The second half: the fields are copied, and the cell counts one handle more. */
    method TakeOver(h: nat, g: nat)
      requires Matches(m, Now()) && Valid(m) && stale == {h} && h != g
      requires h in m.target && m.target[h] == None && g in m.target
      modifies this
      ensures Ready() && h in pObject && pObject[h] == old(m.target[g])
      ensures pObject[h].Some? ==> pObject[h].value in old(m.count)
      ensures m == if pObject[h].Some? then Take(old(m), h, pObject[h].value) else old(m)
    {
      hide Valid, Matches, Consistent, On, Take;
      ValidCounted(m);
      HeldIsLive(m, Now(), g);
      RoomToTake(m, h);
      SizeBound(m, Now());
      RetakeMatches(m, Now(), h, pObject[g]);
      assert stale - {h} == {};
      pObject, pCount, stale := pObject[h := pObject[g]], pCount[h := if pObject[g].Some? then pCount[g] else 0], {};
      if pCount[h] != 0 {
        TakeValid(m, h, pObject[h].value);
        m := Take(m, h, pObject[h].value);
        counter := counter[pCount[h] := (counter[pCount[h]] + 1) % Width];
      }
    }
  }
}
