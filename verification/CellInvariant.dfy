/** The counter cells of `NDRefCounted`: each wrapped object has a cell of its own, which all
    handles on it share. */
module CellInvariant {
  import opened Options
  import opened Ownership

  const Width: int := 0x1_0000_0000

  /** What memory holds, and which cell goes with which object. */
  datatype Image = Image(
    pObject: map<nat, Option<nat>>,   // the fields of every handle; no object is null
    pCount: map<nat, nat>,            // cell 0 is null
    counter: map<nat, int>,           // the cells
    members: map<nat, seq<nat>>,      // the live objects, with their member handles
    cell: map<nat, nat>,
    owner: map<nat, nat>,
    stale: set<nat>)                  // handles that have let go but not changed their fields yet

  /** The cell of what a handle holds. */
  function CellOf(s: Image, t: Option<nat>): nat {
    if t.Some? && t.value in s.cell then s.cell[t.value] else 0
  }

  ghost predicate Pointing(m: Memory<nat, nat>, s: Image) {
    forall h :: h in m.target ==>
      && h in s.pObject && h in s.pCount
      && (h !in s.stale ==> s.pObject[h] == m.target[h] && s.pCount[h] == CellOf(s, m.target[h]))
      && (h in s.stale ==> m.target[h] == None)
  }

  /** Each object that has been wrapped has a cell with its count ... */
  ghost predicate Counting(m: Memory<nat, nat>, s: Image) {
    && s.members == m.layout && m.count.Keys == m.layout.Keys
    && forall o :: o in m.layout && o !in m.unwrapped ==>
         && o in s.cell && s.cell[o] in s.counter && s.counter[s.cell[o]] == m.count[o]
         && s.cell[o] in s.owner && s.owner[s.cell[o]] == o
  }

  /** ... and there are no other cells. */
  ghost predicate Needed(m: Memory<nat, nat>, s: Image) {
    forall c :: c in s.counter ==>
      && c != 0 && c in s.owner && s.owner[c] in m.layout && s.owner[c] !in m.unwrapped
      && s.owner[c] in s.cell && s.cell[s.owner[c]] == c
  }

  ghost predicate Matches(m: Memory<nat, nat>, s: Image) {
    Pointing(m, s) && Counting(m, s) && Needed(m, s) && |m.target| < Width
  }

  /** The handle's fields. */
  function Set(s: Image, h: nat, t: Option<nat>, c: nat): Image {
    s.(pObject := s.pObject[h := t], pCount := s.pCount[h := c])
  }

  /** `++` and `--` on a 32-bit unsigned counter. */
  function Bump(s: Image, c: nat, change: int): Image
    requires c in s.counter
  {
    s.(counter := s.counter[c := (s.counter[c] + change) % Width])
  }

  /** A cell made for an object that is wrapped for the first time. */
  function Wrapped(s: Image, c: nat, o: nat): Image {
    s.(counter := s.counter[c := 1], cell := s.cell[o := c], owner := s.owner[c := o])
  }
}

/** Each step of a program keeps the cells, the handles and memory in accord. */
module CellSteps {
  import opened Options
  import opened Ownership
  import opened CellInvariant

  lemma EmptyMatches()
    ensures Matches(EmptyMemory(), Image(map[], map[], map[], map[], map[], map[], {}))
  {}

  lemma Live(m: Memory<nat, nat>, s: Image, o: nat)
    requires Matches(m, s) && o in m.layout && o !in m.unwrapped
    ensures o in s.members && o in m.count && s.members[o] == m.layout[o]
    ensures o in s.cell && s.cell[o] != 0 && s.cell[o] in s.counter && s.counter[s.cell[o]] == m.count[o]
  {}

  lemma SizeBound(m: Memory<nat, nat>, s: Image)
    requires Matches(m, s)
    ensures |m.target| < Width
  {}

  lemma HeldIsLive(m: Memory<nat, nat>, s: Image, h: nat)
    requires Matches(m, s) && Consistent(m) && h in m.target && h !in s.stale
    ensures h in m.place && h in s.pObject && h in s.pCount && s.pObject[h] == m.target[h]
    ensures s.pObject[h] == None <==> s.pCount[h] == 0
    ensures s.pObject[h].Some? ==>
              var o := s.pObject[h].value;
              && o in m.layout && o in m.count && o !in m.unwrapped && o in s.cell && s.pCount[h] == s.cell[o]
  {
    if h in m.target && m.target[h].Some? {
      assert h in On(m, m.target[h].value);
    }
  }

  lemma AddHandleMatches(m: Memory<nat, nat>, s: Image, h: nat)
    requires Matches(m, s) && |m.target| + 1 < Width && h !in s.stale
    ensures Matches(AddHandle(m, h), Set(s, h, None, 0))
  {}

  lemma TakeMatches(m: Memory<nat, nat>, s: Image, h: nat, o: nat)
    requires Matches(m, s) && h in m.target && h !in s.stale && m.target[h] == None
    requires o in m.layout && o !in m.unwrapped && o in m.count && 0 <= m.count[o] < Width - 1
    ensures o in s.cell && s.cell[o] in s.counter
    ensures Matches(Take(m, h, o), Set(Bump(s, s.cell[o], 1), h, Some(o), s.cell[o]))
  {
    hide Pointing, Needed;
    TakePointing(m, s, h, o);
    TakeNeeded(m, s, h, o);
    assert Take(m, h, o).target.Keys == m.target.Keys;
  }

  lemma TakePointing(m: Memory<nat, nat>, s: Image, h: nat, o: nat)
    requires Pointing(m, s) && h in m.target && h !in s.stale
    requires o in m.count && o in s.cell && s.cell[o] in s.counter
    ensures Pointing(Take(m, h, o), Set(Bump(s, s.cell[o], 1), h, Some(o), s.cell[o]))
  {}

  lemma TakeNeeded(m: Memory<nat, nat>, s: Image, h: nat, o: nat)
    requires Needed(m, s) && o in m.count && o in s.cell && s.cell[o] in s.counter
    ensures Needed(Take(m, h, o), Set(Bump(s, s.cell[o], 1), h, Some(o), s.cell[o]))
  {}

  /** The copy constructor. */
  lemma CopyMatches(m: Memory<nat, nat>, s: Image, h: nat, t: Option<nat>)
    requires Matches(m, s) && |m.target| + 1 < Width && h !in s.stale
    requires t.Some? ==> t.value in m.layout && t.value !in m.unwrapped && t.value in m.count
    requires t.Some? ==> 0 <= m.count[t.value] <= |m.target|
    ensures t == None ==> Matches(NewHandle(m, h, t), Set(s, h, t, 0))
    ensures t.Some? ==> t.value in s.cell && s.cell[t.value] in s.counter
    ensures t.Some? ==>
              Matches(NewHandle(m, h, t), Set(Bump(s, s.cell[t.value], 1), h, t, s.cell[t.value]))
  {
    hide Matches;
    AddHandleMatches(m, s, h);
    if t.Some? {
      Live(m, s, t.value);
      TakeMatches(AddHandle(m, h), Set(s, h, None, 0), h, t.value);
      assert s.pObject[h := None][h := t] == s.pObject[h := t];
      assert s.pCount[h := 0][h := s.cell[t.value]] == s.pCount[h := s.cell[t.value]];
    }
  }

  /** The constructor from a raw pointer. */
  lemma WrapMatches(m: Memory<nat, nat>, s: Image, h: nat, o: nat, c: nat)
    requires Matches(m, s) && Counted(m) && m.detached == None
    requires |m.target| + 1 < Width && h !in s.stale && h !in m.target
    requires o in m.unwrapped && c != 0 && c !in s.counter
    ensures o in m.count
    ensures Matches(NewHandle(m, h, Some(o)), Set(Wrapped(s, c, o), h, Some(o), c))
  {
    hide Pointing, Counting, Needed;
    WrapPointing(m, s, h, o, c);
    WrapCounting(m, s, h, o, c);
    WrapNeeded(m, s, h, o, c);
  }

  /** The constructor from a raw pointer that may be null. */
  lemma WrapAny(m: Memory<nat, nat>, s: Image, h: nat, p: Option<nat>, c: nat)
    requires Matches(m, s) && Valid(m) && |m.target| + 1 < Width && h !in s.stale && h !in m.target
    requires p.Some? ==> p.value in m.unwrapped && c != 0 && c !in s.counter
    ensures p.Some? ==> p.value in m.count
    ensures Valid(NewHandle(m, h, p))
    ensures Matches(NewHandle(m, h, p), if p.Some? then Set(Wrapped(s, c, p.value), h, p, c) else Set(s, h, None, 0))
  {
    hide Valid, Matches, Counted;
    ValidCounted(m);
    AddHandleMatches(m, s, h);
    if p.Some? {
      WrapMatches(m, s, h, p.value, c);
    }
    NewHandleKeeps(m, h, p);
  }

  lemma WrapPointing(m: Memory<nat, nat>, s: Image, h: nat, o: nat, c: nat)
    requires Pointing(m, s) && Counted(m) && m.detached == None && h !in s.stale && h !in m.target && o in m.unwrapped
    ensures o in m.count
    ensures Pointing(NewHandle(m, h, Some(o)), Set(Wrapped(s, c, o), h, Some(o), c))
  {
    hide Counted;
    NotHeld(m, o);
  }

  lemma WrapCounting(m: Memory<nat, nat>, s: Image, h: nat, o: nat, c: nat)
    requires Counting(m, s) && Counted(m) && o in m.unwrapped && c !in s.counter
    ensures o in m.count
    ensures Counting(NewHandle(m, h, Some(o)), Set(Wrapped(s, c, o), h, Some(o), c))
  {
    hide Counted, On;
    NotHeld(m, o);
  }

  lemma WrapNeeded(m: Memory<nat, nat>, s: Image, h: nat, o: nat, c: nat)
    requires Needed(m, s) && Counted(m) && o in m.unwrapped && c !in s.counter && c != 0
    ensures o in m.count
    ensures Needed(NewHandle(m, h, Some(o)), Set(Wrapped(s, c, o), h, Some(o), c))
  {
    hide Counted, On;
    NotHeld(m, o);
  }

  lemma NewObjectMatches(m: Memory<nat, nat>, s: Image, o: nat)
    requires Matches(m, s) && o !in m.layout
    ensures Matches(AddObject(m, o), s.(members := s.members[o := []]))
  {}

  lemma NewMemberMatches(m: Memory<nat, nat>, s: Image, o: nat, h: nat)
    requires Matches(m, s) && o in m.layout && |m.target| + 1 < Width && h !in s.stale
    ensures o in s.members
    ensures Matches(AddMember(m, o, h), Set(s.(members := s.members[o := s.members[o] + [h]]), h, None, 0))
  {
    hide Pointing;
    NewMemberPointing(m, s, o, h);
  }

  lemma NewMemberPointing(m: Memory<nat, nat>, s: Image, o: nat, h: nat)
    requires Pointing(m, s) && o in m.layout && h !in s.stale && o in s.members
    ensures Pointing(AddMember(m, o, h), Set(s.(members := s.members[o := s.members[o] + [h]]), h, None, 0))
  {}

  lemma DropMatches(m: Memory<nat, nat>, s: Image, h: nat)
    requires Matches(m, s) && h in m.target
    ensures Matches(Drop(m, h), s.(stale := s.stale + {h}))
  {
    assert Drop(m, h).target.Keys == m.target.Keys;
  }

  lemma EndMatches(m: Memory<nat, nat>, s: Image, h: nat)
    requires Matches(m, s) && h in m.target && h in m.place
    ensures Matches(End(m, h), s)
  {
    Subset(End(m, h).target.Keys, m.target.Keys);
  }

  lemma LowerMatches(m: Memory<nat, nat>, s: Image, o: nat)
    requires Matches(m, s) && o in m.layout && o !in m.unwrapped && o in m.count && 0 < m.count[o] <= Width
    ensures o in s.cell && s.cell[o] in s.counter && Matches(Lower(m, o), Bump(s, s.cell[o], -1))
  {
    hide Pointing, Needed;
    LowerOthers(m, s, o);
  }

  lemma LowerOthers(m: Memory<nat, nat>, s: Image, o: nat)
    requires Pointing(m, s) && Needed(m, s) && o in m.layout && o in m.count && o in s.cell && s.cell[o] in s.counter
    ensures Pointing(Lower(m, o), Bump(s, s.cell[o], -1)) && Needed(Lower(m, o), Bump(s, s.cell[o], -1))
  {}

  /** What `--*m_pCount` comes to. */
  lemma LowerCell(b: Memory<nat, nat>, m: Memory<nat, nat>, s: Image, o: nat)
    requires Matches(m, s) && Consistent(m) && Cascade(b, m) && m.detached == Some(o) && o !in m.dying
    ensures o in m.layout && o in m.count && o in s.cell && s.cell[o] in s.counter && s.counter[s.cell[o]] > 0
    ensures Matches(Lower(m, o), Bump(s, s.cell[o], -1))
    ensures Consistent(Lower(m, o)) && Cascade(b, Lower(m, o))
    ensures Bump(s, s.cell[o], -1).counter == s.counter[s.cell[o] := s.counter[s.cell[o]] - 1]
    ensures Lower(m, o).target == m.target && Lower(m, o).detached == None && Smaller(m, Lower(m, o))
    ensures if s.counter[s.cell[o]] == 1
            then
              && Lower(m, o).dying == m.dying[o := |m.layout[o]|]
              && o in s.members && s.members[o] == m.layout[o] && o in Since(b, Lower(m, o))
              && Lower(m, o).layout.Keys - Lower(m, o).dying.Keys < m.layout.Keys - m.dying.Keys
            else Lower(m, o).dying == m.dying
  {
    hide Consistent, Cascade, Smaller, Since, Matches, On, Lower;
    DetachedBound(m, o);
    SizeBound(m, s);
    Live(m, s, o);
    LowerMatches(m, s, o);
    LowerKeeps(b, m, o);
    LowerStep(m, o);
  }

  /** The object and its cell are given back together. */
  lemma FreeMatches(m: Memory<nat, nat>, s: Image, o: nat)
    requires Matches(m, s) && o in m.layout && o !in m.unwrapped
    ensures o in s.cell
    ensures Matches(Free(m, o), s.(members := s.members - {o}, counter := s.counter - {s.cell[o]}))
  {
    hide Pointing, Counting, Needed;
    FreeCounting(m, s, o);
    FreePointing(m, s, o);
    FreeNeeded(m, s, o);
  }

  lemma FreePointing(m: Memory<nat, nat>, s: Image, o: nat)
    requires Pointing(m, s) && o in s.cell
    ensures Pointing(Free(m, o), s.(members := s.members - {o}, counter := s.counter - {s.cell[o]}))
  {}

  lemma FreeCounting(m: Memory<nat, nat>, s: Image, o: nat)
    requires Counting(m, s) && o in m.layout && o !in m.unwrapped
    ensures o in s.cell
    ensures Counting(Free(m, o), s.(members := s.members - {o}, counter := s.counter - {s.cell[o]}))
  {}

  lemma FreeNeeded(m: Memory<nat, nat>, s: Image, o: nat)
    requires Needed(m, s) && o in s.cell
    ensures Needed(Free(m, o), s.(members := s.members - {o}, counter := s.counter - {s.cell[o]}))
  {}

  /** The fields of a handle that has let go, or is gone. */
  lemma ClearMatches(m: Memory<nat, nat>, s: Image, h: nat)
    requires Matches(m, s) && (h in m.target ==> h in s.stale)
    ensures Matches(m, Set(s, h, None, 0))
    ensures h in s.pObject && h in s.pCount && s.pObject[h] == None && s.pCount[h] == 0 ==>
              Matches(m, s.(stale := s.stale - {h}))
  {}

  lemma ForgetMatches(m: Memory<nat, nat>, s: Image, h: nat)
    requires Matches(m, s) && h !in m.target
    ensures Matches(m, s.(pObject := s.pObject - {h}, pCount := s.pCount - {h}))
  {}

  /** The second half of an assignment: the fields of the handle are set anew. */
  lemma RetakeMatches(m: Memory<nat, nat>, s: Image, h: nat, t: Option<nat>)
    requires Matches(m, s) && h in m.target && h in s.stale && m.target[h] == None
    requires t.Some? ==> t.value in m.layout && t.value !in m.unwrapped && t.value in m.count
    requires t.Some? ==> 0 <= m.count[t.value] < Width - 1
    ensures t == None ==> Matches(m, Set(s, h, t, 0).(stale := s.stale - {h}))
    ensures t.Some? ==>
              && t.value in s.cell && s.cell[t.value] in s.counter
              && Matches(Take(m, h, t.value),
                         Set(Bump(s, s.cell[t.value], 1), h, t, s.cell[t.value]).(stale := s.stale - {h}))
  {
    hide Matches;
    var s1 := Set(s, h, None, 0);
    ClearMatches(m, s, h);
    ClearMatches(m, s1, h);
    if t.Some? {
      Live(m, s, t.value);
      TakeMatches(m, s1.(stale := s.stale - {h}), h, t.value);
      assert s.pObject[h := None][h := t] == s.pObject[h := t];
      assert s.pCount[h := 0][h := s.cell[t.value]] == s.pCount[h := s.cell[t.value]];
    }
  }

  /** Every cell counts the handles on its object, there is one for each object that is held,
      and handles share a cell if and only if they share an object. */
  lemma CellIsHandles(m: Memory<nat, nat>, s: Image)
    requires Matches(m, s) && Valid(m) && s.stale == {}
    ensures forall c :: c in s.counter ==>
              c in s.owner && s.counter[c] == |On(m, s.owner[c])| > 0
    ensures forall o :: o in m.layout && o !in m.unwrapped ==> o in s.cell && s.cell[o] in s.counter
    ensures forall g, h :: g in m.target && h in m.target ==>
              && g in s.pCount && h in s.pCount && g in s.pObject && h in s.pObject
              && (s.pCount[g] == s.pCount[h] <==> s.pObject[g] == s.pObject[h])
  {
    ValidCounted(m);
    forall g | g in m.target
      ensures g in s.pObject && g in s.pCount && s.pObject[g] == m.target[g]
      ensures s.pObject[g] == None <==> s.pCount[g] == 0
      ensures s.pObject[g].Some? ==>
                s.pObject[g].value in m.layout && s.pObject[g].value !in m.unwrapped
                && s.pCount[g] == CellOf(s, s.pObject[g])
    {
      HeldIsLive(m, s, g);
    }
  }

  lemma StillDying(m: Memory<nat, nat>, s: Image, o: nat)
    requires Matches(m, s) && Consistent(m) && o in m.dying
    ensures o in s.members && o in m.layout && s.members[o] == m.layout[o] && o !in m.unwrapped
    ensures m.dying[o] <= |m.layout[o]|
  {}
}
