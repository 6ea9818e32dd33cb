/** Programs over smart pointers: any number of variables, objects that refer to each other in
    any shape, and scripts of commands in any order.  `Moves` says what each command does to
    memory, for schemes that take hold before they let go and for those that do not. */
module Scripts {
  import opened Options
  import opened Ownership
  import opened Cycles

  /** A pointer a program can name: a variable, or a member of the object a variable holds. */
  datatype Name = Var(index: nat) | Field(index: nat, slot: nat)

  datatype Command =
    | Declare                       // Ptr p;
    | Copy(source: Name)            // Ptr p(source);
    | New(size: nat)                // Ptr p(new Object);
    | Make(dest: Name, size: nat)   // dest = new Object;
    | Assign(dest: Name, source: Name)
    | Clear(dest: Name)             // dest = 0;
    | Leave                         // the variable declared last goes out of scope

  /** Whether an assignment takes hold of the new object before it lets go of the old one. */
  datatype Order = TakeFirst | LetGoFirst

  /** An object and the member pointers it was made with. */
  datatype Birth<P, O> = Birth(obj: O, members: seq<P>)

  /** Memory, the variables in scope, and the objects ever made, in that order. */
  datatype World<P, O> = World(m: Memory<P, O>, vars: seq<P>, made: seq<Birth<P, O>>)

  function EmptyWorld<P, O>(): World<P, O> {
    World(EmptyMemory(), [], [])
  }

  /** The pointer that a name means, if there is one. */
  function Named<P, O>(w: World<P, O>, name: Name): Option<P> {
    if name.index >= |w.vars| then None
    else
      var v := w.vars[name.index];
      if name.Var? then Some(v)
      else if v in w.m.target && w.m.target[v].Some? && w.m.target[v].value in w.m.layout then
        var o := w.m.target[v].value;
        if name.slot < |w.m.layout[o]| then Some(w.m.layout[o][name.slot]) else None
      else None
  }

  // ---- what the commands do to memory ----

  /** A new variable that holds `t`. */
  ghost predicate Declared<P, O>(w: World<P, O>, t: Option<O>, w': World<P, O>) {
    && |w'.vars| == |w.vars| + 1 && w'.vars[..|w.vars|] == w.vars && w'.vars[|w.vars|] !in w.m.place
    && (t.Some? ==> t.value in w.m.count) && w'.m == NewHandle(w.m, w'.vars[|w.vars|], t)
    && w'.made == w.made
  }

  /** Memory after `new`. */
  function Grown<P, O>(m: Memory<P, O>, o: O, hs: seq<P>): Memory<P, O> {
    AddMembers(AddObject(m, o), o, hs)
  }

  /** A new object with null members, at which `h` is then pointed. */
  ghost predicate Made<P, O>(w: World<P, O>, h: P, size: nat, w': World<P, O>) {
    && |w'.made| == |w.made| + 1 && w'.made[..|w.made|] == w.made && w'.vars == w.vars
    && var Birth(o, hs) := w'.made[|w.made|];
    && IsNew(w, o, hs) && |hs| == size
    && Pointed(Grown(w.m, o, hs), h, Some(o), w'.m)
  }

  ghost predicate IsNew<P, O>(w: World<P, O>, o: O, hs: seq<P>) {
    && o !in w.m.layout && o !in w.m.freed
    && (forall h :: h in hs ==> h !in w.m.place) && Distinct(hs)
  }

  predicate Distinct<T(==)>(s: seq<T>) {
    forall i, j :: 0 <= i < j < |s| ==> s[i] != s[j]
  }

  lemma NoneIsDistinct<T>()
    ensures Distinct<T>([])
  {}

  lemma OneMoreDistinct<T>(s: seq<T>, x: T)
    requires Distinct(s) && x !in s
    ensures Distinct(s + [x])
  {}

  /** A new object with null members, held by a new variable. */
  ghost predicate Built<P, O>(w: World<P, O>, size: nat, w': World<P, O>) {
    && |w'.made| == |w.made| + 1 && w'.made[..|w.made|] == w.made
    && |w'.vars| == |w.vars| + 1 && w'.vars[..|w.vars|] == w.vars
    && var Birth(o, hs) := w'.made[|w.made|]; var p := w'.vars[|w.vars|];
    && IsNew(w, o, hs) && |hs| == size && p !in w.m.place && p !in hs
    && o in Grown(w.m, o, hs).count && w'.m == NewHandle(Grown(w.m, o, hs), p, Some(o))
  }

  /** Memory before `h` took hold of `t`. */
  function Untaken<P, O>(m: Memory<P, O>, h: P, t: Option<O>): Memory<P, O>
    requires t.Some? ==> t.value in m.count
  {
    if t == None then m
    else m.(target := m.target[h := None], count := m.count[t.value := m.count[t.value] - 1])
  }

  /** `h` let go of what it held, and when that was over, took hold of `t`. */
  ghost predicate Swapped<P, O>(m: Memory<P, O>, h: P, t: Option<O>, m': Memory<P, O>) {
    && h in m.target && h in m'.target && m'.target[h] == t && (t.Some? ==> t.value in m'.count)
    && var e := Untaken(m', h, t);
    && (if m.target[h] == None then e == m else Valid(e) && Cascade(Drop(m, h), e))
    && m' == if t.Some? then Take(e, h, t.value) else e
  }

  ghost predicate Assigned<P, O>(order: Order, w: World<P, O>, h: P, t: Option<O>, w': World<P, O>) {
    && w'.vars == w.vars && w'.made == w.made
    && match order
       case TakeFirst => Pointed(w.m, h, t, w'.m)
       case LetGoFirst => Swapped(w.m, h, t, w'.m) || (h in w.m.target && w.m.target[h] == t && w'.m == w.m)
  }

  ghost predicate Gone<P, O>(w: World<P, O>, w': World<P, O>) {
    && w.vars != [] && w'.vars == w.vars[..|w.vars| - 1] && w'.made == w.made
    && var p := w.vars[|w.vars| - 1];
    && p in w.m.target && p in w.m.place && Cascade(End(w.m, p), w'.m)
  }

  /** A command that names no pointer there is does nothing. */
  ghost predicate Moves<P, O>(order: Order, c: Command, w: World<P, O>, w': World<P, O>) {
    match c
    case Declare => Declared(w, None, w')
    case Copy(source) =>
      var s := Named(w, source);
      if s == None then w' == w
      else s.value in w.m.target && Declared(w, w.m.target[s.value], w')
    case New(size) => Built(w, size, w')
    case Make(dest, size) =>
      var d := Named(w, dest);
      if d == None then w' == w else Made(w, d.value, size, w')
    case Assign(dest, source) =>
      var d, s := Named(w, dest), Named(w, source);
      if d == None || s == None then w' == w
      else s.value in w.m.target && Assigned(order, w, d.value, w.m.target[s.value], w')
    case Clear(dest) =>
      var d := Named(w, dest);
      if d == None then w' == w else Assigned(order, w, d.value, None, w')
    case Leave => if w.vars == [] then w' == w else Gone(w, w')
  }

  // ---- what every command keeps ----

  /** The variables are distinct and there are no others; every object ever made is either live
      or deleted. */
  ghost predicate Scoped<P, O>(m: Memory<P, O>, vars: seq<P>, made: seq<Birth<P, O>>) {
    && (forall i :: 0 <= i < |vars| ==> vars[i] in m.target && vars[i] in m.place && m.place[vars[i]] == Variable)
    && Distinct(vars)
    && (forall h :: h in m.target && h in m.place && m.place[h] == Variable ==> h in vars)
    && (forall k, l :: 0 <= k < l < |made| ==> made[k].obj != made[l].obj)
    && (forall k :: 0 <= k < |made| ==> made[k].obj in m.layout || made[k].obj in m.freed)
    && (forall k :: 0 <= k < |made| && made[k].obj in m.layout ==>
          m.layout[made[k].obj] == made[k].members)
  }

  ghost predicate Recorded<P, O>(m: Memory<P, O>, made: seq<Birth<P, O>>) {
    && (forall o :: o in m.layout ==> IsMade(made, o))
    && (forall o :: o in m.freed ==> IsMade(made, o))
  }

  predicate IsMade<P, O(==)>(made: seq<Birth<P, O>>, o: O) {
    exists k :: 0 <= k < |made| && made[k].obj == o
  }

  ghost predicate Legal<P, O>(w: World<P, O>) {
    Valid(w.m) && w.m.unwrapped == {} && Scoped(w.m, w.vars, w.made) && Recorded(w.m, w.made)
  }

  lemma EmptyIsLegal<P, O>()
    ensures Legal<P, O>(EmptyWorld())
  {}

  lemma DeclaredScoped<P, O>(m: Memory<P, O>, vars: seq<P>, made: seq<Birth<P, O>>, p: P, t: Option<O>)
    requires Scoped(m, vars, made) && Recorded(m, made) && p !in m.place && (t.Some? ==> t.value in m.count)
    requires m.unwrapped == {} || (t.Some? && m.unwrapped == {t.value})
    ensures var e := NewHandle(m, p, t);
            Scoped(e, vars + [p], made) && Recorded(e, made) && e.unwrapped == {}
  {
    hide IsMade;
  }

  lemma DeclaredLegal<P, O>(w: World<P, O>, t: Option<O>, w': World<P, O>)
    requires Legal(w) && Declared(w, t, w') && Valid(w'.m)
    ensures Legal(w')
  {
    hide Valid, Scoped, Recorded, NewHandle;
    var n := |w.vars|;
    assert w'.vars == w.vars + [w'.vars[n]];
    DeclaredScoped(w.m, w.vars, w.made, w'.vars[n], t);
  }

  /** What every order of assignment comes to: `h` holds `t` if it is still there, the other
      pointers still there hold what they held, and objects may have been deleted. */
  ghost predicate Retargeted<P, O>(m: Memory<P, O>, h: P, t: Option<O>, e: Memory<P, O>) {
    && h in m.target && e.place == m.place && e.layout.Keys <= m.layout.Keys && m.freed <= e.freed
    && e.unwrapped == m.unwrapped - (if t.Some? && m.target[h] != t then {t.value} else {})
    && (forall o :: o in e.layout ==> e.layout[o] == m.layout[o])
    && (forall o :: o in m.layout ==> o in e.layout || o in e.freed)
    && (forall o :: o in e.freed ==> o in m.layout || o in m.freed)
    && (forall x :: x in e.target ==> x in m.target && e.target[x] == if x == h then t else m.target[x])
    && (forall x :: x in m.target && x in m.place && m.place[x] == Variable ==> x in e.target)
  }

  /** What a release takes away. */
  lemma ReleaseTakes<P, O>(b: Memory<P, O>, e: Memory<P, O>)
    requires Cascade(b, e)
    ensures e.place == b.place && e.unwrapped == b.unwrapped && e.layout.Keys <= b.layout.Keys && b.freed <= e.freed
    ensures forall o :: o in e.layout ==> e.layout[o] == b.layout[o]
    ensures forall o :: o in b.layout ==> o in e.layout || o in e.freed
    ensures forall o :: o in e.freed ==> o in b.layout || o in b.freed
    ensures forall x :: x in e.target ==> x in b.target && e.target[x] == b.target[x]
    ensures forall x :: x in b.target && x in b.place && b.place[x] == Variable ==> x in e.target
  {
    hide Justified;
    forall x | x in b.target && x in b.place && b.place[x] == Variable ensures x in e.target {
      assert !MemberOf(b, x, Elements(Since(b, e)));
    }
    assert e.freed == b.freed + Since(b, e);
  }

  lemma ReleasedScope<P, O>(b: Memory<P, O>, e: Memory<P, O>, vars: seq<P>, made: seq<Birth<P, O>>)
    requires Scoped(b, vars, made) && Recorded(b, made) && Cascade(b, e)
    ensures Scoped(e, vars, made) && Recorded(e, made) && e.unwrapped == b.unwrapped
  {
    hide Cascade, IsMade;
    ReleaseTakes(b, e);
  }

  lemma PointedRetargets<P, O>(m: Memory<P, O>, h: P, t: Option<O>, e: Memory<P, O>)
    requires Pointed(m, h, t, e)
    ensures Retargeted(m, h, t, e)
  {
    hide Cascade;
    if m.target[h] != t {
      ReleaseTakes(Repoint(m, h, t), e);
    }
  }

  lemma SwappedRetargets<P, O>(m: Memory<P, O>, h: P, t: Option<O>, e: Memory<P, O>)
    requires Swapped(m, h, t, e) && m.unwrapped == {}
    ensures Retargeted(m, h, t, e)
  {
    hide Cascade, Valid;
    if m.target[h] != None {
      ReleaseTakes(Drop(m, h), Untaken(e, h, t));
    }
  }

  lemma AssignedRetargets<P, O>(order: Order, w: World<P, O>, h: P, t: Option<O>, w': World<P, O>)
    requires Assigned(order, w, h, t, w') && (order == LetGoFirst ==> w.m.unwrapped == {})
    ensures Retargeted(w.m, h, t, w'.m)
  {
    hide Pointed, Swapped;
    if order == TakeFirst {
      PointedRetargets(w.m, h, t, w'.m);
    } else if Swapped(w.m, h, t, w'.m) {
      SwappedRetargets(w.m, h, t, w'.m);
    }
  }

  lemma RetargetedScoped<P, O>(m: Memory<P, O>, h: P, t: Option<O>, e: Memory<P, O>,
                               vars: seq<P>, made: seq<Birth<P, O>>)
    requires Scoped(m, vars, made) && Recorded(m, made) && Retargeted(m, h, t, e)
    requires m.unwrapped == {} || (t.Some? && m.unwrapped == {t.value} && m.target[h] != t)
    ensures Scoped(e, vars, made) && Recorded(e, made) && e.unwrapped == {}
  {
    hide IsMade;
  }

  /** Memory with new members of an object. */
  lemma {:induction false} AddMembersLayout<P, O>(m: Memory<P, O>, o: O, hs: seq<P>)
    requires o in m.layout
    ensures var e := AddMembers(m, o, hs);
            && e.layout == m.layout[o := m.layout[o] + hs] && e.count == m.count && e.unwrapped == m.unwrapped
            && e.freed == m.freed && e.dying == m.dying && e.detached == m.detached
  {
    if hs != [] {
      var n := |hs| - 1;
      AddMembersLayout(m, o, hs[..n]);
      assert m.layout[o] + hs == m.layout[o] + hs[..n] + [hs[n]];
    } else {
      assert m.layout[o] + hs == m.layout[o];
    }
  }

  lemma {:induction false} AddMembersTarget<P, O>(m: Memory<P, O>, o: O, hs: seq<P>)
    requires o in m.layout && Distinct(hs)
    ensures var e := AddMembers(m, o, hs);
            && e.target.Keys == m.target.Keys + Elements(hs)
            && (forall i :: 0 <= i < |hs| ==> e.target[hs[i]] == None)
            && (forall h :: h in m.target && h !in hs ==> e.target[h] == m.target[h])
  {
    if hs != [] {
      var n := |hs| - 1;
      AddMembersTarget(m, o, hs[..n]);
      assert hs == hs[..n] + [hs[n]];
    }
  }

  lemma {:induction false} AddMembersPlace<P, O>(m: Memory<P, O>, o: O, hs: seq<P>)
    requires o in m.layout && Distinct(hs)
    ensures var e := AddMembers(m, o, hs);
            forall i :: 0 <= i < |hs| ==> hs[i] in e.place && e.place[hs[i]] == Member(o, |m.layout[o]| + i)
  {
    hide AddMembers, AddMember;
    if hs != [] {
      var n := |hs| - 1;
      var e := AddMembers(m, o, hs[..n]);
      AddMembersPlace(m, o, hs[..n]);
      AddMembersLayout(m, o, hs[..n]);
      assert hs == hs[..n] + [hs[n]];
      AddMembersOne(m, o, hs[..n], hs[n]);
      MemberIsPut(e, o, hs[n]);
      forall i | 0 <= i < n ensures hs[i] in e.place && e.place[hs[i]] == Member(o, |m.layout[o]| + i) {
        assert hs[..n][i] == hs[i];
      }
    }
  }

  lemma MemberIsPut<P, O>(m: Memory<P, O>, o: O, h: P)
    requires o in m.layout
    ensures AddMember(m, o, h).place == m.place[h := Member(o, |m.layout[o]|)]
  {}

  lemma {:induction false} AddMembersRest<P, O>(m: Memory<P, O>, o: O, hs: seq<P>)
    requires o in m.layout
    ensures var e := AddMembers(m, o, hs);
            && e.place.Keys == m.place.Keys + Elements(hs)
            && (forall h :: h in m.place && h !in hs ==> h in e.place && e.place[h] == m.place[h])
  {
    if hs != [] {
      var n := |hs| - 1;
      AddMembersRest(m, o, hs[..n]);
      assert hs == hs[..n] + [hs[n]];
    }
  }

  lemma {:induction false} AddMembersKeeps<P, O>(m: Memory<P, O>, o: O, hs: seq<P>)
    requires Valid(m) && o in m.layout
    requires (forall h :: h in hs ==> h !in m.target) && Distinct(hs)
    ensures Valid(AddMembers(m, o, hs))
  {
    hide Valid;
    if hs != [] {
      var n := |hs| - 1;
      AddMembersKeeps(m, o, hs[..n]);
      AddMembersLayout(m, o, hs[..n]);
      AddMembersTarget(m, o, hs[..n]);
      AddMemberKeeps(AddMembers(m, o, hs[..n]), o, hs[n]);
    }
  }

  lemma GrownHas<P, O>(w: World<P, O>, o: O, hs: seq<P>)
    requires Legal(w) && IsNew(w, o, hs)
    ensures var m := Grown(w.m, o, hs);
            && Valid(m) && m.unwrapped == {o} && m.layout == w.m.layout[o := hs] && m.freed == w.m.freed
            && m.target.Keys == w.m.target.Keys + Elements(hs)
            && (forall i :: 0 <= i < |hs| ==>
                  && hs[i] in m.target && m.target[hs[i]] == None
                  && hs[i] in m.place && m.place[hs[i]] == Member(o, i))
            && (forall h :: h in w.m.target ==> h in m.target && h !in hs && m.target[h] == w.m.target[h])
            && (forall h :: h in w.m.place ==> h !in hs && h in m.place && m.place[h] == w.m.place[h])
  {
    hide Valid, Scoped, Recorded, Grown;
    InPlace(w.m);
    GrownLayout(w, o, hs);
    GrownTarget(w, o, hs);
    GrownPlace(w, o, hs);
  }

  lemma GrownLayout<P, O>(w: World<P, O>, o: O, hs: seq<P>)
    requires Legal(w) && IsNew(w, o, hs)
    ensures var m := Grown(w.m, o, hs);
            && Valid(m) && m.unwrapped == {o} && m.layout == w.m.layout[o := hs] && m.freed == w.m.freed
  {
    hide Valid, Scoped, Recorded, On, AddMembers;
    var a := AddObject(w.m, o);
    AddObjectKeeps(w.m, o);
    InPlace(w.m);
    AddMembersKeeps(a, o, hs);
    AddMembersLayout(a, o, hs);
    assert a.layout[o] + hs == hs;
  }

  lemma GrownTarget<P, O>(w: World<P, O>, o: O, hs: seq<P>)
    requires IsNew(w, o, hs)
    ensures var m := Grown(w.m, o, hs);
            && m.target.Keys == w.m.target.Keys + Elements(hs)
            && (forall i :: 0 <= i < |hs| ==> hs[i] in m.target && m.target[hs[i]] == None)
            && (forall h :: h in w.m.target && h !in hs ==> h in m.target && m.target[h] == w.m.target[h])
  {
    hide AddMembers;
    AddMembersTarget(AddObject(w.m, o), o, hs);
  }

  lemma GrownPlace<P, O>(w: World<P, O>, o: O, hs: seq<P>)
    requires IsNew(w, o, hs)
    ensures var m := Grown(w.m, o, hs);
            && (forall i :: 0 <= i < |hs| ==> hs[i] in m.place && m.place[hs[i]] == Member(o, i))
            && (forall h :: h in w.m.place ==> h !in hs && h in m.place && m.place[h] == w.m.place[h])
  {
    hide AddMembers;
    AddMembersPlace(AddObject(w.m, o), o, hs);
    AddMembersRest(AddObject(w.m, o), o, hs);
  }

  lemma GrownRoom<P, O>(w: World<P, O>, o: O, hs: seq<P>, p: P)
    requires Legal(w) && IsNew(w, o, hs) && p !in w.m.place && p !in hs
    ensures var m := Grown(w.m, o, hs);
            m.unwrapped == {o} && o in m.count && p !in m.place && p !in m.target
  {
    hide Scoped, Recorded, On, AddMembers, Valid;
    var a := AddObject(w.m, o);
    InPlace(w.m);
    AddMembersLayout(a, o, hs);
    AddMembersTarget(a, o, hs);
    AddMembersRest(a, o, hs);
  }

  lemma GrownScoped<P, O>(w: World<P, O>, o: O, hs: seq<P>)
    requires Legal(w) && IsNew(w, o, hs)
    ensures Scoped(Grown(w.m, o, hs), w.vars, w.made + [Birth(o, hs)])
  {
    hide Valid, Recorded, On, Grown;
    GrownHas(w, o, hs);
    var m, made := Grown(w.m, o, hs), w.made + [Birth(o, hs)];
    forall h | h in m.target && h in m.place && m.place[h] == Variable ensures h in w.vars {
      InPlace(w.m);
      assert h in w.m.target || h in hs;
    }
  }

  lemma InPlace<P, O>(m: Memory<P, O>)
    requires Valid(m)
    ensures forall h :: h in m.target ==> h in m.place
    ensures forall o, i :: o in m.layout && 0 <= i < |m.layout[o]| ==>
              m.layout[o][i] in m.target && m.layout[o][i] in m.place && m.place[m.layout[o][i]] == Member(o, i)
    ensures forall h :: h in m.target && m.target[h].Some? ==>
              m.target[h].value in m.layout && m.target[h].value in m.count
  {}

  lemma GrownRecorded<P, O>(w: World<P, O>, o: O, hs: seq<P>)
    requires Recorded(w.m, w.made) && o !in w.m.layout
    ensures Recorded(Grown(w.m, o, hs), w.made + [Birth(o, hs)])
  {
    var made := w.made + [Birth(o, hs)];
    AddMembersLayout(AddObject(w.m, o), o, hs);
    assert made[|w.made|].obj == o;
    forall x | IsMade(w.made, x) ensures IsMade(made, x) {
      var k :| 0 <= k < |w.made| && w.made[k].obj == x;
      assert made[k].obj == x;
    }
  }

  lemma MadeLegal<P, O>(w: World<P, O>, h: P, size: nat, w': World<P, O>)
    requires Legal(w) && h in w.m.target && Made(w, h, size, w') && Valid(w'.m)
    ensures Legal(w')
  {
    hide Valid, Scoped, Recorded, Pointed, Retargeted;
    var n := |w.made|;
    var Birth(o, hs) := w'.made[n];
    GrownHas(w, o, hs);
    GrownScoped(w, o, hs);
    GrownRecorded(w, o, hs);
    assert w'.made == w.made + [Birth(o, hs)];
    PointedHas(Grown(w.m, o, hs), h, Some(o), w'.m);
    NotYetHeld(Grown(w.m, o, hs), o, h);
    PointedRetargets(Grown(w.m, o, hs), h, Some(o), w'.m);
    RetargetedScoped(Grown(w.m, o, hs), h, Some(o), w'.m, w'.vars, w'.made);
  }

  lemma NotYetHeld<P, O>(m: Memory<P, O>, o: O, h: P)
    requires Valid(m) && o in m.unwrapped && (h in m.target ==> true)
    ensures h in m.target ==> m.target[h] != Some(o)
  {
    NotHeld(m, o);
  }

  lemma GoneLegal<P, O>(w: World<P, O>, w': World<P, O>)
    requires Legal(w) && Gone(w, w') && Valid(w'.m)
    ensures Legal(w')
  {
    hide Valid, Cascade, IsMade;
    ReleasedScope(End(w.m, w.vars[|w.vars| - 1]), w'.m, w'.vars, w'.made);
  }

  lemma BuiltLegal<P, O>(w: World<P, O>, size: nat, w': World<P, O>)
    requires Legal(w) && Built(w, size, w') && Valid(w'.m)
    ensures Legal(w')
  {
    hide Valid, Scoped, Recorded, NewHandle, Grown;
    var n := |w.made|;
    var Birth(o, hs) := w'.made[n];
    var p := w'.vars[|w.vars|];
    GrownRoom(w, o, hs, p);
    GrownScoped(w, o, hs);
    GrownRecorded(w, o, hs);
    assert w'.made == w.made + [Birth(o, hs)] && w'.vars == w.vars + [p];
    DeclaredScoped(Grown(w.m, o, hs), w.vars, w'.made, p, Some(o));
  }

  lemma MovesLegal<P, O>(order: Order, c: Command, w: World<P, O>, w': World<P, O>)
    requires Legal(w) && Moves(order, c, w, w') && Valid(w'.m)
    ensures Legal(w')
  {
    hide Declared, Built, Made, Assigned, Gone, Valid, Scoped, Recorded, Pointed;
    NamedIsThere(w);
    match c
    case Declare => DeclaredLegal(w, None, w');
    case Copy(source) =>
      if Named(w, source).Some? {
        DeclaredLegal(w, w.m.target[Named(w, source).value], w');
      }
    case New(size) => BuiltLegal(w, size, w');
    case Make(dest, size) =>
      if Named(w, dest).Some? {
        MadeLegal(w, Named(w, dest).value, size, w');
      }
    case Assign(dest, source) =>
      if Named(w, dest).Some? && Named(w, source).Some? {
        AssignedLegal(order, w, Named(w, dest).value, w.m.target[Named(w, source).value], w');
      }
    case Clear(dest) =>
      if Named(w, dest).Some? {
        AssignedLegal(order, w, Named(w, dest).value, None, w');
      }
    case Leave =>
      if w.vars != [] {
        GoneLegal(w, w');
      }
  }

  lemma AssignedLegal<P, O>(order: Order, w: World<P, O>, h: P, t: Option<O>, w': World<P, O>)
    requires Legal(w) && Assigned(order, w, h, t, w') && Valid(w'.m)
    ensures Legal(w')
  {
    hide Valid, Scoped, Recorded, Pointed, Swapped, Retargeted;
    AssignedRetargets(order, w, h, t, w');
    RetargetedScoped(w.m, h, t, w'.m, w'.vars, w'.made);
  }

  lemma NamedIsThere<P, O>(w: World<P, O>)
    requires Legal(w)
    ensures forall name :: Named(w, name).Some? ==>
              Named(w, name).value in w.m.target && Named(w, name).value in w.m.place
  {
    hide Valid, Recorded;
    InPlace(w.m);
  }

  lemma VarIsThere<P, O>(w: World<P, O>, i: nat)
    requires Legal(w) && i < |w.vars|
    ensures w.vars[i] in w.m.target && w.vars[i] in w.m.place && w.m.place[w.vars[i]] == Variable
  {}

  // ---- sizes ----

  lemma NewHandleSize<P, O>(m: Memory<P, O>, h: P, t: Option<O>)
    requires t.Some? ==> t.value in m.count
    ensures var e := NewHandle(m, h, t);
            && e.target.Keys == m.target.Keys + {h} && e.layout == m.layout
            && (h !in m.target ==> |e.target| == |m.target| + 1)
  {
    hide NewHandle;
    NewHandleKeys(m, h, t);
    OneMore(m.target.Keys, h);
  }

  lemma NewHandleKeys<P, O>(m: Memory<P, O>, h: P, t: Option<O>)
    requires t.Some? ==> t.value in m.count
    ensures NewHandle(m, h, t).target.Keys == m.target.Keys + {h} && NewHandle(m, h, t).layout == m.layout
  {}

  lemma OneMore<T>(s: set<T>, x: T)
    ensures x !in s ==> |s + {x}| == |s| + 1
  {}

  lemma AddMemberSize<P, O>(m: Memory<P, O>, o: O, h: P)
    requires o in m.layout && h !in m.target
    ensures |AddMember(m, o, h).target| == |m.target| + 1
  {
    AddMemberChanges(m, o, h);
    OneMore(m.target.Keys, h);
  }

  // ---- pointers put at ever higher places ----

  /** No pointer has been put at `next` or beyond. */
  ghost predicate Below<O>(m: Memory<nat, O>, next: nat) {
    forall h :: h in m.place ==> h < next
  }

  lemma NewHandlePlace<O>(m: Memory<nat, O>, h: nat, t: Option<O>)
    requires t.Some? ==> t.value in m.count
    ensures Below(m, h) ==> Below(NewHandle(m, h, t), h + 1)
  {}

  lemma AddMemberPlace<O>(m: Memory<nat, O>, o: O, h: nat)
    requires o in m.layout && forall g :: g in m.target ==> g in m.place
    ensures Below(m, h) ==> Below(AddMember(m, o, h), h + 1)
    ensures forall g :: g in AddMember(m, o, h).target ==> g in AddMember(m, o, h).place
  {}

  lemma SwappedKeeps<O>(m: Memory<nat, O>, h: nat, t: Option<O>, e: Memory<nat, O>, next: nat)
    requires Swapped(m, h, t, e) && m.unwrapped == {} && Below(m, next)
    ensures Below(e, next) && |e.target| <= |m.target|
  {
    hide Swapped;
    SwappedRetargets(m, h, t, e);
    Subset(e.target.Keys, m.target.Keys);
  }

  lemma LegalHas<P, O>(w: World<P, O>)
    requires Legal(w)
    ensures Consistent(w.m) && w.m.unwrapped == {} && forall h :: h in w.m.target ==> h in w.m.place
  {}

  // ---- how many pointers a script may bring into being ----

  function Demand(command: Command): nat {
    match command
    case Declare => 1
    case Copy(_) => 1
    case New(size) => size + 1
    case Make(_, size) => size
    case _ => 0
  }

  function TotalDemand(script: seq<Command>): nat {
    if script == [] then 0 else TotalDemand(script[..|script| - 1]) + Demand(script[|script| - 1])
  }

  /** One pointer for a variable and one for each field; other commands make none. */
  lemma DemandOfOne(c: Command)
    ensures TotalDemand([]) == 0
    ensures TotalDemand([c]) ==
            (if c.Declare? || c.Copy? || c.New? then 1 else 0) + (if c.New? || c.Make? then c.size else 0)
  {
    assert [c][..0] == [];
  }

  lemma {:induction false} DemandGrows(script: seq<Command>, i: nat)
    requires i <= |script|
    ensures TotalDemand(script[..i]) <= TotalDemand(script)
    ensures i < |script| ==> TotalDemand(script[..i]) + Demand(script[i]) <= TotalDemand(script)
    decreases |script| - i
  {
    if i < |script| {
      assert script[..i + 1][..i] == script[..i];
      DemandGrows(script, i + 1);
    } else {
      assert script[..i] == script;
    }
  }

  // ---- what an assignment that lets go first may rely on ----

  /** `p = p->f`. */
  predicate OwnField(dest: Name, source: Name) {
    dest.Var? && source.Field? && source.index == dest.index
  }

  /** Unless a variable is assigned a field of its own object, both pointers outlive the release. */
  lemma ReleaseIsSafe<P, O>(w: World<P, O>, dest: Name, source: Name)
    requires Legal(w) && Named(w, dest).Some? && Named(w, source).Some? && !OwnField(dest, source)
    ensures Named(w, dest).value in w.m.target && Named(w, source).value in w.m.place
    ensures Survives(w.m, Named(w, dest).value, Named(w, source).value)
  {
    hide Valid, Recorded, Stays;
    InPlace(w.m);
    var h, g := Named(w, dest).value, Named(w, source).value;
    if source.Var? {
      VariableSurvives(w.m, h, g);
    } else {
      var v := w.vars[source.index];
      HeldStays(Drop(w.m, h), v, w.m.target[v].value);
    }
  }

  /** With `p = p->f` the field is still there to be read if and only if some other pointer is on
      the object, which the count tells. */
  lemma OwnFieldExactly<P, O>(w: World<P, O>, i: nat, slot: nat)
    requires Legal(w) && Named(w, Field(i, slot)).Some?
    ensures i < |w.vars| && w.vars[i] in w.m.target && w.m.target[w.vars[i]].Some?
    ensures w.m.target[w.vars[i]].value in w.m.count && Named(w, Field(i, slot)).value in w.m.place
    ensures Survives(w.m, w.vars[i], Named(w, Field(i, slot)).value) <==>
            w.m.count[w.m.target[w.vars[i]].value] > 1
  {
    hide Valid, Recorded, Scoped, Survives, On;
    InPlace(w.m);
    var h, g, o := w.vars[i], Named(w, Field(i, slot)).value, w.m.target[w.vars[i]].value;
    HeldIsCounted(w.m, h, o);
    if w.m.count[o] > 1 {
      SharedReleaseIsSafe(w.m, h, o, g);
    } else {
      OnlyHandleDooms(w.m, h, o, g);
    }
  }

  /** `p = p->f` asks for another pointer on the object of p; everything else asks for nothing. */
  ghost predicate Safe<P, O>(c: Command, w: World<P, O>) {
    c.Assign? && OwnField(c.dest, c.source) && Named(w, c.source).Some? ==>
      var o := w.m.target[w.vars[c.source.index]].value;
      o in w.m.count && w.m.count[o] > 1
  }

  /** Then both pointers outlive the release. */
  lemma SourceOutlives<P, O>(w: World<P, O>, dest: Name, source: Name)
    requires Legal(w) && Named(w, dest).Some? && Named(w, source).Some? && Safe(Assign(dest, source), w)
    ensures Named(w, dest).value in w.m.target && Named(w, source).value in w.m.place
    ensures Named(w, dest).value in w.m.place
    ensures Survives(w.m, Named(w, dest).value, Named(w, dest).value)
    ensures Survives(w.m, Named(w, dest).value, Named(w, source).value)
  {
    hide Valid, Recorded, Scoped, Survives;
    ReleaseIsSafe(w, dest, dest);
    if OwnField(dest, source) {
      OwnFieldExactly(w, source.index, source.slot);
    } else {
      ReleaseIsSafe(w, dest, source);
    }
  }

  /** A second pointer on the object is enough. */
  lemma SecondPointer<P, O>(m: Memory<P, O>, h: P, k: P, o: O)
    requires Valid(m) && h in m.target && k in m.target && h != k && m.target[h] == m.target[k] == Some(o)
    ensures o in m.count && m.count[o] > 1
  {
    HeldIsCounted(m, h, o);
    assert {h, k} <= On(m, o);
    Subset({h, k}, On(m, o));
  }

  lemma HeldIsCounted<P, O>(m: Memory<P, O>, h: P, o: O)
    requires Valid(m) && h in m.target && m.target[h] == Some(o)
    ensures o in m.count && m.count[o] == |On(m, o)| >= 1
  {
    assert h in On(m, o);
  }

  /** What was let go of and taken hold of one after the other was swapped. */
  lemma ReplacedSwaps<P, O>(m: Memory<P, O>, h: P, t: Option<O>, e: Memory<P, O>, m': Memory<P, O>)
    requires Valid(m) && m.unwrapped == {} && h in m.target && h in m.place && Survives(m, h, h)
    requires Replaced(m, h, t, e, m')
    ensures Swapped(m, h, t, m')
  {
    hide Valid, Cascade, Survives;
    if m.target[h] != None {
      SurvivesExactly(m, h, h, e);
      ReleaseTakes(Drop(m, h), e);
    }
    TakenIsUntaken(e, h, t);
  }

  lemma TakenIsUntaken<P, O>(e: Memory<P, O>, h: P, t: Option<O>)
    requires h in e.target && e.target[h] == None && e.unwrapped == {} && (t.Some? ==> t.value in e.count)
    ensures Untaken(if t.Some? then Take(e, h, t.value) else e, h, t) == e
  {
    if t.Some? {
      var u := Untaken(Take(e, h, t.value), h, t);
      assert u.target == e.target && u.count == e.count;
    }
  }
}
