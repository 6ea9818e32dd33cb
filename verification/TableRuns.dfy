/** Programs over `RefCountedPtr`: any script without an assignment of the form p = p->f keeps
    the table right and shows what it means.  New objects take the lowest free address, so
    addresses are used again as soon as they are free. */
module TableRuns {
  import opened Options
  import opened Ownership
  import opened Scripts
  import opened Graphs
  import opened Walks
  import opened TableInvariant
  import opened TableSteps
  import opened TableCount

  ghost function Here(program: Program, vars: seq<nat>, made: seq<Birth<nat, Obj>>): World<nat, Obj>
    reads program
  {
    World(program.m, vars, made)
  }

  ghost predicate Running(program: Program, vars: seq<nat>, made: seq<Birth<nat, Obj>>, next: nat)
    reads program
  {
    program.Ready() && Legal(Here(program, vars, made)) && Below(program.m, next)
  }

  /** `new T` is bound to one variable first. */
  predicate Plain(c: Command) {
    !c.Make?
  }

  method Find(name: Name, vars: seq<nat>, program: Program, ghost made: seq<Birth<nat, Obj>>) returns (h: Option<nat>)
    requires program.Ready() && Legal(Here(program, vars, made))
    ensures h == Named(Here(program, vars, made), name)
    ensures h.Some? ==> h.value in program.m.target && h.value in program.m.place
  {
    hide Valid, Matches, Recorded, Consistent;
    ghost var w := Here(program, vars, made);
    ValidCounted(program.m);
    InPlace(program.m);
    h := None;
    if name.index < |vars| {
      var v := vars[name.index];
      HeldIsLive(program.m, program.Now(), v);
      if name.Var? {
        h := Some(v);
      } else if program.pointee[v] != 0 {
        var a := program.pointee[v];
        Live(program.m, program.Now(), a);
        if name.slot < |program.members[a]| {
          h := Some(program.members[a][name.slot]);
        }
      }
    }
  }

  method FreeAddress(used: map<nat, seq<nat>>) returns (a: nat)
    ensures a != 0 && a !in used && forall b :: 0 < b < a ==> b in used
  {
    a := 1;
    var rest := used.Keys;
    while a in rest
      invariant a != 0 && rest <= used.Keys && forall b :: b in used ==> b < a || b in rest
      invariant forall b :: 0 < b < a ==> b in used
      decreases rest
    {
      rest, a := rest - {a}, a + 1;
    }
  }

  method DeclareVar(p: nat, program: Program, next: nat, ghost w: World<nat, Obj>)
    requires program.Ready() && program.m == w.m && Below(w.m, next) && |w.m.target| < INT_MAX
    requires (p != 0 ==> p in program.members) && forall h :: h in w.m.target ==> h in w.m.place
    modifies program
    ensures program.Ready() && Below(program.m, next + 1)
    ensures Declared(w, old(At(program.Now(), p)), Here(program, w.vars + [next], w.made))
    ensures |program.m.target| == |w.m.target| + 1
  {
    hide Valid, Matches, NewHandle;
    assert next !in w.m.place;
    AtIsCounted(program.m, program.Now(), p);
    NewHandleSize(w.m, next, At(program.Now(), p));
    NewHandlePlace(w.m, next, At(program.Now(), p));
    program.Construct(next, p);
  }

  lemma AtIsCounted(m: Memory<nat, Obj>, s: Image, p: nat)
    requires Matches(m, s) && (p != 0 ==> p in s.members)
    ensures At(s, p).Some? ==> At(s, p).value in m.count
  {}

  /** A new object with its members at the places from `next` on. */
  method MakeObject(size: nat, program: Program, next: nat) returns (a: nat)
    requires program.Ready() && Below(program.m, next) && |program.m.target| + size <= INT_MAX
    requires forall h :: h in program.m.target ==> h in program.m.place
    modifies program
    ensures program.Ready() && Below(program.m, next + size)
    ensures a in program.members && a != 0 && a in program.id && |program.members[a]| == size
    ensures var o, hs := program.id[a], program.members[a];
            && o !in old(program.m).layout && o !in old(program.m).freed
            && program.m == Grown(old(program.m), o, hs) && Distinct(hs)
            && (forall h :: h in hs ==> next <= h < next + size)
    ensures |program.m.target| == old(|program.m.target|) + size
  {
    hide Valid, Matches, AddMembers, AddMember;
    a := FreeAddress(program.members);
    ghost var o := Obj(a, program.births);
    NewObjectMatches(program.m, program.Now(), a) by { ValidCounted(program.m); }
    program.Allocate(a);
    ghost var m := program.m;
    AddObjectChanges(old(program.m), o);
    NoneIsDistinct<nat>();
    for i := 0 to size
      invariant program.Ready() && a in program.members && a in program.id && program.id[a] == o && o in m.layout
      invariant |program.members[a]| == i && Distinct(program.members[a])
      invariant forall h :: h in program.members[a] ==> next <= h < next + i
      invariant program.m == AddMembers(m, o, program.members[a])
      invariant |program.m.target| == |m.target| + i
      invariant Below(program.m, next + i) && forall h :: h in program.m.target ==> h in program.m.place
    {
      AddField(a, o, program, next + i, m);
    }
  }

  method AddField(a: nat, ghost o: Obj, program: Program, h: nat, ghost m: Memory<nat, Obj>)
    requires program.Ready() && a in program.members && a in program.id && program.id[a] == o && o in m.layout
    requires program.m == AddMembers(m, o, program.members[a]) && |program.m.target| < INT_MAX
    requires Below(program.m, h) && Distinct(program.members[a])
    requires forall g :: g in program.members[a] ==> g < h
    requires forall h :: h in program.m.target ==> h in program.m.place
    modifies program
    ensures program.Ready() && a in program.members && program.members[a] == old(program.members[a]) + [h]
    ensures a in program.id && program.id[a] == o && Distinct(program.members[a])
    ensures program.m == AddMembers(m, o, program.members[a])
    ensures |program.m.target| == old(|program.m.target|) + 1
    ensures Below(program.m, h + 1) && forall h :: h in program.m.target ==> h in program.m.place
  {
    hide Valid, Matches, AddMembers, AddMember;
    ghost var e, hs := program.m, program.members[a];
    Live(program.m, program.Now(), a);
    program.DeclareMember(a, h);
    AddMembersOne(m, o, hs, h);
    AddMemberSize(e, o, h);
    AddMemberPlace(e, o, h);
    OneMoreDistinct(hs, h);
  }

  method BuildVar(size: nat, program: Program, next: nat, ghost w: World<nat, Obj>)
    returns (ghost birth: Birth<nat, Obj>)
    requires program.Ready() && program.m == w.m && Below(w.m, next) && |w.m.target| + size + 1 <= INT_MAX
    requires forall h :: h in w.m.target ==> h in w.m.place
    modifies program
    ensures program.Ready() && Below(program.m, next + size + 1)
    ensures Built(w, size, Here(program, w.vars + [next + size], w.made + [birth]))
    ensures |program.m.target| == |w.m.target| + size + 1
  {
    hide Valid, Matches, NewHandle, Grown;
    var a := MakeObject(size, program, next);
    birth := Birth(program.id[a], program.members[a]);
    Live(program.m, program.Now(), a);
    InPlace(program.m);
    DeclareVar(a, program, next + size, World(program.m, w.vars, w.made + [birth]));
  }

  /** `d = s`. */
  method AssignPtr(d: nat, s: nat, program: Program, next: nat, ghost w: World<nat, Obj>)
    requires program.Ready() && program.m == w.m && Below(w.m, next) && w.m.unwrapped == {}
    requires d in w.m.target && d in w.m.place && s in w.m.target && s in w.m.place
    requires Survives(w.m, d, d) && Survives(w.m, d, s)
    modifies program
    ensures program.Ready() && Below(program.m, next) && |program.m.target| <= |w.m.target|
    ensures Assigned(LetGoFirst, w, d, w.m.target[s], Here(program, w.vars, w.made))
  {
    hide Valid, Matches, Survives, Replaced, Swapped;
    ValidCounted(w.m);
    HeldIsLive(program.m, program.Now(), d);
    HeldIsLive(program.m, program.Now(), s);
    ghost var same := program.pointee[d] == program.pointee[s];
    ghost var e := program.Assign(d, s);
    if !same {
      ReplacedSwaps(w.m, d, w.m.target[s], e, program.m);
      SwappedKeeps(w.m, d, w.m.target[s], program.m, next);
    }
  }

  /** `d.reset()`. */
  method ClearPtr(d: nat, program: Program, next: nat, ghost w: World<nat, Obj>)
    requires program.Ready() && program.m == w.m && Below(w.m, next) && w.m.unwrapped == {}
    requires d in w.m.target && d in w.m.place && Survives(w.m, d, d)
    modifies program
    ensures program.Ready() && Below(program.m, next) && |program.m.target| <= |w.m.target|
    ensures Assigned(LetGoFirst, w, d, None, Here(program, w.vars, w.made))
  {
    hide Valid, Matches, Survives, Cascade, Swapped;
    ValidCounted(w.m);
    HeldIsLive(program.m, program.Now(), d);
    program.Reset(d);
    ResetSwaps(w.m, d, program.m);
    SwappedKeeps(w.m, d, None, program.m, next);
  }

  lemma ResetSwaps<O>(m: Memory<nat, O>, h: nat, e: Memory<nat, O>)
    requires h in m.target && h in e.target && Valid(e)
    requires if m.target[h] == None then e == m else Cascade(Drop(m, h), e)
    ensures Swapped(m, h, None, e)
  {
    hide Valid;
  }

  method LeaveVar(p: nat, program: Program, next: nat, ghost w: World<nat, Obj>)
    requires program.Ready() && program.m == w.m && Below(w.m, next) && Legal(w)
    requires w.vars != [] && p == w.vars[|w.vars| - 1]
    modifies program
    ensures program.Ready() && Below(program.m, next) && |program.m.target| <= |w.m.target|
    ensures Gone(w, Here(program, w.vars[..|w.vars| - 1], w.made))
  {
    hide Valid, Matches, Cascade, Legal;
    VarIsThere(w, |w.vars| - 1);
    program.Leave(p);
    ReleaseTakes(End(w.m, p), program.m);
    Subset(program.m.target.Keys, w.m.target.Keys);
  }

  /** Runs one command. */
  method Step(command: Command, vars: seq<nat>, program: Program, next: nat, ghost made: seq<Birth<nat, Obj>>)
    returns (vars': seq<nat>, next': nat, ghost made': seq<Birth<nat, Obj>>)
    requires Running(program, vars, made, next) && Plain(command) && Safe(command, Here(program, vars, made))
    requires |program.m.target| + Demand(command) <= INT_MAX
    modifies program
    ensures program.Ready() && Below(program.m, next')
    ensures Moves(LetGoFirst, command, old(Here(program, vars, made)), Here(program, vars', made'))
    ensures |program.m.target| <= old(|program.m.target|) + Demand(command)
  {
    hide Legal, Valid, Consistent, Matches, Declared, Built, Assigned, Gone, Survives, Below, Safe;
    vars', next', made' := vars, next, made;
    ghost var w := Here(program, vars, made);
    LegalHas(w);
    match command
    case Declare =>
      DeclareVar(0, program, next, w);
      vars', next' := vars + [next], next + 1;
    case Copy(source) =>
      var s := Find(source, vars, program, made);
      if s.Some? {
        HeldIsLive(program.m, program.Now(), s.value);
        DeclareVar(program.pointee[s.value], program, next, w);
        vars', next' := vars + [next], next + 1;
      }
    case New(size) =>
      ghost var birth := BuildVar(size, program, next, w);
      vars', next', made' := vars + [next + size], next + size + 1, made + [birth];
    case Assign(dest, source) =>
      var d := Find(dest, vars, program, made);
      var s := Find(source, vars, program, made);
      if d.Some? && s.Some? {
        SourceOutlives(w, dest, source);
        AssignPtr(d.value, s.value, program, next, w);
      }
    case Clear(dest) =>
      var d := Find(dest, vars, program, made);
      if d.Some? {
        ReleaseIsSafe(w, dest, dest);
        ClearPtr(d.value, program, next, w);
      }
    case Leave =>
      if vars != [] {
        LeaveVar(vars[|vars| - 1], program, next, w);
        vars' := vars[..|vars| - 1];
      }
  }

  /** Runs a script from an empty memory, through a trace of its own, to what it means. */
  method Run(script: seq<Command>)
    returns (vars: seq<nat>, program: Program, ghost made: seq<Birth<nat, Obj>>, ghost trace: seq<World<nat, Obj>>)
    requires TotalDemand(script) <= INT_MAX && forall c :: c in script ==> Plain(c)
    requires AlwaysSafe<nat, Obj>(LetGoFirst, script)
    ensures fresh(program) && program.Ready()
    ensures IsTrace(LetGoFirst, script, trace) && trace[|script|] == Here(program, vars, made)
    ensures Faithful(Here(program, vars, made), Meaning(script))
  {
    hide Legal, Valid, Matches, Moves, Mirrors, Plain, Safe, AlwaysSafe;
    program := new Program();
    vars, made, trace := [], [], [EmptyWorld()];
    var next := 0;
    EmptyIsLegal<nat, Obj>();
    for i := 0 to |script|
      invariant fresh(program) && Running(program, vars, made, next)
      invariant |program.m.target| <= TotalDemand(script[..i])
      invariant IsTrace(LetGoFirst, script[..i], trace) && trace[i] == Here(program, vars, made)
    {
      DemandGrows(script, i);
      SafeNow(LetGoFirst, script, trace, i);
      assert script[..i + 1][..i] == script[..i];
      vars, next, made := Step(script[i], vars, program, next, made);
      MovesLegal(LetGoFirst, script[i], trace[i], Here(program, vars, made));
      OneStepMore(LetGoFirst, script, trace, i, Here(program, vars, made));
      trace := trace + [Here(program, vars, made)];
    }
    assert script[..|script|] == script;
    TraceIsFaithful(LetGoFirst, script, trace, |script|);
  }

  /** Runs any script that says of each p = p->f that another variable leads to the object of p, to
      what it means. */
  method RunInFull(script: seq<Command>)
    returns (vars: seq<nat>, program: Program, ghost made: seq<Birth<nat, Obj>>)
    requires AllShared(script) && TotalDemand(InFull(script)) <= INT_MAX
    ensures fresh(program) && program.Ready() && Faithful(Here(program, vars, made), Meaning(script))
  {
    hide AllShared, AlwaysSafe, Faithful, Matches, Valid;
    InFullShared(script);
    InFullMeans(script);
    SharedIsSafe<nat, Obj>(LetGoFirst, InFull(script));
    ghost var trace;
    vars, program, made, trace := Run(InFull(script));
  }
}
