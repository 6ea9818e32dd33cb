/** Programs over `NDRefCounted`: any script without an assignment of the form p = p->f keeps
    every cell right and shows what it means. */
module CellRuns {
  import opened Options
  import opened Ownership
  import opened Scripts
  import opened Graphs
  import opened Walks
  import opened CellInvariant
  import opened CellSteps
  import opened CellCount

  ghost function Here(program: Program, vars: seq<nat>, made: seq<Birth<nat, nat>>): World<nat, nat>
    reads program
  {
    World(program.m, vars, made)
  }

  ghost predicate Running(program: Program, vars: seq<nat>, made: seq<Birth<nat, nat>>, next: nat)
    reads program
  {
    program.Ready() && Legal(Here(program, vars, made)) && Below(program.m, next) && Numbered(made)
  }

  /** Objects are numbered as they are made. */
  predicate Numbered(made: seq<Birth<nat, nat>>) {
    forall k :: 0 <= k < |made| ==> made[k].obj == k
  }

  /** `new T` is bound to one variable first, and there is no operation that clears a handle. */
  predicate Plain(c: Command) {
    !c.Make? && !c.Clear?
  }

  method Find(name: Name, vars: seq<nat>, program: Program, ghost made: seq<Birth<nat, nat>>) returns (h: Option<nat>)
    requires program.Ready() && Legal(Here(program, vars, made))
    ensures h == Named(Here(program, vars, made), name)
    ensures h.Some? ==> h.value in program.m.target && h.value in program.m.place
  {
    hide Valid, Matches, Recorded, Consistent;
    ValidCounted(program.m);
    InPlace(program.m);
    h := None;
    if name.index < |vars| {
      var v := vars[name.index];
      HeldIsLive(program.m, program.Now(), v);
      if name.Var? {
        h := Some(v);
      } else if program.pObject[v].Some? {
        var o := program.pObject[v].value;
        Live(program.m, program.Now(), o);
        if name.slot < |program.members[o]| {
          h := Some(program.members[o][name.slot]);
        }
      }
    }
  }

  method FreeCell(counter: map<nat, int>) returns (c: nat)
    ensures c != 0 && c !in counter && forall b :: 0 < b < c ==> b in counter
  {
    c := 1;
    var rest := counter.Keys;
    while c in rest
      invariant c != 0 && rest <= counter.Keys && forall b :: b in counter ==> b < c || b in rest
      invariant forall b :: 0 < b < c ==> b in counter
      decreases rest
    {
      rest, c := rest - {c}, c + 1;
    }
  }

  /** `Ptr p;` */
  method DeclareVar(program: Program, next: nat, ghost w: World<nat, nat>)
    requires program.Ready() && program.m == w.m && Below(w.m, next) && |w.m.target| + 1 < Width
    requires forall h :: h in w.m.target ==> h in w.m.place
    modifies program
    ensures program.Ready() && Below(program.m, next + 1)
    ensures Declared(w, None, Here(program, w.vars + [next], w.made))
    ensures |program.m.target| == |w.m.target| + 1
  {
    hide Valid, Matches;
    assert next !in w.m.place;
    NewHandleSize(w.m, next, None);
    NewHandlePlace(w.m, next, None);
    program.Default(next);
  }

  /** `Ptr p(s);` */
  method CopyVar(s: nat, program: Program, next: nat, ghost w: World<nat, nat>)
    requires program.Ready() && program.m == w.m && Below(w.m, next) && |w.m.target| + 1 < Width
    requires s in w.m.target && forall h :: h in w.m.target ==> h in w.m.place
    modifies program
    ensures program.Ready() && Below(program.m, next + 1)
    ensures Declared(w, w.m.target[s], Here(program, w.vars + [next], w.made))
    ensures |program.m.target| == |w.m.target| + 1
  {
    hide Valid, Matches, NewHandle;
    assert next !in w.m.place;
    ValidCounted(w.m);
    HeldIsLive(program.m, program.Now(), s);
    NewHandleSize(w.m, next, w.m.target[s]);
    NewHandlePlace(w.m, next, w.m.target[s]);
    program.Copy(next, s);
  }

  /** `Ptr p(o);` for a new object. */
  method WrapVar(o: nat, program: Program, next: nat, ghost w: World<nat, nat>)
    requires program.Ready() && program.m == w.m && Below(w.m, next) && |w.m.target| + 1 < Width
    requires o in w.m.unwrapped && forall h :: h in w.m.target ==> h in w.m.place
    modifies program
    ensures program.Ready() && Below(program.m, next + 1)
    ensures Declared(w, Some(o), Here(program, w.vars + [next], w.made))
    ensures |program.m.target| == |w.m.target| + 1
  {
    hide Valid, Matches, NewHandle, Counted;
    assert next !in w.m.place;
    ValidCounted(w.m);
    NotHeld(w.m, o);
    NewHandleSize(w.m, next, Some(o));
    NewHandlePlace(w.m, next, Some(o));
    var c := FreeCell(program.counter);
    program.Wrap(next, Some(o), c);
  }

  /** Object `o` with its members at the places from `next` on. */
  method MakeObject(o: nat, size: nat, program: Program, next: nat)
    requires program.Ready() && o !in program.m.layout && o !in program.m.freed
    requires Below(program.m, next) && |program.m.target| + size < Width
    requires forall h :: h in program.m.target ==> h in program.m.place
    modifies program
    ensures program.Ready() && Below(program.m, next + size) && o in program.members && |program.members[o]| == size
    ensures program.m == Grown(old(program.m), o, program.members[o]) && Distinct(program.members[o])
    ensures forall h :: h in program.members[o] ==> next <= h < next + size
    ensures o in program.m.unwrapped && |program.m.target| == old(|program.m.target|) + size
    ensures forall h :: h in program.m.target ==> h in program.m.place
  {
    hide Valid, Matches, AddMembers, AddMember;
    program.Allocate(o);
    ghost var m := program.m;
    AddObjectChanges(old(program.m), o);
    NoneIsDistinct<nat>();
    MembersAre(program.m, program.Now(), o);
    for i := 0 to size
      invariant program.Ready() && o in program.members && o in m.layout && o in program.m.layout
      invariant |program.members[o]| == i && Distinct(program.members[o])
      invariant forall h :: h in program.members[o] ==> next <= h < next + i
      invariant program.m == AddMembers(m, o, program.members[o]) && o in program.m.unwrapped
      invariant |program.m.target| == |m.target| + i
      invariant Below(program.m, next + i) && forall h :: h in program.m.target ==> h in program.m.place
    {
      AddField(o, program, next + i, m);
    }
  }

  lemma MembersAre(m: Memory<nat, nat>, s: Image, o: nat)
    requires Matches(m, s) && o in m.layout
    ensures o in s.members && s.members[o] == m.layout[o]
  {}

  method AddField(o: nat, program: Program, h: nat, ghost m: Memory<nat, nat>)
    requires program.Ready() && o in program.members && o in m.layout && o in program.m.layout
    requires program.m == AddMembers(m, o, program.members[o]) && |program.m.target| + 1 < Width
    requires Below(program.m, h) && Distinct(program.members[o])
    requires forall g :: g in program.members[o] ==> g < h
    requires forall h :: h in program.m.target ==> h in program.m.place
    modifies program
    ensures program.Ready() && o in program.m.layout
    ensures o in program.members && program.members[o] == old(program.members[o]) + [h]
    ensures Distinct(program.members[o]) && program.m == AddMembers(m, o, program.members[o])
    ensures |program.m.target| == old(|program.m.target|) + 1 && program.m.unwrapped == old(program.m.unwrapped)
    ensures Below(program.m, h + 1) && forall h :: h in program.m.target ==> h in program.m.place
  {
    hide Valid, Matches, AddMembers;
    ghost var e, hs := program.m, program.members[o];
    MembersAre(program.m, program.Now(), o);
    program.DeclareMember(o, h);
    MembersAre(program.m, program.Now(), o);
    AddMembersOne(m, o, hs, h);
    AddMemberSize(e, o, h);
    AddMemberPlace(e, o, h);
    OneMoreDistinct(hs, h);
  }

  method BuildVar(o: nat, size: nat, program: Program, next: nat, ghost w: World<nat, nat>)
    returns (ghost birth: Birth<nat, nat>)
    requires program.Ready() && program.m == w.m && Below(w.m, next) && |w.m.target| + size + 1 < Width
    requires o !in w.m.layout && o !in w.m.freed
    requires forall h :: h in w.m.target ==> h in w.m.place
    modifies program
    ensures program.Ready() && Below(program.m, next + size + 1) && birth.obj == o
    ensures Built(w, size, Here(program, w.vars + [next + size], w.made + [birth]))
    ensures |program.m.target| == |w.m.target| + size + 1
  {
    hide Valid, Matches, NewHandle, Grown;
    MakeObject(o, size, program, next);
    birth := Birth(o, program.members[o]);
    WrapVar(o, program, next + size, World(program.m, w.vars, w.made + [birth]));
  }

  /** `d = s`. */
  method AssignPtr(d: nat, s: nat, program: Program, next: nat, ghost w: World<nat, nat>)
    requires program.Ready() && program.m == w.m && Below(w.m, next) && w.m.unwrapped == {}
    requires d in w.m.target && d in w.m.place && s in w.m.target && s in w.m.place
    requires Survives(w.m, d, d) && Survives(w.m, d, s)
    modifies program
    ensures program.Ready() && Below(program.m, next) && |program.m.target| <= |w.m.target|
    ensures Assigned(LetGoFirst, w, d, w.m.target[s], Here(program, w.vars, w.made))
  {
    hide Valid, Matches, Survives, Replaced, Swapped;
    ValidCounted(w.m);
    HeldIsLive(program.m, program.Now(), d);
    HeldIsLive(program.m, program.Now(), s);
    ghost var e := program.Assign(d, s);
    if d != s {
      ReplacedSwaps(w.m, d, w.m.target[s], e, program.m);
      SwappedKeeps(w.m, d, w.m.target[s], program.m, next);
    }
  }

  method LeaveVar(p: nat, program: Program, next: nat, ghost w: World<nat, nat>)
    requires program.Ready() && program.m == w.m && Below(w.m, next) && Legal(w)
    requires w.vars != [] && p == w.vars[|w.vars| - 1]
    modifies program
    ensures program.Ready() && Below(program.m, next) && |program.m.target| <= |w.m.target|
    ensures Gone(w, Here(program, w.vars[..|w.vars| - 1], w.made))
  {
    hide Valid, Matches, Cascade, Legal;
    VarIsThere(w, |w.vars| - 1);
    program.Leave(p);
    ReleaseTakes(End(w.m, p), program.m);
    Subset(program.m.target.Keys, w.m.target.Keys);
  }

  /** Runs one command. */
  method Step(command: Command, vars: seq<nat>, program: Program, next: nat, born: nat,
              ghost made: seq<Birth<nat, nat>>)
    returns (vars': seq<nat>, next': nat, born': nat, ghost made': seq<Birth<nat, nat>>)
    requires Running(program, vars, made, next) && Plain(command) && born == |made|
    requires Safe(command, Here(program, vars, made))
    requires |program.m.target| + Demand(command) < Width
    modifies program
    ensures program.Ready() && Below(program.m, next') && Numbered(made') && born' == |made'|
    ensures Moves(LetGoFirst, command, old(Here(program, vars, made)), Here(program, vars', made'))
    ensures |program.m.target| <= old(|program.m.target|) + Demand(command)
  {
    hide Legal, Valid, Consistent, Matches, Declared, Built, Assigned, Gone, Survives, Below, Safe;
    vars', next', born', made' := vars, next, born, made;
    ghost var w := Here(program, vars, made);
    LegalHas(w);
    match command
    case Declare =>
      DeclareVar(program, next, w);
      vars', next' := vars + [next], next + 1;
    case Copy(source) =>
      var s := Find(source, vars, program, made);
      if s.Some? {
        CopyVar(s.value, program, next, w);
        vars', next' := vars + [next], next + 1;
      }
    case New(size) =>
      NumberIsNew(w);
      ghost var birth := BuildVar(born, size, program, next, w);
      vars', next', born', made' := vars + [next + size], next + size + 1, born + 1, made + [birth];
    case Assign(dest, source) =>
      var d := Find(dest, vars, program, made);
      var s := Find(source, vars, program, made);
      if d.Some? && s.Some? {
        SourceOutlives(w, dest, source);
        AssignPtr(d.value, s.value, program, next, w);
      }
    case Leave =>
      if vars != [] {
        LeaveVar(vars[|vars| - 1], program, next, w);
        vars' := vars[..|vars| - 1];
      }
  }

  lemma NumberIsNew(w: World<nat, nat>)
    requires Legal(w) && Numbered(w.made)
    ensures |w.made| !in w.m.layout && |w.made| !in w.m.freed
  {
    hide Valid, Scoped;
  }

  /** Runs a script from an empty memory, through a trace of its own, to what it means. */
  method Run(script: seq<Command>)
    returns (vars: seq<nat>, program: Program, ghost made: seq<Birth<nat, nat>>, ghost trace: seq<World<nat, nat>>)
    requires TotalDemand(script) < Width && forall c :: c in script ==> Plain(c)
    requires AlwaysSafe<nat, nat>(LetGoFirst, script)
    ensures fresh(program) && program.Ready()
    ensures IsTrace(LetGoFirst, script, trace) && trace[|script|] == Here(program, vars, made)
    ensures Faithful(Here(program, vars, made), Meaning(script))
  {
    hide Legal, Valid, Matches, Moves, Mirrors, Plain, Safe, AlwaysSafe, Numbered;
    program := new Program();
    vars, made, trace := [], [], [EmptyWorld()];
    var next, born := 0, 0;
    EmptyIsLegal<nat, nat>();
    NoneIsNumbered();
    for i := 0 to |script|
      invariant fresh(program) && Running(program, vars, made, next) && born == |made|
      invariant |program.m.target| <= TotalDemand(script[..i])
      invariant IsTrace(LetGoFirst, script[..i], trace) && trace[i] == Here(program, vars, made)
    {
      DemandGrows(script, i);
      SafeNow(LetGoFirst, script, trace, i);
      assert script[..i + 1][..i] == script[..i];
      vars, next, born, made := Step(script[i], vars, program, next, born, made);
      MovesLegal(LetGoFirst, script[i], trace[i], Here(program, vars, made));
      OneStepMore(LetGoFirst, script, trace, i, Here(program, vars, made));
      trace := trace + [Here(program, vars, made)];
    }
    assert script[..|script|] == script;
    TraceIsFaithful(LetGoFirst, script, trace, |script|);
  }

  /** Runs any script that says of each p = p->f that another variable leads to the object of p, to
      what it means. */
  method RunInFull(script: seq<Command>)
    returns (vars: seq<nat>, program: Program, ghost made: seq<Birth<nat, nat>>)
    requires AllShared(script) && TotalDemand(InFull(script)) < Width
    ensures fresh(program) && program.Ready() && Faithful(Here(program, vars, made), Meaning(script))
  {
    hide AllShared, AlwaysSafe, Faithful, Matches, Valid;
    InFullShared(script);
    InFullMeans(script);
    SharedIsSafe<nat, nat>(LetGoFirst, InFull(script));
    ghost var trace;
    vars, program, made, trace := Run(InFull(script));
  }

  lemma NoneIsNumbered()
    ensures Numbered([])
  {}
}
