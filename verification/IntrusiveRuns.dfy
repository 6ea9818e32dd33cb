/** Programs over the intrusive pointers: any script of commands, over objects that refer to
    each other in any shape.  Every command does to memory what it should, no command breaks
    the counts, and the run shows what the script means. */
module IntrusiveRuns {
  import opened Options
  import opened Ownership
  import opened Cycles
  import opened Scripts
  import opened Graphs
  import opened IntrusiveCount

  ghost function Here(heap: Heap, vars: seq<Ptr>, made: seq<Birth<Ptr, Object>>): World<Ptr, Object>
    reads heap
  {
    World(heap.m, vars, made)
  }

  ghost predicate Running(heap: Heap, vars: seq<Ptr>, made: seq<Birth<Ptr, Object>>)
    reads heap, heap.m.target.Keys, heap.m.layout.Keys
  {
    heap.Ready() && Legal(Here(heap, vars, made))
  }

  /** The objects and pointers there are were there before or are new. */
  twostate predicate Continues(heap: Heap)
    reads heap
  {
    && (forall o :: o in heap.m.layout ==> o in old(heap.m.layout) || fresh(o))
    && (forall h :: h in heap.m.target ==> h in old(heap.m.target) || fresh(h))
  }

  twostate predicate Shrunk(heap: Heap)
    reads heap
  {
    |heap.m.target| <= old(|heap.m.target|) && heap.m.target.Keys <= old(heap.m.target.Keys)
  }

  method Find(name: Name, vars: seq<Ptr>, ghost heap: Heap, ghost made: seq<Birth<Ptr, Object>>) returns (p: Ptr?)
    requires Running(heap, vars, made)
    ensures match Named(Here(heap, vars, made), name)
            case None => p == null
            case Some(h) => p == h && h in heap.m.target && h in heap.m.place
    ensures p != null && p.referencedObject != null ==> p.referencedObject in heap.m.layout
  {
    hide Scoped, Recorded, Valid;
    InPlace(heap.m);
    p := null;
    if name.index < |vars| {
      var v := vars[name.index];
      VarIsThere(Here(heap, vars, made), name.index);
      if name.Var? {
        p := v;
      } else if v.referencedObject != null && name.slot < |v.referencedObject.members| {
        p := v.referencedObject.members[name.slot];
      }
    }
  }

  method DeclareVar(t: Object?, ghost heap: Heap, ghost w: World<Ptr, Object>) returns (p: Ptr)
    requires heap.Ready() && heap.m == w.m && (t != null ==> t in heap.m.layout) && |heap.m.target| < INT_MAX
    modifies heap, heap.m.layout.Keys`refCount
    ensures heap.Ready() && Continues(heap) && fresh(p)
    ensures Declared(w, AsOption(t), Here(heap, w.vars + [p], w.made))
    ensures |heap.m.target| == old(|heap.m.target|) + 1
  {
    hide Valid, Consistent, NewHandle, On, Heap.Coherent;
    if t != null {
      heap.MirrorsObject(t);
    }
    p := new Ptr(t, heap);
    NewHandleSize(w.m, p, AsOption(t));
  }

  method MakeObject(size: nat, ghost heap: Heap) returns (o: Object)
    requires heap.Ready() && |heap.m.target| + size <= INT_MAX
    modifies heap
    ensures fresh(o) && heap.Ready() && Continues(heap) && o in heap.m.layout
    ensures |o.members| == size && o !in old(heap.m.layout) && o !in old(heap.m.freed)
    ensures heap.m == Grown(old(heap.m), o, o.members)
    ensures AllFresh(o.members) && Distinct(o.members)
    ensures old(heap.m.target.Keys) <= heap.m.target.Keys && |heap.m.target| == old(|heap.m.target|) + size
  {
    hide Valid, Consistent, On, AddMember, AddMembers, AddObject, Heap.Coherent, Distinct;
    o := new Object(heap);
    ghost var m := heap.m;
    AddObjectChanges(old(heap.m), o);
    NoneIsDistinct<Ptr>();
    while |o.members| < size
      invariant |o.members| <= size && heap.Ready() && o in heap.m.layout
      invariant |heap.m.target| == old(|heap.m.target|) + |o.members|
      invariant heap.m == AddMembers(m, o, o.members)
      invariant old(heap.m.target.Keys) <= heap.m.target.Keys && Continues(heap)
      invariant AllFresh(o.members) && Distinct(o.members)
    {
      ghost var hs := o.members;
      var h := AddField(o, heap, m);
      OneMoreDistinct(hs, h);
    }
  }

  twostate predicate AllFresh(new hs: seq<Ptr>) {
    forall h :: h in hs ==> fresh(h)
  }

  method AddField(o: Object, ghost heap: Heap, ghost m: Memory<Ptr, Object>) returns (h: Ptr)
    requires heap.Ready() && o in m.layout && o in heap.m.layout && |heap.m.target| < INT_MAX
    requires heap.m == AddMembers(m, o, o.members)
    modifies heap, o`members
    ensures heap.Ready() && o in heap.m.layout && heap.m == AddMembers(m, o, o.members)
    ensures fresh(h) && o.members == old(o.members) + [h] && |heap.m.target| == old(|heap.m.target|) + 1
    ensures old(heap.m.target.Keys) <= heap.m.target.Keys && Continues(heap)
  {
    hide Valid, Consistent, On, AddMember, AddMembers, Heap.Coherent;
    ghost var hs, e := o.members, heap.m;
    o.DeclareMember(heap);
    h := o.members[|o.members| - 1];
    assert o.members == hs + [h];
    AddMembersOne(m, o, hs, h);
    AddMemberChanges(e, o, h);
  }

  /** `p = t`. */
  method Point(p: Ptr, t: Object?, ghost heap: Heap)
    requires heap.Ready() && p in heap.m.target && (t != null ==> t in heap.m.layout)
    modifies heap, heap.m.layout.Keys`refCount, p`referencedObject
    ensures heap.Ready() && Pointed(old(heap.m), p, AsOption(t), heap.m) && Continues(heap) && Shrunk(heap)
  {
    hide Valid, Consistent, Cascade, Repoint, On, Smaller, Heap.Coherent, TargetKept;
    p.Assign(t, heap);
    SmallerSize(old(heap.m), heap.m);
  }

  method LeaveVar(vars: seq<Ptr>, ghost heap: Heap, ghost w: World<Ptr, Object>)
    requires heap.Ready() && heap.m == w.m && vars == w.vars != [] && Legal(w)
    modifies heap, heap.m.layout.Keys`refCount
    ensures heap.Ready() && Gone(w, Here(heap, vars[..|vars| - 1], w.made)) && Continues(heap) && Shrunk(heap)
  {
    hide Valid, Consistent, Cascade, On, Smaller, Heap.Coherent, End, Legal;
    var p := vars[|vars| - 1];
    VarIsThere(w, |vars| - 1);
    ValidCounted(heap.m);
    ghost var m, b := heap.m, End(heap.m, p);
    p.Destroy(heap, b);
    Settled(b, heap.m);
    SmallerSize(m, heap.m);
  }

  method MakeInto(d: Ptr, size: nat, ghost heap: Heap, ghost w: World<Ptr, Object>)
    returns (ghost birth: Birth<Ptr, Object>)
    requires heap.Ready() && heap.m == w.m && d in heap.m.target && |heap.m.target| + size <= INT_MAX
    modifies heap, heap.m.layout.Keys`refCount, d`referencedObject
    ensures heap.Ready() && Made(w, d, size, Here(heap, w.vars, w.made + [birth]))
    ensures Continues(heap) && |heap.m.target| <= old(|heap.m.target|) + size
  {
    hide Valid, Heap.Coherent, Cascade, Pointed, Grown;
    var o := MakeObject(size, heap);
    birth := Birth(o, o.members);
    Point(d, o, heap);
  }

  method BuildVar(size: nat, ghost heap: Heap, ghost w: World<Ptr, Object>)
    returns (p: Ptr, ghost birth: Birth<Ptr, Object>)
    requires heap.Ready() && heap.m == w.m && |heap.m.target| + size + 1 <= INT_MAX
    modifies heap, heap.m.layout.Keys`refCount
    ensures heap.Ready() && Built(w, size, Here(heap, w.vars + [p], w.made + [birth]))
    ensures Continues(heap) && |heap.m.target| == old(|heap.m.target|) + size + 1
  {
    hide Valid, Heap.Coherent, Cascade, Grown, NewHandle;
    var o := MakeObject(size, heap);
    birth := Birth(o, o.members);
    p := DeclareVar(o, heap, World(heap.m, w.vars, w.made + [birth]));
  }

  method ClearPtr(d: Ptr, ghost heap: Heap, ghost w: World<Ptr, Object>)
    requires heap.Ready() && heap.m == w.m && d in heap.m.target
    modifies heap, heap.m.layout.Keys`refCount, d`referencedObject
    ensures heap.Ready() && Assigned(TakeFirst, w, d, None, Here(heap, w.vars, w.made))
    ensures Continues(heap) && Shrunk(heap)
  {
    hide Valid, Heap.Coherent, Pointed;
    Point(d, null, heap);
  }

  method AssignFrom(d: Ptr, s: Ptr, ghost heap: Heap, ghost w: World<Ptr, Object>)
    requires heap.Ready() && heap.m == w.m && d in heap.m.target && s in heap.m.target
    modifies heap, heap.m.layout.Keys`refCount, d`referencedObject
    ensures heap.Ready() && Assigned(TakeFirst, w, d, w.m.target[s], Here(heap, w.vars, w.made))
    ensures Continues(heap) && Shrunk(heap)
  {
    hide Valid, Heap.Coherent, Cascade, Pointed, Smaller, TargetKept;
    d.AssignFrom(s, heap);
    SmallerSize(w.m, heap.m);
  }

  /** Runs one command. */
  method Step(command: Command, vars: seq<Ptr>, ghost heap: Heap, ghost made: seq<Birth<Ptr, Object>>)
    returns (vars': seq<Ptr>, ghost made': seq<Birth<Ptr, Object>>)
    requires Running(heap, vars, made) && |heap.m.target| + Demand(command) <= INT_MAX
    modifies heap, heap.m.layout.Keys`refCount, heap.m.target.Keys`referencedObject
    ensures heap.Ready() && Moves(TakeFirst, command, old(Here(heap, vars, made)), Here(heap, vars', made'))
    ensures Continues(heap) && |heap.m.target| <= old(|heap.m.target|) + Demand(command)
  {
    hide Legal, Valid, Consistent, Heap.Coherent, Declared, Built, Made, Assigned, Gone;
    vars', made' := vars, made;
    ghost var w := Here(heap, vars, made);
    match command
    case Declare =>
      var p := DeclareVar(null, heap, w);
      vars' := vars + [p];
    case Copy(source) =>
      var s := Find(source, vars, heap, made);
      if s != null {
        heap.MirrorsPtr(s);
        var p := DeclareVar(s.referencedObject, heap, w);
        vars' := vars + [p];
      }
    case New(size) =>
      ghost var birth;
      var p;
      p, birth := BuildVar(size, heap, w);
      vars', made' := vars + [p], made + [birth];
    case Make(dest, size) =>
      var d := Find(dest, vars, heap, made);
      if d != null {
        ghost var birth := MakeInto(d, size, heap, w);
        made' := made + [birth];
      }
    case Assign(dest, source) =>
      var d := Find(dest, vars, heap, made);
      var s := Find(source, vars, heap, made);
      if d != null && s != null {
        AssignFrom(d, s, heap, w);
      }
    case Clear(dest) =>
      var d := Find(dest, vars, heap, made);
      if d != null {
        ClearPtr(d, heap, w);
      }
    case Leave =>
      if vars != [] {
        LeaveVar(vars, heap, w);
        vars' := vars[..|vars| - 1];
      }
  }

  /** Runs a script from an empty memory, through a trace of its own, to what it means. */
  method Run(script: seq<Command>)
    returns (vars: seq<Ptr>, ghost heap: Heap,
             ghost made: seq<Birth<Ptr, Object>>, ghost trace: seq<World<Ptr, Object>>)
    requires TotalDemand(script) <= INT_MAX
    ensures fresh(heap) && Running(heap, vars, made)
    ensures IsTrace(TakeFirst, script, trace) && trace[|script|] == Here(heap, vars, made)
    ensures Faithful(Here(heap, vars, made), Meaning(script))
  {
    hide Legal, Valid, Heap.Coherent, Moves, Mirrors;
    heap := new Heap();
    vars, made, trace := [], [], [EmptyWorld()];
    EmptyIsLegal<Ptr, Object>();
    var i := 0;
    while i < |script|
      invariant 0 <= i <= |script|
      invariant fresh(heap) && fresh(heap.m.layout.Keys) && fresh(heap.m.target.Keys)
      invariant Running(heap, vars, made) && |heap.m.target| <= TotalDemand(script[..i])
      invariant IsTrace(TakeFirst, script[..i], trace) && trace[i] == Here(heap, vars, made)
    {
      assert script[..i + 1][..i] == script[..i];
      DemandGrows(script, i);
      vars, made := Step(script[i], vars, heap, made);
      MovesLegal(TakeFirst, script[i], trace[i], Here(heap, vars, made));
      OneStepMore(TakeFirst, script, trace, i, Here(heap, vars, made));
      trace := trace + [Here(heap, vars, made)];
      i := i + 1;
    }
    assert script[..|script|] == script;
    TraceIsFaithful(TakeFirst, script, trace, |script|);
  }
}
