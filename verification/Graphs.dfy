/** What scripts mean, told without counts and deletions: objects are numbered as they are made
    and never go away.  A program over counted pointers shows the same, as far as its objects
    are still there. */
module Graphs {
  import opened Options
  import opened Ownership
  import opened Cycles
  import opened Scripts

  type Link = Option<nat>

  datatype Graph = Graph(vars: seq<Link>, objects: seq<seq<Link>>)

  datatype Spot = VarSpot(i: nat) | FieldSpot(k: nat, slot: nat)

  predicate IsSpot(g: Graph, s: Spot) {
    match s
    case VarSpot(i) => i < |g.vars|
    case FieldSpot(k, j) => k < |g.objects| && j < |g.objects[k]|
  }

  function Find(g: Graph, name: Name): Option<Spot> {
    if name.index >= |g.vars| then None
    else if name.Var? then Some(VarSpot(name.index))
    else
      match g.vars[name.index]
      case None => None
      case Some(k) => if k < |g.objects| && name.slot < |g.objects[k]| then Some(FieldSpot(k, name.slot)) else None
  }

  function Get(g: Graph, s: Spot): Link
    requires IsSpot(g, s)
  {
    match s
    case VarSpot(i) => g.vars[i]
    case FieldSpot(k, j) => g.objects[k][j]
  }

  function Put(g: Graph, s: Spot, v: Link): Graph
    requires IsSpot(g, s)
  {
    match s
    case VarSpot(i) => g.(vars := g.vars[i := v])
    case FieldSpot(k, j) => g.(objects := g.objects[k := g.objects[k][j := v]])
  }

  function WithObject(g: Graph, size: nat): Graph {
    g.(objects := g.objects + [seq(size, _ => None)])
  }

  function Apply(c: Command, g: Graph): Graph {
    match c
    case Declare => g.(vars := g.vars + [None])
    case Copy(source) =>
      var s := Find(g, source);
      if s == None then g else g.(vars := g.vars + [Get(g, s.value)])
    case New(size) => WithObject(g, size).(vars := g.vars + [Some(|g.objects|)])
    case Make(dest, size) =>
      var d := Find(g, dest);
      if d == None then g else Put(WithObject(g, size), d.value, Some(|g.objects|))
    case Assign(dest, source) =>
      var d, s := Find(g, dest), Find(g, source);
      if d == None || s == None then g else Put(g, d.value, Get(g, s.value))
    case Clear(dest) =>
      var d := Find(g, dest);
      if d == None then g else Put(g, d.value, None)
    case Leave => if g.vars == [] then g else g.(vars := g.vars[..|g.vars| - 1])
  }

  function Meaning(script: seq<Command>): Graph {
    if script == [] then Graph([], [])
    else Apply(script[|script| - 1], Meaning(script[..|script| - 1]))
  }

  // ---- a world that shows a graph ----

  predicate Shows<P, O(==)>(made: seq<Birth<P, O>>, t: Option<O>, v: Link) {
    match v
    case None => t == None
    case Some(k) => k < |made| && t == Some(made[k].obj)
  }

  /** Every variable, and every member of a live object, points to what the graph says. */
  ghost predicate Mirrors<P, O>(m: Memory<P, O>, vars: seq<P>, made: seq<Birth<P, O>>, g: Graph) {
    && |vars| == |g.vars| && |made| == |g.objects|
    && (forall i :: 0 <= i < |vars| ==> vars[i] in m.target && Shows(made, m.target[vars[i]], g.vars[i]))
    && (forall k :: 0 <= k < |made| ==> |made[k].members| == |g.objects[k]|)
    && (forall k, j :: 0 <= k < |made| && made[k].obj in m.layout && 0 <= j < |made[k].members| ==>
          made[k].members[j] in m.target && Shows(made, m.target[made[k].members[j]], g.objects[k][j]))
  }

  ghost predicate Faithful<P, O>(w: World<P, O>, g: Graph) {
    Legal(w) && Mirrors(w.m, w.vars, w.made, g)
  }

  /** The pointer at a spot. */
  function PointerAt<P, O>(w: World<P, O>, s: Spot): P
    requires match s case VarSpot(i) => i < |w.vars| case FieldSpot(k, j) => k < |w.made| && j < |w.made[k].members|
  {
    match s
    case VarSpot(i) => w.vars[i]
    case FieldSpot(k, j) => w.made[k].members[j]
  }

  /** A spot whose pointer is there. */
  ghost predicate Open<P, O>(w: World<P, O>, g: Graph, s: Spot) {
    && IsSpot(g, s)
    && match s
       case VarSpot(i) => i < |w.vars|
       case FieldSpot(k, j) =>
         k < |w.made| && j < |w.made[k].members| && exists i: nat :: Holding(w, i, w.made[k].obj)
  }

  predicate Holding<P, O(==)>(w: World<P, O>, i: nat, o: O) {
    i < |w.vars| && w.vars[i] in w.m.target && w.m.target[w.vars[i]] == Some(o)
  }

  lemma NamedIsFound<P, O>(w: World<P, O>, g: Graph, name: Name)
    requires Faithful(w, g)
    ensures Named(w, name).Some? <==> Find(g, name).Some?
    ensures Find(g, name).Some? ==>
              var s := Find(g, name).value;
              && Open(w, g, s) && Named(w, name) == Some(PointerAt(w, s))
              && PointerAt(w, s) in w.m.target && PointerAt(w, s) in w.m.place
              && Shows(w.made, w.m.target[PointerAt(w, s)], Get(g, s))
  {
    hide Valid, Recorded, IsMade;
    InPlace(w.m);
    if name.Field? && name.index < |g.vars| && g.vars[name.index].Some? {
      var k := g.vars[name.index].value;
      assert Shows(w.made, w.m.target[w.vars[name.index]], g.vars[name.index]);
      assert Holding(w, name.index, w.made[k].obj);
    }
  }

  // ---- every command keeps the world in accord with the graph ----

  lemma PutMirrors<P, O>(m: Memory<P, O>, vars: seq<P>, made: seq<Birth<P, O>>, g: Graph, s: Spot,
                         h: P, t: Option<O>, v: Link, e: Memory<P, O>)
    requires Valid(m) && Scoped(m, vars, made) && Mirrors(m, vars, made, g) && IsSpot(g, s) && Shows(made, t, v)
    requires h == PointerAt(World(m, vars, made), s)
    requires s.FieldSpot? ==> made[s.k].obj in m.layout
    requires Retargeted(m, h, t, e) && Valid(e) && Scoped(e, vars, made)
    ensures Mirrors(e, vars, made, Put(g, s, v))
  {
    hide Valid, Recorded;
    InPlace(m);
    InPlace(e);
  }

  lemma HandleMirrors<P, O>(m: Memory<P, O>, vars: seq<P>, made: seq<Birth<P, O>>, g: Graph,
                            p: P, t: Option<O>, v: Link)
    requires Valid(m) && Scoped(m, vars, made) && Mirrors(m, vars, made, g) && Shows(made, t, v)
    requires p !in m.place && (t.Some? ==> t.value in m.count)
    ensures Mirrors(NewHandle(m, p, t), vars + [p], made, g.(vars := g.vars + [v]))
  {
    hide Valid;
    InPlace(m);
  }

  lemma DeclaredMirrors<P, O>(w: World<P, O>, g: Graph, t: Option<O>, v: Link, w': World<P, O>)
    requires Faithful(w, g) && Shows(w.made, t, v) && Declared(w, t, w')
    ensures Mirrors(w'.m, w'.vars, w'.made, g.(vars := g.vars + [v]))
  {
    hide Valid, Recorded, Scoped, Mirrors, NewHandle;
    var n := |w.vars|;
    assert w'.vars == w.vars + [w'.vars[n]];
    HandleMirrors(w.m, w.vars, w.made, g, w'.vars[n], t, v);
  }

  lemma BuiltMirrors<P, O>(w: World<P, O>, g: Graph, size: nat, w': World<P, O>)
    requires Faithful(w, g) && Built(w, size, w')
    ensures Mirrors(w'.m, w'.vars, w'.made, WithObject(g, size).(vars := g.vars + [Some(|g.objects|)]))
  {
    hide Valid, Recorded, Scoped, Mirrors, Grown, NewHandle;
    var n := |w.made|;
    var Birth(o, hs) := w'.made[n];
    var p := w'.vars[|w.vars|];
    GrownHas(w, o, hs);
    GrownRoom(w, o, hs, p);
    GrownScoped(w, o, hs);
    GrownMirrors(w, g, o, hs);
    MirrorsSizes(w, g);
    assert w'.made == w.made + [Birth(o, hs)] && w'.vars == w.vars + [p];
    HandleMirrors(Grown(w.m, o, hs), w.vars, w'.made, WithObject(g, size), p, Some(o), Some(n));
  }

  lemma GrownMirrors<P, O>(w: World<P, O>, g: Graph, o: O, hs: seq<P>)
    requires Faithful(w, g) && IsNew(w, o, hs)
    ensures Mirrors(Grown(w.m, o, hs), w.vars, w.made + [Birth(o, hs)], WithObject(g, |hs|))
  {
    hide Valid, Recorded, IsMade, Grown;
    GrownHas(w, o, hs);
    InPlace(w.m);
    var made := w.made + [Birth(o, hs)];
    forall t, v | Shows(w.made, t, v) ensures Shows(made, t, v) {}
  }

  lemma MadeMirrors<P, O>(w: World<P, O>, g: Graph, s: Spot, size: nat, w': World<P, O>)
    requires Faithful(w, g) && Open(w, g, s) && Made(w, PointerAt(w, s), size, w') && Legal(w')
    ensures IsSpot(WithObject(g, size), s)
    ensures Mirrors(w'.m, w'.vars, w'.made, Put(WithObject(g, size), s, Some(|g.objects|)))
  {
    hide Valid, Recorded, IsMade, Grown, Pointed, Mirrors, Scoped, Retargeted;
    var n := |w.made|;
    var Birth(o, hs) := w'.made[n];
    assert w'.made == w.made + [Birth(o, hs)];
    GrownHas(w, o, hs);
    GrownScoped(w, o, hs);
    GrownMirrors(w, g, o, hs);
    MirrorsSizes(w, g);
    OpenIsLive(w, g, s);
    PointedRetargets(Grown(w.m, o, hs), PointerAt(w, s), Some(o), w'.m);
    PutMirrors(Grown(w.m, o, hs), w.vars, w'.made, WithObject(g, size), s, PointerAt(w, s), Some(o), Some(n), w'.m);
  }

  lemma MirrorsSizes<P, O>(w: World<P, O>, g: Graph)
    requires Mirrors(w.m, w.vars, w.made, g)
    ensures |w.vars| == |g.vars| && |w.made| == |g.objects|
  {}

  lemma OpenIsLive<P, O>(w: World<P, O>, g: Graph, s: Spot)
    requires Legal(w) && Open(w, g, s)
    ensures s.FieldSpot? ==> w.made[s.k].obj in w.m.layout
  {
    hide Valid, Recorded, Scoped;
    InPlace(w.m);
  }

  lemma AssignedMirrors<P, O>(order: Order, w: World<P, O>, g: Graph, s: Spot, t: Option<O>, v: Link, w': World<P, O>)
    requires Faithful(w, g) && Open(w, g, s) && Shows(w.made, t, v)
    requires Assigned(order, w, PointerAt(w, s), t, w') && Legal(w')
    ensures Mirrors(w'.m, w'.vars, w'.made, Put(g, s, v))
  {
    hide Valid, Recorded, IsMade, Pointed, Swapped, Mirrors, Scoped, Retargeted;
    OpenIsLive(w, g, s);
    AssignedRetargets(order, w, PointerAt(w, s), t, w');
    PutMirrors(w.m, w.vars, w.made, g, s, PointerAt(w, s), t, v, w'.m);
  }

  lemma GoneMirrors<P, O>(w: World<P, O>, g: Graph, w': World<P, O>)
    requires Faithful(w, g) && Gone(w, w') && Legal(w')
    ensures Mirrors(w'.m, w'.vars, w'.made, g.(vars := g.vars[..|g.vars| - 1]))
  {
    hide Valid, Recorded, IsMade, Cascade;
    InPlace(w'.m);
    CascadeShrinks(End(w.m, w.vars[|w.vars| - 1]), w'.m);
    CascadeLayout(End(w.m, w.vars[|w.vars| - 1]), w'.m);
  }

  lemma CascadeLayout<P, O>(b: Memory<P, O>, m: Memory<P, O>)
    requires Cascade(b, m)
    ensures forall o :: o in m.layout ==> o in b.layout && m.layout[o] == b.layout[o]
  {}

  lemma MovesMirror<P, O>(order: Order, c: Command, w: World<P, O>, g: Graph, w': World<P, O>)
    requires Faithful(w, g) && Moves(order, c, w, w') && Valid(w'.m)
    ensures Faithful(w', Apply(c, g))
  {
    hide Declared, Built, Made, Assigned, Gone, Valid, Mirrors, Legal, Put;
    MovesLegal(order, c, w, w');
    MirrorsSizes(w, g);
    match c
    case Declare => DeclaredMirrors(w, g, None, None, w');
    case Copy(source) =>
      NamedIsFound(w, g, source);
      if Find(g, source).Some? {
        var s := Find(g, source).value;
        DeclaredMirrors(w, g, w.m.target[PointerAt(w, s)], Get(g, s), w');
      }
    case New(size) => BuiltMirrors(w, g, size, w');
    case Make(dest, size) =>
      NamedIsFound(w, g, dest);
      if Find(g, dest).Some? {
        MadeMirrors(w, g, Find(g, dest).value, size, w');
      }
    case Assign(dest, source) =>
      NamedIsFound(w, g, dest);
      NamedIsFound(w, g, source);
      if Find(g, dest).Some? && Find(g, source).Some? {
        var s := Find(g, source).value;
        AssignedMirrors(order, w, g, Find(g, dest).value, w.m.target[PointerAt(w, s)], Get(g, s), w');
      }
    case Clear(dest) =>
      NamedIsFound(w, g, dest);
      if Find(g, dest).Some? {
        AssignedMirrors(order, w, g, Find(g, dest).value, None, None, w');
      }
    case Leave =>
      if w.vars != [] {
        GoneMirrors(w, g, w');
      }
  }

  // ---- whole runs ----

  /** The worlds a script goes through. */
  ghost predicate IsTrace<P, O>(order: Order, script: seq<Command>, trace: seq<World<P, O>>) {
    && |trace| == |script| + 1 && trace[0] == EmptyWorld()
    && forall i :: 0 <= i < |script| ==> Follows(order, script[i], trace, i)
  }

  ghost predicate Follows<P, O>(order: Order, c: Command, trace: seq<World<P, O>>, i: nat)
    requires i + 1 < |trace|
  {
    Valid(trace[i + 1].m) && Moves(order, c, trace[i], trace[i + 1])
  }

  lemma OneStepMore<P, O>(order: Order, script: seq<Command>, trace: seq<World<P, O>>, i: nat, w: World<P, O>)
    requires i < |script| && IsTrace(order, script[..i], trace) && Valid(w.m) && Moves(order, script[i], trace[i], w)
    ensures IsTrace(order, script[..i + 1], trace + [w])
  {
    hide Valid, Moves;
    var s, t := script[..i + 1], trace + [w];
    forall k | 0 <= k < |s| ensures Follows(order, s[k], t, k) {
      assert k < i ==> Follows(order, script[..i][k], trace, k);
    }
  }

  /** A run never shows the difference: whatever was deleted, the variables and the objects that
      are still there point to what the script says. */
  lemma {:induction false} TraceIsFaithful<P, O>(order: Order, script: seq<Command>, trace: seq<World<P, O>>, i: nat)
    requires IsTrace(order, script, trace) && i <= |script|
    ensures Faithful(trace[i], Meaning(script[..i]))
  {
    hide Valid, Moves, Legal, Apply;
    if i == 0 {
      EmptyIsLegal<P, O>();
    } else {
      TraceIsFaithful(order, script, trace, i - 1);
      assert Follows(order, script[i - 1], trace, i - 1);
      assert script[..i][..i - 1] == script[..i - 1];
      MovesMirror(order, script[i - 1], trace[i - 1], Meaning(script[..i - 1]), trace[i]);
    }
  }

  /** Whatever addresses a run of the script uses, each of its commands is safe when it comes. */
  ghost predicate AlwaysSafe<P(!new), O(!new)>(order: Order, script: seq<Command>) {
    forall trace: seq<World<P, O>>, i: nat :: i < |script| && IsTrace(order, script[..i], trace) ==>
      Safe(script[i], trace[i])
  }

  lemma SafeNow<P(!new), O(!new)>(order: Order, script: seq<Command>, trace: seq<World<P, O>>, i: nat)
    requires AlwaysSafe<P, O>(order, script) && i < |script| && IsTrace(order, script[..i], trace)
    ensures Safe(script[i], trace[i])
  {}

  lemma OpenSurvives<P, O>(w: World<P, O>, g: Graph, s: Spot)
    requires Legal(w) && Open(w, g, s) && PointerAt(w, s) in w.m.target && PointerAt(w, s) in w.m.place
    ensures Survives(w.m, PointerAt(w, s), PointerAt(w, s))
  {
    hide Valid, Recorded, Stays;
    InPlace(w.m);
    OpenIsLive(w, g, s);
    var h := PointerAt(w, s);
    if s.FieldSpot? {
      var o := w.made[s.k].obj;
      var i: nat :| Holding(w, i, o);
      HeldStays(Drop(w.m, h), w.vars[i], o);
    }
  }

  /** A pointer that a program can name has an owner that a variable holds, so no assignment
      through it destroys it: afterwards it holds what it was given, and that is there. */
  lemma NamedIsKept<P, O>(w: World<P, O>, g: Graph, s: Spot, t: Option<O>, w': World<P, O>)
    requires Faithful(w, g) && Open(w, g, s) && Assigned(TakeFirst, w, PointerAt(w, s), t, w') && Valid(w'.m)
    ensures PointerAt(w, s) in w'.m.target && w'.m.target[PointerAt(w, s)] == t && (t.Some? ==> t.value in w'.m.layout)
  {
    hide Valid, Pointed, Recorded, Mirrors, Survives, Stays;
    InPlace(w.m);
    OpenSurvives(w, g, s);
    NewTargetStays(w.m, PointerAt(w, s), t, w'.m);
  }
}
