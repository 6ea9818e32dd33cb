/** Scripts that end badly: objects left behind, and a pointer that is gone before it is read. */
module Leaks {
  import opened Options
  import opened Ownership
  import opened Cycles
  import opened Scripts
  import opened Graphs

  /** Numbered objects of which each is held by a field of one of them. */
  ghost predicate GraphRing(g: Graph, s: set<nat>) {
    s != {} && forall k :: k in s ==> HeldIn(g, s, k)
  }

  ghost predicate HeldIn(g: Graph, s: set<nat>, k: nat) {
    exists l: nat, j: nat :: l in s && Holds(g, l, j, k)
  }

  predicate Holds(g: Graph, l: nat, j: nat, k: nat) {
    l < |g.objects| && j < |g.objects[l]| && g.objects[l][j] == Some(k)
  }

  /** The numbers of the objects still there. */
  ghost function Live<P, O>(w: World<P, O>): set<nat> {
    set k: nat | k < |w.made| && w.made[k].obj in w.m.layout
  }

  ghost function Objects<P, O>(w: World<P, O>, s: set<nat>): set<O> {
    set k | k in s && k < |w.made| :: w.made[k].obj
  }

  lemma RingIsShown<P, O>(w: World<P, O>, g: Graph)
    requires Faithful(w, g) && Ring(w.m, w.m.layout.Keys)
    ensures GraphRing(g, Live(w))
  {
    hide Valid, Mirrors, HeldWithin, HeldIn, Scoped, IsMade;
    forall k | k in Live(w) ensures HeldIn(g, Live(w), k) {
      var h := HolderWithin(w.m, w.m.layout.Keys, w.made[k].obj);
      HolderIsShown(w, g, k, h);
    }
    var p :| p in w.m.layout;
    var l := Number(w, p);
    assert l in Live(w);
  }

  /** The number of a live object. */
  lemma Number<P, O>(w: World<P, O>, o: O) returns (k: nat)
    requires Legal(w) && o in w.m.layout
    ensures k < |w.made| && w.made[k].obj == o && k in Live(w)
  {
    hide Valid, Scoped;
    assert IsMade(w.made, o);
    k :| 0 <= k < |w.made| && w.made[k].obj == o;
  }

  lemma HolderIsShown<P, O>(w: World<P, O>, g: Graph, k: nat, h: P)
    requires Faithful(w, g) && k < |w.made|
    requires h in w.m.target && w.m.target[h] == Some(w.made[k].obj) && MemberOf(w.m, h, w.m.layout.Keys)
    ensures HeldIn(g, Live(w), k)
  {
    hide Valid, Mirrors, Recorded;
    MembersAreListed(w.m);
    var l := Number(w, w.m.place[h].of);
    ShownAt(w, g, l, w.m.place[h].slot, k);
    assert l in Live(w) && Holds(g, l, w.m.place[h].slot, k);
  }

  lemma MembersAreListed<P, O>(m: Memory<P, O>)
    requires Valid(m)
    ensures forall h :: h in m.target && h in m.place && m.place[h].Member? ==>
              && m.place[h].of in m.layout && m.place[h].slot < |m.layout[m.place[h].of]|
              && m.layout[m.place[h].of][m.place[h].slot] == h
  {}

  /** What a member of a live object holds is what the graph says. */
  lemma ShownAt<P, O>(w: World<P, O>, g: Graph, l: nat, j: nat, k: nat)
    requires Faithful(w, g) && l < |w.made| && k < |w.made| && w.made[l].obj in w.m.layout
    requires j < |w.made[l].members|
    ensures w.made[l].members[j] in w.m.target
    ensures w.m.target[w.made[l].members[j]] == Some(w.made[k].obj) <==> Holds(g, l, j, k)
  {
    hide Valid, Recorded;
    assert Shows(w.made, w.m.target[w.made[l].members[j]], g.objects[l][j]);
  }

  /** When a script has left all its variables and the objects it made do not refer to each
      other in a ring, every one of them has been deleted, once. */
  lemma ScriptRunsDry<P, O>(order: Order, script: seq<Command>, trace: seq<World<P, O>>)
    requires IsTrace(order, script, trace) && Meaning(script).vars == []
    requires forall s :: !GraphRing(Meaning(script), s)
    ensures var w := trace[|script|];
            && w.m.layout == map[] && |w.m.freed| == |w.made| == |Meaning(script).objects|
            && forall k :: 0 <= k < |w.made| ==> w.made[k].obj in w.m.freed
  {
    hide Valid, Moves, Apply, Ring, Follows, GraphRing;
    var w := trace[|script|];
    TraceIsFaithful(order, script, trace, |script|);
    assert script[..|script|] == script;
    NoVariables(w, Meaning(script));
    LostIsRing(w.m, {});
    if w.m.layout.Keys != {} {
      assert w.m.layout.Keys - {} == w.m.layout.Keys;
      RingIsShown(w, Meaning(script));
    }
    EachOnce(w, Meaning(script));
  }

  lemma NoVariables<P, O>(w: World<P, O>, g: Graph)
    requires Faithful(w, g) && g.vars == []
    ensures Reaches(w.m, {})
  {
    hide Recorded;
  }

  lemma EachOnce<P, O>(w: World<P, O>, g: Graph)
    requires Faithful(w, g) && w.m.layout == map[]
    ensures |w.m.freed| == |w.made| == |g.objects|
    ensures forall k :: 0 <= k < |w.made| ==> w.made[k].obj in w.m.freed
  {
    var objs := seq(|w.made|, k requires 0 <= k < |w.made| => w.made[k].obj);
    DistinctSize(w.m.freed);
    DistinctSize(objs);
    forall o | o in w.m.freed ensures o in objs {
      assert IsMade(w.made, o);
      var k :| 0 <= k < |w.made| && w.made[k].obj == o;
      assert objs[k] == o;
    }
    assert Elements(w.m.freed) == Elements(objs);
  }

  lemma {:induction false} DistinctSize<T>(s: seq<T>)
    requires Distinct(s)
    ensures |Elements(s)| == |s|
  {
    if s != [] {
      var last := |s| - 1;
      DistinctSize(s[..last]);
      assert Elements(s) == Elements(s[..last]) + {s[last]};
    }
  }

  /** Whether anything is left is a matter of rings, for any script without variables. */
  lemma ScriptLeaksExactly<P, O>(order: Order, script: seq<Command>, trace: seq<World<P, O>>)
    requires IsTrace(order, script, trace) && Meaning(script).vars == []
    ensures trace[|script|].m.layout == map[] <==> Acyclic(trace[|script|].m)
  {
    hide Valid, Moves, Apply, Ring, Follows;
    var w := trace[|script|];
    TraceIsFaithful(order, script, trace, |script|);
    assert script[..|script|] == script;
    NoVariables(w, Meaning(script));
    LeaksExactly(w.m, {});
  }

  /** A variable that leaves makes no ring ... */
  lemma LeaveKeepsAcyclic<P, O>(w: World<P, O>, w': World<P, O>)
    requires Acyclic(w.m) && Gone(w, w')
    ensures Acyclic(w'.m)
  {
    hide Cascade, Ring;
    var p := w.vars[|w.vars| - 1];
    forall s | s <= End(w.m, p).layout.Keys - {} ensures !Ring(End(w.m, p), s) {
      if Ring(End(w.m, p), s) {
        RingWithVariable(w.m, p, s);
      }
    }
    AcyclicShrinks(End(w.m, p), w'.m);
  }

  lemma RingWithVariable<P, O>(m: Memory<P, O>, p: P, s: set<O>)
    requires p in m.target && p in m.place && Ring(End(m, p), s)
    ensures Ring(m, s)
  {
    hide HeldWithin;
    forall o | o in s ensures HeldWithin(m, s, o) {
      var h := HolderWithin(End(m, p), s, o);
      IsHeldWithin(m, s, o, h);
    }
  }

  /** ... so if there was none before the last one left, every object has been deleted, once. */
  lemma LastVariableLeaves<P, O>(w: World<P, O>, g: Graph, w': World<P, O>)
    requires Faithful(w, g) && |w.vars| == 1 && Acyclic(w.m) && Gone(w, w') && Valid(w'.m)
    ensures w'.m.layout == map[] && |w'.m.freed| == |w'.made|
    ensures forall k :: 0 <= k < |w'.made| ==> w'.made[k].obj in w'.m.freed
  {
    hide Valid, AcyclicBeyond, Gone, Mirrors, Legal;
    VariablesLeft(w, g, w');
    MovesMirror(TakeFirst, Leave, w, g, w');
    LeaveKeepsAcyclic(w, w');
    NoVariables(w', Apply(Leave, g));
    LeaksExactly(w'.m, {});
    assert w'.m.layout.Keys <= {} ==> w'.m.layout == map[];
    EachOnce(w', Apply(Leave, g));
  }

  lemma VariablesLeft<P, O>(w: World<P, O>, g: Graph, w': World<P, O>)
    requires Faithful(w, g) && Gone(w, w')
    ensures |g.vars| == |w.vars| && Moves(TakeFirst, Leave, w, w')
  {
    hide Legal;
  }

  /** A ring that the variables hold on to is still there when they are gone. */
  lemma {:induction false} HeldRingLeaks<P, O>(order: Order, script: seq<Command>, trace: seq<World<P, O>>,
                                                n: nat, i: nat, s: set<nat>)
    requires IsTrace(order, script, trace) && n <= i <= |script|
    requires forall k :: n <= k < |script| ==> script[k] == Leave
    requires GraphRing(Meaning(script[..n]), s)
    requires forall k :: k in s ==> Some(k) in Meaning(script[..n]).vars
    ensures trace[i].made == trace[n].made && s <= Live(trace[i])
    ensures s <= Live(trace[n]) && Ring(trace[i].m, Objects(trace[n], s))
    decreases i
  {
    hide Valid, Moves, Apply, Ring, Follows, GraphRing;
    if i == n {
      TraceIsFaithful(order, script, trace, n);
      HeldRing(trace[n], Meaning(script[..n]), s);
    } else {
      HeldRingLeaks(order, script, trace, n, i - 1, s);
      TraceIsFaithful(order, script, trace, i - 1);
      assert Follows(order, script[i - 1], trace, i - 1);
      LeaveKeepsRing(order, trace, i - 1, s);
    }
  }

  lemma HeldRing<P, O>(w: World<P, O>, g: Graph, s: set<nat>)
    requires Faithful(w, g) && GraphRing(g, s) && forall k :: k in s ==> Some(k) in g.vars
    ensures s <= Live(w) && Ring(w.m, Objects(w, s))
  {
    hide Valid, Recorded, HeldWithin, HeldIn, Mirrors, Scoped;
    forall k | k in s ensures k in Live(w) {
      HeldIsLive(w, g, k);
    }
    forall o | o in Objects(w, s) ensures HeldWithin(w.m, Objects(w, s), o) {
      var k :| k in s && k < |w.made| && w.made[k].obj == o;
      FieldIsShown(w, g, s, k);
    }
    var k :| k in s;
    assert w.made[k].obj in Objects(w, s);
  }

  lemma HeldIsLive<P, O>(w: World<P, O>, g: Graph, k: nat)
    requires Faithful(w, g) && Some(k) in g.vars
    ensures k in Live(w)
  {
    hide Valid, Recorded;
    InPlace(w.m);
    var i :| 0 <= i < |g.vars| && g.vars[i] == Some(k);
    assert Shows(w.made, w.m.target[w.vars[i]], g.vars[i]);
  }

  lemma FieldIsShown<P, O>(w: World<P, O>, g: Graph, s: set<nat>, k: nat)
    requires Faithful(w, g) && s <= Live(w) && k in s && HeldIn(g, s, k)
    ensures HeldWithin(w.m, Objects(w, s), w.made[k].obj)
  {
    hide Valid, Recorded;
    var l: nat, j: nat :| l in s && Holds(g, l, j, k);
    ShownAt(w, g, l, j, k);
    InPlace(w.m);
    assert w.made[l].obj in Objects(w, s);
    IsHeldWithin(w.m, Objects(w, s), w.made[k].obj, w.made[l].members[j]);
  }

  lemma LeaveKeepsRing<P, O>(order: Order, trace: seq<World<P, O>>, i: nat, s: set<nat>)
    requires i + 1 < |trace| && Follows(order, Leave, trace, i) && Legal(trace[i])
    requires s <= Live(trace[i]) && Ring(trace[i].m, Objects(trace[i], s))
    ensures trace[i + 1].made == trace[i].made && s <= Live(trace[i + 1])
    ensures Ring(trace[i + 1].m, Objects(trace[i], s))
  {
    hide Valid, Cascade, Recorded, Ring;
    var w := trace[i];
    if w.vars != [] {
      var p := w.vars[|w.vars| - 1];
      RingWithoutVariable(w.m, p, Objects(w, s));
      RingStays(End(w.m, p), trace[i + 1].m, Objects(w, s));
    }
    forall k | k in s ensures k in Live(trace[i + 1]) {
      assert w.made[k].obj in Objects(w, s);
    }
  }

  lemma RingWithoutVariable<P, O>(m: Memory<P, O>, p: P, s: set<O>)
    requires Ring(m, s) && p in m.target && p in m.place && m.place[p] == Variable
    ensures Ring(End(m, p), s)
  {
    hide HeldWithin;
    var e := End(m, p);
    forall o | o in s ensures HeldWithin(e, s, o) {
      var h := HolderWithin(m, s, o);
      IsHeldWithin(e, s, o, h);
    }
  }

  /** Two objects that hold each other are what every run of this script ends with, although no
      variable is left. */
  lemma CyclesLeak<P, O>(order: Order, trace: seq<World<P, O>>)
    requires IsTrace(order, Circle(), trace)
    ensures |trace| == 9 && |trace[8].made| == 2 && trace[8].vars == [] && Live(trace[8]) == {0, 1}
  {
    hide Circle, Faithful, Apply, Live, Moves, Follows, Ring, GraphRing, Meaning;
    CircleMeans();
    CircleRing();
    HeldRingLeaks(order, Circle(), trace, 6, 8, {0, 1});
    TraceIsFaithful(order, Circle(), trace, 8);
    CircleEnds(trace[8]);
  }

  lemma CircleEnds<P, O>(w: World<P, O>)
    requires Faithful(w, Graph([], [[Some(1)], [Some(0)]])) && {0, 1} <= Live(w)
    ensures |w.made| == 2 && w.vars == [] && Live(w) == {0, 1}
  {
    hide Live, Legal;
    MadeIsCounted(w, Graph([], [[Some(1)], [Some(0)]]));
    forall k | k in Live(w) ensures k in {0, 1} {}
  }

  // ---- walking a list ----

  /** A list of two nodes, held by one variable. */
  function TwoNodes(): seq<Command> {
    [New(1), New(0), Assign(Field(0, 0), Var(1)), Leave]
  }

  lemma TwoNodesMeans()
    ensures |TwoNodes()| == 4 && Meaning(TwoNodes()) == Graph([Some(0)], [[Some(1)], []])
  {
    hide Meaning;
    var c := TwoNodes();
    forall i: nat | i < 4 ensures Meaning(c[..i + 1]) == Apply(c[i], Meaning(c[..i])) {
      MeaningNext(c, i);
    }
    NoScript();
    OneField(Graph([], []));
    var f: seq<Link> := [None];
    assert f[0 := Some(1)] == [Some(1)];
    NoField(Graph([Some(0)], [f]));
    assert c[..0] == [] && c[..4] == c;
    assert Meaning(c[..0 + 1]) == Graph([Some(0)], [[None]]);
    assert Meaning(c[..1 + 1]) == Graph([Some(0), Some(1)], [[None], []]);
    assert Meaning(c[..2 + 1]) == Graph([Some(0), Some(1)], [[Some(1)], []]);
    assert Meaning(c[..3 + 1]) == Graph([Some(0)], [[Some(1)], []]);
  }

  /** After every run of that script, `p = p->next` by a scheme that lets go first would read a
      destroyed pointer. */
  lemma ListCannotBeWalked<P, O>(order: Order, trace: seq<World<P, O>>)
    requires IsTrace(order, TwoNodes(), trace)
    ensures |trace| == 5 && Legal(trace[4])
    ensures var w := trace[4];
            && Named(w, Var(0)).Some? && Named(w, Field(0, 0)).Some?
            && Named(w, Var(0)).value in w.m.target && Named(w, Field(0, 0)).value in w.m.place
            && !Survives(w.m, Named(w, Var(0)).value, Named(w, Field(0, 0)).value)
  {
    hide Follows, Apply, Survives, Mirrors, Legal, TwoNodes;
    TwoNodesMeans();
    var w := trace[4];
    assert TwoNodes()[..4] == TwoNodes();
    TraceIsFaithful(order, TwoNodes(), trace, 4);
    NamedIsFound(w, Meaning(TwoNodes()), Var(0));
    NamedIsFound(w, Meaning(TwoNodes()), Field(0, 0));
    OwnFieldExactly(w, 0, 0);
    OneOnFirst(w);
  }

  lemma OneOnFirst<P, O>(w: World<P, O>)
    requires Faithful(w, Graph([Some(0)], [[Some(1)], []]))
    ensures |w.vars| == 1 && w.vars[0] in w.m.target && w.m.target[w.vars[0]].Some?
    ensures w.m.target[w.vars[0]].value in w.m.count && w.m.count[w.m.target[w.vars[0]].value] == 1
  {
    hide Valid, Recorded;
    var g := Graph([Some(0)], [[Some(1)], []]);
    MirrorsSizes(w, g);
    assert Shows(w.made, w.m.target[w.vars[0]], g.vars[0]);
    var o := w.made[0].obj;
    HeldIsCounted(w.m, w.vars[0], o);
    forall h | h in On(w.m, o) ensures h == w.vars[0] {
      OnlyVariable(w, g, h);
    }
    assert On(w.m, o) == {w.vars[0]};
  }

  lemma OnlyVariable<P, O>(w: World<P, O>, g: Graph, h: P)
    requires Faithful(w, g) && g == Graph([Some(0)], [[Some(1)], []])
    requires |w.made| > 0 && h in On(w.m, w.made[0].obj)
    ensures |w.vars| == 1 && h == w.vars[0]
  {
    hide Valid, Recorded;
    InPlace(w.m);
    MirrorsSizes(w, g);
    MembersAreListed(w.m);
    if w.m.place[h].Member? {
      var l := Number(w, w.m.place[h].of);
      ShownAt(w, g, l, w.m.place[h].slot, 0);
    }
  }

  lemma MadeIsCounted<P, O>(w: World<P, O>, g: Graph)
    requires Faithful(w, g)
    ensures |w.made| == |g.objects| && |w.vars| == |g.vars|
    ensures forall k :: k in Live(w) ==> k < |g.objects|
  {}

  function Circle(): seq<Command> {
    [Declare, Make(Var(0), 1), Declare, Make(Var(1), 1), Assign(Field(0, 0), Var(1)), Assign(Field(1, 0), Var(0)),
     Leave, Leave]
  }

  lemma CircleRing()
    ensures var g := Graph([Some(0), Some(1)], [[Some(1)], [Some(0)]]);
            GraphRing(g, {0, 1}) && forall k :: k in {0, 1} ==> Some(k) in g.vars
  {
    var g := Graph([Some(0), Some(1)], [[Some(1)], [Some(0)]]);
    assert Holds(g, 0, 0, 1) && Holds(g, 1, 0, 0);
    assert g.vars[0] == Some(0) && g.vars[1] == Some(1);
  }

  lemma MeaningNext(script: seq<Command>, i: nat)
    requires i < |script|
    ensures Meaning(script[..i + 1]) == Apply(script[i], Meaning(script[..i]))
  {
    assert script[..i + 1][..i] == script[..i];
  }

  lemma CircleBegins()
    ensures Meaning(Circle()[..4]) == Graph([Some(0), Some(1)], [[None], [None]])
  {
    hide Meaning;
    var c := Circle();
    forall i: nat | i < 4 ensures Meaning(c[..i + 1]) == Apply(c[i], Meaning(c[..i])) {
      MeaningNext(c, i);
    }
    NoScript();
    OneField(Graph([None], []));
    OneField(Graph([Some(0), None], [[None]]));
    assert c[..0] == [];
    assert Meaning(c[..0 + 1]) == Graph([None], []);
    assert Meaning(c[..1 + 1]) == Graph([Some(0)], [[None]]);
    assert Meaning(c[..2 + 1]) == Graph([Some(0), None], [[None]]);
    assert Meaning(c[..3 + 1]) == Graph([Some(0), Some(1)], [[None], [None]]);
  }

  lemma CircleMeans()
    ensures |Circle()| == 8 && Circle()[6] == Circle()[7] == Leave && Circle()[..8] == Circle()
    ensures Meaning(Circle()[..6]) == Graph([Some(0), Some(1)], [[Some(1)], [Some(0)]])
    ensures Meaning(Circle()) == Graph([], [[Some(1)], [Some(0)]])
  {
    hide Meaning;
    var c := Circle();
    CircleBegins();
    forall i: nat | 4 <= i < 8 ensures Meaning(c[..i + 1]) == Apply(c[i], Meaning(c[..i])) {
      MeaningNext(c, i);
    }
    var f: seq<Link> := [None];
    assert f[0 := Some(0)] == [Some(0)] && f[0 := Some(1)] == [Some(1)];
    assert c[..8] == c;
    assert Meaning(c[..4 + 1]) == Graph([Some(0), Some(1)], [[Some(1)], [None]]);
    assert Meaning(c[..5 + 1]) == Graph([Some(0), Some(1)], [[Some(1)], [Some(0)]]);
    assert Meaning(c[..6 + 1]) == Graph([Some(0)], [[Some(1)], [Some(0)]]);
    assert Meaning(c[..7 + 1]) == Graph([], [[Some(1)], [Some(0)]]);
  }

  lemma OneField(g: Graph)
    ensures WithObject(g, 1).objects == g.objects + [[None]]
  {
    var f := WithObject(g, 1).objects[|g.objects|];
    assert f == [None];
  }

  lemma NoField(g: Graph)
    ensures WithObject(g, 0).objects == g.objects + [[]]
  {
    var f := WithObject(g, 0).objects[|g.objects|];
    assert f == [];
  }

  lemma NoScript()
    ensures Meaning([]) == Graph([], [])
  {}
}
