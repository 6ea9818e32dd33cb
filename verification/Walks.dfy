/** Walking a structure with p = p->f under a scheme that lets go first.  It is safe as long as
    another pointer is on the object of p; here is when a script can count on that. */
module Walks {
  import opened Options
  import opened Ownership
  import opened Scripts
  import opened Graphs
  import opened Leaks

  ghost predicate HoldsAny(g: Graph, l: nat, k: nat) {
    exists j: nat :: Holds(g, l, j, k)
  }

  /** A way from variable h through fields. */
  ghost predicate IsPath(g: Graph, h: nat, path: seq<nat>) {
    && path != [] && h < |g.vars| && g.vars[h] == Some(path[0])
    && forall n: nat :: n + 1 < |path| ==> Follow(g, path, n)
  }

  ghost predicate Follow(g: Graph, path: seq<nat>, n: nat)
    requires n + 1 < |path|
  {
    HoldsAny(g, path[n], path[n + 1])
  }

  /** Another variable leads to what variable c holds. */
  ghost predicate Reachable(g: Graph, c: nat) {
    c < |g.vars| && g.vars[c].Some? && exists h: nat, path :: h != c && LeadsTo(g, h, path, g.vars[c].value)
  }

  ghost predicate LeadsTo(g: Graph, h: nat, path: seq<nat>, k: nat) {
    IsPath(g, h, path) && path[|path| - 1] == k
  }

  /** Objects that a variable leads to are live. */
  lemma {:induction false} PathIsLive<P, O>(w: World<P, O>, g: Graph, h: nat, path: seq<nat>, n: nat)
    requires Faithful(w, g) && IsPath(g, h, path) && n < |path|
    ensures path[n] in Live(w)
  {
    hide Valid, Recorded, HoldsAny, Mirrors;
    if n == 0 {
      HeldIsLive(w, g, path[0]);
    } else {
      PathIsLive(w, g, h, path, n - 1);
      assert Follow(g, path, n - 1);
      FieldIsLive(w, g, path[n - 1], path[n]);
    }
  }

  lemma FieldIsLive<P, O>(w: World<P, O>, g: Graph, l: nat, k: nat)
    requires Faithful(w, g) && l in Live(w) && HoldsAny(g, l, k)
    ensures k in Live(w)
    ensures exists j: nat :: j < |w.made[l].members| && OnObject(w, w.made[l].members[j], k)
  {
    hide Valid, Recorded;
    InPlace(w.m);
    MirrorsSizes(w, g);
    var j: nat :| Holds(g, l, j, k);
    assert Shows(w.made, w.m.target[w.made[l].members[j]], g.objects[l][j]);
    assert OnObject(w, w.made[l].members[j], k);
  }

  predicate OnObject<P, O(==)>(w: World<P, O>, h: P, k: nat) {
    k < |w.made| && h in w.m.target && w.m.target[h] == Some(w.made[k].obj)
  }

  /** So the object has a second pointer on it: the last one of the way. */
  lemma ReachableIsShared<P, O>(w: World<P, O>, g: Graph, c: nat)
    requires Faithful(w, g) && Reachable(g, c)
    ensures c < |w.vars| && w.vars[c] in w.m.target && w.m.target[w.vars[c]].Some?
    ensures var o := w.m.target[w.vars[c]].value; o in w.m.count && w.m.count[o] > 1
  {
    hide Valid, Recorded, Mirrors, IsPath;
    var k := g.vars[c].value;
    var h: nat, path :| h != c && LeadsTo(g, h, path, k);
    VariableShows(w, g, c);
    var p := LastPointer(w, g, h, path, c);
    SecondPointer(w.m, w.vars[c], p, w.made[k].obj);
  }

  lemma VariableShows<P, O>(w: World<P, O>, g: Graph, i: nat)
    requires Faithful(w, g) && i < |g.vars| && g.vars[i].Some?
    ensures i < |w.vars| && OnObject(w, w.vars[i], g.vars[i].value)
  {
    hide Valid, Recorded;
    assert Shows(w.made, w.m.target[w.vars[i]], g.vars[i]);
  }

  lemma LastPointer<P, O>(w: World<P, O>, g: Graph, h: nat, path: seq<nat>, c: nat) returns (p: P)
    requires Faithful(w, g) && IsPath(g, h, path) && h != c && c < |w.vars|
    ensures OnObject(w, p, path[|path| - 1]) && p != w.vars[c]
  {
    hide Valid, Recorded, Mirrors;
    var n := |path| - 1;
    InPlace(w.m);
    if n == 0 {
      VariableShows(w, g, h);
      p := w.vars[h];
    } else {
      PathIsLive(w, g, h, path, n - 1);
      assert Follow(g, path, n - 1);
      FieldIsLive(w, g, path[n - 1], path[n]);
      var l := path[n - 1];
      var j: nat :| j < |w.made[l].members| && OnObject(w, w.made[l].members[j], path[n]);
      p := w.made[l].members[j];
    }
  }

  // ---- scripts ----

  /** What a script says of p = p->f before it comes: p is null or has no such field, or another
      variable leads to the same object. */
  ghost predicate Shared(c: Command, g: Graph) {
    c.Assign? && OwnField(c.dest, c.source) && Find(g, c.source).Some? ==> Reachable(g, c.source.index)
  }

  ghost predicate AllShared(script: seq<Command>) {
    forall i: nat :: i < |script| ==> SharedAt(script, i)
  }

  ghost predicate SharedAt(script: seq<Command>, i: nat)
    requires i < |script|
  {
    Shared(script[i], Meaning(script[..i]))
  }

  /** A condition on the script alone under which every run of it is safe. */
  lemma SharedIsSafe<P(!new), O(!new)>(order: Order, script: seq<Command>)
    requires AllShared(script)
    ensures AlwaysSafe<P, O>(order, script)
  {
    hide Follows, Safe, Faithful, Shared;
    forall trace: seq<World<P, O>>, i: nat | i < |script| && IsTrace(order, script[..i], trace)
      ensures Safe(script[i], trace[i])
    {
      assert SharedAt(script, i) && script[..i][..i] == script[..i];
      TraceIsFaithful(order, script[..i], trace, i);
      SharedIsSafeNow(script[i], trace[i], Meaning(script[..i]));
    }
  }

  lemma SharedIsSafeNow<P, O>(c: Command, w: World<P, O>, g: Graph)
    requires Faithful(w, g) && Shared(c, g)
    ensures Safe(c, w)
  {
    hide Legal, Mirrors, Reachable;
    if c.Assign? && OwnField(c.dest, c.source) {
      NamedIsFound(w, g, c.source);
      if Find(g, c.source).Some? {
        ReachableIsShared(w, g, c.source.index);
      }
    }
  }

  // ---- a cursor ----

  /** Variable c goes from field to field. */
  function Walk(c: nat, slots: seq<nat>): seq<Command> {
    seq(|slots|, n requires 0 <= n < |slots| => Assign(Var(c), Field(c, slots[n])))
  }

  /** Variable c is null, or h leads to where it is. */
  ghost predicate Trails(g: Graph, h: nat, c: nat) {
    && h != c && h < |g.vars| && c < |g.vars|
    && (g.vars[c].Some? ==> exists path :: LeadsTo(g, h, path, g.vars[c].value))
  }

  lemma OneStep(g: Graph, h: nat, c: nat, slot: nat)
    requires Trails(g, h, c)
    ensures Shared(Assign(Var(c), Field(c, slot)), g)
    ensures Trails(Apply(Assign(Var(c), Field(c, slot)), g), h, c)
  {
    var g' := Apply(Assign(Var(c), Field(c, slot)), g);
    if Find(g, Field(c, slot)).Some? {
      var k := g.vars[c].value;
      var path :| LeadsTo(g, h, path, k);
      assert Reachable(g, c);
      if g'.vars[c].Some? {
        LongerPath(g, g', h, path, slot, g'.vars[c].value);
      }
    }
  }

  lemma LongerPath(g: Graph, g': Graph, h: nat, path: seq<nat>, slot: nat, k: nat)
    requires IsPath(g, h, path) && Holds(g, path[|path| - 1], slot, k)
    requires g'.objects == g.objects && h < |g'.vars| && g'.vars[h] == g.vars[h]
    ensures LeadsTo(g', h, path + [k], k)
  {
    var longer := path + [k];
    forall n: nat | n + 1 < |longer| ensures Follow(g', longer, n) {
      if n + 1 < |path| {
        assert Follow(g, path, n);
        var j: nat :| Holds(g, path[n], j, path[n + 1]);
        assert Holds(g', longer[n], j, longer[n + 1]);
      } else {
        assert Holds(g', longer[n], slot, longer[n + 1]);
      }
    }
  }

  lemma {:induction false} WalkTrails(script: seq<Command>, h: nat, c: nat, slots: seq<nat>)
    requires AllShared(script) && Trails(Meaning(script), h, c)
    ensures AllShared(script + Walk(c, slots)) && Trails(Meaning(script + Walk(c, slots)), h, c)
  {
    hide Shared, Trails, Apply;
    if slots == [] {
      assert script + Walk(c, slots) == script;
    } else {
      var n := |slots| - 1;
      var before := script + Walk(c, slots[..n]);
      var step := Assign(Var(c), Field(c, slots[n]));
      WalkTrails(script, h, c, slots[..n]);
      assert script + Walk(c, slots) == before + [step];
      OneStep(Meaning(before), h, c, slots[n]);
      OneMoreShared(before, step);
    }
  }

  lemma OneMoreShared(script: seq<Command>, c: Command)
    requires AllShared(script) && Shared(c, Meaning(script))
    ensures AllShared(script + [c]) && Meaning(script + [c]) == Apply(c, Meaning(script))
  {
    hide Shared, Apply;
    var s := script + [c];
    assert s[..|script|] == script;
    forall i: nat | i < |s| ensures SharedAt(s, i) {
      assert s[..i] == script[..i];
      assert i < |script| ==> SharedAt(script, i);
    }
  }

  /** Where a variable stays behind, a copy of it may walk anywhere: the script with the walk is as
      safe as the script before. */
  lemma CursorIsSafe<P(!new), O(!new)>(order: Order, script: seq<Command>, h: nat, c: nat, slots: seq<nat>)
    requires AllShared(script) && h != c && h < |Meaning(script).vars| && c < |Meaning(script).vars|
    requires Meaning(script).vars[h] == Meaning(script).vars[c]
    ensures AllShared(script + Walk(c, slots)) && AlwaysSafe<P, O>(order, script + Walk(c, slots))
  {
    hide AllShared, AlwaysSafe;
    var g := Meaning(script);
    if g.vars[c].Some? {
      assert LeadsTo(g, h, [g.vars[c].value], g.vars[c].value);
    }
    WalkTrails(script, h, c, slots);
    SharedIsSafe<P, O>(order, script + Walk(c, slots));
  }

  /** A list of two nodes is walked to its end while its head is held: the walk that fails without
      the head. */
  lemma ListIsWalked<P(!new), O(!new)>(order: Order)
    ensures var script := TwoNodes() + [Copy(Var(0))] + Walk(1, [0]);
            && AlwaysSafe<P, O>(order, script)
            && Meaning(script) == Graph([Some(0), Some(1)], [[Some(1)], []])
  {
    hide AlwaysSafe, TwoNodes;
    var script := TwoNodes() + [Copy(Var(0))];
    TwoNodesMeans();
    NothingOwn();
    OneMoreShared(TwoNodes(), Copy(Var(0)));
    assert Meaning(script) == Graph([Some(0), Some(0)], [[Some(1)], []]);
    CursorIsSafe<P, O>(order, script, 0, 1, [0]);
    var step := Assign(Var(1), Field(1, 0));
    assert script + Walk(1, [0]) == script + [step];
    assert (script + [step])[..|script|] == script;
    assert Meaning(script + [step]) == Apply(step, Meaning(script));
  }

  lemma NothingOwn()
    ensures AllShared(TwoNodes())
  {
    forall i: nat | i < 4 ensures SharedAt(TwoNodes(), i) {}
  }

  // ---- scripts in full ----

  /** `dest = new Object` and `dest = 0` go through a variable of their own, as the temporary of an
      assignment does. */
  function InFull(script: seq<Command>): seq<Command> {
    if script == [] then []
    else
      var n := |script| - 1;
      InFull(script[..n]) + CommandInFull(script[n], Meaning(script[..n]))
  }

  function CommandInFull(c: Command, g: Graph): seq<Command> {
    if c.Make? then
      if Find(g, c.dest) == None then [] else [New(c.size), Assign(c.dest, Var(|g.vars|)), Leave]
    else if c.Clear? then
      if Find(g, c.dest) == None then [] else [Declare, Assign(c.dest, Var(|g.vars|)), Leave]
    else [c]
  }

  function ApplyAll(script: seq<Command>, g: Graph): Graph {
    if script == [] then g else ApplyAll(script[1..], Apply(script[0], g))
  }

  lemma {:induction false} MeaningOfTwo(s: seq<Command>, t: seq<Command>)
    ensures Meaning(s + t) == ApplyAll(t, Meaning(s))
    decreases |t|
  {
    hide Apply;
    if t == [] {
      assert s + t == s;
    } else {
      assert s + t == (s + [t[0]]) + t[1..];
      MeaningOfTwo(s + [t[0]], t[1..]);
      assert (s + [t[0]])[..|s|] == s;
    }
  }

  /** Writing a script in full does not change what it means. */
  lemma {:induction false} InFullMeans(script: seq<Command>)
    ensures Meaning(InFull(script)) == Meaning(script)
    ensures forall c :: c in InFull(script) ==> !c.Make? && !c.Clear?
  {
    hide Apply;
    if script != [] {
      var n := |script| - 1;
      InFullMeans(script[..n]);
      var g := Meaning(script[..n]);
      MeaningOfTwo(InFull(script[..n]), CommandInFull(script[n], g));
      CommandMeans(script[n], g);
    }
  }

  lemma CommandMeans(c: Command, g: Graph)
    ensures ApplyAll(CommandInFull(c, g), g) == Apply(c, g)
    ensures forall d :: d in CommandInFull(c, g) ==> !d.Make? && !d.Clear?
  {
    if (c.Make? || c.Clear?) && Find(g, c.dest).Some? {
      ThreeCommands(c, g);
    } else if !c.Make? && !c.Clear? {
      assert ApplyAll([c], g) == ApplyAll([], Apply(c, g));
    }
  }

  lemma ThreeCommands(c: Command, g: Graph)
    requires (c.Make? || c.Clear?) && Find(g, c.dest).Some?
    ensures ApplyAll(CommandInFull(c, g), g) == Apply(c, g)
  {
    var n := |g.vars|;
    var cs := CommandInFull(c, g);
    var g1 := Apply(cs[0], g);
    var g2 := Apply(cs[1], g1);
    var s := Find(g, c.dest).value;
    assert ApplyAll(cs, g) == ApplyAll(cs[1..], g1) && cs[1..][0] == cs[1];
    assert ApplyAll(cs[1..], g1) == ApplyAll(cs[1..][1..], g2) && cs[1..][1..] == [Leave];
    assert ApplyAll([Leave], g2) == ApplyAll([], Apply(Leave, g2));
    assert Find(g1, c.dest) == Some(s) && Find(g1, Var(n)) == Some(VarSpot(n));
    assert g2.vars[..n] == if s.VarSpot? then g.vars[s.i := g1.vars[n]] else g.vars;
  }

  lemma {:induction false} AppendShared(script: seq<Command>, cs: seq<Command>)
    requires AllShared(script) && forall c :: c in cs ==> !(c.Assign? && OwnField(c.dest, c.source))
    ensures AllShared(script + cs)
    decreases |cs|
  {
    hide AllShared;
    if cs == [] {
      assert script + cs == script;
    } else {
      OneMoreShared(script, cs[0]);
      AppendShared(script + [cs[0]], cs[1..]);
      assert script + cs == (script + [cs[0]]) + cs[1..];
    }
  }

  /** ... nor make it less safe. */
  lemma {:induction false} InFullShared(script: seq<Command>)
    requires AllShared(script)
    ensures AllShared(InFull(script))
  {
    hide Shared, Apply;
    if script != [] {
      var n := |script| - 1;
      forall i: nat | i < n ensures SharedAt(script[..n], i) {
        assert SharedAt(script, i) && script[..n][..i] == script[..i];
      }
      InFullShared(script[..n]);
      InFullMeans(script[..n]);
      assert SharedAt(script, n);
      if script[n].Make? || script[n].Clear? {
        AppendShared(InFull(script[..n]), CommandInFull(script[n], Meaning(script[..n])));
      } else {
        OneMoreShared(InFull(script[..n]), script[n]);
      }
    }
  }
}
