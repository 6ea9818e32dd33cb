/** The stack of the Lua C API as seen by the running C function. */
module LuaStack {
  import opened Rotation

  const MaxStack: int := 1000000
  const RegistryIndex: int := -MaxStack - 1000
  const MaxUpvalue: int := 255
  const ExtraStack: int := 5
  const ErrorStackSize: int := MaxStack + 200
  const MinStack: int := 20

  /** Values are opaque, except for nil and the two kinds of C function. */
  datatype TValue = Nil | LightFunction(fn: int) | Function(closure: CClosure) | Other(id: int)

  class CClosure {
    const fn: int
    const upvalue: array<TValue>

    constructor (fn: int, n: nat)
      ensures this.fn == fn && fresh(upvalue) && upvalue.Length == n
    {
      this.fn := fn;
      upvalue := new TValue[n](_ => Nil);
    }
  }

  class GlobalState {
    var registry: TValue

    constructor ()
      ensures registry == Nil
    {
      registry := Nil;
    }
  }

  // ---- indices ----

  /** What an index stands for: a place in the stack, the registry, an upvalue of the running
      function, or nothing. */
  datatype Address = Slot(place: int) | Registry | Upvalue(n: nat) | NonValid

  /** The part of the stack that the running function sees: its own place, the first free
      place, the end of what it may use; and how many upvalues it has. */
  datatype Frame = Frame(func: nat, top: nat, ciTop: nat, upvalues: Upvalues)

  datatype Upvalues = NotC | Count(n: nat)

  predicate InFrame(f: Frame) {
    f.func < f.top <= ErrorStackSize - ExtraStack
  }

  predicate IsPseudo(i: int) {
    i <= RegistryIndex
  }

  predicate IsUpvalue(i: int) {
    i < RegistryIndex
  }

  function UpvalueIndex(i: int): int {
    RegistryIndex - i
  }

  /** The conditions that `index2addr` checks. */
  predicate Acceptable(f: Frame, i: int) {
    if i > 0 then i <= f.ciTop - (f.func + 1)
    else if !IsPseudo(i) then i != 0 && -i <= f.top - (f.func + 1)
    else if i == RegistryIndex then true
    else f.upvalues.Count? && RegistryIndex - i <= MaxUpvalue + 1
  }

  function IndexToAddr(f: Frame, i: int): Address
    requires Acceptable(f, i)
  {
    if i > 0 then if f.func + i >= f.top then NonValid else Slot(f.func + i)
    else if !IsPseudo(i) then Slot(f.top + i)
    else if i == RegistryIndex then Registry
    else
      var n := RegistryIndex - i;
      if n <= f.upvalues.n then Upvalue(n - 1) else NonValid
  }

  function AbsIndex(f: Frame, i: int): int {
    if i > 0 || IsPseudo(i) then i else f.top - f.func + i
  }

  /** Each place in use has exactly two indices, counted from the function up and from the
      top down, and neither is taken for a pseudo-index. */
  lemma TwoIndices(f: Frame, i: int, p: int)
    requires InFrame(f) && Acceptable(f, i)
    ensures IndexToAddr(f, i) == Slot(p) <==> f.func < p < f.top && (i == p - f.func || i == p - f.top)
    ensures f.func < p < f.top ==> Acceptable(f, p - f.top) && !IsPseudo(p - f.top)
    ensures IndexToAddr(f, i) == NonValid <==>
            f.top <= f.func + i || (IsUpvalue(i) && RegistryIndex - i > f.upvalues.n)
  {}

  /** The pseudo-indices as numbers: the registry ... */
  lemma RegistryIsThere(f: Frame)
    ensures Acceptable(f, -1001000) && IndexToAddr(f, -1001000) == Registry
  {}

  /** ... and the upvalues, of which there can be 255; one more index is accepted. */
  lemma PseudoIndices(f: Frame)
    requires InFrame(f) && f.upvalues.Count?
    ensures Acceptable(f, -1001001) && UpvalueIndex(1) == -1001001
    ensures IndexToAddr(f, -1001001) == if f.upvalues.n >= 1 then Upvalue(0) else NonValid
    ensures Acceptable(f, -1001256) && !Acceptable(f, -1001257) && !Acceptable(f, -1000999) && !Acceptable(f, 0)
    ensures IndexToAddr(f, -1001255) == if f.upvalues.n >= 255 then Upvalue(254) else NonValid
  {}

  lemma SlotIsInUse(f: Frame, i: int)
    requires InFrame(f) && Acceptable(f, i) && IndexToAddr(f, i).Slot?
    ensures f.func < IndexToAddr(f, i).place < f.top
  {}

  /** Making an index absolute fixes the place it stands for: whatever is pushed or popped
      afterwards, it stands for that place if and only if the place is still in use.  It is
      accepted if and only if the place is below the limit of the function. */
  lemma AbsIndexStays(f: Frame, g: Frame, i: int)
    requires InFrame(f) && InFrame(g) && g.func == f.func
    requires Acceptable(f, i) && i < 0 && !IsPseudo(i)
    ensures var j := AbsIndex(f, i); var p := IndexToAddr(f, i).place;
            && j > 0
            && (Acceptable(g, j) <==> p < g.ciTop)
            && (Acceptable(g, j) ==> (IndexToAddr(g, j) == IndexToAddr(f, i) <==> p < g.top))
            && AbsIndex(g, j) == j
  {}

  // ---- the stack ----

  class LuaState {
    const G: GlobalState
    const stack: array<TValue>
    var func: nat
    var top: nat
    var ciTop: nat
    const stackLast: int

    /** The stack of a thread in which one function runs, with room for its first values. */
    constructor (G: GlobalState, size: nat, running: TValue)
      requires ExtraStack + 1 + MinStack <= size <= MaxStack
      ensures this.G == G && fresh(stack) && Valid()
      ensures Values() == [] && stack[func] == running
      ensures func == 0 && ciTop == 1 + MinStack && stackLast == size - ExtraStack
    {
      this.G := G;
      stack := new TValue[size](_ => Nil);
      func, top, ciTop, stackLast := 0, 1, 1 + MinStack, size - ExtraStack;
      new;
      stack[0] := running;
    }

    predicate Valid()
      reads this, stack
    {
      && func < top <= stackLast && ciTop <= stackLast
      && stackLast + ExtraStack == stack.Length <= ErrorStackSize
      && (stack[func].Function? ==> stack[func].closure.upvalue != stack)
    }

    /** What the running function has on the stack. */
    function Values(): seq<TValue>
      reads this, stack
      requires Valid()
    {
      stack[func + 1..top]
    }

    function Upvalues(): set<array<TValue>>
      reads this, stack
      requires func < stack.Length
    {
      if stack[func].Function? then {stack[func].closure.upvalue} else {}
    }

    function Current(): Frame
      reads this, stack
      requires func < stack.Length
    {
      Frame(func, top, ciTop,
            match stack[func]
            case LightFunction(_) => Count(0)
            case Function(cl) => Count(cl.upvalue.Length)
            case _ => NotC)
    }

    predicate InUse(a: Address)
      reads this, stack
      requires func < stack.Length
    {
      match a
      case Slot(p) => func < p < top <= stack.Length
      case Upvalue(n) => stack[func].Function? && n < stack[func].closure.upvalue.Length
      case _ => true
    }

    function Read(a: Address): TValue
      reads this, stack, G, if func < stack.Length then Upvalues() else {}
      requires func < stack.Length && InUse(a)
    {
      match a
      case Slot(p) => stack[p]
      case Registry => G.registry
      case Upvalue(n) => stack[func].closure.upvalue[n]
      case NonValid => Nil
    }

    /** What a function with these upvalues reads through its i-th upvalue index. */
    lemma UpvalueRead(vs: seq<TValue>, i: int)
      requires Valid() && 1 <= i <= MaxUpvalue + 1
      requires (stack[func].LightFunction? && vs == []) ||
               (stack[func].Function? && stack[func].closure.upvalue[..] == vs)
      ensures Acceptable(Current(), UpvalueIndex(i))
      ensures var a := IndexToAddr(Current(), UpvalueIndex(i));
              InUse(a) && (a == NonValid <==> i > |vs|) && Read(a) == if i <= |vs| then vs[i - 1] else Nil
    {}

    method GetTop() returns (n: int)
      requires Valid()
      ensures n == |Values()|
    {
      n := top - (func + 1);
    }

    method SetTop(i: int)
      requires Valid()
      requires if i >= 0 then i <= stackLast - (func + 1) else -(i + 1) <= top - (func + 1)
      modifies this`top, stack
      ensures Valid()
      ensures |Values()| == if i >= 0 then i else old(|Values()|) + i + 1
      ensures forall p :: 0 <= p < stack.Length ==>
                stack[p] == if old(top) <= p < top then Nil else old(stack[p])
    {
      if i >= 0 {
        while top < func + 1 + i
          invariant old(top) <= top <= stackLast && (top == old(top) || top <= func + 1 + i)
          invariant forall p :: 0 <= p < stack.Length ==>
                      stack[p] == if old(top) <= p < top then Nil else old(stack[p])
        {
          stack[top] := Nil;
          top := top + 1;
        }
        top := func + 1 + i;
      } else {
        top := top + (i + 1);
      }
    }

    method Pop(n: int)
      requires Valid() && 0 <= n <= |Values()|
      modifies this`top, stack
      ensures Valid() && stack[..] == old(stack[..])
      ensures Values() == old(Values()[..|Values()| - n])
    {
      SetTop(-n - 1);
    }

    method Reverse(from: nat, to: int)
      requires from <= to + 1 <= stack.Length
      modifies stack
      ensures stack[..] == Flipped(old(stack[..]), from, to + 1)
    {
      hide Flipped;
      var i, j := from, to;
      ghost var s := stack[..];
      while i < j
        invariant from <= i <= j + 1 && i + j == from + to
        invariant forall p :: 0 <= p < stack.Length && (p < from || i <= p <= j || to < p) ==> stack[p] == s[p]
        invariant forall p :: from <= p < i || j < p <= to ==> stack[p] == s[from + to - p]
      {
        stack[i], stack[j] := stack[j], stack[i];
        i, j := i + 1, j - 1;
      }
      IsFlipped(s, stack[..], from, to + 1);
    }

    method Rotate(i: int, n: int)
      requires Valid() && Acceptable(Current(), i)
      requires IndexToAddr(Current(), i).Slot?
      requires -n <= top - IndexToAddr(Current(), i).place && n <= top - IndexToAddr(Current(), i).place
      modifies stack
      ensures Valid()
      ensures stack[..] == Turned(old(stack[..]), IndexToAddr(old(Current()), i).place, top, n)
    {
      hide Flipped, Turned, Rotated;
      var t := top - 1;
      var p := IndexToAddr(Current(), i).place;
      var m := if n >= 0 then t - n else p - n - 1;
      ghost var s := stack[..];
      Reverse(p, m);
      Reverse(m + 1, t);
      Reverse(p, t);
      ThreeFlips(s, p, top, n, m + 1);
      TurnedKeeps(s, p, top, n);
      assert stack[func] == stack[..][..p][func] && s[func] == s[..p][func];
    }

    /** `lua_insert`: the top value goes to the given place, the others move up. */
    method Insert(i: int)
      requires Valid() && Acceptable(Current(), i) && IndexToAddr(Current(), i).Slot?
      modifies stack
      ensures Valid()
      ensures var p := IndexToAddr(old(Current()), i).place;
              stack[..top] == old(stack[..p] + [stack[top - 1]] + stack[p..top - 1])
    {
      hide Rotated, Turned, IndexToAddr;
      ghost var p, s := IndexToAddr(Current(), i).place, stack[..];
      SlotIsInUse(Current(), i);
      TurnedByOne(s, p, top);
      Rotate(i, 1);
      assert stack[..top] == Turned(s, p, top, 1)[..top];
    }

    /** `lua_remove`: the indexed value goes, the others keep their order. */
    method Remove(i: int)
      requires Valid() && Acceptable(Current(), i) && IndexToAddr(Current(), i).Slot?
      modifies this`top, stack
      ensures Valid() && top == old(top) - 1
      ensures var p := IndexToAddr(old(Current()), i).place;
              stack[..top] == old(stack[..p] + stack[p + 1..top])
    {
      hide Rotated, Turned, IndexToAddr;
      ghost var p, s := IndexToAddr(Current(), i).place, stack[..];
      SlotIsInUse(Current(), i);
      TurnedByOne(s, p, top);
      Rotate(i, -1);
      assert stack[..top] == Turned(s, p, top, -1)[..top];
      Pop(1);
      assert stack[..top] == (s[..p] + s[p + 1..top + 1] + [s[p]])[..top];
    }

    method Copy(from: int, to: int)
      requires Valid() && Acceptable(Current(), from) && Acceptable(Current(), to)
      requires IndexToAddr(Current(), to) != NonValid
      modifies G, stack, Upvalues()
      ensures Valid() && Current() == old(Current()) && stack[func] == old(stack[func])
      ensures Read(IndexToAddr(Current(), to)) == old(Read(IndexToAddr(Current(), from)))
      ensures forall a: Address :: old(InUse(a)) && a != IndexToAddr(Current(), to) ==>
                Read(a) == old(Read(a))
    {
      var v := Read(IndexToAddr(Current(), from));
      match IndexToAddr(Current(), to) {
        case Slot(p) => stack[p] := v;
        case Registry => G.registry := v;
        case Upvalue(k) => stack[func].closure.upvalue[k] := v;
      }
    }

    /** `lua_replace`: the top value moves to the given index. */
    method Replace(i: int)
      requires Valid() && Values() != [] && Acceptable(Current(), i)
      requires IndexToAddr(Current(), i) != NonValid
      modifies this`top, G, stack, Upvalues()
      ensures Valid() && |Values()| == old(|Values()|) - 1 && stack[func] == old(stack[func])
      ensures var a := IndexToAddr(old(Current()), i);
              && (InUse(a) ==> Read(a) == old(stack[top - 1]))
              && (forall b: Address :: InUse(b) && b != a ==> Read(b) == old(Read(b)))
    {
      Copy(-1, i);
      Pop(1);
    }

    method PushValue(i: int)
      requires Valid() && Acceptable(Current(), i) && top < ciTop
      modifies this`top, stack
      ensures Valid() && stack[..top] == old(stack[..top]) + [old(Read(IndexToAddr(Current(), i)))]
    {
      stack[top] := Read(IndexToAddr(Current(), i));
      top := top + 1;
    }

    /** Values move between two threads of one global state; to itself nothing does. */
    method XMove(to: LuaState, n: nat)
      requires Valid() && to.Valid()
      requires to != this ==> n < top - func && G == to.G && to.ciTop - to.top >= n
      requires to != this ==> to.stack != stack && stack !in to.Upvalues() && to.stack !in Upvalues()
      modifies this`top, to`top, to.stack
      ensures Valid() && to.Valid()
      ensures to != this ==>
                && top == old(top) - n && to.top == old(to.top) + n
                && to.stack[..to.top] == old(to.stack[..to.top]) + old(stack[top - n..top])
      ensures to == this ==> top == old(top) && stack[..] == old(stack[..])
    {
      if to == this {
        return;
      }
      top := top - n;
      ghost var s, t := stack[top..top + n], to.stack[..to.top];
      for i := 0 to n
        invariant top == old(top) - n && to.top == old(to.top) + i
        invariant to.stack[..to.top] == t + s[..i]
      {
        to.stack[to.top] := stack[top + i];
        to.top := to.top + 1;
        assert to.stack[..to.top] == to.stack[..to.top - 1] + [s[i]];
      }
      assert s[..n] == s;
      assert to.stack[to.func] == to.stack[..to.top][to.func] == t[to.func];
    }

    /** The top n values become the upvalues of a new function, first pushed first. */
    method PushCClosure(fn: int, n: nat)
      requires Valid() && n < top - func && n <= MaxUpvalue && top - n < ciTop
      modifies this`top, stack
      ensures Valid() && top == old(top) - n + 1
      ensures stack[..top - 1] == old(stack[..top - n])
      ensures var v := stack[top - 1];
              if n == 0 then v == LightFunction(fn)
              else
                && v.Function? && fresh(v.closure) && fresh(v.closure.upvalue) && v.closure.fn == fn
                && v.closure.upvalue[..] == old(stack[top - n..top])
    {
      ghost var s := stack[..top];
      var v := LightFunction(fn);
      if n > 0 {
        var cl := Capture(fn, n);
        top := top - n;
        v := Function(cl);
      }
      stack[top] := v;
      top := top + 1;
      assert stack[..top - 1] == s[..top - 1];
      assert stack[func] == stack[..top - 1][func];
    }

    /** A new closure with the top n values. */
    method Capture(fn: int, n: nat) returns (cl: CClosure)
      requires Valid() && n < top - func
      ensures fresh(cl) && fresh(cl.upvalue) && cl.fn == fn && cl.upvalue[..] == stack[top - n..top]
    {
      cl := new CClosure(fn, n);
      var k := n;
      while k > 0
        invariant 0 <= k <= n
        invariant cl.upvalue[k..] == stack[top - n + k..top]
      {
        k := k - 1;
        cl.upvalue[k] := stack[top - n + k];
        assert cl.upvalue[k..] == [cl.upvalue[k]] + cl.upvalue[k + 1..];
      }
    }
  }

  /** A function is made of n pushed values and called in a thread of its own: through its i-th
      upvalue index it reads the i-th of them, and nil beyond. */
  method ReadPushed(L: LuaState, fn: int, n: nat, i: int) returns (v: TValue)
    requires L.Valid() && n < L.top - L.func && n <= MaxUpvalue && L.top - n < L.ciTop
    requires 1 <= i <= MaxUpvalue + 1
    modifies L`top, L.stack
    ensures v == if i <= n then old(L.stack[L.top - n + i - 1]) else Nil
  {
    ghost var vs := L.stack[L.top - n..L.top];
    L.PushCClosure(fn, n);
    var callee := new LuaState(L.G, 2 * MinStack, L.stack[L.top - 1]);
    callee.UpvalueRead(vs, i);
    v := callee.Read(IndexToAddr(callee.Current(), UpvalueIndex(i)));
  }

  /** An absolute index stands for what the index stood for, of whatever kind; a place in use
      beyond the limit of the function is the one exception, and is refused. */
  lemma AbsIndexMeans(f: Frame, i: int)
    requires InFrame(f) && Acceptable(f, i)
    ensures IsPseudo(i) ==> AbsIndex(f, i) == i
    ensures i > 0 ==> AbsIndex(f, i) == i
    ensures Acceptable(f, AbsIndex(f, i)) <==> i > 0 || IsPseudo(i) || f.top + i < f.ciTop
    ensures Acceptable(f, AbsIndex(f, i)) ==> IndexToAddr(f, AbsIndex(f, i)) == IndexToAddr(f, i)
    ensures AbsIndex(f, i) > 0 || i <= -1001000
  {}

  /** A place in use can be refused as an absolute index although it is accepted as a negative
      one: here the top was raised to 31, ten above the limit of the function. */
  lemma AbsIndexRefused()
    ensures var f := Frame(0, 31, 21, NotC);
            InFrame(f) && Acceptable(f, -1) && IndexToAddr(f, -1) == Slot(30) && !Acceptable(f, AbsIndex(f, -1))
  {}

  /** Such a state is reached: a new thread raises its top to 30 values. */
  method ReachRefused() returns (L: LuaState)
    ensures L.Valid() && Acceptable(L.Current(), -1) && IndexToAddr(L.Current(), -1) == Slot(30)
    ensures !Acceptable(L.Current(), AbsIndex(L.Current(), -1))
  {
    var G := new GlobalState();
    L := new LuaState(G, 2 * MinStack, LightFunction(0));
    L.SetTop(30);
  }
}
