/** The intrusive reference count of LuaBridge: an object carries its own count, smart
    pointers raise and lower it, and an object that drops to zero deletes itself, which
    destroys its member pointers and so may cascade into further deletions.

    The ghost `Heap` mirrors memory.  Freeing is leaving its maps, and every method demands
    that the pointers and objects it touches are still there. */
module IntrusiveCount {
  import opened Options
  import opened Ownership
  import opened Cycles

  const INT_MAX := 0x7FFF_FFFF

  function AsOption(o: Object?): Option<Object> {
    if o == null then None else Some(o)
  }

  class Heap {
    ghost var m: Memory<Ptr, Object>

    ghost constructor ()
      ensures Ready() && m == EmptyMemory()
    {
      m := EmptyMemory();
    }

    /** Memory says of every pointer what it points to ... */
    ghost predicate Pointing()
      reads this, m.target.Keys
    {
      forall h :: h in m.target ==> m.target[h] == AsOption(h.referencedObject)
    }

    /** ... and of every object what its count and its members are. */
    ghost predicate Counting()
      reads this, m.layout.Keys
    {
      && m.count.Keys == m.layout.Keys
      && (forall o :: o in m.layout ==> o.refCount == m.count[o] && o.members == m.layout[o])
    }

    ghost predicate Coherent()
      reads this, m.target.Keys, m.layout.Keys
    {
      Pointing() && Counting()
    }

    lemma MirrorsObject(o: Object)
      requires Coherent() && o in m.layout
      ensures o in m.count && o.refCount == m.count[o] && o.members == m.layout[o]
    {}

    lemma MirrorsPtr(p: Ptr)
      requires Coherent() && p in m.target
      ensures m.target[p] == AsOption(p.referencedObject)
      ensures Valid(m) ==> p in m.place && (p.referencedObject != null ==> p.referencedObject in m.layout)
    {}

    /** What every operation finds and leaves behind.  An `int` count bounds the number of
        pointers there can be. */
    ghost predicate Ready()
      reads this, m.target.Keys, m.layout.Keys
    {
      Coherent() && Valid(m) && |m.target| <= INT_MAX
    }
  }

  /** A `RefCountedObjectPtr`. */
  class Ptr {
    var referencedObject: Object?

    /** The memory of a member pointer of a new object. */
    constructor Member()
      ensures referencedObject == null
    {
      referencedObject := null;
    }

    /** A pointer variable from a raw pointer, which may be null. */
    constructor (refCountedObject: Object?, ghost heap: Heap)
      requires heap.Ready() && |heap.m.target| < INT_MAX
      requires refCountedObject != null ==> refCountedObject in heap.m.layout
      modifies heap, heap.m.layout.Keys`refCount
      ensures heap.Ready() && referencedObject == refCountedObject
      ensures heap.m == NewHandle(old(heap.m), this, AsOption(refCountedObject))
      ensures this !in old(heap.m.place)
    {
      hide Valid, Consistent, Cascade, On, NewHandle;
      referencedObject := refCountedObject;
      new;
      Attach(heap);
    }

    /** A new pointer counts itself in. */
    method Attach(ghost heap: Heap)
      requires heap.Ready() && |heap.m.target| < INT_MAX && this !in heap.m.target
      requires referencedObject != null ==> referencedObject in heap.m.layout
      modifies heap, heap.m.layout.Keys`refCount
      ensures heap.Ready() && heap.m == NewHandle(old(heap.m), this, AsOption(referencedObject))
    {
      hide Valid, Consistent, Cascade, On;
      NewHandleKeeps(heap.m, this, AsOption(referencedObject));
      heap.m := NewHandle(heap.m, this, AsOption(referencedObject));
      if referencedObject != null {
        referencedObject.IncReferenceCount();
      }
    }

    /** The assignment from a raw pointer.  The new object is held before the old one is let
        go, so nothing the old object held on to can be lost on the way. */
    method Assign(newObject: Object?, ghost heap: Heap)
      requires heap.Ready() && this in heap.m.target
      requires newObject != null ==> newObject in heap.m.layout
      modifies heap, heap.m.layout.Keys`refCount, this`referencedObject
      ensures heap.Ready() && Pointed(old(heap.m), this, AsOption(newObject), heap.m)
      ensures TargetKept(old(heap.m), this, AsOption(newObject), heap.m)
      ensures referencedObject == newObject && Smaller(old(heap.m), heap.m)
    {
      hide Valid, Consistent, Cascade, Repoint, On, Since, Left, Smaller, TargetKept;
      ghost var m, t := heap.m, AsOption(newObject);
      if referencedObject != newObject {
        ghost var b := Repoint(m, this, t);
        RepointKeeps(m, this, t);
        RepointChanges(m, this, t);
        if newObject != null {
          newObject.IncReferenceCount();
        }
        var oldObject := referencedObject;
        referencedObject := newObject;
        heap.m := b;
        if oldObject != null {
          oldObject.DecReferenceCount(heap, b);
        }
        AssignmentEnds(m, this, t, heap.m);
      } else {
        SmallerSame(m);
        NewTargetStays(m, this, t, m);
      }
    }

    /** The assignment from another pointer.  Only the raw pointer is carried over, so the
        other pointer may itself be destroyed by the assignment. */
    method AssignFrom(other: Ptr, ghost heap: Heap)
      requires heap.Ready() && this in heap.m.target && other in heap.m.target
      modifies heap, heap.m.layout.Keys`refCount, this`referencedObject
      ensures heap.Ready() && Pointed(old(heap.m), this, old(heap.m.target[other]), heap.m)
      ensures TargetKept(old(heap.m), this, old(heap.m.target[other]), heap.m)
      ensures referencedObject == old(other.referencedObject) && Smaller(old(heap.m), heap.m)
    {
      hide Valid, Consistent, Cascade, On, Smaller, TargetKept, Pointed;
      heap.MirrorsPtr(other);
      Assign(other.referencedObject, heap);
    }

    /** The destructor `~RefCountedObjectPtr`. */
    method Destroy(ghost heap: Heap, ghost b: Memory<Ptr, Object>)
      requires heap.Coherent() && Consistent(heap.m) && heap.m.detached == None
      requires this in heap.m.target && this in heap.m.place
      requires match heap.m.place[this]
               case Variable => b == End(heap.m, this)
               case Member(o, i) =>
                 Cascade(b, heap.m) && o in Since(b, heap.m) && o in heap.m.dying && heap.m.dying[o] == i + 1
      modifies heap, heap.m.layout.Keys`refCount
      ensures heap.Coherent() && Consistent(heap.m) && Cascade(b, heap.m)
      ensures heap.m.detached == None && Smaller(old(heap.m), heap.m)
      ensures match old(heap.m.place[this])
              case Variable => heap.m.dying == old(heap.m.dying)
              case Member(o, i) => heap.m.dying == old(heap.m.dying)[o := i]
      decreases heap.m.layout.Keys - heap.m.dying.Keys, 2
    {
      hide Consistent, Cascade;
      EndKeeps(b, heap.m, this);
      heap.m := End(heap.m, this);
      if referencedObject != null {
        referencedObject.DecReferenceCount(heap, b);
      }
    }
  }

  /** A `RefCountedObjectType`, together with the smart pointers its derived class declares. */
  class Object {
    var refCount: int
    var members: seq<Ptr>

    /** `RefCountedObjectType()`: the count starts at zero. */
    constructor (ghost heap: Heap)
      requires heap.Ready()
      modifies heap
      ensures heap.Ready() && members == [] && refCount == 0
      ensures heap.m == AddObject(old(heap.m), this)
    {
      refCount, members := 0, [];
      new;
      hide Valid;
      AddObjectKeeps(heap.m, this);
      heap.m := AddObject(heap.m, this);
    }

    /** The derived class declares one more smart pointer, which starts out null. */
    method DeclareMember(ghost heap: Heap)
      requires heap.Ready() && this in heap.m.layout && |heap.m.target| < INT_MAX
      modifies heap, this`members
      ensures heap.Ready() && |members| == old(|members|) + 1 && members[..old(|members|)] == old(members)
      ensures var h := members[old(|members|)]; fresh(h) && heap.m == AddMember(old(heap.m), this, h)
      ensures |heap.m.target| == |old(heap.m.target)| + 1
    {
      hide Valid;
      var h := new Ptr.Member();
      AddMemberKeeps(heap.m, this, h);
      members := members + [h];
      heap.m := AddMember(heap.m, this, h);
    }

    method IncReferenceCount()
      requires refCount < INT_MAX
      modifies this`refCount
      ensures refCount == old(refCount) + 1
    {
      refCount := refCount + 1;
    }

    /** `b` is memory as it was when the release began, of which this is a part. */
    method DecReferenceCount(ghost heap: Heap, ghost b: Memory<Ptr, Object>)
      requires heap.Coherent() && Consistent(heap.m) && Cascade(b, heap.m)
      requires heap.m.detached == Some(this) && this !in heap.m.dying
      modifies heap, heap.m.layout.Keys`refCount
      ensures heap.Coherent() && Consistent(heap.m) && Cascade(b, heap.m)
      ensures heap.m.detached == None && Smaller(old(heap.m), heap.m)
      ensures heap.m.dying == old(heap.m.dying)
      ensures this in heap.m.layout <==> old(refCount) > 1
      decreases heap.m.layout.Keys - heap.m.dying.Keys, 1
    {
      hide Consistent, Cascade, Smaller, Since;
      LowerKeeps(b, heap.m, this);
      SmallerSteps(heap.m, heap.m, this) by { SmallerSame(heap.m); }
      assert refCount > 0;
      refCount := refCount - 1;
      heap.m := Lower(heap.m, this);
      if refCount == 0 {
        ghost var m := heap.m;
        Delete(heap, b);
        SmallerTwice(b, old(heap.m), m, heap.m);
      }
    }

    /** `delete this`: the member pointers are destroyed in reverse order of declaration,
        then the base destructor insists that the count is zero, then memory is freed. */
    method Delete(ghost heap: Heap, ghost b: Memory<Ptr, Object>)
      requires heap.Coherent() && Consistent(heap.m) && Cascade(b, heap.m)
      requires heap.m.detached == None && this in Since(b, heap.m)
      requires this in heap.m.dying && heap.m.dying[this] == |members|
      modifies heap, heap.m.layout.Keys`refCount
      ensures heap.Coherent() && Consistent(heap.m) && Cascade(b, heap.m)
      ensures heap.m.detached == None && this !in heap.m.layout && Smaller(old(heap.m), heap.m)
      ensures heap.m.dying == old(heap.m.dying) - {this}
      decreases heap.m.layout.Keys - heap.m.dying.Keys, 4
    {
      hide Consistent, Cascade, Smaller, Since;
      DestroyMembers(heap, b);
      DyingHasNoCount(heap.m, this);
      assert refCount == 0;
      FreeKeeps(b, heap.m, this);
      SmallerSteps(old(heap.m), heap.m, this);
      heap.m := Free(heap.m, this);
    }

    method DestroyMembers(ghost heap: Heap, ghost b: Memory<Ptr, Object>)
      requires heap.Coherent() && Consistent(heap.m) && Cascade(b, heap.m)
      requires heap.m.detached == None && this in Since(b, heap.m)
      requires this in heap.m.dying && heap.m.dying[this] == |members|
      modifies heap, heap.m.layout.Keys`refCount
      ensures heap.Coherent() && Consistent(heap.m) && Cascade(b, heap.m)
      ensures heap.m.detached == None && this in Since(b, heap.m) && Smaller(old(heap.m), heap.m)
      ensures heap.m.dying == old(heap.m.dying)[this := 0]
      decreases heap.m.layout.Keys - heap.m.dying.Keys, 3
    {
      hide Heap.Coherent, Consistent, Cascade, Smaller, Since;
      SmallerSame(heap.m);
      var i := |members|;
      while i > 0
        invariant 0 <= i <= |members|
        invariant heap.Coherent() && Consistent(heap.m) && Cascade(b, heap.m)
        invariant heap.m.detached == None && this in Since(b, heap.m) && Smaller(old(heap.m), heap.m)
        invariant heap.m.dying == old(heap.m.dying)[this := i]
      {
        ghost var m := heap.m;
        NextMember(m, this);
        SmallerSteps(old(heap.m), m, this);
        heap.MirrorsObject(this);
        i := i - 1;
        members[i].Destroy(heap, b);
        SmallerTwice(b, old(heap.m), m, heap.m);
      }
    }
  }
}
