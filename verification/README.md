# Verified models of the engine's core algorithms

These Dafny modules model the parts of the game-server engine that are algorithms in their own
right, and prove what they are relied on for.

| files | what is modelled |
|---|---|
| `Options.dfy`, `Ownership.dfy`, `Cycles.dfy` | memory under reference counting: handles, objects that own handles, counts, the cascade of deletions that a release sets off, and what rings of objects do to it |
| `Scripts.dfy`, `Graphs.dfy`, `Leaks.dfy`, `Walks.dfy` | programs over smart pointers as scripts of commands, what a script means when nothing is ever deleted, which scripts leave objects behind, and which may walk with p = p->f |
| `IntrusiveCount.dfy`, `IntrusiveRuns.dfy` | LuaBridge's `RefCountedObjectPtr`, whose objects carry their own count, and any script run with it |
| `TableInvariant.dfy`, `TableCount.dfy`, `TableRuns.dfy` | LuaBridge's `RefCountedPtr`, with one table of counts by address, and scripts run with it |
| `CellInvariant.dfy`, `CellCount.dfy`, `CellRuns.dfy` | the engine's `NDRefCounted`, with a shared 32-bit counter cell per object, and scripts run with it |
| `Rotation.dfy`, `LuaStack.dfy` | the stack of the Lua C API: indices, rotation in place, and what is built on it |
| `Bits.dfy`, `Bit32.dfy` | Lua's bit32 library: 32-bit operations on 64-bit words |
| `ByteOrder.dfy`, `SkipSpace.dfy` | MySQL's load and store macros, and its word-at-a-time search for trailing spaces |
| `Crypt.dfy`, `CryptLink.dfy`, `CryptRuns.dfy` | the stream cipher `NDCrypt`, and two peers that talk through it |
| `SpinLock.dfy` | the spin lock over compare-and-set, under any number of threads |
| `SessionRegistry.dfy` | the registry of remote servers, which owns what it holds |

Code that changes things in place is modelled by classes, arrays and loops, and each method is
proved against a function whose properties are then proved as lemmas. The three
reference-counting schemes share one theory: `Ownership` says what a release comes to, and each
scheme is proved to take only steps of that theory. All three are then shown to run scripts to
what the scripts mean (`Graphs.Meaning`), where objects are numbered and never go away: counting
and deleting can never be noticed through a variable. The intrusive scheme runs any script. The
other two run any script in which another pointer is on the object of p whenever p = p->f comes,
which is exactly when their code is defined.

Some results that the code alone does not show:

- A release frees exactly the least set of objects that is closed under "held only by members of
  the set" (`Ownership.FreedIsLeast`). So whether a handle or an object survives a release can be
  told exactly (`Ownership.OutlivesExactly`, `Ownership.StaysExactly`): an object stays if and only
  if a chain of members leads to it from a variable, from an object that nothing has held yet, or
  from a ring (`Cycles.ChainStays`, `Cycles.StaysByChain`).
- The intrusive pointer raises before it lowers, so the source may be destroyed by the assignment.
  The object that was assigned stays if the pointer is a variable, if no objects keep each other
  alive in a ring, or if the pointer's owner survives the release of the old object
  (`Cycles.NewTargetStays`, with the exact condition). In general it can be lost:
  `Cycles.RingLosesTarget` shows three objects for which an assignment to a member ends with all
  three deleted. Through the names of a script this cannot happen (`Graphs.NamedIsKept`).
- The other two schemes release before they read the source. With `p = p->next` the source is
  still there if and only if another pointer is on the node, which the count tells
  (`Scripts.OwnFieldExactly`); `Leaks.ListCannotBeWalked` is a script after which it is not. Every
  other assignment a script can name is safe (`Scripts.ReleaseIsSafe`). A cursor may walk anywhere
  while a variable stays where it started (`Walks.CursorIsSafe`).
- An object leaks if and only if the objects out of reach contain a ring (`Cycles.LeaksExactly`);
  a ring that a variable still holds is no leak. `Leaks.CyclesLeak` is a script that leaks, and
  `Leaks.ScriptRunsDry` says which scripts do not.
- A C function's absolute index can be refused by the check of `index2addr` although its
  negative form is accepted, because `lua_settop` may raise the top beyond the limit of the
  function; `LuaStack.AbsIndexStays` says exactly when, `LuaStack.AbsIndexRefused`
  gives an instance.
- A thread that calls `unlock()` without holding the lock does no harm if and only if the lock is
  free (`SpinLock.StrayUnlockHarms`).
- A byte that arrives through `NDCrypt` is right if and only if it met the same key byte at both
  ends, whatever went wrong before it (`Crypt.RecoveredExactly`).

## Model

| member | source | states |
|---|---|---|
| `Ownership.LowerKeeps` | NDShareBase/common/luabridge/RefCountedObject.h:91-97 | lowering a count keeps every count equal to the handles on its object, starts a deletion exactly at zero, and makes the set of live objects not being deleted smaller, which is why the cascade ends |
| `Ownership.EndKeeps` | NDShareBase/common/luabridge/RefCountedObject.h:263-267 | the end of a handle keeps the invariant, and what it held is alive and not being deleted |
| `Ownership.FreeKeeps` | NDShareBase/common/luabridge/RefCountedObject.h:113-117 | giving back an object whose members are destroyed keeps the invariant: nothing points to it any more |
| `Ownership.TakeKeeps` | NDShareBase/common/luabridge/RefCountedObject.h:169-174 | a handle that held nothing takes hold of an object and the counts stay right |
| `Ownership.RepointKeeps` | NDShareBase/common/luabridge/RefCountedObject.h:241-256 | raising the new count before the old one is lowered keeps the invariant and never passes the number of handles |
| `Ownership.FreedIsLeast` | NDShareBase/common/luabridge/RefCountedObject.h:91-97 | a release frees the least set of objects closed under being held only by members of the set, and nothing more |
| `Ownership.FreedWithin` | NDShareBase/common/luabridge/RefCountedObject.h:91-97 | at every moment of a release, all that has been freed lies in every closed set |
| `Ownership.FreedIsClosed` | NDShareBase/common/luabridge/RefCountedObject.h:91-97 | after a release every remaining object that was ever held is held from outside of what was freed |
| `Ownership.SurvivesExactly` | NDShareBase/common/function/NDRefCounted.h:38-53 | the condition under which a handle survives the release of another is exact |
| `Ownership.SharedReleaseIsSafe` | NDShareBase/common/luabridge/RefCountedPtr.h:143-152 | if another handle is on the object, every handle survives |
| `Ownership.OnlyHandleDooms` | NDShareBase/common/function/NDRefCounted.h:42-45 | if a handle is the only one on an object, no member of that object survives its release |
| `Ownership.StaysExactly` | NDShareBase/common/luabridge/RefCountedObject.h:91-97 | the condition under which an object is still there after a release is exact |
| `Ownership.OutlivesExactly` | NDShareBase/common/luabridge/RefCountedObject.h:263-267 | so is the one for a handle, which then holds what it held |
| `Ownership.PointedExactly` | NDShareBase/common/luabridge/RefCountedObject.h:241-256 | after an assignment that takes hold first, exactly when the pointer and the new object are still there |
| `Cycles.LeaksExactly` | NDShareBase/common/luabridge/RefCountedObject.h:258-267 | every live object can be got at from the program's variables if and only if there is no ring among those that cannot |
| `Cycles.RankedIsAcyclic` | NDShareBase/common/luabridge/RefCountedObject.h:91-97 | objects that hold only objects of lower rank contain no ring |
| `Cycles.RingStays` | NDShareBase/common/luabridge/RefCountedObject.h:91-97 | a ring is still there, whole, after any release |
| `Cycles.AcyclicShrinks` | NDShareBase/common/luabridge/RefCountedObject.h:91-97 | a release makes no ring |
| `Cycles.AcyclicSurvives` | NDShareBase/common/function/NDRefCounted.h:42-43 | without rings, letting go never destroys the handle that lets go, even a member |
| `Cycles.RepointStays` | NDShareBase/common/luabridge/RefCountedObject.h:241-256 | a handle that could let go and survive also survives pointing elsewhere, and keeps the new object |
| `Cycles.NewTargetStays` | NDShareBase/common/luabridge/RefCountedObject.h:241-256 | the assigned object stays exactly if some closed set omits it; always for a variable and without rings |
| `Cycles.TargetKeptMeans` | NDShareBase/common/luabridge/RefCountedObject.h:241-256 | the same for a given object, as a caller reads it off an assignment |
| `Cycles.RingLosesTarget` | NDShareBase/common/luabridge/RefCountedObject.h:241-256 | three objects in which an assignment to a member loses the object it assigns |
| `Cycles.RingDestroysItself` | NDShareBase/common/luabridge/RefCountedPtr.h:214-223 | in the same memory a member does not survive its own release, so a reset of it would run twice |
| `Cycles.ChainStays` | NDShareBase/common/luabridge/RefCountedObject.h:91-97 | what a chain of members leads to, from a variable, a new object or a ring, stays |
| `Cycles.StaysByChain` | NDShareBase/common/luabridge/RefCountedObject.h:91-97 | and to whatever stays such a chain leads |
| `Scripts.MovesLegal` | NDShareBase/common/luabridge/RefCountedObject.h:161-267 | every command keeps the bookkeeping: the variables are the ones in scope, every object made is live or deleted |
| `Scripts.ReleaseIsSafe` | NDShareBase/common/luabridge/RefCountedPtr.h:143-152 | an assignment by names is safe for a scheme that lets go first, unless a variable is assigned a field of its own object |
| `Scripts.OwnFieldExactly` | NDShareBase/common/function/NDRefCounted.h:38-53 | in that case the source is still there if and only if the count is above one |
| `Scripts.SourceOutlives` | NDShareBase/common/function/NDRefCounted.h:38-53 | under a count above one for p = p->f, and under nothing for the rest, both pointers of an assignment outlive the release |
| `Scripts.SecondPointer` | NDShareBase/common/function/NDRefCounted.h:105-107 | a second pointer on an object means a count above one |
| `Graphs.NamedIsKept` | NDShareBase/common/luabridge/RefCountedObject.h:241-256 | an assignment by names ends with the destination holding what it was given, and that object is live |
| `Graphs.MovesMirror` | NDShareBase/common/luabridge/RefCountedObject.h:161-267 | every command does to the pointers what it does when nothing is ever deleted |
| `Graphs.TraceIsFaithful` | NDShareBase/common/luabridge/RefCountedObject.h:161-267 | over any script, every variable and every member of a live object points to what the script means |
| `Leaks.ScriptRunsDry` | NDShareBase/common/luabridge/RefCountedObject.h:258-267 | a script that has left its variables and whose objects form no ring has deleted each of them, once |
| `Leaks.ScriptLeaksExactly` | NDShareBase/common/luabridge/RefCountedObject.h:258-267 | with no variable left, memory is empty if and only if it has no ring |
| `Leaks.LastVariableLeaves` | NDShareBase/common/luabridge/RefCountedObject.h:258-267 | if there is no ring before the last variable leaves, everything is deleted, each object once |
| `Leaks.HeldRingLeaks` | NDShareBase/common/luabridge/RefCountedObject.h:258-267 | a ring that the variables hold on to is still there when they are gone |
| `Leaks.CyclesLeak` | NDShareBase/common/luabridge/RefCountedObject.h:258-267 | every run of a certain script ends with two objects alive and no variable |
| `Leaks.ListCannotBeWalked` | NDShareBase/common/function/NDRefCounted.h:38-53 | after every run of a certain script, p = p->next by a scheme that lets go first reads a destroyed handle |
| `Walks.ReachableIsShared` | NDShareBase/common/luabridge/RefCountedPtr.h:143-152 | an object that another variable leads to has a count above one |
| `Walks.SharedIsSafe` | NDShareBase/common/luabridge/RefCountedPtr.h:143-152 | a condition on the script alone, that another variable leads to the object of p at each p = p->f, makes every run of it safe |
| `Walks.CursorIsSafe` | NDShareBase/common/luabridge/RefCountedPtr.h:143-152 | a copy of a variable that stays behind may walk through any fields, any number of steps |
| `Walks.ListIsWalked` | NDShareBase/common/luabridge/RefCountedPtr.h:143-152 | the list that cannot be walked without its head is walked with it |
| `Walks.InFullMeans` | NDShareBase/common/luabridge/RefCountedPtr.h:102-105 | writing assignments of new or null objects with the temporary they use does not change what a script means |
| `IntrusiveCount.Ptr.constructor` | NDShareBase/common/luabridge/RefCountedObject.h:161-184 | a new pointer holds what it is given, whose count goes up; every count stays the number of handles |
| `IntrusiveCount.Ptr.Assign` | NDShareBase/common/luabridge/RefCountedObject.h:241-256 | assignment ends in a memory got by a release from the one where the pointer already holds the new object; exactly when that object and the pointer are still there |
| `IntrusiveCount.Ptr.AssignFrom` | NDShareBase/common/luabridge/RefCountedObject.h:211-225 | the same from any other pointer, even one that the assignment destroys |
| `IntrusiveCount.Ptr.Destroy` | NDShareBase/common/luabridge/RefCountedObject.h:263-267 | the destructor, as a variable or inside the destructor of its owner, does a whole release |
| `IntrusiveCount.Object.constructor` | NDShareBase/common/luabridge/RefCountedObject.h:108-110 | a new object starts at zero and is held by nobody |
| `IntrusiveCount.Object.IncReferenceCount` | NDShareBase/common/luabridge/RefCountedObject.h:82-85 | the count goes up by one within the range of `int` |
| `IntrusiveCount.Object.DecReferenceCount` | NDShareBase/common/luabridge/RefCountedObject.h:91-97 | the count, which is positive, goes down, and the object stays exactly if it was above one; the recursion ends |
| `IntrusiveCount.Object.Delete` | NDShareBase/common/luabridge/RefCountedObject.h:113-117 | the destructor ends with count zero and all members destroyed, and the object is gone |
| `IntrusiveCount.Object.DestroyMembers` | NDShareBase/common/luabridge/RefCountedObject.h:263-267 | the members are destroyed last to first while further deletions may run |
| `IntrusiveRuns.Step` | NDShareBase/common/luabridge/RefCountedObject.h:161-267 | each command changes memory, variables and objects as its meaning demands and keeps every count equal to the handles |
| `IntrusiveRuns.Run` | NDShareBase/common/luabridge/RefCountedObject.h:161-267 | any script, over object graphs of any shape, runs from empty memory to what it means |
| `TableSteps.EntryIsHandles` | NDShareBase/common/luabridge/RefCountedPtr.h:198-207 | the entry of a live object's address is the number of handles on it and every other non-null entry is zero |
| `TableSteps.NewObjectMatches` | NDShareBase/common/luabridge/RefCountedPtr.h:61-67 | an object at a reused address starts from a right entry, zero |
| `TableSteps.LowerMatches` | NDShareBase/common/luabridge/RefCountedPtr.h:218 | lowering the entry keeps table, handles and memory in accord |
| `TableSteps.FreeMatches` | NDShareBase/common/luabridge/RefCountedPtr.h:219 | the entry of a deleted object is zero when its address becomes free |
| `TableSteps.TakeMatches` | NDShareBase/common/luabridge/RefCountedPtr.h:148-149 | taking hold of an object raises its entry and no other |
| `TableCount.Program.Construct` | NDShareBase/common/luabridge/RefCountedPtr.h:102-127 | construction from a raw or another pointer keeps the entries right |
| `TableCount.Program.Allocate` | NDShareBase/common/luabridge/RefCountedPtr.h:61-67 | a new object may take any free address, and finds a zero entry there |
| `TableCount.Program.Release` | NDShareBase/common/luabridge/RefCountedPtr.h:218-221 | the object goes exactly if its entry was one, though deletions nest |
| `TableCount.Program.Delete` | NDShareBase/common/luabridge/RefCountedPtr.h:219 | deletion destroys the members, then the address is free |
| `TableCount.Program.DestroyMembers` | NDShareBase/common/luabridge/RefCountedPtr.h:133-136 | the members are destroyed last to first, and no handle in the middle of its own reset is among them |
| `TableCount.Program.Destroy` | NDShareBase/common/luabridge/RefCountedPtr.h:133-136 | the destructor does a whole release |
| `TableCount.Program.Leave` | NDShareBase/common/luabridge/RefCountedPtr.h:133-136 | a variable that goes out of scope leaves a right table and has released what it held |
| `TableCount.Program.Reset` | NDShareBase/common/luabridge/RefCountedPtr.h:214-223 | reset leaves the handle null, after a release if it held something; the handle must survive that release |
| `TableCount.Program.Assign` | NDShareBase/common/luabridge/RefCountedPtr.h:143-152 | assignment releases first and then takes hold of the source's object; nothing happens if both were equal |
| `TableCount.Program.AssignConverted` | NDShareBase/common/luabridge/RefCountedPtr.h:162-169 | the same for a pointer of another type, but never skipped |
| `TableRuns.Step` | NDShareBase/common/luabridge/RefCountedPtr.h:102-223 | each command of a script changes memory as its meaning demands and keeps every entry right; p = p->f under a count above one |
| `TableRuns.Run` | NDShareBase/common/luabridge/RefCountedPtr.h:102-223 | any script in which each p = p->f finds a count above one runs to what it means, with freed addresses handed out again at once |
| `TableRuns.RunInFull` | NDShareBase/common/luabridge/RefCountedPtr.h:102-223 | any script in which another variable leads to the object of p at each p = p->f runs to what it means |
| `CellSteps.CellIsHandles` | NDShareBase/common/function/NDRefCounted.h:105-107 | every cell counts the handles on its object, each held object has one, and handles share a cell if and only if they share an object |
| `CellSteps.LowerCell` | NDShareBase/common/function/NDRefCounted.h:98 | the 32-bit decrement never wraps and keeps cells, handles and memory in accord |
| `CellSteps.WrapMatches` | NDShareBase/common/function/NDRefCounted.h:24 | a first wrap makes the only cell of the object |
| `CellSteps.CopyMatches` | NDShareBase/common/function/NDRefCounted.h:25-30 | a copy shares object and cell, and the 32-bit increment does not wrap |
| `CellSteps.FreeMatches` | NDShareBase/common/function/NDRefCounted.h:100-101 | object and cell go together and no other cell is touched |
| `CellCount.Program.Default` | NDShareBase/common/function/NDRefCounted.h:23 | an empty handle |
| `CellCount.Program.Wrap` | NDShareBase/common/function/NDRefCounted.h:24 | a raw pointer gets a cell with one in it; null gets none |
| `CellCount.Program.Copy` | NDShareBase/common/function/NDRefCounted.h:25-30 | a copy holds the same object |
| `CellCount.Program.Release` | NDShareBase/common/function/NDRefCounted.h:96-103 | object and cell are deleted exactly when the last handle leaves, in whatever nesting |
| `CellCount.Program.GiveBack` | NDShareBase/common/function/NDRefCounted.h:100-101 | the handle still knows its cell after the object's destructor has run, and gives it back |
| `CellCount.Program.DestroyMembers` | NDShareBase/common/function/NDRefCounted.h:32-36 | the members are destroyed last to first; no handle in the middle of its release changes |
| `CellCount.Program.Destroy` | NDShareBase/common/function/NDRefCounted.h:32-36 | the destructor does a whole release |
| `CellCount.Program.Leave` | NDShareBase/common/function/NDRefCounted.h:32-36 | a variable that goes out of scope leaves right cells and has released what it held |
| `CellCount.Program.Assign` | NDShareBase/common/function/NDRefCounted.h:38-53 | assignment releases, then shares the source's object and cell; to itself it does nothing |
| `CellCount.Program.LetGo` | NDShareBase/common/function/NDRefCounted.h:42-43 | the release leaves both handles in place and the source's object alive |
| `CellCount.Program.TakeOver` | NDShareBase/common/function/NDRefCounted.h:45-49 | the fields are copied and the cell counts one more |
| `CellRuns.Step` | NDShareBase/common/function/NDRefCounted.h:23-53 | each command of a script changes memory as its meaning demands and keeps every cell right; p = p->f under a count above one |
| `CellRuns.Run` | NDShareBase/common/function/NDRefCounted.h:23-53 | any script in which each p = p->f finds a count above one runs to what it means |
| `CellRuns.RunInFull` | NDShareBase/common/function/NDRefCounted.h:23-53 | any script in which another variable leads to the object of p at each p = p->f runs to what it means |
| `Rotation.ThreeReversals` | NDShareBase/commonImpl/lua/lapi.c:203-206 | reversing a prefix, the rest and the whole rotates, for amounts up to the length either way |
| `Rotation.ThreeFlips` | NDShareBase/commonImpl/lua/lapi.c:214-217 | the same on a segment, with the prefix ends the code computes |
| `Rotation.RotatedAt` | NDShareBase/commonImpl/lua/lapi.c:203-206 | the element at offset i moves to (i + n) modulo the length |
| `Rotation.RotationKeepsElements` | NDShareBase/commonImpl/lua/lapi.c:207-219 | the multiset of values is kept |
| `Rotation.RotationsAdd` | NDShareBase/commonImpl/lua/lapi.c:207-219 | rotating by a and then b is rotating by any amount congruent to a + b |
| `Rotation.TurnsAdd` | NDShareBase/commonImpl/lua/lapi.c:207-219 | the same for a segment of the stack |
| `Rotation.TurnedBack` | NDShareBase/commonImpl/lua/lapi.c:207-219 | rotating by n and then -n restores the whole stack, and no value is lost or doubled |
| `Rotation.TurnedKeeps` | NDShareBase/commonImpl/lua/lapi.c:207-219 | no slot outside the segment is touched |
| `Rotation.TurnedByOne` | NDShareBase/common/lua/lua.h:369-371 | by one up the top value is put in at the place, by one down the value at the place is taken out |
| `LuaStack.TwoIndices` | NDShareBase/commonImpl/lua/lapi.c:60-84 | each place in use has exactly two indices, neither a pseudo-index, and an index stands for nothing exactly beyond the top or the upvalues |
| `LuaStack.AbsIndexStays` | NDShareBase/commonImpl/lua/lapi.c:160-164 | an absolute index goes on standing for the same place under any pushes and pops if and only if the place stays in use, and is accepted if and only if it is below the function's limit |
| `LuaStack.AbsIndexMeans` | NDShareBase/commonImpl/lua/lapi.c:160-164 | an absolute index stands for what the index stood for, of whatever kind; pseudo-indices and positive ones stay as they are |
| `LuaStack.RegistryIsThere` | NDShareBase/commonImpl/lua/lapi.c:72-73 | the number of the registry's index |
| `LuaStack.PseudoIndices` | NDShareBase/commonImpl/lua/lapi.c:74-83 | the numbers of the upvalue indices, and where they end |
| `LuaStack.AbsIndexRefused` | NDShareBase/commonImpl/lua/lapi.c:60-66 | a place in use that is accepted as a negative index and refused as an absolute one |
| `LuaStack.ReachRefused` | NDShareBase/commonImpl/lua/lapi.c:172-186 | a new thread that raises its top reaches such a state |
| `LuaStack.LuaState.UpvalueRead` | NDShareBase/commonImpl/lua/lapi.c:74-83 | a function with upvalues v1 to vn reads vi through the i-th upvalue index, and the non-valid value beyond |
| `LuaStack.LuaState.GetTop` | NDShareBase/commonImpl/lua/lapi.c:167-169 | the number of values the function has on the stack |
| `LuaStack.LuaState.SetTop` | NDShareBase/commonImpl/lua/lapi.c:172-186 | the stack has the wanted height, new places are nil, the rest is unchanged |
| `LuaStack.LuaState.Pop` | NDShareBase/common/lua/lua.h:344 | the top n values go |
| `LuaStack.LuaState.Reverse` | NDShareBase/commonImpl/lua/lapi.c:193-200 | the segment is reversed in place and nothing else changes |
| `LuaStack.LuaState.Rotate` | NDShareBase/commonImpl/lua/lapi.c:207-219 | the segment from the index to the top is rotated by n |
| `LuaStack.LuaState.Insert` | NDShareBase/common/lua/lua.h:369 | the top value goes to the index, those above move up, everything below stays |
| `LuaStack.LuaState.Remove` | NDShareBase/common/lua/lua.h:371 | exactly the indexed value goes, the others keep their order and everything below stays |
| `LuaStack.LuaState.Replace` | NDShareBase/common/lua/lua.h:373 | the top value moves to the index, which may be an upvalue or the registry; all else is kept |
| `LuaStack.LuaState.Copy` | NDShareBase/commonImpl/lua/lapi.c:222-234 | the value is copied to the index and every other address keeps its value |
| `LuaStack.LuaState.PushValue` | NDShareBase/commonImpl/lua/lapi.c:237-242 | a copy of the indexed value is pushed and everything below stays |
| `LuaStack.LuaState.XMove` | NDShareBase/commonImpl/lua/lapi.c:118-131 | n values move to the other thread in order, onto what it has; to itself nothing happens |
| `LuaStack.LuaState.PushCClosure` | NDShareBase/commonImpl/lua/lapi.c:532-554 | n pushed values become, in order, the upvalues of the one new value; everything below stays |
| `LuaStack.ReadPushed` | NDShareBase/commonImpl/lua/lapi.c:532-554 | a function made of n pushed values, once running, reads the i-th of them through its i-th upvalue index, and nil beyond |
| `Bit32.TrimIsMod` | NDShareBase/commonImpl/lua/lbitlib.c:37-41 | trimming is reduction modulo 2^32, for negative numbers too |
| `Bit32.BitMask` | NDShareBase/commonImpl/lua/lbitlib.c:44-45 | the mask has its n ones and stray ones from bit n + 32 up |
| `Bit32.AndAux` | NDShareBase/commonImpl/lua/lbitlib.c:49-62 | the result has exactly the low 32 bits that all arguments have, all of them without arguments |
| `Bit32.BTest` | NDShareBase/commonImpl/lua/lbitlib.c:65-69 | true exactly if some low bit is in all arguments |
| `Bit32.BOr` | NDShareBase/commonImpl/lua/lbitlib.c:72-79 | the result has exactly the low bits that some argument has |
| `Bit32.BXor` | NDShareBase/commonImpl/lua/lbitlib.c:82-89 | the result has exactly the low bits that an odd number of arguments have |
| `Bit32.BNot` | NDShareBase/commonImpl/lua/lbitlib.c:92-96 | the result is (-1 - n) modulo 2^32, as the Lua 5.2 manual says in section 6.7 |
| `Bit32.BShift` | NDShareBase/commonImpl/lua/lbitlib.c:99-113 | multiplication by a power of two modulo 2^32, or its floor division of the low 32 bits, for every amount |
| `Bit32.LShift` | NDShareBase/commonImpl/lua/lbitlib.c:116-118 | the same for any Lua integer, by its value |
| `Bit32.RShift` | NDShareBase/commonImpl/lua/lbitlib.c:121-123 | the same to the right |
| `Bit32.BitShifted` | NDShareBase/commonImpl/lua/lbitlib.c:99-113 | bit k of a shift by i is bit k - i of the number, or zero |
| `Bit32.ShiftedAway` | NDShareBase/commonImpl/lua/lbitlib.c:103-107 | a shift by 32 or more either way gives zero |
| `Bit32.ShiftsAdd` | NDShareBase/commonImpl/lua/lbitlib.c:99-113 | two shifts are one by their sum if and only if no bit that the sum keeps is lost on the way |
| `Bit32.ARShift` | NDShareBase/commonImpl/lua/lbitlib.c:126-138 | the signed low 32 bits divided by 2^i rounding down, modulo 2^32, although the code shifts the untrimmed word |
| `Bit32.NegativeIsFilled` | NDShareBase/commonImpl/lua/lbitlib.c:132-134 | filling in ones above the shifted untrimmed word is that division |
| `Bit32.PositiveIsPlain` | NDShareBase/commonImpl/lua/lbitlib.c:129-130 | for a clear sign bit the plain shift is that division |
| `Bit32.MaskIsRemainder` | NDShareBase/commonImpl/lua/lbitlib.c:143 | the masked amount is the remainder that is never negative |
| `Bit32.BitRot` | NDShareBase/commonImpl/lua/lbitlib.c:141-149 | bit k of the result is the bit d places below it, counting round |
| `Bit32.RotationsAdd` | NDShareBase/commonImpl/lua/lbitlib.c:141-159 | rotations by any whole numbers compose by adding |
| `Bit32.RotateBack` | NDShareBase/commonImpl/lua/lbitlib.c:152-159 | left and right rotation undo each other |
| `Bit32.RotateBits` | NDShareBase/commonImpl/lua/lbitlib.c:152-159 | bit k of a left rotation by d is bit k - d, of a right rotation bit k + d, counting round |
| `Bit32.RotationDependsOn` | NDShareBase/commonImpl/lua/lbitlib.c:143-147 | only the low 32 bits and the amount modulo 32 matter |
| `Bit32.RotationTells` | NDShareBase/commonImpl/lua/lbitlib.c:143-147 | amounts that differ modulo 32 give different results |
| `Bit32.FieldArgs` | NDShareBase/commonImpl/lua/lbitlib.c:168-177 | which fields are accepted, and exactly which error each of the others gets |
| `Bit32.BExtract` | NDShareBase/commonImpl/lua/lbitlib.c:180-187 | floor(n / 2^f) modulo 2^w, despite the stray bits of the mask |
| `Bit32.BReplace` | NDShareBase/commonImpl/lua/lbitlib.c:190-199 | inside the field the bits are those of v, outside they are those of n; which errors there are, and when |
| `Bit32.FieldExactly` | NDShareBase/commonImpl/lua/lbitlib.c:168-177 | extract and replace succeed exactly for a field of at least one bit among the 32 |
| `Bit32.OneBit` | NDShareBase/commonImpl/lua/lbitlib.c:170 | without a width the field is one bit |
| `Bit32.ExtractReplaced` | NDShareBase/commonImpl/lua/lbitlib.c:180-199 | extract after replace gives v modulo 2^w |
| `Bit32.ExtractApart` | NDShareBase/commonImpl/lua/lbitlib.c:180-199 | a field apart from the replaced one gives what it gave |
| `Bit32.ReplaceOwn` | NDShareBase/commonImpl/lua/lbitlib.c:180-199 | replacing a field with its own extract gives the trimmed number |
| `Bit32.ReplaceTwice` | NDShareBase/commonImpl/lua/lbitlib.c:190-199 | the last of two replacements of a field wins |
| `Bit32.ReplacesCommute` | NDShareBase/commonImpl/lua/lbitlib.c:190-199 | replacements of fields apart can be swapped |
| `Bit32.BitPut` | NDShareBase/commonImpl/lua/lbitlib.c:195-196 | inside the field the bits are those of v, outside they are unchanged |
| `Bit32.GetPutApart` | NDShareBase/commonImpl/lua/lbitlib.c:190-199 | replacing a field does not change what is extracted from a field apart from it |
| `Bit32.PutGet` | NDShareBase/commonImpl/lua/lbitlib.c:190-199 | replacing a field with its own extract gives the trimmed number |
| `Bit32.PutPut` | NDShareBase/commonImpl/lua/lbitlib.c:190-199 | the last replacement of a field wins |
| `Bit32.PutsCommute` | NDShareBase/commonImpl/lua/lbitlib.c:190-199 | replacements of fields apart can be swapped |
| `ByteOrder.BytesOfValue` | NDShareBase/common/mysql/my_global.h:1045-1048 | storing the loaded value of any number of bytes gives the bytes back |
| `ByteOrder.ValueOfBytes` | NDShareBase/common/mysql/my_global.h:1045-1048 | loading stored bytes gives the number modulo the size of the field |
| `ByteOrder.LoadsAreValues` | NDShareBase/common/mysql/my_global.h:1147-1175 | the portable loads of 2, 3, 4, 5, 6 and 8 bytes give what a word access gives on a little-endian machine |
| `ByteOrder.Uint3WordAgrees` | NDShareBase/common/mysql/my_global.h:1074 | the x86 form, which masks a word of four bytes, agrees with the portable one |
| `ByteOrder.Sint3IsSigned` | NDShareBase/common/mysql/my_global.h:1134-1141 | the sign extension by hand gives the two's complement value of the three bytes |
| `ByteOrder.Int2Store` | NDShareBase/common/mysql/my_global.h:1176-1179 | exactly two bytes change, to the low bytes of the number |
| `ByteOrder.Int3Store` | NDShareBase/common/mysql/my_global.h:1180-1184 | exactly three bytes change, to the low bytes of the number |
| `ByteOrder.Int4Store` | NDShareBase/common/mysql/my_global.h:1185-1188 | exactly four bytes change, to the low bytes of the number |
| `ByteOrder.Int5Store` | NDShareBase/common/mysql/my_global.h:1189-1194 | exactly five bytes change, to the low bytes of the number |
| `ByteOrder.Int6Store` | NDShareBase/common/mysql/my_global.h:1195-1201 | exactly six bytes change, to the low bytes of the number |
| `ByteOrder.Int8Store` | NDShareBase/common/mysql/my_global.h:1202-1204 | two stores of four bytes make one of eight |
| `ByteOrder.LoadStored` | NDShareBase/common/mysql/my_global.h:1134-1204 | a load from where a number was stored gives it modulo the size of the field |
| `ByteOrder.StoreLoaded` | NDShareBase/common/mysql/my_global.h:1134-1204 | storing what was loaded changes nothing |
| `ByteOrder.Sint3Stored` | NDShareBase/common/mysql/my_global.h:1134-1184 | a stored signed number comes back through the three-byte load if and only if it lies in [-2^23, 2^23) |
| `SkipSpace.WordIsBlank` | NDShareBase/common/mysql/m_string.h:221-228 | a word equals the constant if and only if all its bytes are spaces, in either byte order |
| `SkipSpace.FourBytes` | NDShareBase/common/mysql/m_string.h:281 | what a word read is as a number, in either byte order |
| `SkipSpace.TrimmedIs` | NDShareBase/common/mysql/m_string.h:285-287 | where the plain loop ends: spaces from there on, and none just before |
| `SkipSpace.TrimmedPast` | NDShareBase/common/mysql/m_string.h:281-282 | skipping a block of spaces does not change where the plain loop ends |
| `SkipSpace.SkipWords` | NDShareBase/common/mysql/m_string.h:280-282 | the loop over words ends, aligned and inside the string, without changing where the plain loop ends |
| `SkipSpace.SkipTrailingSpace` | NDShareBase/common/mysql/m_string.h:264-288 | the end is the one of the plain loop over the whole string: 0x20 from there on and another byte just before; every byte and word read lies in the string, and every word is aligned |
| `Crypt.NDCrypt.constructor` | NDShareBase/commonImpl/authentic/NDCrypt.cpp:8-13 | all cursors at zero and no key |
| `Crypt.XorByteBits` | NDShareBase/commonImpl/authentic/NDCrypt.cpp:45 | a byte combined with a key byte has the bits in which they differ |
| `Crypt.OneByteSent` | NDShareBase/commonImpl/authentic/NDCrypt.cpp:44-46 | from any cursor and under any key, one byte sent is the exclusive or with the key byte at the cursor modulo the key length, plus the last ciphertext byte, modulo 256 |
| `Crypt.OneByteReceived` | NDShareBase/commonImpl/authentic/NDCrypt.cpp:61-65 | one byte received undoes the same sum and exclusive or |
| `Crypt.DefaultKeyIs` | NDShareBase/commonImpl/authentic/NDCrypt.cpp:73 | the 64 bytes of the default key |
| `Crypt.NDCrypt.Init` | NDShareBase/commonImpl/authentic/NDCrypt.cpp:20-26 | all cursors go to zero, the key stays |
| `Crypt.NDCrypt.SetKey` | NDShareBase/commonImpl/authentic/NDCrypt.cpp:28-32 | the key changes and the cursors stay |
| `Crypt.NDCrypt.EncryptSend` | NDShareBase/commonImpl/authentic/NDCrypt.cpp:34-48 | the first n bytes are encrypted in place as the next part of the stream, the rest is kept, and the cursor moves on; an object without a key takes the default |
| `Crypt.NDCrypt.DecryptRecv` | NDShareBase/commonImpl/authentic/NDCrypt.cpp:50-67 | the same for decryption, with the other cursor |
| `Crypt.EncryptedInChunks` | NDShareBase/commonImpl/authentic/NDCrypt.cpp:42-47 | a stream may be encrypted in any chunks |
| `Crypt.DecryptedInChunks` | NDShareBase/commonImpl/authentic/NDCrypt.cpp:59-66 | a stream may be decrypted in any chunks |
| `Crypt.RecoveredExactly` | NDShareBase/commonImpl/authentic/NDCrypt.cpp:58-66 | a byte comes out as it went in if and only if it met the same key byte at both ends |
| `Crypt.RoundTrip` | NDShareBase/commonImpl/authentic/NDCrypt.cpp:34-67 | with the same keys in force, decryption undoes encryption |
| `Crypt.OneByteChanged` | NDShareBase/commonImpl/authentic/NDCrypt.cpp:58-66 | changing one ciphertext byte changes that byte of the text and the next, always, and no other |
| `Crypt.KeyByteFromStart` | NDShareBase/common/authentic/NDCrypt.h:39-42 | from the start, byte n meets key byte n modulo the smaller of the key length and 256 |
| `Crypt.CiphertextIsSum` | NDShareBase/commonImpl/authentic/NDCrypt.cpp:42-47 | ciphertext byte n is the sum modulo 256 of the bytes so far, each combined with its key byte |
| `CryptLink.SendKeepsStep` | NDShareBase/commonImpl/authentic/NDCrypt.cpp:34-48 | sending a chunk keeps the two ends of a lane in step |
| `CryptLink.ReceiveKeepsStep` | NDShareBase/commonImpl/authentic/NDCrypt.cpp:50-67 | so does receiving any part of what is under way |
| `CryptLink.RunKeepsStep` | NDShareBase/commonImpl/authentic/NDCrypt.cpp:28-67 | in any run of two peers, both lanes stay in step |
| `CryptLink.ReceiveTakes` | NDShareBase/commonImpl/authentic/NDCrypt.cpp:50-67 | a receive takes as many bytes as asked for, or all there are |
| `CryptLink.RunDeliversExactly` | NDShareBase/commonImpl/authentic/NDCrypt.cpp:28-67 | in any run with any keys nothing is lost, and each byte that arrived is right if and only if it met the same key byte at both ends |
| `CryptLink.KeysInStepDeliver` | NDShareBase/commonImpl/authentic/NDCrypt.cpp:28-67 | keys that change at the same places of the stream deliver a prefix of the text |
| `CryptLink.Rekeyed` | NDShareBase/commonImpl/authentic/NDCrypt.cpp:28-32 | a key that both peers take while nothing is under way is agreed, without new cursors |
| `CryptLink.RunKeepsAgreed` | NDShareBase/commonImpl/authentic/NDCrypt.cpp:34-67 | an agreed key stays agreed while nobody changes it |
| `CryptLink.SameKeyDelivers` | NDShareBase/commonImpl/authentic/NDCrypt.cpp:34-67 | peers with one key deliver a prefix of the text both ways at once, in any interleaving and chunking |
| `CryptLink.KeysKeptExactly` | NDShareBase/commonImpl/authentic/NDCrypt.cpp:28-67 | over any script with changes of key, every byte meets the key it was sent under if and only if everything is received in time |
| `CryptLink.RekeyedScriptDelivers` | NDShareBase/commonImpl/authentic/NDCrypt.cpp:28-67 | if each receiver takes a new key exactly when it has consumed what was sent under the old one, what arrives is a prefix of what was sent |
| `CryptLink.DrainedIsWhole` | NDShareBase/commonImpl/authentic/NDCrypt.cpp:28-67 | once everything under way has been taken, the whole text has arrived |
| `CryptRuns.Peers.Step` | NDShareBase/commonImpl/authentic/NDCrypt.cpp:28-67 | two objects and two byte queues take each action as the model of the link does |
| `CryptRuns.Peers.Run` | NDShareBase/commonImpl/authentic/NDCrypt.cpp:28-67 | so they do over any script |
| `CryptRuns.Talk` | NDShareBase/commonImpl/authentic/NDCrypt.cpp:28-67 | two new objects, any script in which everything is received in time: both ends get a prefix of what the other sent |
| `SpinLock.AtomicInt32.CompareAndSet` | NDShareBase/common/thread/NDAtomicInt32.h:139-159 | stores if the value is the expected one, and returns the old value in any case |
| `SpinLock.Spinlock.Attempt` | NDShareBase/common/thread/NDMutex.h:38-44 | one round of the loop: it goes on exactly if the word was 1 |
| `SpinLock.Spinlock.Unlock` | NDShareBase/common/thread/NDMutex.h:45-48 | the word goes from 1 to 0 |
| `SpinLock.NextKeepsInv` | NDShareBase/common/thread/NDMutex.h:38-48 | every step of every thread keeps the invariant of the lock |
| `SpinLock.RunsAreSafe` | NDShareBase/common/thread/NDMutex.h:38-82 | in every interleaving of any number of threads the word is 0 or 1, it is 1 exactly if a thread holds the lock, at most one does, and acquisitions and releases alternate by thread |
| `SpinLock.StepsRefineTheLock` | NDShareBase/common/thread/NDMutex.h:38-48 | every step is one of a lock taken and given back at once, and an attempt succeeds exactly if the lock is free |
| `SpinLock.NoDeadlock` | NDShareBase/common/thread/NDMutex.h:38-48 | nobody waits for a free lock, and the holder can always go on |
| `SpinLock.OneAction` | NDShareBase/common/thread/NDMutex.h:38-48 | each thread has exactly one action to take next |
| `SpinLock.OthersStay` | NDShareBase/common/thread/NDMutex.h:38-48 | no action of one thread moves another |
| `SpinLock.LockTakesFree` | NDShareBase/common/thread/NDMutex.h:38-44 | `lock()` on a free lock is inside after its first attempt |
| `SpinLock.LockTriesAgain` | NDShareBase/common/thread/NDMutex.h:40-43 | an attempt at a taken lock sleeps, wakes, and tries again, and then gets the lock if it is free |
| `SpinLock.UnlockFrees` | NDShareBase/common/thread/NDMutex.h:45-48 | `unlock()` by the holder frees the lock |
| `SpinLock.StrayUnlockHarms` | NDShareBase/common/thread/NDMutex.h:45-48 | an unlock by a thread outside is harmless if and only if the lock is free |
| `SpinLock.StrayUnlockBreaksExclusion` | NDShareBase/common/thread/NDMutex.h:45-48 | a run in which such an unlock lets two threads in |
| `SessionRegistry.RemovedIsAccounted` | NDServerShare/src/remote/NDRemoteServerManager.cpp:47-54 | an info that is removed moves from the kept to the deleted and is in neither twice |
| `SessionRegistry.AllDeleted` | NDServerShare/src/remote/NDRemoteServerManager.cpp:20-30 | once the registry is empty, each accepted info has been deleted exactly once |
| `SessionRegistry.Registry.Add` | NDServerShare/src/remote/NDRemoteServerManager.cpp:32-42 | an info is accepted exactly if its session is free; nothing is replaced |
| `SessionRegistry.Registry.Remove` | NDServerShare/src/remote/NDRemoteServerManager.cpp:44-58 | the session's info is deleted and its key goes; other keys stay |
| `SessionRegistry.Registry.BySessionID` | NDServerShare/src/remote/NDRemoteServerManager.cpp:60-69 | the info of the session, or null exactly if there is none |
| `SessionRegistry.Registry.ByServerID` | NDServerShare/src/remote/NDRemoteServerManager.cpp:71-95 | the match with the least session, or null exactly if there is none |
| `SessionRegistry.Registry.Destroy` | NDServerShare/src/remote/NDRemoteServerManager.cpp:20-30 | afterwards each accepted info has been deleted exactly once |

## Left out

- TableCount.Program.Construct: the entry of the null address is not part of the invariant; the code raises it for every null pointer made or assigned and never lowers it.
- TableCount.Program.Reset: the handle must survive its own release, as a.p does not in `Cycles.RingDestroysItself`; there the code resets a handle whose destructor has already run, which is undefined in the source language.
- TableCount.Program.Assign: both handles must survive the release of the old object, because the code releases before it reads the source; what happens otherwise is undefined in the source language.
- CellCount.Program.Assign: the same condition, for the same reason.
- TableRuns.Run: a p = p->f that finds no other pointer on its object is excluded, since the source is destroyed before it is read. New objects are bound to a variable first; `Walks.InFull` rewrites the other scripts, as the temporary of an assignment does.
- CellRuns.Run: the same; the class has no operation that clears a handle, which `Walks.InFull` writes as the assignment of an empty one. Objects are identities here, as no field depends on their address.
- CellCount.Program.Wrap: the object must not have been wrapped before; a second wrap would give it a second counter and delete it twice.
- IntrusiveCount.Object.IncReferenceCount: the number of pointers is kept within the range of `int`; overflow is undefined in the source language.
- LuaStack.LuaState.PushCClosure: counts of values are not negative here, as the manual says; the code does not check this, nor in lua_xmove and lua_pop.
- SpinLock.Spinlock.Attempt: the loop of `lock()` is one attempt at a time, since a thread may wait for ever; that every waiting thread gets the lock in the end is not claimed, and does not hold.
- TableCount and CellCount keep handles, objects and cells in maps by address rather than as classes of their own: what matters there is which addresses are in use. The order of the members in an object and of the destruction is kept.
- Destructors of user-defined classes do nothing but destroy members, which are smart pointers; code that runs in them and uses further handles is not modelled.
- Move construction and move assignment of `RefCountedObjectPtr`, which depend on the compiler.
- The Lua stack is not grown (`lua_checkstack`), and locks, the garbage collector and its barriers are left out; values are opaque except for nil and C functions. `adjustresults` belongs to calls, which are not modelled.
- Arguments of bit32 functions that are not integers, and shift amounts of the least integer, whose negation overflows.
- `skip_trailing_space` asserts in debug builds that a long string does not start below the size of a word; the result does not need it.
- Loads and stores of signed 2-, 4- and 8-byte numbers and of floating-point numbers.
- Memory that is not sequentially consistent, and the other operations of `NDAtomicInt32`.
- A call of `init()` in the middle of a stream, which puts the two ends of a lane out of step.
- A session whose number changes while it is registered.
- Network code, message handling, files, the database layer and the other libraries: thin layers over code that is elsewhere.
