/** The spin lock over compare-and-set, run by any number of threads.  One step of the model
    is one atomic action of one thread; memory is sequentially consistent. */
module SpinLock {

  /** `NDAtomicInt32`, of which the lock uses only this operation. */
  class AtomicInt32 {
    var value: int

    constructor (x: int)
      ensures value == x
    {
      value := x;
    }

    method CompareAndSet(comperand: int, exchange: int) returns (r: int)
      modifies this
      ensures r == old(value) && value == Stored(old(value), comperand, exchange)
      ensures r == comperand ==> value == exchange
      ensures r != comperand ==> value == r
    {
      r := value;
      if value == comperand {
        value := exchange;
      }
    }
  }

  /** `NDSpinlock`. */
  class Spinlock {
    const word: AtomicInt32

    constructor ()
      ensures fresh(word) && word.value == 0
    {
      word := new AtomicInt32(0);
    }

    /** One round of the loop in `lock()`; the loop goes on if `again`. */
    method Attempt() returns (again: bool)
      modifies word
      ensures again <==> old(word.value) == 1
      ensures word.value == Stored(old(word.value), 0, 1)
    {
      var r := word.CompareAndSet(0, 1);
      again := r == 1;
    }

    method Unlock()
      modifies word
      ensures word.value == Stored(old(word.value), 1, 0)
    {
      var r := word.CompareAndSet(1, 0);
    }
  }

  /** What compare-and-set leaves behind; it returns the old value in any case. */
  function Stored(value: int, comperand: int, exchange: int): int {
    if value == comperand then exchange else value
  }

  type Thread = nat

  /** Where a thread is: outside; in `lock()` before its compare-and-set, or asleep after a
      failed one; in the section guarded by the lock; in `unlock()` before its compare-and-set. */
  datatype Place = Outside | Trying | Asleep | Inside | Leaving

  datatype Event = Acquired(thread: Thread) | Released(thread: Thread)

  datatype State = State(word: int, at: map<Thread, Place>, history: seq<Event>)

  function At(s: State, t: Thread): Place {
    if t in s.at then s.at[t] else Outside
  }

  predicate Holds(s: State, t: Thread) {
    At(s, t) == Inside || At(s, t) == Leaving
  }

  datatype Action = CallLock | TryLock | Wake | CallUnlock | Unlock

  function Init(): State {
    State(0, map[], [])
  }

  predicate Enabled(s: State, t: Thread, a: Action) {
    match a
    case CallLock => At(s, t) == Outside
    case TryLock => At(s, t) == Trying
    case Wake => At(s, t) == Asleep
    case CallUnlock => At(s, t) == Inside
    case Unlock => At(s, t) == Leaving
  }

  /** The next state.  `lock()` goes on spinning exactly while compare-and-set returns 1;
      `unlock()` does not look at what it returns. */
  function Next(s: State, t: Thread, a: Action): State
    requires Enabled(s, t, a)
  {
    match a
    case CallLock => s.(at := s.at[t := Trying])
    case TryLock =>
      var s' := s.(word := Stored(s.word, 0, 1));
      if s.word == 1 then s'.(at := s.at[t := Asleep])
      else s'.(at := s.at[t := Inside], history := s.history + [Acquired(t)])
    case Wake => s.(at := s.at[t := Trying])
    case CallUnlock => s.(at := s.at[t := Leaving])
    case Unlock =>
      State(Stored(s.word, 1, 0), s.at[t := Outside], s.history + [Released(t)])
  }

  /** `unlock()` by a thread that is outside and does not hold the lock. */
  function StrayUnlock(s: State): State {
    s.(word := Stored(s.word, 1, 0))
  }

  // ---- the invariant ----

  /** Every second event is a release, by the thread that acquired. */
  predicate InTurn(history: seq<Event>, i: nat)
    requires i < |history|
  {
    if i % 2 == 0 then history[i].Acquired? else history[i] == Released(history[i - 1].thread)
  }

  ghost predicate TakesTurns(history: seq<Event>) {
    forall i :: 0 <= i < |history| ==> InTurn(history, i)
  }

  /** Who holds the lock according to the history. */
  function Holder(history: seq<Event>): set<Thread> {
    if |history| % 2 == 0 then {} else {history[|history| - 1].thread}
  }

  ghost predicate Inv(s: State) {
    && s.word == |Holder(s.history)|
    && (forall t: Thread :: Holds(s, t) <==> t in Holder(s.history))
    && TakesTurns(s.history)
  }

  lemma LastTurn(s: State)
    requires Inv(s) && s.history != []
    ensures s.history[|s.history| - 1].Acquired? <==> |s.history| % 2 == 1
    ensures Holder(s.history) == match Seen(s) case Free => {} case HeldBy(u) => {u}
  {
    assert InTurn(s.history, |s.history| - 1);
  }

  lemma NextKeepsInv(s: State, t: Thread, a: Action)
    requires Inv(s) && Enabled(s, t, a)
    ensures Inv(Next(s, t, a))
  {
    var s' := Next(s, t, a);
    forall u: Thread | u != t ensures Holds(s', u) <==> Holds(s, u) {}
    if s.history != [] {
      LastTurn(s);
    }
    assert a == Unlock ==> Holds(s, t);
    forall i | 0 <= i < |s'.history| ensures InTurn(s'.history, i) {
      assert i < |s.history| ==> InTurn(s.history, i);
    }
  }

  // ---- over whole runs ----

  datatype Move = Move(thread: Thread, action: Action)

  /** The states a schedule of moves goes through; a move that is not enabled is skipped. */
  function Run(schedule: seq<Move>): State {
    if schedule == [] then Init()
    else
      var s := Run(schedule[..|schedule| - 1]);
      var Move(t, a) := schedule[|schedule| - 1];
      if Enabled(s, t, a) then Next(s, t, a) else s
  }

  /** In every run the word is 0 or 1, it is 1 exactly when some thread holds the lock, no
      two threads ever do, and the threads have taken turns. */
  lemma {:induction false} RunsAreSafe(schedule: seq<Move>)
    ensures var s := Run(schedule);
            && Inv(s)
            && (s.word == 0 || s.word == 1)
            && (s.word == 1 <==> exists t: Thread :: Holds(s, t))
            && (forall t: Thread, u: Thread :: Holds(s, t) && Holds(s, u) ==> t == u)
            && TakesTurns(s.history)
  {
    if schedule != [] {
      var s := Run(schedule[..|schedule| - 1]);
      var Move(t, a) := schedule[|schedule| - 1];
      RunsAreSafe(schedule[..|schedule| - 1]);
      if Enabled(s, t, a) {
        NextKeepsInv(s, t, a);
      }
    }
    var s := Run(schedule);
    assert forall t: Thread :: t in Holder(s.history) ==> Holds(s, t);
    if s.word == 1 {
      assert Holds(s, s.history[|s.history| - 1].thread);
    }
  }

  // ---- the lock as its users see it ----

  /** A lock that is taken and given back in one piece each. */
  datatype Lock = Free | HeldBy(thread: Thread)

  function Seen(s: State): Lock {
    if s.history != [] && s.history[|s.history| - 1].Acquired? then HeldBy(s.history[|s.history| - 1].thread) else Free
  }

  /** Every step is a step of that lock: a free lock is taken, the holder gives it back, or
      nothing is seen to happen; and an attempt takes the lock exactly when it is free. */
  lemma StepsRefineTheLock(s: State, t: Thread, a: Action)
    requires Inv(s) && Enabled(s, t, a)
    ensures a == TryLock ==> Seen(Next(s, t, a)) == if Seen(s) == Free then HeldBy(t) else Seen(s)
    ensures a == TryLock ==> (At(Next(s, t, a), t) == Inside <==> Seen(s) == Free)
    ensures a == Unlock ==> Seen(s) == HeldBy(t) && Seen(Next(s, t, a)) == Free
    ensures a != TryLock && a != Unlock ==> Seen(Next(s, t, a)) == Seen(s)
  {
    if s.history != [] {
      LastTurn(s);
    }
    assert a == Unlock ==> Holds(s, t);
  }

  /** Nobody waits for a free lock: a thread that is trying gets it with its next step, and
      while the lock is taken the thread that has it can always move on. */
  lemma NoDeadlock(s: State, t: Thread)
    requires Inv(s) && At(s, t) == Trying
    ensures Seen(s) == Free ==> At(Next(s, t, TryLock), t) == Inside
    ensures Seen(s).HeldBy? ==>
              Enabled(s, Seen(s).thread, CallUnlock) || Enabled(s, Seen(s).thread, Unlock)
  {
    StepsRefineTheLock(s, t, TryLock);
    if Seen(s).HeldBy? {
      assert Seen(s).thread in Holder(s.history);
    }
  }

  // ---- what one thread goes through ----

  /** A thread has just one action to take next. */
  lemma OneAction(s: State, t: Thread)
    ensures exists a :: Enabled(s, t, a)
    ensures forall a, b :: Enabled(s, t, a) && Enabled(s, t, b) ==> a == b
  {
    match At(s, t) {
      case Outside => assert Enabled(s, t, CallLock);
      case Trying => assert Enabled(s, t, TryLock);
      case Asleep => assert Enabled(s, t, Wake);
      case Inside => assert Enabled(s, t, CallUnlock);
      case Leaving => assert Enabled(s, t, Unlock);
    }
  }

  /** No action of a thread moves another one. */
  lemma OthersStay(s: State, t: Thread, a: Action, u: Thread)
    requires Enabled(s, t, a) && u != t
    ensures At(Next(s, t, a), u) == At(s, u)
  {}

  /** A call of `lock()` while the lock is free is inside after its first attempt. */
  lemma LockTakesFree(s: State, t: Thread)
    requires Inv(s) && At(s, t) == Outside && Seen(s) == Free
    ensures var s1 := Next(s, t, CallLock);
            && Enabled(s1, t, TryLock)
            && At(Next(s1, t, TryLock), t) == Inside && Seen(Next(s1, t, TryLock)) == HeldBy(t)
  {
    NextKeepsInv(s, t, CallLock);
    StepsRefineTheLock(s, t, CallLock);
    StepsRefineTheLock(Next(s, t, CallLock), t, TryLock);
  }

  /** An attempt at a taken lock puts the thread to sleep; when it wakes it tries again, and then
      it gets the lock if it is free. */
  lemma LockTriesAgain(s: State, t: Thread)
    requires Inv(s)
    ensures At(s, t) == Trying && Seen(s) != Free ==> At(Next(s, t, TryLock), t) == Asleep
    ensures At(s, t) == Asleep ==>
              var s1 := Next(s, t, Wake);
              && Inv(s1) && Enabled(s1, t, TryLock)
              && (Seen(s) == Free ==> At(Next(s1, t, TryLock), t) == Inside)
  {
    if At(s, t) == Trying {
      StepsRefineTheLock(s, t, TryLock);
      Taken(s);
    }
    if At(s, t) == Asleep {
      NextKeepsInv(s, t, Wake);
      StepsRefineTheLock(s, t, Wake);
      StepsRefineTheLock(Next(s, t, Wake), t, TryLock);
    }
  }

  lemma Taken(s: State)
    requires Inv(s)
    ensures s.word == if Seen(s) == Free then 0 else 1
  {
    if s.history != [] {
      LastTurn(s);
    }
  }

  /** The holder that calls `unlock()` frees the lock and is outside. */
  lemma UnlockFrees(s: State, t: Thread)
    requires Inv(s) && At(s, t) == Inside
    ensures var s1 := Next(s, t, CallUnlock);
            && Enabled(s1, t, Unlock)
            && var s2 := Next(s1, t, Unlock);
            Seen(s2) == Free && s2.word == 0 && At(s2, t) == Outside
  {
    NextKeepsInv(s, t, CallUnlock);
    var s1 := Next(s, t, CallUnlock);
    NextKeepsInv(s1, t, Unlock);
    StepsRefineTheLock(s1, t, Unlock);
    Taken(Next(s1, t, Unlock));
  }

  // ---- unlocking without the lock ----

  /** A thread that does not hold the lock may call `unlock()` without harm if and only if
      nobody holds it. */
  lemma StrayUnlockHarms(s: State)
    requires Inv(s)
    ensures Inv(StrayUnlock(s)) <==> Seen(s) == Free
  {
    if s.history != [] {
      LastTurn(s);
    }
  }

  /** Otherwise two threads end up inside together. */
  lemma StrayUnlockBreaksExclusion(t: Thread, u: Thread)
    requires t != u
    ensures var s := StrayUnlock(Run([Move(t, CallLock), Move(t, TryLock), Move(u, CallLock)]));
            && Enabled(s, u, TryLock)
            && At(Next(s, u, TryLock), t) == Inside && At(Next(s, u, TryLock), u) == Inside
  {
    var m1, m2, m3 := Move(t, CallLock), Move(t, TryLock), Move(u, CallLock);
    assert [m1, m2, m3][..2] == [m1, m2] && [m1, m2][..1] == [m1] && [m1][..0] == [];
    assert Run([m1]) == Next(Init(), t, CallLock);
    assert Run([m1, m2]) == Next(Run([m1]), t, TryLock);
    assert Run([m1, m2, m3]) == Next(Run([m1, m2]), u, CallLock);
  }
}
