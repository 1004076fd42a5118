/**
  `MutexLock` and its `holder_` field: src/base/Mutex.h, with `Condition::wait` of
  src/base/Condition.h, whose guard also writes the field.

  The pthread mutex and `holder_` are two words written one after the other, so the interleaving
  is taken at that grain: a step is one pthread call or one assignment to `holder_`.
 */
module Mutex {

  type Tid = t: int | t > 0 witness 1

  const NOBODY := 0

  /** How far a thread is in `lock`, `unlock` or `wait`. */
  datatype Place =
    | Outside
    | Locked        // pthread_mutex_lock has returned
    | Inside        // holder_ assigned: user code under the lock
    | Unlocking     // holder_ cleared, the mutex still owned
    | Parking       // UnassignGuard constructed
    | Waiting       // inside pthread_cond_wait, without the mutex
    | Waking        // pthread_cond_wait has returned, with the mutex

  datatype State = State(owner: int, holder: int, place: map<Tid, Place>)

  datatype Step =
    | LockMutex(t: Tid)
    | AssignHolder(t: Tid)
    | UnassignHolder(t: Tid)
    | UnlockMutex(t: Tid)
    | EnterGuard(t: Tid)
    | CondWait(t: Tid)
    | CondReturn(t: Tid)
    | LeaveGuard(t: Tid)

  predicate Enabled(s: State, step: Step)
  {
    && step.t in s.place
    && match step
       case LockMutex(t) => s.place[t].Outside? && s.owner == NOBODY
       case AssignHolder(t) => s.place[t].Locked?
       case UnassignHolder(t) => s.place[t].Inside?
       case UnlockMutex(t) => s.place[t].Unlocking?
       case EnterGuard(t) => s.place[t].Inside?
       case CondWait(t) => s.place[t].Parking?
       case CondReturn(t) => s.place[t].Waiting? && s.owner == NOBODY
       case LeaveGuard(t) => s.place[t].Waking?
  }

  function Next(s: State, step: Step): State
    requires Enabled(s, step)
  {
    match step
    case LockMutex(t) => State(t, s.holder, s.place[t := Locked])
    case AssignHolder(t) => State(s.owner, t, s.place[t := Inside])
    case UnassignHolder(t) => State(s.owner, NOBODY, s.place[t := Unlocking])
    case UnlockMutex(t) => State(NOBODY, s.holder, s.place[t := Outside])
    case EnterGuard(t) => State(s.owner, NOBODY, s.place[t := Parking])
    case CondWait(t) => State(NOBODY, s.holder, s.place[t := Waiting])
    case CondReturn(t) => State(t, s.holder, s.place[t := Waking])
    case LeaveGuard(t) => State(s.owner, t, s.place[t := Inside])
  }

  function Init(threads: set<Tid>): State
  {
    State(NOBODY, NOBODY, map t | t in threads :: Outside)
  }

  predicate IsRun(s: State, steps: seq<Step>)
    decreases |steps|
  {
    steps == [] || (Enabled(s, steps[0]) && IsRun(Next(s, steps[0]), steps[1..]))
  }

  function After(s: State, steps: seq<Step>): State
    requires IsRun(s, steps)
    decreases |steps|
  {
    if steps == [] then s else After(Next(s, steps[0]), steps[1..])
  }

  predicate Owns(p: Place)
  {
    !p.Outside? && !p.Waiting?
  }

  ghost predicate Inv(s: State)
  {
    && (s.owner == NOBODY || (s.owner > 0 && s.owner in s.place))
    && (s.holder == NOBODY || (s.holder > 0 && s.holder in s.place))
    && forall t: Tid | t in s.place ::
         && (Owns(s.place[t]) <==> s.owner == t)
         && (s.place[t].Inside? <==> s.holder == t)
  }

  lemma {:induction false} InvHolds(s: State, steps: seq<Step>)
    requires Inv(s) && IsRun(s, steps)
    ensures Inv(After(s, steps))
    decreases |steps|
  {
    if steps == [] {
    } else {
      InvHolds(Next(s, steps[0]), steps[1..]);
    }
  }

  /** `isLockedByThisThread`: the value of `holder_ == tid()` in thread `t`. */
  predicate IsLockedByThisThread(s: State, t: Tid)
  {
    s.holder == t
  }

  /**
    In every interleaving, `assertLocked` passes in a thread exactly when that thread is between
    its `lock` and its `unlock` and not inside a wait; and at most one thread is there.
   */
  lemma AssertLockedIsExact(threads: set<Tid>, steps: seq<Step>, t: Tid, u: Tid)
    requires IsRun(Init(threads), steps)
    requires t in threads && u in threads
    ensures var s := After(Init(threads), steps);
            && t in s.place && u in s.place
            && (IsLockedByThisThread(s, t) <==> s.place[t].Inside?)
            && (s.place[t].Inside? && s.place[u].Inside? ==> t == u)
  {
    PlacesKept(Init(threads), steps);
    InvHolds(Init(threads), steps);
  }

  /** The destructor's assert: once no thread uses the mutex any more, `holder_` is 0. */
  lemma HolderClearAtEnd(threads: set<Tid>, steps: seq<Step>)
    requires IsRun(Init(threads), steps)
    requires forall t | t in After(Init(threads), steps).place :: After(Init(threads), steps).place[t].Outside?
    ensures After(Init(threads), steps).holder == NOBODY && After(Init(threads), steps).owner == NOBODY
  {
    InvHolds(Init(threads), steps);
  }

  lemma {:induction false} PlacesKept(s: State, steps: seq<Step>)
    requires IsRun(s, steps)
    ensures After(s, steps).place.Keys == s.place.Keys
    decreases |steps|
  {
    if steps == [] {
    } else {
      PlacesKept(Next(s, steps[0]), steps[1..]);
    }
  }

  /** The object itself; `place` records where each thread is. */
  class MutexLock {
    var owner: int
    var holder: int
    ghost var place: map<Tid, Place>

    ghost function StateOf(): State
      reads this
    {
      State(owner, holder, place)
    }

    constructor (threads: set<Tid>)
      ensures StateOf() == Init(threads)
    {
      owner, holder := NOBODY, NOBODY;
      place := map t | t in threads :: Outside;
    }

    /** `lock`, when no other thread comes in between; the three below likewise. */
    method Lock(t: Tid)
      requires Enabled(StateOf(), LockMutex(t))
      modifies this
      ensures IsRun(old(StateOf()), [LockMutex(t), AssignHolder(t)])
      ensures StateOf() == After(old(StateOf()), [LockMutex(t), AssignHolder(t)])
    {
      TwoSteps(StateOf(), LockMutex(t), AssignHolder(t));
      owner := t;
      holder := t;
      place := place[t := Locked][t := Inside];
    }

    method Unlock(t: Tid)
      requires Enabled(StateOf(), UnassignHolder(t))
      modifies this
      ensures IsRun(old(StateOf()), [UnassignHolder(t), UnlockMutex(t)])
      ensures StateOf() == After(old(StateOf()), [UnassignHolder(t), UnlockMutex(t)])
    {
      TwoSteps(StateOf(), UnassignHolder(t), UnlockMutex(t));
      holder := NOBODY;
      owner := NOBODY;
      place := place[t := Unlocking][t := Outside];
    }

    /** `Condition::wait` up to the point where the thread sleeps. */
    method BeginWait(t: Tid)
      requires Enabled(StateOf(), EnterGuard(t))
      modifies this
      ensures IsRun(old(StateOf()), [EnterGuard(t), CondWait(t)])
      ensures StateOf() == After(old(StateOf()), [EnterGuard(t), CondWait(t)])
    {
      TwoSteps(StateOf(), EnterGuard(t), CondWait(t));
      holder := NOBODY;
      owner := NOBODY;
      place := place[t := Parking][t := Waiting];
    }

    /** `Condition::wait` from there on. */
    method EndWait(t: Tid)
      requires Enabled(StateOf(), CondReturn(t))
      modifies this
      ensures IsRun(old(StateOf()), [CondReturn(t), LeaveGuard(t)])
      ensures StateOf() == After(old(StateOf()), [CondReturn(t), LeaveGuard(t)])
    {
      TwoSteps(StateOf(), CondReturn(t), LeaveGuard(t));
      owner := t;
      holder := t;
      place := place[t := Waking][t := Inside];
    }
  }

  lemma TwoSteps(s: State, first: Step, second: Step)
    requires Enabled(s, first) && Enabled(Next(s, first), second)
    ensures IsRun(s, [first, second])
    ensures After(s, [first, second]) == Next(Next(s, first), second)
  {
    assert [first, second][1..] == [second];
    assert [second][1..] == [];
    var middle := Next(s, first);
    assert After(Next(middle, second), []) == Next(middle, second);
    assert After(middle, [second]) == Next(middle, second);
  }
}
