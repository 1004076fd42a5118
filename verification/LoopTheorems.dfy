/**
  What the event loop of src/net/EventLoop.cc and the timer queue of src/net/TimerQueue.cc promise,
  for every run from a loop just constructed.
 */
module LoopTheorems {
  import opened Common
  import opened Timer
  import opened TimerList
  import opened LoopProtocol
  import opened LoopSafety

  lemma InvAfter(clock: int, steps: seq<Step>)
    requires clock > 0 && IsRun(Init(clock), steps)
    ensures Inv(After(Init(clock), steps))
  {
    InitInv(clock);
    InvHolds(Init(clock), steps);
  }

  /**
    Functors run in the order they were queued, each once; and whenever the loop is about to poll
    with functors pending, the eventfd is readable, so the poll returns. It is readable exactly if a
    functor has been queued since it was read.
   */
  lemma FunctorsInOrder(clock: int, steps: seq<Step>)
    requires clock > 0 && IsRun(Init(clock), steps)
    ensures var s := After(Init(clock), steps);
            && s.queued == s.ran + Drained(s) + s.pending
            && (s.place.AtPoll? && s.pending != [] ==> s.counter > 0 && IsReady(s, WakeChannel))
            && (IsReady(s, WakeChannel) <==> s.cleared < |s.queued|)
            && (IsReady(s, WakeChannel) <==> s.counter > 0)
  {
    InvAfter(clock, steps);
    hide After;
  }

  /** A timer may be added for every interval whose microseconds fit an `int`, at any free address. */
  lemma AddTimerAllowed(s: Loop, id: Id, when: int, interval: int)
    requires !s.place.AtPoll? && id !in s.timers && id < MAX_ADDRESS && Int32(interval * MICROS_PER_SECOND)
    ensures Enabled(s, AddTimer(id, when, interval))
  {
    ProductFits(interval);
  }

  /** A timer that is not earlier than the head is added without touching the timerfd. */
  lemma LaterTimerKeepsTimerfd(s: Loop, id: Id)
    requires id in s.timers && s.entries != [] && s.timers[id].expiration >= s.entries[0].when
    ensures var n := AddTimerInLoop(s, id);
            n.deadline == s.deadline && n.armedAt == s.armedAt && Entry(s.timers[id].expiration, id) in n.entries
  {
    InsertMembers(s.entries, Entry(s.timers[id].expiration, id), Entry(s.timers[id].expiration, id));
  }

  /** At the end of `reset` the timerfd is armed for the head, unless the head's time is 0 or less. */
  lemma RearmNeedsValidTime(s: Loop)
    requires Enabled(s, Rearm) && s.entries != []
    ensures var when := s.timers[s.entries[0].address].expiration;
            Next(s, Rearm).deadline == if when > 0 then Some(Max(when, s.clock + 100)) else s.deadline
  {
    ArmExact(s.(place := Dispatch(s.place.ready)), s.timers[s.entries[0].address].expiration);
    hide Micros, HowMuchTimeFromNow;
  }

  predicate NoEnd(steps: seq<Step>)
  {
    EndDrain !in steps
  }

  lemma StepInDrain(s: Loop, step: Step)
    requires s.place.Draining? && Enabled(s, step) && step != EndDrain
    ensures var n := Next(s, step);
            && n.place.Draining?
            && if step.RunFunctor? then
                 n.place.functors == s.place.functors[1..] && n.ran == s.ran + [s.place.functors[0]]
               else
                 n.place == s.place && n.ran == s.ran
  {
    hide Insert, Micros, HowMuchTimeFromNow;
  }

  /**
    While the loop drains a batch, it runs functors of that batch only, in order, whatever its
    callbacks queue meanwhile; it can stop draining only once the batch is empty.
   */
  lemma {:induction false} DrainRunsItsBatch(s: Loop, steps: seq<Step>)
    requires s.place.Draining? && IsRun(s, steps) && NoEnd(steps)
    ensures var n := After(s, steps);
            && n.place.Draining? && |n.place.functors| <= |s.place.functors|
            && var k := |s.place.functors| - |n.place.functors|;
               n.place.functors == s.place.functors[k..] && n.ran == s.ran + s.place.functors[..k]
    decreases |steps|
  {
    hide Next, Enabled;
    if steps == [] {
    } else {
      assert forall x :: x in steps[1..] ==> x in steps;
      StepInDrain(s, steps[0]);
      DrainRunsItsBatch(Next(s, steps[0]), steps[1..]);
      if steps[0].RunFunctor? {
        DrainNonEmpty(s);
        FirstAndRest(s.place.functors, s.ran,
                     |s.place.functors| - 1 - |After(Next(s, steps[0]), steps[1..]).place.functors|);
      }
    }
  }

  lemma FirstAndRest<T>(fs: seq<T>, ran: seq<T>, k: nat)
    requires k < |fs|
    ensures fs[1..][k..] == fs[k + 1..]
    ensures (ran + [fs[0]]) + fs[1..][..k] == ran + fs[..k + 1]
  {
  }

  lemma DrainNonEmpty(s: Loop)
    ensures Enabled(s, RunFunctor) ==> s.place.Draining? && s.place.functors != []
  {
  }

  /**
    Every timer that is not finished is in exactly one of: waiting to be added, the set, the expired
    ones; every entry carries its timer's present expiration although restarts change it in place;
    and the set is in order.
   */
  lemma TimersAgree(clock: int, steps: seq<Step>, id: Id, e: Entry)
    requires clock > 0 && IsRun(Init(clock), steps)
    ensures var s := After(Init(clock), steps);
            && Places(s, id) == (if Live(s, id) then 1 else 0)
            && (Holds(s, e) ==> e.address in s.timers && s.timers[e.address].expiration == e.when)
            && Sorted(s.entries)
  {
    InvAfter(clock, steps);
    var s := After(Init(clock), steps);
    assert PlacedOnce(s, id);
    hide After, Places, Holds, Sorted;
  }

  /**
    Outside `handleRead`, the timerfd is armed if and only if the set has a timer, and then for the
    head's expiration or 100 microseconds after it was armed, whichever is later: never for a time
    already past when it was armed, and never later than the head needs.
   */
  lemma TimerfdArmed(clock: int, steps: seq<Step>)
    requires clock > 0 && IsRun(Init(clock), steps)
    ensures var s := After(Init(clock), steps);
            !s.place.Handling? ==>
              && (s.entries == [] <==> s.deadline == None)
              && (s.entries != [] ==>
                    && s.deadline == Some(Max(s.entries[0].when, s.armedAt + 100))
                    && s.armedAt <= s.clock)
  {
    InvAfter(clock, steps);
    hide After;
  }

  /**
    No callback comes before its time: the run number `k + 1` of a timer comes no earlier than `k`
    intervals after its first expiration; and a timer that does not repeat runs at most once.
   */
  lemma CallbacksInTime(clock: int, steps: seq<Step>, j: nat)
    requires clock > 0 && IsRun(Init(clock), steps)
    requires j < |After(Init(clock), steps).log|
    ensures var s := After(Init(clock), steps);
            var f := s.log[j];
            && f.id in s.timers
            && var t, k := s.timers[f.id], RunsOf(s.log[..j], f.id);
               && t.first + k * (if t.interval > 0 then t.interval * MICROS_PER_SECOND else 0) <= f.time
               && (t.interval <= 0 ==> k == 0)
  {
    InvAfter(clock, steps);
    var s := After(Init(clock), steps);
    assert InTime(s, j);
    hide After, RunsOf, Inv;
  }

  /**
    Nor is it put off: a timer in the set is due at its first expiration before it has run, and then
    one interval after a moment between its last run and now.
   */
  lemma DueOnTime(clock: int, steps: seq<Step>, e: Entry)
    requires clock > 0 && IsRun(Init(clock), steps)
    requires e in After(Init(clock), steps).entries
    ensures var s := After(Init(clock), steps);
            && e.address in s.timers
            && var t := s.timers[e.address];
               if RunsOf(s.log, e.address) == 0 then e.when == t.first
               else t.interval > 0 ==>
                 LastTime(s.log, e.address) + t.interval * 1_000_000 <= e.when <= s.clock + t.interval * 1_000_000
  {
    InvAfter(clock, steps);
    var s := After(Init(clock), steps);
    assert Holds(s, e) && Paced(s, e.address) && PlacedOnce(s, e.address);
    CountPositive(s.entries, e);
    assert Count(Done(s), e.address) == 0;
    hide After, RunsOf, LastTime, Count;
  }

  lemma OneShotRunsOnce(clock: int, steps: seq<Step>, id: Id)
    requires clock > 0 && IsRun(Init(clock), steps)
    ensures var s := After(Init(clock), steps);
            id in s.timers && s.timers[id].interval <= 0 ==>
              && RunsOf(s.log, id) <= 1
              && (id in s.retired ==> RunsOf(s.log, id) == 1)
  {
    InvAfter(clock, steps);
    var s := After(Init(clock), steps);
    assert Timed(s, id);
    hide After, RunsOf;
  }

  /**
    A timer with an interval is never finished: it is always in one place, and in the poll that is
    the set, or the queue of those yet to be added, whose wakeup is on its way. So `runEvery`
    repeats, without end, exactly the intervals that are at least a second.
   */
  lemma RepeatsForever(clock: int, steps: seq<Step>, id: Id)
    requires clock > 0 && IsRun(Init(clock), steps)
    ensures var s := After(Init(clock), steps);
            id in s.timers && s.timers[id].interval > 0 ==>
              && id !in s.retired && Places(s, id) == 1
              && (s.place.AtPoll? ==> Count(s.entries, id) + AddCount(s.pending, id) == 1)
  {
    InvAfter(clock, steps);
    var s := After(Init(clock), steps);
    assert Timed(s, id) && PlacedOnce(s, id);
    assert s.place.AtPoll? ==> Count([], id) == 0 && AddCount([], id) == 0;
    hide After, RunsOf, Count, AddCount;
  }

  /** A timer of `runEvery` repeats if and only if its interval is one second or more. */
  lemma EveryRepeatsFromOneSecond(clock: int, steps: seq<Step>, id: Id, interval: real)
    requires clock > 0 && IsRun(Init(clock), steps)
    requires var s := After(Init(clock), steps); id in s.timers && s.timers[id].interval == Truncated(interval)
    ensures var s := After(Init(clock), steps);
            if interval >= 1.0 then id !in s.retired && Places(s, id) == 1 else RunsOf(s.log, id) <= 1
  {
    EveryNeedsASecond(interval);
    RepeatsForever(clock, steps, id);
    OneShotRunsOnce(clock, steps, id);
    hide After, RunsOf, Places;
  }

  // ---------------------------------------------------------------------------------------
  // The loop always gets on.

  /**
    A loop in its poll with a timer in the set: once the clock has reached the deadline the poll can
    return, and the handler then finds an expired timer. It never wakes up for nothing.
   */
  lemma TimerfdFires(s: Loop, clock: int)
    requires Inv(s) && s.place.AtPoll? && s.entries != []
    requires clock >= s.clock && clock >= Max(s.entries[0].when, s.armedAt + 100)
    ensures IsRun(s, [Tick(clock), Poll([TimerChannel]), Handle])
    ensures var n := After(s, [Tick(clock), Poll([TimerChannel]), Handle]);
            n.place.Handling? && n.place.due != [] && n.place.due[0] == s.entries[0]
  {
    var tick, poll := Tick(clock), Poll([TimerChannel]);
    var s1 := Next(s, tick);
    assert s1.deadline == Some(Max(s.entries[0].when, s.armedAt + 100));
    var s2 := Next(s1, poll);
    StepKeepsInv(s, tick);
    StepKeepsInv(s1, poll);
    hide Inv;
    assert Inv(s2);
    HandlerFindsHead(s2);
    OneStep(s, tick);
    OneStep(s1, poll);
    OneStep(s2, Handle);
    RunsJoin(s, [tick], [poll]);
    RunsJoin(s, [tick] + [poll], [Handle]);
    assert [tick] + [poll] + [Handle] == [tick, poll, Handle];
  }

  lemma HandlerFindsHead(s: Loop)
    requires Inv(s) && Enabled(s, Handle) && s.place.ready[0].TimerChannel? && s.entries != []
    ensures var n := Next(s, Handle);
            n.place.Handling? && n.place.due != [] && n.place.due[0] == s.entries[0]
  {
    HandleArmed(s);
  }

  /** The step that the loop itself takes next; a poll that has returned has something ready. */
  function OwnStep(s: Loop): Step
    requires !s.place.AtPoll?
  {
    match s.place
    case Setup => Start
    case Dispatch(ready) => if ready == [] then Swap else Handle
    case Handling(due, done, _, _) => if due != [] then RunTimer else if done != [] then Restart else Rearm
    case Draining(functors) => if functors != [] then RunFunctor else EndDrain
  }

  lemma NothingBlocks(s: Loop)
    requires Inv(s) && !s.place.AtPoll?
    ensures Enabled(s, OwnStep(s))
  {
    match s.place {
      case Handling(due, done, _, _) =>
        if due == [] && done != [] {
          assert Holds(s, done[0]);
        } else if due == [] && s.entries != [] {
          assert Holds(s, s.entries[0]);
        }
      case Draining(functors) =>
        if functors != [] && functors[0].Add? {
          assert AddCount(functors, functors[0].id) > 0;
          assert PlacedOnce(s, functors[0].id);
        }
      case _ =>
    }
  }

  /** What is left to do until the next poll, as a measure that every step of the loop itself shortens. */
  function Ready(p: Place): nat
  {
    match p
    case Dispatch(ready) => |ready| + 1
    case Handling(_, _, _, ready) => |ready| + 1
    case _ => 0
  }

  function Left(p: Place): nat
  {
    match p
    case Handling(due, done, _, _) => 1 + 2 * |due| + |done|
    case Draining(functors) => 1 + |functors|
    case Setup => 1
    case _ => 0
  }

  lemma OwnStepShortens(s: Loop)
    requires !s.place.AtPoll? && Enabled(s, OwnStep(s))
    ensures var n := Next(s, OwnStep(s));
            Ready(n.place) < Ready(s.place) || (Ready(n.place) == Ready(s.place) && Left(n.place) < Left(s.place))
  {
    hide Insert, Micros, HowMuchTimeFromNow;
  }

  /**
    From any state the loop comes back to its poll by its own steps: the channels reported are all
    handled, the expired timers all run, and the batch of functors is drained.
   */
  lemma {:induction false} IterationFinishes(s: Loop) returns (steps: seq<Step>)
    requires Inv(s)
    ensures IsRun(s, steps) && After(s, steps).place.AtPoll?
    decreases Ready(s.place), Left(s.place)
  {
    hide Inv, Next, Enabled, OwnStep, Ready, Left;
    if s.place.AtPoll? {
      steps := [];
    } else {
      NothingBlocks(s);
      StepKeepsInv(s, OwnStep(s));
      OwnStepShortens(s);
      OneStep(s, OwnStep(s));
      var rest := IterationFinishes(Next(s, OwnStep(s)));
      RunsJoin(s, [OwnStep(s)], rest);
      steps := [OwnStep(s)] + rest;
    }
  }
}
