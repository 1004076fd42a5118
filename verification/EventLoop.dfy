/**
  The event loop object: src/net/EventLoop.cc, with its queue of functors, its eventfd and its
  timer queue. As in `TimerQueue`, each method does to the objects what steps of `LoopProtocol` do
  to the state they show.
 */
module EventLoop {
  import opened Common
  import opened Timer
  import opened TimerList
  import opened LoopProtocol
  import opened LoopSafety
  import opened LoopTheorems
  import opened TimerQueue

  /** A functor as it is queued, with the timer object it is bound to. */
  datatype Task = UserTask(n: nat) | AddTask(timer: Timer)

  function FunctorOf(task: Task): Functor
  {
    match task
    case UserTask(n) => User(n)
    case AddTask(timer) => Add(timer.address)
  }

  function FunctorsOf(tasks: seq<Task>): (functors: seq<Functor>)
    ensures |functors| == |tasks|
    ensures forall i | 0 <= i < |tasks| :: functors[i] == FunctorOf(tasks[i])
  {
    seq(|tasks|, i requires 0 <= i < |tasks| => FunctorOf(tasks[i]))
  }

  ghost predicate BoundTo(tasks: seq<Task>, timers: set<Timer>)
  {
    forall i | 0 <= i < |tasks| :: tasks[i].AddTask? ==> tasks[i].timer in timers
  }

  /** What a callback may ask of the loop: `queueInLoop`, or `runAt` or `runEvery` with the timer's address. */
  datatype Act = QueueAct(n: nat) | TimerAct(address: nat, when: int, interval: int)

  /** The user's code: it may ask for anything, any number of times. */
  method UserCode() returns (acts: seq<Act>)
  {
    acts := *;
  }

  /** Something asked of the loop, added to a run. */
  lemma ActKeeps(s: Loop, before: seq<Step>, step: Step)
    requires IsRun(s, before) && Inv(After(s, before)) && Enabled(After(s, before), step)
    requires step.Queue? || step.AddTimer?
    ensures IsRun(s, before + [step]) && After(s, before + [step]) == Next(After(s, before), step)
    ensures var n := After(s, before + [step]);
            Inv(n) && n.place == After(s, before).place && n.clock == After(s, before).clock
  {
    StepKeepsInv(After(s, before), step);
    RunExtends(s, before, step);
  }

  class EventLoop {
    const timerQueue: TimerQueue
    var pendingFunctors: seq<Task>
    var counter: nat
    var calls: seq<Functor>

    ghost predicate ShowsQueue(s: Loop)
      reads this, timerQueue
    {
      && FunctorsOf(pendingFunctors) == s.pending && counter == s.counter && calls == s.ran
      && BoundTo(pendingFunctors, timerQueue.known)
    }

    ghost predicate Shows(s: Loop)
      reads this, timerQueue, timerQueue.known
    {
      ShowsQueue(s) && timerQueue.Shows(s)
    }

    constructor (clock: int)
      ensures Shows(LoopProtocol.Init(clock))
    {
      timerQueue := new TimerQueue(clock);
      pendingFunctors, counter, calls := [], 0, [];
    }

    method Wakeup()
      modifies this`counter
      ensures counter == if old(counter) < MAX_COUNTER then old(counter) + 1 else old(counter)
    {
      if counter < MAX_COUNTER {
        counter := counter + 1;
      }
    }

    method QueueInLoop(task: Task)
      modifies this`pendingFunctors, this`counter
      ensures pendingFunctors == old(pendingFunctors) + [task]
      ensures counter == if old(counter) < MAX_COUNTER then old(counter) + 1 else old(counter)
    {
      pendingFunctors := pendingFunctors + [task];
      Wakeup();
    }

    /** `queueInLoop` called by the user. */
    method QueueUser(n: nat, ghost s: Loop)
      requires Shows(s) && Enabled(s, Queue(n))
      modifies this`pendingFunctors, this`counter
      ensures Shows(Next(s, Queue(n)))
    {
      QueueInLoop(UserTask(n));
    }

    /** `runAt` and `runEvery`, once the time is computed: `addTimer` of the timer queue. */
    method AddTimer(address: nat, when: int, interval: int, ghost s: Loop)
      requires Shows(s) && Enabled(s, Step.AddTimer(address, when, interval))
      modifies this`pendingFunctors, this`counter, timerQueue`known, timerQueue`addresses
      ensures Shows(Next(s, Step.AddTimer(address, when, interval)))
      ensures timerQueue.known >= old(timerQueue.known) && fresh(timerQueue.known - old(timerQueue.known))
    {
      var timer := timerQueue.NewTimer(address, when, interval, s);
      QueueInLoop(AddTask(timer));
    }

    method RunAt(address: nat, when: int, ghost s: Loop)
      requires Shows(s) && Enabled(s, Step.AddTimer(address, when, 0))
      modifies this, timerQueue
      ensures Shows(Next(s, Step.AddTimer(address, when, 0)))
    {
      AddTimer(address, when, 0, s);
    }

    /** The delay loses its fraction of a second. */
    method RunAfter(address: nat, delay: real, clock: int, ghost s: Loop)
      requires Shows(s) && clock == s.clock && Int32(Truncated(delay) * MICROS_PER_SECOND)
      requires Enabled(s, Step.AddTimer(address, AddTime(clock, Truncated(delay)), 0))
      modifies this, timerQueue
      ensures Shows(Next(s, Step.AddTimer(address, AddTime(clock, Truncated(delay)), 0)))
      ensures WithinASecond(Next(s, Step.AddTimer(address, AddTime(clock, Truncated(delay)), 0)).timers[address].first,
                            clock, delay)
    {
      FractionIsLost(clock, delay);
      AddTimer(address, AddTime(clock, Truncated(delay)), 0, s);
    }

    /** Both the first expiration and the interval lose the fraction of a second. */
    method RunEvery(address: nat, interval: real, clock: int, ghost s: Loop)
      requires Shows(s) && clock == s.clock && Int32(Truncated(interval) * MICROS_PER_SECOND)
      requires Enabled(s, Step.AddTimer(address, AddTime(clock, Truncated(interval)), Truncated(interval)))
      modifies this, timerQueue
      ensures Shows(Next(s, Step.AddTimer(address, AddTime(clock, Truncated(interval)), Truncated(interval))))
      ensures var t := Next(s, Step.AddTimer(address, AddTime(clock, Truncated(interval)), Truncated(interval))).timers[address];
              WithinASecond(t.first, clock, interval) && t.interval * MICROS_PER_SECOND == t.first - clock
    {
      FractionIsLost(clock, interval);
      AddTimer(address, AddTime(clock, Truncated(interval)), Truncated(interval), s);
    }

    /** The state `s` has come by `steps` to one that these objects show and where the loop stands at `place`. */
    ghost predicate Reached(s: Loop, steps: seq<Step>, place: Place, clock: int)
      reads this, timerQueue, timerQueue.known
    {
      timerQueue.Reached(s, steps, place, clock) && ShowsQueue(After(s, steps))
    }

    /** One thing the user asks for; a timer needs an address that is free. */
    method Perform(act: Act, ghost clock: int, ghost s: Loop, ghost before: seq<Step>, ghost place: Place)
      returns (ghost steps: seq<Step>)
      requires Reached(s, before, place, clock) && !place.AtPoll?
      modifies this`pendingFunctors, this`counter, timerQueue`known, timerQueue`addresses
      ensures timerQueue.known >= old(timerQueue.known) && fresh(timerQueue.known - old(timerQueue.known))
      ensures Reached(s, steps, place, clock)
    {
      ghost var t := After(s, before);
      steps := before;
      match act {
        case QueueAct(n) =>
          steps := before + [Queue(n)];
          ActKeeps(s, before, Queue(n));
          hide IsRun, After, Inv, Next;
          QueueUser(n, t);
        case TimerAct(address, when, interval) =>
          if address !in timerQueue.addresses && address < MAX_ADDRESS && interval <= 2147 {
            steps := before + [Step.AddTimer(address, when, interval)];
            ActKeeps(s, before, Step.AddTimer(address, when, interval));
            hide IsRun, After, Inv, Next;
            AddTimer(address, when, interval, t);
          }
      }
    }

    /** A callback of the user, with all it asks for. */
    method RunUser(ghost clock: int, ghost s: Loop, ghost before: seq<Step>, ghost place: Place)
      returns (ghost steps: seq<Step>)
      requires Reached(s, before, place, clock) && !place.AtPoll?
      modifies this`pendingFunctors, this`counter, timerQueue`known, timerQueue`addresses
      ensures timerQueue.known >= old(timerQueue.known) && fresh(timerQueue.known - old(timerQueue.known))
      ensures Reached(s, steps, place, clock)
    {
      var acts := UserCode();
      steps := before;
      hide Reached;
      for i := 0 to |acts|
        invariant timerQueue.known >= old(timerQueue.known) && fresh(timerQueue.known - old(timerQueue.known))
        invariant Reached(s, steps, place, clock)
      {
        steps := Perform(acts[i], clock, s, steps, place);
      }
    }

    /** The swap at the head of `doPendingFunctors`. */
    method TakePending(clock: int, ghost s: Loop, ghost before: seq<Step>)
      returns (functors: seq<Task>, now: int, ghost steps: seq<Step>)
      requires Reached(s, before, Dispatch([]), clock)
      modifies this
      ensures Reached(s, steps, Draining(FunctorsOf(functors)), now) && BoundTo(functors, timerQueue.known)
      ensures now >= clock
    {
      now := Now(clock);
      TickAndStep(s, before, now);
      steps := before + [Tick(now)] + [Swap];
      hide Inv, IsRun, After;
      functors := pendingFunctors;
      pendingFunctors := [];
    }

    /** One functor of the batch, itself. */
    method RunTask(task: Task, clock: int, ghost s: Loop, ghost before: seq<Step>, ghost functors: seq<Functor>)
      returns (now: int, ghost steps: seq<Step>)
      requires functors != [] && functors[0] == FunctorOf(task) && BoundTo([task], timerQueue.known)
      requires Reached(s, before, Draining(functors), clock)
      modifies this`calls, timerQueue`timers, timerQueue`deadline, timerQueue`armedAt
      ensures calls == old(calls) + [FunctorOf(task)]
      ensures Reached(s, steps, Draining(functors[1..]), now) && now >= clock
    {
      now := Now(clock);
      TickAndStep(s, before, now);
      steps := before + [Tick(now)] + [RunFunctor];
      ghost var u := Next(After(s, before), Tick(now));
      RunFunctorRest(u);
      hide Inv, IsRun, After;
      assert task == [task][0];
      calls := calls + [FunctorOf(task)];
      match task {
        case UserTask(_) =>
        case AddTask(timer) => timerQueue.AddTimerInLoop(timer, now, u);
      }
    }

    /** One functor of the batch; the user's may call back. */
    method RunOne(task: Task, clock: int, ghost s: Loop, ghost before: seq<Step>, ghost functors: seq<Functor>)
      returns (now: int, ghost steps: seq<Step>)
      requires functors != [] && functors[0] == FunctorOf(task) && BoundTo([task], timerQueue.known)
      requires Reached(s, before, Draining(functors), clock)
      modifies this, timerQueue
      ensures timerQueue.known >= old(timerQueue.known) && fresh(timerQueue.known - old(timerQueue.known))
      ensures Reached(s, steps, Draining(functors[1..]), now) && now >= clock
      ensures calls == old(calls) + [FunctorOf(task)]
    {
      now, steps := RunTask(task, clock, s, before, functors);
      hide Reached;
      if task.UserTask? {
        steps := RunUser(now, s, steps, Draining(functors[1..]));
      }
    }

    /** `doPendingFunctors`, from the last channel handled to the next poll. */
    method DoPendingFunctors(clock: int, ghost s: Loop, ghost before: seq<Step>)
      returns (last: int, ghost steps: seq<Step>)
      requires Reached(s, before, Dispatch([]), clock)
      modifies this, timerQueue
      ensures timerQueue.known >= old(timerQueue.known) && fresh(timerQueue.known - old(timerQueue.known))
      ensures Reached(s, steps, AtPoll, last) && last >= clock
    {
      var functors;
      functors, last, steps := TakePending(clock, s, before);
      hide Reached;
      ghost var all := FunctorsOf(functors);
      for i := 0 to |functors|
        invariant timerQueue.known >= old(timerQueue.known) && fresh(timerQueue.known - old(timerQueue.known))
        invariant BoundTo(functors, timerQueue.known) && last >= clock
        invariant Reached(s, steps, Draining(all[i..]), last)
      {
        assert all[i..][1..] == all[i + 1..];
        last, steps := RunOne(functors[i], last, s, steps, all[i..]);
      }
      assert all[|functors|..] == [];
      last, steps := FinishDrain(last, s, steps);
    }

    method FinishDrain(clock: int, ghost s: Loop, ghost before: seq<Step>)
      returns (last: int, ghost steps: seq<Step>)
      requires Reached(s, before, Draining([]), clock)
      ensures Reached(s, steps, AtPoll, last) && last >= clock
    {
      last := Now(clock);
      TickAndStep(s, before, last);
      steps := before + [Tick(last)] + [EndDrain];
      hide Inv, IsRun, After;
    }

    /** `TimerQueue::handleRead`, first half: the read of the timerfd and the split of the set. */
    method TakeExpired(clock: int, ghost s: Loop, ghost before: seq<Step>, ghost ready: seq<Channel>)
      returns (now: int, expired: seq<Item>, ghost steps: seq<Step>)
      requires Reached(s, before, Dispatch(ready), clock) && ready != [] && ready[0] == TimerChannel
      modifies timerQueue
      ensures timerQueue.known == old(timerQueue.known)
      ensures Reached(s, steps, Handling(EntriesOf(expired), [], now, ready[1..]), now) && now >= clock
      ensures forall x | x in expired :: x.timer in timerQueue.known
    {
      now, expired, steps := timerQueue.TakeExpired(clock, s, before, ready);
      hide IsRun, After, Inv;
      assert QueueOf(After(s, steps)) == QueueOf(After(s, before));
    }

    /** One timer callback, which may call back. */
    method RunCallback(timer: Timer, clock: int, ghost s: Loop, ghost before: seq<Step>, ghost place: Place)
      returns (last: int, ghost steps: seq<Step>)
      requires Reached(s, before, place, clock) && place.Handling?
      requires place.due != [] && place.due[0].address == timer.address
      modifies this`pendingFunctors, this`counter, timerQueue`known, timerQueue`addresses, timerQueue`callbacks
      ensures timerQueue.known >= old(timerQueue.known) && fresh(timerQueue.known - old(timerQueue.known))
      ensures timerQueue.callbacks == old(timerQueue.callbacks) + [Fire(timer.address, last)]
      ensures Reached(s, steps, PlaceAfter(place), last) && last >= clock
    {
      last, steps := timerQueue.RunCallback(timer, clock, s, before, place);
      hide IsRun, After, Inv;
      assert QueueOf(After(s, steps)) == QueueOf(After(s, before));
      hide Reached;
      steps := RunUser(last, s, steps, PlaceAfter(place));
    }

    /** `TimerQueue::handleRead`, last part. */
    method ResetTimers(expired: seq<Item>, clock: int, ghost s: Loop, ghost before: seq<Step>, ghost place: Place)
      returns (last: int, ghost steps: seq<Step>)
      requires Reached(s, before, place, clock)
      requires place.Handling? && place.due == [] && place.done == EntriesOf(expired)
      requires forall x | x in expired :: x.timer in timerQueue.known
      modifies timerQueue, timerQueue.known
      ensures timerQueue.known == old(timerQueue.known)
      ensures Reached(s, steps, Dispatch(place.ready), last) && last >= clock
    {
      last, steps := timerQueue.Reset(expired, clock, s, before, place);
      hide IsRun, After, Inv;
      assert QueueOf(After(s, steps)) == QueueOf(After(s, before));
    }

    /** The loop over the expired timers in `handleRead`. */
    method RunCallbacks(expired: seq<Item>, clock: int, ghost s: Loop, ghost before: seq<Step>, ghost place: Place)
      returns (last: int, ghost steps: seq<Step>)
      requires Reached(s, before, place, clock)
      requires place.Handling? && place.due == EntriesOf(expired) && place.done == []
      modifies this`pendingFunctors, this`counter, timerQueue`known, timerQueue`addresses, timerQueue`callbacks
      ensures timerQueue.known >= old(timerQueue.known) && fresh(timerQueue.known - old(timerQueue.known))
      ensures Reached(s, steps, place.(due := [], done := EntriesOf(expired)), last) && last >= clock
    {
      last, steps := clock, before;
      hide Reached;
      ghost var all := EntriesOf(expired);
      assert all[0..] == all && all[..0] == [];
      for i := 0 to |expired|
        invariant timerQueue.known >= old(timerQueue.known) && fresh(timerQueue.known - old(timerQueue.known))
        invariant last >= clock && Reached(s, steps, place.(due := all[i..], done := all[..i]), last)
      {
        assert all[..i] + [all[i..][0]] == all[..i + 1] && all[i..][1..] == all[i + 1..];
        last, steps := RunCallback(expired[i].timer, last, s, steps, place.(due := all[i..], done := all[..i]));
      }
      assert all[..|expired|] == all && all[|expired|..] == [];
    }

    /**
      `TimerQueue::handleRead`: the split of the set, the callbacks of all expired timers, whatever
      they ask of the loop, and the restarts.
     */
    method HandleTimers(clock: int, ghost s: Loop, ghost before: seq<Step>, ghost ready: seq<Channel>)
      returns (last: int, ghost steps: seq<Step>)
      requires Reached(s, before, Dispatch(ready), clock) && ready != [] && ready[0] == TimerChannel
      modifies this, timerQueue, timerQueue.known
      ensures timerQueue.known >= old(timerQueue.known) && fresh(timerQueue.known - old(timerQueue.known))
      ensures Reached(s, steps, Dispatch(ready[1..]), last) && last >= clock
    {
      var now, expired;
      now, expired, steps := TakeExpired(clock, s, before, ready);
      hide Reached;
      ghost var all := EntriesOf(expired);
      last, steps := RunCallbacks(expired, now, s, steps, Handling(all, [], now, ready[1..]));
      last, steps := ResetTimers(expired, last, s, steps, Handling([], all, now, ready[1..]));
    }

    /** `handleEvent` of one channel; one of the user's may ask anything of the loop. */
    method HandleEvent(c: Channel, clock: int, ghost s: Loop, ghost before: seq<Step>, ghost ready: seq<Channel>)
      returns (last: int, ghost steps: seq<Step>)
      requires Reached(s, before, Dispatch(ready), clock) && ready != [] && ready[0] == c
      modifies this, timerQueue, timerQueue.known
      ensures timerQueue.known >= old(timerQueue.known) && fresh(timerQueue.known - old(timerQueue.known))
      ensures Reached(s, steps, Dispatch(ready[1..]), last) && last >= clock
      ensures c == WakeChannel ==> counter == 0
    {
      if c == TimerChannel {
        last, steps := HandleTimers(clock, s, before, ready);
      } else {
        HandleOther(s, before);
        last, steps := clock, before + [Handle];
        hide IsRun, After, Inv;
        if c == WakeChannel {
          counter := 0;
        } else {
          steps := RunUser(clock, s, steps, Dispatch(ready[1..]));
        }
      }
    }

    /** One turn of `loop`, from the poll that reports `ready` to the next poll. */
    method Turn(ready: seq<Channel>, clock: int, ghost s: Loop, ghost before: seq<Step>)
      returns (last: int, ghost steps: seq<Step>)
      requires Reached(s, before, AtPoll, clock) && Enabled(After(s, before), Poll(ready))
      modifies this, timerQueue, timerQueue.known
      ensures timerQueue.known >= old(timerQueue.known) && fresh(timerQueue.known - old(timerQueue.known))
      ensures Reached(s, steps, AtPoll, last) && last >= clock
    {
      PollReturns(s, before, ready);
      last, steps := clock, before + [Poll(ready)];
      assert ready[0..] == ready;
      hide IsRun, After, Inv;
      assert Reached(s, steps, Dispatch(ready[0..]), last);
      hide Reached;
      for i := 0 to |ready|
        invariant timerQueue.known >= old(timerQueue.known) && fresh(timerQueue.known - old(timerQueue.known))
        invariant last >= clock && Reached(s, steps, Dispatch(ready[i..]), last)
      {
        assert ready[i..][1..] == ready[i + 1..];
        last, steps := HandleEvent(ready[i], last, s, steps, ready[i..]);
      }
      assert ready[|ready|..] == [];
      last, steps := DoPendingFunctors(last, s, steps);
    }
  }

  lemma PollReturns(s: Loop, before: seq<Step>, ready: seq<Channel>)
    requires IsRun(s, before) && Inv(After(s, before)) && Enabled(After(s, before), Poll(ready))
    ensures IsRun(s, before + [Poll(ready)])
    ensures After(s, before + [Poll(ready)]) == After(s, before).(place := Dispatch(ready))
    ensures Inv(After(s, before + [Poll(ready)]))
  {
    StepKeepsInv(After(s, before), Poll(ready));
    RunExtends(s, before, Poll(ready));
  }

  lemma HandleOther(s: Loop, before: seq<Step>)
    requires IsRun(s, before) && Inv(After(s, before))
    requires var p := After(s, before).place; p.Dispatch? && p.ready != [] && p.ready[0] != TimerChannel
    ensures IsRun(s, before + [Handle]) && Inv(After(s, before + [Handle]))
    ensures var t := After(s, before);
            After(s, before + [Handle])
              == t.(place := Dispatch(t.place.ready[1..]),
                    counter := if t.place.ready[0] == WakeChannel then 0 else t.counter,
                    cleared := if t.place.ready[0] == WakeChannel then |t.queued| else t.cleared)
  {
    StepKeepsInv(After(s, before), Handle);
    RunExtends(s, before, Handle);
  }

  lemma RunFunctorRest(s: Loop)
    requires Enabled(s, RunFunctor)
    ensures var n := Next(s, RunFunctor);
            n.place == Draining(s.place.functors[1..]) && n.pending == s.pending && n.counter == s.counter
            && n.ran == s.ran + [s.place.functors[0]]
    ensures s.place.functors[0].User? ==>
              var n := Next(s, RunFunctor);
              n.timers == s.timers && n.entries == s.entries && n.deadline == s.deadline && n.armedAt == s.armedAt
              && n.log == s.log
  {
  }
}
