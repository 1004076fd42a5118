/**
  The event loop with its timers: src/net/EventLoop.cc and src/net/TimerQueue.cc as one state
  machine, with the kernel's timerfd and eventfd and the clock.

  The loop is one thread, but its callbacks may queue functors and add timers at any moment, and
  the clock moves whenever it likes. A step is one callback, one action in a callback, or one
  piece of the loop between two of them.
 */
module LoopProtocol {
  import opened Common
  import opened Timer
  import opened TimerList

  /** At this value an eventfd takes no more. */
  const MAX_COUNTER := 0xffff_ffff_ffff_fffe

  type Id = nat

  /** What `queueInLoop` may be given: a function of the user, or `addTimerInLoop` of a timer. */
  datatype Functor = User(n: nat) | Add(id: Id)

  datatype TimerInfo = TimerInfo(first: int, interval: int, expiration: int)

  datatype Channel = WakeChannel | TimerChannel | OtherChannel(fd: nat)

  /** Where the loop stands; `due` and `done` are the expired timers before and after their callback. */
  datatype Place =
    | Setup
    | AtPoll
    | Dispatch(ready: seq<Channel>)
    | Handling(due: seq<Entry>, done: seq<Entry>, now: int, ready: seq<Channel>)
    | Draining(functors: seq<Functor>)

  /** A callback of timer `id` at time `time`. */
  datatype Fire = Fire(id: Id, time: int)

  /**
    `timers` are the timer objects by address, `entries` the set `timers_`, `deadline` the time the
    timerfd is armed for, `armedAt` when that was done, and `counter` the eventfd. The rest records
    what happened: how many functors had been queued when the eventfd was last read, timers that are
    finished, functors queued and run, timer callbacks.
   */
  datatype Loop = Loop(clock: int, place: Place,
                       timers: map<Id, TimerInfo>, entries: seq<Entry>, deadline: Option<int>, armedAt: int,
                       pending: seq<Functor>, counter: nat, cleared: nat,
                       retired: set<Id>, queued: seq<Functor>, ran: seq<Functor>, log: seq<Fire>)

  datatype Step =
    | Queue(n: nat)
    | AddTimer(id: Id, when: int, interval: int)
    | Tick(clock: int)
    | Start
    | Poll(ready: seq<Channel>)
    | Handle
    | RunTimer
    | Restart
    | Rearm
    | Swap
    | RunFunctor
    | EndDrain

  function Init(clock: int): Loop
  {
    Loop(clock, Setup, map[], [], None, clock, [], 0, 0, {}, [], [], [])
  }

  predicate IsReady(s: Loop, c: Channel)
  {
    match c
    case WakeChannel => s.counter > 0
    case TimerChannel => s.deadline.Some? && s.deadline.value <= s.clock
    case OtherChannel(_) => true
  }

  predicate Distinct(ready: seq<Channel>)
  {
    forall i, j | 0 <= i < j < |ready| :: ready[i] != ready[j]
  }

  predicate Enabled(s: Loop, step: Step)
  {
    match step
    case Queue(_) => !s.place.AtPoll?
    case AddTimer(id, when, interval) =>
      !s.place.AtPoll? && id !in s.timers && id < MAX_ADDRESS && interval <= 2147
    case Tick(clock) => s.clock <= clock
    case Start => s.place.Setup?
    case Poll(ready) => s.place.AtPoll? && ready != [] && Distinct(ready) && forall c | c in ready :: IsReady(s, c)
    case Handle => s.place.Dispatch? && s.place.ready != []
    case RunTimer => s.place.Handling? && s.place.due != []
    case Restart => s.place.Handling? && s.place.due == [] && s.place.done != [] && s.place.done[0].address in s.timers
    case Rearm => s.place.Handling? && s.place.due == [] && s.place.done == [] && (s.entries != [] ==> s.entries[0].address in s.timers)
    case Swap => s.place.Dispatch? && s.place.ready == []
    case RunFunctor =>
      s.place.Draining? && s.place.functors != []
      && (s.place.functors[0].Add? ==> s.place.functors[0].id in s.timers)
    case EndDrain => s.place.Draining? && s.place.functors == []
  }

  /** `queueInLoop`: the write to the eventfd fails when it is full. */
  function QueueInLoop(s: Loop, f: Functor): Loop
  {
    s.(pending := s.pending + [f], queued := s.queued + [f],
       counter := if s.counter < MAX_COUNTER then s.counter + 1 else s.counter)
  }

  /** `resetTimerfd`, with the clock read once. */
  function Arm(s: Loop, when: int): Loop
  {
    s.(deadline := Some(s.clock + Micros(HowMuchTimeFromNow(when, s.clock))), armedAt := s.clock)
  }

  function AddTimerInLoop(s: Loop, id: Id): Loop
    requires id in s.timers
  {
    var when := s.timers[id].expiration;
    var t := s.(entries := Insert(s.entries, Entry(when, id)));
    if s.entries == [] || when < s.entries[0].when then Arm(t, when) else t
  }

  /** One timer of the loop in `reset`. */
  function RestartTimer(s: Loop, id: Id): Loop
    requires id in s.timers
  {
    if 0 < s.timers[id].interval <= 2147 then
      var when := AddTime(s.clock, s.timers[id].interval);
      s.(timers := s.timers[id := s.timers[id].(expiration := when)], entries := Insert(s.entries, Entry(when, id)))
    else
      s.(retired := s.retired + {id})
  }

  function HandleChannel(s: Loop, c: Channel, rest: seq<Channel>): Loop
  {
    match c
    case WakeChannel => s.(counter := 0, cleared := |s.queued|, place := Dispatch(rest))
    case OtherChannel(_) => s.(place := Dispatch(rest))
    case TimerChannel =>
      var k := ExpiredCount(s.entries, s.clock);
      s.(deadline := if s.deadline.Some? && s.deadline.value <= s.clock then None else s.deadline,
         entries := s.entries[k..],
         place := Handling(s.entries[..k], [], s.clock, rest))
  }

  function Next(s: Loop, step: Step): Loop
    requires Enabled(s, step)
  {
    match step
    case Queue(n) => QueueInLoop(s, User(n))
    case AddTimer(id, when, interval) =>
      QueueInLoop(s.(timers := s.timers[id := TimerInfo(when, interval, when)]), Add(id))
    case Tick(clock) => s.(clock := clock)
    case Start => s.(place := AtPoll)
    case Poll(ready) => s.(place := Dispatch(ready))
    case Handle => HandleChannel(s, s.place.ready[0], s.place.ready[1..])
    case RunTimer =>
      s.(place := s.place.(due := s.place.due[1..], done := s.place.done + [s.place.due[0]]),
         log := s.log + [Fire(s.place.due[0].address, s.clock)])
    case Restart =>
      RestartTimer(s.(place := s.place.(done := s.place.done[1..])), s.place.done[0].address)
    case Rearm =>
      var t := s.(place := Dispatch(s.place.ready));
      if s.entries != [] && IsValid(s.timers[s.entries[0].address].expiration)
      then Arm(t, s.timers[s.entries[0].address].expiration) else t
    case Swap => s.(place := Draining(s.pending), pending := [])
    case RunFunctor =>
      var f := s.place.functors[0];
      var t := s.(place := Draining(s.place.functors[1..]), ran := s.ran + [f]);
      if f.Add? then AddTimerInLoop(t, f.id) else t
    case EndDrain => s.(place := AtPoll)
  }

  predicate IsRun(s: Loop, steps: seq<Step>)
    decreases |steps|
  {
    steps == [] || (Enabled(s, steps[0]) && IsRun(Next(s, steps[0]), steps[1..]))
  }

  function After(s: Loop, steps: seq<Step>): Loop
    requires IsRun(s, steps)
    decreases |steps|
  {
    if steps == [] then s else After(Next(s, steps[0]), steps[1..])
  }

  lemma OneStep(s: Loop, step: Step)
    requires Enabled(s, step)
    ensures IsRun(s, [step]) && After(s, [step]) == Next(s, step)
  {
    hide Next, Enabled;
    assert [step][1..] == [];
    assert After(Next(s, step), []) == Next(s, step);
  }

  lemma {:induction false} RunsJoin(s: Loop, first: seq<Step>, second: seq<Step>)
    requires IsRun(s, first) && IsRun(After(s, first), second)
    ensures IsRun(s, first + second) && After(s, first + second) == After(After(s, first), second)
    decreases |first|
  {
    hide Next, Enabled;
    if first == [] {
      assert first + second == second;
    } else {
      assert (first + second)[1..] == first[1..] + second;
      RunsJoin(Next(s, first[0]), first[1..], second);
    }
  }

  /** A run and one more step. */
  lemma RunExtends(s: Loop, steps: seq<Step>, step: Step)
    requires IsRun(s, steps) && Enabled(After(s, steps), step)
    ensures IsRun(s, steps + [step]) && After(s, steps + [step]) == Next(After(s, steps), step)
  {
    hide Next, Enabled;
    OneStep(After(s, steps), step);
    RunsJoin(s, steps, [step]);
  }
}
