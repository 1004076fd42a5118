/**
  The timer queue object: src/net/TimerQueue.cc, with its timers as objects that `restart` changes
  in place, and the timerfd it arms. Each method does to the object what the steps of
  `LoopProtocol` do to the state it shows.
 */
module TimerQueue {
  import opened Common
  import opened Timer
  import opened TimerList
  import opened LoopProtocol
  import opened LoopSafety
  import opened LoopTheorems

  datatype Item = Item(when: int, timer: Timer)

  function EntryOf(x: Item): Entry
  {
    Entry(x.when, x.timer.address)
  }

  function EntriesOf(items: seq<Item>): (entries: seq<Entry>)
    ensures |entries| == |items|
    ensures forall i | 0 <= i < |items| :: entries[i] == EntryOf(items[i])
  {
    seq(|items|, i requires 0 <= i < |items| => EntryOf(items[i]))
  }

  /** The functors of the loop, with which the timer queue has nothing to do while it handles its channel. */
  function QueueOf(s: Loop): (seq<Functor>, nat, seq<Functor>)
  {
    (s.pending, s.counter, s.ran)
  }

  /** A reading of the clock and a step of the loop, added to a run. */
  lemma TickAndStep(s: Loop, steps: seq<Step>, clock: int)
    requires IsRun(s, steps) && Inv(After(s, steps)) && !After(s, steps).place.AtPoll?
    requires clock >= After(s, steps).clock
    ensures var t := After(s, steps);
            var u := Next(t, Tick(clock));
            && Inv(u) && u == t.(clock := clock) && Enabled(u, OwnStep(t))
            && IsRun(s, steps + [Tick(clock)] + [OwnStep(t)])
            && After(s, steps + [Tick(clock)] + [OwnStep(t)]) == Next(u, OwnStep(t))
            && Inv(Next(u, OwnStep(t))) && Next(u, OwnStep(t)).clock == clock
            && (t.place.Handling? ==>
                  Next(u, OwnStep(t)).place == PlaceAfter(t.place) && QueueOf(Next(u, OwnStep(t))) == QueueOf(t))
  {
    var t := After(s, steps);
    var u := Next(t, Tick(clock));
    StepKeepsInv(t, Tick(clock));
    NothingBlocks(u);
    StepKeepsInv(u, OwnStep(u));
    OwnStepPlace(u);
    hide Inv;
    assert OwnStep(u) == OwnStep(t);
    hide OwnStep;
    RunExtends(s, steps, Tick(clock));
    RunExtends(s, steps + [Tick(clock)], OwnStep(t));
  }

  /** A reading of the clock, and the timerfd is handled. */
  lemma TickAndHandle(s: Loop, steps: seq<Step>, clock: int)
    requires IsRun(s, steps) && Inv(After(s, steps))
    requires var p := After(s, steps).place; p.Dispatch? && p.ready != [] && p.ready[0] == TimerChannel
    requires clock >= After(s, steps).clock
    ensures var t := After(s, steps);
            var u := Next(t, Tick(clock));
            var k := ExpiredCount(t.entries, clock);
            && IsRun(s, steps + [Tick(clock)] + [Handle])
            && var n := After(s, steps + [Tick(clock)] + [Handle]);
               Inv(n) && n == t.(clock := clock, deadline := None, entries := t.entries[k..],
                                 place := Handling(t.entries[..k], [], clock, t.place.ready[1..]))
  {
    var t := After(s, steps);
    var u := Next(t, Tick(clock));
    StepKeepsInv(t, Tick(clock));
    StepKeepsInv(u, Handle);
    assert u.deadline.Some? && u.deadline.value <= clock;
    RunExtends(s, steps, Tick(clock));
    RunExtends(s, steps + [Tick(clock)], Handle);
  }

  lemma OwnStepPlace(s: Loop)
    requires !s.place.AtPoll? && Enabled(s, OwnStep(s))
    ensures Next(s, OwnStep(s)).clock == s.clock
    ensures s.place.Handling? ==>
              Next(s, OwnStep(s)).place == PlaceAfter(s.place) && QueueOf(Next(s, OwnStep(s))) == QueueOf(s)
  {
    hide TimerList.Insert, Micros, HowMuchTimeFromNow;
  }

  /** Where a step of the loop in `handleRead` leads. */
  function PlaceAfter(p: Place): Place
    requires p.Handling?
  {
    if p.due != [] then p.(due := p.due[1..], done := p.done + [p.due[0]])
    else if p.done != [] then p.(done := p.done[1..])
    else Dispatch(p.ready)
  }

  class TimerQueue {
    var timers: seq<Item>
    var deadline: Option<int>
    var armedAt: int
    var callbacks: seq<Fire>
    var addresses: set<nat>
    ghost var known: set<Timer>

    /** The timer objects, by address, are those of the state. */
    ghost predicate Matches(s: Loop, t: Timer)
      reads t
    {
      && t.address in s.timers
      && t.expiration == s.timers[t.address].expiration
      && t.interval == s.timers[t.address].interval
      && t.repeat == (t.interval > 0)
    }

    ghost predicate Shows(s: Loop)
      reads this, known
    {
      && EntriesOf(timers) == s.entries && deadline == s.deadline && armedAt == s.armedAt
      && callbacks == s.log && addresses == s.timers.Keys
      && (forall t | t in known :: Matches(s, t))
      && (forall t, u | t in known && u in known && t.address == u.address :: t == u)
      && (forall x | x in timers :: x.timer in known)
    }

    constructor (clock: int)
      ensures Shows(LoopProtocol.Init(clock)) && known == {}
    {
      timers, deadline, armedAt, callbacks, addresses, known := [], None, clock, [], {}, {};
    }

    method ResetTimerfd(when: int, clock: int)
      modifies this`deadline, this`armedAt
      ensures deadline == Some(clock + Micros(HowMuchTimeFromNow(when, clock))) && armedAt == clock
    {
      deadline := Some(clock + Micros(HowMuchTimeFromNow(when, clock)));
      armedAt := clock;
    }

    method Insert(timer: Timer) returns (earliestChanged: bool)
      modifies this`timers
      ensures EntriesOf(timers) == TimerList.Insert(old(EntriesOf(timers)), Entry(timer.expiration, timer.address))
      ensures earliestChanged == (old(timers) == [] || timer.expiration < old(timers[0].when))
      ensures forall x | x in timers :: x in old(timers) || x == Item(timer.expiration, timer)
    {
      var item := Item(timer.expiration, timer);
      earliestChanged := timers == [] || timer.expiration < timers[0].when;
      var k := LowerBound(EntriesOf(timers), EntryOf(item));
      if k == |timers| || EntryOf(timers[k]) != EntryOf(item) {
        timers := timers[..k] + [item] + timers[k..];
      }
    }

    /** Splits the set at `now`. */
    method GetExpired(now: int) returns (expired: seq<Item>)
      modifies this`timers
      ensures forall x | x in expired || x in timers :: x in old(timers)
      ensures EntriesOf(expired) == old(EntriesOf(timers))[..ExpiredCount(old(EntriesOf(timers)), now)]
      ensures EntriesOf(timers) == old(EntriesOf(timers))[ExpiredCount(old(EntriesOf(timers)), now)..]
    {
      var k := ExpiredCount(EntriesOf(timers), now);
      expired := timers[..k];
      timers := timers[k..];
    }

    /** The first half of `addTimer`, which makes the timer; `queueInLoop` gets it into the loop. */
    method NewTimer(address: nat, when: int, interval: int, ghost s: Loop) returns (timer: Timer)
      requires Shows(s) && Enabled(s, AddTimer(address, when, interval))
      modifies this`known, this`addresses
      ensures fresh(timer) && timer.address == address && known == old(known) + {timer}
      ensures Shows(Next(s, AddTimer(address, when, interval)))
    {
      timer := new Timer(address, when, interval);
      addresses := addresses + {address};
      known := known + {timer};
    }

    /** `addTimerInLoop`, run as a functor of the loop. */
    method AddTimerInLoop(timer: Timer, clock: int, ghost s: Loop)
      requires Shows(s) && timer in known && clock == s.clock
      requires Enabled(s, RunFunctor) && s.place.functors[0] == Add(timer.address)
      modifies this`timers, this`deadline, this`armedAt
      ensures Shows(Next(s, RunFunctor))
    {
      var earliestChanged := Insert(timer);
      if earliestChanged {
        ResetTimerfd(timer.expiration, clock);
      }
    }

    /** One round of the loop in `reset`. */
    method RestartOne(timer: Timer, clock: int, ghost s: Loop)
      requires Inv(s) && Shows(s) && timer in known && clock == s.clock
      requires Enabled(s, Restart) && s.place.done[0].address == timer.address
      modifies this`timers, timer
      ensures Shows(Next(s, Restart))
    {
      if timer.repeat {
        timer.Restart(clock);
        var _ := Insert(timer);
      }
    }

    /** The end of `reset`: the timerfd is armed for the head. */
    method Rearm(clock: int, ghost s: Loop)
      requires Shows(s) && clock == s.clock && Enabled(s, LoopProtocol.Rearm)
      modifies this`deadline, this`armedAt
      ensures Shows(Next(s, LoopProtocol.Rearm))
    {
      if timers != [] {
        assert timers[0] in timers && Matches(s, timers[0].timer);
        var nextExpiration := timers[0].timer.expiration;
        if IsValid(nextExpiration) {
          ResetTimerfd(nextExpiration, clock);
        }
      }
    }

    /** The state `s` has come by `steps` to one that this object shows and where `reset` stands at `place`. */
    ghost predicate Reached(s: Loop, steps: seq<Step>, place: Place, clock: int)
      reads this, known
    {
      && IsRun(s, steps) && Inv(After(s, steps)) && Shows(After(s, steps))
      && After(s, steps).place == place && After(s, steps).clock == clock
    }

    /** The loop's functors are after `more` what they were after `steps`. */
    ghost predicate SameQueue(s: Loop, steps: seq<Step>, more: seq<Step>)
    {
      IsRun(s, steps) && IsRun(s, more) && QueueOf(After(s, more)) == QueueOf(After(s, steps))
    }

    /** One round with its reading of the clock. */
    method ResetRound(timer: Timer, clock: int, ghost s: Loop, ghost steps: seq<Step>, ghost place: Place)
      returns (last: int, ghost more: seq<Step>)
      requires Reached(s, steps, place, clock) && timer in known
      requires place.Handling? && place.due == [] && place.done != [] && place.done[0].address == timer.address
      modifies this`timers, timer
      ensures Reached(s, more, PlaceAfter(place), last) && SameQueue(s, steps, more) && last >= clock
    {
      last := Now(clock);
      TickAndStep(s, steps, last);
      more := steps + [Tick(last)] + [Restart];
      hide Inv, IsRun, After;
      RestartOne(timer, last, Next(After(s, steps), Tick(last)));
    }

    /** `reset`: `clock` is the time at the call, and `steps` what happens to the state. */
    method Reset(expired: seq<Item>, clock: int, ghost s: Loop, ghost before: seq<Step>, ghost place: Place)
      returns (last: int, ghost steps: seq<Step>)
      requires Reached(s, before, place, clock)
      requires place.Handling? && place.due == [] && place.done == EntriesOf(expired)
      requires forall x | x in expired :: x.timer in known
      modifies this, known
      ensures known == old(known) && Reached(s, steps, Dispatch(place.ready), last) && SameQueue(s, before, steps)
      ensures last >= clock
    {
      steps := before;
      last := clock;
      assert SameQueue(s, before, before);
      hide Reached, IsRun, After;
      assert EntriesOf(expired)[|expired|..] == [];
      for i := 0 to |expired|
        invariant known == old(known)
        invariant last >= clock && SameQueue(s, before, steps)
        invariant Reached(s, steps, place.(done := EntriesOf(expired)[i..]), last)
      {
        assert expired[i] in expired;
        last, steps := ResetRound(expired[i].timer, last, s, steps, place.(done := EntriesOf(expired)[i..]));
      }
      last, steps := FinishReset(last, s, steps, place.(done := []));
    }

    method FinishReset(clock: int, ghost s: Loop, ghost steps: seq<Step>, ghost place: Place)
      returns (last: int, ghost more: seq<Step>)
      requires Reached(s, steps, place, clock) && place.Handling? && place.due == [] && place.done == []
      modifies this`deadline, this`armedAt
      ensures Reached(s, more, Dispatch(place.ready), last) && SameQueue(s, steps, more) && last >= clock
    {
      last := Now(clock);
      TickAndStep(s, steps, last);
      more := steps + [Tick(last)] + [LoopProtocol.Rearm];
      hide Inv, IsRun, After;
      Rearm(last, Next(After(s, steps), Tick(last)));
    }

    /** `readTimerfd`: a timer that has expired is disarmed by the read. */
    method ReadTimerfd(clock: int)
      modifies this`deadline
      ensures deadline == if old(deadline.Some? && deadline.value <= clock) then None else old(deadline)
    {
      if deadline.Some? && deadline.value <= clock {
        deadline := None;
      }
    }

    /** The first half of `handleRead`: the read and the split of the set. */
    method TakeExpired(clock: int, ghost s: Loop, ghost before: seq<Step>, ghost ready: seq<Channel>)
      returns (now: int, expired: seq<Item>, ghost steps: seq<Step>)
      requires Reached(s, before, Dispatch(ready), clock) && ready != [] && ready[0] == TimerChannel
      modifies this`timers, this`deadline
      ensures Reached(s, steps, Handling(EntriesOf(expired), [], now, ready[1..]), now) && SameQueue(s, before, steps)
      ensures now >= clock
      ensures forall x | x in expired :: x.timer in known
    {
      now := Now(clock);
      TickAndHandle(s, before, now);
      steps := before + [Tick(now)] + [Handle];
      assert deadline.Some? && deadline.value <= now;
      hide Inv, IsRun, After, ExpiredCount, Next;
      ReadTimerfd(now);
      expired := GetExpired(now);
    }

    /** The call of one callback; what it does to the loop is up to the loop. */
    method RunCallback(timer: Timer, clock: int, ghost s: Loop, ghost steps: seq<Step>, ghost place: Place)
      returns (last: int, ghost more: seq<Step>)
      requires Reached(s, steps, place, clock) && place.Handling?
      requires place.due != [] && place.due[0].address == timer.address
      modifies this`callbacks
      ensures callbacks == old(callbacks) + [Fire(timer.address, last)]
      ensures Reached(s, more, PlaceAfter(place), last) && SameQueue(s, steps, more) && last >= clock
    {
      last := Now(clock);
      TickAndStep(s, steps, last);
      more := steps + [Tick(last)] + [RunTimer];
      hide Inv, IsRun, After;
      callbacks := callbacks + [Fire(timer.address, last)];
    }
  }

  /** `Timestamp::now()`: some time not before the last reading. */
  method Now(last: int) returns (now: int)
    ensures now >= last
  {
    now :| now >= last;
  }
}
