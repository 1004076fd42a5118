/**
  What every step of the event loop keeps: no functor is lost or left without a wakeup, every
  timer is in exactly one place, the timerfd is armed for the head of the timer set, and no
  callback comes early.
 */
module LoopSafety {
  import opened Common
  import opened Timer
  import opened TimerList
  import opened LoopProtocol

  function Drained(s: Loop): seq<Functor>
  {
    if s.place.Draining? then s.place.functors else []
  }

  function Due(s: Loop): seq<Entry>
  {
    if s.place.Handling? then s.place.due else []
  }

  function Done(s: Loop): seq<Entry>
  {
    if s.place.Handling? then s.place.done else []
  }

  // ---------------------------------------------------------------------------------------
  // Functors and the eventfd.

  function Min(a: int, b: int): int
  {
    if a < b then a else b
  }

  /** Functors run once each in the order they were queued, and the poll never sleeps over one. */
  ghost predicate FunctorsKept(s: Loop)
  {
    && s.queued == s.ran + Drained(s) + s.pending
    && s.cleared <= |s.queued| && s.counter == Min(|s.queued| - s.cleared, MAX_COUNTER)
    && (s.place.Setup? || s.place.AtPoll? || s.place.Draining? ==> s.pending != [] ==> s.counter > 0)
  }

  lemma StepKeepsFunctors(s: Loop, step: Step)
    requires FunctorsKept(s) && Enabled(s, step)
    ensures FunctorsKept(Next(s, step))
  {
    hide Insert, LowerBound, HowMuchTimeFromNow, Micros, ExpiredCount;
    match step {
      case Queue(n) => assert s.ran + Drained(s) + (s.pending + [User(n)]) == (s.ran + Drained(s) + s.pending) + [User(n)];
      case AddTimer(id, _, _) => assert s.ran + Drained(s) + (s.pending + [Add(id)]) == (s.ran + Drained(s) + s.pending) + [Add(id)];
      case Handle =>
      case RunFunctor =>
        var f, rest := s.place.functors[0], s.place.functors[1..];
        assert (s.ran + [f]) + rest + s.pending == s.ran + s.place.functors + s.pending;
      case _ =>
    }
  }

  // ---------------------------------------------------------------------------------------
  // Where the timers are.

  /** How often a timer is about to be added. */
  function AddCount(functors: seq<Functor>, id: Id): nat
    decreases |functors|
  {
    if functors == [] then 0 else (if functors[0] == Add(id) then 1 else 0) + AddCount(functors[1..], id)
  }

  lemma {:induction false} AddCountOneMore(functors: seq<Functor>, f: Functor, id: Id)
    ensures AddCount(functors + [f], id) == AddCount(functors, id) + if f == Add(id) then 1 else 0
    decreases |functors|
  {
    if functors == [] {
      assert functors + [f] == [f];
      assert [f][1..] == [];
    } else {
      assert (functors + [f])[1..] == functors[1..] + [f];
      AddCountOneMore(functors[1..], f, id);
    }
  }

  /** In how many places timer `id` is: the set, the two halves of the expired ones, the functors. */
  function Places(s: Loop, id: Id): nat
  {
    Count(s.entries, id) + Count(Due(s), id) + Count(Done(s), id) + AddCount(Drained(s), id) + AddCount(s.pending, id)
  }

  predicate Live(s: Loop, id: Id)
  {
    id in s.timers && id !in s.retired
  }

  ghost predicate PlacedOnce(s: Loop, id: Id)
  {
    && Places(s, id) == (if Live(s, id) then 1 else 0)
    && (id in s.retired ==> id in s.timers)
  }

  /** Every timer that is not finished is in exactly one place, and nothing else is in any. */
  ghost predicate AllPlaced(s: Loop)
  {
    forall id :: PlacedOnce(s, id)
  }

  /** A timer in one of the other places is not in the set yet. */
  lemma NotThereYet(s: Loop, id: Id, when: int)
    requires PlacedOnce(s, id)
    requires Count(Due(s), id) + Count(Done(s), id) + AddCount(Drained(s), id) > 0
    ensures Entry(when, id) !in s.entries
  {
    if Entry(when, id) in s.entries {
      CountPositive(s.entries, Entry(when, id));
    }
  }

  lemma HandlePlaces(s: Loop, id: Id)
    requires PlacedOnce(s, id) && Enabled(s, Handle)
    ensures PlacedOnce(Next(s, Handle), id)
  {
    CountSplit(s.entries, ExpiredCount(s.entries, s.clock), id);
    assert Count([], id) == 0;
    hide AddCount, Count, ExpiredCount;
  }

  lemma RunTimerPlaces(s: Loop, id: Id)
    requires PlacedOnce(s, id) && Enabled(s, RunTimer)
    ensures PlacedOnce(Next(s, RunTimer), id)
  {
    var e := s.place.due[0];
    assert Count(s.place.due, id) == (if e.address == id then 1 else 0) + Count(s.place.due[1..], id);
    CountJoin(s.place.done, [e], id);
    CountOne(e, id);
    hide AddCount, Count;
  }

  lemma RestartPlaces(s: Loop, id: Id)
    requires Enabled(s, Restart) && PlacedOnce(s, id) && PlacedOnce(s, s.place.done[0].address)
    ensures PlacedOnce(Next(s, Restart), id)
  {
    var e, rest := s.place.done[0], s.place.done[1..];
    assert Count(s.place.done, id) == (if e.address == id then 1 else 0) + Count(rest, id);
    assert Count(s.place.done, e.address) == 1 + Count(rest, e.address);
    assert Count([], id) == 0;
    hide AddCount, Count;
    if 0 < s.timers[e.address].interval <= 2147 {
      var when := AddTime(s.clock, s.timers[e.address].interval);
      NotThereYet(s, e.address, when);
      InsertAdds(s.entries, Entry(when, e.address), id);
      hide Insert;
    }
  }

  lemma RunFunctorPlaces(s: Loop, id: Id)
    requires PlacedOnce(s, id) && Enabled(s, RunFunctor)
    requires s.place.functors[0].Add? ==> PlacedOnce(s, s.place.functors[0].id)
    ensures PlacedOnce(Next(s, RunFunctor), id)
  {
    var f, rest := s.place.functors[0], s.place.functors[1..];
    assert AddCount(s.place.functors, id) == (if f == Add(id) then 1 else 0) + AddCount(rest, id);
    assert f.Add? ==> AddCount(s.place.functors, f.id) == 1 + AddCount(rest, f.id);
    assert Count([], id) == 0;
    hide AddCount, Count, Micros, HowMuchTimeFromNow;
    if f.Add? {
      var when := s.timers[f.id].expiration;
      NotThereYet(s, f.id, when);
      InsertAdds(s.entries, Entry(when, f.id), id);
      hide Insert;
    }
  }

  lemma StepKeepsPlace(s: Loop, step: Step, id: Id)
    requires PlacedOnce(s, id) && Enabled(s, step)
    requires step.Restart? ==> PlacedOnce(s, s.place.done[0].address)
    requires step.RunFunctor? && s.place.functors[0].Add? ==> PlacedOnce(s, s.place.functors[0].id)
    requires step.AddTimer? ==> PlacedOnce(s, step.id)
    ensures PlacedOnce(Next(s, step), id)
  {
    assert Count([], id) == 0 && AddCount([], id) == 0;
    match step {
      case AddTimer(created, _, _) =>
        AddCountOneMore(s.pending, Add(created), id);
        hide AddCount, Count;
      case Queue(n) =>
        AddCountOneMore(s.pending, User(n), id);
        hide AddCount, Count;
      case Handle => HandlePlaces(s, id);
      case RunTimer => RunTimerPlaces(s, id);
      case Restart => RestartPlaces(s, id);
      case RunFunctor => RunFunctorPlaces(s, id);
      case _ =>
        hide AddCount, Count, Micros, HowMuchTimeFromNow;
    }
  }

  lemma StepKeepsPlaces(s: Loop, step: Step)
    requires AllPlaced(s) && Enabled(s, step)
    ensures AllPlaced(Next(s, step))
  {
    forall id
      ensures PlacedOnce(Next(s, step), id)
    {
      assert PlacedOnce(s, id);
      assert step.Restart? ==> PlacedOnce(s, s.place.done[0].address);
      assert step.RunFunctor? && s.place.functors[0].Add? ==> PlacedOnce(s, s.place.functors[0].id);
      assert step.AddTimer? ==> PlacedOnce(s, step.id);
      hide PlacedOnce, Next;
      StepKeepsPlace(s, step, id);
    }
  }

  // ---------------------------------------------------------------------------------------
  // Keys: the entries of the set and of the expired ones carry their timer's expiration.

  predicate Holds(s: Loop, e: Entry)
  {
    e in s.entries || e in Due(s) || e in Done(s)
  }

  predicate KeyRight(s: Loop, e: Entry)
  {
    e.address in s.timers && s.timers[e.address].expiration == e.when && e.address < MAX_ADDRESS
  }

  ghost predicate KeysAgree(s: Loop)
  {
    && (forall e :: Holds(s, e) ==> KeyRight(s, e))
    && (forall id | id in s.timers :: id < MAX_ADDRESS && s.timers[id].interval <= 2147)
  }

  /** The timer that is restarted has no other entry whose key could go stale. */
  lemma NoOtherEntry(s: Loop, e: Entry)
    requires Enabled(s, Restart) && PlacedOnce(s, s.place.done[0].address)
    requires e in s.entries || e in s.place.done[1..]
    ensures e.address != s.place.done[0].address
  {
    var id := s.place.done[0].address;
    assert Count(s.place.done, id) == 1 + Count(s.place.done[1..], id);
    if e.address == id {
      if e in s.entries {
        CountPositive(s.entries, e);
      } else {
        CountPositive(s.place.done[1..], e);
      }
    }
  }

  lemma StepKeepsKey(s: Loop, step: Step, e: Entry)
    requires KeysAgree(s) && Enabled(s, step)
    requires step.Restart? ==> PlacedOnce(s, s.place.done[0].address)
    requires Holds(Next(s, step), e)
    ensures KeyRight(Next(s, step), e)
  {
    hide LowerBound, Micros, HowMuchTimeFromNow, ExpiredCount;
    match step {
      case Handle =>
        assert Holds(s, e);
      case Restart =>
        var first := s.place.done[0];
        assert Holds(s, first);
        if s.timers[first.address].interval > 0 {
          InsertMembers(s.entries, Entry(AddTime(s.clock, s.timers[first.address].interval), first.address), e);
        }
        if e in s.entries || e in s.place.done[1..] {
          assert Holds(s, e);
          NoOtherEntry(s, e);
        }
        hide Insert, PlacedOnce;
      case RunFunctor =>
        var f := s.place.functors[0];
        if f.Add? {
          InsertMembers(s.entries, Entry(s.timers[f.id].expiration, f.id), e);
        }
        hide Insert;
        if e in s.entries {
          assert Holds(s, e);
        }
      case _ =>
        assert Holds(s, e);
    }
  }

  lemma StepKeepsKeys(s: Loop, step: Step)
    requires AllPlaced(s) && KeysAgree(s) && Enabled(s, step)
    ensures KeysAgree(Next(s, step))
  {
    assert step.Restart? ==> PlacedOnce(s, s.place.done[0].address);
    forall e | Holds(Next(s, step), e)
      ensures KeyRight(Next(s, step), e)
    {
      hide Next, Holds, KeysAgree;
      StepKeepsKey(s, step, e);
    }
    hide Insert, Micros, HowMuchTimeFromNow, ExpiredCount, Holds, KeyRight, PlacedOnce;
  }

  // ---------------------------------------------------------------------------------------
  // The timerfd.

  /** The channels the poll reported: the timerfd is there only while it has expired, and once. */
  ghost predicate ReadyRight(s: Loop)
  {
    match s.place
    case Dispatch(ready) => Distinct(ready) && (TimerChannel in ready ==> IsReady(s, TimerChannel))
    case Handling(_, _, _, ready) => Distinct(ready) && TimerChannel !in ready
    case _ => true
  }

  function Max(a: int, b: int): int
  {
    if a < b then b else a
  }

  /**
    Outside `handleRead` the timerfd is armed exactly if there is a timer in the set, and then for
    the earliest expiration or 100 microseconds after the arming, whichever is later.
   */
  predicate ArmedForHead(s: Loop)
  {
    s.deadline == if s.entries == [] then None else Some(Max(s.entries[0].when, s.armedAt + 100))
  }

  ghost predicate Armed(s: Loop)
  {
    && Sorted(s.entries) && 0 < s.clock && s.armedAt <= s.clock
    && if s.place.Handling? then
         && s.deadline == None && 0 < s.place.now <= s.clock
         && (forall e | e in s.entries :: e.when > s.place.now)
         && (forall e | e in s.place.due + s.place.done :: e.when <= s.place.now)
       else
         ArmedForHead(s)
  }

  lemma ArmExact(s: Loop, when: int)
    ensures Arm(s, when).deadline == Some(Max(when, s.clock + 100))
    ensures Arm(s, when) == s.(deadline := Arm(s, when).deadline, armedAt := s.clock)
  {
    TimespecIsExact(when, s.clock);
  }

  lemma StepKeepsReady(s: Loop, step: Step)
    requires ReadyRight(s) && Enabled(s, step)
    ensures ReadyRight(Next(s, step))
  {
    hide Insert, Micros, HowMuchTimeFromNow, ExpiredCount;
  }

  /** When the timerfd is handled, some timer has expired. */
  lemma HandleArmed(s: Loop)
    requires Armed(s) && ReadyRight(s) && KeysAgree(s) && Enabled(s, Handle)
    ensures Armed(Next(s, Handle))
    ensures s.place.ready[0].TimerChannel? ==> Next(s, Handle).place.due != []
  {
    if s.place.ready[0].TimerChannel? {
      forall e | e in s.entries
        ensures e.address < MAX_ADDRESS
      {
        assert Holds(s, e);
      }
      ExpiredExactly(s.entries, s.clock);
      SortedPart(s.entries, ExpiredCount(s.entries, s.clock));
      hide ExpiredCount;
    }
  }

  lemma RestartArmed(s: Loop)
    requires Armed(s) && KeysAgree(s) && Enabled(s, Restart) && PlacedOnce(s, s.place.done[0].address)
    ensures Armed(Next(s, Restart))
  {
    var id := s.place.done[0].address;
    if 0 < s.timers[id].interval <= 2147 {
      var e := Entry(AddTime(s.clock, s.timers[id].interval), id);
      NotThereYet(s, id, e.when);
      InsertSorted(s.entries, e);
      forall x | x in Insert(s.entries, e)
        ensures x.when > s.place.now
      {
        InsertMembers(s.entries, e, x);
      }
      hide Insert;
    }
  }

  lemma RearmArmed(s: Loop)
    requires Armed(s) && KeysAgree(s) && Enabled(s, Rearm)
    ensures Armed(Next(s, Rearm))
  {
    if s.entries != [] {
      assert Holds(s, s.entries[0]);
      ArmExact(s.(place := Dispatch(s.place.ready)), s.entries[0].when);
      hide Micros, HowMuchTimeFromNow;
    }
  }

  lemma RunFunctorArmed(s: Loop)
    requires Armed(s) && Enabled(s, RunFunctor)
    requires s.place.functors[0].Add? ==> PlacedOnce(s, s.place.functors[0].id)
    ensures Armed(Next(s, RunFunctor))
  {
    var f := s.place.functors[0];
    if f.Add? {
      var e := Entry(s.timers[f.id].expiration, f.id);
      assert AddCount(s.place.functors, f.id) > 0;
      NotThereYet(s, f.id, e.when);
      InsertSorted(s.entries, e);
      InsertHead(s.entries, e);
      ArmExact(s.(place := Draining(s.place.functors[1..]), ran := s.ran + [f], entries := Insert(s.entries, e)), e.when);
      hide Insert, Micros, HowMuchTimeFromNow;
    }
  }

  lemma StepKeepsArmed(s: Loop, step: Step)
    requires Armed(s) && ReadyRight(s) && KeysAgree(s) && AllPlaced(s) && Enabled(s, step)
    ensures Armed(Next(s, step))
  {
    match step {
      case Handle => HandleArmed(s);
      case Restart =>
        assert PlacedOnce(s, s.place.done[0].address);
        RestartArmed(s);
      case Rearm => RearmArmed(s);
      case RunFunctor =>
        assert s.place.functors[0].Add? ==> PlacedOnce(s, s.place.functors[0].id);
        RunFunctorArmed(s);
      case _ =>
        hide KeysAgree, AllPlaced, ReadyRight, Insert, Sorted;
    }
  }

  // ---------------------------------------------------------------------------------------
  // When callbacks run.

  function RunsOf(log: seq<Fire>, id: Id): nat
    decreases |log|
  {
    if log == [] then 0
    else RunsOf(log[..|log| - 1], id) + if log[|log| - 1].id == id then 1 else 0
  }

  lemma RunsOneMore(log: seq<Fire>, f: Fire, id: Id)
    ensures RunsOf(log + [f], id) == RunsOf(log, id) + if f.id == id then 1 else 0
  {
    assert (log + [f])[..|log|] == log;
  }

  /** The time between two runs of a timer, 0 for one that does not repeat. */
  function Period(t: TimerInfo): int
  {
    if t.interval > 0 then t.interval * MICROS_PER_SECOND else 0
  }

  /** The earliest time at which a timer may run after `runs` runs. */
  function NotBefore(t: TimerInfo, runs: nat): int
  {
    t.first + runs * Period(t)
  }

  /**
    What a timer's runs so far mean for its next: before its callback, its expiration is late
    enough; after it and before its restart, the time of the restart will be; and a timer that does
    not repeat has run once when its place is among the done ones or nowhere.
   */
  ghost predicate Timed(s: Loop, id: Id)
  {
    if id !in s.timers then RunsOf(s.log, id) == 0
    else
      var t, runs := s.timers[id], RunsOf(s.log, id);
      if id in s.retired then t.interval <= 0 && runs == 1
      else if Count(Done(s), id) > 0 then
        if t.interval > 0 then NotBefore(t, runs) <= s.place.now + Period(t) else runs == 1
      else if t.interval > 0 then NotBefore(t, runs) <= t.expiration
      else runs == 0 && t.expiration == t.first
  }

  ghost predicate AllTimed(s: Loop)
  {
    forall id :: Timed(s, id)
  }

  /** The `j`-th callback did not come early, and did not come again if its timer does not repeat. */
  ghost predicate InTime(s: Loop, j: nat)
    requires j < |s.log|
  {
    var f := s.log[j];
    && f.id in s.timers
    && NotBefore(s.timers[f.id], RunsOf(s.log[..j], f.id)) <= f.time <= s.clock
    && (s.timers[f.id].interval <= 0 ==> RunsOf(s.log[..j], f.id) == 0)
  }

  ghost predicate AllInTime(s: Loop)
  {
    forall j | 0 <= j < |s.log| :: InTime(s, j)
  }

  lemma NotBeforeOneMore(t: TimerInfo, runs: nat)
    ensures NotBefore(t, runs + 1) == NotBefore(t, runs) + Period(t)
  {
    assert (runs + 1) * Period(t) == runs * Period(t) + Period(t);
  }

  /** The timer that runs is not among the done ones, and not finished. */
  lemma DueIsFresh(s: Loop)
    requires Enabled(s, RunTimer) && PlacedOnce(s, s.place.due[0].address)
    ensures Live(s, s.place.due[0].address) && Count(s.place.done, s.place.due[0].address) == 0
  {
    CountPositive(s.place.due, s.place.due[0]);
  }

  lemma RunTimerTimed(s: Loop, id: Id)
    requires Enabled(s, RunTimer) && PlacedOnce(s, s.place.due[0].address) && Timed(s, id)
    requires Timed(s, s.place.due[0].address)
    requires KeyRight(s, s.place.due[0]) && s.place.due[0].when <= s.place.now
    ensures Timed(Next(s, RunTimer), id)
  {
    var e := s.place.due[0];
    DueIsFresh(s);
    CountJoin(s.place.done, [e], id);
    CountOne(e, id);
    RunsOneMore(s.log, Fire(e.address, s.clock), id);
    if e.address == id {
      NotBeforeOneMore(s.timers[id], RunsOf(s.log, id));
    }
    hide Count, RunsOf, NotBefore;
  }

  lemma RestartTimed(s: Loop, id: Id)
    requires Enabled(s, Restart) && PlacedOnce(s, s.place.done[0].address) && Timed(s, id)
    requires s.place.now <= s.clock && s.timers[s.place.done[0].address].interval <= 2147
    ensures Timed(Next(s, Restart), id)
  {
    var e, rest := s.place.done[0], s.place.done[1..];
    assert Count(s.place.done, id) == (if e.address == id then 1 else 0) + Count(rest, id);
    assert Count(s.place.done, e.address) == 1 + Count(rest, e.address);
    hide Count, RunsOf, Insert;
  }

  lemma StepKeepsTimed(s: Loop, step: Step, id: Id)
    requires Enabled(s, step) && Timed(s, id) && AllPlaced(s) && AllTimed(s) && KeysAgree(s) && Armed(s)
    ensures Timed(Next(s, step), id)
  {
    match step {
      case RunTimer =>
        var e := s.place.due[0];
        assert PlacedOnce(s, e.address) && Timed(s, e.address) && Holds(s, e);
        assert e in s.place.due + s.place.done;
        hide AllPlaced, KeysAgree, Armed, AllTimed, Timed;
        RunTimerTimed(s, id);
      case Restart =>
        assert PlacedOnce(s, s.place.done[0].address);
        RestartTimed(s, id);
      case AddTimer(created, _, _) =>
        assert PlacedOnce(s, created);
        hide Count, RunsOf, AllPlaced, KeysAgree, Armed, AllTimed;
      case _ =>
        assert Count([], id) == 0;
        hide Count, RunsOf, AllPlaced, KeysAgree, Armed, AllTimed, Insert, Micros, HowMuchTimeFromNow, ExpiredCount;
    }
  }

  lemma StepKeepsAllTimed(s: Loop, step: Step)
    requires Enabled(s, step) && AllPlaced(s) && AllTimed(s) && KeysAgree(s) && Armed(s)
    ensures AllTimed(Next(s, step))
  {
    forall id
      ensures Timed(Next(s, step), id)
    {
      assert Timed(s, id);
      hide Timed, Next, Enabled, AllPlaced, AllTimed, KeysAgree, Armed;
      StepKeepsTimed(s, step, id);
    }
  }

  /** A timer's first expiration and interval never change. */
  lemma StepKeepsTimers(s: Loop, step: Step, id: Id)
    requires Enabled(s, step) && id in s.timers
    ensures id in Next(s, step).timers
    ensures Next(s, step).timers[id].first == s.timers[id].first
    ensures Next(s, step).timers[id].interval == s.timers[id].interval
  {
    hide Insert, Micros, HowMuchTimeFromNow, ExpiredCount;
  }

  lemma StepExtendsLog(s: Loop, step: Step)
    requires Enabled(s, step)
    ensures Next(s, step).clock >= s.clock
    ensures Next(s, step).log == if step.RunTimer? then s.log + [Fire(s.place.due[0].address, s.clock)] else s.log
  {
    hide Insert, Micros, HowMuchTimeFromNow, ExpiredCount;
  }

  lemma StepKeepsInTime(s: Loop, step: Step, j: nat)
    requires Enabled(s, step) && j < |s.log| && InTime(s, j)
    ensures j < |Next(s, step).log| && InTime(Next(s, step), j)
  {
    StepKeepsTimers(s, step, s.log[j].id);
    StepExtendsLog(s, step);
    var n := Next(s, step);
    assert n.log[..j] == s.log[..j] && n.log[j] == s.log[j];
    hide Next, Enabled, RunsOf;
  }

  lemma NewRunInTime(s: Loop)
    requires Enabled(s, RunTimer) && AllPlaced(s) && AllTimed(s) && KeysAgree(s) && Armed(s)
    ensures var n := Next(s, RunTimer); |n.log| == |s.log| + 1 && InTime(n, |s.log|)
  {
    var e := s.place.due[0];
    assert PlacedOnce(s, e.address) && Timed(s, e.address) && Holds(s, e);
    assert e in s.place.due + s.place.done;
    DueIsFresh(s);
    var n := Next(s, RunTimer);
    assert n.log[..|s.log|] == s.log;
    hide AllPlaced, AllTimed, KeysAgree, Count, RunsOf, Places;
  }

  lemma StepKeepsAllInTime(s: Loop, step: Step)
    requires Enabled(s, step) && AllPlaced(s) && AllTimed(s) && KeysAgree(s) && Armed(s) && AllInTime(s)
    ensures AllInTime(Next(s, step))
  {
    var n := Next(s, step);
    StepExtendsLog(s, step);
    if step.RunTimer? {
      NewRunInTime(s);
    }
    forall j | 0 <= j < |n.log|
      ensures InTime(n, j)
    {
      if j < |s.log| {
        hide InTime, Next, Enabled, AllPlaced, AllTimed, KeysAgree, Armed;
        StepKeepsInTime(s, step, j);
      }
    }
  }

  // ---------------------------------------------------------------------------------------
  // When the next callback is due.

  /** The time of the last callback of a timer. */
  function LastTime(log: seq<Fire>, id: Id): int
    decreases |log|
  {
    if log == [] then 0
    else if log[|log| - 1].id == id then log[|log| - 1].time
    else LastTime(log[..|log| - 1], id)
  }

  lemma LastTimeOneMore(log: seq<Fire>, f: Fire, id: Id)
    ensures LastTime(log + [f], id) == if f.id == id then f.time else LastTime(log, id)
  {
    assert (log + [f])[..|log|] == log;
  }

  /**
    A timer is due at its first expiration, and after a callback and its restart one interval after
    some moment between the two.
   */
  ghost predicate Paced(s: Loop, id: Id)
  {
    id in s.timers ==>
      var t := s.timers[id];
      if Count(Done(s), id) > 0 then
        RunsOf(s.log, id) > 0 && LastTime(s.log, id) <= s.clock && (t.interval <= 0 ==> t.expiration == t.first)
      else if RunsOf(s.log, id) == 0 || t.interval <= 0 then t.expiration == t.first
      else LastTime(s.log, id) + t.interval * 1_000_000 <= t.expiration <= s.clock + t.interval * 1_000_000
  }

  ghost predicate AllPaced(s: Loop)
  {
    forall id :: Paced(s, id)
  }

  lemma RunTimerPaced(s: Loop, id: Id)
    requires Enabled(s, RunTimer) && Paced(s, id)
    ensures Paced(Next(s, RunTimer), id)
  {
    var e := s.place.due[0];
    CountJoin(s.place.done, [e], id);
    CountOne(e, id);
    RunsOneMore(s.log, Fire(e.address, s.clock), id);
    LastTimeOneMore(s.log, Fire(e.address, s.clock), id);
    hide Count, RunsOf, LastTime;
  }

  lemma RestartPaced(s: Loop, id: Id)
    requires Enabled(s, Restart) && PlacedOnce(s, s.place.done[0].address) && Paced(s, id)
    requires s.timers[s.place.done[0].address].interval <= 2147
    ensures Paced(Next(s, Restart), id)
  {
    var e, rest := s.place.done[0], s.place.done[1..];
    assert Count(s.place.done, id) == (if e.address == id then 1 else 0) + Count(rest, id);
    assert Count(s.place.done, e.address) == 1 + Count(rest, e.address);
    hide Count, RunsOf, LastTime, Insert;
  }

  lemma StepKeepsPaced(s: Loop, step: Step, id: Id)
    requires Enabled(s, step) && Paced(s, id) && AllPlaced(s) && AllTimed(s) && KeysAgree(s)
    ensures Paced(Next(s, step), id)
  {
    match step {
      case RunTimer => RunTimerPaced(s, id);
      case Restart =>
        var e := s.place.done[0];
        assert PlacedOnce(s, e.address) && Timed(s, e.address);
        RestartPaced(s, id);
      case AddTimer(created, _, _) =>
        assert Timed(s, created) && PlacedOnce(s, created);
        hide Count, RunsOf, LastTime, AllPlaced, KeysAgree, AllTimed;
      case _ =>
        assert Count([], id) == 0;
        hide Count, RunsOf, LastTime, AllPlaced, KeysAgree, AllTimed, Insert, Micros, HowMuchTimeFromNow, ExpiredCount;
    }
  }

  lemma StepKeepsAllPaced(s: Loop, step: Step)
    requires Enabled(s, step) && AllPlaced(s) && AllTimed(s) && KeysAgree(s) && AllPaced(s)
    ensures AllPaced(Next(s, step))
  {
    forall id
      ensures Paced(Next(s, step), id)
    {
      assert Paced(s, id);
      hide Paced, Next, Enabled, AllPlaced, AllTimed, KeysAgree, AllPaced;
      StepKeepsPaced(s, step, id);
    }
  }

  // ---------------------------------------------------------------------------------------
  // Everything together, over whole runs.

  ghost predicate Inv(s: Loop)
  {
    FunctorsKept(s) && AllPlaced(s) && KeysAgree(s) && ReadyRight(s) && Armed(s) && AllTimed(s) && AllInTime(s)
    && AllPaced(s)
  }

  lemma StepKeepsInv(s: Loop, step: Step)
    requires Inv(s) && Enabled(s, step)
    ensures Inv(Next(s, step))
  {
    hide FunctorsKept, AllPlaced, KeysAgree, ReadyRight, Armed, AllTimed, AllInTime, AllPaced, Next, Enabled;
    StepKeepsFunctors(s, step);
    StepKeepsPlaces(s, step);
    StepKeepsKeys(s, step);
    StepKeepsReady(s, step);
    StepKeepsArmed(s, step);
    StepKeepsAllTimed(s, step);
    StepKeepsAllInTime(s, step);
    StepKeepsAllPaced(s, step);
  }

  lemma {:induction false} InvHolds(s: Loop, steps: seq<Step>)
    requires Inv(s) && IsRun(s, steps)
    ensures Inv(After(s, steps))
    decreases |steps|
  {
    hide Inv, Next, Enabled;
    if steps == [] {
    } else {
      StepKeepsInv(s, steps[0]);
      InvHolds(Next(s, steps[0]), steps[1..]);
    }
  }

  lemma InitInv(clock: int)
    requires clock > 0
    ensures Inv(Init(clock))
  {
    var s := Init(clock);
    assert forall id :: PlacedOnce(s, id);
    assert forall id :: Timed(s, id);
    assert forall id :: Paced(s, id);
  }
}
