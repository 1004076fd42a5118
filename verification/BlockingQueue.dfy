/**
  The unbounded blocking queue: src/base/BlockingQueue.h. As for the pool, a step is what one
  thread does from getting `mutex_` to giving it up.
 */
module BlockingQueue {
  import opened ConditionVariable

  type Tid = nat

  /** The fields of the queue; `puts` and `takes` record the items in the order they came and went. */
  datatype Queue<T> = Queue(items: seq<T>, notEmpty: Condition<Tid>, puts: seq<T>, takes: seq<T>)

  datatype TakeResult<T> = Asleep | Got(front: T)

  datatype Step<T> =
    | Put(x: T, pick: Tid)
    | Take(t: Tid)
    | TakeAgain(t: Tid)
    | Spurious(t: Tid)

  function Init<T>(): Queue<T>
  {
    Queue([], New(), [], [])
  }

  predicate Enabled<T>(s: Queue<T>, step: Step<T>)
  {
    match step
    case Put(_, pick) => CanPick(s.notEmpty, pick)
    case Take(t) => t !in Waiters(s.notEmpty)
    case TakeAgain(t) => t in s.notEmpty.woken
    case Spurious(t) => t in s.notEmpty.parked
  }

  function AfterTake<T>(s: Queue<T>, t: Tid): Queue<T>
  {
    if s.items == [] then s.(notEmpty := Wait(s.notEmpty, t))
    else s.(items := s.items[1..], takes := s.takes + [s.items[0]])
  }

  function Next<T>(s: Queue<T>, step: Step<T>): Queue<T>
    requires Enabled(s, step)
  {
    match step
    case Put(x, pick) => s.(items := s.items + [x], puts := s.puts + [x], notEmpty := Notify(s.notEmpty, pick))
    case Take(t) => AfterTake(s, t)
    case TakeAgain(t) => AfterTake(s.(notEmpty := Return(s.notEmpty, t)), t)
    case Spurious(t) => s.(notEmpty := Wake(s.notEmpty, t))
  }

  predicate IsRun<T>(s: Queue<T>, steps: seq<Step<T>>)
    decreases |steps|
  {
    steps == [] || (Enabled(s, steps[0]) && IsRun(Next(s, steps[0]), steps[1..]))
  }

  function After<T>(s: Queue<T>, steps: seq<Step<T>>): Queue<T>
    requires IsRun(s, steps)
    decreases |steps|
  {
    if steps == [] then s else After(Next(s, steps[0]), steps[1..])
  }

  ghost predicate Inv<T>(s: Queue<T>)
  {
    Apart(s.notEmpty) && NoLostWakeup(s.notEmpty, |s.items|) && s.puts == s.takes + s.items
  }

  lemma TakeKeepsInv<T>(s: Queue<T>, t: Tid)
    requires Apart(s.notEmpty) && NoLostWakeup(s.notEmpty, |s.items| - 1) && s.puts == s.takes + s.items
    requires t !in s.notEmpty.woken
    ensures Inv(AfterTake(s, t))
  {
    WaitNeedsNoWork(s.notEmpty, t, |s.items|);
    if s.items != [] {
      assert s.takes + s.items == (s.takes + [s.items[0]]) + s.items[1..];
    }
  }

  lemma StepKeepsInv<T>(s: Queue<T>, step: Step<T>)
    requires Inv(s) && Enabled(s, step)
    ensures Inv(Next(s, step))
  {
    match step {
      case Put(x, pick) =>
        NotifyCovers(s.notEmpty, pick, |s.items|);
        hide Notify;
        assert s.takes + (s.items + [x]) == (s.takes + s.items) + [x];
      case Take(t) =>
        hide AfterTake;
        TakeKeepsInv(s, t);
      case TakeAgain(t) =>
        hide AfterTake;
        ReturnTakes(s.notEmpty, t, |s.items|);
        TakeKeepsInv(s.(notEmpty := Return(s.notEmpty, t)), t);
      case Spurious(t) =>
        WakeKeeps(s.notEmpty, t, |s.items|);
        hide Wake;
    }
  }

  lemma {:induction false} InvHolds<T>(s: Queue<T>, steps: seq<Step<T>>)
    requires Inv(s) && IsRun(s, steps)
    ensures Inv(After(s, steps))
    decreases |steps|
  {
    hide Inv, Next, Enabled;
    if steps == [] {
    } else {
      StepKeepsInv(s, steps[0]);
      InvHolds(Next(s, steps[0]), steps[1..]);
    }
  }

  /** What a call of `take` comes to. */
  function TakeOutcome<T>(s: Queue<T>): TakeResult<T>
  {
    if s.items == [] then Asleep else Got(s.items[0])
  }

  /** The items that the calls of `take` return in a run, and those that calls of `put` were given. */
  function Results<T>(s: Queue<T>, steps: seq<Step<T>>): seq<T>
    requires IsRun(s, steps)
    decreases |steps|
  {
    if steps == [] then []
    else
      (if (steps[0].Take? || steps[0].TakeAgain?) && TakeOutcome(s).Got? then [TakeOutcome(s).front] else [])
      + Results(Next(s, steps[0]), steps[1..])
  }

  function Given<T>(steps: seq<Step<T>>): seq<T>
    decreases |steps|
  {
    if steps == [] then [] else (if steps[0].Put? then [steps[0].x] else []) + Given(steps[1..])
  }

  lemma StepMoves<T>(s: Queue<T>, step: Step<T>)
    requires Enabled(s, step)
    ensures var n, r := Next(s, step), TakeOutcome(s);
            && n.takes == s.takes + (if (step.Take? || step.TakeAgain?) && r.Got? then [r.front] else [])
            && n.puts == s.puts + if step.Put? then [step.x] else []
  {
    hide Wake;
  }

  lemma Chained<A>(start: seq<A>, first: seq<A>, rest: seq<A>)
    ensures start + (first + rest) == (start + first) + rest
  {
  }

  lemma {:induction false} RunTakes<T>(s: Queue<T>, steps: seq<Step<T>>)
    requires IsRun(s, steps)
    ensures After(s, steps).takes == s.takes + Results(s, steps)
    decreases |steps|
  {
    hide Next, Enabled, TakeOutcome;
    if steps == [] {
    } else {
      StepMoves(s, steps[0]);
      RunTakes(Next(s, steps[0]), steps[1..]);
      Chained(s.takes,
              if (steps[0].Take? || steps[0].TakeAgain?) && TakeOutcome(s).Got? then [TakeOutcome(s).front] else [],
              Results(Next(s, steps[0]), steps[1..]));
    }
  }

  lemma {:induction false} RunPuts<T>(s: Queue<T>, steps: seq<Step<T>>)
    requires IsRun(s, steps)
    ensures After(s, steps).puts == s.puts + Given(steps)
    decreases |steps|
  {
    hide Next, Enabled, TakeOutcome;
    if steps == [] {
    } else {
      StepMoves(s, steps[0]);
      RunPuts(Next(s, steps[0]), steps[1..]);
      Chained(s.puts, if steps[0].Put? then [steps[0].x] else [], Given(steps[1..]));
    }
  }

  /** The items given are, in order, those returned and those still queued. */
  lemma EachItemOnce<T>(steps: seq<Step<T>>)
    requires IsRun(Init(), steps)
    ensures Given(steps) == Results(Init(), steps) + After(Init(), steps).items
  {
    InvHolds(Init(), steps);
    RunTakes(Init(), steps);
    RunPuts(Init(), steps);
    hide After, Results, Given;
    assert [] + Given(steps) == Given(steps) && [] + Results(Init(), steps) == Results(Init(), steps);
  }

  /**
    In every interleaving: items leave in the order they came, each once, and a thread sleeps only
    if every item has a thread on its way to it. So if no thread is about to run, sleepers mean an
    empty queue.
   */
  lemma EveryRun<T>(steps: seq<Step<T>>)
    requires IsRun(Init(), steps)
    ensures var s := After(Init(), steps);
            && s.puts == s.takes + s.items
            && (s.notEmpty.parked != {} ==> |s.items| <= |s.notEmpty.woken|)
            && (s.notEmpty.parked != {} && s.notEmpty.woken == {} ==> s.items == [])
  {
    InvHolds(Init(), steps);
  }

  class BlockingQueue<T> {
    var queue: seq<T>
    var notEmpty: Condition<Tid>
    ghost var puts: seq<T>
    ghost var takes: seq<T>

    ghost function StateOf(): Queue<T>
      reads this
    {
      Queue(queue, notEmpty, puts, takes)
    }

    constructor ()
      ensures StateOf() == Init()
    {
      queue, notEmpty, puts, takes := [], New(), [], [];
    }

    method Put(x: T, pick: Tid)
      requires Enabled(StateOf(), Step.Put(x, pick))
      modifies this
      ensures StateOf() == Next(old(StateOf()), Step.Put(x, pick))
    {
      queue := queue + [x];
      puts := puts + [x];
      notEmpty := Notify(notEmpty, pick);
    }

    /** One pass of the loop of `take` and what follows it. */
    method TakeLocked(t: Tid) returns (result: TakeResult<T>)
      modifies this
      ensures StateOf() == AfterTake(old(StateOf()), t)
      ensures result == TakeOutcome(old(StateOf()))
    {
      if queue == [] {
        notEmpty := Wait(notEmpty, t);
        return Asleep;
      }
      result := Got(queue[0]);
      takes := takes + [queue[0]];
      queue := queue[1..];
    }

    method Take(t: Tid) returns (result: TakeResult<T>)
      requires Enabled(StateOf(), Step.Take(t))
      modifies this
      ensures StateOf() == Next(old(StateOf()), Step.Take(t))
      ensures result == TakeOutcome(old(StateOf()))
    {
      result := TakeLocked(t);
    }

    method TakeAgain(t: Tid) returns (result: TakeResult<T>)
      requires Enabled(StateOf(), Step.TakeAgain(t))
      modifies this
      ensures StateOf() == Next(old(StateOf()), Step.TakeAgain(t))
      ensures result == TakeOutcome(old(StateOf()))
    {
      notEmpty := Return(notEmpty, t);
      result := TakeLocked(t);
    }
  }
}
