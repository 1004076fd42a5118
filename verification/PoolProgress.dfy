/**
  When the thread pool of src/base/ThreadPool.cc can come to a standstill: exactly when all its
  workers are inside `run` themselves, called from a task, with the queue full.
 */
module PoolProgress {
  import opened ConditionVariable
  import opened PoolProtocol

  /** Nothing can happen any more, except for a `stop` or a sleeper that wakes up for no reason. */
  ghost predicate Stuck<T(!new)>(s: Pool<T>)
  {
    forall step | Enabled(s, step) :: step.Spurious? || step.Stop?
  }

  /** All work is handed out: the workers sleep in `take`, everybody else is gone. */
  ghost predicate Idle<T>(s: Pool<T>)
  {
    && s.queue == []
    && forall t | t in s.place :: if t in s.workers then s.place[t].InTake? else s.place[t].Done?
  }

  /** Every worker is inside a task that waits in `run` for room in the full queue. */
  ghost predicate Jammed<T>(s: Pool<T>)
  {
    s.workers != {} && IsFull(s) && forall t | t in s.workers :: t in s.place && s.place[t].InRun?
  }

  lemma PickExists(c: Condition<Tid>) returns (pick: Tid)
    ensures CanPick(c, pick)
  {
    if c.parked == {} {
      pick := 0;
    } else {
      pick :| pick in c.parked;
    }
  }

  lemma StuckThread<T(!new)>(s: Pool<T>, t: Tid, task: T)
    requires Inv(s) && Stuck(s) && t in s.place
    ensures || s.place[t].Done?
            || (s.place[t].InTake? && t in s.notEmpty.parked)
            || (s.place[t].InRun? && t in s.notFull.parked)
    ensures t !in s.notEmpty.woken && t !in s.notFull.woken
  {
    assert PlacedAt(s, t);
    var item := PickExists(s.notEmpty);
    var slot := PickExists(s.notFull);
    assert !Enabled(s, Step.Run(t, task, item)) && !Enabled(s, RunAgain(t, item)) && !Enabled(s, Step<T>.Test(t))
        && !Enabled(s, Step<T>.Take(t, slot)) && !Enabled(s, TakeAgain(t, slot));
  }

  lemma StuckNobodyWoken<T(!new)>(s: Pool<T>, task: T)
    requires Inv(s) && Stuck(s)
    ensures s.notEmpty.woken == {} && s.notFull.woken == {}
  {
    forall t: Tid
      ensures t !in s.notEmpty.woken && t !in s.notFull.woken
    {
      assert PlacedAt(s, t);
      if t in s.place {
        StuckThread(s, t, task);
      }
    }
  }

  /** After `stop`, a standstill means that every thread has left: the joins return. */
  lemma StopFinishes<T(!new)>(s: Pool<T>, task: T)
    requires Inv(s) && Stuck(s) && !s.running
    ensures forall t | t in s.place :: s.place[t].Done?
  {
    forall t | t in s.place
      ensures s.place[t].Done?
    {
      StuckThread(s, t, task);
    }
  }

  /** A running pool at a standstill is idle or jammed, and not both. */
  lemma StuckIsIdleOrJammed<T(!new)>(s: Pool<T>, task: T)
    requires Inv(s) && Stuck(s) && s.running
    ensures Idle(s) <==> !Jammed(s)
  {
    StuckNobodyWoken(s, task);
    if t :| t in s.notEmpty.parked {
      assert PlacedAt(s, t);
      assert s.queue == [];
      forall u | u in s.place
        ensures if u in s.workers then s.place[u].InTake? else s.place[u].Done?
      {
        StuckThread(s, u, task);
        assert PlacedAt(s, u);
      }
    } else if w :| w in s.workers {
      forall u | u in s.workers
        ensures u in s.place && s.place[u].InRun? && u in s.notFull.parked
      {
        assert PlacedAt(s, u);
        StuckThread(s, u, task);
      }
      assert PlacedAt(s, w);
      assert IsFull(s);
    } else {
      forall u | u in s.place
        ensures s.place[u].Done?
      {
        StuckThread(s, u, task);
        assert PlacedAt(s, u);
      }
    }
  }

  // ---------------------------------------------------------------------------------------
  // Whole runs.

  /** No task calls `run` of its own pool. */
  predicate NoNesting<T>(workers: set<Tid>, steps: seq<Step<T>>)
  {
    forall i | 0 <= i < |steps| :: steps[i].Run? ==> steps[i].t !in workers
  }

  predicate WorkersOutOfRun<T>(s: Pool<T>)
  {
    forall t | t in s.workers && t in s.place :: !s.place[t].InRun?
  }

  lemma StepOutOfRun<T>(s: Pool<T>, step: Step<T>)
    requires WorkersOutOfRun(s) && Enabled(s, step)
    requires step.Run? ==> step.t !in s.workers
    ensures WorkersOutOfRun(Next(s, step))
  {
    hide Wake;
  }

  lemma {:induction false} RunOutOfRun<T>(s: Pool<T>, steps: seq<Step<T>>)
    requires WorkersOutOfRun(s) && IsRun(s, steps) && NoNesting(s.workers, steps)
    ensures WorkersOutOfRun(After(s, steps))
    decreases |steps|
  {
    if steps == [] {
    } else {
      StepOutOfRun(s, steps[0]);
      assert Next(s, steps[0]).workers == s.workers;
      hide WorkersOutOfRun, Next, Enabled;
      RunOutOfRun(Next(s, steps[0]), steps[1..]);
    }
  }

  /**
    A running pool whose tasks do not call `run` (or whose queue has no bound) comes to a
    standstill only when every task that entered the queue has been handed to a worker.
   */
  lemma NoStuckWork<T(!new)>(max: nat, workers: set<Tid>, clients: set<Tid>, steps: seq<Step<T>>, task: T)
    requires IsRun(Init(max, workers, clients), steps) && Stop !in steps
    requires Stuck(After(Init(max, workers, clients), steps))
    requires max == 0 || NoNesting(workers, steps)
    ensures var s := After(Init(max, workers, clients), steps);
            Idle(s) && s.taken == s.enqueued
  {
    var start: Pool<T> := Init(max, workers, clients);
    InitInv<T>(max, workers, clients);
    InvHolds(start, steps);
    var s := After(start, steps);
    StuckIsIdleOrJammed(s, task);
    if max > 0 {
      RunOutOfRun(start, steps);
    }
    hide After, Init;
    assert !Jammed(s);
  }

  lemma {:induction false} RunsJoin<T>(s: Pool<T>, first: seq<Step<T>>, second: seq<Step<T>>)
    requires IsRun(s, first) && IsRun(After(s, first), second)
    ensures IsRun(s, first + second) && After(s, first + second) == After(After(s, first), second)
    decreases |first|
  {
    hide Next, Enabled;
    if first == [] {
      assert first + second == second;
    } else {
      assert (first + second)[1..] == first[1..] + second;
      RunsJoin(Next(s, first[0]), first[1..], second);
    }
  }

  lemma OneStep<T>(s: Pool<T>, step: Step<T>)
    requires Enabled(s, step)
    ensures IsRun(s, [step]) && After(s, [step]) == Next(s, step)
  {
    hide Next, Enabled;
    assert [step][1..] == [];
    assert After(Next(s, step), []) == Next(s, step);
  }

  /** A stage on the way to a jam: `idle` workers have no task yet, `jam` are asleep in `run`. */
  ghost predicate Stage<T>(s: Pool<T>, workers: set<Tid>, client: Tid, idle: set<Tid>, jam: set<Tid>)
  {
    && client !in workers && idle <= workers && jam <= workers && idle !! jam
    && s.workers == workers && s.running && s.max > 0
    && workers <= s.place.Keys && client in s.place && s.place[client].User?
    && (forall t | t in s.place && t !in workers && t != client :: s.place[t].Done?)
    && s.notEmpty == New() && s.notFull == Condition(jam, {})
    && (forall t | t in idle :: s.place[t].AtTest?)
    && (forall t | t in jam :: s.place[t].InRun?)
    && (forall t | t in workers - idle - jam :: s.place[t].User?)
  }

  /** An idle worker is given a task. */
  lemma GiveTask<T>(s: Pool<T>, client: Tid, idle: set<Tid>, w: Tid, task: T) returns (steps: seq<Step<T>>)
    requires Stage(s, s.workers, client, idle, {}) && s.queue == [] && w in idle
    ensures IsRun(s, steps)
    ensures var n := After(s, steps);
            n.workers == s.workers && n.max == s.max && n.queue == [] && Stage(n, s.workers, client, idle - {w}, {})
  {
    var test, run, take := Step<T>.Test(w), Step.Run(client, task, 0), Step<T>.Take(w, 0);
    var s1 := Next(s, test);
    var s2 := Next(s1, run);
    var s3 := Next(s2, take);
    OneStep(s, test);
    OneStep(s1, run);
    OneStep(s2, take);
    RunsJoin(s, [test], [run]);
    RunsJoin(s, [test] + [run], [take]);
    steps := [test] + [run] + [take];
  }

  lemma {:induction false} GiveTasks<T>(s: Pool<T>, client: Tid, idle: set<Tid>, task: T) returns (steps: seq<Step<T>>)
    requires Stage(s, s.workers, client, idle, {}) && s.queue == []
    ensures IsRun(s, steps)
    ensures var n := After(s, steps);
            n.workers == s.workers && n.max == s.max && n.queue == [] && Stage(n, s.workers, client, {}, {})
    decreases idle
  {
    if idle == {} {
      steps := [];
    } else {
      var w :| w in idle;
      var first := GiveTask(s, client, idle, w, task);
      hide Stage;
      var rest := GiveTasks(After(s, first), client, idle - {w}, task);
      RunsJoin(s, first, rest);
      steps := first + rest;
    }
  }

  lemma {:induction false} FillQueue<T>(s: Pool<T>, client: Tid, task: T) returns (steps: seq<Step<T>>)
    requires s.workers != {} && Stage(s, s.workers, client, {}, {}) && |s.queue| <= s.max
    ensures IsRun(s, steps)
    ensures var n := After(s, steps);
            n.workers == s.workers && n.max == s.max == |n.queue| && Stage(n, s.workers, client, {}, {})
    decreases s.max - |s.queue|
  {
    if |s.queue| == s.max {
      steps := [];
    } else {
      var run := Step.Run(client, task, 0);
      OneStep(s, run);
      var rest := FillQueue(Next(s, run), client, task);
      RunsJoin(s, [run], rest);
      steps := [run] + rest;
    }
  }

  lemma {:induction false} JamWorkers<T>(s: Pool<T>, client: Tid, jam: set<Tid>, task: T) returns (steps: seq<Step<T>>)
    requires Stage(s, s.workers, client, {}, jam) && |s.queue| == s.max
    ensures IsRun(s, steps)
    ensures var n := After(s, steps);
            n.workers == s.workers && n.max == s.max == |n.queue| && Stage(n, s.workers, client, {}, s.workers)
    decreases s.workers - jam
  {
    if s.workers == jam {
      steps := [];
    } else {
      assert s.workers - jam != {} by {
        assert jam < s.workers;
      }
      var w :| w in s.workers - jam;
      var run := Step.Run(w, task, 0);
      OneStep(s, run);
      var rest := JamWorkers(Next(s, run), client, jam + {w}, task);
      RunsJoin(s, [run], rest);
      steps := [run] + rest;
    }
  }

  /** All clients but one leave at once. */
  lemma {:induction false} OthersLeave<T>(s: Pool<T>, client: Tid, others: set<Tid>) returns (steps: seq<Step<T>>)
    requires client !in others && others !! s.workers && others <= s.place.Keys
    requires forall t | t in others :: s.place[t].User?
    ensures IsRun(s, steps)
    ensures After(s, steps) == s.(place := map t | t in s.place :: if t in others then Done else s.place[t])
    decreases others
  {
    if others == {} {
      steps := [];
      assert s.place == map t | t in s.place :: s.place[t];
    } else {
      var t :| t in others;
      var leave := Step<T>.Finish(t);
      var n := Next(s, leave);
      assert n.place == s.place[t := Done];
      OneStep(s, leave);
      var rest := OthersLeave(n, client, others - {t});
      RunsJoin(s, [leave], rest);
      steps := [leave] + rest;
      assert s.place.Keys == n.place.Keys;
      assert (map u | u in n.place :: if u in others - {t} then Done else n.place[u])
          == (map u | u in s.place :: if u in others then Done else s.place[u]);
    }
  }

  /** The client leaves, and nothing is left to happen. */
  lemma LastStep<T(!new)>(s: Pool<T>, client: Tid)
    requires Stage(s, s.workers, client, {}, s.workers) && s.workers != {} && |s.queue| == s.max
    ensures Enabled(s, Finish(client))
    ensures Stuck(Next(s, Finish(client))) && Jammed(Next(s, Finish(client))) && Next(s, Finish(client)).running
  {
    var n := Next(s, Finish(client));
    forall step | Enabled(n, step)
      ensures step.Spurious? || step.Stop?
    {
    }
  }

  /** A run of the pool that comes to a standstill with tasks left in the queue. */
  ghost predicate LeavesWork<T(!new)>(max: nat, workers: set<Tid>, clients: set<Tid>, steps: seq<Step<T>>)
  {
    && IsRun(Init(max, workers, clients), steps)
    && Stop !in steps
    && Stuck(After(Init(max, workers, clients), steps))
    && After(Init(max, workers, clients), steps).queue != []
  }

  /** From a first stage to a jam: give each worker a task, fill the queue, let each task call `run`. */
  lemma JamFromStage<T(!new)>(s: Pool<T>, client: Tid, task: T) returns (steps: seq<Step<T>>)
    requires Stage(s, s.workers, client, s.workers, {}) && s.queue == [] && s.workers != {}
    ensures IsRun(s, steps)
    ensures Stuck(After(s, steps)) && Jammed(After(s, steps)) && After(s, steps).running
  {
    hide Stage, Next, Enabled, Stuck, Jammed;
    var give := GiveTasks(s, client, s.workers, task);
    var s1 := After(s, give);
    var fill := FillQueue(s1, client, task);
    var s2 := After(s1, fill);
    var jam := JamWorkers(s2, client, {}, task);
    var s3 := After(s2, jam);
    var leave := Step<T>.Finish(client);
    LastStep(s3, client);
    OneStep(s3, leave);
    RunsJoin(s, give, fill);
    RunsJoin(s, give + fill, jam);
    RunsJoin(s, give + fill + jam, [leave]);
    steps := give + fill + jam + [leave];
  }

  lemma FirstStage<T>(max: nat, workers: set<Tid>, clients: set<Tid>, client: Tid) returns (steps: seq<Step<T>>)
    requires max > 0 && client in clients - workers
    ensures IsRun(Init(max, workers, clients), steps)
    ensures var s := After(Init(max, workers, clients), steps);
            s.workers == workers && s.queue == [] && Stage(s, workers, client, workers, {})
  {
    var s: Pool<T> := Init(max, workers, clients);
    steps := OthersLeave(s, client, clients - workers - {client});
  }

  /** Every pool with a bound, with workers and with a client can get jammed. */
  lemma CanJam<T(!new)>(max: nat, workers: set<Tid>, clients: set<Tid>, task: T) returns (steps: seq<Step<T>>)
    requires max > 0 && workers != {} && !(clients <= workers)
    ensures LeavesWork(max, workers, clients, steps)
    ensures Jammed(After(Init(max, workers, clients), steps))
  {
    var client :| client in clients && client !in workers;
    var s: Pool<T> := Init(max, workers, clients);
    InitInv<T>(max, workers, clients);
    var first := FirstStage<T>(max, workers, clients, client);
    assert s.running;
    hide Stage, Next, Enabled, Init, Stuck, Jammed;
    var rest := JamFromStage(After(s, first), client, task);
    RunsJoin(s, first, rest);
    steps := first + rest;
    InvHolds(s, steps);
    JammedIsFull(After(s, steps));
  }

  lemma JammedIsFull<T>(s: Pool<T>)
    requires Jammed(s)
    ensures s.queue != []
  {
  }

  /** Without a client outside the pool nobody ever calls `run`. */
  predicate NobodyRuns<T>(s: Pool<T>)
  {
    s.queue == [] && forall t | t in s.place :: !s.place[t].User? && !s.place[t].InRun?
  }

  lemma StepNobodyRuns<T>(s: Pool<T>, step: Step<T>)
    requires NobodyRuns(s) && Enabled(s, step)
    ensures NobodyRuns(Next(s, step))
  {
  }

  lemma {:induction false} NobodyEverRuns<T>(s: Pool<T>, steps: seq<Step<T>>)
    requires NobodyRuns(s) && IsRun(s, steps)
    ensures NobodyRuns(After(s, steps))
    decreases |steps|
  {
    hide NobodyRuns, Next, Enabled;
    if steps == [] {
    } else {
      StepNobodyRuns(s, steps[0]);
      NobodyEverRuns(Next(s, steps[0]), steps[1..]);
    }
  }

  lemma WorkNeeds<T(!new)>(max: nat, workers: set<Tid>, clients: set<Tid>, steps: seq<Step<T>>, task: T)
    requires LeavesWork(max, workers, clients, steps)
    ensures max > 0 && workers != {} && !(clients <= workers)
  {
    var s: Pool<T> := Init(max, workers, clients);
    InitInv<T>(max, workers, clients);
    InvHolds(s, steps);
    StuckIsIdleOrJammed(After(s, steps), task);
    if clients <= workers {
      assert NobodyRuns(s);
      NobodyEverRuns(s, steps);
    }
    hide After, Stuck, Init;
  }

  /**
    So a pool can come to a standstill with work left if and only if its queue has a bound, it has
    workers, and there is a client to begin with.
   */
  lemma JamsExactly<T(!new)>(max: nat, workers: set<Tid>, clients: set<Tid>, task: T)
    ensures (exists steps: seq<Step<T>> :: LeavesWork(max, workers, clients, steps))
        <==> max > 0 && workers != {} && !(clients <= workers)
  {
    hide LeavesWork;
    if max > 0 && workers != {} && !(clients <= workers) {
      var steps := CanJam(max, workers, clients, task);
    }
    if steps: seq<Step<T>> :| LeavesWork(max, workers, clients, steps) {
      WorkNeeds(max, workers, clients, steps, task);
    }
  }

  // ---------------------------------------------------------------------------------------
  // After `stop`.

  function Rank<T>(p: Place<T>): nat
  {
    match p
    case Done => 0
    case AtTest => 1
    case User => 2
    case _ => 3
  }

  /** What a thread does next on its way out of a stopped pool; a task of the user comes to its end. */
  function WayOut<T>(t: Tid, p: Place<T>): Step<T>
  {
    match p
    case AtTest => Step<T>.Test(t)
    case Taking => Step<T>.Take(t, 0)
    case InTake => TakeAgain(t, 0)
    case InRun(_) => RunAgain(t, 0)
    case _ => Finish(t)
  }

  lemma StepOut<T>(s: Pool<T>, t: Tid)
    requires Inv(s) && !s.running && t in s.place && !s.place[t].Done?
    ensures Enabled(s, WayOut(t, s.place[t]))
    ensures var n := Next(s, WayOut(t, s.place[t]));
            && !n.running && n.place.Keys == s.place.Keys && Rank(n.place[t]) < Rank(s.place[t])
            && forall u | u in s.place && u != t :: n.place[u] == s.place[u]
  {
    assert PlacedAt(s, t);
  }

  lemma {:induction false} LeaveOne<T>(s: Pool<T>, t: Tid) returns (steps: seq<Step<T>>)
    requires Inv(s) && !s.running && t in s.place
    ensures IsRun(s, steps)
    ensures var n := After(s, steps);
            && Inv(n) && !n.running && n.place.Keys == s.place.Keys && n.place[t].Done?
            && forall u | u in s.place && u != t :: n.place[u] == s.place[u]
    decreases Rank(s.place[t])
  {
    if s.place[t].Done? {
      steps := [];
    } else {
      var step := WayOut(t, s.place[t]);
      StepOut(s, t);
      StepKeepsInv(s, step);
      OneStep(s, step);
      hide Inv, Enabled, Next, WayOut;
      var rest := LeaveOne(Next(s, step), t);
      RunsJoin(s, [step], rest);
      steps := [step] + rest;
    }
  }

  lemma {:induction false} AllLeave<T>(s: Pool<T>, staying: set<Tid>) returns (steps: seq<Step<T>>)
    requires Inv(s) && !s.running && staying <= s.place.Keys
    requires forall t | t in s.place && t !in staying :: s.place[t].Done?
    ensures IsRun(s, steps)
    ensures forall t | t in After(s, steps).place :: After(s, steps).place[t].Done?
    ensures After(s, steps).place.Keys == s.place.Keys
    decreases staying
  {
    hide Inv;
    if staying == {} {
      steps := [];
    } else {
      var t :| t in staying;
      var first := LeaveOne(s, t);
      var rest := AllLeave(After(s, first), staying - {t});
      RunsJoin(s, first, rest);
      steps := first + rest;
    }
  }

  /**
    After `stop` every thread can leave, from wherever it is, and nothing has to happen but that
    tasks come to their ends: the joins in `stop` return.
   */
  lemma StopLetsAllLeave<T>(max: nat, workers: set<Tid>, clients: set<Tid>, before: seq<Step<T>>)
    returns (steps: seq<Step<T>>)
    requires IsRun(Init(max, workers, clients), before) && Stop in before
    ensures IsRun(After(Init(max, workers, clients), before), steps)
    ensures var s := After(After(Init(max, workers, clients), before), steps);
            forall t | t in s.place :: s.place[t].Done?
  {
    InitInv<T>(max, workers, clients);
    InvHolds(Init(max, workers, clients), before);
    var s := After(Init(max, workers, clients), before);
    steps := AllLeave(s, s.place.Keys);
  }
}
