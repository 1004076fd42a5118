/**
  The protocol between the threads that log and the thread that writes the log file:
  src/base/AsyncLogging.cc, as a state machine over buffer contents.

  A step is what one thread does without the others noticing: a critical section under `mutex_`,
  or a piece of the writer's work on buffers only it can reach. Steps of appenders and writer
  interleave in any order.
 */
module LogProtocol {

  const OVERLOAD := 25

  /** Where the writer thread stands, with the buffers it holds. `spare` says it has `newBuffer2`. */
  datatype Writer =
    | AtHead
    | Entering
    | Waiting(notified: bool)
    | Swapped(batch: seq<string>, spare: bool)
    | Writing(batch: seq<string>, next: nat, spare: bool)
    | Refilling(batch: seq<string>, spare: bool)
    | Exited

  /**
    `current`, `hasNext` and `buffers` are the shared fields; `appended`, `batches` and `written`
    record what was logged, the batches the writer took over, and the bytes of the log file.
   */
  datatype Log = Log(size: nat, current: string, hasNext: bool, buffers: seq<string>,
                     running: bool, writer: Writer,
                     appended: string, batches: seq<seq<string>>, written: string)

  datatype Step = Append(line: string) | Stop | Loop | Lock | Wake | Trim | WriteOne | EndWrite | Refill

  function Init(size: nat): Log
  {
    Log(size, "", true, [], true, AtHead, "", [], "")
  }

  /** `FixedBuffer::append` on a buffer that holds `text`. */
  function Put(size: nat, text: string, line: string): string
  {
    if |text| + |line| < size then text + line else text
  }

  /** `cond_.notify()`: a writer that waits is on its way out of the wait. */
  function Notify(w: Writer): Writer
  {
    if w.Waiting? then Waiting(true) else w
  }

  /** `AsyncLogging::append`. */
  function AppendLine(s: Log, line: string): Log
  {
    var logged := s.appended + (if |line| < s.size then line else "");
    if |s.current| + |line| < s.size then
      s.(current := s.current + line, appended := logged)
    else
      s.(buffers := s.buffers + [s.current], hasNext := false, current := Put(s.size, "", line), appended := logged,
         writer := Notify(s.writer))
  }

  /** The queue after the full buffer has been put there. */
  function Rotate(s: Log): Log
  {
    s.(buffers := s.buffers + [s.current], current := "", hasNext := false)
  }

  /** `append` is an optional rotation, then an append to what is now the current buffer. */
  lemma AppendInTwo(s: Log, line: string)
    ensures var room := |s.current| + |line| < s.size;
            var r := if room then s else Rotate(s);
            Next(s, Append(line)) == r.(current := Put(s.size, r.current, line),
                                        appended := s.appended + (if |line| < s.size then line else ""),
                                        writer := if room then s.writer else Notify(s.writer))
            && r.writer == s.writer
  {
  }

  /** The writer's exchange of buffers, once it holds the mutex and does not wait (any more). */
  function Swap(s: Log): Log
  {
    var batch := s.buffers + [s.current];
    s.(current := "", buffers := [], hasNext := true,
       writer := Swapped(batch, s.hasNext), batches := s.batches + [batch])
  }

  function Survivors(batch: seq<string>): seq<string>
  {
    if |batch| > OVERLOAD then batch[..2] else batch
  }

  predicate Enabled(s: Log, step: Step)
  {
    match step
    case Append(_) => true
    case Stop => true
    case Loop => s.writer.AtHead?
    case Lock => s.writer.Entering?
    case Wake => s.writer.Waiting?
    case Trim => s.writer.Swapped?
    case WriteOne => s.writer.Writing? && s.writer.next < |s.writer.batch|
    case EndWrite => s.writer.Writing? && s.writer.next == |s.writer.batch|
    case Refill => s.writer.Refilling?
  }

  /** The asserts the step runs into: every refill finds a buffer, and the batch is never empty. */
  predicate AssertsHold(s: Log, step: Step)
  {
    match step
    case Trim => s.writer.Swapped? ==> s.writer.batch != []
    case Refill => s.writer.Refilling? ==> |s.writer.batch| >= (if s.writer.spare then 1 else 2)
    case _ => true
  }

  function Next(s: Log, step: Step): Log
    requires Enabled(s, step)
  {
    match step
    case Append(line) => AppendLine(s, line)
    case Stop => s.(running := false, writer := Notify(s.writer))
    case Loop => s.(writer := if s.running then Entering else Exited)
    case Lock => if s.buffers == [] then s.(writer := Waiting(false)) else Swap(s)
    case Wake => Swap(s)
    case Trim => s.(writer := Writing(Survivors(s.writer.batch), 0, s.writer.spare))
    case WriteOne =>
      s.(written := s.written + s.writer.batch[s.writer.next], writer := s.writer.(next := s.writer.next + 1))
    case EndWrite =>
      var kept := if |s.writer.batch| > 2 then s.writer.batch[..2] else s.writer.batch;
      s.(writer := Refilling(kept, s.writer.spare))
    case Refill => s.(writer := AtHead)
  }

  // ---------------------------------------------------------------------------------------
  // Runs.

  predicate IsRun(s: Log, steps: seq<Step>)
    decreases |steps|
  {
    steps == [] || (Enabled(s, steps[0]) && IsRun(Next(s, steps[0]), steps[1..]))
  }

  function After(s: Log, steps: seq<Step>): Log
    requires IsRun(s, steps)
    decreases |steps|
  {
    if steps == [] then s else After(Next(s, steps[0]), steps[1..])
  }

  function Text(buffers: seq<string>): string
  {
    if buffers == [] then "" else Text(buffers[..|buffers| - 1]) + buffers[|buffers| - 1]
  }

  /** Text of all batches, whole and with the overload removed. */
  function Taken(batches: seq<seq<string>>): string
  {
    if batches == [] then "" else Taken(batches[..|batches| - 1]) + Text(batches[|batches| - 1])
  }

  function Kept(batches: seq<seq<string>>): string
  {
    if batches == [] then "" else Kept(batches[..|batches| - 1]) + Text(Survivors(batches[|batches| - 1]))
  }

  /** What the writer holds and has still to write. */
  function InHand(w: Writer): string
  {
    match w
    case Swapped(batch, _) => Text(Survivors(batch))
    case Writing(batch, next, _) => if next <= |batch| then Text(batch[next..]) else ""
    case _ => ""
  }

  /** The lines logged in a run, each shorter than a buffer; longer ones are dropped at once. */
  function Lines(size: nat, steps: seq<Step>): string
  {
    if steps == [] then ""
    else (if steps[0].Append? && |steps[0].line| < size then steps[0].line else "") + Lines(size, steps[1..])
  }

  /** An absent `nextBuffer_` means that `buffers_` has an element; so each batch has enough to refill from, and no more is kept. */
  predicate EnoughBuffers(s: Log)
  {
    && (!s.hasNext ==> s.buffers != [])
    && (s.writer.Swapped? ==> |s.writer.batch| >= if s.writer.spare then 1 else 2)
    && (s.writer.Writing? ==> |s.writer.batch| >= (if s.writer.spare then 1 else 2) && s.writer.next <= |s.writer.batch|)
    && (s.writer.Refilling? ==> 2 >= |s.writer.batch| >= if s.writer.spare then 1 else 2)
  }

  predicate Conserved(s: Log)
  {
    && s.appended == Taken(s.batches) + Text(s.buffers) + s.current
    && s.written + InHand(s.writer) == Kept(s.batches)
  }

  lemma {:induction false} TextConcat(x: seq<string>, y: seq<string>)
    ensures Text(x + y) == Text(x) + Text(y)
  {
    if y == [] {
      assert x + y == x;
    } else {
      assert (x + y)[..|x + y| - 1] == x + y[..|y| - 1];
      TextConcat(x, y[..|y| - 1]);
    }
  }

  lemma TextOne(t: string)
    ensures Text([t]) == t
  {
    assert [t][..0] == [];
  }

  lemma TextNone()
    ensures Text([]) == ""
  {
  }

  lemma TextHead(b: seq<string>, i: nat)
    requires i < |b|
    ensures Text(b[i..]) == b[i] + Text(b[i + 1..])
  {
    assert b[i..] == [b[i]] + b[i + 1..];
    TextConcat([b[i]], b[i + 1..]);
    TextOne(b[i]);
  }

  lemma Snoc(batches: seq<seq<string>>, batch: seq<string>)
    ensures Taken(batches + [batch]) == Taken(batches) + Text(batch)
    ensures Kept(batches + [batch]) == Kept(batches) + Text(Survivors(batch))
  {
    assert (batches + [batch])[..|batches|] == batches;
  }

  lemma StepEnough(s: Log, step: Step)
    requires Enabled(s, step) && EnoughBuffers(s)
    ensures EnoughBuffers(Next(s, step)) && AssertsHold(s, step)
  {
  }

  lemma Join(x: string, y: string, z: string)
    ensures x + y + z == x + (y + z)
    ensures x + "" == x && "" + x == x
  {
  }

  lemma QueueCurrent(s: Log)
    ensures Text(s.buffers + [s.current]) == Text(s.buffers) + s.current
  {
    TextConcat(s.buffers, [s.current]);
    TextOne(s.current);
  }

  lemma SwapEnough(s: Log)
    requires EnoughBuffers(s)
    ensures EnoughBuffers(Swap(s))
  {
  }

  lemma SwapConserves(s: Log)
    requires Conserved(s) && InHand(s.writer) == ""
    ensures Conserved(Swap(s))
  {
    var batch := s.buffers + [s.current];
    QueueCurrent(s);
    Snoc(s.batches, batch);
    Join(Taken(s.batches), Text(s.buffers), s.current);
    Join(Taken(s.batches + [batch]), "", "");
    Join(s.written, "", "");
    TextNone();
    hide Text, Taken, Kept, Survivors;
  }

  lemma NotifyKeepsHand(w: Writer)
    ensures InHand(Notify(w)) == InHand(w)
  {
  }

  lemma AppendConserves(s: Log, line: string)
    requires Conserved(s)
    ensures Conserved(AppendLine(s, line))
  {
    QueueCurrent(s);
    NotifyKeepsHand(s.writer);
    hide Text, Taken, Kept, Survivors, InHand;
    if |s.current| + |line| < s.size {
      Join(Taken(s.batches) + Text(s.buffers), s.current, line);
    } else {
      Join(Taken(s.batches), Text(s.buffers), s.current);
      Join(line, "", "");
    }
  }

  lemma StepConserves(s: Log, step: Step)
    requires Enabled(s, step) && Conserved(s)
    ensures Conserved(Next(s, step))
  {
    hide Text, Taken, Kept, Survivors, AppendLine, Swap;
    match step
    case Append(line) => AppendConserves(s, line);
    case Lock => SwapConserves(s);
    case Wake => SwapConserves(s);
    case Trim =>
      var kept := Survivors(s.writer.batch);
      assert kept[0..] == kept;
    case WriteOne =>
      TextHead(s.writer.batch, s.writer.next);
      Join(s.written, s.writer.batch[s.writer.next], Text(s.writer.batch[s.writer.next + 1..]));
    case EndWrite =>
      assert s.writer.batch[s.writer.next..] == [];
      TextNone();
      Join(s.written, "", "");
    case _ =>
  }

  lemma StepAppends(s: Log, step: Step)
    requires Enabled(s, step)
    ensures Next(s, step).size == s.size
    ensures Next(s, step).appended == s.appended + if step.Append? && |step.line| < s.size then step.line else ""
  {
  }

  lemma AssertsSafe(s: Log)
    requires EnoughBuffers(s)
    ensures forall step :: Enabled(s, step) ==> AssertsHold(s, step)
  {
  }

  /** Main result: in every interleaving no assert fails and no byte is lost but by overload. */
  lemma {:induction false} EveryRun(s: Log, steps: seq<Step>)
    requires IsRun(s, steps) && EnoughBuffers(s) && Conserved(s)
    ensures var t := After(s, steps);
            && EnoughBuffers(t) && Conserved(t)
            && t.appended == s.appended + Lines(s.size, steps)
            && t.size == s.size
    decreases |steps|
  {
    hide Next, EnoughBuffers, Conserved, Enabled, AssertsHold;
    if steps != [] {
      StepEnough(s, steps[0]);
      StepConserves(s, steps[0]);
      StepAppends(s, steps[0]);
      EveryRun(Next(s, steps[0]), steps[1..]);
    }
  }

  /**
    From the start: the logged lines are, in order, the batches the writer took, the queued
    buffers and the current one; the file and what the writer holds are these batches less the
    third and later buffers of those over 25.
   */
  lemma LogConservation(size: nat, steps: seq<Step>)
    requires IsRun(Init(size), steps)
    ensures var t := After(Init(size), steps);
            && Lines(size, steps) == Taken(t.batches) + Text(t.buffers) + t.current
            && t.written + InHand(t.writer) == Kept(t.batches)
            && (forall step :: Enabled(t, step) ==> AssertsHold(t, step))
  {
    EveryRun(Init(size), steps);
    AssertsSafe(After(Init(size), steps));
  }

  /** What overload drops of a batch, if anything, is empty. */
  predicate BatchWhole(batch: seq<string>)
  {
    |batch| > OVERLOAD ==> Text(batch[2..]) == ""
  }

  /** So it is in all batches. */
  predicate NothingDropped(batches: seq<seq<string>>)
  {
    forall i :: 0 <= i < |batches| ==> BatchWhole(batches[i])
  }

  lemma SurvivorsShorter(batch: seq<string>)
    ensures |Text(Survivors(batch))| <= |Text(batch)|
    ensures |Text(Survivors(batch))| == |Text(batch)| <==> BatchWhole(batch)
    ensures BatchWhole(batch) ==> Text(Survivors(batch)) == Text(batch)
  {
    if |batch| > OVERLOAD {
      assert batch == batch[..2] + batch[2..];
      TextConcat(batch[..2], batch[2..]);
    }
  }

  lemma {:induction false} KeptShorter(batches: seq<seq<string>>)
    ensures |Kept(batches)| <= |Taken(batches)|
    ensures |Kept(batches)| == |Taken(batches)| <==> NothingDropped(batches)
    ensures NothingDropped(batches) ==> Kept(batches) == Taken(batches)
    decreases |batches|
  {
    hide Survivors, Text, BatchWhole;
    if batches == [] {
    } else {
      var front, last := batches[..|batches| - 1], batches[|batches| - 1];
      KeptShorter(front);
      SurvivorsShorter(last);
      WholeSnoc(front, last);
      assert batches == front + [last];
      hide NothingDropped;
    }
  }

  lemma WholeSnoc(front: seq<seq<string>>, last: seq<string>)
    ensures NothingDropped(front + [last]) <==> NothingDropped(front) && BatchWhole(last)
  {
    hide BatchWhole;
    if NothingDropped(front + [last]) {
      assert (front + [last])[|front|] == last;
      assert forall i :: 0 <= i < |front| ==> (front + [last])[i] == front[i];
    }
  }

  /**
    File, writer, queue and current buffer make up all lines if and only if no batch over 25 had
    text in its third and later buffers.
   */
  lemma LosslessExactly(size: nat, steps: seq<Step>)
    requires IsRun(Init(size), steps)
    ensures var t := After(Init(size), steps);
            t.written + InHand(t.writer) + Text(t.buffers) + t.current == Lines(size, steps)
            <==> NothingDropped(t.batches)
  {
    LogConservation(size, steps);
    KeptShorter(After(Init(size), steps).batches);
    hide After, Lines, Taken, Kept, Text, InHand, NothingDropped;
  }

  // ---------------------------------------------------------------------------------------
  // What a writer that has left its loop leaves behind.

  /** Steps in which the writer takes over the queue and the current buffer. */
  predicate Exchanges(s: Log, step: Step)
  {
    step.Wake? || (step.Lock? && s.buffers != [])
  }

  /** The lines accepted after the last exchange of a run, or after `sofar` if there is none. */
  function SinceExchange(s: Log, steps: seq<Step>, sofar: string): string
    requires IsRun(s, steps)
    decreases |steps|
  {
    if steps == [] then sofar
    else
      var more := if Exchanges(s, steps[0]) then "" else sofar + Lines(s.size, [steps[0]]);
      SinceExchange(Next(s, steps[0]), steps[1..], more)
  }

  /** The lines that wait for the next exchange. */
  function Pending(s: Log): string
  {
    Text(s.buffers) + s.current
  }

  lemma StepPending(s: Log, step: Step)
    requires Enabled(s, step)
    ensures Pending(Next(s, step)) == if Exchanges(s, step) then "" else Pending(s) + Lines(s.size, [step])
  {
    LineOne(s.size, step);
    hide Text, Lines;
    match step {
      case Append(line) => AppendPending(s, line);
      case Lock => TextNone();
      case Wake => TextNone();
      case _ =>
    }
  }

  lemma LineOne(size: nat, step: Step)
    ensures Lines(size, [step]) == if step.Append? && |step.line| < size then step.line else ""
  {
    assert [step][1..] == [];
  }

  lemma AppendPending(s: Log, line: string)
    ensures Pending(AppendLine(s, line)) == Pending(s) + if |line| < s.size then line else ""
  {
    QueueCurrent(s);
    hide Text;
    Join(Text(s.buffers), s.current, line);
  }

  lemma {:induction false} RunPending(s: Log, steps: seq<Step>)
    requires IsRun(s, steps)
    ensures Pending(After(s, steps)) == SinceExchange(s, steps, Pending(s))
    decreases |steps|
  {
    hide Next, Enabled, Exchanges, Pending, Lines;
    if steps != [] {
      StepPending(s, steps[0]);
      RunPending(Next(s, steps[0]), steps[1..]);
    }
  }

  /**
    A writer that has left its loop leaves unwritten exactly the lines accepted after its last
    exchange; so all lines are in the file if and only if there are none, and overload dropped
    nothing.
   */
  lemma ExitLosesExactly(size: nat, steps: seq<Step>)
    requires IsRun(Init(size), steps) && After(Init(size), steps).writer.Exited?
    ensures var t := After(Init(size), steps);
            var tail := SinceExchange(Init(size), steps, "");
            && t.written == Kept(t.batches)
            && Lines(size, steps) == Taken(t.batches) + tail
            && (t.written == Lines(size, steps) <==> NothingDropped(t.batches) && tail == "")
  {
    var t := After(Init(size), steps);
    LogConservation(size, steps);
    RunPending(Init(size), steps);
    KeptShorter(t.batches);
    Join(Taken(t.batches), Text(t.buffers), t.current);
    Join(t.written, "", "");
    assert Pending(Init(size)) == "";
    assert Pending(t) == Text(t.buffers) + t.current;
    hide After, Lines, Taken, Kept, Text, NothingDropped, SinceExchange, Pending;
    LossByLength(Kept(t.batches), Taken(t.batches), SinceExchange(Init(size), steps, ""), NothingDropped(t.batches));
  }

  lemma LossByLength(kept: string, taken: string, tail: string, whole: bool)
    requires |kept| <= |taken| && (|kept| == |taken| <==> whole) && (whole ==> kept == taken)
    ensures kept == taken + tail <==> whole && tail == ""
  {
    if whole && tail == "" {
      assert taken + tail == taken;
    } else {
      assert |taken + tail| == |taken| + |tail|;
    }
  }

  /** Such a loss: the line comes after the last exchange, here before any. */
  lemma ExitLosesTail()
    ensures var steps := [Append("x"), Stop, Loop];
            IsRun(Init(10), steps) && After(Init(10), steps).writer.Exited?
            && Lines(10, steps) == "x" && After(Init(10), steps).written == ""
  {
    var s1 := Next(Init(10), Append("x"));
    var s2 := Next(s1, Stop);
    var s3 := Next(s2, Loop);
    assert [Append("x"), Stop, Loop][1..] == [Stop, Loop] && [Stop, Loop][1..] == [Loop] && [Loop][1..] == [];
    assert After(s2, [Loop]) == s3 && After(s1, [Stop, Loop]) == s3;
    assert Lines(10, [Loop]) == "" && Lines(10, [Stop, Loop]) == "";
  }

  // ---------------------------------------------------------------------------------------
  // The writer keeps writing, and stops when told to.

  lemma StepNeedsStop(s: Log, step: Step)
    requires Enabled(s, step)
    ensures Next(s, step).running == (s.running && step != Stop)
    ensures Next(s, step).writer.Exited? ==> s.writer.Exited? || !s.running
  {
  }

  lemma {:induction false} RunNeedsStop(s: Log, steps: seq<Step>)
    requires IsRun(s, steps)
    ensures After(s, steps).running == (s.running && Stop !in steps)
    ensures After(s, steps).writer.Exited? ==> s.writer.Exited? || !s.running || Stop in steps
    decreases |steps|
  {
    hide Next, Enabled;
    if steps != [] {
      StepNeedsStop(s, steps[0]);
      RunNeedsStop(Next(s, steps[0]), steps[1..]);
      assert Stop in steps <==> steps[0] == Stop || Stop in steps[1..];
    }
  }

  /** The writer leaves its loop only after `stop`. */
  lemma ExitNeedsStop(size: nat, steps: seq<Step>)
    requires IsRun(Init(size), steps)
    ensures After(Init(size), steps).writer.Exited? ==> Stop in steps
  {
    RunNeedsStop(Init(size), steps);
  }

  /** A writer that sleeps without having been notified has nothing to write. */
  predicate SleepsForReason(s: Log)
  {
    s.writer == Waiting(false) ==> s.buffers == []
  }

  /** Whether `stop` came before the writer locked the mutex the last time. */
  function LockedAfterStop(steps: seq<Step>, stopped: bool, last: bool): bool
    decreases |steps|
  {
    if steps == [] then last
    else LockedAfterStop(steps[1..], stopped || steps[0] == Stop, if steps[0] == Lock then stopped else last)
  }

  lemma StepSleeps(s: Log, step: Step, last: bool)
    requires Enabled(s, step) && SleepsForReason(s) && (s.writer == Waiting(false) ==> (!s.running <==> last))
    ensures var n := Next(s, step);
            SleepsForReason(n) && (n.writer == Waiting(false) ==> (!n.running <==> if step == Lock then !s.running else last))
  {
    hide Put;
  }

  lemma {:induction false} RunSleeps(s: Log, steps: seq<Step>, last: bool)
    requires IsRun(s, steps) && SleepsForReason(s) && (s.writer == Waiting(false) ==> (!s.running <==> last))
    ensures var t := After(s, steps);
            && SleepsForReason(t)
            && (t.writer == Waiting(false) ==> (!t.running <==> LockedAfterStop(steps, !s.running, last)))
    decreases |steps|
  {
    hide Next, Enabled, SleepsForReason;
    if steps != [] {
      StepSleeps(s, steps[0], last);
      StepNeedsStop(s, steps[0]);
      RunSleeps(Next(s, steps[0]), steps[1..], if steps[0] == Lock then !s.running else last);
    }
  }

  /**
    No notification of a full buffer is lost. One of `stop` is: the writer sleeps on unaware of it,
    until its wait times out, exactly if it locked the mutex, the last time, after the `stop`; then
    its loop test had come before.
   */
  lemma SleepingWriter(size: nat, steps: seq<Step>)
    requires IsRun(Init(size), steps) && After(Init(size), steps).writer == Waiting(false)
    ensures After(Init(size), steps).buffers == []
    ensures Stop in steps <==> LockedAfterStop(steps, false, false)
  {
    RunSleeps(Init(size), steps, false);
    RunNeedsStop(Init(size), steps);
  }

  lemma StopUnnoticed()
    ensures var steps := [Loop, Stop, Lock];
            IsRun(Init(10), steps) && After(Init(10), steps).writer == Waiting(false) && !After(Init(10), steps).running
  {
    var s1 := Next(Init(10), Loop);
    var s2 := Next(s1, Stop);
    var s3 := Next(s2, Lock);
    assert [Loop, Stop, Lock][1..] == [Stop, Lock] && [Stop, Lock][1..] == [Lock] && [Lock][1..] == [];
    assert After(s2, [Lock]) == s3 && After(s1, [Stop, Lock]) == s3;
  }

  // ---------------------------------------------------------------------------------------
  // Progress.

  /** The step the writer itself takes next; its wait may end without a notification. */
  function OwnStep(s: Log): Step
    requires !s.writer.Exited?
  {
    match s.writer
    case AtHead => Loop
    case Entering => Lock
    case Waiting(_) => Wake
    case Swapped(_, _) => Trim
    case Writing(batch, next, _) => if next < |batch| then WriteOne else EndWrite
    case Refilling(_, _) => Refill
  }

  predicate IsOwn(step: Step)
  {
    !step.Append? && !step.Stop?
  }

  lemma OneStep(s: Log, step: Step)
    requires Enabled(s, step)
    ensures IsRun(s, [step]) && After(s, [step]) == Next(s, step)
  {
    hide Next, Enabled;
    assert [step][1..] == [];
    assert After(Next(s, step), []) == Next(s, step);
  }

  lemma {:induction false} RunsJoin(s: Log, first: seq<Step>, second: seq<Step>)
    requires IsRun(s, first) && IsRun(After(s, first), second)
    ensures IsRun(s, first + second) && After(s, first + second) == After(After(s, first), second)
    decreases |first|
  {
    hide Next, Enabled;
    if first == [] {
      assert first + second == second;
    } else {
      assert (first + second)[1..] == first[1..] + second;
      RunsJoin(Next(s, first[0]), first[1..], second);
    }
  }

  /** The writer at work on a batch. */
  predicate AtWork(w: Writer)
  {
    w.Swapped? || w.Writing? || w.Refilling?
  }

  function Left(w: Writer): nat
  {
    match w
    case Swapped(batch, _) => |batch| + 4
    case Writing(batch, next, _) => if next <= |batch| then |batch| - next + 2 else 0
    case Refilling(_, _) => 1
    case _ => 0
  }

  lemma WorkShortens(s: Log)
    requires EnoughBuffers(s) && AtWork(s.writer)
    ensures Enabled(s, OwnStep(s))
    ensures var n := Next(s, OwnStep(s));
            && (n.writer.AtHead? || AtWork(n.writer)) && Left(n.writer) < Left(s.writer)
            && n.buffers == s.buffers && n.current == s.current && n.running == s.running
            && n.batches == s.batches && n.appended == s.appended
  {
  }

  /** A batch in hand gets written, without anybody else's doing. */
  lemma {:induction false} WorkFinishes(s: Log) returns (steps: seq<Step>)
    requires EnoughBuffers(s) && AtWork(s.writer)
    ensures IsRun(s, steps) && forall step | step in steps :: IsOwn(step)
    ensures var t := After(s, steps);
            && t.writer.AtHead? && t.buffers == s.buffers && t.current == s.current && t.running == s.running
            && t.batches == s.batches && t.appended == s.appended
    decreases Left(s.writer)
  {
    WorkShortens(s);
    StepEnough(s, OwnStep(s));
    OneStep(s, OwnStep(s));
    var n := Next(s, OwnStep(s));
    assert IsOwn(OwnStep(s));
    hide Next, Enabled, EnoughBuffers, IsOwn, OwnStep;
    if n.writer.AtHead? {
      steps := [OwnStep(s)];
    } else {
      var rest := WorkFinishes(n);
      RunsJoin(s, [OwnStep(s)], rest);
      steps := [OwnStep(s)] + rest;
    }
  }

  function Before(w: Writer): nat
  {
    match w
    case AtHead => 3
    case Entering => 2
    case Waiting(_) => 1
    case _ => 0
  }

  lemma StepToExchange(s: Log)
    requires EnoughBuffers(s) && Before(s.writer) > 0 && (s.writer.AtHead? ==> s.running)
    ensures Enabled(s, OwnStep(s)) && IsOwn(OwnStep(s))
    ensures var n := Next(s, OwnStep(s));
            && n.running == s.running && n.appended == s.appended && !n.writer.AtHead?
            && (if Before(n.writer) > 0 then Before(n.writer) < Before(s.writer)
                else AtWork(n.writer) && n.buffers == [] && n.current == "")
  {
  }

  /** A writer before its exchange comes to it and takes everything over. */
  lemma {:induction false} ExchangeComes(s: Log) returns (steps: seq<Step>)
    requires EnoughBuffers(s) && Before(s.writer) > 0 && (s.writer.AtHead? ==> s.running)
    ensures IsRun(s, steps) && forall step | step in steps :: IsOwn(step)
    ensures var t := After(s, steps);
            && EnoughBuffers(t) && AtWork(t.writer) && t.running == s.running && t.buffers == [] && t.current == ""
            && t.appended == s.appended
    decreases Before(s.writer)
  {
    StepToExchange(s);
    StepEnough(s, OwnStep(s));
    OneStep(s, OwnStep(s));
    var n := Next(s, OwnStep(s));
    hide Next, Enabled, EnoughBuffers, IsOwn, OwnStep;
    if Before(n.writer) == 0 {
      steps := [OwnStep(s)];
    } else {
      var rest := ExchangeComes(n);
      RunsJoin(s, [OwnStep(s)], rest);
      steps := [OwnStep(s)] + rest;
    }
  }

  /** The next exchange and the writing of its batch. */
  lemma NextRound(s: Log) returns (steps: seq<Step>)
    requires EnoughBuffers(s) && Before(s.writer) > 0 && (s.writer.AtHead? ==> s.running)
    ensures IsRun(s, steps) && forall step | step in steps :: IsOwn(step)
    ensures var t := After(s, steps);
            t.writer.AtHead? && t.running == s.running && t.buffers == [] && t.current == "" && t.appended == s.appended
  {
    hide IsOwn;
    var first := ExchangeComes(s);
    var rest := WorkFinishes(After(s, first));
    RunsJoin(s, first, rest);
    steps := first + rest;
  }

  /** To the head of the loop, by way of an exchange. */
  lemma ToHead(s: Log) returns (steps: seq<Step>)
    requires EnoughBuffers(s) && s.running && !s.writer.Exited?
    ensures IsRun(s, steps) && forall step | step in steps :: IsOwn(step)
    ensures var t := After(s, steps);
            t.writer.AtHead? && t.running && t.buffers == [] && t.current == "" && t.appended == s.appended
  {
    if AtWork(s.writer) {
      hide IsOwn;
      var first := WorkFinishes(s);
      EnoughAfter(s, first);
      var rest := NextRound(After(s, first));
      RunsJoin(s, first, rest);
      steps := first + rest;
    } else {
      steps := NextRound(s);
    }
  }

  lemma {:induction false} EnoughAfter(s: Log, steps: seq<Step>)
    requires EnoughBuffers(s) && IsRun(s, steps)
    ensures EnoughBuffers(After(s, steps))
    decreases |steps|
  {
    hide EnoughBuffers, Next, Enabled;
    if steps != [] {
      StepEnough(s, steps[0]);
      EnoughAfter(Next(s, steps[0]), steps[1..]);
    }
  }

  /**
    As long as it has not been stopped, the writer gets everything logged so far into the file (but
    for what overload drops) by its own steps, whatever happened before.
   */
  lemma WriterCatchesUp(size: nat, before: seq<Step>) returns (steps: seq<Step>)
    requires IsRun(Init(size), before) && Stop !in before
    ensures forall step | step in steps :: IsOwn(step)
    ensures IsRun(Init(size), before + steps)
    ensures var t := After(Init(size), before + steps);
            t.writer.AtHead? && t.written == Kept(t.batches) && Taken(t.batches) == Lines(size, before)
  {
    var s := After(Init(size), before);
    EveryRun(Init(size), before);
    RunNeedsStop(Init(size), before);
    steps := ToHead(s);
    RunsJoin(Init(size), before, steps);
    EveryRun(Init(size), before + steps);
    var t := After(s, steps);
    assert Conserved(t);
    hide After, Lines, EnoughBuffers, IsOwn, Taken, Kept;
    TextNone();
    Join(Taken(t.batches), "", "");
    Join(Lines(size, before), "", "");
    Join(t.written, "", "");
  }

  /** Once stopped, it leaves its loop by its own steps: the join in `stop` returns. */
  lemma StoppedWriterLeaves(s: Log) returns (steps: seq<Step>)
    requires EnoughBuffers(s) && !s.running && !s.writer.Exited?
    ensures IsRun(s, steps) && forall step | step in steps :: IsOwn(step)
    ensures After(s, steps).writer.Exited?
  {
    var first: seq<Step> := [];
    if AtWork(s.writer) {
      first := WorkFinishes(s);
    } else if !s.writer.AtHead? {
      first := NextRound(s);
    }
    var t := After(s, first);
    OneStep(t, Loop);
    RunsJoin(s, first, [Loop]);
    steps := first + [Loop];
  }
}
