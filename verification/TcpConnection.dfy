/**
  The output side of a connection: src/net/TcpConnection.cc, with the results of `write` arbitrary.
 */
module TcpConnection {
  import opened Buffer
  import opened Channel

  const MAX_INT := 0x7fff_ffff

  /**
    `out` is what the output buffer holds and `writing` the write interest. `sent` and `accepted`
    record what the application sent and what the socket took; `completions` counts the queued
    write-complete callbacks.
   */
  datatype Output = Output(out: string, writing: bool, sent: string, accepted: string, completions: nat)

  /**
    What can happen: the application sends, or the poller reports the socket writable. `result` is
    what `write` returns, if it is called.
   */
  datatype Event = Send(msg: string, result: int) | Writable(result: int)

  const START := Output("", false, "", "", 0)

  /** What `write` may return for `n` bytes: an error, or how many it took. */
  predicate WriteResult(result: int, n: nat)
  {
    -1 <= result <= n
  }

  predicate Possible(s: Output, e: Event)
  {
    match e
    case Send(msg, result) => |msg| <= MAX_INT && (s.out == "" ==> WriteResult(result, |msg|))
    case Writable(result) => s.writing ==> WriteResult(result, |s.out|)
  }

  /** `send` fails when `write` does: `substr` is then called with -1 and throws. */
  predicate Throws(s: Output, e: Event)
  {
    e.Send? && s.out == "" && e.result == -1
  }

  function Next(s: Output, e: Event, notify: bool): Output
    requires Possible(s, e)
  {
    match e
    case Send(msg, result) =>
      if s.out != "" then s.(out := s.out + msg, sent := s.sent + msg, writing := s.writing || msg != "")
      else if result == -1 then s
      else if result == |msg| then
        s.(sent := s.sent + msg, accepted := s.accepted + msg, completions := s.completions + if notify then 1 else 0)
      else
        s.(out := msg[result..], sent := s.sent + msg, accepted := s.accepted + msg[..result], writing := true)
    case Writable(result) =>
      if s.writing && result > 0 then
        s.(out := s.out[result..], accepted := s.accepted + s.out[..result],
           writing := result < |s.out|, completions := s.completions + if result == |s.out| then 1 else 0)
      else s
  }

  predicate IsRun(s: Output, events: seq<Event>, notify: bool)
    decreases |events|
  {
    events == [] || (Possible(s, events[0]) && IsRun(Next(s, events[0], notify), events[1..], notify))
  }

  function After(s: Output, events: seq<Event>, notify: bool): Output
    requires IsRun(s, events, notify)
    decreases |events|
  {
    if events == [] then s else After(Next(s, events[0], notify), events[1..], notify)
  }

  /** The messages whose `send` returned, one after another. */
  function Sent(s: Output, events: seq<Event>, notify: bool): string
    requires IsRun(s, events, notify)
    decreases |events|
  {
    if events == [] then ""
    else
      (if events[0].Send? && !Throws(s, events[0]) then events[0].msg else "")
      + Sent(Next(s, events[0], notify), events[1..], notify)
  }

  ghost predicate Inv(s: Output)
  {
    s.accepted + s.out == s.sent && (s.writing <==> s.out != "")
  }

  lemma StepKeepsInv(s: Output, e: Event, notify: bool)
    requires Inv(s) && Possible(s, e)
    ensures Inv(Next(s, e, notify))
    ensures Next(s, e, notify).sent == s.sent + if e.Send? && !Throws(s, e) then e.msg else ""
  {
    match e {
      case Send(msg, result) =>
        if s.out != "" {
          assert s.accepted + (s.out + msg) == (s.accepted + s.out) + msg;
        } else if result >= 0 {
          assert (s.accepted + msg[..result]) + msg[result..] == s.accepted + msg;
        }
      case Writable(result) =>
        if s.writing && result > 0 {
          assert (s.accepted + s.out[..result]) + s.out[result..] == s.accepted + s.out;
        }
    }
  }

  lemma {:induction false} Runs(s: Output, events: seq<Event>, notify: bool)
    requires Inv(s) && IsRun(s, events, notify)
    ensures Inv(After(s, events, notify))
    ensures After(s, events, notify).sent == s.sent + Sent(s, events, notify)
    decreases |events|
  {
    hide Inv, Next, Possible;
    if events == [] {
    } else {
      StepKeepsInv(s, events[0], notify);
      Runs(Next(s, events[0], notify), events[1..], notify);
    }
  }

  /**
    Whatever `write` returns, the bytes the socket took and the bytes still buffered are together
    the messages sent, in order; and write interest is on exactly while something is buffered.
   */
  lemma OutputConserved(events: seq<Event>, notify: bool)
    requires IsRun(START, events, notify)
    ensures var s := After(START, events, notify);
            && s.accepted + s.out == Sent(START, events, notify)
            && (s.writing <==> s.out != "")
  {
    Runs(START, events, notify);
  }

  /**
    A write-complete callback is queued by a step exactly when that step leaves nothing to write
    after something was to be written, by `send` only if the callback is set. `handleWrite` does
    not look whether it is.
   */
  lemma CompletionMeansFlushed(s: Output, e: Event, notify: bool)
    requires Inv(s) && Possible(s, e)
    ensures var n := Next(s, e, notify);
            && s.completions <= n.completions <= s.completions + 1
            && (n.completions > s.completions ==> n.accepted == n.sent)
            && (n.completions > s.completions <==>
                  n.out == "" && (if e.Send? then notify && !Throws(s, e) else s.out != ""))
  {
    StepKeepsInv(s, e, notify);
  }

  // ---------------------------------------------------------------------------------------
  // Flushing.

  /** Reports that the socket is writable, with what `write` returns each time. */
  function Writables(results: seq<int>): (events: seq<Event>)
    ensures |events| == |results|
  {
    seq(|results|, i requires 0 <= i < |results| => Writable(results[i]))
  }

  /** The bytes these results stand for; errors and zeros stand for none. */
  function Total(results: seq<int>): nat
    decreases |results|
  {
    if results == [] then 0 else (if results[0] > 0 then results[0] else 0) + Total(results[1..])
  }

  function Min(a: int, b: int): int
  {
    if a < b then a else b
  }

  lemma WritableStep(s: Output, result: int, notify: bool)
    requires Inv(s) && Possible(s, Writable(result))
    ensures var n := Next(s, Writable(result), notify);
            && Inv(n) && n.sent == s.sent
            && n.out == s.out[Min(Total([result]), |s.out|)..]
            && n.completions == s.completions + if s.out != "" && Total([result]) >= |s.out| then 1 else 0
  {
    StepKeepsInv(s, Writable(result), notify);
    assert Total([result]) == if result > 0 then result else 0 by {
      assert [result][1..] == [];
    }
  }

  lemma DropTwice(text: string, a: nat, b: nat)
    ensures var once := text[Min(a, |text|)..];
            once[Min(b, |once|)..] == text[Min(a + b, |text|)..]
            && (once == "" <==> a >= |text|)
  {
  }

  /**
    While bytes are buffered the poller keeps reporting. However `write` divides them up, and with
    errors in between, the reports take the buffered bytes from the front; the buffer is empty
    exactly when they add up to all of them, and then one completion has been queued, and no more.
   */
  lemma {:induction false} FlushCompletes(s: Output, results: seq<int>, notify: bool)
    requires Inv(s) && IsRun(s, Writables(results), notify)
    ensures var t := After(s, Writables(results), notify);
            && t.out == s.out[Min(Total(results), |s.out|)..]
            && (t.out == "" <==> Total(results) >= |s.out|)
            && t.completions == s.completions + (if s.out != "" && t.out == "" then 1 else 0)
            && t.accepted + t.out == s.sent
    decreases |results|
  {
    if results == [] {
      assert s.out[0..] == s.out;
      hide Next, Possible;
    } else {
      assert Writables(results)[0] == Writable(results[0]) && Writables(results)[1..] == Writables(results[1..]);
      hide Next, Possible, Inv, Writables;
      WritableStep(s, results[0], notify);
      assert Total(results) == Total([results[0]]) + Total(results[1..]) by {
        assert [results[0]][1..] == [];
      }
      var n := Next(s, Writable(results[0]), notify);
      FlushCompletes(n, results[1..], notify);
      hide After, IsRun, Total;
      DropTwice(s.out, Total([results[0]]), Total(results[1..]));
    }
  }

  /** What `send` does, by the number of bytes that `write` took. */
  lemma SendByCount(s: Output, msg: string, result: int, notify: bool)
    requires Inv(s) && Possible(s, Send(msg, result)) && !Throws(s, Send(msg, result))
    ensures var n := if s.out == "" then result else 0;
            && 0 <= n <= |msg|
            && Next(s, Send(msg, result), notify)
               == Output(s.out + msg[n..], s.writing || n < |msg|, s.sent + msg, s.accepted + msg[..n],
                         s.completions + if s.out == "" && n == |msg| && notify then 1 else 0)
  {
  }

  class TcpConnection {
    const channel: Channel
    const outputBuf: Buffer
    const hasCallback: bool
    var completions: nat
    ghost var sent: string
    ghost var accepted: string

    ghost predicate Valid()
      reads this, channel, outputBuf, outputBuf.buffer
    {
      outputBuf.Valid() && Inv(State())
    }

    ghost function State(): Output
      requires outputBuf.Valid()
      reads this, channel, outputBuf, outputBuf.buffer
    {
      Output(outputBuf.Contents(), channel.IsWriting(), sent, accepted, completions)
    }

    constructor (hasCallback: bool)
      ensures Valid() && State() == START
      ensures fresh(channel) && fresh(outputBuf) && fresh(outputBuf.buffer)
    {
      channel := new Channel();
      outputBuf := new Buffer(INITIAL_SIZE);
      this.hasCallback := hasCallback;
      completions, sent, accepted := 0, "", "";
    }

    /** `result` is what `write` returns, if it is called. */
    method Send(msg: string, result: int) returns (thrown: bool)
      requires Valid() && Possible(State(), Event.Send(msg, result))
      modifies this, channel, outputBuf, outputBuf.buffer
      ensures Valid() && State() == Next(old(State()), Event.Send(msg, result), hasCallback)
      ensures thrown == Throws(old(State()), Event.Send(msg, result))
      ensures channel.IsReading() == old(channel.IsReading())
    {
      ghost var before := State();
      StepKeepsInv(before, Event.Send(msg, result), hasCallback);
      if outputBuf.ReadableBytes() <= 0 && result == -1 {
        // The error is printed, and then the condition below holds: substr(-1, ..) throws.
        return true;
      }
      SendByCount(before, msg, result, hasCallback);
      hide Inv, Next;
      var nwrite := 0;
      if outputBuf.ReadableBytes() <= 0 {
        assert before.out == "";
        nwrite := result;
        if nwrite == |msg| && hasCallback {
          completions := completions + 1;
        }
      }
      if nwrite < |msg| {
        Keep(msg[nwrite..]);
      }
      sent := sent + msg;
      accepted := accepted + msg[..nwrite];
      thrown := false;
      assert State() == Next(before, Event.Send(msg, result), hasCallback);
    }

    /** Appends to the output buffer and switches write interest on. */
    method Keep(rest: string)
      requires outputBuf.Valid()
      modifies channel, outputBuf, outputBuf.buffer
      ensures outputBuf.Valid() && outputBuf.Contents() == old(outputBuf.Contents()) + rest
      ensures outputBuf.buffer == old(outputBuf.buffer) || fresh(outputBuf.buffer)
      ensures channel.IsWriting() && channel.IsReading() == old(channel.IsReading())
    {
      outputBuf.Append(rest);
      if !channel.IsWriting() {
        channel.EnableWriting(true);
      }
    }

    method HandleWrite(result: int)
      requires Valid() && Possible(State(), Writable(result))
      modifies this, channel, outputBuf
      ensures Valid() && State() == Next(old(State()), Writable(result), hasCallback)
      ensures channel.IsReading() == old(channel.IsReading())
    {
      ghost var before := State();
      StepKeepsInv(before, Writable(result), hasCallback);
      if channel.IsWriting() {
        var nwrite := result;
        if nwrite > 0 {
          outputBuf.Retrieve(nwrite);
          accepted := accepted + before.out[..nwrite];
          if outputBuf.ReadableBytes() <= 0 {
            channel.EnableWriting(false);
            completions := completions + 1;
          }
        }
      }
    }
  }
}
