# A model of the reactor and base library

The repository is a small reactor-style C++ network library with the base classes under it. This
project models the parts of it whose correctness does not lie in a system call, and proves what
they promise:

- **Calendar and time zones.** `Date` is the Julian day arithmetic with C's truncating division,
  against a plain Gregorian calendar (`ValidDate`, `NextDay`, `DateLess`). `TimeZone` is the split
  and join of UTC seconds, the transition table with its binary search, and local time.
- **Logging.** `Decimal` and `LogStream` are integer printing into a fixed buffer. `LogProtocol` is
  the state machine of the threads that log and the one that writes; `AsyncLogging` is the same on
  buffer objects.
- **HTTP.** `Buffer` is the growable buffer, `HttpRequest`, `HttpContext` and `HttpServer` the
  incremental parser and the protocol around it, `HttpResponse` the printer, `HttpGrammar` what exactly is
  accepted and printed, `HttpPipeline` several requests on one connection.
- **Thread pool.** `Mutex`, `ConditionVariable`, `PoolProtocol`, `PoolProgress` and `ThreadPool` are
  the bounded worker pool as a monitor; `BlockingQueue` is the unbounded queue.
- **Event loop.** `Timer`, `TimerList`, `LoopProtocol`, `LoopSafety`, `LoopTheorems`, `TimerQueue` and
  `EventLoop` are the timer set, the functor queue and the two kernel objects behind them.
- **Connections.** `Channel` and `TcpConnection` are the output side of a connection.

`Common` holds what several of them use.

Where threads or callbacks interleave, there is a state machine on values (`LogProtocol`,
`PoolProtocol`, `LoopProtocol`, the one in `BlockingQueue`): a step is what one thread does from
taking a mutex to giving it up, or one callback, and theorems are about every sequence of enabled
steps. `Mutex` alone is finer, one word written at a time. Kernel choices (which sleeper a notify
picks, spurious wakeups, what `write` returns, what the clock reads, what the poll reports) are
parameters of the steps. Beside each machine stands a class with the fields of the C++ class, whose
methods are proved to do exactly those steps. Bytes are characters; integers are unbounded except
where the width matters, and there it is written out.

## Where the code does not keep a promise

Each of these is stated as an exact condition in the table below.

- Dates before 1 March -4800 are not read back, and `tm_yday` is one too small for the instants of
  year -4800 that are in range. After the day 536838867 the 32-bit arithmetic overflows.
- `tm_wday` is negative before day number -1, on all days but one of the week.
- Local time is read back for all instants exactly if every fall back is a step of 3600 seconds
  from daylight saving to standard time; otherwise the last second before the clock goes back is lost.
- A `Content-Length` line longer than 31 characters is cut by `snprintf`, together with its line
  end, so bodies from 10^13 bytes on print a header line that runs into the next.
- A request whose method is DELETE parses but prints as UNKNOWN.
- A logger whose writer has left its loop has written all lines if and only if none was accepted
  after its last exchange and overload dropped nothing.
- A `stop` of the logger goes unnoticed, until the timed wait of the writer ends, exactly if the
  writer locks the mutex after it, having tested its loop condition before.
- A pool whose tasks call `run` can come to a standstill with work left if and only if its queue is
  bounded, it has workers, and there is a client besides them.
- `runEvery` truncates its interval, so below one second the timer does not repeat.
- `send` throws if `write` fails, and `handleWrite` queues the write-complete callback even if none
  is set.

## Model

| member | source | states |
|---|---|---|
| `Date.DateRoundTrip` | src/base/Date.cc:14-35 | a valid date is read back from its day number if and only if it is 1 March -4800 or later |
| `Date.JulianDayRoundTrip` | src/base/Date.cc:22-35 | a number gives a valid date exactly from -32044 on, and that date gives the number back |
| `Date.NextDayIsNextNumber` | src/base/Date.cc:14-20 | consecutive days of the Gregorian calendar have consecutive numbers |
| `Date.DayNumberOrder` | src/base/Date.h:74-77 | comparing numbers is comparing dates |
| `Date.DayOfYear` | src/base/Date.cc:14-20 | the distance to 1 January is the lengths of the months before, leap years included, plus the day less one |
| `Date.NoOverflow` | src/base/Date.cc:22-35 | from the first day on, no intermediate of the split leaves 32 bits exactly up to day 536838867, where the first product still fits |
| `Date.JoinNoOverflow` | src/base/Date.cc:14-20 | for the dates of these days, and the first days of their years, no intermediate of the join does |
| `TimeZone.UtcRoundTrip` | src/base/TimeZone.cc:310-350 | a time splits into valid fields if and only if its day is in the calendar, negative times included, and the fields give it back; there is no offset and no daylight saving in them |
| `TimeZone.UtcFieldsRoundTrip` | src/base/TimeZone.cc:310-350 | valid fields in the calendar are joined and split back unchanged |
| `TimeZone.UtcOrder` | src/base/TimeZone.cc:310-336 | earlier times have lexicographically smaller fields, and conversely |
| `TimeZone.UtcDayOfYear` | src/base/TimeZone.cc:330-334 | `tm_yday` is the day of the year if and only if the time is not before 1 January -4799 |
| `TimeZone.UtcWeekDay` | src/base/TimeZone.cc:328 | `tm_wday` is the day of the week counted from Thursday, 1 January 1970, if and only if the day number is -1 or more or that day is a Sunday |
| `TimeZone.UtcNoOverflow` | src/base/TimeZone.cc:310-350 | the split stays within `int` exactly up to second 46172011391999, and up to there the join does, too, and gives the time back |
| `TimeZone.BuildTransitions` | src/base/TimeZone.cc:190-195 | the loop builds, for each entry, the transition with its local time |
| `TimeZone.LowerBoundIsBound` | src/base/TimeZone.cc:225-228 | the binary search ends with all smaller keys before it and all others from it on, for either key |
| `TimeZone.FindsSegment` | src/base/TimeZone.cc:215-244 | a lookup by either key finds the rule of the segment the key lies in, also before the first and after the last transition |
| `TimeZone.LocalFields` | src/base/TimeZone.cc:266-286 | the fields of an instant are those of the clock of its segment: date and time, offset, daylight saving, day of the year and of the week |
| `TimeZone.StandardTimeRead` | src/base/TimeZone.cc:288-308 | a standard time is read by the segment it lies in on the local clock; one that a step forward skips, by the segment before the step |
| `TimeZone.DaylightTimeRead` | src/base/TimeZone.cc:288-308 | a daylight saving time is read by the segment it lies in, an hour earlier if that segment has none |
| `TimeZone.LocalRoundTripAt` | src/base/TimeZone.cc:266-308 | one instant is read back if and only if it is not in an hour that comes twice, or that fall back is from daylight saving by 3600 seconds |
| `TimeZone.LocalRoundTrip` | src/base/TimeZone.cc:266-308 | for a consistent zone whose segments are longer than the folds at their ends, all instants are read back if and only if all folds are such |
| `TimeZone.OrdinaryZone` | src/base/TimeZone.cc:266-308 | it holds for every zone whose transitions are more than 3600 seconds apart and fall back by 3600 seconds from daylight saving |
| `TimeZone.LostSecond` | src/base/TimeZone.cc:288-308 | any other fold loses an instant |
| `TimeZone.HalfHourZone` | src/base/TimeZone.cc:288-308 | a zone that loses one: half an hour back, not from daylight saving |
| `Decimal.IntTextUnique` | src/base/LogStream.cc:12-34 | the text printed for a number is the only canonical one with that value: no leading zeros, a sign only if negative |
| `Decimal.DigitsReversed` | src/base/LogStream.cc:21-31 | the digits produced from the last to the first, reversed, are the text |
| `LogStream.FixedBuffer.Append` | src/base/LogStream.h:24-31 | appends the text if it is shorter than the room left, else leaves everything |
| `LogStream.FixedBuffer.Add` | src/base/LogStream.h:38 | the contents get longer by the bytes that were written behind them |
| `LogStream.FixedBuffer.Reset` | src/base/LogStream.h:40 | empties the buffer |
| `LogStream.WriteDigits` | src/base/LogStream.cc:18-25 | the do-while loop, with truncating remainders looked up in the table of 19 digits, leaves the reversed digits of the absolute value |
| `LogStream.Reverse` | src/base/LogStream.cc:31 | reverses a range in place and leaves the rest |
| `LogStream.Convert` | src/base/LogStream.cc:15-34 | any value of up to 64 bits, signed or not, becomes its canonical text and a terminator, and nothing else changes |
| `LogStream.TextFits` | src/base/LogStream.cc:15-34 | such a text has at most 20 characters |
| `LogStream.LogStream.FormatInteger` | src/base/LogStream.cc:39-47 | the text is appended if there is room for the longest number, else nothing happens |
| `LogProtocol.StepEnough` | src/base/AsyncLogging.cc:64-107 | every step keeps the buffers that make the asserts after the exchange and at the two refills hold, keeps two buffers at most for them, and runs into none of these |
| `LogProtocol.AppendInTwo` | src/base/AsyncLogging.cc:24-46 | an append is an optional rotation of buffers and a copy into the current one |
| `LogProtocol.StepConserves` | src/base/AsyncLogging.cc:24-113 | every step keeps each logged byte in exactly one of the log file, the batch in hand, the queue and the current buffer, or among the dropped |
| `LogProtocol.LogConservation` | src/base/AsyncLogging.cc:64-107 | in every interleaving the lines logged are the batches taken, the queue and the current buffer, in order; written and in hand are those batches without the third and later buffers of any over 25; the asserts after the exchange and at the refills hold |
| `LogProtocol.LosslessExactly` | src/base/AsyncLogging.cc:82-88 | file, writer, queue and current buffer make up all lines if and only if no batch over 25 had text in its third and later buffers |
| `LogProtocol.ExitLosesExactly` | src/base/AsyncLogging.cc:58-113 | a writer that has left its loop has not written exactly the lines accepted after its last exchange and what overload dropped; all are in the file if and only if both are empty |
| `LogProtocol.ExitLosesTail` | src/base/AsyncLogging.h:34-39 | a run with such a loss |
| `LogProtocol.ExitNeedsStop` | src/base/AsyncLogging.cc:58 | the writer leaves its loop only after `stop` |
| `LogProtocol.WriterCatchesUp` | src/base/AsyncLogging.cc:58-111 | after any run without `stop`, steps of the writer alone, through an exchange back to the head of the loop, put every line logged so far into the file, but for what overload drops |
| `LogProtocol.StoppedWriterLeaves` | src/base/AsyncLogging.cc:58-112 | once stopped, the writer leaves its loop by its own steps |
| `LogProtocol.SleepingWriter` | src/base/AsyncLogging.cc:33-44 | a writer asleep and not notified has no full buffer to write; it is asleep despite a `stop` if and only if its last lock came after it |
| `LogProtocol.StopUnnoticed` | src/base/AsyncLogging.h:34-39 | a run in which it is |
| `AsyncLogging.NoObjectTwice` | src/base/AsyncLogging.cc:33-43 | current, next, queued, spare and batch buffers are all different objects |
| `AsyncLogging.AsyncLogging.Append` | src/base/AsyncLogging.cc:24-46 | the append of the protocol, on objects, keeping them apart |
| `AsyncLogging.AsyncLogging.StartWriter` | src/base/AsyncLogging.cc:48-57 | the writer begins with two empty spares |
| `AsyncLogging.AsyncLogging.HeadAsserts` | src/base/AsyncLogging.cc:60-62 | at the head of the loop both spares are there, different and empty, and the batch is empty |
| `AsyncLogging.AsyncLogging.Loop` | src/base/AsyncLogging.cc:58 | the loop test |
| `AsyncLogging.AsyncLogging.Lock` | src/base/AsyncLogging.cc:65-69 | exchanges at once, or waits if the queue is empty |
| `AsyncLogging.AsyncLogging.Wake` | src/base/AsyncLogging.cc:68-78 | after the wait, exchanges whatever there is |
| `AsyncLogging.AsyncLogging.Swap` | src/base/AsyncLogging.cc:70-77 | the exchange: queue and current buffer become the batch, the spares take their places |
| `AsyncLogging.AsyncLogging.Trim` | src/base/AsyncLogging.cc:82-84 | a batch over 25 is cut to two |
| `AsyncLogging.AsyncLogging.WriteOne` | src/base/AsyncLogging.cc:86-89 | one buffer of the batch goes to the file |
| `AsyncLogging.AsyncLogging.EndWrite` | src/base/AsyncLogging.cc:90-93 | at most two buffers are kept |
| `AsyncLogging.AsyncLogging.Refill` | src/base/AsyncLogging.cc:95-110 | both spares are refilled from the batch and emptied, which never lacks a buffer |
| `AsyncLogging.AsyncLogging.Stop` | src/base/AsyncLogging.h:34-39 | clears `running_` and nothing else |
| `Buffer.ApplyIsQueueOp` | src/net/Buffer.h:82-182 | every operation acts on the readable bytes as on a plain byte queue and keeps the indices in order |
| `Buffer.CompactionFits` | src/net/Buffer.h:158-165 | after making space the request fits, and bytes are only moved when they do not start at the cheap prepend: the asserts of `makeSpace` |
| `Buffer.SpaceIsMadeLazily` | src/net/Buffer.h:158-165 | making space does nothing if there is enough behind the bytes, grows the memory, by no more than needed, exactly if it would not do at the front either, and else moves the bytes there |
| `Buffer.RoomAfter` | src/net/Buffer.h:82-126 | retrieving part of the bytes leaves the rest in place, retrieving all makes everything behind the cheap prepend writable, and prepending uses the room in front |
| `Buffer.QueueWithinMemory` | src/net/Buffer.h:291-308 | over any run, the contents are the queue's, and if readable plus requested bytes stay within C and requests within L, the memory stays within the larger of its start and C + L + 8 |
| `Buffer.IntRoundTrip` | src/net/Buffer.h:217-266 | the bytes of a signed integer of a width give the integer back |
| `Buffer.PrependThenRead` | src/net/Buffer.h:189-274 | an integer prepended is the next one read, and what was readable before is readable after |
| `Buffer.Buffer.FindCRLF` | src/net/Buffer.h:54-58 | the first CR LF among the readable bytes, or none |
| `Buffer.Buffer.Retrieve` | src/net/Buffer.h:82-93 | drops bytes from the front; an empty buffer starts over |
| `Buffer.Buffer.RetrieveAll` | src/net/Buffer.h:122-126 | empties the buffer |
| `Buffer.Buffer.RetrieveAsString` | src/net/Buffer.h:133-139 | returns what it drops |
| `Buffer.Buffer.MoveToFront` | src/net/Buffer.h:299-305 | the overlapping copy in place keeps the readable bytes |
| `Buffer.Buffer.MakeSpace` | src/net/Buffer.h:291-308 | grows or compacts without touching the readable bytes, and leaves room |
| `Buffer.Buffer.EnsureWritableBytes` | src/net/Buffer.h:158-165 | there is room afterwards |
| `Buffer.Buffer.Append` | src/net/Buffer.h:141-156 | the readable bytes get longer by the data |
| `Buffer.Buffer.Prepend` | src/net/Buffer.h:268-274 | the data comes before the readable bytes |
| `Buffer.Buffer.Shrink` | src/net/Buffer.h:276-282 | the same bytes in a fresh buffer of default size with the reserve |
| `Buffer.Buffer.PeekInt` | src/net/Buffer.h:217-246 | the integer the next bytes stand for |
| `Buffer.Buffer.ReadInt` | src/net/Buffer.h:189-215 | the same, and drops them |
| `Buffer.Buffer.PrependInt` | src/net/Buffer.h:248-266 | prepends the bytes of an integer |
| `HttpRequest.MethodRoundTrip` | src/net/http/HttpRequest.h:42-97 | the string of a method is recognised as that method if and only if it is not DELETE |
| `HttpGrammar.AcceptedLine` | src/net/http/HttpContext.cc:6-49 | a line that is accepted consists of the word of a method, a target and one of the two versions, with one space between them, and the request gets these |
| `HttpGrammar.RequestLineExactly` | src/net/http/HttpContext.cc:6-49 | the parser accepts such lines and no others, DELETE included |
| `HttpGrammar.FirstLineDecides` | src/net/http/HttpContext.cc:57-78 | the first line in the buffer takes the parser to the headers if it is accepted, and otherwise fails it and stays in the buffer |
| `HttpGrammar.FieldLine` | src/net/http/HttpContext.cc:79-94 | every line with a colon adds the field before and after its first colon, whatever white space surrounds the value |
| `HttpGrammar.EndLine` | src/net/http/HttpContext.cc:89-94 | every line without one ends the headers |
| `HttpGrammar.ValueIsTrimmed` | src/net/http/HttpRequest.h:126-136 | a stored value has no white space at its ends and nothing else was taken away |
| `HttpRequest.Spaces` | src/net/http/HttpRequest.h:126-135 | the six characters that are white space |
| `HttpRequest.HttpRequest.SetMethod` | src/net/http/HttpRequest.h:42-71 | sets the method the word names, or the invalid one, and says which |
| `HttpRequest.HttpRequest.AddHeader` | src/net/http/HttpRequest.h:121-137 | the name up to the colon maps to the rest without white space at its ends |
| `HttpRequest.HttpRequest.GetHeader` | src/net/http/HttpRequest.h:139-148 | the value, or the empty string |
| `HttpRequest.HttpRequest.Swap` | src/net/http/HttpRequest.h:153-160 | exchanges two requests |
| `HttpContext.HttpContext.ProcessRequestLine` | src/net/http/HttpContext.cc:6-49 | the request line is split at its spaces and question mark and its version checked |
| `HttpContext.HttpContext.TakeRequestLine` | src/net/http/HttpContext.cc:57-78 | a round at the request line; a bad one is not consumed |
| `HttpContext.HttpContext.TakeHeader` | src/net/http/HttpContext.cc:79-100 | a round at a header line or at the line that ends them |
| `HttpContext.HttpContext.ParseRequest` | src/net/http/HttpContext.cc:51-107 | the loop ends, and comes to the result of the parser function on the readable bytes |
| `HttpContext.HttpContext.Reset` | src/net/http/HttpContext.h:28-33 | an empty request and the first state |
| `HttpContext.ParseOnce` | src/net/http/HttpContext.cc:55-105 | a round that is followed by another has consumed two bytes at least |
| `HttpContext.ParseContinues` | src/net/http/HttpContext.cc:51-107 | parsing some bytes and then more is parsing them together, at the same time |
| `HttpContext.ParseTimeless` | src/net/http/HttpContext.cc:62-67 | the time of receipt decides nothing but its own field |
| `HttpContext.ChunkInvariance` | src/net/http/HttpContext.cc:51-107 | for every way to cut bytes into calls, result, request, state and unread bytes are those of a single call, up to the time of receipt |
| `HttpResponse.HttpResponse.AppendToBuffer` | src/net/http/HttpResponse.cc:8-37 | appends the status line, the automatic headers as `snprintf` leaves them, the headers in order of their names, and the body |
| `HttpGrammar.StatusLineReadBack` | src/net/http/HttpResponse.cc:10-14 | the first line printed says the version, the code and the message if and only if the code has at most 21 digits, as every `int` has |
| `HttpGrammar.BadRequestText` | src/net/http/HttpServer.cc:48 | the 400 text is such a line and an empty one |
| `HttpResponse.ResponseParsed` | src/net/http/HttpResponse.cc:16-36 | the header loop on what follows the status line stops with exactly the body unread and the automatic lines overridden by the headers |
| `HttpResponse.HeadersReadBack` | src/net/http/HttpResponse.cc:16-36 | for clean names and values, the header map is read back if and only if the connection closes, the body is shorter than 10^13, or both automatic headers are overridden |
| `HttpServer.ParsedTargetIsGood` | src/net/http/HttpContext.cc:13-26 | a parsed path has no space and no question mark, and a query that is not empty begins with one |
| `HttpServer.RequestLineReadBack` | src/net/http/HttpContext.cc:6-49 | a printed request line gives method, target and version back if and only if the method has a name and the target is such |
| `HttpServer.RequestReadBack` | src/net/http/HttpContext.cc:51-107 | a whole printed request is read back, with what follows it unread |
| `HttpServer.RequestInChunks` | src/net/http/HttpContext.cc:51-107 | also if it comes in any pieces |
| `HttpServer.AlwaysReady` | src/net/http/HttpServer.cc:41-57 | every message up to the first failure finds a context that may parse and a request without a method, so the loop ends and the assert of `setMethod` holds |
| `HttpServer.RequestServed` | src/net/http/HttpServer.cc:41-57 | the message that completes a request hands over exactly that request and leaves a fresh context |
| `HttpPipeline.PipelinedRequests` | src/net/http/HttpServer.cc:41-57 | requests without bodies sent one after another are handed over in order, at most one for each message, and but for the times of receipt as they were sent; the others are still in the stream, however the messages cut it and wherever it ends |
| `HttpGrammar.ClosingRule` | src/net/http/HttpServer.cc:59-64 | for a request as it was sent, the preset is to close after HTTP/1.1 exactly if its last `Connection` field says "close", and to keep after HTTP/1.0 exactly if that says "Keep-Alive" |
| `HttpServer.Connection.OnRequest` | src/net/http/HttpServer.cc:59-73 | hands over the request and sends the printed response of the application, told to close by the rule for the request's version and `Connection` header |
| `HttpServer.Connection.OnMessage` | src/net/http/HttpServer.cc:41-57 | append, parse, hand over and reset, on the objects: every request handed over has been answered once, in order, a malformed one with the 400 text, and the connection is shut down exactly if a reply or an error closed it |
| `Mutex.AssertLockedIsExact` | src/base/Mutex.h:26-48 | in every interleaving of the single writes, `assertLocked` passes in a thread exactly while it is between `lock` and `unlock` and not in a wait, and at most one is |
| `Mutex.HolderClearAtEnd` | src/base/Mutex.h:20-24 | the assert of the destructor, once no thread is inside |
| `Mutex.MutexLock.Lock` | src/base/Mutex.h:36-40 | the mutex, then `holder_` |
| `Mutex.MutexLock.Unlock` | src/base/Mutex.h:42-46 | `holder_`, then the mutex |
| `Mutex.MutexLock.BeginWait` | src/base/Condition.h:24-28 | the guard clears `holder_` before the wait releases the mutex |
| `Mutex.MutexLock.EndWait` | src/base/Condition.h:24-28 | and assigns it after the wait has it back |
| `ConditionVariable.NotifyCovers` | src/base/Condition.h:32-35 | one notification makes up for one more item of work, whichever sleeper it picks |
| `ConditionVariable.ReturnTakes` | src/base/Condition.h:26-30 | a woken thread may take one item |
| `ConditionVariable.WaitNeedsNoWork` | src/base/Condition.h:24-30 | going to sleep is safe with no item at hand, and needs the others to cover what there is |
| `ConditionVariable.WakeKeeps` | src/base/Condition.h:24-30 | a spurious wakeup harms nothing |
| `PoolProtocol.StepKeepsCover` | src/base/ThreadPool.cc:47-116 | every step keeps items and free slots covered by threads on their way |
| `PoolProtocol.NoWakeupIsLost` | src/base/ThreadPool.cc:68-116 | in every interleaving the queue keeps its bound, a worker sleeps only if queued tasks have as many workers on their way, a caller of `run` only if free slots have as many callers, and after `stop` nobody sleeps |
| `PoolProtocol.FullIsNoSlot` | src/base/ThreadPool.cc:77-85 | in every run, full means that the queue is exactly at its bound, and `run` enqueues exactly when the pool runs and is not full, as its assert says |
| `PoolProtocol.FirstInFirstOut` | src/base/ThreadPool.cc:85-109 | tasks leave once each in the order in which their calls of `run` returned, and before `stop` none is dropped |
| `PoolProtocol.EachTaskOnce` | src/base/ThreadPool.cc:68-110 | the calls of `take` return each queued task once, in order, after `stop` as before: their results, the queue and what `run` dropped make up the tasks of the calls of `run` that came back; without workers those calls ran them |
| `PoolProtocol.EveryCallSettles` | src/base/ThreadPool.cc:68-88 | what a thread passed to `run` is, in order, what its returned calls settled and the task it waits with |
| `PoolProgress.StuckIsIdleOrJammed` | src/base/ThreadPool.cc:68-134 | a running pool at a standstill either has handed out all work or has all workers inside `run` with the queue full |
| `PoolProgress.NoStuckWork` | src/base/ThreadPool.cc:68-134 | if no task calls `run`, or the queue has no bound, a standstill leaves no task behind |
| `PoolProgress.CanJam` | src/base/ThreadPool.cc:68-116 | for every bound, every set of workers and every set of threads with a client among them, a run that jams |
| `PoolProgress.JamsExactly` | src/base/ThreadPool.cc:68-116 | for all pools and clients, a standstill with work left is reachable if and only if there are a bound, workers and a client that is none of them |
| `PoolProgress.StopFinishes` | src/base/ThreadPool.cc:47-60 | after `stop` a standstill means that all threads have left, so the joins return |
| `PoolProgress.StopLetsAllLeave` | src/base/ThreadPool.cc:47-60 | after any run with a `stop` all threads can leave, with nothing needed but that tasks end |
| `ThreadPool.ThreadPool.constructor` | src/base/ThreadPool.cc:10-45 | the started pool |
| `ThreadPool.ThreadPool.Run` | src/base/ThreadPool.cc:68-88 | calls the task if there are no workers, else waits, drops or enqueues and notifies |
| `ThreadPool.ThreadPool.RunAgain` | src/base/ThreadPool.cc:77-87 | the same from the return of the wait on |
| `ThreadPool.ThreadPool.Take` | src/base/ThreadPool.cc:90-110 | waits, or returns the oldest task, even after `stop`, or none |
| `ThreadPool.ThreadPool.TakeAgain` | src/base/ThreadPool.cc:94-110 | the same from the return of the wait on |
| `ThreadPool.ThreadPool.Test` | src/base/ThreadPool.cc:127-134 | the loop test of a worker |
| `ThreadPool.ThreadPool.Stop` | src/base/ThreadPool.cc:47-54 | clears `running_` and wakes everybody |
| `BlockingQueue.EveryRun` | src/base/BlockingQueue.h:24-44 | in every interleaving items leave once each in order, and a thread sleeps only if every item has a thread on its way |
| `BlockingQueue.EachItemOnce` | src/base/BlockingQueue.h:24-44 | the items put are, in order, those the calls of `take` returned and those still queued |
| `BlockingQueue.BlockingQueue.Put` | src/base/BlockingQueue.h:24-29 | enqueues and notifies one |
| `BlockingQueue.BlockingQueue.Take` | src/base/BlockingQueue.h:31-44 | waits if empty, else returns the oldest |
| `BlockingQueue.BlockingQueue.TakeAgain` | src/base/BlockingQueue.h:34-44 | the same from the return of the wait on |
| `Timer.ProductFits` | src/base/Timestamp.h:73-77 | the product of `addTime` fits in an `int` exactly up to 2147 seconds |
| `Timer.EveryNeedsASecond` | src/net/EventLoop.cc:126-130 | the conversion to `int` leaves a positive interval exactly from one second on, and then the whole seconds |
| `Timer.FractionIsLost` | src/base/Timestamp.h:73-77 | the time `addTime` gives is the time asked for, too early by the fraction of a second that the conversion drops |
| `Timer.TimespecIsExact` | src/net/TimerQueue.cc:27-37 | the value for the timerfd is normalised, never zero, and means the time left or 100 microseconds |
| `Timer.Timer.Restart` | src/net/Timer.cc:6-16 | the next expiration, or the invalid time |
| `TimerList.LessIsOrder` | src/net/TimerQueue.h:26-27 | entries are strictly and totally ordered by time, and by address where the times agree |
| `TimerList.InsertSorted` | src/net/TimerQueue.h:26-27 | insertion keeps the order by time and address |
| `TimerList.InsertAdds` | src/net/TimerQueue.h:26-27 | and adds exactly one entry |
| `TimerList.InsertPresent` | src/net/TimerQueue.cc:161-165 | an entry that is there is not inserted again |
| `TimerList.InsertHead` | src/net/TimerQueue.cc:150-168 | the head is the earlier of the old head and the new entry, as `insert` reports |
| `TimerList.ExpiredExactly` | src/net/TimerQueue.cc:115-123 | the sentry separates exactly the entries up to now from those after |
| `LoopSafety.StepKeepsInv` | src/net/EventLoop.cc:54-113 | every step of the loop, of a callback or of the clock keeps everything below |
| `LoopTheorems.FunctorsInOrder` | src/net/EventLoop.cc:76-113 | functors run once each in the order queued; the eventfd is readable exactly if one was queued since it was read last, and always at a poll with functors pending, although it is cleared between queueing and draining |
| `LoopTheorems.AddTimerAllowed` | src/net/EventLoop.cc:115-130 | a timer may be added by any callback, for every interval whose microseconds fit an `int` |
| `LoopTheorems.DrainRunsItsBatch` | src/net/EventLoop.cc:82-92 | a drain runs its own batch in order whatever its functors queue, and ends only when it is empty |
| `LoopTheorems.TimersAgree` | src/net/TimerQueue.cc:84-168 | every unfinished timer is in exactly one place, keys equal the timers' present expirations despite restarts in place, and the set is in order |
| `LoopTheorems.TimerfdArmed` | src/net/TimerQueue.cc:91-168 | outside `handleRead` the timerfd is armed if and only if there is a timer, for the later of the earliest expiration and 100 microseconds after the arming |
| `LoopTheorems.LaterTimerKeepsTimerfd` | src/net/TimerQueue.cc:106-113 | a timer not earlier than the head is added without touching the timerfd |
| `LoopTheorems.RearmNeedsValidTime` | src/net/TimerQueue.cc:137-147 | `reset` ends with the timerfd armed for the head, unless the head's time is 0 or less |
| `LoopTheorems.CallbacksInTime` | src/net/TimerQueue.cc:91-135 | the run number k + 1 of a timer comes no earlier than k intervals after its first expiration, and a second run of a one-shot never |
| `LoopTheorems.DueOnTime` | src/net/TimerQueue.cc:125-135 | a timer in the set is due at its first expiration before it has run, and then exactly one interval after a moment between its last run and now |
| `LoopTheorems.OneShotRunsOnce` | src/net/TimerQueue.cc:125-135 | a timer without interval runs at most once, and exactly once if it is finished |
| `LoopTheorems.RepeatsForever` | src/net/TimerQueue.cc:125-135 | a timer with an interval is never finished: in every poll it is in the set or about to be added |
| `LoopTheorems.EveryRepeatsFromOneSecond` | src/net/EventLoop.cc:126-130 | a timer of `runEvery` goes on repeating if its interval is a second or more, and runs at most once otherwise |
| `LoopTheorems.TimerfdFires` | src/net/TimerQueue.cc:91-104 | once the deadline has come the poll can return, and the handler finds the head expired |
| `LoopTheorems.NothingBlocks` | src/net/EventLoop.cc:54-69 | outside the poll the loop's next step can always be taken |
| `LoopTheorems.IterationFinishes` | src/net/EventLoop.cc:54-69 | the loop comes back to its poll from everywhere |
| `TimerQueue.TimerQueue.Insert` | src/net/TimerQueue.cc:150-168 | the ordered insertion, and whether the head became earlier |
| `TimerQueue.TimerQueue.GetExpired` | src/net/TimerQueue.cc:115-123 | splits the set at the sentry |
| `TimerQueue.TimerQueue.NewTimer` | src/net/TimerQueue.cc:84-89 | the timer object of `addTimer` |
| `TimerQueue.TimerQueue.AddTimerInLoop` | src/net/TimerQueue.cc:106-113 | inserts and, if the head became earlier, arms |
| `TimerQueue.TimerQueue.RestartOne` | src/net/TimerQueue.cc:130-134 | changes a repeating timer in place and inserts it again |
| `TimerQueue.TimerQueue.Rearm` | src/net/TimerQueue.cc:137-147 | arms for the head if its time is valid |
| `TimerQueue.TimerQueue.Reset` | src/net/TimerQueue.cc:125-148 | restarts all expired timers in order, then arms |
| `EventLoop.EventLoop.QueueInLoop` | src/net/EventLoop.cc:76-80 | queues at the end and adds one to the eventfd unless it is full |
| `EventLoop.EventLoop.RunAt` | src/net/EventLoop.cc:115-118 | a timer without interval |
| `EventLoop.EventLoop.RunAfter` | src/net/EventLoop.cc:120-124 | a timer without interval, first due less than a second before the delay is over |
| `EventLoop.EventLoop.RunEvery` | src/net/EventLoop.cc:126-130 | a timer first due less than a second before the interval is over, and repeating after the same time |
| `EventLoop.EventLoop.RunUser` | src/net/EventLoop.cc:76-130 | a callback may queue functors and add timers any number of times; the objects follow the state machine |
| `EventLoop.EventLoop.RunCallback` | src/net/TimerQueue.cc:98-101 | one timer callback at the present time, with all it asks of the loop |
| `EventLoop.EventLoop.HandleTimers` | src/net/TimerQueue.cc:91-104 | `handleRead` on the objects: the read, the callbacks of all expired timers, whatever they ask of the loop, and the reset |
| `EventLoop.EventLoop.HandleEvent` | src/net/EventLoop.cc:62-65 | one channel: the timer queue's handler, the eventfd, which is cleared, or one of the user, which may ask anything of the loop |
| `EventLoop.EventLoop.DoPendingFunctors` | src/net/EventLoop.cc:82-92 | on the objects, the swap and all functors of the batch: timers added in place, functions of the user with all they ask of the loop |
| `EventLoop.EventLoop.Turn` | src/net/EventLoop.cc:56-68 | a whole turn of `loop` on the objects, whatever channels the poll reports and whatever the callbacks ask for, is a run of the state machine from one poll to the next |
| `Channel.SwitchIsLocal` | src/net/Channel.cc:32-50 | switching one interest leaves the other alone |
| `Channel.Channel.EnableWriting` | src/net/Channel.cc:42-50 | write interest as asked, read interest as before |
| `Channel.Channel.EnableReading` | src/net/Channel.cc:32-40 | read interest as asked, write interest as before |
| `TcpConnection.OutputConserved` | src/net/TcpConnection.cc:56-95 | over all sends and all results of `write`, accepted and buffered bytes are together the messages sent, and write interest is on exactly while something is buffered |
| `TcpConnection.CompletionMeansFlushed` | src/net/TcpConnection.cc:64-87 | a completion is queued exactly when a step has written all there was to write |
| `TcpConnection.FlushCompletes` | src/net/TcpConnection.cc:56-71 | over any reports of a writable socket, with errors among them, the buffered bytes go out from the front; the buffer is empty exactly when the results add up to them, and exactly one completion is queued for that |
| `TcpConnection.TcpConnection.Send` | src/net/TcpConnection.cc:73-95 | writes at once if nothing is buffered, buffers the rest; throws and changes nothing if `write` fails |
| `TcpConnection.TcpConnection.HandleWrite` | src/net/TcpConnection.cc:56-71 | drops what was taken and switches the interest off when nothing is left |

## Left out

- Sockets, epoll, files, threads and their creation, `fork`, backtraces: calls into the system. Their
  results are parameters of the steps where they matter. `Epoller::update` always adds; the mask of a
  channel stands for its registration.
- `gmtime_r` and `timegm` in local time are taken to be the repository's own `toUtcTime` and
  `fromUtcTime`; `tm_zone` and the abbreviations are not modelled.
- BuildTransitions: does not read the file; it takes the decoded numbers. A type index outside the
  table, which the source does not check, is excluded.
- `Buffer::unwrite`, `findEOL` and `findCRLF` from a given start; `kCRLF` is declared but not defined
  in the source and taken as CR LF.
- `Condition::waitForSeconds` and the time it waits: a wait of the log writer may end at any time.
- `AsyncLogging::start` and its latch, which nothing counts down; the writer is taken as started.
  `LogFile`, the log front end and the other `operator<<`.
- FormatInteger: does not cover pointers and floating point.
- The missing enumerators `kHead` and `kUnknown` and the misspelled names of the HTTP classes are
  taken as they are evidently meant. DELETE has no text and is outside the request round trip.
- ParseRequest: is not called after a whole request or after a failed request line, where the loop
  would not end or `setMethod` would fail its assert. `kExpectBody` is never entered.
- The application behind `onRequest` is a function from the request and the preset of
  `closeConnection` to the response; replies are recorded as they are given to `send`, and whatever
  arrives after a shutdown is treated as the source does, like any other message.
- The races of the pool on `running_`, `threads_` and `maxQueueSize_` outside the mutex: the bound is
  fixed, the pool has been started, and the loop test reads the current value. Tasks that throw.
- `queueInLoop` from other threads: its vector is not protected, so the loop thread is the only caller.
- The timerfd's own clock: one clock that never goes back and is positive serves both, and arming
  reads it once. In the class methods a callback is given an address for each
  timer it adds, and a timer whose address is taken is not made. `quit_` is never set, and timers are
  never cancelled or freed.
- Intervals above 2147 seconds, whose product overflows in `addTime`.
- Send: messages longer than an `int` can count; and the reading side of a connection, which appends
  what `read` returns to the input buffer.
- `any.h`, `ThreadLocal`, `Acceptor`, `TcpServer`, `EventLoopThread`, `CountDownLatch` and the examples:
  plumbing, or only easy members.
