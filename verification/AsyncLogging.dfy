/**
  The asynchronous logger of src/base/AsyncLogging.cc on its buffer objects.

  Each method is one step of `LogProtocol`. The protocol speaks of buffer contents; this class adds
  which object plays which part, and that no object plays two.
 */
module AsyncLogging {
  import opened LogStream
  import P = LogProtocol

  datatype Phase = NotStarted | Head | Entering | Waiting(notified: bool) | Swapped | Writing(next: nat) | Refilling | Exited

  /** Which object plays which part: the pointers of the logger and of its writer thread. */
  datatype Cast = Cast(current: FixedBuffer, next: FixedBuffer?, queued: seq<FixedBuffer>,
                       spare1: FixedBuffer?, spare2: FixedBuffer?, batch: seq<FixedBuffer>)

  /** What every buffer ever made contains. */
  type Contents = map<FixedBuffer, string>

  ghost function TextOf(text: Contents, b: FixedBuffer): string
  {
    if b in text then text[b] else ""
  }

  ghost function Texts(text: Contents, bs: seq<FixedBuffer>): (ts: seq<string>)
    ensures |ts| == |bs|
  {
    seq(|bs|, i requires 0 <= i < |bs| => TextOf(text, bs[i]))
  }

  ghost function Opt(b: FixedBuffer?): multiset<FixedBuffer>
  {
    if b == null then multiset{} else multiset{b}
  }

  ghost function InUse(c: Cast): multiset<FixedBuffer>
  {
    multiset{c.current} + Opt(c.next) + multiset(c.queued) + Opt(c.spare1) + Opt(c.spare2) + multiset(c.batch)
  }

  /** No object plays two parts. */
  ghost predicate Exclusive(used: multiset<FixedBuffer>, text: Contents)
  {
    forall b :: b in used ==> used[b] == 1 && b in text
  }

  ghost predicate Blank(text: Contents, b: FixedBuffer?)
  {
    b != null ==> TextOf(text, b) == ""
  }

  ghost predicate SparesBlank(c: Cast, text: Contents)
  {
    Blank(text, c.next) && Blank(text, c.spare1) && Blank(text, c.spare2)
  }

  ghost predicate GoodCast(c: Cast, text: Contents)
  {
    Exclusive(InUse(c), text) && SparesBlank(c, text)
  }

  ghost function WriterOf(phase: Phase, batch: seq<string>, spare: bool): P.Writer
  {
    match phase
    case NotStarted => P.AtHead
    case Head => P.AtHead
    case Entering => P.Entering
    case Waiting(notified) => P.Waiting(notified)
    case Swapped => P.Swapped(batch, spare)
    case Writing(next) => P.Writing(batch, next, spare)
    case Refilling => P.Refilling(batch, spare)
    case Exited => P.Exited
  }

  /** The protocol state of a cast; `rest` supplies the fields that do not depend on buffers. */
  ghost function StateOf(c: Cast, text: Contents, phase: Phase, rest: P.Log): P.Log
  {
    rest.(current := TextOf(text, c.current), hasNext := c.next != null, buffers := Texts(text, c.queued),
          writer := WriterOf(phase, Texts(text, c.batch), c.spare2 != null))
  }

  /** Said of the parts one by one: all these objects differ. */
  lemma NoObjectTwice(c: Cast, text: Contents)
    requires Exclusive(InUse(c), text)
    ensures c.current != c.next && c.current != c.spare1 && c.current != c.spare2
    ensures c.next != null ==> c.next != c.spare1 && c.next != c.spare2
    ensures c.spare1 != null ==> c.spare1 != c.spare2
    ensures forall b :: b in c.queued || b in c.batch ==>
              b != c.current && b != c.next && b != c.spare1 && b != c.spare2
    ensures forall b :: b in c.queued ==> b !in c.batch
    ensures forall i, j :: 0 <= i < j < |c.queued| ==> c.queued[i] != c.queued[j]
    ensures forall i, j :: 0 <= i < j < |c.batch| ==> c.batch[i] != c.batch[j]
  {
    hide Exclusive, InUse;
    PointersDiffer(c, text);
    ListsApart(c, text);
    ListsUnrepeated(c, text);
  }

  lemma PointersDiffer(c: Cast, text: Contents)
    requires Exclusive(InUse(c), text)
    ensures c.current != c.next && c.current != c.spare1 && c.current != c.spare2
    ensures c.next != null ==> c.next != c.spare1 && c.next != c.spare2
    ensures c.spare1 != null ==> c.spare1 != c.spare2
  {
    OneEach(c, text);
    hide InUse, Exclusive;
  }

  lemma ListsApart(c: Cast, text: Contents)
    requires Exclusive(InUse(c), text)
    ensures forall b :: b in c.queued || b in c.batch ==>
              b != c.current && b != c.next && b != c.spare1 && b != c.spare2
    ensures forall b :: b in c.queued ==> b !in c.batch
  {
    OneEach(c, text);
    hide InUse, Exclusive;
    assert forall b :: b in c.queued ==> b in multiset(c.queued);
    assert forall b :: b in c.batch ==> b in multiset(c.batch);
  }

  lemma ListsUnrepeated(c: Cast, text: Contents)
    requires Exclusive(InUse(c), text)
    ensures forall i, j :: 0 <= i < j < |c.queued| ==> c.queued[i] != c.queued[j]
    ensures forall i, j :: 0 <= i < j < |c.batch| ==> c.batch[i] != c.batch[j]
  {
    OneEach(c, text);
    hide InUse, Exclusive;
    Unrepeated(c.queued);
    Unrepeated(c.batch);
  }

  lemma OneEach(c: Cast, text: Contents)
    requires Exclusive(InUse(c), text)
    ensures forall b :: multiset{c.current}[b] + Opt(c.next)[b] + multiset(c.queued)[b]
                        + Opt(c.spare1)[b] + Opt(c.spare2)[b] + multiset(c.batch)[b] <= 1
  {
    forall b: FixedBuffer
      ensures multiset{c.current}[b] + Opt(c.next)[b] + multiset(c.queued)[b]
              + Opt(c.spare1)[b] + Opt(c.spare2)[b] + multiset(c.batch)[b] <= 1
    {
      assert InUse(c)[b] <= 1;
    }
  }

  lemma Unrepeated<X>(s: seq<X>)
    requires forall x :: x in s ==> multiset(s)[x] <= 1
    ensures forall i, j :: 0 <= i < j < |s| ==> s[i] != s[j]
  {
    forall i, j | 0 <= i < j < |s| ensures s[i] != s[j] {
      if s[i] == s[j] {
        Twice(s, i, j);
      }
    }
  }

  lemma Twice<X>(s: seq<X>, i: nat, j: nat)
    requires i < j < |s| && s[i] == s[j]
    ensures multiset(s)[s[i]] >= 2
  {
    assert s == s[..j] + s[j..];
    assert s[i] in s[..j] && s[i] in s[j..];
  }

  lemma TextsFrame(t: Contents, u: Contents, bs: seq<FixedBuffer>)
    requires forall b :: b in bs ==> TextOf(t, b) == TextOf(u, b)
    ensures Texts(t, bs) == Texts(u, bs)
  {
  }

  lemma TextsSnoc(t: Contents, bs: seq<FixedBuffer>, b: FixedBuffer)
    ensures Texts(t, bs + [b]) == Texts(t, bs) + [TextOf(t, b)]
  {
  }

  /** Writing to the current buffer shows nowhere else. */
  lemma WriteCurrent(c: Cast, text: Contents, t: string)
    requires GoodCast(c, text)
    ensures GoodCast(c, text[c.current := t])
    ensures Texts(text[c.current := t], c.queued) == Texts(text, c.queued)
    ensures Texts(text[c.current := t], c.batch) == Texts(text, c.batch)
  {
    assert InUse(c)[c.current] == 1;
    assert c.current !in c.queued && c.current !in c.batch;
    TextsFrame(text, text[c.current := t], c.queued);
    TextsFrame(text, text[c.current := t], c.batch);
  }

  lemma Subset(used: multiset<FixedBuffer>, fewer: multiset<FixedBuffer>, text: Contents)
    requires Exclusive(used, text) && fewer <= used
    ensures Exclusive(fewer, text)
  {
    forall b | b in fewer ensures b in used && fewer[b] == 1 {
      assert 0 < fewer[b] <= used[b];
    }
  }

  /** The next buffer becomes the current one, which is queued. */
  lemma NextCurrent(c: Cast, text: Contents)
    requires GoodCast(c, text) && c.next != null
    ensures GoodCast(c.(queued := c.queued + [c.current], current := c.next, next := null), text)
    ensures Texts(text, c.queued + [c.current]) == Texts(text, c.queued) + [TextOf(text, c.current)]
    ensures TextOf(text, c.next) == ""
  {
    TextsSnoc(text, c.queued, c.current);
    QueueOne(c.queued, c.current);
    hide Exclusive, Texts, TextOf;
    Shuffle(c.next, c.current, multiset{}, multiset(c.queued), Opt(c.spare1), Opt(c.spare2), multiset(c.batch));
    assert InUse(c.(queued := c.queued + [c.current], current := c.next, next := null)) == InUse(c);
  }

  lemma Shuffle<X>(x: X, y: X, m: multiset<X>, n: multiset<X>, o: multiset<X>, p: multiset<X>, q: multiset<X>)
    ensures multiset{x} + m + (n + multiset{y}) + o + p + q == multiset{y} + m + n + o + p + q + multiset{x}
  {
  }

  lemma QueueOne(bs: seq<FixedBuffer>, b: FixedBuffer)
    ensures multiset(bs + [b]) == multiset(bs) + multiset{b}
  {
  }

  /** An object made new becomes the current buffer. */
  lemma NewCurrent(c: Cast, text: Contents, b: FixedBuffer)
    requires GoodCast(c, text) && b !in text
    ensures GoodCast(c.(queued := c.queued + [c.current], current := b), text[b := ""])
  {
    hide Exclusive;
    NotInUse(c, text, b);
    NewInUse(InUse(c), text, b);
    QueueOne(c.queued, c.current);
    Shuffle(b, c.current, Opt(c.next), multiset(c.queued), Opt(c.spare1), Opt(c.spare2), multiset(c.batch));
  }

  lemma NewCurrentTexts(c: Cast, text: Contents, b: FixedBuffer)
    requires GoodCast(c, text) && b !in text
    ensures Texts(text[b := ""], c.queued + [c.current]) == Texts(text, c.queued) + [TextOf(text, c.current)]
    ensures Texts(text[b := ""], c.batch) == Texts(text, c.batch)
  {
    NotInUse(c, text, b);
    TextsSnoc(text, c.queued, c.current);
    TextsFrame(text, text[b := ""], c.queued + [c.current]);
    TextsFrame(text, text[b := ""], c.batch);
  }

  /** The cast after the writer's exchange of buffers. */
  ghost function AfterSwap(c: Cast): Cast
    requires c.spare1 != null
  {
    Cast(c.spare1, if c.next == null then c.spare2 else c.next, [],
         null, if c.next == null then null else c.spare2, c.queued + [c.current])
  }

  lemma SwapCast(c: Cast, text: Contents, phase: Phase, rest: P.Log)
    requires GoodCast(c, text) && c.spare1 != null && c.spare2 != null && c.batch == []
    ensures GoodCast(AfterSwap(c), text)
    ensures var s, batch := StateOf(c, text, phase, rest), Texts(text, c.queued + [c.current]);
            StateOf(AfterSwap(c), text, Swapped, rest.(batches := rest.batches + [batch])) == P.Swap(s)
  {
    TextsSnoc(text, c.queued, c.current);
    NoTexts(text);
    SwapInUse(c);
    hide Exclusive, Texts, InUse;
  }

  lemma SwapInUse(c: Cast)
    requires c.spare1 != null && c.batch == []
    ensures InUse(AfterSwap(c)) == InUse(c)
  {
    QueueOne(c.queued, c.current);
  }

  /** A batch cut short. */
  lemma CutBatch(c: Cast, text: Contents, n: nat)
    requires GoodCast(c, text) && n <= |c.batch|
    ensures GoodCast(c.(batch := c.batch[..n]), text)
    ensures Texts(text, c.batch[..n]) == Texts(text, c.batch)[..n]
  {
    assert c.batch == c.batch[..n] + c.batch[n..];
    assert multiset(c.batch) == multiset(c.batch[..n]) + multiset(c.batch[n..]);
    Subset(InUse(c), InUse(c.(batch := c.batch[..n])), text);
  }

  /** The last buffer of the batch becomes a spare one. */
  ghost predicate TakesBack(c: Cast, d: Cast)
    requires c.batch != []
  {
    var b, rest := c.batch[|c.batch| - 1], c.batch[..|c.batch| - 1];
    || (c.spare1 == null && d == c.(spare1 := b, batch := rest))
    || (c.spare2 == null && d == c.(spare2 := b, batch := rest))
  }

  lemma SameUse(c: Cast, d: Cast)
    requires c.batch != [] && TakesBack(c, d)
    ensures InUse(d) == InUse(c)
  {
    var b, rest := c.batch[|c.batch| - 1], c.batch[..|c.batch| - 1];
    assert c.batch == rest + [b];
    QueueOne(rest, b);
    if c.spare1 == null && d == c.(spare1 := b, batch := rest) {
      Shift(multiset{c.current} + Opt(c.next) + multiset(c.queued), b, Opt(c.spare2), multiset(rest));
    } else {
      Shift(multiset{c.current} + Opt(c.next) + multiset(c.queued) + Opt(c.spare1), b, multiset{}, multiset(rest));
    }
  }

  lemma Shift<X>(m: multiset<X>, x: X, n: multiset<X>, o: multiset<X>)
    ensures m + multiset{} + n + (o + multiset{x}) == m + multiset{x} + n + o
    ensures m + multiset{} + (o + multiset{x}) == m + multiset{x} + o
  {
  }

  /** Emptying it shows nowhere else. */
  lemma TakeBack(c: Cast, text: Contents, d: Cast)
    requires GoodCast(c, text) && c.batch != [] && TakesBack(c, d)
    ensures var text' := text[c.batch[|c.batch| - 1] := ""];
            && GoodCast(d, text')
            && Texts(text', d.queued) == Texts(text, c.queued)
            && TextOf(text', d.current) == TextOf(text, c.current)
  {
    hide Exclusive, InUse;
    var b := c.batch[|c.batch| - 1];
    assert c.batch == c.batch[..|c.batch| - 1] + [b];
    SameUse(c, d);
    OnlyInBatch(c, text, c.batch[..|c.batch| - 1], b);
    TextsFrame(text, text[b := ""], c.queued);
    StillExclusive(InUse(c), text, b);
  }

  lemma StillExclusive(used: multiset<FixedBuffer>, text: Contents, b: FixedBuffer)
    requires Exclusive(used, text)
    ensures Exclusive(used, text[b := ""])
  {
  }

  lemma OnlyInBatch(c: Cast, text: Contents, rest: seq<FixedBuffer>, b: FixedBuffer)
    requires Exclusive(InUse(c), text) && c.batch == rest + [b]
    ensures b != c.current && b !in c.queued
  {
    assert InUse(c)[b] == 1;
  }

  lemma NewInUse(used: multiset<FixedBuffer>, text: Contents, b: FixedBuffer)
    requires Exclusive(used, text) && b !in text
    ensures Exclusive(used + multiset{b}, text[b := ""])
  {
    assert b !in used;
  }

  lemma NotInUse(c: Cast, text: Contents, b: FixedBuffer)
    requires Exclusive(InUse(c), text) && b !in text
    ensures b != c.current && b != c.next && b != c.spare1 && b != c.spare2 && b !in c.queued && b !in c.batch
  {
    assert b !in InUse(c);
  }

  lemma InitialCast(a: FixedBuffer, b: FixedBuffer)
    requires a != b
    ensures GoodCast(Cast(a, b, [], null, null, []), map[a := "", b := ""])
  {
    assert InUse(Cast(a, b, [], null, null, [])) == multiset{a, b};
  }

  /** Two objects made new become the writer's spare buffers. */
  lemma NewSpares(c: Cast, text: Contents, x: FixedBuffer, y: FixedBuffer)
    requires GoodCast(c, text) && c.spare1 == null && c.spare2 == null && x !in text && y !in text && x != y
    ensures GoodCast(c.(spare1 := x, spare2 := y), text[x := ""][y := ""])
  {
    hide Exclusive;
    NotInUse(c, text, x);
    NotInUse(c, text, y);
    NewInUse(InUse(c), text, x);
    NewInUse(InUse(c) + multiset{x}, text[x := ""], y);
    assert InUse(c.(spare1 := x, spare2 := y)) == InUse(c) + multiset{x} + multiset{y} by {
      hide GoodCast;
    }
  }

  lemma NewSparesState(c: Cast, text: Contents, x: FixedBuffer, y: FixedBuffer, rest: P.Log)
    requires GoodCast(c, text) && c.spare1 == null && c.spare2 == null && x !in text && y !in text && x != y
    requires c.batch == []
    ensures StateOf(c.(spare1 := x, spare2 := y), text[x := ""][y := ""], Head, rest)
         == StateOf(c, text, NotStarted, rest)
  {
    NotInUse(c, text, x);
    NotInUse(c, text, y);
    TextsFrame(text, text[x := ""][y := ""], c.queued);
  }

  lemma NoTexts(t: Contents)
    ensures Texts(t, []) == []
  {
  }

  class AsyncLogging {
    const size: nat
    // Shared, under the mutex.
    var currentBuffer: FixedBuffer
    var nextBuffer: FixedBuffer?
    var buffers: seq<FixedBuffer>
    var running: bool
    // Local to the writer thread.
    var newBuffer1: FixedBuffer?
    var newBuffer2: FixedBuffer?
    var buffersToWrite: seq<FixedBuffer>
    var phase: Phase
    var output: string
    // The contents of the buffers and the history of the protocol.
    ghost var text: Contents
    ghost var Repr: set<object>
    ghost var appended: string
    ghost var batches: seq<seq<string>>

    ghost function Parts(): Cast
      reads this
    {
      Cast(currentBuffer, nextBuffer, buffers, newBuffer1, newBuffer2, buffersToWrite)
    }

    /** The objects hold the texts recorded for them, in memory they do not share. */
    ghost predicate InSync()
      reads this`text, this`Repr, Repr
      ensures InSync() ==> this !in Repr
    {
      && this !in Repr
      && (forall b :: b in text ==> b in Repr && b.data in Repr && b.Valid() && b.data.Length == size && b.Contents() == text[b])
      && (forall a, b :: a in text && b in text && a != b ==> a.data != b.data)
    }

    ghost predicate PhaseOk()
      reads this`phase, this`newBuffer1, this`newBuffer2, this`buffersToWrite
    {
      if phase == NotStarted then newBuffer1 == null && newBuffer2 == null && buffersToWrite == []
      else if phase in {Head, Entering, Exited} || phase.Waiting?
      then newBuffer1 != null && newBuffer2 != null && buffersToWrite == []
      else newBuffer1 == null
    }

    ghost predicate Valid()
      reads this, Repr
    {
      InSync() && GoodCast(Parts(), text) && PhaseOk() && P.EnoughBuffers(State())
    }

    ghost function State(): P.Log
      reads this
    {
      StateOf(Parts(), text, phase, P.Log(size, "", true, [], running, P.AtHead, appended, batches, output))
    }

    constructor (size: nat)
      ensures Valid() && fresh(Repr) && State() == P.Init(size)
    {
      this.size := size;
      var a := new FixedBuffer(size);
      var b := new FixedBuffer(size);
      currentBuffer, nextBuffer, newBuffer1, newBuffer2 := a, b, null, null;
      buffers, buffersToWrite, running, phase, output := [], [], true, NotStarted, "";
      text, Repr := map[a := "", b := ""], {a, a.data, b, b.data};
      appended, batches := "", [];
      new;
      assert fresh(Repr) by {
        assert fresh(a) && fresh(a.data) && fresh(b) && fresh(b.data);
      }
      Started(a, b);
    }

    /** The fields as the constructor leaves them. */
    ghost predicate AtStart(a: FixedBuffer, b: FixedBuffer)
      reads this
    {
      && currentBuffer == a && nextBuffer == b && newBuffer1 == null && newBuffer2 == null
      && buffers == [] && buffersToWrite == [] && running && phase == NotStarted && output == ""
      && text == map[a := "", b := ""] && Repr == {a, a.data, b, b.data} && appended == "" && batches == []
    }

    lemma Started(a: FixedBuffer, b: FixedBuffer)
      requires a != b && a.data != b.data && a.Valid() && b.Valid()
      requires a.data.Length == size && a.Contents() == "" && b.data.Length == size && b.Contents() == ""
      requires AtStart(a, b)
      ensures Valid() && State() == P.Init(size)
    {
      TwoInSync(a, b);
      InitialCast(a, b);
      NoTexts(text);
      hide InSync, GoodCast;
      assert Parts() == Cast(a, b, [], null, null, []);
    }

    lemma TwoInSync(a: FixedBuffer, b: FixedBuffer)
      requires a != b && a.data != b.data && a.Valid() && b.Valid()
      requires a.data.Length == size && a.Contents() == "" && b.data.Length == size && b.Contents() == ""
      requires text == map[a := "", b := ""] && Repr == {a, a.data, b, b.data}
      ensures InSync()
    {
    }

    /** The writer thread begins: its two spare buffers. */
    method StartWriter()
      requires Valid() && phase == NotStarted
      modifies this`newBuffer1, this`newBuffer2, this`phase, this`text, this`Repr
      ensures Valid() && phase == Head && State() == old(State())
      ensures fresh(Repr - old(Repr))
    {
      hide GoodCast, StateOf, InSync, P.EnoughBuffers;
      ghost var c, t := Parts(), text;
      MakeSpares();
      phase := Head;
      NewSpares(c, t, newBuffer1, newBuffer2);
      NewSparesState(c, t, newBuffer1, newBuffer2,
                     P.Log(size, "", true, [], running, P.AtHead, appended, batches, output));
      assert Parts() == c.(spare1 := newBuffer1, spare2 := newBuffer2);
    }

    method MakeSpares()
      requires InSync()
      modifies this`newBuffer1, this`newBuffer2, this`text, this`Repr
      ensures InSync() && fresh(Repr - old(Repr))
      ensures newBuffer1 != null && newBuffer2 != null && newBuffer1 != newBuffer2
      ensures newBuffer1 !in old(text) && newBuffer2 !in old(text)
      ensures text == old(text)[newBuffer1 := ""][newBuffer2 := ""]
    {
      hide InSync;
      newBuffer1 := MakeBuffer();
      newBuffer2 := MakeBuffer();
    }

    /** `new Buffer`. */
    method MakeBuffer() returns (b: FixedBuffer)
      requires InSync()
      modifies this`text, this`Repr
      ensures InSync() && fresh(b) && Repr >= old(Repr) && fresh(Repr - old(Repr))
      ensures b !in old(text) && text == old(text)[b := ""]
    {
      b := new FixedBuffer(size);
      text, Repr := text[b := ""], Repr + {b, b.data};
    }

    /** `currentBuffer_->append`, and the record of what the buffer contains. */
    method WriteText(line: string)
      requires InSync() && currentBuffer in text
      modifies this`text, Repr
      ensures InSync()
      ensures text == old(text)[currentBuffer := P.Put(size, old(TextOf(text, currentBuffer)), line)]
    {
      text := text[currentBuffer := P.Put(size, text[currentBuffer], line)];
      currentBuffer.Append(line);
    }

    method AppendToCurrent(line: string)
      requires InSync() && GoodCast(Parts(), text)
      modifies this`text, Repr
      ensures InSync() && GoodCast(Parts(), text)
      ensures State() == old(State()).(current := P.Put(size, old(State()).current, line))
    {
      hide GoodCast, Texts, WriterOf, InSync, P.Put;
      InUseIsKnown();
      WriteCurrent(Parts(), text, P.Put(size, TextOf(text, currentBuffer), line));
      WriteText(line);
    }

    /** Queues the full buffer and takes the next one. */
    method RotateToNext()
      requires InSync() && GoodCast(Parts(), text) && nextBuffer != null
      modifies this`currentBuffer, this`nextBuffer, this`buffers
      ensures InSync() && GoodCast(Parts(), text)
      ensures State() == P.Rotate(old(State()))
    {
      hide GoodCast, TextOf, Texts, InSync, WriterOf;
      NextCurrent(Parts(), text);
      buffers := buffers + [currentBuffer];
      currentBuffer := nextBuffer;
      nextBuffer := null;
    }

    /** Queues the full buffer and takes a new one. */
    method RotateToNew()
      requires InSync() && GoodCast(Parts(), text) && nextBuffer == null
      modifies this`currentBuffer, this`buffers, this`text, this`Repr
      ensures InSync() && GoodCast(Parts(), text)
      ensures State() == P.Rotate(old(State()))
      ensures Repr >= old(Repr) && fresh(Repr - old(Repr))
    {
      hide GoodCast, Texts, WriterOf, InSync;
      ghost var c, t := Parts(), text;
      buffers := buffers + [currentBuffer];
      currentBuffer := MakeBuffer();
      NewCurrent(c, t, currentBuffer);
      NewCurrentTexts(c, t, currentBuffer);
    }

    method Rotate()
      requires InSync() && GoodCast(Parts(), text)
      modifies this`currentBuffer, this`nextBuffer, this`buffers, this`text, this`Repr
      ensures InSync() && GoodCast(Parts(), text)
      ensures State() == P.Rotate(old(State()))
      ensures Repr >= old(Repr) && fresh(Repr - old(Repr))
    {
      hide GoodCast, Texts, InSync, WriterOf, P.Rotate;
      if nextBuffer != null {
        RotateToNext();
      } else {
        RotateToNew();
      }
    }

    /** The rotation, if the current buffer is too full, and the copy. */
    method AppendText(line: string) returns (rotated: bool)
      requires InSync() && GoodCast(Parts(), text)
      modifies this`currentBuffer, this`nextBuffer, this`buffers, this`text, this`Repr, Repr
      ensures InSync() && GoodCast(Parts(), text) && fresh(Repr - old(Repr))
      ensures var r := if |old(State()).current| + |line| < size then old(State()) else P.Rotate(old(State()));
              State() == r.(current := P.Put(size, r.current, line))
      ensures rotated <==> |old(State()).current| + |line| >= size
    {
      hide Texts, InSync, GoodCast, WriterOf, P.Rotate, P.Put;
      RoomIsAvail();
      rotated := currentBuffer.Avail() <= |line|;
      if rotated {
        Rotate();
      }
      InUseIsKnown();
      AppendToCurrent(line);
    }

    /** `append`, called by any thread. */
    method Append(line: string)
      requires Valid()
      modifies this`currentBuffer, this`nextBuffer, this`buffers, this`phase, this`text, this`appended, this`Repr, Repr
      ensures Valid()
      ensures State() == P.Next(old(State()), P.Append(line))
      ensures fresh(Repr - old(Repr))
    {
      hide Texts, P.EnoughBuffers, InSync, GoodCast, WriterOf, PhaseOk, P.Next, P.Rotate, P.Put;
      P.StepEnough(State(), P.Append(line));
      P.AppendInTwo(State(), line);
      var rotated := AppendText(line);
      if rotated {
        Notify();
      }
      appended := appended + if |line| < size then line else "";
    }

    /** `cond_.notify()`. */
    method Notify()
      modifies this`phase
      ensures phase == if old(phase).Waiting? then Waiting(true) else old(phase)
      ensures State() == old(State()).(writer := P.Notify(old(State()).writer))
      ensures PhaseOk() == old(PhaseOk())
    {
      hide Texts;
      if phase.Waiting? {
        phase := Waiting(true);
      }
    }

    /** The writer's exchange of buffers, under the mutex. */
    method Exchange()
      requires newBuffer1 != null && buffersToWrite == []
      modifies this`currentBuffer, this`nextBuffer, this`buffers,
               this`newBuffer1, this`newBuffer2, this`buffersToWrite
      ensures Parts() == AfterSwap(old(Parts()))
    {
      buffers := buffers + [currentBuffer];
      currentBuffer, newBuffer1 := newBuffer1, null;
      buffersToWrite, buffers := buffers, buffersToWrite;
      if nextBuffer == null {
        nextBuffer, newBuffer2 := newBuffer2, null;
      }
    }

    method Swap()
      requires Valid() && (phase == Entering || phase.Waiting?)
      modifies this`currentBuffer, this`nextBuffer, this`buffers,
               this`newBuffer1, this`newBuffer2, this`buffersToWrite, this`phase, this`batches
      ensures Valid() && State() == P.Swap(old(State()))
    {
      hide GoodCast, StateOf, InSync, P.EnoughBuffers, P.Swap;
      SwapCast(Parts(), text, phase, P.Log(size, "", true, [], running, P.AtHead, appended, batches, output));
      P.SwapEnough(State());
      batches := batches + [Texts(text, buffers + [currentBuffer])];
      Exchange();
      phase := Swapped;
    }

    /** The asserts at the head of the writer's loop: both spares are there and empty, and the batch is. */
    lemma HeadAsserts()
      requires Valid() && phase == Head
      ensures newBuffer1 != null && newBuffer1.Valid() && newBuffer1.Contents() == ""
      ensures newBuffer2 != null && newBuffer2.Valid() && newBuffer2.Contents() == ""
      ensures newBuffer1 != newBuffer2 && buffersToWrite == []
    {
      assert newBuffer1 in InUse(Parts()) && newBuffer2 in InUse(Parts());
      NoObjectTwice(Parts(), text);
      hide InUse;
    }

    /** The loop condition of `threadFunc`. */
    method Loop()
      requires Valid() && phase == Head
      modifies this`phase
      ensures Valid() && P.Enabled(old(State()), P.Loop) && State() == P.Next(old(State()), P.Loop)
    {
      hide GoodCast, Texts, InSync;
      phase := if running then Entering else Exited;
    }

    /** Takes the mutex; exchanges the buffers at once or waits for a line that fills one. */
    method Lock()
      requires Valid() && phase == Entering
      modifies this`currentBuffer, this`nextBuffer, this`buffers,
               this`newBuffer1, this`newBuffer2, this`buffersToWrite, this`phase, this`batches
      ensures Valid() && P.Enabled(old(State()), P.Lock) && State() == P.Next(old(State()), P.Lock)
    {
      hide GoodCast, Texts, InSync, P.EnoughBuffers, P.Swap;
      P.StepEnough(State(), P.Lock);
      if buffers == [] {
        phase := Waiting(false);
      } else {
        Swap();
      }
    }

    /** The wait ends, notified or not. */
    method Wake()
      requires Valid() && phase.Waiting?
      modifies this`currentBuffer, this`nextBuffer, this`buffers,
               this`newBuffer1, this`newBuffer2, this`buffersToWrite, this`phase, this`batches
      ensures Valid() && P.Enabled(old(State()), P.Wake) && State() == P.Next(old(State()), P.Wake)
    {
      hide GoodCast, Texts, InSync, P.EnoughBuffers, P.Swap;
      Swap();
    }

    /** `stop`, up to the join. */
    method Stop()
      requires Valid()
      modifies this`running, this`phase
      ensures Valid() && State() == P.Next(old(State()), P.Stop)
    {
      hide GoodCast, Texts, InSync;
      running := false;
      if phase.Waiting? {
        phase := Waiting(true);
      }
    }

    /** `if (buffersToWrite.size() > 25)`. */
    method Trim()
      requires Valid() && phase == Swapped
      modifies this`buffersToWrite, this`phase
      ensures Valid() && P.Enabled(old(State()), P.Trim) && State() == P.Next(old(State()), P.Trim)
    {
      hide GoodCast, Texts, InSync, P.EnoughBuffers;
      P.StepEnough(State(), P.Trim);
      if |buffersToWrite| > 25 {
        CutBatch(Parts(), text, 2);
        buffersToWrite := buffersToWrite[..2];
      }
      phase := Writing(0);
    }

    /** One round of the loop that writes the batch. */
    method WriteOne()
      requires Valid() && phase.Writing? && phase.next < |buffersToWrite|
      modifies this`output, this`phase
      ensures Valid() && P.Enabled(old(State()), P.WriteOne) && State() == P.Next(old(State()), P.WriteOne)
    {
      hide GoodCast, Texts, InSync, P.EnoughBuffers;
      P.StepEnough(State(), P.WriteOne);
      InBatchIsKnown(phase.next);
      output := output + buffersToWrite[phase.next].Contents();
      phase := Writing(phase.next + 1);
    }

    /** The rest of the batch beyond two buffers is dropped; the two serve as new spares. */
    method EndWrite()
      requires Valid() && phase.Writing? && phase.next == |buffersToWrite|
      modifies this`buffersToWrite, this`phase
      ensures Valid() && P.Enabled(old(State()), P.EndWrite) && State() == P.Next(old(State()), P.EndWrite)
    {
      hide GoodCast, Texts, InSync, P.EnoughBuffers;
      P.StepEnough(State(), P.EndWrite);
      if |buffersToWrite| > 2 {
        CutBatch(Parts(), text, 2);
        buffersToWrite := buffersToWrite[..2];
      }
      phase := Refilling;
    }

    /** `newBuffer = buffersToWrite.back(); pop_back(); reset()`. */
    method TakeSpare() returns (b: FixedBuffer)
      requires InSync() && buffersToWrite != [] && buffersToWrite[|buffersToWrite| - 1] in text
      modifies this`text, this`buffersToWrite, Repr
      ensures InSync() && b == old(buffersToWrite[|buffersToWrite| - 1])
      ensures buffersToWrite == old(buffersToWrite[..|buffersToWrite| - 1])
      ensures text == old(text)[b := ""]
    {
      b := buffersToWrite[|buffersToWrite| - 1];
      buffersToWrite := buffersToWrite[..|buffersToWrite| - 1];
      b.Reset();
      text := text[b := ""];
    }

    method RefillFirst()
      requires InSync() && GoodCast(Parts(), text) && newBuffer1 == null && buffersToWrite != []
      modifies this`text, this`newBuffer1, this`buffersToWrite, Repr
      ensures InSync() && GoodCast(Parts(), text) && newBuffer1 != null
      ensures |buffersToWrite| == old(|buffersToWrite|) - 1
      ensures State() == old(State()).(writer := State().writer)
    {
      hide GoodCast, Texts, InSync, WriterOf, TextOf;
      ghost var c, t := Parts(), text;
      InBatchIsKnown(|buffersToWrite| - 1);
      newBuffer1 := TakeSpare();
      TakeBack(c, t, Parts());
    }

    method RefillSecond()
      requires InSync() && GoodCast(Parts(), text) && newBuffer2 == null && buffersToWrite != []
      modifies this`text, this`newBuffer2, this`buffersToWrite, Repr
      ensures InSync() && GoodCast(Parts(), text) && newBuffer2 != null
      ensures State() == old(State()).(writer := State().writer)
    {
      hide GoodCast, Texts, InSync, WriterOf, TextOf;
      ghost var c, t := Parts(), text;
      InBatchIsKnown(|buffersToWrite| - 1);
      newBuffer2 := TakeSpare();
      TakeBack(c, t, Parts());
    }

    /** Back to two empty spares; both asserts hold. */
    method Refill()
      requires Valid() && phase == Refilling
      modifies this`text, this`newBuffer1, this`newBuffer2, this`buffersToWrite, this`phase, Repr
      ensures Valid() && P.Enabled(old(State()), P.Refill) && State() == P.Next(old(State()), P.Refill)
    {
      hide GoodCast, Texts, InSync, P.EnoughBuffers, TextOf;
      P.StepEnough(State(), P.Refill);
      EnoughToRefill();
      RefillFirst();
      if newBuffer2 == null {
        RefillSecond();
      }
      CutBatch(Parts(), text, 0);
      buffersToWrite := [];
      phase := Head;
    }

    lemma EnoughToRefill()
      requires P.EnoughBuffers(State()) && phase == Refilling
      ensures |buffersToWrite| >= if newBuffer2 == null then 2 else 1
    {
    }

    lemma InBatchIsKnown(i: nat)
      requires GoodCast(Parts(), text) && i < |buffersToWrite|
      ensures var b := buffersToWrite[i]; b in text && Texts(text, buffersToWrite)[i] == text[b]
      ensures InSync() ==> buffersToWrite[i].Valid() && buffersToWrite[i].Contents() == text[buffersToWrite[i]]
    {
      assert buffersToWrite[i] in InUse(Parts());
    }

    lemma InUseIsKnown()
      requires GoodCast(Parts(), text)
      ensures currentBuffer in text
    {
      assert currentBuffer in InUse(Parts());
    }

    lemma RoomIsAvail()
      requires InSync() && GoodCast(Parts(), text)
      ensures currentBuffer.Avail() == size - |TextOf(text, currentBuffer)|
    {
      InUseIsKnown();
    }
  }
}
