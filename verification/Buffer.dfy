/**
  The growable input and output buffer: src/net/Buffer.h.

  `BufferState` is what a caller can observe, the readable bytes and the layout; the class keeps
  them in an array between two indices. Bytes are modelled as characters.
 */
module Buffer {
  import opened Common

  const CHEAP_PREPEND := 8
  const INITIAL_SIZE := 1024

  datatype BufferState = BufferState(size: nat, reader: nat, contents: string)
  {
    function Writer(): nat { reader + |contents| }

    predicate Valid() { CHEAP_PREPEND <= size && Writer() <= size }

    function Writable(): int { size - Writer() }
  }

  function InitState(initialSize: nat): BufferState
  {
    BufferState(CHEAP_PREPEND + initialSize, CHEAP_PREPEND, "")
  }

  /** `ensureWritableBytes`: nothing, growth at the end, or compaction to the front. */
  function AfterEnsure(s: BufferState, len: nat): BufferState
  {
    if len <= s.Writable() then s
    else if s.reader + s.Writable() < len + CHEAP_PREPEND then s.(size := s.Writer() + len)
    else s.(reader := CHEAP_PREPEND)
  }

  function AfterAppend(s: BufferState, data: string): BufferState
  {
    AfterEnsure(s, |data|).(contents := s.contents + data)
  }

  function AfterRetrieve(s: BufferState, len: nat): BufferState
    requires len <= |s.contents|
  {
    if len < |s.contents| then s.(reader := s.reader + len, contents := s.contents[len..])
    else s.(reader := CHEAP_PREPEND, contents := "")
  }

  function AfterPrepend(s: BufferState, data: string): BufferState
    requires |data| <= s.reader
  {
    s.(reader := s.reader - |data|, contents := data + s.contents)
  }

  function AfterShrink(s: BufferState, reserve: nat): BufferState
  {
    AfterAppend(AfterEnsure(InitState(INITIAL_SIZE), |s.contents| + reserve), s.contents)
  }

  // ---------------------------------------------------------------------------------------
  // Runs: a byte queue, and a bound on the memory it takes.

  datatype Op = DoAppend(data: string) | DoRetrieve(len: nat) | DoPrepend(data: string)
              | DoEnsure(len: nat) | DoShrink(reserve: nat)

  predicate Allowed(s: BufferState, op: Op)
  {
    match op
    case DoRetrieve(len) => len <= |s.contents|
    case DoPrepend(data) => |data| <= s.reader
    case _ => true
  }

  function Apply(s: BufferState, op: Op): BufferState
    requires Allowed(s, op)
  {
    match op
    case DoAppend(data) => AfterAppend(s, data)
    case DoRetrieve(len) => AfterRetrieve(s, len)
    case DoPrepend(data) => AfterPrepend(s, data)
    case DoEnsure(len) => AfterEnsure(s, len)
    case DoShrink(reserve) => AfterShrink(s, reserve)
  }

  /** The operation on a plain byte queue. */
  function QueueOp(q: string, op: Op): string
  {
    match op
    case DoAppend(data) => q + data
    case DoRetrieve(len) => if len <= |q| then q[len..] else ""
    case DoPrepend(data) => data + q
    case DoEnsure(_) => q
    case DoShrink(_) => q
  }

  /** Room the operation asks for. */
  function Request(op: Op): nat
  {
    match op
    case DoAppend(data) => |data|
    case DoRetrieve(_) => 0
    case DoPrepend(_) => 0
    case DoEnsure(len) => len
    case DoShrink(reserve) => reserve
  }

  /** Readable and requested bytes stay within `total`, each request within `largest`. */
  predicate Modest(s: BufferState, ops: seq<Op>, total: nat, largest: nat)
    decreases |ops|
  {
    ops == []
    || (Allowed(s, ops[0]) && |s.contents| + Request(ops[0]) <= total && Request(ops[0]) <= largest
        && Modest(Apply(s, ops[0]), ops[1..], total, largest))
  }

  function Run(s: BufferState, ops: seq<Op>, total: nat, largest: nat): BufferState
    requires Modest(s, ops, total, largest)
    decreases |ops|
  {
    if ops == [] then s else Run(Apply(s, ops[0]), ops[1..], total, largest)
  }

  function RunQueue(q: string, ops: seq<Op>): string
    decreases |ops|
  {
    if ops == [] then q else RunQueue(QueueOp(q, ops[0]), ops[1..])
  }

  predicate Shrinks(ops: seq<Op>) { exists i :: 0 <= i < |ops| && ops[i].DoShrink? }

  lemma ApplyIsQueueOp(s: BufferState, op: Op)
    requires s.Valid() && Allowed(s, op)
    ensures Apply(s, op).Valid() && Apply(s, op).contents == QueueOp(s.contents, op)
  {
    if op.DoShrink? {
      assert "" + s.contents == s.contents;
    }
  }

  /** Compaction happens only when more than the cheap prefix is free in front, and then suffices. */
  lemma CompactionFits(s: BufferState, len: nat)
    requires s.Valid()
    ensures len <= AfterEnsure(s, len).Writable()
    ensures AfterEnsure(s, len) == s.(reader := CHEAP_PREPEND) && AfterEnsure(s, len) != s ==> s.reader > CHEAP_PREPEND
  {
  }

  /**
    Making space does nothing if there is enough behind the readable bytes. Otherwise the memory grows
    exactly if the bytes and the request do not fit even at the front, and then to no more than is
    needed; and where they fit, they are moved to the front.
   */
  lemma SpaceIsMadeLazily(s: BufferState, len: nat)
    requires s.Valid()
    ensures var t := AfterEnsure(s, len);
            && (t.size > s.size <==> len > s.Writable() && CHEAP_PREPEND + |s.contents| + len > s.size)
            && (t.size > s.size ==> t.Writable() == len && t.reader == s.reader)
            && (t.size == s.size ==> t.reader == if len <= s.Writable() then s.reader else CHEAP_PREPEND)
  {
  }

  /**
    Retrieving part of the bytes leaves the others in place; retrieving all of them makes the whole
    buffer but its cheap prepend writable again. Prepending uses the room in front.
   */
  lemma RoomAfter(s: BufferState, len: nat, data: string)
    requires s.Valid() && len <= |s.contents| && |data| <= s.reader
    ensures var t := AfterRetrieve(s, len);
            && t.size == s.size
            && (len < |s.contents| ==> t.Writer() == s.Writer())
            && (len == |s.contents| ==> t.Writable() == s.size - CHEAP_PREPEND)
    ensures var t := AfterPrepend(s, data);
            t.size == s.size && t.Writer() == s.Writer()
  {
  }

  lemma ApplyBounded(s: BufferState, op: Op, total: nat, largest: nat)
    requires s.Valid() && Allowed(s, op)
    requires |s.contents| + Request(op) <= total && Request(op) <= largest
    ensures var size := Apply(s, op).size;
            size <= s.size || size <= total + largest + CHEAP_PREPEND
            || (op.DoShrink? && size <= INITIAL_SIZE + CHEAP_PREPEND)
  {
  }

  /**
    Any run acts on the readable bytes as on a queue, and the memory never exceeds the initial
    size or, beyond it, all readable and requested bytes plus one request and the cheap prefix. A
    `shrink` starts over from the default size.
   */
  lemma {:induction false} QueueWithinMemory(s: BufferState, ops: seq<Op>, total: nat, largest: nat, bound: nat)
    requires s.Valid() && Modest(s, ops, total, largest)
    requires s.size <= bound && total + largest + CHEAP_PREPEND <= bound
    requires Shrinks(ops) ==> INITIAL_SIZE + CHEAP_PREPEND <= bound
    ensures var t := Run(s, ops, total, largest);
            t.Valid() && t.contents == RunQueue(s.contents, ops) && t.size <= bound
    decreases |ops|
  {
    hide Apply, Allowed, QueueOp, Request, Shrinks;
    if ops != [] {
      ApplyIsQueueOp(s, ops[0]);
      ApplyBounded(s, ops[0], total, largest);
      ShrinksLater(ops);
      QueueWithinMemory(Apply(s, ops[0]), ops[1..], total, largest, bound);
    }
  }

  lemma ShrinksLater(ops: seq<Op>)
    requires ops != []
    ensures Shrinks(ops[1..]) || ops[0].DoShrink? ==> Shrinks(ops)
  {
  }

  // ---------------------------------------------------------------------------------------
  // Searching.

  predicate CRLFAt(s: string, i: int)
  {
    0 <= i && i + 1 < |s| && s[i] == '\r' && s[i + 1] == '\n'
  }

  /** Position of the first CR LF. */
  function CRLFPosition(s: string): (r: Option<nat>)
    ensures r.Some? ==> CRLFAt(s, r.value) && forall i :: 0 <= i < r.value ==> !CRLFAt(s, i)
    ensures r.None? ==> forall i :: !CRLFAt(s, i)
  {
    if |s| < 2 then None
    else if CRLFAt(s, 0) then Some(0)
    else
      assert forall i :: 0 < i ==> CRLFAt(s, i) == CRLFAt(s[1..], i - 1);
      match CRLFPosition(s[1..])
      case None => None
      case Some(i) => Some(i + 1)
  }

  // ---------------------------------------------------------------------------------------
  // Integers in native representation: two's complement, least significant byte first.

  predicate IntOfWidth(x: int, width: nat) { 0 - Power256(width) <= 2 * x < Power256(width) }

  function Power256(k: nat): nat { if k == 0 then 1 else 256 * Power256(k - 1) }

  function UnsignedBytes(x: nat, width: nat): (s: string)
    ensures |s| == width
  {
    if width == 0 then "" else [(x % 256) as char] + UnsignedBytes(x / 256, width - 1)
  }

  function UnsignedValue(s: string): nat
  {
    if s == "" then 0 else s[0] as nat % 256 + 256 * UnsignedValue(s[1..])
  }

  function IntBytes(x: int, width: nat): (s: string)
    requires IntOfWidth(x, width)
    ensures |s| == width
  {
    UnsignedBytes(if x < 0 then x + Power256(width) else x, width)
  }

  function BytesInt(s: string): int
  {
    var u := UnsignedValue(s);
    if 2 * u >= Power256(|s|) then u - Power256(|s|) else u
  }

  lemma {:induction false} UnsignedRoundTrip(x: nat, width: nat)
    requires x < Power256(width)
    ensures UnsignedValue(UnsignedBytes(x, width)) == x
  {
    if width > 0 {
      assert x / 256 < Power256(width - 1);
      UnsignedRoundTrip(x / 256, width - 1);
      assert UnsignedBytes(x, width)[1..] == UnsignedBytes(x / 256, width - 1);
    }
  }

  /** What `prependInt` writes, `peekInt` reads. */
  lemma IntRoundTrip(x: int, width: nat)
    requires IntOfWidth(x, width)
    ensures BytesInt(IntBytes(x, width)) == x
  {
    UnsignedRoundTrip(if x < 0 then x + Power256(width) else x, width);
  }

  /** A number prepended is read back and leaves the readable bytes as they were. */
  lemma PrependThenRead(s: BufferState, x: int, width: nat)
    requires s.Valid() && IntOfWidth(x, width) && width <= s.reader
    ensures var t := AfterPrepend(s, IntBytes(x, width));
            BytesInt(t.contents[..width]) == x && AfterRetrieve(t, width).contents == s.contents
  {
    IntRoundTrip(x, width);
    assert AfterPrepend(s, IntBytes(x, width)).contents[..width] == IntBytes(x, width);
  }

  /** A stretch that begins where a text was written over. */
  lemma SliceFromPatch(s: string, at: nat, data: string, end: nat)
    requires at + |data| <= end <= |s|
    ensures (s[..at] + data + s[at + |data|..])[at..end] == data + s[at + |data|..end]
  {
  }

  /** A stretch that ends with it. */
  lemma SliceToPatch(s: string, start: nat, at: nat, data: string)
    requires start <= at && at + |data| <= |s|
    ensures (s[..at] + data + s[at + |data|..])[start..at + |data|] == s[start..at] + data
  {
  }

  // ---------------------------------------------------------------------------------------
  // The class.

  class Buffer {
    var buffer: array<char>
    var readerIndex: nat
    var writerIndex: nat

    ghost predicate Valid()
      reads this
    {
      readerIndex <= writerIndex <= buffer.Length && CHEAP_PREPEND <= buffer.Length
    }

    /** The readable bytes. */
    function Contents(): string
      requires Valid()
      reads this, buffer
    {
      buffer[readerIndex..writerIndex]
    }

    function State(): BufferState
      requires Valid()
      reads this, buffer
    {
      BufferState(buffer.Length, readerIndex, Contents())
    }

    function ReadableBytes(): nat
      requires Valid()
      reads this
    {
      writerIndex - readerIndex
    }

    function WritableBytes(): nat
      requires Valid()
      reads this
    {
      buffer.Length - writerIndex
    }

    function PrependableBytes(): nat
      reads this
    {
      readerIndex
    }

    constructor (initialSize: nat)
      ensures Valid() && fresh(buffer) && State() == InitState(initialSize)
    {
      buffer := new char[CHEAP_PREPEND + initialSize];
      readerIndex, writerIndex := CHEAP_PREPEND, CHEAP_PREPEND;
    }

    /** `findCRLF`, as an offset from `peek()`. */
    method FindCRLF() returns (crlf: Option<nat>)
      requires Valid()
      ensures crlf == CRLFPosition(Contents())
    {
      ghost var s := Contents();
      var i := readerIndex;
      while i + 1 < writerIndex
        invariant readerIndex <= i <= writerIndex
        invariant forall k :: 0 <= k < i - readerIndex ==> !CRLFAt(s, k)
      {
        if buffer[i] == '\r' && buffer[i + 1] == '\n' {
          assert CRLFAt(s, i - readerIndex);
          return Some(i - readerIndex);
        }
        i := i + 1;
      }
      return None;
    }

    method RetrieveAll()
      requires Valid()
      modifies this`readerIndex, this`writerIndex
      ensures Valid() && State() == AfterRetrieve(old(State()), |old(Contents())|)
    {
      readerIndex, writerIndex := CHEAP_PREPEND, CHEAP_PREPEND;
    }

    method Retrieve(len: nat)
      requires Valid() && len <= ReadableBytes()
      modifies this`readerIndex, this`writerIndex
      ensures Valid() && State() == AfterRetrieve(old(State()), len)
    {
      if len < ReadableBytes() {
        readerIndex := readerIndex + len;
      } else {
        RetrieveAll();
      }
    }

    method RetrieveAsString(len: nat) returns (result: string)
      requires Valid() && len <= ReadableBytes()
      modifies this`readerIndex, this`writerIndex
      ensures Valid() && State() == AfterRetrieve(old(State()), len) && result == old(Contents()[..len])
    {
      result := buffer[readerIndex..readerIndex + len];
      Retrieve(len);
    }

    /** `buffer_.resize(size)` to a larger size. */
    method Resize(size: nat)
      requires Valid() && size >= buffer.Length
      modifies this`buffer
      ensures Valid() && fresh(buffer) && State() == old(State()).(size := size)
    {
      var bigger := new char[size];
      for i := 0 to buffer.Length
        invariant buffer == old(buffer) && buffer[..] == old(buffer[..]) && bigger[..i] == buffer[..i]
      {
        bigger[i] := buffer[i];
      }
      assert bigger[..writerIndex] == buffer[..writerIndex];
      assert buffer[readerIndex..writerIndex] == buffer[..writerIndex][readerIndex..];
      assert bigger[readerIndex..writerIndex] == bigger[..writerIndex][readerIndex..];
      buffer := bigger;
    }

    /** `std::copy` of the readable bytes to the front, where they may overlap themselves. */
    method MoveToFront()
      requires Valid() && readerIndex > CHEAP_PREPEND
      modifies this`readerIndex, this`writerIndex, buffer
      ensures Valid() && State() == old(State()).(reader := CHEAP_PREPEND)
    {
      var readable := ReadableBytes();
      ghost var was := buffer[..];
      for i := 0 to readable
        invariant readerIndex == old(readerIndex) && writerIndex == old(writerIndex)
        invariant forall k :: CHEAP_PREPEND <= k < CHEAP_PREPEND + i ==>
                    buffer[k] == was[k + readerIndex - CHEAP_PREPEND]
        invariant forall k :: CHEAP_PREPEND + i <= k < buffer.Length ==> buffer[k] == was[k]
      {
        buffer[CHEAP_PREPEND + i] := buffer[readerIndex + i];
      }
      assert buffer[CHEAP_PREPEND..CHEAP_PREPEND + readable] == was[readerIndex..writerIndex];
      readerIndex := CHEAP_PREPEND;
      writerIndex := readerIndex + readable;
    }

    method EnsureWritableBytes(len: nat)
      requires Valid()
      modifies this, buffer
      ensures Valid() && (buffer == old(buffer) || fresh(buffer))
      ensures State() == AfterEnsure(old(State()), len) && len <= WritableBytes()
    {
      if WritableBytes() < len {
        MakeSpace(len);
      }
    }

    method MakeSpace(len: nat)
      requires Valid() && WritableBytes() < len
      modifies this, buffer
      ensures Valid() && (buffer == old(buffer) || fresh(buffer))
      ensures State() == AfterEnsure(old(State()), len) && len <= WritableBytes()
    {
      if PrependableBytes() + WritableBytes() < len + CHEAP_PREPEND {
        Resize(writerIndex + len);
      } else {
        MoveToFront();
      }
    }

    /** Copies `data` into the array from index `at` on. */
    method CopyIn(data: string, at: nat)
      requires at + |data| <= buffer.Length
      modifies buffer
      ensures buffer[..] == old(buffer[..at]) + data + old(buffer[at + |data|..])
    {
      for i := 0 to |data|
        invariant buffer[..] == old(buffer[..at]) + data[..i] + old(buffer[at + i..])
      {
        buffer[at + i] := data[i];
      }
    }

    method Append(data: string)
      requires Valid()
      modifies this, buffer
      ensures Valid() && (buffer == old(buffer) || fresh(buffer))
      ensures State() == AfterAppend(old(State()), data) && Contents() == old(Contents()) + data
    {
      EnsureWritableBytes(|data|);
      ghost var before := buffer[..];
      CopyIn(data, writerIndex);
      assert buffer[..] == before[..writerIndex] + data + before[writerIndex + |data|..];
      assert buffer[readerIndex..writerIndex + |data|] == buffer[..][readerIndex..writerIndex + |data|];
      SliceToPatch(before, readerIndex, writerIndex, data);
      writerIndex := writerIndex + |data|;
    }

    method Prepend(data: string)
      requires Valid() && |data| <= PrependableBytes()
      modifies this`readerIndex, buffer
      ensures Valid() && State() == AfterPrepend(old(State()), data)
    {
      ghost var before := buffer[..];
      readerIndex := readerIndex - |data|;
      CopyIn(data, readerIndex);
      assert buffer[..] == before[..readerIndex] + data + before[readerIndex + |data|..];
      assert buffer[readerIndex..writerIndex] == buffer[..][readerIndex..writerIndex];
      SliceFromPatch(before, readerIndex, data, writerIndex);
    }

    /** Moves the readable bytes to a new buffer of default size and swaps. */
    method Shrink(reserve: nat)
      requires Valid()
      modifies this
      ensures Valid() && fresh(buffer) && State() == AfterShrink(old(State()), reserve)
    {
      var other := new Buffer(INITIAL_SIZE);
      other.EnsureWritableBytes(ReadableBytes() + reserve);
      var text := RetrieveAsString(ReadableBytes());
      assert text == old(Contents());
      other.Append(text);
      buffer, readerIndex, writerIndex := other.buffer, other.readerIndex, other.writerIndex;
    }

    /** `peekInt8` to `peekInt64`, by their width in bytes. */
    method PeekInt(width: nat) returns (x: int)
      requires Valid() && width <= ReadableBytes()
      ensures x == BytesInt(Contents()[..width])
    {
      x := BytesInt(buffer[readerIndex..readerIndex + width]);
      assert Contents()[..width] == buffer[readerIndex..readerIndex + width];
    }

    method ReadInt(width: nat) returns (x: int)
      requires Valid() && width <= ReadableBytes()
      modifies this`readerIndex, this`writerIndex
      ensures Valid() && State() == AfterRetrieve(old(State()), width) && x == BytesInt(old(Contents()[..width]))
    {
      x := PeekInt(width);
      Retrieve(width);
    }

    method PrependInt(x: int, width: nat)
      requires Valid() && IntOfWidth(x, width) && width <= PrependableBytes()
      modifies this`readerIndex, buffer
      ensures Valid() && State() == AfterPrepend(old(State()), IntBytes(x, width))
    {
      Prepend(IntBytes(x, width));
    }
  }
}
