/**
  The incremental HTTP request parser: src/net/http/HttpContext.h and HttpContext.cc.

  `Parse` says what one call of `parseRequest` does to the parser and to the unread bytes; the
  class does it with a loop over a `Buffer`.
 */
module HttpContext {
  import opened Common
  import opened Buffer
  import opened HttpRequest

  datatype ParseState = ExpectRequestLine | ExpectHeaders | ExpectBody | GotAll

  datatype Parser = Parser(state: ParseState, request: Request, unread: string, ok: bool)

  const START := Parser(ExpectRequestLine, EMPTY, "", true)

  function Find(s: string, c: char): (r: Option<nat>)
    ensures r.Some? ==> r.value < |s| && s[r.value] == c && c !in s[..r.value]
    ensures r.None? ==> c !in s
  {
    if s == "" then None
    else if s[0] == c then Some(0)
    else
      match Find(s[1..], c)
      case None => None
      case Some(i) => assert s[..i + 1] == [s[0]] + s[1..][..i]; Some(i + 1)
  }

  lemma {:induction false} FirstOccurrence(s: string, c: char, i: nat)
    requires i < |s| && s[i] == c && c !in s[..i]
    ensures Find(s, c) == Some(i)
  {
    if i > 0 {
      assert s[0] == s[..i][0] && s[..i][1..] == s[1..][..i - 1];
      FirstOccurrence(s[1..], c, i - 1);
    }
  }

  /** The request after its line has been looked at, and whether the line is well formed. */
  function ProcessRequestLineSpec(r: Request, line: string): (Request, bool)
  {
    match Find(line, ' ')
    case None => (r, false)
    case Some(space) =>
      var r1 := r.(verb := MethodOf(line[..space]));
      if r1.verb == Invalid then (r1, false) else AfterMethod(r1, line[space + 1..])
  }

  /** Target and version. */
  function AfterMethod(r: Request, rest: string): (Request, bool)
  {
    match Find(rest, ' ')
    case None => (r, false)
    case Some(space) => SetVersion(SetTarget(r, rest[..space]), rest[space + 1..])
  }

  function SetTarget(r: Request, target: string): Request
  {
    match Find(target, '?')
    case None => r.(path := target)
    case Some(question) => r.(path := target[..question], query := target[question..])
  }

  function SetVersion(r: Request, version: string): (Request, bool)
  {
    if |version| == 8 && version[..7] == "HTTP/1." then
      if version[7] == '1' then (r.(version := Http11), true)
      else if version[7] == '0' then (r.(version := Http10), true)
      else (r, false)
    else (r, false)
  }

  /** States in which `parseRequest` may be called: in the others its loop would not end. */
  predicate CanParse(state: ParseState)
  {
    state == ExpectRequestLine || state == ExpectHeaders
  }

  /** A round of the loop of `parseRequest`, and whether there is another. */
  function ParseOnce(state: ParseState, r: Request, unread: string, time: int): (res: (Parser, bool))
    requires CanParse(state)
    ensures res.1 ==> res.0.ok && CanParse(res.0.state) && |res.0.unread| + 2 <= |unread|
  {
    match CRLFPosition(unread)
    case None => (Parser(state, r, unread, true), false)
    case Some(crlf) =>
      var line, rest := unread[..crlf], unread[crlf + 2..];
      if state == ExpectRequestLine then
        var (r', ok) := ProcessRequestLineSpec(r, line);
        if ok then (Parser(ExpectHeaders, r'.(receiveTime := time), rest, true), true)
        else (Parser(ExpectRequestLine, r', unread, false), false)
      else
        match Find(line, ':')
        case None => (Parser(GotAll, r, rest, true), false)
        case Some(colon) => (Parser(ExpectHeaders, WithHeader(r, line, colon), rest, true), true)
  }

  /** One call of `parseRequest`. */
  function Parse(state: ParseState, r: Request, unread: string, time: int): Parser
    requires CanParse(state)
    decreases |unread|
  {
    var (p, more) := ParseOnce(state, r, unread, time);
    if more then Parse(p.state, p.request, p.unread, time) else p
  }

  // ---------------------------------------------------------------------------------------
  // The class.

  class HttpContext {
    var state: ParseState
    const request: HttpRequest

    /** `setMethod` asserts that no method is set when a request line is due. */
    ghost predicate Valid()
      reads this, request
    {
      state == ExpectRequestLine ==> request.verb == Invalid
    }

    constructor ()
      ensures Valid() && state == ExpectRequestLine && request.Value() == EMPTY && fresh(request)
    {
      state := ExpectRequestLine;
      request := new HttpRequest();
    }

    method ProcessRequestLine(line: string) returns (succeed: bool)
      requires request.verb == Invalid
      modifies request
      ensures (request.Value(), succeed) == ProcessRequestLineSpec(old(request.Value()), line)
    {
      hide Find;
      succeed := false;
      var space := Find(line, ' ');
      if space.Some? {
        var known := request.SetMethod(line[..space.value]);
        if known {
          var rest := line[space.value + 1..];
          space := Find(rest, ' ');
          if space.Some? {
            var target := rest[..space.value];
            var question := Find(target, '?');
            if question.Some? {
              request.path := target[..question.value];
              request.query := target[question.value..];
            } else {
              request.path := target;
            }
            var version := rest[space.value + 1..];
            succeed := |version| == 8 && version[..7] == "HTTP/1.";
            if succeed {
              if version[7] == '1' {
                request.version := Http11;
              } else if version[7] == '0' {
                request.version := Http10;
              } else {
                succeed := false;
              }
            }
          }
        }
      }
    }

    /** A round in state `ExpectRequestLine` that has found the end of the line. */
    method TakeRequestLine(buf: Buffer, crlf: nat, receiveTime: int) returns (ok: bool)
      requires Valid() && state == ExpectRequestLine && buf.Valid() && CRLFPosition(buf.Contents()) == Some(crlf)
      modifies this`state, request, buf`readerIndex, buf`writerIndex
      ensures buf.Valid() && (ok ==> Valid())
      ensures (Parser(state, request.Value(), buf.Contents(), ok), ok)
           == ParseOnce(old(state), old(request.Value()), old(buf.Contents()), receiveTime)
    {
      hide ProcessRequestLineSpec, AfterRetrieve, CRLFPosition, WithHeader, Find;
      var line := buf.buffer[buf.readerIndex..buf.readerIndex + crlf];
      assert line == buf.Contents()[..crlf];
      RetrieveDrops(buf.State(), crlf + 2);
      ok := ProcessRequestLine(line);
      if ok {
        request.receiveTime := receiveTime;
        buf.Retrieve(crlf + 2);
        state := ExpectHeaders;
      }
    }

    /** A round in state `ExpectHeaders` that has found the end of the line. */
    method TakeHeader(buf: Buffer, crlf: nat, receiveTime: int) returns (hasMore: bool)
      requires state == ExpectHeaders && buf.Valid() && CRLFPosition(buf.Contents()) == Some(crlf)
      modifies this`state, request, buf`readerIndex, buf`writerIndex
      ensures buf.Valid() && Valid()
      ensures (Parser(state, request.Value(), buf.Contents(), true), hasMore)
           == ParseOnce(old(state), old(request.Value()), old(buf.Contents()), receiveTime)
    {
      hide WithHeader, CRLFPosition, Find, ProcessRequestLineSpec;
      var line := TakeLine(buf, crlf);
      var colon := Find(line, ':');
      hasMore := colon.Some?;
      if colon.Some? {
        request.AddHeader(line, colon.value);
      } else {
        state := GotAll;
      }
    }

    /** The line up to `crlf`, taken out of the buffer together with its end. */
    method TakeLine(buf: Buffer, crlf: nat) returns (line: string)
      requires buf.Valid() && crlf + 2 <= buf.ReadableBytes()
      modifies buf`readerIndex, buf`writerIndex
      ensures buf.Valid() && line == old(buf.Contents())[..crlf] && buf.Contents() == old(buf.Contents())[crlf + 2..]
    {
      hide AfterRetrieve;
      line := buf.buffer[buf.readerIndex..buf.readerIndex + crlf];
      assert line == buf.Contents()[..crlf];
      RetrieveDrops(buf.State(), crlf + 2);
      buf.Retrieve(crlf + 2);
    }

    method ParseRequest(buf: Buffer, receiveTime: int) returns (ok: bool)
      requires Valid() && CanParse(state) && buf.Valid()
      modifies this`state, request, buf`readerIndex, buf`writerIndex
      ensures buf.Valid() && (ok ==> Valid())
      ensures Parser(state, request.Value(), buf.Contents(), ok)
           == Parse(old(state), old(request.Value()), old(buf.Contents()), receiveTime)
    {
      hide ParseOnce;
      ghost var result := Parse(state, request.Value(), buf.Contents(), receiveTime);
      ok := true;
      var hasMore := true;
      while hasMore
        invariant buf.Valid() && (ok ==> Valid())
        invariant hasMore ==> ok && CanParse(state)
        invariant hasMore ==> Parse(state, request.Value(), buf.Contents(), receiveTime) == result
        invariant !hasMore ==> Parser(state, request.Value(), buf.Contents(), ok) == result
        decreases hasMore, buf.ReadableBytes()
      {
        var crlf := buf.FindCRLF();
        if crlf.None? {
          NothingToTake(state, request.Value(), buf.Contents(), receiveTime);
          hasMore := false;
        } else if state == ExpectRequestLine {
          ok := TakeRequestLine(buf, crlf.value, receiveTime);
          hasMore := ok;
        } else {
          hasMore := TakeHeader(buf, crlf.value, receiveTime);
        }
      }
    }

    method Reset()
      modifies this`state, request
      ensures Valid() && state == ExpectRequestLine && request.Value() == EMPTY
    {
      state := ExpectRequestLine;
      var dummy := new HttpRequest();
      request.Swap(dummy);
    }
  }

  lemma NothingToTake(state: ParseState, r: Request, unread: string, time: int)
    requires CanParse(state) && CRLFPosition(unread) == None
    ensures ParseOnce(state, r, unread, time) == (Parser(state, r, unread, true), false)
  {
  }

  lemma RetrieveDrops(s: BufferState, len: nat)
    requires len <= |s.contents|
    ensures AfterRetrieve(s, len).contents == s.contents[len..]
  {
  }

  // ---------------------------------------------------------------------------------------
  // The answer does not depend on how the bytes arrive.

  predicate Going(p: Parser) { p.ok && CanParse(p.state) }

  lemma {:induction false} CRLFStable(u: string, c: string)
    requires CRLFPosition(u).Some?
    ensures CRLFPosition(u + c) == CRLFPosition(u)
  {
    var i := CRLFPosition(u).value;
    assert CRLFAt(u + c, i);
    assert forall k :: 0 <= k < i ==> CRLFAt(u + c, k) == CRLFAt(u, k);
  }

  lemma OnceMore(state: ParseState, r: Request, u: string, c: string, time: int)
    requires CanParse(state) && CRLFPosition(u).Some?
    ensures var (p, more) := ParseOnce(state, r, u, time);
            ParseOnce(state, r, u + c, time) == (p.(unread := p.unread + c), more)
  {
    CRLFStable(u, c);
    var crlf := CRLFPosition(u).value;
    assert (u + c)[..crlf] == u[..crlf] && (u + c)[crlf + 2..] == u[crlf + 2..] + c;
    hide ProcessRequestLineSpec, WithHeader;
  }

  /** Where a call leaves the parser, with more bytes: it goes on, or they are added to the unread ones. */
  function ResumeWith(p: Parser, c: string, time: int): Parser
  {
    if Going(p) then Parse(p.state, p.request, p.unread + c, time) else p.(unread := p.unread + c)
  }

  /** Bytes that arrive after a call are parsed as if they had been there before it. */
  lemma {:induction false} ParseContinues(state: ParseState, r: Request, u: string, c: string, time: int)
    requires CanParse(state)
    ensures var p := Parse(state, r, u, time);
            Parse(state, r, u + c, time) == ResumeWith(p, c, time)
    decreases |u|
  {
    if CRLFPosition(u).None? {
      NothingToTake(state, r, u, time);
    } else {
      OnceMore(state, r, u, c, time);
      StopsForGood(state, r, u, time);
      var (p, more) := ParseOnce(state, r, u, time);
      hide ParseOnce;
      if more {
        ParseContinues(p.state, p.request, p.unread, c, time);
      }
    }
  }

  lemma StopsForGood(state: ParseState, r: Request, u: string, time: int)
    requires CanParse(state) && CRLFPosition(u).Some?
    ensures var (p, more) := ParseOnce(state, r, u, time); !more ==> !Going(p)
  {
    hide ProcessRequestLineSpec, WithHeader;
  }

  /** A call that ends neither in failure nor in a whole request has used up all whole lines. */
  lemma {:induction false} NoLineLeft(state: ParseState, r: Request, u: string, time: int)
    requires CanParse(state)
    ensures var p := Parse(state, r, u, time); Going(p) ==> CRLFPosition(p.unread).None?
    decreases |u|
  {
    if CRLFPosition(u).None? {
      NothingToTake(state, r, u, time);
    } else {
      StopsForGood(state, r, u, time);
      var (p, more) := ParseOnce(state, r, u, time);
      hide ParseOnce;
      if more {
        NoLineLeft(p.state, p.request, p.unread, time);
      }
    }
  }

  /** The receive time is the clock's business; everything else is the bytes'. */
  function Timeless(p: Parser): Parser { p.(request := p.request.(receiveTime := 0)) }

  predicate SameButTime(r: Request, q: Request) { r.(receiveTime := 0) == q.(receiveTime := 0) }

  lemma LineTimeless(r: Request, q: Request, line: string)
    requires SameButTime(r, q)
    ensures SameButTime(ProcessRequestLineSpec(r, line).0, ProcessRequestLineSpec(q, line).0)
    ensures ProcessRequestLineSpec(r, line).1 == ProcessRequestLineSpec(q, line).1
  {
    hide Find;
  }

  lemma HeaderTimeless(r: Request, q: Request, line: string, colon: nat)
    requires SameButTime(r, q) && colon < |line|
    ensures SameButTime(WithHeader(r, line, colon), WithHeader(q, line, colon))
  {
  }

  lemma OnceTimeless(state: ParseState, r: Request, q: Request, u: string, time: int, otherTime: int)
    requires CanParse(state) && r.(receiveTime := 0) == q.(receiveTime := 0)
    ensures var (p, more) := ParseOnce(state, r, u, time);
            var (p', more') := ParseOnce(state, q, u, otherTime);
            Timeless(p) == Timeless(p') && more == more'
  {
    hide ProcessRequestLineSpec, WithHeader, Find, CRLFPosition;
    if CRLFPosition(u).Some? {
      var line := u[..CRLFPosition(u).value];
      if state == ExpectRequestLine {
        LineTimeless(r, q, line);
      } else if Find(line, ':').Some? {
        HeaderTimeless(r, q, line, Find(line, ':').value);
      }
    }
  }

  lemma {:induction false} ParseTimeless(state: ParseState, r: Request, q: Request, u: string, time: int, otherTime: int)
    requires CanParse(state) && r.(receiveTime := 0) == q.(receiveTime := 0)
    ensures Timeless(Parse(state, r, u, time)) == Timeless(Parse(state, q, u, otherTime))
    decreases |u|
  {
    OnceTimeless(state, r, q, u, time, otherTime);
    var (p, more) := ParseOnce(state, r, u, time);
    var (p', more') := ParseOnce(state, q, u, otherTime);
    hide ParseOnce;
    if more {
      ParseTimeless(p.state, p.request, p'.request, p.unread, time, otherTime);
    }
  }

  /** Bytes received and when. */
  datatype Chunk = Chunk(bytes: string, time: int)

  function Concat(chunks: seq<Chunk>): string
  {
    if chunks == [] then "" else chunks[0].bytes + Concat(chunks[1..])
  }

  /** A call of `parseRequest` for each chunk, up to a failure or a whole request. */
  function Feed(p: Parser, chunks: seq<Chunk>): Parser
    decreases |chunks|
  {
    if chunks == [] then p
    else if Going(p) then
      Feed(Parse(p.state, p.request, p.unread + chunks[0].bytes, chunks[0].time), chunks[1..])
    else
      Feed(p.(unread := p.unread + chunks[0].bytes), chunks[1..])
  }

  lemma {:induction false} FeedAfterStop(p: Parser, chunks: seq<Chunk>)
    requires !Going(p)
    ensures Feed(p, chunks) == p.(unread := p.unread + Concat(chunks))
    decreases |chunks|
  {
    if chunks == [] {
      assert p.unread + "" == p.unread;
    } else {
      FeedAfterStop(p.(unread := p.unread + chunks[0].bytes), chunks[1..]);
      assert p.unread + chunks[0].bytes + Concat(chunks[1..]) == p.unread + (chunks[0].bytes + Concat(chunks[1..]));
    }
  }

  /** Any way to cut the bytes into chunks gives the parser that one call on all of them gives. */
  lemma {:induction false} ChunkInvariance(p: Parser, chunks: seq<Chunk>, time: int)
    requires Going(p) && CRLFPosition(p.unread).None?
    ensures Timeless(Feed(p, chunks)) == Timeless(Parse(p.state, p.request, p.unread + Concat(chunks), time))
    decreases |chunks|
  {
    hide CRLFPosition;
    if chunks == [] {
      assert p.unread + "" == p.unread;
      NothingToTake(p.state, p.request, p.unread, time);
    } else {
      var first, rest := p.unread + chunks[0].bytes, chunks[1..];
      assert p.unread + Concat(chunks) == first + Concat(rest);
      var q := Parse(p.state, p.request, first, chunks[0].time);
      NoLineLeft(p.state, p.request, first, chunks[0].time);
      ParseContinues(p.state, p.request, first, Concat(rest), chunks[0].time);
      ParseTimeless(p.state, p.request, p.request, first + Concat(rest), chunks[0].time, time);
      if Going(q) {
        ChunkInvariance(q, rest, chunks[0].time);
      } else {
        FeedAfterStop(q, rest);
      }
    }
  }
}
