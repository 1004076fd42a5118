/**
  The server's use of the parser, src/net/http/HttpServer.cc, and requests read back from their
  text however it is cut into messages.
 */
module HttpServer {
  import opened Common
  import opened Buffer
  import opened HttpRequest
  import opened HttpContext
  import opened HttpResponse

  // ---------------------------------------------------------------------------------------
  // Requests as text.

  function VersionText(version: Version): string
  {
    if version == Http11 then "HTTP/1.1" else "HTTP/1.0"
  }

  function RequestLine(verb: Method, version: Version, path: string, query: string): string
  {
    MethodString(verb) + " " + (path + query) + " " + VersionText(version)
  }

  /** A query is kept with its question mark. */
  predicate GoodTarget(path: string, query: string)
  {
    ' ' !in path && '?' !in path && ' ' !in query && (query == "" || query[0] == '?')
  }

  lemma SplitAt(left: string, c: char, right: string)
    requires c !in left
    ensures var s := left + [c] + right;
            Find(s, c) == Some(|left|) && s[..|left|] == left && s[|left| + 1..] == right
  {
    var s := left + [c] + right;
    assert s[..|left|] == left;
    FirstOccurrence(s, c, |left|);
  }

  lemma TargetReadBack(r: Request, path: string, query: string)
    requires GoodTarget(path, query) && r.query == ""
    ensures SetTarget(r, path + query) == r.(path := path, query := query)
  {
    if query == "" {
      assert path + query == path;
    } else {
      assert path + query == path + ['?'] + query[1..];
      SplitAt(path, '?', query[1..]);
      assert (path + query)[|path|..] == query;
    }
  }

  /** Any target the parser accepts is of the good form. */
  lemma ParsedTargetIsGood(r: Request, line: string)
    requires r.query == "" && ProcessRequestLineSpec(r, line).1
    ensures var p := ProcessRequestLineSpec(r, line).0; GoodTarget(p.path, p.query)
  {
    var space := Find(line, ' ').value;
    var rest := line[space + 1..];
    var target := rest[..Find(rest, ' ').value];
    assert ' ' !in target;
    if Find(target, '?').Some? {
      assert target == target[..Find(target, '?').value] + target[Find(target, '?').value..];
    }
  }

  /** Exactly the methods `methodString` knows and the targets of good form read back. */
  lemma RequestLineReadBack(verb: Method, version: Version, path: string, query: string, r: Request)
    requires version != Unknown && r.query == ""
    ensures ProcessRequestLineSpec(r, RequestLine(verb, version, path, query))
         == (r.(verb := verb, version := version, path := path, query := query), true)
       <==> verb != Delete && verb != Invalid && GoodTarget(path, query)
  {
    var line := RequestLine(verb, version, path, query);
    if verb != Delete && verb != Invalid && GoodTarget(path, query) {
      GoodLineReadBack(verb, version, path, query, r);
    } else if ProcessRequestLineSpec(r, line).1 {
      ParsedTargetIsGood(r, line);
      MethodReadBack(verb, version, path, query, r);
    }
  }

  /** The request line cut at its spaces. */
  lemma LineAtSpaces(verb: Method, version: Version, path: string, query: string)
    ensures RequestLine(verb, version, path, query)
         == MethodString(verb) + [' '] + (path + query + [' '] + VersionText(version))
  {
    hide MethodString, VersionText;
    Regroup(MethodString(verb), " ", path + query, " ", VersionText(version));
  }

  lemma MethodReadBack(verb: Method, version: Version, path: string, query: string, r: Request)
    ensures verb == Delete || verb == Invalid ==>
              !ProcessRequestLineSpec(r, RequestLine(verb, version, path, query)).1
  {
    LineAtSpaces(verb, version, path, query);
    assert ' ' !in MethodString(verb);
    SplitAt(MethodString(verb), ' ', path + query + [' '] + VersionText(version));
    assert verb == Delete || verb == Invalid ==> MethodOf(MethodString(verb)) == Invalid;
    hide Find, MethodOf, MethodString, RequestLine, AfterMethod;
  }

  lemma GoodLineReadBack(verb: Method, version: Version, path: string, query: string, r: Request)
    requires version != Unknown && r.query == "" && verb != Delete && verb != Invalid && GoodTarget(path, query)
    ensures ProcessRequestLineSpec(r, RequestLine(verb, version, path, query))
         == (r.(verb := verb, version := version, path := path, query := query), true)
  {
    LineAtSpaces(verb, version, path, query);
    assert ' ' !in MethodString(verb);
    SplitAt(MethodString(verb), ' ', path + query + [' '] + VersionText(version));
    MethodRoundTrip(verb);
    RestReadBack(r.(verb := verb), version, path, query);
    hide Find, MethodOf, MethodString, RequestLine, AfterMethod, GoodTarget, VersionText;
  }

  lemma RestReadBack(r: Request, version: Version, path: string, query: string)
    requires version != Unknown && r.query == "" && GoodTarget(path, query)
    ensures AfterMethod(r, path + query + [' '] + VersionText(version))
         == (r.(version := version, path := path, query := query), true)
  {
    SplitAt(path + query, ' ', VersionText(version));
    TargetReadBack(r, path, query);
    assert VersionText(version)[..7] == "HTTP/1.";
    hide Find, SetTarget, GoodTarget;
  }

  /** A request and what follows it. */
  function RequestText(verb: Method, version: Version, path: string, query: string, fields: seq<Field>, rest: string): string
  {
    RequestLine(verb, version, path, query) + CRLF + Lines(fields) + CRLF + rest
  }

  predicate Printable(verb: Method, version: Version, path: string, query: string, fields: seq<Field>)
  {
    && verb != Delete && verb != Invalid && version != Unknown
    && GoodTarget(path, query) && !HasCRLF(RequestLine(verb, version, path, query))
    && forall i :: 0 <= i < |fields| ==> CleanField(fields[i])
  }

  lemma RequestReadBack(verb: Method, version: Version, path: string, query: string, fields: seq<Field>,
                        rest: string, time: int)
    requires Printable(verb, version, path, query, fields)
    ensures Parse(ExpectRequestLine, EMPTY, RequestText(verb, version, path, query, fields, rest), time)
         == Parser(GotAll, Request(verb, version, path, query, time, AddAll(map[], fields)), rest, true)
  {
    var line := RequestLine(verb, version, path, query);
    var after := Lines(fields) + (CRLF + rest);
    var r := Request(verb, version, path, query, time, map[]);
    assert RequestText(verb, version, path, query, fields, rest) == line + CRLF + after by {
      hide RequestLine, Lines;
    }
    hide RequestLine, Lines, CleanField, HasCRLF;
    LineEnds(line, after);
    GoodLineReadBack(verb, version, path, query, EMPTY);
    FirstLine(line, after, r.(receiveTime := 0), time);
    ParseFields(r, fields, CRLF + rest, time);
    ParseEnd(r.(headers := AddAll(map[], fields)), rest, time);
  }

  lemma FirstLine(line: string, after: string, r: Request, time: int)
    requires CRLFPosition(line + CRLF + after) == Some(|line|)
    requires (line + CRLF + after)[..|line|] == line && (line + CRLF + after)[|line| + 2..] == after
    requires ProcessRequestLineSpec(EMPTY, line) == (r, true)
    ensures Parse(ExpectRequestLine, EMPTY, line + CRLF + after, time)
         == Parse(ExpectHeaders, r.(receiveTime := time), after, time)
  {
    hide ProcessRequestLineSpec, CRLFPosition;
  }

  /** However the text of a request is cut into chunks, the parser ends up with that request. */
  lemma RequestInChunks(verb: Method, version: Version, path: string, query: string, fields: seq<Field>,
                        rest: string, chunks: seq<Chunk>)
    requires Printable(verb, version, path, query, fields)
    requires Concat(chunks) == RequestText(verb, version, path, query, fields, rest)
    ensures Timeless(Feed(START, chunks))
         == Parser(GotAll, Request(verb, version, path, query, 0, AddAll(map[], fields)), rest, true)
  {
    hide Printable, RequestText, Parse, Feed;
    ChunkInvariance(START, chunks, 0);
    assert "" + Concat(chunks) == Concat(chunks);
    RequestReadBack(verb, version, path, query, fields, rest, 0);
  }

  // ---------------------------------------------------------------------------------------
  // Messages.

  /** A connection's parser with its unread bytes, and the requests handed to the application. */
  datatype Session = Session(parser: Parser, handled: seq<Request>)

  /** A message has been appended to the input: `onMessage`. */
  function Serve(s: Session, message: Chunk): Session
    requires CanParse(s.parser.state)
  {
    var p := Parse(s.parser.state, s.parser.request, s.parser.unread + message.bytes, message.time);
    if p.state == GotAll then Session(Parser(ExpectRequestLine, EMPTY, p.unread, true), s.handled + [p.request])
    else Session(p, s.handled)
  }

  /** What `onMessage` relies on: a state the loop ends in, and no method set before its line is due. */
  predicate Ready(s: Session)
  {
    s.parser.ok && CanParse(s.parser.state) && (s.parser.state == ExpectRequestLine ==> s.parser.request == EMPTY)
  }

  lemma {:induction false} ParseKeepsEmpty(state: ParseState, r: Request, unread: string, time: int)
    requires CanParse(state) && (state == ExpectRequestLine ==> r == EMPTY)
    ensures var p := Parse(state, r, unread, time);
            p.state != ExpectBody && (p.ok && p.state == ExpectRequestLine ==> p.request == EMPTY)
            && (!p.ok ==> p.state == ExpectRequestLine)
    decreases |unread|
  {
    OnceKeepsEmpty(state, r, unread, time);
    var (p, more) := ParseOnce(state, r, unread, time);
    hide ParseOnce;
    if more {
      ParseKeepsEmpty(p.state, p.request, p.unread, time);
    }
  }

  lemma OnceKeepsEmpty(state: ParseState, r: Request, unread: string, time: int)
    requires CanParse(state) && (state == ExpectRequestLine ==> r == EMPTY)
    ensures var (p, more) := ParseOnce(state, r, unread, time);
            p.state != ExpectBody && (p.ok && p.state == ExpectRequestLine ==> p.request == EMPTY)
            && (!p.ok ==> p.state == ExpectRequestLine)
  {
    hide ProcessRequestLineSpec, WithHeader;
  }

  lemma ServeReady(s: Session, message: Chunk)
    requires Ready(s)
    ensures Serve(s, message).parser.ok ==> Ready(Serve(s, message))
  {
    hide Parse;
    ParseKeepsEmpty(s.parser.state, s.parser.request, s.parser.unread + message.bytes, message.time);
  }

  /** All messages, up to the first malformed request line. */
  function ServeAll(s: Session, messages: seq<Chunk>): Session
    requires Ready(s)
    decreases |messages|
  {
    if messages == [] then s
    else
      ServeReady(s, messages[0]);
      var t := Serve(s, messages[0]);
      if t.parser.ok then ServeAll(t, messages[1..]) else t
  }

  /** Main result: until a request line is malformed, the parser can always be called again. */
  lemma {:induction false} AlwaysReady(s: Session, messages: seq<Chunk>)
    requires Ready(s)
    ensures ServeAll(s, messages).parser.ok ==> Ready(ServeAll(s, messages))
    decreases |messages|
  {
    if messages != [] {
      ServeReady(s, messages[0]);
      var t := Serve(s, messages[0]);
      hide Serve, Ready;
      if t.parser.ok {
        AlwaysReady(t, messages[1..]);
      }
    }
  }

  /** As long as no request is complete, the server does what feeding the parser does. */
  lemma {:induction false} ServeIsFeed(s: Session, messages: seq<Chunk>)
    requires Ready(s) && Going(Feed(s.parser, messages))
    ensures ServeAll(s, messages) == Session(Feed(s.parser, messages), s.handled)
    decreases |messages|
  {
    if messages != [] {
      ServeReady(s, messages[0]);
      var p := Parse(s.parser.state, s.parser.request, s.parser.unread + messages[0].bytes, messages[0].time);
      if !Going(p) {
        FeedAfterStop(p, messages[1..]);
      } else {
        ServeIsFeed(Session(p, s.handled), messages[1..]);
      }
    }
  }

  /**
    The message that completes a request hands over exactly that request, whatever the messages
    before it contained of it. What follows the request stays unread until another message comes.
   */
  lemma RequestServed(verb: Method, version: Version, path: string, query: string, fields: seq<Field>,
                      rest: string, messages: seq<Chunk>, last: Chunk)
    requires Printable(verb, version, path, query, fields)
    requires Concat(messages + [last]) == RequestText(verb, version, path, query, fields, rest)
    requires Going(Feed(START, messages))
    ensures var s := ServeAll(Session(START, []), messages);
            && Ready(s) && s.handled == []
            && var t := Serve(s, last);
               t.parser == Parser(ExpectRequestLine, EMPTY, rest, true)
               && |t.handled| == 1
               && t.handled[0].(receiveTime := 0) == Request(verb, version, path, query, 0, AddAll(map[], fields))
  {
    hide Parse, Printable, RequestText;
    AlwaysReady(Session(START, []), messages);
    ServeIsFeed(Session(START, []), messages);
    FeedSnoc(START, messages, last);
    RequestInChunks(verb, version, path, query, fields, rest, messages + [last]);
  }

  lemma {:induction false} FeedSnoc(p: Parser, chunks: seq<Chunk>, last: Chunk)
    requires Going(Feed(p, chunks))
    ensures var q := Feed(p, chunks);
            Feed(p, chunks + [last]) == Parse(q.state, q.request, q.unread + last.bytes, last.time)
    decreases |chunks|
  {
    hide Parse;
    if chunks == [] {
      assert [last][1..] == [];
      assert chunks + [last] == [last];
    } else {
      assert (chunks + [last])[1..] == chunks[1..] + [last];
      if !Going(p) {
        FeedAfterStop(p, chunks);
      } else {
        FeedSnoc(Parse(p.state, p.request, p.unread + chunks[0].bytes, chunks[0].time), chunks[1..], last);
      }
    }
  }

  // ---------------------------------------------------------------------------------------
  // Replies.

  const BAD_REQUEST := "HTTP/1.1 400 Bad Request\r\n\r\n"

  /** What the application makes of a response. */
  datatype Reply = Reply(statusCode: nat, statusMessage: string, close: bool, headers: map<string, string>, body: string)

  /** The application's callback: the request, and what `closeConnection` is set to before. */
  type Application = (Request, bool) -> Reply

  /** `onRequest` closes the connection on demand, and after HTTP/1.0 unless it is asked not to. */
  predicate WantsClose(r: Request)
  {
    var connection := if "Connection" in r.headers then r.headers["Connection"] else "";
    connection == "close" || (r.version == Http10 && connection != "Keep-Alive")
  }

  function ReplyTo(app: Application, r: Request): Reply
  {
    app(r, WantsClose(r))
  }

  /** The text of a reply; its headers come in the order of their names. */
  ghost predicate IsText(reply: Reply, text: string)
  {
    exists fields :: Enumerates(fields, reply.headers)
      && text == StatusLine(reply.statusCode, reply.statusMessage) + HeadersAndBody(reply.close, fields, reply.body)
  }

  function Joined(texts: seq<string>): string
  {
    if texts == [] then "" else Joined(texts[..|texts| - 1]) + texts[|texts| - 1]
  }

  /**
    Every request handed over has been answered once, in order, with the text of its reply, and then
    a malformed one with the error; the connection is shut down if a reply or an error closed it.
   */
  ghost predicate Answered(app: Application, handled: seq<Request>, replies: seq<string>, output: string,
                           failed: bool, shutDown: bool)
  {
    && |replies| == |handled|
    && (forall i | 0 <= i < |handled| :: IsText(ReplyTo(app, handled[i]), replies[i]))
    && output == Joined(replies) + (if failed then BAD_REQUEST else "")
    && (shutDown <==> failed || exists i :: 0 <= i < |handled| && ReplyTo(app, handled[i]).close)
  }

  lemma AnsweredOneMore(app: Application, handled: seq<Request>, replies: seq<string>, output: string,
                        shutDown: bool, r: Request, text: string)
    requires Answered(app, handled, replies, output, false, shutDown) && IsText(ReplyTo(app, r), text)
    ensures Answered(app, handled + [r], replies + [text], output + text, false, shutDown || ReplyTo(app, r).close)
  {
    hide IsText, ReplyTo;
    assert (replies + [text])[..|replies|] == replies;
    assert Joined(replies) + "" == Joined(replies);
    assert Joined(replies) + text + "" == Joined(replies) + text;
    var all := handled + [r];
    assert all[|handled|] == r;
    assert forall i :: 0 <= i < |handled| ==> all[i] == handled[i];
  }

  lemma AnsweredError(app: Application, handled: seq<Request>, replies: seq<string>, output: string, shutDown: bool)
    requires Answered(app, handled, replies, output, false, shutDown)
    ensures Answered(app, handled, replies, output + BAD_REQUEST, true, true)
  {
    hide IsText, ReplyTo;
    assert Joined(replies) + "" == Joined(replies);
  }

  /** One connection: its context, its input buffer, what was handed to the application and what was sent. */
  class Connection {
    const app: Application
    const context: HttpContext
    const input: Buffer
    var handled: seq<Request>
    var output: string
    var failed: bool
    var shutDown: bool
    ghost var replies: seq<string>

    ghost predicate Valid()
      reads this, context, context.request, input
    {
      input.Valid() && context.Valid() && (!failed ==> CanParse(context.state))
    }

    function State(): Session
      requires input.Valid()
      reads this, context, context.request, input, input.buffer
    {
      Session(Parser(context.state, context.request.Value(), input.Contents(), !failed), handled)
    }

    ghost predicate AllAnswered()
      reads this
    {
      Answered(app, handled, replies, output, failed, shutDown)
    }

    constructor (app: Application)
      ensures Valid() && !failed && State() == Session(START, []) && AllAnswered() && this.app == app
    {
      this.app := app;
      context := new HttpContext();
      input := new Buffer(INITIAL_SIZE);
      handled, output, failed, shutDown, replies := [], "", false, false, [];
    }

    /** `onRequest`: the application fills in the response, which is printed and sent. */
    method OnRequest()
      requires AllAnswered() && !failed
      modifies this`handled, this`output, this`shutDown, this`replies
      ensures AllAnswered() && handled == old(handled) + [context.request.Value()]
    {
      hide Answered, IsText, ReplyTo, WantsClose;
      var request := context.request.Value();
      var close := MustClose();
      var text, closed := Print(request, close);
      AnsweredOneMore(app, handled, replies, output, shutDown, request, text);
      handled, replies := handled + [request], replies + [text];
      output := output + text;
      if closed {
        shutDown := true;
      }
    }

    method MustClose() returns (close: bool)
      ensures close == WantsClose(context.request.Value())
    {
      var connection := context.request.GetHeader("Connection");
      close := connection == "close" || (context.request.version == Http10 && connection != "Keep-Alive");
    }

    method Print(request: Request, close: bool) returns (text: string, closed: bool)
      requires close == WantsClose(request)
      ensures IsText(ReplyTo(app, request), text) && closed == ReplyTo(app, request).close
    {
      var response := new HttpResponse(close);
      var reply := app(request, close);
      response.statusCode, response.statusMessage := reply.statusCode, reply.statusMessage;
      response.closeConnection, response.headers, response.body := reply.close, reply.headers, reply.body;
      var buf := new Buffer(INITIAL_SIZE);
      hide Enumerates, StatusLine, HeadersAndBody, WantsClose;
      response.AppendToBuffer(buf);
      text := buf.Contents();
      closed := response.closeConnection;
      assert "" + StatusLine(reply.statusCode, reply.statusMessage) == StatusLine(reply.statusCode, reply.statusMessage);
    }

    method SendError()
      requires AllAnswered() && !failed
      modifies this`output, this`failed, this`shutDown
      ensures AllAnswered() && failed
    {
      AnsweredError(app, handled, replies, output, shutDown);
      hide Answered;
      output := output + BAD_REQUEST;
      failed, shutDown := true, true;
    }

    /** `handleRead` appends to the input buffer and calls `onMessage`. */
    method OnMessage(message: Chunk)
      requires Valid() && !failed && Ready(State()) && AllAnswered()
      modifies this, context, context.request, input, input.buffer
      ensures input.Valid() && State() == Serve(old(State()), message) && AllAnswered()
      ensures !failed ==> Valid() && Ready(State())
    {
      ServeReady(State(), message);
      ParseKeepsEmpty(context.state, context.request.Value(), input.Contents() + message.bytes, message.time);
      hide Parse, AfterAppend, Answered;
      input.Append(message.bytes);
      var ok := context.ParseRequest(input, message.time);
      if !ok {
        SendError();
      }
      if context.state == GotAll {
        OnRequest();
        context.Reset();
      }
    }
  }
}
