/**
  Several requests on one connection: what `onMessage` of src/net/http/HttpServer.cc hands over when
  clients send requests without bodies one after another, in messages of any size.
 */
module HttpPipeline {
  import opened Common
  import opened Buffer
  import opened HttpRequest
  import opened HttpContext
  import opened HttpResponse
  import opened HttpServer

  /** A request to be sent. */
  datatype Sent = Sent(verb: Method, version: Version, path: string, query: string, fields: seq<Field>)
  {
    predicate Good() { Printable(verb, version, path, query, fields) }

    function Text(): string { RequestText(verb, version, path, query, fields, "") }

    /** The request as the application should get it, but for the time of receipt. */
    function Read(): Request { Request(verb, version, path, query, 0, AddAll(map[], fields)) }
  }

  function Texts(sent: seq<Sent>): string
  {
    if sent == [] then "" else sent[0].Text() + Texts(sent[1..])
  }

  function Reads(sent: seq<Sent>): (requests: seq<Request>)
    ensures |requests| == |sent|
    ensures forall i | 0 <= i < |sent| :: requests[i] == sent[i].Read()
  {
    seq(|sent|, i requires 0 <= i < |sent| => sent[i].Read())
  }

  function Clear(r: Request): Request { r.(receiveTime := 0) }

  function ClearAll(rs: seq<Request>): (cleared: seq<Request>)
    ensures |cleared| == |rs|
    ensures forall i | 0 <= i < |rs| :: cleared[i] == Clear(rs[i])
  {
    seq(|rs|, i requires 0 <= i < |rs| => Clear(rs[i]))
  }

  /** A parser that has come as far as it can with `seen`, or has yet to look at it. */
  predicate Stands(p: Parser, seen: string)
  {
    || p == Parser(ExpectRequestLine, EMPTY, seen, true)
    || (Going(p) && Timeless(p) == Timeless(Parse(ExpectRequestLine, EMPTY, seen, 0)))
  }

  /** More bytes bring it to where the parser gets that sees all of them at once. */
  lemma StandsOn(p: Parser, seen: string, more: string, time: int)
    requires Stands(p, seen)
    ensures CanParse(p.state)
    ensures Timeless(Parse(p.state, p.request, p.unread + more, time))
         == Timeless(Parse(ExpectRequestLine, EMPTY, seen + more, 0))
  {
    hide Parse;
    ParseTimeless(ExpectRequestLine, EMPTY, EMPTY, seen + more, time, 0);
    if p != Parser(ExpectRequestLine, EMPTY, seen, true) {
      var q := Parse(ExpectRequestLine, EMPTY, seen, 0);
      ParseContinues(ExpectRequestLine, EMPTY, seen, more, 0);
      ParseTimeless(q.state, p.request, q.request, q.unread + more, time, 0);
    }
  }

  lemma WholeRequest(r: Sent, rest: string)
    requires r.Good()
    ensures Parse(ExpectRequestLine, EMPTY, r.Text() + rest, 0) == Parser(GotAll, r.Read(), rest, true)
  {
    hide Parse, Printable, RequestLine, Lines, AddAll;
    var line := RequestLine(r.verb, r.version, r.path, r.query);
    assert line + CRLF + Lines(r.fields) + CRLF + "" + rest == line + CRLF + Lines(r.fields) + CRLF + rest;
    RequestReadBack(r.verb, r.version, r.path, r.query, r.fields, rest, 0);
  }

  /** With part of a request the parser neither fails nor is done. */
  lemma PartOfRequest(r: Sent, part: string, more: string)
    requires r.Good() && part + more == r.Text() && more != ""
    ensures Going(Parse(ExpectRequestLine, EMPTY, part, 0))
  {
    hide Parse;
    WholeRequest(r, "");
    assert part + more + "" == r.Text();
    assert r.Text() + "" == part + more;
    ParseContinues(ExpectRequestLine, EMPTY, part, more, 0);
  }

  lemma NothingSeen()
    ensures Parse(ExpectRequestLine, EMPTY, "", 0) == START
  {
    NothingToTake(ExpectRequestLine, EMPTY, "", 0);
  }

  /** A message that does not complete a request. */
  lemma ServeGoing(s: Session, seen: string, message: Chunk)
    requires Stands(s.parser, seen) && Going(Parse(ExpectRequestLine, EMPTY, seen + message.bytes, 0))
    ensures CanParse(s.parser.state)
    ensures Serve(s, message).handled == s.handled && Stands(Serve(s, message).parser, seen + message.bytes)
  {
    hide Parse;
    StandsOn(s.parser, seen, message.bytes, message.time);
  }

  /** A message that completes one. */
  lemma ServeWhole(s: Session, seen: string, message: Chunk, r: Sent, rest: string)
    requires Stands(s.parser, seen) && r.Good() && seen + message.bytes == r.Text() + rest
    ensures CanParse(s.parser.state)
    ensures var t := Serve(s, message);
            Stands(t.parser, rest) && |t.handled| == |s.handled| + 1
            && t.handled == s.handled + [t.handled[|s.handled|]] && Clear(t.handled[|s.handled|]) == r.Read()
  {
    hide Parse;
    StandsOn(s.parser, seen, message.bytes, message.time);
    WholeRequest(r, rest);
  }

  /**
    From `s` to `t`, which has seen `left`, with `rest` to come: the first of the requests `sent` have
    been handed over, in order, at most `limit` of them, and the others are still in the stream.
   */
  predicate Served(s: Session, t: Session, sent: seq<Sent>, limit: nat, left: string, rest: string)
  {
    && t.parser.ok && Stands(t.parser, left)
    && |s.handled| <= |t.handled| <= |s.handled| + limit && |t.handled| <= |s.handled| + |sent|
    && ClearAll(s.handled) <= ClearAll(t.handled) <= ClearAll(s.handled) + Reads(sent)
    && left + rest == Texts(sent[|t.handled| - |s.handled|..])
  }

  lemma ServedNothing(s: Session, sent: seq<Sent>, limit: nat, left: string, rest: string)
    requires Stands(s.parser, left) && left + rest == Texts(sent)
    ensures Served(s, s, sent, limit, left, rest)
  {
    hide Stands, ClearAll, Reads, Texts;
    StandsOk(s, left);
    assert sent[0..] == sent;
  }

  lemma ServedLater(s: Session, s1: Session, t: Session, sent: seq<Sent>, limit: nat, left: string, rest: string)
    requires s1.handled == s.handled && Served(s1, t, sent, limit, left, rest)
    ensures Served(s, t, sent, limit + 1, left, rest)
  {
    hide Stands, ClearAll, Reads, Texts;
  }

  lemma ServedOneMore(s: Session, s1: Session, t: Session, sent: seq<Sent>, limit: nat, left: string, rest: string)
    requires sent != [] && |s1.handled| == |s.handled| + 1
    requires s1.handled == s.handled + [s1.handled[|s.handled|]] && Clear(s1.handled[|s.handled|]) == sent[0].Read()
    requires Served(s1, t, sent[1..], limit, left, rest)
    ensures Served(s, t, sent, limit + 1, left, rest)
  {
    hide Stands, Texts;
    assert ClearAll(s1.handled) == ClearAll(s.handled) + [sent[0].Read()];
    assert Reads(sent) == [sent[0].Read()] + Reads(sent[1..]);
    hide ClearAll, Reads;
    Prefixes(ClearAll(s.handled), sent[0].Read(), ClearAll(t.handled), Reads(sent[1..]));
    var k := |t.handled| - |s1.handled|;
    assert sent[1..][k..] == sent[k + 1..];
  }

  lemma Prefixes<X>(before: seq<X>, x: X, all: seq<X>, later: seq<X>)
    requires before + [x] <= all <= before + [x] + later
    ensures before <= all <= before + ([x] + later)
  {
    assert before + [x] + later == before + ([x] + later);
  }

  /** The stream after a message that completes the request with this text. */
  lemma StreamOver(seen: string, bytes: string, more: string, rest: string, text: string, tail: string)
    requires seen + (bytes + more) + rest == text + tail && |seen + bytes| >= |text|
    ensures var w := seen + bytes; w == text + w[|text|..] && w[|text|..] + more + rest == tail
  {
    var w := seen + bytes;
    assert w + (more + rest) == text + tail;
    assert w[..|text|] == (w + (more + rest))[..|text|] == text;
    assert w[|text|..] + (more + rest) == (w + (more + rest))[|text|..] == tail;
    assert w[|text|..] + more + rest == w[|text|..] + (more + rest);
  }

  lemma ServeAllHead(s: Session, messages: seq<Chunk>)
    requires Ready(s) && messages != [] && CanParse(s.parser.state) && Serve(s, messages[0]).parser.ok
    ensures Ready(Serve(s, messages[0])) && ServeAll(s, messages) == ServeAll(Serve(s, messages[0]), messages[1..])
  {
    hide Serve, Ready;
    ServeReady(s, messages[0]);
  }

  /**
    The requests handed over are the first of those that were sent, in order and at most one for
    each message, however the messages cut the stream and wherever it ends. The rest of the stream
    is `left`, which the parser has seen, and what has not come yet.
   */
  lemma {:induction false} ServesInOrder(s: Session, seen: string, sent: seq<Sent>, messages: seq<Chunk>, rest: string)
    returns (left: string)
    requires Ready(s) && Stands(s.parser, seen)
    requires forall i | 0 <= i < |sent| :: sent[i].Good()
    requires seen + Concat(messages) + rest == Texts(sent)
    ensures Served(s, ServeAll(s, messages), sent, |messages|, left, rest)
    decreases |messages|
  {
    hide Serve, Ready, Stands, Parse, Going, Served, Texts;
    if messages == [] {
      left := seen;
      ServesNone(s, seen, sent, rest);
    } else {
      left := ServesMessage(s, seen, sent, messages, rest);
    }
  }

  /** One message: it completes the first request, or not; `next` is what the parser has seen after it. */
  lemma MessageStep(s: Session, seen: string, sent: seq<Sent>, m: Chunk, more: string, rest: string)
    returns (whole: bool, next: string)
    requires Stands(s.parser, seen)
    requires forall i | 0 <= i < |sent| :: sent[i].Good()
    requires seen + (m.bytes + more) + rest == Texts(sent)
    ensures CanParse(s.parser.state)
    ensures var t := Serve(s, m);
            && t.parser.ok && Stands(t.parser, next)
            && if whole then
                 && sent != [] && |t.handled| == |s.handled| + 1
                 && t.handled == s.handled + [t.handled[|s.handled|]]
                 && Clear(t.handled[|s.handled|]) == sent[0].Read() && next + more + rest == Texts(sent[1..])
               else
                 t.handled == s.handled && next + more + rest == Texts(sent)
  {
    hide Serve, Stands, Parse, Going;
    var w := seen + m.bytes;
    whole := sent != [] && |w| >= |sent[0].Text()|;
    if whole {
      StreamOver(seen, m.bytes, more, rest, sent[0].Text(), Texts(sent[1..]));
      next := w[|sent[0].Text()|..];
      ServeWhole(s, seen, m, sent[0], next);
    } else {
      next := w;
      assert seen + (m.bytes + more) + rest == w + more + rest == w + (more + rest);
      NotWhole(sent, w, more + rest);
      ServeGoing(s, seen, m);
    }
    StandsOk(Serve(s, m), next);
  }

  lemma ServesNone(s: Session, seen: string, sent: seq<Sent>, rest: string)
    requires Ready(s) && Stands(s.parser, seen) && seen + Concat([]) + rest == Texts(sent)
    ensures Served(s, ServeAll(s, []), sent, 0, seen, rest)
  {
    hide Ready, Stands, Texts, Served;
    assert seen + "" + rest == seen + rest;
    ServedNothing(s, sent, 0, seen, rest);
  }

  lemma {:induction false} ServesMessage(s: Session, seen: string, sent: seq<Sent>, messages: seq<Chunk>, rest: string)
    returns (left: string)
    requires Ready(s) && Stands(s.parser, seen) && messages != []
    requires forall i | 0 <= i < |sent| :: sent[i].Good()
    requires seen + (messages[0].bytes + Concat(messages[1..])) + rest == Texts(sent)
    ensures Served(s, ServeAll(s, messages), sent, |messages|, left, rest)
    decreases |messages|, 0
  {
    hide Serve, Ready, Stands, Parse, Going, Served, ServeAll, Texts, Concat, Clear;
    var later := messages[1..];
    var whole, next := MessageStep(s, seen, sent, messages[0], Concat(later), rest);
    var s1 := Serve(s, messages[0]);
    ServeAllHead(s, messages);
    if whole {
      left := ServesInOrder(s1, next, sent[1..], later, rest);
      ServedOneMore(s, s1, ServeAll(s1, later), sent, |later|, left, rest);
    } else {
      left := ServesInOrder(s1, next, sent, later, rest);
      ServedLater(s, s1, ServeAll(s1, later), sent, |later|, left, rest);
    }
  }

  lemma StandsOk(s: Session, seen: string)
    requires Stands(s.parser, seen)
    ensures s.parser.ok
  {
  }

  lemma NotWhole(sent: seq<Sent>, w: string, more: string)
    requires forall i | 0 <= i < |sent| :: sent[i].Good()
    requires w + more == Texts(sent) && (sent == [] || |w| < |sent[0].Text()|)
    ensures Going(Parse(ExpectRequestLine, EMPTY, w, 0))
  {
    hide Parse;
    if sent == [] {
      NothingSeen();
    } else {
      var text := sent[0].Text();
      assert w + text[|w|..] == text by {
        assert Texts(sent)[..|w|] == w && Texts(sent)[..|w|] == text[..|w|];
      }
      PartOfRequest(sent[0], w, text[|w|..]);
    }
  }

  /** From the start of a connection. */
  lemma PipelinedRequests(sent: seq<Sent>, messages: seq<Chunk>, rest: string) returns (left: string)
    requires forall i | 0 <= i < |sent| :: sent[i].Good()
    requires Concat(messages) + rest == Texts(sent)
    ensures var t := ServeAll(Session(START, []), messages);
            && t.parser.ok && |t.handled| <= |messages| && |t.handled| <= |sent|
            && ClearAll(t.handled) == Reads(sent)[..|t.handled|]
            && Stands(t.parser, left) && left + rest == Texts(sent[|t.handled|..])
  {
    var s := Session(START, []);
    StartOk();
    hide Ready, Stands, Parse, ServeAll, Texts, Going, Concat, Served;
    assert "" + Concat(messages) + rest == Texts(sent);
    left := ServesInOrder(s, "", sent, messages, rest);
    ServedFromStart(ServeAll(s, messages), sent, |messages|, left, rest);
  }

  lemma StartOk()
    ensures Ready(Session(START, [])) && Stands(START, "")
  {
    hide Parse;
  }

  lemma ServedFromStart(t: Session, sent: seq<Sent>, limit: nat, left: string, rest: string)
    requires Served(Session(START, []), t, sent, limit, left, rest)
    ensures t.parser.ok && |t.handled| <= limit && |t.handled| <= |sent|
    ensures ClearAll(t.handled) == Reads(sent)[..|t.handled|]
    ensures Stands(t.parser, left) && left + rest == Texts(sent[|t.handled|..])
  {
    hide Stands, Texts;
    assert ClearAll([]) + Reads(sent) == Reads(sent);
  }
}
