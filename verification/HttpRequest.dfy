/**
  An HTTP request as it is being parsed: src/net/http/HttpRequest.h.

  `Request` is the value of the object; the class holds it in fields; `method_` is called
  `verb` here. The enumerators `kHead` and
  `kUnknown`, which the source uses but does not declare, are taken to exist.
 */
module HttpRequest {

  datatype Method = Invalid | Get | Post | Head | Put | Delete

  datatype Version = Unknown | Http10 | Http11

  datatype Request = Request(verb: Method, version: Version, path: string, query: string,
                             receiveTime: int, headers: map<string, string>)

  const EMPTY := Request(Invalid, Unknown, "", "", 0, map[])

  function MethodOf(m: string): Method
  {
    if m == "GET" then Get
    else if m == "POST" then Post
    else if m == "HEAD" then Head
    else if m == "PUT" then Put
    else if m == "DELETE" then Delete
    else Invalid
  }

  /** `methodString`; it has no case for DELETE. */
  function MethodString(m: Method): string
  {
    match m
    case Get => "GET"
    case Post => "POST"
    case Head => "HEAD"
    case Put => "PUT"
    case _ => "UNKNOWN"
  }

  /** Exactly the methods with a name of their own are read back from it. */
  lemma MethodRoundTrip(m: Method)
    ensures MethodOf(MethodString(m)) == m <==> m != Delete
    ensures MethodString(m) == "UNKNOWN" <==> m == Delete || m == Invalid
  {
  }

  /** `isspace` in the C locale. */
  predicate IsSpace(c: char)
  {
    c == ' ' || '\t' <= c <= '\r'
  }

  /** Space, tab, line feed, vertical tab, form feed and carriage return. */
  lemma Spaces(c: char)
    ensures IsSpace(c) <==> c as int in {32, 9, 10, 11, 12, 13}
  {
  }

  function TrimLeft(s: string): string
  {
    if s != "" && IsSpace(s[0]) then TrimLeft(s[1..]) else s
  }

  function TrimRight(s: string): string
  {
    if s != "" && IsSpace(s[|s| - 1]) then TrimRight(s[..|s| - 1]) else s
  }

  /** No white space at either end. */
  predicate Trimmed(s: string)
  {
    s != "" ==> !IsSpace(s[0]) && !IsSpace(s[|s| - 1])
  }

  /** `addHeader` for a line and the position of its first colon. */
  function WithHeader(r: Request, line: string, colon: nat): Request
    requires colon < |line|
  {
    r.(headers := r.headers[line[..colon] := TrimRight(TrimLeft(line[colon + 1..]))])
  }

  class HttpRequest {
    var verb: Method
    var version: Version
    var path: string
    var query: string
    var receiveTime: int
    var headers: map<string, string>

    function Value(): Request
      reads this
    {
      Request(verb, version, path, query, receiveTime, headers)
    }

    constructor ()
      ensures Value() == EMPTY
    {
      verb, version, path, query, receiveTime, headers := Invalid, Unknown, "", "", 0, map[];
    }

    method SetMethod(m: string) returns (ok: bool)
      requires verb == Invalid
      modifies this`verb
      ensures Value() == old(Value()).(verb := MethodOf(m)) && ok == (MethodOf(m) != Invalid)
    {
      verb := MethodOf(m);
      ok := verb != Invalid;
    }

    /** Strips white space from both ends of the value and stores it under the name. */
    method AddHeader(line: string, colon: nat)
      requires colon < |line|
      modifies this`headers
      ensures Value() == WithHeader(old(Value()), line, colon)
    {
      var field := line[..colon];
      var start := colon + 1;
      while start < |line| && IsSpace(line[start])
        invariant colon < start <= |line| && TrimLeft(line[colon + 1..]) == TrimLeft(line[start..])
      {
        assert line[start..][1..] == line[start + 1..];
        start := start + 1;
      }
      var value := line[start..];
      while value != "" && IsSpace(value[|value| - 1])
        invariant TrimRight(line[start..]) == TrimRight(value)
        decreases |value|
      {
        value := value[..|value| - 1];
      }
      headers := headers[field := value];
    }

    method GetHeader(field: string) returns (result: string)
      ensures result == if field in headers then headers[field] else ""
    {
      result := "";
      if field in headers {
        result := headers[field];
      }
    }

    method Swap(that: HttpRequest)
      modifies this, that
      ensures Value() == old(that.Value()) && that.Value() == old(Value())
    {
      verb, that.verb := that.verb, verb;
      version, that.version := that.version, version;
      path, that.path := that.path, path;
      query, that.query := that.query, query;
      receiveTime, that.receiveTime := that.receiveTime, receiveTime;
      headers, that.headers := that.headers, headers;
    }
  }
}
