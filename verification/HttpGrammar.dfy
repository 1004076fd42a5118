/**
  What exactly the parser of src/net/http/HttpContext.cc and src/net/http/HttpRequest.h takes for a
  request line and for a header line, and the first line that src/net/http/HttpResponse.cc prints.
 */
module HttpGrammar {
  import opened Common
  import opened Decimal
  import opened Buffer
  import opened HttpRequest
  import opened HttpContext
  import opened HttpResponse
  import opened HttpServer

  // ---------------------------------------------------------------------------------------
  // The request line.

  /** The word for a method in a request line. */
  function Name(m: Method): string
  {
    match m
    case Get => "GET"
    case Post => "POST"
    case Head => "HEAD"
    case Put => "PUT"
    case Delete => "DELETE"
    case Invalid => ""
  }

  /** Method, target and version, with one space between them. */
  predicate IsRequestLine(line: string, verb: Method, version: Version, path: string, query: string)
  {
    && verb != Invalid && version != Unknown && GoodTarget(path, query)
    && line == Name(verb) + " " + (path + query) + " " + (if version == Http11 then "HTTP/1.1" else "HTTP/1.0")
  }

  lemma MethodByName(m: string)
    ensures MethodOf(m) != Invalid ==> m == Name(MethodOf(m))
  {
  }

  lemma NameOfMethod(m: Method)
    ensures MethodOf(Name(m)) == m && ' ' !in Name(m)
  {
  }

  lemma CutAt(s: string, c: char)
    requires Find(s, c).Some?
    ensures var k := Find(s, c).value; s == s[..k] + [c] + s[k + 1..]
  {
  }

  lemma TargetKept(r: Request, target: string)
    requires r.query == ""
    ensures var p := SetTarget(r, target); p.path + p.query == target && p == r.(path := p.path, query := p.query)
  {
  }

  lemma VersionKept(r: Request, version: string)
    requires SetVersion(r, version).1
    ensures var p := SetVersion(r, version).0;
            && p.version != Unknown && p == r.(version := p.version)
            && version == if p.version == Http11 then "HTTP/1.1" else "HTTP/1.0"
  {
    assert version == version[..7] + [version[7]];
  }

  lemma AcceptedRest(r: Request, rest: string)
    requires r.query == "" && AfterMethod(r, rest).1
    ensures var p := AfterMethod(r, rest).0;
            && p.version != Unknown && p == r.(version := p.version, path := p.path, query := p.query)
            && rest == p.path + p.query + " " + if p.version == Http11 then "HTTP/1.1" else "HTTP/1.0"
  {
    var target, version := rest[..Find(rest, ' ').value], rest[Find(rest, ' ').value + 1..];
    CutAt(rest, ' ');
    TargetKept(r, target);
    VersionKept(SetTarget(r, target), version);
    hide Find, SetTarget, SetVersion;
  }

  /** What the parser accepts is a request line, of the request it makes. */
  lemma AcceptedLine(r: Request, line: string)
    requires r.query == "" && ProcessRequestLineSpec(r, line).1
    ensures var p := ProcessRequestLineSpec(r, line).0;
            && IsRequestLine(line, p.verb, p.version, p.path, p.query)
            && p == r.(verb := p.verb, version := p.version, path := p.path, query := p.query)
  {
    hide Find, AfterMethod, MethodOf, Name, GoodTarget;
    ParsedTargetIsGood(r, line);
    var word, rest := line[..Find(line, ' ').value], line[Find(line, ' ').value + 1..];
    CutAt(line, ' ');
    MethodByName(word);
    AcceptedRest(r.(verb := MethodOf(word)), rest);
    var p := ProcessRequestLineSpec(r, line).0;
    Regroup(word, " ", p.path + p.query, " ", if p.version == Http11 then "HTTP/1.1" else "HTTP/1.0");
  }

  /** And every request line is accepted, as the request it says. */
  lemma LineAccepted(r: Request, line: string, verb: Method, version: Version, path: string, query: string)
    requires r.query == "" && IsRequestLine(line, verb, version, path, query)
    ensures ProcessRequestLineSpec(r, line) == (r.(verb := verb, version := version, path := path, query := query), true)
  {
    var last := if version == Http11 then "HTTP/1.1" else "HTTP/1.0";
    assert last == VersionText(version);
    NameOfMethod(verb);
    hide Find, MethodOf, Name, GoodTarget, VersionText, AfterMethod;
    assert line == Name(verb) + [' '] + (path + query + [' '] + last);
    SplitAt(Name(verb), ' ', path + query + [' '] + last);
    RestReadBack(r.(verb := verb), version, path, query);
  }

  /** So the parser accepts exactly the request lines. */
  lemma RequestLineExactly(r: Request, line: string)
    requires r.query == ""
    ensures ProcessRequestLineSpec(r, line).1
        <==> exists verb, version, path, query :: IsRequestLine(line, verb, version, path, query)
  {
    hide ProcessRequestLineSpec, IsRequestLine;
    if ProcessRequestLineSpec(r, line).1 {
      AcceptedLine(r, line);
    }
    if verb, version, path, query :| IsRequestLine(line, verb, version, path, query) {
      LineAccepted(r, line, verb, version, path, query);
    }
  }

  /**
    With a first line in the buffer, a connection's parser goes on to the headers if it is a request
    line, and otherwise fails without consuming it.
   */
  lemma FirstLineDecides(line: string, after: string, time: int)
    requires !HasCRLF(line)
    ensures var p := Parse(ExpectRequestLine, EMPTY, line + CRLF + after, time);
            var (r, ok) := ProcessRequestLineSpec(EMPTY, line);
            if ok then p == Parse(ExpectHeaders, r.(receiveTime := time), after, time)
            else !p.ok && p.state == ExpectRequestLine && p.unread == line + CRLF + after
  {
    LineEnds(line, after);
    hide ProcessRequestLineSpec, CRLFPosition, HasCRLF;
  }

  // ---------------------------------------------------------------------------------------
  // Header lines.

  predicate AllSpace(s: string)
  {
    forall i :: 0 <= i < |s| ==> IsSpace(s[i])
  }

  lemma {:induction false} TrimLeftSplits(s: string)
    ensures |TrimLeft(s)| <= |s| && s[|s| - |TrimLeft(s)|..] == TrimLeft(s)
    ensures AllSpace(s[..|s| - |TrimLeft(s)|])
    ensures TrimLeft(s) != "" ==> !IsSpace(TrimLeft(s)[0])
    decreases |s|
  {
    if s != "" && IsSpace(s[0]) {
      TrimLeftSplits(s[1..]);
      var n := |s| - |TrimLeft(s)|;
      assert s[..n] == [s[0]] + s[1..][..n - 1];
    }
  }

  lemma {:induction false} TrimRightSplits(s: string)
    ensures |TrimRight(s)| <= |s| && s[..|TrimRight(s)|] == TrimRight(s)
    ensures AllSpace(s[|TrimRight(s)|..])
    ensures TrimRight(s) != "" ==> !IsSpace(TrimRight(s)[|TrimRight(s)| - 1])
    decreases |s|
  {
    if s != "" && IsSpace(s[|s| - 1]) {
      TrimRightSplits(s[..|s| - 1]);
      var n := |TrimRight(s)|;
      assert s[n..] == s[..|s| - 1][n..] + [s[|s| - 1]];
    }
  }

  /**
    The stored value is what lies between white space: no white space at its ends, and nothing but
    white space around it.
   */
  lemma ValueIsTrimmed(s: string) returns (before: string, after: string)
    ensures var value := TrimRight(TrimLeft(s));
            s == before + value + after && AllSpace(before) && AllSpace(after) && Trimmed(value)
  {
    hide TrimLeft, TrimRight, AllSpace, IsSpace;
    var left := TrimLeft(s);
    var value := TrimRight(left);
    TrimLeftSplits(s);
    TrimRightSplits(left);
    before, after := s[..|s| - |left|], left[|value|..];
    Recut(s, left, value);
    assert value != "" ==> value[0] == left[0];
  }

  lemma Recut(s: string, left: string, value: string)
    requires |value| <= |left| <= |s| && s[|s| - |left|..] == left && left[..|value|] == value
    ensures s == s[..|s| - |left|] + value + left[|value|..]
  {
    assert s == s[..|s| - |left|] + left && left == value + left[|value|..];
  }

  /** And there is only one such value. */
  lemma {:induction false} TrimOfParts(before: string, value: string, after: string)
    requires AllSpace(before) && AllSpace(after) && Trimmed(value)
    ensures TrimRight(TrimLeft(before + value + after)) == value
    decreases |before| + |after|
  {
    var s := before + value + after;
    if before != "" {
      assert s[0] == before[0] && s[1..] == before[1..] + value + after;
      TrimOfParts(before[1..], value, after);
    } else if value == "" {
      assert s == after;
      AllSpaceVanishes(after);
    } else if after != "" {
      assert TrimLeft(s) == s && s[|s| - 1] == after[|after| - 1];
      assert s[..|s| - 1] == before + value + after[..|after| - 1];
      assert TrimLeft(s[..|s| - 1]) == s[..|s| - 1];
      TrimOfParts(before, value, after[..|after| - 1]);
    } else {
      assert s == value;
    }
  }

  lemma {:induction false} AllSpaceVanishes(s: string)
    requires AllSpace(s)
    ensures TrimLeft(s) == ""
    decreases |s|
  {
    if s != "" {
      AllSpaceVanishes(s[1..]);
    }
  }

  /** A line with a colon adds the field it says, whatever white space is around the value. */
  lemma FieldLine(r: Request, name: string, before: string, value: string, behind: string, after: string, time: int)
    requires ':' !in name && AllSpace(before) && AllSpace(behind) && Trimmed(value)
    requires !HasCRLF(name + ":" + (before + value + behind))
    ensures Parse(ExpectHeaders, r, name + ":" + (before + value + behind) + CRLF + after, time)
         == Parse(ExpectHeaders, r.(headers := r.headers[name := value]), after, time)
  {
    var line := name + ":" + (before + value + behind);
    LineEnds(line, after);
    SplitAt(name, ':', before + value + behind);
    TrimOfParts(before, value, behind);
    assert WithHeader(r, line, |name|) == r.(headers := r.headers[name := value]);
    hide CRLFPosition, HasCRLF, Find, WithHeader, Trimmed, AllSpace;
  }

  /** A line without one ends the headers, whatever it says. */
  lemma EndLine(r: Request, line: string, after: string, time: int)
    requires ':' !in line && !HasCRLF(line)
    ensures Parse(ExpectHeaders, r, line + CRLF + after, time) == Parser(GotAll, r, after, true)
  {
    LineEnds(line, after);
    hide CRLFPosition, HasCRLF;
  }

  // ---------------------------------------------------------------------------------------
  // The status line.

  /** Version, code and message: a line cut at its first two spaces. */
  function ReadStatus(line: string): Option<(string, string, string)>
  {
    match Find(line, ' ')
    case None => None
    case Some(i) =>
      var rest := line[i + 1..];
      match Find(rest, ' ')
      case None => None
      case Some(j) => Some((line[..i], rest[..j], rest[j + 1..]))
  }

  lemma ReadStatusOf(version: string, code: string, message: string)
    requires ' ' !in version && ' ' !in code
    ensures ReadStatus(version + " " + (code + " " + message)) == Some((version, code, message))
  {
    SplitAt(version, ' ', code + " " + message);
    SplitAt(code, ' ', message);
    hide Find;
  }

  lemma ReadStatusLength(line: string)
    ensures var s := ReadStatus(line); s.Some? ==> |line| == |s.value.0| + 1 + |s.value.1| + 1 + |s.value.2|
  {
    hide Find;
  }

  lemma DigitsHaveNoSpace(n: nat)
    ensures ' ' !in NatText(n)
  {
    NatTextCanonical(n);
    hide NatText;
    assert forall i :: 0 <= i < |NatText(n)| ==> IsDigit(NatText(n)[i]);
  }

  /**
    The first line of a response, without its end, says version, code and message if and only if the
    code has at most 21 digits; a longer one is cut by `snprintf`. An `int` never is.
   */
  lemma StatusLineReadBack(code: nat, message: string)
    ensures var text := StatusLine(code, message);
            && |text| >= 2 && text[|text| - 2..] == CRLF
            && (ReadStatus(text[..|text| - 2]) == Some(("HTTP/1.1", NatText(code), message)) <==> code < Power10(21))
  {
    var text, digits := StatusLine(code, message), NatText(code);
    DigitsHaveNoSpace(code);
    TextLength(code, 21);
    hide NatText, Power10, ReadStatus;
    var line := text[..|text| - 2];
    assert line == Snprintf32("HTTP/1.1 " + digits + " ") + message;
    hide StatusLine;
    StatusLineByDigits(digits, message);
  }

  lemma StatusLineByDigits(digits: string, message: string)
    requires ' ' !in digits
    ensures ReadStatus(Snprintf32("HTTP/1.1 " + digits + " ") + message) == Some(("HTTP/1.1", digits, message))
        <==> |digits| <= 21
  {
    hide ReadStatus;
    var start := "HTTP/1.1 " + digits + " ";
    assert |start| == 10 + |digits|;
    if |digits| <= 21 {
      assert start + message == "HTTP/1.1" + " " + (digits + " " + message);
      ReadStatusOf("HTTP/1.1", digits, message);
    } else {
      ReadStatusLength(Snprintf32(start) + message);
      assert |"HTTP/1.1"| == 8;
    }
  }

  lemma FourHundred()
    ensures NatText(400) == "400"
  {
    assert NatText(4) == "4" && NatText(40) == "40";
  }

  /** The answer to a malformed request is such a line and an empty one. */
  lemma BadRequestText()
    ensures BAD_REQUEST == StatusLine(400, "Bad Request") + CRLF
  {
    FourHundred();
    hide NatText;
    assert "HTTP/1.1 " + "400" + " " == "HTTP/1.1 400 ";
  }

  // ---------------------------------------------------------------------------------------
  // The preset of the connection.

  /** The value of the last field of a name. */
  function LastValue(fields: seq<Field>, name: string): Option<string>
    decreases |fields|
  {
    if fields == [] then None
    else if fields[|fields| - 1].name == name then Some(fields[|fields| - 1].value)
    else LastValue(fields[..|fields| - 1], name)
  }

  lemma {:induction false} AddAllSnoc(h: map<string, string>, fields: seq<Field>, f: Field)
    ensures AddAll(h, fields + [f]) == AddAll(h, fields)[f.name := f.value]
    decreases |fields|
  {
    if fields == [] {
      assert [f][1..] == [] && fields + [f] == [f];
    } else {
      assert (fields + [f])[1..] == fields[1..] + [f];
      AddAllSnoc(h[fields[0].name := fields[0].value], fields[1..], f);
    }
  }

  lemma {:induction false} AddAllLast(fields: seq<Field>, name: string)
    ensures var h := AddAll(map[], fields);
            if name in h then LastValue(fields, name) == Some(h[name]) else LastValue(fields, name) == None
    decreases |fields|
  {
    if fields != [] {
      var last := |fields| - 1;
      assert fields == fields[..last] + [fields[last]];
      AddAllSnoc(map[], fields[..last], fields[last]);
      AddAllLast(fields[..last], name);
      hide AddAll;
    }
  }

  /**
    For a request as it was sent: a connection is kept after HTTP/1.1 unless its last `Connection`
    field is "close", and closed after HTTP/1.0 unless that is "Keep-Alive".
   */
  lemma ClosingRule(verb: Method, version: Version, path: string, query: string, fields: seq<Field>,
                    rest: string, time: int)
    requires Printable(verb, version, path, query, fields)
    ensures var p := Parse(ExpectRequestLine, EMPTY, RequestText(verb, version, path, query, fields, rest), time);
            && p.state == GotAll
            && (version == Http11 ==> (WantsClose(p.request) <==> LastValue(fields, "Connection") == Some("close")))
            && (version == Http10 ==> (!WantsClose(p.request) <==> LastValue(fields, "Connection") == Some("Keep-Alive")))
  {
    RequestReadBack(verb, version, path, query, fields, rest, time);
    AddAllLast(fields, "Connection");
    hide Parse, RequestText, AddAll, LastValue, Printable;
    assert "close" != "Keep-Alive";
  }
}
