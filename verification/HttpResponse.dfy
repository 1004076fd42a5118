/**
  The response printer, src/net/http/HttpResponse.cc, and what the request parser reads back: the
  header fields of section 3.2 and the request line of section 3.1.1 of RFC 7230.
 */
module HttpResponse {
  import opened Common
  import opened Decimal
  import opened Buffer
  import opened HttpRequest
  import opened HttpContext

  datatype Field = Field(name: string, value: string)

  const CRLF := "\r\n"

  /** What `snprintf` leaves of a text in `char buf[32]`. */
  function Snprintf32(text: string): string
  {
    if |text| < 32 then text else text[..31]
  }

  function Line(f: Field): string { f.name + ": " + f.value + CRLF }

  function Lines(fields: seq<Field>): string
  {
    if fields == [] then "" else Line(fields[0]) + Lines(fields[1..])
  }

  /** The order of `std::map<string, string>`. */
  predicate Less(x: string, y: string)
  {
    y != "" && (x == "" || x[0] < y[0] || (x[0] == y[0] && Less(x[1..], y[1..])))
  }

  /** The entries of a map by ascending name. */
  ghost predicate Enumerates(fields: seq<Field>, m: map<string, string>)
  {
    && (forall i :: 0 <= i < |fields| ==> fields[i].name in m && fields[i].value == m[fields[i].name])
    && (forall name :: name in m ==> exists i :: 0 <= i < |fields| && fields[i].name == name)
    && (forall i, j :: 0 <= i < j < |fields| ==> Less(fields[i].name, fields[j].name))
  }

  function StatusLine(statusCode: nat, statusMessage: string): string
  {
    Snprintf32("HTTP/1.1 " + NatText(statusCode) + " ") + statusMessage + CRLF
  }

  function AutomaticText(close: bool, size: nat): string
  {
    if close then Line(Field("Connection", "close"))
    else Snprintf32(Line(Field("Content-Length", NatText(size)))) + Line(Field("Connection", "Keep-Alive"))
  }

  /** What `appendToBuffer` prints behind the status line. */
  function HeadersAndBody(close: bool, fields: seq<Field>, body: string): string
  {
    AutomaticText(close, |body|) + Lines(fields) + CRLF + body
  }

  class HttpResponse {
    var headers: map<string, string>
    var statusCode: nat
    var statusMessage: string
    var closeConnection: bool
    var body: string

    constructor (close: bool)
      ensures headers == map[] && statusCode == 0 && closeConnection == close
    {
      headers, statusCode, statusMessage, closeConnection, body := map[], 0, "", close, "";
    }

    method AppendToBuffer(output: Buffer)
      requires output.Valid()
      modifies output, output.buffer
      ensures output.Valid() && (output.buffer == old(output.buffer) || fresh(output.buffer))
      ensures exists fields :: Enumerates(fields, headers)
                && output.Contents() == old(output.Contents()) + StatusLine(statusCode, statusMessage)
                                        + HeadersAndBody(closeConnection, fields, body)
    {
      hide AfterAppend, StatusLine, AutomaticText, Lines, Enumerates;
      AppendStatusLine(output);
      AppendAutomatic(output);
      ghost var fields := AppendFields(output);
      output.Append(CRLF);
      output.Append(body);
      ghost var start := old(output.Contents()) + StatusLine(statusCode, statusMessage);
      Regroup(start, AutomaticText(closeConnection, |body|), Lines(fields), CRLF, body);
    }

    method AppendStatusLine(output: Buffer)
      requires output.Valid()
      modifies output, output.buffer
      ensures output.Valid() && (output.buffer == old(output.buffer) || fresh(output.buffer))
      ensures output.Contents() == old(output.Contents()) + StatusLine(statusCode, statusMessage)
    {
      output.Append(Snprintf32("HTTP/1.1 " + NatText(statusCode) + " "));
      output.Append(statusMessage);
      output.Append(CRLF);
      Regroup(old(output.Contents()), Snprintf32("HTTP/1.1 " + NatText(statusCode) + " "), statusMessage, CRLF, "");
    }

    method AppendAutomatic(output: Buffer)
      requires output.Valid()
      modifies output, output.buffer
      ensures output.Valid() && (output.buffer == old(output.buffer) || fresh(output.buffer))
      ensures output.Contents() == old(output.Contents()) + AutomaticText(closeConnection, |body|)
    {
      hide Line, NatText, Snprintf32;
      Literals(|body|);
      if closeConnection {
        output.Append("Connection: close\r\n");
      } else {
        var line := Snprintf32("Content-Length: " + NatText(|body|) + "\r\n");
        output.Append(line);
        output.Append("Connection: Keep-Alive\r\n");
        Regroup(old(output.Contents()), line, "Connection: Keep-Alive\r\n", "", "");
      }
    }

    /** The loop over `headers_`, by ascending name. */
    method AppendFields(output: Buffer) returns (ghost fields: seq<Field>)
      requires output.Valid()
      modifies output, output.buffer
      ensures output.Valid() && (output.buffer == old(output.buffer) || fresh(output.buffer))
      ensures Enumerates(fields, headers) && output.Contents() == old(output.Contents()) + Lines(fields)
    {
      fields := [];
      var rest := headers.Keys;
      while rest != {}
        invariant output.Valid() && (output.buffer == old(output.buffer) || fresh(output.buffer))
        invariant rest <= headers.Keys && EnumeratesSoFar(fields, headers, rest)
        invariant output.Contents() == old(output.Contents()) + Lines(fields)
        decreases |rest|
      {
        hide Lines, Enumerates;
        LeastExists(rest);
        var name :| name in rest && forall other :: other in rest && other != name ==> Less(name, other);
        AppendField(output, Field(name, headers[name]));
        LinesSnoc(fields, Field(name, headers[name]));
        Regroup(old(output.Contents()), Lines(fields), Line(Field(name, headers[name])), "", "");
        NextEntry(fields, headers, rest, name);
        fields, rest := fields + [Field(name, headers[name])], rest - {name};
      }
    }

    method AppendField(output: Buffer, f: Field)
      requires output.Valid()
      modifies output, output.buffer
      ensures output.Valid() && (output.buffer == old(output.buffer) || fresh(output.buffer))
      ensures output.Contents() == old(output.Contents()) + Line(f)
    {
      output.Append(f.name);
      output.Append(": ");
      output.Append(f.value);
      output.Append("\r\n");
      Regroup(old(output.Contents()), f.name, ": ", f.value, "\r\n");
    }
  }

  lemma Literals(size: nat)
    ensures "Connection: close\r\n" == Line(Field("Connection", "close"))
    ensures "Connection: Keep-Alive\r\n" == Line(Field("Connection", "Keep-Alive"))
    ensures "Content-Length: " + NatText(size) + "\r\n" == Line(Field("Content-Length", NatText(size)))
  {
    assert "Content-Length" + ": " == "Content-Length: ";
    assert "Connection" + ": " + "close" + CRLF == "Connection: close\r\n";
    assert "Connection" + ": " + "Keep-Alive" + CRLF == "Connection: Keep-Alive\r\n";
  }

  lemma Regroup(a: string, b: string, c: string, d: string, e: string)
    ensures a + b + c + d + e == a + (b + c + d + e)
    ensures a + b + c + d == a + (b + c + d)
    ensures a + b + c == a + (b + c)
  {
  }

  // ---------------------------------------------------------------------------------------
  // Entries in ascending order.

  lemma {:induction false} LessTotal(x: string, y: string)
    ensures x == y || Less(x, y) || Less(y, x)
  {
    if x != "" && y != "" && x[0] == y[0] {
      LessTotal(x[1..], y[1..]);
      assert x == [x[0]] + x[1..] && y == [y[0]] + y[1..];
    }
  }

  lemma {:induction false} LessTransitive(x: string, y: string, z: string)
    requires Less(x, y) && Less(y, z)
    ensures Less(x, z)
  {
    if x != "" && x[0] == y[0] == z[0] {
      LessTransitive(x[1..], y[1..], z[1..]);
    }
  }

  lemma {:induction false} LessIrreflexive(x: string)
    ensures !Less(x, x)
  {
    if x != "" {
      LessIrreflexive(x[1..]);
    }
  }

  lemma {:induction false} LeastExists(names: set<string>)
    requires names != {}
    ensures exists name :: name in names && forall other :: other in names && other != name ==> Less(name, other)
  {
    hide Less;
    var x :| x in names;
    var rest := names - {x};
    if rest == {} {
      assert forall other :: other in names && other != x ==> other in rest;
    } else {
      LeastExists(rest);
      var y :| y in rest && forall other :: other in rest && other != y ==> Less(y, other);
      LessTotal(x, y);
      var least := if Less(x, y) then x else y;
      forall other | other in names && other != least ensures Less(least, other) {
        if Less(x, y) && other != y {
          LessTransitive(x, y, other);
        }
      }
    }
  }

  /** The entries of `m` outside `rest`, by ascending name, all before those of `rest`. */
  ghost predicate EnumeratesSoFar(fields: seq<Field>, m: map<string, string>, rest: set<string>)
  {
    && (forall i :: 0 <= i < |fields| ==> fields[i].name in m && fields[i].value == m[fields[i].name])
    && (forall name :: name in m && name !in rest ==> exists i :: 0 <= i < |fields| && fields[i].name == name)
    && (forall i, j :: 0 <= i < j < |fields| ==> Less(fields[i].name, fields[j].name))
    && (forall i, name :: 0 <= i < |fields| && name in rest ==> Less(fields[i].name, name))
  }

  lemma NextEntry(fields: seq<Field>, m: map<string, string>, rest: set<string>, name: string)
    requires EnumeratesSoFar(fields, m, rest) && name in rest && name in m
    requires forall other :: other in rest && other != name ==> Less(name, other)
    ensures EnumeratesSoFar(fields + [Field(name, m[name])], m, rest - {name})
    ensures rest == {name} ==> Enumerates(fields + [Field(name, m[name])], m)
  {
    hide Less, Enumerates;
    NextEntryNames(fields, m, rest, name);
    NextEntryOrder(fields, m, rest, name);
    if rest == {name} {
      assert rest - {name} == {};
      AllEntries(fields + [Field(name, m[name])], m);
    }
  }

  lemma AllEntries(fields: seq<Field>, m: map<string, string>)
    requires EnumeratesSoFar(fields, m, {})
    ensures Enumerates(fields, m)
  {
    hide Less;
  }

  lemma NextEntryOrder(fields: seq<Field>, m: map<string, string>, rest: set<string>, name: string)
    requires EnumeratesSoFar(fields, m, rest) && name in rest && name in m
    requires forall other :: other in rest && other != name ==> Less(name, other)
    ensures var all := fields + [Field(name, m[name])];
            && (forall i :: 0 <= i < |all| ==> all[i].name in m && all[i].value == m[all[i].name])
            && (forall i, j :: 0 <= i < j < |all| ==> Less(all[i].name, all[j].name))
            && (forall i, n :: 0 <= i < |all| && n in rest - {name} ==> Less(all[i].name, n))
  {
    hide Less;
  }

  /** No name of `m` is left out. */
  lemma NextEntryNames(fields: seq<Field>, m: map<string, string>, rest: set<string>, name: string)
    requires name in rest && name in m
    requires forall n :: n in m && n !in rest ==> exists i :: 0 <= i < |fields| && fields[i].name == n
    ensures forall n :: n in m && n !in rest - {name} ==>
              exists i :: 0 <= i < |fields| + 1 && (fields + [Field(name, m[name])])[i].name == n
  {
    var all := fields + [Field(name, m[name])];
    assert all[|fields|].name == name;
    forall n | n in m && n !in rest - {name}
      ensures exists i :: 0 <= i < |all| && all[i].name == n
    {
      if n != name {
        var i :| 0 <= i < |fields| && fields[i].name == n;
        assert all[i].name == n;
      }
    }
  }

  lemma {:induction false} LinesSnoc(fields: seq<Field>, f: Field)
    ensures Lines(fields + [f]) == Lines(fields) + Line(f)
  {
    if fields == [] {
      assert [f][1..] == [];
      assert Line(f) + "" == Line(f) == "" + Line(f);
    } else {
      assert (fields + [f])[1..] == fields[1..] + [f];
      LinesSnoc(fields[1..], f);
      assert Line(fields[0]) + (Lines(fields[1..]) + Line(f)) == Line(fields[0]) + Lines(fields[1..]) + Line(f);
    }
  }

  // ---------------------------------------------------------------------------------------
  // What the parser reads back.

  predicate HasCRLF(s: string) { CRLFPosition(s).Some? }

  predicate CleanName(name: string) { ':' !in name && !HasCRLF(name) }

  predicate CleanValue(value: string) { Trimmed(value) && !HasCRLF(value) }

  predicate CleanField(f: Field) { CleanName(f.name) && CleanValue(f.value) }

  /** Assignments to a map in the order of the fields. */
  function AddAll(h: map<string, string>, fields: seq<Field>): map<string, string>
    decreases |fields|
  {
    if fields == [] then h else AddAll(h[fields[0].name := fields[0].value], fields[1..])
  }

  /** A text without CR LF is what stands before the first one. */
  lemma LineEnds(s: string, rest: string)
    requires !HasCRLF(s)
    ensures CRLFPosition(s + CRLF + rest) == Some(|s|)
    ensures (s + CRLF + rest)[..|s|] == s && (s + CRLF + rest)[|s| + 2..] == rest
  {
    var text := s + CRLF + rest;
    assert CRLFAt(text, |s|);
    assert forall i :: 0 <= i < |s| - 1 ==> CRLFAt(text, i) == CRLFAt(s, i);
  }

  lemma FieldHasNoCRLF(f: Field)
    requires CleanField(f)
    ensures !HasCRLF(f.name + ": " + f.value)
  {
    var s := f.name + ": " + f.value;
    forall i ensures !CRLFAt(s, i) {
      if i + 1 < |f.name| {
        assert CRLFAt(s, i) == CRLFAt(f.name, i);
      } else if i > |f.name| + 1 {
        assert CRLFAt(s, i) == CRLFAt(f.value, i - |f.name| - 2);
      }
    }
  }

  lemma TrimOne(value: string)
    requires Trimmed(value)
    ensures TrimRight(TrimLeft(" " + value)) == value
  {
    assert (" " + value)[1..] == value;
  }

  /** `addHeader` takes a printed line apart again. */
  lemma FieldReadBack(r: Request, f: Field)
    requires CleanField(f)
    ensures var line := f.name + ": " + f.value;
            Find(line, ':') == Some(|f.name|)
            && WithHeader(r, line, |f.name|) == r.(headers := r.headers[f.name := f.value])
  {
    var line := f.name + ": " + f.value;
    assert line[..|f.name|] == f.name;
    FirstOccurrence(line, ':', |f.name|);
    assert line[|f.name| + 1..] == " " + f.value;
    TrimOne(f.value);
  }

  lemma ParseField(r: Request, f: Field, rest: string, time: int)
    requires CleanField(f)
    ensures Parse(ExpectHeaders, r, Line(f) + rest, time)
         == Parse(ExpectHeaders, r.(headers := r.headers[f.name := f.value]), rest, time)
  {
    var line := f.name + ": " + f.value;
    FieldHasNoCRLF(f);
    LineEnds(line, rest);
    FieldReadBack(r, f);
    assert Line(f) + rest == line + CRLF + rest;
    hide CleanField, HasCRLF, WithHeader;
  }

  lemma {:induction false} ParseFields(r: Request, fields: seq<Field>, rest: string, time: int)
    requires forall i :: 0 <= i < |fields| ==> CleanField(fields[i])
    ensures Parse(ExpectHeaders, r, Lines(fields) + rest, time)
         == Parse(ExpectHeaders, r.(headers := AddAll(r.headers, fields)), rest, time)
    decreases |fields|
  {
    hide Parse, CleanField, Line;
    if fields == [] {
      assert "" + rest == rest;
    } else {
      assert Lines(fields) + rest == Line(fields[0]) + (Lines(fields[1..]) + rest);
      ParseField(r, fields[0], Lines(fields[1..]) + rest, time);
      ParseFields(r.(headers := r.headers[fields[0].name := fields[0].value]), fields[1..], rest, time);
    }
  }

  /** The empty line ends the headers and leaves the body. */
  lemma ParseEnd(r: Request, body: string, time: int)
    ensures Parse(ExpectHeaders, r, CRLF + body, time) == Parser(GotAll, r, body, true)
  {
    assert !HasCRLF("");
    LineEnds("", body);
    assert "" + CRLF + body == CRLF + body;
  }

  predicate Names(fields: seq<Field>, name: string) { exists i :: 0 <= i < |fields| && fields[i].name == name }

  lemma NamesTail(fields: seq<Field>, name: string)
    requires fields != []
    ensures Names(fields, name) <==> Names(fields[1..], name) || name == fields[0].name
  {
    if Names(fields[1..], name) {
      var i :| 0 <= i < |fields[1..]| && fields[1..][i].name == name;
      assert fields[i + 1].name == name;
    }
    if Names(fields, name) && name != fields[0].name {
      var i :| 0 <= i < |fields| && fields[i].name == name;
      assert fields[1..][i - 1].name == name;
    }
  }

  lemma {:induction false} AddAllAt(h: map<string, string>, fields: seq<Field>)
    requires forall i, j :: 0 <= i < j < |fields| ==> fields[i].name != fields[j].name
    ensures var a := AddAll(h, fields);
            && (forall f :: f in fields ==> f.name in a && a[f.name] == f.value)
            && (forall name :: !Names(fields, name) ==> (name in a <==> name in h))
            && (forall name :: !Names(fields, name) && name in h ==> a[name] == h[name])
    decreases |fields|
  {
    if fields == [] {
      NoNames();
    } else {
      var rest := fields[1..];
      AddAllAt(h[fields[0].name := fields[0].value], rest);
      assert !Names(rest, fields[0].name);
      assert fields == [fields[0]] + rest;
      hide Names;
      forall name ensures Names(fields, name) <==> Names(rest, name) || name == fields[0].name {
        NamesTail(fields, name);
      }
    }
  }

  lemma NoNames()
    ensures forall name :: !Names([], name)
  {
  }

  lemma DistinctNames(fields: seq<Field>, m: map<string, string>)
    requires Enumerates(fields, m)
    ensures forall i, j :: 0 <= i < j < |fields| ==> fields[i].name != fields[j].name
  {
    forall i, j | 0 <= i < j < |fields| ensures fields[i].name != fields[j].name {
      LessIrreflexive(fields[i].name);
    }
  }

  lemma AddEntries(h: map<string, string>, fields: seq<Field>, m: map<string, string>)
    requires Enumerates(fields, m)
    ensures AddAll(h, fields) == h + m
  {
    DistinctNames(fields, m);
    AddAllAt(h, fields);
    hide AddAll, Less;
    var a := AddAll(h, fields);
    forall name
      ensures (name in a <==> name in h + m) && (name in a ==> a[name] == (h + m)[name])
    {
      NamesOfMap(fields, m, name);
    }
  }

  lemma NamesOfMap(fields: seq<Field>, m: map<string, string>, name: string)
    requires Enumerates(fields, m)
    ensures Names(fields, name) <==> name in m
    ensures name in m ==> Field(name, m[name]) in fields
  {
    hide Less;
    if Names(fields, name) {
      var i :| 0 <= i < |fields| && fields[i].name == name;
    }
    if name in m {
      var i :| 0 <= i < |fields| && fields[i].name == name;
      assert fields[i] == Field(name, m[name]);
    }
  }

  /** The headers the printer adds by itself, if `Content-Length` is printed whole. */
  function AutomaticHeaders(close: bool, size: nat): map<string, string>
  {
    if close then map["Connection" := "close"]
    else map["Content-Length" := NatText(size), "Connection" := "Keep-Alive"]
  }

  /**
    As the parser sees them: from ten trillion bytes on, the length no longer fits the 32 bytes it
    is formatted in, its line end is cut off, and the next line becomes part of the value.
   */
  function AutomaticFields(close: bool, size: nat): seq<Field>
  {
    var digits := NatText(size);
    if close then [Field("Connection", "close")]
    else if |digits| <= 13 then [Field("Content-Length", digits), Field("Connection", "Keep-Alive")]
    else [Field("Content-Length", CutLength(digits))]
  }

  function CutLength(digits: string): string
    requires |digits| > 13
  {
    (digits + CRLF)[..15] + "Connection: Keep-Alive"
  }

  lemma {:induction false} TextLength(n: nat, k: nat)
    requires k > 0
    ensures |NatText(n)| <= k <==> n < Power10(k)
  {
    if n >= 10 && k > 1 {
      TextLength(n / 10, k - 1);
      assert n < Power10(k) <==> n / 10 < Power10(k - 1);
    } else {
      assert k == 1 ==> Power10(k) == 10;
      TextNotEmpty(n);
      PowerPositive(k);
    }
  }

  lemma TextNotEmpty(n: nat)
    ensures |NatText(n)| >= 1 && (n < 10 ==> |NatText(n)| == 1) && (n >= 10 ==> |NatText(n)| >= 2)
  {
  }

  lemma {:induction false} PowerPositive(k: nat)
    ensures k > 0 ==> Power10(k) >= 10
    ensures Power10(k) >= 1
  {
    if k > 0 {
      PowerPositive(k - 1);
    }
  }

  lemma DigitsClean(n: nat)
    ensures CleanValue(NatText(n))
  {
    NatTextCanonical(n);
    hide NatText, CRLFPosition;
    var s := NatText(n);
    assert IsDigit(s[0]) && IsDigit(s[|s| - 1]);
    assert '\r' !in s by {
      assert forall i :: 0 <= i < |s| ==> IsDigit(s[i]);
    }
    NoReturn(s);
  }

  /** The automatic headers are printed as these fields. */
  lemma AutomaticIsFields(close: bool, size: nat)
    ensures AutomaticText(close, size) == Lines(AutomaticFields(close, size))
  {
    var digits := NatText(size);
    hide NatText;
    var line := Line(Field("Content-Length", digits));
    var keepAlive := Line(Field("Connection", "Keep-Alive"));
    assert "Content-Length" + ": " == "Content-Length: ";
    assert line == "Content-Length: " + (digits + CRLF);
    if close {
      LinesOne(Field("Connection", "close"));
    } else if |digits| <= 13 {
      LinesOne(Field("Connection", "Keep-Alive"));
      assert AutomaticFields(close, size)[1..] == [Field("Connection", "Keep-Alive")];
    } else {
      var cut := (digits + CRLF)[..15];
      assert line[..31] == "Content-Length: " + cut;
      assert keepAlive == "Connection: Keep-Alive" + CRLF by { Literals(0); }
      LinesOne(Field("Content-Length", cut + "Connection: Keep-Alive"));
      assert "Content-Length: " + cut + ("Connection: Keep-Alive" + CRLF)
          == "Content-Length: " + (cut + "Connection: Keep-Alive") + CRLF;
    }
  }

  lemma LinesOne(f: Field)
    ensures Lines([f]) == Line(f)
  {
    assert [f][1..] == [];
    assert Line(f) + "" == Line(f);
  }

  lemma AutomaticClean(close: bool, size: nat)
    ensures forall i :: 0 <= i < |AutomaticFields(close, size)| ==> CleanField(AutomaticFields(close, size)[i])
  {
    hide NatText, CleanName, CleanValue;
    DigitsClean(size);
    ConstantsClean();
    NatTextCanonical(size);
    if !close && |NatText(size)| > 13 {
      CutClean(NatText(size));
    }
  }

  lemma ConstantsClean()
    ensures CleanName("Connection") && CleanName("Content-Length")
    ensures CleanValue("close") && CleanValue("Keep-Alive")
  {
    hide CRLFPosition;
    NoReturn("Connection");
    NoReturn("Content-Length");
    NoReturn("close");
    NoReturn("Keep-Alive");
  }

  lemma NoReturn(s: string)
    requires '\r' !in s
    ensures !HasCRLF(s)
  {
  }

  lemma CutClean(digits: string)
    requires AllDigits(digits) && |digits| > 13
    ensures CleanValue(CutLength(digits))
  {
    var cut := (digits + CRLF)[..15];
    var s := cut + "Connection: Keep-Alive";
    assert s[|s| - 1] == 'e' && s[0] == digits[0] && IsDigit(digits[0]);
    forall i ensures !CRLFAt(s, i) {
      if 0 <= i < 14 {
        assert s[i + 1] == (if i + 1 < |digits| then digits[i + 1] else '\r');
        assert i + 1 < |digits| ==> IsDigit(digits[i + 1]);
      } else if i == 14 {
        assert s[15] == 'C';
      } else if 14 < i && i + 1 < |s| {
        assert s[i] == "Connection: Keep-Alive"[i - 15];
      }
    }
  }

  lemma AddOne(h: map<string, string>, f: Field)
    ensures AddAll(h, [f]) == h[f.name := f.value] == h + map[f.name := f.value]
  {
    assert [f][1..] == [];
  }

  lemma AutomaticAdded(h: map<string, string>, size: nat, close: bool)
    requires close || |NatText(size)| <= 13
    ensures AddAll(h, AutomaticFields(close, size)) == h + AutomaticHeaders(close, size)
  {
    hide NatText;
    var fields := AutomaticFields(close, size);
    if close {
      AddOne(h, fields[0]);
    } else {
      assert fields[1..] == [Field("Connection", "Keep-Alive")];
      AddOne(h["Content-Length" := NatText(size)], fields[1]);
      assert h["Content-Length" := NatText(size)]["Connection" := "Keep-Alive"] == h + AutomaticHeaders(false, size);
    }
  }

  /** Main result: the parser's header loop on the printed text. */
  lemma ResponseParsed(close: bool, fields: seq<Field>, m: map<string, string>, body: string, r: Request, time: int)
    requires Enumerates(fields, m) && forall i :: 0 <= i < |fields| ==> CleanField(fields[i])
    ensures Parse(ExpectHeaders, r, HeadersAndBody(close, fields, body), time)
         == Parser(GotAll, r.(headers := AddAll(r.headers, AutomaticFields(close, |body|)) + m), body, true)
  {
    hide Parse, CleanField, Enumerates, AutomaticFields, AutomaticText, Lines, AddAll;
    var auto, h := AutomaticFields(close, |body|), r.headers;
    var tail := Lines(fields) + (CRLF + body);
    AutomaticIsFields(close, |body|);
    AutomaticClean(close, |body|);
    assert HeadersAndBody(close, fields, body) == Lines(auto) + tail;
    ParseFields(r, auto, tail, time);
    ParseFields(r.(headers := AddAll(h, auto)), fields, CRLF + body, time);
    AddEntries(AddAll(h, auto), fields, m);
    ParseEnd(r.(headers := AddAll(AddAll(h, auto), fields)), body, time);
  }

  /**
    The headers read back are the automatic ones overridden by the response's own, and the body is
    left unread, for all responses but those of ten trillion bytes and more whose length or
    connection header is not overridden.
   */
  lemma HeadersReadBack(close: bool, fields: seq<Field>, m: map<string, string>, body: string, time: int)
    requires Enumerates(fields, m) && forall i :: 0 <= i < |fields| ==> CleanField(fields[i])
    ensures Parse(ExpectHeaders, EMPTY, HeadersAndBody(close, fields, body), time)
         == Parser(GotAll, EMPTY.(headers := AutomaticHeaders(close, |body|) + m), body, true)
       <==> close || |body| < 10_000_000_000_000 || ("Content-Length" in m && "Connection" in m)
  {
    hide Parse, CleanField, Enumerates, HeadersAndBody, NatText, Power10;
    ResponseParsed(close, fields, m, body, EMPTY, time);
    TextLength(|body|, 13);
    TenTrillion();
    var read := AddAll(map[], AutomaticFields(close, |body|)) + m;
    if close || |NatText(|body|)| <= 13 {
      AutomaticAdded(map[], |body|, close);
      assert map[] + AutomaticHeaders(close, |body|) == AutomaticHeaders(close, |body|);
    } else {
      NatTextCanonical(|body|);
      AddOne(map[], AutomaticFields(close, |body|)[0]);
      CutDiffers(NatText(|body|), m);
    }
  }

  lemma TenTrillion()
    ensures Power10(13) == 10_000_000_000_000
  {
    assert Power10(5) == 100_000;
    assert Power10(10) == 10_000_000_000;
  }

  lemma CutDiffers(digits: string, m: map<string, string>)
    requires AllDigits(digits) && |digits| > 13
    ensures map["Content-Length" := CutLength(digits)] + m
         == map["Content-Length" := digits, "Connection" := "Keep-Alive"] + m
       <==> "Content-Length" in m && "Connection" in m
  {
    var value := CutLength(digits);
    var x, y := map["Content-Length" := value] + m, map["Content-Length" := digits, "Connection" := "Keep-Alive"] + m;
    assert value[15] == 'C';
    if "Content-Length" in m && "Connection" in m {
      assert forall name :: name in y <==> name in m;
      assert x == y;
    } else if "Connection" !in m {
      assert "Connection" in y && "Connection" !in x;
    } else {
      assert x["Content-Length"] == value && y["Content-Length"] == digits;
    }
  }
}
