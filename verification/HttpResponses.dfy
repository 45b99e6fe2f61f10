/** The response encoder, and a reader that recovers what it was given. */
module HttpResponses {
  import opened Wrappers
  import opened HttpText
  import opened HttpTextTheorems
  import opened HttpRequestHead
  import opened TcpConnections

  datatype HttpResponse = HttpResponse(
    version: HttpVersion,
    statusCode: nat,
    reason: Option<Text>,
    headers: seq<HttpHeader>,
    body: seq<Byte>)

  // "HTTP/1.0", "HTTP/1.1", "Content-Length", "Connection"
  const HTTP_10: Text := [72, 84, 84, 80, 47, 49, 46, 48]
  const HTTP_11: Text := [72, 84, 84, 80, 47, 49, 46, 49]
  const CONTENT_LENGTH_NAME: Text := [67, 111, 110, 116, 101, 110, 116, 45, 76, 101, 110, 103, 116, 104]
  const CONNECTION_NAME: Text := [67, 111, 110, 110, 101, 99, 116, 105, 111, 110]

  // "OK", "Created", "Accepted", "No Content", "Bad Request", "Not Found", "Payload Too Large",
  // "Internal Server Error", "Status"
  function DefaultReason(status: nat): Text {
    if status == 200 then [79, 75]
    else if status == 201 then [67, 114, 101, 97, 116, 101, 100]
    else if status == 202 then [65, 99, 99, 101, 112, 116, 101, 100]
    else if status == 204 then [78, 111, 32, 67, 111, 110, 116, 101, 110, 116]
    else if status == 400 then [66, 97, 100, 32, 82, 101, 113, 117, 101, 115, 116]
    else if status == 404 then [78, 111, 116, 32, 70, 111, 117, 110, 100]
    else if status == 413 then [80, 97, 121, 108, 111, 97, 100, 32, 84, 111, 111, 32, 76, 97, 114, 103, 101]
    else if status == 500 then
      [73, 110, 116, 101, 114, 110, 97, 108, 32, 83, 101, 114, 118, 101, 114, 32, 69, 114, 114, 111, 114]
    else [83, 116, 97, 116, 117, 115]
  }

  function EffectiveReason(r: HttpResponse): Text {
    if r.reason.Some? then r.reason.value else DefaultReason(r.statusCode)
  }

  function VersionText(version: HttpVersion): Text {
    if version.Http10? then HTTP_10 else HTTP_11
  }

  // ---------- validation ----------

  predicate ValidStatus(status: nat) {
    100 <= status <= 999
  }

  predicate ValidName(name: Text) {
    name != [] && forall i :: 0 <= i < |name| ==> SP < name[i] < 0x7F && name[i] != COLON
  }

  predicate OneLine(value: Text) {
    CR !in value && LF !in value
  }

  predicate ValidHeader(h: HttpHeader) {
    ValidName(h.name) && OneLine(h.value)
  }

  /** What the encoder accepts: also the headers it will drop must be valid. */
  predicate Encodable(r: HttpResponse) {
    && ValidStatus(r.statusCode)
    && OneLine(EffectiveReason(r))
    && forall i :: 0 <= i < |r.headers| ==> ValidHeader(r.headers[i])
  }

  /** A printable ASCII character other than a colon. */
  predicate NameByte(b: Byte) {
    0x21 <= b <= 0x7E && b != 58
  }

  /**
   The encoder accepts three-digit codes, a given reason and values without line breaks, and names
   of printable ASCII characters other than a colon, also for headers it drops.
   */
  lemma EncodableExactly(r: HttpResponse)
    ensures Encodable(r) <==>
              && 100 <= r.statusCode <= 999
              && (r.reason.Some? ==> 13 !in r.reason.value && 10 !in r.reason.value)
              && forall h :: h in r.headers ==>
                   h.name != [] && (forall b :: b in h.name ==> NameByte(b)) && 13 !in h.value && 10 !in h.value
  {
    DefaultReasonIsOneLine(r.statusCode);
    if Encodable(r) {
      forall h | h in r.headers
        ensures h.name != [] && (forall b :: b in h.name ==> NameByte(b)) && 13 !in h.value && 10 !in h.value
      {
        var i :| 0 <= i < |r.headers| && r.headers[i] == h;
        assert ValidHeader(r.headers[i]);
      }
    }
    if forall h :: h in r.headers ==>
         h.name != [] && (forall b :: b in h.name ==> NameByte(b)) && 13 !in h.value && 10 !in h.value
    {
      forall i | 0 <= i < |r.headers|
        ensures ValidHeader(r.headers[i])
      {
        assert forall k :: 0 <= k < |r.headers[i].name| ==> NameByte(r.headers[i].name[k]);
      }
    }
  }

  lemma DefaultReasonIsOneLine(status: nat)
    ensures OneLine(DefaultReason(status))
  {
    if status < 300 {
      SuccessIsOneLine(status);
    } else if status >= 413 {
      FailureIsOneLine(status);
    }
  }

  lemma SuccessIsOneLine(status: nat)
    requires status < 300
    ensures OneLine(DefaultReason(status))
  {
  }

  lemma FailureIsOneLine(status: nat)
    requires status >= 413
    ensures OneLine(DefaultReason(status))
  {
  }

  // ---------- encoding ----------

  function StatusLine(r: HttpResponse): Text {
    VersionText(r.version) + [SP] + Decimal(r.statusCode) + [SP] + EffectiveReason(r)
  }

  function AppendField(bytes: seq<Byte>, h: HttpHeader): seq<Byte> {
    bytes + h.name + [COLON, SP] + h.value + CRLF
  }

  function AppendFields(bytes: seq<Byte>, fields: seq<HttpHeader>): seq<Byte> {
    if fields == [] then bytes
    else AppendField(AppendFields(bytes, fields[..|fields| - 1]), fields[|fields| - 1])
  }

  /** The caller's headers without any Content-Length. */
  function Passed(headers: seq<HttpHeader>): seq<HttpHeader> {
    if headers == [] then []
    else
      var last := headers[|headers| - 1];
      Passed(headers[..|headers| - 1]) + if IsContentLength(last.name) then [] else [last]
  }

  predicate HasConnection(headers: seq<HttpHeader>) {
    exists i :: 0 <= i < |headers| && IsConnection(headers[i].name)
  }

  /** The fields the encoder writes itself. */
  function OwnFields(r: HttpResponse): seq<HttpHeader> {
    var length := HttpHeader(CONTENT_LENGTH_NAME, Decimal(|r.body|));
    if HasConnection(r.headers) then [length] else [length, HttpHeader(CONNECTION_NAME, CLOSE)]
  }

  /** All fields of the encoded response, in order. */
  function Fields(r: HttpResponse): seq<HttpHeader> {
    Passed(r.headers) + OwnFields(r)
  }

  function Encode(r: HttpResponse): seq<Byte> {
    AppendFields(StatusLine(r) + CRLF, Fields(r)) + CRLF + r.body
  }

  lemma OneMoreHeader(headers: seq<HttpHeader>, i: nat)
    requires i < |headers|
    ensures IsContentLength(headers[i].name) ==> Passed(headers[..i + 1]) == Passed(headers[..i])
    ensures !IsContentLength(headers[i].name) ==> Passed(headers[..i + 1]) == Passed(headers[..i]) + [headers[i]]
    ensures HasConnection(headers[..i + 1]) <==> HasConnection(headers[..i]) || IsConnection(headers[i].name)
  {
    var longer := headers[..i + 1];
    assert longer[..i] == headers[..i];
    if HasConnection(headers[..i]) {
      var k :| 0 <= k < i && IsConnection(headers[..i][k].name);
      assert IsConnection(longer[k].name);
    }
    if IsConnection(headers[i].name) {
      assert IsConnection(longer[i].name);
    }
  }

  lemma OneMoreField(bytes: seq<Byte>, fields: seq<HttpHeader>, h: HttpHeader)
    ensures AppendFields(bytes, fields + [h]) == AppendField(AppendFields(bytes, fields), h)
  {
  }

  /** The loop of the encoder has written the first `i` headers after `start`. */
  ghost predicate Written(headers: seq<HttpHeader>, i: nat, start: seq<Byte>, bytes: seq<Byte>, hasConnection: bool)
    requires i <= |headers|
  {
    && (forall k :: 0 <= k < i ==> ValidHeader(headers[k]))
    && hasConnection == HasConnection(headers[..i])
    && bytes == AppendFields(start, Passed(headers[..i]))
  }

  lemma WriteOneMore(headers: seq<HttpHeader>, i: nat, start: seq<Byte>, bytes: seq<Byte>, hasConnection: bool)
    requires i < |headers| && Written(headers, i, start, bytes, hasConnection) && ValidHeader(headers[i])
    ensures Written(headers, i + 1, start,
                    if IsContentLength(headers[i].name) then bytes else AppendField(bytes, headers[i]),
                    hasConnection || IsConnection(headers[i].name))
  {
    OneMoreHeader(headers, i);
    OneMoreField(start, Passed(headers[..i]), headers[i]);
  }

  lemma WriteOwnFields(r: HttpResponse, start: seq<Byte>, bytes: seq<Byte>)
    requires Written(r.headers, |r.headers|, start, bytes, HasConnection(r.headers))
    ensures var length := AppendField(bytes, HttpHeader(CONTENT_LENGTH_NAME, Decimal(|r.body|)));
      AppendFields(start, Fields(r))
      == if HasConnection(r.headers) then length else AppendField(length, HttpHeader(CONNECTION_NAME, CLOSE))
  {
    assert r.headers[..|r.headers|] == r.headers;
    var fields := Passed(r.headers);
    var length, close := HttpHeader(CONTENT_LENGTH_NAME, Decimal(|r.body|)), HttpHeader(CONNECTION_NAME, CLOSE);
    OneMoreField(start, fields, length);
    OneMoreField(start, fields + [length], close);
    assert fields + [length, close] == fields + [length] + [close];
  }

  /** The four appends of one field. */
  method ExtendWithField(bytes: seq<Byte>, name: Text, value: Text) returns (r: seq<Byte>)
    ensures r == AppendField(bytes, HttpHeader(name, value))
  {
    r := bytes + name;
    r := r + [COLON, SP];
    r := r + value;
    r := r + CRLF;
  }

  /** The loop over the caller's headers; also tells whether one of them is a Connection header. */
  method EncodeHeaders(headers: seq<HttpHeader>, start: seq<Byte>)
    returns (r: Result<(seq<Byte>, bool), HttpErrorKind>)
    ensures r.Ok? <==> forall i :: 0 <= i < |headers| ==> ValidHeader(headers[i])
    ensures r.Ok? ==> Written(headers, |headers|, start, r.value.0, r.value.1)
    ensures r.Err? ==> r.error == InvalidResponse
  {
    var bytes, hasConnection := start, false;
    for i := 0 to |headers|
      invariant Written(headers, i, start, bytes, hasConnection)
    {
      var header := headers[i];
      if !ValidName(header.name) || !OneLine(header.value) {
        return Err(InvalidResponse);
      }
      WriteOneMore(headers, i, start, bytes, hasConnection);
      if IsContentLength(header.name) {
        assert !IsConnection(header.name);
        continue;
      }
      if IsConnection(header.name) {
        hasConnection := true;
      }
      bytes := ExtendWithField(bytes, header.name, header.value);
    }
    r := Ok((bytes, hasConnection));
  }

  /** The encoder. */
  method EncodeHttpResponse(response: HttpResponse) returns (r: Result<seq<Byte>, HttpErrorKind>)
    ensures r == if Encodable(response) then Ok(Encode(response)) else Err(InvalidResponse)
    ensures response.reason.Some? && (CR in response.reason.value || LF in response.reason.value) ==>
              r == Err(InvalidResponse)
  {
    if !ValidStatus(response.statusCode) {
      return Err(InvalidResponse);
    }
    var reason := EffectiveReason(response);
    if !OneLine(reason) {
      return Err(InvalidResponse);
    }
    var start := VersionText(response.version) + [SP] + Decimal(response.statusCode) + [SP] + reason + CRLF;
    var headers := EncodeHeaders(response.headers, start);
    if headers.Err? {
      return Err(headers.error);
    }
    var (bytes, hasConnection) := headers.value;
    assert response.headers[..|response.headers|] == response.headers;
    WriteOwnFields(response, start, bytes);
    bytes := ExtendWithField(bytes, CONTENT_LENGTH_NAME, Decimal(|response.body|));
    if !hasConnection {
      bytes := ExtendWithField(bytes, CONNECTION_NAME, CLOSE);
    }
    r := Ok(bytes + CRLF + response.body);
  }

  // ---------- reading a response back ----------

  function TrimOwsStart(s: Text): Text {
    if s != [] && (s[0] == SP || s[0] == TAB) then TrimOwsStart(s[1..]) else s
  }

  function TrimOwsEnd(s: Text): Text {
    if s != [] && (s[|s| - 1] == SP || s[|s| - 1] == TAB) then TrimOwsEnd(s[..|s| - 1]) else s
  }

  /** A field value without the optional white space around it (RFC 9112, section 5.1). */
  function TrimOws(s: Text): Text {
    TrimOwsEnd(TrimOwsStart(s))
  }

  function TrimHeader(h: HttpHeader): HttpHeader {
    HttpHeader(h.name, TrimOws(h.value))
  }

  function TrimAll(fields: seq<HttpHeader>): seq<HttpHeader> {
    if fields == [] then [] else [TrimHeader(fields[0])] + TrimAll(fields[1..])
  }

  /** A field line split at its first colon (RFC 9112, section 5). */
  function ReadField(line: Text): Option<HttpHeader> {
    var name := Before(line, COLON);
    if name == [] || |name| == |line| then None
    else Some(HttpHeader(name, TrimOws(line[|name| + 1..])))
  }

  /** Field lines up to the blank line, and what follows it. */
  function ReadFields(bytes: seq<Byte>): Option<(seq<HttpHeader>, seq<Byte>)>
    decreases |bytes|
  {
    match LineEnd(bytes)
    case None => None
    case Some(n) =>
      if n == 0 then Some(([], bytes[2..]))
      else
        match ReadField(bytes[..n])
        case None => None
        case Some(field) =>
          match ReadFields(bytes[n + 2..])
          case None => None
          case Some(more) => Some(([field] + more.0, more.1))
  }

  datatype Status = Status(version: HttpVersion, code: nat, reason: Text)

  /** A status line (RFC 9112, section 4). */
  function ReadStatusLine(line: Text): Option<Status> {
    if |line| < 13 || line[8] != SP || line[12] != SP || !AllDigits(line[9..12]) then None
    else if line[..8] == HTTP_10 then Some(Status(Http10, DigitsValue(line[9..12]), line[13..]))
    else if line[..8] == HTTP_11 then Some(Status(Http11, DigitsValue(line[9..12]), line[13..]))
    else None
  }

  datatype ResponseHead = ResponseHead(status: Status, fields: seq<HttpHeader>)

  /** A response head and the bytes behind it. */
  function ReadHead(bytes: seq<Byte>): Option<(ResponseHead, seq<Byte>)> {
    match LineEnd(bytes)
    case None => None
    case Some(n) =>
      match ReadStatusLine(bytes[..n])
      case None => None
      case Some(status) =>
        match ReadFields(bytes[n + 2..])
        case None => None
        case Some(fields) => Some((ResponseHead(status, fields.0), fields.1))
  }

  // ---------- the round trip ----------

  function FieldLine(h: HttpHeader): Text {
    h.name + ([COLON, SP] + h.value)
  }

  function Lines(fields: seq<HttpHeader>): seq<Byte> {
    if fields == [] then [] else FieldLine(fields[0]) + (CRLF + Lines(fields[1..]))
  }

  lemma {:induction false} LinesAppend(fields: seq<HttpHeader>, h: HttpHeader)
    ensures Lines(fields + [h]) == Lines(fields) + (FieldLine(h) + CRLF)
  {
    if fields == [] {
      assert Lines([h]) == FieldLine(h) + (CRLF + []);
    } else {
      assert (fields + [h])[1..] == fields[1..] + [h];
      LinesAppend(fields[1..], h);
      Regroup(FieldLine(fields[0]), CRLF, Lines(fields[1..]), FieldLine(h) + CRLF);
    }
  }

  lemma Regroup<T>(a: seq<T>, b: seq<T>, c: seq<T>, d: seq<T>)
    ensures a + (b + (c + d)) == a + (b + c) + d
  {
  }

  lemma AppendedLine(bytes: seq<Byte>, h: HttpHeader)
    ensures AppendField(bytes, h) == bytes + (FieldLine(h) + CRLF)
  {
  }

  lemma Flatten<T>(a: seq<T>, b: seq<T>, c: seq<T>, d: seq<T>, e: seq<T>, f: seq<T>)
    ensures a + b + c + d + e + f == a + (b + (c + (d + (e + f))))
  {
  }

  lemma {:induction false} AppendedLines(bytes: seq<Byte>, fields: seq<HttpHeader>)
    ensures AppendFields(bytes, fields) == bytes + Lines(fields)
  {
    if fields != [] {
      var front, last := fields[..|fields| - 1], fields[|fields| - 1];
      AppendedLines(bytes, front);
      LinesAppend(front, last);
      assert fields == front + [last];
      AppendedLine(AppendFields(bytes, front), last);
    }
  }

  lemma ReadFieldLine(h: HttpHeader)
    requires ValidHeader(h)
    ensures ReadField(FieldLine(h)) == Some(TrimHeader(h))
    ensures CR !in FieldLine(h) && FieldLine(h) != []
  {
    var line := FieldLine(h);
    assert line == h.name + [COLON] + ([SP] + h.value);
    BeforeSeparator(h.name, COLON, [SP] + h.value);
    assert line[|h.name| + 1..] == [SP] + h.value;
    assert ([SP] + h.value)[1..] == h.value;
  }

  lemma ReadFieldsStep(bytes: seq<Byte>, line: Text, more: seq<Byte>)
    requires LineEnd(bytes) == Some(|line|) && line != []
    requires bytes[..|line|] == line && bytes[|line| + 2..] == more
    requires ReadField(line).Some? && ReadFields(more).Some?
    ensures ReadFields(bytes)
         == Some(([ReadField(line).value] + ReadFields(more).value.0, ReadFields(more).value.1))
  {
  }

  lemma CutAtLineEnd(line: seq<Byte>, more: seq<Byte>)
    ensures (line + (CRLF + more))[..|line|] == line
    ensures (line + (CRLF + more))[|line| + 2..] == more
  {
  }

  lemma ReadOneField(h: HttpHeader, more: seq<Byte>)
    requires ValidHeader(h) && ReadFields(more).Some?
    ensures ReadFields(FieldLine(h) + (CRLF + more))
         == Some(([TrimHeader(h)] + ReadFields(more).value.0, ReadFields(more).value.1))
  {
    var line := FieldLine(h);
    var bytes := line + (CRLF + more);
    ReadFieldLine(h);
    LineEndAfter(line, more);
    CutAtLineEnd(line, more);
    ReadFieldsStep(bytes, line, more);
  }

  /** Reading the lines of valid fields recovers them, values without surrounding white space. */
  lemma {:induction false} ReadLines(fields: seq<HttpHeader>, rest: seq<Byte>)
    requires forall i :: 0 <= i < |fields| ==> ValidHeader(fields[i])
    ensures ReadFields(Lines(fields) + (CRLF + rest)) == Some((TrimAll(fields), rest))
    decreases |fields|
  {
    if fields == [] {
      assert Lines(fields) + (CRLF + rest) == CRLF + rest;
      assert (CRLF + rest)[2..] == rest;
    } else {
      ReadLines(fields[1..], rest);
      Regroup(FieldLine(fields[0]), CRLF, Lines(fields[1..]), CRLF + rest);
      ReadOneField(fields[0], Lines(fields[1..]) + (CRLF + rest));
    }
  }

  lemma StatusLineIsOneLine(r: HttpResponse)
    requires Encodable(r)
    ensures ReadStatusLine(StatusLine(r)) == Some(Status(r.version, r.statusCode, EffectiveReason(r)))
    ensures CR !in StatusLine(r) && StatusLine(r) != []
  {
    var code := Decimal(r.statusCode);
    ThreeDigits(r.statusCode);
    var line := StatusLine(r);
    assert line[..8] == VersionText(r.version);
    assert line[9..12] == code;
    assert line[13..] == EffectiveReason(r);
  }

  lemma ThreeDigits(n: nat)
    requires 100 <= n <= 999
    ensures |Decimal(n)| == 3
  {
    assert Decimal(n) == Decimal(n / 10) + [ZERO + n % 10];
    assert Decimal(n / 10) == Decimal(n / 100) + [ZERO + n / 10 % 10];
  }

  lemma {:induction false} PassedAreValid(headers: seq<HttpHeader>)
    requires forall i :: 0 <= i < |headers| ==> ValidHeader(headers[i])
    ensures forall i :: 0 <= i < |Passed(headers)| ==> ValidHeader(Passed(headers)[i])
  {
    if headers != [] {
      PassedAreValid(headers[..|headers| - 1]);
    }
  }

  lemma FieldsAreValid(r: HttpResponse)
    requires Encodable(r)
    ensures forall i :: 0 <= i < |Fields(r)| ==> ValidHeader(Fields(r)[i])
  {
    PassedAreValid(r.headers);
    var digits := Decimal(|r.body|);
    assert ValidName(CONTENT_LENGTH_NAME) && ValidName(CONNECTION_NAME) && OneLine(CLOSE);
    assert OneLine(digits);
  }

  /** An encoded response and what follows it, as a status line, field lines and the rest. */
  lemma EncodedShape(r: HttpResponse, tail: seq<Byte>)
    ensures Encode(r) + tail == StatusLine(r) + (CRLF + (Lines(Fields(r)) + (CRLF + (r.body + tail))))
  {
    var line, lines := StatusLine(r), Lines(Fields(r));
    AppendedLines(line + CRLF, Fields(r));
    Flatten(line, CRLF, lines, CRLF, r.body, tail);
  }

  /**
   A reader that splits lines, and field names at the first colon, recovers from an encoded
   response its version, three-digit status, effective reason and fields, whatever bytes follow.
   */
  lemma HeadRoundTrip(r: HttpResponse, tail: seq<Byte>)
    requires Encodable(r)
    ensures ReadHead(Encode(r) + tail)
         == Some((ResponseHead(Status(r.version, r.statusCode, EffectiveReason(r)), TrimAll(Fields(r))),
                  r.body + tail))
  {
    var line, more := StatusLine(r), Lines(Fields(r)) + (CRLF + (r.body + tail));
    var bytes := line + (CRLF + more);
    EncodedShape(r, tail);
    StatusLineIsOneLine(r);
    LineEndAfter(line, more);
    CutAtLineEnd(line, more);
    FieldsAreValid(r);
    ReadLines(Fields(r), r.body + tail);
    ReadHeadStep(bytes, line, more);
  }

  lemma ReadHeadStep(bytes: seq<Byte>, line: Text, more: seq<Byte>)
    requires LineEnd(bytes) == Some(|line|) && bytes[..|line|] == line && bytes[|line| + 2..] == more
    requires ReadStatusLine(line).Some? && ReadFields(more).Some?
    ensures ReadHead(bytes)
         == Some((ResponseHead(ReadStatusLine(line).value, ReadFields(more).value.0), ReadFields(more).value.1))
  {
  }

  /** The reason phrase of a status code when the caller gives none. */
  function StandardReason(code: nat): Text {
    match code
    case 200 => Ascii("OK")
    case 201 => Ascii("Created")
    case 202 => Ascii("Accepted")
    case 204 => Ascii("No Content")
    case 400 => Ascii("Bad Request")
    case 404 => Ascii("Not Found")
    case 413 => Ascii("Payload Too Large")
    case 500 => Ascii("Internal Server Error")
    case _ => Ascii("Status")
  }

  /** The caller's reason is on the status line as given; without one, the standard phrase is. */
  lemma ReasonIsRead(r: HttpResponse, tail: seq<Byte>)
    requires Encodable(r)
    ensures var head := ReadHead(Encode(r) + tail);
      && head.Some?
      && (r.reason.Some? ==> head.value.0.status.reason == r.reason.value)
      && (r.reason.None? ==> head.value.0.status.reason == StandardReason(r.statusCode))
  {
    HeadRoundTrip(r, tail);
    DefaultIsStandard(r.statusCode);
  }

  lemma DefaultIsStandard(code: nat)
    ensures DefaultReason(code) == StandardReason(code)
  {
    if code < 300 {
      SuccessIsStandard(code);
    } else if code < 404 {
      assert code == 400 ==> DefaultReason(code) == Ascii("Bad Request");
    } else if code < 413 {
      assert code == 404 ==> DefaultReason(code) == Ascii("Not Found");
    } else {
      FailureIsStandard(code);
    }
  }

  lemma SuccessIsStandard(code: nat)
    requires code < 300
    ensures DefaultReason(code) == StandardReason(code)
  {
    match code
    case 200 => assert DefaultReason(200) == Ascii("OK");
    case 201 => assert DefaultReason(201) == Ascii("Created");
    case 202 => assert DefaultReason(202) == Ascii("Accepted");
    case 204 => assert DefaultReason(204) == Ascii("No Content");
    case _ =>
  }

  lemma FailureIsStandard(code: nat)
    requires code >= 413
    ensures DefaultReason(code) == StandardReason(code)
  {
    if code == 413 {
      assert DefaultReason(413) == Ascii("Payload Too Large");
    } else if code == 500 {
      assert DefaultReason(500) == Ascii("Internal Server Error");
    } else {
      assert DefaultReason(code) == Ascii("Status");
    }
  }

  /** The names and versions the encoder writes. */
  lemma OwnNamesAreSpelled()
    ensures CONTENT_LENGTH_NAME == Ascii("Content-Length") && CONNECTION_NAME == Ascii("Connection")
    ensures VersionText(Http10) == Ascii("HTTP/1.0") && VersionText(Http11) == Ascii("HTTP/1.1")
  {
  }

  lemma {:induction false} BlankLineAfterLines(fields: seq<HttpHeader>, rest: seq<Byte>)
    requires fields != [] && forall i :: 0 <= i < |fields| ==> ValidHeader(fields[i])
    ensures var s := Lines(fields) + (CRLF + rest);
      BlankLineEnd(s) == Some(|Lines(fields)| + 2) && !StartsWithCrlf(s)
    decreases |fields|
  {
    var line, more := FieldLine(fields[0]), Lines(fields[1..]) + (CRLF + rest);
    if |fields| == 1 {
      assert more == CRLF + rest;
    } else {
      BlankLineAfterLines(fields[1..], rest);
    }
    BlankLineAfterOne(fields[0], more);
    Regroup(line, CRLF, Lines(fields[1..]), CRLF + rest);
  }

  lemma BlankLineAfterOne(h: HttpHeader, more: seq<Byte>)
    requires ValidHeader(h)
    requires StartsWithCrlf(more) || BlankLineEnd(more).Some?
    ensures var s := FieldLine(h) + (CRLF + more);
      && !StartsWithCrlf(s)
      && BlankLineEnd(s) == Some(|FieldLine(h)| + if StartsWithCrlf(more) then 4 else 2 + BlankLineEnd(more).value)
  {
    var s := FieldLine(h) + (CRLF + more);
    ReadFieldLine(h);
    assert s[0] == FieldLine(h)[0] != CR;
    BlankLineAfter(FieldLine(h), more);
  }

  /** The first blank line is the end of the head: no reason, name or value can forge one. */
  lemma HeadEndsAtFirstBlankLine(r: HttpResponse, tail: seq<Byte>)
    requires Encodable(r)
    ensures BlankLineEnd(Encode(r) + tail) == Some(|Encode(r)| - |r.body|)
  {
    var line, more := StatusLine(r), Lines(Fields(r)) + (CRLF + (r.body + tail));
    EncodedShape(r, tail);
    EncodedShape(r, []);
    StatusLineIsOneLine(r);
    FieldsAreValid(r);
    BlankLineAfterLines(Fields(r), r.body + tail);
    BlankLineAfter(line, more);
  }

  // ---------- what the fields say ----------

  /** The caller's headers pass through unchanged, except that every Content-Length is dropped. */
  lemma {:induction false} PassedDropsOnlyContentLength(headers: seq<HttpHeader>, h: HttpHeader)
    ensures multiset(Passed(headers))[h] == if IsContentLength(h.name) then 0 else multiset(headers)[h]
  {
    if headers != [] {
      var front, last := headers[..|headers| - 1], headers[|headers| - 1];
      PassedDropsOnlyContentLength(front, h);
      assert headers == front + [last];
      assert multiset(headers) == multiset(front) + multiset{last};
    }
  }

  /** The values of the Content-Length fields, in order. */
  function Lengths(fields: seq<HttpHeader>): seq<Text> {
    if fields == [] then []
    else (if IsContentLength(fields[0].name) then [fields[0].value] else []) + Lengths(fields[1..])
  }

  predicate HasTransferEncoding(fields: seq<HttpHeader>) {
    exists i :: 0 <= i < |fields| && IsTransferEncoding(fields[i].name)
  }

  lemma {:induction false} LengthsAppend(fields: seq<HttpHeader>, more: seq<HttpHeader>)
    ensures Lengths(fields + more) == Lengths(fields) + Lengths(more)
  {
    if fields == [] {
      assert fields + more == more;
    } else {
      assert (fields + more)[1..] == fields[1..] + more;
      LengthsAppend(fields[1..], more);
    }
  }

  lemma {:induction false} NoLengths(fields: seq<HttpHeader>)
    requires forall i :: 0 <= i < |fields| ==> !IsContentLength(fields[i].name)
    ensures Lengths(fields) == []
  {
    if fields != [] {
      NoLengths(fields[1..]);
    }
  }

  lemma {:induction false} TrimAllPointwise(fields: seq<HttpHeader>)
    ensures |TrimAll(fields)| == |fields|
    ensures forall i :: 0 <= i < |fields| ==> TrimAll(fields)[i] == TrimHeader(fields[i])
  {
    if fields != [] {
      TrimAllPointwise(fields[1..]);
    }
  }

  lemma {:induction false} PassedHeaders(headers: seq<HttpHeader>)
    ensures forall i :: 0 <= i < |Passed(headers)| ==> !IsContentLength(Passed(headers)[i].name)
    ensures HasTransferEncoding(Passed(headers)) <==> HasTransferEncoding(headers)
    ensures HasConnection(Passed(headers)) <==> HasConnection(headers)
  {
    if headers != [] {
      var front, last := headers[..|headers| - 1], headers[|headers| - 1];
      PassedHeaders(front);
      SomeHeader(front, last);
      if !IsContentLength(last.name) {
        SomeHeader(Passed(front), last);
      } else {
        assert Passed(headers) == Passed(front);
      }
      assert headers == front + [last];
    }
  }

  lemma SomeHeader(front: seq<HttpHeader>, last: HttpHeader)
    ensures HasTransferEncoding(front + [last]) <==> HasTransferEncoding(front) || IsTransferEncoding(last.name)
    ensures HasConnection(front + [last]) <==> HasConnection(front) || IsConnection(last.name)
  {
    var all := front + [last];
    assert all[|front|] == last;
    assert forall i :: 0 <= i < |front| ==> all[i] == front[i];
  }

  lemma {:induction false} TrimAllAppend(fields: seq<HttpHeader>, more: seq<HttpHeader>)
    ensures TrimAll(fields + more) == TrimAll(fields) + TrimAll(more)
  {
    if fields == [] {
      assert fields + more == more;
    } else {
      assert (fields + more)[1..] == fields[1..] + more;
      TrimAllAppend(fields[1..], more);
    }
  }

  lemma TrimmedDigits(s: Text)
    requires s != [] && AllDigits(s)
    ensures TrimOws(s) == s
  {
  }

  lemma OwnLengths(r: HttpResponse)
    ensures Lengths(TrimAll(OwnFields(r))) == [Decimal(|r.body|)]
  {
    var own := OwnFields(r);
    TrimmedDigits(Decimal(|r.body|));
    assert TrimAll(own)[0] == own[0];
    assert TrimAll(own)[1..] == TrimAll(own[1..]);
    TrimAllPointwise(own[1..]);
    NoLengths(TrimAll(own[1..]));
  }

  /** The encoded fields carry exactly one Content-Length, the body's, whatever the caller gave. */
  lemma EncoderOwnsTheLength(r: HttpResponse)
    ensures Lengths(TrimAll(Fields(r))) == [Decimal(|r.body|)]
  {
    var passed := Passed(r.headers);
    TrimAllAppend(passed, OwnFields(r));
    LengthsAppend(TrimAll(passed), TrimAll(OwnFields(r)));
    PassedHeaders(r.headers);
    TrimAllPointwise(passed);
    NoLengths(TrimAll(passed));
    OwnLengths(r);
  }

  /** The values of the Connection fields, in order. */
  function Connections(fields: seq<HttpHeader>): seq<Text> {
    if fields == [] then []
    else (if IsConnection(fields[0].name) then [fields[0].value] else []) + Connections(fields[1..])
  }

  lemma {:induction false} ConnectionsAppend(fields: seq<HttpHeader>, more: seq<HttpHeader>)
    ensures Connections(fields + more) == Connections(fields) + Connections(more)
  {
    if fields == [] {
      assert fields + more == more;
    } else {
      assert (fields + more)[1..] == fields[1..] + more;
      ConnectionsAppend(fields[1..], more);
    }
  }

  lemma OneConnection(h: HttpHeader)
    ensures Connections([h]) == if IsConnection(h.name) then [h.value] else []
  {
    assert [h][1..] == [];
  }

  lemma {:induction false} PassedConnections(headers: seq<HttpHeader>)
    ensures Connections(Passed(headers)) == Connections(headers)
    ensures Connections(headers) == [] <==> !HasConnection(headers)
  {
    if headers != [] {
      var front, last := headers[..|headers| - 1], headers[|headers| - 1];
      PassedConnections(front);
      SomeHeader(front, last);
      assert headers == front + [last];
      OneConnection(last);
      ConnectionsAppend(front, [last]);
      ConnectionsAppend(Passed(front), [last]);
      if IsContentLength(last.name) {
        assert !IsConnection(last.name) && Passed(headers) == Passed(front);
      } else {
        assert Passed(headers) == Passed(front) + [last];
      }
    }
  }

  /**
   The encoded fields carry the caller's Connection values as given, in order, or else exactly one
   Connection field, which says `close`.
   */
  lemma EncoderAddsOnlyConnection(r: HttpResponse)
    ensures Connections(Fields(r)) == if Connections(r.headers) == [] then [CLOSE] else Connections(r.headers)
  {
    PassedConnections(r.headers);
    ConnectionsAppend(Passed(r.headers), OwnFields(r));
    OwnConnections(r);
  }

  lemma OwnConnections(r: HttpResponse)
    ensures Connections(OwnFields(r)) == if HasConnection(r.headers) then [] else [CLOSE]
  {
    var length, close := HttpHeader(CONTENT_LENGTH_NAME, Decimal(|r.body|)), HttpHeader(CONNECTION_NAME, CLOSE);
    OneConnection(length);
    OneConnection(close);
    ConnectionsAppend([length], [close]);
    assert [length] + [close] == [length, close];
  }

  // ---------- body framing ----------

  datatype ResponseMessage = ResponseMessage(head: ResponseHead, body: seq<Byte>)

  /** Statuses whose responses never carry a body (RFC 9112, section 6.3, rule 1). */
  predicate Bodiless(status: nat) {
    100 <= status <= 199 || status == 204 || status == 304
  }

  /** The end of the first element of a comma-separated list, where commas in quotes do not count. */
  function ElementEnd(s: Text, quoted: bool): (n: nat)
    ensures n <= |s|
  {
    if s == [] || (s[0] == COMMA && !quoted) then 0
    else if quoted && s[0] == BACKSLASH && |s| > 1 then 2 + ElementEnd(s[2..], quoted)
    else 1 + ElementEnd(s[1..], if s[0] == QUOTE then !quoted else quoted)
  }

  /** The non-empty elements of a list (RFC 9110, section 5.6.1). */
  function Elements(s: Text): seq<Text>
    decreases |s|
  {
    var n := ElementEnd(s, false);
    var first := TrimOws(s[..n]);
    (if first == [] then [] else [first]) + if n == |s| then [] else Elements(s[n + 1..])
  }

  /** The transfer codings of a message, in the order they were applied (RFC 9112, section 6.1). */
  function Codings(fields: seq<HttpHeader>): seq<Text> {
    if fields == [] then []
    else (if IsTransferEncoding(fields[0].name) then Elements(fields[0].value) else []) + Codings(fields[1..])
  }

  predicate EndsChunked(codings: seq<Text>) {
    codings != [] && SameName(codings[|codings| - 1], CHUNKED)
  }

  function HexDigit(b: Byte): Option<nat> {
    if ZERO <= b <= ZERO + 9 then Some(b - ZERO)
    else if 65 <= b <= 70 then Some(b - 55)
    else if 97 <= b <= 102 then Some(b - 87)
    else None
  }

  /** How many hexadecimal digits a line starts with. */
  function HexLength(line: Text): (n: nat)
    ensures n <= |line|
    ensures forall i :: 0 <= i < n ==> HexDigit(line[i]).Some?
  {
    if line == [] || HexDigit(line[0]).None? then 0 else 1 + HexLength(line[1..])
  }

  function HexValue(digits: Text): nat
    requires forall i :: 0 <= i < |digits| ==> HexDigit(digits[i]).Some?
  {
    if digits == [] then 0
    else HexValue(digits[..|digits| - 1]) * 16 + HexDigit(digits[|digits| - 1]).value
  }

  /** The size a chunk line announces; extensions are skipped (RFC 9112, section 7.1.1). */
  function ChunkSize(line: Text): Option<nat> {
    var n := HexLength(line);
    var extension := TrimOws(line[n..]);
    if n == 0 || (extension != [] && extension[0] != SEMICOLON) then None else Some(HexValue(line[..n]))
  }

  /** A chunked body and the bytes behind it (RFC 9112, section 7.1). */
  function ReadChunked(bytes: seq<Byte>): Option<(seq<Byte>, seq<Byte>)>
    decreases |bytes|
  {
    match LineEnd(bytes)
    case None => None
    case Some(n) =>
      match ChunkSize(bytes[..n])
      case None => None
      case Some(size) =>
        var data := bytes[n + 2..];
        if size == 0 then
          match ReadFields(data)
          case None => None
          case Some(trailers) => Some(([], trailers.1))
        else if |data| < size + 2 || data[size..size + 2] != CRLF then None
        else
          match ReadChunked(data[size + 2..])
          case None => None
          case Some(more) => Some((data[..size] + more.0, more.1))
  }

  /**
   The reader of section 6.3 of RFC 9112, on everything the connection delivers until it is closed:
   rule 1, no body for a bodiless status; rules 3 and 4, a Transfer-Encoding wins over any
   Content-Length, and delimits the body by chunks when `chunked` is the final coding and by the
   close otherwise; rules 5 and 6, a single valid Content-Length; rule 8, the close. The body is
   the one on the wire, with codings other than `chunked` still applied. That HEAD responses have
   no body (rule 1) and that CONNECT opens a tunnel (rule 2) depend on the request, which is not
   an argument here; rule 7 is about requests.
   */
  function ReadMessage(bytes: seq<Byte>): Option<(ResponseMessage, seq<Byte>)> {
    match ReadHead(bytes)
    case None => None
    case Some((head, rest)) =>
      var lengths := Lengths(head.fields);
      if Bodiless(head.status.code) then Some((ResponseMessage(head, []), rest))
      else if HasTransferEncoding(head.fields) then
        if EndsChunked(Codings(head.fields)) then
          match ReadChunked(rest)
          case None => None
          case Some((body, more)) => Some((ResponseMessage(head, body), more))
        else Some((ResponseMessage(head, rest), []))
      else if lengths == [] then Some((ResponseMessage(head, rest), []))
      else if |lengths| != 1 || !AllDigits(lengths[0]) || lengths[0] == [] || |rest| < DigitsValue(lengths[0]) then None
      else
        var n := DigitsValue(lengths[0]);
        Some((ResponseMessage(head, rest[..n]), rest[n..]))
  }

  lemma {:induction false} FieldsTakeBytes(bytes: seq<Byte>)
    requires ReadFields(bytes).Some?
    ensures |ReadFields(bytes).value.1| < |bytes|
    decreases |bytes|
  {
    var n := LineEnd(bytes).value;
    if n != 0 {
      FieldsTakeBytes(bytes[n + 2..]);
    }
  }

  /** A chunked body takes more bytes than it yields. */
  lemma {:induction false} ChunksTakeMore(bytes: seq<Byte>)
    requires ReadChunked(bytes).Some?
    ensures var (body, rest) := ReadChunked(bytes).value; |body| + |rest| < |bytes|
    decreases |bytes|
  {
    var n := LineEnd(bytes).value;
    var size := ChunkSize(bytes[..n]).value;
    var data := bytes[n + 2..];
    if size == 0 {
      FieldsTakeBytes(data);
    } else {
      ChunksTakeMore(data[size + 2..]);
    }
  }

  lemma {:induction false} CodingsAppend(fields: seq<HttpHeader>, more: seq<HttpHeader>)
    ensures Codings(fields + more) == Codings(fields) + Codings(more)
  {
    if fields == [] {
      assert fields + more == more;
    } else {
      assert (fields + more)[1..] == fields[1..] + more;
      CodingsAppend(fields[1..], more);
    }
  }

  lemma OneFieldsCodings(h: HttpHeader)
    ensures Codings(TrimAll([h])) == if IsTransferEncoding(h.name) then Elements(TrimOws(h.value)) else []
  {
    assert [h][1..] == [] && TrimAll([h]) == [TrimHeader(h)];
    assert [TrimHeader(h)][1..] == [];
  }

  lemma {:induction false} PassedCodings(headers: seq<HttpHeader>)
    ensures Codings(TrimAll(Passed(headers))) == Codings(TrimAll(headers))
  {
    if headers != [] {
      var front, last := headers[..|headers| - 1], headers[|headers| - 1];
      PassedCodings(front);
      assert headers == front + [last];
      TrimAllAppend(front, [last]);
      CodingsAppend(TrimAll(front), TrimAll([last]));
      OneFieldsCodings(last);
      if IsContentLength(last.name) {
        assert !IsTransferEncoding(last.name) && Passed(headers) == Passed(front);
      } else {
        assert Passed(headers) == Passed(front) + [last];
        TrimAllAppend(Passed(front), [last]);
        CodingsAppend(TrimAll(Passed(front)), TrimAll([last]));
      }
    }
  }

  /** The encoder adds no transfer coding and removes none. */
  lemma EncoderKeepsCodings(r: HttpResponse)
    ensures Codings(TrimAll(Fields(r))) == Codings(TrimAll(r.headers))
  {
    var passed, own := Passed(r.headers), OwnFields(r);
    PassedCodings(r.headers);
    TrimAllAppend(passed, own);
    CodingsAppend(TrimAll(passed), TrimAll(own));
    OwnCodings(r);
  }

  lemma EncoderKeepsTransferEncoding(r: HttpResponse)
    ensures HasTransferEncoding(TrimAll(Fields(r))) <==> HasTransferEncoding(r.headers)
  {
    var passed, own, fields := Passed(r.headers), OwnFields(r), Fields(r);
    PassedHeaders(r.headers);
    TrimAllPointwise(fields);
    assert forall i :: 0 <= i < |passed| ==> fields[i] == passed[i];
    assert forall i :: |passed| <= i < |fields| ==> fields[i] == own[i - |passed|];
  }

  lemma OwnCodings(r: HttpResponse)
    ensures Codings(TrimAll(OwnFields(r))) == []
  {
    var length, close := HttpHeader(CONTENT_LENGTH_NAME, Decimal(|r.body|)), HttpHeader(CONNECTION_NAME, CLOSE);
    OneFieldsCodings(length);
    OneFieldsCodings(close);
    TrimAllAppend([length], [close]);
    CodingsAppend(TrimAll([length]), TrimAll([close]));
    assert [length] + [close] == [length, close];
  }

  /**
   A reader by section 6.3 of RFC 9112 gets the body and stops exactly behind it if and only if:
   for a status without body, the body is empty; without Transfer-Encoding, always; with one, the
   final coding is not `chunked` and nothing follows the response until the close.
   */
  lemma BodyRoundTripExactly(r: HttpResponse, tail: seq<Byte>)
    requires Encodable(r)
    ensures var message := ReadMessage(Encode(r) + tail);
      (message.Some? && message.value.0.body == r.body && message.value.1 == tail)
      <==> if Bodiless(r.statusCode) then r.body == []
           else HasTransferEncoding(r.headers) ==> !EndsChunked(Codings(TrimAll(r.headers))) && tail == []
  {
    HeadRoundTrip(r, tail);
    EncoderOwnsTheLength(r);
    EncoderKeepsCodings(r);
    EncoderKeepsTransferEncoding(r);
    var rest := r.body + tail;
    assert rest[..|r.body|] == r.body && rest[|r.body|..] == tail;
    if Bodiless(r.statusCode) && r.body == [] {
      assert rest == tail;
    }
    if ReadChunked(rest).Some? {
      ChunksTakeMore(rest);
    }
    if tail == [] {
      assert rest == r.body;
    }
  }

  /** A body sent with 204 is left on the connection, where the next response should start. */
  lemma BodyOfNoContentIsLeftOver(body: seq<Byte>, tail: seq<Byte>) returns (r: HttpResponse)
    ensures Encodable(r) && r.statusCode == 204 && r.headers == [] && r.body == body
    ensures var message := ReadMessage(Encode(r) + tail);
      message.Some? && message.value.0.body == [] && message.value.1 == body + tail
  {
    r := HttpResponse(Http11, 204, Some([]), [], body);
    HeadRoundTrip(r, tail);
  }

  lemma ChunkedResponse(body: seq<Byte>) returns (r: HttpResponse)
    ensures Encodable(r) && r.statusCode == 200 && r.body == body
    ensures r.headers == [HttpHeader(TRANSFER_ENCODING, CHUNKED)]
    ensures HasTransferEncoding(r.headers) && EndsChunked(Codings(TrimAll(r.headers)))
  {
    var field := HttpHeader(TRANSFER_ENCODING, CHUNKED);
    ChunkedFieldIsValid();
    r := ResponseWith(field, body);
    OneFieldsCodings(field);
    ChunkedIsOneElement();
  }

  lemma ResponseWith(field: HttpHeader, body: seq<Byte>) returns (r: HttpResponse)
    requires ValidHeader(field) && IsTransferEncoding(field.name)
    ensures Encodable(r) && r.statusCode == 200 && r.body == body
    ensures r.headers == [field] && HasTransferEncoding(r.headers)
  {
    r := HttpResponse(Http11, 200, Some([]), [field], body);
    assert r.headers[0] == field;
  }

  lemma ChunkedFieldIsValid()
    ensures ValidHeader(HttpHeader(TRANSFER_ENCODING, CHUNKED)) && IsTransferEncoding(TRANSFER_ENCODING)
  {
  }

  /** A caller's `Transfer-Encoding: chunked` makes every body unreadable: the encoder writes no chunks. */
  lemma ChunkedBodyIsUnreadable(body: seq<Byte>, tail: seq<Byte>) returns (r: HttpResponse)
    ensures Encodable(r) && r.statusCode == 200 && r.body == body
    ensures r.headers == [HttpHeader(TRANSFER_ENCODING, CHUNKED)]
    ensures var message := ReadMessage(Encode(r) + tail);
      !(message.Some? && message.value.0.body == body && message.value.1 == tail)
  {
    r := ChunkedResponse(body);
    BodyRoundTripExactly(r, tail);
  }

  lemma ChunkedIsOneElement()
    ensures TrimOws(CHUNKED) == CHUNKED && Elements(CHUNKED) == [CHUNKED]
  {
    NoComma(CHUNKED);
    assert CHUNKED[..|CHUNKED|] == CHUNKED;
  }

  lemma {:induction false} NoComma(s: Text)
    requires forall i :: 0 <= i < |s| ==> 97 <= s[i] <= 122
    ensures ElementEnd(s, false) == |s|
  {
    if s != [] {
      NoComma(s[1..]);
    }
  }

  /** The codec's only writer: encode, then write everything or report a failure. */
  method WriteHttpResponse(connection: TcpConnection, response: HttpResponse)
    returns (r: Result<(), HttpErrorKind>)
    modifies connection`outgoing
    ensures !Encodable(response) ==> r == Err(InvalidResponse) && connection.outgoing == old(connection.outgoing)
    ensures r.Ok? ==> connection.outgoing == old(connection.outgoing) + Encode(response)
    ensures Encodable(response) ==>
              r == if connection.generationLive.value && connection.writable then Ok(()) else Err(WriteResponseFailed)
  {
    var encoded := EncodeHttpResponse(response);
    if encoded.Err? {
      return Err(encoded.error);
    }
    var written := connection.WriteAll(encoded.value);
    r := if written.Ok? then Ok(()) else Err(WriteResponseFailed);
  }
}
