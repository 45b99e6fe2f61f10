/** The incremental, bounded request reader, and the one-shot decoding it is equal to. */
module HttpRequestReader {
  import opened Wrappers
  import opened HttpText
  import opened HttpTextTheorems
  import opened HttpRequestHead
  import opened TcpConnections

  datatype HttpRequest = HttpRequest(
    requestMethod: Text,
    target: Text,
    version: HttpVersion,
    headers: seq<HttpHeader>,
    body: seq<Byte>)

  /** The verdict of the head parser on a buffer; `length` is where the head ends. */
  datatype Verdict = Complete(length: nat, head: Head) | Partial | Malformed

  type HeadParser = seq<Byte> -> Verdict

  function Judge(parse: HeadParser, buffer: seq<Byte>): Verdict {
    parse(buffer)
  }

  predicate Extends(s: seq<Byte>, t: seq<Byte>) {
    s <= t
  }

  /** A complete or malformed verdict stays when bytes are appended; a head lies within its buffer. */
  ghost predicate Incremental(parse: HeadParser) {
    && (forall s :: Judge(parse, s).Complete? ==> Judge(parse, s).length <= |s|)
    && (forall s, t {:trigger Extends(s, t)} :: Extends(s, t) && Judge(parse, s).Complete? ==>
          Judge(parse, t) == Judge(parse, s))
    && (forall s, t {:trigger Extends(s, t)} :: Extends(s, t) && Judge(parse, s).Malformed? ==>
          Judge(parse, t).Malformed?)
  }

  /** A buffer that does not yet hold the whole head is partial. */
  lemma ShorterPrefixIsPartial(parse: HeadParser, s: seq<Byte>, n: nat)
    requires Incremental(parse) && Judge(parse, s).Complete? && n < Judge(parse, s).length
    ensures n <= |s| && Judge(parse, s[..n]).Partial?
  {
    assert Extends(s[..n], s);
  }

  function Least(a: nat, b: nat): nat {
    if a <= b then a else b
  }

  /** After the calls in `before`, every call asks for what is left of `limit`, in pieces of at most `piece`. */
  predicate AsksFor(before: seq<Request>, after: seq<Request>, limit: nat, piece: nat) {
    && before <= after
    && forall i :: |before| <= i < |after| ==>
         after[i].at < limit && after[i].size == Least(limit - after[i].at, piece)
  }

  function Window(stream: seq<Byte>, maxHead: nat): seq<Byte> {
    stream[..Least(|stream|, maxHead)]
  }

  function EndError(ending: Ending): HttpErrorKind {
    if ending == Eof then IncompleteRequest else Transport
  }

  /** What a head and the bytes around it amount to. */
  function DecodeBody(opening: Opening, length: nat, stream: seq<Byte>, ending: Ending, maxBody: nat)
    : Result<HttpRequest, HttpErrorKind>
  {
    var needed := length + opening.contentLength;
    if opening.contentLength > maxBody then Err(RequestTooLarge)
    else if |stream| < needed then Err(EndError(ending))
    else Ok(HttpRequest(opening.requestMethod, opening.target, opening.version, opening.headers,
                        stream[length..needed]))
  }

  /** Decoding the whole stream at once, with the head confined to its first `maxHead` bytes. */
  function Decode(parse: HeadParser, stream: seq<Byte>, ending: Ending, maxHead: nat, maxBody: nat)
    : Result<HttpRequest, HttpErrorKind>
  {
    match Judge(parse, Window(stream, maxHead))
    case Malformed => Err(MalformedRequest)
    case Partial => Err(if |stream| >= maxHead then RequestTooLarge else EndError(ending))
    case Complete(length, head) =>
      match Open(head)
      case Err(kind) => Err(kind)
      case Ok(opening) => DecodeBody(opening, length, stream, ending, maxBody)
  }

  /** The head is found, malformed, too large or cut off as a look at the whole window tells. */
  ghost predicate HeadOutcome(parse: HeadParser, stream: seq<Byte>, ending: Ending, maxHead: nat,
                              r: Result<(seq<Byte>, nat), HttpErrorKind>)
  {
    var verdict := Judge(parse, Window(stream, maxHead));
    if verdict.Malformed? then r == Err(MalformedRequest)
    else if verdict.Partial? then r == Err(if |stream| >= maxHead then RequestTooLarge else EndError(ending))
    else r.Ok? && r.value.1 == verdict.length && Judge(parse, r.value.0) == verdict
  }

  /** When the first loop may stop after `n` bytes, and with what. */
  lemma HeadDecided(parse: HeadParser, stream: seq<Byte>, n: nat, ending: Ending, maxHead: nat)
    requires Incremental(parse) && n <= maxHead && n <= |stream|
    ensures var verdict := Judge(parse, stream[..n]);
      && (verdict.Malformed? ==> HeadOutcome(parse, stream, ending, maxHead, Err(MalformedRequest)))
      && (verdict.Complete? ==>
            HeadOutcome(parse, stream, ending, maxHead, Ok((stream[..n], verdict.length))))
      && (verdict.Partial? && n == maxHead ==>
            HeadOutcome(parse, stream, ending, maxHead, Err(RequestTooLarge)))
      && (verdict.Partial? && n < maxHead && n == |stream| ==>
            HeadOutcome(parse, stream, ending, maxHead, Err(EndError(ending))))
  {
    assert Extends(stream[..n], Window(stream, maxHead));
  }

  /** One read of the loops: some bytes, or the error the end of the stream stands for. */
  method ReadMore(connection: TcpConnection, limit: nat) returns (r: Result<seq<Byte>, HttpErrorKind>)
    requires connection.Valid() && 1 <= limit
    modifies connection`position, connection`requests
    ensures connection.Valid()
    ensures old(connection.position) <= connection.position <= old(connection.position) + limit
    ensures connection.position <= connection.Limit() == old(connection.Limit())
    ensures r.Ok? ==>
              && old(connection.position) < connection.position
              && r.value == connection.incoming[old(connection.position)..connection.position]
    ensures r.Err? ==>
              && connection.position == old(connection.position) == old(connection.Limit())
              && r.error == EndError(connection.End())
    ensures connection.requests == old(connection.requests) + [Request(old(connection.position), limit)]
  {
    var bytes := connection.ReadSome(limit);
    if bytes.Err? {
      return Err(Transport);
    }
    if |bytes.value| == 0 {
      return Err(IncompleteRequest);
    }
    r := Ok(bytes.value);
  }

  /** The first loop: read until the parser has a verdict other than partial. */
  method ReadHead(parse: HeadParser, connection: TcpConnection, maxHead: nat)
    returns (r: Result<(seq<Byte>, nat), HttpErrorKind>)
    requires Incremental(parse) && connection.Valid()
    modifies connection`position, connection`requests
    ensures connection.Valid()
    ensures old(connection.position) <= connection.position <= old(connection.position) + maxHead
    ensures connection.position <= connection.Limit() == old(connection.Limit())
    ensures r.Ok? ==> r.value.0 == connection.incoming[old(connection.position)..connection.position]
    ensures HeadOutcome(parse, old(connection.Readable()), connection.End(), maxHead, r)
    ensures AsksFor(old(connection.requests), connection.requests, old(connection.position) + maxHead, 1024)
  {
    ghost var start, stream := connection.position, connection.Readable();
    var buffer: seq<Byte> := [];
    var verdict := Judge(parse, buffer);
    while verdict.Partial?
      invariant connection.position == start + |buffer| && |buffer| <= |stream|
      invariant connection.Limit() == old(connection.Limit())
      invariant buffer == stream[..|buffer|] == connection.incoming[start..connection.position]
      invariant |buffer| <= maxHead && verdict == Judge(parse, buffer)
      invariant AsksFor(old(connection.requests), connection.requests, start + maxHead, 1024)
      decreases maxHead - |buffer|
    {
      HeadDecided(parse, stream, |buffer|, connection.End(), maxHead);
      if |buffer| >= maxHead {
        return Err(RequestTooLarge);
      }
      var remaining := maxHead - |buffer|;
      var bytes := ReadMore(connection, Least(remaining, 1024));
      if bytes.Err? {
        return Err(bytes.error);
      }
      assert buffer + bytes.value == stream[..|buffer + bytes.value|];
      buffer := buffer + bytes.value;
      verdict := Judge(parse, buffer);
    }
    HeadDecided(parse, stream, |buffer|, connection.End(), maxHead);
    r := if verdict.Malformed? then Err(MalformedRequest) else Ok((buffer, verdict.length));
  }

  /** The second loop: extend the buffer to `needed` bytes, and never beyond. */
  method ReadBody(connection: TcpConnection, ghost start: nat, head: seq<Byte>, needed: nat)
    returns (r: Result<seq<Byte>, HttpErrorKind>)
    requires connection.Valid() && start <= connection.position
    requires head == connection.incoming[start..connection.position]
    modifies connection`position, connection`requests
    ensures connection.Valid()
    ensures old(connection.position) <= connection.position <= connection.Limit() == old(connection.Limit())
    ensures connection.position == old(connection.position) || connection.position <= start + needed
    ensures if old(connection.Limit()) - start < needed then r == Err(EndError(connection.End()))
            else r == Ok(connection.incoming[start..connection.position]) && start + needed <= connection.position
    ensures AsksFor(old(connection.requests), connection.requests, start + needed, 8192)
  {
    var buffer := head;
    while |buffer| < needed
      invariant old(connection.position) <= connection.position <= connection.Limit() == old(connection.Limit())
      invariant buffer == connection.incoming[start..connection.position]
      invariant connection.position == old(connection.position) || |buffer| <= needed
      invariant AsksFor(old(connection.requests), connection.requests, start + needed, 8192)
    {
      var remaining := needed - |buffer|;
      var bytes := ReadMore(connection, Least(remaining, 8192));
      if bytes.Err? {
        return Err(bytes.error);
      }
      buffer := buffer + bytes.value;
    }
    r := Ok(buffer);
  }

  /** Everything after the head: the bound on the body, the second loop and the result. */
  method ReadRest(connection: TcpConnection, ghost start: nat, head: seq<Byte>, headerLength: nat,
                  opening: Opening, maxBody: nat)
    returns (r: Result<HttpRequest, HttpErrorKind>)
    requires connection.Valid() && start <= connection.position && headerLength <= |head|
    requires head == connection.incoming[start..connection.position]
    modifies connection`position, connection`requests
    ensures connection.Valid() && connection.Limit() == old(connection.Limit())
    ensures r == DecodeBody(opening, headerLength, connection.incoming[start..connection.Limit()],
                            connection.End(), maxBody)
    ensures old(connection.position) <= connection.position
    ensures || connection.position == old(connection.position)
            || (connection.position <= start + headerLength + opening.contentLength
                && opening.contentLength <= maxBody)
    ensures r.Ok? && connection.position != old(connection.position) ==>
              connection.position - start == headerLength + |r.value.body|
    ensures AsksFor(old(connection.requests), connection.requests,
                    start + headerLength + opening.contentLength, 8192)
  {
    if opening.contentLength > maxBody {
      return Err(RequestTooLarge);
    }
    var needed := headerLength + opening.contentLength;
    var extended := ReadBody(connection, start, head, needed);
    if extended.Err? {
      return Err(extended.error);
    }
    ghost var stream := connection.incoming[start..connection.Limit()];
    assert extended.value == stream[..|extended.value|];
    var body := extended.value[headerLength..needed];
    assert body == stream[headerLength..needed];
    r := Ok(HttpRequest(opening.requestMethod, opening.target, opening.version, opening.headers, body));
  }

  /**
   Whatever sizes the single reads deliver, the result is the one-shot decoding of what the
   connection had to offer. The reads ask first for what is left of the head limit, in pieces of at
   most 1024 bytes, and then for what is left of the body, in pieces of at most 8192, and never for
   nothing; no more than `maxHead + maxBody` bytes are consumed, and none beyond the body.
   */
  method ReadHttpRequest(parse: HeadParser, connection: TcpConnection, maxHead: nat, maxBody: nat)
    returns (r: Result<HttpRequest, HttpErrorKind>, ghost headCalls: seq<Request>, ghost end: nat)
    requires Incremental(parse) && connection.Valid()
    modifies connection`position, connection`requests
    ensures connection.Valid()
    ensures r == Decode(parse, old(connection.Readable()), connection.End(), maxHead, maxBody)
    ensures old(connection.position) <= connection.position <= old(connection.position) + maxHead + maxBody
    ensures r.Ok? ==>
              var used := connection.position - old(connection.position);
              || used <= maxHead
              || used == Judge(parse, Window(old(connection.Readable()), maxHead)).length + |r.value.body|
    ensures AsksFor(old(connection.requests), headCalls, old(connection.position) + maxHead, 1024)
    ensures AsksFor(headCalls, connection.requests, end, 8192)
    ensures r.Ok? ==> end == old(connection.position)
                      + Judge(parse, Window(old(connection.Readable()), maxHead)).length + |r.value.body|
  {
    ghost var start := connection.position;
    var head := ReadHead(parse, connection, maxHead);
    headCalls, end := connection.requests, start;
    if head.Err? {
      r := Err(head.error);
      return;
    }
    var (buffer, headerLength) := head.value;
    var verdict := Judge(parse, buffer);
    assert verdict.Complete? && headerLength <= |buffer|;  // the second parse cannot be partial
    var reading := OpenRequest(verdict.head);
    if reading.Err? {
      r := Err(reading.error);
      return;
    }
    end := start + headerLength + reading.value.contentLength;
    r := ReadRest(connection, start, buffer, headerLength, reading.value, maxBody);
  }

  /** The declarative rule: when a stream holds an acceptable request. */
  ghost predicate HoldsRequest(parse: HeadParser, stream: seq<Byte>, maxHead: nat, maxBody: nat,
                               request: HttpRequest)
  {
    var verdict := Judge(parse, Window(stream, maxHead));
    && verdict.Complete?
    && verdict.head.requestMethod == Some(request.requestMethod)
    && verdict.head.target == Some(request.target)
    && verdict.head.version == Some(if request.version == Http10 then 0 else 1)
    && Acceptable(verdict.head.headers)
    && request.headers == Kept(verdict.head.headers)
    && |request.body| <= maxBody
    && IsBodyLength(verdict.head.headers, |request.body|)
    && verdict.length + |request.body| <= |stream|
    && request.body == stream[verdict.length..verdict.length + |request.body|]
  }

  /** The length every Content-Length declares, or 0 if there is none. */
  ghost predicate IsBodyLength(hs: seq<RawHeader>, n: nat) {
    IsLengthOf(hs, Some(n)) || (n == 0 && IsLengthOf(hs, None))
  }

  /**
   Decoding returns a request if and only if the stream holds it: a complete head within the limit
   with method, target and version 1.0 or 1.1, acceptable headers, and the declared number of body
   bytes, within the limit, right behind the head.
   */
  lemma DecodeAcceptsExactly(parse: HeadParser, stream: seq<Byte>, ending: Ending, maxHead: nat, maxBody: nat,
                             request: HttpRequest)
    requires Incremental(parse)
    ensures Decode(parse, stream, ending, maxHead, maxBody) == Ok(request)
            <==> HoldsRequest(parse, stream, maxHead, maxBody, request)
  {
    if Decode(parse, stream, ending, maxHead, maxBody) == Ok(request) {
      DecodedIsHeld(parse, stream, ending, maxHead, maxBody, request);
    }
    if HoldsRequest(parse, stream, maxHead, maxBody, request) {
      HeldIsDecoded(parse, stream, ending, maxHead, maxBody, request);
    }
  }

  lemma DecodedIsHeld(parse: HeadParser, stream: seq<Byte>, ending: Ending, maxHead: nat, maxBody: nat,
                      request: HttpRequest)
    requires Incremental(parse) && Decode(parse, stream, ending, maxHead, maxBody) == Ok(request)
    ensures HoldsRequest(parse, stream, maxHead, maxBody, request)
  {
    var verdict := Judge(parse, Window(stream, maxHead));
    assert Open(verdict.head).Ok?;
    OpenAcceptsExactly(verdict.head);
    DecodedBody(Open(verdict.head).value, verdict.length, stream, ending, maxBody, request);
  }

  lemma DecodedBody(opening: Opening, length: nat, stream: seq<Byte>, ending: Ending, maxBody: nat,
                    request: HttpRequest)
    requires DecodeBody(opening, length, stream, ending, maxBody) == Ok(request)
    ensures request.requestMethod == opening.requestMethod && request.target == opening.target
    ensures request.version == opening.version && request.headers == opening.headers
    ensures |request.body| == opening.contentLength <= maxBody && length + |request.body| <= |stream|
    ensures request.body == stream[length..length + |request.body|]
  {
  }

  lemma HeldIsDecoded(parse: HeadParser, stream: seq<Byte>, ending: Ending, maxHead: nat, maxBody: nat,
                      request: HttpRequest)
    requires HoldsRequest(parse, stream, maxHead, maxBody, request)
    ensures Decode(parse, stream, ending, maxHead, maxBody) == Ok(request)
  {
    var verdict := Judge(parse, Window(stream, maxHead));
    OpenAcceptsExactly(verdict.head);
    var opening := Open(verdict.head).value;
    OneBodyLength(verdict.head.headers, |request.body|, opening.contentLength);
    assert opening.version == request.version;
  }

  lemma OneBodyLength(hs: seq<RawHeader>, m: nat, n: nat)
    requires IsBodyLength(hs, m) && IsBodyLength(hs, n)
    ensures m == n
  {
  }

  /**
   A decoded request has as many body bytes as each of its Content-Length headers states, in
   decimal, and none if it has no such header.
   */
  lemma BodyHasStatedLength(parse: HeadParser, stream: seq<Byte>, ending: Ending, maxHead: nat, maxBody: nat,
                            request: HttpRequest, h: RawHeader, n: nat)
    requires Incremental(parse) && Decode(parse, stream, ending, maxHead, maxBody) == Ok(request)
    requires h in Judge(parse, Window(stream, maxHead)).head.headers && IsContentLength(h.name)
    ensures StatesLength(h.value, n) && n < USIZE_LIMIT ==> |request.body| == n
    ensures StatesLength(h.value, |request.body|)
  {
    DecodedIsHeld(parse, stream, ending, maxHead, maxBody, request);
    var hs := Judge(parse, Window(stream, maxHead)).head.headers;
    assert DeclaresLength(h) && AcceptableAlone(h);
    DeclaredIsBody(hs, h, |request.body|);
    DeclaredLengthExactly(h, |request.body|);
    DeclaredLengthExactly(h, n);
  }

  lemma DeclaredIsBody(hs: seq<RawHeader>, h: RawHeader, n: nat)
    requires IsBodyLength(hs, n) && h in hs && DeclaresLength(h) && DeclaredLength(h).Some?
    ensures DeclaredLength(h) == Some(n)
  {
  }

  lemma NoLengthNoBody(parse: HeadParser, stream: seq<Byte>, ending: Ending, maxHead: nat, maxBody: nat,
                       request: HttpRequest)
    requires Incremental(parse) && Decode(parse, stream, ending, maxHead, maxBody) == Ok(request)
    requires forall h :: h in Judge(parse, Window(stream, maxHead)).head.headers ==> !IsContentLength(h.name)
    ensures request.body == []
  {
    DecodedIsHeld(parse, stream, ending, maxHead, maxBody, request);
  }

  lemma OpenAcceptsExactly(head: Head)
    ensures Open(head).Ok? <==>
              && head.requestMethod.Some? && head.target.Some?
              && head.version.Some? && head.version.value <= 1
              && Acceptable(head.headers)
    ensures Open(head) == Err(UnsupportedVersion) <==>
              head.requestMethod.Some? && head.target.Some? && head.version.Some? && head.version.value > 1
    ensures Open(head).Ok? ==>
              var opening := Open(head).value;
              && head.requestMethod == Some(opening.requestMethod)
              && head.target == Some(opening.target)
              && head.version == Some(if opening.version == Http10 then 0 else 1)
              && opening.headers == Kept(head.headers)
              && IsBodyLength(head.headers, opening.contentLength)
  {
    FoldAcceptsExactly(head.headers);
  }

  /** A decoded request does not depend on what follows it or on how the stream ends. */
  lemma LaterBytesAreIgnored(parse: HeadParser, stream: seq<Byte>, more: seq<Byte>,
                             ending: Ending, otherEnding: Ending, maxHead: nat, maxBody: nat)
    requires Incremental(parse)
    requires Decode(parse, stream, ending, maxHead, maxBody).Ok?
    ensures Decode(parse, stream + more, otherEnding, maxHead, maxBody)
         == Decode(parse, stream, ending, maxHead, maxBody)
  {
    var window := Window(stream, maxHead);
    assert Extends(window, Window(stream + more, maxHead));
    var length := Judge(parse, window).length;
    var opening := Open(Judge(parse, window).head).value;
    assert (stream + more)[length..length + opening.contentLength]
        == stream[length..length + opening.contentLength];
  }

  // ---------- a head parser that meets the assumptions ----------

  /** The assumptions on the head parser can be met. */
  lemma ScanHeadIsIncremental()
    ensures exists parse: HeadParser :: Incremental(parse)
  {
    var parse := (s: seq<Byte>) =>
      if s != [] && s[0] <= SP then Malformed
      else
        match BlankLineEnd(s)
        case None => Partial
        case Some(n) => Complete(n, Head(Some([]), Some([]), Some(1), []));
    forall s, t | Extends(s, t) && parse(s).Complete?
      ensures parse(s).length <= |s| && parse(t) == parse(s)
    {
      BlankLineEndIsStable(s, t);
    }
    forall s | parse(s).Complete?
      ensures parse(s).length <= |s|
    {
      BlankLineEndIsStable(s, s);
    }
    assert Incremental(parse);
  }
}
