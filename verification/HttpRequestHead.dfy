/** The header fold of the request reader: which header lists it accepts and the body length it picks. */
module HttpRequestHead {
  import opened Wrappers
  import opened HttpText
  import opened HttpTextTheorems

  datatype HttpErrorKind =
    | Transport
    | MalformedRequest
    | RequestTooLarge
    | UnsupportedVersion
    | UnsupportedTransferEncoding
    | IncompleteRequest
    | InvalidResponse
    | WriteResponseFailed

  datatype HttpVersion = Http10 | Http11

  datatype HttpHeader = HttpHeader(name: Text, value: Text)

  /** A header as the head parser reports it: the value is not yet known to be UTF-8. */
  datatype RawHeader = RawHeader(name: Text, value: seq<Byte>)

  datatype Head = Head(
    requestMethod: Option<Text>,
    target: Option<Text>,
    version: Option<nat>,
    headers: seq<RawHeader>)

  /** The accumulator of the loop: headers kept so far and the length declared so far. */
  datatype Folded = Folded(headers: seq<HttpHeader>, contentLength: Option<nat>)

  predicate NamesOtherEncoding(value: Text) {
    exists part :: part in Split(value, COMMA) && Trim(part) != [] && !SameName(Trim(part), IDENTITY)
  }

  function DeclaredLength(h: RawHeader): Option<nat> {
    ParseUsize(Trim(h.value))
  }

  /** One round of the loop, check by check. */
  function FoldHeader(acc: Folded, h: RawHeader): Result<Folded, HttpErrorKind> {
    if h.name == [] then Ok(acc)
    else if !ValidUtf8(h.value) then Err(MalformedRequest)
    else if IsContentLength(h.name) && DeclaredLength(h).None? then Err(MalformedRequest)
    else if IsContentLength(h.name) && acc.contentLength.Some? && acc.contentLength != DeclaredLength(h)
    then Err(MalformedRequest)
    else if IsTransferEncoding(h.name) && NamesOtherEncoding(h.value) then Err(UnsupportedTransferEncoding)
    else Ok(Folded(acc.headers + [HttpHeader(h.name, h.value)],
                   if IsContentLength(h.name) then DeclaredLength(h) else acc.contentLength))
  }

  function Fold(hs: seq<RawHeader>): Result<Folded, HttpErrorKind> {
    if hs == [] then Ok(Folded([], None))
    else
      match Fold(hs[..|hs| - 1])
      case Err(kind) => Err(kind)
      case Ok(acc) => FoldHeader(acc, hs[|hs| - 1])
  }

  lemma {:induction false} FoldErrorSticks(hs: seq<RawHeader>, n: nat)
    requires n <= |hs| && Fold(hs[..n]).Err?
    ensures Fold(hs) == Fold(hs[..n])
    decreases |hs| - n
  {
    if n == |hs| {
      assert hs[..n] == hs;
    } else {
      assert hs[..n + 1][..n] == hs[..n];
      FoldErrorSticks(hs, n + 1);
    }
  }

  /** The loop over the parsed headers. */
  method FoldHeaders(parsed: seq<RawHeader>) returns (r: Result<Folded, HttpErrorKind>)
    ensures r == Fold(parsed)
  {
    var headers: seq<HttpHeader> := [];
    var contentLength: Option<nat> := None;
    for i := 0 to |parsed|
      invariant Fold(parsed[..i]) == Ok(Folded(headers, contentLength))
    {
      var header := parsed[i];
      assert parsed[..i + 1][..i] == parsed[..i];
      if header.name == [] {
        continue;
      }
      if !ValidUtf8(header.value) {
        FoldErrorSticks(parsed, i + 1);
        return Err(MalformedRequest);
      }
      var value := header.value;
      if IsContentLength(header.name) {
        var length := ParseUsize(Trim(value));
        if length.None? {
          FoldErrorSticks(parsed, i + 1);
          return Err(MalformedRequest);
        }
        if contentLength.Some? && contentLength.value != length.value {
          FoldErrorSticks(parsed, i + 1);
          return Err(MalformedRequest);
        }
        contentLength := length;
      }
      if IsTransferEncoding(header.name) && NamesOtherEncoding(value) {
        FoldErrorSticks(parsed, i + 1);
        return Err(UnsupportedTransferEncoding);
      }
      headers := headers + [HttpHeader(header.name, value)];
    }
    assert parsed[..|parsed|] == parsed;
    r := Ok(Folded(headers, contentLength));
  }

  // ---------- the declarative rule ----------

  predicate Counts(h: RawHeader) {
    h.name != []
  }

  predicate DeclaresLength(h: RawHeader) {
    Counts(h) && IsContentLength(h.name)
  }

  predicate AcceptableAlone(h: RawHeader) {
    Counts(h) ==>
      && ValidUtf8(h.value)
      && (IsContentLength(h.name) ==> DeclaredLength(h).Some?)
      && (IsTransferEncoding(h.name) ==> !NamesOtherEncoding(h.value))
  }

  /** Every header is acceptable by itself and all declared lengths agree. */
  ghost predicate Acceptable(hs: seq<RawHeader>) {
    && (forall h :: h in hs ==> AcceptableAlone(h))
    && (forall h, k :: h in hs && k in hs && DeclaresLength(h) && DeclaresLength(k) ==>
          DeclaredLength(h) == DeclaredLength(k))
  }

  /** `length` is the one the list declares, or none is declared. */
  ghost predicate IsLengthOf(hs: seq<RawHeader>, length: Option<nat>) {
    && (forall h :: h in hs && DeclaresLength(h) ==> length == DeclaredLength(h))
    && (length.Some? ==> exists h :: h in hs && DeclaresLength(h))
  }

  /** A Content-Length value: a number, white space around it. */
  ghost predicate StatesLength(value: Text, n: nat) {
    exists pre, post, t ::
      Blank(pre) && Blank(post) && value == Blanks(pre) + t + Blanks(post) && Spells(t, n)
  }

  lemma SpelledIsClean(t: Text, n: nat)
    requires Spells(t, n)
    ensures Clean(t)
  {
    var signed: bool, z: nat :| t == Sign(signed) + Zeros(z) + Decimal(n);
    var digits := Decimal(n);
    SolidEnds(Sign(signed) + Zeros(z), digits);
    NoSpaceIsClean(t);
  }

  /** A text of digits, possibly behind a sign and zeros, neither starts nor ends with white space. */
  lemma SolidEnds(front: Text, digits: Text)
    requires digits != [] && AllDigits(digits)
    requires forall i :: 0 <= i < |front| ==> front[i] == PLUS || front[i] == ZERO
    ensures SpaceAtStart(front + digits) == 0 && SpaceAtEnd(front + digits) == 0
  {
    var t := front + digits;
    assert t[|t| - 1] == digits[|digits| - 1];
    assert t[0] == if front == [] then digits[0] else front[0];
  }

  /** A header declares the length its value states, if that fits a machine word, and no other. */
  lemma DeclaredLengthExactly(h: RawHeader, n: nat)
    ensures DeclaredLength(h) == Some(n) <==> n < USIZE_LIMIT && StatesLength(h.value, n)
  {
    var t := Trim(h.value);
    if DeclaredLength(h) == Some(n) {
      ParsesExactly(t, n);
      TrimExactly(h.value, t);
    }
    if n < USIZE_LIMIT && StatesLength(h.value, n) {
      var pre, post, u :|
        Blank(pre) && Blank(post) && h.value == Blanks(pre) + u + Blanks(post) && Spells(u, n);
      SpelledIsClean(u, n);
      TrimExactly(h.value, u);
      ParsesExactly(u, n);
    }
  }

  /** Nothing but white space. */
  ghost predicate IsBlankText(s: Text) {
    exists cs :: Blank(cs) && s == Blanks(cs)
  }

  /** `name`, in any case, with white space around it. */
  ghost predicate IsPadded(s: Text, name: Text) {
    exists pre, post, t :: Blank(pre) && Blank(post) && s == Blanks(pre) + t + Blanks(post) && SameName(t, name)
  }

  lemma LettersAreClean(t: Text)
    requires SameName(t, IDENTITY)
    ensures Clean(t)
  {
    assert LowerByte(t[0]) == IDENTITY[0] && LowerByte(t[7]) == IDENTITY[7];
    NoSpaceIsClean(t);
  }

  lemma EmptyIsClean()
    ensures Clean([])
  {
    NoSpaceIsClean([]);
  }

  lemma PassedOverIsPlain(part: Text)
    requires Trim(part) == [] || SameName(Trim(part), IDENTITY)
    ensures IsBlankText(part) || IsPadded(part, IDENTITY)
  {
    TrimExactly(part, Trim(part));
    var pre, post :| Blank(pre) && Blank(post) && part == Blanks(pre) + Trim(part) + Blanks(post);
    if Trim(part) == [] {
      BlankPart(part, pre, post);
    }
  }

  lemma BlankIsPassedOver(part: Text)
    requires IsBlankText(part)
    ensures Trim(part) == []
  {
    var cs :| Blank(cs) && part == Blanks(cs);
    EmptyIsClean();
    assert part == Blanks(cs) + [] + Blanks([]);
    TrimExactly(part, []);
  }

  lemma PaddedIsPassedOver(part: Text)
    requires IsPadded(part, IDENTITY)
    ensures SameName(Trim(part), IDENTITY)
  {
    var a, b, t :| Blank(a) && Blank(b) && part == Blanks(a) + t + Blanks(b) && SameName(t, IDENTITY);
    LettersAreClean(t);
    TrimExactly(part, t);
  }

  /** One part of a Transfer-Encoding list that the reader passes over. */
  lemma PassedOverExactly(part: Text)
    ensures Trim(part) == [] || SameName(Trim(part), IDENTITY) <==> IsBlankText(part) || IsPadded(part, IDENTITY)
  {
    if Trim(part) == [] || SameName(Trim(part), IDENTITY) {
      PassedOverIsPlain(part);
    }
    if IsBlankText(part) {
      BlankIsPassedOver(part);
    }
    if IsPadded(part, IDENTITY) {
      PaddedIsPassedOver(part);
    }
  }

  lemma BlankPart(part: Text, pre: seq<nat>, post: seq<nat>)
    requires Blank(pre) && Blank(post) && part == Blanks(pre) + [] + Blanks(post)
    ensures IsBlankText(part)
  {
    BlankIsScalar(pre);
    BlankIsScalar(post);
    BlankIsScalar(pre + post);
    EncodedConcat(pre, post);
    assert Blank(pre + post) && part == Blanks(pre + post);
  }

  /**
   A comma-separated list names another coding if and only if some part is neither blank nor
   `identity`, in any case and with white space around it.
   */
  lemma OtherEncodingExactly(parts: seq<Text>)
    requires parts != [] && Free(parts, COMMA)
    ensures NamesOtherEncoding(Joined(parts, COMMA))
            <==> exists part :: part in parts && !IsBlankText(part) && !IsPadded(part, IDENTITY)
  {
    SplitOfJoined(parts, COMMA);
    forall part | part in parts
      ensures Trim(part) == [] || SameName(Trim(part), IDENTITY) <==> IsBlankText(part) || IsPadded(part, IDENTITY)
    {
      PassedOverExactly(part);
    }
  }

  function Kept(hs: seq<RawHeader>): seq<HttpHeader> {
    if hs == [] then []
    else
      var h := hs[|hs| - 1];
      Kept(hs[..|hs| - 1]) + if Counts(h) then [HttpHeader(h.name, h.value)] else []
  }

  /** One more header keeps a list acceptable when it is acceptable alone and agrees on the length. */
  lemma AcceptsLast(front: seq<RawHeader>, last: RawHeader, length: Option<nat>)
    requires Acceptable(front) && IsLengthOf(front, length)
    ensures Acceptable(front + [last]) <==>
              AcceptableAlone(last) && (DeclaresLength(last) && length.Some? ==> length == DeclaredLength(last))
    ensures IsLengthOf(front + [last], if DeclaresLength(last) then DeclaredLength(last) else length)
              <== Acceptable(front + [last])
  {
    if Acceptable(front + [last]) {
      LastMustFit(front, last, length);
    }
    if AcceptableAlone(last) && (DeclaresLength(last) && length.Some? ==> length == DeclaredLength(last)) {
      LastFits(front, last, length);
    }
  }

  lemma LastMustFit(front: seq<RawHeader>, last: RawHeader, length: Option<nat>)
    requires IsLengthOf(front, length) && Acceptable(front + [last])
    ensures AcceptableAlone(last) && (DeclaresLength(last) && length.Some? ==> length == DeclaredLength(last))
  {
    var hs := front + [last];
    assert hs[|front|] == last;
    if length.Some? {
      var h :| h in front && DeclaresLength(h);
      assert h in hs && length == DeclaredLength(h);
    }
  }

  lemma LastFits(front: seq<RawHeader>, last: RawHeader, length: Option<nat>)
    requires Acceptable(front) && IsLengthOf(front, length)
    requires AcceptableAlone(last) && (DeclaresLength(last) && length.Some? ==> length == DeclaredLength(last))
    ensures Acceptable(front + [last])
    ensures IsLengthOf(front + [last], if DeclaresLength(last) then DeclaredLength(last) else length)
  {
    var hs, declared := front + [last], if DeclaresLength(last) then DeclaredLength(last) else length;
    assert hs[|front|] == last && forall h :: h in hs ==> h in front || h == last;
    forall h | h in hs
      ensures AcceptableAlone(h) && (DeclaresLength(h) ==> declared == DeclaredLength(h))
    {
      assert h in front || h == last;
    }
    if length.Some? {
      var h :| h in front && DeclaresLength(h);
      assert h in hs;
    }
  }

  /** The fold accepts exactly the acceptable lists, keeps their named headers in order and picks their length. */
  lemma {:induction false} FoldAcceptsExactly(hs: seq<RawHeader>)
    ensures Fold(hs).Ok? <==> Acceptable(hs)
    ensures Fold(hs).Ok? ==> Fold(hs).value.headers == Kept(hs) && IsLengthOf(hs, Fold(hs).value.contentLength)
    ensures Fold(hs).Err? ==> Fold(hs).error in {MalformedRequest, UnsupportedTransferEncoding}
  {
    if hs != [] {
      var front, last := hs[..|hs| - 1], hs[|hs| - 1];
      assert hs == front + [last];
      FoldAcceptsExactly(front);
      assert forall h :: h in hs <==> h in front || h == last;
      assert Acceptable(hs) ==> Acceptable(front);
      if Fold(front).Ok? {
        AcceptsLast(front, last, Fold(front).value.contentLength);
      }
    }
  }

  /** Neither acceptance nor the body length depends on the order of the headers. */
  lemma HeaderOrderIsIrrelevant(hs: seq<RawHeader>, ks: seq<RawHeader>)
    requires multiset(hs) == multiset(ks)
    ensures Fold(hs).Ok? <==> Fold(ks).Ok?
    ensures Fold(hs).Ok? ==> Fold(hs).value.contentLength == Fold(ks).value.contentLength
  {
    FoldAcceptsExactly(hs);
    FoldAcceptsExactly(ks);
    assert forall h :: h in hs <==> h in multiset(hs);
    assert forall h :: h in ks <==> h in multiset(ks);
  }

  // ---------- the whole head ----------

  datatype Opening = Opening(
    requestMethod: Text,
    target: Text,
    version: HttpVersion,
    headers: seq<HttpHeader>,
    contentLength: nat)

  function VersionFrom(version: nat): Result<HttpVersion, HttpErrorKind> {
    if version == 0 then Ok(Http10) else if version == 1 then Ok(Http11) else Err(UnsupportedVersion)
  }

  /** What the reader makes of a completely parsed head. */
  function Open(head: Head): Result<Opening, HttpErrorKind> {
    if head.requestMethod.None? || head.target.None? || head.version.None? then Err(MalformedRequest)
    else
      match VersionFrom(head.version.value)
      case Err(kind) => Err(kind)
      case Ok(version) =>
        match Fold(head.headers)
        case Err(kind) => Err(kind)
        case Ok(folded) =>
          Ok(Opening(head.requestMethod.value, head.target.value, version, folded.headers,
                     if folded.contentLength.Some? then folded.contentLength.value else 0))
  }

  method OpenRequest(head: Head) returns (r: Result<Opening, HttpErrorKind>)
    ensures r == Open(head)
  {
    if head.requestMethod.None? || head.target.None? || head.version.None? {
      return Err(MalformedRequest);
    }
    var version := VersionFrom(head.version.value);
    if version.Err? {
      return Err(version.error);
    }
    var folded := FoldHeaders(head.headers);
    if folded.Err? {
      return Err(folded.error);
    }
    var length := if folded.value.contentLength.Some? then folded.value.contentLength.value else 0;
    r := Ok(Opening(head.requestMethod.value, head.target.value, version.value, folded.value.headers, length));
  }
}
