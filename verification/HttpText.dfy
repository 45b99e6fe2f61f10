/** Bytes, Rust strings as UTF-8 byte sequences, and the text operations of the HTTP codec. */
module HttpText {
  import opened Wrappers

  type Byte = n: nat | n < 256 witness 0

  /** A Rust `String`: its UTF-8 bytes. */
  type Text = seq<Byte>

  const TAB: Byte := 9
  const LF: Byte := 10
  const CR: Byte := 13
  const SP: Byte := 32
  const PLUS: Byte := 43
  const COMMA: Byte := 44
  const ZERO: Byte := 48
  const COLON: Byte := 58
  const SEMICOLON: Byte := 59
  const QUOTE: Byte := 34
  const BACKSLASH: Byte := 92

  const CRLF: Text := [CR, LF]
  const USIZE_LIMIT: nat := 0x1_0000_0000_0000_0000

  // "content-length", "transfer-encoding", "connection", "identity", "close", "chunked"
  const CONTENT_LENGTH: Text := [99, 111, 110, 116, 101, 110, 116, 45, 108, 101, 110, 103, 116, 104]
  const TRANSFER_ENCODING: Text :=
    [116, 114, 97, 110, 115, 102, 101, 114, 45, 101, 110, 99, 111, 100, 105, 110, 103]
  const CONNECTION: Text := [99, 111, 110, 110, 101, 99, 116, 105, 111, 110]
  const IDENTITY: Text := [105, 100, 101, 110, 116, 105, 116, 121]
  const CLOSE: Text := [99, 108, 111, 115, 101]
  const CHUNKED: Text := [99, 104, 117, 110, 107, 101, 100]

  function LowerByte(b: Byte): Byte {
    if 65 <= b <= 90 then b + 32 else b
  }

  /** `eq_ignore_ascii_case`. */
  predicate SameName(a: Text, b: Text) {
    |a| == |b| && forall i :: 0 <= i < |a| ==> LowerByte(a[i]) == LowerByte(b[i])
  }

  predicate IsContentLength(name: Text) { SameName(name, CONTENT_LENGTH) }

  predicate IsTransferEncoding(name: Text) { SameName(name, TRANSFER_ENCODING) }

  predicate IsConnection(name: Text) { SameName(name, CONNECTION) }

  // ---------- decimal numbers ----------

  predicate AllDigits(s: Text) {
    forall i :: 0 <= i < |s| ==> ZERO <= s[i] <= ZERO + 9
  }

  function DigitsValue(s: Text): nat
    requires AllDigits(s)
  {
    if s == [] then 0 else DigitsValue(s[..|s| - 1]) * 10 + (s[|s| - 1] - ZERO)
  }

  /** Rust's `Display` of an unsigned integer. */
  function Decimal(n: nat): (s: Text)
    ensures s != [] && AllDigits(s)
    ensures DigitsValue(s) == n
  {
    if n < 10 then [ZERO + n]
    else
      var front := Decimal(n / 10);
      var s := front + [ZERO + n % 10];
      assert s[..|s| - 1] == front;
      s
  }

  /** Rust's `parse::<usize>`: an optional plus sign, at least one digit, no overflow. */
  function ParseUsize(s: Text): Option<nat> {
    var digits := if s != [] && s[0] == PLUS then s[1..] else s;
    if digits != [] && AllDigits(digits) && DigitsValue(digits) < USIZE_LIMIT
    then Some(DigitsValue(digits)) else None
  }

  // ---------- trimming ----------

  /** Length of the white space character a UTF-8 string starts with, or 0. */
  function SpaceAtStart(s: Text): (n: nat)
    ensures n <= |s|
  {
    if |s| >= 1 && (TAB <= s[0] <= CR || s[0] == SP) then 1
    else if |s| >= 2 && s[0] == 0xC2 && (s[1] == 0x85 || s[1] == 0xA0) then 2
    else if |s| >= 3 && IsWideSpace(s[0], s[1], s[2]) then 3
    else 0
  }

  function SpaceAtEnd(s: Text): (n: nat)
    ensures n <= |s|
  {
    var k := |s|;
    if k >= 1 && (TAB <= s[k - 1] <= CR || s[k - 1] == SP) then 1
    else if k >= 2 && s[k - 2] == 0xC2 && (s[k - 1] == 0x85 || s[k - 1] == 0xA0) then 2
    else if k >= 3 && IsWideSpace(s[k - 3], s[k - 2], s[k - 1]) then 3
    else 0
  }

  /** U+1680, U+2000 to U+200A, U+2028, U+2029, U+202F, U+205F and U+3000. */
  predicate IsWideSpace(a: Byte, b: Byte, c: Byte) {
    || (a == 0xE1 && b == 0x9A && c == 0x80)
    || (a == 0xE2 && b == 0x80 && (0x80 <= c <= 0x8A || c == 0xA8 || c == 0xA9 || c == 0xAF))
    || (a == 0xE2 && b == 0x81 && c == 0x9F)
    || (a == 0xE3 && b == 0x80 && c == 0x80)
  }

  function TrimStart(s: Text): Text
    decreases |s|
  {
    var n := SpaceAtStart(s);
    if n == 0 then s else TrimStart(s[n..])
  }

  function TrimEnd(s: Text): Text
    decreases |s|
  {
    var n := SpaceAtEnd(s);
    if n == 0 then s else TrimEnd(s[..|s| - n])
  }

  /** Rust's `str::trim`. */
  function Trim(s: Text): Text {
    TrimEnd(TrimStart(s))
  }

  // ---------- UTF-8 ----------

  predicate Continues(s: Text, from: nat, count: nat) {
    from + count <= |s| && forall i :: from <= i < from + count ==> 0x80 <= s[i] <= 0xBF
  }

  /** Length of the well-formed UTF-8 sequence `s` starts with, or 0 (RFC 3629, section 4). */
  function CharLength(s: Text): (n: nat)
    requires s != []
    ensures n <= |s|
  {
    if s[0] <= 0x7F then 1
    else if 0xC2 <= s[0] <= 0xDF && Continues(s, 1, 1) then 2
    else if 0xE0 <= s[0] <= 0xEF && Continues(s, 1, 2)
      && (s[0] == 0xE0 ==> s[1] >= 0xA0) && (s[0] == 0xED ==> s[1] <= 0x9F) then 3
    else if 0xF0 <= s[0] <= 0xF4 && Continues(s, 1, 3)
      && (s[0] == 0xF0 ==> s[1] >= 0x90) && (s[0] == 0xF4 ==> s[1] <= 0x8F) then 4
    else 0
  }

  /** `std::str::from_utf8` succeeds. */
  predicate ValidUtf8(s: Text)
    decreases |s|
  {
    s == [] || (CharLength(s) > 0 && ValidUtf8(s[CharLength(s)..]))
  }

  // ---------- splitting ----------

  /** The text before the first `separator`, or all of it. */
  function Before(s: Text, separator: Byte): (r: Text)
    ensures |r| <= |s| && r == s[..|r|] && separator !in r
    ensures |r| < |s| ==> s[|r|] == separator
  {
    if s == [] || s[0] == separator then [] else [s[0]] + Before(s[1..], separator)
  }

  /** Rust's `split`. */
  function Split(s: Text, separator: Byte): seq<Text>
    decreases |s|
  {
    var first := Before(s, separator);
    if |first| == |s| then [first] else [first] + Split(s[|first| + 1..], separator)
  }

  lemma {:induction false} BeforeSeparator(s: Text, separator: Byte, rest: Text)
    requires separator !in s
    ensures Before(s + [separator] + rest, separator) == s
  {
    if s != [] {
      assert (s + [separator] + rest)[1..] == s[1..] + [separator] + rest;
      BeforeSeparator(s[1..], separator, rest);
    }
  }

  // ---------- lines ----------

  /** The end of the first blank line, if there is one. */
  function BlankLineEnd(s: seq<Byte>): Option<nat> {
    if |s| < 4 then None
    else if s[0] == CR && s[1] == LF && s[2] == CR && s[3] == LF then Some(4)
    else
      match BlankLineEnd(s[1..])
      case None => None
      case Some(n) => Some(n + 1)
  }

  lemma {:induction false} BlankLineEndIsStable(s: seq<Byte>, t: seq<Byte>)
    requires s <= t && BlankLineEnd(s).Some?
    ensures BlankLineEnd(s).value <= |s| && BlankLineEnd(t) == BlankLineEnd(s)
    decreases |s|
  {
    if !(s[0] == CR && s[1] == LF && s[2] == CR && s[3] == LF) {
      assert s[1..] <= t[1..];
      BlankLineEndIsStable(s[1..], t[1..]);
    }
  }

  /** Where the first CRLF starts, if there is one. */
  function LineEnd(s: seq<Byte>): (r: Option<nat>)
    ensures r.Some? ==> r.value + 2 <= |s|
  {
    if |s| < 2 then None
    else if s[0] == CR && s[1] == LF then Some(0)
    else
      match LineEnd(s[1..])
      case None => None
      case Some(n) => Some(n + 1)
  }

  lemma {:induction false} LineEndAfter(line: seq<Byte>, rest: seq<Byte>)
    requires CR !in line
    ensures LineEnd(line + (CRLF + rest)) == Some(|line|)
  {
    if line != [] {
      assert (line + (CRLF + rest))[1..] == line[1..] + (CRLF + rest);
      LineEndAfter(line[1..], rest);
    }
  }

  predicate StartsWithCrlf(s: seq<Byte>) {
    |s| >= 2 && s[0] == CR && s[1] == LF
  }

  lemma BlankLineAtBreak(rest: seq<Byte>)
    ensures StartsWithCrlf(rest) ==> BlankLineEnd(CRLF + rest) == Some(4)
    ensures !StartsWithCrlf(rest) && BlankLineEnd(rest).Some? ==>
              BlankLineEnd(CRLF + rest) == Some(2 + BlankLineEnd(rest).value)
  {
  }

  /** A non-empty line ends the head exactly when a blank line follows it. */
  lemma {:induction false} BlankLineAfter(line: seq<Byte>, rest: seq<Byte>)
    requires line != [] && CR !in line
    ensures StartsWithCrlf(rest) ==> BlankLineEnd(line + (CRLF + rest)) == Some(|line| + 4)
    ensures !StartsWithCrlf(rest) && BlankLineEnd(rest).Some? ==>
              BlankLineEnd(line + (CRLF + rest)) == Some(|line| + 2 + BlankLineEnd(rest).value)
    decreases |line|
  {
    var s := line + (CRLF + rest);
    assert s[0] == line[0] != CR;
    BlankLineAtBreak(rest);
    if |line| == 1 {
      assert s[1..] == CRLF + rest;
    } else {
      assert s[1..] == line[1..] + (CRLF + rest);
      BlankLineAfter(line[1..], rest);
    }
  }
}
