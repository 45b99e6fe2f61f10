/** What the text operations of the codec compute, told from their inputs alone. */
module HttpTextTheorems {
  import opened Wrappers
  import opened HttpText
  import opened Unicode

  // ---------- names ----------

  predicate IsLetter(b: Byte) {
    65 <= b <= 90 || 97 <= b <= 122
  }

  /** Names agree when they differ at most in the case of their ASCII letters. */
  lemma SameNameExactly(a: Text, b: Text)
    ensures SameName(a, b) <==>
              && |a| == |b|
              && forall i :: 0 <= i < |a| ==>
                   a[i] == b[i] || (IsLetter(a[i]) && IsLetter(b[i]) && (a[i] == b[i] + 32 || b[i] == a[i] + 32))
  {
    if SameName(a, b) {
      forall i | 0 <= i < |a|
        ensures a[i] == b[i] || (IsLetter(a[i]) && IsLetter(b[i]) && (a[i] == b[i] + 32 || b[i] == a[i] + 32))
      {
        assert LowerByte(a[i]) == LowerByte(b[i]);
      }
    }
  }

  /** The bytes of ASCII text. */
  function Ascii(s: string): Text {
    seq(|s|, i requires 0 <= i < |s| => s[i] as int % 256)
  }

  /** The names the codec compares with. */
  lemma NamesAreSpelled()
    ensures CONTENT_LENGTH == Ascii("content-length")
    ensures TRANSFER_ENCODING == Ascii("transfer-encoding")
    ensures CONNECTION == Ascii("connection") && IDENTITY == Ascii("identity")
    ensures CLOSE == Ascii("close") && CHUNKED == Ascii("chunked")
  {
  }

  // ---------- decimal numbers ----------

  function Zeros(n: nat): (s: Text)
    ensures |s| == n && forall i :: 0 <= i < n ==> s[i] == ZERO
  {
    if n == 0 then [] else Zeros(n - 1) + [ZERO]
  }

  lemma {:induction false} ZerosCountNothing(z: nat, s: Text)
    requires AllDigits(s)
    ensures AllDigits(Zeros(z) + s) && DigitsValue(Zeros(z) + s) == DigitsValue(s)
    decreases z, |s|
  {
    var t := Zeros(z) + s;
    if s != [] {
      ZerosCountNothing(z, s[..|s| - 1]);
      assert t[..|t| - 1] == Zeros(z) + s[..|s| - 1];
    } else if z > 0 {
      ZerosCountNothing(z - 1, []);
      assert t == Zeros(z - 1) + [ZERO] && t[..|t| - 1] == Zeros(z - 1) + [];
    } else {
      assert t == [];
    }
  }

  lemma DecimalGrows(v: nat, d: nat)
    requires v > 0 && d <= 9
    ensures Decimal(10 * v + d) == Decimal(v) + [ZERO + d]
  {
    assert (10 * v + d) / 10 == v && (10 * v + d) % 10 == d;
  }

  lemma Regroup(a: Text, b: Text, c: Text)
    ensures a + b + c == a + (b + c)
  {
  }

  /** Digits are zeros and then the decimal form of their value. */
  lemma {:induction false} DigitsAreDecimal(s: Text) returns (z: nat)
    requires s != [] && AllDigits(s)
    ensures s == Zeros(z) + Decimal(DigitsValue(s))
  {
    var front, d := s[..|s| - 1], s[|s| - 1] - ZERO;
    assert s == front + [ZERO + d];
    if front == [] {
      z := 0;
      assert s == [ZERO + d];
    } else {
      var y := DigitsAreDecimal(front);
      z := OneMoreDigit(front, y, d);
    }
  }

  lemma OneMoreDigit(front: Text, y: nat, d: nat) returns (z: nat)
    requires AllDigits(front) && front == Zeros(y) + Decimal(DigitsValue(front)) && d <= 9
    ensures front + [ZERO + d] == Zeros(z) + Decimal(10 * DigitsValue(front) + d)
  {
    var v := DigitsValue(front);
    if v == 0 {
      z := y + 1;
      assert front == Zeros(z);
    } else {
      z := y;
      DecimalGrows(v, d);
      Regroup(Zeros(y), Decimal(v), [ZERO + d]);
    }
  }

  /** An optional plus, any zeros, and a number in decimal. */
  ghost predicate Spells(s: Text, n: nat) {
    exists signed: bool, z: nat :: s == Sign(signed) + Zeros(z) + Decimal(n)
  }

  function Sign(signed: bool): Text {
    if signed then [PLUS] else []
  }

  /** A text is parsed as `n` if and only if it spells `n` and `n` fits a machine word. */
  lemma ParsesExactly(s: Text, n: nat)
    ensures ParseUsize(s) == Some(n) <==> n < USIZE_LIMIT && Spells(s, n)
  {
    if ParseUsize(s) == Some(n) {
      ParsedIsSpelled(s, n);
    }
    if n < USIZE_LIMIT && Spells(s, n) {
      var signed: bool, z: nat :| s == Sign(signed) + Zeros(z) + Decimal(n);
      SpelledIsParsed(signed, z, n);
    }
  }

  lemma ParsedIsSpelled(s: Text, n: nat)
    requires ParseUsize(s) == Some(n)
    ensures n < USIZE_LIMIT && Spells(s, n)
  {
    var signed := s != [] && s[0] == PLUS;
    var digits := if signed then s[1..] else s;
    var z := DigitsAreDecimal(digits);
    assert s == Sign(signed) + digits;
    Regroup(Sign(signed), Zeros(z), Decimal(n));
  }

  lemma SpelledIsParsed(signed: bool, z: nat, n: nat)
    ensures ParseUsize(Sign(signed) + Zeros(z) + Decimal(n)) == if n < USIZE_LIMIT then Some(n) else None
  {
    var digits := Zeros(z) + Decimal(n);
    Regroup(Sign(signed), Zeros(z), Decimal(n));
    ZerosCountNothing(z, Decimal(n));
    SignIsSkipped(signed, digits);
  }

  lemma SignIsSkipped(signed: bool, digits: Text)
    requires digits != [] && AllDigits(digits)
    ensures ParseUsize(Sign(signed) + digits)
         == if DigitsValue(digits) < USIZE_LIMIT then Some(DigitsValue(digits)) else None
  {
    var s := Sign(signed) + digits;
    if signed {
      assert s[1..] == digits;
    } else {
      assert s == digits && s[0] != PLUS;
    }
  }

  // ---------- white space ----------

  /** A code point in UTF-8 (RFC 3629, section 3). */
  function Utf8(c: nat): (r: Text)
    requires IsScalar(c)
    ensures 1 <= |r| <= 4
  {
    if c < 0x80 then [c]
    else if c < 0x800 then [0xC0 + c / 64, 0x80 + c % 64]
    else if c < 0x1_0000 then [0xE0 + c / 4096, 0x80 + c / 64 % 64, 0x80 + c % 64]
    else [0xF0 + c / 262144, 0x80 + c / 4096 % 64, 0x80 + c / 64 % 64, 0x80 + c % 64]
  }

  function Encoded(cs: seq<nat>): Text
    requires forall c :: c in cs ==> IsScalar(c)
  {
    if cs == [] then [] else Utf8(cs[0]) + Encoded(cs[1..])
  }

  lemma {:induction false} EncodedAppend(cs: seq<nat>, c: nat)
    requires (forall d :: d in cs ==> IsScalar(d)) && IsScalar(c)
    ensures Encoded(cs + [c]) == Encoded(cs) + Utf8(c)
  {
    if cs == [] {
      assert ([c])[1..] == [];
    } else {
      assert (cs + [c])[1..] == cs[1..] + [c];
      EncodedAppend(cs[1..], c);
    }
  }

  lemma {:induction false} EncodedConcat(cs: seq<nat>, ds: seq<nat>)
    requires forall c :: c in cs + ds ==> IsScalar(c)
    requires (forall c :: c in cs ==> IsScalar(c)) && forall c :: c in ds ==> IsScalar(c)
    ensures Encoded(cs + ds) == Encoded(cs) + Encoded(ds)
  {
    if cs == [] {
      assert cs + ds == ds;
    } else {
      assert (cs + ds)[1..] == cs[1..] + ds;
      EncodedConcat(cs[1..], ds);
      Regroup(Utf8(cs[0]), Encoded(cs[1..]), Encoded(ds));
    }
  }

  predicate Blank(cs: seq<nat>) {
    forall c :: c in cs ==> c in WHITE_SPACE
  }

  lemma WhiteSpaceIsScalar(c: nat)
    requires c in WHITE_SPACE
    ensures IsScalar(c) && |Utf8(c)| <= 3
    ensures Utf8(c)[0] < 0x80 || 0xC2 <= Utf8(c)[0]
  {
  }

  lemma WhiteSpaceRanges(c: nat)
    requires c in WHITE_SPACE && c >= 0x800
    ensures c == 0x1680 || c == 0x3000 || c == 0x205F || 0x2000 <= c <= 0x200A
            || c == 0x2028 || c == 0x2029 || c == 0x202F
  {
  }

  lemma SpaceIsWide(c: nat)
    requires c in WHITE_SPACE && c >= 0x800 && IsScalar(c)
    ensures |Utf8(c)| == 3 && IsWideSpace(Utf8(c)[0], Utf8(c)[1], Utf8(c)[2])
  {
    WhiteSpaceRanges(c);
    if c == 0x1680 || c == 0x3000 || c == 0x205F {
    } else {
      Utf8OfThree(2, 0, c - 0x2000);
    }
  }

  lemma SpaceStarts(c: nat, rest: Text)
    requires c in WHITE_SPACE && IsScalar(c)
    ensures SpaceAtStart(Utf8(c) + rest) == |Utf8(c)|
  {
    var u := Utf8(c);
    var s := u + rest;
    assert forall i :: 0 <= i < |u| ==> s[i] == u[i];
    if c >= 0x800 {
      SpaceIsWide(c);
      Utf8OfWide(c);
    }
  }

  lemma Utf8OfWide(c: nat)
    requires IsScalar(c) && 0x800 <= c
    ensures Utf8(c)[0] >= 0xE0 && Utf8(c)[|Utf8(c)| - 1] >= 0x80
    ensures Utf8(c)[|Utf8(c)| - 2] != 0xC2
  {
  }

  lemma SpaceEnds(rest: Text, c: nat)
    requires c in WHITE_SPACE && IsScalar(c)
    ensures SpaceAtEnd(rest + Utf8(c)) == |Utf8(c)|
  {
    var u := Utf8(c);
    var s := rest + u;
    assert forall i :: 0 <= i < |u| ==> s[|rest| + i] == u[i];
    if c >= 0x800 {
      SpaceIsWide(c);
      Utf8OfWide(c);
    }
  }

  /** The white space character a text starts with. */
  lemma StartIsSpace(s: Text) returns (c: nat)
    requires SpaceAtStart(s) > 0
    ensures c in WHITE_SPACE && IsScalar(c) && Utf8(c) == s[..SpaceAtStart(s)]
  {
    var n := SpaceAtStart(s);
    if n == 1 {
      c := s[0];
    } else if n == 2 {
      c := s[1];
    } else {
      c := WideSpace(s[0], s[1], s[2]);
      assert s[..3] == [s[0], s[1], s[2]];
    }
  }

  lemma Utf8OfThree(a: nat, b: nat, d: nat)
    requires a < 16 && b < 64 && d < 64 && 0x800 <= a * 4096 + b * 64 + d && IsScalar(a * 4096 + b * 64 + d)
    ensures Utf8(a * 4096 + b * 64 + d) == [0xE0 + a, 0x80 + b, 0x80 + d]
  {
    var c := a * 4096 + b * 64 + d;
    assert c / 4096 == a && c / 64 == a * 64 + b && c % 64 == d && (a * 64 + b) % 64 == b;
  }

  lemma WideSpace(x: Byte, y: Byte, z: Byte) returns (c: nat)
    requires IsWideSpace(x, y, z)
    ensures c in WHITE_SPACE && IsScalar(c) && Utf8(c) == [x, y, z]
  {
    var a: int, b: int, d: int := x, y, z;
    c := (a - 0xE0) * 4096 + (b - 0x80) * 64 + (d - 0x80);
    Utf8OfThree(a - 0xE0, b - 0x80, d - 0x80);
  }

  lemma EndIsSpace(s: Text) returns (c: nat)
    requires SpaceAtEnd(s) > 0
    ensures c in WHITE_SPACE && IsScalar(c) && Utf8(c) == s[|s| - SpaceAtEnd(s)..]
  {
    var n := SpaceAtEnd(s);
    var u := s[|s| - n..];
    assert u == if n == 1 then [s[|s| - 1]] else if n == 2 then [s[|s| - 2], s[|s| - 1]]
                else [s[|s| - 3], s[|s| - 2], s[|s| - 1]];
    assert SpaceAtStart(u) == n && u[..n] == u;
    c := StartIsSpace(u);
  }

  /** No white space character at either end. */
  ghost predicate Clean(s: Text) {
    forall c :: c in WHITE_SPACE && IsScalar(c) ==> !(Utf8(c) <= s) && !EndsWith(s, Utf8(c))
  }

  predicate EndsWith(s: Text, end: Text) {
    |end| <= |s| && s[|s| - |end|..] == end
  }

  lemma CleanHasNoSpace(s: Text)
    requires Clean(s)
    ensures SpaceAtStart(s) == 0 && SpaceAtEnd(s) == 0
  {
    if SpaceAtStart(s) > 0 {
      var c := StartIsSpace(s);
    }
    if SpaceAtEnd(s) > 0 {
      var c := EndIsSpace(s);
    }
  }

  lemma NoSpaceIsClean(s: Text)
    requires SpaceAtStart(s) == 0 && SpaceAtEnd(s) == 0
    ensures Clean(s)
  {
    forall c | c in WHITE_SPACE && IsScalar(c)
      ensures !(Utf8(c) <= s) && !EndsWith(s, Utf8(c))
    {
      if Utf8(c) <= s {
        assert s == Utf8(c) + s[|Utf8(c)|..];
        SpaceStarts(c, s[|Utf8(c)|..]);
      }
      if EndsWith(s, Utf8(c)) {
        assert s == s[..|s| - |Utf8(c)|] + Utf8(c);
        SpaceEnds(s[..|s| - |Utf8(c)|], c);
      }
    }
  }

  lemma BlankIsScalar(cs: seq<nat>)
    requires Blank(cs)
    ensures forall c :: c in cs ==> IsScalar(c)
  {
    forall c | c in cs
      ensures IsScalar(c)
    {
      WhiteSpaceIsScalar(c);
    }
  }

  /** Blank characters in UTF-8. */
  function Blanks(cs: seq<nat>): Text
    requires Blank(cs)
  {
    BlankIsScalar(cs);
    Encoded(cs)
  }

  lemma BlanksFirst(c: nat, cs: seq<nat>)
    requires Blank([c] + cs)
    ensures Blank(cs) && IsScalar(c) && Blanks([c] + cs) == Utf8(c) + Blanks(cs)
  {
    BlankIsScalar([c] + cs);
    assert ([c] + cs)[1..] == cs && ([c] + cs)[0] == c;
    assert forall d :: d in cs ==> d in [c] + cs;
  }

  lemma BlanksLast(cs: seq<nat>, c: nat)
    requires Blank(cs + [c])
    ensures Blank(cs) && IsScalar(c) && Blanks(cs + [c]) == Blanks(cs) + Utf8(c)
  {
    BlankIsScalar(cs + [c]);
    assert (cs + [c])[|cs|] == c;
    assert forall d :: d in cs ==> d in cs + [c];
    EncodedAppend(cs, c);
  }

  lemma PutFirst(c: nat, rest: seq<nat>, t: Text) returns (cs: seq<nat>)
    requires c in WHITE_SPACE && IsScalar(c) && Blank(rest)
    ensures Blank(cs) && Blanks(cs) + t == Utf8(c) + (Blanks(rest) + t)
  {
    cs := [c] + rest;
    BlanksFirst(c, rest);
    Regroup(Utf8(c), Blanks(rest), t);
  }

  lemma {:induction false} TrimStartCuts(s: Text) returns (cs: seq<nat>)
    ensures Blank(cs) && s == Blanks(cs) + TrimStart(s) && SpaceAtStart(TrimStart(s)) == 0
    decreases |s|
  {
    var n := SpaceAtStart(s);
    if n == 0 {
      cs := [];
    } else {
      var c := StartIsSpace(s);
      assert s == Utf8(c) + s[n..];
      var rest := TrimStartCuts(s[n..]);
      cs := PutFirst(c, rest, TrimStart(s));
    }
  }

  lemma PutLast(t: Text, rest: seq<nat>, c: nat) returns (cs: seq<nat>)
    requires c in WHITE_SPACE && IsScalar(c) && Blank(rest)
    ensures Blank(cs) && t + Blanks(cs) == t + Blanks(rest) + Utf8(c)
  {
    cs := rest + [c];
    BlanksLast(rest, c);
    Regroup(t, Blanks(rest), Utf8(c));
  }

  lemma {:induction false} TrimEndCuts(s: Text) returns (cs: seq<nat>)
    ensures Blank(cs) && s == TrimEnd(s) + Blanks(cs) && SpaceAtEnd(TrimEnd(s)) == 0
    decreases |s|
  {
    var n := SpaceAtEnd(s);
    if n == 0 {
      cs := [];
    } else {
      var c := EndIsSpace(s);
      var front := s[..|s| - n];
      assert s == front + Utf8(c);
      var rest := TrimEndCuts(front);
      cs := PutLast(TrimEnd(s), rest, c);
    }
  }

  lemma {:induction false} TrimStartStrips(cs: seq<nat>, rest: Text)
    requires Blank(cs)
    ensures TrimStart(Blanks(cs) + rest) == TrimStart(rest)
  {
    if cs == [] {
      assert Blanks(cs) + rest == rest;
    } else {
      var c, more := cs[0], cs[1..];
      assert cs == [c] + more;
      BlanksFirst(c, more);
      Regroup(Utf8(c), Blanks(more), rest);
      SpaceStarts(c, Blanks(more) + rest);
      assert (Utf8(c) + (Blanks(more) + rest))[|Utf8(c)|..] == Blanks(more) + rest;
      TrimStartStrips(more, rest);
    }
  }

  lemma {:induction false} TrimEndStrips(s: Text, cs: seq<nat>)
    requires Blank(cs)
    ensures TrimEnd(s + Blanks(cs)) == TrimEnd(s)
  {
    if cs == [] {
      assert s + Blanks(cs) == s;
    } else {
      var front, c := cs[..|cs| - 1], cs[|cs| - 1];
      assert cs == front + [c];
      BlanksLast(front, c);
      Regroup(s, Blanks(front), Utf8(c));
      SpaceEnds(s + Blanks(front), c);
      var all := s + Blanks(front) + Utf8(c);
      assert all[..|all| - |Utf8(c)|] == s + Blanks(front);
      TrimEndStrips(s, front);
    }
  }

  lemma BlanksStartWhole(cs: seq<nat>)
    requires Blank(cs) && cs != []
    ensures Blanks(cs) != [] && (Blanks(cs)[0] < 0x80 || 0xC2 <= Blanks(cs)[0])
  {
    assert cs == [cs[0]] + cs[1..];
    BlanksFirst(cs[0], cs[1..]);
    WhiteSpaceIsScalar(cs[0]);
  }

  lemma Utf8Continues(c: nat, i: nat)
    requires IsScalar(c) && 0 < i < |Utf8(c)|
    ensures 0x80 <= Utf8(c)[i] <= 0xBF
  {
  }

  /** Blanks behind a clean text do not complete a white space character at its start. */
  lemma CleanStays(s: Text, cs: seq<nat>)
    requires Clean(s) && s != [] && Blank(cs)
    ensures SpaceAtStart(s + Blanks(cs)) == 0
  {
    var all := s + Blanks(cs);
    if SpaceAtStart(all) > 0 {
      var c := StartIsSpace(all);
      BlanksStartWhole(cs);
      if |Utf8(c)| > |s| {
        Utf8Continues(c, |s|);
      }
    }
  }

  lemma PrefixHasNoSpace(s: Text, all: Text)
    requires s <= all && SpaceAtStart(all) == 0
    ensures SpaceAtStart(s) == 0
  {
  }

  /** Trimming takes white space characters off both ends, and nothing else, until there are none. */
  lemma TrimExactly(s: Text, t: Text)
    ensures Trim(s) == t <==>
              Clean(t) && exists pre, post :: Blank(pre) && Blank(post) && s == Blanks(pre) + t + Blanks(post)
  {
    if Trim(s) == t {
      var pre := TrimStartCuts(s);
      var post := TrimEndCuts(TrimStart(s));
      PrefixHasNoSpace(t, TrimStart(s));
      NoSpaceIsClean(t);
      Regroup(Blanks(pre), t, Blanks(post));
    }
    if Clean(t) && exists pre, post :: Blank(pre) && Blank(post) && s == Blanks(pre) + t + Blanks(post) {
      var pre, post :| Blank(pre) && Blank(post) && s == Blanks(pre) + t + Blanks(post);
      StripsBoth(pre, t, post);
    }
  }

  lemma StripsBoth(pre: seq<nat>, t: Text, post: seq<nat>)
    requires Blank(pre) && Blank(post) && Clean(t)
    ensures Trim(Blanks(pre) + t + Blanks(post)) == t
  {
    Regroup(Blanks(pre), t, Blanks(post));
    TrimStartStrips(pre, t + Blanks(post));
    if t == [] {
      assert t + Blanks(post) == Blanks(post) + [];
      TrimStartStrips(post, []);
    } else {
      CleanStays(t, post);
      TrimEndStrips(t, post);
      CleanHasNoSpace(t);
    }
  }

  // ---------- UTF-8 ----------

  lemma Utf8OfTwo(a: nat, b: nat)
    requires 2 <= a < 32 && b < 64
    ensures IsScalar(a * 64 + b) && Utf8(a * 64 + b) == [0xC0 + a, 0x80 + b]
  {
  }

  lemma Utf8OfFour(a: nat, b: nat, d: nat, e: nat)
    requires a < 8 && b < 64 && d < 64 && e < 64
    requires 0x1_0000 <= a * 262144 + b * 4096 + d * 64 + e < 0x11_0000
    ensures Utf8(a * 262144 + b * 4096 + d * 64 + e) == [0xF0 + a, 0x80 + b, 0x80 + d, 0x80 + e]
  {
    var c := a * 262144 + b * 4096 + d * 64 + e;
    assert c / 262144 == a && c / 4096 == a * 64 + b && c / 64 == a * 4096 + b * 64 + d && c % 64 == e;
    assert (a * 64 + b) % 64 == b && (a * 4096 + b * 64 + d) % 64 == d;
  }

  /** The code point a well-formed text starts with. */
  lemma StartIsChar(s: Text) returns (c: nat)
    requires s != [] && CharLength(s) > 0
    ensures IsScalar(c) && Utf8(c) == s[..CharLength(s)]
  {
    var n := CharLength(s);
    if n == 1 {
      c := s[0];
    } else if n == 2 {
      c := CharOfTwo(s[0], s[1]);
      assert s[..2] == [s[0], s[1]];
    } else if n == 3 {
      c := CharOfThree(s[0], s[1], s[2]);
      assert s[..3] == [s[0], s[1], s[2]];
    } else {
      c := CharOfFour(s[0], s[1], s[2], s[3]);
      assert s[..4] == [s[0], s[1], s[2], s[3]];
    }
  }

  lemma CharOfTwo(w: Byte, x: Byte) returns (c: nat)
    requires 0xC2 <= w <= 0xDF && 0x80 <= x <= 0xBF
    ensures IsScalar(c) && Utf8(c) == [w, x]
  {
    var a: int, b: int := w, x;
    c := (a - 0xC0) * 64 + (b - 0x80);
    Utf8OfTwo(a - 0xC0, b - 0x80);
  }

  lemma CharOfThree(w: Byte, x: Byte, y: Byte) returns (c: nat)
    requires 0xE0 <= w <= 0xEF && 0x80 <= x <= 0xBF && 0x80 <= y <= 0xBF
    requires (w == 0xE0 ==> x >= 0xA0) && (w == 0xED ==> x <= 0x9F)
    ensures IsScalar(c) && Utf8(c) == [w, x, y]
  {
    var a: int, b: int, d: int := w, x, y;
    c := (a - 0xE0) * 4096 + (b - 0x80) * 64 + (d - 0x80);
    Utf8OfThree(a - 0xE0, b - 0x80, d - 0x80);
  }

  lemma CharOfFour(w: Byte, x: Byte, y: Byte, z: Byte) returns (c: nat)
    requires 0xF0 <= w <= 0xF4 && 0x80 <= x <= 0xBF && 0x80 <= y <= 0xBF && 0x80 <= z <= 0xBF
    requires (w == 0xF0 ==> x >= 0x90) && (w == 0xF4 ==> x <= 0x8F)
    ensures IsScalar(c) && Utf8(c) == [w, x, y, z]
  {
    var a: int, b: int, d: int, e: int := w, x, y, z;
    c := (a - 0xF0) * 262144 + (b - 0x80) * 4096 + (d - 0x80) * 64 + (e - 0x80);
    Utf8OfFour(a - 0xF0, b - 0x80, d - 0x80, e - 0x80);
  }

  lemma TwoBytesStart(u: Text, rest: Text)
    requires |u| == 2 && 0xC2 <= u[0] <= 0xDF && 0x80 <= u[1] <= 0xBF
    ensures CharLength(u + rest) == 2
  {
    var s := u + rest;
    assert s[0] == u[0] && s[1] == u[1];
  }

  lemma ThreeBytesStart(u: Text, rest: Text)
    requires |u| == 3 && 0xE0 <= u[0] <= 0xEF && 0x80 <= u[1] <= 0xBF && 0x80 <= u[2] <= 0xBF
    requires (u[0] == 0xE0 ==> u[1] >= 0xA0) && (u[0] == 0xED ==> u[1] <= 0x9F)
    ensures CharLength(u + rest) == 3
  {
    var s := u + rest;
    assert s[0] == u[0] && s[1] == u[1] && s[2] == u[2];
  }

  lemma FourBytesStart(u: Text, rest: Text)
    requires |u| == 4 && 0xF0 <= u[0] <= 0xF4
    requires 0x80 <= u[1] <= 0xBF && 0x80 <= u[2] <= 0xBF && 0x80 <= u[3] <= 0xBF
    requires (u[0] == 0xF0 ==> u[1] >= 0x90) && (u[0] == 0xF4 ==> u[1] <= 0x8F)
    ensures CharLength(u + rest) == 4
  {
    var s := u + rest;
    assert s[0] == u[0] && s[1] == u[1] && s[2] == u[2] && s[3] == u[3];
  }

  lemma CharStarts(c: nat, rest: Text)
    requires IsScalar(c)
    ensures CharLength(Utf8(c) + rest) == |Utf8(c)|
  {
    if c < 0x80 {
      assert (Utf8(c) + rest)[0] == c;
    } else if c < 0x800 {
      TwoBytesStart(Utf8(c), rest);
    } else if c < 0x1_0000 {
      ThreeBytesStart(Utf8(c), rest);
    } else {
      FourBytesStart(Utf8(c), rest);
    }
  }

  ghost predicate Scalars(cs: seq<nat>) {
    forall c :: c in cs ==> IsScalar(c)
  }

  lemma {:induction false} ValidIsEncoded(s: Text) returns (cs: seq<nat>)
    requires ValidUtf8(s)
    ensures Scalars(cs) && s == Encoded(cs)
    decreases |s|
  {
    if s == [] {
      cs := [];
    } else {
      var n := CharLength(s);
      var c := StartIsChar(s);
      assert s == Utf8(c) + s[n..];
      var rest := ValidIsEncoded(s[n..]);
      cs := [c] + rest;
      assert cs[1..] == rest;
    }
  }

  lemma {:induction false} EncodedIsValid(cs: seq<nat>)
    requires Scalars(cs)
    ensures ValidUtf8(Encoded(cs))
  {
    if cs != [] {
      CharStarts(cs[0], Encoded(cs[1..]));
      assert (Utf8(cs[0]) + Encoded(cs[1..]))[|Utf8(cs[0])|..] == Encoded(cs[1..]);
      EncodedIsValid(cs[1..]);
    }
  }

  /** A text is valid if and only if it is the UTF-8 form of a sequence of Unicode scalar values. */
  lemma ValidExactly(s: Text)
    ensures ValidUtf8(s) <==> exists cs :: Scalars(cs) && s == Encoded(cs)
  {
    if ValidUtf8(s) {
      var cs := ValidIsEncoded(s);
    }
    if exists cs :: Scalars(cs) && s == Encoded(cs) {
      var cs :| Scalars(cs) && s == Encoded(cs);
      EncodedIsValid(cs);
    }
  }

  // ---------- splitting and lines ----------

  /** Parts with a separator between them. */
  function Joined(parts: seq<Text>, separator: Byte): Text {
    if parts == [] then []
    else if |parts| == 1 then parts[0]
    else parts[0] + [separator] + Joined(parts[1..], separator)
  }

  predicate Free(parts: seq<Text>, separator: Byte) {
    forall part :: part in parts ==> separator !in part
  }

  lemma WholeIsBefore(s: Text, separator: Byte)
    requires separator !in s
    ensures Before(s, separator) == s
  {
  }

  /** Splitting finds the parts between the separators. */
  lemma {:induction false} SplitOfJoined(parts: seq<Text>, separator: Byte)
    requires parts != [] && Free(parts, separator)
    ensures Split(Joined(parts, separator), separator) == parts
  {
    var s := Joined(parts, separator);
    if |parts| == 1 {
      WholeIsBefore(s, separator);
    } else {
      var rest := Joined(parts[1..], separator);
      BeforeSeparator(parts[0], separator, rest);
      assert s[|parts[0]| + 1..] == rest;
      SplitOfJoined(parts[1..], separator);
      assert parts == [parts[0]] + parts[1..];
    }
  }

  /** Two line ends in a row end at `n`. */
  predicate BlankLineAt(s: seq<Byte>, n: int) {
    4 <= n <= |s| && s[n - 4] == CR && s[n - 3] == LF && s[n - 2] == CR && s[n - 1] == LF
  }

  /** The first blank line is the first occurrence of two line ends in a row. */
  lemma {:induction false} BlankLineIsFirst(s: seq<Byte>)
    ensures BlankLineEnd(s).Some? ==>
              var n := BlankLineEnd(s).value; BlankLineAt(s, n) && forall m :: m < n ==> !BlankLineAt(s, m)
    ensures BlankLineEnd(s).None? ==> forall m :: !BlankLineAt(s, m)
  {
    if |s| >= 4 {
      BlankLineIsFirst(s[1..]);
      assert forall m :: m > 4 ==> BlankLineAt(s, m) == BlankLineAt(s[1..], m - 1);
    }
  }
}
