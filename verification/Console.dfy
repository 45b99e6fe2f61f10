/** The console log sink: one line per record, whatever the record contains. */
module Console {
  import opened Wrappers

  datatype LogLevel = Trace | Debug | Info | Warn | Error

  datatype LogRecord = LogRecord(level: LogLevel, message: string, target: Option<string>)

  datatype ConsoleLogConfig = ConsoleLogConfig(minimumLevel: LogLevel, stderrFrom: LogLevel, prefix: Option<string>)

  datatype ConsoleDestination = Stdout | Stderr

  function Rank(level: LogLevel): nat {
    match level
    case Trace => 0
    case Debug => 1
    case Info => 2
    case Warn => 3
    case Error => 4
  }

  function LevelText(level: LogLevel): string {
    match level
    case Trace => "TRACE"
    case Debug => "DEBUG"
    case Info => "INFO"
    case Warn => "WARN"
    case Error => "ERROR"
  }

  function Destination(config: ConsoleLogConfig, level: LogLevel): ConsoleDestination {
    if Rank(level) >= Rank(config.stderrFrom) then Stderr else Stdout
  }

  // ---------- escaping ----------

  /** `str::replace` of one character by a text. */
  function Replace(value: string, from: char, to: string): string {
    if value == "" then ""
    else (if value[0] == from then to else [value[0]]) + Replace(value[1..], from, to)
  }

  /** Two passes: carriage returns first, then newlines. */
  function EscapeLineBreaks(value: string): string {
    Replace(Replace(value, '\r', "\\r"), '\n', "\\n")
  }

  /** What becomes of one character. */
  function EscapeChar(c: char): string {
    if c == '\r' then "\\r" else if c == '\n' then "\\n" else [c]
  }

  function EscapeAll(value: string): string {
    if value == "" then "" else EscapeChar(value[0]) + EscapeAll(value[1..])
  }

  lemma {:induction false} ReplaceAppend(a: string, b: string, from: char, to: string)
    ensures Replace(a + b, from, to) == Replace(a, from, to) + Replace(b, from, to)
  {
    if a == "" {
      assert a + b == b;
    } else {
      assert (a + b)[1..] == a[1..] + b;
      ReplaceAppend(a[1..], b, from, to);
    }
  }

  /** The second pass does not disturb the first: both together map each character on its own. */
  lemma {:induction false} EscapeIsOnePass(value: string)
    ensures EscapeLineBreaks(value) == EscapeAll(value)
  {
    if value != "" {
      EscapeIsOnePass(value[1..]);
      var head := if value[0] == '\r' then "\\r" else [value[0]];
      ReplaceAppend(head, Replace(value[1..], '\r', "\\r"), '\n', "\\n");
      assert Replace(value, '\r', "\\r") == head + Replace(value[1..], '\r', "\\r");
      assert Replace("\\r", '\n', "\\n") == "\\r" by {
        assert "\\r"[1..] == "r" && "r"[1..] == "";
      }
      assert [value[0]][1..] == "";
    }
  }

  predicate OneLine(s: string) {
    '\n' !in s && '\r' !in s
  }

  lemma {:induction false} EscapedIsOneLine(value: string)
    ensures OneLine(EscapeLineBreaks(value))
    ensures OneLine(value) ==> EscapeLineBreaks(value) == value
  {
    EscapeIsOnePass(value);
    if value != "" {
      EscapedIsOneLine(value[1..]);
      EscapeIsOnePass(value[1..]);
    }
  }

  // ---------- formatting ----------

  function TargetText(target: Option<string>): string {
    if target.Some? then " " + EscapeLineBreaks(target.value) + ":" else ""
  }

  function PrefixText(prefix: Option<string>): string {
    if prefix.Some? then EscapeLineBreaks(prefix.value) + " " else ""
  }

  function FormatConsoleRecord(config: ConsoleLogConfig, record: LogRecord): string {
    PrefixText(config.prefix) + ("[" + LevelText(record.level) + "]")
    + (TargetText(record.target) + " " + EscapeLineBreaks(record.message))
  }

  lemma LevelsDiffer(a: LogLevel, b: LogLevel, x: string, y: string)
    requires "[" + LevelText(a) + "]" + x == "[" + LevelText(b) + "]" + y
    ensures a == b && x == y
  {
    var s, t := "[" + LevelText(a) + "]", "[" + LevelText(b) + "]";
    assert (s + x)[1] == LevelText(a)[0] && (t + y)[1] == LevelText(b)[0];
    assert (s + x)[|s|..] == x && (t + y)[|t|..] == y;
  }

  lemma CommonStart(start: string, a: string, b: string)
    ensures start + a == start + b <==> a == b
  {
    assert (start + a)[|start|..] == a && (start + b)[|start|..] == b;
  }

  lemma CommonEnd(a: string, b: string, end: string)
    ensures a + end == b + end <==> a == b
  {
    if a + end == b + end {
      assert |a| == |b| && (a + end)[..|a|] == a && (b + end)[..|b|] == b;
    }
  }

  /**
   A line tells the level, and, given either the target or the message, the other one as escaped.
   When it tells both is said by `LineIsAmbiguousExactly`.
   */
  lemma LineTellsTheRecord(config: ConsoleLogConfig, r: LogRecord, s: LogRecord)
    ensures FormatConsoleRecord(config, r) == FormatConsoleRecord(config, s) ==> r.level == s.level
    ensures TargetText(r.target) == TargetText(s.target) ==>
              (FormatConsoleRecord(config, r) == FormatConsoleRecord(config, s)
               <==> r.level == s.level && EscapeLineBreaks(r.message) == EscapeLineBreaks(s.message))
    ensures EscapeLineBreaks(r.message) == EscapeLineBreaks(s.message) ==>
              (FormatConsoleRecord(config, r) == FormatConsoleRecord(config, s)
               <==> r.level == s.level && TargetText(r.target) == TargetText(s.target))
  {
    var prefix := PrefixText(config.prefix);
    var m, n := EscapeLineBreaks(r.message), EscapeLineBreaks(s.message);
    var t, u := TargetText(r.target), TargetText(s.target);
    var x, y := t + " " + m, u + " " + n;
    var a, b := "[" + LevelText(r.level) + "]", "[" + LevelText(s.level) + "]";
    assert prefix + a + x == prefix + (a + x) && prefix + b + y == prefix + (b + y);
    CommonStart(prefix, a + x, b + y);
    if a + x == b + y {
      LevelsDiffer(r.level, s.level, x, y);
    }
    assert x == t + (" " + m) && y == u + (" " + n);
    CommonStart(t, " " + m, " " + n);
    CommonStart(" ", m, n);
    CommonEnd(t, u, " " + m);
  }

  lemma EscapeAppend(a: string, b: string)
    ensures EscapeLineBreaks(a + b) == EscapeLineBreaks(a) + EscapeLineBreaks(b)
  {
    ReplaceAppend(a, b, '\r', "\\r");
    ReplaceAppend(Replace(a, '\r', "\\r"), Replace(b, '\r', "\\r"), '\n', "\\n");
  }

  lemma EscapeAroundColon(a: string, b: string)
    ensures EscapeLineBreaks(a + ": " + b) == EscapeLineBreaks(a) + ": " + EscapeLineBreaks(b)
  {
    EscapeAppend(a + ": ", b);
    EscapeAppend(a, ": ");
    EscapedIsOneLine(": ");
  }

  /** Some record with another target, or with a target where `r` has none, gives the same line. */
  ghost predicate Ambiguous(config: ConsoleLogConfig, r: LogRecord) {
    exists s: LogRecord ::
      && TargetText(s.target) != TargetText(r.target)
      && FormatConsoleRecord(config, s) == FormatConsoleRecord(config, r)
  }

  predicate HasColonSpace(text: string) {
    exists i :: 0 <= i < |text| - 1 && text[i] == ':' && text[i + 1] == ' '
  }

  /** A target and a message print as the message that starts with both. */
  lemma TargetReadsAsMessage(config: ConsoleLogConfig, level: LogLevel, target: string, message: string)
    ensures FormatConsoleRecord(config, LogRecord(level, message, Some(target)))
         == FormatConsoleRecord(config, LogRecord(level, target + ": " + message, None))
  {
    var t, m := EscapeLineBreaks(target), EscapeLineBreaks(message);
    EscapeAroundColon(target, message);
    MoveColon(t, m);
  }

  lemma MoveColon(t: string, m: string)
    ensures " " + t + ":" + " " + m == "" + " " + (t + ": " + m)
  {
    assert ": " == ":" + " ";
    assert (" " + t + ":" + " " + m)[|t| + 1..] == ": " + m == ("" + " " + (t + ": " + m))[|t| + 1..];
    assert (" " + t + ":" + " " + m)[..|t| + 1] == " " + t == ("" + " " + (t + ": " + m))[..|t| + 1];
  }

  lemma SplitAtColon(text: string, i: nat)
    requires i + 1 < |text| && text[i] == ':' && text[i + 1] == ' '
    ensures text == text[..i] + ": " + text[i + 2..]
  {
  }

  lemma ColonInside(a: string, b: string)
    ensures HasColonSpace(a + ": " + b)
  {
    var text := a + ": " + b;
    assert text[|a|] == ':' && text[|a| + 1] == ' ';
  }

  /** A record without target whose line is also that of a record with one. */
  lemma SharedLineHasColon(config: ConsoleLogConfig, r: LogRecord, s: LogRecord)
    requires r.target == None && s.target.Some?
    requires FormatConsoleRecord(config, s) == FormatConsoleRecord(config, r)
    ensures HasColonSpace(EscapeLineBreaks(r.message))
  {
    var t, m := EscapeLineBreaks(s.target.value), EscapeLineBreaks(s.message);
    TargetReadsAsMessage(config, s.level, s.target.value, s.message);
    var plain := LogRecord(s.level, s.target.value + ": " + s.message, None);
    LineTellsTheRecord(config, r, plain);
    EscapeAroundColon(s.target.value, s.message);
    ColonInside(t, m);
  }

  /**
   A line leaves the record's target open if and only if the record has one, or its escaped message
   contains a colon and a space.
   */
  lemma LineIsAmbiguousExactly(config: ConsoleLogConfig, r: LogRecord)
    ensures Ambiguous(config, r) <==> r.target.Some? || HasColonSpace(EscapeLineBreaks(r.message))
  {
    if r.target.Some? {
      var plain := LogRecord(r.level, r.target.value + ": " + r.message, None);
      TargetReadsAsMessage(config, r.level, r.target.value, r.message);
      assert TargetText(plain.target) != TargetText(r.target);
    } else if HasColonSpace(EscapeLineBreaks(r.message)) {
      var text := EscapeLineBreaks(r.message);
      var i :| 0 <= i < |text| - 1 && text[i] == ':' && text[i + 1] == ' ';
      SharedWithTarget(config, r, i);
    }
    if r.target == None && Ambiguous(config, r) {
      var s: LogRecord :| TargetText(s.target) != TargetText(r.target)
        && FormatConsoleRecord(config, s) == FormatConsoleRecord(config, r);
      SharedLineHasColon(config, r, s);
    }
  }

  lemma SharedWithTarget(config: ConsoleLogConfig, r: LogRecord, i: nat)
    requires r.target == None
    requires var text := EscapeLineBreaks(r.message); i + 1 < |text| && text[i] == ':' && text[i + 1] == ' '
    ensures Ambiguous(config, r)
  {
    var text := EscapeLineBreaks(r.message);
    var target, message := text[..i], text[i + 2..];
    var s := LogRecord(r.level, message, Some(target));
    EscapedIsOneLine(r.message);
    EscapedIsOneLine(text);
    SplitAtColon(text, i);
    TargetReadsAsMessage(config, r.level, target, message);
    LineTellsTheRecord(config, r, LogRecord(r.level, text, None));
    assert TargetText(s.target) != TargetText(r.target);
  }

  /** Two records that differ in both target and message can give the same line. */
  lemma TargetEndIsAmbiguous(config: ConsoleLogConfig, level: LogLevel, a: string, b: string, c: string)
    ensures FormatConsoleRecord(config, LogRecord(level, c, Some(a + ": " + b)))
         == FormatConsoleRecord(config, LogRecord(level, b + ": " + c, Some(a)))
  {
    TargetReadsAsMessage(config, level, a + ": " + b, c);
    TargetReadsAsMessage(config, level, a, b + ": " + c);
    assert a + ": " + b + ": " + c == a + ": " + (b + ": " + c);
  }

  lemma OneLineAppend(a: string, b: string)
    requires OneLine(a) && OneLine(b)
    ensures OneLine(a + b)
  {
  }

  lemma FormattedIsOneLine(config: ConsoleLogConfig, record: LogRecord)
    ensures OneLine(FormatConsoleRecord(config, record))
  {
    var level := "[" + LevelText(record.level) + "]";
    var message := EscapeLineBreaks(record.message);
    TextsAreOneLine(config, record);
    EscapedIsOneLine(record.message);
    OneLineAppend(TargetText(record.target) + " ", message);
    OneLineAppend(PrefixText(config.prefix), level);
    OneLineAppend(PrefixText(config.prefix) + level, TargetText(record.target) + " " + message);
  }

  lemma TextsAreOneLine(config: ConsoleLogConfig, record: LogRecord)
    ensures OneLine(PrefixText(config.prefix)) && OneLine(TargetText(record.target))
    ensures OneLine("[" + LevelText(record.level) + "]")
  {
    if config.prefix.Some? {
      EscapedIsOneLine(config.prefix.value);
    }
    if record.target.Some? {
      EscapedIsOneLine(record.target.value);
    }
    assert OneLine(LevelText(record.level));
  }

  /** The levels, least severe first, and their texts. */
  const LEVELS: seq<LogLevel> := [Trace, Debug, Info, Warn, Error]
  const LEVEL_TEXTS: seq<string> := ["TRACE", "DEBUG", "INFO", "WARN", "ERROR"]

  /** The layout of a line: prefix, level, target and message, of texts without line breaks. */
  lemma LineLayout(prefix: string, i: nat, target: string, message: string, minimum: LogLevel, stderrFrom: LogLevel)
    requires i < 5 && OneLine(prefix) && OneLine(target) && OneLine(message)
    ensures var plain := ConsoleLogConfig(minimum, stderrFrom, None);
            var named := ConsoleLogConfig(minimum, stderrFrom, Some(prefix));
      && FormatConsoleRecord(plain, LogRecord(LEVELS[i], message, None)) == "[" + LEVEL_TEXTS[i] + "] " + message
      && FormatConsoleRecord(plain, LogRecord(LEVELS[i], message, Some(target)))
         == "[" + LEVEL_TEXTS[i] + "] " + target + ": " + message
      && FormatConsoleRecord(named, LogRecord(LEVELS[i], message, None))
         == prefix + " [" + LEVEL_TEXTS[i] + "] " + message
      && FormatConsoleRecord(named, LogRecord(LEVELS[i], message, Some(target)))
         == prefix + " [" + LEVEL_TEXTS[i] + "] " + target + ": " + message
  {
    EscapedIsOneLine(prefix);
    EscapedIsOneLine(target);
    EscapedIsOneLine(message);
    LevelsAreSpelled(i);
    Layout(prefix, LEVEL_TEXTS[i], target, message);
  }

  lemma LevelsAreSpelled(i: nat)
    requires i < 5
    ensures LevelText(LEVELS[i]) == LEVEL_TEXTS[i] && Rank(LEVELS[i]) == i
  {
  }

  lemma Layout(p: string, l: string, t: string, m: string)
    ensures "" + ("[" + l + "]") + ("" + " " + m) == "[" + l + "] " + m
    ensures "" + ("[" + l + "]") + (" " + t + ":" + " " + m) == "[" + l + "] " + t + ": " + m
    ensures p + " " + ("[" + l + "]") + ("" + " " + m) == p + " [" + l + "] " + m
    ensures p + " " + ("[" + l + "]") + (" " + t + ":" + " " + m) == p + " [" + l + "] " + t + ": " + m
  {
    WithoutTarget(l, m);
    WithTarget(l, t, m);
    var a, b := "[" + l + "] " + m, "[" + l + "] " + t + ": " + m;
    assert p + " [" + l + "] " + m == p + " " + a;
    assert p + " [" + l + "] " + t + ": " + m == p + " " + b;
    assert p + " " + ("[" + l + "]") + ("" + " " + m) == p + " " + (("[" + l + "]") + ("" + " " + m));
    assert p + " " + ("[" + l + "]") + (" " + t + ":" + " " + m)
        == p + " " + (("[" + l + "]") + (" " + t + ":" + " " + m));
  }

  lemma WithoutTarget(l: string, m: string)
    ensures "[" + l + "]" + ("" + " " + m) == "[" + l + "] " + m
  {
    assert "] " == "]" + " ";
  }

  lemma WithTarget(l: string, t: string, m: string)
    ensures "[" + l + "]" + (" " + t + ":" + " " + m) == "[" + l + "] " + t + ": " + m
  {
    assert "] " == "]" + " " && ": " == ":" + " ";
  }

  // ---------- writing ----------

  /** A writer that takes `room` more characters and then fails. */
  class Writer {
    var content: string
    var room: nat

    constructor (room: nat)
      ensures content == "" && this.room == room
    {
      content := "";
      this.room := room;
    }

    method WriteAll(data: string) returns (ok: bool)
      modifies this
      ensures ok <==> |data| <= old(room)
      ensures ok ==> content == old(content) + data && room == old(room) - |data|
      ensures !ok ==> content == old(content) + data[..old(room)] && room == 0
    {
      ok := |data| <= room;
      if ok {
        content, room := content + data, room - |data|;
      } else {
        content, room := content + data[..room], 0;
      }
    }
  }

  /** The line and its newline, or an error after what the writer still took of them. */
  method WriteLine(writer: Writer, line: string) returns (ok: bool)
    modifies writer
    ensures ok <==> |line| + 1 <= old(writer.room)
    ensures ok ==> writer.content == old(writer.content) + line + "\n" && writer.room == old(writer.room) - (|line| + 1)
    ensures !ok ==> writer.content == old(writer.content) + (line + "\n")[..old(writer.room)]
  {
    ok := writer.WriteAll(line);
    if ok {
      ok := writer.WriteAll("\n");
    }
  }

  /** The record passes the filter and goes to this stream. */
  predicate Routed(config: ConsoleLogConfig, record: LogRecord, to: ConsoleDestination) {
    Rank(record.level) >= Rank(config.minimumLevel) && Destination(config, record.level) == to
  }

  /**
   Records below the minimum level go nowhere; of the others, those at or above the threshold go to
   the error stream and the rest to the standard stream.
   */
  lemma RoutingExactly(config: ConsoleLogConfig, record: LogRecord, i: nat, minimum: nat, threshold: nat)
    requires i < 5 && minimum < 5 && threshold < 5
    requires record.level == LEVELS[i]
    requires config.minimumLevel == LEVELS[minimum] && config.stderrFrom == LEVELS[threshold]
    ensures Routed(config, record, Stderr) <==> minimum <= i && threshold <= i
    ensures Routed(config, record, Stdout) <==> minimum <= i < threshold
  {
    LevelsAreSpelled(i);
    LevelsAreSpelled(minimum);
    LevelsAreSpelled(threshold);
  }

  /** What one record adds to one stream. */
  function Piece(config: ConsoleLogConfig, record: LogRecord, to: ConsoleDestination): string {
    if Routed(config, record, to) then FormatConsoleRecord(config, record) + "\n" else ""
  }

  method WriteConsoleRecord(config: ConsoleLogConfig, record: LogRecord, stdout: Writer, stderr: Writer)
    returns (ok: bool)
    requires stdout != stderr
    modifies stdout, stderr
    ensures ok ==> stdout.content == old(stdout.content) + Piece(config, record, Stdout)
    ensures ok ==> stderr.content == old(stderr.content) + Piece(config, record, Stderr)
    ensures ok ==> stdout.room == old(stdout.room) - |Piece(config, record, Stdout)|
    ensures ok ==> stderr.room == old(stderr.room) - |Piece(config, record, Stderr)|
    ensures !Routed(config, record, Stdout) ==> stdout.content == old(stdout.content)
    ensures !Routed(config, record, Stderr) ==> stderr.content == old(stderr.content)
    ensures ok <==> |Piece(config, record, Stdout)| <= old(stdout.room)
                    && |Piece(config, record, Stderr)| <= old(stderr.room)
  {
    if Rank(record.level) < Rank(config.minimumLevel) {
      return true;
    }
    var line := FormatConsoleRecord(config, record);
    match Destination(config, record.level) {
      case Stdout => ok := WriteLine(stdout, line);
      case Stderr => ok := WriteLine(stderr, line);
    }
  }

  // ---------- a whole run ----------

  /** What a stream holds after a run of successful emissions. */
  function Stream(config: ConsoleLogConfig, records: seq<LogRecord>, to: ConsoleDestination): string {
    if records == [] then ""
    else Stream(config, records[..|records| - 1], to) + Piece(config, records[|records| - 1], to)
  }

  function DueLine(config: ConsoleLogConfig, record: LogRecord, to: ConsoleDestination): seq<string> {
    if Routed(config, record, to) then [FormatConsoleRecord(config, record)] else []
  }

  /** The lines due on a stream: the unfiltered records routed there, in order. */
  function DueLines(config: ConsoleLogConfig, records: seq<LogRecord>, to: ConsoleDestination): seq<string> {
    if records == [] then []
    else DueLines(config, records[..|records| - 1], to) + DueLine(config, records[|records| - 1], to)
  }

  function FirstLine(s: string): (r: string)
    ensures |r| <= |s| && r == s[..|r|] && '\n' !in r
    ensures |r| < |s| ==> s[|r|] == '\n'
  {
    if s == "" || s[0] == '\n' then "" else [s[0]] + FirstLine(s[1..])
  }

  /** What a reader makes of a stream of newline-terminated lines. */
  function SplitLines(s: string): seq<string>
    decreases |s|
  {
    var line := FirstLine(s);
    if |line| == |s| then (if s == "" then [] else [line])
    else [line] + SplitLines(s[|line| + 1..])
  }

  lemma {:induction false} FirstLineOf(line: string, rest: string)
    requires '\n' !in line
    ensures FirstLine(line + "\n" + rest) == line
  {
    if line != "" {
      assert (line + "\n" + rest)[1..] == line[1..] + "\n" + rest;
      FirstLineOf(line[1..], rest);
    }
  }

  ghost predicate Terminated(s: string) {
    s == "" || s[|s| - 1] == '\n'
  }

  /** Splitting takes off one terminated line. */
  lemma SplitStep(line: string, rest: string)
    requires '\n' !in line
    ensures SplitLines(line + "\n" + rest) == [line] + SplitLines(rest)
  {
    FirstLineOf(line, rest);
    assert (line + "\n" + rest)[|line| + 1..] == rest;
  }

  lemma Regroup(first: string, rest: string, line: string)
    ensures first + "\n" + rest + line + "\n" == first + "\n" + (rest + line + "\n")
  {
  }

  lemma CutFirstLine(s: string) returns (first: string, rest: string)
    requires Terminated(s) && s != ""
    ensures s == first + "\n" + rest && '\n' !in first && Terminated(rest) && |rest| < |s|
  {
    first := FirstLine(s);
    rest := s[|first| + 1..];
  }

  lemma {:induction false} SplitAppend(s: string, line: string)
    requires Terminated(s) && '\n' !in line
    ensures SplitLines(s + line + "\n") == SplitLines(s) + [line]
    decreases |s|
  {
    if s == "" {
      SplitStep(line, "");
      assert s + line + "\n" == line + "\n" + "";
    } else {
      var first, rest := CutFirstLine(s);
      Regroup(first, rest, line);
      SplitStep(first, rest);
      SplitStep(first, rest + line + "\n");
      SplitAppend(rest, line);
      assert [first] + (SplitLines(rest) + [line]) == [first] + SplitLines(rest) + [line];
    }
  }

  lemma AppendPiece(s: string, config: ConsoleLogConfig, record: LogRecord, to: ConsoleDestination)
    requires Terminated(s)
    ensures SplitLines(s + Piece(config, record, to)) == SplitLines(s) + DueLine(config, record, to)
    ensures Terminated(s + Piece(config, record, to))
  {
    if Routed(config, record, to) {
      var line := FormatConsoleRecord(config, record);
      FormattedIsOneLine(config, record);
      SplitAppend(s, line);
      assert s + (line + "\n") == s + line + "\n";
    } else {
      assert s + "" == s;
    }
  }

  /**
   Splitting a stream at its newlines gives exactly the formatted lines of the unfiltered records
   routed to it, in emission order: no prefix, target or message can forge or merge lines.
   */
  lemma {:induction false} OneRecordPerLine(config: ConsoleLogConfig, records: seq<LogRecord>, to: ConsoleDestination)
    ensures SplitLines(Stream(config, records, to)) == DueLines(config, records, to)
    ensures Terminated(Stream(config, records, to))
  {
    if records != [] {
      var front := records[..|records| - 1];
      OneRecordPerLine(config, front, to);
      AppendPiece(Stream(config, front, to), config, records[|records| - 1], to);
    }
  }

  /** After `base`, the stream holds what the first `i` records add to it. */
  predicate Holds(content: string, base: string, config: ConsoleLogConfig, records: seq<LogRecord>, i: nat,
                  to: ConsoleDestination)
    requires i <= |records|
  {
    content == base + Stream(config, records[..i], to)
  }

  lemma HoldsOneMore(content: string, base: string, config: ConsoleLogConfig, records: seq<LogRecord>, i: nat,
                     to: ConsoleDestination)
    requires i < |records| && Holds(content, base, config, records, i, to)
    ensures Holds(content + Piece(config, records[i], to), base, config, records, i + 1, to)
  {
    assert records[..i + 1][..i] == records[..i];
    Associative(base, Stream(config, records[..i], to), Piece(config, records[i], to));
  }

  /** What is due after `i + 1` records is what is due after `i` and one more piece. */
  lemma OneMoreStream(config: ConsoleLogConfig, records: seq<LogRecord>, i: nat, to: ConsoleDestination)
    requires i < |records|
    ensures |Stream(config, records[..i + 1], to)|
         == |Stream(config, records[..i], to)| + |Piece(config, records[i], to)|
    ensures |Stream(config, records[..i + 1], to)| <= |Stream(config, records, to)|
  {
    assert records[..i + 1][..i] == records[..i];
    PrefixFits(config, records, i + 1, to);
  }

  lemma Associative(a: string, b: string, c: string)
    ensures a + b + c == a + (b + c)
  {
  }

  lemma HoldsAll(content: string, base: string, config: ConsoleLogConfig, records: seq<LogRecord>,
                 to: ConsoleDestination)
    requires Holds(content, base, config, records, |records|, to)
    ensures content == base + Stream(config, records, to)
  {
    assert records[..|records|] == records;
  }

  lemma {:induction false} PrefixFits(config: ConsoleLogConfig, records: seq<LogRecord>, i: nat, to: ConsoleDestination)
    requires i <= |records|
    ensures |Stream(config, records[..i], to)| <= |Stream(config, records, to)|
    decreases |records|
  {
    if i < |records| {
      var front := records[..|records| - 1];
      PrefixFits(config, front, i, to);
      assert front[..i] == records[..i];
    } else {
      assert records[..i] == records;
    }
  }

  /**
   A run of emissions succeeds exactly when both writers take all of it, and then leaves on each the
   stream that `OneRecordPerLine` reads.
   */
  method EmitAll(config: ConsoleLogConfig, records: seq<LogRecord>, stdout: Writer, stderr: Writer)
    returns (ok: bool)
    requires stdout != stderr
    modifies stdout, stderr
    ensures ok ==> stdout.content == old(stdout.content) + Stream(config, records, Stdout)
    ensures ok ==> stderr.content == old(stderr.content) + Stream(config, records, Stderr)
    ensures ok <==> |Stream(config, records, Stdout)| <= old(stdout.room)
                    && |Stream(config, records, Stderr)| <= old(stderr.room)
  {
    for i := 0 to |records|
      invariant Holds(stdout.content, old(stdout.content), config, records, i, Stdout)
      invariant Holds(stderr.content, old(stderr.content), config, records, i, Stderr)
      invariant stdout.room == old(stdout.room) - |Stream(config, records[..i], Stdout)|
      invariant stderr.room == old(stderr.room) - |Stream(config, records[..i], Stderr)|
    {
      OneMoreStream(config, records, i, Stdout);
      OneMoreStream(config, records, i, Stderr);
      HoldsOneMore(stdout.content, old(stdout.content), config, records, i, Stdout);
      HoldsOneMore(stderr.content, old(stderr.content), config, records, i, Stderr);
      ok := WriteConsoleRecord(config, records[i], stdout, stderr);
      if !ok {
        return;
      }
    }
    assert records[..|records|] == records;
    HoldsAll(stdout.content, old(stdout.content), config, records, Stdout);
    HoldsAll(stderr.content, old(stderr.content), config, records, Stderr);
    ok := true;
  }
}
