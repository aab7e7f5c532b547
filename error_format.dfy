/** The message formatter behind the error, warning and message macros: an
    already formatted text is printed as a block of lines of at most 65
    characters, indented by 5 spaces.  Tabs become four spaces, a newline
    ends the line, and a line is wrapped at the whitespace before a word that
    would not fit. */
module ErrorFormat {
  import opened Wrappers

  /** The width of the line buffer, and of every printed line. */
  const LineWidth: nat := 65

  /** The size of the buffer the text is formatted into, terminator
      included. */
  const BufferSize: nat := 10000

  const Indent: seq<char> := "     "

  /** A tab that arrives at column 62 or later would be written past the end
      of the line buffer: the source's behaviour is undefined there. */
  datatype FormatError = TabPastLineEnd(pos: nat)

  /** The character at position i of the C string: the terminator after the
      end of the text. */
  function CharAt(buffer: seq<char>, i: nat): char {
    if i < |buffer| then buffer[i] else '\0'
  }

  /** The characters that end a word. */
  predicate EndsWord(c: char) {
    c == '\t' || c == ' ' || c == '\n' || c == '\0'
  }

  predicate IsWhitespace(c: char) {
    c == ' ' || c == '\t'
  }

  /** The offset from pos of the first character at or after offset k that
      ends a word: `nextpos` of the source, started at k = 1. */
  function NextWordEnd(buffer: seq<char>, pos: nat, k: nat): (r: nat)
    requires k >= 1
    decreases |buffer| - (pos + k)
    ensures r >= k && EndsWord(CharAt(buffer, pos + r))
    ensures forall j :: pos + k <= j < pos + r ==> !EndsWord(CharAt(buffer, j))
    ensures pos + k <= |buffer| ==> pos + r <= |buffer|
  {
    if EndsWord(CharAt(buffer, pos + k)) then k else NextWordEnd(buffer, pos, k + 1)
  }

  /** The line buffer after a whitespace character: a tab contributes four
      spaces, a space one. */
  function Widen(cur: seq<char>, c: char): seq<char> {
    if c == '\t' then cur + "    " else cur + " "
  }

  /** The formatter as a state machine over the position in the text, the
      current line `cur` (the first linepos characters of the line buffer)
      and the lines printed so far. */
  function RunFrom(buffer: seq<char>, pos: nat, cur: seq<char>, out: seq<seq<char>>)
    : Result<seq<seq<char>>, FormatError>
    requires |cur| < LineWidth
    decreases |buffer| - pos
  {
    var c := CharAt(buffer, pos);
    if c == '\0' then
      // the trailing partial line, if any
      Success(if |cur| > 0 then out + [cur] else out)
    else if c == '\n' then
      RunFrom(buffer, pos + 1, [], out + [cur])
    else if IsWhitespace(c) then
      if c == '\t' && |cur| + 4 > LineWidth then
        Failure(TabPastLineEnd(pos))
      else
        var widened := Widen(cur, c);
        if |widened| + NextWordEnd(buffer, pos, 1) > LineWidth then
          // the line is cut before the whitespace and printed
          RunFrom(buffer, pos + 1, [], out + [cur])
        else
          RunFrom(buffer, pos + 1, widened, out)
    else
      var extended := cur + [c];
      if |extended| == LineWidth then
        RunFrom(buffer, pos + 1, [], out + [extended])
      else
        RunFrom(buffer, pos + 1, extended, out)
  }

  /** The lines print_indent prints for a text. It fails only at a tab, so a
      text without tabs is always printed. */
  function Wrap(buffer: seq<char>): (r: Result<seq<seq<char>>, FormatError>)
    ensures r.Failure? ==> r.error.pos < |buffer| && buffer[r.error.pos] == '\t'
  {
    OverflowNeedsTab(buffer, 0, [], []);
    RunFrom(buffer, 0, [], [])
  }

  /** print_indent: the scan over the text with a 65-character line buffer. */
  method PrintIndent(buffer: seq<char>) returns (r: Result<seq<seq<char>>, FormatError>)
    requires |buffer| < BufferSize
    ensures r == Wrap(buffer)
  {
    var pos := 0;
    var linepos := 0;
    var line := new char[LineWidth];
    var lines: seq<seq<char>> := [];
    while CharAt(buffer, pos) != '\0'
      invariant 0 <= pos <= |buffer| && 0 <= linepos < LineWidth
      invariant RunFrom(buffer, pos, line[..linepos], lines) == Wrap(buffer)
      decreases |buffer| - pos
    {
      if buffer[pos] == '\n' {
        lines := lines + [line[..linepos]];
        pos := pos + 1;
        linepos := 0;
      } else {
        ghost var cur := line[..linepos];
        // the number of characters printed if the line is flushed below
        var lineLength := LineWidth;
        if buffer[pos] == ' ' || buffer[pos] == '\t' {
          var oldLinepos := linepos;
          if buffer[pos] == '\t' {
            if linepos + 4 > LineWidth {
              return Failure(TabPastLineEnd(pos));
            }
            for j := 0 to 4
              invariant linepos == oldLinepos + j
              invariant line[..oldLinepos] == cur
              invariant forall m :: oldLinepos <= m < linepos ==> line[m] == ' '
            {
              line[linepos] := ' ';
              linepos := linepos + 1;
            }
          } else {
            line[linepos] := ' ';
            linepos := linepos + 1;
          }
          assert line[..linepos] == Widen(cur, buffer[pos]);
          // find the end of the next word
          var nextpos := 1;
          while !EndsWord(CharAt(buffer, pos + nextpos))
            invariant 1 <= nextpos && pos + nextpos <= |buffer|
            invariant NextWordEnd(buffer, pos, nextpos) == NextWordEnd(buffer, pos, 1)
            decreases |buffer| - (pos + nextpos)
          {
            nextpos := nextpos + 1;
          }
          if linepos + nextpos > LineWidth {
            line[oldLinepos] := '\0';
            lineLength := oldLinepos;
            linepos := LineWidth;
          }
        } else {
          line[linepos] := buffer[pos];
          linepos := linepos + 1;
          assert line[..linepos] == cur + [buffer[pos]];
        }
        if linepos == LineWidth {
          lines := lines + [line[..lineLength]];
          linepos := 0;
        }
        pos := pos + 1;
      }
    }
    if linepos > 0 {
      line[linepos] := '\0';
      lines := lines + [line[..linepos]];
    }
    return Success(lines);
  }

  /** Every printed line fits in the 65 columns. */
  lemma {:induction false} RunFromLinesFit(buffer: seq<char>, pos: nat, cur: seq<char>, out: seq<seq<char>>)
    requires |cur| < LineWidth
    requires forall l :: l in out ==> |l| <= LineWidth
    ensures RunFrom(buffer, pos, cur, out).Success? ==>
      forall l :: l in RunFrom(buffer, pos, cur, out).value ==> |l| <= LineWidth
    decreases |buffer| - pos
  {
    var c := CharAt(buffer, pos);
    if c == '\0' {
    } else if c == '\n' {
      RunFromLinesFit(buffer, pos + 1, [], out + [cur]);
    } else if IsWhitespace(c) {
      if !(c == '\t' && |cur| + 4 > LineWidth) {
        var widened := Widen(cur, c);
        if |widened| + NextWordEnd(buffer, pos, 1) > LineWidth {
          RunFromLinesFit(buffer, pos + 1, [], out + [cur]);
        } else {
          RunFromLinesFit(buffer, pos + 1, widened, out);
        }
      }
    } else {
      var extended := cur + [c];
      if |extended| == LineWidth {
        RunFromLinesFit(buffer, pos + 1, [], out + [extended]);
      } else {
        RunFromLinesFit(buffer, pos + 1, extended, out);
      }
    }
  }

  lemma LinesFit(buffer: seq<char>)
    ensures Wrap(buffer).Success? ==> forall l :: l in Wrap(buffer).value ==> |l| <= LineWidth
  {
    RunFromLinesFit(buffer, 0, [], []);
  }

  /** Lines are only ever added: the result extends the lines printed so far,
      and a pending character or partial line always leads to one more line. */
  lemma {:induction false} RunFromEmits(buffer: seq<char>, pos: nat, cur: seq<char>, out: seq<seq<char>>)
    requires |cur| < LineWidth
    ensures var r := RunFrom(buffer, pos, cur, out);
      r.Success? ==>
        (|r.value| >= |out| && r.value[..|out|] == out &&
         (|cur| > 0 || CharAt(buffer, pos) != '\0' ==> |r.value| > |out|))
    decreases |buffer| - pos
  {
    var c := CharAt(buffer, pos);
    if c == '\0' {
    } else if c == '\n' {
      RunFromEmits(buffer, pos + 1, [], out + [cur]);
    } else if IsWhitespace(c) {
      if !(c == '\t' && |cur| + 4 > LineWidth) {
        var widened := Widen(cur, c);
        if |widened| + NextWordEnd(buffer, pos, 1) > LineWidth {
          RunFromEmits(buffer, pos + 1, [], out + [cur]);
        } else {
          RunFromEmits(buffer, pos + 1, widened, out);
        }
      }
    } else {
      var extended := cur + [c];
      if |extended| == LineWidth {
        RunFromEmits(buffer, pos + 1, [], out + [extended]);
      } else {
        RunFromEmits(buffer, pos + 1, extended, out);
      }
    }
  }

  /** An empty text prints nothing; any other text prints at least one line. */
  lemma EmitsNothingOnlyForEmptyText(buffer: seq<char>)
    ensures Wrap(buffer).Success? ==> (Wrap(buffer).value == [] <==> CharAt(buffer, 0) == '\0')
  {
    RunFromEmits(buffer, 0, [], []);
  }

  /** The characters of the text up to its terminator. */
  function Payload(buffer: seq<char>, pos: nat): seq<char>
    decreases |buffer| - pos
  {
    if CharAt(buffer, pos) == '\0' then [] else [buffer[pos]] + Payload(buffer, pos + 1)
  }

  /** The characters of s that are not whitespace or newlines, in order. */
  function Visible(s: seq<char>): seq<char> {
    if s == [] then []
    else (if IsWhitespace(s[0]) || s[0] == '\n' then [] else [s[0]]) + Visible(s[1..])
  }

  /** The lines printed one after another. */
  function Concat(lines: seq<seq<char>>): seq<char> {
    if lines == [] then [] else Concat(lines[..|lines| - 1]) + lines[|lines| - 1]
  }

  lemma {:induction false} VisibleOfConcatenation(a: seq<char>, b: seq<char>)
    ensures Visible(a + b) == Visible(a) + Visible(b)
  {
    if a == [] {
      assert a + b == b;
    } else {
      assert (a + b)[1..] == a[1..] + b;
      VisibleOfConcatenation(a[1..], b);
    }
  }

  lemma VisibleOfBlanks(cur: seq<char>, c: char)
    requires IsWhitespace(c)
    ensures Visible(Widen(cur, c)) == Visible(cur)
  {
    var blanks: seq<char> := if c == '\t' then "    " else " ";
    assert Widen(cur, c) == cur + blanks;
    VisibleOfConcatenation(cur, blanks);
    if c == '\t' {
      assert Visible(" ") == [] by { assert " "[1..] == []; }
      assert Visible("  ") == [] by { assert "  "[1..] == " "; }
      assert Visible("   ") == [] by { assert "   "[1..] == "  "; }
      assert Visible("    ") == [] by { assert "    "[1..] == "   "; }
    } else {
      assert blanks[1..] == [];
    }
  }

  lemma VisibleOfAppendedLine(out: seq<seq<char>>, l: seq<char>)
    ensures Visible(Concat(out + [l])) == Visible(Concat(out)) + Visible(l)
  {
    assert (out + [l])[..|out|] == out;
    VisibleOfConcatenation(Concat(out), l);
  }

  /** The visible characters of a text are those of its first character
      followed by those of the rest. */
  lemma VisibleOfFirst(buffer: seq<char>, pos: nat)
    requires CharAt(buffer, pos) != '\0'
    ensures Visible(Payload(buffer, pos)) == Visible([buffer[pos]]) + Visible(Payload(buffer, pos + 1))
  {
    VisibleOfConcatenation([buffer[pos]], Payload(buffer, pos + 1));
  }

  lemma VisibleOfOne(c: char)
    ensures Visible([c]) == if IsWhitespace(c) || c == '\n' then [] else [c]
  {
    assert [c][1..] == [];
  }

  /** A step that prints the line l, holding the current line and the
      character read, keeps the visible text: what the printed lines carry
      after the step, they carried before it. */
  lemma StepPrintsLine(r: seq<seq<char>>, out: seq<seq<char>>, cur: seq<char>, l: seq<char>,
                       first: seq<char>, rest: seq<char>)
    requires Visible(l) == Visible(cur) + first
    requires Visible(Concat(r)) == Visible(Concat(out + [l])) + Visible([]) + rest
    ensures Visible(Concat(r)) == Visible(Concat(out)) + Visible(cur) + (first + rest)
  {
    VisibleOfAppendedLine(out, l);
  }

  /** A step that only grows the current line to next keeps the visible
      text. */
  lemma StepGrowsLine(r: seq<seq<char>>, out: seq<seq<char>>, cur: seq<char>, next: seq<char>,
                      first: seq<char>, rest: seq<char>)
    requires Visible(next) == Visible(cur) + first
    requires Visible(Concat(r)) == Visible(Concat(out)) + Visible(next) + rest
    ensures Visible(Concat(r)) == Visible(Concat(out)) + Visible(cur) + (first + rest)
  {
  }

  /** The characters that are neither whitespace nor newlines reach the
      printed lines in input order, none lost and none added. */
  lemma {:induction false} RunFromKeepsVisibleText(buffer: seq<char>, pos: nat, cur: seq<char>,
                                                   out: seq<seq<char>>)
    requires |cur| < LineWidth
    ensures var r := RunFrom(buffer, pos, cur, out);
      r.Success? ==>
        Visible(Concat(r.value)) == Visible(Concat(out)) + Visible(cur) + Visible(Payload(buffer, pos))
    decreases |buffer| - pos
  {
    var r := RunFrom(buffer, pos, cur, out);
    var c := CharAt(buffer, pos);
    if c == '\0' {
      if |cur| > 0 {
        VisibleOfAppendedLine(out, cur);
      }
    } else if r.Success? {
      VisibleOfFirst(buffer, pos);
      VisibleOfOne(c);
      var first := Visible([buffer[pos]]);
      var rest := Visible(Payload(buffer, pos + 1));
      if c == '\n' {
        assert r == RunFrom(buffer, pos + 1, [], out + [cur]);
        RunFromKeepsVisibleText(buffer, pos + 1, [], out + [cur]);
        StepPrintsLine(r.value, out, cur, cur, first, rest);
      } else if IsWhitespace(c) {
        var widened := Widen(cur, c);
        if |widened| + NextWordEnd(buffer, pos, 1) > LineWidth {
          assert r == RunFrom(buffer, pos + 1, [], out + [cur]);
          RunFromKeepsVisibleText(buffer, pos + 1, [], out + [cur]);
          StepPrintsLine(r.value, out, cur, cur, first, rest);
        } else {
          VisibleOfBlanks(cur, c);
          assert r == RunFrom(buffer, pos + 1, widened, out);
          RunFromKeepsVisibleText(buffer, pos + 1, widened, out);
          StepGrowsLine(r.value, out, cur, widened, first, rest);
        }
      } else {
        var extended := cur + [c];
        VisibleOfConcatenation(cur, [c]);
        if |extended| == LineWidth {
          assert r == RunFrom(buffer, pos + 1, [], out + [extended]);
          RunFromKeepsVisibleText(buffer, pos + 1, [], out + [extended]);
          StepPrintsLine(r.value, out, cur, extended, first, rest);
        } else {
          assert r == RunFrom(buffer, pos + 1, extended, out);
          RunFromKeepsVisibleText(buffer, pos + 1, extended, out);
          StepGrowsLine(r.value, out, cur, extended, first, rest);
        }
      }
    }
  }

  lemma KeepsVisibleText(buffer: seq<char>)
    ensures Wrap(buffer).Success? ==> Visible(Concat(Wrap(buffer).value)) == Visible(Payload(buffer, 0))
  {
    RunFromKeepsVisibleText(buffer, 0, [], []);
  }

  /** A word that fits on the current line is copied into it character by
      character. */
  lemma {:induction false} CopyWord(buffer: seq<char>, pos: nat, k: nat, cur: seq<char>, out: seq<seq<char>>)
    requires |cur| + k < LineWidth && pos + k <= |buffer|
    requires forall j :: pos <= j < pos + k ==> !EndsWord(buffer[j])
    ensures RunFrom(buffer, pos, cur, out) == RunFrom(buffer, pos + k, cur + buffer[pos..pos + k], out)
    decreases k
  {
    if k == 0 {
      assert cur + buffer[pos..pos] == cur;
    } else {
      assert CharAt(buffer, pos) == buffer[pos];
      CopyWord(buffer, pos + 1, k - 1, cur + [buffer[pos]], out);
      assert cur + [buffer[pos]] + buffer[pos + 1..pos + k] == cur + buffer[pos..pos + k];
    }
  }

  /** Wrapping: when the whitespace and the following word would pass the
      65th column, the line is printed as it was before the whitespace, and a
      word shorter than a line starts the next line. */
  lemma WrapStartsWordOnNewLine(buffer: seq<char>, pos: nat, cur: seq<char>, out: seq<seq<char>>)
    requires |cur| < LineWidth && pos < |buffer| && IsWhitespace(buffer[pos])
    requires !(buffer[pos] == '\t' && |cur| + 4 > LineWidth)
    requires |Widen(cur, buffer[pos])| + NextWordEnd(buffer, pos, 1) > LineWidth
    requires NextWordEnd(buffer, pos, 1) <= LineWidth
    ensures var next := NextWordEnd(buffer, pos, 1);
      pos + next <= |buffer| &&
      RunFrom(buffer, pos, cur, out) == RunFrom(buffer, pos + next, buffer[pos + 1..pos + next], out + [cur])
  {
    var next := NextWordEnd(buffer, pos, 1);
    forall j | pos + 1 <= j < pos + next
      ensures !EndsWord(buffer[j])
    {
      assert !EndsWord(CharAt(buffer, j));
    }
    CopyWord(buffer, pos + 1, next - 1, [], out + [cur]);
    assert [] + buffer[pos + 1..pos + 1 + (next - 1)] == buffer[pos + 1..pos + next];
  }

  /** A newline prints the current line and starts an empty one. */
  lemma NewlineFlushes(buffer: seq<char>, pos: nat, cur: seq<char>, out: seq<seq<char>>)
    requires |cur| < LineWidth && pos < |buffer| && buffer[pos] == '\n'
    ensures RunFrom(buffer, pos, cur, out) == RunFrom(buffer, pos + 1, [], out + [cur])
  {
  }

  /** A tab or space that does not cause a wrap adds four blanks or one blank
      to the line. */
  lemma WhitespaceWidens(buffer: seq<char>, pos: nat, cur: seq<char>, out: seq<seq<char>>)
    requires |cur| < LineWidth && pos < |buffer| && IsWhitespace(buffer[pos])
    requires !(buffer[pos] == '\t' && |cur| + 4 > LineWidth)
    requires |Widen(cur, buffer[pos])| + NextWordEnd(buffer, pos, 1) <= LineWidth
    ensures |Widen(cur, buffer[pos])| == |cur| + (if buffer[pos] == '\t' then 4 else 1)
    ensures RunFrom(buffer, pos, cur, out) == RunFrom(buffer, pos + 1, Widen(cur, buffer[pos]), out)
  {
  }

  /** Only a tab can take the line buffer past its end: a failure names the
      position of a tab in the text. */
  lemma {:induction false} OverflowNeedsTab(buffer: seq<char>, pos: nat, cur: seq<char>, out: seq<seq<char>>)
    requires |cur| < LineWidth
    ensures var r := RunFrom(buffer, pos, cur, out);
      r.Failure? ==> pos <= r.error.pos < |buffer| && buffer[r.error.pos] == '\t'
    decreases |buffer| - pos
  {
    var c := CharAt(buffer, pos);
    if c == '\0' {
    } else if c == '\n' {
      OverflowNeedsTab(buffer, pos + 1, [], out + [cur]);
    } else if IsWhitespace(c) {
      var widened := Widen(cur, c);
      if c == '\t' && |cur| + 4 > LineWidth {
      } else if |widened| + NextWordEnd(buffer, pos, 1) > LineWidth {
        OverflowNeedsTab(buffer, pos + 1, [], out + [cur]);
      } else {
        OverflowNeedsTab(buffer, pos + 1, widened, out);
      }
    } else {
      var extended := cur + [c];
      if |extended| == LineWidth {
        OverflowNeedsTab(buffer, pos + 1, [], out + [extended]);
      } else {
        OverflowNeedsTab(buffer, pos + 1, extended, out);
      }
    }
  }

  function Blanks(n: nat): (s: seq<char>)
    ensures |s| == n && forall i :: 0 <= i < n ==> s[i] == ' '
  {
    if n == 0 then [] else Blanks(n - 1) + [' ']
  }

  /** One printed line: the five-space indent, the line left-justified in at
      least 65 columns, and a newline. */
  function PrintedLine(line: seq<char>): (s: seq<char>)
    ensures |s| == |Indent| + (if |line| < LineWidth then LineWidth else |line|) + 1
    ensures s[..|Indent|] == Indent && s[|Indent|..|Indent| + |line|] == line
    ensures forall i :: |Indent| + |line| <= i < |s| - 1 ==> s[i] == ' '
    ensures s[|s| - 1] == '\n'
  {
    Indent + line + Blanks(if |line| < LineWidth then LineWidth - |line| else 0) + "\n"
  }

  function PrintedLines(lines: seq<seq<char>>): seq<char> {
    if lines == [] then [] else PrintedLine(lines[0]) + PrintedLines(lines[1..])
  }

  /** The base-10 digits of n, as `%i` prints a non-negative line number:
      no leading zero unless n is 0. */
  function Decimal(n: nat): (s: seq<char>)
    ensures |s| > 0 && forall i :: 0 <= i < |s| ==> '0' <= s[i] <= '9'
    ensures s[0] == '0' <==> n == 0
  {
    var digit := ['0' + (n % 10) as char];
    if n < 10 then digit else Decimal(n / 10) + digit
  }

  /** The number a string of decimal digits denotes, most significant
      digit first. */
  function DigitsValue(s: seq<char>): nat
    requires forall i :: 0 <= i < |s| ==> '0' <= s[i] <= '9'
  {
    if s == [] then 0
    else DigitsValue(s[..|s| - 1]) * 10 + ((s[|s| - 1] as int) - ('0' as int))
  }

  /** The digits Decimal prints denote the line number. */
  lemma {:induction false} DecimalDenotesNumber(n: nat)
    ensures DigitsValue(Decimal(n)) == n
    decreases n
  {
    var digit := ['0' + (n % 10) as char];
    if n >= 10 {
      DecimalDenotesNumber(n / 10);
      var s := Decimal(n / 10) + digit;
      assert s[..|s| - 1] == Decimal(n / 10);
    } else {
      assert digit[..0] == [];
    }
  }

  /** Where a macro is used: file, function and line. */
  datatype Location = Location(file: seq<char>, functionName: seq<char>, line: nat)

  datatype Stream = StdOut | StdErr

  /** What a macro writes, to which stream, and whether it then aborts. */
  datatype Report = Report(stream: Stream, output: seq<char>, aborts: bool)

  /** The first line of a report: file, function and line number, each
      followed by a colon, then the kind of report. */
  function Header(at: Location, kind: seq<char>): (h: seq<char>)
    ensures var digitsStart := |at.file| + 1 + |at.functionName| + 3;
      |h| == digitsStart + |Decimal(at.line)| + 1 + |kind| + 1 &&
      h[..|at.file|] == at.file && h[|at.file|] == ':' &&
      h[|at.file| + 1..digitsStart - 3] == at.functionName && h[digitsStart - 3..digitsStart] == "():" &&
      h[digitsStart..|h| - |kind| - 2] == Decimal(at.line) &&
      h[|h| - |kind| - 2] == ':' && h[|h| - |kind| - 1..] == kind + "\n"
  {
    at.file + ":" + at.functionName + "():" + Decimal(at.line) + ":" + kind + "\n"
  }

  method Emit(stream: Stream, header: seq<char>, text: seq<char>, aborts: bool)
    returns (r: Result<Report, FormatError>)
    requires |text| < BufferSize
    ensures Wrap(text).Failure? ==> r == Failure(Wrap(text).error)
    ensures Wrap(text).Success? ==>
      r.Success? && r.value.stream == stream && r.value.aborts == aborts &&
      r.value.output == header + PrintedLines(Wrap(text).value)
  {
    var wrapped := PrintIndent(text);
    if wrapped.Failure? {
      return Failure(wrapped.error);
    }
    return Success(Report(stream, header + PrintedLines(wrapped.value), aborts));
  }

  /** error: the location and the wrapped text on stderr, then abort. */
  method Error(at: Location, text: seq<char>) returns (r: Result<Report, FormatError>)
    requires |text| < BufferSize
    ensures Wrap(text).Failure? ==> r == Failure(Wrap(text).error)
    ensures Wrap(text).Success? ==>
      r.Success? && r.value.stream == StdErr && r.value.aborts &&
      r.value.output == Header(at, " Error:") + PrintedLines(Wrap(text).value)
  {
    r := Emit(StdErr, Header(at, " Error:"), text, true);
  }

  /** warning: the location and the wrapped text on stderr. */
  method Warning(at: Location, text: seq<char>) returns (r: Result<Report, FormatError>)
    requires |text| < BufferSize
    ensures Wrap(text).Failure? ==> r == Failure(Wrap(text).error)
    ensures Wrap(text).Success? ==>
      r.Success? && r.value.stream == StdErr && !r.value.aborts &&
      r.value.output == Header(at, " Warning:") + PrintedLines(Wrap(text).value)
  {
    r := Emit(StdErr, Header(at, " Warning:"), text, false);
  }

  /** message: the location and the wrapped text on stdout. */
  method Message(at: Location, text: seq<char>) returns (r: Result<Report, FormatError>)
    requires |text| < BufferSize
    ensures Wrap(text).Failure? ==> r == Failure(Wrap(text).error)
    ensures Wrap(text).Success? ==>
      r.Success? && r.value.stream == StdOut && !r.value.aborts &&
      r.value.output == Header(at, "") + PrintedLines(Wrap(text).value)
  {
    r := Emit(StdOut, Header(at, ""), text, false);
  }
}
