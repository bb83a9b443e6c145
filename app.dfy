/**
 * The application state that the engine feeds: the stdin content read so
 * far, the last good output and the error banner, with the two updates
 * that change them (a command result arriving, a stdin line arriving), and
 * the two string helpers behind the output panel's title.
 */
module App {
  import opened Wrappers
  import opened GoStrings
  import opened Pipeline

  // ---------------------------------------------------------------------------
  // Counting lines.

  /** `countLines`: the number of newlines, plus one for a last line that has
   *  no newline after it; the empty text has no lines. */
  function CountLines(s: string): (n: nat)
    ensures n == 0 <==> s == ""
  {
    if s == "" then 0
    else
      assert s[|s| - 1] in s;
      Count(s, '\n') + (if HasSuffix(s, "\n") then 0 else 1)
  }

  /** The stdin content after reading `lines`: every line followed by a
   *  newline, in the order they arrived. */
  function JoinLines(lines: seq<string>): (s: string)
    ensures s == "" || HasSuffix(s, "\n")
  {
    if lines == [] then ""
    else JoinLines(lines[..|lines| - 1]) + lines[|lines| - 1] + "\n"
  }

  /** No line has a newline of its own (what a line scanner produces). */
  predicate SingleLines(lines: seq<string>) {
    forall k :: 0 <= k < |lines| ==> '\n' !in lines[k]
  }

  /** The count agrees with Go's `strings.Split` on newlines: one line per
   *  piece, except an empty last piece (the text after a final newline). */
  lemma CountLinesSplit(s: string)
    ensures var pieces := SplitOn(s, '\n');
      CountLines(s) == |pieces| - (if pieces[|pieces| - 1] == [] then 1 else 0)
  {
    SplitOnProperties(s, '\n');
    LastLineEmpty(s);
  }

  /** The last piece of a split on newlines is empty exactly when the text
   *  is empty or ends with a newline. */
  lemma LastLineEmpty(s: string)
    ensures var pieces := SplitOn(s, '\n');
      pieces[|pieces| - 1] == [] <==> s == "" || HasSuffix(s, "\n")
  {
    SplitOnLast(s, '\n');
    var pieces := SplitOn(s, '\n');
    var last := pieces[|pieces| - 1];
    if s != "" && last != [] {
      assert s[|s| - 1] == last[|last| - 1];
    }
  }

  /** Newline-terminated lines are counted one each. */
  lemma {:induction false} CountJoinedLines(lines: seq<string>)
    requires SingleLines(lines)
    ensures Count(JoinLines(lines), '\n') == |lines|
    ensures CountLines(JoinLines(lines)) == |lines|
  {
    if lines != [] {
      var init := lines[..|lines| - 1];
      var last := lines[|lines| - 1];
      SingleLinesInit(lines);
      CountJoinedLines(init);
      CountAppend(JoinLines(init), last, '\n');
      CountAppend(JoinLines(init) + last, "\n", '\n');
    }
  }

  /** The panel title counts the displayed output, which has its final
   *  newline removed: still one line per stdin line, as long as the last
   *  one is not empty. */
  lemma DisplayedLineCount(lines: seq<string>)
    requires SingleLines(lines)
    requires lines == [] || lines[|lines| - 1] != ""
    ensures CountLines(TrimSuffix(JoinLines(lines), "\n")) == |lines|
  {
    if lines != [] {
      TrimLastNewline(lines);
      SingleLinesInit(lines);
      CountUnterminated(lines[..|lines| - 1], lines[|lines| - 1]);
    }
  }

  /** Lines read so far, followed by a last line without its newline. */
  lemma CountUnterminated(init: seq<string>, last: string)
    requires SingleLines(init) && '\n' !in last && last != ""
    ensures CountLines(JoinLines(init) + last) == |init| + 1
  {
    var t := JoinLines(init) + last;
    CountJoinedLines(init);
    CountAppend(JoinLines(init), last, '\n');
    assert t[|t| - 1] == last[|last| - 1];
  }

  /** Removing the final newline of the stdin content leaves the last line
   *  without its newline. */
  lemma TrimLastNewline(lines: seq<string>)
    requires lines != []
    ensures TrimSuffix(JoinLines(lines), "\n") == JoinLines(lines[..|lines| - 1]) + lines[|lines| - 1]
  {
    var t := JoinLines(lines[..|lines| - 1]) + lines[|lines| - 1];
    assert JoinLines(lines) == t + "\n";
    assert (t + "\n")[..|t|] == t;
  }

  lemma SingleLinesInit(lines: seq<string>)
    requires lines != [] && SingleLines(lines)
    ensures SingleLines(lines[..|lines| - 1])
  {
    var init := lines[..|lines| - 1];
    forall k | 0 <= k < |init| ensures '\n' !in init[k] {
      assert init[k] == lines[k];
    }
  }

  // ---------------------------------------------------------------------------
  // The output panel's top border.

  /** The box-drawing character the border is filled with. */
  const Filler := '─'

  /** Fillers before the title when there is room for them. */
  const Lead := 4

  /** How many fillers go before the title of a border `width` wide. */
  function LeftFill(title: string, width: int): int {
    if width <= |title| + Lead then 1 else Lead
  }

  /** `getBorderTopWithTitle`: nothing for a non-positive width, the title cut
   *  to the width when it does not fit, and otherwise the title framed by
   *  fillers to exactly the width. */
  function BorderTopWithTitle(title: string, width: int): (r: string)
    ensures |r| == if width <= 0 then 0 else width
    ensures 0 < width <= |title| ==> r == title[..width]
    ensures width > |title| ==>
      var left := LeftFill(title, width);
      1 <= left <= Lead && left + |title| <= width &&
      r[left..left + |title|] == title &&
      (forall k :: 0 <= k < left ==> r[k] == Filler) &&
      (forall k :: left + |title| <= k < width ==> r[k] == Filler)
  {
    if width <= 0 then ""
    else if width <= |title| then title[..width]
    else
      var left := LeftFill(title, width);
      var right := width - |title| - left;
      Repeat(Filler, left) + title + Repeat(Filler, right)
  }

  /** Every place of a border that holds a fitting title, other than the
   *  title's own, is a filler: the border has `width - |title|` fillers
   *  more than the title has. */
  lemma BorderFillerCount(title: string, width: int)
    requires width > |title|
    ensures Count(BorderTopWithTitle(title, width), Filler) == width - |title| + Count(title, Filler)
  {
    var before, after := BorderFrame(title, width);
    CountFramed(before, title, after, Filler);
  }

  /** The fillers on either side of a fitting title. */
  lemma BorderFrame(title: string, width: int) returns (before: string, after: string)
    requires width > |title|
    ensures BorderTopWithTitle(title, width) == before + title + after
    ensures |before| + |after| == width - |title|
    ensures forall k :: 0 <= k < |before| ==> before[k] == Filler
    ensures forall k :: 0 <= k < |after| ==> after[k] == Filler
  {
    var left := LeftFill(title, width);
    before, after := Repeat(Filler, left), Repeat(Filler, width - |title| - left);
  }

  lemma CountFramed(before: string, middle: string, after: string, c: char)
    requires forall k :: 0 <= k < |before| ==> before[k] == c
    requires forall k :: 0 <= k < |after| ==> after[k] == c
    ensures Count(before + middle + after, c) == |before| + |after| + Count(middle, c)
  {
    CountAppend(before, middle, c);
    CountAppend(before + middle, after, c);
    CountUniform(before, c);
    CountUniform(after, c);
  }

  // ---------------------------------------------------------------------------
  // The application state.

  /** A line from the stdin reader; `fromReader` is false for the empty
   *  message a receive returns once the reader has closed its channel. */
  datatype StdinMsg = StdinMsg(fromReader: bool, line: string)

  /** The text shown after a command result: the result's output without
   *  one trailing newline on success, the previous output on failure. */
  function ShownOutput(rawOutput: string, msg: CommandResult): (r: string)
    ensures msg.errorMessage != "" ==> r == rawOutput
    ensures msg.errorMessage == "" ==> r + (if HasSuffix(msg.output, "\n") then "\n" else "") == msg.output
  {
    if msg.errorMessage != "" then rawOutput else TrimSuffix(msg.output, "\n")
  }

  /** The text shown after a sequence of results, starting from `rawOutput`. */
  function ShownAfter(rawOutput: string, msgs: seq<CommandResult>): string {
    if msgs == [] then rawOutput
    else ShownOutput(ShownAfter(rawOutput, msgs[..|msgs| - 1]), msgs[|msgs| - 1])
  }

  /** Failures never overwrite the panel: what is shown is the output of the
   *  last successful result, or the initial text when none succeeded. */
  lemma {:induction false} ShowsLastSuccess(rawOutput: string, msgs: seq<CommandResult>, j: nat)
    requires j < |msgs| && msgs[j].errorMessage == ""
    requires forall k :: j < k < |msgs| ==> msgs[k].errorMessage != ""
    ensures ShownAfter(rawOutput, msgs) == TrimSuffix(msgs[j].output, "\n")
  {
    if j < |msgs| - 1 {
      var init := msgs[..|msgs| - 1];
      assert init[j] == msgs[j];
      forall k | j < k < |init| ensures init[k].errorMessage != "" {
        assert init[k] == msgs[k];
      }
      ShowsLastSuccess(rawOutput, init, j);
    }
  }

  /** With no successful result, the initial text stays on the panel. */
  lemma {:induction false} ShowsInitialWithoutSuccess(rawOutput: string, msgs: seq<CommandResult>)
    requires forall k :: 0 <= k < |msgs| ==> msgs[k].errorMessage != ""
    ensures ShownAfter(rawOutput, msgs) == rawOutput
  {
    if msgs != [] {
      var init := msgs[..|msgs| - 1];
      forall k | 0 <= k < |init| ensures init[k].errorMessage != "" {
        assert init[k] == msgs[k];
      }
      ShowsInitialWithoutSuccess(rawOutput, init);
    }
  }

  /** Handling the same result twice shows what handling it once shows. */
  lemma ShownOutputIdempotent(rawOutput: string, msg: CommandResult)
    ensures ShownOutput(ShownOutput(rawOutput, msg), msg) == ShownOutput(rawOutput, msg)
  {
  }

  /** A blank command line shows the stdin content without its last
   *  newline, titled with one line per line read. */
  lemma BlankCommandShowsStdin(lines: seq<string>, rawOutput: string, commandLine: string, tokenize: Tokenizer, run: StageRunner)
    requires SingleLines(lines)
    requires lines == [] || lines[|lines| - 1] != ""
    requires IsBlank(commandLine)
    ensures var msg := Run(JoinLines(lines), commandLine, tokenize, run);
      msg.errorMessage == "" &&
      CountLines(ShownOutput(rawOutput, msg)) == |lines|
  {
    EmptyCommandIsIdentity(JoinLines(lines), commandLine, tokenize, run);
    DisplayedLineCount(lines);
  }

  /** `model`, reduced to the fields the engine reads and writes. */
  class Model {
    /** Everything read from stdin, one `line + "\n"` per line. */
    var stdinContent: string
    /** The last good output, shown in the panel. */
    var rawOutput: string
    /** The error banner; empty when there is none. */
    var errorMessage: string
    /** The lines read so far, in order. */
    ghost var lines: seq<string>

    ghost predicate Valid()
      reads this
    {
      stdinContent == JoinLines(lines) && SingleLines(lines) &&
      forall k :: 0 <= k < |lines| ==> lines[k] != ""
    }

    /** `initModel`: nothing read, nothing shown, no error. */
    constructor ()
      ensures Valid() && lines == []
      ensures stdinContent == "" && rawOutput == "" && errorMessage == ""
    {
      stdinContent := "";
      rawOutput := "";
      errorMessage := "";
      lines := [];
    }

    /** In every reachable state, the stdin content shown without its final
     *  newline counts one line per line read. */
    lemma StdinLineCount()
      requires Valid()
      ensures CountLines(TrimSuffix(stdinContent, "\n")) == |lines|
    {
      DisplayedLineCount(lines);
    }

    /** `updateOutput`: shows `output` without one trailing newline. */
    method UpdateOutput(output: string)
      requires Valid()
      modifies this
      ensures Valid()
      ensures rawOutput == TrimSuffix(output, "\n")
      ensures stdinContent == old(stdinContent) && errorMessage == old(errorMessage)
      ensures lines == old(lines)
    {
      rawOutput := TrimSuffix(output, "\n");
    }

    /** `handleCommandResultMsg`: a failure raises the banner and keeps the
     *  last good output; a success replaces the output and clears the
     *  banner. Either way the banner ends up being the result's message. */
    method HandleCommandResult(msg: CommandResult)
      requires Valid()
      modifies this
      ensures Valid()
      ensures rawOutput == ShownOutput(old(rawOutput), msg)
      ensures errorMessage == msg.errorMessage
      ensures stdinContent == old(stdinContent) && lines == old(lines)
    {
      if msg.errorMessage != "" {
        errorMessage := msg.errorMessage;
      } else {
        UpdateOutput(msg.output);
        errorMessage := "";
      }
    }

    /** The stdin branch of `Update`: a non-empty line from the reader is
     *  appended with its newline and clears the banner; `rerun` says that
     *  the next read and a new run of the command are scheduled. An empty
     *  line or the closed channel's message changes nothing and schedules
     *  nothing. The reader's line scanner strips the newline, so a line
     *  never holds one. */
    method ReceiveStdin(msg: StdinMsg) returns (rerun: bool)
      requires Valid() && '\n' !in msg.line
      modifies this
      ensures Valid()
      ensures rerun <==> msg.line != "" && msg.fromReader
      ensures rerun ==> stdinContent == old(stdinContent) + msg.line + "\n" &&
                        lines == old(lines) + [msg.line] && errorMessage == ""
      ensures !rerun ==> stdinContent == old(stdinContent) && lines == old(lines) &&
                         errorMessage == old(errorMessage)
      ensures rawOutput == old(rawOutput)
    {
      rerun := msg.line != "" && msg.fromReader;
      if rerun {
        stdinContent := stdinContent + msg.line + "\n";
        errorMessage := "";
        lines := lines + [msg.line];
        assert lines[..|lines| - 1] == old(lines);
      }
    }
  }
}
