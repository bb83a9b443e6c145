/**
 * The pipeline driver (the body of `runCommand`): split the command line,
 * then run the segments one after the other, each stage reading what the
 * previous one wrote, and stop at the first failure.
 *
 * Process spawning (`exec.Command(...).Run()`) and shell-word splitting
 * (`shlex.Split`) are outside the model: they are parameters, a total
 * stage runner and a total tokenizer.
 */
module Pipeline {
  import opened Wrappers
  import opened GoStrings
  import opened Splitter

  /** What running one stage reports: its standard output on success, or its
   *  standard error and the text of the error `cmd.Run()` returned. */
  datatype StageOutcome = Exited(stdout: string) | Failed(stderr: string, errText: string)

  /** `shlex.Split`: the argument vector of a segment, or the error text. */
  type Tokenizer = string -> Result<seq<string>, string>

  /** `exec.Command(argv[0], argv[1:]...)` run with `input` on its stdin. */
  type StageRunner = (seq<string>, string) -> StageOutcome

  /** `commandResultMsg`: an empty `errorMessage` means success. */
  datatype CommandResult = CommandResult(output: string, errorMessage: string)

  const MissingCommand := "Syntax error: missing command between pipes"

  /** How Go's `%s` prints a nil error. */
  const NilError := "%!s(<nil>)"

  function ParseFailure(segment: string, detail: string): string {
    "Failed to parse command " + segment + ": " + detail
  }

  /** The message for a stage that failed: its trimmed standard error when it
   *  wrote any, otherwise the error `cmd.Run()` returned. */
  function StageFailure(segment: string, stderr: string, errText: string): string {
    "Error: Command '" + segment + "' failed. " +
    (if |stderr| > 0 then TrimSpace(stderr) else errText)
  }

  /** One iteration of the driver's loop: the output of the stage, or the
   *  message that ends the pipeline. */
  function RunStage(segment: string, input: string, tokenize: Tokenizer, run: StageRunner): (r: Result<string, string>)
    ensures r.Err? ==> |r.error| > 0
  {
    var cmd := TrimSpace(segment);
    if cmd == [] then Err(MissingCommand)
    else
      var parts := tokenize(cmd);
      if parts.Err? || parts.value == [] then
        Err(ParseFailure(cmd, if parts.Err? then parts.error else NilError))
      else
        match run(parts.value, input)
        case Exited(out) => Ok(out)
        case Failed(stderr, errText) => Err(StageFailure(cmd, stderr, errText))
  }

  /** The loop over the segments: each stage's output is the next stage's
   *  input, and the first failure ends the run. */
  function RunStages(segments: seq<string>, input: string, tokenize: Tokenizer, run: StageRunner): (r: Result<string, string>)
    ensures r.Err? ==> |r.error| > 0
  {
    if segments == [] then Ok(input)
    else
      match RunStage(segments[0], input, tokenize, run)
      case Err(msg) => Err(msg)
      case Ok(out) => RunStages(segments[1..], out, tokenize, run)
  }

  /** The result `runCommand` sends back for a snapshot of the stdin content
   *  and of the command line. */
  function Run(stdinContent: string, commandLine: string, tokenize: Tokenizer, run: StageRunner): CommandResult {
    var trimmed := TrimSpace(commandLine);
    if trimmed == [] then CommandResult(stdinContent, "")
    else
      match Split(trimmed)
      case Err(e) => CommandResult("", ErrorText(e))
      case Ok(commands) =>
        match RunStages(commands, stdinContent, tokenize, run)
        case Ok(out) => CommandResult(out, "")
        case Err(msg) => CommandResult("", msg)
  }

  /** The driver as the source writes it, reassigning the buffer that holds
   *  the last stage's output. */
  method RunCommand(stdinContent: string, commandLine: string, tokenize: Tokenizer, run: StageRunner)
    returns (r: CommandResult)
    ensures r == Run(stdinContent, commandLine, tokenize, run)
  {
    var trimmed := TrimSpace(commandLine);
    if trimmed == "" {
      return CommandResult(stdinContent, "");
    }
    var parsed := ParsePipedCommands(trimmed);
    if parsed.Err? {
      return CommandResult("", ErrorText(parsed.error));
    }
    var commands := parsed.value;
    var lastOutput := stdinContent;
    var i := 0;
    while i < |commands|
      invariant 0 <= i <= |commands|
      invariant RunStages(commands, stdinContent, tokenize, run) ==
                RunStages(commands[i..], lastOutput, tokenize, run)
    {
      assert commands[i..][0] == commands[i] && commands[i..][1..] == commands[i + 1..];
      var cmdSegment := TrimSpace(commands[i]);
      if cmdSegment == "" {
        return CommandResult("", MissingCommand);
      }
      var parts := tokenize(cmdSegment);
      if parts.Err? || parts.value == [] {
        return CommandResult("", ParseFailure(cmdSegment, if parts.Err? then parts.error else NilError));
      }
      var outcome := run(parts.value, lastOutput);
      if outcome.Failed? {
        return CommandResult("", StageFailure(cmdSegment, outcome.stderr, outcome.errText));
      }
      lastOutput := outcome.stdout;
      i := i + 1;
    }
    assert commands[i..] == [];
    return CommandResult(lastOutput, "");
  }

  // ---------------------------------------------------------------------------
  // Stage by stage.

  /** The input that stage `k` receives: the stdin content for the first
   *  stage, and the output of stage `k - 1` for the others (meaningful only
   *  while the earlier stages succeed). */
  function StageInput(segments: seq<string>, input: string, k: nat, tokenize: Tokenizer, run: StageRunner): string
    requires k <= |segments|
  {
    if k == 0 then input
    else
      match RunStage(segments[k - 1], StageInput(segments, input, k - 1, tokenize, run), tokenize, run)
      case Ok(out) => out
      case Err(_) => ""
  }

  /** The stages before `k` all succeed. */
  predicate StagesSucceed(segments: seq<string>, input: string, k: nat, tokenize: Tokenizer, run: StageRunner)
    requires k <= |segments|
  {
    forall j :: 0 <= j < k ==>
      RunStage(segments[j], StageInput(segments, input, j, tokenize, run), tokenize, run).Ok?
  }

  /** Once the first `k` stages have succeeded, the run goes on with the
   *  remaining segments from the output of stage `k - 1`. */
  lemma {:induction false} RunStagesAfter(segments: seq<string>, input: string, k: nat, tokenize: Tokenizer, run: StageRunner)
    requires k <= |segments|
    requires StagesSucceed(segments, input, k, tokenize, run)
    ensures RunStages(segments, input, tokenize, run) ==
            RunStages(segments[k..], StageInput(segments, input, k, tokenize, run), tokenize, run)
  {
    if k == 0 {
      assert segments[0..] == segments;
    } else {
      assert StagesSucceed(segments, input, k - 1, tokenize, run);
      RunStagesAfter(segments, input, k - 1, tokenize, run);
      var rest := segments[k - 1..];
      assert rest[0] == segments[k - 1] && rest[1..] == segments[k..];
    }
  }

  /** The pipeline succeeds exactly when every stage succeeds on the output
   *  of the one before, and its output is then the last stage's output. */
  lemma PipelineSucceeds(segments: seq<string>, input: string, tokenize: Tokenizer, run: StageRunner)
    ensures RunStages(segments, input, tokenize, run).Ok? <==>
            StagesSucceed(segments, input, |segments|, tokenize, run)
    ensures RunStages(segments, input, tokenize, run).Ok? ==>
            RunStages(segments, input, tokenize, run).value ==
            StageInput(segments, input, |segments|, tokenize, run)
  {
    if RunStages(segments, input, tokenize, run).Ok? {
      AllStagesSucceed(segments, input, |segments|, tokenize, run);
    }
    if StagesSucceed(segments, input, |segments|, tokenize, run) {
      RunStagesAfter(segments, input, |segments|, tokenize, run);
      assert segments[|segments|..] == [];
    }
  }

  lemma {:induction false} AllStagesSucceed(segments: seq<string>, input: string, k: nat, tokenize: Tokenizer, run: StageRunner)
    requires k <= |segments|
    requires RunStages(segments, input, tokenize, run).Ok?
    ensures StagesSucceed(segments, input, k, tokenize, run)
  {
    if k > 0 {
      AllStagesSucceed(segments, input, k - 1, tokenize, run);
      RunStagesAfter(segments, input, k - 1, tokenize, run);
      var rest := segments[k - 1..];
      assert rest[0] == segments[k - 1];
      var stage := RunStage(segments[k - 1], StageInput(segments, input, k - 1, tokenize, run), tokenize, run);
      assert stage.Ok?;
      forall j | 0 <= j < k
        ensures RunStage(segments[j], StageInput(segments, input, j, tokenize, run), tokenize, run).Ok?
      {
        if j < k - 1 {
          assert StagesSucceed(segments, input, k - 1, tokenize, run);
        }
      }
    }
  }

  /** When stages before `k` succeed and stage `k` fails, the pipeline
   *  fails with stage `k`'s message, and the segments after `k` make no
   *  difference: no later stage runs. */
  lemma PipelineStopsAtFirstFailure(segments: seq<string>, input: string, k: nat, tokenize: Tokenizer, run: StageRunner)
    requires k < |segments|
    requires StagesSucceed(segments, input, k, tokenize, run)
    requires RunStage(segments[k], StageInput(segments, input, k, tokenize, run), tokenize, run).Err?
    ensures RunStages(segments, input, tokenize, run) ==
            RunStage(segments[k], StageInput(segments, input, k, tokenize, run), tokenize, run)
    ensures RunStages(segments, input, tokenize, run) == RunStages(segments[..k + 1], input, tokenize, run)
  {
    FailureAt(segments, input, k, tokenize, run);
    var prefix := segments[..k + 1];
    StagesSucceedPrefix(segments, input, k, k + 1, tokenize, run);
    StageInputPrefix(segments, input, k, k + 1, tokenize, run);
    assert prefix[k] == segments[k];
    FailureAt(prefix, input, k, tokenize, run);
  }

  /** The result of a run whose first failure is stage `k`. */
  lemma FailureAt(segments: seq<string>, input: string, k: nat, tokenize: Tokenizer, run: StageRunner)
    requires k < |segments|
    requires StagesSucceed(segments, input, k, tokenize, run)
    requires RunStage(segments[k], StageInput(segments, input, k, tokenize, run), tokenize, run).Err?
    ensures RunStages(segments, input, tokenize, run) ==
            RunStage(segments[k], StageInput(segments, input, k, tokenize, run), tokenize, run)
  {
    RunStagesAfter(segments, input, k, tokenize, run);
    var rest := segments[k..];
    assert rest[0] == segments[k];
  }

  /** Success of the first `k` stages depends only on the segments before
   *  `k`. */
  lemma StagesSucceedPrefix(segments: seq<string>, input: string, k: nat, n: nat, tokenize: Tokenizer, run: StageRunner)
    requires k <= n <= |segments|
    requires StagesSucceed(segments, input, k, tokenize, run)
    ensures StagesSucceed(segments[..n], input, k, tokenize, run)
  {
    var prefix := segments[..n];
    forall j | 0 <= j < k
      ensures RunStage(prefix[j], StageInput(prefix, input, j, tokenize, run), tokenize, run).Ok?
    {
      StageInputPrefix(segments, input, j, n, tokenize, run);
      assert prefix[j] == segments[j];
    }
  }

  /** Stage inputs depend only on the segments before them. */
  lemma {:induction false} StageInputPrefix(segments: seq<string>, input: string, k: nat, n: nat, tokenize: Tokenizer, run: StageRunner)
    requires k <= n <= |segments|
    ensures StageInput(segments[..n], input, k, tokenize, run) == StageInput(segments, input, k, tokenize, run)
  {
    if k > 0 {
      StageInputPrefix(segments, input, k - 1, n, tokenize, run);
      assert segments[..n][k - 1] == segments[k - 1];
    }
  }

  /** A stage ends the pipeline with the missing-command message exactly
   *  when its segment is blank; a failing stage otherwise names its
   *  segment. */
  lemma BlankSegmentMessage(segment: string, input: string, tokenize: Tokenizer, run: StageRunner)
    ensures RunStage(segment, input, tokenize, run) == Err(MissingCommand) <==> IsBlank(segment)
  {
    var cmd := TrimSpace(segment);
    var r := RunStage(segment, input, tokenize, run);
    TrimSpaceSpec(segment);
    if cmd != [] && r.Err? {
      assert r.error[0] != MissingCommand[0];
    }
  }

  // ---------------------------------------------------------------------------
  // The whole command line.

  /** An empty or all-blank command line leaves the stdin content as the
   *  output and reports no error. */
  lemma EmptyCommandIsIdentity(stdinContent: string, commandLine: string, tokenize: Tokenizer, run: StageRunner)
    requires IsBlank(commandLine)
    ensures Run(stdinContent, commandLine, tokenize, run) == CommandResult(stdinContent, "")
  {
    TrimBlank(commandLine);
  }

  /** A result reports no error exactly when the command line is blank or
   *  it splits and every stage succeeds; a result that reports an error has
   *  an empty output. */
  lemma ResultReportsFailure(stdinContent: string, commandLine: string, tokenize: Tokenizer, run: StageRunner)
    ensures var r := Run(stdinContent, commandLine, tokenize, run);
      var trimmed := TrimSpace(commandLine);
      (r.errorMessage == "" <==>
        (trimmed == [] ||
         (Split(trimmed).Ok? && RunStages(Split(trimmed).value, stdinContent, tokenize, run).Ok?))) &&
      (r.errorMessage != "" ==> r.output == "")
  {
  }

  /** When the quote characters of the trimmed command line do not pair up,
   *  the pipeline is not executed: whatever the stdin content, the
   *  tokenizer and the stage runner, the result is the pairing's error text
   *  with an empty output. */
  lemma ParseErrorSkipsPipeline(stdinContent: string, commandLine: string, tokenize: Tokenizer, run: StageRunner, e: SplitError)
    requires QuotePairing(QuoteChars(TrimSpace(commandLine))) == Some(e)
    ensures Run(stdinContent, commandLine, tokenize, run) == CommandResult("", ErrorText(e))
  {
    SplitCharacterized(TrimSpace(commandLine));
  }

  /** When the line splits and stage `k` is the first to fail because its
   *  program failed, the result has an empty output, and the message names
   *  the trimmed segment followed by the trimmed standard error when the
   *  program wrote any, and by the error text otherwise. */
  lemma StageFailureReported(stdinContent: string, commandLine: string, tokenize: Tokenizer, run: StageRunner, k: nat)
    requires Split(TrimSpace(commandLine)).Ok? && k < |Split(TrimSpace(commandLine)).value|
    requires TrimSpace(commandLine) != []
    requires StagesSucceed(Split(TrimSpace(commandLine)).value, stdinContent, k, tokenize, run)
    requires var segs := Split(TrimSpace(commandLine)).value;
      var seg := TrimSpace(segs[k]);
      seg != [] && tokenize(seg).Ok? && tokenize(seg).value != [] &&
      run(tokenize(seg).value, StageInput(segs, stdinContent, k, tokenize, run)).Failed?
    ensures var segs := Split(TrimSpace(commandLine)).value;
      var seg := TrimSpace(segs[k]);
      var outcome := run(tokenize(seg).value, StageInput(segs, stdinContent, k, tokenize, run));
      Run(stdinContent, commandLine, tokenize, run) ==
        CommandResult("", "Error: Command '" + seg + "' failed. " +
                          (if |outcome.stderr| > 0 then TrimSpace(outcome.stderr) else outcome.errText))
  {
    var segs := Split(TrimSpace(commandLine)).value;
    PipelineStopsAtFirstFailure(segs, stdinContent, k, tokenize, run);
  }

  /** When the line splits and stage `k` is the first to fail because its
   *  segment does not tokenize into at least one word, the result has an
   *  empty output and the message names the trimmed segment and the
   *  tokenizer's error (a nil error when it returned no words). */
  lemma TokenizeFailureReported(stdinContent: string, commandLine: string, tokenize: Tokenizer, run: StageRunner, k: nat)
    requires Split(TrimSpace(commandLine)).Ok? && k < |Split(TrimSpace(commandLine)).value|
    requires TrimSpace(commandLine) != []
    requires StagesSucceed(Split(TrimSpace(commandLine)).value, stdinContent, k, tokenize, run)
    requires var seg := TrimSpace(Split(TrimSpace(commandLine)).value[k]);
      seg != [] && (tokenize(seg).Err? || tokenize(seg).value == [])
    ensures var seg := TrimSpace(Split(TrimSpace(commandLine)).value[k]);
      Run(stdinContent, commandLine, tokenize, run) ==
        CommandResult("", "Failed to parse command " + seg + ": " +
                          (if tokenize(seg).Err? then tokenize(seg).error else "%!s(<nil>)"))
  {
    var segs := Split(TrimSpace(commandLine)).value;
    PipelineStopsAtFirstFailure(segs, stdinContent, k, tokenize, run);
  }
}
