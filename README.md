# txtflow engine in Dafny

txtflow is a terminal tool that shows the text piped into it and re-runs a
shell-like pipeline over that text as the user types it. This project models
the engine in `main.go` and proves properties of the model:

- **Splitter** (`parsePipedCommands`): a scanner over the command line. Its
  state is the quote character that is currently open (`'`, `"` or a
  backquote). An unquoted `|` ends a segment, and a quoted `|` is kept. A
  different quote character inside an open quote is a "mismatched quotes"
  error. A quote still open at the end is an "unclose quote" error.
- **Pipeline driver** (the body of `runCommand`): a blank command line returns
  the stdin content unchanged. Otherwise the driver splits the line and runs
  the segments in order, each on the previous segment's output. It stops at
  the first blank segment, tokenizer failure or failing stage, with the exact
  message the source builds.
  - Shell-word splitting (`shlex.Split`) is a parameter: a total tokenizer.
  - Process execution (`exec.Command(...).Run()`) is a parameter: a total
    stage runner that maps an argument vector and an input to either stdout,
    or stderr plus an error text.
- **Application state** (`model`): the stdin content, the last good output and
  the error banner. Two updates change them:
  - A command result arrives (`handleCommandResultMsg`, `updateOutput`). A
    failure keeps the output, and a success replaces it minus one trailing
    newline.
  - A stdin line arrives (the `stdinMsg` branch of `Update`). A non-empty line
    is appended with a newline and clears the banner.
- **Title helpers**: `countLines` and `getBorderTopWithTitle`.

Dafny files and modules:

| File | Module | Contents |
|---|---|---|
| `wrappers.dfy` | `Wrappers` | `Option`, `Result` |
| `gostrings.dfy` | `GoStrings` | Go's `strings.TrimSpace`, with the White_Space set of `unicode.IsSpace`; also `TrimSuffix`, `HasSuffix`, `Count`, `Split` on one character, `Repeat` |
| `splitter.dfy` | `Splitter` | the scanner |
| `splitter_cases.dfy` | `SplitterCases` | the splitter on concrete lines: a quoted pipe and the two parse errors |
| `pipeline.dfy` | `Pipeline` | the driver |
| `app.dfy` | `App` | the state class and the title helpers |

How each source construct is modelled:

- The scanner and the driver are methods with loops, as in the source. Each
  method is proved equal to a recursive specification function (`Split`,
  `Run`), and the properties are proved about those functions.
- `model` is a class, and its two updates are methods that modify it.
- The scanner is also compared with independent reference definitions:
  - `QuotePairing`: quotes must pair up.
  - `Pieces`: the raw text between unquoted pipes.
  - `SplitOn`: a plain split, for input without quotes.

Behaviour worth knowing, taken from the code as written:

- The text after the last `|` becomes a segment only when it is not empty. So
  `"a |"` splits into `["a"]`. The driver trims the command line before
  splitting it, so `"a | "` reaches the splitter as `"a |"` too. A trailing
  `|`, with or without spaces after it, is therefore silently ignored, and
  `a` runs alone. Only the final `|` is ignored this way. A blank segment
  before it is kept, and the driver reports it as a missing command: `"| a"`
  and `"a || b"`, but also `"a ||"`, which splits into `["a", ""]`, and `"|"`,
  which splits into `[""]`. There the blank segment is the last one the
  driver receives (`SplitterCases.TrailingPipesCases`).
- For input without quotes, there is one segment per `|`, plus one only when
  the text after the last `|` is non-empty (`Splitter.SegmentCountWithoutQuotes`).
  This is not simply "pipes + 1".
- When the tokenizer returns no words and no error, the message ends with
  Go's rendering of a nil error, `%!s(<nil>)`.
- An empty stdin line is neither appended nor followed by another read. So
  ingestion stops at the first empty line of the input, and the remaining
  lines are never read. A line of spaces is not empty and is appended.
- A stage failure message does not carry the index of the failing stage,
  only the segment text.
- The model assumes the commands are deterministic: the stage runner is a
  function, so `Run` gives the same result for the same stdin snapshot and
  command line. The source gives that only when the programs it runs do.

## Model

| member | source | states |
|---|---|---|
| Splitter.ParsePipedCommands | main.go:397-439 | the scanning loop, which appends to the current segment in place, returns exactly the result of the specification `Split` |
| Splitter.ErrorText | main.go:412-436 | the error text, for mismatched quotes (412-413) and for an unclosed quote (434-436), of a parse error is never empty, so a parse error always raises the error banner |
| Splitter.ScanQuotes | main.go:404-413 | the scanner agrees with the quote-pairing rule: it stops with the first mismatched pair, ends with the pairing's unclosed quote still open, or ends with no quote open |
| Splitter.ScanPieces | main.go:402-432 | after the loop, the emitted segments are the trimmed raw pieces before the last unquoted pipe, and the buffer holds the last raw piece |
| Splitter.SplitCharacterized | main.go:397-439 | the splitter fails exactly when the quote characters do not pair up, with the error the pairing names; otherwise it returns the trimmed pieces, with an empty last raw piece dropped |
| Splitter.PiecesJoin | main.go:402-431 | re-joining the raw pieces with `\|` gives back the input: only unquoted pipes are removed, and quotes and quoted pipes stay in the segment text |
| Splitter.PiecesWithoutQuotes | main.go:416-424 | without quote characters, the raw pieces are the plain split on `\|` |
| Splitter.SegmentCountWithoutQuotes | main.go:416-432 | without quote characters, the split succeeds with one segment per `\|`, plus one exactly when the text after the last `\|` is non-empty before trimming |
| Splitter.SplitNonEmpty | main.go:430-432 | a non-empty command line that splits yields at least one segment |
| Splitter.TrimEach | main.go:419 | every emitted segment is the trimmed text of its raw piece |
| SplitterCases.UnclosedQuoteCase | main.go:434-436 | `grep 'foo` fails with an unclosed single quote |
| SplitterCases.MismatchedQuotesCase | main.go:412-413 | `grep "foo` followed by a backquote fails with mismatched quotes, naming the open quote first |
| SplitterCases.QuoteCharsAppend | main.go:404 | the quote characters of a concatenation are those of its parts |
| SplitterCases.ScanFromAppend | main.go:402-428 | scanning a concatenation scans the second part from the state the first part left |
| SplitterCases.ScanText | main.go:421-426 | text without quotes, and without pipes unless a quote is open, is copied verbatim into the current segment |
| SplitterCases.SplitQuotedThenPlain | main.go:397-439 | a segment holding one quoted span, then a pipe and plain non-empty text, splits into exactly those two trimmed segments, whatever pipes the span contains |
| SplitterCases.QuotedPipeCase | main.go:397-439 | `grep 'a\|b' \| wc -l` splits into `grep 'a\|b'` and `wc -l` |
| SplitterCases.SplitTrailingPipe | main.go:416-432 | a final `\|` after text without quotes or pipes is dropped: the line splits into that text, trimmed, alone |
| SplitterCases.SplitDoublePipe | main.go:416-432 | only the final `\|` is dropped: text followed by two pipes splits into the trimmed text and a blank segment |
| SplitterCases.TrailingPipesCases | main.go:416-432 | `a \|\|` splits into `a` and a blank segment, and `\|` into one blank segment |
| Pipeline.RunStage | main.go:462-494 | a failing stage always yields a non-empty message |
| Pipeline.RunStages | main.go:461-497 | a failed fold always yields a non-empty message |
| Pipeline.RunCommand | main.go:444-499 | the driver loop, which reassigns the last-output buffer at each stage, returns exactly the specification `Run` of the stdin snapshot and the command line |
| Pipeline.RunStagesAfter | main.go:461-497 | once the first `k` stages succeed, the run continues with the remaining segments from stage `k`'s input |
| Pipeline.PipelineSucceeds | main.go:461-498 | the pipeline succeeds exactly when every stage succeeds on the previous stage's output (the first stage on stdin), and its output is then the last stage's output |
| Pipeline.AllStagesSucceed | main.go:461-497 | a successful pipeline had every stage up to any `k` succeed |
| Pipeline.PipelineStopsAtFirstFailure | main.go:458-498 | when stage `k` is the first failure, the result is stage `k`'s message, and the segments after `k` have no effect: no later stage runs |
| Pipeline.StagesSucceedPrefix | main.go:461-497 | whether the first `k` stages succeed does not depend on the segments after them |
| Pipeline.StageInputPrefix | main.go:461-497 | the input a stage receives does not depend on the segments after it |
| Pipeline.BlankSegmentMessage | main.go:462-468 | a stage ends the run with "Syntax error: missing command between pipes" exactly when its segment is blank |
| Pipeline.EmptyCommandIsIdentity | main.go:445-448 | a blank command line returns the stdin content as output and no error |
| Pipeline.ResultReportsFailure | main.go:444-499 | a result has no error exactly when the line is blank, or it splits and every stage succeeds; a result with an error has empty output |
| Pipeline.ParseErrorSkipsPipeline | main.go:445-457 | when the quote characters of the trimmed line do not pair up, the pipeline is not executed: for every stdin content, tokenizer and runner the result is the pairing's error text with empty output |
| Pipeline.StageFailureReported | main.go:485-493 | when stage `k` is the first to fail because its program failed, the result has empty output and the message "Error: Command '<segment>' failed. " followed by the trimmed stderr when the program wrote any, and by the run error text otherwise |
| Pipeline.TokenizeFailureReported | main.go:470-476 | when stage `k` is the first to fail because its segment does not tokenize into at least one word, the result has empty output and the message "Failed to parse command <segment>: " followed by the tokenizer's error, or by Go's rendering of a nil error |
| GoStrings.TrimSpaceSpec | main.go:445 | `strings.TrimSpace` returns a slice of its input with only white space outside it, neither starting nor ending with white space; the result is empty exactly when the input is blank |
| GoStrings.TrimLeftSpec | main.go:445 | strips exactly the leading white space |
| GoStrings.TrimRightSpec | main.go:445 | strips exactly the trailing white space |
| GoStrings.TrimBlank | main.go:445-446 | a blank string trims to nothing |
| GoStrings.TrimSpaceIdempotent | main.go:462 | trimming again a segment the splitter already trimmed changes nothing |
| GoStrings.TrimSuffix | main.go:248 | `strings.TrimSuffix` removes the suffix exactly when it is present, and otherwise returns its input |
| GoStrings.Count | main.go:348 | `strings.Count` is zero exactly when the character does not occur |
| GoStrings.CountAppend | main.go:348 | the count of a concatenation is the sum of the counts |
| GoStrings.SplitOnProperties | main.go:416-424 | splitting on a character and re-joining gives back the input; there is one more piece than separators, and no piece contains the separator |
| GoStrings.SplitOnLast | main.go:430-432 | the last piece is the text after the last separator: all of the input exactly when there is one piece, and otherwise preceded by the separator |
| App.CountLines | main.go:343-355 | `countLines` is zero exactly for the empty text |
| App.CountLinesSplit | main.go:343-355 | `countLines` is the number of pieces of splitting on newlines, minus an empty last piece |
| App.LastLineEmpty | main.go:349-352 | the text after the last newline is empty exactly when the text is empty or ends with a newline, which is when `countLines` adds nothing for a last line |
| App.CountJoinedLines | main.go:178-179 | stdin content built from `n` lines without newlines counts `n` lines |
| App.DisplayedLineCount | main.go:247-248 | the displayed stdin content, with its final newline trimmed, still counts one line per line read, provided the last line is not empty |
| App.CountUnterminated | main.go:343-355 | newline-terminated lines followed by a non-empty last line without a newline count one line more than the terminated ones |
| App.BorderTopWithTitle | main.go:358-378 | non-positive width gives ""; a title that does not fit is cut to the width; otherwise the title is framed by fillers, after 1 to 4 of them, to exactly the width |
| App.BorderFillerCount | main.go:366-377 | a border holding a fitting title has exactly `width - len(title)` fillers besides any in the title: every other place is a filler |
| App.ShownOutput | main.go:381-390 | a failure keeps the shown output; a success shows the result's output minus one trailing newline |
| App.ShowsLastSuccess | main.go:381-390 | after a sequence of results, the panel shows the trimmed output of the last success; later failures never overwrite it |
| App.ShowsInitialWithoutSuccess | main.go:383-385 | when no result succeeds, the initial output stays shown |
| App.ShownOutputIdempotent | main.go:381-390 | handling the same result twice shows what handling it once shows |
| App.BlankCommandShowsStdin | main.go:445-448 | with a blank command line, the result has no error, and the shown output counts one line per stdin line when the last stdin line is not empty |
| App.Model.constructor | main.go:107-135 | the initial state has no stdin content, no output and no error, with no lines read |
| App.Model.StdinLineCount | main.go:247-248 | in every state the updates reach, the stdin content without its final newline counts one line per line read |
| App.Model.UpdateOutput | main.go:247-251 | `updateOutput` shows the output minus one trailing newline, changes nothing else that is modelled, and keeps the stdin content the join of the non-empty lines read |
| App.Model.HandleCommandResult | main.go:381-390 | the output follows `ShownOutput`, the banner becomes the result's error message, and the stdin content is unchanged, still the join of the non-empty lines read |
| App.Model.ReceiveStdin | main.go:177-182 | a non-empty line from the reader is appended with a newline, clears the banner and schedules a new read and a re-run; anything else changes nothing and schedules nothing; the stdin content stays the join of the lines read, every one of them non-empty and without a newline, as the reader's line scanner delivers them (main.go:164-165) |

## Left out

- Key handling, the window-size message, `View`, `Init` and `main` are not modelled. They are UI dispatch.
- Layout (`updateWindow`, `handleWindowSizeMsg`) is not modelled. It depends on rendered style sizes and mutates global styles.
- `addLineNumbers`, the clipboard, viewport scrolling (`GotoTop`) and colours are not modelled. They are presentation only.
- The stdin reader goroutine and channel (`readStdin`, `streamStdin`, the terminal check on `os.Stdin`) are not modelled. A received message is a `StdinMsg` value, and its `fromReader` flag is false for the empty message that the source receives after the channel is closed.
- Concurrency between re-runs and results arriving out of order is not modelled.
- `shlex.Split` and `exec.Command(...).Run()` are parameters, so the model says nothing about what a command outputs.
- Strings are sequences of code points. Go's `range` over invalid UTF-8 and the byte arithmetic in `getBorderTopWithTitle` are not modelled: `App.BorderTopWithTitle` counts code points, which agrees with Go's byte length only for an ASCII title. The result's width is counted in fillers and characters, as the source intends.
- Concrete examples that need a real `grep` or `wc` are not modelled, because commands are parameters.
- `processedOutput` and `commandLine` (the text input's value) are not fields of `App.Model`. `Pipeline.Run` takes the command line as a parameter.
