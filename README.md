# A verified model of the FCIT shell's line interpreter

The shell reads lines from its input, records command lines in a
history of 20 entries, and recognises several kinds of line:

- `NAME=value`: an assignment to a shell variable.
- `!N`: a replay of history entry N.
- `if`: the start of a block of the form `if TEST` / `then` … / `else` … / `fi`.
- Anything else: commands separated by `;`.

Each command is parsed into a Command with:

- the words of a first stage and a second stage, around `|`;
- the files named by `<` and `>`;
- a trailing `&` for background.

`$NAME` and `${NAME}` inside command words are then expanded.

This project models, in Dafny:

- that string processing;
- the bookkeeping structures: the history array, the job list and the variable list;
- the dispatcher of `src/main.c`.

It proves what each routine computes, and the properties the shell relies on.

Modules, one per part of the program:

| module | file | models |
|---|---|---|
| `Limits` | limits.dfy | `MAX_LEN`, `MAXARGS`, `HISTORY_SIZE` of `include/shell.h`, and the 250-character name limit of `expand_token` |
| `Text` | text.dfy | the C string routines the shell relies on: `strtok_r` (`Fields`), `strchr` (`Find`), `atoi` (`Atoi`), and `trim_inplace` on a character array (`TrimInPlace`) |
| `History` | history.dfy | `add_to_history` / `get_history_command`: class `History` over an `array<string>` of 20 slots and a count, specified by `Recorded` / `Entry` |
| `Jobs` | jobs.dfy | `add_job` / `remove_job` / `reap_background_jobs`: class `JobTable` whose linked list is a `seq<Job>`, head first |
| `Parser` | parser.dfy | `parse_command`: the method `ParseCommand` with the loops of the C code, specified by `ParseLine` (strip, `&`, `strtok_r`, then a fold of the token loop), and lemmas that read the fold declaratively |
| `Builtins` | builtins.dfy | the names `handle_builtin` takes over |
| `Vars` | vars.dfy | `set_var`, `get_var`, `handle_variable_assignment`, `expand_token`, `expand_command_tokens`: class `VarStore` whose list is a `seq<Var>`, head first |
| `Dispatch` | dispatch_spec.dfy | `process_input_line`, `handle_if_block_from_line` and `main` as functions on a `State`: history, variables, unread input lines, the trace of what was run, and whether `exit` ran |
| `Interpreter` | dispatch.dfy | the same routines as methods of a class `Shell` whose fields are that state, each proved to have the effect the `Dispatch` function gives it |

Conventions of the model:

- **Lines.** `read_cmd` takes its lines from a sequence consumed from the front. The end of the sequence is `NULL` (end of input).
- **Running a command.** This is a parameter `exec: Command -> int` that stands for `execute_command`.
- **NULL pointers.** A NULL pointer is `None` of an `Option`.

Points where the model follows the code literally:

- **The if-block test keeps its `&`.** The test line is parsed with `parse_command` and handed to `execute_command` as it is. Its background flag is not forced off (`src/main.c:48-56`).
- **There is no `set` builtin.** `handle_builtin` takes over only `cd`, `exit`, `help`, `history` and `jobs` (`src/shell.c:189-215`).
- **Command has a background flag.** The header's `Command` struct has no `background` field, but `parse_command` sets one (`src/shell.c:105,120`). The model's Command has it.
- **The job list is ordered.** It keeps list order, newest first, exactly as the C list does.

## Model

| member | source | states |
|---|---|---|
| `Text.StripLeading` | src/shell.c:110 | the result is a suffix of the input, everything dropped is in the class, and the result does not start with a class character |
| `Text.StripTrailing` | src/shell.c:112-115 | the result is a prefix of the input, everything dropped is in the class, and the result does not end with a class character |
| `Text.Trim` | src/shell.c:159-170 | what `trim_inplace` leaves neither starts nor ends with a space, tab or newline |
| `Text.TrimIsInfix` | src/shell.c:159-170 | the trimmed string is one contiguous piece of the input, and only spaces, tabs and newlines are removed on either side of it |
| `Text.TrimIdempotent` | src/shell.c:159-170 | trimming twice is trimming once |
| `Text.LeadingTrimCount` | src/shell.c:162-163 | the first loop stops at the number of leading trim characters |
| `Text.MoveDown` | src/shell.c:164 | the `memmove` copies the `len - p` characters from position p to the front, in order, and leaves every cell from `len - p` on as it was |
| `Text.TrailingTrimLength` | src/shell.c:166-169 | the last loop leaves the length at which the trailing trim characters are gone |
| `Text.TrimInPlace` | src/shell.c:159-170 | `trim_inplace` on a buffer: the new string is `Trim` of the old one and no longer than it |
| `Text.TrimLine` | src/shell.c:159-170 | a copy of a string run through `trim_inplace` is its `Trim` |
| `Text.Fields` | src/shell.c:129-151 | the `strtok_r` tokens are non-empty, hold no separator, and laid end to end are the input with its separators deleted |
| `Text.FieldsOfSplit` | src/shell.c:129-151 | whatever runs of separators lie before, between and after non-empty separator-free words, `strtok_r` returns exactly those words: no token spans a separator and none is cut short |
| `Text.FieldsSplitInput` | src/shell.c:129-151 | every string is its `strtok_r` tokens with runs of separators between them, only the outer runs possibly empty; with `FieldsOfSplit`, the tokens are the maximal separator-free runs |
| `Text.FieldsOfJoin` | src/main.c:107-129 | splitting words joined by a separator gives back exactly those words |
| `Text.Find` | src/vars.c:62 | `strchr` is None exactly when the character is absent; otherwise it is the first position of that character |
| `Text.AtoiOfDecimalString` | src/main.c:92 | `atoi` reads back any number written in decimal, whatever non-digit text follows it |
| `History.Recorded` | src/shell.c:7-16 | one `add_to_history` keeps the newest 20 lines of the old log plus the new line |
| `History.RecordedFrom` | src/shell.c:7-16 | a recorded log holds only old entries and the new line |
| `History.RecordAllKeepsLatest` | src/shell.c:7-16 | after any run of recordings the log is the 20 most recent lines, oldest first (FIFO eviction) |
| `History.EntryAfterRecording` | src/shell.c:7-27 | after recording lines into an empty log, entry n is the n-th oldest line still kept |
| `History.Entry` | src/shell.c:24-27 | entry n exists exactly when 1 <= n <= count, and then it is slot n-1 |
| `History.History.constructor` | src/shell.c:4-5 | the history starts empty, with 20 slots |
| `History.History.Add` | src/shell.c:7-16 | a NULL line changes nothing; below 20 entries the line is appended in slot `count`; when full, every entry moves down one slot and the line takes the last slot; in both cases the contents are `Recorded` of the old contents |
| `History.History.Get` | src/shell.c:24-27 | the result is present exactly when 1 <= n <= count, and then it is entry n-1 |
| `Jobs.FirstWithPid` | src/shell.c:41-53 | the first node with the pid, or None exactly when no node has it |
| `Jobs.WithoutPidUnlinks` | src/shell.c:41-53 | removing a pid unlinks exactly the first node with that pid and keeps the rest in order; with no such node the list is unchanged |
| `Jobs.WithoutPidIsFilter` | src/shell.c:41-53 | with distinct pids, removing a pid keeps exactly the jobs with other pids |
| `Jobs.ReapKeepsSurvivors` | src/shell.c:64-73 | reaping a sequence of finished pids leaves exactly the jobs whose process has not finished, in their original order |
| `Jobs.SurvivingKeepsDistinct` | src/shell.c:64-73 | reaping never makes two jobs share a pid |
| `Jobs.JobTable.constructor` | src/shell.c:30 | the job list starts empty |
| `Jobs.JobTable.AddJob` | src/shell.c:32-39 | the new job becomes the head, and a NULL command line is stored as "" |
| `Jobs.JobTable.RemoveJob` | src/shell.c:41-53 | the walk over the list unlinks the first node with the pid, as `WithoutPid` |
| `Jobs.JobTable.ReapBackgroundJobs` | src/shell.c:64-73 | each reported pid in turn is removed from the list |
| `Parser.ParseLineMeaning` | src/shell.c:99-156 | argv holds the first 19 words before the first pipe token, pipe_argv the first 19 words after it; has_pipe holds iff a pipe token was seen; infile/outfile come from the last `<`/`>` with an operand; background comes from the final `&` |
| `Parser.FoldArgv` | src/shell.c:145-146 | the token loop puts the words before the first pipe token into argv, at most 19 of them |
| `Parser.FoldPipeArgv` | src/shell.c:147-148 | the token loop puts the words after the first pipe token into pipe_argv, at most 19 of them |
| `Parser.FoldHasPipe` | src/shell.c:141-143 | has_pipe holds exactly when a pipe token was absorbed |
| `Parser.FoldFiles` | src/shell.c:135-140 | the last `<` and the last `>` with an operand set the files; a dangling one sets nothing |
| `Parser.ParsePlainLine` | src/shell.c:99-156 | a line with no `<`, `>` or pipe token gives its first 19 tokens as argv, no second stage and no files |
| `Parser.ParseHasPipe` | src/shell.c:141-143 | without redirections, the Command has a second stage exactly when some token is the pipe token |
| `Parser.ParseBlankLine` | src/shell.c:101-116 | a line of spaces and tabs gives the empty Command |
| `Parser.BackgroundMarker` | src/shell.c:118-127 | background holds exactly when the stripped line ends in `&`; then the text split into tokens is the stripped line less that `&` and the blanks before it, and nothing else is removed |
| `Parser.SkipLeadingBlanks` | src/shell.c:110 | the pointer advance stops where the leading blanks end |
| `Parser.DropTrailingBlanks` | src/shell.c:112-115 | the shortening loop stops where the trailing blanks begin |
| `Parser.StrippedSpan` | src/shell.c:109-116 | the bounds of the line without its leading and trailing blanks |
| `Parser.UnmarkSpan` | src/shell.c:118-127 | the bounds of a stripped text less a final `&` and the blanks before it, and whether there was an `&` |
| `Parser.CommandSpan` | src/shell.c:109-127 | the bounds of the text to tokenise, and the background flag |
| `Parser.ParseToken` | src/shell.c:134-151 | one pass of the token loop: the lexemes it reads and the Command after them |
| `Parser.ParseTokens` | src/shell.c:129-154 | the token loop builds the fold of the tokens' lexemes |
| `Parser.ParseCommand` | src/shell.c:99-156 | `parse_command` returns `ParseLine` of its line |
| `Builtins.Classify` | src/shell.c:189-215 | `exit` is recognised exactly when it is the first word; a command is taken over exactly when its first word is one of cd, exit, help, history, jobs; an empty argv is not |
| `Vars.IndexOf` | src/vars.c:14-22 | the first node with the name, or None exactly when no node has it |
| `Vars.Lookup` | src/vars.c:30-37 | `get_var` is NULL exactly when no node has the name; otherwise the value of a node with that name |
| `Vars.Assigned` | src/vars.c:12-28 | for an existing name only that node's value changes, in place; for a new name one node is put at the head |
| `Vars.LookupAssigned` | src/vars.c:12-37 | after `set_var(n, v)`, `get_var(n)` is v and every other name keeps its value |
| `Vars.AssignedKeepsDistinct` | src/vars.c:12-28 | assignment never creates a second variable of the same name |
| `Vars.ParseAssignment` | src/vars.c:60-85 | a recognised assignment has a non-empty name of name characters before the first `=`, and its value is the unquoted rest |
| `Vars.ParseAssignmentExactly` | src/vars.c:60-69 | a line is an assignment exactly when an `=` follows a non-empty run of name characters from the start |
| `Vars.ParseAssignmentOf` | src/vars.c:60-85 | writing `name=raw` and reading it back gives the name and the unquoted raw value |
| `Vars.Unquote` | src/vars.c:78-84 | one matching pair of `"` or `'` around a value of length at least 2 is removed; otherwise the value is kept |
| `Vars.UnquoteQuoted` | src/vars.c:78-84 | a quoted text loses exactly its one pair of quotes |
| `Vars.TokenExpansion` | src/vars.c:93-130 | a word without `$` is copied unchanged; otherwise the result has at most 511 characters |
| `Vars.ExpandLiteral` | src/vars.c:99-108 | text without `$` expands to itself |
| `Vars.ExpandLiteralPrefix` | src/vars.c:99-108 | characters before the first `$` are copied in order |
| `Vars.ExpandName` | src/vars.c:120-126 | `$NAME` is replaced by the value of NAME, or by nothing when it is unset, and the value is not scanned again |
| `Vars.ExpandBraced` | src/vars.c:112-119 | `${NAME}` is replaced by the value of NAME, or by nothing when it is unset |
| `Vars.ExpandLoneDollar` | src/vars.c:120-124 | a `$` followed by neither `{` nor a name character is dropped, and what follows is expanded as usual |
| `Vars.CapAppend` | src/vars.c:103-126 | appending after the buffer is full changes nothing once the result is cut to the buffer |
| `Vars.Expanded` | src/vars.c:132-152 | every argv and pipe_argv word and each present file is replaced by its expansion; counts, NULL-ness of the files and the flags are unchanged |
| `Vars.ExpandAll` | src/vars.c:134-143 | each word of an argv array is replaced by its expansion, and the count is kept |
| `Vars.VarStore.constructor` | src/vars.c:10 | the variable list starts empty |
| `Vars.VarStore.SetVar` | src/vars.c:12-28 | a NULL name changes nothing; a NULL value is stored as ""; otherwise the list becomes `Assigned` of the old one; names stay distinct |
| `Vars.VarStore.GetVar` | src/vars.c:30-37 | the walk returns `Lookup` of the name |
| `Vars.VarStore.HandleVariableAssignment` | src/vars.c:60-90 | true exactly when the line is an assignment, and then the variable is set to the parsed value; false with the list unchanged otherwise (NULL, no `=`, `=` first, a non-name character before `=`) |
| `Vars.VarStore.ReadAssignment` | src/vars.c:62-84 | the `strchr`, the name check and the quote stripping compute `ParseAssignment` |
| `Vars.VarStore.IsNamePrefix` | src/vars.c:67-69 | the check loop accepts exactly when every character before the `=` is alphanumeric or `_` |
| `Vars.VarStore.ScanBraced` | src/vars.c:114-115 | the name after `${` is the run of up to 250 characters other than `}` |
| `Vars.VarStore.ScanName` | src/vars.c:121-122 | the name after `$` is the run of up to 250 name characters |
| `Vars.VarStore.AppendValue` | src/vars.c:118-126 | `strncat` of the value, when it is set, keeps the buffer cut at 511 characters |
| `Vars.VarStore.ExpandToken` | src/vars.c:93-130 | `expand_token` computes `TokenExpansion` |
| `Vars.VarStore.ExpandCapped` | src/vars.c:97-129 | the loop over the word builds the expansion cut at 511 characters |
| `Vars.VarStore.AppendLiteral` | src/vars.c:101-108 | a character other than `$` is copied while the buffer has room |
| `Vars.VarStore.ExpandDollar` | src/vars.c:110-127 | one `$` reference advances the loop and keeps its invariant |
| `Vars.VarStore.ExpandBracedRef` | src/vars.c:112-119 | `${NAME}` and its closing `}` are consumed and the value appended |
| `Vars.VarStore.ExpandNamedRef` | src/vars.c:120-126 | `$NAME` is consumed and the value appended; a `$` with no name is dropped |
| `Vars.VarStore.ExpandCommandTokens` | src/vars.c:132-152 | `expand_command_tokens` returns `Expanded` of the command |
| `Dispatch.ReadCap` | src/shell.c:83-86 | `read_cmd` keeps exactly the first min(length, 511) characters of the line |
| `Dispatch.RunSegment` | src/main.c:111-126 | a blank segment does nothing; `exit` as the first expanded word ends the shell and logs nothing; a builtin logs a Builtin event with its expanded words; any other command logs an Executed event with the expanded command; history, variables and input are unchanged |
| `Dispatch.RunSegmentLogs` | src/main.c:111-126 | a segment other than `exit` adds exactly its own events to the trace and changes nothing else |
| `Dispatch.RunSegments` | src/main.c:106-129 | history, variables and input are unchanged, nothing runs once the shell has exited, and the trace only grows |
| `Dispatch.RunSegmentsStep` | src/main.c:107-128 | one turn of the `;` loop: the first segment logs its events and the loop goes on with the rest |
| `Dispatch.RunSegmentsNoExit` | src/main.c:106-129 | when no segment is `exit`, every segment runs, left to right: the trace gains exactly the events of the non-blank trimmed segments, in order, and blank ones add nothing |
| `Dispatch.RunSegmentsStopsAtExit` | src/main.c:106-129 | an `exit` segment ends the shell after the segments before it have run; the segments after it never run |
| `Dispatch.InlineTest` | src/main.c:14-18 | there is a test on the if-line exactly when some non-isspace character follows `if`; it is the rest of the line from the first such character, with only isspace characters skipped before it |
| `Dispatch.FindTest` | src/main.c:20-29 | a found test is non-empty and at least the line it came from is consumed; when there is none, the whole input is consumed |
| `Dispatch.FindTestBlank` | src/main.c:20-23 | when every line is blank once trimmed, there is no test and the input is used up |
| `Dispatch.FindTestAfterBlanks` | src/main.c:20-29 | after any blank lines, the first line that is not blank once read and trimmed is the test, and the input after it is left for the block |
| `Dispatch.Collect` | src/main.c:31-45 | the collecting loop consumes lines and never collects more lines than it reads |
| `Dispatch.Step` | src/main.c:39-43 | one line other than `fi` adds at most one collected line |
| `Dispatch.CollectStep` | src/main.c:42-43 | a line other than `then`, `else` and `fi` joins the active branch, or is dropped before the first marker |
| `Dispatch.CollectMarker` | src/main.c:39-40 | `then` and `else` switch the active branch |
| `Dispatch.CollectFi` | src/main.c:41 | `fi` ends the block, keeps what was collected, and leaves the following input unread |
| `Dispatch.RunTest` | src/main.c:47-67 | the status is 1 for an empty argv; `exit` ends the shell exactly when it is the first expanded word; a builtin gives status 0 and a Builtin event; any other command gives the status `exec` returns when it is 0 or more and 1 when it is negative, with an Executed event |
| `Dispatch.Process` | src/main.c:81-131 | `process_input_line` keeps the history invariant, consumes no more than the lines there are, and does nothing after `exit` |
| `Dispatch.IfBlock` | src/main.c:11-78 | the if-block keeps the history invariant and only consumes input |
| `Dispatch.AfterTest` | src/main.c:71-77 | after the test the history invariant holds and no input is added |
| `Dispatch.RunLines` | src/main.c:71-77 | running the chosen lines keeps the history invariant and adds no input |
| `Dispatch.RunLinesOne` | src/main.c:72 | one line of a branch goes through `process_input_line` |
| `Dispatch.RunLinesAppend` | src/main.c:72 | running two runs of lines one after the other is running them together: the lines go through `process_input_line` one at a time, in order |
| `Dispatch.RunLinesAfterExit` | src/main.c:72 | once `exit` has run, no further line of a branch does anything |
| `Dispatch.Session` | src/main.c:134-148 | the main loop ends only when the input is used up or the shell has exited |
| `Dispatch.SessionOfCommandLines` | src/main.c:134-148 | over command lines without `exit`, the main loop reads every line, records each trimmed line in turn, and runs all their segments in input order |
| `Dispatch.SessionEndsAtExit` | src/main.c:134-148 | `exit` in a segment of the first line records that line, runs the segments before `exit`, ends the shell and leaves the later lines unread |
| `Dispatch.RecordedKeepsOk` | src/main.c:104 | recording a trimmed command line keeps every entry a trimmed command line, so a replayed entry is never itself a replay |
| `Dispatch.ProcessBlank` | src/main.c:83-84 | a line that is blank once trimmed does nothing |
| `Dispatch.ProcessIfLine` | src/main.c:86-89 | an if-line goes to the if-block handler and is not recorded |
| `Dispatch.AssignmentLineKind` | src/main.c:86-102 | an assignment line is never an if-line nor a replay |
| `Dispatch.ProcessAssignment` | src/main.c:102 | an assignment line sets the variable and changes nothing else: not recorded, nothing run |
| `Dispatch.ProcessRecordsOnce` | src/main.c:104 | a command line is recorded exactly once, and variables and input are left alone |
| `Dispatch.ProcessCommandLine` | src/main.c:104-129 | a command line without `exit` is recorded once and its segments run in order; variables and input are left alone |
| `Dispatch.ProcessExitSegment` | src/main.c:104-129 | a command line with an `exit` segment is recorded, runs the segments before it, and ends the shell |
| `Dispatch.ProcessMissingEntry` | src/main.c:91-94 | `!N` with no entry N records nothing and runs nothing |
| `Dispatch.BangLine` | src/main.c:91-92 | `!N` written in decimal survives trimming, and `atoi` reads N back |
| `Dispatch.ProcessReplay` | src/main.c:91-98 | `!N` with entry N does exactly what the entry does, which records the entry once more |
| `Dispatch.CollectBlock` | src/main.c:31-45 | reading back a written block `then` … `else` … `fi` gives exactly those then-lines and else-lines in order, and leaves the input after `fi` unread |
| `Dispatch.CollectDropsPreamble` | src/main.c:42-43 | lines before the first `then` or `else` are discarded |
| `Dispatch.CollectAtEnd` | src/main.c:37 | the end of the input also ends collection, and what was collected is kept |
| `Dispatch.IfBlockChoosesBranch` | src/main.c:71-77 | with a test on the if-line and a written block, status 0 runs exactly the then-lines in order and any other status exactly the else-lines, after the lines up to `fi` are consumed |
| `Dispatch.IfBlockTestOnNextLine` | src/main.c:20-77 | with the test on a line of its own after any blank lines, and a written block, status 0 runs exactly the then-lines and any other status exactly the else-lines, after the lines up to `fi` are consumed |
| `Dispatch.IfBlockTestExits` | src/main.c:31-67 | a test that is `exit` ends the shell once the block is read, and neither branch runs |
| `Dispatch.IfBlockWithoutTest` | src/main.c:20-23 | with no test line before the end of the input, the block is abandoned with nothing run |
| `Interpreter.InlineTestOf` | src/main.c:14-18 | the skipping loop computes `InlineTest` |
| `Interpreter.Shell.constructor` | src/main.c:134-136 | the shell starts with empty history, no variables, the given input, nothing run |
| `Interpreter.Shell.ReadCmd` | src/shell.c:76-93 | None exactly at the end of the input; otherwise the next line cut to 511 characters, consumed |
| `Interpreter.Shell.ProcessInputLine` | src/main.c:81-131 | `process_input_line` has the effect `Process` gives it, and keeps the history invariant |
| `Interpreter.Shell.ReplayEntry` | src/main.c:91-99 | the `!N` branch has the effect `Process` gives it |
| `Interpreter.Shell.ProcessPlainLine` | src/main.c:101-130 | an assignment or a recorded and run line, with the effect `Process` gives it |
| `Interpreter.Shell.RecordAndRun` | src/main.c:104-129 | a command line is added to history and then its `;` segments run in order, leaving the state `RunSegments` gives for the recorded history |
| `Interpreter.Shell.RunCommands` | src/main.c:106-130 | the `;` loop has the effect `RunSegments` gives it |
| `Interpreter.Shell.RunCommand` | src/main.c:111-126 | one segment has the effect `RunSegment` gives it |
| `Interpreter.Shell.ReadTestLine` | src/main.c:20-29 | the reading loop finds the test and consumes the input as `FindTest` |
| `Interpreter.Shell.CollectBranches` | src/main.c:31-45 | the collecting loop under its two flags gives `Collect`'s branches and rest |
| `Interpreter.Shell.RunTestCommand` | src/main.c:47-67 | the test's status, computed as `RunTest` |
| `Interpreter.Shell.TakeTest` | src/main.c:12-29 | the test line from the if-line or from the input |
| `Interpreter.Shell.HandleIfBlock` | src/main.c:11-78 | `handle_if_block_from_line` has the effect `IfBlock` gives it |
| `Interpreter.Shell.ApplyTest` | src/main.c:71-77 | the chosen branch runs, or the shell ends, as `AfterTest` |
| `Interpreter.Shell.RunBranch` | src/main.c:71-77 | the branch loop has the effect `RunLines` gives it |
| `Interpreter.Shell.Run` | src/main.c:134-148 | the main loop has the effect `Session` gives it |

## Left out

- `src/execute.c` is not part of this model. `execute_command` is the parameter `exec`, a deterministic function from a Command to a status. Fork, exec, pipes, redirection and waiting are not modelled.
- Output is not modelled: the prompt, `show_history`, `print_jobs`, `print_vars`, the help text, the echo of a replayed line, and the error messages.
- The effects of the builtins `cd` (`chdir`, `getenv("HOME")`), `help`, `history` and `jobs` are not modelled. The model logs that a builtin ran and which words it had.
- `exit` is the `exited` flag, because the process ends and nothing else happens.
- `read_cmd` works on a sequence of lines rather than a stream. A line is read whole up to its newline, and NUL bytes and end of input in mid-line are not distinguished.
- `reap_background_jobs` takes the finished pids as a parameter in place of `waitpid`. The job list is not connected to the dispatcher, because only `src/execute.c` adds jobs.
- Dispatch.Collect, Dispatch.Step, Dispatch.FindTest, Dispatch.RunSegments, Dispatch.Process, Dispatch.IfBlock, Dispatch.AfterTest, Dispatch.RunLines, Dispatch.Session: these functions' own contracts state only bounds, frames and the history invariant. What they compute is stated by lemmas:
  - Collect and Step: CollectStep, CollectMarker, CollectFi, CollectBlock, CollectDropsPreamble, CollectAtEnd.
  - FindTest: FindTestBlank, FindTestAfterBlanks.
  - RunSegments: RunSegmentsStep, RunSegmentsNoExit, RunSegmentsStopsAtExit.
  - Process: the Process lemmas.
  - IfBlock and AfterTest: IfBlockChoosesBranch, IfBlockTestOnNextLine, IfBlockTestExits, IfBlockWithoutTest.
  - RunLines: RunLinesOne, RunLinesAppend, RunLinesAfterExit.
  - Session: SessionOfCommandLines, SessionEndsAtExit.
- Dispatch.SessionOfCommandLines: it covers input made only of command lines without `exit`. For input that mixes assignments, replays and if-blocks, the main loop is described line by line, through Session's definition and the Process lemmas.
- Text.MoveDown: the NUL terminator that `memmove` also copies is not represented; the length of the string is carried separately.
- Text.Atoi: overflow is not modelled, because C leaves it undefined.
- Dispatch.Collect and Interpreter.Shell.CollectBranches: the then-lines and else-lines are unbounded sequences. The C arrays of 256 entries overflow beyond that, which is undefined behaviour, so the model gives the behaviour of blocks whose branches fit.
- Memory management is not modelled: `strdup`, `free`, `free_command`, `free_all_vars`, and the leak when `<` or `>` repeats. Strings are values.
- The linked lists of jobs and variables are sequences in list order, so node identity and aliasing are not modelled.
- Commands are values rather than structs passed by pointer.
- The `'\0'` writes that shorten C strings are modelled as shorter sequences.
- Characters are Dafny `char`. The character classes are those of the "C" locale.
