/** src/main.c as it runs: the shell's history, variables, line source
    and log of what was run are the state of a Shell object, and each
    routine of main.c is a method proved to have the effect that the
    Dispatch functions give it. */
module Interpreter {
  import opened Wrappers
  import opened Limits
  import opened Text
  import H = History
  import opened Parser
  import opened Builtins
  import opened Vars
  import opened Dispatch

  /** The test written on the if-line: what follows `if` once the isspace
      characters after it are skipped, if anything does. */
  method InlineTestOf(l: string) returns (t: Option<string>)
    ensures t == InlineTest(l)
  {
    if |l| <= 2 {
      return None;
    }
    var rest := l[2..];
    var p := 0;
    while p < |rest| && rest[p] in CSpace
      invariant 0 <= p <= |rest|
      invariant StripLeading(rest, CSpace) == StripLeading(rest[p..], CSpace)
    {
      assert rest[p..][1..] == rest[p + 1..];
      p := p + 1;
    }
    if p < |rest| {
      return Some(rest[p..]);
    }
    return None;
  }

  class Shell {
    const history: H.History
    const store: VarStore
    /** The lines still to be read, the first one next. */
    var input: seq<string>
    /** What was run so far. */
    var trace: seq<Event>
    /** `exit` was run: the process is gone and nothing else happens. */
    var exited: bool

    ghost predicate Valid()
      reads this, history, history.entries, store
    {
      history.Valid() && store.Valid() && HistoryOk(history.Contents())
    }

    ghost function State(): Dispatch.State
      reads this, history, history.entries, store
      requires history.Valid()
    {
      Dispatch.State(history.Contents(), store.vars, input, trace, exited)
    }

    constructor (lines: seq<string>)
      ensures Valid() && State() == Dispatch.State([], [], lines, [], false)
    {
      history := new H.History();
      store := new VarStore();
      input := lines;
      trace := [];
      exited := false;
    }

    /** read_cmd: the next line, at most MaxLen - 1 characters of it, or
        None (NULL) at the end of the input. */
    method ReadCmd() returns (line: Option<string>)
      modifies this
      ensures line.None? <==> old(input) == []
      ensures line.Some? ==> line.value == ReadCap(old(input)[0]) && input == old(input)[1..]
      ensures line.None? ==> input == old(input)
      ensures trace == old(trace) && exited == old(exited)
    {
      if input == [] {
        return None;
      }
      var src := input[0];
      var buf := "";
      var pos := 0;
      while pos < |src|
        invariant 0 <= pos <= |src|
        invariant buf == Take(src[..pos], MaxLen - 1)
      {
        if |buf| < MaxLen - 1 {
          buf := buf + [src[pos]];
        }
        assert src[..pos + 1] == src[..pos] + [src[pos]];
        pos := pos + 1;
      }
      assert src[..pos] == src;
      input := input[1..];
      return Some(buf);
    }

    /** process_input_line. */
    method ProcessInputLine(line: string, exec: Command -> int)
      requires Valid()
      modifies this, history, history.entries, store
      ensures Valid()
      ensures State() == Process(old(State()), line, exec)
      decreases |input|, 2, BangFlag(line), 1
    {
      if exited {
        return;
      }
      var l := TrimLine(line);
      if |l| == 0 {
        return;
      }
      if IsIfLine(l) {
        HandleIfBlock(l, exec);
        return;
      }
      if l[0] == '!' {
        ReplayEntry(line, l, exec);
      } else {
        ProcessPlainLine(line, l, exec);
      }
    }

    /** The `!N` branch of process_input_line: the N-th history entry is
        processed in place of the line; nothing happens when there is none. */
    method ReplayEntry(line: string, l: string, exec: Command -> int)
      requires Valid() && !exited
      requires l == Trim(line) && l != [] && !IsIfLine(l) && l[0] == '!'
      modifies this, history, history.entries, store
      ensures Valid()
      ensures State() == Process(old(State()), line, exec)
      decreases |input|, 2, 1, 0
    {
      ghost var st0 := State();
      ProcessBangCase(st0, line, exec);
      var n := Atoi(l[1..]);
      var entry := history.Get(n);
      assert entry == H.Entry(st0.history, n);
      if entry.None? {
        assert State() == st0;
        return;
      }
      assert Process(st0, line, exec) == Process(st0, entry.value, exec);
      ProcessInputLine(entry.value, exec);
    }

    /** The rest of process_input_line, for a trimmed line `l` that is
        neither blank, an if-line nor a `!` line: an assignment, or a
        line that is recorded and run. */
    method ProcessPlainLine(line: string, l: string, exec: Command -> int)
      requires Valid() && !exited
      requires l == Trim(line) && l != [] && !IsIfLine(l) && l[0] != '!'
      modifies this, history, history.entries, store
      ensures Valid()
      ensures State() == Process(old(State()), line, exec)
    {
      ghost var st0 := State();
      ProcessPlainCase(st0, line, exec);
      var handled := store.HandleVariableAssignment(Some(l));
      if handled {
        return;
      }
      assert State() == st0;
      RecordAndRun(line, l, exec);
    }

    /** A command line: add_to_history, then the `;` loop. */
    method RecordAndRun(line: string, l: string, exec: Command -> int)
      requires Valid() && l == Trim(line) && IsCommandLine(l)
      modifies this, history, history.entries
      ensures Valid()
      ensures State() == RunSegments(old(State()).(history := H.Recorded(old(State()).history, l)), Segments(l), exec)
    {
      TrimIdempotent(line);
      RecordedKeepsOk(history.Contents(), l);
      history.Add(Some(l));
      RunCommands(l, exec);
    }

    /** The `;` loop of process_input_line over the recorded line `l`. */
    method RunCommands(l: string, exec: Command -> int)
      requires history.Valid()
      modifies this
      ensures State() == RunSegments(old(State()), Segments(l), exec)
    {
      var segs := Fields(l, {';'});
      var i := 0;
      while i < |segs| && !exited
        invariant 0 <= i <= |segs|
        invariant RunSegments(State(), segs[i..], exec) == RunSegments(old(State()), segs, exec)
      {
        ghost var before := State();
        assert segs[i..][1..] == segs[i + 1..];
        var seg := TrimLine(segs[i]);
        RunCommand(seg, exec);
        assert State() == RunSegment(before, seg);
        i := i + 1;
      }
      if !exited {
        assert segs[i..] == [];
      }
    }

    /** One trimmed segment: parse, expand, then a builtin or a command. */
    method RunCommand(seg: string, exec: Command -> int)
      requires history.Valid()
      modifies this
      ensures State() == RunSegment(old(State()), seg)
    {
      if |seg| == 0 {
        return;
      }
      var cmd := ParseCommand(seg);
      cmd := store.ExpandCommandTokens(cmd);
      var kind := Classify(cmd.argv);
      if kind == Exit {
        exited := true;
      } else if kind == Handled {
        trace := trace + [Builtin(cmd.argv)];
      } else {
        var _ := exec(cmd);
        trace := trace + [Executed(cmd)];
      }
    }

    /** The loop that reads the test line when the if-line has none. */
    method ReadTestLine() returns (test: Option<string>)
      modifies this
      ensures Found(test, input) == FindTest(old(input))
      ensures trace == old(trace) && exited == old(exited)
    {
      while true
        invariant FindTest(input) == FindTest(old(input))
        invariant trace == old(trace) && exited == old(exited)
        decreases |input|
      {
        var ln := ReadCmd();
        if ln.None? {
          return None;
        }
        var t := TrimLine(ln.value);
        if |t| == 0 {
          continue;
        }
        return Some(t);
      }
    }

    /** The collecting loop of handle_if_block_from_line; its two flags
        in_then and in_else are the Mode. */
    method CollectBranches() returns (thenLines: seq<string>, elseLines: seq<string>)
      modifies this
      ensures Collected(thenLines, elseLines, input) == Collect(old(input), Neither, [], [])
      ensures trace == old(trace) && exited == old(exited)
    {
      thenLines, elseLines := [], [];
      var mode := Neither;
      while true
        invariant Collect(input, mode, thenLines, elseLines) == Collect(old(input), Neither, [], [])
        invariant trace == old(trace) && exited == old(exited)
        decreases |input|
      {
        ghost var pending := input;
        var ln := ReadCmd();
        if ln.None? {
          return;
        }
        var t := TrimLine(ln.value);
        CollectUnfold(pending, mode, thenLines, elseLines, t);
        if t == "then" {
          mode := InThen;
        } else if t == "else" {
          mode := InElse;
        } else if t == "fi" {
          return;
        } else if mode == InThen {
          thenLines := thenLines + [t];
        } else if mode == InElse {
          elseLines := elseLines + [t];
        }
      }
    }

    /** The test of an if-block: 1 for no words, 0 for a builtin, the
        status from `exec` otherwise. */
    method RunTestCommand(test: string, exec: Command -> int) returns (r: TestResult)
      ensures r == RunTest(test, store.vars, exec)
    {
      var tc := ParseCommand(test);
      if |tc.argv| == 0 {
        return Status(1, []);
      }
      tc := store.ExpandCommandTokens(tc);
      var kind := Classify(tc.argv);
      if kind == Exit {
        return ExitShell;
      }
      if kind == Handled {
        return Status(0, [Builtin(tc.argv)]);
      }
      var rc := exec(tc);
      var status := 1;
      if rc >= 0 {
        status := rc;
      }
      return Status(status, [Executed(tc)]);
    }

    /** The test line of an if-block: the rest of the if-line, or else
        the next line that is not blank. */
    method TakeTest(l: string) returns (test: Option<string>)
      modifies this
      ensures Found(test, input) == if InlineTest(l).Some? then Found(InlineTest(l), old(input)) else FindTest(old(input))
      ensures trace == old(trace) && exited == old(exited)
    {
      test := InlineTestOf(l);
      if test.None? {
        test := ReadTestLine();
      }
    }

    /** handle_if_block_from_line for the trimmed if-line `l`. */
    method HandleIfBlock(l: string, exec: Command -> int)
      requires Valid() && !exited
      modifies this, history, history.entries, store
      ensures Valid()
      ensures State() == IfBlock(old(State()), l, exec)
      decreases |input|, 1, 0, 0
    {
      ghost var st0 := State();
      var test := TakeTest(l);
      ghost var found := Found(test, input);
      if test.None? {
        IfBlockNoTest(st0, l, exec, found);
        return;
      }
      var thenLines, elseLines := CollectBranches();
      var result := RunTestCommand(test.value, exec);
      IfBlockTested(st0, l, exec, found, Collected(thenLines, elseLines, input));
      ApplyTest(result, thenLines, elseLines, exec);
    }

    /** The end of handle_if_block_from_line, once the test has run. */
    method ApplyTest(result: TestResult, thenLines: seq<string>, elseLines: seq<string>, exec: Command -> int)
      requires Valid()
      modifies this, history, history.entries, store
      ensures Valid()
      ensures State() == AfterTest(old(State()), result, thenLines, elseLines, exec)
      decreases |input| + |thenLines| + |elseLines|, 0, 1, 0
    {
      if result.ExitShell? {
        exited := true;
        return;
      }
      trace := trace + result.events;
      RunBranch(if result.code == 0 then thenLines else elseLines, exec);
    }

    /** The lines of the chosen branch, each through process_input_line. */
    method RunBranch(lines: seq<string>, exec: Command -> int)
      requires Valid()
      modifies this, history, history.entries, store
      ensures Valid()
      ensures State() == RunLines(old(State()), lines, exec)
      decreases |input| + |lines|, 0, 0, 0
    {
      var i := 0;
      while i < |lines|
        invariant 0 <= i <= |lines|
        invariant Valid()
        invariant |input| <= old(|input|)
        invariant RunLines(State(), lines[i..], exec) == RunLines(old(State()), lines, exec)
      {
        assert lines[i..][1..] == lines[i + 1..];
        ProcessInputLine(lines[i], exec);
        i := i + 1;
      }
    }

    /** The main loop: read and process lines until the input ends or the
        shell exits. */
    method Run(exec: Command -> int)
      requires Valid()
      modifies this, history, history.entries, store
      ensures Valid()
      ensures State() == Session(old(State()), exec)
    {
      while !exited
        invariant Valid()
        invariant Session(State(), exec) == Session(old(State()), exec)
        decreases |input|
      {
        var line := ReadCmd();
        if line.None? {
          return;
        }
        ProcessInputLine(line.value, exec);
      }
    }
  }

  /** Process on a `!N` line: the entry, if any, takes the line's place,
      and it is never itself a `!` line. */
  lemma ProcessBangCase(st: State, line: string, exec: Command -> int)
    requires HistoryOk(st.history) && !st.exited
    requires var l := Trim(line); l != [] && !IsIfLine(l) && l[0] == '!'
    ensures var entry := H.Entry(st.history, Atoi(Trim(line)[1..]));
      && (entry.None? ==> Process(st, line, exec) == st)
      && (entry.Some? ==> BangFlag(entry.value) == 0 && Process(st, line, exec) == Process(st, entry.value, exec))
  {
    var entry := H.Entry(st.history, Atoi(Trim(line)[1..]));
    if entry.Some? {
      assert IsEntry(entry.value);
    }
  }

  /** Process on a line that is neither blank, an if-line nor a `!`
      line: an assignment, or a command line that is recorded and split. */
  lemma ProcessPlainCase(st: State, line: string, exec: Command -> int)
    requires HistoryOk(st.history) && !st.exited
    requires var l := Trim(line); l != [] && !IsIfLine(l) && l[0] != '!'
    ensures var l := Trim(line);
      && (ParseAssignment(l).Some? ==> var a := ParseAssignment(l).value;
            Process(st, line, exec) == st.(vars := Assigned(st.vars, a.name, a.value)))
      && (ParseAssignment(l).None? ==>
            Process(st, line, exec) == RunSegments(st.(history := H.Recorded(st.history, l)), Segments(l), exec))
  {
  }

  /** IfBlock without a test line: the input is consumed. */
  lemma IfBlockNoTest(st: State, l: string, exec: Command -> int, found: Found)
    requires HistoryOk(st.history) && !st.exited
    requires found == if InlineTest(l).Some? then Found(InlineTest(l), st.input) else FindTest(st.input)
    requires found.test.None?
    ensures IfBlock(st, l, exec) == st.(input := found.rest)
  {
  }

  /** IfBlock once the test line and the branches are known. */
  lemma IfBlockTested(st: State, l: string, exec: Command -> int, found: Found, c: Collected)
    requires HistoryOk(st.history) && !st.exited
    requires found == if InlineTest(l).Some? then Found(InlineTest(l), st.input) else FindTest(st.input)
    requires found.test.Some? && c == Collect(found.rest, Neither, [], [])
    ensures IfBlock(st, l, exec) ==
      AfterTest(st.(input := c.rest), RunTest(found.test.value, st.vars, exec), c.thenLines, c.elseLines, exec)
    ensures |c.rest| + |c.thenLines| + |c.elseLines| <= |st.input|
  {
  }

  /** One line of the block read by read_cmd and trimmed. */
  lemma CollectUnfold(input: seq<string>, mode: Mode, t: seq<string>, e: seq<string>, ln: string)
    requires input != [] && ln == Trim(ReadCap(input[0]))
    ensures Collect(input, mode, t, e) ==
      if ln == "then" then Collect(input[1..], InThen, t, e)
      else if ln == "else" then Collect(input[1..], InElse, t, e)
      else if ln == "fi" then Collected(t, e, input[1..])
      else if mode == InThen then Collect(input[1..], mode, t + [ln], e)
      else if mode == InElse then Collect(input[1..], mode, t, e + [ln])
      else Collect(input[1..], mode, t, e)
  {
  }
}
