/** What src/main.c does with the lines it reads, as functions on the
    state of the shell: process_input_line (blank lines, if-blocks, `!N`,
    assignments, and `;`-separated commands), handle_if_block_from_line
    and the main read loop. Lines come from a sequence consumed from the
    front; running a command is the parameter `exec`, whose result is the
    status execute_command returns. */
module Dispatch {
  import opened Wrappers
  import opened Seqs
  import opened Limits
  import opened Text
  import opened History
  import opened Parser
  import opened Builtins
  import opened Vars

  /** What was run, in order: a command handed to execute_command, or a
      builtin that handle_builtin took over. */
  datatype Event = Executed(cmd: Command) | Builtin(argv: seq<string>)

  datatype State = State(
    history: seq<string>,
    vars: seq<Var>,
    input: seq<string>,
    trace: seq<Event>,
    exited: bool)

  /** read_cmd keeps at most MaxLen - 1 characters of a line. */
  function ReadCap(line: string): (r: string)
    ensures |r| == if |line| < MaxLen then |line| else MaxLen - 1
    ensures r == line[..|r|]
  {
    Take(line, MaxLen - 1)
  }

  /** A trimmed line that goes to the if-block handler: `if` alone or
      followed by a space. */
  predicate IsIfLine(l: string) {
    |l| >= 2 && l[0] == 'i' && l[1] == 'f' && (|l| == 2 || l[2] == ' ')
  }

  /** A trimmed line that is recorded and split on `;`. */
  predicate IsCommandLine(l: string) {
    l != [] && !IsIfLine(l) && l[0] != '!' && ParseAssignment(l).None?
  }

  /** What a history entry can be: only command lines are recorded, after
      trimming. */
  predicate IsEntry(l: string) {
    Trim(l) == l && IsCommandLine(l)
  }

  predicate HistoryOk(h: seq<string>) {
    |h| <= HistorySize && forall x :: x in h ==> IsEntry(x)
  }

  /** 1 for a line whose trimmed form starts with `!`: a replay, whose
      replayed entry never is one. */
  function BangFlag(line: string): nat {
    var l := Trim(line);
    if l != [] && l[0] == '!' then 1 else 0
  }

  /** The segments of a command line, as strtok_r on `;` returns them. */
  function Segments(l: string): seq<string> {
    Fields(l, {';'})
  }

  /** The commands of a recorded line, in order, as far as the first
      `exit`. */
  function RunSegments(st: State, segs: seq<string>, exec: Command -> int): (r: State)
    ensures r.history == st.history && r.vars == st.vars && r.input == st.input
    ensures st.exited ==> r == st
    ensures IsPrefix(st.trace, r.trace)
    decreases |segs|
  {
    if segs == [] || st.exited then st
    else
      var st' := RunSegment(st, Trim(segs[0]));
      PrefixTransitive(st.trace, st'.trace, RunSegments(st', segs[1..], exec).trace);
      RunSegments(st', segs[1..], exec)
  }

  /** A segment whose command, once expanded, is `exit`. */
  predicate IsExitSegment(vs: seq<Var>, seg: string) {
    seg != [] && Classify(Expanded(ParseLine(seg), vs).argv) == Exit
  }

  /** One trimmed segment: nothing when it is blank; otherwise it is
      parsed and expanded with the current variables, then handed to
      handle_builtin or run. */
  function RunSegment(st: State, seg: string): (r: State)
    ensures seg == [] ==> r == st
    ensures IsExitSegment(st.vars, seg) ==> r == st.(exited := true)
    ensures seg != [] ==> var cmd := Expanded(ParseLine(seg), st.vars);
      && (Classify(cmd.argv) == Handled ==> r == st.(trace := st.trace + [Builtin(cmd.argv)]))
      && (Classify(cmd.argv) == NotBuiltin ==> r == st.(trace := st.trace + [Executed(cmd)]))
    ensures r.history == st.history && r.vars == st.vars && r.input == st.input
    ensures IsPrefix(st.trace, r.trace) && |r.trace| <= |st.trace| + 1
  {
    if seg == [] then st
    else
      var cmd := Expanded(ParseLine(seg), st.vars);
      match Classify(cmd.argv)
      case Exit => st.(exited := true)
      case Handled => st.(trace := st.trace + [Builtin(cmd.argv)])
      case NotBuiltin => st.(trace := st.trace + [Executed(cmd)])
  }

  lemma PrefixTransitive(a: seq<Event>, b: seq<Event>, c: seq<Event>)
    requires IsPrefix(a, b) && IsPrefix(b, c)
    ensures IsPrefix(a, c)
  {
    assert c[..|a|] == c[..|b|][..|a|];
  }

  predicate IsPrefix(a: seq<Event>, b: seq<Event>) {
    |a| <= |b| && b[..|a|] == a
  }

  /** The test written after `if` on the same line, if any: there is one
      exactly when something other than isspace characters follows the
      `if`, and it is the line from the first such character on. */
  function InlineTest(l: string): (r: Option<string>)
    ensures r.Some? <==> exists i :: 2 <= i < |l| && l[i] !in CSpace
    ensures r.Some? ==> var k := |l| - |r.value|;
      && 2 <= k < |l| && r.value == l[k..] && l[k] !in CSpace
      && forall i :: 2 <= i < k ==> l[i] in CSpace
  {
    if |l| > 2 then
      var t := StripLeading(l[2..], CSpace);
      StripLeadingFrom(l, 2, CSpace);
      if t != [] then Some(t) else None
    else None
  }

  datatype Found = Found(test: Option<string>, rest: seq<string>)

  /** None of `lines` reads as a blank line. */
  predicate AllBlank(lines: seq<string>) {
    forall i :: 0 <= i < |lines| ==> Trim(ReadCap(lines[i])) == []
  }

  /** The first line that is not blank once trimmed; the lines before it
      and the line itself are consumed. */
  function FindTest(input: seq<string>): (r: Found)
    ensures r.test.None? ==> r.rest == []
    ensures r.test.Some? ==> r.test.value != [] && |r.rest| < |input|
    decreases |input|
  {
    if input == [] then Found(None, [])
    else
      var ln := Trim(ReadCap(input[0]));
      if ln == [] then FindTest(input[1..]) else Found(Some(ln), input[1..])
  }

  datatype Mode = Neither | InThen | InElse

  datatype Collected = Collected(thenLines: seq<string>, elseLines: seq<string>, rest: seq<string>)

  /** The collecting loop: `then` and `else` switch the branch, `fi` or the
      end of the input ends the block, and every other trimmed line goes
      to the active branch; lines before the first marker are dropped. */
  function Collect(input: seq<string>, mode: Mode, t: seq<string>, e: seq<string>): (r: Collected)
    ensures |r.rest| + |r.thenLines| + |r.elseLines| <= |input| + |t| + |e|
    decreases |input|
  {
    if input == [] then Collected(t, e, [])
    else
      var ln := Trim(ReadCap(input[0]));
      if ln == "fi" then Collected(t, e, input[1..])
      else
        var b := Step(ln, mode, t, e);
        Collect(input[1..], b.mode, b.thenLines, b.elseLines)
  }

  datatype Branches = Branches(mode: Mode, thenLines: seq<string>, elseLines: seq<string>)

  /** What one line other than `fi` does to the collected block: `then`
      and `else` switch the branch, any other line joins the active one. */
  function Step(ln: string, mode: Mode, t: seq<string>, e: seq<string>): (b: Branches)
    ensures |b.thenLines| + |b.elseLines| <= |t| + |e| + 1
  {
    if ln == "then" then Branches(InThen, t, e)
    else if ln == "else" then Branches(InElse, t, e)
    else if mode == InThen then Branches(mode, t + [ln], e)
    else if mode == InElse then Branches(mode, t, e + [ln])
    else Branches(mode, t, e)
  }

  datatype TestResult = ExitShell | Status(code: int, events: seq<Event>)

  /** The status of the test command: 1 when it has no words, 0 for a
      builtin, otherwise what execute_command returns with a negative
      result read as 1; `exit` ends the shell. */
  function RunTest(test: string, vs: seq<Var>, exec: Command -> int): (r: TestResult)
    ensures ParseLine(test).argv == [] ==> r == Status(1, [])
    ensures ParseLine(test).argv != [] ==> var cmd := Expanded(ParseLine(test), vs);
      && (Classify(cmd.argv) == Handled ==> r == Status(0, [Builtin(cmd.argv)]))
      && (Classify(cmd.argv) == NotBuiltin ==>
            r == Status(if exec(cmd) >= 0 then exec(cmd) else 1, [Executed(cmd)]))
    ensures r.Status? ==> r.code >= 0 && |r.events| <= 1
    ensures r == ExitShell <==> ParseLine(test).argv != [] && Classify(Expanded(ParseLine(test), vs).argv) == Exit
  {
    var tc := ParseLine(test);
    if tc.argv == [] then Status(1, [])
    else
      var cmd := Expanded(tc, vs);
      match Classify(cmd.argv)
      case Exit => ExitShell
      case Handled => Status(0, [Builtin(cmd.argv)])
      case NotBuiltin =>
        var rc := exec(cmd);
        Status(if rc >= 0 then rc else 1, [Executed(cmd)])
  }

  /** process_input_line. */
  function Process(st: State, line: string, exec: Command -> int): (r: State)
    requires HistoryOk(st.history)
    ensures HistoryOk(r.history)
    ensures |r.input| <= |st.input|
    ensures st.exited ==> r == st
    decreases |st.input|, 2, BangFlag(line)
  {
    if st.exited then st
    else
      var l := Trim(line);
      if l == [] then st
      else if IsIfLine(l) then IfBlock(st, l, exec)
      else if l[0] == '!' then
        match Entry(st.history, Atoi(l[1..]))
        case None => st
        case Some(entry) =>
          assert IsEntry(entry);
          Process(st, entry, exec)
      else match ParseAssignment(l)
        case Some(a) => st.(vars := Assigned(st.vars, a.name, a.value))
        case None =>
          TrimIdempotent(line);
          RecordedKeepsOk(st.history, l);
          RunSegments(st.(history := Recorded(st.history, l)), Segments(l), exec)
  }

  /** handle_if_block_from_line for the trimmed if-line `l`. */
  function IfBlock(st: State, l: string, exec: Command -> int): (r: State)
    requires HistoryOk(st.history) && !st.exited
    ensures HistoryOk(r.history)
    ensures |r.input| <= |st.input|
    decreases |st.input|, 1, 0
  {
    var found := if InlineTest(l).Some? then Found(InlineTest(l), st.input) else FindTest(st.input);
    if found.test.None? then st.(input := found.rest)
    else
      var c := Collect(found.rest, Neither, [], []);
      AfterTest(st.(input := c.rest), RunTest(found.test.value, st.vars, exec), c.thenLines, c.elseLines, exec)
  }

  /** What the test's outcome `r` does: `exit` ends the shell; a status
      runs the then-lines `t` when it is 0 and the else-lines `e` otherwise. */
  function AfterTest(st: State, r: TestResult, t: seq<string>, e: seq<string>, exec: Command -> int): (s: State)
    requires HistoryOk(st.history)
    ensures HistoryOk(s.history)
    ensures |s.input| <= |st.input|
    decreases |st.input| + |t| + |e|, 0, 1
  {
    match r
    case ExitShell => st.(exited := true)
    case Status(code, events) =>
      RunLines(st.(trace := st.trace + events), if code == 0 then t else e, exec)
  }

  /** The lines of the chosen branch, each through process_input_line in
      order. */
  function RunLines(st: State, lines: seq<string>, exec: Command -> int): (r: State)
    requires HistoryOk(st.history)
    ensures HistoryOk(r.history)
    ensures |r.input| <= |st.input|
    decreases |st.input| + |lines|, 0, 0
  {
    if lines == [] then st else RunLines(Process(st, lines[0], exec), lines[1..], exec)
  }

  /** The main loop: read a line, process it, until the input ends or the
      shell exits. */
  function Session(st: State, exec: Command -> int): (r: State)
    requires HistoryOk(st.history)
    ensures HistoryOk(r.history)
    ensures r.exited || r.input == []
    decreases |st.input|
  {
    if st.exited || st.input == [] then st
    else Session(Process(st.(input := st.input[1..]), ReadCap(st.input[0]), exec), exec)
  }

  // ---------- the history invariant ----------

  lemma RecordedKeepsOk(h: seq<string>, l: string)
    requires HistoryOk(h) && IsEntry(l)
    ensures HistoryOk(Recorded(h, l))
  {
    RecordedFrom(h, l);
  }

  // ---------- the `;` loop ----------

  /** What a segment that is not `exit` adds to the trace: nothing when
      it is blank, otherwise the builtin or the command it runs. */
  function SegmentEvents(vs: seq<Var>, seg: string): seq<Event> {
    if seg == [] then []
    else
      var cmd := Expanded(ParseLine(seg), vs);
      match Classify(cmd.argv)
      case Exit => []
      case Handled => [Builtin(cmd.argv)]
      case NotBuiltin => [Executed(cmd)]
  }

  /** The events of the segments `segs`, trimmed, left to right. */
  function Logged(vs: seq<Var>, segs: seq<string>): seq<Event> {
    if segs == [] then [] else SegmentEvents(vs, Trim(segs[0])) + Logged(vs, segs[1..])
  }

  /** No segment of `segs` is `exit`. */
  predicate NoExit(vs: seq<Var>, segs: seq<string>) {
    forall i :: 0 <= i < |segs| ==> !IsExitSegment(vs, Trim(segs[i]))
  }

  /** A segment other than `exit`, run from an unexited state, logs its
      events and the loop goes on with the rest. */
  lemma RunSegmentsStep(st: State, segs: seq<string>, exec: Command -> int)
    requires !st.exited && segs != [] && !IsExitSegment(st.vars, Trim(segs[0]))
    ensures RunSegments(st, segs, exec) ==
      RunSegments(st.(trace := st.trace + SegmentEvents(st.vars, Trim(segs[0]))), segs[1..], exec)
  {
    RunSegmentLogs(st, Trim(segs[0]));
  }

  /** A segment other than `exit` adds its events to the trace. */
  lemma RunSegmentLogs(st: State, seg: string)
    requires !IsExitSegment(st.vars, seg)
    ensures RunSegment(st, seg) == st.(trace := st.trace + SegmentEvents(st.vars, seg))
  {
    if seg == [] {
      AppendEmpty(st.trace);
    } else {
      var cmd := Expanded(ParseLine(seg), st.vars);
      if Classify(cmd.argv) == Handled {
        assert SegmentEvents(st.vars, seg) == [Builtin(cmd.argv)];
      } else {
        assert SegmentEvents(st.vars, seg) == [Executed(cmd)];
      }
    }
  }

  lemma NoExitTail(vs: seq<Var>, segs: seq<string>)
    requires segs != [] && NoExit(vs, segs)
    ensures !IsExitSegment(vs, Trim(segs[0])) && NoExit(vs, segs[1..])
  {
    forall i | 0 <= i < |segs[1..]| ensures !IsExitSegment(vs, Trim(segs[1..][i])) {
      assert segs[1..][i] == segs[i + 1];
    }
  }

  /** Without `exit`, every segment runs, left to right, and blank ones
      add nothing. */
  lemma {:induction false} RunSegmentsNoExit(st: State, segs: seq<string>, exec: Command -> int)
    requires !st.exited && NoExit(st.vars, segs)
    ensures RunSegments(st, segs, exec) == st.(trace := st.trace + Logged(st.vars, segs))
    decreases |segs|
  {
    if segs == [] {
      AppendEmpty(st.trace);
    } else {
      var ev := SegmentEvents(st.vars, Trim(segs[0]));
      NoExitTail(st.vars, segs);
      RunSegmentsStep(st, segs, exec);
      RunSegmentsNoExit(st.(trace := st.trace + ev), segs[1..], exec);
      AppendAssoc(st.trace, ev, Logged(st.vars, segs[1..]));
    }
  }

  /** An `exit` segment ends the loop: the segments before it have run,
      the ones after it never do. */
  lemma {:induction false} RunSegmentsStopsAtExit(st: State, pre: seq<string>, x: string, post: seq<string>, exec: Command -> int)
    requires !st.exited && NoExit(st.vars, pre) && IsExitSegment(st.vars, Trim(x))
    ensures RunSegments(st, pre + [x] + post, exec) == st.(trace := st.trace + Logged(st.vars, pre), exited := true)
    decreases |pre|
  {
    ConsMiddle(pre, x, post);
    if pre == [] {
      RunSegmentsAtExit(st, x, post, exec);
      AppendEmpty(st.trace);
    } else {
      var ev := SegmentEvents(st.vars, Trim(pre[0]));
      NoExitTail(st.vars, pre);
      RunSegmentsStep(st, pre + [x] + post, exec);
      RunSegmentsStopsAtExit(st.(trace := st.trace + ev), pre[1..], x, post, exec);
      AppendAssoc(st.trace, ev, Logged(st.vars, pre[1..]));
    }
  }

  lemma RunSegmentsAtExit(st: State, x: string, post: seq<string>, exec: Command -> int)
    requires !st.exited && IsExitSegment(st.vars, Trim(x))
    ensures RunSegments(st, [x] + post, exec) == st.(exited := true)
  {
    assert ([x] + post)[0] == x;
  }

  // ---------- properties of process_input_line ----------

  /** A line that is blank once trimmed does nothing. */
  lemma ProcessBlank(st: State, line: string, exec: Command -> int)
    requires HistoryOk(st.history) && Trim(line) == []
    ensures Process(st, line, exec) == st
  {
  }

  /** An if-line goes to the if-block handler as it is once trimmed; it
      is not itself recorded. */
  lemma ProcessIfLine(st: State, line: string, exec: Command -> int)
    requires HistoryOk(st.history) && !st.exited && IsIfLine(Trim(line))
    ensures Process(st, line, exec) == IfBlock(st, Trim(line), exec)
  {
  }

  /** An assignment line is never an if-line nor a replay: it starts with
      a name character and has `=` before any blank. */
  lemma AssignmentLineKind(l: string)
    requires ParseAssignment(l).Some?
    ensures l != [] && !IsIfLine(l) && l[0] != '!'
  {
    var n := |ParseAssignment(l).value.name|;
    var name := l[..n];
    assert IsNameChar(name[0]);
    if n > 2 {
      assert IsNameChar(name[2]);
    }
  }

  /** An assignment line sets the variable and changes nothing else: it is
      not recorded and runs nothing. */
  lemma ProcessAssignment(st: State, line: string, exec: Command -> int)
    requires HistoryOk(st.history) && !st.exited
    requires ParseAssignment(Trim(line)).Some?
    ensures var a := ParseAssignment(Trim(line)).value;
      Process(st, line, exec) == st.(vars := Assigned(st.vars, a.name, a.value))
  {
    AssignmentLineKind(Trim(line));
  }

  /** A command line is recorded exactly once, and the variables and the
      input are left alone. */
  lemma ProcessRecordsOnce(st: State, line: string, exec: Command -> int)
    requires HistoryOk(st.history) && !st.exited
    requires IsCommandLine(Trim(line))
    ensures var r := Process(st, line, exec);
      && r.history == Recorded(st.history, Trim(line))
      && r.vars == st.vars && r.input == st.input
  {
  }

  /** A command line without `exit` is recorded, and each of its
      segments runs in order. */
  lemma ProcessCommandLine(st: State, line: string, exec: Command -> int)
    requires HistoryOk(st.history) && !st.exited
    requires IsCommandLine(Trim(line)) && NoExit(st.vars, Segments(Trim(line)))
    ensures Process(st, line, exec) ==
      st.(history := Recorded(st.history, Trim(line)), trace := st.trace + Logged(st.vars, Segments(Trim(line))))
  {
    RunSegmentsNoExit(st.(history := Recorded(st.history, Trim(line))), Segments(Trim(line)), exec);
  }

  /** A command line whose segment `x` is `exit` is recorded, runs the
      segments before `x`, and ends the shell. */
  lemma ProcessExitSegment(st: State, line: string, pre: seq<string>, x: string, post: seq<string>, exec: Command -> int)
    requires HistoryOk(st.history) && !st.exited && IsCommandLine(Trim(line))
    requires Segments(Trim(line)) == pre + [x] + post
    requires NoExit(st.vars, pre) && IsExitSegment(st.vars, Trim(x))
    ensures Process(st, line, exec) ==
      st.(history := Recorded(st.history, Trim(line)), trace := st.trace + Logged(st.vars, pre), exited := true)
  {
    RunSegmentsStopsAtExit(st.(history := Recorded(st.history, Trim(line))), pre, x, post, exec);
  }

  /** `!N` with no entry N does nothing. */
  lemma ProcessMissingEntry(st: State, line: string, exec: Command -> int)
    requires HistoryOk(st.history) && !st.exited
    requires var l := Trim(line); l != [] && l[0] == '!' && Entry(st.history, Atoi(l[1..])).None?
    ensures Process(st, line, exec) == st
  {
  }

  /** `!N` written out: trimming leaves it alone and atoi reads N back. */
  lemma BangLine(n: nat, line: string)
    requires line == "!" + DecimalString(n)
    ensures Trim(line) == line && line != [] && line[0] == '!'
    ensures Atoi(line[1..]) == n
  {
    var d := DecimalString(n);
    assert line[|line| - 1] == d[|d| - 1];
    assert IsStripped(line, TrimChars);
    StrippedIsFixpoint(line, TrimChars);
    AtoiOfDecimalString(n, []);
    assert line[1..] == d + [];
  }

  /** `!N` with entry N does what the entry does, recording it once more. */
  lemma ProcessReplay(st: State, n: nat, exec: Command -> int)
    requires HistoryOk(st.history) && !st.exited
    requires 1 <= n <= |st.history|
    ensures var e := st.history[n - 1];
      && Process(st, "!" + DecimalString(n), exec) == Process(st, e, exec)
      && Process(st, e, exec).history == Recorded(st.history, e)
  {
    BangLine(n, "!" + DecimalString(n));
    var e := st.history[n - 1];
    assert IsEntry(e);
    ProcessRecordsOnce(st, e, exec);
  }

  // ---------- properties of the if-block ----------

  /** A line the collecting loop sees unchanged and treats as a command. */
  predicate IsBodyLine(x: string) {
    |x| < MaxLen && Trim(x) == x && x != "then" && x != "else" && x != "fi"
  }

  /** Every line of `xs` is a body line. */
  predicate AllBodyLines(xs: seq<string>) {
    xs == [] || (IsBodyLine(xs[0]) && AllBodyLines(xs[1..]))
  }

  /** One body line goes to the active branch. */
  lemma CollectStep(x: string, rest: seq<string>, mode: Mode, t: seq<string>, e: seq<string>)
    requires IsBodyLine(x)
    ensures Collect([x] + rest, mode, t, e) ==
      Collect(rest, mode, if mode == InThen then t + [x] else t, if mode == InElse then e + [x] else e)
  {
    var input := [x] + rest;
    assert input[0] == x && input[1..] == rest;
    assert ReadCap(x) == x;
  }

  /** A marker line switches the branch. */
  lemma CollectMarker(m: string, rest: seq<string>, mode: Mode, t: seq<string>, e: seq<string>)
    requires m == "then" || m == "else"
    ensures Collect([m] + rest, mode, t, e) == Collect(rest, if m == "then" then InThen else InElse, t, e)
  {
    var input := [m] + rest;
    assert input[0] == m && input[1..] == rest;
    assert ReadCap(m) == m;
    TrimOfWord(m);
  }

  lemma CollectFi(rest: seq<string>, mode: Mode, t: seq<string>, e: seq<string>)
    ensures Collect(["fi"] + rest, mode, t, e) == Collected(t, e, rest)
  {
    var input := ["fi"] + rest;
    assert input[0] == "fi" && input[1..] == rest;
    assert ReadCap("fi") == "fi";
    TrimOfWord("fi");
  }

  lemma {:induction false} CollectBody(xs: seq<string>, rest: seq<string>, mode: Mode, t: seq<string>, e: seq<string>)
    requires AllBodyLines(xs)
    ensures Collect(xs + rest, mode, t, e) ==
      Collect(rest, mode, if mode == InThen then t + xs else t, if mode == InElse then e + xs else e)
    decreases |xs|
  {
    if xs == [] {
      assert xs + rest == rest;
      assert t + xs == t && e + xs == e;
    } else {
      var x, ys := xs[0], xs[1..];
      var t1 := if mode == InThen then t + [x] else t;
      var e1 := if mode == InElse then e + [x] else e;
      calc {
        Collect(xs + rest, mode, t, e);
        { ConsAppend(xs, rest); }
        Collect([x] + (ys + rest), mode, t, e);
        { CollectStep(x, ys + rest, mode, t, e); }
        Collect(ys + rest, mode, t1, e1);
        { CollectBody(ys, rest, mode, t1, e1); }
        Collect(rest, mode, if mode == InThen then t1 + ys else t1, if mode == InElse then e1 + ys else e1);
        { AppendHead(t, xs); AppendHead(e, xs); }
        Collect(rest, mode, if mode == InThen then t + xs else t, if mode == InElse then e + xs else e);
      }
    }
  }

  lemma BlockShape(ts: seq<string>, es: seq<string>, rest: seq<string>)
    ensures ["then"] + ts + ["else"] + es + ["fi"] + rest == ["then"] + (ts + (["else"] + (es + (["fi"] + rest))))
  {
  }

  /** Reading back a written block: `then`, the then-lines, `else`, the
      else-lines and `fi` give exactly those lines, and the input after
      `fi` is left unread. */
  lemma CollectBlock(ts: seq<string>, es: seq<string>, rest: seq<string>)
    requires AllBodyLines(ts)
    requires AllBodyLines(es)
    ensures Collect(["then"] + ts + ["else"] + es + ["fi"] + rest, Neither, [], []) == Collected(ts, es, rest)
  {
    var r2 := ["fi"] + rest;
    var r1 := ["else"] + (es + r2);
    calc {
      Collect(["then"] + ts + ["else"] + es + ["fi"] + rest, Neither, [], []);
      { BlockShape(ts, es, rest); }
      Collect(["then"] + (ts + r1), Neither, [], []);
      { CollectMarker("then", ts + r1, Neither, [], []); }
      Collect(ts + r1, InThen, [], []);
      { CollectBody(ts, r1, InThen, [], []); assert [] + ts == ts; }
      Collect(r1, InThen, ts, []);
      { CollectMarker("else", es + r2, InThen, ts, []); }
      Collect(es + r2, InElse, ts, []);
      { CollectBody(es, r2, InElse, ts, []); assert [] + es == es; }
      Collect(r2, InElse, ts, es);
      { CollectFi(rest, InElse, ts, es); }
      Collected(ts, es, rest);
    }
  }

  lemma TrimOfWord(w: string)
    requires w != [] && w[0] !in TrimChars && w[|w| - 1] !in TrimChars
    ensures Trim(w) == w
  {
    StrippedIsFixpoint(w, TrimChars);
  }

  /** Lines before the first `then` or `else` are dropped. */
  lemma CollectDropsPreamble(pre: seq<string>, input: seq<string>)
    requires AllBodyLines(pre)
    ensures Collect(pre + input, Neither, [], []) == Collect(input, Neither, [], [])
  {
    CollectBody(pre, input, Neither, [], []);
  }

  /** The end of the input also ends the block, and what was collected
      still runs. */
  lemma CollectAtEnd(ts: seq<string>)
    requires AllBodyLines(ts)
    ensures Collect(["then"] + ts, Neither, [], []) == Collected(ts, [], [])
  {
    CollectMarker("then", ts, Neither, [], []);
    assert ts == ts + [];
    CollectBody(ts, [], InThen, [], []);
    assert [] + ts == ts;
  }

  /** The branch choice: with a test on the if-line and a written block,
      status 0 runs exactly the then-lines and any other status exactly
      the else-lines, after the lines up to `fi` are consumed. */
  lemma IfBlockChoosesBranch(st: State, l: string, ts: seq<string>, es: seq<string>, rest: seq<string>, exec: Command -> int)
    requires HistoryOk(st.history) && !st.exited
    requires InlineTest(l).Some?
    requires AllBodyLines(ts)
    requires AllBodyLines(es)
    requires st.input == ["then"] + ts + ["else"] + es + ["fi"] + rest
    requires RunTest(InlineTest(l).value, st.vars, exec).Status?
    ensures var s := RunTest(InlineTest(l).value, st.vars, exec);
      IfBlock(st, l, exec) ==
        RunLines(st.(input := rest, trace := st.trace + s.events), if s.code == 0 then ts else es, exec)
  {
    CollectBlock(ts, es, rest);
  }

  /** With no test on the if-line and nothing but blank lines to read, the
      block is abandoned: the input is used up and nothing runs. */
  lemma IfBlockWithoutTest(st: State, l: string, exec: Command -> int)
    requires HistoryOk(st.history) && !st.exited
    requires InlineTest(l).None?
    requires AllBlank(st.input)
    ensures IfBlock(st, l, exec) == st.(input := [])
  {
    FindTestBlank(st.input);
  }

  lemma {:induction false} FindTestBlank(input: seq<string>)
    requires AllBlank(input)
    ensures FindTest(input) == Found(None, [])
    decreases |input|
  {
    if input != [] {
      AllBlankTail(input);
      FindTestBlank(input[1..]);
    }
  }

  /** With no test on the if-line, the test is the first line that is
      not blank, and the block follows it. */
  lemma {:induction false} FindTestAfterBlanks(bs: seq<string>, x: string, rest: seq<string>)
    requires AllBlank(bs) && Trim(ReadCap(x)) != []
    ensures FindTest(bs + [x] + rest) == Found(Some(Trim(ReadCap(x))), rest)
    decreases |bs|
  {
    ConsMiddle(bs, x, rest);
    if bs != [] {
      AllBlankTail(bs);
      FindTestAfterBlanks(bs[1..], x, rest);
    }
  }

  /** The branch choice when the test is on a line of its own, after
      any number of blank lines: status 0 runs exactly the then-lines,
      any other status exactly the else-lines. */
  lemma IfBlockTestOnNextLine(st: State, l: string, bs: seq<string>, x: string, ts: seq<string>, es: seq<string>, rest: seq<string>, exec: Command -> int)
    requires HistoryOk(st.history) && !st.exited
    requires InlineTest(l).None? && AllBlank(bs) && Trim(ReadCap(x)) != []
    requires AllBodyLines(ts)
    requires AllBodyLines(es)
    requires st.input == bs + [x] + (["then"] + ts + ["else"] + es + ["fi"] + rest)
    requires RunTest(Trim(ReadCap(x)), st.vars, exec).Status?
    ensures var s := RunTest(Trim(ReadCap(x)), st.vars, exec);
      IfBlock(st, l, exec) ==
        RunLines(st.(input := rest, trace := st.trace + s.events), if s.code == 0 then ts else es, exec)
  {
    FindTestAfterBlanks(bs, x, ["then"] + ts + ["else"] + es + ["fi"] + rest);
    CollectBlock(ts, es, rest);
  }

  /** A test that is `exit` ends the shell once the block is read, and
      neither branch runs. */
  lemma IfBlockTestExits(st: State, l: string, ts: seq<string>, es: seq<string>, rest: seq<string>, exec: Command -> int)
    requires HistoryOk(st.history) && !st.exited
    requires InlineTest(l).Some?
    requires AllBodyLines(ts)
    requires AllBodyLines(es)
    requires st.input == ["then"] + ts + ["else"] + es + ["fi"] + rest
    requires RunTest(InlineTest(l).value, st.vars, exec) == ExitShell
    ensures IfBlock(st, l, exec) == st.(input := rest, exited := true)
  {
    CollectBlock(ts, es, rest);
  }

  // ---------- running lines in order ----------

  /** Running two runs of lines one after the other is running them
      together: each line goes through process_input_line in turn. */
  lemma {:induction false} RunLinesAppend(st: State, a: seq<string>, b: seq<string>, exec: Command -> int)
    requires HistoryOk(st.history)
    ensures RunLines(st, a + b, exec) == RunLines(RunLines(st, a, exec), b, exec)
    decreases |a|
  {
    if a == [] {
      assert a + b == b;
    } else {
      assert (a + b)[0] == a[0] && (a + b)[1..] == a[1..] + b;
      RunLinesAppend(Process(st, a[0], exec), a[1..], b, exec);
    }
  }

  /** One line runs through process_input_line. */
  lemma RunLinesOne(st: State, x: string, exec: Command -> int)
    requires HistoryOk(st.history)
    ensures RunLines(st, [x], exec) == Process(st, x, exec)
  {
    assert [x][1..] == [];
  }

  /** After `exit`, no further line does anything. */
  lemma {:induction false} RunLinesAfterExit(st: State, lines: seq<string>, exec: Command -> int)
    requires HistoryOk(st.history) && st.exited
    ensures RunLines(st, lines, exec) == st
    decreases |lines|
  {
    if lines != [] {
      RunLinesAfterExit(st, lines[1..], exec);
    }
  }

  // ---------- the main loop ----------

  /** The trimmed texts of the lines read by read_cmd. */
  function CommandTexts(lines: seq<string>): (r: seq<string>)
    ensures |r| == |lines|
  {
    if lines == [] then [] else [Trim(ReadCap(lines[0]))] + CommandTexts(lines[1..])
  }

  /** A line read by read_cmd that is a command line with no `exit`. */
  predicate PlainLine(vs: seq<Var>, x: string) {
    IsCommandLine(Trim(ReadCap(x))) && NoExit(vs, Segments(Trim(ReadCap(x))))
  }

  /** The events of such lines, in the order they are read. */
  function SessionLog(vs: seq<Var>, lines: seq<string>): seq<Event> {
    if lines == [] then [] else Logged(vs, Segments(Trim(ReadCap(lines[0])))) + SessionLog(vs, lines[1..])
  }

  /** The main loop over command lines without `exit` reads every line,
      records each in turn, and runs their segments in order. */
  lemma {:induction false} SessionOfCommandLines(st: State, exec: Command -> int)
    requires HistoryOk(st.history) && !st.exited
    requires forall i :: 0 <= i < |st.input| ==> PlainLine(st.vars, st.input[i])
    ensures Session(st, exec) == st.(
      history := RecordAll(st.history, CommandTexts(st.input)),
      input := [],
      trace := st.trace + SessionLog(st.vars, st.input))
    decreases |st.input|
  {
    if st.input == [] {
      assert st.trace + [] == st.trace;
    } else {
      var x, rest := st.input[0], st.input[1..];
      var l := Trim(ReadCap(x));
      var s0 := st.(input := rest);
      assert PlainLine(st.vars, x);
      ProcessCommandLine(s0, ReadCap(x), exec);
      var s1 := Process(s0, ReadCap(x), exec);
      forall i | 0 <= i < |s1.input| ensures PlainLine(s1.vars, s1.input[i]) {
        assert rest[i] == st.input[i + 1];
      }
      SessionOfCommandLines(s1, exec);
      AppendAssoc(st.trace, Logged(st.vars, Segments(l)), SessionLog(st.vars, rest));
    }
  }

  /** `exit` in the first line ends the main loop: the line is recorded,
      the segments before `exit` run, and the lines after it stay unread. */
  lemma SessionEndsAtExit(st: State, pre: seq<string>, x: string, post: seq<string>, exec: Command -> int)
    requires HistoryOk(st.history) && !st.exited && st.input != []
    requires var l := Trim(ReadCap(st.input[0]));
      IsCommandLine(l) && Segments(l) == pre + [x] + post
    requires NoExit(st.vars, pre) && IsExitSegment(st.vars, Trim(x))
    ensures Session(st, exec) == st.(
      history := Recorded(st.history, Trim(ReadCap(st.input[0]))),
      input := st.input[1..],
      trace := st.trace + Logged(st.vars, pre),
      exited := true)
  {
    ProcessExitSegment(st.(input := st.input[1..]), ReadCap(st.input[0]), pre, x, post, exec);
  }

  lemma AllBlankTail(lines: seq<string>)
    requires lines != [] && AllBlank(lines)
    ensures Trim(ReadCap(lines[0])) == [] && AllBlank(lines[1..])
  {
    forall i | 0 <= i < |lines[1..]| ensures Trim(ReadCap(lines[1..][i])) == [] {
      assert lines[1..][i] == lines[i + 1];
    }
  }
}
