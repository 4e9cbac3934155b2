/** parse_command of src/shell.c: one command string (no `;`) becomes a
    Command. The line is stripped of blanks, one trailing `&` marks it as
    background, and the rest is split on blanks: `<` and `>` take the next
    token as a file, `|` switches to the second stage, and every other token
    is an argument of the current stage, at most ArgCap of them. */
module Parser {
  import opened Wrappers
  import opened Seqs
  import opened Limits
  import opened Text

  /** Room in an argv array once its terminating NULL is set aside. */
  const ArgCap: nat := MaxArgs - 1

  datatype Command = Command(
    argv: seq<string>,
    pipeArgv: seq<string>,
    inFile: Option<string>,
    outFile: Option<string>,
    hasPipe: bool,
    background: bool)

  /** The zeroed Command that parse_command starts from. */
  const EmptyCommand := Command([], [], None, None, false, false)

  /** What one or two tokens mean once `<` and `>` have taken their
      operands. */
  datatype Lexeme = Word(text: string) | Bar | From(path: string) | Into(path: string)

  /** The tokens grouped as parse_command consumes them: `<` or `>` at the
      very end has no operand and means nothing. */
  function Lex(toks: seq<string>): seq<Lexeme>
    decreases |toks|
  {
    if toks == [] then []
    else if toks[0] == "<" then (if |toks| == 1 then [] else [From(toks[1])] + Lex(toks[2..]))
    else if toks[0] == ">" then (if |toks| == 1 then [] else [Into(toks[1])] + Lex(toks[2..]))
    else if toks[0] == "|" then [Bar] + Lex(toks[1..])
    else [Word(toks[0])] + Lex(toks[1..])
  }

  /** One step of parse_command's token loop. */
  function Absorb(c: Command, x: Lexeme): Command {
    match x
    case From(p) => c.(inFile := Some(p))
    case Into(p) => c.(outFile := Some(p))
    case Bar => c.(hasPipe := true)
    case Word(w) =>
      if !c.hasPipe then (if |c.argv| < ArgCap then c.(argv := c.argv + [w]) else c)
      else (if |c.pipeArgv| < ArgCap then c.(pipeArgv := c.pipeArgv + [w]) else c)
  }

  /** The Command once the lexemes `xs` have been absorbed in order. */
  function Fold(xs: seq<Lexeme>): Command
    decreases |xs|
  {
    if xs == [] then EmptyCommand else Absorb(Fold(xs[..|xs| - 1]), xs[|xs| - 1])
  }

  /** The line without leading and trailing blanks. */
  function Stripped(line: string): string {
    StripTrailing(StripLeading(line, Blanks), Blanks)
  }

  /** The text ends in `&`. */
  predicate Marked(t: string) {
    t != [] && t[|t| - 1] == '&'
  }

  /** The text less a final `&` and the blanks before it. */
  function Unmarked(t: string): string {
    if Marked(t) then StripTrailing(t[..|t| - 1], Blanks) else t
  }

  /** The stripped line ends in `&`. */
  predicate Background(line: string) {
    Marked(Stripped(line))
  }

  /** The text that is split into tokens: the stripped line, less a final
      `&` and the blanks before it. */
  function CommandText(line: string): string {
    Unmarked(Stripped(line))
  }

  /** The tokens of the line. */
  function Tokens(line: string): seq<string> {
    Fields(CommandText(line), Blanks)
  }

  /** The Command parse_command builds from `line`. */
  function ParseLine(line: string): Command {
    Fold(Lex(Tokens(line))).(background := Background(line))
  }

  // ---------- a declarative reading of Fold ----------

  /** The words among `xs`, in order. */
  function WordsOf(xs: seq<Lexeme>): seq<string> {
    if xs == [] then [] else (if xs[0].Word? then [xs[0].text] else []) + WordsOf(xs[1..])
  }

  /** The lexemes before the first `|`. */
  function BeforeBar(xs: seq<Lexeme>): seq<Lexeme> {
    if xs == [] || xs[0] == Bar then [] else [xs[0]] + BeforeBar(xs[1..])
  }

  /** The lexemes after the first `|`; none when there is no `|`. */
  function AfterBar(xs: seq<Lexeme>): seq<Lexeme> {
    if xs == [] then [] else if xs[0] == Bar then xs[1..] else AfterBar(xs[1..])
  }

  /** The operand of the last `<`. */
  function LastFrom(xs: seq<Lexeme>): Option<string> {
    if xs == [] then None
    else match LastFrom(xs[1..])
      case Some(p) => Some(p)
      case None => if xs[0].From? then Some(xs[0].path) else None
  }

  /** The operand of the last `>`. */
  function LastInto(xs: seq<Lexeme>): Option<string> {
    if xs == [] then None
    else match LastInto(xs[1..])
      case Some(p) => Some(p)
      case None => if xs[0].Into? then Some(xs[0].path) else None
  }

  lemma {:induction false} WordsOfAppend(xs: seq<Lexeme>, ys: seq<Lexeme>)
    ensures WordsOf(xs + ys) == WordsOf(xs) + WordsOf(ys)
    decreases |xs|
  {
    if xs == [] {
      assert xs + ys == ys;
    } else {
      var head := if xs[0].Word? then [xs[0].text] else [];
      ConsConcat(xs, ys);
      assert WordsOf(xs + ys) == head + WordsOf(xs[1..] + ys);
      WordsOfAppend(xs[1..], ys);
      AppendAssoc(head, WordsOf(xs[1..]), WordsOf(ys));
    }
  }

  lemma {:induction false} BeforeBarAppend(xs: seq<Lexeme>, x: Lexeme)
    ensures BeforeBar(xs + [x]) == if Bar in xs then BeforeBar(xs) else if x == Bar then xs else xs + [x]
    decreases |xs|
  {
    if xs == [] {
      AppendEmpty([x]);
    } else {
      ConsConcat(xs, [x]);
      BeforeBarAppend(xs[1..], x);
      assert Bar in xs <==> xs[0] == Bar || Bar in xs[1..];
    }
  }

  lemma {:induction false} AfterBarAppend(xs: seq<Lexeme>, x: Lexeme)
    ensures AfterBar(xs + [x]) == if Bar in xs then AfterBar(xs) + [x] else []
    decreases |xs|
  {
    if xs == [] {
      AppendEmpty([x]);
    } else {
      ConsConcat(xs, [x]);
      if xs[0] != Bar {
        AfterBarAppend(xs[1..], x);
      }
      assert Bar in xs <==> xs[0] == Bar || Bar in xs[1..];
    }
  }

  lemma {:induction false} LastFromAppend(xs: seq<Lexeme>, x: Lexeme)
    ensures LastFrom(xs + [x]) == if x.From? then Some(x.path) else LastFrom(xs)
    ensures LastInto(xs + [x]) == if x.Into? then Some(x.path) else LastInto(xs)
    decreases |xs|
  {
    if xs == [] {
      AppendEmpty([x]);
      assert [x][1..] == [];
    } else {
      ConsConcat(xs, [x]);
      LastFromAppend(xs[1..], x);
    }
  }

  lemma TakeAppend(s: seq<string>, w: string, n: nat)
    ensures Take(s + [w], n) == if |s| < n then Take(s, n) + [w] else Take(s, n)
  {
    if |s| >= n {
      assert (s + [w])[..n] == s[..n];
    }
  }

  lemma {:induction false} FoldHasPipe(xs: seq<Lexeme>)
    ensures Fold(xs).hasPipe <==> Bar in xs
    decreases |xs|
  {
    if xs != [] {
      var init, x := xs[..|xs| - 1], xs[|xs| - 1];
      SnocSplit(xs);
      FoldHasPipe(init);
    }
  }

  lemma FoldSnoc(init: seq<Lexeme>, x: Lexeme)
    ensures Fold(init + [x]) == Absorb(Fold(init), x)
  {
    SnocParts(init, x);
  }

  lemma WordsOfOne(x: Lexeme)
    ensures WordsOf([x]) == if x.Word? then [x.text] else []
  {
    assert [x][1..] == [];
  }

  /** Words before the first `|` fill argv, up to ArgCap of them. */
  lemma {:induction false} FoldArgv(xs: seq<Lexeme>)
    ensures Fold(xs).argv == Take(WordsOf(BeforeBar(xs)), ArgCap)
    decreases |xs|
  {
    if xs != [] {
      var init, x := xs[..|xs| - 1], xs[|xs| - 1];
      SnocSplit(xs);
      FoldArgv(init);
      ArgvStep(init, x);
    }
  }

  lemma ArgvStep(init: seq<Lexeme>, x: Lexeme)
    requires Fold(init).argv == Take(WordsOf(BeforeBar(init)), ArgCap)
    ensures Fold(init + [x]).argv == Take(WordsOf(BeforeBar(init + [x])), ArgCap)
  {
    FoldHasPipe(init);
    FoldSnoc(init, x);
    BeforeBarAppend(init, x);
    if Bar !in init {
      BeforeBarWithoutBar(init);
      if x != Bar {
        WordsOfAppend(init, [x]);
        WordsOfOne(x);
        if x.Word? {
          TakeAppend(WordsOf(init), x.text, ArgCap);
        } else {
          AppendEmpty(WordsOf(init));
        }
      }
    }
  }

  lemma {:induction false} BeforeBarWithoutBar(xs: seq<Lexeme>)
    requires Bar !in xs
    ensures BeforeBar(xs) == xs
    decreases |xs|
  {
    if xs != [] {
      assert xs[0] != Bar && Bar !in xs[1..];
      BeforeBarWithoutBar(xs[1..]);
      assert xs == [xs[0]] + xs[1..];
    }
  }

  /** Words after the first `|` fill pipeArgv, up to ArgCap of them. */
  lemma {:induction false} FoldPipeArgv(xs: seq<Lexeme>)
    ensures Fold(xs).pipeArgv == Take(WordsOf(AfterBar(xs)), ArgCap)
    decreases |xs|
  {
    if xs != [] {
      var init, x := xs[..|xs| - 1], xs[|xs| - 1];
      SnocSplit(xs);
      FoldPipeArgv(init);
      PipeArgvStep(init, x);
    }
  }

  lemma PipeArgvStep(init: seq<Lexeme>, x: Lexeme)
    requires Fold(init).pipeArgv == Take(WordsOf(AfterBar(init)), ArgCap)
    ensures Fold(init + [x]).pipeArgv == Take(WordsOf(AfterBar(init + [x])), ArgCap)
  {
    var ws := WordsOf(AfterBar(init));
    FoldHasPipe(init);
    FoldSnoc(init, x);
    AfterBarAppend(init, x);
    AbsorbPipeArgv(Fold(init), x, ws);
    if Bar in init {
      WordsOfAppend(AfterBar(init), [x]);
      WordsOfOne(x);
    } else {
      AfterBarNone(init);
    }
  }

  /** One lexeme absorbed into the second stage's words `ws`. */
  lemma AbsorbPipeArgv(c: Command, x: Lexeme, ws: seq<string>)
    requires c.pipeArgv == Take(ws, ArgCap)
    ensures c.hasPipe ==> Absorb(c, x).pipeArgv == Take(ws + (if x.Word? then [x.text] else []), ArgCap)
    ensures !c.hasPipe ==> Absorb(c, x).pipeArgv == c.pipeArgv
  {
    if x.Word? {
      TakeAppend(ws, x.text, ArgCap);
    } else {
      AppendEmpty(ws);
    }
  }

  /** The files: the last `<` and the last `>` with an operand win. */
  lemma {:induction false} FoldFiles(xs: seq<Lexeme>)
    ensures Fold(xs).inFile == LastFrom(xs)
    ensures Fold(xs).outFile == LastInto(xs)
    ensures !Fold(xs).background
    decreases |xs|
  {
    if xs != [] {
      var init, x := xs[..|xs| - 1], xs[|xs| - 1];
      SnocSplit(xs);
      FoldFiles(init);
      LastFromAppend(init, x);
    }
  }

  /** What the parsed Command holds, stated without the token loop:
      argv holds the first ArgCap words before the first `|`, pipeArgv the
      first ArgCap words after it, the files come from the last `<` and `>`
      that have an operand, and background from the final `&`. */
  lemma ParseLineMeaning(line: string)
    ensures var xs, c := Lex(Tokens(line)), ParseLine(line);
      && c.argv == Take(WordsOf(BeforeBar(xs)), ArgCap)
      && c.pipeArgv == Take(WordsOf(AfterBar(xs)), ArgCap)
      && (c.hasPipe <==> Bar in xs)
      && c.inFile == LastFrom(xs) && c.outFile == LastInto(xs)
      && (c.background <==> Background(line))
  {
    FoldHasPipe(Lex(Tokens(line)));
    FoldArgv(Lex(Tokens(line)));
    FoldPipeArgv(Lex(Tokens(line)));
    FoldFiles(Lex(Tokens(line)));
  }

  predicate IsOperator(tok: string) {
    tok == "<" || tok == ">" || tok == "|"
  }

  lemma {:induction false} LexPlain(toks: seq<string>)
    requires forall k :: 0 <= k < |toks| ==> !IsOperator(toks[k])
    ensures WordsOf(Lex(toks)) == toks
    ensures Bar !in Lex(toks) && LastFrom(Lex(toks)).None? && LastInto(Lex(toks)).None?
    ensures BeforeBar(Lex(toks)) == Lex(toks)
    decreases |toks|
  {
    if toks != [] {
      LexPlain(toks[1..]);
      var xs := [Word(toks[0])] + Lex(toks[1..]);
      assert xs[0] == Word(toks[0]) && xs[1..] == Lex(toks[1..]);
      assert toks == [toks[0]] + toks[1..];
    }
  }

  /** A line with no `<`, `>` or `|` token is its tokens, the first
      ArgCap of them, with no second stage and no files. */
  lemma ParsePlainLine(line: string)
    requires forall k :: 0 <= k < |Tokens(line)| ==> !IsOperator(Tokens(line)[k])
    ensures ParseLine(line) == Command(Take(Tokens(line), ArgCap), [], None, None, false, Background(line))
  {
    LexPlain(Tokens(line));
    ParseLineMeaning(line);
    var xs := Lex(Tokens(line));
    assert AfterBar(xs) == [] by {
      AfterBarNone(xs);
    }
  }

  lemma {:induction false} AfterBarNone(xs: seq<Lexeme>)
    requires Bar !in xs
    ensures AfterBar(xs) == []
    decreases |xs|
  {
    if xs != [] {
      assert xs[0] != Bar && Bar !in xs[1..];
      AfterBarNone(xs[1..]);
    }
  }

  lemma {:induction false} LexNoRedirect(toks: seq<string>)
    requires forall k :: 0 <= k < |toks| ==> toks[k] != "<" && toks[k] != ">"
    ensures Bar in Lex(toks) <==> "|" in toks
    decreases |toks|
  {
    if toks != [] {
      LexNoRedirect(toks[1..]);
      assert toks == [toks[0]] + toks[1..];
      var xs := Lex(toks);
      assert xs[1..] == Lex(toks[1..]);
      assert Bar in xs <==> xs[0] == Bar || Bar in xs[1..];
    }
  }

  /** Without redirections, the line has a second stage exactly when one
      of its tokens is `|`. */
  lemma ParseHasPipe(line: string)
    requires forall k :: 0 <= k < |Tokens(line)| ==> Tokens(line)[k] != "<" && Tokens(line)[k] != ">"
    ensures ParseLine(line).hasPipe <==> "|" in Tokens(line)
  {
    LexNoRedirect(Tokens(line));
    FoldHasPipe(Lex(Tokens(line)));
  }

  /** A line of blanks only is the empty Command. */
  lemma ParseBlankLine(line: string)
    requires forall i :: 0 <= i < |line| ==> line[i] in Blanks
    ensures ParseLine(line) == EmptyCommand
  {
    assert StripLeading(line, Blanks) == [];
  }

  /** The trailing `&`: the line is background exactly when its stripped
      text ends in `&`; then the tokens are taken from that text without
      the `&` and the blanks before it, and nothing else is removed. */
  lemma BackgroundMarker(line: string)
    ensures var t, b := Stripped(line), CommandText(line);
      if Background(line) then
        && t == b + t[|b|..|t| - 1] + "&"
        && (forall i :: |b| <= i < |t| - 1 ==> t[i] in Blanks)
        && (b != [] ==> b[|b| - 1] !in Blanks)
      else b == t
  {
    UnmarkedShape(Stripped(line));
  }

  /** The shape of Unmarked(t) for a text `t` that ends in `&`. */
  lemma UnmarkedShape(t: string)
    ensures var b := Unmarked(t);
      if Marked(t) then
        && t == b + t[|b|..|t| - 1] + "&"
        && (forall i :: |b| <= i < |t| - 1 ==> t[i] in Blanks)
        && (b != [] ==> b[|b| - 1] !in Blanks)
      else b == t
  {
    if Marked(t) {
      SnocSplit(t);
      PrefixThenRest(t[..|t| - 1], Unmarked(t), Blanks);
    }
  }

  /** A prefix `b` of `u` followed by the rest of `u`, element by element. */
  lemma PrefixThenRest(u: string, b: string, cs: set<char>)
    requires |b| <= |u| && b == u[..|b|] && (forall i :: |b| <= i < |u| ==> u[i] in cs)
    ensures u == b + u[|b|..]
  {
  }

  /** The first index of `line` from which on the leading blanks are gone. */
  method SkipLeadingBlanks(line: string) returns (start: nat)
    ensures start <= |line| && line[start..] == StripLeading(line, Blanks)
  {
    start := 0;
    while start < |line| && line[start] in Blanks
      invariant 0 <= start <= |line|
      invariant StripLeading(line, Blanks) == StripLeading(line[start..], Blanks)
    {
      assert line[start..][1..] == line[start + 1..];
      start := start + 1;
    }
  }

  /** The end of `line[start..len]` once its trailing blanks are gone. */
  method DropTrailingBlanks(line: string, start: nat, len: nat) returns (n: nat)
    requires start <= len <= |line|
    ensures start <= n <= len && line[start..n] == StripTrailing(line[start..len], Blanks)
  {
    n := len;
    while n > start && line[n - 1] in Blanks
      invariant start <= n <= len
      invariant StripTrailing(line[start..len], Blanks) == StripTrailing(line[start..n], Blanks)
    {
      StripTrailingSliceStep(line, start, n, Blanks);
      n := n - 1;
    }
  }

  /** Lex read from position `i` of the tokens on. */
  lemma LexAt(toks: seq<string>, i: nat)
    requires i < |toks|
    ensures toks[i] == "<" && i + 1 < |toks| ==> Lex(toks[i..]) == [From(toks[i + 1])] + Lex(toks[i + 2..])
    ensures toks[i] == ">" && i + 1 < |toks| ==> Lex(toks[i..]) == [Into(toks[i + 1])] + Lex(toks[i + 2..])
    ensures (toks[i] == "<" || toks[i] == ">") && i + 1 == |toks| ==> Lex(toks[i..]) == []
    ensures toks[i] == "|" ==> Lex(toks[i..]) == [Bar] + Lex(toks[i + 1..])
    ensures !IsOperator(toks[i]) ==> Lex(toks[i..]) == [Word(toks[i])] + Lex(toks[i + 1..])
  {
    var rest := toks[i..];
    assert rest[0] == toks[i] && rest[1..] == toks[i + 1..];
    if i + 1 < |toks| {
      assert rest[1] == toks[i + 1] && rest[2..] == toks[i + 2..];
    }
  }

  /** One pass of parse_command's token loop from token `i`: the
      lexemes it reads (none for a `<` or `>` without operand) and the
      Command after them. */
  method ParseToken(c: Command, toks: seq<string>, i: nat) returns (d: Command, j: nat, ghost xs: seq<Lexeme>)
    requires i < |toks|
    ensures i < j <= |toks|
    ensures Lex(toks[i..]) == xs + Lex(toks[j..])
    ensures xs == [] ==> j == |toks| && d == c
    ensures xs != [] ==> |xs| == 1 && d == Absorb(c, xs[0])
  {
    LexAt(toks, i);
    d := c;
    if toks[i] == "<" || toks[i] == ">" {
      if i + 1 == |toks| {
        j := |toks|;
        xs := [];
        assert toks[j..] == [];
        return;
      }
      if toks[i] == "<" {
        d := c.(inFile := Some(toks[i + 1]));
        xs := [From(toks[i + 1])];
      } else {
        d := c.(outFile := Some(toks[i + 1]));
        xs := [Into(toks[i + 1])];
      }
      j := i + 2;
    } else if toks[i] == "|" {
      d := c.(hasPipe := true);
      xs := [Bar];
      j := i + 1;
    } else {
      if !c.hasPipe {
        if |c.argv| < ArgCap {
          d := c.(argv := c.argv + [toks[i]]);
        }
      } else {
        if |c.pipeArgv| < ArgCap {
          d := c.(pipeArgv := c.pipeArgv + [toks[i]]);
        }
      }
      xs := [Word(toks[i])];
      j := i + 1;
    }
  }

  /** The token loop of parse_command. */
  method ParseTokens(toks: seq<string>) returns (c: Command)
    ensures c == Fold(Lex(toks))
  {
    c := EmptyCommand;
    ghost var done: seq<Lexeme> := [];
    var i := 0;
    assert toks[0..] == toks;
    AppendEmpty(Lex(toks));
    while i < |toks|
      invariant 0 <= i <= |toks|
      invariant done + Lex(toks[i..]) == Lex(toks)
      invariant c == Fold(done)
    {
      ghost var xs;
      c, i, xs := ParseToken(c, toks, i);
      if xs != [] {
        FoldSnoc(done, xs[0]);
        assert [xs[0]] == xs;
      } else {
        AppendEmpty(done);
      }
      AppendAssoc(done, xs, Lex(toks[i..]));
      done := done + xs;
    }
    assert toks[i..] == [];
    AppendEmpty(done);
  }

  /** The bounds of the line without its leading and trailing blanks. */
  method StrippedSpan(line: string) returns (start: nat, len: nat)
    ensures start <= len <= |line| && line[start..len] == Stripped(line)
  {
    start := SkipLeadingBlanks(line);
    assert line[start..|line|] == line[start..];
    len := DropTrailingBlanks(line, start, |line|);
  }

  /** Given the bounds of a stripped text `t` in `line`, the bounds of
      that text less a final `&` and the blanks before it, and whether
      there was such an `&`. */
  method UnmarkSpan(line: string, start: nat, end: nat, ghost t: string) returns (len: nat, background: bool)
    requires start <= end <= |line| && line[start..end] == t
    ensures start <= len <= end && line[start..len] == Unmarked(t)
    ensures background == Marked(t)
  {
    if end > start && line[end - 1] == '&' {
      len := DropTrailingBlanks(line, start, end - 1);
      SliceLast(line, start, end);
      assert t[..|t| - 1] == line[start..end - 1];
      background := true;
    } else {
      if end > start {
        SliceLast(line, start, end);
      }
      background := false;
      len := end;
    }
  }

  /** The bounds of the text to split into tokens, and whether a final
      `&` was taken off. */
  method CommandSpan(line: string) returns (start: nat, len: nat, background: bool)
    ensures start <= len <= |line| && line[start..len] == CommandText(line)
    ensures background == Background(line)
  {
    var end;
    start, end := StrippedSpan(line);
    len, background := UnmarkSpan(line, start, end, Stripped(line));
  }

  /** parse_command: strip blanks at both ends, take off a final `&` and
      the blanks before it, then run the token loop. */
  method ParseCommand(line: string) returns (cmd: Command)
    ensures cmd == ParseLine(line)
  {
    var start, len, background := CommandSpan(line);
    var toks := Fields(line[start..len], Blanks);
    cmd := ParseTokens(toks);
    cmd := cmd.(background := background);
  }
}
