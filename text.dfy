/** Character classes and the C string routines the shell relies on:
    stripping, strtok_r splitting, strchr, atoi, and trim_inplace. */
module Text {
  import opened Seqs
  import opened Wrappers

  /** The separators of parse_command and of its strtok_r calls. */
  const Blanks: set<char> := {' ', '\t'}
  /** The characters trim_inplace removes at both ends. */
  const TrimChars: set<char> := {' ', '\t', '\n'}
  /** The characters C's isspace accepts in the "C" locale. */
  const CSpace: set<char> := {' ', '\t', '\n', '\r', '\U{B}', '\U{C}'}

  /** isalnum in the "C" locale, or an underscore. */
  predicate IsNameChar(c: char) {
    ('a' <= c <= 'z') || ('A' <= c <= 'Z') || ('0' <= c <= '9') || c == '_'
  }

  predicate IsDigit(c: char) {
    '0' <= c <= '9'
  }

  /** No character of `w` is one of `cs`. */
  predicate Avoids(w: string, cs: set<char>) {
    forall i :: 0 <= i < |w| ==> w[i] !in cs
  }

  /** Neither end of `s` is one of `cs`. */
  predicate IsStripped(s: string, cs: set<char>) {
    s == [] || (s[0] !in cs && s[|s| - 1] !in cs)
  }

  /** The first `n` elements, or all of them when there are fewer. */
  function Take<T>(s: seq<T>, n: nat): (r: seq<T>)
    ensures |r| == if |s| <= n then |s| else n
    ensures r == s[..|r|]
  {
    if |s| <= n then s else s[..n]
  }

  /** `s` without its leading characters from `cs`. */
  function StripLeading(s: string, cs: set<char>): (r: string)
    ensures |r| <= |s| && r == s[|s| - |r|..]
    ensures forall i :: 0 <= i < |s| - |r| ==> s[i] in cs
    ensures r != [] ==> r[0] !in cs
    decreases |s|
  {
    if s != [] && s[0] in cs then StripLeading(s[1..], cs) else s
  }

  /** `s` without its trailing characters from `cs`. */
  function StripTrailing(s: string, cs: set<char>): (r: string)
    ensures |r| <= |s| && r == s[..|r|]
    ensures forall i :: |r| <= i < |s| ==> s[i] in cs
    ensures r != [] ==> r[|r| - 1] !in cs
    decreases |s|
  {
    if s != [] && s[|s| - 1] in cs then StripTrailing(s[..|s| - 1], cs) else s
  }

  /** Stripping the leading `cs` characters of `s` from position `a` on
      leaves the suffix from the first other character at or after `a`. */
  lemma StripLeadingFrom(s: string, a: nat, cs: set<char>)
    requires a <= |s|
    ensures var t := StripLeading(s[a..], cs); var k := |s| - |t|;
      && a <= k && t == s[k..]
      && (forall i :: a <= i < k ==> s[i] in cs)
      && (t != [] ==> s[k] !in cs)
  {
    var t := StripLeading(s[a..], cs);
    var k := |s| - |t|;
    forall i | a <= i < k ensures s[i] in cs {
      assert s[i] == s[a..][i - a];
    }
  }

  /** A trailing character from `cs` is the first one stripped. */
  lemma StripTrailingStep(s: string, cs: set<char>)
    requires s != [] && s[|s| - 1] in cs
    ensures StripTrailing(s, cs) == StripTrailing(s[..|s| - 1], cs)
  {
  }

  /** The same step on a slice `s[a..n]` of a longer sequence. */
  lemma StripTrailingSliceStep(s: string, a: nat, n: nat, cs: set<char>)
    requires a < n <= |s| && s[n - 1] in cs
    ensures StripTrailing(s[a..n], cs) == StripTrailing(s[a..n - 1], cs)
  {
    SliceLast(s, a, n);
    StripTrailingStep(s[a..n], cs);
  }

  /** What trim_inplace leaves of `s`. */
  function Trim(s: string): (r: string)
    ensures IsStripped(r, TrimChars)
  {
    StripTrailing(StripLeading(s, TrimChars), TrimChars)
  }

  /** `t` occurs in `s` at `a`, and every element of `s` outside that
      occurrence is one of `cs`. */
  predicate InfixAt(s: string, t: string, a: nat, cs: set<char>) {
    && a + |t| <= |s| && t == s[a..a + |t|]
    && (forall i :: 0 <= i < a ==> s[i] in cs)
    && (forall i :: a + |t| <= i < |s| ==> s[i] in cs)
  }

  /** Trimming keeps one contiguous piece of `s`, starting where the
      leading trim characters end, and removes only trim characters on
      either side of it. */
  lemma TrimIsInfix(s: string)
    ensures InfixAt(s, Trim(s), |s| - |StripLeading(s, TrimChars)|, TrimChars)
  {
    InfixOfSuffixPrefix(s, StripLeading(s, TrimChars), Trim(s), TrimChars);
  }

  /** A prefix `t` of a suffix `l` of `s` is an infix of `s`; what lies
      around it is what lies before `l` and after `t`. */
  lemma InfixOfSuffixPrefix(s: string, l: string, t: string, cs: set<char>)
    requires |l| <= |s| && l == s[|s| - |l|..] && (forall i :: 0 <= i < |s| - |l| ==> s[i] in cs)
    requires |t| <= |l| && t == l[..|t|] && (forall i :: |t| <= i < |l| ==> l[i] in cs)
    ensures InfixAt(s, t, |s| - |l|, cs)
  {
    var a := |s| - |l|;
    SliceOfSuffix(s, a, |t|);
    forall i | a + |t| <= i < |s| ensures s[i] in cs {
      assert s[i] == l[i - a];
    }
  }

  lemma StrippedIsFixpoint(s: string, cs: set<char>)
    requires IsStripped(s, cs)
    ensures StripLeading(s, cs) == s && StripTrailing(s, cs) == s
  {
  }

  /** trim_inplace is idempotent. */
  lemma TrimIdempotent(s: string)
    ensures Trim(Trim(s)) == Trim(s)
  {
    var t := Trim(s);
    StrippedIsFixpoint(t, TrimChars);
  }

  /** Number of leading characters of `s` that are not in `cs`. */
  function RunLength(s: string, cs: set<char>): (n: nat)
    ensures n <= |s|
    ensures forall i :: 0 <= i < n ==> s[i] !in cs
    ensures n < |s| ==> s[n] in cs
    decreases |s|
  {
    if s == [] || s[0] in cs then 0 else 1 + RunLength(s[1..], cs)
  }

  /** The words `ws` laid end to end. */
  function Concat(ws: seq<string>): string {
    if ws == [] then [] else ws[0] + Concat(ws[1..])
  }

  /** `s` with every character of `cs` deleted. */
  function Without(s: string, cs: set<char>): string {
    if s == [] then [] else (if s[0] in cs then [] else [s[0]]) + Without(s[1..], cs)
  }

  lemma {:induction false} WithoutAppend(a: string, b: string, cs: set<char>)
    ensures Without(a + b, cs) == Without(a, cs) + Without(b, cs)
    decreases |a|
  {
    if a != [] {
      var head := if a[0] in cs then [] else [a[0]];
      assert (a + b)[0] == a[0];
      assert (a + b)[1..] == a[1..] + b;
      assert Without(a + b, cs) == head + Without(a[1..] + b, cs);
      assert Without(a, cs) == head + Without(a[1..], cs);
      WithoutAppend(a[1..], b, cs);
      assert head + (Without(a[1..], cs) + Without(b, cs)) == (head + Without(a[1..], cs)) + Without(b, cs);
    } else {
      assert a + b == b;
    }
  }

  lemma {:induction false} WithoutAvoiding(a: string, cs: set<char>)
    requires Avoids(a, cs)
    ensures Without(a, cs) == a
    decreases |a|
  {
    if a != [] {
      WithoutAvoiding(a[1..], cs);
    }
  }

  /** The tokens strtok_r returns for delimiter set `cs`: the maximal runs
      of other characters, in order; together they hold every character of
      `s` that is not a delimiter. */
  function Fields(s: string, cs: set<char>): (r: seq<string>)
    ensures forall k :: 0 <= k < |r| ==> r[k] != [] && Avoids(r[k], cs)
    ensures Concat(r) == Without(s, cs)
    decreases |s|
  {
    if s == [] then []
    else if s[0] in cs then Fields(s[1..], cs)
    else
      var n := RunLength(s, cs);
      var r := [s[..n]] + Fields(s[n..], cs);
      assert s == s[..n] + s[n..];
      WithoutAppend(s[..n], s[n..], cs);
      WithoutAvoiding(s[..n], cs);
      assert Concat(r) == s[..n] + Concat(Fields(s[n..], cs));
      r
  }

  /** The words `ws` separated by `d`. */
  function Join(ws: seq<string>, d: char): string {
    if |ws| == 0 then []
    else if |ws| == 1 then ws[0]
    else ws[0] + [d] + Join(ws[1..], d)
  }

  lemma {:induction false} RunLengthOfWordThen(w: string, t: string, cs: set<char>)
    requires Avoids(w, cs)
    requires t == [] || t[0] in cs
    ensures RunLength(w + t, cs) == |w|
    decreases |w|
  {
    if w != [] {
      assert (w + t)[0] == w[0];
      assert (w + t)[1..] == w[1..] + t;
      RunLengthOfWordThen(w[1..], t, cs);
    } else {
      assert w + t == t;
    }
  }

  lemma FieldsOfWordThen(w: string, t: string, cs: set<char>)
    requires w != [] && Avoids(w, cs)
    requires t == [] || t[0] in cs
    ensures Fields(w + t, cs) == [w] + Fields(t, cs)
  {
    var s := w + t;
    var n := RunLength(s, cs);
    RunLengthOfWordThen(w, t, cs);
    assert s[..n] == w && s[n..] == t;
  }

  /** strtok_r splits a `d`-joined list of delimiter-free words back into
      that list. */
  lemma {:induction false} FieldsOfJoin(ws: seq<string>, d: char, cs: set<char>)
    requires d in cs
    requires forall k :: 0 <= k < |ws| ==> ws[k] != [] && Avoids(ws[k], cs)
    ensures Fields(Join(ws, d), cs) == ws
    decreases |ws|
  {
    if |ws| == 1 {
      FieldsOfWordThen(ws[0], [], cs);
      assert ws[0] + [] == ws[0];
    } else if |ws| > 1 {
      var rest := Join(ws[1..], d);
      assert Join(ws, d) == ws[0] + ([d] + rest);
      FieldsOfWordThen(ws[0], [d] + rest, cs);
      assert ([d] + rest)[1..] == rest;
      FieldsOfJoin(ws[1..], d, cs);
      assert ws == [ws[0]] + ws[1..];
    }
  }

  /** Every character of `g` is one of `cs`. */
  predicate AllIn(g: string, cs: set<char>) {
    forall i :: 0 <= i < |g| ==> g[i] in cs
  }

  /** The words `ws` with the separator runs `gs[0]`, ..., `gs[|ws|]`
      before, between and after them. */
  function Interleave(gs: seq<string>, ws: seq<string>): string
    requires |gs| == |ws| + 1
  {
    if ws == [] then gs[0] else gs[0] + ws[0] + Interleave(gs[1..], ws[1..])
  }

  /** `s` is the non-empty delimiter-free words `ws` with the runs of
      delimiters `gs` around them; only the runs at either end may be
      empty. */
  predicate IsSplit(s: string, gs: seq<string>, ws: seq<string>, cs: set<char>) {
    && |gs| == |ws| + 1
    && (forall k :: 0 <= k < |gs| ==> AllIn(gs[k], cs))
    && (forall k :: 0 < k < |ws| ==> gs[k] != [])
    && (forall k :: 0 <= k < |ws| ==> ws[k] != [] && Avoids(ws[k], cs))
    && s == Interleave(gs, ws)
  }

  lemma {:induction false} FieldsSkipsSeparators(g: string, t: string, cs: set<char>)
    requires AllIn(g, cs)
    ensures Fields(g + t, cs) == Fields(t, cs)
    decreases |g|
  {
    if g != [] {
      ConsConcat(g, t);
      FieldsSkipsSeparators(g[1..], t, cs);
    } else {
      assert g + t == t;
    }
  }

  /** Whatever the runs of delimiters around and between them, strtok_r
      returns exactly the words: no token spans a delimiter, and no word
      is split. */
  lemma {:induction false} FieldsOfSplit(s: string, gs: seq<string>, ws: seq<string>, cs: set<char>)
    requires IsSplit(s, gs, ws, cs)
    ensures Fields(s, cs) == ws
    decreases |ws|
  {
    if ws == [] {
      FieldsSkipsSeparators(gs[0], [], cs);
      assert gs[0] + [] == gs[0];
    } else {
      var rest := Interleave(gs[1..], ws[1..]);
      SplitTail(s, gs, ws, cs);
      FieldsSkipsSeparators(gs[0], ws[0] + rest, cs);
      FieldsOfWordThen(ws[0], rest, cs);
      FieldsOfSplit(rest, gs[1..], ws[1..], cs);
      assert ws == [ws[0]] + ws[1..];
    }
  }

  /** A split string is its first run, its first word, and a split rest
      that is empty or starts with a delimiter. */
  lemma SplitTail(s: string, gs: seq<string>, ws: seq<string>, cs: set<char>)
    requires IsSplit(s, gs, ws, cs) && ws != []
    ensures var rest := Interleave(gs[1..], ws[1..]);
      && s == gs[0] + (ws[0] + rest)
      && AllIn(gs[0], cs) && ws[0] != [] && Avoids(ws[0], cs)
      && (rest == [] || rest[0] in cs)
      && IsSplit(rest, gs[1..], ws[1..], cs)
  {
    var rest := Interleave(gs[1..], ws[1..]);
    AppendAssoc(gs[0], ws[0], rest);
    if |ws| > 1 {
      assert rest[0] == gs[1][0];
    } else {
      assert rest == gs[1];
    }
    var hs, vs := gs[1..], ws[1..];
    forall k | 0 <= k < |hs| ensures AllIn(hs[k], cs) {
      assert hs[k] == gs[k + 1];
    }
    forall k | 0 < k < |vs| ensures hs[k] != [] {
      assert hs[k] == gs[k + 1];
    }
    forall k | 0 <= k < |vs| ensures vs[k] != [] && Avoids(vs[k], cs) {
      assert vs[k] == ws[k + 1];
    }
  }

  /** The runs of delimiters of `s` before, between and after its tokens. */
  function Gaps(s: string, cs: set<char>): (gs: seq<string>)
    ensures |gs| == |Fields(s, cs)| + 1
    ensures s != [] && s[0] in cs ==> gs[0] != []
    decreases |s|
  {
    if s == [] then [[]]
    else if s[0] in cs then
      var g := Gaps(s[1..], cs);
      [[s[0]] + g[0]] + g[1..]
    else [[]] + Gaps(s[RunLength(s, cs)..], cs)
  }

  /** Putting a delimiter in front of the first run. */
  lemma InterleaveWiden(c: char, gs: seq<string>, ws: seq<string>)
    requires |gs| == |ws| + 1
    ensures Interleave([[c] + gs[0]] + gs[1..], ws) == [c] + Interleave(gs, ws)
  {
    var hs := [[c] + gs[0]] + gs[1..];
    assert hs[1..] == gs[1..];
    if ws != [] {
      AppendAssoc([c], gs[0], ws[0]);
      AppendAssoc([c], gs[0] + ws[0], Interleave(gs[1..], ws[1..]));
    }
  }

  /** A delimiter in front of a split string joins its first run. */
  lemma SplitAfterDelimiter(c: char, t: string, gs: seq<string>, ws: seq<string>, cs: set<char>)
    requires c in cs && IsSplit(t, gs, ws, cs)
    ensures IsSplit([c] + t, [[c] + gs[0]] + gs[1..], ws, cs)
  {
    var hs := [[c] + gs[0]] + gs[1..];
    InterleaveWiden(c, gs, ws);
    forall k | 0 <= k < |hs| ensures AllIn(hs[k], cs) {
      if k > 0 {
        assert hs[k] == gs[k];
      }
    }
    forall k | 0 < k < |ws| ensures hs[k] != [] {
      assert hs[k] == gs[k];
    }
  }

  /** A word in front of a split string that starts with a delimiter, or
      is empty, is one more token. */
  lemma SplitAfterWord(w: string, t: string, gs: seq<string>, ws: seq<string>, cs: set<char>)
    requires w != [] && Avoids(w, cs) && IsSplit(t, gs, ws, cs)
    requires ws != [] ==> gs[0] != []
    ensures IsSplit(w + t, [[]] + gs, [w] + ws, cs)
  {
    var hs, vs := [[]] + gs, [w] + ws;
    assert hs[1..] == gs && vs[1..] == ws;
    assert Interleave(hs, vs) == [] + w + t;
    forall k | 0 <= k < |hs| ensures AllIn(hs[k], cs) {
      if k > 0 {
        assert hs[k] == gs[k - 1];
      }
    }
    forall k | 0 < k < |vs| ensures hs[k] != [] {
      assert hs[k] == gs[k - 1];
    }
    forall k | 0 <= k < |vs| ensures vs[k] != [] && Avoids(vs[k], cs) {
      if k > 0 {
        assert vs[k] == ws[k - 1];
      }
    }
  }

  /** Every string is its tokens with the runs of delimiters between
      them: together with FieldsOfSplit, the tokens are what is left
      between maximal runs of delimiters. */
  lemma {:induction false} FieldsSplitInput(s: string, cs: set<char>)
    ensures IsSplit(s, Gaps(s, cs), Fields(s, cs), cs)
    decreases |s|
  {
    if s == [] {
      assert Interleave([[]], []) == [];
    } else if s[0] in cs {
      FieldsSplitInput(s[1..], cs);
      SplitAfterDelimiter(s[0], s[1..], Gaps(s[1..], cs), Fields(s[1..], cs), cs);
      assert s == [s[0]] + s[1..];
    } else {
      var n := RunLength(s, cs);
      var t := s[n..];
      FieldsSplitInput(t, cs);
      assert Fields(s, cs) == [s[..n]] + Fields(t, cs);
      SplitAfterWord(s[..n], t, Gaps(t, cs), Fields(t, cs), cs);
      assert s == s[..n] + t;
    }
  }

  /** strchr: the first position of `c` in `s`. */
  function Find(s: string, c: char): (r: Option<nat>)
    ensures r.None? <==> c !in s
    ensures r.Some? ==> r.value < |s| && s[r.value] == c && c !in s[..r.value]
  {
    if s == [] then None
    else if s[0] == c then Some(0)
    else match Find(s[1..], c)
      case None => None
      case Some(k) =>
        assert s[..k + 1] == [s[0]] + s[1..][..k];
        Some(k + 1)
  }

  /** Number of leading decimal digits of `s`. */
  function DigitRun(s: string): (n: nat)
    ensures n <= |s|
    ensures forall i :: 0 <= i < n ==> IsDigit(s[i])
    ensures n < |s| ==> !IsDigit(s[n])
    decreases |s|
  {
    if s == [] || !IsDigit(s[0]) then 0 else 1 + DigitRun(s[1..])
  }

  lemma {:induction false} DigitRunOfDigitsThen(d: string, t: string)
    requires forall i :: 0 <= i < |d| ==> IsDigit(d[i])
    requires t == [] || !IsDigit(t[0])
    ensures DigitRun(d + t) == |d|
    decreases |d|
  {
    if d != [] {
      assert (d + t)[0] == d[0];
      assert (d + t)[1..] == d[1..] + t;
      DigitRunOfDigitsThen(d[1..], t);
    } else {
      assert d + t == t;
    }
  }

  /** The value of a string of decimal digits. */
  function Decimal(d: string): nat
    requires forall i :: 0 <= i < |d| ==> IsDigit(d[i])
    decreases |d|
  {
    if d == [] then 0
    else
      assert IsDigit(d[|d| - 1]);
      10 * Decimal(d[..|d| - 1]) + (d[|d| - 1] as int - '0' as int)
  }

  /** The value of the leading digits of `s`. */
  function LeadingValue(s: string): nat {
    Decimal(s[..DigitRun(s)])
  }

  /** atoi: optional isspace characters, an optional sign, then digits;
      anything after the digits is ignored. Overflow is not modelled. */
  function Atoi(s: string): int {
    var t := StripLeading(s, CSpace);
    if t != [] && t[0] == '-' then -(LeadingValue(t[1..]) as int)
    else if t != [] && t[0] == '+' then LeadingValue(t[1..])
    else LeadingValue(t)
  }

  /** `n` written in decimal without leading zeros. */
  function DecimalString(n: nat): (r: string)
    ensures r != [] && forall i :: 0 <= i < |r| ==> IsDigit(r[i])
  {
    if n < 10 then [('0' as int + n) as char]
    else DecimalString(n / 10) + [('0' as int + n % 10) as char]
  }

  lemma {:induction false} DecimalOfDecimalString(n: nat)
    ensures Decimal(DecimalString(n)) == n
  {
    var r := DecimalString(n);
    if n >= 10 {
      assert r[..|r| - 1] == DecimalString(n / 10);
      DecimalOfDecimalString(n / 10);
    }
  }

  /** atoi reads back a number written in decimal, whatever non-digit text
      follows it. */
  lemma AtoiOfDecimalString(n: nat, tail: string)
    requires tail == [] || !IsDigit(tail[0])
    ensures Atoi(DecimalString(n) + tail) == n
  {
    var d := DecimalString(n);
    var s := d + tail;
    assert s[0] == d[0] && IsDigit(s[0]);
    assert s[0] !in CSpace && s[0] != '-' && s[0] != '+';
    assert StripLeading(s, CSpace) == s;
    DigitRunOfDigitsThen(d, tail);
    assert s[..DigitRun(s)] == d;
    DecimalOfDecimalString(n);
    assert LeadingValue(s) == n;
  }

  /** The memmove of trim_inplace: the `len - p` characters from
      position `p` on are copied to the front, one by one, lowest first. */
  method MoveDown(buf: array<char>, p: nat, len: nat)
    requires p <= len <= buf.Length
    modifies buf
    ensures buf[..len - p] == old(buf[p..len])
    ensures buf[len - p..] == old(buf[len - p..])
  {
    ghost var s := buf[..];
    var i := 0;
    while i < len - p
      invariant 0 <= i <= len - p
      invariant forall k :: 0 <= k < i ==> buf[k] == s[p + k]
      invariant forall k :: i <= k < buf.Length ==> buf[k] == s[k]
    {
      buf[i] := buf[i + p];
      i := i + 1;
    }
  }

  /** The first loop of trim_inplace: the number of leading trim characters. */
  method LeadingTrimCount(buf: array<char>, len: nat) returns (p: nat)
    requires len <= buf.Length
    ensures p <= len
    ensures StripLeading(buf[..len], TrimChars) == buf[p..len]
  {
    ghost var s := buf[..len];
    p := 0;
    while p < len && buf[p] in TrimChars
      invariant 0 <= p <= len
      invariant StripLeading(s, TrimChars) == StripLeading(s[p..], TrimChars)
    {
      assert s[p..][1..] == s[p + 1..];
      p := p + 1;
    }
    assert s[p..] == buf[p..len];
  }

  /** The last loop of trim_inplace: the length left once the trailing trim
      characters of `buf[..len]` are cut off. */
  method TrailingTrimLength(buf: array<char>, len: nat) returns (n: nat)
    requires len <= buf.Length
    ensures n <= len
    ensures StripTrailing(buf[..len], TrimChars) == buf[..n]
  {
    ghost var s := buf[..len];
    n := len;
    assert s[..n] == s;
    while n > 0 && buf[n - 1] in TrimChars
      invariant 0 <= n <= len
      invariant StripTrailing(s, TrimChars) == StripTrailing(s[..n], TrimChars)
    {
      assert s[..n][..n - 1] == s[..n - 1];
      n := n - 1;
    }
    assert s[..n] == buf[..n];
  }

  /** trim_inplace on a C buffer whose string has length `len`: skip the
      leading trim characters, move the rest to the front, cut the end. */
  method TrimInPlace(buf: array<char>, len: nat) returns (newLen: nat)
    requires len <= buf.Length
    modifies buf
    ensures newLen <= len
    ensures buf[..newLen] == Trim(old(buf[..len]))
  {
    var p := LeadingTrimCount(buf, len);
    if p != 0 {
      MoveDown(buf, p, len);
    }
    newLen := TrailingTrimLength(buf, len - p);
  }

  /** A copy of `s` trimmed through trim_inplace. */
  method TrimLine(s: string) returns (t: string)
    ensures t == Trim(s)
  {
    var buf := new char[|s|](i requires 0 <= i < |s| => s[i]);
    assert buf[..|s|] == s;
    var n := TrimInPlace(buf, |s|);
    t := buf[..n];
  }
}
