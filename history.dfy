/** The command history of src/shell.c: a fixed array of HistorySize
    slots filled from the front; when it is full the oldest entry is
    dropped and the others move down one slot. Lookups are 1-indexed. */
module History {
  import opened Wrappers
  import opened Seqs
  import opened Limits

  /** The last `n` elements of `s`, or all of them when there are fewer. */
  function Latest<T>(s: seq<T>, n: nat): (r: seq<T>)
    ensures |r| == if |s| <= n then |s| else n
    ensures r == s[|s| - |r|..]
  {
    if |s| <= n then s else s[|s| - n..]
  }

  /** The log `h` after one more line is recorded: the newest entries of
      `h + [line]` that fit. */
  function Recorded(h: seq<string>, line: string): (r: seq<string>)
    requires |h| <= HistorySize
    ensures r == Latest(h + [line], HistorySize)
  {
    if |h| < HistorySize then h + [line] else h[1..] + [line]
  }

  /** A recorded log holds only lines of the old log and the new line. */
  lemma RecordedFrom(h: seq<string>, line: string)
    requires |h| <= HistorySize
    ensures forall x :: x in Recorded(h, line) ==> x in h || x == line
  {
    if |h| == HistorySize {
      forall x | x in h[1..] ensures x in h {
        var i :| 0 <= i < |h[1..]| && h[1..][i] == x;
        assert h[i + 1] == x;
      }
    }
  }

  /** The log `h` after each of `lines` is recorded in turn. */
  function RecordAll(h: seq<string>, lines: seq<string>): (r: seq<string>)
    requires |h| <= HistorySize
    ensures |r| <= HistorySize
    decreases |lines|
  {
    if lines == [] then h else RecordAll(Recorded(h, lines[0]), lines[1..])
  }

  /** The 1-indexed entry `n` of log `h`, if there is one. */
  function Entry(h: seq<string>, n: int): (r: Option<string>)
    ensures r.Some? <==> 1 <= n <= |h|
    ensures r.Some? ==> r.value == h[n - 1]
  {
    if n <= 0 || n > |h| then None else Some(h[n - 1])
  }

  lemma LatestOfLatest<T>(x: seq<T>, y: seq<T>, n: nat)
    ensures Latest(Latest(x, n) + y, n) == Latest(x + y, n)
  {
    if |x| > n {
      var x' := x[|x| - n..];
      assert x + y == x[..|x| - n] + (x' + y);
      var a, b := Latest(x' + y, n), Latest(x + y, n);
      assert |a| == |b|;
      forall i | 0 <= i < |a| ensures a[i] == b[i] {
        assert a[i] == (x' + y)[|x' + y| - |a| + i];
        assert b[i] == (x + y)[|x + y| - |b| + i];
      }
    }
  }

  /** Recording is FIFO eviction: whatever was recorded, the log holds the
      HistorySize most recent lines, oldest first. */
  lemma {:induction false} RecordAllKeepsLatest(h: seq<string>, lines: seq<string>)
    requires |h| <= HistorySize
    ensures RecordAll(h, lines) == Latest(h + lines, HistorySize)
    decreases |lines|
  {
    if lines == [] {
      AppendEmpty(h);
    } else {
      var h' := Recorded(h, lines[0]);
      RecordAllKeepsLatest(h', lines[1..]);
      LatestOfLatest(h + [lines[0]], lines[1..], HistorySize);
      AppendHead(h, lines);
    }
  }

  /** After recording `lines` into an empty log, `!n` names the n-th oldest
      line still retained; in particular `!1` names the oldest. */
  lemma EntryAfterRecording(lines: seq<string>, n: int)
    requires 1 <= n <= |lines| && n <= HistorySize
    ensures var kept := if |lines| <= HistorySize then |lines| else HistorySize;
      Entry(RecordAll([], lines), n) == Some(lines[|lines| - kept + n - 1])
  {
    RecordAllKeepsLatest([], lines);
    assert [] + lines == lines;
    EntryOfLatest(lines, n);
  }

  lemma EntryOfLatest(lines: seq<string>, n: int)
    requires 1 <= n <= |lines| && n <= HistorySize
    ensures var kept := if |lines| <= HistorySize then |lines| else HistorySize;
      Entry(Latest(lines, HistorySize), n) == Some(lines[|lines| - kept + n - 1])
  {
    var h := Latest(lines, HistorySize);
    assert h[n - 1] == lines[|lines| - |h| + n - 1];
  }

  class History {
    const entries: array<string>
    var count: nat

    ghost predicate Valid()
      reads this
    {
      entries.Length == HistorySize && count <= HistorySize
    }

    /** The recorded lines, oldest first. */
    ghost function Contents(): (h: seq<string>)
      reads this, entries
      requires Valid()
      ensures |h| <= HistorySize
    {
      entries[..count]
    }

    constructor ()
      ensures Valid() && fresh(entries) && Contents() == []
    {
      entries := new string[HistorySize](_ => "");
      count := 0;
    }

    /** add_to_history: a missing line (NULL) is ignored. */
    method Add(cmd: Option<string>)
      requires Valid()
      modifies this, entries
      ensures Valid()
      ensures Contents() == if cmd.Some? then Recorded(old(Contents()), cmd.value) else old(Contents())
    {
      if cmd.None? {
        return;
      }
      if count < HistorySize {
        entries[count] := cmd.value;
        count := count + 1;
      } else {
        var i := 1;
        while i < HistorySize
          modifies entries
          invariant 1 <= i <= HistorySize
          invariant forall k :: 0 <= k < i - 1 ==> entries[k] == old(entries[k + 1])
          invariant forall k :: i - 1 <= k < HistorySize ==> entries[k] == old(entries[k])
        {
          entries[i - 1] := entries[i];
          i := i + 1;
        }
        entries[HistorySize - 1] := cmd.value;
        assert entries[..count] == old(entries[..count])[1..] + [cmd.value];
      }
    }

    /** get_history_command: entry `n` (1-indexed) when it exists. */
    method Get(n: int) returns (r: Option<string>)
      requires Valid()
      ensures r.Some? <==> 1 <= n <= |Contents()|
      ensures r.Some? ==> r.value == Contents()[n - 1]
    {
      if n <= 0 || n > count {
        return None;
      }
      return Some(entries[n - 1]);
    }
  }
}
