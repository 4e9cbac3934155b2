/** The background job list of src/shell.c. The source keeps a singly
    linked list whose head is the most recently added job; here the list
    is the sequence of its nodes from the head on. */
module Jobs {
  import opened Wrappers
  import opened Seqs

  datatype Job = Job(pid: int, cmdline: string)

  /** The position of the first job with process id `pid`, if any. */
  function FirstWithPid(js: seq<Job>, pid: int): (r: Option<nat>)
    ensures r.None? <==> forall k :: 0 <= k < |js| ==> js[k].pid != pid
    ensures r.Some? ==> r.value < |js| && js[r.value].pid == pid
    ensures r.Some? ==> forall k :: 0 <= k < r.value ==> js[k].pid != pid
  {
    FirstWhere(js, (j: Job) => j.pid == pid)
  }

  /** The list after unlinking its first node with process id `pid`. */
  function WithoutPid(js: seq<Job>, pid: int): (r: seq<Job>)
    ensures |r| <= |js|
  {
    if js == [] then []
    else if js[0].pid == pid then js[1..]
    else [js[0]] + WithoutPid(js[1..], pid)
  }

  /** Past a head with another pid, the first match is one further on. */
  lemma FirstWithPidTail(js: seq<Job>, pid: int)
    requires js != [] && js[0].pid != pid
    ensures FirstWithPid(js[1..], pid).None? ==> FirstWithPid(js, pid).None?
    ensures FirstWithPid(js[1..], pid).Some? ==> FirstWithPid(js, pid) == Some(FirstWithPid(js[1..], pid).value + 1)
  {
    var t := js[1..];
    match FirstWithPid(t, pid)
    case None =>
      forall k | 0 <= k < |js| ensures js[k].pid != pid {
        if k > 0 {
          assert js[k] == t[k - 1];
        }
      }
    case Some(k) =>
      assert js[k + 1] == t[k];
      var i := FirstWithPid(js, pid).value;
      assert i > 0;
      assert js[i] == t[i - 1];
      assert i - 1 >= k && i <= k + 1;
  }

  /** Unlinking removes exactly the node FirstWithPid finds, and leaves
      the list unchanged when there is none. */
  lemma {:induction false} WithoutPidUnlinks(js: seq<Job>, pid: int)
    ensures Unlinks(js, pid)
    decreases |js|
  {
    if js != [] && js[0].pid == pid {
      assert FirstWithPid(js, pid) == Some(0);
      assert js[..0] + js[1..] == js[1..];
    } else if js != [] {
      WithoutPidUnlinks(js[1..], pid);
      UnlinksStep(js, pid);
    }
  }

  /** WithoutPid(js, pid) cuts out the node FirstWithPid finds. */
  predicate Unlinks(js: seq<Job>, pid: int) {
    && (FirstWithPid(js, pid).None? ==> WithoutPid(js, pid) == js)
    && (FirstWithPid(js, pid).Some? ==>
          var i := FirstWithPid(js, pid).value; WithoutPid(js, pid) == js[..i] + js[i + 1..])
  }

  /** Past a head with another pid, unlinking in the tail is unlinking. */
  lemma UnlinksStep(js: seq<Job>, pid: int)
    requires js != [] && js[0].pid != pid && Unlinks(js[1..], pid)
    ensures Unlinks(js, pid)
  {
    var t := js[1..];
    var tail := WithoutPid(t, pid);
    assert WithoutPid(js, pid) == [js[0]] + tail;
    FirstWithPidTail(js, pid);
    match FirstWithPid(t, pid)
    case None =>
      assert js == [js[0]] + t;
    case Some(k) =>
      ConsSlices(js, k);
      AppendAssoc([js[0]], t[..k], t[k + 1..]);
  }

  /** The list after each pid of `finished` in turn is removed. */
  function WithoutAll(js: seq<Job>, finished: seq<int>): seq<Job>
    decreases |finished|
  {
    if finished == [] then js else WithoutAll(WithoutPid(js, finished[0]), finished[1..])
  }

  /** The jobs whose process id is not in `finished`, in list order. */
  function Surviving(js: seq<Job>, finished: seq<int>): (r: seq<Job>)
    ensures forall k :: 0 <= k < |r| ==> r[k] in js && r[k].pid !in finished
  {
    if js == [] then []
    else (if js[0].pid in finished then [] else [js[0]]) + Surviving(js[1..], finished)
  }

  /** No two jobs share a process id, as holds of live processes. */
  ghost predicate DistinctPids(js: seq<Job>) {
    forall i, j :: 0 <= i < j < |js| ==> js[i].pid != js[j].pid
  }

  lemma {:induction false} SurvivingNone(js: seq<Job>, finished: seq<int>)
    requires forall k :: 0 <= k < |js| ==> js[k].pid !in finished
    ensures Surviving(js, finished) == js
    decreases |js|
  {
    if js != [] {
      SurvivingNone(js[1..], finished);
    }
  }

  lemma {:induction false} SurvivingKeepsDistinct(js: seq<Job>, finished: seq<int>)
    requires DistinctPids(js)
    ensures DistinctPids(Surviving(js, finished))
    decreases |js|
  {
    if js != [] {
      assert DistinctPids(js[1..]);
      SurvivingKeepsDistinct(js[1..], finished);
      var rest := Surviving(js[1..], finished);
      var r := Surviving(js, finished);
      if js[0].pid !in finished {
        assert r == [js[0]] + rest;
        forall i, j | 0 <= i < j < |r| ensures r[i].pid != r[j].pid {
          if i == 0 {
            assert r[j] == rest[j - 1] && rest[j - 1] in js[1..];
          }
        }
      }
    }
  }

  /** With distinct ids, removing one pid keeps exactly the other jobs. */
  lemma {:induction false} WithoutPidIsFilter(js: seq<Job>, pid: int)
    requires DistinctPids(js)
    ensures WithoutPid(js, pid) == Surviving(js, [pid])
    decreases |js|
  {
    if js != [] {
      assert DistinctPids(js[1..]);
      if js[0].pid == pid {
        assert forall k :: 0 <= k < |js[1..]| ==> js[1..][k].pid != pid by {
          forall k | 0 <= k < |js[1..]| ensures js[1..][k].pid != pid {
            assert js[1..][k] == js[k + 1];
          }
        }
        SurvivingNone(js[1..], [pid]);
      } else {
        WithoutPidIsFilter(js[1..], pid);
      }
    }
  }

  lemma {:induction false} SurvivingTwice(js: seq<Job>, a: seq<int>, b: seq<int>)
    ensures Surviving(Surviving(js, a), b) == Surviving(js, a + b)
    decreases |js|
  {
    if js != [] {
      SurvivingTwice(js[1..], a, b);
      var rest := Surviving(js[1..], a);
      if js[0].pid !in a {
        var l := [js[0]] + rest;
        assert l[0] == js[0] && l[1..] == rest;
        assert Surviving(l, b) == (if js[0].pid in b then [] else [js[0]]) + Surviving(rest, b);
        assert (js[0].pid in a + b) == (js[0].pid in b);
      } else {
        assert js[0].pid in a + b;
        assert Surviving(js, a) == [] + rest == rest;
        assert Surviving(js, a + b) == [] + Surviving(js[1..], a + b);
      }
    }
  }

  /** Reaping the processes of `finished` leaves exactly the jobs whose
      process has not finished, in their original order. */
  lemma {:induction false} ReapKeepsSurvivors(js: seq<Job>, finished: seq<int>)
    requires DistinctPids(js)
    ensures WithoutAll(js, finished) == Surviving(js, finished)
    decreases |finished|
  {
    if finished == [] {
      SurvivingNone(js, []);
    } else {
      var p := finished[0];
      WithoutPidIsFilter(js, p);
      SurvivingKeepsDistinct(js, [p]);
      ReapKeepsSurvivors(WithoutPid(js, p), finished[1..]);
      SurvivingTwice(js, [p], finished[1..]);
      assert [p] + finished[1..] == finished;
    }
  }

  class JobTable {
    var jobs: seq<Job>

    constructor ()
      ensures jobs == []
    {
      jobs := [];
    }

    /** add_job: the new job becomes the head; a missing command line
        (NULL) is stored as the empty string. */
    method AddJob(pid: int, cmdline: Option<string>)
      modifies this
      ensures jobs == [Job(pid, cmdline.GetOr(""))] + old(jobs)
    {
      jobs := [Job(pid, cmdline.GetOr(""))] + jobs;
    }

    /** remove_job: walk the list and unlink the first node with `pid`. */
    method RemoveJob(pid: int)
      modifies this
      ensures jobs == WithoutPid(old(jobs), pid)
    {
      var i := 0;
      while i < |jobs|
        invariant 0 <= i <= |jobs|
        invariant forall k :: 0 <= k < i ==> jobs[k].pid != pid
      {
        if jobs[i].pid == pid {
          WithoutPidUnlinks(jobs, pid);
          jobs := jobs[..i] + jobs[i + 1..];
          return;
        }
        i := i + 1;
      }
      WithoutPidUnlinks(jobs, pid);
    }

    /** reap_background_jobs, with the terminated process ids that waitpid
        would report given in order. */
    method ReapBackgroundJobs(finished: seq<int>)
      modifies this
      ensures jobs == WithoutAll(old(jobs), finished)
    {
      var i := 0;
      while i < |finished|
        invariant 0 <= i <= |finished|
        invariant WithoutAll(jobs, finished[i..]) == WithoutAll(old(jobs), finished)
      {
        assert finished[i..][1..] == finished[i + 1..];
        RemoveJob(finished[i]);
        i := i + 1;
      }
    }
  }
}
