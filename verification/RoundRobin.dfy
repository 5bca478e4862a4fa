/** Round robin of cpu-sched/scheduler.py: the loop, and in closed form when every job starts and is done. */
module RoundRobin {
  import opened Scheduling

  /** How many more slices a job with `left` to run will get. */
  function Slices(left: real, quantum: real): (n: nat)
    requires quantum > 0.0
    ensures n >= 1
    decreases if left <= quantum then 0 else (left / quantum).Floor
  {
    if left <= quantum then 1
    else
      FewerSlices(left, quantum);
      1 + Slices(left - quantum, quantum)
  }

  lemma Quotient(y: real, q: real, z: real)
    requires q > 0.0 && y * q == z
    ensures z / q == y
  {
    var d := z / q;
    assert d * q == z;
    assert (d - y) * q == 0.0;
  }

  lemma PositiveFactor(y: real, q: real)
    requires q > 0.0 && y * q > 0.0
    ensures y > 0.0
  {
  }

  lemma FloorLess(x: real)
    requires x > 1.0
    ensures x.Floor >= 1 && (x - 1.0).Floor == x.Floor - 1
  {
    assert (x.Floor - 1) as real <= x - 1.0 < x.Floor as real;
  }

  lemma FewerSlices(left: real, quantum: real)
    requires quantum > 0.0 && left > quantum
    ensures (left / quantum).Floor >= 1 && ((left - quantum) / quantum).Floor == (left / quantum).Floor - 1
  {
    var x := left / quantum;
    assert x * quantum == left;
    var y := x - 1.0;
    assert y * quantum == left - quantum;
    Quotient(y, quantum, left - quantum);
    PositiveFactor(y, quantum);
    FloorLess(x);
  }

  function AllSlices(runlist: seq<Job>, quantum: real): nat
    requires quantum > 0.0
  {
    if runlist == [] then 0 else Slices(runlist[0].run, quantum) + AllSlices(runlist[1..], quantum)
  }

  lemma {:induction false} SlicesAppend(runlist: seq<Job>, job: Job, quantum: real)
    requires quantum > 0.0
    ensures AllSlices(runlist + [job], quantum) == AllSlices(runlist, quantum) + Slices(job.run, quantum)
  {
    if runlist == [] {
      assert [job][1..] == [];
    } else {
      SlicesAppend(runlist[1..], job, quantum);
      assert (runlist + [job])[1..] == runlist[1..] + [job];
    }
  }

  predicate Numbered(joblist: seq<Job>) { forall i :: 0 <= i < |joblist| ==> joblist[i].num == i }

  function SumTo(l: seq<real>): real { if l == [] then 0.0 else SumTo(l[..|l| - 1]) + l[|l| - 1] }

  lemma {:induction false} SumSet(l: seq<real>, j: nat, x: real)
    requires j < |l|
    ensures SumTo(l[j := x]) == SumTo(l) - l[j] + x
  {
    var n := |l| - 1;
    if j < n {
      SumSet(l[..n], j, x);
      assert l[j := x][..n] == l[..n][j := x];
    } else {
      assert l[j := x][..n] == l[..n];
    }
  }

  /** The jobs in the run list are the unfinished ones, each once, with what they have left to run. */
  ghost predicate Listed(runlist: seq<Job>, left: seq<real>, finished: seq<bool>) {
    && |left| == |finished|
    && (forall k :: 0 <= k < |runlist| ==>
      runlist[k].num < |left| && runlist[k].run == left[runlist[k].num] && !finished[runlist[k].num])
    && (forall k, m :: 0 <= k < m < |runlist| ==> runlist[k].num != runlist[m].num)
    && (forall j :: 0 <= j < |left| ==> finished[j] || exists k :: 0 <= k < |runlist| && runlist[k].num == j)
    && (forall j :: 0 <= j < |left| && finished[j] ==> left[j] == 0.0)
  }

  lemma ListedHead(runlist: seq<Job>, left: seq<real>, finished: seq<bool>)
    requires Listed(runlist, left, finished) && runlist != []
    ensures |left| == |finished| && runlist[0].num < |left| && runlist[0].run == left[runlist[0].num]
    ensures !finished[runlist[0].num]
  {
  }

  lemma AllFinished(left: seq<real>, finished: seq<bool>)
    requires Listed([], left, finished)
    ensures |left| == |finished|
    ensures SumTo(left) == 0.0 && forall j :: 0 <= j < |left| ==> finished[j] && left[j] == 0.0
  {
    AllDone(left);
  }

  lemma ListedFirst(joblist: seq<Job>, finished: seq<bool>)
    requires Numbered(joblist) && |finished| == |joblist| && forall j :: 0 <= j < |joblist| ==> !finished[j]
    ensures Listed(joblist, Runs(joblist), finished)
  {
    forall j | 0 <= j < |joblist| ensures finished[j] || exists k :: 0 <= k < |joblist| && joblist[k].num == j {
      assert joblist[j].num == j;
    }
  }

  /** A job's last run ended after its waits and what it has run; a finished job was turned around then. */
  ghost predicate Books(joblist: seq<Job>, left: seq<real>, finished: seq<bool>, wait: seq<real>,
      lastran: seq<real>, turnaround: seq<real>) {
    && |turnaround| == |wait| == |lastran| == |left| == |finished| == |joblist|
    && (forall j :: 0 <= j < |joblist| ==> lastran[j] == wait[j] + (joblist[j].run - left[j]))
    && (forall j :: 0 <= j < |joblist| && finished[j] ==> turnaround[j] == lastran[j])
  }

  lemma BooksAfterRun(joblist: seq<Job>, left: seq<real>, finished: seq<bool>, wait: seq<real>,
      lastran: seq<real>, turnaround: seq<real>,
      j: nat, thetime: real, ranfor: real)
    requires Books(joblist, left, finished, wait, lastran, turnaround) && j < |joblist| && !finished[j]
    ensures |wait| == |lastran| == |left| == |turnaround| == |finished| == |joblist|
    ensures Books(joblist, left[j := left[j] - ranfor], finished,
      wait[j := wait[j] + (thetime - lastran[j])], lastran[j := thetime + ranfor], turnaround)
    ensures Books(joblist, left[j := left[j] - ranfor],
      finished[j := true], wait[j := wait[j] + (thetime - lastran[j])],
      lastran[j := thetime + ranfor], turnaround[j := thetime + ranfor])
  {
  }

  lemma ListedBack(runlist: seq<Job>, left: seq<real>, finished: seq<bool>, x: real)
    requires Listed(runlist, left, finished) && runlist != []
    ensures Listed(runlist[1..] + [Job(runlist[0].num, x)], left[runlist[0].num := x], finished)
  {
    var job, r := runlist[0], runlist[1..] + [Job(runlist[0].num, x)];
    forall j | 0 <= j < |left| && !finished[j] ensures exists k :: 0 <= k < |r| && r[k].num == j {
      var k :| 0 <= k < |runlist| && runlist[k].num == j;
      assert r[if k == 0 then |r| - 1 else k - 1].num == j;
    }
  }

  lemma ListedDone(runlist: seq<Job>, left: seq<real>, finished: seq<bool>)
    requires Listed(runlist, left, finished) && runlist != []
    ensures Listed(runlist[1..], left[runlist[0].num := 0.0], finished[runlist[0].num := true])
  {
    var r, f := runlist[1..], finished[runlist[0].num := true];
    forall j | 0 <= j < |left| && !f[j] ensures exists k :: 0 <= k < |r| && r[k].num == j {
      var k :| 0 <= k < |runlist| && runlist[k].num == j;
      assert r[k - 1].num == j;
    }
  }

  function Runs(joblist: seq<Job>): (r: seq<real>)
    ensures |r| == |joblist| && forall i :: 0 <= i < |r| ==> r[i] == joblist[i].run
  {
    seq(|joblist|, i requires 0 <= i < |joblist| => joblist[i].run)
  }

  function Fill(n: nat, x: real): (r: seq<real>)
    ensures |r| == n && forall i :: 0 <= i < n ==> r[i] == x
  {
    seq(n, _ => x)
  }

  /** When job `t` first runs: after one slice, or the whole run, of each job before it. */
  function FirstRound(joblist: seq<Job>, quantum: real, t: nat): real
    requires t <= |joblist|
  {
    if t == 0 then 0.0
    else FirstRound(joblist, quantum, t - 1) + if joblist[t - 1].run > quantum then quantum else joblist[t - 1].run
  }

  predicate NotNegative(joblist: seq<Job>) { forall j :: 0 <= j < |joblist| ==> joblist[j].run >= 0.0 }

  lemma {:induction false} FirstRoundNotNegative(joblist: seq<Job>, quantum: real, t: nat)
    requires NotNegative(joblist) && quantum > 0.0 && t <= |joblist|
    ensures FirstRound(joblist, quantum, t) >= 0.0
  {
    if t > 0 { FirstRoundNotNegative(joblist, quantum, t - 1); }
  }

  /** The first `t` jobs have had their first slice; the others still head the list, in order. */
  ghost predicate Responses(joblist: seq<Job>, quantum: real, runlist: seq<Job>, response: seq<real>,
      thetime: real, t: nat) {
    && |response| == |joblist| && t <= |joblist| && |joblist| - t <= |runlist|
      && runlist[..|joblist| - t] == joblist[t..]
    && (t < |joblist| ==> thetime == FirstRound(joblist, quantum, t))
    && (forall j :: 0 <= j < |joblist| ==> response[j] == if j < t then FirstRound(joblist, quantum, j) else -1.0)
  }

  lemma ResponsesAfter(joblist: seq<Job>, quantum: real, runlist: seq<Job>, response: seq<real>, thetime: real,
      t: nat, back: seq<Job>)
    requires Numbered(joblist) && NotNegative(joblist) && quantum > 0.0
    requires Responses(joblist, quantum, runlist, response, thetime, t)
    requires runlist != [] && runlist[0].num < |joblist|
    ensures var j := runlist[0].num;
      Responses(joblist, quantum, runlist[1..] + back, if response[j] == -1.0 then response[j := thetime] else response,
        thetime + (if runlist[0].run > quantum then quantum else runlist[0].run), if t < |joblist| then t + 1 else t)
  {
    var j, n := runlist[0].num, |joblist|;
    if t < n {
      assert runlist[..n - t][0] == joblist[t..][0];
      assert (runlist[1..] + back)[..n - t - 1] == runlist[..n - t][1..];
      assert joblist[t..][1..] == joblist[t + 1..];
    } else {
      FirstRoundNotNegative(joblist, quantum, j);
    }
  }

  // ---------- rounds ----------

  /** What a job has run after `c` slices. */
  function Got(run: real, quantum: real, c: nat): real
    decreases c
  {
    if c == 0 then 0.0 else if run <= quantum then run else quantum + Got(run - quantum, quantum, c - 1)
  }

  /** In numbers: `c` quanta, or all it needs. */
  lemma {:induction false} GotIs(run: real, quantum: real, c: nat)
    requires quantum > 0.0 && run >= 0.0
    ensures Got(run, quantum, c) == if c as real * quantum <= run then c as real * quantum else run
    decreases c
  {
    if c > 0 && run > quantum {
      GotIs(run - quantum, quantum, c - 1);
      assert c as real * quantum == (c - 1) as real * quantum + quantum;
    } else if c > 1 {
      assert c as real * quantum == (c - 1) as real * quantum + quantum;
      assert (c - 1) as real * quantum > 0.0;
    }
  }

  /** Of the slices a job needs, `c` are over. */
  lemma {:induction false} SlicesLeft(run: real, quantum: real, c: nat)
    requires quantum > 0.0
    ensures c < Slices(run, quantum) ==> Slices(run - Got(run, quantum, c), quantum) == Slices(run, quantum) - c
    ensures c < Slices(run, quantum) && run - Got(run, quantum, c) <= quantum ==> Got(run, quantum, c + 1) == run
    ensures c < Slices(run, quantum) && run - Got(run, quantum, c) > quantum ==>
      Got(run, quantum, c + 1) == Got(run, quantum, c) + quantum
    ensures c >= Slices(run, quantum) ==> Got(run, quantum, c) == run
    decreases c
  {
    if c > 0 && run > quantum { SlicesLeft(run - quantum, quantum, c - 1); }
  }

  /** The time when the first `h` jobs have had `c` + 1 slices and the others `c`, or as many as they need. */
  function Served(joblist: seq<Job>, quantum: real, c: nat, h: nat, n: nat): real
    requires n <= |joblist|
    decreases n
  {
    if n == 0 then 0.0
    else Served(joblist, quantum, c, h, n - 1) + Got(joblist[n - 1].run, quantum, if n - 1 < h then c + 1 else c)
  }

  /** Of the jobs `from` up to `to` those that need more than `c` slices, with what they have left after these. */
  function Waiting(joblist: seq<Job>, quantum: real, c: nat, from: nat, end: nat): seq<Job>
    requires end <= |joblist| && quantum > 0.0
    decreases end - from
  {
    if from >= end then []
    else WaitingOne(joblist, quantum, c, from) + Waiting(joblist, quantum, c, from + 1, end)
  }

  function WaitingOne(joblist: seq<Job>, quantum: real, c: nat, j: nat): seq<Job>
    requires j < |joblist| && quantum > 0.0
  {
    if Slices(joblist[j].run, quantum) > c then [Job(j, joblist[j].run - Got(joblist[j].run, quantum, c))] else []
  }

  /** When a job is done: it and those before it have had as many slices as it needs, those behind one less. */
  function DoneAt(joblist: seq<Job>, quantum: real, j: nat): real
    requires j < |joblist| && quantum > 0.0
  {
    Served(joblist, quantum, Slices(joblist[j].run, quantum) - 1, j + 1, |joblist|)
  }

  /** In round `c` the jobs up to `h` have had their slice: they stand behind the others, all in their first order,
      and those that are done were turned around in time. */
  ghost predicate Rounds(joblist: seq<Job>, quantum: real, runlist: seq<Job>, turnaround: seq<real>, thetime: real,
      c: nat, h: nat)
    requires quantum > 0.0
  {
    && |turnaround| == |joblist| && h <= |joblist|
    && runlist == Waiting(joblist, quantum, c, h, |joblist|) + Waiting(joblist, quantum, c + 1, 0, h)
    && thetime == Served(joblist, quantum, c, h, |joblist|)
    && Turned(joblist, quantum, turnaround, c, h)
  }

  ghost predicate Turned(joblist: seq<Job>, quantum: real, turnaround: seq<real>, c: nat, h: nat)
    requires quantum > 0.0 && |turnaround| == |joblist|
  {
    forall j :: 0 <= j < |joblist| && Slices(joblist[j].run, quantum) <= (if j < h then c + 1 else c) ==>
      turnaround[j] == DoneAt(joblist, quantum, j)
  }

  lemma {:induction false} WaitingMore(joblist: seq<Job>, quantum: real, c: nat, from: nat, end: nat)
    requires from <= end < |joblist| && quantum > 0.0
    ensures Waiting(joblist, quantum, c, from, end + 1) == Waiting(joblist, quantum, c, from, end)
      + Waiting(joblist, quantum, c, end, end + 1)
    decreases end - from
  {
    if from < end { WaitingMore(joblist, quantum, c, from + 1, end); }
  }

  /** The head of the list, and what stands behind it. */
  lemma WaitingFirst(joblist: seq<Job>, quantum: real, c: nat, h: nat, end: nat)
    requires h < end <= |joblist| && quantum > 0.0
    ensures Waiting(joblist, quantum, c, h, end) == WaitingOne(joblist, quantum, c, h)
      + Waiting(joblist, quantum, c, h + 1, end)
    ensures Waiting(joblist, quantum, c, h, h + 1) == WaitingOne(joblist, quantum, c, h)
  {
    assert Waiting(joblist, quantum, c, h + 1, h + 1) == [];
  }

  lemma {:induction false} ServedMore(joblist: seq<Job>, quantum: real, c: nat, h: nat, n: nat)
    requires h < |joblist| && n <= |joblist|
    ensures Served(joblist, quantum, c, h + 1, n) == Served(joblist, quantum, c, h, n)
      + (if h < n then Got(joblist[h].run, quantum, c + 1) - Got(joblist[h].run, quantum, c) else 0.0)
    decreases n
  {
    if n > 0 { ServedMore(joblist, quantum, c, h, n - 1); }
  }

  lemma {:induction false} NextRound(joblist: seq<Job>, quantum: real, c: nat, n: nat)
    requires n <= |joblist|
    ensures Served(joblist, quantum, c, |joblist|, n) == Served(joblist, quantum, c + 1, 0, n)
    decreases n
  {
    if n > 0 { NextRound(joblist, quantum, c, n - 1); }
  }

  lemma {:induction false} ServedNothing(joblist: seq<Job>, quantum: real, n: nat)
    requires n <= |joblist|
    ensures Served(joblist, quantum, 0, 0, n) == 0.0
    decreases n
  {
    if n > 0 { ServedNothing(joblist, quantum, n - 1); }
  }

  lemma {:induction false} AllWait(joblist: seq<Job>, quantum: real, from: nat)
    requires Numbered(joblist) && quantum > 0.0 && from <= |joblist|
    ensures Waiting(joblist, quantum, 0, from, |joblist|) == joblist[from..]
    decreases |joblist| - from
  {
    if from < |joblist| {
      AllWait(joblist, quantum, from + 1);
      assert joblist[from..] == [joblist[from]] + joblist[from + 1..];
    }
  }

  lemma RoundsAtStart(joblist: seq<Job>, quantum: real, turnaround: seq<real>)
    requires Numbered(joblist) && quantum > 0.0 && |turnaround| == |joblist|
    ensures Rounds(joblist, quantum, joblist, turnaround, 0.0, 0, 0)
  {
    AllWait(joblist, quantum, 0);
    ServedNothing(joblist, quantum, |joblist|);
  }

  lemma TurnedMore(joblist: seq<Job>, quantum: real, turnaround: seq<real>, c: nat, h: nat)
    requires quantum > 0.0 && h < |joblist| == |turnaround| && Turned(joblist, quantum, turnaround, c, h)
    ensures Slices(joblist[h].run, quantum) != c + 1 ==> Turned(joblist, quantum, turnaround, c, h + 1)
    ensures Slices(joblist[h].run, quantum) == c + 1 ==>
      Turned(joblist, quantum, turnaround[h := Served(joblist, quantum, c, h + 1, |joblist|)], c, h + 1)
  {
    hide Slices, Served;
  }

  /** The job's slice takes its time. */
  lemma ServedOne(joblist: seq<Job>, quantum: real, c: nat, h: nat)
    requires quantum > 0.0 && h < |joblist|
    ensures var k, run := Slices(joblist[h].run, quantum), joblist[h].run - Got(joblist[h].run, quantum, c);
      Served(joblist, quantum, c, h + 1, |joblist|) == Served(joblist, quantum, c, h, |joblist|)
        + if k <= c then 0.0 else if run > quantum then quantum else run
    ensures var k, run := Slices(joblist[h].run, quantum), joblist[h].run - Got(joblist[h].run, quantum, c);
      k > c ==> (k == c + 1 <==> run <= quantum) && (k > c + 1 ==>
        joblist[h].run - Got(joblist[h].run, quantum, c + 1) == run - quantum)
  {
    hide Slices, Got, Served;
    SlicesLeft(joblist[h].run, quantum, c);
    SlicesLeft(joblist[h].run, quantum, c + 1);
    OneSlice(joblist[h].run - Got(joblist[h].run, quantum, c), quantum);
    ServedMore(joblist, quantum, c, h, |joblist|);
  }

  /** A job that is done already is passed over. */
  lemma Skip(joblist: seq<Job>, quantum: real, runlist: seq<Job>, turnaround: seq<real>, thetime: real, c: nat, h: nat)
    requires quantum > 0.0 && h < |joblist| && Rounds(joblist, quantum, runlist, turnaround, thetime, c, h)
    requires Slices(joblist[h].run, quantum) <= c
    ensures Rounds(joblist, quantum, runlist, turnaround, thetime, c, h + 1)
  {
    hide Slices, DoneAt, Got, Served, Turned, Waiting;
    ServedOne(joblist, quantum, c, h);
    WaitingFirst(joblist, quantum, c, h, |joblist|);
    WaitingFirst(joblist, quantum, c + 1, h, h + 1);
    WaitingMore(joblist, quantum, c + 1, 0, h);
    TurnedMore(joblist, quantum, turnaround, c, h);
  }

  /** The job at the head of the run list is the next that needs another slice, in this round or the next. */
  lemma NextJob(joblist: seq<Job>, quantum: real, runlist: seq<Job>, turnaround: seq<real>, thetime: real, c: nat,
      h: nat) returns (c': nat, h': nat)
    requires quantum > 0.0 && runlist != [] && Rounds(joblist, quantum, runlist, turnaround, thetime, c, h)
    ensures Rounds(joblist, quantum, runlist, turnaround, thetime, c', h')
    ensures h' < |joblist| && Slices(joblist[h'].run, quantum) > c'
  {
    hide Slices, Got, Served;
    c', h' := c, h;
    while h' < |joblist| && Slices(joblist[h'].run, quantum) <= c'
      invariant h' <= |joblist| && Rounds(joblist, quantum, runlist, turnaround, thetime, c', h')
    {
      Skip(joblist, quantum, runlist, turnaround, thetime, c', h');
      h' := h' + 1;
    }
    if h' == |joblist| {
      NextRound(joblist, quantum, c', |joblist|);
      c', h' := c' + 1, 0;
      while h' < |joblist| && Slices(joblist[h'].run, quantum) <= c'
        invariant h' <= |joblist| && Rounds(joblist, quantum, runlist, turnaround, thetime, c', h')
        invariant Waiting(joblist, quantum, c' + 1, 0, h') == []
      {
        Skip(joblist, quantum, runlist, turnaround, thetime, c', h');
        WaitingMore(joblist, quantum, c' + 1, 0, h');
        h' := h' + 1;
      }
    }
  }

  /** It runs its slice. */
  lemma RoundsAfter(joblist: seq<Job>, quantum: real, runlist: seq<Job>, turnaround: seq<real>, thetime: real, c: nat,
      h: nat)
    requires quantum > 0.0 && Rounds(joblist, quantum, runlist, turnaround, thetime, c, h)
    requires h < |joblist| && Slices(joblist[h].run, quantum) > c
    ensures runlist != [] && runlist[0].num == h
    ensures var run := runlist[0].run;
      if run > quantum
      then Rounds(joblist, quantum, runlist[1..] + [Job(h, run - quantum)], turnaround, thetime + quantum, c, h + 1)
      else Rounds(joblist, quantum, runlist[1..], turnaround[h := thetime + run], thetime + run, c, h + 1)
  {
    hide Slices, Got, Served, Turned, Waiting;
    var run := joblist[h].run - Got(joblist[h].run, quantum, c);
    WaitingFirst(joblist, quantum, c, h, |joblist|);
    WaitingFirst(joblist, quantum, c + 1, h, h + 1);
    assert runlist[0] == Job(h, run);
    assert runlist[1..] == Waiting(joblist, quantum, c, h + 1, |joblist|) + Waiting(joblist, quantum, c + 1, 0, h);
    ServedOne(joblist, quantum, c, h);
    WaitingMore(joblist, quantum, c + 1, 0, h);
    TurnedMore(joblist, quantum, turnaround, c, h);
  }

  lemma OneSlice(left: real, quantum: real)
    requires quantum > 0.0
    ensures Slices(left, quantum) == 1 <==> left <= quantum
  {
  }

  lemma RoundsAtEnd(joblist: seq<Job>, quantum: real, turnaround: seq<real>, thetime: real, c: nat, h: nat)
    requires quantum > 0.0 && Rounds(joblist, quantum, [], turnaround, thetime, c, h)
    ensures |turnaround| == |joblist|
    ensures forall j :: 0 <= j < |joblist| ==> turnaround[j] == DoneAt(joblist, quantum, j)
  {
    hide Slices, Got, DoneAt, Served;
    forall j: nat | j < |joblist| ensures turnaround[j] == DoneAt(joblist, quantum, j) {
      if j < h {
        NoneWaits(joblist, quantum, c + 1, 0, h, j);
      } else {
        NoneWaits(joblist, quantum, c, h, |joblist|, j);
      }
    }
  }

  lemma {:induction false} NoneWaits(joblist: seq<Job>, quantum: real, c: nat, from: nat, end: nat, j: nat)
    requires quantum > 0.0 && from <= j < end <= |joblist| && Waiting(joblist, quantum, c, from, end) == []
    ensures Slices(joblist[j].run, quantum) <= c
    decreases j - from
  {
    if from < j { NoneWaits(joblist, quantum, c, from + 1, end, j); }
  }

  // ---------- the loop ----------

  /** What the round-robin loop keeps: the run list, per-job statistics and the time. */
  datatype Run = Run(runlist: seq<Job>, wait: seq<real>, lastran: seq<real>,
    turnaround: seq<real>, response: seq<real>, thetime: real)

  ghost predicate Kept(joblist: seq<Job>, r: Run, left: seq<real>, finished: seq<bool>) {
    && Listed(r.runlist, left, finished) && |r.response| == |joblist|
    && Books(joblist, left, finished, r.wait, r.lastran, r.turnaround)
    && r.thetime + SumTo(left) == SumTo(Runs(joblist))
  }

  /** The same with the response times, when no run time is negative. */
  ghost predicate KeptAll(joblist: seq<Job>, quantum: real, r: Run, left: seq<real>, finished: seq<bool>, t: nat) {
    && Kept(joblist, r, left, finished)
    && (NotNegative(joblist) ==> Responses(joblist, quantum, r.runlist, r.response, r.thetime, t))
  }

  ghost predicate InRounds(joblist: seq<Job>, quantum: real, r: Run, c: nat, h: nat)
    requires quantum > 0.0
  {
    Rounds(joblist, quantum, r.runlist, r.turnaround, r.thetime, c, h)
  }

  /** One turn: the first job in the list runs for a quantum, or for what it has left. */
  method Turn(joblist: seq<Job>, quantum: real, r: Run, ghost left: seq<real>, ghost finished: seq<bool>,
      ghost k: nat, ghost c: nat, ghost h: nat)
    returns (t: Run, ghost left': seq<real>, ghost finished': seq<bool>, ghost k': nat, ghost c': nat, ghost h': nat)
    requires Numbered(joblist) && quantum > 0.0 && r.runlist != [] && KeptAll(joblist, quantum, r, left, finished, k)
    requires InRounds(joblist, quantum, r, c, h)
    ensures KeptAll(joblist, quantum, t, left', finished', k') && InRounds(joblist, quantum, t, c', h')
    ensures AllSlices(t.runlist, quantum) < AllSlices(r.runlist, quantum)
    ensures |t.runlist| < |r.runlist| ==> exists j :: 0 <= j < |t.turnaround| && t.turnaround[j] == t.thetime
    ensures |t.runlist| <= |r.runlist|
  {
    hide Listed, Books, SumTo, AllSlices, Slices, Runs, Responses, NotNegative, Rounds;
    c', h' := NextJob(joblist, quantum, r.runlist, r.turnaround, r.thetime, c, h);
    RoundsAfter(joblist, quantum, r.runlist, r.turnaround, r.thetime, c', h');
    h' := h' + 1;
    ListedHead(r.runlist, left, finished);
    SlicesHead(r.runlist, quantum);
    var job := r.runlist[0];
    var jobnum, runtime := job.num, job.run;
    BooksSizes(joblist, left, finished, r.wait, r.lastran, r.turnaround);
    var response := if r.response[jobnum] == -1.0 then r.response[jobnum := r.thetime] else r.response;
    var currwait := r.thetime - r.lastran[jobnum];
    var wait := r.wait[jobnum := r.wait[jobnum] + currwait];
    var ranfor, runlist, turnaround := runtime, r.runlist[1..], r.turnaround;
    finished' := finished;
    if runtime > quantum {
      ranfor := quantum;
      ListedBack(r.runlist, left, finished, runtime - quantum);
      SlicesAppend(r.runlist[1..], Job(jobnum, runtime - quantum), quantum);
      runlist := r.runlist[1..] + [Job(jobnum, runtime - quantum)];
    } else {
      ListedDone(r.runlist, left, finished);
      turnaround := r.turnaround[jobnum := r.thetime + ranfor];
      assert turnaround[jobnum] == r.thetime + ranfor;
      finished' := finished[jobnum := true];
    }
    BooksAfterRun(joblist, left, finished, r.wait, r.lastran, r.turnaround, jobnum, r.thetime, ranfor);
    SumSet(left, jobnum, runtime - ranfor);
    left' := left[jobnum := runtime - ranfor];
    t := Run(runlist, wait, r.lastran[jobnum := r.thetime + ranfor], turnaround, response, r.thetime + ranfor);
    k' := if k < |joblist| then k + 1 else k;
    if NotNegative(joblist) {
      ghost var back := if runtime > quantum then [Job(jobnum, runtime - quantum)] else [];
      assert runlist == r.runlist[1..] + back;
      ResponsesAfter(joblist, quantum, r.runlist, r.response, r.thetime, k, back);
    }
  }

  lemma BooksSizes(joblist: seq<Job>, left: seq<real>, finished: seq<bool>, wait: seq<real>, lastran: seq<real>,
      turnaround: seq<real>)
    requires Books(joblist, left, finished, wait, lastran, turnaround)
    ensures |turnaround| == |wait| == |lastran| == |left| == |finished| == |joblist|
  {
  }

  /** The round-robin loop ends, with every turnaround and response time in closed form. A job that needs k slices is
      done when it and those before it have had k slices and those behind k - 1, or as many as they need; this is its
      accumulated wait plus its run time, and the last one is done at the sum of the run times. */
  method Schedule(joblist: seq<Job>, quantum: real) returns (r: Run)
    requires Numbered(joblist) && quantum > 0.0
    ensures |r.turnaround| == |r.wait| == |r.response| == |joblist| && r.runlist == []
    ensures forall j :: 0 <= j < |joblist| ==> r.turnaround[j] == DoneAt(joblist, quantum, j)
    ensures forall j :: 0 <= j < |joblist| ==> r.turnaround[j] == r.wait[j] + joblist[j].run
    ensures r.thetime == SumTo(Runs(joblist))
    ensures joblist != [] ==> exists j :: 0 <= j < |joblist| && r.turnaround[j] == SumTo(Runs(joblist))
    ensures NotNegative(joblist) ==> forall j :: 0 <= j < |joblist| ==> r.response[j] == FirstRound(joblist, quantum, j)
  {
    hide Listed, Books, SumTo, AllSlices, Slices, Runs, Fill, Numbered, Responses, NotNegative, Rounds, DoneAt;
    var n := |joblist|;
    ghost var left, finished := Runs(joblist), Nobody(n);
    ghost var k: nat, c: nat, h: nat := 0, 0, 0;
    RoundsAtStart(joblist, quantum, Fill(n, 0.0));
    r := Run(joblist, Fill(n, 0.0), Fill(n, 0.0), Fill(n, 0.0), Fill(n, -1.0), 0.0);
    ListedFirst(joblist, finished);
    BooksAtStart(joblist, finished);
    assert Responses(joblist, quantum, r.runlist, r.response, r.thetime, 0) by { ResponsesAtStart(joblist, quantum); }
    while |r.runlist| > 0
      invariant KeptAll(joblist, quantum, r, left, finished, k) && InRounds(joblist, quantum, r, c, h)
      invariant r.runlist == [] && n > 0 ==> exists j :: 0 <= j < |r.turnaround| && r.turnaround[j] == r.thetime
      decreases AllSlices(r.runlist, quantum)
    {
      r, left, finished, k, c, h := Turn(joblist, quantum, r, left, finished, k, c, h);
    }
    if NotNegative(joblist) { ResponsesAtEnd(joblist, quantum, r.response, r.thetime, k); }
    RoundsAtEnd(joblist, quantum, r.turnaround, r.thetime, c, h);
    AllFinished(left, finished);
    BooksAtEnd(joblist, left, finished, r.wait, r.lastran, r.turnaround);
  }

  lemma ResponsesAtStart(joblist: seq<Job>, quantum: real)
    ensures Responses(joblist, quantum, joblist, Fill(|joblist|, -1.0), 0.0, 0)
  {
  }

  lemma ResponsesAtEnd(joblist: seq<Job>, quantum: real, response: seq<real>, thetime: real, t: nat)
    requires Responses(joblist, quantum, [], response, thetime, t)
    ensures |response| == |joblist| && forall j :: 0 <= j < |joblist| ==> response[j] == FirstRound(joblist, quantum, j)
  {
  }

  ghost function Nobody(n: nat): (r: seq<bool>)
    ensures |r| == n && forall i :: 0 <= i < n ==> !r[i]
  {
    seq(n, _ => false)
  }

  lemma BooksAtStart(joblist: seq<Job>, finished: seq<bool>)
    requires |finished| == |joblist| && forall j :: 0 <= j < |joblist| ==> !finished[j]
    ensures Books(joblist, Runs(joblist), finished, Fill(|joblist|, 0.0), Fill(|joblist|, 0.0), Fill(|joblist|, 0.0))
  {
  }

  lemma BooksAtEnd(joblist: seq<Job>, left: seq<real>, finished: seq<bool>, wait: seq<real>, lastran: seq<real>,
      turnaround: seq<real>)
    requires Books(joblist, left, finished, wait, lastran, turnaround)
    requires forall j :: 0 <= j < |left| ==> finished[j] && left[j] == 0.0
    ensures |turnaround| == |wait| == |joblist| && forall j :: 0 <= j < |joblist| ==>
      turnaround[j] == wait[j] + joblist[j].run
  {
  }

  lemma SlicesHead(runlist: seq<Job>, quantum: real)
    requires quantum > 0.0 && runlist != []
    ensures AllSlices(runlist, quantum) == AllSlices(runlist[1..], quantum) + Slices(runlist[0].run, quantum)
    ensures runlist[0].run > quantum ==>
      Slices(runlist[0].run, quantum) == 1 + Slices(runlist[0].run - quantum, quantum)
  {
  }

  lemma {:induction false} AllDone(left: seq<real>)
    requires forall j :: 0 <= j < |left| ==> left[j] == 0.0
    ensures SumTo(left) == 0.0
  {
    if left != [] { AllDone(left[..|left| - 1]); }
  }
}
