/** What the phases of the multi-level feedback queue do to the order of the queues and to a job's counters, said
    without the functions that compute them. */
module MlfqLaws {
  import opened Arithmetic
  import opened Mlfq

  // ---------- arrivals ----------

  /** The jobs of level `q` that are due with one of these events, in the order in which they are due. */
  ghost function Picked(due: Due, jobs: seq<Job>, q: int, events: set<Event>): (r: seq<nat>) {
    if due == [] then []
    else
      var n := |due| - 1;
      var (j, e) := due[n];
      Picked(due[..n], jobs, q, events) + if e in events && j < |jobs| && jobs[j].currPri == q then [j] else []
  }

  ghost function Reversed(s: seq<nat>): (r: seq<nat>)
    ensures |r| == |s| && forall i :: 0 <= i < |s| ==> r[i] == s[|s| - 1 - i]
  {
    if s == [] then [] else [s[|s| - 1]] + Reversed(s[..|s| - 1])
  }

  /** A queue after the arrivals: jobs join at the back in the order in which they are due, except that with `iobump`
      a completed I/O puts its job in front of all others. */
  ghost function Joined(c: Config, queue: seq<nat>, due: Due, jobs: seq<Job>, q: int): seq<nat> {
    if c.iobump then Reversed(Picked(due, jobs, q, {IoDone})) + queue + Picked(due, jobs, q, {Begins})
    else queue + Picked(due, jobs, q, {Begins, IoDone})
  }

  lemma PickedNone(c: Config, queue: seq<nat>, jobs: seq<Job>, q: int)
    ensures Joined(c, queue, [], jobs, q) == queue
  {
    assert [] + queue + [] == queue;
  }

  /** One more arrival. */
  lemma JoinedOne(c: Config, queue: seq<nat>, due: Due, jobs: seq<Job>, q: int, j: nat, e: Event)
    requires j < |jobs|
    ensures var was := Joined(c, queue, due, jobs, q);
      Joined(c, queue, due + [(j, e)], jobs, q) ==
        if jobs[j].currPri != q then was else if c.iobump && e == IoDone then [j] + was else was + [j]
  {
    var more := due + [(j, e)];
    assert more[..|due|] == due;
    var back := if c.iobump then {Begins} else {Begins, IoDone};
    var p, f := Picked(due, jobs, q, back), Picked(due, jobs, q, {IoDone});
    var joins := jobs[j].currPri == q;
    assert Picked(more, jobs, q, back) == p + if e in back && joins then [j] else [];
    assert Picked(more, jobs, q, {IoDone}) == f + if e == IoDone && joins then [j] else [];
    assert p + [] == p && f + [] == f;
    if joins && e == IoDone {
      assert (f + [j])[..|f|] == f;
      assert Reversed(f + [j]) == [j] + Reversed(f);
      assert ([j] + Reversed(f)) + queue + p == [j] + (Reversed(f) + queue + p);
    }
    if joins {
      assert (Reversed(f) + queue + p) + [j] == Reversed(f) + queue + (p + [j]);
      assert (queue + p) + [j] == queue + (p + [j]);
    }
  }

  /** All queues after the arrivals. */
  ghost predicate AllJoined(c: Config, before: seq<seq<nat>>, due: Due, jobs: seq<Job>, after: seq<seq<nat>>) {
    |after| == |before| && forall q :: 0 <= q < |before| ==> after[q] == Joined(c, before[q], due, jobs, q)
  }

  lemma AllJoinedNone(c: Config, queues: seq<seq<nat>>, jobs: seq<Job>)
    ensures AllJoined(c, queues, [], jobs, queues)
  {
    hide Joined;
    forall q | 0 <= q < |queues| ensures queues[q] == Joined(c, queues[q], [], jobs, q) {
      PickedNone(c, queues[q], jobs, q);
    }
  }

  lemma AllJoinedOne(c: Config, before: seq<seq<nat>>, due: Due, jobs: seq<Job>, after: seq<seq<nat>>, j: nat, e: Event)
    requires AllJoined(c, before, due, jobs, after) && j < |jobs| && 0 <= jobs[j].currPri < |after|
    ensures var q := jobs[j].currPri;
      AllJoined(c, before, due + [(j, e)], jobs,
        after[q := if c.iobump && e == IoDone then [j] + after[q] else after[q] + [j]])
  {
    hide Joined;
    forall q | 0 <= q < |before| { JoinedOne(c, before[q], due, jobs, q, j, e); }
  }

  /** Without `iobump` those already in the queue stay in front, in their order. */
  lemma JoinedBehind(c: Config, before: seq<seq<nat>>, due: Due, jobs: seq<Job>, after: seq<seq<nat>>)
    requires !c.iobump && AllJoined(c, before, due, jobs, after)
    ensures forall q :: 0 <= q < |before| ==> before[q] <= after[q]
  {
  }

  /** The jobs of the due events after these: not doing I/O any more. */
  ghost predicate Woken(due: Due, before: seq<Job>, after: seq<Job>) {
    |after| == |before| && forall j :: 0 <= j < |before| ==>
      after[j] == if DueHas(due, j) then before[j].(doingIO := false) else before[j]
  }

  lemma WokenNone(jobs: seq<Job>)
    ensures Woken([], jobs, jobs)
  {
  }

  lemma WokenOne(due: Due, before: seq<Job>, after: seq<Job>, j: nat, e: Event)
    requires Woken(due, before, after) && j < |before|
    ensures Woken(due + [(j, e)], before, after[j := after[j].(doingIO := false)])
  {
    var more := due + [(j, e)];
    forall i: nat | i < |before| ensures DueHas(more, i) <==> i == j || DueHas(due, i) {
      if DueHas(due, i) {
        var k :| 0 <= k < |due| && due[k].0 == i;
        assert more[k].0 == i;
      }
      if i == j { assert more[|due|].0 == i; }
    }
  }

  // ---------- boost ----------

  ghost function Flat(queues: seq<seq<nat>>): seq<nat> {
    if queues == [] then [] else Flat(queues[..|queues| - 1]) + queues[|queues| - 1]
  }

  /** A boost puts the lower queues, from the lowest up and each in its order, behind the highest queue; it leaves the
      finished jobs alone and gives all others the highest priority and as many ticks as that level has allotments,
      and changes nothing else about them. */
  lemma BoostOrder(c: Config, s: State, place: seq<Place>, rest: Due)
    requires Inv(c, s, place, rest)
    ensures Indexed(s.queues, s.jobs) && |s.queues| == c.numQueues == |c.allotment|
    ensures var t, hi := Boosted(c, s), c.numQueues - 1;
      && |t.queues| == c.numQueues && t.queues[hi] == s.queues[hi] + Flat(s.queues[..hi])
      && (forall q :: 0 <= q < hi ==> t.queues[q] == [])
      && t.time == s.time && t.ioDone == s.ioDone && |t.jobs| == |s.jobs|
      && (forall j :: 0 <= j < |s.jobs| && s.jobs[j].timeLeft == 0 ==> t.jobs[j] == s.jobs[j])
      && forall j :: 0 <= j < |s.jobs| && s.jobs[j].timeLeft > 0 ==>
        t.jobs[j] == s.jobs[j].(currPri := hi, ticksLeft := c.allotment[hi])
  {
    hide PendingOk, Gathered, QueueOk;
    QueuesIndexed(c, s, place);
    GatheredIsFlat(c, s, place, Hi(c));
  }

  lemma {:induction false} GatheredIsFlat(c: Config, s: State, place: seq<Place>, n: nat)
    requires Configured(c) && QueuesOk(c, s.queues, s.jobs, place) && n < |s.queues| == c.numQueues
    requires Indexed(s.queues, s.jobs)
    ensures Gathered(s.queues, s.jobs, n) == s.queues[|s.queues| - 1] + Flat(s.queues[..n])
  {
    hide QueuesOk, QueueOk, Awake;
    var top := s.queues[|s.queues| - 1];
    if n == 0 {
      assert top + [] == top;
    } else {
      GatheredIsFlat(c, s, place, n - 1);
      QueueHas(c, s, place, n - 1);
      assert s.queues[..n][..n - 1] == s.queues[..n - 1];
      assert (top + Flat(s.queues[..n - 1])) + s.queues[n - 1] == top + (Flat(s.queues[..n - 1]) + s.queues[n - 1]);
    }
  }

  // ---------- a tick ----------

  ghost function But(s: seq<nat>, j: nat): seq<nat> {
    if s == [] then []
    else But(s[..|s| - 1], j) + if s[|s| - 1] == j then [] else [s[|s| - 1]]
  }

  lemma {:induction false} ButAppend(s: seq<nat>, t: seq<nat>, j: nat)
    ensures But(s + t, j) == But(s, j) + But(t, j)
  {
    if t == [] {
      assert s + t == s && But(s, j) + [] == But(s, j);
    } else {
      var n := |t| - 1;
      ButAppend(s, t[..n], j);
      assert (s + t)[..|s + t| - 1] == s + t[..n];
      var last := if t[n] == j then [] else [t[n]];
      assert (But(s, j) + But(t[..n], j)) + last == But(s, j) + (But(t[..n], j) + last);
    }
  }

  /** The job has run for a multiple of its I/O frequency. */
  ghost predicate AtAnIO(job: Job) { job.ioFreq > 0 && (job.runTime - job.timeLeft) % job.ioFreq == 0 }

  lemma TickJob(c: Config, s: State, q: nat)
    requires Configured(c) && |s.queues| == c.numQueues && q < c.numQueues && s.queues[q] != []
    requires s.queues[q][0] < |s.jobs| && s.jobs[s.queues[q][0]].currPri == q
    ensures var t, j := Tick(c, s, q), s.queues[q][0];
      && t.jobs == s.jobs[j := t.jobs[j]] && t.time == s.time && 0 <= t.jobs[j].currPri < c.numQueues
      && t.jobs[j].timeLeft == Ran(s.jobs[j], s.time).timeLeft
      && (AtAnIO(t.jobs[j]) <==> IssuesIO(Ran(s.jobs[j], s.time)))
  {
    hide DueAt;
  }

  /** Round robin: the tick of the job at the head of queue `q` does not change the order of the other jobs of any
      queue; the job itself is in no queue when it has finished or issued an I/O, last in the queue of its level when
      its quantum has ended, and otherwise still first in queue `q`. No other job changes. */
  lemma TickOrder(c: Config, s: State, q: nat)
    requires Configured(c) && |s.queues| == c.numQueues && q < c.numQueues && s.queues[q] != []
    requires s.queues[q][0] < |s.jobs| && s.jobs[s.queues[q][0]].currPri == q
    ensures var t, j := Tick(c, s, q), s.queues[q][0];
      && |t.queues| == c.numQueues && |t.jobs| == |s.jobs| && t.time == s.time
      && (forall p :: 0 <= p < c.numQueues ==> But(t.queues[p], j) == But(s.queues[p], j))
      && (forall i :: 0 <= i < |s.jobs| && i != j ==> t.jobs[i] == s.jobs[i])
      && var job := t.jobs[j];
      && 0 <= job.currPri < c.numQueues
      && (job.timeLeft == 0 || AtAnIO(job) ==> t.queues == s.queues[q := s.queues[q][1..]])
      && (job.timeLeft != 0 && !AtAnIO(job) && s.jobs[j].ticksLeft == 1 ==> EndsWith(t.queues[job.currPri], j))
      && (job.timeLeft != 0 && !AtAnIO(job) && s.jobs[j].ticksLeft != 1 ==> t.queues == s.queues)
  {
    hide DueAt, Charged, IssuesIO, AtAnIO;
    var j := s.queues[q][0];
    TickJob(c, s, q);
    var t, rest := Tick(c, s, q), s.queues[q][1..];
    Popped(s.queues[q]);
    var p := t.jobs[j].currPri;
    Pushed(s.queues[q := rest][p], j);
  }

  /** An I/O is due just `ioTime` after the tick that issued it, behind what was due then before; no other tick makes
      anything due. */
  lemma TickDue(c: Config, s: State, q: nat)
    requires Configured(c) && |s.queues| == c.numQueues && q < c.numQueues && s.queues[q] != []
    requires s.queues[q][0] < |s.jobs| && s.jobs[s.queues[q][0]].currPri == q
    ensures var t, j, back := Tick(c, s, q), s.queues[q][0], s.time + 1 + c.ioTime;
      if t.jobs[j].timeLeft != 0 && AtAnIO(t.jobs[j])
        then t.ioDone == s.ioDone[back := (if back in s.ioDone then s.ioDone[back] else []) + [(j, IoDone)]]
      else t.ioDone == s.ioDone
  {
    hide Charged, IssuesIO, AtAnIO;
    TickJob(c, s, q);
  }

  ghost predicate EndsWith(s: seq<nat>, j: nat) { s != [] && s[|s| - 1] == j }

  lemma Popped(queue: seq<nat>)
    requires queue != []
    ensures But(queue[1..], queue[0]) == But(queue, queue[0])
  {
    var j, rest := queue[0], queue[1..];
    assert queue == [j] + rest;
    ButAppend([j], rest, j);
    assert But([j], j) == [] && [] + But(rest, j) == But(rest, j);
  }

  lemma Pushed(queue: seq<nat>, j: nat)
    ensures But(queue + [j], j) == But(queue, j) && EndsWith(queue + [j], j)
  {
    ButAppend(queue, [j], j);
    assert But(queue, j) + [] == But(queue, j);
  }

  // ---------- jobs that stay ----------

  function Ticks(job: Job): int { job.runTime - job.timeLeft }

  /** With stay: an I/O more often than the ticks of the level are used up starts the count again, from 0, or from one
      quantum when the I/O falls on the end of a quantum. */
  ghost predicate Held(c: Config, job: Job, q: nat)
    requires Configured(c) && q < c.numQueues && job.ioFreq >= 1
  {
    || HasUsed(c, job, q, Ticks(job) % job.ioFreq)
    || (c.quantum[q] >= 1 && job.ioFreq % c.quantum[q] == 0
          && HasUsed(c, job, q, Ticks(job) % job.ioFreq + c.quantum[q]))
  }

  lemma NextMod(t: int, f: int)
    requires f >= 1
    ensures (t + 1) % f == if t % f + 1 == f then 0 else t % f + 1
  {
    var r := t % f;
    if r + 1 == f { DivModOf(t + 1, f, t / f + 1, 0); } else { DivModOf(t + 1, f, t / f, r + 1); }
  }

  /** A multiple of the quantum below quantum times allotment leaves at least one quantum. */
  lemma OneQuantumLeft(quantum: int, allotment: int, f: int)
    requires quantum >= 1 && f >= 1 && f % quantum == 0 && f < quantum * allotment
    ensures allotment >= 2 && f + quantum <= quantum * allotment
  {
    var m := f / quantum;
    assert f == m * quantum;
    Multiples(m, allotment, quantum);
  }

  lemma Multiples(m: int, n: int, quantum: nat)
    requires 1 <= m * quantum < n * quantum
    ensures 1 <= m < n && m * quantum + quantum <= n * quantum
  {
    if 0 <= n < m { MulMonotone(n, m, quantum); }
    if 0 <= m < n { MulMonotone(m, n, quantum); }
  }

  lemma HeldKept(c: Config, job: Job, q: nat, time: int)
    requires Positive(c) && c.stay && q < c.numQueues && 1 <= job.ioFreq < Limit(c, q) && Held(c, job, q)
    ensures Held(c, Charged(c, job, q, time), q)
  {
    hide Limit;
    var f, quantum := job.ioFreq, c.quantum[q];
    NextMod(Ticks(job), f);
    assert Ticks(Charged(c, job, q, time)) == Ticks(job) + 1;
    var r := Ticks(job) % f;
    var used := if HasUsed(c, job, q, r) then r else r + quantum;
    if used != r { HeldRoom(c, q, f); }
    if r + 1 == f {
      HeldIO(c, job, q, time, used);
    } else {
      ChargedUses(c, job, q, time, used);
    }
  }

  lemma HeldRoom(c: Config, q: nat, f: int)
    requires Positive(c) && q < c.numQueues && 1 <= f < Limit(c, q) && f % c.quantum[q] == 0
    ensures c.allotment[q] >= 2 && f + c.quantum[q] <= Limit(c, q)
  {
    OneQuantumLeft(c.quantum[q], c.allotment[q], f);
  }

  lemma HeldIO(c: Config, job: Job, q: nat, time: int, used: int)
    requires Positive(c) && c.stay && q < c.numQueues && 1 <= job.ioFreq < Limit(c, q) && HasUsed(c, job, q, used)
    requires used + 1 == job.ioFreq || (job.ioFreq % c.quantum[q] == 0 && used + 1 == job.ioFreq + c.quantum[q])
    requires (Ticks(job) + 1) % job.ioFreq == 0
    ensures var job' := Charged(c, job, q, time);
      HasUsed(c, job', q, 0) || (job.ioFreq % c.quantum[q] == 0 && HasUsed(c, job', q, c.quantum[q]))
  {
    hide Limit;
    var f, quantum, allotment, job' := job.ioFreq, c.quantum[q], c.allotment[q], Charged(c, job, q, time);
    assert IssuesIO(Ran(job, time));
    if job.ticksLeft == 1 {
      if f % quantum != 0 {
        EndOfQuantum(quantum, allotment, job.allotLeft, used);
        assert false;
      }
      HeldRoom(c, q, f);
      assert HasUsed(c, job', q, quantum) by { assert quantum * (allotment - (allotment - 1)) == quantum; }
    } else {
      FreshUse(c, job', q);
    }
  }

  lemma EndOfQuantum(quantum: int, allotment: int, left: int, used: int)
    requires quantum >= 1 && used == quantum * (allotment - left) + (quantum - 1)
    ensures (used + 1) % quantum == 0
  {
    assert quantum * (allotment - left) + quantum == quantum * (allotment - left + 1);
    DivModOf(used + 1, quantum, allotment - left + 1, 0);
  }

  /** With stay: a job of the highest level that is not held there leaves it with the tick that uses up quantum times
      allotment; if that tick ends in an I/O, all but one quantum of it once more. */
  ghost predicate Sinking(c: Config, job: Job)
    requires Configured(c)
  {
    || 0 <= job.currPri < Hi(c)
    || HasUsed(c, job, Hi(c), Ticks(job))
    || (job.ioFreq == Limit(c, Hi(c)) <= Ticks(job)
          && HasUsed(c, job, Hi(c), Ticks(job) - job.ioFreq + c.quantum[Hi(c)]))
  }

  lemma SinkingKept(c: Config, job: Job, time: int)
    requires Positive(c) && c.stay && c.numQueues > 1 && 0 <= job.currPri < c.numQueues && Ticks(job) >= 0
    requires Sinking(c, job) && !(1 <= job.ioFreq < Limit(c, Hi(c)))
    ensures Sinking(c, Charged(c, job, job.currPri, time))
  {
    hide Limit, HasUsed;
    var hi, f, ticks := Hi(c), job.ioFreq, Ticks(job);
    assert Ticks(Charged(c, job, job.currPri, time)) == ticks + 1;
    if job.currPri == hi {
      SinkingAt(c, job);
      if HasUsed(c, job, hi, ticks) {
        if f == ticks + 1 == Limit(c, hi) {
          SunkIO(c, job, time);
        } else {
          if f >= 1 { DivModOf(ticks + 1, f, 0, ticks + 1); }
          ChargedUses(c, job, hi, time, ticks);
        }
      } else {
        DivModOf(ticks + 1, f, 1, ticks + 1 - f);
        ChargedUses(c, job, hi, time, ticks - f + c.quantum[hi]);
      }
    }
  }

  lemma SinkingAt(c: Config, job: Job)
    requires Positive(c) && job.currPri == Hi(c) && Sinking(c, job)
    ensures HasUsed(c, job, Hi(c), Ticks(job)) ==> Ticks(job) + 1 <= Limit(c, Hi(c))
    ensures HasUsed(c, job, Hi(c), Ticks(job)) ||
      (job.ioFreq == Limit(c, Hi(c)) <= Ticks(job) < job.ioFreq + job.ioFreq - c.quantum[Hi(c)]
        && HasUsed(c, job, Hi(c), Ticks(job) - job.ioFreq + c.quantum[Hi(c)]))
  {
    var hi := Hi(c);
    Product(c.quantum[hi], c.allotment[hi], job.allotLeft);
  }

  /** The I/O that falls on the last tick of the level. */
  lemma SunkIO(c: Config, job: Job, time: int)
    requires Positive(c) && c.stay && c.numQueues > 1 && job.currPri == Hi(c) && HasUsed(c, job, Hi(c), Ticks(job))
    requires job.ioFreq == Ticks(job) + 1 == Limit(c, Hi(c))
    ensures Sinking(c, Charged(c, job, Hi(c), time))
  {
    var hi, job' := Hi(c), Charged(c, job, Hi(c), time);
    var quantum, allotment := c.quantum[hi], c.allotment[hi];
    DivModOf(job.ioFreq, job.ioFreq, 1, 0);
    Product(quantum, allotment, job.allotLeft);
    assert IssuesIO(Ran(job, time)) && job.ticksLeft == 1;
    if allotment > 1 {
      assert quantum * (allotment - (allotment - 1)) == quantum;
      assert HasUsed(c, job', hi, quantum);
    }
  }

  ghost predicate Stays(c: Config) { Positive(c) && c.stay && c.boost <= 0 && c.numQueues > 1 }

  /** With stay: held at the highest level by I/O, or on the way down. */
  ghost predicate Games(c: Config, job: Job)
    requires Positive(c)
  {
    if 1 <= job.ioFreq < Limit(c, Hi(c)) then Held(c, job, Hi(c)) else Sinking(c, job)
  }

  ghost predicate AllGame(c: Config, jobs: seq<Job>)
    requires Positive(c)
  {
    forall j :: 0 <= j < |jobs| && jobs[j].timeLeft > 0 ==> Games(c, jobs[j])
  }

  lemma GamesKept(c: Config, job: Job, time: int)
    requires Stays(c) && Games(c, job) && 0 <= job.currPri < c.numQueues && Ticks(job) >= 0
    ensures Games(c, Charged(c, job, job.currPri, time))
  {
    hide Held, Sinking, Limit;
    if 1 <= job.ioFreq < Limit(c, Hi(c)) {
      HeldThere(c, job);
      HeldKept(c, job, Hi(c), time);
    } else {
      SinkingKept(c, job, time);
    }
  }

  lemma HeldThere(c: Config, job: Job)
    requires Configured(c) && job.ioFreq >= 1 && Held(c, job, Hi(c))
    ensures job.currPri == Hi(c)
  {
  }

  lemma AllGameAfterTick(c: Config, jobs: seq<Job>, j: nat, job: Job, time: int)
    requires Stays(c) && AllGame(c, jobs) && j < |jobs| && 0 <= jobs[j].currPri < c.numQueues
    requires 0 < jobs[j].timeLeft <= jobs[j].runTime
    requires job.timeLeft == 0 || job == Charged(c, jobs[j], jobs[j].currPri, time)
    ensures AllGame(c, jobs[j := job])
  {
    hide Games, Positive;
    if job.timeLeft != 0 { GamesKept(c, jobs[j], time); }
  }

  lemma AllGameKept(c: Config, a: seq<Job>, b: seq<Job>)
    requires Positive(c) && AllGame(c, a) && |a| == |b|
    requires forall j :: 0 <= j < |a| ==> b[j] == a[j] || b[j] == a[j].(doingIO := false)
    ensures AllGame(c, b)
  {
    forall j | 0 <= j < |b| && b[j].timeLeft > 0 ensures Games(c, b[j]) { assert Games(c, a[j]); }
  }

  lemma FreshGames(c: Config, job: Job)
    requires Stays(c) && job.currPri == Hi(c) && Ticks(job) == 0
    requires job.ticksLeft == c.quantum[Hi(c)] && job.allotLeft == c.allotment[Hi(c)]
    ensures Games(c, job)
  {
    hide HasUsed, Limit;
    FreshUse(c, job, Hi(c));
    if job.ioFreq >= 1 { DivModOf(0, job.ioFreq, 0, 0); }
  }

  // ---------- what ran when ----------

  /** `h[t]` is the job that ran in tick `t`, or -1. The job has run for as many ticks as it has used up, its first run
      was its first tick and not before its start, and its end is that of its last tick. */
  ghost predicate Recorded(h: seq<int>, j: nat, job: Job) {
    && multiset(h)[j] == Ticks(job)
    && (job.firstRun == -1 ==> j !in h)
    && (job.firstRun != -1 ==>
          && job.startTime <= job.firstRun && 0 <= job.firstRun < |h| && h[job.firstRun] == j
          && forall t :: 0 <= t < job.firstRun ==> h[t] != j)
    && (job.timeLeft == 0 ==>
          1 <= job.endTime <= |h| && h[job.endTime - 1] == j && forall t :: job.endTime <= t < |h| ==> h[t] != j)
  }

  /** A job that has not run yet is waiting for its start time, or that time has come. */
  ghost predicate Started(job: Job, place: Place, time: int) {
    && (place.Pending? && job.firstRun == -1 ==> place.at == job.startTime)
    && (!place.Pending? ==> job.startTime <= time)
  }

  ghost predicate Remembered(h: seq<int>, jobs: seq<Job>, place: seq<Place>, time: int) {
    && |h| == time && |place| == |jobs|
    && forall j: nat :: j < |jobs| ==> Recorded(h, j, jobs[j]) && Started(jobs[j], place[j], time)
  }

  lemma RecordedIdle(h: seq<int>, x: int, j: nat, job: Job)
    requires Recorded(h, j, job) && x != j
    ensures Recorded(h + [x], j, job)
  {
  }

  lemma RecordedTick(h: seq<int>, j: nat, job: Job, job': Job)
    requires Recorded(h, j, job) && job.timeLeft >= 1 && job.startTime <= |h|
    requires job'.timeLeft == job.timeLeft - 1 && job'.runTime == job.runTime && job'.startTime == job.startTime
    requires job'.firstRun == if job.firstRun == -1 then |h| else job.firstRun
    requires job'.timeLeft == 0 ==> job'.endTime == |h| + 1
    ensures Recorded(h + [j], j, job')
  {
  }

  lemma RememberedIdle(h: seq<int>, jobs: seq<Job>, place: seq<Place>, time: int)
    requires Remembered(h, jobs, place, time)
    ensures Remembered(h + [-1], jobs, place, time + 1)
  {
    hide Recorded;
    forall j: nat | j < |jobs| ensures Recorded(h + [-1], j, jobs[j]) { RecordedIdle(h, -1, j, jobs[j]); }
  }

  lemma RememberedTick(h: seq<int>, jobs: seq<Job>, place: seq<Place>, time: int, j: nat, job: Job, after: Place)
    requires Remembered(h, jobs, place, time) && j < |jobs| && jobs[j].timeLeft >= 1 && !place[j].Pending?
    requires job.timeLeft == jobs[j].timeLeft - 1 && job.runTime == jobs[j].runTime
    requires job.startTime == jobs[j].startTime
    requires job.firstRun == if jobs[j].firstRun == -1 then time else jobs[j].firstRun
    requires job.timeLeft == 0 ==> job.endTime == time + 1
    ensures Remembered(h + [j], jobs[j := job], place[j := after], time + 1)
  {
    hide Recorded;
    assert Started(jobs[j], place[j], time) && job.firstRun != -1;
    var jobs' := jobs[j := job];
    forall i: nat | i < |jobs| ensures Recorded(h + [j], i, jobs'[i]) {
      if i == j { RecordedTick(h, j, jobs[j], job); } else { RecordedIdle(h, j, i, jobs[i]); }
    }
  }

  /** What a boost and the arrivals change, the records do not look at. */
  lemma RememberedReady(h: seq<int>, a: seq<Job>, b: seq<Job>, place: seq<Place>, place': seq<Place>, time: int)
    requires Remembered(h, a, place, time) && |a| == |b| && |place'| == |place|
    requires forall j :: 0 <= j < |a| ==> SameBooks(a[j], b[j])
    requires forall j :: 0 <= j < |a| ==>
      place'[j] == place[j] || (place[j] == Pending(time) && place'[j].Queued?)
    ensures Remembered(h, b, place', time)
  {
    forall j: nat | j < |b| ensures Recorded(h, j, b[j]) && Started(b[j], place'[j], time) {
      assert Recorded(h, j, a[j]) && Started(a[j], place[j], time);
    }
  }

  ghost predicate SameBooks(a: Job, b: Job) {
    && a.startTime == b.startTime && a.runTime == b.runTime && a.timeLeft == b.timeLeft && a.ioFreq == b.ioFreq
    && a.firstRun == b.firstRun && a.endTime == b.endTime
  }

  // ---------- a turn ----------

  /** The state in which a turn chooses its job, from the state at the top of the loop: a boost every `boost` ticks, and
      the arrivals due now. */
  ghost predicate Ready(c: Config, s: State, t: State)
    requires Configured(c) && |s.queues| == c.numQueues && Indexed(s.queues, s.jobs)
  {
    var b := if c.boost > 0 && s.time > 0 && s.time % c.boost == 0 then Boosted(c, s) else s;
    && t.time == s.time && t.ioDone == s.ioDone
    && AllJoined(c, b.queues, DueAt(s.ioDone, s.time), b.jobs, t.queues)
    && Woken(DueAt(s.ioDone, s.time), b.jobs, t.jobs)
  }

  /** The choice: the head of the highest queue that is not empty, or no job. */
  ghost predicate Chosen(c: Config, ready: State, q: int, ran: int) {
    && |ready.queues| == c.numQueues && -1 <= q < c.numQueues
    && (forall p :: q < p < c.numQueues ==> ready.queues[p] == [])
    && if q == -1 then ran == -1 else ready.queues[q] != [] && ran == ready.queues[q][0] && 0 <= ran < |ready.jobs|
  }
}
