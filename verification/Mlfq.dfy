/** The scheduling loop of cpu-sched-mlfq/mlfq.py: one turn of the loop as a function, and where every job is. */
module Mlfq {

  datatype Config = Config(numQueues: nat, quantum: seq<int>,
    allotment: seq<int>, boost: int, ioTime: nat, stay: bool, iobump: bool)

  datatype Job = Job(currPri: int, ticksLeft: int, allotLeft: int, startTime: int, runTime: int, timeLeft: int,
    ioFreq: int, doingIO: bool, firstRun: int, endTime: int)

  datatype Event = Begins | IoDone

  type Due = seq<(nat, Event)>

  datatype State = State(queues: seq<seq<nat>>, jobs: seq<Job>, ioDone: map<int, Due>, time: int)

  predicate Configured(c: Config) { c.numQueues >= 1 && |c.quantum| == c.numQueues && |c.allotment| == c.numQueues }

  function Hi(c: Config): int { c.numQueues - 1 }

  // ---------- where a job is ----------

  datatype Place = Queued | Pending(at: int) | Done

  ghost predicate NoRepeats(q: seq<nat>) { forall i, k :: 0 <= i < k < |q| ==> q[i] != q[k] }

  ghost predicate NoRepeatedJob(d: Due) { forall i, k :: 0 <= i < k < |d| ==> d[i].0 != d[k].0 }

  predicate DueHas(d: Due, j: nat) { exists k :: 0 <= k < |d| && d[k].0 == j }

  ghost predicate JobsOk(c: Config, jobs: seq<Job>, place: seq<Place>) {
    && |place| == |jobs|
    && forall j :: 0 <= j < |jobs| ==>
         0 <= jobs[j].currPri < c.numQueues && 0 <= jobs[j].timeLeft <= jobs[j].runTime
           && (place[j].Done? <==> jobs[j].timeLeft == 0)
  }

  /** Queue `q` holds each of its jobs once, and they are queued jobs of that priority. */
  ghost predicate QueueOk(queue: seq<nat>, q: int, jobs: seq<Job>, place: seq<Place>)
    requires |place| == |jobs|
  {
    && NoRepeats(queue)
    && forall i :: 0 <= i < |queue| ==> queue[i] < |jobs| && place[queue[i]].Queued? && jobs[queue[i]].currPri == q
  }

  /** Every queued job is in the queue of its priority, and nowhere else. */
  ghost predicate QueuesOk(c: Config, queues: seq<seq<nat>>, jobs: seq<Job>, place: seq<Place>) {
    && |queues| == c.numQueues && |place| == |jobs|
    && (forall q :: 0 <= q < |queues| ==> QueueOk(queues[q], q, jobs, place))
    && (forall j :: 0 <= j < |jobs| && place[j].Queued? ==>
      !jobs[j].doingIO && 0 <= jobs[j].currPri < |queues| && j in queues[jobs[j].currPri])
  }

  /** The jobs due at time `t` are those pending for `t`, each once. */
  ghost predicate DueOk(d: Due, t: int, place: seq<Place>) {
    && NoRepeatedJob(d)
    && forall k :: 0 <= k < |d| ==> d[k].0 < |place| && place[d[k].0] == Pending(t)
  }

  function DueAt(ioDone: map<int, Due>, t: int): Due { if t in ioDone then ioDone[t] else [] }

  /** `rest` are the jobs due now that have not been taken up yet; the others pending are due later. */
  ghost predicate PendingOk(ioDone: map<int, Due>, time: int, rest: Due, place: seq<Place>) {
    && DueOk(rest, time, place)
    && (forall t :: t in ioDone && t > time ==> DueOk(ioDone[t], t, place))
    && (forall j: nat :: j < |place| && place[j].Pending? ==>
          (place[j].at == time && DueHas(rest, j)) || (place[j].at > time && DueHas(DueAt(ioDone, place[j].at), j)))
  }

  /** Every job is in exactly one place: finished, in the queue of its priority, or pending. */
  ghost predicate Inv(c: Config, s: State, place: seq<Place>, rest: Due) {
    && Configured(c)
    && JobsOk(c, s.jobs, place)
    && QueuesOk(c, s.queues, s.jobs, place)
    && PendingOk(s.ioDone, s.time, rest, place)
  }

  // ---------- boost ----------

  /** The jobs of a queue that are not doing I/O. */
  function Awake(queue: seq<nat>, jobs: seq<Job>): (r: seq<nat>)
    requires forall i :: 0 <= i < |queue| ==> queue[i] < |jobs|
  {
    if queue == [] then []
    else
      var n := |queue| - 1;
      Awake(queue[..n], jobs) + (if jobs[queue[n]].doingIO then [] else [queue[n]])
  }

  predicate Indexed(queues: seq<seq<nat>>, jobs: seq<Job>) {
    forall q, i :: 0 <= q < |queues| && 0 <= i < |queues[q]| ==> queues[q][i] < |jobs|
  }

  /** The high queue after the first `n` queues have been emptied into it. */
  function Gathered(queues: seq<seq<nat>>, jobs: seq<Job>, n: nat): seq<nat>
    requires n < |queues| && Indexed(queues, jobs)
  {
    if n == 0 then queues[|queues| - 1] else Gathered(queues, jobs, n - 1) + Awake(queues[n - 1], jobs)
  }

  function Emptied(queues: seq<seq<nat>>, n: nat): (r: seq<seq<nat>>)
    requires n <= |queues|
    ensures |r| == |queues| && forall q :: 0 <= q < |queues| ==> r[q] == if q < n then [] else queues[q]
  {
    if n == 0 then queues else Emptied(queues, n - 1)[n - 1 := []]
  }

  function Raised(c: Config, job: Job): Job
    requires Configured(c)
  {
    if job.timeLeft > 0 then job.(currPri := Hi(c), ticksLeft := c.allotment[Hi(c)]) else job
  }

  function RaisedTo(c: Config, jobs: seq<Job>, n: nat): (r: seq<Job>)
    requires Configured(c) && n <= |jobs|
    ensures |r| == |jobs| && forall j :: 0 <= j < |jobs| ==> r[j] == if j < n then Raised(c, jobs[j]) else jobs[j]
  {
    if n == 0 then jobs else RaisedTo(c, jobs, n - 1)[n - 1 := Raised(c, jobs[n - 1])]
  }

  function Boosted(c: Config, s: State): State
    requires Configured(c) && |s.queues| == c.numQueues && Indexed(s.queues, s.jobs)
  {
    var hi := Hi(c);
    s.(queues := Emptied(s.queues, hi)[hi := Gathered(s.queues, s.jobs, hi)], jobs := RaisedTo(c, s.jobs, |s.jobs|))
  }

  lemma {:induction false} AllAwake(queue: seq<nat>, jobs: seq<Job>)
    requires forall i :: 0 <= i < |queue| ==> queue[i] < |jobs| && !jobs[queue[i]].doingIO
    ensures Awake(queue, jobs) == queue
  {
    if queue != [] {
      var n := |queue| - 1;
      AllAwake(queue[..n], jobs);
      assert queue[..n] + [queue[n]] == queue;
    }
  }

  /** `g` holds the queued jobs of the high queue and of the first `n` queues, each once. */
  ghost predicate GatheredOk(c: Config, jobs: seq<Job>, place: seq<Place>, g: seq<nat>, n: int)
    requires |place| == |jobs|
  {
    && NoRepeats(g)
    && (forall i :: 0 <= i < |g| ==>
      g[i] < |jobs| && place[g[i]].Queued? && (jobs[g[i]].currPri == Hi(c) || jobs[g[i]].currPri < n))
    && (forall j :: 0 <= j < |jobs| && place[j].Queued? && (jobs[j].currPri == Hi(c) || jobs[j].currPri < n) ==> j in g)
  }

  lemma GatherStep(c: Config, jobs: seq<Job>, place: seq<Place>, g: seq<nat>, queue: seq<nat>, n: nat)
    requires |place| == |jobs| && n < Hi(c) && GatheredOk(c, jobs, place, g, n) && QueueOk(queue, n, jobs, place)
    requires forall j :: 0 <= j < |jobs| && place[j].Queued? && jobs[j].currPri == n ==> j in queue
    ensures GatheredOk(c, jobs, place, g + queue, n + 1)
  {
    var h := g + queue;
    forall i, k | 0 <= i < k < |h| ensures h[i] != h[k] {
      if i < |g| <= k { assert h[k] == queue[k - |g|]; }
    }
    forall j | 0 <= j < |jobs| && place[j].Queued? && (jobs[j].currPri == Hi(c) || jobs[j].currPri < n + 1)
      ensures j in h
    {
      assert j in g || j in queue;
    }
  }

  lemma GatherBase(c: Config, s: State, place: seq<Place>)
    requires Configured(c) && QueuesOk(c, s.queues, s.jobs, place)
    requires forall j :: 0 <= j < |s.jobs| && place[j].Queued? ==> 0 <= s.jobs[j].currPri
    ensures GatheredOk(c, s.jobs, place, s.queues[Hi(c)], 0)
  {
    assert QueueOk(s.queues[Hi(c)], Hi(c), s.jobs, place);
  }

  /** A queue with its members, none of them doing I/O. */
  lemma QueueHas(c: Config, s: State, place: seq<Place>, q: nat)
    requires Configured(c) && QueuesOk(c, s.queues, s.jobs, place) && q < c.numQueues && Indexed(s.queues, s.jobs)
    ensures |s.queues| == c.numQueues && |place| == |s.jobs| && QueueOk(s.queues[q], q, s.jobs, place)
    ensures Awake(s.queues[q], s.jobs) == s.queues[q]
    ensures forall j :: 0 <= j < |s.jobs| && place[j].Queued? && s.jobs[j].currPri == q ==> j in s.queues[q]
  {
    hide Awake;
    assert QueueOk(s.queues[q], q, s.jobs, place);
    AllAwake(s.queues[q], s.jobs);
  }

  lemma {:induction false} GatheredIs(c: Config, s: State, place: seq<Place>, n: nat)
    requires Configured(c) && QueuesOk(c, s.queues, s.jobs, place) && n < |s.queues| == c.numQueues
    requires Indexed(s.queues, s.jobs)
    requires |place| == |s.jobs| && forall j :: 0 <= j < |s.jobs| && place[j].Queued? ==> 0 <= s.jobs[j].currPri
    ensures GatheredOk(c, s.jobs, place, Gathered(s.queues, s.jobs, n), n)
  {
    hide NoRepeats, GatheredOk, QueuesOk, QueueOk, Awake;
    if n == 0 {
      GatherBase(c, s, place);
    } else {
      GatheredIs(c, s, place, n - 1);
      QueueHas(c, s, place, n - 1);
      GatherStep(c, s.jobs, place, Gathered(s.queues, s.jobs, n - 1), s.queues[n - 1], n - 1);
    }
  }

  lemma BoostKeeps(c: Config, s: State, place: seq<Place>, rest: Due)
    requires Inv(c, s, place, rest)
    ensures Indexed(s.queues, s.jobs) && Inv(c, Boosted(c, s), place, rest)
  {
    hide PendingOk, Gathered;
    QueuesIndexed(c, s, place);
    var t, hi := Boosted(c, s), Hi(c);
    GatheredIs(c, s, place, hi);
    var g := Gathered(s.queues, s.jobs, hi);
    assert t.queues[hi] == g;
    assert forall q :: 0 <= q < |t.queues| && q != hi ==> t.queues[q] == [];
  }

  /** After a boost every unfinished job has the highest priority, only the highest queue holds jobs, and those that
      were in it are still in front, in their order. */
  lemma BoostRaises(c: Config, s: State, place: seq<Place>, rest: Due)
    requires Inv(c, s, place, rest)
    ensures Indexed(s.queues, s.jobs)
    ensures var t := Boosted(c, s);
      && (forall j :: 0 <= j < |t.jobs| && t.jobs[j].timeLeft > 0 ==> t.jobs[j].currPri == Hi(c))
      && (forall q :: 0 <= q < |t.queues| && q != Hi(c) ==> t.queues[q] == [])
      && s.queues[Hi(c)] <= t.queues[Hi(c)]
  {
    hide PendingOk, Gathered, Awake, JobsOk, QueueOk;
    QueuesIndexed(c, s, place);
    GatheredKeepsOrder(s.queues, s.jobs, Hi(c));
  }

  lemma {:induction false} GatheredKeepsOrder(queues: seq<seq<nat>>, jobs: seq<Job>, n: nat)
    requires n < |queues| && Indexed(queues, jobs)
    ensures queues[|queues| - 1] <= Gathered(queues, jobs, n)
  {
    hide Awake;
    if n > 0 { GatheredKeepsOrder(queues, jobs, n - 1); }
  }

  lemma QueuesIndexed(c: Config, s: State, place: seq<Place>)
    requires QueuesOk(c, s.queues, s.jobs, place)
    ensures Indexed(s.queues, s.jobs)
  {
    forall q, i | 0 <= q < |s.queues| && 0 <= i < |s.queues[q]| ensures s.queues[q][i] < |s.jobs| {
      assert QueueOk(s.queues[q], q, s.jobs, place);
    }
  }

  // ---------- jobs beginning and I/Os completing ----------

  function Arrive(c: Config, s: State, j: nat, e: Event): State
    requires j < |s.jobs| && 0 <= s.jobs[j].currPri < |s.queues|
  {
    var q := s.jobs[j].currPri;
    var queue := if !c.iobump || e.Begins? then s.queues[q] + [j] else [j] + s.queues[q];
    s.(queues := s.queues[q := queue], jobs := s.jobs[j := s.jobs[j].(doingIO := false)])
  }

  lemma ArriveKeeps(c: Config, s: State, place: seq<Place>, rest: Due)
    requires Inv(c, s, place, rest) && rest != []
    ensures rest[0].0 < |s.jobs| && 0 <= s.jobs[rest[0].0].currPri < |s.queues|
    ensures Inv(c, Arrive(c, s, rest[0].0, rest[0].1), place[rest[0].0 := Queued], rest[1..])
  {
    var j, e := rest[0].0, rest[0].1;
    var t, place', rest', q := Arrive(c, s, j, e), place[j := Queued], rest[1..], s.jobs[j].currPri;
    assert place[j] == Pending(s.time);
    ArriveQueues(c, s, place, j, e);
    assert JobsOk(c, t.jobs, place');
    TakenUp(s.ioDone, s.time, rest, place);
  }

  lemma DueFirst(c: Config, s: State, place: seq<Place>, rest: Due)
    requires Inv(c, s, place, rest) && rest != []
    ensures rest[0].0 < |place| && place[rest[0].0] == Pending(s.time)
  {
  }

  lemma ArriveQueues(c: Config, s: State, place: seq<Place>, j: nat, e: Event)
    requires JobsOk(c, s.jobs, place) && QueuesOk(c, s.queues, s.jobs, place) && j < |s.jobs| && place[j].Pending?
    ensures var t := Arrive(c, s, j, e); QueuesOk(c, t.queues, t.jobs, place[j := Queued])
  {
    var p := s.jobs[j].currPri;
    Entered(c, s.queues, s.jobs, place, j, s.jobs[j].(doingIO := false), Arrive(c, s, j, e).queues[p]);
  }

  /** A job joins the queue of its priority, at the front or at the back. */
  lemma Entered(c: Config, queues: seq<seq<nat>>, jobs: seq<Job>, place: seq<Place>, j: nat, job: Job, queue: seq<nat>)
    requires QueuesOk(c, queues, jobs, place) && j < |jobs| && !place[j].Queued?
    requires 0 <= job.currPri < |queues| && !job.doingIO
    requires queue == queues[job.currPri] + [j] || queue == [j] + queues[job.currPri]
    ensures QueuesOk(c, queues[job.currPri := queue], jobs[j := job], place[j := Queued])
  {
    var queues', jobs', place' := queues[job.currPri := queue], jobs[j := job], place[j := Queued];
    forall q | 0 <= q < |queues'| ensures QueueOk(queues'[q], q, jobs', place') {
      assert QueueOk(queues[q], q, jobs, place);
      if q == job.currPri { Inserted(queues[q], q, jobs, place, j, job, queue); }
    }
    forall i | 0 <= i < |jobs'| && place'[i].Queued? ensures !jobs'[i].doingIO && i in queues'[jobs'[i].currPri] {
      if i != j { assert i in queues[jobs[i].currPri]; }
    }
  }

  lemma Inserted(queue: seq<nat>, q: int, jobs: seq<Job>, place: seq<Place>, j: nat, job: Job, queue': seq<nat>)
    requires |place| == |jobs| && QueueOk(queue, q, jobs, place) && j < |jobs| && !place[j].Queued? && job.currPri == q
    requires queue' == queue + [j] || queue' == [j] + queue
    ensures QueueOk(queue', q, jobs[j := job], place[j := Queued])
  {
    assert j !in queue;
  }

  /** The head of a queue leaves it. */
  lemma Left(c: Config, queues: seq<seq<nat>>, jobs: seq<Job>, place: seq<Place>, q: nat, job: Job, where_: Place)
    requires QueuesOk(c, queues, jobs, place) && q < |queues| && queues[q] != [] && queues[q][0] < |jobs|
    requires !where_.Queued?
    ensures QueuesOk(c, queues[q := queues[q][1..]], jobs[queues[q][0] := job], place[queues[q][0] := where_])
  {
    var j, popped := queues[q][0], queues[q][1..];
    var queues', jobs', place' := queues[q := popped], jobs[j := job], place[j := where_];
    forall p | 0 <= p < |queues'| ensures QueueOk(queues'[p], p, jobs', place') {
      assert QueueOk(queues[p], p, jobs, place) && QueueOk(queues[q], q, jobs, place);
      assert j !in queues'[p];
    }
    forall i | 0 <= i < |jobs'| && place'[i].Queued? ensures !jobs'[i].doingIO && i in queues'[jobs'[i].currPri] {
      assert i in queues[jobs[i].currPri];
      assert queues[q] == [j] + popped;
    }
  }

  /** A queued job changes without changing queue. */
  lemma Stayed(c: Config, queues: seq<seq<nat>>, jobs: seq<Job>, place: seq<Place>, j: nat, job: Job)
    requires QueuesOk(c, queues, jobs, place) && j < |jobs| && place[j].Queued?
    requires job.currPri == jobs[j].currPri && !job.doingIO
    ensures QueuesOk(c, queues, jobs[j := job], place[j := Queued])
  {
    forall q | 0 <= q < |queues| ensures QueueOk(queues[q], q, jobs[j := job], place[j := Queued]) {
      assert QueueOk(queues[q], q, jobs, place);
    }
  }

  lemma TakenUp(ioDone: map<int, Due>, time: int, rest: Due, place: seq<Place>)
    requires PendingOk(ioDone, time, rest, place) && rest != []
    ensures PendingOk(ioDone, time, rest[1..], place[rest[0].0 := Queued])
  {
    var j, rest' := rest[0].0, rest[1..];
    var place' := place[j := Queued];
    forall t | t in ioDone && t > time ensures DueOk(ioDone[t], t, place') {
      assert DueOk(ioDone[t], t, place);
    }
    forall i: nat | i < |place'| && place'[i].Pending?
      ensures (place'[i].at == time && DueHas(rest', i))
        || (place'[i].at > time && DueHas(DueAt(ioDone, place'[i].at), i))
    {
      if place[i].at == time {
        var k :| 0 <= k < |rest| && rest[k].0 == i;
        assert rest'[k - 1].0 == i;
      }
    }
  }

  // ---------- one tick ----------

  /** The job after running for one tick. */
  function Ran(job: Job, time: int): Job {
    job.(timeLeft := job.timeLeft - 1, ticksLeft := job.ticksLeft - 1,
         firstRun := if job.firstRun == -1 then time else job.firstRun)
  }

  predicate IssuesIO(ran: Job) { ran.ioFreq > 0 && (ran.runTime - ran.timeLeft) % ran.ioFreq == 0 }

  function StartIO(c: Config, ran: Job, q: nat): Job
    requires Configured(c) && q < c.numQueues
  {
    if c.stay then ran.(doingIO := true, ticksLeft := c.quantum[q], allotLeft := c.allotment[q])
      else ran.(doingIO := true)
  }

  /** A quantum is used up: one allotment less, and with the last one the job moves down. */
  function Expire(c: Config, job: Job, q: nat): Job
    requires Configured(c) && q < c.numQueues
  {
    if job.allotLeft - 1 == 0 then
      if q > 0 then job.(currPri := q - 1, ticksLeft := c.quantum[q - 1], allotLeft := c.allotment[q - 1])
      else job.(ticksLeft := c.quantum[q], allotLeft := c.allotment[q])
    else job.(allotLeft := job.allotLeft - 1, ticksLeft := c.quantum[q])
  }

  /** An unfinished job after its tick at level `q`. */
  function Charged(c: Config, job: Job, q: nat, time: int): Job
    requires Configured(c) && q < c.numQueues
  {
    var ran := Ran(job, time);
    var io := if IssuesIO(ran) then StartIO(c, ran, q) else ran;
    if ran.ticksLeft == 0 then Expire(c, io, q) else io
  }

  /** The turn's tick for the head of queue `q`, before time moves on. */
  function Tick(c: Config, s: State, q: nat): State
    requires Configured(c) && |s.queues| == c.numQueues && q < c.numQueues && s.queues[q] != []
    requires s.queues[q][0] < |s.jobs|
  {
    var j := s.queues[q][0];
    var ran, popped := Ran(s.jobs[j], s.time), s.queues[q := s.queues[q][1..]];
    if ran.timeLeft == 0 then s.(queues := popped, jobs := s.jobs[j := ran.(endTime := s.time + 1)])
    else
      var job := Charged(c, s.jobs[j], q, s.time);
      var jobs := s.jobs[j := job];
      var at := s.time + 1 + c.ioTime;
      if IssuesIO(ran)
        then s.(queues := popped, jobs := jobs, ioDone := s.ioDone[at := DueAt(s.ioDone, at) + [(j, IoDone)]])
      else if ran.ticksLeft == 0 && 0 <= job.currPri < c.numQueues then
        s.(queues := popped[job.currPri := popped[job.currPri] + [j]], jobs := jobs)
      else s.(jobs := jobs)
  }

  /** Where the tick leaves the job. */
  function PlaceAfter(c: Config, s: State, j: nat): Place
    requires j < |s.jobs|
  {
    var ran := Ran(s.jobs[j], s.time);
    if ran.timeLeft == 0 then Done else if IssuesIO(ran) then Pending(s.time + 1 + c.ioTime) else Queued
  }

  lemma TickKeeps(c: Config, s: State, place: seq<Place>, q: nat)
    requires Inv(c, s, place, []) && q < c.numQueues && s.queues[q] != []
    ensures s.queues[q][0] < |s.jobs| && s.jobs[s.queues[q][0]].currPri == q && s.jobs[s.queues[q][0]].timeLeft >= 1
    ensures Inv(c, Tick(c, s, q), place[s.queues[q][0] := PlaceAfter(c, s, s.queues[q][0])], [])
  {
    HeadIs(c, s, place, q);
    var j := s.queues[q][0];
    var t, place' := Tick(c, s, q), place[j := PlaceAfter(c, s, j)];
    assert JobsOk(c, t.jobs, place') by { hide QueuesOk, PendingOk; }
    TickQueues(c, s, place, q);
    TickPending(c, s, place, q);
  }

  lemma TickQueues(c: Config, s: State, place: seq<Place>, q: nat)
    requires Configured(c) && JobsOk(c, s.jobs, place) && QueuesOk(c, s.queues, s.jobs, place)
    requires q < c.numQueues && s.queues[q] != [] && s.queues[q][0] < |s.jobs|
    ensures var t := Tick(c, s, q);
      QueuesOk(c, t.queues, t.jobs, place[s.queues[q][0] := PlaceAfter(c, s, s.queues[q][0])])
  {
    hide QueuesOk;
    HeadIs(c, s, place, q);
    var j := s.queues[q][0];
    var ran, job := Ran(s.jobs[j], s.time), Charged(c, s.jobs[j], q, s.time);
    if ran.timeLeft == 0 {
      Left(c, s.queues, s.jobs, place, q, ran.(endTime := s.time + 1), Done);
    } else if IssuesIO(ran) {
      Left(c, s.queues, s.jobs, place, q, job, PlaceAfter(c, s, j));
    } else if ran.ticksLeft == 0 {
      Left(c, s.queues, s.jobs, place, q, job, Done);
      var popped, jobs, place' := s.queues[q := s.queues[q][1..]], s.jobs[j := job], place[j := Done];
      Entered(c, popped, jobs, place', j, job, popped[job.currPri] + [j]);
      assert jobs[j := job] == jobs && place'[j := Queued] == place[j := Queued];
    } else {
      Stayed(c, s.queues, s.jobs, place, j, job);
    }
  }

  lemma HeadIs(c: Config, s: State, place: seq<Place>, q: nat)
    requires QueuesOk(c, s.queues, s.jobs, place) && q < c.numQueues && s.queues[q] != []
    ensures |s.queues| == c.numQueues && |place| == |s.jobs| && s.queues[q][0] < |s.jobs|
    ensures var j := s.queues[q][0]; place[j].Queued? && s.jobs[j].currPri == q && !s.jobs[j].doingIO
  {
    assert QueueOk(s.queues[q], q, s.jobs, place);
  }

  lemma TickPending(c: Config, s: State, place: seq<Place>, q: nat)
    requires Configured(c) && PendingOk(s.ioDone, s.time, [], place) && |place| == |s.jobs| && |s.queues| == c.numQueues
    requires q < c.numQueues && s.queues[q] != [] && s.queues[q][0] < |s.jobs| && place[s.queues[q][0]].Queued?
    ensures PendingOk(Tick(c, s, q).ioDone, s.time, [], place[s.queues[q][0] := PlaceAfter(c, s, s.queues[q][0])])
  {
    hide PendingOk, DueAt;
    var j := s.queues[q][0];
    if PlaceAfter(c, s, j).Pending? {
      AnotherPending(s.ioDone, s.time, place, j, s.time + 1 + c.ioTime, IoDone);
    } else {
      SamePending(s.ioDone, s.time, place, j, PlaceAfter(c, s, j));
    }
  }

  /** A job that was not pending and still is not. */
  lemma SamePending(ioDone: map<int, Due>, time: int, place: seq<Place>, j: nat, where_: Place)
    requires PendingOk(ioDone, time, [], place) && j < |place| && place[j].Queued? && !where_.Pending?
    ensures PendingOk(ioDone, time, [], place[j := where_])
  {
    forall u | u in ioDone && u > time ensures DueOk(ioDone[u], u, place[j := where_]) {
      assert DueOk(ioDone[u], u, place);
    }
  }

  /** A job that was not pending is now due at a later time. */
  lemma AnotherPending(ioDone: map<int, Due>, time: int, place: seq<Place>, j: nat, at: int, e: Event)
    requires PendingOk(ioDone, time, [], place) && j < |place| && place[j].Queued? && at > time
    ensures PendingOk(ioDone[at := DueAt(ioDone, at) + [(j, e)]], time, [], place[j := Pending(at)])
  {
    var d, place' := DueAt(ioDone, at), place[j := Pending(at)];
    var ioDone' := ioDone[at := d + [(j, e)]];
    forall u | u in ioDone' && u > time ensures DueOk(ioDone'[u], u, place') {
      assert u in ioDone ==> DueOk(ioDone[u], u, place);
    }
    forall i: nat | i < |place'| && place'[i].Pending?
      ensures place'[i].at > time && DueHas(DueAt(ioDone', place'[i].at), i)
    {
      if i == j {
        assert DueAt(ioDone', at)[|d|].0 == j;
      } else {
        assert DueHas(DueAt(ioDone, place[i].at), i);
        var k :| 0 <= k < |DueAt(ioDone, place[i].at)| && DueAt(ioDone, place[i].at)[k].0 == i;
        assert DueAt(ioDone', place[i].at)[k].0 == i;
      }
    }
  }

  /** Time moves on: what was due later may now be due. */
  lemma TimePasses(c: Config, s: State, place: seq<Place>)
    requires Inv(c, s, place, [])
    ensures Inv(c, s.(time := s.time + 1), place, DueAt(s.ioDone, s.time + 1))
  {
    var d := DueAt(s.ioDone, s.time + 1);
    assert DueOk(d, s.time + 1, place);
  }

  // ---------- accounts ----------

  function TotalLeft(jobs: seq<Job>): int {
    if jobs == [] then 0 else TotalLeft(jobs[..|jobs| - 1]) + jobs[|jobs| - 1].timeLeft
  }

  function TotalRun(jobs: seq<Job>): int {
    if jobs == [] then 0 else TotalRun(jobs[..|jobs| - 1]) + jobs[|jobs| - 1].runTime
  }

  function Live(jobs: seq<Job>): nat {
    if jobs == [] then 0 else Live(jobs[..|jobs| - 1]) + (if jobs[|jobs| - 1].timeLeft == 0 then 0 else 1)
  }

  /** Changing one job changes the totals by its own change. */
  lemma {:induction false} Totals(jobs: seq<Job>, j: nat, job: Job)
    requires j < |jobs| && job.runTime == jobs[j].runTime
    ensures TotalLeft(jobs[j := job]) == TotalLeft(jobs) - jobs[j].timeLeft + job.timeLeft
    ensures TotalRun(jobs[j := job]) == TotalRun(jobs)
    ensures Live(jobs[j := job]) ==
      Live(jobs) - (if jobs[j].timeLeft == 0 then 0 else 1) + (if job.timeLeft == 0 then 0 else 1)
  {
    var n, jobs' := |jobs| - 1, jobs[j := job];
    if j < n {
      Totals(jobs[..n], j, job);
      assert jobs'[..n] == jobs[..n][j := job];
    } else {
      assert jobs'[..n] == jobs[..n];
    }
  }

  /** Two job lists with the same run times and times left. */
  lemma {:induction false} SameTotals(a: seq<Job>, b: seq<Job>)
    requires |a| == |b| && forall j :: 0 <= j < |a| ==> a[j].timeLeft == b[j].timeLeft && a[j].runTime == b[j].runTime
    ensures TotalLeft(a) == TotalLeft(b) && TotalRun(a) == TotalRun(b) && Live(a) == Live(b)
  {
    if a != [] { SameTotals(a[..|a| - 1], b[..|b| - 1]); }
  }

  lemma {:induction false} LeftNonNegative(jobs: seq<Job>)
    requires forall j :: 0 <= j < |jobs| ==> jobs[j].timeLeft >= 0
    ensures TotalLeft(jobs) >= 0 && (Live(jobs) == 0 ==> forall j :: 0 <= j < |jobs| ==> jobs[j].timeLeft == 0)
    ensures Live(jobs) <= |jobs| && (Live(jobs) > 0 ==> exists j :: 0 <= j < |jobs| && jobs[j].timeLeft > 0)
    ensures Live(jobs) == 0 ==> TotalLeft(jobs) == 0
  {
    if jobs != [] {
      var n := |jobs| - 1;
      LeftNonNegative(jobs[..n]);
      if Live(jobs[..n]) > 0 {
        var j :| 0 <= j < n && jobs[..n][j].timeLeft > 0;
        assert jobs[j].timeLeft > 0;
      } else if Live(jobs) > 0 {
        assert jobs[n].timeLeft > 0;
      }
    }
  }

  // ---------- how long a job stays at a level ----------

  ghost predicate Positive(c: Config) {
    Configured(c) && forall q :: 0 <= q < c.numQueues ==> c.quantum[q] >= 1 && c.allotment[q] >= 1
  }

  /** The ticks a job may use at level `q`. */
  function Limit(c: Config, q: nat): int
    requires Configured(c) && q < c.numQueues
  {
    c.quantum[q] * c.allotment[q]
  }

  /** The job has used `used` ticks since it came to level `q`. */
  ghost predicate HasUsed(c: Config, job: Job, q: int, used: int) {
    && Configured(c) && 0 <= q < c.numQueues && job.currPri == q
    && 1 <= job.ticksLeft <= c.quantum[q] && 1 <= job.allotLeft <= c.allotment[q]
    && used == c.quantum[q] * (c.allotment[q] - job.allotLeft) + (c.quantum[q] - job.ticksLeft)
  }

  lemma FreshUse(c: Config, job: Job, q: nat)
    requires Positive(c) && q < c.numQueues && job.currPri == q && job.ticksLeft == c.quantum[q]
    requires job.allotLeft == c.allotment[q]
    ensures HasUsed(c, job, q, 0)
  {
    assert c.quantum[q] * 0 == 0;
  }

  /** Without stay each tick at a level counts, whether or not it ends in an I/O, and with stay each tick counts that
      does not end in one: the job leaves the level (the lowest one it starts over) with exactly the tick that uses up
      quantum times allotment. */
  lemma ChargedUses(c: Config, job: Job, q: nat, time: int, used: int)
    requires Positive(c) && q < c.numQueues && HasUsed(c, job, q, used)
    requires c.stay ==> !IssuesIO(Ran(job, time))
    ensures used < Limit(c, q)
    ensures var job' := Charged(c, job, q, time);
      if used + 1 < Limit(c, q) then HasUsed(c, job', q, used + 1)
      else used + 1 == Limit(c, q) && HasUsed(c, job', if q > 0 then q - 1 else 0, 0)
  {
    var quantum, allotment, job' := c.quantum[q], c.allotment[q], Charged(c, job, q, time);
    Product(quantum, allotment, job.allotLeft);
    if job.ticksLeft == 1 {
      if job.allotLeft == 1 {
        FreshUse(c, job', if q > 0 then q - 1 else 0);
      }
    }
  }

  lemma Product(quantum: int, allotment: int, left: int)
    requires quantum >= 1 && 1 <= left <= allotment
    ensures quantum * (allotment - left) + quantum == quantum * (allotment - (left - 1))
    ensures quantum * (allotment - left) + quantum <= quantum * allotment
    ensures left == 1 ==> quantum * (allotment - left) + quantum == quantum * allotment
    ensures left > 1 ==> quantum * (allotment - left) + quantum + quantum <= quantum * allotment
  {
    assert quantum * (allotment - left) == quantum * allotment - quantum * left;
    assert quantum * (left - 1) >= 0;
    if left > 1 { assert quantum * (left - 2) >= 0; }
  }
}
