/** The scheduler of cpu-sched-mlfq/mlfq.py as an object: its phases, and the loop run to its end. */
module MlfqRun {
  import opened Mlfq
  import opened MlfqLaws

  /** Nothing left out of place, and all the books balance, at the top of the loop. */
  ghost predicate Good(c: Config, s: State, place: seq<Place>, finished: nat, busy: nat, idle: nat) {
    && Inv(c, s, place, DueAt(s.ioDone, s.time))
    && finished + Live(s.jobs) == |s.jobs|
    && busy + TotalLeft(s.jobs) == TotalRun(s.jobs)
    && s.time == busy + idle
  }

  /** No pending job is due later than `horizon`. */
  ghost predicate Within(place: seq<Place>, horizon: int) {
    forall j :: 0 <= j < |place| && place[j].Pending? ==> place[j].at <= horizon
  }

  /** With boost and stay off and positive quanta and allotments: every unfinished job has used `used` ticks at its
      level, and level and ticks used are those its ticks so far determine. */
  ghost predicate Uses(c: Config, jobs: seq<Job>, used: seq<int>) {
    |used| == |jobs| && forall j :: 0 <= j < |jobs| && jobs[j].timeLeft > 0 ==> OnTrack(c, jobs[j], used[j])
  }

  ghost predicate OnTrack(c: Config, job: Job, used: int) {
    HasUsed(c, job, job.currPri, used) && Position(c, job.runTime - job.timeLeft) == (job.currPri, used)
  }

  ghost predicate Plain(c: Config) { Positive(c) && !c.stay && c.boost <= 0 }

  /** A tick counted: one more at the level, or none yet at the next. */
  function Counted(c: Config, job: Job, used: int): int
    requires Configured(c) && 0 <= job.currPri < c.numQueues
  {
    if used + 1 < Limit(c, job.currPri) then used + 1 else 0
  }

  /** The level of a job that has run for `ticks` ticks in all, and how many of them at that level. */
  ghost function Position(c: Config, ticks: int): (p: (int, int))
    requires Configured(c)
    ensures 0 <= p.0 < c.numQueues
    decreases ticks
  {
    if ticks <= 0 then (Hi(c), 0)
    else
      var (q, used) := Position(c, ticks - 1);
      if used + 1 < Limit(c, q) then (q, used + 1) else (if q > 0 then q - 1 else 0, 0)
  }

  /** The ticks a job spends above level `q`. */
  ghost function Above(c: Config, q: nat): int
    requires Configured(c) && q < c.numQueues
    decreases c.numQueues - q
  {
    if q == Hi(c) then 0 else Above(c, q + 1) + Limit(c, q + 1)
  }

  lemma {:induction false} AboveNonNegative(c: Config, q: nat)
    requires Positive(c) && q < c.numQueues
    ensures Above(c, q) >= 0 && Limit(c, q) >= 1
    decreases c.numQueues - q
  {
    assert (c.quantum[q] - 1) * (c.allotment[q] - 1) >= 0;
    if q < Hi(c) { AboveNonNegative(c, q + 1); }
  }

  /** Level q is that of tick number Above(c, q) + 1 up to Above(c, q) + Limit(c, q); from the lowest no job moves
      down. */
  lemma {:induction false} PositionIs(c: Config, q: nat, ticks: int)
    requires Positive(c) && q < c.numQueues && Above(c, q) <= ticks && (q > 0 ==> ticks < Above(c, q) + Limit(c, q))
    ensures Position(c, ticks).0 == q && (q > 0 ==> Position(c, ticks).1 == ticks - Above(c, q))
    ensures ticks == Above(c, q) ==> Position(c, ticks).1 == 0
    decreases ticks
  {
    AboveNonNegative(c, q);
    if ticks == 0 {
      if q < Hi(c) { AboveNonNegative(c, q + 1); }
    } else if ticks > Above(c, q) {
      PositionIs(c, q, ticks - 1);
    } else {
      AboveNonNegative(c, q + 1);
      PositionIs(c, q + 1, ticks - 1);
    }
  }

  /** Whatever its I/O pattern and whatever the other jobs do, in every state of a run an unfinished job is at level
      q > 0 if and only if it has run for at least the ticks of all higher levels and not yet for those of its own. */
  lemma LevelByTicks(s: Scheduler, j: nat, q: nat)
    requires s.Valid() && Plain(s.c) && j < |s.jobs| && s.jobs[j].timeLeft > 0 && 0 < q < s.c.numQueues
    ensures s.jobs[j].currPri == q
      <==> Above(s.c, q) <= s.jobs[j].runTime - s.jobs[j].timeLeft < Above(s.c, q) + Limit(s.c, q)
  {
    hide Good, HasUsed, Position, Above, Limit;
    var job := s.jobs[j];
    var ticks := job.runTime - job.timeLeft;
    InvOf(s.c, s.Now(), s.place, s.finishedJobs, s.busy, s.idle, j);
    assert OnTrack(s.c, job, s.used[j]);
    SomeLevel(s.c, 0, ticks);
    var p: nat :| p < s.c.numQueues && Above(s.c, p) <= ticks && (p > 0 ==> ticks < Above(s.c, p) + Limit(s.c, p));
    PositionIs(s.c, p, ticks);
    if Above(s.c, q) <= ticks < Above(s.c, q) + Limit(s.c, q) { PositionIs(s.c, q, ticks); }
  }

  /** With stay and without boost, in every state of a run: an unfinished job whose I/O comes at least every quantum
      times allotment of the highest level, less one tick, is at the highest level however long it has run. */
  lemma HeldAtTheTop(s: Scheduler, j: nat)
    requires s.Valid() && Stays(s.c) && j < |s.jobs| && s.jobs[j].timeLeft > 0
    requires 1 <= s.jobs[j].ioFreq < Limit(s.c, Hi(s.c))
    ensures s.jobs[j].currPri == Hi(s.c)
  {
    hide Good, HasUsed, Limit;
    assert Games(s.c, s.jobs[j]);
    HeldThere(s.c, s.jobs[j]);
  }

  /** And only such a job: once a job has run for twice that long, it is still at the highest level if and only if it
      does its I/O so often. */
  lemma HeldIff(s: Scheduler, j: nat)
    requires s.Valid() && Stays(s.c) && j < |s.jobs| && s.jobs[j].timeLeft > 0
    requires s.jobs[j].runTime - s.jobs[j].timeLeft >= 2 * Limit(s.c, Hi(s.c))
    ensures s.jobs[j].currPri == Hi(s.c) <==> 1 <= s.jobs[j].ioFreq < Limit(s.c, Hi(s.c))
  {
    hide Good, HasUsed, Limit;
    assert Games(s.c, s.jobs[j]);
    if 1 <= s.jobs[j].ioFreq < Limit(s.c, Hi(s.c)) {
      HeldThere(s.c, s.jobs[j]);
    } else if s.jobs[j].currPri == Hi(s.c) {
      AboveNonNegative(s.c, Hi(s.c));
      SinkingAt(s.c, s.jobs[j]);
    }
  }

  lemma InvOf(c: Config, s: State, place: seq<Place>, finished: nat, busy: nat, idle: nat, j: nat)
    requires Good(c, s, place, finished, busy, idle) && j < |s.jobs|
    ensures s.jobs[j].timeLeft <= s.jobs[j].runTime
  {
  }

  /** Every number of ticks belongs to some level from `q` on. */
  lemma {:induction false} SomeLevel(c: Config, q: nat, ticks: int)
    requires Positive(c) && q < c.numQueues && ticks >= 0 && (q > 0 ==> ticks < Above(c, q) + Limit(c, q))
    ensures exists p: nat {:trigger Above(c, p)} ::
      p < c.numQueues && Above(c, p) <= ticks && (p > 0 ==> ticks < Above(c, p) + Limit(c, p))
    decreases c.numQueues - q
  {
    if Above(c, q) > ticks { SomeLevel(c, q + 1, ticks); }
  }

  /** Some unfinished job and empty queues: a job is pending, for a later time. */
  lemma SomePending(c: Config, s: State, place: seq<Place>)
    requires Inv(c, s, place, []) && Live(s.jobs) > 0 && (forall q :: 0 <= q < |s.queues| ==> s.queues[q] == [])
    ensures exists j :: 0 <= j < |place| && place[j].Pending? && place[j].at > s.time
  {
    LeftNonNegative(s.jobs);
    var j :| 0 <= j < |s.jobs| && s.jobs[j].timeLeft > 0;
    if place[j].Queued? { assert false; }
  }

  lemma HeadOf(c: Config, s: State, place: seq<Place>, q: nat)
    requires Inv(c, s, place, []) && q < c.numQueues && |s.queues| == c.numQueues && s.queues[q] != []
    ensures var j := s.queues[q][0];
      j < |s.jobs| && s.jobs[j].currPri == q && 1 <= s.jobs[j].timeLeft <= s.jobs[j].runTime
  {
    HeadIs(c, s, place, q);
  }

  lemma InvSizes(c: Config, s: State, place: seq<Place>, rest: Due)
    requires Inv(c, s, place, rest)
    ensures Configured(c) && |place| == |s.jobs| && |s.queues| == c.numQueues
  {
  }

  lemma UsesAfterTick(c: Config, jobs: seq<Job>, used: seq<int>, j: nat, job: Job, time: int)
    requires Plain(c) && Uses(c, jobs, used) && j < |jobs|
      && 0 < jobs[j].timeLeft <= jobs[j].runTime && 0 <= jobs[j].currPri < c.numQueues
    requires job.timeLeft == 0 || job == Charged(c, jobs[j], jobs[j].currPri, time)
    ensures |used| == |jobs| && Uses(c, jobs[j := job], used[j := Counted(c, jobs[j], used[j])])
  {
    hide HasUsed, Position;
    assert OnTrack(c, jobs[j], used[j]);
    if job.timeLeft != 0 { TrackKept(c, jobs[j], used[j], time); }
    var jobs', used' := jobs[j := job], used[j := Counted(c, jobs[j], used[j])];
    forall k | 0 <= k < |jobs'| && jobs'[k].timeLeft > 0 ensures OnTrack(c, jobs'[k], used'[k]) {
      if k != j { assert OnTrack(c, jobs[k], used[k]); }
    }
  }

  lemma TrackKept(c: Config, job: Job, used: int, time: int)
    requires Plain(c) && OnTrack(c, job, used) && 0 < job.timeLeft <= job.runTime && 0 <= job.currPri < c.numQueues
    ensures OnTrack(c, Charged(c, job, job.currPri, time), Counted(c, job, used))
  {
    ChargedUses(c, job, job.currPri, time, used);
    var job' := Charged(c, job, job.currPri, time);
    assert job'.runTime - job'.timeLeft == job.runTime - job.timeLeft + 1;
  }

  /** The jobs that start at time `t`, in the order of the list. */
  ghost function Starting(list: seq<(nat, nat, int)>, t: int): Due {
    if list == [] then []
    else
      var n := |list| - 1;
      Starting(list[..n], t) + if list[n].0 == t then [(n, Begins)] else []
  }

  ghost predicate AllStarting(ioDone: map<int, Due>, list: seq<(nat, nat, int)>) {
    forall t :: DueAt(ioDone, t) == Starting(list, t)
  }

  lemma NoneStarting()
    ensures AllStarting(map[], [])
  {
  }

  lemma OneMoreStarting(ioDone: map<int, Due>, list: seq<(nat, nat, int)>, n: nat)
    requires n < |list| && AllStarting(ioDone, list[..n])
    ensures AllStarting(ioDone[list[n].0 := DueAt(ioDone, list[n].0) + [(n, Begins)]], list[..n + 1])
  {
    assert list[..n + 1][..n] == list[..n];
    var after := ioDone[list[n].0 := DueAt(ioDone, list[n].0) + [(n, Begins)]];
    forall t ensures DueAt(after, t) == Starting(list[..n + 1], t) {
      assert DueAt(ioDone, t) == Starting(list[..n], t);
      assert DueAt(ioDone, t) + [] == DueAt(ioDone, t);
    }
  }

  /** The jobs as first set up, each pending at its start time. */
  method Submit(c: Config, list: seq<(nat, nat, int)>) returns (jobs: seq<Job>, ioDone: map<int, Due>,
      ghost place: seq<Place>)
    requires Configured(c)
    ensures |jobs| == |place| == |list| && PendingOk(ioDone, -1, [], place)
    ensures AllStarting(ioDone, list)
    ensures forall k :: 0 <= k < |list| ==> jobs[k] == Fresh(c, list[k]) && place[k] == Pending(list[k].0)
  {
    hide PendingOk, AllStarting, DueAt;
    jobs, ioDone := [], map[];
    place := Waiting(|list|);
    PendingNone(place);
    NoneStarting();
    for i := 0 to |list|
      invariant |jobs| == i && |place| == |list| && forall k :: i <= k < |list| ==> place[k].Queued?
      invariant forall k :: 0 <= k < i ==> jobs[k] == Fresh(c, list[k]) && place[k] == Pending(list[k].0)
      invariant PendingOk(ioDone, -1, [], place)
      invariant AllStarting(ioDone, list[..i])
    {
      var startTime := list[i].0;
      jobs := jobs + [Fresh(c, list[i])];
      AnotherPending(ioDone, -1, place, i, startTime, Begins);
      OneMoreStarting(ioDone, list, i);
      ioDone := ioDone[startTime := DueAt(ioDone, startTime) + [(i, Begins)]];
      place := place[i := Pending(startTime)];
    }
    assert list[..|list|] == list;
  }

  class Scheduler {
    const c: Config
    var queues: seq<seq<nat>>
    var jobs: seq<Job>
    var ioDone: map<int, Due>
    var currTime: int
    var finishedJobs: nat
    ghost var place: seq<Place>
    ghost var used: seq<int>
    ghost var history: seq<int>
    ghost var busy: nat
    ghost var idle: nat

    function Now(): State
      reads this
    {
      State(queues, jobs, ioDone, currTime)
    }

    ghost predicate Valid()
      reads this
    {
      && Good(c, Now(), place, finishedJobs, busy, idle)
      && (Plain(c) ==> Uses(c, jobs, used))
      && (Stays(c) ==> AllGame(c, jobs))
      && Remembered(history, jobs, place, currTime)
    }

    /** Each job is given by its start time, run time and I/O frequency. */
    constructor (c: Config, list: seq<(nat, nat, int)>)
      requires Configured(c) && forall i :: 0 <= i < |list| ==> list[i].1 >= 1
      ensures Valid() && this.c == c && |jobs| == |list| && currTime == 0 && busy == 0
      ensures forall i :: 0 <= i < |list| ==> place[i] == Pending(list[i].0)
      ensures AllStarting(ioDone, list)
      ensures forall i :: 0 <= i < |list| ==>
        jobs[i].startTime == list[i].0 && jobs[i].runTime == list[i].1 && jobs[i].ioFreq == list[i].2
    {
      hide PendingOk, OnTrack, Games, AllStarting;
      this.c := c;
      var js, io;
      ghost var pl;
      js, io, pl := Submit(c, list);
      queues := seq(c.numQueues, _ => []);
      jobs, ioDone, place := js, io, pl;
      currTime, finishedJobs, busy, idle := 0, 0, 0, 0;
      used, history := Zeros(|list|), [];
      new;
      TimePasses(c, Now().(time := -1), place);
      AllFresh(c, jobs, list);
      NothingYet(jobs, place, list, c);
    }

    /** The highest queue that is not empty, -1 if all are. */
    method FindQueue() returns (q: int)
      requires |queues| == c.numQueues >= 1
      ensures -1 <= q < c.numQueues && (q >= 0 ==> queues[q] != [])
      ensures forall p :: q < p < c.numQueues ==> queues[p] == []
    {
      q := c.numQueues - 1;
      while q > 0
        invariant 0 <= q < c.numQueues && forall p :: q < p < c.numQueues ==> queues[p] == []
      {
        if |queues[q]| > 0 { return; }
        q := q - 1;
      }
      if |queues[0]| == 0 { q := -1; }
    }

    method EmptyInto(q: nat, hi: nat)
      requires q < hi < |queues| && forall i :: 0 <= i < |queues[q]| ==> queues[q][i] < |jobs|
      modifies this`queues
      ensures queues == old(queues)[hi := old(queues)[hi] + Awake(old(queues)[q], jobs)][q := []]
    {
      ghost var was := queues;
      assert was[hi] + [] == was[hi];
      for k := 0 to |queues[q]|
        invariant queues == was[hi := was[hi] + Awake(was[q][..k], jobs)]
      {
        var j := queues[q][k];
        assert was[q][..k + 1][..k] == was[q][..k];
        ghost var before := Awake(was[q][..k], jobs);
        if !jobs[j].doingIO {
          assert (was[hi] + before) + [j] == was[hi] + (before + [j]);
          queues := queues[hi := queues[hi] + [j]];
        } else {
          assert before + [] == before;
        }
      }
      assert was[q][..|was[q]|] == was[q];
      queues := queues[q := []];
    }

    method EmptyAll()
      requires Configured(c) && |queues| == c.numQueues && Indexed(queues, jobs)
      modifies this`queues
      ensures queues == Emptied(old(queues), Hi(c))[Hi(c) := Gathered(old(queues), jobs, Hi(c))]
    {
      hide Awake;
      ghost var was := queues;
      var hi := c.numQueues - 1;
      for q := 0 to hi
        invariant |queues| == c.numQueues && queues == Emptied(was, q)[hi := Gathered(was, jobs, q)]
      {
        assert queues[q] == was[q] && queues[hi] == Gathered(was, jobs, q);
        EmptyInto(q, hi);
      }
    }

    method RaiseAll()
      requires Configured(c)
      modifies this`jobs
      ensures jobs == RaisedTo(c, old(jobs), |old(jobs)|)
    {
      ghost var was := jobs;
      for j := 0 to |jobs|
        invariant |jobs| == |was| && jobs == RaisedTo(c, was, j)
      {
        if jobs[j].timeLeft > 0 { jobs := jobs[j := jobs[j].(currPri := Hi(c), ticksLeft := c.allotment[Hi(c)])]; }
      }
    }

    method Boost()
      requires Configured(c) && |queues| == c.numQueues && Indexed(queues, jobs)
      modifies this`queues, this`jobs
      ensures Now() == Boosted(c, old(Now()))
    {
      EmptyAll();
      RaiseAll();
    }

    /** Jobs that begin and I/Os that complete now. Each job joins the queue of its level at the back, in the order in
        which they are due; with iobump a completed I/O puts its job in front of all others. */
    method Arrivals()
      requires Inv(c, Now(), place, DueAt(ioDone, currTime))
      modifies this`queues, this`jobs, this`place
      ensures Inv(c, Now(), place, []) && |old(queues)| == |queues| == c.numQueues
      ensures var due := DueAt(ioDone, currTime);
        Woken(due, old(jobs), jobs) && AllJoined(c, old(queues), due, old(jobs), queues)
      ensures !c.iobump ==> forall q :: 0 <= q < c.numQueues ==> old(queues)[q] <= queues[q]
      ensures |place| == |old(place)| && forall j :: 0 <= j < |place| ==>
        place[j] == old(place)[j] || (old(place)[j] == Pending(currTime) && place[j].Queued?)
      ensures forall h :: Within(old(place), h) ==> Within(place, h)
    {
      hide Inv, AllJoined;
      var due := DueAt(ioDone, currTime);
      ghost var was := Now();
      assert due[0..] == due && due[..0] == [];
      InvSizes(c, was, place, due);
      AllJoinedNone(c, queues, jobs);
      WokenNone(jobs);
      for k := 0 to |due|
        invariant Inv(c, Now(), place, due[k..]) && |queues| == c.numQueues && |place| == |old(place)|
        invariant Woken(due[..k], was.jobs, jobs)
        invariant AllJoined(c, was.queues, due[..k], was.jobs, queues)
        invariant forall j :: 0 <= j < |place| ==>
          place[j] == old(place)[j] || (old(place)[j] == Pending(currTime) && place[j].Queued?)
      {
        var (j, kind) := due[k];
        InvSizes(c, Now(), place, due[k..]);
        ArriveKeeps(c, Now(), place, due[k..]);
        DueFirst(c, Now(), place, due[k..]);
        assert due[k..][0] == due[k] && due[k..][1..] == due[k + 1..] && due[..k + 1] == due[..k] + [due[k]];
        ghost var s := Now();
        assert s.jobs[j].currPri == was.jobs[j].currPri;
        AllJoinedOne(c, was.queues, due[..k], was.jobs, queues, j, kind);
        WokenOne(due[..k], was.jobs, jobs, j, kind);
        var q := jobs[j].currPri;
        jobs := jobs[j := jobs[j].(doingIO := false)];
        if !c.iobump || kind.Begins? {
          queues := queues[q := queues[q] + [j]];
        } else {
          queues := queues[q := [j] + queues[q]];
        }
        assert Now() == Arrive(c, s, j, kind);
        place := place[j := Queued];
      }
      assert due[..|due|] == due && due[|due|..] == [];
      if !c.iobump { JoinedBehind(c, was.queues, due, was.jobs, queues); }
    }

    /** The head of queue `q` runs for a tick; none of the aborts and assertions on the way is reached. */
    method RunHead(q: nat)
      requires Inv(c, Now(), place, []) && q < c.numQueues && queues[q] != []
      modifies this`queues, this`jobs, this`ioDone, this`currTime, this`finishedJobs
      ensures var j, s := old(queues)[q][0], old(Now());
        && j < |s.jobs| && s.jobs[j].currPri == q && s.jobs[j].timeLeft >= 1 && |s.queues| == c.numQueues
        && Now() == Tick(c, s, q).(time := s.time + 1)
        && finishedJobs == old(finishedJobs) + if s.jobs[j].timeLeft == 1 then 1 else 0
    {
      hide Inv, Expire, StartIO, Ran, IssuesIO;
      ghost var s := Now();
      InvSizes(c, s, place, []);
      TickKeeps(c, s, place, q);
      var currJob := queues[q][0];
      assert jobs[currJob].currPri == q;
      var ticksLeft, timeLeft := Charge(currJob);
      ghost var ran := jobs[currJob];
      assert timeLeft >= 0;
      currTime := currTime + 1;
      if timeLeft == 0 {
        finishedJobs := finishedJobs + 1;
        jobs := jobs[currJob := jobs[currJob].(endTime := currTime)];
        queues := queues[q := queues[q][1..]];
        assert jobs == s.jobs[currJob := ran.(endTime := s.time + 1)];
        return;
      }
      var issuedIO := IssuesIO(jobs[currJob]);
      if issuedIO { IssueIO(currJob, q); }
      ghost var io := if issuedIO then StartIO(c, ran, q) else ran;
      assert jobs == s.jobs[currJob := io];
      if ticksLeft == 0 {
        if !issuedIO { queues := queues[q := queues[q][1..]]; }
        EndQuantum(currJob, q, issuedIO);
        assert jobs == s.jobs[currJob := Expire(c, io, q)];
      }
    }

    method Charge(j: nat) returns (ticksLeft: int, timeLeft: int)
      requires j < |jobs|
      modifies this`jobs
      ensures jobs == old(jobs)[j := Ran(old(jobs)[j], currTime)] && ticksLeft == jobs[j].ticksLeft
      ensures timeLeft == jobs[j].timeLeft
      ensures timeLeft == old(jobs)[j].timeLeft - 1 && jobs[j].currPri == old(jobs)[j].currPri
    {
      jobs := jobs[j := jobs[j].(timeLeft := jobs[j].timeLeft - 1, ticksLeft := jobs[j].ticksLeft - 1)];
      if jobs[j].firstRun == -1 { jobs := jobs[j := jobs[j].(firstRun := currTime)]; }
      ticksLeft, timeLeft := jobs[j].ticksLeft, jobs[j].timeLeft;
    }

    /** The job leaves its queue for an I/O. With `stay` its counters start again. */
    method IssueIO(j: nat, q: nat)
      requires Configured(c) && q < c.numQueues == |queues| && queues[q] != [] && j < |jobs|
      modifies this`queues, this`jobs, this`ioDone
      ensures queues == old(queues)[q := old(queues)[q][1..]] && jobs == old(jobs)[j := StartIO(c, old(jobs)[j], q)]
      ensures var at := currTime + c.ioTime; ioDone == old(ioDone)[at := DueAt(old(ioDone), at) + [(j, IoDone)]]
      ensures jobs[j].currPri == old(jobs)[j].currPri
    {
      queues := queues[q := queues[q][1..]];
      jobs := jobs[j := jobs[j].(doingIO := true)];
      if c.stay { jobs := jobs[j := jobs[j].(ticksLeft := c.quantum[q], allotLeft := c.allotment[q])]; }
      var futureTime := currTime + c.ioTime;
      ioDone := ioDone[futureTime := DueAt(ioDone, futureTime) + [(j, IoDone)]];
    }

    /** A quantum has ended: one allotment less, and the job goes to the back of its queue, or of the next. */
    method EndQuantum(j: nat, q: nat, issuedIO: bool)
      requires Configured(c) && |queues| == c.numQueues && q < c.numQueues && j < |jobs| && jobs[j].currPri == q
      modifies this`queues, this`jobs
      ensures jobs == old(jobs)[j := Expire(c, old(jobs)[j], q)] && 0 <= jobs[j].currPri < c.numQueues
      ensures queues == if issuedIO then old(queues)
        else old(queues)[jobs[j].currPri := old(queues)[jobs[j].currPri] + [j]]
    {
      jobs := jobs[j := jobs[j].(allotLeft := jobs[j].allotLeft - 1)];
      if jobs[j].allotLeft == 0 {
        if q > 0 {
          jobs := jobs[j := jobs[j].(currPri := q - 1, ticksLeft := c.quantum[q - 1], allotLeft := c.allotment[q - 1])];
          if !issuedIO { queues := queues[q - 1 := queues[q - 1] + [j]]; }
        } else {
          jobs := jobs[j := jobs[j].(ticksLeft := c.quantum[q], allotLeft := c.allotment[q])];
          if !issuedIO { queues := queues[q := queues[q] + [j]]; }
        }
      } else {
        jobs := jobs[j := jobs[j].(ticksLeft := c.quantum[q])];
        if !issuedIO { queues := queues[q := queues[q] + [j]]; }
      }
    }

    /** What is done before a job is chosen: a boost when one is due, and the arrivals. */
    method Prepare()
      requires Valid()
      modifies this`queues, this`jobs, this`place
      ensures |old(queues)| == c.numQueues && Indexed(old(queues), old(jobs)) && Configured(c)
      ensures Ready(c, old(Now()), Now())
      ensures Inv(c, Now(), place, []) && (Plain(c) ==> Uses(c, jobs, used)) && (Stays(c) ==> AllGame(c, jobs))
      ensures Remembered(history, jobs, place, currTime)
      ensures finishedJobs + Live(jobs) == |jobs| == |old(jobs)| && TotalLeft(jobs) == TotalLeft(old(jobs))
      ensures TotalRun(jobs) == TotalRun(old(jobs))
      ensures forall h :: Within(old(place), h) ==> Within(place, h)
      ensures Plain(c) ==> forall j :: 0 <= j < |jobs| ==> jobs[j].currPri == old(jobs)[j].currPri
      ensures forall j :: 0 <= j < |jobs| ==> SameBooks(old(jobs)[j], jobs[j])
    {
      hide Inv, OnTrack, AllJoined, Boosted, Uses, AllGame, Remembered, TotalLeft, TotalRun, Live;
      ghost var s := Now();
      InvSizes(c, s, place, DueAt(ioDone, currTime));
      BoostKeeps(c, s, place, DueAt(ioDone, currTime));
      BoostedBooks(c, s);
      if c.boost > 0 && currTime != 0 && currTime % c.boost == 0 {
        Boost();
      }
      ghost var b := jobs;
      SameTotals(s.jobs, b);
      Arrivals();
      WokenSame(DueAt(ioDone, currTime), b, jobs);
      SameTotals(b, jobs);
      if Plain(c) { UsesKept(c, b, jobs, used); }
      if Stays(c) { AllGameKept(c, b, jobs); }
      RememberedReady(history, s.jobs, jobs, old(place), place, currTime);
    }

    /** One turn of the loop. After the boost and the arrivals, a busy turn is a tick of the job at the head of the
        highest queue that is not empty; an idle turn finds every queue empty. */
    method Turn(ghost horizon: int) returns (ghost horizon': int, ghost ready: State, ghost ran: int)
      requires Valid() && finishedJobs < |jobs| && Within(place, horizon)
      modifies this
      ensures Valid() && |jobs| == |old(jobs)| && history == old(history) + [ran]
      ensures Configured(c) && |old(queues)| == c.numQueues && Indexed(old(queues), old(jobs))
      ensures Ready(c, old(Now()), ready)
      ensures Ticked(c, ready, Now(), ran)
      ensures -1 <= ran < |jobs| && (ran == -1 <==> busy == old(busy))
      ensures forall j :: 0 <= j < |jobs| ==> jobs[j].timeLeft == old(jobs)[j].timeLeft - if j == ran then 1 else 0
      ensures SameSpecs(old(jobs), jobs)
      ensures Plain(c) && ran != -1 ==> |old(used)| == |jobs| && 0 <= old(jobs)[ran].currPri < c.numQueues
      ensures Plain(c) && ran != -1 ==> used == old(used)[ran := Counted(c, old(jobs)[ran], old(used)[ran])]
      ensures currTime == old(currTime) + 1 && Within(place, horizon')
      ensures busy > old(busy) || (horizon' == horizon > old(currTime) && busy == old(busy))
      ensures TotalRun(jobs) == TotalRun(old(jobs)) && old(busy) <= busy && old(idle) <= idle
    {
      hide Inv, OnTrack, Ready, Games, Recorded, Started, Tick, Remembered, AllGame, Uses, Ticked, Indexed,
        SameSpecs, TotalLeft, TotalRun, Live;
      horizon', ran := horizon, -1;
      Prepare();
      ready := Now();
      ghost var s := Now();
      SpecsOf(old(jobs), jobs);
      InvSizes(c, s, place, []);
      var currQueue := FindQueue();
      if currQueue == -1 {
        TickedIdle(c, s);
        SomePending(c, s, place);
        TimePasses(c, s, place);
        RememberedIdle(history, jobs, place, currTime);
        currTime := currTime + 1;
        idle := idle + 1;
        history := history + [-1];
        return;
      }
      ran := queues[currQueue][0];
      HeadOf(c, s, place, currQueue);
      TickedBusy(c, s, currQueue);
      horizon' := BusyTurn(currQueue, horizon);
      SpecsTrans(old(jobs), s.jobs, jobs);
    }

    method BusyTurn(q: nat, ghost horizon: int) returns (ghost horizon': int)
      requires Inv(c, Now(), place, []) && q < c.numQueues && queues[q] != [] && (Plain(c) ==> Uses(c, jobs, used))
      requires (Stays(c) ==> AllGame(c, jobs)) && Remembered(history, jobs, place, currTime)
      requires finishedJobs + Live(jobs) == |jobs| && busy + TotalLeft(jobs) == TotalRun(jobs)
      requires currTime == busy + idle
      requires Within(place, horizon)
      modifies this
      ensures Valid() && |jobs| == |old(jobs)| && currTime == old(currTime) + 1 && Within(place, horizon')
      ensures busy == old(busy) + 1 && idle == old(idle) && TotalRun(jobs) == TotalRun(old(jobs))
      ensures old(queues)[q][0] < |old(jobs)| && old(jobs)[old(queues)[q][0]].currPri == q
      ensures Configured(c) && |old(queues)| == c.numQueues && SameSpecs(old(jobs), jobs)
      ensures Now() == Tick(c, old(Now()), q).(time := old(currTime) + 1)
      ensures history == old(history) + [old(queues)[q][0]]
      ensures forall j :: 0 <= j < |jobs| ==>
        jobs[j].timeLeft == old(jobs)[j].timeLeft - if j == old(queues)[q][0] then 1 else 0
      ensures Plain(c) ==> |old(used)| == |old(jobs)|
      ensures Plain(c) ==> var j := old(queues)[q][0]; used == old(used)[j := Counted(c, old(jobs)[j], old(used)[j])]
    {
      hide Inv, OnTrack, PlaceAfter, DueAt, Uses, Tick, TotalLeft, TotalRun, Live, AllGame, Remembered;
      ghost var s := Now();
      InvSizes(c, s, place, []);
      TickKeeps(c, s, place, q);
      HeadOf(c, s, place, q);
      HeadQueued(c, s, place, q);
      ghost var j := queues[q][0];
      ghost var after := PlaceAfter(c, s, j);
      RunHead(q);
      ghost var t := Tick(c, s, q);
      TimePasses(c, t, place[j := after]);
      TickedJob(c, s, q);
      Totals(s.jobs, j, t.jobs[j]);
      if Plain(c) {
        UsesAfterTick(c, s.jobs, used, j, t.jobs[j], s.time);
        used := used[j := Counted(c, s.jobs[j], used[j])];
      }
      if Stays(c) { AllGameAfterTick(c, s.jobs, j, t.jobs[j], s.time); }
      RememberedTick(history, s.jobs, place, s.time, j, t.jobs[j], after);
      history := history + [j];
      place := place[j := after];
      busy := busy + 1;
      horizon' := if after.Pending? && after.at > horizon then after.at else horizon;
    }

    /** The loop ends: every job has run for all of its run time, no queue holds a job, and the busy ticks are the
        sum of the run times. */
    method Run()
      requires Valid()
      modifies this
      ensures Valid() && |jobs| == |old(jobs)| && busy == TotalRun(old(jobs)) && currTime == busy + idle
      ensures forall j :: 0 <= j < |jobs| ==> jobs[j].timeLeft == 0 && place[j].Done?
      ensures SameSpecs(old(jobs), jobs) && |history| == currTime && old(history) <= history
      ensures forall j: nat :: j < |jobs| ==> Recorded(history, j, jobs[j])
      ensures |queues| == c.numQueues && forall q :: 0 <= q < |queues| ==> queues[q] == []
    {
      hide Inv, Uses, AllGame, Recorded, Started, Ready, Tick, Chosen;
      ghost var horizon := Latest(place);
      LatestIs(place);
      BusyBound(c, Now(), place, finishedJobs, busy, idle);
      while finishedJobs < |jobs|
        invariant Valid() && |jobs| == |old(jobs)| && TotalRun(jobs) == TotalRun(old(jobs)) && Within(place, horizon)
        invariant busy <= TotalRun(jobs) && SameSpecs(old(jobs), jobs) && old(history) <= history
        decreases TotalRun(jobs) - busy, horizon - currTime
      {
        ghost var ready, ran;
        horizon, ready, ran := Turn(horizon);
        BusyBound(c, Now(), place, finishedJobs, busy, idle);
      }
      AtTheEnd(c, Now(), place, finishedJobs, busy, idle);
    }
  }

  /** The jobs as submitted. */
  ghost predicate SameSpecs(a: seq<Job>, b: seq<Job>) {
    |a| == |b| && forall j :: 0 <= j < |a| ==>
      b[j].startTime == a[j].startTime && b[j].runTime == a[j].runTime && b[j].ioFreq == a[j].ioFreq
  }

  lemma SpecsOf(a: seq<Job>, b: seq<Job>)
    requires |a| == |b| && forall j :: 0 <= j < |a| ==> SameBooks(a[j], b[j])
    ensures SameSpecs(a, b)
  {
  }

  lemma SpecsTrans(a: seq<Job>, b: seq<Job>, d: seq<Job>)
    requires SameSpecs(a, b) && SameSpecs(b, d)
    ensures SameSpecs(a, d)
  {
  }

  /** From the state in which the job was chosen to the next turn: a tick of the head of the highest queue that is not
      empty, or of no job. */
  ghost predicate Ticked(c: Config, ready: State, after: State, ran: int) {
    Configured(c) && exists q ::
      && Chosen(c, ready, q, ran)
      && (q == -1 ==> after == ready.(time := ready.time + 1))
      && (q != -1 ==> ready.jobs[ran].currPri == q && after == Tick(c, ready, q).(time := ready.time + 1))
  }

  lemma TickedIdle(c: Config, s: State)
    requires Configured(c) && |s.queues| == c.numQueues && forall p :: 0 <= p < c.numQueues ==> s.queues[p] == []
    ensures Ticked(c, s, s.(time := s.time + 1), -1)
  {
    assert Chosen(c, s, -1, -1);
  }

  lemma TickedBusy(c: Config, s: State, q: nat)
    requires Configured(c) && |s.queues| == c.numQueues && q < c.numQueues && s.queues[q] != []
    requires s.queues[q][0] < |s.jobs| && s.jobs[s.queues[q][0]].currPri == q
    requires forall p :: q < p < c.numQueues ==> s.queues[p] == []
    ensures Ticked(c, s, Tick(c, s, q).(time := s.time + 1), s.queues[q][0])
  {
    hide Tick;
    assert Chosen(c, s, q, s.queues[q][0]);
  }

  /** A boost leaves the books of the jobs alone. */
  lemma BoostedBooks(c: Config, s: State)
    requires Configured(c) && |s.queues| == c.numQueues && Indexed(s.queues, s.jobs)
    ensures |Boosted(c, s).jobs| == |s.jobs|
    ensures forall j :: 0 <= j < |s.jobs| ==> SameBooks(s.jobs[j], Boosted(c, s).jobs[j])
  {
    hide Gathered;
  }

  lemma WokenSame(due: Due, a: seq<Job>, b: seq<Job>)
    requires Woken(due, a, b)
    ensures |a| == |b| && forall j :: 0 <= j < |a| ==> b[j] == a[j] || b[j] == a[j].(doingIO := false)
  {
  }

  lemma HeadQueued(c: Config, s: State, place: seq<Place>, q: nat)
    requires Inv(c, s, place, []) && q < c.numQueues && |s.queues| == c.numQueues && s.queues[q] != []
    ensures s.queues[q][0] < |place| && place[s.queues[q][0]].Queued?
  {
    HeadIs(c, s, place, q);
  }

  /** What a tick does to the list of jobs. */
  lemma TickedJob(c: Config, s: State, q: nat)
    requires Configured(c) && |s.queues| == c.numQueues && q < c.numQueues && s.queues[q] != []
    requires s.queues[q][0] < |s.jobs|
    requires s.jobs[s.queues[q][0]].timeLeft >= 1
    ensures var j, t := s.queues[q][0], Tick(c, s, q);
      && |t.jobs| == |s.jobs| && t.jobs == s.jobs[j := t.jobs[j]]
      && t.jobs[j].timeLeft == s.jobs[j].timeLeft - 1 && t.jobs[j].runTime == s.jobs[j].runTime && t.time == s.time
      && t.jobs[j].startTime == s.jobs[j].startTime && t.jobs[j].ioFreq == s.jobs[j].ioFreq
      && t.jobs[j].firstRun == (if s.jobs[j].firstRun == -1 then s.time else s.jobs[j].firstRun)
      && (t.jobs[j].timeLeft == 0 ==> t.jobs[j].endTime == s.time + 1)
      && (t.jobs[j].timeLeft == 0 || t.jobs[j] == Charged(c, s.jobs[j], q, s.time))
  {
  }

  /** Arrivals do not touch what the books of a level look at. */
  lemma UsesKept(c: Config, a: seq<Job>, b: seq<Job>, used: seq<int>)
    requires Uses(c, a, used) && |a| == |b|
    requires forall j :: 0 <= j < |a| ==> b[j] == a[j] || b[j] == a[j].(doingIO := false)
    ensures Uses(c, b, used)
  {
    hide Position;
    forall j | 0 <= j < |b| && b[j].timeLeft > 0 ensures OnTrack(c, b[j], used[j]) { assert OnTrack(c, a[j], used[j]); }
  }

  ghost function Latest(place: seq<Place>): int {
    if place == [] then 0
    else
      var n, l := |place| - 1, Latest(place[..|place| - 1]);
      if place[n].Pending? && place[n].at > l then place[n].at else l
  }

  lemma {:induction false} LatestIs(place: seq<Place>)
    ensures Within(place, Latest(place))
  {
    if place != [] {
      var n := |place| - 1;
      LatestIs(place[..n]);
      forall j | 0 <= j < |place| && place[j].Pending? ensures place[j].at <= Latest(place) {
        assert j < n ==> place[..n][j].Pending?;
      }
    }
  }

  lemma BusyBound(c: Config, s: State, place: seq<Place>, finished: nat, busy: nat, idle: nat)
    requires Good(c, s, place, finished, busy, idle)
    ensures busy <= TotalRun(s.jobs)
  {
    LeftNonNegative(s.jobs);
  }

  lemma AtTheEnd(c: Config, s: State, place: seq<Place>, finished: nat, busy: nat, idle: nat)
    requires Good(c, s, place, finished, busy, idle) && finished >= |s.jobs|
    ensures forall j :: 0 <= j < |s.jobs| ==> s.jobs[j].timeLeft == 0 && place[j].Done?
    ensures busy == TotalRun(s.jobs) && |s.queues| == c.numQueues && forall q :: 0 <= q < |s.queues| ==>
      s.queues[q] == []
  {
    LeftNonNegative(s.jobs);
    forall q | 0 <= q < |s.queues| ensures s.queues[q] == [] {
      if s.queues[q] != [] {
        HeadIs(c, s, place, q);
        assert false;
      }
    }
  }

  function Fresh(c: Config, spec: (nat, nat, int)): Job
    requires Configured(c)
  {
    Job(Hi(c), c.quantum[Hi(c)], c.allotment[Hi(c)], spec.0, spec.1, spec.1, spec.2, false, -1, -1)
  }

  ghost function Waiting(n: nat): (p: seq<Place>)
    ensures |p| == n && forall i :: 0 <= i < n ==> p[i].Queued?
  {
    if n == 0 then [] else Waiting(n - 1) + [Queued]
  }

  ghost function Zeros(n: nat): (p: seq<int>)
    ensures |p| == n && forall i :: 0 <= i < n ==> p[i] == 0
  {
    if n == 0 then [] else Zeros(n - 1) + [0]
  }

  lemma PendingNone(place: seq<Place>)
    requires forall i :: 0 <= i < |place| ==> place[i].Queued?
    ensures PendingOk(map[], -1, [], place)
  {
  }

  lemma NothingYet(jobs: seq<Job>, place: seq<Place>, list: seq<(nat, nat, int)>, c: Config)
    requires Configured(c) && |jobs| == |list| == |place| && forall i :: 0 <= i < |list| ==>
      list[i].1 >= 1 && jobs[i] == Fresh(c, list[i]) && place[i] == Pending(list[i].0)
    ensures Remembered([], jobs, place, 0)
  {
  }

  lemma {:induction false} AllFresh(c: Config, jobs: seq<Job>, list: seq<(nat, nat, int)>)
    requires Configured(c) && |jobs| == |list| && forall i :: 0 <= i < |list| ==>
      list[i].1 >= 1 && jobs[i] == Fresh(c, list[i])
    ensures Live(jobs) == |jobs| && TotalLeft(jobs) == TotalRun(jobs)
    ensures Plain(c) ==> Uses(c, jobs, Zeros(|jobs|))
    ensures Stays(c) ==> AllGame(c, jobs)
  {
    hide Games;
    if jobs != [] { AllFresh(c, jobs[..|jobs| - 1], list[..|jobs| - 1]); }
    if Plain(c) {
      forall j | 0 <= j < |jobs| ensures OnTrack(c, jobs[j], 0) { FreshUse(c, jobs[j], Hi(c)); }
    }
    if Stays(c) {
      forall j | 0 <= j < |jobs| ensures Games(c, jobs[j]) { FreshGames(c, jobs[j]); }
    }
  }
}
