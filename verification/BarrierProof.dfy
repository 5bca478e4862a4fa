/** The barrier's invariant holds in every reachable state, and what follows from it. */
module BarrierProof {
  import opened Barrier

  // ---------- counting arrivals ----------

  lemma {:induction false} ArrivedMove(ts: seq<Thread>, n: nat, t: nat, l: Thread)
    requires t < |ts|
    ensures ArrivedIn(ts[t := l], n)
      == ArrivedIn(ts, n) - (if ts[t].arrived == n then 1 else 0) + (if l.arrived == n then 1 else 0)
  {
    var last := |ts| - 1;
    if t == last {
      assert ts[t := l][..last] == ts[..last];
    } else {
      ArrivedMove(ts[..last], n, t, l);
      assert ts[t := l][..last] == ts[..last][t := l];
    }
  }

  lemma {:induction false} ArrivedSame(ts: seq<Thread>, us: seq<Thread>, n: nat)
    requires |ts| == |us| && forall t :: 0 <= t < |ts| ==> ts[t].arrived == us[t].arrived
    ensures ArrivedIn(ts, n) == ArrivedIn(us, n)
  {
    if ts != [] { ArrivedSame(ts[..|ts| - 1], us[..|us| - 1], n); }
  }

  lemma {:induction false} ArrivedBound(ts: seq<Thread>, n: nat)
    ensures ArrivedIn(ts, n) <= |ts|
    ensures ArrivedIn(ts, n) == |ts| <==> forall t :: 0 <= t < |ts| ==> ts[t].arrived == n
    ensures ArrivedIn(ts, n) == 0 <==> forall t :: 0 <= t < |ts| ==> ts[t].arrived != n
  {
    if ts != [] {
      ArrivedBound(ts[..|ts| - 1], n);
      assert forall t :: 0 <= t < |ts| - 1 ==> ts[..|ts| - 1][t] == ts[t];
    }
  }

  // ---------- the initial state ----------

  lemma InitInv(c: Config, s: State)
    requires c.threads > 0 && Init(c, s)
    ensures Inv(c, s)
  {
    ArrivedBound(s.threads, 1);
  }

  // ---------- steps: each thread's own state ----------

  ghost predicate Others(c: Config, s: State, t: nat, s': State) {
    && |s.threads| == |s'.threads| == c.threads && t < c.threads
    && forall u :: 0 <= u < c.threads && u != t ==> s'.threads[u] == s.threads[u]
  }

  /** A step by `t` that ends no round leaves every other thread in order. */
  lemma OthersOk(c: Config, s: State, t: nat, s': State)
    requires LocalsOk(c, s) && Others(c, s, t, s') && s'.wakers == s.wakers
    requires t < |s'.threads| && LocalOk(c, s', t)
    requires s'.owner == s.owner || ((s.owner == -1 || s.owner == t) && (s'.owner == -1 || s'.owner == t))
    ensures LocalsOk(c, s')
  {
    forall u | 0 <= u < c.threads ensures LocalOk(c, s', u) {
      assert LocalOk(c, s, u) && LocalOk(c, s, t);
    }
  }

  lemma AcquireLocals(c: Config, s: State, t: nat, s': State)
    requires LocalsOk(c, s) && t < c.threads && AcquireStep(s, t, s')
    ensures LocalsOk(c, s')
  {
    assert LocalOk(c, s, t);
    OthersOk(c, s, t, s');
  }

  lemma TestLocals(c: Config, s: State, t: nat, s': State)
    requires LocalsOk(c, s) && CounterOk(c, s) && t < c.threads && TestStep(s, t, s')
    ensures LocalsOk(c, s')
  {
    assert LocalOk(c, s, t);
    OthersOk(c, s, t, s');
  }

  lemma WakeLocals(c: Config, s: State, t: nat, s': State)
    requires LocalsOk(c, s) && t < c.threads && SpuriousWakeup(s, t, s')
    ensures LocalsOk(c, s')
  {
    assert LocalOk(c, s, t);
    OthersOk(c, s, t, s');
  }

  lemma ReturnLocals(c: Config, s: State, t: nat, s': State)
    requires LocalsOk(c, s) && t < c.threads && ReturnStep(c, s, t, s')
    ensures LocalsOk(c, s')
  {
    assert LocalOk(c, s, t);
    OthersOk(c, s, t, s');
  }

  lemma WorkLocals(c: Config, s: State, t: nat, s': State)
    requires LocalsOk(c, s) && t < c.threads && WorkStep(c, s, t, s')
    ensures LocalsOk(c, s')
  {
    assert LocalOk(c, s, t);
    OthersOk(c, s, t, s');
  }

  lemma SerialLocals(c: Config, s: State, t: nat, s': State)
    requires LocalsOk(c, s) && t < c.threads && SerialStep(c, s, t, s')
    ensures LocalsOk(c, s')
  {
    assert LocalOk(c, s, t);
    OthersOk(c, s, t, s');
  }

  lemma ArriveLocals(c: Config, s: State, t: nat, s': State)
    requires LocalsOk(c, s) && CounterOk(c, s) && t < c.threads && ArriveStep(c, s, t, s')
    ensures LocalsOk(c, s')
  {
    assert LocalOk(c, s, t);
    if s.counter == 1 {
      LastToArrive(c, s, t);
      forall u | 0 <= u < c.threads ensures LocalOk(c, s', u) { assert LocalOk(c, s, u); }
    } else {
      OthersOk(c, s, t, s');
    }
  }

  /** When one arrival is missing, everybody else waits in this round. */
  lemma LastToArrive(c: Config, s: State, t: nat)
    requires LocalsOk(c, s) && CounterOk(c, s) && s.counter == 1 && t < c.threads && s.threads[t].pc == Arrive
    ensures forall u :: 0 <= u < c.threads && u != t ==>
      s.threads[u].arrived == |s.wakers| + 1 && s.threads[u].pc in {Wait, Reacquire}
  {
    var n := |s.wakers| + 1;
    assert LocalOk(c, s, t);
    var l := s.threads[t].(arrived := n);
    ArrivedMove(s.threads, n, t, l);
    ArrivedBound(s.threads[t := l], n);
    forall u | 0 <= u < c.threads && u != t ensures s.threads[u].arrived == n && s.threads[u].pc in {Wait, Reacquire} {
      assert s.threads[t := l][u] == s.threads[u] && LocalOk(c, s, u);
    }
  }

  // ---------- steps: the counter ----------

  lemma LastCounter(c: Config, s: State, t: nat, s': State)
    requires LocalsOk(c, s) && CounterOk(c, s) && t < c.threads && ArriveStep(c, s, t, s') && s.counter == 1
    ensures CounterOk(c, s')
  {
    assert LocalOk(c, s, t);
    LastToArrive(c, s, t);
    var n := |s.wakers| + 1;
    forall u | 0 <= u < c.threads ensures s'.threads[u].arrived == n {}
    ArrivedBound(s'.threads, n + 1);
  }

  lemma ArriveCounter(c: Config, s: State, t: nat, s': State)
    requires LocalsOk(c, s) && CounterOk(c, s) && t < c.threads && ArriveStep(c, s, t, s')
    ensures CounterOk(c, s')
  {
    if s.counter == 1 {
      LastCounter(c, s, t, s');
    } else {
      assert LocalOk(c, s, t);
      ArrivedMove(s.threads, |s.wakers| + 1, t, s'.threads[t]);
    }
  }

  lemma OtherCounter(c: Config, s: State, t: nat, s': State)
    requires LocalsOk(c, s) && CounterOk(c, s) && Step(c, s, t, s') && s.threads[t].pc != Arrive
    ensures CounterOk(c, s')
  {
    ArrivedSame(s.threads, s'.threads, |s.wakers| + 1);
  }

  // ---------- steps: the increments ----------

  /** A step that neither ends a round nor moves the serial section leaves the increments as they are. */
  lemma PlainIncrements(c: Config, s: State, t: nat, s': State)
    requires IncrementsOk(c, s) && Others(c, s, t, s') && s'.increments == s.increments && s'.wakers == s.wakers
    requires SerialProgress(c, s'.threads[t].pc) == SerialProgress(c, s.threads[t].pc)
      || (|s.wakers| > 0 && s.wakers[|s.wakers| - 1] != t)
    ensures IncrementsOk(c, s')
  {
    assert Finished(c, s') == Finished(c, s);
  }

  lemma TestIncrements(c: Config, s: State, t: nat, s': State)
    requires LocalsOk(c, s) && CounterOk(c, s) && IncrementsOk(c, s) && t < c.threads && TestStep(s, t, s')
    ensures IncrementsOk(c, s')
  {
    assert LocalOk(c, s, t);
    PlainIncrements(c, s, t, s');
  }

  lemma ReturnIncrements(c: Config, s: State, t: nat, s': State)
    requires LocalsOk(c, s) && IncrementsOk(c, s) && t < c.threads && ReturnStep(c, s, t, s')
    ensures IncrementsOk(c, s')
  {
    assert LocalOk(c, s, t);
  }

  lemma SerialIncrements(c: Config, s: State, t: nat, s': State)
    requires LocalsOk(c, s) && IncrementsOk(c, s) && t < c.threads && SerialStep(c, s, t, s')
    ensures IncrementsOk(c, s')
  {
    assert LocalOk(c, s, t);
  }

  lemma ArriveIncrements(c: Config, s: State, t: nat, s': State)
    requires LocalsOk(c, s) && CounterOk(c, s) && IncrementsOk(c, s) && t < c.threads && ArriveStep(c, s, t, s')
    ensures IncrementsOk(c, s')
  {
    assert LocalOk(c, s, t);
    if s.counter == 1 { LastToArrive(c, s, t); }
  }

  // ---------- steps: the arrays ----------

  lemma WorkArrays(c: Config, s: State, t: nat, s': State)
    requires LocalsOk(c, s) && IncrementsOk(c, s) && ArraysOk(c, s) && t < c.threads && WorkStep(c, s, t, s')
    ensures ArraysOk(c, s')
  {
    assert LocalOk(c, s, t) && ArrayOk(c, t, s.threads[t]);
  }

  /** A thread's cells depend only on how far it has got, so steps outside the inner loops keep them. */
  lemma OtherArrays(c: Config, s: State, t: nat, s': State)
    requires LocalsOk(c, s) && ArraysOk(c, s) && Others(c, s, t, s') && s'.threads[t].arr == s.threads[t].arr
    requires forall k :: 0 <= k < c.cells ==> Cell(c, t, s'.threads[t], k) == Cell(c, t, s.threads[t], k)
    requires s'.threads[t].pc.Work? ==> s'.threads[t].pc == Work(0, 0) && c.inLoops >= 0
    ensures ArraysOk(c, s')
  {
    assert ArrayOk(c, t, s.threads[t]);
    forall u: nat | u < c.threads ensures ArrayOk(c, u, s'.threads[u]) { assert ArrayOk(c, u, s.threads[u]); }
  }

  // ---------- every step ----------

  lemma AcquireKeeps(c: Config, s: State, t: nat, s': State)
    requires Inv(c, s) && t < c.threads && AcquireStep(s, t, s')
    ensures Inv(c, s')
  {
    hide LocalOk, Times, Total, ArrivedIn;
    AcquireLocals(c, s, t, s');
    OtherCounter(c, s, t, s');
    PlainIncrements(c, s, t, s');
    OtherArrays(c, s, t, s');
  }

  lemma TestKeeps(c: Config, s: State, t: nat, s': State)
    requires Inv(c, s) && t < c.threads && TestStep(s, t, s')
    ensures Inv(c, s')
  {
    hide LocalOk, Times, Total, ArrivedIn;
    TestLocals(c, s, t, s');
    OtherCounter(c, s, t, s');
    TestIncrements(c, s, t, s');
    OtherArrays(c, s, t, s');
  }

  lemma WakeKeeps(c: Config, s: State, t: nat, s': State)
    requires Inv(c, s) && t < c.threads && SpuriousWakeup(s, t, s')
    ensures Inv(c, s')
  {
    hide LocalOk, Times, Total, ArrivedIn;
    WakeLocals(c, s, t, s');
    OtherCounter(c, s, t, s');
    PlainIncrements(c, s, t, s');
    OtherArrays(c, s, t, s');
  }

  lemma ReturnKeeps(c: Config, s: State, t: nat, s': State)
    requires Inv(c, s) && t < c.threads && ReturnStep(c, s, t, s')
    ensures Inv(c, s')
  {
    hide Times, Total, ArrivedIn;
    ReturnLocals(c, s, t, s');
    OtherCounter(c, s, t, s');
    ReturnIncrements(c, s, t, s');
    ReturnCells(c, s, t, s');
    OtherArrays(c, s, t, s');
  }

  lemma ReturnCells(c: Config, s: State, t: nat, s': State)
    requires t < |s.threads| && ReturnStep(c, s, t, s')
    ensures forall k :: 0 <= k < c.cells ==> Cell(c, t, s'.threads[t], k) == Cell(c, t, s.threads[t], k)
  {
  }

  lemma WorkKeeps(c: Config, s: State, t: nat, s': State)
    requires Inv(c, s) && t < c.threads && WorkStep(c, s, t, s')
    ensures Inv(c, s')
  {
    hide LocalOk, Times, Total, ArrivedIn;
    WorkLocals(c, s, t, s');
    OtherCounter(c, s, t, s');
    PlainIncrements(c, s, t, s');
    WorkArrays(c, s, t, s');
  }

  lemma SerialKeeps(c: Config, s: State, t: nat, s': State)
    requires Inv(c, s) && t < c.threads && SerialStep(c, s, t, s')
    ensures Inv(c, s')
  {
    hide Times, Total, ArrivedIn;
    SerialLocals(c, s, t, s');
    OtherCounter(c, s, t, s');
    SerialIncrements(c, s, t, s');
    assert LocalOk(c, s, t);
    OtherArrays(c, s, t, s');
  }

  lemma ArriveArrays(c: Config, s: State, t: nat, s': State)
    requires ArraysOk(c, s) && t < c.threads && ArriveStep(c, s, t, s')
    ensures ArraysOk(c, s')
  {
    forall u: nat | u < c.threads ensures ArrayOk(c, u, s'.threads[u]) { assert ArrayOk(c, u, s.threads[u]); }
  }

  lemma ArriveKeeps(c: Config, s: State, t: nat, s': State)
    requires Inv(c, s) && t < c.threads && ArriveStep(c, s, t, s')
    ensures Inv(c, s')
  {
    hide LocalOk, Times, Total, ArrivedIn;
    ArriveLocals(c, s, t, s');
    ArriveCounter(c, s, t, s');
    ArriveIncrements(c, s, t, s');
    ArriveArrays(c, s, t, s');
  }

  lemma StepKeepsInv(c: Config, s: State, t: nat, s': State)
    requires Inv(c, s) && Step(c, s, t, s')
    ensures Inv(c, s')
  {
    if AcquireStep(s, t, s') { AcquireKeeps(c, s, t, s'); }
    else if ArriveStep(c, s, t, s') { ArriveKeeps(c, s, t, s'); }
    else if TestStep(s, t, s') { TestKeeps(c, s, t, s'); }
    else if SpuriousWakeup(s, t, s') { WakeKeeps(c, s, t, s'); }
    else if ReturnStep(c, s, t, s') { ReturnKeeps(c, s, t, s'); }
    else if WorkStep(c, s, t, s') { WorkKeeps(c, s, t, s'); }
    else { SerialKeeps(c, s, t, s'); }
  }

  lemma {:induction false} RunInv(c: Config, run: seq<State>, i: nat)
    requires c.threads > 0 && IsRun(c, run) && i < |run|
    ensures Inv(c, run[i])
  {
    hide LocalsOk, CounterOk, IncrementsOk, ArraysOk, Step;
    if i == 0 {
      InitInv(c, run[0]);
    } else {
      RunInv(c, run, i - 1);
      assert NextAt(c, run, i - 1);
      var t: nat :| Step(c, run[i - 1], t, run[i]);
      StepKeepsInv(c, run[i - 1], t, run[i]);
    }
  }

  // ---------- what follows ----------

  /** Calls of barrier_wait a thread has returned from. */
  function Returned(l: Thread): nat {
    if l.pc in {Test, Wait, Reacquire, Unlock} && l.arrived > 0 then l.arrived - 1 else l.arrived
  }

  /** Nobody gets past its n-th wait, not even to the unlock, before everybody has arrived n times; so
      the one-bit cycle never lets a thread lap another. */
  lemma NobodyReturnsEarly(c: Config, run: seq<State>, i: nat, t: nat, u: nat)
    requires c.threads > 0 && IsRun(c, run) && i < |run| && t < c.threads && u < c.threads
    ensures |run[i].threads| == c.threads
    ensures Returned(run[i].threads[t]) <= run[i].threads[u].arrived
    ensures run[i].threads[t].pc == Unlock ==> run[i].threads[t].arrived <= run[i].threads[u].arrived
    ensures run[i].threads[t].arrived <= run[i].threads[u].arrived + 1
  {
    RunInv(c, run, i);
    assert LocalOk(c, run[i], t) && LocalOk(c, run[i], u);
  }

  /** The released and the waiting tell each other apart: a thread testing the cycle stays exactly if its
      own round is still open.  So no later toggle can trap a thread whose round is over. */
  lemma ReleasedIsFree(c: Config, run: seq<State>, i: nat, t: nat)
    requires c.threads > 0 && IsRun(c, run) && i < |run| && t < c.threads
    ensures |run[i].threads| == c.threads
    ensures var l, s := run[i].threads[t], run[i];
      && (l.pc in {Test, Wait, Reacquire} ==> (l.cycle == s.cycle <==> l.arrived == |s.wakers| + 1))
      && (l.pc == Wait ==> l.arrived == |s.wakers| + 1)
  {
    RunInv(c, run, i);
    assert LocalOk(c, run[i], t);
  }

  /** Each completed round has one waker, and a thread about to return from its n-th wait gets -1 exactly
      if it is the waker of round n, else 0. */
  lemma OneWakerPerRound(c: Config, run: seq<State>, i: nat, t: nat)
    requires c.threads > 0 && IsRun(c, run) && i < |run| && t < c.threads
    ensures |run[i].threads| == c.threads
    ensures var l, s := run[i].threads[t], run[i];
      l.pc == Unlock ==> 0 < l.arrived <= |s.wakers| && l.status == if s.wakers[l.arrived - 1] == t then -1 else 0
  {
    RunInv(c, run, i);
    assert LocalOk(c, run[i], t);
  }

  /** No deadlock: in every reachable state some unfinished thread is not blocked, unless all are done. */
  lemma DeadlockFree(c: Config, run: seq<State>, i: nat)
    requires c.threads > 0 && IsRun(c, run) && i < |run|
    ensures |run[i].threads| == c.threads
    ensures (forall t :: 0 <= t < c.threads ==> run[i].threads[t].pc == Done || Blocked(run[i], t)) ==>
      forall t :: 0 <= t < c.threads ==> run[i].threads[t].pc == Done
  {
    RunInv(c, run, i);
    if forall t :: 0 <= t < c.threads ==> run[i].threads[t].pc == Done || Blocked(run[i], t) {
      StuckMeansDone(c, run[i]);
    }
  }

  lemma OwnerIsActive(c: Config, s: State)
    requires LocalsOk(c, s) && -1 <= s.owner < c.threads
    ensures s.owner >= 0 ==> s.threads[s.owner].pc != Done && !Blocked(s, s.owner)
  {
    if s.owner >= 0 { assert LocalOk(c, s, s.owner); }
  }

  lemma StuckMeansDone(c: Config, s: State)
    requires c.threads > 0 && -1 <= s.owner < c.threads && LocalsOk(c, s) && CounterOk(c, s)
    requires forall t :: 0 <= t < c.threads ==> s.threads[t].pc == Done || Blocked(s, t)
    ensures forall t :: 0 <= t < c.threads ==> s.threads[t].pc == Done
  {
    OwnerIsActive(c, s);
    assert s.owner == -1;
    forall t | 0 <= t < c.threads ensures s.threads[t].pc in {Wait, Done} {
      assert LocalOk(c, s, t);
      assert s.threads[t].pc == Done || Blocked(s, t);
    }
    var n := |s.wakers| + 1;
    ArrivedBound(s.threads, n);
    var u :| 0 <= u < c.threads && s.threads[u].arrived != n;
    assert LocalOk(c, s, u) && s.threads[u].pc == Done && n - 1 == 2 * c.rounds;
    forall t | 0 <= t < c.threads ensures s.threads[t].pc == Done {
      assert LocalOk(c, s, t);
    }
  }

  /** Once every thread is done, thread `t` holds k + 1 plus inLoops times each of t, t + 1, ... ,
      t + rounds - 1 in cell `k`, and every increment has been raised once a round: the same result for
      every interleaving. */
  lemma FinalArrays(c: Config, run: seq<State>, i: nat)
    requires c.threads > 0 && IsRun(c, run) && i < |run| && |run[i].threads| == c.threads
    requires forall t :: 0 <= t < c.threads ==> run[i].threads[t].pc == Done
    ensures |run[i].increments| == c.threads
    ensures forall t :: 0 <= t < c.threads ==> run[i].increments[t] == t + c.rounds
    ensures forall t :: 0 <= t < c.threads ==> |run[i].threads[t].arr| == c.cells
    ensures forall t, k :: 0 <= t < c.threads && 0 <= k < c.cells ==>
      run[i].threads[t].arr[k] == k + 1 + Total(c, t, c.rounds)
  {
    RunInv(c, run, i);
    var s := run[i];
    assert LocalOk(c, s, 0);
    forall t, k | 0 <= t < c.threads && 0 <= k < c.cells ensures s.threads[t].arr[k] == k + 1 + Total(c, t, c.rounds) {
      assert LocalOk(c, s, t) && ArrayOk(c, t, s.threads[t]);
    }
  }

  /** The sum in closed form: rounds * inLoops * t + inLoops * (0 + 1 + ... + (rounds - 1)). */
  lemma {:induction false} TotalIs(c: Config, t: nat, r: nat)
    ensures 2 * Total(c, t, r) == c.inLoops * (2 * r * t + r * (r - 1))
  {
    if r > 0 {
      TotalIs(c, t, r - 1);
      TimesIs(c.inLoops, t + r - 1);
    }
  }

  lemma {:induction false} TimesIs(n: nat, x: int)
    ensures Times(n, x) == n * x
  {
    if n > 0 { TimesIs(n - 1, x); }
  }

  /** With the program's own constants: whatever the interleaving, thread `t` prints k + 1 + 10000 t + 45000. */
  lemma PrintedArrays(run: seq<State>, i: nat, t: nat, k: nat)
    requires var c := Config(5, 10, 1000, 6);
      IsRun(c, run) && i < |run| && |run[i].threads| == 5 && forall u :: 0 <= u < 5 ==> run[i].threads[u].pc == Done
    requires t < 5 && k < 6
    ensures |run[i].threads[t].arr| == 6 && run[i].threads[t].arr[k] == k + 1 + 10000 * t + 45000
  {
    var c := Config(5, 10, 1000, 6);
    FinalArrays(c, run, i);
    TotalIs(c, t, 10);
  }

  /** Being blocked is the only thing that keeps an unfinished thread from a step of its own. */
  lemma CanMove(c: Config, s: State, t: nat) returns (s': State)
    requires Inv(c, s) && t < c.threads && s.threads[t].pc != Done && !Blocked(s, t)
    ensures Step(c, s, t, s') && !SpuriousWakeup(s, t, s')
  {
    hide LocalOk, CounterOk;
    assert ArrayOk(c, t, s.threads[t]);
    var l := s.threads[t];
    match l.pc {
      case Enter => s' := Move(s, t, l.(pc := Arrive)).(owner := t);
      case Reacquire => s' := Move(s, t, l.(pc := Test)).(owner := t);
      case Arrive =>
        s' := if s.counter - 1 == 0
          then s.(threads := Woken(s.threads)[
            t := l.(pc := Unlock, cycle := s.cycle, status := -1, arrived := l.arrived + 1)],
                  cycle := !s.cycle, counter := c.threads, wakers := s.wakers + [t])
          else Move(s, t,
            l.(pc := Test, cycle := s.cycle, status := 0, arrived := l.arrived + 1)).(counter := s.counter - 1);
      case Test =>
        s' := if l.cycle == s.cycle then Move(s, t, l.(pc := Wait)).(owner := -1) else Move(s, t, l.(pc := Unlock));
      case Unlock =>
        s' := Move(s, t, if !l.second then l.(pc := Work(0, 0))
                         else if l.status == -1 then l.(pc := Serial(0)) else NextRound(c, l)).(owner := -1);
      case Work(i, n) =>
        s' := Move(s, t, if i >= c.inLoops then l.(pc := Enter, second := true)
                         else if n >= c.cells then l.(pc := Work(i + 1, 0))
                         else l.(pc := Work(i, n + 1), arr := l.arr[n := l.arr[n] + s.increments[t]]));
      case Serial(n) =>
        s' := if n < c.threads
          then Move(s, t, l.(pc := Serial(n + 1))).(increments := s.increments[n := s.increments[n] + 1])
          else Move(s, t, NextRound(c, l));
    }
  }
}
