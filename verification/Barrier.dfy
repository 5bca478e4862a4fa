/** The reusable barrier of Programming.With.POSIX.Threads/src/barrier.c and its use in barrier_main.c, as
    a transition system of exactly `threads` participants.

    One step is one statement between synchronization points, or one array or increment update.  The
    scheduler and spurious wakeups are nondeterministic; pthread calls succeed. */
module Barrier {

  /** THREADS (also the barrier's threshold), OUTLOOPS, INLOOPS and ARRAY. */
  datatype Config = Config(threads: nat, rounds: nat, inLoops: nat, cells: nat)

  /** Enter: about to lock in barrier_wait.  Arrive: holding the mutex, about to decrement.  Test: at the
      while test.  Unlock: about to unlock and return.  Work and Serial: the code between the waits. */
  datatype Pc =
    | Enter | Arrive | Test | Wait | Reacquire | Unlock
    | Work(inLoop: nat, count: nat) | Serial(next: nat) | Done

  /** `second` tells which of the two waits of its round the thread is at; `arrived` counts its
      decrements of the barrier's counter so far. */
  datatype Thread = Thread(pc: Pc, cycle: bool, status: int, outLoop: nat, second: bool, arr: seq<int>, arrived: nat)

  /** `owner` is the thread holding the mutex, or -1; `wakers` records who completed each round. */
  datatype State = State(counter: int, cycle: bool, owner: int,
    threads: seq<Thread>, increments: seq<int>, wakers: seq<nat>)

  ghost predicate Init(c: Config, s: State) {
    && s.counter == c.threads && !s.cycle && s.owner == -1 && s.wakers == []
    && |s.threads| == |s.increments| == c.threads
    && forall t :: 0 <= t < c.threads ==>
      s.increments[t] == t
        && s.threads[t] == Thread(if c.rounds > 0 then Enter else Done, false, 0, 0, false, Fresh(c), 0)
  }

  function Fresh(c: Config): (a: seq<int>)
    ensures |a| == c.cells && forall k :: 0 <= k < c.cells ==> a[k] == k + 1
  {
    seq(c.cells, k => k + 1)
  }

  function Move(s: State, t: nat, l: Thread): State
    requires t < |s.threads|
  {
    s.(threads := s.threads[t := l])
  }

  ghost predicate AcquireStep(s: State, t: nat, s': State)
    requires t < |s.threads|
  {
    && s.threads[t].pc in {Enter, Reacquire} && s.owner == -1
    && s' == Move(s, t, s.threads[t].(pc := if s.threads[t].pc == Enter then Arrive else Test)).(owner := t)
  }

  /** Every waiter, after a broadcast. */
  function Woken(ts: seq<Thread>): (r: seq<Thread>)
    ensures |r| == |ts|
    ensures forall u :: 0 <= u < |ts| ==> r[u] == if ts[u].pc == Wait then ts[u].(pc := Reacquire) else ts[u]
  {
    seq(|ts|, u requires 0 <= u < |ts| => if ts[u].pc == Wait then ts[u].(pc := Reacquire) else ts[u])
  }

  /** Remember the cycle and count down: the last to arrive toggles, resets and broadcasts. */
  ghost predicate ArriveStep(c: Config, s: State, t: nat, s': State)
    requires t < |s.threads|
  {
    var l := s.threads[t];
    && l.pc == Arrive
    && if s.counter - 1 == 0
       then s' == s.(threads := Woken(s.threads)[
         t := l.(pc := Unlock, cycle := s.cycle, status := -1, arrived := l.arrived + 1)],
                     cycle := !s.cycle, counter := c.threads, wakers := s.wakers + [t])
       else s' == Move(s, t,
         l.(pc := Test, cycle := s.cycle, status := 0, arrived := l.arrived + 1)).(counter := s.counter - 1)
  }

  ghost predicate TestStep(s: State, t: nat, s': State)
    requires t < |s.threads|
  {
    && s.threads[t].pc == Test
    && s' == if s.threads[t].cycle == s.cycle then Move(s, t, s.threads[t].(pc := Wait)).(owner := -1)
             else Move(s, t, s.threads[t].(pc := Unlock))
  }

  ghost predicate SpuriousWakeup(s: State, t: nat, s': State)
    requires t < |s.threads|
  {
    s.threads[t].pc == Wait && s' == Move(s, t, s.threads[t].(pc := Reacquire))
  }

  /** On to the next round of the outer loop, or out of it. */
  function NextRound(c: Config, l: Thread): Thread {
    l.(pc := if l.outLoop + 1 < c.rounds then Enter else Done, second := false, outLoop := l.outLoop + 1)
  }

  /** Unlock, return from barrier_wait, and go to the code that follows. */
  ghost predicate ReturnStep(c: Config, s: State, t: nat, s': State)
    requires t < |s.threads|
  {
    var l := s.threads[t];
    && l.pc == Unlock
    && s' == Move(s, t, if !l.second then l.(pc := Work(0, 0))
                        else if l.status == -1 then l.(pc := Serial(0))
                        else NextRound(c, l)).(owner := -1)
  }

  /** One turn of the inner loops, or leaving them for the second wait. */
  ghost predicate WorkStep(c: Config, s: State, t: nat, s': State)
    requires t < |s.threads|
  {
    var l := s.threads[t];
    && l.pc.Work?
    && |l.arr| == c.cells && t < |s.increments|
    && s' == Move(s, t,
         if l.pc.inLoop >= c.inLoops then l.(pc := Enter, second := true)
         else if l.pc.count >= c.cells then l.(pc := Work(l.pc.inLoop + 1, 0))
         else l.(pc := Work(l.pc.inLoop, l.pc.count + 1),
                 arr := l.arr[l.pc.count := l.arr[l.pc.count] + s.increments[t]]))
  }

  /** One turn of the serial loop, or leaving it for the next round. */
  ghost predicate SerialStep(c: Config, s: State, t: nat, s': State)
    requires t < |s.threads|
  {
    var l := s.threads[t];
    && l.pc.Serial?
    && if l.pc.next < c.threads
       then l.pc.next < |s.increments|
         && s' == Move(s, t,
           l.(pc := Serial(l.pc.next + 1))).(increments := s.increments[l.pc.next := s.increments[l.pc.next] + 1])
       else s' == Move(s, t, NextRound(c, l))
  }

  ghost predicate Step(c: Config, s: State, t: nat, s': State) {
    t < |s.threads| &&
    (|| AcquireStep(s, t, s') || ArriveStep(c, s, t, s') || TestStep(s, t, s') || SpuriousWakeup(s, t, s')
     || ReturnStep(c, s, t, s') || WorkStep(c, s, t, s') || SerialStep(c, s, t, s'))
  }

  ghost predicate Next(c: Config, s: State, s': State) {
    exists t: nat :: Step(c, s, t, s')
  }

  ghost predicate NextAt(c: Config, run: seq<State>, i: int)
    requires 0 <= i && i + 1 < |run|
  {
    Next(c, run[i], run[i + 1])
  }

  ghost predicate IsRun(c: Config, run: seq<State>) {
    run != [] && Init(c, run[0]) && forall i :: 0 <= i < |run| - 1 ==> NextAt(c, run, i)
  }

  ghost predicate Blocked(s: State, t: nat)
    requires t < |s.threads|
  {
    s.threads[t].pc == Wait || (s.threads[t].pc in {Enter, Reacquire} && s.owner != -1)
  }

  // ---------- what every reachable state satisfies ----------

  predicate Holds(pc: Pc) { pc in {Arrive, Test, Unlock} }

  predicate Odd(n: nat) { n % 2 == 1 }

  /** Calls to barrier_wait completed before the current one. */
  function Before(l: Thread): nat { 2 * l.outLoop + (if l.second then 1 else 0) }

  /** One thread, `rounds` barrier rounds having been completed so far. */
  ghost predicate LocalOk(c: Config, s: State, t: nat)
    requires t < |s.threads|
  {
    var l, r := s.threads[t], |s.wakers|;
    && (Holds(l.pc) <==> s.owner == t)
    && (l.pc in {Test, Wait, Reacquire} ==> (l.arrived == r || l.arrived == r + 1) && l.cycle == !Odd(l.arrived))
    && (l.pc == Wait ==> l.arrived == r + 1)
    && (l.pc !in {Test, Wait, Reacquire} ==> l.arrived == r)
    && l.arrived == Before(l) + (if l.pc in {Enter, Arrive, Done} then 0 else 1)
    && (l.pc == Done <==> l.outLoop == c.rounds) && l.outLoop <= c.rounds
    && (l.pc == Done || l.pc.Work? ==> !l.second)
    && (l.pc.Serial? ==>
      l.second && l.arrived > 0 && l.arrived <= r && s.wakers[l.arrived - 1] == t && l.pc.next <= c.threads)
    && (l.pc in {Test, Wait, Reacquire} ==> l.status == 0)
    && (l.pc in {Test, Wait, Reacquire} && l.arrived == r ==> s.wakers[r - 1] != t)
    && (l.pc == Unlock ==>
      l.arrived > 0 && (l.status == -1 <==> s.wakers[l.arrived - 1] == t) && (l.status == -1 || l.status == 0))
  }

  ghost predicate LocalsOk(c: Config, s: State) {
    |s.threads| == c.threads && forall t :: 0 <= t < c.threads ==> LocalOk(c, s, t)
  }

  /** How many threads have arrived in round number `n`. */
  function ArrivedIn(ts: seq<Thread>, n: nat): nat {
    if ts == [] then 0 else ArrivedIn(ts[..|ts| - 1], n) + (if ts[|ts| - 1].arrived == n then 1 else 0)
  }

  ghost predicate CounterOk(c: Config, s: State) {
    && s.cycle == Odd(|s.wakers|)
    && 1 <= s.counter
    && s.counter == c.threads - ArrivedIn(s.threads, |s.wakers| + 1)
  }

  /** How far the serial section after the latest round has got. */
  function SerialProgress(c: Config, pc: Pc): nat {
    match pc
    case Unlock => 0
    case Serial(n) => n
    case _ => c.threads
  }

  /** Every increment has been raised once for each completed even round, except where the thread in
      charge of the latest one is still on its way. */
  ghost predicate IncrementsOk(c: Config, s: State) {
    var r := |s.wakers|;
    && |s.increments| == |s.threads| == c.threads
    && (r > 0 ==> s.wakers[r - 1] < c.threads)
    && forall k :: 0 <= k < c.threads ==> s.increments[k] == k + r / 2 - (if k < Finished(c, s) then 0 else 1)
  }

  /** How many increments already count the latest even round. */
  ghost function Finished(c: Config, s: State): nat
    requires |s.wakers| > 0 ==> s.wakers[|s.wakers| - 1] < |s.threads|
  {
    var r := |s.wakers|;
    if Odd(r) || r == 0 then c.threads else SerialProgress(c, s.threads[s.wakers[r - 1]].pc)
  }

  /** x added to itself n times. */
  function Times(n: nat, x: int): int { if n == 0 then 0 else Times(n - 1, x) + x }

  /** What thread `t` adds to each cell in its first `r` rounds. */
  function Total(c: Config, t: nat, r: nat): int {
    if r == 0 then 0 else Total(c, t, r - 1) + Times(c.inLoops, t + r - 1)
  }

  /** Cell `k` of thread `t`, from how far the thread has got. */
  function Cell(c: Config, t: nat, l: Thread, k: nat): int {
    k + 1 + match l.pc
      case Work(i, n) => Total(c, t, l.outLoop) + Times(i, t + l.outLoop) + (if k < n then t + l.outLoop else 0)
      case _ => Total(c, t, if l.second then l.outLoop + 1 else l.outLoop)
  }

  ghost predicate ArrayOk(c: Config, t: nat, l: Thread) {
    && |l.arr| == c.cells
    && (l.pc.Work? ==>
      l.pc.inLoop <= c.inLoops && l.pc.count <= c.cells && (l.pc.inLoop == c.inLoops ==> l.pc.count == 0))
    && forall k :: 0 <= k < c.cells ==> l.arr[k] == Cell(c, t, l, k)
  }

  ghost predicate ArraysOk(c: Config, s: State) {
    |s.threads| == c.threads && forall t :: 0 <= t < c.threads ==> ArrayOk(c, t, s.threads[t])
  }

  ghost predicate Inv(c: Config, s: State) {
    && c.threads > 0 && -1 <= s.owner < c.threads
    && LocalsOk(c, s) && CounterOk(c, s) && IncrementsOk(c, s) && ArraysOk(c, s)
  }
}
