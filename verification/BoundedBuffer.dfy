/** The two-condition-variable bounded buffer of threads-cv/main-two-cvs-while.c with the driver of
    threads-cv/main-common.c, as a transition system over any number of producers and consumers.

    One step is one statement of one thread between two synchronization points.  The scheduler, the
    choice of which waiter a signal wakes, and spurious wakeups are all nondeterministic. */
module BoundedBuffer {

  /** Command-line parameters: -p, -c, -l and -m. */
  datatype Config = Config(producers: nat, consumers: nat, loops: nat, max: nat)

  const EMPTY: int := -2
  const END_OF_STREAM: int := -1

  /** What goes through the buffer, told apart: value number `j` of producer `p`, or a marker. */
  datatype Item = Value(p: nat, j: nat) | Eos

  function Encode(c: Config, item: Item): int {
    match item
    case Value(p, j) => p * c.loops + j
    case Eos => END_OF_STREAM
  }

  datatype Pc = Lock | Check | Wait | Reacquire | Act | Signal | Unlock | JoinProducers | JoinConsumers | Done

  /** `i` is the thread's loop counter; `tmp` and `count` are a consumer's. */
  datatype Local = Local(pc: Pc, i: nat, tmp: int, count: nat)

  /** Thread `t` is a producer if t < producers, then come the consumers, and last main.
      `owner` is the thread holding the mutex, or -1.  `entered` and `left` record what do_fill has
      inserted and do_get returned; `failed` says that an `ensure` check has failed. */
  datatype State = State(buffer: seq<int>, fillPtr: nat, usePtr: nat, numFull: int, owner: int,
                         threads: seq<Local>, entered: seq<Item>, left: seq<int>, failed: bool)

  function Threads(c: Config): nat { c.producers + c.consumers + 1 }

  function Main(c: Config): nat { c.producers + c.consumers }

  predicate IsConsumer(c: Config, t: int) { c.producers <= t < c.producers + c.consumers }

  predicate Good(c: Config) { c.loops > 0 && c.max > 0 }

  // ---------- the transition system ----------

  ghost predicate Init(c: Config, s: State) {
    && s.buffer == seq(c.max, _ => EMPTY)
    && s.fillPtr == 0 && s.usePtr == 0 && s.numFull == 0 && s.owner == -1
    && |s.threads| == Threads(c)
    && (forall t :: 0 <= t < Main(c) ==> s.threads[t] == Local(Lock, 0, 0, 0))
    && s.threads[Main(c)] == Local(JoinProducers, 0, 0, 0)
    && s.entered == [] && s.left == [] && !s.failed
  }

  /** The pc after unlocking: the loop test of the thread, with its counter already advanced. */
  function AfterUnlock(c: Config, t: nat, l: Local): Local {
    if t < c.producers then
      Local(if l.i + 1 < c.loops then Lock else Done, l.i + 1, l.tmp, l.count)
    else if IsConsumer(c, t) then
      Local(if l.tmp != END_OF_STREAM then Lock else Done, l.i, l.tmp, l.count + 1)
    else if l.i + 1 < c.consumers then Local(Lock, l.i + 1, l.tmp, l.count)
    else Local(JoinConsumers, 0, l.tmp, l.count)
  }

  /** The item a producer or main is about to insert. */
  function NextItem(c: Config, t: nat, l: Local): Item {
    if t < c.producers then Value(t, l.i) else Eos
  }

  function Move(s: State, t: nat, l: Local): State
    requires t < |s.threads|
  {
    s.(threads := s.threads[t := l])
  }

  /** A thread waiting for `t` to signal: on `fill` if `t` inserts, on `empty` if `t` removes. */
  predicate WaitsFor(c: Config, s: State, t: nat, w: int) {
    0 <= w < |s.threads| && s.threads[w].pc == Wait && IsConsumer(c, w) != IsConsumer(c, t)
  }

  ghost predicate AcquireStep(s: State, t: nat, s': State)
    requires t < |s.threads|
  {
    && s.threads[t].pc in {Lock, Reacquire} && s.owner == -1
    && s' == Move(s, t, s.threads[t].(pc := Check)).(owner := t)
  }

  /** The test of the while loop: wait, atomically releasing the mutex, or go on. */
  ghost predicate CheckStep(c: Config, s: State, t: nat, s': State)
    requires t < |s.threads|
  {
    && s.threads[t].pc == Check
    && s' == if (if IsConsumer(c, t) then s.numFull == 0 else s.numFull == c.max)
             then Move(s, t, s.threads[t].(pc := Wait)).(owner := -1)
             else Move(s, t, s.threads[t].(pc := Act))
  }

  ghost predicate SpuriousWakeup(s: State, t: nat, s': State)
    requires t < |s.threads|
  {
    s.threads[t].pc == Wait && s' == Move(s, t, s.threads[t].(pc := Reacquire))
  }

  ghost predicate FillStep(c: Config, s: State, t: nat, s': State)
    requires t < |s.threads|
  {
    && s.threads[t].pc == Act && !IsConsumer(c, t) && s.fillPtr < |s.buffer|
    && var item := NextItem(c, t, s.threads[t]);
       s' == Move(s, t, s.threads[t].(pc := Signal)).(
         buffer := s.buffer[s.fillPtr := Encode(c, item)],
         fillPtr := (s.fillPtr + 1) % |s.buffer|,
         numFull := s.numFull + 1,
         entered := s.entered + [item],
         failed := s.failed || s.buffer[s.fillPtr] != EMPTY)
  }

  ghost predicate GetStep(c: Config, s: State, t: nat, s': State)
    requires t < |s.threads|
  {
    && s.threads[t].pc == Act && IsConsumer(c, t) && s.usePtr < |s.buffer|
    && s' == Move(s, t, s.threads[t].(pc := Signal, tmp := s.buffer[s.usePtr])).(
         buffer := s.buffer[s.usePtr := EMPTY],
         usePtr := (s.usePtr + 1) % |s.buffer|,
         numFull := s.numFull - 1,
         left := s.left + [s.buffer[s.usePtr]],
         failed := s.failed || s.buffer[s.usePtr] == EMPTY)
  }

  /** Cond_signal: wake one waiter, any one, if there is one. */
  ghost predicate SignalStep(c: Config, s: State, t: nat, w: int, s': State)
    requires t < |s.threads|
  {
    && s.threads[t].pc == Signal
    && if exists v :: WaitsFor(c, s, t, v)
       then WaitsFor(c, s, t, w)
         && s' == Move(Move(s, w, s.threads[w].(pc := Reacquire)), t, s.threads[t].(pc := Unlock))
       else s' == Move(s, t, s.threads[t].(pc := Unlock))
  }

  ghost predicate UnlockStep(c: Config, s: State, t: nat, s': State)
    requires t < |s.threads|
  {
    s.threads[t].pc == Unlock && s' == Move(s, t, AfterUnlock(c, t, s.threads[t])).(owner := -1)
  }

  /** main's two join loops */
  ghost predicate JoinStep(c: Config, s: State, t: nat, s': State)
    requires t < |s.threads| == Threads(c)
  {
    var l := s.threads[t];
    || (l.pc == JoinProducers && l.i < c.producers && s.threads[l.i].pc == Done && s' == Move(s, t, l.(i := l.i + 1)))
    || (l.pc == JoinProducers && l.i == c.producers
        && s' == Move(s, t, l.(pc := if c.consumers > 0 then Lock else JoinConsumers, i := 0)))
    || (l.pc == JoinConsumers && l.i < c.consumers && s.threads[c.producers + l.i].pc == Done
        && s' == Move(s, t, l.(i := l.i + 1)))
    || (l.pc == JoinConsumers && l.i == c.consumers && s' == Move(s, t, l.(pc := Done)))
  }

  ghost predicate Step(c: Config, s: State, t: nat, w: int, s': State)
    requires t < |s.threads| == Threads(c)
  {
    || AcquireStep(s, t, s') || CheckStep(c, s, t, s') || SpuriousWakeup(s, t, s')
    || FillStep(c, s, t, s') || GetStep(c, s, t, s') || SignalStep(c, s, t, w, s')
    || UnlockStep(c, s, t, s') || JoinStep(c, s, t, s')
  }

  ghost predicate Next(c: Config, s: State, s': State) {
    |s.threads| == Threads(c) && exists t: nat, w :: t < |s.threads| && Step(c, s, t, w, s')
  }

  ghost predicate NextAt(c: Config, run: seq<State>, i: int)
    requires 0 <= i && i + 1 < |run|
  {
    Next(c, run[i], run[i + 1])
  }

  ghost predicate IsRun(c: Config, run: seq<State>) {
    run != [] && Init(c, run[0]) && forall i :: 0 <= i < |run| - 1 ==> NextAt(c, run, i)
  }

  /** Cannot move until another thread does: waiting for the mutex, on a condition, or to join. */
  ghost predicate Blocked(c: Config, s: State, t: nat)
    requires t < |s.threads| == Threads(c)
  {
    var l := s.threads[t];
    || l.pc == Wait
    || (l.pc in {Lock, Reacquire} && s.owner != -1)
    || (l.pc == JoinProducers && l.i < c.producers && s.threads[l.i].pc != Done)
    || (l.pc == JoinConsumers && l.i < c.consumers && s.threads[c.producers + l.i].pc != Done)
  }

  // ---------- what every reachable state satisfies ----------

  predicate Holds(pc: Pc) { pc in {Check, Act, Signal, Unlock} }

  /** One thread's own state: it owns the mutex exactly inside its critical section, its counters are
      in range, and past its loop test the buffer has room, respectively something in it. */
  ghost predicate LocalOk(c: Config, numFull: int, owner: int, t: nat, l: Local) {
    && (Holds(l.pc) <==> owner == t)
    && (l.pc == Act ==> if IsConsumer(c, t) then numFull > 0 else numFull < c.max)
    && (t < c.producers ==>
          l.i <= c.loops && (l.pc == Done <==> l.i == c.loops) && l.pc !in {JoinProducers, JoinConsumers})
    && (IsConsumer(c, t) ==>
          && l.pc !in {JoinProducers, JoinConsumers}
          && (l.pc == Done ==> l.tmp == END_OF_STREAM)
          && (l.tmp == END_OF_STREAM ==> l.pc in {Signal, Unlock, Done}))
    && (t == Main(c) ==>
          if l.pc == JoinProducers then l.i <= c.producers
          else if l.pc in {JoinConsumers, Done} then l.i <= c.consumers
          else l.i < c.consumers)
  }

  /** What main's progress says about the threads it has joined. */
  ghost predicate Joined(c: Config, s: State)
    requires |s.threads| == Threads(c)
  {
    var m := s.threads[Main(c)];
    && (m.pc == JoinProducers ==> forall t :: 0 <= t < m.i && t < c.producers ==> s.threads[t].pc == Done)
    && (m.pc != JoinProducers ==> forall t :: 0 <= t < c.producers ==> s.threads[t].pc == Done)
    && (m.pc == JoinConsumers ==>
      forall t :: c.producers <= t < c.producers + m.i && t < Main(c) ==> s.threads[t].pc == Done)
    && (m.pc == Done ==> forall t :: c.producers <= t < Main(c) ==> s.threads[t].pc == Done)
  }

  ghost predicate Shape(c: Config, s: State) {
    && Good(c) && |s.threads| == Threads(c) && |s.buffer| == c.max
    && s.fillPtr < c.max && s.usePtr < c.max && 0 <= s.numFull <= c.max
    && -1 <= s.owner < Threads(c)
    && LocalsOk(c, s)
    && Joined(c, s)
  }

  ghost predicate LocalsOk(c: Config, s: State) {
    |s.threads| == Threads(c)
    && forall t :: 0 <= t < Threads(c) ==> LocalOk(c, s.numFull, s.owner, t, s.threads[t])
  }

  /** Slot `k` places after `use`, round the ring. */
  function Slot(c: Config, use: nat, k: nat): int {
    if use + k < c.max then use + k else use + k - c.max
  }

  /** The ring holds, in order, exactly the items that have entered and not left; and what has left is
      what entered, in the same order. */
  ghost predicate Queue(c: Config, s: State)
    requires Shape(c, s)
  {
    && |s.entered| == |s.left| + s.numFull
    && (forall k :: 0 <= k < |s.left| ==> s.left[k] == Encode(c, s.entered[k]))
    && s.fillPtr == Slot(c, s.usePtr, s.numFull)
    && (forall k :: 0 <= k < c.max ==> s.buffer[Slot(c, s.usePtr, k)] == InSlot(c, s, k))
    && !s.failed
  }

  /** What should be `k` places behind the oldest item. */
  ghost function InSlot(c: Config, s: State, k: nat): int
    requires 0 <= s.numFull && |s.entered| == |s.left| + s.numFull
  {
    if k < s.numFull then Encode(c, s.entered[|s.left| + k]) else EMPTY
  }

  // ---------- counting threads ----------

  /** What is counted: waiters on a condition; threads about to look at the buffer again or about to
      signal that condition; items inserted and removed; markers inserted and removed. */
  datatype Kind = WaitEmpty | PendEmpty | WaitFill | PendFill | Inserted | Removed | EosIn | EosOut

  function Weight(c: Config, k: Kind, t: nat, l: Local): nat {
    match k
    case WaitEmpty => if !IsConsumer(c, t) && l.pc == Wait then 1 else 0
    case WaitFill => if IsConsumer(c, t) && l.pc == Wait then 1 else 0
    case PendEmpty => if (if IsConsumer(c, t) then l.pc == Signal else l.pc in {Reacquire, Check, Act}) then 1 else 0
    case PendFill => if (if IsConsumer(c, t) then l.pc in {Reacquire, Check, Act} else l.pc == Signal) then 1 else 0
    case Inserted => if t < c.producers then l.i + Doing(l) else MarkersBy(c, t, l)
    case Removed => if IsConsumer(c, t) then l.count + Doing(l) else 0
    case EosIn => MarkersBy(c, t, l)
    case EosOut => if IsConsumer(c, t) && l.tmp == END_OF_STREAM then 1 else 0
  }

  /** How many END_OF_STREAM markers main has inserted. */
  function MarkersBy(c: Config, t: nat, l: Local): nat {
    if t != Main(c) || l.pc == JoinProducers then 0
    else if l.pc in {JoinConsumers, Done} then c.consumers
    else l.i + Doing(l)
  }

  /** An item moved but not yet counted by the loop. */
  function Doing(l: Local): nat { if l.pc in {Signal, Unlock} then 1 else 0 }

  function Tally(c: Config, k: Kind, ts: seq<Local>): nat {
    if ts == [] then 0 else Tally(c, k, ts[..|ts| - 1]) + Weight(c, k, |ts| - 1, ts[|ts| - 1])
  }

  lemma {:induction false} TallyMove(c: Config, k: Kind, ts: seq<Local>, t: nat, l: Local)
    requires t < |ts|
    ensures Tally(c, k, ts[t := l]) == Tally(c, k, ts) - Weight(c, k, t, ts[t]) + Weight(c, k, t, l)
  {
    var n := |ts| - 1;
    if t == n {
      assert ts[t := l][..n] == ts[..n];
    } else {
      TallyMove(c, k, ts[..n], t, l);
      assert ts[t := l][..n] == ts[..n][t := l];
    }
  }

  lemma {:induction false} TallyPositive(c: Config, k: Kind, ts: seq<Local>, t: nat)
    requires t < |ts|
    ensures Tally(c, k, ts) >= Weight(c, k, t, ts[t])
  {
    if t < |ts| - 1 { TallyPositive(c, k, ts[..|ts| - 1], t); }
  }

  lemma {:induction false} TallyZero(c: Config, k: Kind, ts: seq<Local>)
    requires forall t :: 0 <= t < |ts| ==> Weight(c, k, t, ts[t]) == 0
    ensures Tally(c, k, ts) == 0
  {
    if ts != [] { TallyZero(c, k, ts[..|ts| - 1]); }
  }

  ghost function Markers(items: seq<Item>): nat {
    if items == [] then 0 else Markers(items[..|items| - 1]) + (if items[|items| - 1].Eos? then 1 else 0)
  }

  /** The items that have left. */
  ghost function Gone(s: State): seq<Item> {
    if |s.left| <= |s.entered| then s.entered[..|s.left|] else s.entered
  }

  /** No wakeup is ever lost, and every insertion, removal and marker is accounted for. */
  ghost predicate Counts(c: Config, s: State) {
    && (Tally(c, WaitEmpty, s.threads) > 0 ==> c.max - s.numFull <= Tally(c, PendEmpty, s.threads))
    && (Tally(c, WaitFill, s.threads) > 0 ==> s.numFull <= Tally(c, PendFill, s.threads))
    && |s.entered| == Tally(c, Inserted, s.threads)
    && |s.left| == Tally(c, Removed, s.threads)
    && Markers(s.entered) == Tally(c, EosIn, s.threads)
    && Markers(Gone(s)) == Tally(c, EosOut, s.threads)
  }

  /** How many values a producer has inserted. */
  function Produced(l: Local): nat { l.i + Doing(l) }

  /** What has entered: each producer's values so far, each once, and after them only markers. */
  ghost predicate History(c: Config, s: State)
    requires |s.threads| == Threads(c)
  {
    && (forall k :: 0 <= k < |s.entered| ==> Legit(c, s, s.entered[k]))
    && (forall p, j :: 0 <= p < c.producers && 0 <= j < Produced(s.threads[p]) ==> Value(p, j) in s.entered)
    && (forall k, m :: 0 <= k < m < |s.entered| ==> s.entered[k] != s.entered[m] || s.entered[k].Eos?)
    && (forall k, m :: 0 <= k < m < |s.entered| && s.entered[k].Eos? ==> s.entered[m].Eos?)
  }

  ghost predicate Legit(c: Config, s: State, item: Item)
    requires |s.threads| == Threads(c)
  {
    match item
    case Value(p, j) => p < c.producers && j < Produced(s.threads[p])
    case Eos => s.threads[Main(c)].pc != JoinProducers
  }

  ghost predicate Inv(c: Config, s: State) {
    Shape(c, s) && Queue(c, s) && Counts(c, s) && History(c, s)
  }
}
