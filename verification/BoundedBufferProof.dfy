/** The bounded buffer's invariant holds in every reachable state, and what follows from it. */
module BoundedBufferProof {
  import opened BoundedBuffer

  ghost predicate Moved(c: Config, k: Kind, ts: seq<Local>, t: nat, l: Local)
    requires t < |ts|
  {
    Tally(c, k, ts[t := l]) == Tally(c, k, ts) - Weight(c, k, t, ts[t]) + Weight(c, k, t, l)
  }

  lemma TallyMoveAll(c: Config, ts: seq<Local>, t: nat, l: Local)
    requires t < |ts|
    ensures Moved(c, WaitEmpty, ts, t, l)
    ensures Moved(c, PendEmpty, ts, t, l)
    ensures Moved(c, WaitFill, ts, t, l)
    ensures Moved(c, PendFill, ts, t, l)
    ensures Moved(c, Inserted, ts, t, l)
    ensures Moved(c, Removed, ts, t, l)
    ensures Moved(c, EosIn, ts, t, l)
    ensures Moved(c, EosOut, ts, t, l)
  {
    TallyMove(c, WaitEmpty, ts, t, l);
    TallyMove(c, PendEmpty, ts, t, l);
    TallyMove(c, WaitFill, ts, t, l);
    TallyMove(c, PendFill, ts, t, l);
    TallyMove(c, Inserted, ts, t, l);
    TallyMove(c, Removed, ts, t, l);
    TallyMove(c, EosIn, ts, t, l);
    TallyMove(c, EosOut, ts, t, l);
  }

  lemma {:induction false} InitTally(c: Config, ts: seq<Local>, k: Kind)
    requires |ts| <= Threads(c)
    requires forall t :: 0 <= t < |ts| ==>
      ts[t] == if t == Main(c) then Local(JoinProducers, 0, 0, 0) else Local(Lock, 0, 0, 0)
    ensures Tally(c, k, ts) == 0
  {
    if ts != [] { InitTally(c, ts[..|ts| - 1], k); }
  }

  lemma InitInv(c: Config, s: State)
    requires Good(c) && Init(c, s)
    ensures Inv(c, s)
  {
    forall k: Kind ensures Tally(c, k, s.threads) == 0 { InitTally(c, s.threads, k); }
    assert forall k :: 0 <= k < c.max ==> Slot(c, 0, k) == k;
  }

  // ---------- steps that leave the buffer alone ----------

  /** Thread `t` changes only its pc, and no counter that matters to the history. */
  ghost predicate Quiet(c: Config, s: State, s': State) {
    && |s.threads| == |s'.threads| == Threads(c)
    && s'.buffer == s.buffer && s'.fillPtr == s.fillPtr && s'.usePtr == s.usePtr && s'.numFull == s.numFull
    && s'.entered == s.entered && s'.left == s.left && s'.failed == s.failed
    && (forall p :: 0 <= p < c.producers ==> Produced(s'.threads[p]) == Produced(s.threads[p]))
    && (s.threads[Main(c)].pc != JoinProducers ==> s'.threads[Main(c)].pc != JoinProducers)
  }

  lemma QuietKeeps(c: Config, s: State, s': State)
    requires Shape(c, s) && Queue(c, s) && History(c, s) && Quiet(c, s, s') && Shape(c, s')
    ensures Queue(c, s') && History(c, s')
  {
    forall k | 0 <= k < |s'.entered| ensures Legit(c, s', s'.entered[k]) { assert Legit(c, s, s.entered[k]); }
  }

  lemma AcquireCounts(c: Config, s: State, t: nat, s': State)
    requires Counts(c, s) && t < |s.threads| == Threads(c) && AcquireStep(s, t, s')
    requires LocalOk(c, s.numFull, s.owner, t, s.threads[t])
    ensures Counts(c, s')
  {
    hide Tally, Markers;
    TallyMoveAll(c, s.threads, t, s'.threads[t]);
  }

  lemma AcquireKeeps(c: Config, s: State, t: nat, s': State)
    requires Inv(c, s) && t < Threads(c) && AcquireStep(s, t, s')
    ensures Inv(c, s')
  {
    hide Queue, Counts, History, Tally, Markers;
    assert LocalOk(c, s.numFull, s.owner, t, s.threads[t]);
    AcquireCounts(c, s, t, s');
    forall u | 0 <= u < Threads(c) ensures LocalOk(c, s'.numFull, s'.owner, u, s'.threads[u]) {
      assert LocalOk(c, s.numFull, s.owner, u, s.threads[u]);
    }
    QuietKeeps(c, s, s');
  }

  lemma CheckCounts(c: Config, s: State, t: nat, s': State)
    requires Counts(c, s) && t < |s.threads| == Threads(c) && CheckStep(c, s, t, s')
    requires LocalOk(c, s.numFull, s.owner, t, s.threads[t])
    ensures Counts(c, s')
  {
    hide Tally, Markers;
    TallyMoveAll(c, s.threads, t, s'.threads[t]);
  }

  lemma CheckLocals(c: Config, s: State, t: nat, s': State)
    requires LocalsOk(c, s) && 0 <= s.numFull <= c.max && t < Threads(c) && CheckStep(c, s, t, s')
    ensures LocalsOk(c, s') && Quiet(c, s, s')
  {
    forall u | 0 <= u < Threads(c) ensures LocalOk(c, s'.numFull, s'.owner, u, s'.threads[u]) {
      assert LocalOk(c, s.numFull, s.owner, u, s.threads[u]);
    }
  }

  lemma CheckShape(c: Config, s: State, t: nat, s': State)
    requires Shape(c, s) && t < Threads(c) && CheckStep(c, s, t, s')
    ensures Shape(c, s') && Quiet(c, s, s')
  {
    hide LocalsOk, Quiet;
    CheckLocals(c, s, t, s');
  }

  lemma CheckKeeps(c: Config, s: State, t: nat, s': State)
    requires Inv(c, s) && t < Threads(c) && CheckStep(c, s, t, s')
    ensures Inv(c, s')
  {
    hide Queue, Counts, History, Tally, Markers, CheckStep;
    assert LocalOk(c, s.numFull, s.owner, t, s.threads[t]);
    CheckCounts(c, s, t, s');
    CheckShape(c, s, t, s');
    QuietKeeps(c, s, s');
  }

  lemma WakeCounts(c: Config, s: State, t: nat, s': State)
    requires Counts(c, s) && t < |s.threads| == Threads(c) && SpuriousWakeup(s, t, s')
    requires LocalOk(c, s.numFull, s.owner, t, s.threads[t])
    ensures Counts(c, s')
  {
    hide Tally, Markers;
    TallyMoveAll(c, s.threads, t, s'.threads[t]);
  }

  lemma WakeKeeps(c: Config, s: State, t: nat, s': State)
    requires Inv(c, s) && t < Threads(c) && SpuriousWakeup(s, t, s')
    ensures Inv(c, s')
  {
    hide Queue, Counts, History, Tally, Markers;
    assert LocalOk(c, s.numFull, s.owner, t, s.threads[t]);
    WakeCounts(c, s, t, s');
    forall u | 0 <= u < Threads(c) ensures LocalOk(c, s'.numFull, s'.owner, u, s'.threads[u]) {
      assert LocalOk(c, s.numFull, s.owner, u, s.threads[u]);
    }
    QuietKeeps(c, s, s');
  }

  lemma JoinCounts(c: Config, s: State, t: nat, s': State)
    requires Counts(c, s) && t < |s.threads| == Threads(c) && JoinStep(c, s, t, s')
    requires LocalOk(c, s.numFull, s.owner, t, s.threads[t])
    ensures Counts(c, s')
  {
    hide Tally, Markers;
    TallyMoveAll(c, s.threads, t, s'.threads[t]);
  }

  lemma JoinLocals(c: Config, s: State, t: nat, s': State)
    requires LocalsOk(c, s) && t < Threads(c) && JoinStep(c, s, t, s')
    ensures LocalsOk(c, s') && Quiet(c, s, s')
  {
    forall u | 0 <= u < Threads(c) ensures LocalOk(c, s'.numFull, s'.owner, u, s'.threads[u]) {
      assert LocalOk(c, s.numFull, s.owner, u, s.threads[u]);
    }
  }

  lemma JoinShape(c: Config, s: State, t: nat, s': State)
    requires Shape(c, s) && t < Threads(c) && JoinStep(c, s, t, s')
    ensures Shape(c, s') && Quiet(c, s, s')
  {
    hide LocalsOk, Quiet;
    JoinLocals(c, s, t, s');
  }

  lemma JoinKeeps(c: Config, s: State, t: nat, s': State)
    requires Inv(c, s) && t < Threads(c) && JoinStep(c, s, t, s')
    ensures Inv(c, s')
  {
    hide Queue, Counts, History, Tally, Markers, JoinStep;
    assert LocalOk(c, s.numFull, s.owner, t, s.threads[t]);
    JoinCounts(c, s, t, s');
    JoinShape(c, s, t, s');
    QuietKeeps(c, s, s');
  }

  lemma UnlockCounts(c: Config, s: State, t: nat, s': State)
    requires Counts(c, s) && t < |s.threads| == Threads(c) && UnlockStep(c, s, t, s')
    requires LocalOk(c, s.numFull, s.owner, t, s.threads[t])
    ensures Counts(c, s')
  {
    hide Tally, Markers;
    TallyMoveAll(c, s.threads, t, s'.threads[t]);
  }

  lemma UnlockKeeps(c: Config, s: State, t: nat, s': State)
    requires Inv(c, s) && t < Threads(c) && UnlockStep(c, s, t, s')
    ensures Inv(c, s')
  {
    hide Queue, Counts, History, Tally, Markers;
    assert LocalOk(c, s.numFull, s.owner, t, s.threads[t]);
    UnlockCounts(c, s, t, s');
    forall u | 0 <= u < Threads(c) ensures LocalOk(c, s'.numFull, s'.owner, u, s'.threads[u]) {
      assert LocalOk(c, s.numFull, s.owner, u, s.threads[u]);
    }
    QuietKeeps(c, s, s');
  }

  /** A signal with nobody waiting: then there is nothing to lose. */
  lemma SignalNobodyCounts(c: Config, s: State, t: nat, s': State)
    requires Counts(c, s) && t < |s.threads| == Threads(c) && s.threads[t].pc == Signal
    requires LocalOk(c, s.numFull, s.owner, t, s.threads[t])
    requires (forall v :: !WaitsFor(c, s, t, v)) && s' == Move(s, t, s.threads[t].(pc := Unlock))
    ensures Counts(c, s')
  {
    hide Tally, Markers;
    TallyMoveAll(c, s.threads, t, s'.threads[t]);
    var k := if IsConsumer(c, t) then WaitEmpty else WaitFill;
    forall v | 0 <= v < |s.threads| ensures Weight(c, k, v, s.threads[v]) == 0 {
      assert !WaitsFor(c, s, t, v);
    }
    TallyZero(c, k, s.threads);
  }

  lemma SignalSomebodyCounts(c: Config, s: State, t: nat, w: nat, s': State)
    requires Counts(c, s) && t < |s.threads| == Threads(c) && s.threads[t].pc == Signal
    requires LocalOk(c, s.numFull, s.owner, t, s.threads[t]) && WaitsFor(c, s, t, w)
    requires s' == Move(Move(s, w, s.threads[w].(pc := Reacquire)), t, s.threads[t].(pc := Unlock))
    ensures Counts(c, s')
  {
    hide Tally, Markers;
    var mid := s.threads[w := s.threads[w].(pc := Reacquire)];
    TallyMoveAll(c, s.threads, w, mid[w]);
    TallyMoveAll(c, mid, t, s'.threads[t]);
  }

  /** Wherever the signal goes, the threads' own states stay in order. */
  lemma SignalLocals(c: Config, s: State, t: nat, w: int, s': State)
    requires LocalsOk(c, s) && t < Threads(c) && SignalStep(c, s, t, w, s')
    ensures LocalsOk(c, s') && Quiet(c, s, s')
  {
    forall u | 0 <= u < Threads(c) ensures LocalOk(c, s'.numFull, s'.owner, u, s'.threads[u]) {
      assert LocalOk(c, s.numFull, s.owner, u, s.threads[u]);
    }
  }

  lemma SignalShape(c: Config, s: State, t: nat, w: int, s': State)
    requires Shape(c, s) && t < Threads(c) && SignalStep(c, s, t, w, s')
    ensures Shape(c, s') && Quiet(c, s, s')
  {
    hide LocalsOk, Quiet;
    SignalLocals(c, s, t, w, s');
  }

  lemma SignalCounts(c: Config, s: State, t: nat, w: int, s': State)
    requires Counts(c, s) && t < |s.threads| == Threads(c) && SignalStep(c, s, t, w, s')
    requires LocalOk(c, s.numFull, s.owner, t, s.threads[t])
    ensures Counts(c, s')
  {
    if exists v :: WaitsFor(c, s, t, v) {
      SignalSomebodyCounts(c, s, t, w, s');
    } else {
      SignalNobodyCounts(c, s, t, s');
    }
  }

  lemma SignalKeeps(c: Config, s: State, t: nat, w: int, s': State)
    requires Inv(c, s) && t < Threads(c) && SignalStep(c, s, t, w, s')
    ensures Inv(c, s')
  {
    hide Queue, Counts, History, Tally, Markers, SignalStep;
    assert LocalOk(c, s.numFull, s.owner, t, s.threads[t]);
    SignalCounts(c, s, t, w, s');
    SignalShape(c, s, t, w, s');
    QuietKeeps(c, s, s');
  }

  // ---------- steps that move an item ----------

  lemma RingNext(p: nat, n: nat)
    requires p < n
    ensures (p + 1) % n == if p + 1 == n then 0 else p + 1
  {
  }

  lemma EncodeIs(c: Config, item: Item)
    ensures Encode(c, item) != EMPTY && (Encode(c, item) == END_OF_STREAM <==> item.Eos?)
  {
  }

  lemma FillQueue(c: Config, s: State, t: nat, s': State)
    requires Shape(c, s) && Queue(c, s) && t < Threads(c) && FillStep(c, s, t, s') && Shape(c, s')
    ensures Queue(c, s')
  {
    assert LocalOk(c, s.numFull, s.owner, t, s.threads[t]);
    RingNext(s.fillPtr, c.max);
    assert s.buffer[Slot(c, s.usePtr, s.numFull)] == InSlot(c, s, s.numFull);
    forall k | 0 <= k < c.max ensures s'.buffer[Slot(c, s'.usePtr, k)] == InSlot(c, s', k) {
      assert s.buffer[Slot(c, s.usePtr, k)] == InSlot(c, s, k);
    }
  }

  lemma FillShape(c: Config, s: State, t: nat, s': State)
    requires Shape(c, s) && t < Threads(c) && FillStep(c, s, t, s')
    ensures Shape(c, s')
  {
    forall u | 0 <= u < Threads(c) ensures LocalOk(c, s'.numFull, s'.owner, u, s'.threads[u]) {
      assert LocalOk(c, s.numFull, s.owner, u, s.threads[u]) && LocalOk(c, s.numFull, s.owner, t, s.threads[t]);
    }
  }

  lemma MarkersAdd(items: seq<Item>, item: Item)
    ensures Markers(items + [item]) == Markers(items) + (if item.Eos? then 1 else 0)
  {
    assert (items + [item])[..|items|] == items;
  }

  lemma FillCounts(c: Config, s: State, t: nat, s': State)
    requires |s.left| <= |s.entered| && Counts(c, s) && t < |s.threads| == Threads(c) && FillStep(c, s, t, s')
    requires LocalOk(c, s.numFull, s.owner, t, s.threads[t])
    ensures Counts(c, s')
  {
    hide Tally, Markers;
    TallyMoveAll(c, s.threads, t, s'.threads[t]);
    MarkersAdd(s.entered, NextItem(c, t, s.threads[t]));
    assert Gone(s') == Gone(s);
  }

  lemma FillHistory(c: Config, s: State, t: nat, s': State)
    requires Shape(c, s) && History(c, s) && t < Threads(c) && FillStep(c, s, t, s')
    ensures History(c, s')
  {
    assert LocalOk(c, s.numFull, s.owner, t, s.threads[t]);
    var item := NextItem(c, t, s.threads[t]);
    forall k | 0 <= k < |s'.entered| ensures Legit(c, s', s'.entered[k]) {
      if k < |s.entered| { assert Legit(c, s, s.entered[k]); }
    }
    forall k | 0 <= k < |s.entered| ensures s.entered[k] != item || item.Eos? {
      assert Legit(c, s, s.entered[k]);
    }
    forall k | 0 <= k < |s.entered| && s.entered[k].Eos? ensures item.Eos? {
      assert Legit(c, s, s.entered[k]);
    }
    forall p, j | 0 <= p < c.producers && 0 <= j < Produced(s'.threads[p]) ensures Value(p, j) in s'.entered {
      if p == t && j == s.threads[t].i {
        assert s'.entered[|s.entered|] == Value(p, j);
      } else {
        assert Value(p, j) in s.entered;
      }
    }
  }

  lemma FillKeeps(c: Config, s: State, t: nat, s': State)
    requires Inv(c, s) && t < Threads(c) && FillStep(c, s, t, s')
    ensures Inv(c, s')
  {
    hide Counts, History, Tally, Markers, FillStep;
    assert LocalOk(c, s.numFull, s.owner, t, s.threads[t]);
    FillShape(c, s, t, s');
    FillQueue(c, s, t, s');
    FillCounts(c, s, t, s');
    FillHistory(c, s, t, s');
  }

  lemma GetShape(c: Config, s: State, t: nat, s': State)
    requires Shape(c, s) && t < Threads(c) && GetStep(c, s, t, s')
    ensures Shape(c, s')
  {
    forall u | 0 <= u < Threads(c) ensures LocalOk(c, s'.numFull, s'.owner, u, s'.threads[u]) {
      assert LocalOk(c, s.numFull, s.owner, u, s.threads[u]) && LocalOk(c, s.numFull, s.owner, t, s.threads[t]);
    }
  }

  /** The slot do_get empties holds the oldest item in the buffer. */
  lemma OldestFirst(c: Config, s: State, t: nat)
    requires Shape(c, s) && Queue(c, s) && t < Threads(c) && s.threads[t].pc == Act && IsConsumer(c, t)
    ensures |s.left| < |s.entered| && s.buffer[s.usePtr] == Encode(c, s.entered[|s.left|])
  {
    assert LocalOk(c, s.numFull, s.owner, t, s.threads[t]);
    assert s.buffer[Slot(c, s.usePtr, 0)] == InSlot(c, s, 0);
  }

  lemma GetQueue(c: Config, s: State, t: nat, s': State)
    requires Shape(c, s) && Queue(c, s) && t < Threads(c) && GetStep(c, s, t, s') && Shape(c, s')
    ensures Queue(c, s')
  {
    OldestFirst(c, s, t);
    EncodeIs(c, s.entered[|s.left|]);
    RingNext(s.usePtr, c.max);
    forall k | 0 <= k < c.max ensures s'.buffer[Slot(c, s'.usePtr, k)] == InSlot(c, s', k) {
      if k < c.max - 1 {
        assert s.buffer[Slot(c, s.usePtr, k + 1)] == InSlot(c, s, k + 1);
        assert Slot(c, s'.usePtr, k) == Slot(c, s.usePtr, k + 1) != s.usePtr;
      } else {
        assert Slot(c, s'.usePtr, k) == s.usePtr;
      }
    }
  }

  lemma GetCounts(c: Config, s: State, t: nat, s': State)
    requires |s.left| < |s.entered| && Counts(c, s) && t < |s.threads| == Threads(c) && GetStep(c, s, t, s')
    requires LocalOk(c, s.numFull, s.owner, t, s.threads[t]) && s.buffer[s.usePtr] == Encode(c, s.entered[|s.left|])
    ensures Counts(c, s')
  {
    hide Tally, Markers;
    TallyMoveAll(c, s.threads, t, s'.threads[t]);
    var item := s.entered[|s.left|];
    EncodeIs(c, item);
    MarkersAdd(s.entered[..|s.left|], item);
    assert s.entered[..|s.left| + 1] == s.entered[..|s.left|] + [item];
  }

  lemma GetHistory(c: Config, s: State, t: nat, s': State)
    requires Shape(c, s) && History(c, s) && t < Threads(c) && GetStep(c, s, t, s')
    ensures History(c, s')
  {
    forall k | 0 <= k < |s'.entered| ensures Legit(c, s', s'.entered[k]) { assert Legit(c, s, s.entered[k]); }
  }

  lemma GetKeeps(c: Config, s: State, t: nat, s': State)
    requires Inv(c, s) && t < Threads(c) && GetStep(c, s, t, s')
    ensures Inv(c, s')
  {
    hide Queue, Counts, History, Tally, Markers;
    assert LocalOk(c, s.numFull, s.owner, t, s.threads[t]);
    OldestFirst(c, s, t);
    GetShape(c, s, t, s');
    GetQueue(c, s, t, s');
    GetCounts(c, s, t, s');
    GetHistory(c, s, t, s');
  }

  lemma StepKeepsInv(c: Config, s: State, t: nat, w: int, s': State)
    requires Inv(c, s) && t < Threads(c) && Step(c, s, t, w, s')
    ensures Inv(c, s')
  {
    if AcquireStep(s, t, s') { AcquireKeeps(c, s, t, s'); }
    else if CheckStep(c, s, t, s') { CheckKeeps(c, s, t, s'); }
    else if SpuriousWakeup(s, t, s') { WakeKeeps(c, s, t, s'); }
    else if FillStep(c, s, t, s') { FillKeeps(c, s, t, s'); }
    else if GetStep(c, s, t, s') { GetKeeps(c, s, t, s'); }
    else if UnlockStep(c, s, t, s') { UnlockKeeps(c, s, t, s'); }
    else if JoinStep(c, s, t, s') { JoinKeeps(c, s, t, s'); }
    else { SignalKeeps(c, s, t, w, s'); }
  }

  /** The invariant holds at every point of every run. */
  lemma {:induction false} RunInv(c: Config, run: seq<State>, i: nat)
    requires Good(c) && IsRun(c, run) && i < |run|
    ensures Inv(c, run[i])
  {
    hide Shape, Queue, Counts, History, Step;
    if i == 0 {
      InitInv(c, run[0]);
    } else {
      RunInv(c, run, i - 1);
      assert NextAt(c, run, i - 1);
      var t: nat, w :| t < |run[i - 1].threads| && Step(c, run[i - 1], t, w, run[i]);
      StepKeepsInv(c, run[i - 1], t, w, run[i]);
    }
  }

  // ---------- what follows ----------

  /** In every reachable state of every run: mutual exclusion; both `ensure` checks have passed; what
      has left is a prefix of what entered, in the same order; no value enters twice; and a value never
      follows a marker. */
  lemma Safety(c: Config, run: seq<State>, i: nat)
    requires Good(c) && IsRun(c, run) && i < |run|
    ensures var s := run[i];
      && |s.threads| == Threads(c)
      && !s.failed
      && (forall t, u :: 0 <= t < u < Threads(c) ==> !(Holds(s.threads[t].pc) && Holds(s.threads[u].pc)))
      && |s.left| <= |s.entered|
      && (forall k :: 0 <= k < |s.left| ==> s.left[k] == Encode(c, s.entered[k]))
      && (forall k, m :: 0 <= k < m < |s.entered| && s.entered[k] == s.entered[m] ==> s.entered[k].Eos?)
      && (forall k, m :: 0 <= k < m < |s.entered| && s.entered[k].Eos? ==> s.entered[m].Eos?)
  {
    hide Counts, Tally, Markers, Queue, History;
    RunInv(c, run, i);
    var s := run[i];
    forall t, u | 0 <= t < u < Threads(c) ensures !(Holds(s.threads[t].pc) && Holds(s.threads[u].pc)) {
      assert LocalOk(c, s.numFull, s.owner, t, s.threads[t]) && LocalOk(c, s.numFull, s.owner, u, s.threads[u]);
    }
    QueueAndHistory(c, s);
  }

  lemma QueueAndHistory(c: Config, s: State)
    requires Inv(c, s)
    ensures !s.failed && |s.left| <= |s.entered|
    ensures forall k :: 0 <= k < |s.left| ==> s.left[k] == Encode(c, s.entered[k])
    ensures forall k, m :: 0 <= k < m < |s.entered| && s.entered[k] == s.entered[m] ==> s.entered[k].Eos?
    ensures forall k, m :: 0 <= k < m < |s.entered| && s.entered[k].Eos? ==> s.entered[m].Eos?
  {
  }

  /** Different values travel as different numbers, none of them a marker or an empty slot. */
  lemma EncodeInjective(c: Config, a: Item, b: Item)
    requires a.Value? ==> a.j < c.loops
    requires b.Value? ==> b.j < c.loops
    ensures Encode(c, a) == Encode(c, b) ==> a == b
  {
    EncodeIs(c, a);
    EncodeIs(c, b);
    if a.Value? && b.Value? {
      if a.p < b.p { NextBase(c.loops, a.p, b.p); }
      if b.p < a.p { NextBase(c.loops, b.p, a.p); }
    }
  }

  /** One producer's numbers all come before the next one's. */
  lemma {:induction false} NextBase(loops: nat, p: nat, q: nat)
    requires p < q
    ensures p * loops + loops <= q * loops
  {
    if p < q - 1 { NextBase(loops, p, q - 1); }
  }

  /** No number other than END_OF_STREAM is handed to consumers twice. */
  lemma ConsumedOnce(c: Config, run: seq<State>, i: nat)
    requires Good(c) && IsRun(c, run) && i < |run|
    ensures var s := run[i];
      forall k, m :: 0 <= k < m < |s.left| && s.left[k] == s.left[m] ==> s.left[k] == END_OF_STREAM
  {
    Safety(c, run, i);
    ValuesInRange(c, run, i);
    var s := run[i];
    forall k, m | 0 <= k < m < |s.left| && s.left[k] == s.left[m] ensures s.left[k] == END_OF_STREAM {
      EncodeInjective(c, s.entered[k], s.entered[m]);
      EncodeIs(c, s.entered[k]);
    }
  }

  lemma ValuesInRange(c: Config, run: seq<State>, i: nat)
    requires Good(c) && IsRun(c, run) && i < |run|
    ensures var s := run[i];
      forall k :: 0 <= k < |s.entered| && s.entered[k].Value? ==>
        s.entered[k].p < c.producers && s.entered[k].j < c.loops
  {
    RunInv(c, run, i);
    var s := run[i];
    forall k | 0 <= k < |s.entered| && s.entered[k].Value?
      ensures s.entered[k].p < c.producers && s.entered[k].j < c.loops
    {
      assert Legit(c, s, s.entered[k]) && LocalOk(c, s.numFull, s.owner, s.entered[k].p, s.threads[s.entered[k].p]);
    }
  }

  /** A thread inside do_fill or do_get can finish it. */
  lemma CanAct(c: Config, s: State, t: nat) returns (s': State)
    requires t < |s.threads| == Threads(c) && s.threads[t].pc == Act && s.fillPtr < |s.buffer| && s.usePtr < |s.buffer|
    ensures FillStep(c, s, t, s') || GetStep(c, s, t, s')
    ensures s'.threads[t].pc == Signal && |s'.threads| == |s.threads|
  {
    var l := s.threads[t];
    if IsConsumer(c, t) {
      s' := Move(s, t, l.(pc := Signal, tmp := s.buffer[s.usePtr])).(
        buffer := s.buffer[s.usePtr := EMPTY], usePtr := (s.usePtr + 1) % |s.buffer|,
        numFull := s.numFull - 1, left := s.left + [s.buffer[s.usePtr]],
        failed := s.failed || s.buffer[s.usePtr] == EMPTY);
    } else {
      var item := NextItem(c, t, l);
      s' := Move(s, t, l.(pc := Signal)).(
        buffer := s.buffer[s.fillPtr := Encode(c, item)], fillPtr := (s.fillPtr + 1) % |s.buffer|,
        numFull := s.numFull + 1, entered := s.entered + [item],
        failed := s.failed || s.buffer[s.fillPtr] != EMPTY);
    }
  }

  /** A thread that is neither done nor blocked can take a step that is not a spurious wakeup. */
  lemma CanMove(c: Config, s: State, t: nat) returns (w: int, s': State)
    requires t < |s.threads| == Threads(c) && s.fillPtr < |s.buffer| && s.usePtr < |s.buffer|
    requires LocalOk(c, s.numFull, s.owner, t, s.threads[t]) && s.threads[t].pc != Done && !Blocked(c, s, t)
    ensures Step(c, s, t, w, s') && !SpuriousWakeup(s, t, s')
  {
    var l := s.threads[t];
    w := 0;
    match l.pc {
      case Lock => s' := Move(s, t, l.(pc := Check)).(owner := t);
      case Reacquire => s' := Move(s, t, l.(pc := Check)).(owner := t);
      case Check =>
        s' := if (if IsConsumer(c, t) then s.numFull == 0 else s.numFull == c.max)
              then Move(s, t, l.(pc := Wait)).(owner := -1) else Move(s, t, l.(pc := Act));
      case Act => s' := CanAct(c, s, t);
      case Signal =>
        if v :| WaitsFor(c, s, t, v) {
          w := v;
          s' := Move(Move(s, w, s.threads[w].(pc := Reacquire)), t, l.(pc := Unlock));
        } else {
          s' := Move(s, t, l.(pc := Unlock));
        }
      case Unlock => s' := Move(s, t, AfterUnlock(c, t, l)).(owner := -1);
      case JoinProducers =>
        s' := if l.i < c.producers then Move(s, t, l.(i := l.i + 1))
              else Move(s, t, l.(pc := if c.consumers > 0 then Lock else JoinConsumers, i := 0));
      case JoinConsumers =>
        s' := if l.i < c.consumers then Move(s, t, l.(i := l.i + 1)) else Move(s, t, l.(pc := Done));
    }
  }

  // ---------- no deadlock ----------

  /** How many of the first `n` threads are consumers. */
  function ConsumersBelow(c: Config, n: nat): nat {
    if n <= c.producers then 0 else if n <= Main(c) then n - c.producers else c.consumers
  }

  lemma {:induction false} MarkersTaken(c: Config, ts: seq<Local>)
    ensures Tally(c, EosOut, ts) <= ConsumersBelow(c, |ts|)
    ensures Tally(c, EosOut, ts) == ConsumersBelow(c, |ts|) <==>
      forall t :: 0 <= t < |ts| && IsConsumer(c, t) ==> ts[t].tmp == END_OF_STREAM
  {
    if ts != [] {
      var n := |ts| - 1;
      MarkersTaken(c, ts[..n]);
      assert forall t :: 0 <= t < n ==> ts[..n][t] == ts[t];
    }
  }

  lemma {:induction false} MarkersInserted(c: Config, ts: seq<Local>)
    requires |ts| <= Threads(c)
    ensures Tally(c, EosIn, ts) == if |ts| == Threads(c) then MarkersBy(c, Main(c), ts[Main(c)]) else 0
  {
    if ts != [] { MarkersInserted(c, ts[..|ts| - 1]); }
  }

  lemma {:induction false} MarkersPrefix(items: seq<Item>, n: nat)
    requires n <= |items|
    ensures Markers(items[..n]) <= Markers(items)
  {
    if n < |items| {
      MarkersPrefix(items[..|items| - 1], n);
      assert items[..|items| - 1][..n] == items[..n];
    } else {
      assert items[..n] == items;
    }
  }

  /** Every unfinished thread is blocked. */
  ghost predicate Stuck(c: Config, s: State)
    requires |s.threads| == Threads(c)
  {
    forall t :: 0 <= t < Threads(c) ==> s.threads[t].pc == Done || Blocked(c, s, t)
  }

  /** In a stuck state nobody holds the mutex, so every unfinished thread waits or joins. */
  lemma StuckThreads(c: Config, s: State)
    requires LocalsOk(c, s) && -1 <= s.owner < Threads(c) && Stuck(c, s)
    ensures forall t :: 0 <= t < Threads(c) ==> s.threads[t].pc in {Wait, JoinProducers, JoinConsumers, Done}
  {
    forall t {:trigger s.threads[t]} | 0 <= t < Threads(c) ensures t != s.owner {
      assert LocalOk(c, s.numFull, s.owner, t, s.threads[t]);
      assert s.threads[t].pc == Done || Blocked(c, s, t);
    }
    forall t | 0 <= t < Threads(c) ensures s.threads[t].pc in {Wait, JoinProducers, JoinConsumers, Done} {
      assert LocalOk(c, s.numFull, s.owner, t, s.threads[t]);
      assert s.threads[t].pc == Done || Blocked(c, s, t);
    }
  }

  /** ... and no wakeup is pending: a waiting producer means a full buffer, a waiting consumer an empty one. */
  lemma StuckWaiters(c: Config, s: State, t: nat)
    requires |s.threads| == Threads(c) && Counts(c, s) && t < Threads(c) && s.threads[t].pc == Wait
    requires forall u :: 0 <= u < Threads(c) ==> s.threads[u].pc in {Wait, JoinProducers, JoinConsumers, Done}
    ensures if IsConsumer(c, t) then s.numFull <= 0 else s.numFull >= c.max
  {
    TallyZero(c, PendEmpty, s.threads);
    TallyZero(c, PendFill, s.threads);
    TallyPositive(c, if IsConsumer(c, t) then WaitFill else WaitEmpty, s.threads, t);
  }

  /** Every consumer has taken a marker once all have been inserted and have left. */
  lemma AllMarkersOut(c: Config, s: State)
    requires |s.threads| == Threads(c) && Counts(c, s) && |s.left| == |s.entered|
    requires s.threads[Main(c)].pc in {JoinConsumers, Done}
    ensures forall t :: 0 <= t < Threads(c) && IsConsumer(c, t) ==> s.threads[t].tmp == END_OF_STREAM
  {
    MarkersInserted(c, s.threads);
    MarkersTaken(c, s.threads);
    assert Gone(s) == s.entered;
  }

  /** If every consumer has taken a marker, main has inserted one for each. */
  lemma AllMarkersIn(c: Config, s: State)
    requires |s.threads| == Threads(c) && Counts(c, s) && |s.left| <= |s.entered|
    requires forall t :: 0 <= t < Threads(c) && IsConsumer(c, t) ==> s.threads[t].tmp == END_OF_STREAM
    ensures MarkersBy(c, Main(c), s.threads[Main(c)]) >= c.consumers
  {
    MarkersInserted(c, s.threads);
    MarkersTaken(c, s.threads);
    MarkersPrefix(s.entered, |s.left|);
  }

  /** A stuck state with somebody waiting for room is impossible. */
  lemma NobodyWaitsForRoom(c: Config, s: State, t: nat)
    requires Inv(c, s) && c.consumers >= 1 && Stuck(c, s) && t < Threads(c) && !IsConsumer(c, t)
    ensures s.threads[t].pc != Wait
  {
    hide Tally, Markers, Counts, Queue, History, Blocked;
    StuckThreads(c, s);
    QueueAndHistory(c, s);
    assert LocalOk(c, s.numFull, s.owner, Main(c), s.threads[Main(c)]);
    assert LocalOk(c, s.numFull, s.owner, t, s.threads[t]);
    if s.threads[t].pc == Wait {
      StuckWaiters(c, s, t);
      forall u | 0 <= u < Threads(c) && IsConsumer(c, u) ensures s.threads[u].tmp == END_OF_STREAM {
        assert LocalOk(c, s.numFull, s.owner, u, s.threads[u]);
        if s.threads[u].pc == Wait { StuckWaiters(c, s, u); }
      }
      AllMarkersIn(c, s);
      assert false;
    }
  }

  lemma NoneLeftInside(c: Config, s: State)
    requires Inv(c, s) && s.numFull == 0
    ensures |s.left| == |s.entered|
  {
  }

  /** The protocol never deadlocks: with at least one consumer, in every reachable state of every run
      some unfinished thread, main included, is not blocked, unless all have finished. */
  lemma DeadlockFree(c: Config, run: seq<State>, i: nat)
    requires Good(c) && c.consumers >= 1 && IsRun(c, run) && i < |run|
    ensures |run[i].threads| == Threads(c)
    ensures Stuck(c, run[i]) ==> forall t :: 0 <= t < Threads(c) ==> run[i].threads[t].pc == Done
  {
    RunInv(c, run, i);
    if Stuck(c, run[i]) { StuckMeansDone(c, run[i]); }
  }

  lemma StuckMeansDone(c: Config, s: State)
    requires Inv(c, s) && c.consumers >= 1 && Stuck(c, s)
    ensures forall t :: 0 <= t < Threads(c) ==> s.threads[t].pc == Done
  {
    hide Tally, Markers, Counts, Queue, History;
    StuckThreads(c, s);
    var m := s.threads[Main(c)];
    forall t | 0 <= t < Threads(c) && !IsConsumer(c, t) ensures s.threads[t].pc != Wait {
      NobodyWaitsForRoom(c, s, t);
    }
    assert LocalOk(c, s.numFull, s.owner, Main(c), m);
    assert m.pc == Done || Blocked(c, s, Main(c));
    forall t | 0 <= t < Threads(c) && t < c.producers ensures s.threads[t].pc == Done {
      assert LocalOk(c, s.numFull, s.owner, t, s.threads[t]);
    }
    if m.pc == JoinConsumers {
      var u := c.producers + m.i;
      assert LocalOk(c, s.numFull, s.owner, u, s.threads[u]);
      StuckWaiters(c, s, u);
      NoneLeftInside(c, s);
      AllMarkersOut(c, s);
      assert false;
    }
    forall t | 0 <= t < Threads(c) ensures s.threads[t].pc == Done {
      assert t < c.producers || IsConsumer(c, t) || t == Main(c);
    }
  }

  // ---------- a finished run ----------

  lemma {:induction false} AllInserted(c: Config, ts: seq<Local>)
    requires |ts| <= Threads(c)
    requires forall t :: 0 <= t < |ts| ==> ts[t].pc == Done && (t < c.producers ==> ts[t].i == c.loops)
    ensures Tally(c, Inserted, ts) ==
      (if |ts| <= c.producers then |ts| * c.loops else c.producers * c.loops) +
        (if |ts| == Threads(c) then c.consumers else 0)
  {
    if ts != [] {
      AllInserted(c, ts[..|ts| - 1]);
      if |ts| <= c.producers { assert |ts| * c.loops == (|ts| - 1) * c.loops + c.loops; }
    }
  }

  /** What the consumers among the first threads return: consumed_count - 1 each. */
  function Returned(c: Config, ts: seq<Local>): int {
    if ts == [] then 0
    else Returned(c, ts[..|ts| - 1]) + (if IsConsumer(c, |ts| - 1) then ts[|ts| - 1].count - 1 else 0)
  }

  lemma {:induction false} ReturnedIs(c: Config, ts: seq<Local>)
    requires forall t :: 0 <= t < |ts| ==> ts[t].pc == Done
    ensures Returned(c, ts) == Tally(c, Removed, ts) - ConsumersBelow(c, |ts|)
  {
    if ts != [] { ReturnedIs(c, ts[..|ts| - 1]); }
  }

  /** When all threads are done: everything that entered has left, in the same order; every producer's every value
      entered exactly once, with nothing else but one marker per consumer, after all values; and the counts the
      consumers return add up to producers * loops. */
  lemma FinishedRun(c: Config, run: seq<State>, i: nat)
    requires Good(c) && c.consumers >= 1 && IsRun(c, run) && i < |run| && |run[i].threads| == Threads(c)
    requires forall t :: 0 <= t < Threads(c) ==> run[i].threads[t].pc == Done
    ensures var s := run[i];
      && |s.left| == |s.entered| == c.producers * c.loops + c.consumers
      && (forall p, j :: 0 <= p < c.producers && 0 <= j < c.loops ==> Value(p, j) in s.entered)
      && (forall k :: 0 <= k < |s.entered| && s.entered[k].Value? ==>
        s.entered[k].p < c.producers && s.entered[k].j < c.loops)
      && (forall k, m :: 0 <= k < m < |s.entered| && s.entered[k] == s.entered[m] ==> s.entered[k].Eos?)
      && (forall k, m :: 0 <= k < m < |s.entered| && s.entered[k].Eos? ==> s.entered[m].Eos?)
      && (forall k :: 0 <= k < |s.left| ==> s.left[k] == Encode(c, s.entered[k]))
      && Markers(s.entered) == c.consumers
      && Returned(c, s.threads) == c.producers * c.loops
  {
    RunInv(c, run, i);
    Safety(c, run, i);
    DoneMeansAllMoved(c, run[i]);
  }

  /** If the markers have all left, so has everything: the last item in is a marker. */
  lemma MarkersLeaveLast(items: seq<Item>, n: nat)
    requires n <= |items| && Markers(items[..n]) == Markers(items) > 0
    requires forall k, m :: 0 <= k < m < |items| && items[k].Eos? ==> items[m].Eos?
    ensures n == |items|
  {
    if n < |items| {
      var last := |items| - 1;
      MarkersPrefix(items[..last], n);
      assert items[..last][..n] == items[..n];
      SomeMarker(items);
      assert false;
    }
  }

  lemma {:induction false} SomeMarker(items: seq<Item>)
    ensures Markers(items) > 0 ==> exists k :: 0 <= k < |items| && items[k].Eos?
  {
    if items != [] {
      SomeMarker(items[..|items| - 1]);
      if Markers(items[..|items| - 1]) > 0 {
        var k :| 0 <= k < |items| - 1 && items[..|items| - 1][k].Eos?;
        assert items[k].Eos?;
      }
    }
  }

  lemma DoneCounts(c: Config, s: State)
    requires Inv(c, s) && c.consumers >= 1 && forall t :: 0 <= t < Threads(c) ==> s.threads[t].pc == Done
    ensures |s.left| == |s.entered| == c.producers * c.loops + c.consumers
    ensures Markers(s.entered) == c.consumers
    ensures Returned(c, s.threads) == c.producers * c.loops
  {
    forall t | 0 <= t < Threads(c)
      ensures t < c.producers ==> s.threads[t].i == c.loops
      ensures IsConsumer(c, t) ==> s.threads[t].tmp == END_OF_STREAM
    {
      assert LocalOk(c, s.numFull, s.owner, t, s.threads[t]);
    }
    AllInserted(c, s.threads);
    MarkersInserted(c, s.threads);
    MarkersTaken(c, s.threads);
    QueueAndHistory(c, s);
    MarkersLeaveLast(s.entered, |s.left|);
    ReturnedIs(c, s.threads);
  }

  lemma DoneMeansAllMoved(c: Config, s: State)
    requires Inv(c, s) && c.consumers >= 1 && forall t :: 0 <= t < Threads(c) ==> s.threads[t].pc == Done
    ensures |s.left| == |s.entered| == c.producers * c.loops + c.consumers
    ensures forall p, j :: 0 <= p < c.producers && 0 <= j < c.loops ==> Value(p, j) in s.entered
    ensures forall k :: 0 <= k < |s.entered| && s.entered[k].Value? ==>
      s.entered[k].p < c.producers && s.entered[k].j < c.loops
    ensures Markers(s.entered) == c.consumers
    ensures Returned(c, s.threads) == c.producers * c.loops
  {
    DoneCounts(c, s);
    forall t | 0 <= t < c.producers ensures Produced(s.threads[t]) == c.loops {
      assert LocalOk(c, s.numFull, s.owner, t, s.threads[t]);
    }
    forall k | 0 <= k < |s.entered| && s.entered[k].Value?
      ensures s.entered[k].p < c.producers && s.entered[k].j < c.loops
    {
      assert Legit(c, s, s.entered[k]);
    }
  }
}
