/** threads-bugs/vector-global-order.c with its threads from main-common.c: vector_add takes its two locks in address
    order, so nobody deadlocks, and every addition is as if done alone. */
module Vectors {

  /** Destination and source of one vector_add; vectors lie in one array, so addresses compare like indices. */
  datatype Add = Add(dst: nat, src: nat)

  /** Between the calls; holding the first of two locks; adding element `i`; holding only the destination's lock. */
  datatype Pc = Outside | HasFirst | Adding(i: nat) | SourceReleased

  /** The calls a thread still has to finish, the current one first. */
  datatype Thread = Thread(calls: seq<Add>, pc: Pc)

  type Vector = seq<int>

  datatype State = State(values: seq<Vector>, owner: seq<int>, threads: seq<Thread>, log: seq<(nat, Add)>)

  const FREE: int := -1

  function First(a: Add): nat { if a.dst < a.src then a.dst else a.src }

  function Second(a: Add): nat { if a.dst < a.src then a.src else a.dst }

  predicate Finished(s: State, t: nat)
    requires t < |s.threads|
  {
    s.threads[t].calls == []
  }

  /** Everything is indexed by vectors that exist, all of `size` elements. */
  ghost predicate Shaped(s: State, size: nat) {
    && |s.owner| == |s.values|
    && (forall v :: 0 <= v < |s.values| ==> |s.values[v]| == size)
    && (forall t, k :: 0 <= t < |s.threads| && 0 <= k < |s.threads[t].calls| ==>
          s.threads[t].calls[k].dst < |s.values| && s.threads[t].calls[k].src < |s.values|)
    && (forall t :: 0 <= t < |s.threads| ==> ThreadShaped(s.threads[t], size))
  }

  ghost predicate ThreadShaped(t: Thread, size: nat) {
    && (t.pc.Adding? ==> t.pc.i <= size)
    && (t.calls == [] ==> t.pc.Outside?)
    && (t.pc.HasFirst? || t.pc.SourceReleased? ==> t.calls[0].dst != t.calls[0].src)
  }

  // ---------- locks ----------

  /** The vectors whose locks a thread holds. */
  predicate Holds(t: Thread, v: nat) {
    t.calls != [] &&
    match t.pc
    case Outside => false
    case HasFirst => v == First(t.calls[0])
    case Adding(_) => v == t.calls[0].dst || v == t.calls[0].src
    case SourceReleased => v == t.calls[0].dst
  }

  ghost predicate LocksOk(s: State) {
    && |s.owner| == |s.values|
    && (forall v: nat :: v < |s.owner| ==> s.owner[v] == FREE || 0 <= s.owner[v] < |s.threads|)
    && (forall v: nat, t: nat :: v < |s.owner| && t < |s.threads| ==> (s.owner[v] == t <==> Holds(s.threads[t], v)))
  }

  /** The lock a thread is about to take, if any. */
  predicate Wants(t: Thread, v: nat) {
    t.calls != [] && ((t.pc.Outside? && v == First(t.calls[0])) || (t.pc.HasFirst? && v == Second(t.calls[0])))
  }

  predicate CanStep(s: State, t: nat) {
    && t < |s.threads| && !Finished(s, t)
    && (forall v: nat :: v < |s.owner| && Wants(s.threads[t], v) ==> s.owner[v] == FREE)
  }

  // ---------- steps ----------

  function Next(t: Thread): Thread
    requires t.calls != []
  {
    Thread(t.calls[1..], Outside)
  }

  function AddElement(s: State, a: Add, i: nat): seq<Vector>
    requires a.dst < |s.values| && a.src < |s.values| && i < |s.values[a.dst]| && i < |s.values[a.src]|
  {
    s.values[a.dst := s.values[a.dst][i := s.values[a.dst][i] + s.values[a.src][i]]]
  }

  /** One step of thread `t`: take a lock, add an element, or release a lock. */
  function Step(s: State, size: nat, t: nat): State
    requires Shaped(s, size) && CanStep(s, t)
  {
    var th := s.threads[t];
    var a := th.calls[0];
    match th.pc
    case Outside =>
      s.(owner := s.owner[First(a) := t],
        threads := s.threads[t := th.(pc := if a.dst == a.src then Adding(0) else HasFirst)])
    case HasFirst => s.(owner := s.owner[Second(a) := t], threads := s.threads[t := th.(pc := Adding(0))])
    case Adding(i) =>
      if i < size then s.(values := AddElement(s, a, i), threads := s.threads[t := th.(pc := Adding(i + 1))])
      else
        State(s.values, s.owner[a.src := FREE],
          s.threads[t := if a.dst == a.src then Next(th) else th.(pc := SourceReleased)], s.log + [(t, a)])
    case SourceReleased => s.(owner := s.owner[a.dst := FREE], threads := s.threads[t := Next(th)])
  }

  lemma StepShaped(s: State, size: nat, t: nat)
    requires Shaped(s, size) && CanStep(s, t)
    ensures Shaped(Step(s, size, t), size)
  {
    var u := Step(s, size, t);
    assert ThreadShaped(s.threads[t], size);
    forall r, k | 0 <= r < |u.threads| && 0 <= k < |u.threads[r].calls|
      ensures u.threads[r].calls[k].dst < |u.values| && u.threads[r].calls[k].src < |u.values|
    {
      if r == t && |u.threads[t].calls| < |s.threads[t].calls| {
        assert u.threads[t].calls[k] == s.threads[t].calls[k + 1];
      }
    }
  }

  lemma StepLocks(s: State, size: nat, t: nat)
    requires Shaped(s, size) && LocksOk(s) && CanStep(s, t)
    ensures LocksOk(Step(s, size, t))
  {
    var u, a := Step(s, size, t), s.threads[t].calls[0];
    assert ThreadShaped(s.threads[t], size);
    assert s.threads[t].calls[0].dst < |s.values|;
    forall v: nat, r: nat | v < |u.owner| && r < |u.threads| ensures u.owner[v] == r <==> Holds(u.threads[r], v) {
      assert s.owner[v] == r <==> Holds(s.threads[r], v);
      assert s.owner[v] == t <==> Holds(s.threads[t], v);
      assert Wants(s.threads[t], v) ==> s.owner[v] == FREE;
    }
  }

  // ---------- no deadlock ----------

  /** Whoever is blocked waits for someone who can run, or who waits for a lock further up: the waiting cannot go
      round. */
  lemma {:induction false} SomeoneCanStep(s: State, size: nat, t: nat, v: nat) returns (r: nat)
    requires Shaped(s, size) && LocksOk(s) && t < |s.threads| && v < |s.owner| && Wants(s.threads[t], v)
    ensures CanStep(s, r)
    decreases |s.owner| - v
  {
    if s.owner[v] == FREE {
      r := t;
    } else {
      r := s.owner[v];
      assert Holds(s.threads[r], v);
      assert ThreadShaped(s.threads[r], size);
      assert s.threads[r].calls[0].dst < |s.values|;
      if s.threads[r].pc.HasFirst? {
        r := SomeoneCanStep(s, size, r, Second(s.threads[r].calls[0]));
      }
    }
  }

  /** In every reachable state in which some thread has calls left, some thread can take a step. */
  lemma DeadlockFree(s: State, size: nat, t: nat) returns (r: nat)
    requires Shaped(s, size) && LocksOk(s) && t < |s.threads| && !Finished(s, t)
    ensures CanStep(s, r)
  {
    var th := s.threads[t];
    assert ThreadShaped(th, size) && th.calls[0].dst < |s.values|;
    if th.pc.Outside? {
      r := SomeoneCanStep(s, size, t, First(th.calls[0]));
    } else if th.pc.HasFirst? {
      r := SomeoneCanStep(s, size, t, Second(th.calls[0]));
    } else {
      r := t;
    }
  }

  // ---------- every addition as if done alone ----------

  function Sum(a: Vector, b: Vector): (c: Vector)
    requires |a| == |b|
    ensures |c| == |a| && forall k :: 0 <= k < |a| ==> c[k] == a[k] + b[k]
  {
    seq(|a|, k requires 0 <= k < |a| => a[k] + b[k])
  }

  predicate InRange(log: seq<(nat, Add)>, vectors: nat) {
    forall k :: 0 <= k < |log| ==> log[k].1.dst < vectors && log[k].1.src < vectors
  }

  /** The logged additions done one after the other. */
  function Serial(initial: seq<Vector>, size: nat, log: seq<(nat, Add)>): (r: seq<Vector>)
    requires InRange(log, |initial|) && forall v :: 0 <= v < |initial| ==> |initial[v]| == size
    ensures |r| == |initial| && forall v :: 0 <= v < |r| ==> |r[v]| == size
  {
    if log == [] then initial
    else
      var n := |log| - 1;
      var before, a := Serial(initial, size, log[..n]), log[n].1;
      before[a.dst := Sum(before[a.dst], before[a.src])]
  }

  ghost predicate AddsTo(t: Thread, v: nat) { t.pc.Adding? && t.calls != [] && t.calls[0].dst == v }

  /** A vector in the middle of an addition: the first `i` elements are done. */
  ghost predicate Partly(value: Vector, base: seq<Vector>, a: Add, i: nat, size: nat) {
    && a.dst < |base| && a.src < |base| && |value| == size
      && |base[a.dst]| == size && |base[a.src]| == size && i <= size
    && forall k :: 0 <= k < size ==> value[k] == base[a.dst][k] + if k < i then base[a.src][k] else 0
  }

  /** The vectors are those of the logged additions, but for those being added to. */
  ghost predicate ValuesOk(s: State, base: seq<Vector>, size: nat) {
    && |base| == |s.values| && (forall v :: 0 <= v < |base| ==> |base[v]| == size)
    && (forall v: nat ::
          v < |s.values| && (forall t: nat :: t < |s.threads| ==> !AddsTo(s.threads[t], v)) ==> s.values[v] == base[v])
    && (forall t: nat ::
          t < |s.threads| && s.threads[t].pc.Adding? && s.threads[t].calls != []
          && s.threads[t].calls[0].dst < |s.values| ==>
          Partly(s.values[s.threads[t].calls[0].dst], base, s.threads[t].calls[0], s.threads[t].pc.i, size))
  }

  /** While a thread is adding, the locks keep its vectors from all others. */
  lemma Exclusive(s: State, size: nat, t: nat, r: nat)
    requires Shaped(s, size) && LocksOk(s) && t < |s.threads| && r < |s.threads| && t != r
    requires s.threads[t].pc.Adding? && s.threads[t].calls != []
    ensures !AddsTo(s.threads[r], s.threads[t].calls[0].dst) && !AddsTo(s.threads[r], s.threads[t].calls[0].src)
    ensures s.threads[r].pc.Adding? && s.threads[r].calls != [] ==>
      s.threads[r].calls[0].src != s.threads[t].calls[0].dst && s.threads[r].calls[0].dst != s.threads[t].calls[0].dst
  {
    var a := s.threads[t].calls[0];
    assert a.dst < |s.values| && a.src < |s.values|;
    assert s.owner[a.dst] == t && s.owner[a.src] == t;
    if s.threads[r].calls != [] {
      assert s.threads[r].calls[0].dst < |s.values| && s.threads[r].calls[0].src < |s.values|;
    }
  }

  /** A vector its thread reads from is as the log says. */
  lemma SourceIs(s: State, base: seq<Vector>, size: nat, t: nat)
    requires Shaped(s, size) && LocksOk(s) && ValuesOk(s, base, size) && t < |s.threads|
    requires s.threads[t].pc.Adding? && s.threads[t].calls != []
    requires s.threads[t].calls[0].dst != s.threads[t].calls[0].src
    ensures s.threads[t].calls[0].src < |base| && s.values[s.threads[t].calls[0].src] == base[s.threads[t].calls[0].src]
  {
    var a := s.threads[t].calls[0];
    assert a.src < |s.values|;
    forall r: nat | r < |s.threads| ensures !AddsTo(s.threads[r], a.src) {
      if r != t { Exclusive(s, size, t, r); }
    }
  }

  /** Every step but the last of an addition leaves the log, and the vectors right for it. */
  lemma StepValues(s: State, base: seq<Vector>, size: nat, t: nat)
    requires Shaped(s, size) && LocksOk(s) && ValuesOk(s, base, size) && CanStep(s, t)
    requires !(s.threads[t].pc.Adding? && s.threads[t].pc.i == size)
    ensures ValuesOk(Step(s, size, t), base, size) && Step(s, size, t).log == s.log
  {
    var u, th := Step(s, size, t), s.threads[t];
    var a := th.calls[0];
    assert ThreadShaped(th, size) && a.dst < |s.values| && a.src < |s.values|;
    if th.pc.Adding? {
      assert Partly(s.values[a.dst], base, a, th.pc.i, size);
      if a.dst != a.src { SourceIs(s, base, size, t); }
      forall r: nat | r < |s.threads| && r != t ensures !AddsTo(s.threads[r], a.dst) { Exclusive(s, size, t, r); }
    } else {
      assert forall v: nat :: AddsTo(u.threads[t], v) ==> th.pc.HasFirst? || th.pc.Outside?;
      StartValues(s, base, size, t);
    }
    forall r: nat | r < |u.threads| && u.threads[r].pc.Adding?
      && u.threads[r].calls != [] && u.threads[r].calls[0].dst < |u.values|
      ensures Partly(u.values[u.threads[r].calls[0].dst], base, u.threads[r].calls[0], u.threads[r].pc.i, size)
    {
      if r != t {
        assert Partly(s.values[s.threads[r].calls[0].dst], base, s.threads[r].calls[0], s.threads[r].pc.i, size);
        assert AddsTo(s.threads[r], s.threads[r].calls[0].dst);
      }
    }
    forall v: nat | v < |u.values| && (forall r: nat :: r < |u.threads| ==> !AddsTo(u.threads[r], v))
      ensures u.values[v] == base[v]
    {
      assert !AddsTo(u.threads[t], v);
      forall r: nat | r < |s.threads| ensures !AddsTo(s.threads[r], v) {
        if r != t { assert u.threads[r] == s.threads[r]; }
      }
    }
  }

  lemma AdderOwns(s: State, r: nat, v: nat)
    requires LocksOk(s) && r < |s.threads| && v < |s.owner| && AddsTo(s.threads[r], v)
    ensures s.owner[v] == r
  {
    assert Holds(s.threads[r], v);
  }

  /** A thread that has all its locks but has not started adding finds its destination as the log says. */
  lemma StartValues(s: State, base: seq<Vector>, size: nat, t: nat)
    requires Shaped(s, size) && LocksOk(s) && ValuesOk(s, base, size) && CanStep(s, t) && !s.threads[t].pc.Adding?
    ensures Step(s, size, t).threads[t].pc.Adding? ==>
      s.threads[t].calls[0].dst < |base| && s.values[s.threads[t].calls[0].dst] == base[s.threads[t].calls[0].dst]
  {
    var a := s.threads[t].calls[0];
    if Step(s, size, t).threads[t].pc.Adding? {
      assert a.dst < |s.values| && a.src < |s.values| && ThreadShaped(s.threads[t], size);
      assert s.owner[a.dst] == t || Wants(s.threads[t], a.dst);
      forall r: nat | r < |s.threads| ensures !AddsTo(s.threads[r], a.dst) {
        if AddsTo(s.threads[r], a.dst) { AdderOwns(s, r, a.dst); }
      }
    }
  }

  /** The last step of an addition: the vectors are those of one more addition in the log. */
  lemma LastStepValues(s: State, base: seq<Vector>, size: nat, t: nat)
    requires Shaped(s, size) && LocksOk(s) && ValuesOk(s, base, size) && CanStep(s, t)
    requires s.threads[t].pc.Adding? && s.threads[t].pc.i == size
    ensures var a := s.threads[t].calls[0];
      a.dst < |base| && a.src < |base| && ValuesOk(Step(s, size, t), base[a.dst := Sum(base[a.dst], base[a.src])], size)
  {
    var u, a := Step(s, size, t), s.threads[t].calls[0];
    assert a.dst < |s.values| && a.src < |s.values|;
    assert Partly(s.values[a.dst], base, a, size, size);
    var base' := base[a.dst := Sum(base[a.dst], base[a.src])];
    assert s.values[a.dst] == Sum(base[a.dst], base[a.src]);
    forall r: nat | r < |u.threads| && u.threads[r].pc.Adding?
      && u.threads[r].calls != [] && u.threads[r].calls[0].dst < |u.values|
      ensures Partly(u.values[u.threads[r].calls[0].dst], base', u.threads[r].calls[0], u.threads[r].pc.i, size)
    {
      if r != t {
        assert Partly(s.values[s.threads[r].calls[0].dst], base, s.threads[r].calls[0], s.threads[r].pc.i, size);
        Exclusive(s, size, t, r);
      }
    }
    forall v: nat | v < |u.values| && (forall r: nat :: r < |u.threads| ==> !AddsTo(u.threads[r], v))
      ensures u.values[v] == base'[v]
    {
      if v != a.dst {
        forall r: nat | r < |s.threads| ensures !AddsTo(s.threads[r], v) {
          if r != t { assert u.threads[r] == s.threads[r]; }
        }
      }
    }
  }

  // ---------- whole runs ----------

  /** What thread `t` has added, in order. */
  function Of(log: seq<(nat, Add)>, t: nat): seq<Add> {
    if log == [] then []
    else
      var n := |log| - 1;
      Of(log[..n], t) + if log[n].0 == t then [log[n].1] else []
  }

  /** What it has still to add. */
  function Unlogged(t: Thread): seq<Add> { if t.pc.SourceReleased? && t.calls != [] then t.calls[1..] else t.calls }

  ghost predicate Inv(s: State, size: nat, initial: seq<Vector>, programs: seq<seq<Add>>) {
    && Shaped(s, size) && LocksOk(s)
    && |s.values| == |initial| && (forall v :: 0 <= v < |initial| ==> |initial[v]| == size)
    && InRange(s.log, |initial|) && ValuesOk(s, Serial(initial, size, s.log), size)
    && |s.threads| == |programs|
      && (forall t: nat :: t < |programs| ==> Of(s.log, t) + Unlogged(s.threads[t]) == programs[t])
  }

  function Begin(initial: seq<Vector>, programs: seq<seq<Add>>): State {
    State(initial, seq(|initial|, _ => FREE),
      seq(|programs|, t requires 0 <= t < |programs| => Thread(programs[t], Outside)), [])
  }

  lemma BeginOk(initial: seq<Vector>, size: nat, programs: seq<seq<Add>>)
    requires forall v :: 0 <= v < |initial| ==> |initial[v]| == size
    requires forall t, k :: 0 <= t < |programs| && 0 <= k < |programs[t]| ==>
      programs[t][k].dst < |initial| && programs[t][k].src < |initial|
    ensures Inv(Begin(initial, programs), size, initial, programs)
  {
    var s := Begin(initial, programs);
    forall t: nat | t < |programs| ensures Of(s.log, t) + Unlogged(s.threads[t]) == programs[t] {
      assert [] + programs[t] == programs[t];
    }
  }

  lemma StepInv(s: State, size: nat, initial: seq<Vector>, programs: seq<seq<Add>>, t: nat)
    requires Inv(s, size, initial, programs) && CanStep(s, t)
    ensures Inv(Step(s, size, t), size, initial, programs)
  {
    hide ValuesOk, LocksOk;
    var u, base := Step(s, size, t), Serial(initial, size, s.log);
    StepShaped(s, size, t);
    StepLocks(s, size, t);
    if s.threads[t].pc.Adding? && s.threads[t].pc.i == size {
      LastStepValues(s, base, size, t);
      assert u.log[..|s.log|] == s.log;
    } else {
      StepValues(s, base, size, t);
    }
    forall r: nat | r < |programs| ensures Of(u.log, r) + Unlogged(u.threads[r]) == programs[r] {
      StepProgram(s, size, t, r);
    }
  }

  lemma StepProgram(s: State, size: nat, t: nat, r: nat)
    requires Shaped(s, size) && CanStep(s, t) && r < |s.threads|
    ensures var u := Step(s, size, t); Of(u.log, r) + Unlogged(u.threads[r]) == Of(s.log, r) + Unlogged(s.threads[r])
  {
    var u, th := Step(s, size, t), s.threads[t];
    assert ThreadShaped(th, size);
    if th.pc.Adding? && th.pc.i == size {
      assert u.log[..|s.log|] == s.log;
      if r == t { assert th.calls == [th.calls[0]] + th.calls[1..]; }
    }
  }

  /** Steps a thread has left. */
  function Cost(a: Add, size: nat): nat { if a.dst == a.src then size + 2 else size + 4 }

  function Costs(calls: seq<Add>,
      size: nat): nat { if calls == [] then 0 else Cost(calls[0], size) + Costs(calls[1..], size) }

  function Spent(t: Thread, size: nat): nat
    requires t.calls != []
  {
    var one := if t.calls[0].dst == t.calls[0].src then 1 else 2;
    match t.pc
    case Outside => 0
    case HasFirst => 1
    case Adding(i) => one + i
    case SourceReleased => size + 3
  }

  function Left(t: Thread, size: nat): int { if t.calls == [] then 0 else Costs(t.calls, size) - Spent(t, size) }

  function Work(threads: seq<Thread>, size: nat): int {
    if threads == [] then 0 else Work(threads[..|threads| - 1], size) + Left(threads[|threads| - 1], size)
  }

  lemma {:induction false} WorkSet(threads: seq<Thread>, size: nat, t: nat, th: Thread)
    requires t < |threads|
    ensures Work(threads[t := th], size) == Work(threads, size) - Left(threads[t], size) + Left(th, size)
  {
    var n := |threads| - 1;
    if t < n {
      WorkSet(threads[..n], size, t, th);
      assert threads[t := th][..n] == threads[..n][t := th];
    } else {
      assert threads[t := th][..n] == threads[..n];
    }
  }

  lemma {:induction false} WorkNonNegative(threads: seq<Thread>, size: nat)
    requires forall t :: 0 <= t < |threads| ==> ThreadShaped(threads[t], size)
    ensures Work(threads, size) >= 0
  {
    if threads != [] {
      var n := |threads| - 1;
      WorkNonNegative(threads[..n], size);
      assert ThreadShaped(threads[n], size);
    }
  }

  /** Each step is one of a bounded number. */
  lemma StepWork(s: State, size: nat, t: nat)
    requires Shaped(s, size) && CanStep(s, t)
    ensures Work(Step(s, size, t).threads, size) == Work(s.threads, size) - 1
  {
    var u := Step(s, size, t);
    assert ThreadShaped(s.threads[t], size);
    WorkSet(s.threads, size, t, u.threads[t]);
    assert u.threads == s.threads[t := u.threads[t]];
  }

  /** Any number of threads under any schedule: the run ends, with no lock held, and the vectors are what the
      additions give when done one at a time, in an order that keeps the order of each thread. */
  method RunAll(initial: seq<Vector>, size: nat, programs: seq<seq<Add>>) returns (s: State)
    requires forall v :: 0 <= v < |initial| ==> |initial[v]| == size
    requires forall t, k :: 0 <= t < |programs| && 0 <= k < |programs[t]| ==>
      programs[t][k].dst < |initial| && programs[t][k].src < |initial|
    ensures InRange(s.log, |initial|) && s.values == Serial(initial, size, s.log)
    ensures forall t: nat :: t < |programs| ==> Of(s.log, t) == programs[t]
    ensures forall v :: 0 <= v < |s.owner| ==> s.owner[v] == FREE
  {
    hide Step, Inv;
    s := Begin(initial, programs);
    BeginOk(initial, size, programs);
    InvParts(s, size, initial, programs);
    while exists t: nat :: t < |s.threads| && s.threads[t].calls != []
      invariant Inv(s, size, initial, programs)
      decreases Work(s.threads, size)
    {
      InvParts(s, size, initial, programs);
      ghost var waiting: nat :| waiting < |s.threads| && s.threads[waiting].calls != [];
      ghost var able := DeadlockFree(s, size, waiting);
      var t: nat :| t < |s.threads| && CanStep(s, t);
      StepInv(s, size, initial, programs, t);
      StepWork(s, size, t);
      WorkNonNegative(s.threads, size);
      s := Step(s, size, t);
    }
    AtEnd(s, size, initial, programs);
  }

  lemma InvParts(s: State, size: nat, initial: seq<Vector>, programs: seq<seq<Add>>)
    requires Inv(s, size, initial, programs)
    ensures Shaped(s, size) && LocksOk(s)
  {
  }

  lemma AtEnd(s: State, size: nat, initial: seq<Vector>, programs: seq<seq<Add>>)
    requires Inv(s, size, initial, programs) && forall t: nat :: t < |s.threads| ==> s.threads[t].calls == []
    ensures InRange(s.log, |initial|) && s.values == Serial(initial, size, s.log)
    ensures forall t: nat :: t < |programs| ==> Of(s.log, t) == programs[t]
    ensures forall v :: 0 <= v < |s.owner| ==> s.owner[v] == FREE
  {
    var base := Serial(initial, size, s.log);
    forall v | 0 <= v < |s.values| ensures s.values[v] == base[v] {
      assert forall t: nat :: t < |s.threads| ==> !AddsTo(s.threads[t], v);
    }
    forall t: nat | t < |programs| ensures Of(s.log, t) == programs[t] {
      assert Of(s.log, t) + [] == Of(s.log, t);
    }
    forall v: nat | v < |s.owner| ensures s.owner[v] == FREE {
      assert s.owner[v] == FREE || Holds(s.threads[s.owner[v]], v);
    }
  }
}
