/** The numbers that go through the bounded buffer of threads-cv/main-two-cvs-while.c: which there are, and in what
    order they come out. */
module BoundedBufferValues {
  import opened Arithmetic
  import opened BoundedBuffer
  import opened BoundedBufferProof

  /** Each producer's values enter in the order of its loop. */
  ghost predicate EnteredInOrder(s: State) {
    forall k, m :: 0 <= k < m < |s.entered| && SameProducer(s.entered[k], s.entered[m]) ==>
      s.entered[k].j < s.entered[m].j
  }

  predicate SameProducer(a: Item, b: Item) { a.Value? && b.Value? && a.p == b.p }

  lemma {:induction false} RunInOrder(c: Config, run: seq<State>, i: nat)
    requires Good(c) && IsRun(c, run) && i < |run|
    ensures EnteredInOrder(run[i])
  {
    hide Step, Inv, EnteredInOrder;
    if i == 0 {
      NothingEntered(run[0]);
    } else {
      RunInOrder(c, run, i - 1);
      RunInv(c, run, i - 1);
      assert NextAt(c, run, i - 1);
      var t: nat, w :| t < |run[i - 1].threads| && Step(c, run[i - 1], t, w, run[i]);
      StepInOrder(c, run[i - 1], t, w, run[i]);
    }
  }

  lemma NothingEntered(s: State)
    requires s.entered == []
    ensures EnteredInOrder(s)
  {
  }

  lemma StepInOrder(c: Config, s: State, t: nat, w: int, s': State)
    requires Inv(c, s) && t < Threads(c) && Step(c, s, t, w, s') && EnteredInOrder(s)
    ensures EnteredInOrder(s')
  {
    hide Shape, Queue, Counts, AfterUnlock, Encode;
    InvThreads(c, s);
    if FillStep(c, s, t, s') {
      forall k | 0 <= k < |s.entered| && s.entered[k].Value?
        ensures s.entered[k].p == t && t < c.producers ==> s.entered[k].j < s.threads[t].i
      {
        assert Legit(c, s, s.entered[k]);
      }
    }
  }

  lemma InvThreads(c: Config, s: State)
    requires Inv(c, s)
    ensures |s.threads| == Threads(c)
  {
  }

  /** A value as a number: which producer made it, and how many it had made before. */
  lemma NumberOf(c: Config, p: nat, j: nat)
    requires Good(c) && j < c.loops
    ensures Encode(c, Value(p, j)) >= 0
    ensures Encode(c, Value(p, j)) / c.loops == p && Encode(c, Value(p, j)) % c.loops == j
  {
    MulNonNegative(p, c.loops);
    DivModOf(p * c.loops + j, c.loops, p, j);
  }

  /** At every point of every run the numbers of one producer, id * loops up to id * loops + loops - 1, leave the buffer
      in increasing order. */
  lemma ProducersInOrder(c: Config, run: seq<State>, i: nat, k: nat, m: nat)
    requires Good(c) && IsRun(c, run) && i < |run| && k < m < |run[i].left|
    ensures var x, y := run[i].left[k], run[i].left[m]; 0 <= x && 0 <= y && x / c.loops == y / c.loops ==> x < y
  {
    hide IsRun;
    Safety(c, run, i);
    ValuesInRange(c, run, i);
    RunInOrder(c, run, i);
    var a, b := run[i].entered[k], run[i].entered[m];
    if a.Value? { NumberOf(c, a.p, a.j); }
    if b.Value? { NumberOf(c, b.p, b.j); }
  }

  /** What consumers get are the numbers below producers * loops and the marker -1; when all threads are done, all of
      these numbers. */
  lemma NumbersOut(c: Config, run: seq<State>, i: nat, x: int)
    requires Good(c) && c.consumers >= 1 && IsRun(c, run) && i < |run|
    ensures x in run[i].left ==> -1 <= x < c.producers * c.loops
    ensures (forall t :: 0 <= t < |run[i].threads| ==> run[i].threads[t].pc == Done) && 0 <= x < c.producers * c.loops
      ==> x in run[i].left
  {
    hide IsRun, Inv;
    var s := run[i];
    Safety(c, run, i);
    ValuesInRange(c, run, i);
    if x in s.left {
      var k :| 0 <= k < |s.left| && s.left[k] == x;
      if s.entered[k].Value? {
        MulNonNegative(s.entered[k].p, c.loops);
        MulMonotone(s.entered[k].p, c.producers, c.loops);
      }
    }
    if (forall t :: 0 <= t < |s.threads| ==> s.threads[t].pc == Done) && 0 <= x < c.producers * c.loops {
      FinishedRun(c, run, i);
      var p, j := x / c.loops, x % c.loops;
      QuotientBelow(x, c.producers, c.loops);
      assert Value(p, j) in s.entered;
      var k :| 0 <= k < |s.entered| && s.entered[k] == Value(p, j);
      assert s.left[k] == x;
    }
  }

  lemma QuotientBelow(x: int, n: nat, m: nat)
    requires 0 <= x < n * m && m > 0
    ensures 0 <= x / m < n && x == (x / m) * m + x % m
  {
    var q := x / m;
    if q > n { MulMonotone(n, q, m); }
  }
}
