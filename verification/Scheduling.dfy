/** cpu-sched/scheduler.py: FIFO and shortest job first by their sums, and the round-robin loop. Times are reals. */
module Scheduling {

  /** A job's number and run time. */
  datatype Job = Job(num: nat, run: real)

  // ---------- run in list order ----------

  /** The sum of the turnaround times when the jobs run in list order from time `t`. */
  function Turnarounds(l: seq<Job>, t: real): real {
    if l == [] then 0.0 else (t + l[0].run) + Turnarounds(l[1..], t + l[0].run)
  }

  /** The sum of the waiting (and of the response) times. */
  function Waits(l: seq<Job>, t: real): real {
    if l == [] then 0.0 else t + Waits(l[1..], t + l[0].run)
  }

  function TotalRun(l: seq<Job>): real { if l == [] then 0.0 else l[0].run + TotalRun(l[1..]) }

  lemma {:induction false} TurnaroundIsWaitPlusRun(l: seq<Job>, t: real)
    ensures Turnarounds(l, t) == Waits(l, t) + TotalRun(l)
  {
    if l != [] { TurnaroundIsWaitPlusRun(l[1..], t + l[0].run); }
  }

  /** The statistics loop, for FIFO and for the sorted list of SJF alike. */
  method InOrder(joblist: seq<Job>) returns (turnaroundSum: real, waitSum: real, responseSum: real)
    ensures turnaroundSum == Turnarounds(joblist, 0.0) && waitSum == Waits(joblist, 0.0) && responseSum == waitSum
  {
    var t := 0.0;
    turnaroundSum, waitSum, responseSum := 0.0, 0.0, 0.0;
    for i := 0 to |joblist|
      invariant turnaroundSum + Turnarounds(joblist[i..], t) == Turnarounds(joblist, 0.0)
      invariant waitSum + Waits(joblist[i..], t) == Waits(joblist, 0.0) && responseSum == waitSum
    {
      assert joblist[i..][0] == joblist[i] && joblist[i..][1..] == joblist[i + 1..];
      responseSum := responseSum + t;
      turnaroundSum := turnaroundSum + (t + joblist[i].run);
      waitSum := waitSum + t;
      t := t + joblist[i].run;
    }
  }

  // ---------- shortest job first ----------

  predicate Sorted(l: seq<Job>) { forall i, j :: 0 <= i < j < |l| ==> l[i].run <= l[j].run }

  /** sorted() by run time, keeping the order of equal ones. */
  function Insert(l: seq<Job>, x: Job): seq<Job> {
    if l == [] || x.run < l[0].run then [x] + l else [l[0]] + Insert(l[1..], x)
  }

  function Sort(l: seq<Job>): seq<Job> {
    if l == [] then [] else Insert(Sort(l[..|l| - 1]), l[|l| - 1])
  }

  predicate AtLeast(l: seq<Job>, v: real) { forall i :: 0 <= i < |l| ==> v <= l[i].run }

  lemma {:induction false} InsertAtLeast(l: seq<Job>, x: Job, v: real)
    requires AtLeast(l, v) && v <= x.run
    ensures AtLeast(Insert(l, x), v)
  {
    if l != [] && !(x.run < l[0].run) { InsertAtLeast(l[1..], x, v); }
  }

  lemma {:induction false} InsertKeeps(l: seq<Job>, x: Job)
    ensures multiset(Insert(l, x)) == multiset(l) + multiset{x}
  {
    if l != [] && !(x.run < l[0].run) {
      InsertKeeps(l[1..], x);
      assert l == [l[0]] + l[1..];
    }
  }

  lemma {:induction false} InsertSorts(l: seq<Job>, x: Job)
    requires Sorted(l)
    ensures Sorted(Insert(l, x))
  {
    if l != [] && !(x.run < l[0].run) {
      InsertSorts(l[1..], x);
      InsertAtLeast(l[1..], x, l[0].run);
    }
  }

  lemma {:induction false} SortSorts(l: seq<Job>)
    ensures Sorted(Sort(l)) && multiset(Sort(l)) == multiset(l)
  {
    if l != [] {
      var n := |l| - 1;
      SortSorts(l[..n]);
      InsertSorts(Sort(l[..n]), l[n]);
      InsertKeeps(Sort(l[..n]), l[n]);
      assert l == l[..n] + [l[n]];
    }
  }

  /** The jobs with run time `v`, in order. */
  function WithRun(l: seq<Job>, v: real): seq<Job> {
    if l == [] then [] else (if l[0].run == v then [l[0]] else []) + WithRun(l[1..], v)
  }

  lemma {:induction false} NoneWithRun(l: seq<Job>, v: real)
    requires forall i :: 0 <= i < |l| ==> l[i].run > v
    ensures WithRun(l, v) == []
  {
    if l != [] { NoneWithRun(l[1..], v); }
  }

  lemma {:induction false} WithRunAppend(l: seq<Job>, x: Job, v: real)
    ensures WithRun(l + [x], v) == WithRun(l, v) + if x.run == v then [x] else []
  {
    if l == [] {
      assert [x][1..] == [];
    } else {
      WithRunAppend(l[1..], x, v);
      var h, t, w := if l[0].run == v then [l[0]] else [], if x.run == v then [x] else [], WithRun(l[1..], v);
      assert (l + [x])[1..] == l[1..] + [x] && h + (w + t) == (h + w) + t;
    }
  }

  lemma {:induction false} InsertIsStable(l: seq<Job>, x: Job, v: real)
    requires Sorted(l)
    ensures WithRun(Insert(l, x), v) == WithRun(l, v) + if x.run == v then [x] else []
  {
    if l == [] || x.run < l[0].run {
      assert ([x] + l)[1..] == l;
      if x.run == v { NoneWithRun(l, v); }
    } else {
      InsertIsStable(l[1..], x, v);
      assert ([l[0]] + Insert(l[1..], x))[1..] == Insert(l[1..], x);
    }
  }

  /** Jobs of equal run time keep their order. */
  lemma {:induction false} SortIsStable(l: seq<Job>, v: real)
    ensures WithRun(Sort(l), v) == WithRun(l, v)
  {
    hide Sorted, Insert, WithRun;
    if l != [] {
      var n := |l| - 1;
      SortIsStable(l[..n], v);
      SortSorts(l[..n]);
      InsertIsStable(Sort(l[..n]), l[n], v);
      WithRunAppend(l[..n], l[n], v);
      assert l == l[..n] + [l[n]];
    }
  }

  /** Running a shorter job earlier, before all of `a`, does not make the sum larger. */
  lemma {:induction false} MoveForward(a: seq<Job>, m: Job, b: seq<Job>, t: real)
    requires forall i :: 0 <= i < |a| ==> m.run <= a[i].run
    ensures Turnarounds([m] + (a + b), t) <= Turnarounds(a + ([m] + b), t)
  {
    if a == [] {
      assert a + b == b && a + ([m] + b) == [m] + b;
    } else {
      var x, rest := a[0], a[1..];
      MoveForward(rest, m, b, t + x.run);
      var later, sooner := a + ([m] + b), [m] + (a + b);
      assert later[1..] == rest + ([m] + b) && later[0] == x;
      assert sooner[1..] == a + b && (a + b)[1..] == rest + b && (a + b)[0] == x;
      assert ([m] + (rest + b))[1..] == rest + b;
      assert Turnarounds([m] + (rest + b), t + x.run) == (t + x.run + m.run) + Turnarounds(rest + b, t + x.run + m.run);
      assert Turnarounds(sooner, t) == (t + m.run) + ((t + m.run + x.run) + Turnarounds(rest + b, t + m.run + x.run));
    }
  }

  lemma OneOut(p: seq<Job>, k: nat)
    requires k < |p|
    ensures multiset(p) == multiset{p[k]} + multiset(p[..k] + p[k + 1..]) && p == p[..k] + ([p[k]] + p[k + 1..])
  {
    assert p == p[..k] + ([p[k]] + p[k + 1..]);
  }

  lemma SameRest(s: seq<Job>, p: seq<Job>, k: nat)
    requires s != [] && k < |p| && p[k] == s[0] && multiset(s) == multiset(p)
    ensures multiset(s[1..]) == multiset(p[..k] + p[k + 1..])
  {
    OneOut(p, k);
    OneOut(s, 0);
    assert s[..0] + s[1..] == s[1..];
    assert multiset(s[1..]) == multiset(s) - multiset{s[0]};
    assert multiset(p[..k] + p[k + 1..]) == multiset(p) - multiset{p[k]};
  }

  lemma Member(s: seq<Job>, p: seq<Job>, i: nat) returns (k: nat)
    requires multiset(s) == multiset(p) && i < |s|
    ensures k < |p| && p[k] == s[i]
  {
    assert s[i] in multiset(p);
    k :| 0 <= k < |p| && p[k] == s[i];
  }

  /** Of all orders of the same jobs, one sorted by run time has the smallest sum of turnaround times, and so of
      waiting times. */
  lemma {:induction false} SortedIsBest(s: seq<Job>, p: seq<Job>, t: real)
    requires Sorted(s) && multiset(s) == multiset(p)
    ensures Turnarounds(s, t) <= Turnarounds(p, t)
  {
    assert |s| == |multiset(s)| == |multiset(p)| == |p|;
    if s != [] {
      var m := s[0];
      var k := Member(s, p, 0);
      var a, b := p[..k], p[k + 1..];
      OneOut(p, k);
      SameRest(s, p, k);
      forall i | 0 <= i < |a| ensures m.run <= a[i].run { var j := Member(p, s, i); }
      MoveForward(a, m, b, t);
      SortedIsBest(s[1..], a + b, t + m.run);
      assert ([m] + (a + b))[1..] == a + b;
    }
  }

  /** SJF against any order in which the jobs could be run. */
  lemma SjfIsBest(joblist: seq<Job>, other: seq<Job>)
    requires multiset(other) == multiset(joblist)
    ensures Turnarounds(Sort(joblist), 0.0) <= Turnarounds(other, 0.0)
    ensures Waits(Sort(joblist), 0.0) <= Waits(other, 0.0)
  {
    SortSorts(joblist);
    SortedIsBest(Sort(joblist), other, 0.0);
    TurnaroundIsWaitPlusRun(Sort(joblist), 0.0);
    TurnaroundIsWaitPlusRun(other, 0.0);
    SameTotal(Sort(joblist), other);
  }

  lemma {:induction false} SameTotal(s: seq<Job>, p: seq<Job>)
    requires multiset(s) == multiset(p)
    ensures TotalRun(s) == TotalRun(p)
  {
    assert |s| == |multiset(s)| == |multiset(p)| == |p|;
    if s != [] {
      var m := s[0];
      var k := Member(s, p, 0);
      OneOut(p, k);
      SameRest(s, p, k);
      SameTotal(s[1..], p[..k] + p[k + 1..]);
      TotalMove(p[..k], m, p[k + 1..]);
    }
  }

  lemma {:induction false} TotalMove(a: seq<Job>, m: Job, b: seq<Job>)
    ensures TotalRun(a + ([m] + b)) == m.run + TotalRun(a + b)
  {
    if a == [] {
      assert a + ([m] + b) == [m] + b && a + b == b && ([m] + b)[1..] == b;
    } else {
      TotalMove(a[1..], m, b);
      assert (a + ([m] + b))[1..] == a[1..] + ([m] + b) && (a + b)[1..] == a[1..] + b;
    }
  }
}
