/** Whole-run theorems about the page-replacement loop: Belady's optimality of OPT, the competitive
    ratio of LRU, and the LRU stack property. */
module PagingTheorems {
  import opened Paging

  // ---------- demand paging with arbitrary victims ----------

  /** A reference to `p` with the page set `s` resident, evicting anything at all if the cache is full. */
  ghost predicate DemandStep(s: set<int>, p: int, k: nat, s': set<int>) {
    if p in s then s' == s
    else if |s| < k then s' == s + {p}
    else exists v :: v in s && s' == s - {v} + {p}
  }

  ghost predicate DemandStepAt(trace: seq<int>, k: nat, sets: seq<set<int>>, i: int)
    requires 0 <= i < |trace| && i + 1 < |sets|
  {
    DemandStep(sets[i], trace[i], k, sets[i + 1])
  }

  /** Any way of serving the trace from an empty cache of size `k`: the loop with any victim choices. */
  ghost predicate IsDemandRun(trace: seq<int>, k: nat, sets: seq<set<int>>) {
    && |sets| == |trace| + 1 && sets[0] == {}
    && forall i :: 0 <= i < |trace| ==> DemandStepAt(trace, k, sets, i)
  }

  ghost function Absent(p: int, s: set<int>): int {
    if p in s then 0 else 1
  }

  /** Misses among the first `i` references. */
  ghost function Misses(trace: seq<int>, sets: seq<set<int>>, i: nat): nat
    requires i <= |trace| <= |sets|
  {
    if i == 0 then 0 else Misses(trace, sets, i - 1) + Absent(trace[i - 1], sets[i - 1])
  }

  ghost function Memories(run: seq<State>): seq<seq<int>> {
    seq(|run|, i requires 0 <= i < |run| => run[i].memory)
  }

  ghost function Sets(mems: seq<seq<int>>): seq<set<int>> {
    seq(|mems|, i requires 0 <= i < |mems| => Pages(mems[i]))
  }

  ghost function Resident(run: seq<State>): (sets: seq<set<int>>)
    ensures |sets| == |run|
    ensures forall i :: 0 <= i < |run| ==> sets[i] == Pages(run[i].memory)
  {
    Sets(Memories(run))
  }

  lemma {:induction false} DemandRunBounds(trace: seq<int>, k: nat, sets: seq<set<int>>, i: nat)
    requires IsDemandRun(trace, k, sets) && i <= |trace| && k >= 1
    ensures |sets[i]| <= k && sets[i] <= Pages(trace[..i])
  {
    if i > 0 {
      DemandRunBounds(trace, k, sets, i - 1);
      assert DemandStepAt(trace, k, sets, i - 1);
      assert trace[..i] == trace[..i - 1] + [trace[i - 1]];
    }
  }

  lemma DistinctSize(m: seq<int>)
    requires Distinct(m)
    ensures |Pages(m)| == |m|
  {
    if m != [] {
      DistinctSize(m[1..]);
      assert Pages(m) == Pages(m[1..]) + {m[0]};
    }
  }

  lemma ReplaceIsSwap(policy: Policy, trace: seq<int>, i: nat, bits: int, s: State, s': State, j: nat)
    requires i < |trace| && Distinct(s.memory) && Replace(policy, trace, i, bits, s, s', j)
    ensures s.memory[j] in Pages(s.memory)
    ensures Pages(s'.memory) == Pages(s.memory) - {s.memory[j]} + {trace[i]}
  {
    WithoutKeepsDistinct(s.memory, j);
    AppendPages(Without(s.memory, j), trace[i]);
    assert s.memory[j] in Pages(s.memory);
  }

  lemma HitKeepsPages(policy: Policy, n: int, bits: int, s: State, s': State)
    requires Distinct(s.memory) && n in s.memory && Hit(policy, n, bits, s, s')
    ensures Pages(s'.memory) == Pages(s.memory)
  {
    var j := IndexOf(s.memory, n);
    WithoutKeepsDistinct(s.memory, j);
    AppendPages(Without(s.memory, j), n);
    assert n in Pages(s.memory);
  }

  lemma StepIsDemandStep(policy: Policy, trace: seq<int>, i: nat, k: nat, bits: int, s: State, s': State)
    requires i < |trace| && k >= 1 && Inv(policy, trace, k, s, i) && Step(policy, trace, i, k, bits, s, s')
    ensures DemandStep(Pages(s.memory), trace[i], k, Pages(s'.memory))
    ensures s'.misses == s.misses + Absent(trace[i], Pages(s.memory))
  {
    DistinctSize(s.memory);
    if trace[i] in s.memory {
      HitKeepsPages(policy, trace[i], bits, s, s');
    } else if |s.memory| == k {
      var j: nat :| Replace(policy, trace, i, bits, s, s', j);
      ReplaceIsSwap(policy, trace, i, bits, s, s', j);
    } else {
      AppendPages(s.memory, trace[i]);
    }
  }

  lemma RunStep(policy: Policy, trace: seq<int>, k: nat, bits: int, run: seq<State>, i: nat)
    requires IsRun(policy, trace, k, bits, run) && k >= 1 && i < |trace|
    ensures DemandStep(Resident(run)[i], trace[i], k, Resident(run)[i + 1])
    ensures run[i + 1].misses == run[i].misses + Absent(trace[i], Resident(run)[i])
  {
    RunInv(policy, trace, k, bits, run, |trace|, i);
    assert StepAt(policy, trace, k, bits, run, i);
    StepIsDemandStep(policy, trace, i, k, bits, run[i], run[i + 1]);
  }

  lemma {:induction false} MissCounter(policy: Policy, trace: seq<int>, k: nat, bits: int, run: seq<State>, i: nat)
    requires IsRun(policy, trace, k, bits, run) && k >= 1 && i <= |trace|
    ensures run[i].misses == Misses(trace, Resident(run), i)
  {
    if i > 0 {
      MissCounter(policy, trace, k, bits, run, i - 1);
      RunStep(policy, trace, k, bits, run, i - 1);
    }
  }

  /** Every policy of the simulator is a demand-paging run, and its miss counter counts that run. */
  lemma RunIsDemandRun(policy: Policy, trace: seq<int>, k: nat, bits: int, run: seq<State>)
    requires IsRun(policy, trace, k, bits, run) && k >= 1
    ensures IsDemandRun(trace, k, Resident(run))
    ensures forall i :: 0 <= i <= |trace| ==> run[i].misses == Misses(trace, Resident(run), i)
  {
    forall i | 0 <= i < |trace| ensures DemandStepAt(trace, k, Resident(run), i) {
      RunStep(policy, trace, k, bits, run, i);
    }
    forall i | 0 <= i <= |trace| ensures run[i].misses == Misses(trace, Resident(run), i) {
      MissCounter(policy, trace, k, bits, run, i);
    }
  }

  // ---------- Belady: OPT misses least ----------

  /** The pages of `s` whose next use at or after time `i` comes before time `x`. */
  ghost function Soon(trace: seq<int>, i: nat, s: set<int>, x: int): set<int>
    requires i <= |trace|
  {
    set q | q in s && NextUse(trace, i, q) < x
  }

  /** Up to `d` pages, `a` holds at least as many soon-needed pages as `b`, whatever "soon" means. */
  ghost predicate Ahead(trace: seq<int>, i: nat, a: set<int>, b: set<int>, d: int)
    requires i <= |trace|
  {
    forall x: int :: |Soon(trace, i, b, x)| <= |Soon(trace, i, a, x)| + d
  }

  lemma SoonAdd(trace: seq<int>, i: nat, s: set<int>, q: int, x: int)
    requires i <= |trace| && q !in s
    ensures |Soon(trace, i, s + {q}, x)| == |Soon(trace, i, s, x)| + (if NextUse(trace, i, q) < x then 1 else 0)
  {
    if NextUse(trace, i, q) < x {
      assert Soon(trace, i, s + {q}, x) == Soon(trace, i, s, x) + {q};
    } else {
      assert Soon(trace, i, s + {q}, x) == Soon(trace, i, s, x);
    }
  }

  /** Serving time `i` uses up exactly the referenced page. */
  lemma SoonNext(trace: seq<int>, i: nat, s: set<int>, x: int)
    requires i < |trace| && x > i
    ensures |Soon(trace, i, s, x)| == |Soon(trace, i + 1, s - {trace[i]}, x)| + 1 - Absent(trace[i], s)
  {
    var p := trace[i];
    if p in s {
      assert Soon(trace, i, s, x) == Soon(trace, i + 1, s - {p}, x) + {p};
    } else {
      assert Soon(trace, i, s, x) == Soon(trace, i + 1, s - {p}, x);
    }
  }

  lemma SoonSubset(trace: seq<int>, i: nat, s: set<int>, t: set<int>, x: int)
    requires i <= |trace| && s <= t
    ensures |Soon(trace, i, s, x)| <= |Soon(trace, i, t, x)|
  {
    SubsetSize(Soon(trace, i, s, x), Soon(trace, i, t, x));
  }

  lemma SubsetSize(s: set<int>, t: set<int>)
    requires s <= t
    ensures |s| <= |t|
  {
    assert t == s + (t - s);
  }

  /** Serving page `trace[i]` by furthest-in-the-future replacement. */
  ghost predicate FarthestStep(trace: seq<int>, i: nat, k: nat, a: set<int>, a': set<int>)
    requires i < |trace|
  {
    if trace[i] in a then a' == a
    else if |a| < k then a' == a + {trace[i]}
    else exists f :: IsFarthest(trace, i, a, f) && a' == a - {f} + {trace[i]}
  }

  ghost predicate FarthestStepAt(trace: seq<int>, k: nat, sets: seq<set<int>>, i: int)
    requires 0 <= i < |trace| && i + 1 < |sets|
  {
    FarthestStep(trace, i, k, sets[i], sets[i + 1])
  }

  ghost predicate IsFarthest(trace: seq<int>, i: nat, a: set<int>, f: int)
    requires i < |trace|
  {
    f in a && forall q :: q in a ==> NextUse(trace, i + 1, q) <= NextUse(trace, i + 1, f)
  }

  /** What a step leaves besides the referenced page. */
  lemma SoonAfter(trace: seq<int>, i: nat, s': set<int>, p: int, x: int)
    requires i <= |trace| && p in s'
    ensures |Soon(trace, i, s', x)| == |Soon(trace, i, s' - {p}, x)| + (if NextUse(trace, i, p) < x then 1 else 0)
  {
    assert s' - {p} + {p} == s';
    SoonAdd(trace, i, s' - {p}, p, x);
  }

  lemma FarthestOut(trace: seq<int>, i: nat, a: set<int>, f: int, x: int)
    requires i < |trace| && IsFarthest(trace, i, a, f)
    ensures var kept := |Soon(trace, i + 1, a - {f}, x)|;
            kept == |Soon(trace, i + 1, a, x)| || kept == |a| - 1
  {
    if NextUse(trace, i + 1, f) < x {
      assert Soon(trace, i + 1, a - {f}, x) == a - {f};
    } else {
      assert Soon(trace, i + 1, a - {f}, x) == Soon(trace, i + 1, a, x);
    }
  }

  /** Furthest-in-the-future either keeps every soon-needed page, or what it keeps is all soon needed. */
  lemma FarthestKeeps(trace: seq<int>, i: nat, k: nat, a: set<int>, a': set<int>, x: int)
    requires i < |trace| && k >= 1 && |a| <= k && FarthestStep(trace, i, k, a, a')
    ensures var kept := |Soon(trace, i + 1, a' - {trace[i]}, x)|;
            kept == |Soon(trace, i + 1, a - {trace[i]}, x)| || (kept >= k - 1 && trace[i] !in a)
  {
    var p := trace[i];
    if p !in a && |a| == k {
      var f :| IsFarthest(trace, i, a, f) && a' == a - {f} + {p};
      assert a' - {p} == a - {f} && a - {p} == a;
      FarthestOut(trace, i, a, f, x);
    } else {
      assert a' - {p} == a - {p};
    }
  }

  lemma DemandKeeps(trace: seq<int>, i: nat, k: nat, b: set<int>, b': set<int>, x: int)
    requires i < |trace| && k >= 1 && |b| <= k && DemandStep(b, trace[i], k, b')
    ensures trace[i] in b' && |Soon(trace, i + 1, b' - {trace[i]}, x)| <= |Soon(trace, i + 1, b - {trace[i]}, x)|
    ensures |Soon(trace, i + 1, b' - {trace[i]}, x)| <= k - 1
  {
    var p := trace[i];
    SoonSubset(trace, i + 1, b' - {p}, b - {p}, x);
    SubsetSize(Soon(trace, i + 1, b' - {p}, x), b' - {p});
    assert |b'| <= k;
  }

  lemma AheadAt(trace: seq<int>, i: nat, k: nat, a: set<int>, a': set<int>, b: set<int>, b': set<int>, d: int, x: int)
    requires i < x && i < |trace| && k >= 1 && |b| <= k && |a| <= k
    requires |Soon(trace, i, b, x)| <= |Soon(trace, i, a, x)| + d
    requires DemandStep(b, trace[i], k, b') && FarthestStep(trace, i, k, a, a')
    requires d + Absent(trace[i], b) - Absent(trace[i], a) >= 0
    ensures |Soon(trace, i + 1, b', x)| <= |Soon(trace, i + 1, a', x)| + d + Absent(trace[i], b) - Absent(trace[i], a)
  {
    SoonNext(trace, i, a, x);
    SoonNext(trace, i, b, x);
    DemandKeeps(trace, i, k, b, b', x);
    FarthestKeeps(trace, i, k, a, a', x);
    SoonAfter(trace, i + 1, b', trace[i], x);
    SoonAfter(trace, i + 1, a', trace[i], x);
  }

  /** The heart of the exchange argument: one reference moves the two runs' miss counts and the
      allowance `d` in step. */
  lemma AheadStep(trace: seq<int>, i: nat, k: nat, a: set<int>, a': set<int>, b: set<int>, b': set<int>, d: int)
    requires i < |trace| && k >= 1 && d >= 0 && |b| <= k && |a| <= k
    requires Ahead(trace, i, a, b, d)
    requires DemandStep(b, trace[i], k, b') && FarthestStep(trace, i, k, a, a')
    ensures d + Absent(trace[i], b) - Absent(trace[i], a) >= 0
    ensures Ahead(trace, i + 1, a', b', d + Absent(trace[i], b) - Absent(trace[i], a))
  {
    var p := trace[i];
    SoonNext(trace, i, a, i + 1);
    SoonNext(trace, i, b, i + 1);
    assert Soon(trace, i + 1, a - {p}, i + 1) == {} == Soon(trace, i + 1, b - {p}, i + 1);
    assert |Soon(trace, i, b, i + 1)| <= |Soon(trace, i, a, i + 1)| + d;
    var d' := d + Absent(p, b) - Absent(p, a);
    forall x: int {:trigger Soon(trace, i + 1, b', x)}
      ensures |Soon(trace, i + 1, b', x)| <= |Soon(trace, i + 1, a', x)| + d'
    {
      if x <= i {
        assert Soon(trace, i + 1, b', x) == {};
      } else {
        assert |Soon(trace, i, b, x)| <= |Soon(trace, i, a, x)| + d;
        AheadAt(trace, i, k, a, a', b, b', d, x);
      }
    }
  }

  lemma OptIsFarthest(trace: seq<int>, k: nat, bits: int, opt: seq<State>, i: nat)
    requires IsRun(OPT, trace, k, bits, opt) && k >= 1 && i < |trace|
    ensures FarthestStep(trace, i, k, Resident(opt)[i], Resident(opt)[i + 1])
  {
    RunInv(OPT, trace, k, bits, opt, |trace|, i);
    var s, s' := opt[i], opt[i + 1];
    assert StepAt(OPT, trace, k, bits, opt, i);
    DistinctSize(s.memory);
    if trace[i] in s.memory {
      HitKeepsPages(OPT, trace[i], bits, s, s');
    } else if |s.memory| == k {
      var j: nat :| Replace(OPT, trace, i, bits, s, s', j);
      ReplaceIsSwap(OPT, trace, i, bits, s, s', j);
      assert IsFarthest(trace, i, Pages(s.memory), s.memory[j]);
    } else {
      AppendPages(s.memory, trace[i]);
    }
  }

  lemma {:induction false} FarthestStaysAhead(trace: seq<int>, k: nat, opt: seq<set<int>>, other: seq<set<int>>, i: nat)
    requires IsDemandRun(trace, k, opt) && k >= 1 && IsDemandRun(trace, k, other) && i <= |trace|
    requires forall t :: 0 <= t < |trace| ==> FarthestStepAt(trace, k, opt, t)
    ensures Misses(trace, opt, i) <= Misses(trace, other, i)
    ensures Ahead(trace, i, opt[i], other[i], Misses(trace, other, i) - Misses(trace, opt, i))
  {
    if i > 0 {
      var t := i - 1;
      FarthestStaysAhead(trace, k, opt, other, t);
      DemandRunBounds(trace, k, opt, t);
      DemandRunBounds(trace, k, other, t);
      assert FarthestStepAt(trace, k, opt, t) && DemandStepAt(trace, k, other, t);
      AheadStep(trace, t, k, opt[t], opt[i], other[t], other[i], Misses(trace, other, t) - Misses(trace, opt, t));
    }
  }

  /** Belady's theorem: at every point of every trace, OPT has missed no more often than the loop
      with any other sequence of victim choices. */
  lemma OptIsOptimal(trace: seq<int>, k: nat, bits: int, opt: seq<State>, other: seq<set<int>>)
    requires IsRun(OPT, trace, k, bits, opt) && k >= 1 && IsDemandRun(trace, k, other)
    ensures forall i :: 0 <= i <= |trace| ==> opt[i].misses <= Misses(trace, other, i)
  {
    RunIsDemandRun(OPT, trace, k, bits, opt);
    forall i | 0 <= i < |trace| ensures FarthestStepAt(trace, k, Resident(opt), i) {
      OptIsFarthest(trace, k, bits, opt, i);
    }
    forall i | 0 <= i <= |trace| ensures opt[i].misses <= Misses(trace, other, i) {
      FarthestStaysAhead(trace, k, Resident(opt), other, i);
    }
  }

  /** In particular OPT's final hit count is at least that of every policy of the simulator. */
  lemma OptBeatsEveryPolicy(trace: seq<int>, k: nat, bits: int, opt: seq<State>, policy: Policy, run: seq<State>)
    requires IsRun(OPT, trace, k, bits, opt) && k >= 1 && IsRun(policy, trace, k, bits, run)
    ensures opt[|trace|].misses <= run[|trace|].misses && opt[|trace|].hits >= run[|trace|].hits
  {
    RunIsDemandRun(policy, trace, k, bits, run);
    OptIsOptimal(trace, k, bits, opt, Resident(run));
    RunInv(policy, trace, k, bits, run, |trace|, |trace|);
    RunInv(OPT, trace, k, bits, opt, |trace|, |trace|);
  }

  // ---------- LRU is k-competitive ----------

  /** Each LRU page the other run lacks, weighted by recency: the most recent weighs `w`, the next
      `w - 1`, and so on. */
  ghost function Debt(lru: seq<int>, b: set<int>, w: int): int {
    if lru == [] then 0
    else Debt(lru[..|lru| - 1], b, w - 1) + (if lru[|lru| - 1] in b then 0 else w)
  }

  ghost function Lacks(lru: seq<int>, b: set<int>): int {
    if Pages(lru) <= b then 0 else 1
  }

  lemma {:induction false} DebtLighter(lru: seq<int>, b: set<int>, w: int)
    requires |lru| <= w
    ensures 0 <= Debt(lru, b, w)
    ensures Debt(lru, b, w - 1) <= Debt(lru, b, w) - Lacks(lru, b)
  {
    if lru != [] {
      DebtLighter(lru[..|lru| - 1], b, w - 1);
      assert lru == lru[..|lru| - 1] + [lru[|lru| - 1]];
      AppendPages(lru[..|lru| - 1], lru[|lru| - 1]);
    }
  }

  lemma {:induction false} DebtAdd(lru: seq<int>, b: set<int>, p: int, w: int)
    requires |lru| <= w
    ensures Debt(lru, b + {p}, w) <= Debt(lru, b, w)
  {
    if lru != [] {
      DebtAdd(lru[..|lru| - 1], b, p, w - 1);
    }
  }

  lemma {:induction false} DebtDrop(lru: seq<int>, b: set<int>, v: int, w: int)
    requires |lru| <= w && Distinct(lru)
    ensures Debt(lru, b - {v}, w) <= Debt(lru, b, w) + (if v in lru then w else 0)
  {
    if lru != [] {
      var rest := lru[..|lru| - 1];
      DebtDrop(rest, b, v, w - 1);
      assert lru == rest + [lru[|lru| - 1]];
      assert lru[|lru| - 1] !in rest;
    }
  }

  lemma DebtSnoc(m: seq<int>, p: int, b: set<int>, w: int)
    ensures Debt(m + [p], b, w) == Debt(m, b, w - 1) + (if p in b then 0 else w)
  {
    assert (m + [p])[..|m|] == m;
  }

  /** Moving a page both runs hold to the recent end never adds debt. */
  lemma {:induction false} DebtWithout(lru: seq<int>, j: nat, b: set<int>, w: int)
    requires j < |lru| <= w && lru[j] in b
    ensures Debt(Without(lru, j), b, w - 1) <= Debt(lru, b, w)
  {
    var last := |lru| - 1;
    if j == last {
      assert Without(lru, j) == lru[..last];
    } else {
      assert Without(lru, j) == Without(lru[..last], j) + [lru[last]];
      DebtSnoc(Without(lru[..last], j), lru[last], b, w - 1);
      DebtWithout(lru[..last], j, b, w - 1);
    }
  }

  lemma {:induction false} DebtPop(lru: seq<int>, b: set<int>, w: int)
    requires lru != []
    ensures Debt(lru, b, w) == Debt(lru[1..], b, w) + (if lru[0] in b then 0 else w - |lru| + 1)
  {
    if |lru| > 1 {
      DebtPop(lru[..|lru| - 1], b, w - 1);
      assert lru[1..][..|lru| - 2] == lru[..|lru| - 1][1..];
    }
  }

  /** LRU's memory after serving `p`. */
  ghost function LruNext(m: seq<int>, p: int, k: nat): seq<int>
    requires k >= 1
  {
    if p in m then Without(m, IndexOf(m, p)) + [p]
    else if |m| == k then Without(m, 0) + [p]
    else m + [p]
  }

  /** The other run's own step costs at most `k` of debt, and only when it misses. */
  lemma OtherServes(lru: seq<int>, k: nat, p: int, b: set<int>, b': set<int>)
    requires Distinct(lru) && |lru| <= k && DemandStep(b, p, k, b')
    requires |lru| < k ==> b <= Pages(lru)
    ensures Debt(lru, b', k) <= Debt(lru, b, k) + (if p in b || |lru| < k then 0 else k)
  {
    if p !in b {
      if |b| < k {
        DebtAdd(lru, b, p, k);
      } else {
        var v :| v in b && b' == b - {v} + {p};
        DebtDrop(lru, b, v, k);
        DebtAdd(lru, b - {v}, p, k);
        if |lru| < k {
          DistinctSize(lru);
          SubsetSize(b, Pages(lru));
        }
      }
    }
  }

  lemma LruServesHit(m: seq<int>, p: int, k: nat, b': set<int>)
    requires k >= 1 && |m| <= k && p in m && p in b'
    ensures Debt(LruNext(m, p, k), b', k) <= Debt(m, b', k)
  {
    var j := IndexOf(m, p);
    DebtSnoc(Without(m, j), p, b', k);
    DebtWithout(m, j, b', k);
  }

  lemma LruServesFill(m: seq<int>, p: int, k: nat, b': set<int>)
    requires k >= 1 && |m| < k && p !in m && p in b'
    ensures Debt(LruNext(m, p, k), b', k) <= Debt(m, b', k)
  {
    DebtSnoc(m, p, b', k);
    DebtLighter(m, b', k);
  }

  /** A full cache that misses holds something the other run lacks. */
  lemma SomethingLacking(m: seq<int>, p: int, k: nat, b': set<int>)
    requires Distinct(m) && |m| == k && p !in m && p in b' && |b'| <= k
    ensures !(Pages(m) <= b')
  {
    DistinctSize(m);
    assert p !in Pages(m) && |Pages(m) + {p}| == k + 1;
    if Pages(m) <= b' {
      SubsetSize(Pages(m) + {p}, b');
      assert false;
    }
  }

  lemma LruServesEvict(m: seq<int>, p: int, k: nat, b': set<int>)
    requires k >= 1 && Distinct(m) && |m| == k && p !in m && p in b' && |b'| <= k
    ensures Debt(LruNext(m, p, k), b', k) <= Debt(m, b', k) - 1
  {
    var rest := m[1..];
    assert Without(m, 0) == rest;
    SomethingLacking(m, p, k, b');
    assert Pages(m) == Pages(rest) + {m[0]};
    DebtSnoc(rest, p, b', k);
    DebtPop(m, b', k);
    DebtLighter(rest, b', k);
  }

  /** LRU's step is free on a hit and repaid by one unit of debt on a miss in a full cache. */
  lemma LruServes(m: seq<int>, p: int, k: nat, b': set<int>)
    requires k >= 1 && Distinct(m) && |m| <= k && p in b' && |b'| <= k
    ensures Debt(LruNext(m, p, k), b', k) <= Debt(m, b', k) - (if p !in m && |m| == k then 1 else 0)
  {
    if p in m {
      LruServesHit(m, p, k, b');
    } else if |m| < k {
      LruServesFill(m, p, k, b');
    } else {
      LruServesEvict(m, p, k, b');
    }
  }

  lemma LruStep(trace: seq<int>, k: nat, bits: int, lru: seq<State>, i: nat)
    requires IsRun(LRU, trace, k, bits, lru) && k >= 1 && i < |trace|
    ensures lru[i + 1].memory == LruNext(lru[i].memory, trace[i], k)
    ensures lru[i + 1].misses == lru[i].misses + Absent(trace[i], Pages(lru[i].memory))
    ensures lru[i + 1].hits == lru[i].hits + 1 - Absent(trace[i], Pages(lru[i].memory))
    ensures Distinct(lru[i].memory) && |lru[i].memory| <= k
    ensures |lru[i].memory| < k ==> Pages(trace[..i]) == Pages(lru[i].memory)
  {
    RunInv(LRU, trace, k, bits, lru, |trace|, i);
    assert StepAt(LRU, trace, k, bits, lru, i);
  }

  ghost predicate LruNextAt(trace: seq<int>, k: nat, mems: seq<seq<int>>, i: int)
    requires k >= 1 && 0 <= i < |trace| && i + 1 < |mems|
  {
    mems[i + 1] == LruNext(mems[i], trace[i], k)
  }

  /** The memories of an LRU run, with nothing else. */
  ghost predicate IsLruRun(trace: seq<int>, k: nat, mems: seq<seq<int>>)
    requires k >= 1
  {
    && |mems| == |trace| + 1 && mems[0] == []
    && forall i :: 0 <= i < |trace| ==> LruNextAt(trace, k, mems, i)
  }

  lemma RunEnds(policy: Policy, trace: seq<int>, k: nat, bits: int, run: seq<State>)
    requires IsRun(policy, trace, k, bits, run)
    ensures |run| == |trace| + 1 && run[0].memory == []
  {
  }

  lemma LruRunIs(trace: seq<int>, k: nat, bits: int, lru: seq<State>)
    requires IsRun(LRU, trace, k, bits, lru) && k >= 1
    ensures IsLruRun(trace, k, Memories(lru))
  {
    hide IsRun, LruNext, Distinct, Pages;
    RunEnds(LRU, trace, k, bits, lru);
    forall i: nat | i < |trace| ensures LruNextAt(trace, k, Memories(lru), i) {
      LruStep(trace, k, bits, lru, i);
    }
  }

  lemma LruNextFacts(m: seq<int>, p: int, k: nat)
    requires k >= 1 && Distinct(m) && |m| <= k
    ensures Distinct(LruNext(m, p, k)) && |m| <= |LruNext(m, p, k)| <= k
    ensures |LruNext(m, p, k)| < k ==> Pages(LruNext(m, p, k)) == Pages(m) + {p}
  {
    if p in m {
      var j := IndexOf(m, p);
      WithoutKeepsDistinct(m, j);
      AppendPages(Without(m, j), p);
      assert p in Pages(m) && p !in Pages(Without(m, j));
    } else {
      AppendPages(m, p);
    }
  }

  lemma {:induction false} LruRunBounds(trace: seq<int>, k: nat, mems: seq<seq<int>>, i: nat)
    requires k >= 1 && IsLruRun(trace, k, mems) && i <= |trace|
    ensures Distinct(mems[i]) && |mems[i]| <= k
    ensures |mems[i]| < k ==> Pages(mems[i]) == Pages(trace[..i])
  {
    if i > 0 {
      LruRunBounds(trace, k, mems, i - 1);
      assert LruNextAt(trace, k, mems, i - 1);
      LruNextFacts(mems[i - 1], trace[i - 1], k);
      assert trace[..i] == trace[..i - 1] + [trace[i - 1]];
      AppendPages(trace[..i - 1], trace[i - 1]);
    }
  }

  lemma DebtStepAt(trace: seq<int>, k: nat, lru: seq<seq<int>>, other: seq<set<int>>, t: nat)
    requires k >= 1 && IsLruRun(trace, k, lru) && IsDemandRun(trace, k, other) && t < |trace|
    ensures Debt(lru[t + 1], other[t + 1], k) + Absent(trace[t], Pages(lru[t]))
         <= Debt(lru[t], other[t], k) + (if trace[t] in other[t] then 0 else k)
  {
    LruRunBounds(trace, k, lru, t);
    DemandRunBounds(trace, k, other, t);
    DemandRunBounds(trace, k, other, t + 1);
    assert LruNextAt(trace, k, lru, t) && DemandStepAt(trace, k, other, t);
    DebtStep(trace, k, t, lru[t], other[t], other[t + 1]);
  }

  /** `k` for every miss among the first `i` references. */
  ghost function Charges(trace: seq<int>, sets: seq<set<int>>, k: nat, i: nat): nat
    requires i <= |trace| <= |sets|
  {
    if i == 0 then 0 else Charges(trace, sets, k, i - 1) + (if trace[i - 1] in sets[i - 1] then 0 else k)
  }

  lemma {:induction false} ChargesAre(trace: seq<int>, sets: seq<set<int>>, k: nat, i: nat)
    requires i <= |trace| <= |sets|
    ensures Charges(trace, sets, k, i) == k * Misses(trace, sets, i)
  {
    if i > 0 {
      ChargesAre(trace, sets, k, i - 1);
    }
  }

  lemma {:induction false} LruPaysItsDebt(trace: seq<int>, k: nat, lru: seq<seq<int>>, other: seq<set<int>>, i: nat)
    requires k >= 1 && IsLruRun(trace, k, lru) && IsDemandRun(trace, k, other) && i <= |trace|
    ensures Misses(trace, Sets(lru), i) + Debt(lru[i], other[i], k) <= Charges(trace, other, k, i)
  {
    if i > 0 {
      LruPaysItsDebt(trace, k, lru, other, i - 1);
      DebtStepAt(trace, k, lru, other, i - 1);
    }
  }

  lemma DebtStep(trace: seq<int>, k: nat, t: nat, m: seq<int>, b: set<int>, b': set<int>)
    requires k >= 1 && t < |trace| && Distinct(m) && |m| <= k && |b'| <= k
    requires |m| < k ==> Pages(trace[..t]) == Pages(m)
    requires b <= Pages(trace[..t]) && DemandStep(b, trace[t], k, b')
    ensures Debt(LruNext(m, trace[t], k), b', k) +
      Absent(trace[t], Pages(m)) <= Debt(m, b, k) + (if trace[t] in b then 0 else k)
  {
    OtherServes(m, k, trace[t], b, b');
    LruServes(m, trace[t], k, b');
    assert trace[t] in b ==> trace[t] in Pages(trace[..t]);
  }

  /** LRU's misses are at most `k` times those of any other way of serving the trace with the same
      cache size, OPT included, at every point of the trace. */
  lemma LruIsCompetitive(trace: seq<int>, k: nat, bits: int, lru: seq<State>, other: seq<set<int>>)
    requires IsRun(LRU, trace, k, bits, lru) && k >= 1 && IsDemandRun(trace, k, other)
    ensures forall i :: 0 <= i <= |trace| ==> lru[i].misses <= k * Misses(trace, other, i)
  {
    LruRunIs(trace, k, bits, lru);
    RunIsDemandRun(LRU, trace, k, bits, lru);
    forall i | 0 <= i <= |trace| ensures lru[i].misses <= k * Misses(trace, other, i) {
      LruPaysItsDebt(trace, k, Memories(lru), other, i);
      ChargesAre(trace, other, k, i);
      LruRunBounds(trace, k, Memories(lru), i);
      DebtLighter(lru[i].memory, other[i], k);
    }
  }

  lemma LruAgainstOpt(trace: seq<int>, k: nat, bits: int, lru: seq<State>, opt: seq<State>)
    requires IsRun(LRU, trace, k, bits, lru) && k >= 1 && IsRun(OPT, trace, k, bits, opt)
    ensures opt[|trace|].misses <= lru[|trace|].misses <= k * opt[|trace|].misses
  {
    RunIsDemandRun(OPT, trace, k, bits, opt);
    LruIsCompetitive(trace, k, bits, lru, Resident(opt));
    OptBeatsEveryPolicy(trace, k, bits, opt, LRU, lru);
  }

  // ---------- the LRU stack ----------

  /** The distinct pages of a trace, least recently used first. */
  ghost function Recency(trace: seq<int>): (r: seq<int>)
    ensures Pages(r) == Pages(trace)
  {
    if trace == [] then [] else
      var before, n := Recency(trace[..|trace| - 1]), trace[|trace| - 1];
      RecencyPages(before, trace[..|trace| - 1], n);
      assert trace == trace[..|trace| - 1] + [n];
      MoveToEnd(before, n)
  }

  lemma RecencyPages(before: seq<int>, trace: seq<int>, n: int)
    requires Pages(before) == Pages(trace)
    ensures Pages(MoveToEnd(before, n)) == Pages(trace + [n])
  {
    AppendPages(trace, n);
    if n in before {
      var j := IndexOf(before, n);
      AppendPages(Without(before, j), n);
      forall q | q in before && q != n ensures q in Without(before, j) {
        var a :| 0 <= a < |before| && before[a] == q;
        assert Without(before, j)[if a < j then a else a - 1] == q;
      }
      assert n in Pages(before);
    } else {
      AppendPages(before, n);
    }
  }

  ghost function LastK(m: seq<int>, k: nat): seq<int> {
    if |m| <= k then m else m[|m| - k..]
  }

  lemma {:induction false} RecencyDistinct(trace: seq<int>)
    ensures Distinct(Recency(trace))
  {
    if trace != [] {
      var before, n := Recency(trace[..|trace| - 1]), trace[|trace| - 1];
      RecencyDistinct(trace[..|trace| - 1]);
      if n in before {
        WithoutKeepsDistinct(before, IndexOf(before, n));
        assert n !in Pages(Without(before, IndexOf(before, n)));
      }
    }
  }

  ghost function MoveToEnd(all: seq<int>, n: int): seq<int> {
    (if n in all then Without(all, IndexOf(all, n)) else all) + [n]
  }

  lemma {:induction false} IndexOfAppend(pre: seq<int>, m: seq<int>, n: int)
    requires n !in pre && n in m
    ensures n in pre + m && IndexOf(pre + m, n) == |pre| + IndexOf(m, n)
  {
    if pre == [] {
      assert pre + m == m;
    } else {
      assert (pre + m)[1..] == pre[1..] + m;
      IndexOfAppend(pre[1..], m, n);
    }
  }

  lemma AppendLastK(pre: seq<int>, m: seq<int>, k: nat)
    requires |m| == k || (pre == [] && |m| <= k)
    ensures LastK(pre + m, k) == m
  {
  }

  lemma WithoutAppend(pre: seq<int>, m: seq<int>, j: nat)
    requires j < |m|
    ensures Without(pre + m, |pre| + j) == pre + Without(m, j)
  {
    assert (pre + m)[..|pre| + j] == pre + m[..j];
    assert (pre + m)[|pre| + j + 1..] == m[j + 1..];
  }

  lemma Assoc(a: seq<int>, b: seq<int>, c: seq<int>)
    ensures a + b + c == a + (b + c)
  {
  }

  lemma MoveToEndAppend(pre: seq<int>, m: seq<int>, n: int)
    requires n !in pre && n in m
    ensures MoveToEnd(pre + m, n) == pre + (Without(m, IndexOf(m, n)) + [n])
  {
    IndexOfAppend(pre, m, n);
    WithoutAppend(pre, m, IndexOf(m, n));
    Assoc(pre, Without(m, IndexOf(m, n)), [n]);
  }

  lemma RecencyHit(all: seq<int>, n: int, k: nat)
    requires Distinct(all) && k >= 1 && n in LastK(all, k)
    ensures LastK(MoveToEnd(all, n), k) == LruNext(LastK(all, k), n, k)
  {
    var mem := LastK(all, k);
    var pre := all[..|all| - |mem|];
    assert all == pre + mem;
    var a := IndexOf(mem, n);
    forall b | 0 <= b < |pre| ensures pre[b] != n {
      assert all[b] != all[|pre| + a];
    }
    MoveToEndAppend(pre, mem, n);
    AppendLastK(pre, Without(mem, a) + [n], k);
  }

  lemma RecencyReload(all: seq<int>, n: int, k: nat)
    requires k >= 1 && n in all && n !in LastK(all, k)
    ensures LastK(MoveToEnd(all, n), k) == LruNext(LastK(all, k), n, k)
  {
    var mem, j := LastK(all, k), IndexOf(all, n);
    var cut, rest := |all| - k, Without(all, j);
    forall a | cut <= a < |all| ensures all[a] != n {
      assert mem[a - cut] == all[a];
    }
    assert rest[cut..] == all[cut + 1..];
    assert (rest + [n])[cut..] == rest[cut..] + [n];
    assert LruNext(mem, n, k) == all[cut + 1..] + [n];
  }

  lemma RecencyNew(all: seq<int>, n: int, k: nat)
    requires k >= 1 && n !in all
    ensures LastK(MoveToEnd(all, n), k) == LruNext(LastK(all, k), n, k)
  {
    assert n !in LastK(all, k);
    assert MoveToEnd(all, n) == all + [n];
    if |all| >= k {
      assert LruNext(LastK(all, k), n, k) == all[|all| - k + 1..] + [n];
    }
  }

  /** LRU memory of size `k` is, at every step, the last `k` distinct pages by recency. */
  lemma {:induction false} LruMemoryIsRecency(trace: seq<int>, k: nat, mems: seq<seq<int>>, i: nat)
    requires k >= 1 && IsLruRun(trace, k, mems) && i <= |trace|
    ensures mems[i] == LastK(Recency(trace[..i]), k)
  {
    if i > 0 {
      var t := i - 1;
      LruMemoryIsRecency(trace, k, mems, t);
      assert LruNextAt(trace, k, mems, t);
      assert trace[..i][..t] == trace[..t];
      var all, n := Recency(trace[..t]), trace[t];
      RecencyDistinct(trace[..t]);
      if n in mems[t] {
        RecencyHit(all, n, k);
      } else if n in all {
        RecencyReload(all, n, k);
      } else {
        RecencyNew(all, n, k);
      }
    }
  }

  lemma {:induction false} FewerMisses(trace: seq<int>, small: seq<set<int>>, large: seq<set<int>>, i: nat)
    requires i <= |trace| && |small| == |large| == |trace| + 1
    requires forall t :: 0 <= t <= |trace| ==> small[t] <= large[t]
    ensures Misses(trace, large, i) <= Misses(trace, small, i)
  {
    if i > 0 {
      FewerMisses(trace, small, large, i - 1);
      assert small[i - 1] <= large[i - 1];
    }
  }

  /** The stack property: a smaller LRU cache always holds the most recent end of a larger one, so a
      larger cache has hit at least as often at every point. */
  lemma LruStack(trace: seq<int>, k: nat, k': nat, bits: int, small: seq<State>, large: seq<State>)
    requires 1 <= k <= k'
    requires IsRun(LRU, trace, k, bits, small) && IsRun(LRU, trace, k', bits, large)
    ensures forall i :: 0 <= i <= |trace| ==> small[i].memory == LastK(large[i].memory, k)
    ensures forall i :: 0 <= i <= |trace| ==> small[i].hits <= large[i].hits
  {
    LruRunIs(trace, k, bits, small);
    LruRunIs(trace, k', bits, large);
    forall i | 0 <= i <= |trace| ensures small[i].memory == LastK(large[i].memory, k) {
      LruMemoryIsRecency(trace, k, Memories(small), i);
      LruMemoryIsRecency(trace, k', Memories(large), i);
    }
    RunIsDemandRun(LRU, trace, k, bits, small);
    RunIsDemandRun(LRU, trace, k', bits, large);
    forall i | 0 <= i <= |trace| ensures small[i].hits <= large[i].hits {
      FewerMisses(trace, Resident(small), Resident(large), i);
      RunInv(LRU, trace, k, bits, small, |trace|, i);
      RunInv(LRU, trace, k', bits, large, |trace|, i);
    }
  }
}
