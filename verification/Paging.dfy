/** The page-replacement simulator of vm-beyondphys-policy/paging-policy.py.

    `Step` says what one turn of the reference loop may do under each policy, `IsRun` what a whole
    run is, and `Simulate` is the loop itself.  The theorems about runs are in PagingTheorems.dfy.
 */
module Paging {

  datatype Policy = FIFO | LRU | MRU | RAND | CLOCK | OPT | UNOPT

  /** What the simulator knows (and prints) after a reference.  `victim` is the page thrown out by
      that reference, or -1. */
  datatype State = State(memory: seq<int>, ref: map<int, int>, victim: int, hits: nat, misses: nat)

  const START := State([], map[], -1, 0, 0)

  ghost predicate Distinct(m: seq<int>) {
    forall a, b :: 0 <= a < b < |m| ==> m[a] != m[b]
  }

  ghost function Pages(m: seq<int>): set<int> {
    set q | q in m
  }

  function Without(m: seq<int>, j: nat): seq<int>
    requires j < |m|
  {
    m[..j] + m[j + 1..]
  }

  /** Position of the first `n`, as Python's list.index and list.remove find it. */
  function IndexOf(m: seq<int>, n: int): (j: nat)
    requires n in m
    ensures j < |m| && m[j] == n
  {
    if m[0] == n then 0 else 1 + IndexOf(m[1..], n)
  }

  /** The first position at or after `from` that references page `p`, or |trace| if there is none. */
  ghost function NextUse(trace: seq<int>, from: nat, p: int): (t: nat)
    requires from <= |trace|
    ensures from <= t <= |trace|
    decreases |trace| - from
  {
    if from == |trace| then |trace| else if trace[from] == p then from else NextUse(trace, from + 1, p)
  }

  /** What NextUse means. */
  lemma {:induction false} NextUseIsFirst(trace: seq<int>, from: nat, p: int, t: nat)
    requires from <= t <= |trace|
    ensures t == NextUse(trace, from, p) <==>
      (t == |trace| || trace[t] == p) && forall u :: from <= u < t ==> trace[u] != p
    decreases |trace| - from
  {
    if from < |trace| && trace[from] != p && from < t {
      NextUseIsFirst(trace, from + 1, p, t);
    }
  }

  /** The reference-bit update that closes every turn of the loop. */
  function Touch(ref: map<int, int>, n: int, clockbits: int): map<int, int> {
    if n !in ref then ref[n := 1]
    else ref[n := if ref[n] + 1 > clockbits then clockbits else ref[n] + 1]
  }

  /** What the CLOCK scan may leave in the reference bits when it settles on `victim`: bits only
      count down, never below zero, and the victim's entry is deleted. */
  ghost predicate Scanned(memory: seq<int>, ref: map<int, int>, victim: int, ref': map<int, int>) {
    && ref'.Keys == ref.Keys - {victim}
    && forall q :: q in ref' ==>
      if q in memory && ref[q] >= 1 then 0 <= ref'[q] <= ref[q] else ref'[q] == ref[q]
  }

  /** May slot `j` be the one emptied by the miss at time `i`? */
  ghost predicate MayEvict(policy: Policy, trace: seq<int>, i: nat, memory: seq<int>, j: nat)
    requires i < |trace| && j < |memory|
  {
    match policy
    case FIFO => j == 0
    case LRU => j == 0
    case MRU => j == |memory| - 1
    case RAND => true
    case CLOCK => true
    case OPT =>
      && (forall q :: 0 <= q < |memory| ==> NextUse(trace, i + 1, memory[q]) <= NextUse(trace, i + 1, memory[j]))
      && (forall q :: j < q < |memory| ==> NextUse(trace, i + 1, memory[q]) < NextUse(trace, i + 1, memory[j]))
    case UNOPT =>
      && (forall q :: 0 <= q < |memory| ==> NextUse(trace, i + 1, memory[j]) <= NextUse(trace, i + 1, memory[q]))
      && (forall q :: 0 <= q < j ==> NextUse(trace, i + 1, memory[j]) < NextUse(trace, i + 1, memory[q]))
  }

  ghost predicate Hit(policy: Policy, n: int, bits: int, s: State, s': State)
    requires n in s.memory
  {
    && s'.hits == s.hits + 1 && s'.misses == s.misses && s'.victim == -1
    && s'.memory == (if policy.LRU? || policy.MRU? then Without(s.memory, IndexOf(s.memory, n)) + [n] else s.memory)
    && s'.ref == Touch(s.ref, n, bits)
  }

  ghost predicate Fill(n: int, bits: int, s: State, s': State) {
    && s'.hits == s.hits && s'.misses == s.misses + 1 && s'.victim == -1
    && s'.memory == s.memory + [n]
    && s'.ref == Touch(s.ref, n, bits)
  }

  ghost predicate Replace(policy: Policy, trace: seq<int>, i: nat, bits: int, s: State, s': State, j: nat)
    requires i < |trace|
  {
    && j < |s.memory| && MayEvict(policy, trace, i, s.memory, j)
    && s'.hits == s.hits && s'.misses == s.misses + 1 && s'.victim == s.memory[j]
    && s'.memory == Without(s.memory, j) + [trace[i]]
    && (if policy.CLOCK?
        then exists r :: Scanned(s.memory, s.ref, s.memory[j], r) && s'.ref == Touch(r, trace[i], bits)
        else s'.ref == Touch(s.ref, trace[i], bits))
  }

  /** One turn of the loop: the reference at time `i` takes `s` to `s'`. */
  ghost predicate Step(policy: Policy, trace: seq<int>, i: nat, k: nat, bits: int, s: State, s': State)
    requires i < |trace|
  {
    if trace[i] in s.memory then Hit(policy, trace[i], bits, s, s')
    else if |s.memory| == k then exists j: nat :: Replace(policy, trace, i, bits, s, s', j)
    else Fill(trace[i], bits, s, s')
  }

  ghost predicate StepAt(policy: Policy, trace: seq<int>, k: nat, bits: int, run: seq<State>, i: int)
    requires 0 <= i < |trace| && i + 1 < |run|
  {
    Step(policy, trace, i, k, bits, run[i], run[i + 1])
  }

  ghost predicate IsRunTo(policy: Policy, trace: seq<int>, k: nat, bits: int, run: seq<State>, n: nat)
    requires n <= |trace|
  {
    && |run| == n + 1 && run[0] == START
    && forall i :: 0 <= i < n ==> StepAt(policy, trace, k, bits, run, i)
  }

  /** `run[i]` is the state after the first `i` references. */
  ghost predicate IsRun(policy: Policy, trace: seq<int>, k: nat, bits: int, run: seq<State>) {
    IsRunTo(policy, trace, k, bits, run, |trace|)
  }

  // ---------- what every state of every run satisfies ----------

  /** Memory holds distinct pages, at most `k`, all of them referenced; while it is not full nothing
      was ever evicted; the counters add up to the references so far; the page just evicted is gone;
      and under CLOCK exactly the resident pages have reference bits (else every page seen so far). */
  ghost predicate Inv(policy: Policy, trace: seq<int>, k: nat, s: State, i: nat)
    requires i <= |trace|
  {
    && Distinct(s.memory) && |s.memory| <= k
    && Pages(s.memory) <= Pages(trace[..i])
    && s.hits + s.misses == i
    && (|s.memory| < k ==> |s.memory| == s.misses && Pages(trace[..i]) == Pages(s.memory))
    && (s.victim != -1 ==> s.victim !in s.memory)
    && s.ref.Keys == (if policy.CLOCK? then Pages(s.memory) else Pages(trace[..i]))
  }

  lemma WithoutKeepsDistinct(m: seq<int>, j: nat)
    requires Distinct(m) && j < |m|
    ensures Distinct(Without(m, j)) && Pages(Without(m, j)) == Pages(m) - {m[j]}
  {
    forall q | q in Pages(m) - {m[j]} ensures q in Pages(Without(m, j)) {
      var a :| 0 <= a < |m| && m[a] == q;
      assert Without(m, j)[if a < j then a else a - 1] == q;
    }
  }

  lemma AppendPages(m: seq<int>, n: int)
    ensures Pages(m + [n]) == Pages(m) + {n}
  {
    forall q | q in Pages(m) + {n} ensures q in m + [n] {
      if q == n { assert (m + [n])[|m|] == n; }
    }
  }

  lemma HitKeepsInv(policy: Policy, trace: seq<int>, i: nat, k: nat, bits: int, s: State, s': State)
    requires i < |trace| && Inv(policy, trace, k, s, i) && trace[i] in s.memory
    requires Hit(policy, trace[i], bits, s, s')
    ensures Inv(policy, trace, k, s', i + 1)
  {
    var n := trace[i];
    assert trace[..i + 1] == trace[..i] + [n];
    AppendPages(trace[..i], n);
    var j := IndexOf(s.memory, n);
    WithoutKeepsDistinct(s.memory, j);
    AppendPages(Without(s.memory, j), n);
    assert n !in Pages(Without(s.memory, j));
    assert n in Pages(s.memory);
  }

  lemma FillKeepsInv(policy: Policy, trace: seq<int>, i: nat, k: nat, bits: int, s: State, s': State)
    requires i < |trace| && Inv(policy, trace, k, s, i) && trace[i] !in s.memory && |s.memory| < k
    requires Fill(trace[i], bits, s, s')
    ensures Inv(policy, trace, k, s', i + 1)
  {
    var n := trace[i];
    assert trace[..i + 1] == trace[..i] + [n];
    AppendPages(trace[..i], n);
    AppendPages(s.memory, n);
  }

  lemma SwapFacts(m: seq<int>, j: nat, n: int)
    requires Distinct(m) && j < |m| && n !in m
    ensures var m' := Without(m, j) + [n];
            Distinct(m') && |m'| == |m| && Pages(m') == Pages(m) - {m[j]} + {n} && m[j] !in m' && m[j] in Pages(m)
  {
    WithoutKeepsDistinct(m, j);
    AppendPages(Without(m, j), n);
    assert m[j] !in Pages(Without(m, j)) && m[j] in Pages(m);
    assert n !in Pages(m);
    var m' := Without(m, j) + [n];
    assert Pages(m') == Pages(m) - {m[j]} + {n};
    assert m[j] !in Pages(m');
  }

  lemma ReplaceKeepsInv(policy: Policy, trace: seq<int>, i: nat, k: nat, bits: int, s: State, s': State, j: nat)
    requires i < |trace| && Inv(policy, trace, k, s, i) && trace[i] !in s.memory && |s.memory| == k >= 1
    requires Replace(policy, trace, i, bits, s, s', j)
    ensures Inv(policy, trace, k, s', i + 1)
  {
    assert trace[..i + 1] == trace[..i] + [trace[i]];
    AppendPages(trace[..i], trace[i]);
    SwapFacts(s.memory, j, trace[i]);
  }

  lemma StepKeepsInv(policy: Policy, trace: seq<int>, i: nat, k: nat, bits: int, s: State, s': State)
    requires i < |trace| && Inv(policy, trace, k, s, i) && Step(policy, trace, i, k, bits, s, s') && k >= 1
    ensures Inv(policy, trace, k, s', i + 1)
  {
    if trace[i] in s.memory {
      HitKeepsInv(policy, trace, i, k, bits, s, s');
    } else if |s.memory| == k {
      var j: nat :| Replace(policy, trace, i, bits, s, s', j);
      ReplaceKeepsInv(policy, trace, i, k, bits, s, s', j);
    } else {
      FillKeepsInv(policy, trace, i, k, bits, s, s');
    }
  }

  /** The invariant holds at every point of every run, whatever the policy picks. */
  lemma {:induction false} RunInv(policy: Policy, trace: seq<int>, k: nat, bits: int, run: seq<State>, n: nat, i: nat)
    requires i <= n <= |trace| && IsRunTo(policy, trace, k, bits, run, n) && k >= 1
    ensures Inv(policy, trace, k, run[i], i)
  {
    if i > 0 {
      RunInv(policy, trace, k, bits, run, n, i - 1);
      assert StepAt(policy, trace, k, bits, run, i - 1);
      StepKeepsInv(policy, trace, i - 1, k, bits, run[i - 1], run[i]);
    }
  }

  // ---------- the loop ----------

  /** How many more times the CLOCK scan can pass a page over. */
  ghost function Chances(memory: seq<int>, ref: map<int, int>): nat {
    if memory == [] then 0 else ChancesOf(memory[0], ref) + Chances(memory[1..], ref)
  }

  ghost function ChancesOf(page: int, ref: map<int, int>): nat {
    if page in ref && ref[page] >= 1 then ref[page] else 0
  }

  lemma {:induction false} ChancesSame(memory: seq<int>, ref: map<int, int>, ref': map<int, int>)
    requires forall q :: q in memory ==> ChancesOf(q, ref) == ChancesOf(q, ref')
    ensures Chances(memory, ref) == Chances(memory, ref')
  {
    if memory != [] {
      ChancesSame(memory[1..], ref, ref');
    }
  }

  lemma {:induction false} ChancesDrop(memory: seq<int>, ref: map<int, int>, j: nat)
    requires Distinct(memory) && j < |memory| && memory[j] in ref && ref[memory[j]] >= 1
    ensures Chances(memory, ref[memory[j] := ref[memory[j]] - 1]) == Chances(memory, ref) - 1
  {
    var ref' := ref[memory[j] := ref[memory[j]] - 1];
    if j == 0 {
      ChancesSame(memory[1..], ref, ref');
    } else {
      ChancesDrop(memory[1..], ref, j - 1);
    }
  }

  /** The CLOCK victim search (lines 175-187).  Each pick is random; the search still ends for every
      sequence of picks, because a page passed over loses one of finitely many chances. */
  method ClockSearch(memory: seq<int>, ref0: map<int, int>) returns (j: nat, ref: map<int, int>)
    requires memory != [] && Distinct(memory) && Pages(memory) <= ref0.Keys
    ensures j < |memory| && ref.Keys == ref0.Keys
    ensures memory[j] in ref && ref[memory[j]] <= 0 && (ref0[memory[j]] >= 0 ==> ref[memory[j]] == 0)
    ensures forall q :: q in ref ==>
      if q in memory && ref0[q] >= 1 then 0 <= ref[q] <= ref0[q] else ref[q] == ref0[q]
  {
    ref := ref0;
    j :| 0 <= j < |memory|;
    while ref[memory[j]] >= 1
      invariant j < |memory| && ref.Keys == ref0.Keys && memory[j] in Pages(memory)
      invariant forall q :: q in ref ==>
        if q in memory && ref0[q] >= 1 then 0 <= ref[q] <= ref0[q] else ref[q] == ref0[q]
      decreases Chances(memory, ref)
    {
      ChancesDrop(memory, ref, j);
      ref := ref[memory[j] := ref[memory[j]] - 1];
      j :| 0 <= j < |memory|;
      assert memory[j] in Pages(memory);
    }
  }

  /** The search, and the victim's reference bit deleted (lines 175-191). */
  method ClockScan(memory: seq<int>, ref0: map<int, int>) returns (j: nat, ref: map<int, int>)
    requires memory != [] && Distinct(memory) && Pages(memory) <= ref0.Keys
    ensures j < |memory| && Scanned(memory, ref0, memory[j], ref)
  {
    j, ref := ClockSearch(memory, ref0);
    ref := ref - {memory[j]};
  }

  /** whenReferenced: the inner loop shared by OPT and UNOPT (lines 207-213 and 230-236). */
  method WhenReferenced(trace: seq<int>, i: nat, page: int) returns (when: nat)
    requires i < |trace|
    ensures i < when <= |trace| && (when == |trace| || trace[when] == page)
    ensures forall t :: i < t < when ==> trace[t] != page
    ensures when == NextUse(trace, i + 1, page)
  {
    when := |trace|;
    var future := i + 1;
    while future < |trace|
      invariant i + 1 <= future <= |trace| && when == |trace|
      invariant forall t :: i < t < future ==> trace[t] != page
    {
      if trace[future] == page {
        NextUseIsFirst(trace, i + 1, page, future);
        return future;
      }
      future := future + 1;
    }
    NextUseIsFirst(trace, i + 1, page, |trace|);
  }

  method Farthest(trace: seq<int>, i: nat, memory: seq<int>) returns (j: nat)
    requires i < |trace| && memory != []
    ensures j < |memory| && MayEvict(OPT, trace, i, memory, j)
  {
    var maxReplace: int, replaceIdx: int := -1, -1;
    for q := 0 to |memory|
      invariant if q == 0 then replaceIdx == -1 && maxReplace == -1
                else 0 <= replaceIdx < q && maxReplace == NextUse(trace, i + 1, memory[replaceIdx])
      invariant forall p :: 0 <= p < q ==> NextUse(trace, i + 1, memory[p]) <= maxReplace
      invariant forall p :: replaceIdx < p < q ==> NextUse(trace, i + 1, memory[p]) < maxReplace
    {
      var when := WhenReferenced(trace, i, memory[q]);
      if when >= maxReplace {
        replaceIdx, maxReplace := q, when;
      }
    }
    j := replaceIdx;
  }

  method Nearest(trace: seq<int>, i: nat, memory: seq<int>) returns (j: nat)
    requires i < |trace| && memory != []
    ensures j < |memory| && MayEvict(UNOPT, trace, i, memory, j)
  {
    var minReplace: int, replaceIdx: int := |trace| + 1, -1;
    for q := 0 to |memory|
      invariant if q == 0 then replaceIdx == -1 && minReplace == |trace| + 1
                else 0 <= replaceIdx < q && minReplace == NextUse(trace, i + 1, memory[replaceIdx])
      invariant forall p :: 0 <= p < q ==> minReplace <= NextUse(trace, i + 1, memory[p])
      invariant forall p :: 0 <= p < replaceIdx ==> minReplace < NextUse(trace, i + 1, memory[p])
    {
      var when := WhenReferenced(trace, i, memory[q]);
      if when < minReplace {
        replaceIdx, minReplace := q, when;
      }
    }
    j := replaceIdx;
  }

  /** The main loop (lines 142-259).  `rows[i]` is what the simulator has printed after `i` references. */
  method Simulate(policy: Policy, trace: seq<int>, cachesize: nat, clockbits: int) returns (rows: seq<State>)
    requires cachesize >= 1
    ensures IsRun(policy, trace, cachesize, clockbits, rows)
    ensures rows[|trace|].hits + rows[|trace|].misses == |trace|
  {
    var count, memory, hits, miss, ref, victim := 0, [], 0, 0, map[], -1;
    rows := [State(memory, ref, victim, hits, miss)];
    for i := 0 to |trace|
      invariant IsRunTo(policy, trace, cachesize, clockbits, rows, i)
      invariant rows[i] == State(memory, ref, victim, hits, miss)
      invariant count == |memory|
    {
      RunInv(policy, trace, cachesize, clockbits, rows, i, i);
      var n := trace[i];
      victim := -1;
      if n in memory {
        hits := hits + 1;
        if policy == LRU || policy == MRU {
          memory := Without(memory, IndexOf(memory, n)) + [n];
        }
      } else {
        miss := miss + 1;
        if count == cachesize {
          var j: nat;
          match policy {
            case FIFO => j := 0;
            case LRU => j := 0;
            case MRU => j := count - 1;
            case RAND => j :| 0 <= j < count;
            case CLOCK => j, ref := ClockScan(memory, ref);
            case OPT => j := Farthest(trace, i, memory);
            case UNOPT => j := Nearest(trace, i, memory);
          }
          victim := memory[j];
          memory := Without(memory, j);
          ghost var next := State(memory + [n], Touch(ref, n, clockbits), victim, hits, miss);
          assert Replace(policy, trace, i, clockbits, rows[i], next, j);
        } else {
          count := count + 1;
        }
        memory := memory + [n];
      }
      ref := Touch(ref, n, clockbits);
      ghost var next := State(memory, ref, victim, hits, miss);
      assert Step(policy, trace, i, cachesize, clockbits, rows[i], next);
      ghost var before := rows;
      rows := rows + [State(memory, ref, victim, hits, miss)];
      forall t | 0 <= t < i + 1 ensures StepAt(policy, trace, cachesize, clockbits, rows, t) {
        if t < i {
          assert StepAt(policy, trace, cachesize, clockbits, before, t);
        }
      }
    }
    RunInv(policy, trace, cachesize, clockbits, rows, |trace|, |trace|);
  }
}
