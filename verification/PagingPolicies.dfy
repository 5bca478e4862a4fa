/** What each policy evicts, said over whole runs of the simulator and in terms of the references and misses so far and
    to come, not of positions in the list. */
module PagingPolicies {
  import opened Paging

  // ---------- the order of the list ----------

  /** The last reference to `p` before time `i`, or -1. */
  ghost function LastUse(trace: seq<int>, i: nat, p: int): (t: int)
    requires i <= |trace|
    ensures -1 <= t < i && (t != -1 ==> trace[t] == p)
  {
    if i == 0 then -1 else if trace[i - 1] == p then i - 1 else LastUse(trace, i - 1, p)
  }

  ghost predicate MissAt(trace: seq<int>, run: seq<State>, t: int)
    requires 0 <= t < |trace| && t < |run|
  {
    trace[t] !in run[t].memory
  }

  /** The last miss on `p` before time `i`, or -1. */
  ghost function LastMiss(trace: seq<int>, run: seq<State>, i: nat, p: int): (t: int)
    requires i <= |trace| && i <= |run|
    ensures -1 <= t < i && (t != -1 ==> trace[t] == p && MissAt(trace, run, t))
  {
    if i == 0 then -1
    else if trace[i - 1] == p && MissAt(trace, run, i - 1) then i - 1
    else LastMiss(trace, run, i - 1, p)
  }

  /** LRU and MRU keep the list in order of the last references, the other policies in order of the last misses. */
  ghost function Stamp(policy: Policy, trace: seq<int>, run: seq<State>, i: nat, p: int): int
    requires i <= |trace| && i <= |run|
  {
    if policy.LRU? || policy.MRU? then LastUse(trace, i, p) else LastMiss(trace, run, i, p)
  }

  ghost predicate InOrder(policy: Policy, trace: seq<int>, run: seq<State>, i: nat, m: seq<int>)
    requires i <= |trace| && i <= |run|
  {
    forall a, b :: 0 <= a < b < |m| ==> Stamp(policy, trace, run, i, m[a]) < Stamp(policy, trace, run, i, m[b])
  }

  /** A page just loaded, or just referenced under LRU and MRU, goes to the end. */
  lemma ToTheEnd(policy: Policy, trace: seq<int>, run: seq<State>, i: nat, m: seq<int>)
    requires i < |trace| && i < |run| && InOrder(policy, trace, run, i, m) && trace[i] !in m
    requires policy.LRU? || policy.MRU? || MissAt(trace, run, i)
    ensures InOrder(policy, trace, run, i + 1, m + [trace[i]])
  {
    forall a | 0 <= a < |m| ensures Stamp(policy, trace, run, i + 1, m[a]) == Stamp(policy, trace, run, i, m[a]) {
      assert m[a] in m;
    }
  }

  lemma WithoutInOrder(policy: Policy, trace: seq<int>, run: seq<State>, i: nat, m: seq<int>, j: nat)
    requires i <= |trace| && i <= |run| && InOrder(policy, trace, run, i, m) && j < |m|
    ensures InOrder(policy, trace, run, i, Without(m, j))
  {
  }

  lemma GoneOnce(m: seq<int>, j: nat)
    requires Distinct(m) && j < |m|
    ensures m[j] !in Without(m, j) && forall q :: q in Without(m, j) ==> q in m
  {
  }

  /** At every point of every run the list is in order: of the last references under LRU and MRU, of the last misses
      under every other policy. */
  lemma {:induction false} MemoryOrder(policy: Policy, trace: seq<int>, k: nat, bits: int, run: seq<State>, i: nat)
    requires IsRun(policy, trace, k, bits, run) && k >= 1 && i <= |trace|
    ensures InOrder(policy, trace, run, i, run[i].memory)
  {
    if i > 0 {
      var t := i - 1;
      MemoryOrder(policy, trace, k, bits, run, t);
      RunInv(policy, trace, k, bits, run, |trace|, t);
      assert StepAt(policy, trace, k, bits, run, t);
      OrderStep(policy, trace, k, bits, run, t);
    }
  }

  lemma OrderStep(policy: Policy, trace: seq<int>, k: nat, bits: int, run: seq<State>, t: nat)
    requires t < |trace| && t + 1 < |run| && StepAt(policy, trace, k, bits, run, t)
    requires Distinct(run[t].memory) && InOrder(policy, trace, run, t, run[t].memory)
    ensures InOrder(policy, trace, run, t + 1, run[t + 1].memory)
  {
    hide Stamp, InOrder, MayEvict, Scanned;
    var m, n := run[t].memory, trace[t];
    if n in m {
      if policy.LRU? || policy.MRU? {
        var j := IndexOf(m, n);
        GoneOnce(m, j);
        WithoutInOrder(policy, trace, run, t, m, j);
        ToTheEnd(policy, trace, run, t, Without(m, j));
      } else {
        HitInOrder(policy, trace, run, t, m);
      }
    } else if |m| == k {
      var j: nat :| Replace(policy, trace, t, bits, run[t], run[t + 1], j);
      GoneOnce(m, j);
      WithoutInOrder(policy, trace, run, t, m, j);
      ToTheEnd(policy, trace, run, t, Without(m, j));
    } else {
      ToTheEnd(policy, trace, run, t, m);
    }
  }

  /** A hit is no miss. */
  lemma HitInOrder(policy: Policy, trace: seq<int>, run: seq<State>, t: nat, m: seq<int>)
    requires t < |trace| && t < |run| && !policy.LRU? && !policy.MRU? && !MissAt(trace, run, t)
    requires InOrder(policy, trace, run, t, m)
    ensures InOrder(policy, trace, run, t + 1, m)
  {
  }

  // ---------- what is evicted ----------

  /** A reference evicts when it misses and memory is full. */
  ghost predicate Evicts(trace: seq<int>, k: nat, run: seq<State>, i: nat)
    requires i < |trace| && i < |run|
  {
    MissAt(trace, run, i) && |run[i].memory| == k
  }

  /** Nothing else ever leaves memory, and the page referenced is always in it afterwards. */
  lemma OnlyTheVictimLeaves(policy: Policy, trace: seq<int>, k: nat, bits: int, run: seq<State>, i: nat)
    requires IsRun(policy, trace, k, bits, run) && k >= 1 && i < |trace|
    ensures Pages(run[i + 1].memory) ==
      Pages(run[i].memory) - (if Evicts(trace, k, run, i) then {run[i + 1].victim} else {}) + {trace[i]}
    ensures if Evicts(trace, k, run, i) then run[i + 1].victim in run[i].memory else run[i + 1].victim == -1
    ensures run[i + 1].hits == run[i].hits + if trace[i] in run[i].memory then 1 else 0
  {
    hide MayEvict, Scanned;
    var m, n := run[i].memory, trace[i];
    RunInv(policy, trace, k, bits, run, |trace|, i);
    assert StepAt(policy, trace, k, bits, run, i);
    assert n in m <==> n in Pages(m);
    if n in m {
      var j := IndexOf(m, n);
      WithoutKeepsDistinct(m, j);
      AppendPages(Without(m, j), n);
    } else if |m| == k {
      var j: nat :| Replace(policy, trace, i, bits, run[i], run[i + 1], j);
      SwapFacts(m, j, n);
    } else {
      AppendPages(m, n);
    }
  }

  /** The slot that was emptied. */
  lemma SlotOf(policy: Policy, trace: seq<int>, k: nat, bits: int, run: seq<State>, i: nat) returns (j: nat)
    requires IsRun(policy, trace, k, bits, run) && k >= 1 && i < |trace| && Evicts(trace, k, run, i)
    ensures j < |run[i].memory| && run[i + 1].victim == run[i].memory[j]
    ensures MayEvict(policy, trace, i, run[i].memory, j) && Distinct(run[i].memory)
  {
    hide MayEvict, Scanned;
    RunInv(policy, trace, k, bits, run, |trace|, i);
    assert StepAt(policy, trace, k, bits, run, i);
    j :| Replace(policy, trace, i, bits, run[i], run[i + 1], j);
  }

  /** FIFO evicts the page whose last miss is earliest. */
  lemma FifoVictim(trace: seq<int>, k: nat, bits: int, run: seq<State>, i: nat, q: int)
    requires IsRun(FIFO, trace, k, bits, run) && k >= 1 && i < |trace| && Evicts(trace, k, run, i)
    requires q in run[i].memory && q != run[i + 1].victim
    ensures LastMiss(trace, run, i, run[i + 1].victim) < LastMiss(trace, run, i, q)
  {
    MemoryOrder(FIFO, trace, k, bits, run, i);
    var j := SlotOf(FIFO, trace, k, bits, run, i);
    var a :| 0 <= a < |run[i].memory| && run[i].memory[a] == q;
    assert Stamp(FIFO, trace, run, i, run[i].memory[j]) < Stamp(FIFO, trace, run, i, run[i].memory[a]);
  }

  /** LRU evicts the page whose last reference is earliest, MRU the one whose last reference is latest. */
  lemma RecencyVictim(policy: Policy, trace: seq<int>, k: nat, bits: int, run: seq<State>, i: nat, q: int)
    requires policy.LRU? || policy.MRU?
    requires IsRun(policy, trace, k, bits, run) && k >= 1 && i < |trace| && Evicts(trace, k, run, i)
    requires q in run[i].memory && q != run[i + 1].victim
    ensures policy.LRU? ==> LastUse(trace, i, run[i + 1].victim) < LastUse(trace, i, q)
    ensures policy.MRU? ==> LastUse(trace, i, q) < LastUse(trace, i, run[i + 1].victim)
  {
    MemoryOrder(policy, trace, k, bits, run, i);
    var j := SlotOf(policy, trace, k, bits, run, i);
    var m := run[i].memory;
    var a :| 0 <= a < |m| && m[a] == q;
    assert a < j ==> Stamp(policy, trace, run, i, m[a]) < Stamp(policy, trace, run, i, m[j]);
    assert j < a ==> Stamp(policy, trace, run, i, m[j]) < Stamp(policy, trace, run, i, m[a]);
  }

  /** `p` is referenced after time `i`, and before that every reference to `q`. */
  ghost predicate UsedBefore(trace: seq<int>, i: nat, p: int, q: int)
    requires i < |trace|
  {
    exists t :: i < t < |trace| && trace[t] == p && forall u :: i < u <= t ==> trace[u] != q
  }

  ghost predicate NeitherAgain(trace: seq<int>, i: nat, p: int, q: int) {
    forall t :: i < t < |trace| ==> trace[t] != p && trace[t] != q
  }

  lemma NextUses(trace: seq<int>, i: nat, p: int, q: int)
    requires i < |trace|
    ensures NextUse(trace, i + 1, p) < NextUse(trace, i + 1, q) ==> UsedBefore(trace, i, p, q)
    ensures NextUse(trace, i + 1, p) == NextUse(trace, i + 1, q) ==> p == q || NeitherAgain(trace, i, p, q)
  {
    var t, u := NextUse(trace, i + 1, p), NextUse(trace, i + 1, q);
    NextUseIsFirst(trace, i + 1, p, t);
    NextUseIsFirst(trace, i + 1, q, u);
    if t < u {
      assert trace[t] == p && forall v :: i < v <= t ==> trace[v] != q;
    }
  }

  /** OPT evicts a page before whose next reference every other resident page is referenced; among pages never
      referenced again it takes the one with the latest miss. */
  lemma OptVictim(trace: seq<int>, k: nat, bits: int, run: seq<State>, i: nat, q: int)
    requires IsRun(OPT, trace, k, bits, run) && k >= 1 && i < |trace| && Evicts(trace, k, run, i)
    requires q in run[i].memory && q != run[i + 1].victim
    ensures var v := run[i + 1].victim;
      UsedBefore(trace, i, q, v)
        || (NeitherAgain(trace, i, q, v) && LastMiss(trace, run, i, q) < LastMiss(trace, run, i, v))
  {
    MemoryOrder(OPT, trace, k, bits, run, i);
    var j := SlotOf(OPT, trace, k, bits, run, i);
    var m := run[i].memory;
    var a :| 0 <= a < |m| && m[a] == q;
    NextUses(trace, i, q, m[j]);
    assert a < j ==> Stamp(OPT, trace, run, i, m[a]) < Stamp(OPT, trace, run, i, m[j]);
  }

  /** UNOPT evicts a page that is referenced before every other resident page is; when no resident page is referenced
      again it takes the one with the earliest miss. */
  lemma UnoptVictim(trace: seq<int>, k: nat, bits: int, run: seq<State>, i: nat, q: int)
    requires IsRun(UNOPT, trace, k, bits, run) && k >= 1 && i < |trace| && Evicts(trace, k, run, i)
    requires q in run[i].memory && q != run[i + 1].victim
    ensures var v := run[i + 1].victim;
      UsedBefore(trace, i, v, q)
        || (NeitherAgain(trace, i, q, v) && LastMiss(trace, run, i, v) < LastMiss(trace, run, i, q))
  {
    MemoryOrder(UNOPT, trace, k, bits, run, i);
    var j := SlotOf(UNOPT, trace, k, bits, run, i);
    var m := run[i].memory;
    var a :| 0 <= a < |m| && m[a] == q;
    NextUses(trace, i, m[j], q);
    assert j < a ==> Stamp(UNOPT, trace, run, i, m[j]) < Stamp(UNOPT, trace, run, i, m[a]);
  }

  // ---------- reference bits ----------

  /** How often `p` has been referenced before time `i`. */
  ghost function Uses(trace: seq<int>, i: nat, p: int): nat
    requires i <= |trace|
  {
    if i == 0 then 0 else Uses(trace, i - 1, p) + if trace[i - 1] == p then 1 else 0
  }

  ghost function Capped(uses: int, bits: int): int {
    if uses == 1 || uses <= bits then uses else bits
  }

  /** Under every policy but CLOCK the bits of a page count its references, up to the limit. */
  lemma {:induction false} BitsCount(policy: Policy, trace: seq<int>, k: nat, bits: int, run: seq<State>,
      i: nat, p: int)
    requires IsRun(policy, trace, k, bits, run) && k >= 1 && i <= |trace| && !policy.CLOCK?
    ensures p in run[i].ref <==> Uses(trace, i, p) > 0
    ensures p in run[i].ref ==> run[i].ref[p] == Capped(Uses(trace, i, p), bits)
  {
    if i > 0 {
      BitsCount(policy, trace, k, bits, run, i - 1, p);
      BitsStep(policy, trace, k, bits, run, i - 1);
    }
  }

  lemma BitsStep(policy: Policy, trace: seq<int>, k: nat, bits: int, run: seq<State>, i: nat)
    requires IsRun(policy, trace, k, bits, run) && i < |trace| && !policy.CLOCK?
    ensures run[i + 1].ref == Touch(run[i].ref, trace[i], bits)
  {
    hide MayEvict, Touch, Scanned;
    assert StepAt(policy, trace, k, bits, run, i);
  }

  /** References to `p` since its last miss, that miss included. */
  ghost function UsesSince(trace: seq<int>, run: seq<State>, i: nat, p: int): nat
    requires i <= |trace| && i <= |run|
  {
    if i == 0 then 0
    else if trace[i - 1] != p then UsesSince(trace, run, i - 1, p)
    else if MissAt(trace, run, i - 1) then 1
    else UsesSince(trace, run, i - 1, p) + 1
  }

  /** Under CLOCK the resident pages have bits, never more of them than references since they were loaded or than the
      limit; a page has lost bits only to the search of an eviction, and the page just referenced has some. */
  lemma {:induction false} ClockBits(trace: seq<int>, k: nat, bits: int, run: seq<State>, i: nat, p: int)
    requires IsRun(CLOCK, trace, k, bits, run) && k >= 1 && bits >= 1 && i <= |trace|
    ensures p in run[i].ref <==> p in run[i].memory
    ensures p in run[i].ref ==> 0 <= run[i].ref[p] <= Capped(UsesSince(trace, run, i, p), bits)
    ensures i > 0 ==> trace[i - 1] in run[i].ref && run[i].ref[trace[i - 1]] >= 1
  {
    RunInv(CLOCK, trace, k, bits, run, |trace|, i);
    assert p in run[i].memory <==> p in Pages(run[i].memory);
    if i > 0 {
      ClockBits(trace, k, bits, run, i - 1, p);
      ClockBits(trace, k, bits, run, i - 1, trace[i - 1]);
      ClockStep(trace, k, bits, run, i - 1, p);
      ClockStep(trace, k, bits, run, i - 1, trace[i - 1]);
    }
  }

  lemma ClockStep(trace: seq<int>, k: nat, bits: int, run: seq<State>, t: nat, p: int)
    requires IsRun(CLOCK, trace, k, bits, run) && k >= 1 && bits >= 1 && t < |trace|
    requires p in run[t].ref <==> p in run[t].memory
    requires p in run[t].ref ==> 0 <= run[t].ref[p] <= Capped(UsesSince(trace, run, t, p), bits)
    ensures p == trace[t] ==> p in run[t + 1].ref && run[t + 1].ref[p] >= 1
    ensures p in run[t + 1].ref ==> 0 <= run[t + 1].ref[p] <= Capped(UsesSince(trace, run, t + 1, p), bits)
  {
    hide MayEvict, Without, IndexOf;
    assert StepAt(CLOCK, trace, k, bits, run, t);
    if Evicts(trace, k, run, t) {
      var j: nat :| Replace(CLOCK, trace, t, bits, run[t], run[t + 1], j);
      var r :| Scanned(run[t].memory, run[t].ref, run[t].memory[j], r) && run[t + 1].ref == Touch(r, trace[t], bits);
    }
  }

  /** Without an eviction no bit is lost. */
  lemma ClockKeepsBits(trace: seq<int>, k: nat, bits: int, run: seq<State>, i: nat, p: int)
    requires IsRun(CLOCK, trace, k, bits, run) && k >= 1 && bits >= 1 && i < |trace| && !Evicts(trace, k, run, i)
    requires p in run[i].ref
    ensures p in run[i + 1].ref
    ensures run[i + 1].ref[p] == if p == trace[i] && run[i].ref[p] < bits then run[i].ref[p] + 1 else run[i].ref[p]
  {
    ClockBits(trace, k, bits, run, i, p);
    assert StepAt(CLOCK, trace, k, bits, run, i);
  }
}
