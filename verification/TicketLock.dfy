/** The ticket lock of threads-locks/ticket.s on the machine of x86.py: any number of threads, interrupted between any
    two instructions, take turns in the order of their tickets, and no increment of the shared word is lost. */
module TicketLock {
  import opened X86
  import opened X86Programs

  const CX: Reg := 3

  /** The three words of the program: where they lie, and what they hold. */
  datatype Words = Words(ticket: int, turn: int, count: int)

  function At(a: int): Operand { Operand(a, ZERO, ZERO, 1) }

  /** The program, loaded at `p`, with its words at `w`. */
  ghost predicate Program(code: Code, p: int, w: Words) {
    && (forall a :: p <= a < p + 14 ==> a in code)
    && w.ticket !in code && w.turn !in code && w.count !in code
    && w.ticket != w.turn && w.turn != w.count && w.count != w.ticket
    && code[p] == MovIR(1, AX)
    && code[p + 1] == FetchAdd(AX, At(w.ticket))
    && code[p + 2] == MovMR(At(w.turn), CX)
    && code[p + 3] == TestRR(CX, AX)
    && code[p + 4] == JumpIf(NEQ, p + 2)
    && code[p + 5] == MovMR(At(w.count), AX)
    && code[p + 6] == AddI(1, AX)
    && code[p + 7] == MovRM(AX, At(w.count))
    && code[p + 8] == MovIR(1, AX)
    && code[p + 9] == FetchAdd(AX, At(w.turn))
    && code[p + 10] == SubI(1, BX)
    && code[p + 11] == TestIR(0, BX)
    && code[p + 12] == JumpIf(GT, p)
    && code[p + 13] == Halt
  }

  // ---------- threads that share memory ----------

  datatype State = State(ctx: seq<Context>, done: seq<bool>, mem: Memory)

  /** Thread `t`, if it has not halted, executes one instruction; None where the simulator stops with an error. */
  function Move(code: Code, s: State, t: nat): Option<State>
    requires t < |s.ctx| == |s.done|
  {
    var r := Step(code, s.ctx[t], s.mem);
    if s.done[t] || r.None? then None
    else Some(State(s.ctx[t := r.value.0], if r.value.2.Halted? then s.done[t := true] else s.done, r.value.1))
  }

  /** At the start of the program, with the loop count in bx. */
  ghost predicate Begins(p: int, w: Words, counts: seq<int>, s: State) {
    && |s.ctx| == |s.done| == |counts| && w.ticket in s.mem && w.turn in s.mem && w.count in s.mem
    && s.mem[w.ticket] == s.mem[w.turn]
    && forall t :: 0 <= t < |s.ctx| ==>
         !s.done[t] && s.ctx[t].pc == p && s.ctx[t].regs[ZERO] == 0 && s.ctx[t].regs[BX] == counts[t]
  }

  /** A run: at each point some thread that has not halted goes on. */
  ghost predicate IsRun(code: Code, p: int, w: Words, counts: seq<int>, run: seq<State>) {
    run != [] && Begins(p, w, counts, run[0]) && forall i: nat :: i + 1 < |run| ==> GoesOn(code, run, i)
  }

  ghost predicate GoesOn(code: Code, run: seq<State>, i: nat) {
    i + 1 < |run| && SomeMove(code, run[i], run[i + 1])
  }

  ghost predicate SomeMove(code: Code, s: State, s': State) { exists t: nat :: Moves(code, s, t, s') }

  ghost predicate Moves(code: Code, s: State, t: nat, s': State) {
    t < |s.ctx| == |s.done| && !s.done[t] && Move(code, s, t) == Some(s')
  }

  // ---------- what matters of it ----------

  /** How far a thread is in the program, its registers, and what its last test found. */
  datatype View = View(at: int, ax: int, bx: int, cx: int, equal: bool, more: bool)

  function Look(p: int, c: Context): View {
    View(c.pc - p, c.regs[AX], c.regs[BX], c.regs[CX], NEQ !in c.cc, GT in c.cc)
  }

  predicate Stored(w: Words, mem: Memory) { w.ticket in mem && w.turn in mem && w.count in mem }

  function Held(w: Words, mem: Memory): Words
    requires Stored(w, mem)
  {
    Words(mem[w.ticket], mem[w.turn], mem[w.count])
  }

  function Next(v: View, m: Words): View {
    match v.at
    case 0 => v.(at := 1, ax := 1)
    case 1 => v.(at := 2, ax := m.ticket)
    case 2 => v.(at := 3, cx := m.turn)
    case 3 => v.(at := 4, equal := v.ax == v.cx, more := v.ax > v.cx)
    case 4 => v.(at := if v.equal then 5 else 2)
    case 5 => v.(at := 6, ax := m.count)
    case 6 => v.(at := 7, ax := v.ax + 1)
    case 8 => v.(at := 9, ax := 1)
    case 9 => v.(at := 10, ax := m.turn)
    case 10 => v.(at := 11, bx := v.bx - 1)
    case 11 => v.(at := 12, equal := v.bx == 0, more := v.bx > 0)
    case 12 => v.(at := if v.more then 0 else 13)
    case _ => v.(at := v.at + 1)
  }

  function Left(v: View, m: Words): Words {
    match v.at
    case 1 => m.(ticket := m.ticket + v.ax)
    case 7 => m.(count := v.ax)
    case 9 => m.(turn := m.turn + v.ax)
    case _ => m
  }

  /** The instruction does not fail, and does what `Next` and `Left` say. */
  ghost predicate Looks(code: Code, p: int, w: Words, c: Context, mem: Memory) {
    && Stored(w, mem) && Step(code, c, mem).Some?
    && var s := Step(code, c, mem).value;
    && Look(p, s.0) == Next(Look(p, c), Held(w, mem)) && s.0.regs[ZERO] == 0
    && Stored(w, s.1) && Held(w, s.1) == Left(Look(p, c), Held(w, mem))
    && (s.2.Halted? <==> c.pc == p + 13)
  }

  lemma NumberStep(code: Code, c: Context, mem: Memory)
    requires c.pc in code && (code[c.pc].MovIR? || code[c.pc].AddI? || code[c.pc].SubI?)
    ensures var i := code[c.pc];
      var x := if i.MovIR? then i.imm else if i.AddI? then c.regs[i.dst] + i.imm else c.regs[i.dst] - i.imm;
      Step(code, c, mem) == Some((Context(c.pc + 1, c.regs[i.dst := x], c.cc), mem, Go))
  {
  }

  lemma TestStep(code: Code, c: Context, mem: Memory)
    requires c.pc in code && (code[c.pc].TestRR? || code[c.pc].TestIR?)
    ensures var (x, y) := Operands(code[c.pc], c.regs);
      Step(code, c, mem) == Some((Context(c.pc + 1, c.regs, Compare(x, y)), mem, Go))
  {
  }

  lemma JumpStep(code: Code, c: Context, mem: Memory)
    requires c.pc in code && (code[c.pc].JumpIf? || code[c.pc].Halt?)
    ensures var i := code[c.pc];
      Step(code, c, mem) == Some((c.(pc := if i.JumpIf? && i.cond in c.cc then i.targ else c.pc + 1), mem,
        if i.Halt? then Halted else Go))
  {
  }

  lemma LoadStep(code: Code, c: Context, mem: Memory, a: int, d: Reg)
    requires c.pc in code && code[c.pc] == MovMR(At(a), d) && c.regs[ZERO] == 0 && a in mem && a !in code
    ensures Step(code, c, mem) == Some((Context(c.pc + 1, c.regs[d := mem[a]], c.cc), mem, Go))
  {
  }

  lemma StoreStep(code: Code, c: Context, mem: Memory, a: int, r: Reg)
    requires c.pc in code && code[c.pc] == MovRM(r, At(a)) && c.regs[ZERO] == 0 && a !in code
    ensures Step(code, c, mem) == Some((c.(pc := c.pc + 1), mem[a := c.regs[r]], Go))
  {
  }

  lemma AddStep(code: Code, c: Context, mem: Memory, a: int, r: Reg)
    requires c.pc in code && code[c.pc] == FetchAdd(r, At(a)) && c.regs[ZERO] == 0 && a in mem && a !in code
    ensures Step(code, c, mem) ==
      Some((Context(c.pc + 1, c.regs[r := mem[a]], c.cc), mem[a := mem[a] + c.regs[r]], Go))
  {
  }

  lemma LooksNumbers(code: Code, p: int, w: Words, c: Context, mem: Memory)
    requires Program(code, p, w) && Stored(w, mem) && c.regs[ZERO] == 0 && c.pc - p in {0, 6, 8, 10}
    ensures Looks(code, p, w, c, mem)
  {
    hide Step, After;
    var k := c.pc - p;
    assert c.pc in code && code[c.pc] == if k == 0 || k == 8 then MovIR(1, AX) else if k == 6 then AddI(1, AX)
      else SubI(1, BX);
    hide Program;
    NumberStep(code, c, mem);
  }

  lemma LooksTests(code: Code, p: int, w: Words, c: Context, mem: Memory)
    requires Program(code, p, w) && Stored(w, mem) && c.regs[ZERO] == 0 && c.pc - p in {3, 11}
    ensures Looks(code, p, w, c, mem)
  {
    hide Step, After;
    assert c.pc in code && code[c.pc] == if c.pc == p + 3 then TestRR(CX, AX) else TestIR(0, BX);
    hide Program;
    TestStep(code, c, mem);
  }

  lemma LooksJumps(code: Code, p: int, w: Words, c: Context, mem: Memory)
    requires Program(code, p, w) && Stored(w, mem) && c.regs[ZERO] == 0 && c.pc - p in {4, 12, 13}
    ensures Looks(code, p, w, c, mem)
  {
    hide Step, After;
    var k := c.pc - p;
    assert c.pc in code && code[c.pc] == if k == 4 then JumpIf(NEQ, p + 2) else if k == 12 then JumpIf(GT, p) else Halt;
    hide Program;
    JumpStep(code, c, mem);
  }

  lemma LooksMemory(code: Code, p: int, w: Words, c: Context, mem: Memory)
    requires Program(code, p, w) && Stored(w, mem) && c.regs[ZERO] == 0 && c.pc - p in {1, 2, 5, 7, 9}
    ensures Looks(code, p, w, c, mem)
  {
    hide Step, After;
    var k := c.pc - p;
    assert c.pc in code && code[c.pc] == if k == 1 then FetchAdd(AX, At(w.ticket)) else if k == 2
      then MovMR(At(w.turn), CX) else if k == 5 then MovMR(At(w.count), AX) else if k == 7 then MovRM(AX, At(w.count))
      else FetchAdd(AX, At(w.turn));
    if k == 1 { AddStep(code, c, mem, w.ticket, AX); }
    if k == 2 { LoadStep(code, c, mem, w.turn, CX); }
    if k == 5 { LoadStep(code, c, mem, w.count, AX); }
    if k == 7 { StoreStep(code, c, mem, w.count, AX); }
    if k == 9 { AddStep(code, c, mem, w.turn, AX); }
  }

  lemma StepLooks(code: Code, p: int, w: Words, c: Context, mem: Memory)
    requires Program(code, p, w) && Stored(w, mem) && c.regs[ZERO] == 0 && 0 <= c.pc - p < 14
    ensures Looks(code, p, w, c, mem)
  {
    hide Program, Looks;
    if c.pc - p in {0, 6, 8, 10} {
      LooksNumbers(code, p, w, c, mem);
    } else if c.pc - p in {3, 11} {
      LooksTests(code, p, w, c, mem);
    } else if c.pc - p in {4, 12, 13} {
      LooksJumps(code, p, w, c, mem);
    } else {
      LooksMemory(code, p, w, c, mem);
    }
  }

  // ---------- what every run keeps ----------

  predicate Waits(v: View) { 2 <= v.at <= 4 }

  predicate Inside(v: View) { 5 <= v.at <= 9 }

  /** The number a thread that waits or is inside has drawn. */
  function Ticket(v: View, m: Words): int { if Waits(v) then v.ax else m.turn }

  predicate HasTicket(v: View, m: Words, n: int) { (Waits(v) || Inside(v)) && Ticket(v, m) == n }

  /** One thread, that began with `n` in bx. */
  predicate ThreadOk(v: View, m: Words, n: int) {
    && 0 <= v.at <= 14
    && (v.at == 1 || v.at == 9 ==> v.ax == 1)
    && (Waits(v) || Inside(v) ==> m.turn <= Ticket(v, m) < m.ticket)
    && (v.at == 3 ==> v.cx <= m.turn)
    && (v.at == 4 && v.equal ==> v.ax == m.turn)
    && (v.at == 6 ==> v.ax == m.count) && (v.at == 7 ==> v.ax == m.count + 1)
    && (v.at <= 10 ==> v.bx == n || 1 <= v.bx <= n)
    && (v.at >= 11 ==> v.bx == n - 1 || 0 <= v.bx <= n - 1)
    && (v.at == 12 ==> (v.more <==> v.bx > 0))
    && (v.at >= 13 ==> v.bx <= 0)
  }

  /** How often a thread has added one to the count. */
  function Added(v: View, n: int): int { n - v.bx + if 8 <= v.at <= 10 then 1 else 0 }

  function AllAdded(views: seq<View>, counts: seq<int>): int
    requires |views| == |counts|
  {
    if views == [] then 0
    else AllAdded(views[..|views| - 1], counts[..|views| - 1]) + Added(views[|views| - 1], counts[|views| - 1])
  }

  ghost predicate EachOk(views: seq<View>, m: Words, counts: seq<int>) {
    |views| == |counts| && forall t :: 0 <= t < |views| ==> ThreadOk(views[t], m, counts[t])
  }

  /** No two threads have the same ticket. */
  ghost predicate Different(views: seq<View>, m: Words) {
    forall t, u, n :: 0 <= t < u < |views| && HasTicket(views[t], m, n) ==> !HasTicket(views[u], m, n)
  }

  ghost predicate SomeoneHas(views: seq<View>, m: Words, n: int) {
    exists t :: 0 <= t < |views| && HasTicket(views[t], m, n)
  }

  /** Every ticket drawn and not yet served is some thread's. */
  ghost predicate AllHeld(views: seq<View>, m: Words) {
    m.turn <= m.ticket && forall n :: m.turn <= n < m.ticket ==> SomeoneHas(views, m, n)
  }

  /** Where a step leads that thread and its shared words, and every other thread that keeps its view. */
  lemma ThreadKept(v: View, m: Words, n: int)
    requires ThreadOk(v, m, n) && v.at < 14 && m.turn <= m.ticket
    ensures ThreadOk(Next(v, m), Left(v, m), n)
    ensures Added(Next(v, m), n) == Added(v, n) + if v.at == 7 then 1 else 0
    ensures Left(v, m).count == m.count + if v.at == 7 then 1 else 0
    ensures Left(v, m).ticket == m.ticket + if v.at == 1 then 1 else 0
    ensures Left(v, m).turn == m.turn + if v.at == 9 then 1 else 0
    ensures Left(v, m).turn <= Left(v, m).ticket
    ensures v.at != 1 && v.at != 9 ==> forall k :: HasTicket(Next(v, m), Left(v, m), k) <==> HasTicket(v, m, k)
    ensures v.at == 1 ==> HasTicket(Next(v, m), Left(v, m), m.ticket) && forall k :: !HasTicket(v, m, k)
    ensures v.at == 9 ==> HasTicket(v, m, m.turn) && forall k :: !HasTicket(Next(v, m), Left(v, m), k)
  {
  }

  /** What the others see of it. */
  lemma OtherKept(u: View, l: int, v: View, m: Words, n: int)
    requires ThreadOk(v, m, n) && ThreadOk(u, m, l) && v.at < 14
    requires Inside(v) ==> !HasTicket(u, m, m.turn)
    ensures ThreadOk(u, Left(v, m), l)
    ensures forall k :: HasTicket(u, Left(v, m), k) <==> HasTicket(u, m, k)
  {
  }

  /** The state of the protocol is in order. */
  ghost predicate Orderly(views: seq<View>, m: Words, counts: seq<int>, sum: int) {
    EachOk(views, m, counts) && Different(views, m) && AllHeld(views, m) && m.count == sum + AllAdded(views, counts)
  }

  lemma {:induction false} AddedMore(views: seq<View>, counts: seq<int>, t: nat, v: View)
    requires |views| == |counts| && t < |views|
    ensures AllAdded(views[t := v], counts)
      == AllAdded(views, counts) - Added(views[t], counts[t]) + Added(v, counts[t])
  {
    var n := |views| - 1;
    if t < n {
      AddedMore(views[..n], counts[..n], t, v);
      assert views[t := v][..n] == views[..n][t := v];
    } else {
      assert views[t := v][..n] == views[..n];
    }
  }

  /** The others keep their tickets, and a thread inside has its to itself. */
  lemma OthersKept(views: seq<View>, m: Words, counts: seq<int>, t: nat, u: nat)
    requires EachOk(views, m, counts) && Different(views, m)
    requires t < |views| && u < |views| && u != t && views[t].at < 14
    ensures ThreadOk(views[u], Left(views[t], m), counts[u])
    ensures forall n :: HasTicket(views[u], Left(views[t], m), n) <==> HasTicket(views[u], m, n)
    ensures views[t].at == 9 ==> !HasTicket(views[u], m, m.turn)
  {
    hide ThreadOk;
    if Inside(views[t]) {
      assert HasTicket(views[t], m, m.turn);
      assert !HasTicket(views[u], m, m.turn);
    }
    OtherKept(views[u], counts[u], views[t], m, counts[t]);
  }

  lemma NewTicket(views: seq<View>, m: Words, counts: seq<int>, u: nat, n: int)
    requires EachOk(views, m, counts) && u < |views| && HasTicket(views[u], m, n)
    ensures m.turn <= n < m.ticket
  {
  }

  lemma DifferentKept(views: seq<View>, m: Words, counts: seq<int>, t: nat)
    requires EachOk(views, m, counts) && Different(views, m) && m.turn <= m.ticket
    requires t < |views| && views[t].at < 14
    ensures Different(views[t := Next(views[t], m)], Left(views[t], m))
  {
    hide ThreadOk, HasTicket, EachOk;
    var views', m' := views[t := Next(views[t], m)], Left(views[t], m);
    ThreadOf(views, m, counts, t);
    ThreadKept(views[t], m, counts[t]);
    forall a, b, n | 0 <= a < b < |views| && HasTicket(views'[a], m', n) ensures !HasTicket(views'[b], m', n) {
      if a != t { OthersKept(views, m, counts, t, a); }
      if b != t { OthersKept(views, m, counts, t, b); }
      if HasTicket(views'[b], m', n) {
        if a != t { NewTicket(views, m, counts, a, n); }
        if b != t { NewTicket(views, m, counts, b, n); }
        OneTicket(views'[t], m');
      }
    }
  }

  lemma OneTicket(v: View, m: Words)
    ensures forall n, l :: HasTicket(v, m, n) && HasTicket(v, m, l) ==> n == l
  {
  }

  lemma ThreadOf(views: seq<View>, m: Words, counts: seq<int>, t: nat)
    requires EachOk(views, m, counts) && t < |views|
    ensures |views| == |counts| && ThreadOk(views[t], m, counts[t])
  {
  }

  lemma HeldKept(views: seq<View>, m: Words, counts: seq<int>, t: nat)
    requires EachOk(views, m, counts) && Different(views, m) && AllHeld(views, m)
    requires t < |views| && views[t].at < 14
    ensures AllHeld(views[t := Next(views[t], m)], Left(views[t], m))
  {
    hide ThreadOk, HasTicket, EachOk, Next, Left;
    var views', m' := views[t := Next(views[t], m)], Left(views[t], m);
    ThreadOf(views, m, counts, t);
    ThreadKept(views[t], m, counts[t]);
    OneTicket(views[t], m);
    forall n | m'.turn <= n < m'.ticket ensures SomeoneHas(views', m', n) {
      if n == m.ticket {
        assert HasTicket(views'[t], m', n);
      } else {
        assert SomeoneHas(views, m, n);
        var u :| 0 <= u < |views| && HasTicket(views[u], m, n);
        if u != t { OthersKept(views, m, counts, t, u); }
        assert HasTicket(views'[u], m', n);
      }
    }
  }

  lemma OrderlyKept(views: seq<View>, m: Words, counts: seq<int>, sum: int, t: nat)
    requires Orderly(views, m, counts, sum) && t < |views| && views[t].at < 14
    ensures Orderly(views[t := Next(views[t], m)], Left(views[t], m), counts, sum)
  {
    hide ThreadOk, Different, Next, Left, AllAdded, Added;
    DifferentKept(views, m, counts, t);
    HeldKept(views, m, counts, t);
    ThreadKept(views[t], m, counts[t]);
    AddedMore(views, counts, t, Next(views[t], m));
    forall u: nat | u < |views| && u != t ensures ThreadOk(views[u], Left(views[t], m), counts[u]) {
      OthersKept(views, m, counts, t, u);
    }
  }

  // ---------- over whole runs ----------

  function Views(p: int, s: State): (views: seq<View>)
    ensures |views| == |s.ctx| && forall t :: 0 <= t < |views| ==> views[t] == Look(p, s.ctx[t])
  {
    seq(|s.ctx|, t requires 0 <= t < |s.ctx| => Look(p, s.ctx[t]))
  }

  ghost predicate Good(p: int, w: Words, counts: seq<int>, sum: int, s: State) {
    && |s.ctx| == |s.done| && Stored(w, s.mem)
    && (forall t :: 0 <= t < |s.ctx| ==> s.ctx[t].regs[ZERO] == 0 && (s.done[t] <==> s.ctx[t].pc == p + 14))
    && Orderly(Views(p, s), Held(w, s.mem), counts, sum)
  }

  lemma {:induction false} NothingAdded(views: seq<View>, counts: seq<int>)
    requires |views| == |counts| && forall t :: 0 <= t < |views| ==> views[t].at == 0 && views[t].bx == counts[t]
    ensures AllAdded(views, counts) == 0
  {
    if views != [] { NothingAdded(views[..|views| - 1], counts[..|counts| - 1]); }
  }

  lemma GoodAtStart(p: int, w: Words, counts: seq<int>, s: State)
    requires Begins(p, w, counts, s)
    ensures Good(p, w, counts, s.mem[w.count], s)
  {
    hide AllAdded;
    NothingAdded(Views(p, s), counts);
  }

  /** In every state of every run a thread that has not halted can go on: nothing fails. */
  lemma NeverFails(code: Code, p: int, w: Words, counts: seq<int>, run: seq<State>, i: nat, t: nat) returns (s': State)
    requires i < |run| && t < |run[i].ctx| == |run[i].done| && !run[i].done[t]
    requires Program(code, p, w) && IsRun(code, p, w, counts, run)
    ensures Moves(code, run[i], t, s')
  {
    hide Program, IsRun, Good, Step;
    RunGood(code, p, w, counts, run, i);
    CanMove(code, p, w, counts, run[0].mem[w.count], run[i], t);
    s' := Move(code, run[i], t).value;
  }

  lemma CanMove(code: Code, p: int, w: Words, counts: seq<int>, sum: int, s: State, t: nat)
    requires Program(code, p, w) && Good(p, w, counts, sum, s) && t < |s.ctx| && !s.done[t]
    ensures Move(code, s, t).Some?
  {
    hide Step, Program;
    assert ThreadOk(Views(p, s)[t], Held(w, s.mem), counts[t]);
    StepLooks(code, p, w, s.ctx[t], s.mem);
  }

  lemma GoodKept(code: Code, p: int, w: Words, counts: seq<int>, sum: int, s: State, t: nat)
    requires Program(code, p, w) && Good(p, w, counts, sum, s) && t < |s.ctx| && !s.done[t]
    ensures Move(code, s, t).Some?
    ensures var s' := Move(code, s, t).value;
      && Good(p, w, counts, sum, s')
      && Views(p, s') == Views(p, s)[t := Next(Views(p, s)[t], Held(w, s.mem))]
      && Held(w, s'.mem) == Left(Views(p, s)[t], Held(w, s.mem))
  {
    hide Step, Program, Orderly, ThreadOk, Next, Left;
    CanMove(code, p, w, counts, sum, s, t);
    EachOf(Views(p, s), Held(w, s.mem), counts, sum, t);
    LastStep(Views(p, s)[t], Held(w, s.mem));
    StepLooks(code, p, w, s.ctx[t], s.mem);
    OrderlyKept(Views(p, s), Held(w, s.mem), counts, sum, t);
    var s' := Move(code, s, t).value;
    assert Views(p, s') == Views(p, s)[t := Next(Views(p, s)[t], Held(w, s.mem))];
  }

  lemma LastStep(v: View, m: Words)
    requires 0 <= v.at < 14
    ensures Next(v, m).at == 14 <==> v.at == 13
  {
  }

  lemma EachOf(views: seq<View>, m: Words, counts: seq<int>, sum: int, t: nat)
    requires Orderly(views, m, counts, sum) && t < |views|
    ensures |views| == |counts| && ThreadOk(views[t], m, counts[t]) && 0 <= views[t].at <= 14
  {
  }

  lemma {:induction false} RunGood(code: Code, p: int, w: Words, counts: seq<int>, run: seq<State>, i: nat)
    requires Program(code, p, w) && IsRun(code, p, w, counts, run) && i < |run|
    ensures w.count in run[0].mem && Good(p, w, counts, run[0].mem[w.count], run[i])
  {
    hide Program, Good, Move, Begins;
    if i == 0 {
      GoodAtStart(p, w, counts, run[0]);
      BeginsStored(p, w, counts, run[0]);
    } else {
      RunGood(code, p, w, counts, run, i - 1);
      assert GoesOn(code, run, i - 1);
      assert SomeMove(code, run[i - 1], run[i]);
      var t: nat :| Moves(code, run[i - 1], t, run[i]);
      GoodKept(code, p, w, counts, run[0].mem[w.count], run[i - 1], t);
    }
  }

  lemma BeginsStored(p: int, w: Words, counts: seq<int>, s: State)
    requires Begins(p, w, counts, s)
    ensures w.count in s.mem
  {
  }

  predicate InSection(p: int, c: Context) { p + 5 <= c.pc <= p + 9 }

  /** Of the threads in every state of every run at most one is between its acquiring and its releasing. */
  lemma MutualExclusion(code: Code, p: int, w: Words, counts: seq<int>, run: seq<State>, i: nat, t: nat, u: nat)
    requires i < |run| && t < |run[i].ctx| && u < |run[i].ctx|
    requires InSection(p, run[i].ctx[t]) && InSection(p, run[i].ctx[u])
    requires Program(code, p, w) && IsRun(code, p, w, counts, run)
    ensures t == u
  {
    hide Program, IsRun;
    RunGood(code, p, w, counts, run, i);
    var views, m := Views(p, run[i]), Held(w, run[i].mem);
    assert HasTicket(views[t], m, m.turn) && HasTicket(views[u], m, m.turn);
  }

  // ---------- all increments arrive ----------

  /** Each thread adds one for each time round, which is once at least. */
  function Times(counts: seq<int>): int {
    if counts == [] then 0
    else Times(counts[..|counts| - 1]) + if counts[|counts| - 1] >= 1 then counts[|counts| - 1] else 1
  }

  lemma {:induction false} AddedInAll(views: seq<View>, m: Words, counts: seq<int>)
    requires EachOk(views, m, counts) && forall t :: 0 <= t < |views| ==> views[t].at == 14
    ensures AllAdded(views, counts) == Times(counts)
  {
    hide HasTicket, Ticket;
    if views != [] {
      var n := |views| - 1;
      assert ThreadOk(views[n], m, counts[n]);
      AddedInAll(views[..n], m, counts[..n]);
    }
  }

  /** When all threads have halted, under whatever schedule, every increment has arrived and the lock is free. */
  lemma NoLostUpdate(code: Code, p: int, w: Words, counts: seq<int>, run: seq<State>, i: nat)
    requires i < |run| && |run[i].done| == |run[i].ctx| && forall t :: 0 <= t < |run[i].done| ==> run[i].done[t]
    requires Program(code, p, w) && IsRun(code, p, w, counts, run)
    ensures w.count in run[0].mem && Stored(w, run[i].mem)
    ensures run[i].mem[w.count] == run[0].mem[w.count] + Times(counts)
    ensures run[i].mem[w.turn] == run[i].mem[w.ticket]
  {
    hide Program, IsRun, AllAdded, Times;
    RunGood(code, p, w, counts, run, i);
    var views, m := Views(p, run[i]), Held(w, run[i].mem);
    AddedInAll(views, m, counts);
    assert m.turn < m.ticket ==> SomeoneHas(views, m, m.turn);
  }

  // ---------- turns in order, and nobody stuck ----------

  /** Who enters has the number whose turn it is, which is below everybody else's. */
  lemma EntersInTurn(code: Code, p: int, w: Words, counts: seq<int>, run: seq<State>, i: nat, t: nat, u: nat)
    requires i < |run| && t < |run[i].ctx| && u < |run[i].ctx| && t != u && Stored(w, run[i].mem)
    requires run[i].ctx[t].pc == p + 4 && NEQ !in run[i].ctx[t].cc
    requires p + 2 <= run[i].ctx[u].pc <= p + 4
    requires Program(code, p, w) && IsRun(code, p, w, counts, run)
    ensures run[i].ctx[t].regs[AX] == run[i].mem[w.turn] < run[i].ctx[u].regs[AX]
  {
    hide Program, IsRun;
    RunGood(code, p, w, counts, run, i);
    var views, m := Views(p, run[i]), Held(w, run[i].mem);
    assert ThreadOk(views[t], m, counts[t]) && ThreadOk(views[u], m, counts[u]);
    assert HasTicket(views[t], m, m.turn);
  }

  /** Spinning in vain: waiting for another's turn to be over. */
  predicate Vain(w: Words, p: int, s: State, t: nat)
    requires t < |s.ctx| && Stored(w, s.mem)
  {
    Waits(Look(p, s.ctx[t])) && s.ctx[t].regs[AX] != s.mem[w.turn]
  }

  /** While any thread has not halted, one that has not is not spinning in vain. */
  lemma NotAllInVain(code: Code, p: int, w: Words, counts: seq<int>, run: seq<State>, i: nat, u: nat) returns (t: nat)
    requires i < |run| && u < |run[i].ctx| == |run[i].done| && !run[i].done[u]
    requires Program(code, p, w) && IsRun(code, p, w, counts, run)
    ensures Stored(w, run[i].mem) && t < |run[i].ctx| && !run[i].done[t] && !Vain(w, p, run[i], t)
  {
    hide Program, IsRun;
    RunGood(code, p, w, counts, run, i);
    var views, m := Views(p, run[i]), Held(w, run[i].mem);
    assert ThreadOk(views[u], m, counts[u]);
    if Vain(w, p, run[i], u) {
      assert SomeoneHas(views, m, m.turn);
      t :| 0 <= t < |views| && HasTicket(views[t], m, m.turn);
    } else {
      t := u;
    }
  }

  /** How many instructions of its own a thread whose turn it is has at most before it enters. */
  function Distance(v: View, turn: int): nat {
    if v.at == 2 then 3
    else if v.at == 3 then if v.cx == turn then 2 else 5
    else if v.at == 4 then if v.equal then 1 else 4
    else 0
  }

  /** The turn stays; after a step of its own the thread is one nearer, after one of another as near; and it stays
      waiting with its ticket until it is inside. */
  ghost predicate Advances(p: int, w: Words, s: State, s': State, t: nat, own: bool) {
    && t < |s.ctx| && t < |s'.ctx| && Stored(w, s.mem) && Stored(w, s'.mem) && s'.mem[w.turn] == s.mem[w.turn]
    && var d := Distance(Look(p, s.ctx[t]), s.mem[w.turn]);
    && d >= 1 && Distance(Look(p, s'.ctx[t]), s.mem[w.turn]) == (if own then d - 1 else d)
    && (if own && d == 1 then InSection(p, s'.ctx[t])
        else Waits(Look(p, s'.ctx[t])) && s'.ctx[t].regs[AX] == s.ctx[t].regs[AX])
  }

  /** A thread whose turn it is enters after at most five instructions of its own, whatever the others do between. */
  lemma Nearer(code: Code, p: int, w: Words, counts: seq<int>, run: seq<State>, i: nat, t: nat, u: nat, s': State)
    requires i < |run| && t < |run[i].ctx| && Stored(w, run[i].mem)
    requires Waits(Look(p, run[i].ctx[t])) && run[i].ctx[t].regs[AX] == run[i].mem[w.turn]
    requires Moves(code, run[i], u, s') && Program(code, p, w) && IsRun(code, p, w, counts, run)
    ensures Distance(Look(p, run[i].ctx[t]), run[i].mem[w.turn]) <= 5
    ensures Advances(p, w, run[i], s', t, u == t)
  {
    hide Program, IsRun, Step;
    RunGood(code, p, w, counts, run, i);
    GoodKept(code, p, w, counts, run[0].mem[w.count], run[i], u);
    hide Move;
    var views, m := Views(p, run[i]), Held(w, run[i].mem);
    assert ThreadOk(views[t], m, counts[t]) && ThreadOk(views[u], m, counts[u]);
    assert HasTicket(views[t], m, m.turn);
    if u != t { assert !HasTicket(views[u], m, m.turn); }
    assert Views(p, s')[t] == if u == t then Next(views[t], m) else views[t];
  }
}
