/** The simulated machine of threads-locks/x86.py: its instructions, context switches at any point, and why threads
    that keep to memory of their own cannot disturb each other. */
module X86 {

  const NUM_REGS: nat := 9
  const SP: nat := 7

  type Reg = r: nat | r < NUM_REGS

  type Regs = s: seq<int> | |s| == NUM_REGS witness [0, 0, 0, 0, 0, 0, 0, 0, 0]

  datatype Cond = GT | GTE | LT | LTE | EQ | NEQ

  type Conds = set<Cond>

  /** What process.save and process.restore copy: program counter, registers and condition codes. */
  datatype Context = Context(pc: int, regs: Regs, cc: Conds)

  type Memory = map<int, int>

  /** value(reg1, reg2, scale) */
  datatype Operand = Operand(value: int, reg1: Reg, reg2: Reg, scale: int)

  datatype Instr =
    | MovIR(imm: int, dst: Reg) | MovIM(imm: int,
      at: Operand) | MovMR(at: Operand, dst: Reg) | MovRM(src: Reg, at: Operand)
    | MovRR(src: Reg, dst: Reg) | Lea(at: Operand, dst: Reg)
    | AddI(imm: int, dst: Reg) | AddR(src: Reg, dst: Reg) | MulI(imm: int, dst: Reg) | MulR(src: Reg, dst: Reg)
    | SubI(imm: int, dst: Reg) | SubR(src: Reg, dst: Reg) | Neg(dst: Reg)
    | Xchg(src: Reg, at: Operand) | FetchAdd(src: Reg, at: Operand)
    | TestIR(imm: int, dst: Reg) | TestRI(src: Reg, imm: int) | TestRR(src: Reg, dst: Reg)
    | Jump(targ: int) | JumpIf(cond: Cond, targ: int) | Call(targ: int) | Ret
    | PushR(src: Reg) | PushM(at: Operand) | Pop | PopR(dst: Reg)
    | Nop | Halt | Yield

  type Code = map<int, Instr>

  datatype Option<T> = None | Some(value: T)

  function Address(o: Operand, regs: Regs): int { o.value + regs[o.reg1] + o.scale * regs[o.reg2] }

  /** xchg and fetchadd ignore the scale. */
  function Unscaled(o: Operand, regs: Regs): int { o.value + regs[o.reg1] + regs[o.reg2] }

  /** test_all: the condition codes for `dst` compared with `src`. */
  function Compare(src: int, dst: int): Conds {
    (if dst > src then {GT, GTE, NEQ} else {}) +
      (if dst == src then {GTE, LTE, EQ} else {}) + (if dst < src then {LT, LTE, NEQ} else {})
  }

  // Every instruction reads at most one memory word and writes at most one.

  function Reads(i: Instr, regs: Regs): Option<int> {
    match i
    case MovMR(at, _) => Some(Address(at, regs))
    case Xchg(_, at) => Some(Unscaled(at, regs))
    case FetchAdd(_, at) => Some(Unscaled(at, regs))
    case Ret => Some(regs[SP])
    case PopR(_) => Some(regs[SP])
    case _ => None
  }

  /** Address and value written, given the program counter (already moved on) and the word read. */
  function Writes(i: Instr, pc: int, regs: Regs, read: int): Option<(int, int)> {
    match i
    case MovIM(imm, at) => Some((Address(at, regs), imm))
    case MovRM(src, at) => Some((Address(at, regs), regs[src]))
    case Xchg(src, at) => Some((Unscaled(at, regs), regs[src]))
    case FetchAdd(src, at) => Some((Unscaled(at, regs), read + regs[src]))
    case Call(_) => Some((regs[SP] - 4, pc))
    case PushR(src) => Some((regs[SP] - 4, Pushed(regs)[src]))
    case PushM(at) => Some((regs[SP] - 4, Address(at, Pushed(regs))))
    case _ => None
  }

  /** The stack pointer moves before a push stores anything. */
  function Pushed(regs: Regs): Regs { regs[SP := regs[SP] - 4] }

  function Popped(regs: Regs): Regs { regs[SP := regs[SP] + 4] }

  /** The context afterwards. */
  function After(i: Instr, c: Context, read: int): Context {
    var r := c.regs;
    match i
    case MovIR(imm, d) => c.(regs := r[d := imm])
    case MovMR(_, d) => c.(regs := r[d := read])
    case MovRR(s, d) => c.(regs := r[d := r[s]])
    case Lea(at, d) => c.(regs := r[d := Address(at, r)])
    case AddI(imm, d) => c.(regs := r[d := r[d] + imm])
    case AddR(s, d) => c.(regs := r[d := r[d] + r[s]])
    case MulI(imm, d) => c.(regs := r[d := r[d] * imm])
    case MulR(s, d) => c.(regs := r[d := r[d] * r[s]])
    case SubI(imm, d) => c.(regs := r[d := r[d] - imm])
    case SubR(s, d) => c.(regs := r[d := r[d] - r[s]])
    case Neg(d) => c.(regs := r[d := -r[d]])
    case Xchg(s, _) => c.(regs := r[s := read])
    case FetchAdd(s, _) => c.(regs := r[s := read])
    case TestIR(imm, d) => c.(cc := Compare(imm, r[d]))
    case TestRI(s, imm) => c.(cc := Compare(r[s], imm))
    case TestRR(s, d) => c.(cc := Compare(r[s], r[d]))
    case Jump(t) => c.(pc := t)
    case JumpIf(cond, t) => if cond in c.cc then c.(pc := t) else c
    case Call(t) => c.(regs := Pushed(r), pc := t)
    case Ret => c.(regs := Popped(r), pc := read)
    case PushR(_) => c.(regs := Pushed(r))
    case PushM(_) => c.(regs := Pushed(r))
    case Pop => c.(regs := Popped(r))
    case PopR(d) => c.(regs := Popped(r[d := read]))
    case _ => c
  }

  datatype Signal = Go | Halted | Yielded

  function SignalOf(i: Instr): Signal { if i.Halt? then Halted else if i.Yield? then Yielded else Go }

  /** The word an instruction reads; none if that address holds no data, or an instruction. */
  function Fetched(code: Code, mem: Memory, a: Option<int>): Option<int> {
    if a.None? then Some(0) else if a.value in mem && a.value !in code then Some(mem[a.value]) else None
  }

  /** One instruction; None where the simulator stops with an error. */
  function Step(code: Code, c: Context, mem: Memory): Option<(Context, Memory, Signal)> {
    if c.pc !in code then None
    else
      var i := code[c.pc];
      var moved := c.(pc := c.pc + 1);
      var read := Fetched(code, mem, Reads(i, c.regs));
      if read.None? then None
      else
        var w := Writes(i, moved.pc, c.regs, read.value);
        if w.Some? && w.value.0 in code then None
        else Some((After(i, moved, read.value), if w.Some? then mem[w.value.0 := w.value.1] else mem, SignalOf(i)))
  }

  // ---------- what the instructions are for ----------

  /** After a test of any form, a conditional jump jumps exactly when the second operand compares so with the first. */
  lemma TestAndJump(code: Code, c: Context, mem: Memory, cond: Cond, targ: int)
    requires c.pc in code && (code[c.pc].TestRR? || code[c.pc].TestIR? || code[c.pc].TestRI?)
    requires c.pc + 1 in code && code[c.pc + 1] == JumpIf(cond, targ)
    ensures Step(code, c, mem).Some?
    ensures var s := Step(code, c, mem).value;
      && s.1 == mem && Step(code, s.0, mem).Some?
      && var d, (x, y) := Step(code, s.0, mem).value, Operands(code[c.pc], c.regs);
      d.0.pc == (if Compares(cond, y, x) then targ else c.pc + 2) && d.0.regs == c.regs && d.1 == mem
  {
  }

  /** What a test compares, as written: first and second operand. */
  function Operands(i: Instr, regs: Regs): (int, int)
    requires i.TestRR? || i.TestIR? || i.TestRI?
  {
    match i
    case TestRR(src, dst) => (regs[src], regs[dst])
    case TestIR(imm, dst) => (imm, regs[dst])
    case TestRI(src, imm) => (regs[src], imm)
  }

  predicate Compares(cond: Cond, x: int, y: int) {
    match cond
    case GT => x > y
    case GTE => x >= y
    case LT => x < y
    case LTE => x <= y
    case EQ => x == y
    case NEQ => x != y
  }

  /** A push and a pop into the same register, other than the stack pointer, restore the registers. */
  lemma PushThenPop(code: Code, c: Context, mem: Memory, r: Reg)
    requires r != SP && c.pc in code && code[c.pc] == PushR(r) && c.pc + 1 in code && code[c.pc + 1] == PopR(r)
    requires c.regs[SP] - 4 !in code
    ensures Step(code, c, mem).Some?
    ensures var s := Step(code, c, mem).value;
      Step(code, s.0, s.1).Some? && Step(code, s.0, s.1).value.0 == c.(pc := c.pc + 2)
  {
    var s := Step(code, c, mem).value;
    assert s.0.regs[SP] == c.regs[SP] - 4 && s.1[c.regs[SP] - 4] == c.regs[r];
    assert Popped(s.0.regs[r := c.regs[r]]) == c.regs;
  }

  /** A call and a return at once come back behind the call. */
  lemma CallThenReturn(code: Code, c: Context, mem: Memory, targ: int)
    requires c.pc in code && code[c.pc] == Call(targ) && targ in code && code[targ] == Ret && c.regs[SP] - 4 !in code
    ensures Step(code, c, mem).Some?
    ensures var s := Step(code, c, mem).value;
      s.0.pc == targ && Step(code, s.0, s.1).Some? && Step(code, s.0, s.1).value.0 == c.(pc := c.pc + 1)
  {
    var s := Step(code, c, mem).value;
    assert s.1[c.regs[SP] - 4] == c.pc + 1;
    assert Popped(s.0.regs) == c.regs;
  }

  /** The two lock instructions in one indivisible step: the register gets the old word, memory the register's value
      or the sum. */
  lemma LockInstructions(code: Code, c: Context, mem: Memory, src: Reg, at: Operand)
    requires c.pc in code && (code[c.pc] == Xchg(src, at) || code[c.pc] == FetchAdd(src, at))
    requires Unscaled(at, c.regs) in mem && Unscaled(at, c.regs) !in code
    ensures Step(code, c, mem).Some?
    ensures var s, a := Step(code, c, mem).value, Unscaled(at, c.regs);
      && s.0 == Context(c.pc + 1, c.regs[src := mem[a]], c.cc)
      && s.1 == mem[a := if code[c.pc].Xchg? then c.regs[src] else mem[a] + c.regs[src]]
  {
  }

  /** Contexts about to fetch-and-add to the word at `a`. */
  ghost predicate Adders(code: Code, cs: seq<Context>, a: int) {
    a !in code && forall k :: 0 <= k < |cs| ==>
      cs[k].pc in code && code[cs[k].pc].FetchAdd? && Unscaled(code[cs[k].pc].at, cs[k].regs) == a
  }

  /** The memory after each of the contexts, one after the other, has executed its instruction. */
  function AddAll(code: Code, cs: seq<Context>, mem: Memory): Option<Memory> {
    if cs == [] then Some(mem)
    else
      var before := AddAll(code, cs[..|cs| - 1], mem);
      if before.None? then None
      else
        var s := Step(code, cs[|cs| - 1], before.value);
        if s.None? then None else Some(s.value.1)
  }

  /** What context `k` finds in its register. */
  function Ticket(code: Code, cs: seq<Context>, mem: Memory, k: nat): int
    requires k < |cs| && cs[k].pc in code && code[cs[k].pc].FetchAdd?
    requires AddAll(code, cs[..k], mem).Some? && Step(code, cs[k], AddAll(code, cs[..k], mem).value).Some?
  {
    Step(code, cs[k], AddAll(code, cs[..k], mem).value).value.0.regs[code[cs[k].pc].src]
  }

  lemma {:induction false} AddAllWorks(code: Code, cs: seq<Context>, mem: Memory, a: int)
    requires Adders(code, cs, a) && a in mem
    ensures AddAll(code, cs, mem).Some? && a in AddAll(code, cs, mem).value
  {
    if cs != [] {
      var n := |cs| - 1;
      AddAllWorks(code, cs[..n], mem, a);
      LockInstructions(code, cs[n], AddAll(code, cs[..n], mem).value, code[cs[n].pc].src, code[cs[n].pc].at);
    }
  }

  /** A ticket is what the word held just then. */
  lemma TicketIs(code: Code, cs: seq<Context>, mem: Memory, a: int, k: nat)
    requires Adders(code, cs, a) && a in mem && k < |cs|
    ensures AddAll(code, cs[..k], mem).Some? && Step(code, cs[k], AddAll(code, cs[..k], mem).value).Some?
    ensures a in AddAll(code, cs[..k], mem).value && Ticket(code, cs, mem, k) == AddAll(code, cs[..k], mem).value[a]
    ensures AddAll(code, cs[..k + 1], mem).Some? && a in AddAll(code, cs[..k + 1], mem).value
    ensures AddAll(code, cs[..k + 1], mem).value[a] == Ticket(code, cs, mem, k) + cs[k].regs[code[cs[k].pc].src]
  {
    AddAllWorks(code, cs[..k], mem, a);
    LockInstructions(code, cs[k], AddAll(code, cs[..k], mem).value, code[cs[k].pc].src, code[cs[k].pc].at);
    assert cs[..k + 1][..k] == cs[..k] && cs[..k + 1][k] == cs[k];
  }

  /** What a ticket lock rests on: whichever threads add, and in whatever order, if all add something positive then
      each gets a larger number than everybody before it. */
  lemma {:induction false} TicketsIncrease(code: Code, cs: seq<Context>, mem: Memory, a: int, k: nat, l: nat)
    requires Adders(code, cs, a) && a in mem && k < l < |cs|
    requires forall j :: 0 <= j < |cs| ==> cs[j].regs[code[cs[j].pc].src] > 0
    ensures AddAll(code, cs[..k], mem).Some? && Step(code, cs[k], AddAll(code, cs[..k], mem).value).Some?
    ensures AddAll(code, cs[..l], mem).Some? && Step(code, cs[l], AddAll(code, cs[..l], mem).value).Some?
    ensures Ticket(code, cs, mem, k) < Ticket(code, cs, mem, l)
    decreases l - k
  {
    hide AddAll, Ticket, Step;
    TicketIs(code, cs, mem, a, k);
    TicketIs(code, cs, mem, a, k + 1);
    if k + 1 < l { TicketsIncrease(code, cs, mem, a, k + 1, l); }
  }

  // ---------- keeping to memory of one's own ----------

  /** The addresses the next instruction touches are in `own`. */
  predicate Within(code: Code, c: Context, own: set<int>) {
    c.pc in code ==>
      var i := code[c.pc];
      && (Reads(i, c.regs).Some? ==> Reads(i, c.regs).value in own)
      && (Writes(i, 0, c.regs, 0).Some? ==> Writes(i, 0, c.regs, 0).value.0 in own)
  }

  /** Two memories with the same words at the addresses in `own`. */
  ghost predicate Agree(m: Memory, n: Memory, own: set<int>) {
    forall a :: a in own ==> (a in m <==> a in n) && (a in m ==> m[a] == n[a])
  }

  /** Where an instruction writes does not depend on what it reads. */
  lemma WriteAddress(i: Instr, pc: int, regs: Regs, read: int)
    ensures Writes(i, pc, regs, read).Some? <==> Writes(i, 0, regs, 0).Some?
    ensures Writes(i, pc, regs, read).Some? ==> Writes(i, pc, regs, read).value.0 == Writes(i, 0, regs, 0).value.0
  {
  }

  lemma SameFetch(code: Code, m: Memory, n: Memory, own: set<int>, a: Option<int>)
    requires Agree(m, n, own) && (a.Some? ==> a.value in own)
    ensures Fetched(code, m, a) == Fetched(code, n, a)
  {
    if a.Some? {
      var b := a.value;
      assert b in own;
      assert b in m <==> b in n;
    }
  }

  /** An instruction that keeps to `own` does the same on memories that agree there, and changes nothing else. */
  lemma StepLocal(code: Code, c: Context, m: Memory, n: Memory, own: set<int>)
    requires Within(code, c, own) && Agree(m, n, own)
    ensures Step(code, c, m).Some? <==> Step(code, c, n).Some?
    ensures Step(code, c, m).Some? ==>
      var x, y := Step(code, c, m).value, Step(code, c, n).value;
      && x.0 == y.0 && x.2 == y.2 && Agree(x.1, y.1, own)
      && (forall a :: a !in own ==> (a in x.1 <==> a in m) && (a in m ==> x.1[a] == m[a]))
  {
    hide After, SignalOf, Writes, Reads;
    if c.pc in code {
      var i := code[c.pc];
      var read := Fetched(code, m, Reads(i, c.regs));
      var a := Reads(i, c.regs);
      assert a.Some? ==> a.value in own;
      SameFetch(code, m, n, own, a);
      if read.Some? { WriteAddress(i, c.pc + 1, c.regs, read.value); }
    }
  }

  /** A thread running alone: its context and the memory, and whether it has halted. */
  datatype Alone = Alone(ctx: Context, mem: Memory, halted: bool)

  /** The thread run alone for `k` instructions; none if it fails or halts before. */
  function Solo(code: Code, c: Context, mem: Memory, k: nat): Option<Alone> {
    if k == 0 then Some(Alone(c, mem, false))
    else
      var before := Solo(code, c, mem, k - 1);
      if before.None? || before.value.halted then None
      else
        var s := Step(code, before.value.ctx, before.value.mem);
        if s.None? then None else Some(Alone(s.value.0, s.value.1, s.value.2.Halted?))
  }

  /** Run alone, the thread never touches anything outside `own` before it halts. */
  ghost predicate Confined(code: Code, c: Context, mem: Memory, own: set<int>) {
    forall k: nat ::
      var s := Solo(code, c, mem, k); s.Some? && !s.value.halted ==> Within(code, s.value.ctx, own)
  }

  // ---------- the machine ----------

  /** What a thread is at the start: its context, and the memory that is its own. */
  datatype Thread = Thread(start: Context, own: set<int>)

  /** No two threads share an address, and each keeps to its own when it runs alone. */
  ghost predicate Separate(code: Code, threads: seq<Thread>, mem: Memory) {
    && (forall t, u, a :: 0 <= t < |threads| && 0 <= u < |threads| && a in threads[t].own && a in threads[u].own ==>
      t == u)
    && (forall t :: 0 <= t < |threads| ==> Confined(code, threads[t].start, mem, threads[t].own))
  }

  /** Thread `t`, with context `c`, after `k` instructions is where it would be alone. */
  ghost predicate AsAlone(code: Code, thread: Thread, initial: Memory, c: Context, mem: Memory, k: nat) {
    var s := Solo(code, thread.start, initial, k);
    s.Some? && s.value.ctx == c && Agree(s.value.mem, mem, thread.own)
  }

  /** The current thread executes one instruction: it is one further than alone, and it fails only if it would
      fail alone. */
  lemma OwnStep(code: Code, thread: Thread, initial: Memory, c: Context, mem: Memory, k: nat)
    requires Confined(code, thread.start, initial, thread.own) && AsAlone(code, thread, initial, c, mem, k)
    requires !Solo(code, thread.start, initial, k).value.halted
    ensures Step(code, c, mem).None? <==> Solo(code, thread.start, initial, k + 1).None?
    ensures Step(code, c, mem).Some? ==>
      AsAlone(code, thread, initial, Step(code, c, mem).value.0, Step(code, c, mem).value.1, k + 1)
    ensures Step(code, c, mem).Some? ==>
      Solo(code, thread.start, initial, k + 1).value.halted == Step(code, c, mem).value.2.Halted?
    ensures Step(code, c, mem).Some? ==> forall a :: a !in thread.own ==>
      (a in Step(code, c, mem).value.1 <==> a in mem) && (a in mem ==> Step(code, c, mem).value.1[a] == mem[a])
  {
    hide Step, Within;
    var s := Solo(code, thread.start, initial, k).value;
    StepLocal(code, c, s.mem, mem, thread.own);
    StepLocal(code, c, mem, s.mem, thread.own);
  }

  class Cpu {
    const code: Code
    const threads: seq<Thread>
    const initial: Memory
    var pc: int
    var registers: Regs
    var conditions: Conds
    var memory: Memory
    var saved: seq<Context>
    var done: seq<bool>
    var curr: nat
    ghost var counts: seq<nat>

    /** A thread's context: in the processor while it runs, saved otherwise. */
    function ContextOf(t: nat): Context
      requires t < |saved|
      reads this
    {
      if t == curr && !AllDone() then Context(pc, registers, conditions) else saved[t]
    }

    predicate AllDone()
      reads this
    {
      forall t :: 0 <= t < |done| ==> done[t]
    }

    /** Every thread that has not halted is exactly where it would be alone, and so is its memory; the memory of
        one that has halted stays as it left it. */
    ghost predicate Valid()
      reads this
    {
      && Separate(code, threads, initial)
      && |saved| == |done| == |counts| == |threads|
      && (AllDone() || (curr < |threads| && !done[curr]))
      && (forall t: nat :: t < |threads| ==> Right(t))
    }

    ghost predicate Right(t: nat)
      reads this
      requires t < |threads| && |saved| == |done| == |counts| == |threads|
    {
      var s := Solo(code, threads[t].start, initial, counts[t]);
      s.Some? && Agree(s.value.mem, memory, threads[t].own)
        && (!done[t] ==> s.value.ctx == ContextOf(t)) && s.value.halted == done[t]
    }

    constructor (code: Code, threads: seq<Thread>, initial: Memory)
      requires Separate(code, threads, initial) && threads != []
      ensures Valid() && this.code == code && this.threads == threads && this.initial == initial && memory == initial
      ensures curr == 0 && (forall t :: 0 <= t < |threads| ==> counts[t] == 0 && !done[t])
    {
      this.code, this.threads, this.initial := code, threads, initial;
      memory := initial;
      saved := seq(|threads|, t requires 0 <= t < |threads| => threads[t].start);
      done := seq(|threads|, _ => false);
      counts := seq(|threads|, _ => 0);
      curr := 0;
      pc, registers, conditions := threads[0].start.pc, threads[0].start.regs, threads[0].start.cc;
    }

    method Save()
      requires curr < |saved|
      modifies this`saved
      ensures saved == old(saved)[curr := Context(pc, registers, conditions)]
    {
      saved := saved[curr := Context(pc, registers, conditions)];
    }

    method Restore()
      requires curr < |saved|
      modifies this`pc, this`registers, this`conditions
      ensures Context(pc, registers, conditions) == saved[curr]
    {
      pc, registers, conditions := saved[curr].pc, saved[curr].regs, saved[curr].cc;
    }

    /** next(), under whatever schedule: some thread that is not done. */
    method Next(pick: nat)
      requires pick < |done| && !done[pick]
      modifies this`curr
      ensures curr == pick
    {
      curr := pick;
    }

    /** A context switch: save, next, restore. */
    method Switch(pick: nat)
      requires Valid() && !AllDone() && pick < |threads| && !done[pick]
      modifies this`saved, this`curr, this`pc, this`registers, this`conditions
      ensures Valid() && curr == pick
    {
      hide Solo, Agree, Separate;
      assert forall t: nat :: t < |threads| ==> Right(t);
      ghost var was := curr;
      Save();
      assert saved[was] == Context(pc, registers, conditions);
      Next(pick);
      Restore();
      assert forall t: nat :: t < |threads| ==> old(ContextOf(t)) == ContextOf(t);
      assert forall t: nat :: t < |threads| ==> Right(t) by {
        forall t: nat | t < |threads| ensures Right(t) { assert old(Right(t)); }
      }
    }

    /** Fetch and execute; a thread that halts is done. It fails exactly where the thread would fail alone. */
    method Execute() returns (ok: bool, signal: Signal)
      requires Valid() && !AllDone()
      modifies this`pc, this`registers, this`conditions, this`memory, this`counts, this`done
      ensures ok <==> Solo(code, threads[curr].start, initial, old(counts)[curr] + 1).Some?
      ensures ok ==> counts == old(counts)[curr := old(counts)[curr] + 1] && |done| == |threads|
      ensures ok ==> done == if signal.Halted? then old(done)[curr := true] else old(done)
      ensures ok ==> forall t: nat :: t < |threads| ==> Right(t)
    {
      hide Solo, Agree, Separate, Step;
      signal := Go;
      assert Right(curr);
      ghost var before, held := memory, Context(pc, registers, conditions);
      assert ContextOf(curr) == held;
      SeparateAt(code, threads, initial, curr);
      OwnStep(code, threads[curr], initial, held, memory, counts[curr]);
      var r := Step(code, Context(pc, registers, conditions), memory);
      if r.None? { return false, signal; }
      OthersAgree(code, threads, initial, curr, before, r.value.1);
      pc, registers, conditions, memory := r.value.0.pc, r.value.0.regs, r.value.0.cc, r.value.1;
      signal := r.value.2;
      counts := counts[curr := counts[curr] + 1];
      if signal.Halted? { done := done[curr := true]; }
      forall t: nat | t < |threads| ensures Right(t) {
        if t != curr {
          assert old(Right(t));
          AgreeTrans(Solo(code, threads[t].start, initial, counts[t]).value.mem, before, memory, threads[t].own);
        }
      }
      ok := true;
    }

    /** After a halt: next and restore. What the processor held is not saved. */
    method TakeOver(pick: nat)
      requires Separate(code, threads, initial) && |saved| == |done| == |counts| == |threads|
      requires (forall t: nat :: t < |threads| ==> Right(t))
        && curr < |threads| && done[curr] && pick < |threads| && !done[pick]
      modifies this`curr, this`pc, this`registers, this`conditions
      ensures Valid() && curr == pick
    {
      hide Solo, Agree, Separate;
      Next(pick);
      Restore();
      forall t: nat | t < |threads| ensures Right(t) { assert old(Right(t)); }
    }

    /** One turn of run(): the current thread executes an instruction; when it halts another takes over, and when
        the interrupt timer fires or it yields there is a switch. Which thread comes next is left open. */
    method Turn(interrupt: bool, afterHalt: nat, afterSwitch: nat) returns (ok: bool)
      requires Valid() && !AllDone() && afterHalt < |threads| && afterSwitch < |threads|
      modifies this
      ensures ok <==> Solo(code, threads[old(curr)].start, initial, old(counts)[old(curr)] + 1).Some?
      ensures ok ==> Valid() && counts == old(counts)[old(curr) := old(counts)[old(curr)] + 1]
      ensures ok ==> forall t :: 0 <= t < |threads| && t != old(curr) ==> done[t] == old(done)[t]
    {
      hide Solo, Agree, Separate;
      var signal;
      ok, signal := Execute();
      if !ok || AllDone() { return; }
      var waiting: nat :| waiting < |done| && !done[waiting];
      if signal.Halted? { TakeOver(if done[afterHalt] then waiting else afterHalt); }
      if interrupt || signal.Yielded? { Switch(if done[afterSwitch] then waiting else afterSwitch); }
    }

    /** run(), with the interrupts and the order of threads left open at every turn: when every thread, alone, halts
        with instruction number lengths[t], every schedule runs without failing and ends after the sum of these, each
        thread having executed just its own. */
    method Run(ghost lengths: seq<nat>) returns (icount: nat)
      requires Valid() && |lengths| == |threads| && (forall t :: 0 <= t < |threads| ==> counts[t] == 0)
      requires forall t :: 0 <= t < |threads| ==> HaltsAfter(code, threads[t], initial, lengths[t])
      modifies this
      ensures Valid() && AllDone() && icount == Total(lengths) && counts == lengths
    {
      hide Solo, Agree, Separate, Total;
      icount := 0;
      TotalOfNone(counts);
      while !AllDone()
        invariant Valid() && icount == Total(counts)
        invariant forall t :: 0 <= t < |threads| ==> counts[t] <= lengths[t]
        decreases Total(lengths) - icount
      {
        assert Right(curr);
        ghost var was, before := curr, counts;
        NotYetHalted(code, threads[curr], initial, lengths[curr], counts[curr]);
        var interrupt: bool := *;
        var afterHalt: nat, afterSwitch: nat :| afterHalt < |threads| && afterSwitch < |threads|;
        var ok := Turn(interrupt, afterHalt, afterSwitch);
        TotalOneMore(before, was);
        TotalBelow(counts, lengths);
        icount := icount + 1;
      }
      forall t: nat | t < |threads| ensures counts[t] == lengths[t] {
        assert Right(t);
        if counts[t] < lengths[t] { NothingAfterHalt(code, threads[t].start, initial, counts[t], lengths[t]); }
      }
      assert counts == lengths;
    }
  }

  lemma AgreeTrans(a: Memory, b: Memory, c: Memory, own: set<int>)
    requires Agree(a, b, own) && Agree(b, c, own)
    ensures Agree(a, c, own)
  {
  }

  lemma SeparateAt(code: Code, threads: seq<Thread>, mem: Memory, t: nat)
    requires Separate(code, threads, mem) && t < |threads|
    ensures Confined(code, threads[t].start, mem, threads[t].own)
  {
  }

  /** What lies outside one thread's memory includes every other thread's. */
  lemma OthersAgree(code: Code, threads: seq<Thread>, initial: Memory, cur: nat, m: Memory, n: Memory)
    requires Separate(code, threads, initial) && cur < |threads|
    requires forall a :: a !in threads[cur].own ==> (a in n <==> a in m) && (a in m ==> n[a] == m[a])
    ensures forall t: nat :: t < |threads| && t != cur ==> Agree(m, n, threads[t].own)
  {
    hide Confined;
  }

  /** The thread, run alone, halts with instruction number `n`. */
  ghost predicate HaltsAfter(code: Code, thread: Thread, initial: Memory, n: nat) {
    Solo(code, thread.start, initial, n).Some? && Solo(code, thread.start, initial, n).value.halted
  }

  lemma {:induction false} BeforeHalt(code: Code, c: Context, mem: Memory, n: nat, k: nat)
    requires Solo(code, c, mem, n).Some? && k <= n
    ensures Solo(code, c, mem, k).Some?
  {
    if k < n { BeforeHalt(code, c, mem, n - 1, k); }
  }

  /** A thread that has not halted has an instruction left. */
  lemma NotYetHalted(code: Code, thread: Thread, initial: Memory, n: nat, k: nat)
    requires HaltsAfter(code, thread, initial, n) && k <= n
    requires Solo(code, thread.start, initial, k).Some? && !Solo(code, thread.start, initial, k).value.halted
    ensures k < n && Solo(code, thread.start, initial, k + 1).Some?
  {
    if k < n { BeforeHalt(code, thread.start, initial, n, k + 1); }
  }

  function Total(s: seq<nat>): nat {
    if s == [] then 0 else Total(s[..|s| - 1]) + s[|s| - 1]
  }

  lemma {:induction false} TotalOfNone(s: seq<nat>)
    requires forall t :: 0 <= t < |s| ==> s[t] == 0
    ensures Total(s) == 0
  {
    if s != [] { TotalOfNone(s[..|s| - 1]); }
  }

  lemma {:induction false} TotalOneMore(s: seq<nat>, t: nat)
    requires t < |s|
    ensures Total(s[t := s[t] + 1]) == Total(s) + 1
  {
    var n := |s| - 1;
    if t < n {
      TotalOneMore(s[..n], t);
      assert s[t := s[t] + 1][..n] == s[..n][t := s[t] + 1];
    } else {
      assert s[t := s[t] + 1][..n] == s[..n];
    }
  }

  lemma {:induction false} TotalBelow(s: seq<nat>, u: seq<nat>)
    requires |s| == |u| && forall t :: 0 <= t < |s| ==> s[t] <= u[t]
    ensures Total(s) <= Total(u)
  {
    if s != [] { TotalBelow(s[..|s| - 1], u[..|u| - 1]); }
  }

  /** A thread run alone halts after one number of instructions only. */
  lemma {:induction false} NothingAfterHalt(code: Code, c: Context, mem: Memory, k: nat, l: nat)
    requires k < l && Solo(code, c, mem, k).Some? && Solo(code, c, mem, k).value.halted
    ensures Solo(code, c, mem, l).None?
  {
    if k < l - 1 { NothingAfterHalt(code, c, mem, k, l - 1); }
  }

  /** Results do not depend on the schedule: two machines that started alike and whose threads have all halted hold
      the same words in every thread's memory, whatever their interrupts were. */
  lemma ScheduleIndependent(a: Cpu, b: Cpu, t: nat)
    requires a.Valid() && b.Valid() && a.AllDone() && b.AllDone()
    requires a.code == b.code && a.threads == b.threads && a.initial == b.initial && t < |a.threads|
    ensures a.counts[t] == b.counts[t] && Agree(a.memory, b.memory, a.threads[t].own)
  {
    hide Solo, Agree, Separate;
    assert a.Right(t) && b.Right(t);
    var c := a.threads[t].start;
    if a.counts[t] < b.counts[t] { NothingAfterHalt(a.code, c, a.initial, a.counts[t], b.counts[t]); }
    if b.counts[t] < a.counts[t] { NothingAfterHalt(a.code, c, a.initial, b.counts[t], a.counts[t]); }
    var m := Solo(a.code, c, a.initial, a.counts[t]).value.mem;
    AgreeBoth(m, a.memory, b.memory, a.threads[t].own);
  }

  lemma AgreeBoth(m: Memory, a: Memory, b: Memory, own: set<int>)
    requires Agree(m, a, own) && Agree(m, b, own)
    ensures Agree(a, b, own)
  {
  }
}
