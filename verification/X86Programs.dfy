/** What the instructions of threads-locks/x86.py compute: the arithmetic laws that tie them together, and the counting
    loop of threads-intro/looping-race-nolock.s run to its end. */
module X86Programs {
  import opened X86

  const ZERO: Reg := 0
  const AX: Reg := 1
  const BX: Reg := 2

  // ---------- arithmetic ----------

  /** What an instruction that touches no memory leaves in the registers. */
  function Do(i: Instr, regs: Regs): Regs { After(i, Context(0, regs, {}), 0).regs }

  /** Subtracting undoes adding, and the other way round; changing the sign twice changes nothing. */
  lemma Undone(imm: int, s: Reg, d: Reg, regs: Regs)
    ensures Do(SubI(imm, d), Do(AddI(imm, d), regs)) == regs == Do(AddI(imm, d), Do(SubI(imm, d), regs))
    ensures s != d ==> Do(SubR(s, d), Do(AddR(s, d), regs)) == regs == Do(AddR(s, d), Do(SubR(s, d), regs))
    ensures Do(Neg(d), Do(Neg(d), regs)) == regs
  {
  }

  /** The register forms do with the value of the source register what the immediate forms do with the number. */
  lemma RegisterForms(s: Reg, d: Reg, regs: Regs)
    ensures Do(MovRR(s, d), regs) == Do(MovIR(regs[s], d), regs)
    ensures Do(AddR(s, d), regs) == Do(AddI(regs[s], d), regs)
    ensures Do(SubR(s, d), regs) == Do(SubI(regs[s], d), regs)
    ensures Do(MulR(s, d), regs) == Do(MulI(regs[s], d), regs)
  {
  }

  /** Adding twice is adding the sum; multiplying by one more is adding the register once more; subtracting a register
      from itself leaves 0, and so does multiplying by 0; adding to a 0 is a move. */
  lemma Sums(a: int, b: int, d: Reg, regs: Regs)
    ensures Do(AddI(b, d), Do(AddI(a, d), regs)) == Do(AddI(a + b, d), regs)
    ensures Do(MulI(a + 1, d), regs) == Do(AddI(regs[d], d), Do(MulI(a, d), regs))
    ensures Do(MulI(2, d), regs) == Do(AddR(d, d), regs)
    ensures Do(MulI(-1, d), regs) == Do(Neg(d), regs)
    ensures Do(SubR(d, d), regs) == Do(MulI(0, d), regs) == Do(MovIR(0, d), regs)
    ensures Do(AddI(a, d), Do(MovIR(0, d), regs)) == Do(MovIR(a, d), regs)
    ensures Do(Pop, regs) == Do(AddI(4, SP), regs)
    ensures forall e: Reg :: e != d ==> Do(MovIR(a, d), regs)[e] == regs[e]
  {
    assert regs[d] * (a + 1) == regs[d] * a + regs[d];
  }

  /** Whoever moves a number into a register finds that number there: the test for equality says so, and the tests for
      more and less agree. */
  lemma MovedIsThere(code: Code, c: Context, mem: Memory, a: int, b: int, d: Reg, cond: Cond, targ: int)
    requires c.pc in code && code[c.pc] == MovIR(a, d)
    requires c.pc + 1 in code && code[c.pc + 1] == TestIR(b, d)
    requires c.pc + 2 in code && code[c.pc + 2] == JumpIf(cond, targ)
    ensures Solo(code, c, mem, 3).Some?
    ensures Solo(code, c, mem, 3).value.ctx.pc == if Compares(cond, a, b) then targ else c.pc + 3
  {
    SoloNext(code, c, mem, 0);
    SoloNext(code, c, mem, 1);
    SoloNext(code, c, mem, 2);
    var s := Solo(code, c, mem, 1).value;
    TestAndJump(code, s.ctx, s.mem, cond, targ);
  }

  lemma SoloNext(code: Code, c: Context, mem: Memory, k: nat)
    requires Solo(code, c, mem, k).Some? && !Solo(code, c, mem, k).value.halted
    ensures var s := Step(code, Solo(code, c, mem, k).value.ctx, Solo(code, c, mem, k).value.mem);
      Solo(code, c, mem, k + 1) == if s.None? then None else Some(Alone(s.value.0, s.value.1, s.value.2.Halted?))
  {
  }

  /** An address is the number itself without registers; adding to the first register moves it by as much, adding to the
      second by the scale times as much; and lea leaves the address in its register. */
  lemma Addresses(o: Operand, k: int, d: Reg, regs: Regs)
    ensures regs[ZERO] == 0 ==> Address(Operand(k, ZERO, ZERO, o.scale), regs) == k
    ensures o.reg1 != o.reg2 ==> Address(o, Do(AddI(k, o.reg1), regs)) == Address(o, regs) + k
    ensures o.reg1 != o.reg2 ==> Address(o, Do(AddI(1, o.reg2), regs)) == Address(o, regs) + o.scale
    ensures Address(o.(value := o.value + k), regs) == Address(o, regs) + k
    ensures Do(Lea(o, d), regs) == Do(MovIR(Address(o, regs), d), regs)
    ensures o.scale == 1 ==> Unscaled(o, regs) == Address(o, regs)
    ensures Unscaled(o, regs) == Unscaled(o.(scale := k), regs)
  {
    assert o.scale * (regs[o.reg2] + 1) == o.scale * regs[o.reg2] + o.scale;
  }

  // ---------- memory ----------

  /** What is stored is loaded again, by either way of storing, and other words stay as they were. */
  lemma StoreThenLoad(code: Code, c: Context, mem: Memory, at: Operand, d: Reg)
    requires c.pc in code && c.pc + 1 in code && code[c.pc + 1] == MovMR(at, d) && Address(at, c.regs) !in code
    requires code[c.pc].MovRM? || code[c.pc].MovIM?
    requires code[c.pc].at == at
    ensures Solo(code, c, mem, 2).Some?
    ensures var x := if code[c.pc].MovRM? then c.regs[code[c.pc].src] else code[c.pc].imm;
      var s := Solo(code, c, mem, 2).value;
      s.ctx == Context(c.pc + 2, c.regs[d := x], c.cc) && s.mem == mem[Address(at, c.regs) := x]
  {
    SoloNext(code, c, mem, 0);
    SoloNext(code, c, mem, 1);
  }

  /** A push of an address and a pop: the register holds the address, computed after the stack pointer moved. */
  lemma PushAddressThenPop(code: Code, c: Context, mem: Memory, at: Operand, d: Reg)
    requires d != SP && c.pc in code && code[c.pc] == PushM(at) && c.pc + 1 in code && code[c.pc + 1] == PopR(d)
    requires c.regs[SP] - 4 !in code
    ensures Solo(code, c, mem, 2).Some?
    ensures Solo(code, c, mem, 2).value.ctx.regs == c.regs[d := Address(at, Do(SubI(4, SP), c.regs))]
  {
    hide Solo, Address;
    SoloNone(code, c, mem);
    SoloNext(code, c, mem, 0);
    var x, sp := Address(at, Pushed(c.regs)), c.regs[SP] - 4;
    var y := Context(c.pc + 1, c.regs[SP := sp], c.cc);
    assert Step(code, c, mem) == Some((y, mem[sp := x], Go));
    hide Step;
    SoloNext(code, c, mem, 1);
    PoppedOff(code, y, mem[sp := x], d);
    assert c.regs[SP := sp][d := x][SP := sp + 4] == c.regs[d := x];
  }

  lemma PoppedOff(code: Code, c: Context, mem: Memory, d: Reg)
    requires d != SP && c.pc in code && code[c.pc] == PopR(d) && c.regs[SP] in mem && c.regs[SP] !in code
    ensures Step(code, c, mem) ==
      Some((Context(c.pc + 1, c.regs[d := mem[c.regs[SP]]][SP := c.regs[SP] + 4], c.cc), mem, Go))
  {
  }

  lemma SoloNone(code: Code, c: Context, mem: Memory)
    ensures Solo(code, c, mem, 0) == Some(Alone(c, mem, false))
  {
  }

  // ---------- the counting loop ----------

  /** The loop at `p`: load the word at `a`, add one, store it; subtract one from bx, and again if it is positive. */
  ghost predicate Loop(code: Code, p: int, a: int) {
    && {p, p + 1, p + 2, p + 3, p + 4, p + 5, p + 6} <= code.Keys && a !in code
    && code[p] == MovMR(Operand(a, ZERO, ZERO, 1), AX)
    && code[p + 1] == AddI(1, AX)
    && code[p + 2] == MovRM(AX, Operand(a, ZERO, ZERO, 1))
    && code[p + 3] == SubI(1, BX)
    && code[p + 4] == TestIR(0, BX)
    && code[p + 5] == JumpIf(GT, p)
    && code[p + 6] == Halt
  }

  /** The first half of a lap: the word goes up by one. */
  lemma Incremented(code: Code, p: int, a: int, c: Context, mem: Memory)
    requires Loop(code, p, a) && c.pc == p && c.regs[ZERO] == 0 && a in mem
    ensures var w := Context(p + 1, c.regs[AX := mem[a]], c.cc);
      var x := Context(p + 2, c.regs[AX := mem[a] + 1], c.cc);
      && Step(code, c, mem) == Some((w, mem, Go)) && Step(code, w, mem) == Some((x, mem, Go))
      && Step(code, x, mem) == Some((x.(pc := p + 3), mem[a := mem[a] + 1], Go))
  {
    assert c.regs[AX := mem[a]][AX := mem[a] + 1] == c.regs[AX := mem[a] + 1];
  }

  /** The second half: one less to go, and again if any are left. */
  lemma Decremented(code: Code, p: int, a: int, c: Context, mem: Memory)
    requires Loop(code, p, a) && c.pc == p + 3
    ensures var y := Context(p + 4, c.regs[BX := c.regs[BX] - 1], c.cc);
      && Step(code, c, mem) == Some((y, mem, Go))
      && Step(code, y, mem).Some? && Step(code, y, mem).value.1 == mem && Step(code, y, mem).value.2.Go?
      && var z := Step(code, y, mem).value.0;
      && z.pc == p + 5 && z.regs == y.regs
      && Step(code, z, mem) == Some((z.(pc := if y.regs[BX] > 0 then p else p + 6), mem, Go))
  {
    var y := Context(p + 4, c.regs[BX := c.regs[BX] - 1], c.cc);
    TestAndJump(code, y, mem, GT, p);
  }

  lemma Lap(code: Code, p: int, a: int, c: Context, mem: Memory, k: nat)
    requires Loop(code, p, a) && Solo(code, c, mem, k).Some? && !Solo(code, c, mem, k).value.halted
    requires var s := Solo(code, c, mem, k).value; s.ctx.pc == p && s.ctx.regs[ZERO] == 0 && a in s.mem
    ensures Solo(code, c, mem, k + 6).Some? && !Solo(code, c, mem, k + 6).value.halted
    ensures var s, t := Solo(code, c, mem, k).value, Solo(code, c, mem, k + 6).value;
      && t.ctx.pc == (if s.ctx.regs[BX] > 1 then p else p + 6) && t.ctx.regs[ZERO] == 0
      && t.ctx.regs[BX] == s.ctx.regs[BX] - 1
      && t.mem == s.mem[a := s.mem[a] + 1]
  {
    hide Step;
    var s := Solo(code, c, mem, k).value;
    Incremented(code, p, a, s.ctx, s.mem);
    hide Loop;
    SoloNext(code, c, mem, k);
    SoloNext(code, c, mem, k + 1);
    SoloNext(code, c, mem, k + 2);
    hide Solo;
    var t := Solo(code, c, mem, k + 3).value;
    Decremented(code, p, a, t.ctx, t.mem);
    SoloNext(code, c, mem, k + 3);
    SoloNext(code, c, mem, k + 4);
    SoloNext(code, c, mem, k + 5);
  }

  lemma {:induction false} Laps(code: Code, p: int, a: int, c: Context, mem: Memory, k: nat)
    requires Loop(code, p, a) && c.pc == p && c.regs[ZERO] == 0 && a in mem && k <= c.regs[BX] && c.regs[BX] >= 1
    ensures Solo(code, c, mem, 6 * k).Some? && !Solo(code, c, mem, 6 * k).value.halted
    ensures var s := Solo(code, c, mem, 6 * k).value;
      && s.ctx.pc == (if k < c.regs[BX] then p else p + 6) && s.ctx.regs[ZERO] == 0
      && s.ctx.regs[BX] == c.regs[BX] - k && s.mem == mem[a := mem[a] + k]
  {
    hide Step, Loop;
    if k == 0 {
      assert mem[a := mem[a]] == mem;
    } else {
      Laps(code, p, a, c, mem, k - 1);
      Lap(code, p, a, c, mem, 6 * (k - 1));
    }
  }

  /** Alone, the loop adds to the word exactly the count in bx and halts with instruction number 6 * bx + 1. */
  lemma LoopCounts(code: Code, p: int, a: int, c: Context, mem: Memory)
    requires Loop(code, p, a) && c.pc == p && c.regs[ZERO] == 0 && a in mem && c.regs[BX] >= 1
    ensures var s := Solo(code, c, mem, 6 * c.regs[BX] + 1);
      s.Some? && s.value.halted && s.value.mem == mem[a := mem[a] + c.regs[BX]] && s.value.ctx.regs[BX] == 0
  {
    hide Solo;
    Laps(code, p, a, c, mem, c.regs[BX]);
    SoloNext(code, c, mem, 6 * c.regs[BX]);
  }
}
