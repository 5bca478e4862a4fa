/** What the upkeep of file-ssd/ssd.py guarantees at every point of a run of commands, and what its count of failed
    writes counts. */
module SsdRuns {
  import opened Flash
  import opened FlashProgress
  import opened FlashTheorems
  import opened Ssd

  /** After every command of every run: fewer blocks are in use than the high-water mark allows, or no more than the
      low-water mark, or outside one block nothing is stored but live pages. */
  lemma KeptUp(f: Image, commands: seq<Command>, high: int, low: int) returns (b: nat)
    requires Shape(f) && commands != []
    ensures b < f.blocks
    ensures var g := AfterCommands(f, commands, high, low);
      || |InUse(g)| < high || |InUse(g)| <= low
      || forall p: nat :: p < |g.state| && g.state[p] == VALID && !InBlock(f.ppb, b, p) ==> IsLive(g, p)
  {
    hide Uniform, UsedOk, ReverseOk, IsLive, Upkeep, Commanded;
    var h := BeforeUpkeep(f, commands, high, low);
    b := h.block;
    UpkeepDone(h, high, low);
  }

  /** Only a write can fail on the device, and each answer other than success is counted. */
  lemma FailureCounted(f: Image, c: Command)
    requires Shape(f)
    ensures Commanded(f, c).writeFails == f.writeFails + if c.Write? && Reply(f, c) != Success then 1 else 0
  {
    hide Uniform, UsedOk, ReverseOk;
  }

  ghost function Failures(commands: seq<Command>, rcs: seq<Outcome>): nat
    requires |rcs| == |commands|
  {
    if commands == [] then 0
    else
      var n := |commands| - 1;
      Failures(commands[..n], rcs[..n]) + if commands[n].Write? && rcs[n] != Success then 1 else 0
  }

  /** With headroom at every collection the count is that of the writes that were refused: no copy of a collection has
      failed. */
  lemma {:induction false} FailuresCounted(f: Image, commands: seq<Command>, high: int, low: int)
    requires Shape(f) && Empty(f) && Roomy(f, commands, high, low)
    ensures AfterCommands(f, commands, high, low).writeFails
      == f.writeFails + Failures(commands, Replies(f, commands, high, low))
    decreases |commands|
  {
    hide Sizes, Uniform, UsedOk, Mapped, Contents, Commanded, Gc, BlocksInUse, Writable, Reply;
    if commands != [] {
      var n, g := |commands| - 1, BeforeUpkeep(f, commands, high, low);
      FailuresCounted(f, commands[..n], high, low);
      RoomyIsSafe(f, commands[..n], high, low);
      RunIsMap(f, commands[..n], high, low);
      CommandIsMap(AfterCommands(f, commands[..n], high, low), commands[n]);
      FailureCounted(AfterCommands(f, commands[..n], high, low), commands[n]);
      if BlocksInUse(g) >= high { GcWithRoom(g, Order(g), low); }
      var rcs := Replies(f, commands, high, low);
      assert rcs[..n] == Replies(f, commands[..n], high, low);
    }
  }
}
