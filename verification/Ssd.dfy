/** class ssd of file-ssd/ssd.py in log mode: fields updated in place, loops and all.  Each method is
    proved to compute the function of the same purpose in Flash.dfy on the image of the fields. */
module Ssd {
  import opened Flash
  import opened FlashLoss
  import opened FlashTheorems
  import opened Arithmetic

  datatype Outcome = Success | Data(value: char) | IllegalAddress | Uninitialized | DeviceFull

  datatype Command = Read(address: int) | Write(address: int, data: char) | Trim(address: int)

  class Device {
    const num_logical_pages: nat
    const num_blocks: nat
    const pages_per_block: nat
    const gc_high_water_mark: int
    const gc_low_water_mark: int

    var state: seq<PageState>
    var data: seq<char>
    var forward_map: seq<int>
    var reverse_map: seq<int>
    var current_page: int
    var current_block: int
    var gc_used_blocks: seq<int>
    var gc_current_block: int
    var gc_count: nat
    var logical_write_fail_sum: nat

    /** The abstract value of the device. */
    ghost function Img(): Image
      reads this
    {
      Image(num_blocks, pages_per_block, state, data, forward_map, reverse_map, current_page, current_block,
            gc_used_blocks, gc_current_block, gc_count, logical_write_fail_sum)
    }

    ghost predicate Valid()
      reads this
    {
      Shape(Img()) && |forward_map| == num_logical_pages
    }

    constructor (logical: nat, blocks: nat, ppb: nat, high: int, low: int)
      requires blocks >= 1 && ppb >= 1
      ensures num_logical_pages == logical && num_blocks == blocks && pages_per_block == ppb
      ensures gc_high_water_mark == high && gc_low_water_mark == low
      ensures Valid() && Mapped(Img()) && Contents(Img()) == map[] && Writable(state) == blocks * ppb
    {
      num_logical_pages, num_blocks, pages_per_block := logical, blocks, ppb;
      gc_high_water_mark, gc_low_water_mark := high, low;
      state := seq(blocks * ppb, _ => INVALID);
      data := seq(blocks * ppb, _ => ' ');
      current_page, current_block := -1, 0;
      gc_count, gc_current_block := 0, 0;
      gc_used_blocks := seq(blocks, _ => 0);
      forward_map := seq(logical, _ => -1);
      reverse_map := seq(blocks * ppb, _ => -1);
      logical_write_fail_sum := 0;
      new;
      assert state == Repeat(blocks * ppb, INVALID) && data == Repeat(blocks * ppb, ' ');
      assert forward_map == Repeat(logical, -1) && reverse_map == Repeat(blocks * ppb, -1);
      assert gc_used_blocks == Repeat(blocks, 0);
      FreshIsEmpty(Img(), logical, blocks, ppb);
    }

    method BlocksInUse() returns (used: int)
      ensures used == Flash.BlocksInUse(Img())
    {
      used := 0;
      for i := 0 to |gc_used_blocks|
        invariant used == Sum(gc_used_blocks[..i])
      {
        assert gc_used_blocks[..i + 1][..i] == gc_used_blocks[..i];
        used := used + gc_used_blocks[i];
      }
      assert gc_used_blocks[..|gc_used_blocks|] == gc_used_blocks;
    }

    method PhysicalErase(block: nat)
      requires Sizes(Img()) && block < num_blocks
      modifies `state, `data, `gc_used_blocks
      ensures Img() == Erase(old(Img()), block)
    {
      ghost var f := Img();
      FirstInRange(f, block);
      FirstIsProduct(pages_per_block, block);
      var page_begin := block * pages_per_block;
      for page := page_begin to page_begin + pages_per_block
        invariant gc_used_blocks == f.used && |state| == |f.state| && |data| == |f.data|
        invariant forall p :: 0 <= p < |state| ==> state[p] == if page_begin <= p < page then ERASED else f.state[p]
        invariant forall p :: 0 <= p < |data| ==> data[p] == if page_begin <= p < page then ' ' else f.data[p]
      {
        data := data[page := ' '];
        state := state[page := ERASED];
      }
      gc_used_blocks := gc_used_blocks[block := 0];
      assert state == Erase(f, block).state && data == Erase(f, block).data;
    }

    method IsBlockFree(block: nat) returns (free: bool)
      requires Sizes(Img()) && block < num_blocks
      modifies `state, `data, `gc_used_blocks, `current_page, `current_block
      ensures free == (old(Head(Img(), block)) != VALID)
      ensures Img() == if free then Open(old(Img()), block) else old(Img())
    {
      FirstInRange(Img(), block);
      FirstIsProduct(pages_per_block, block);
      var first_page := block * pages_per_block;
      if state[first_page] == INVALID || state[first_page] == ERASED {
        if state[first_page] == INVALID {
          PhysicalErase(block);
        }
        current_block := block;
        current_page := first_page;
        gc_used_blocks := gc_used_blocks[block := 1];
        return true;
      }
      return false;
    }

    /** 0 with the cursor on an erased page, or -1 if the device is full */
    method GetCursor() returns (rc: int)
      requires Valid()
      modifies `state, `data, `gc_used_blocks, `current_page, `current_block
      ensures rc == if old(Full(Img())) then -1 else 0
      ensures Img() == if old(Full(Img())) then old(Img()) else Cursor(old(Img()))
    {
      ghost var f := Img();
      if current_page == -1 {
        for block := current_block to num_blocks
          invariant Img() == f && current_block <= block <= num_blocks
          invariant FindFree(f, f.block, f.blocks) == FindFree(f, block, f.blocks)
        {
          var free := IsBlockFree(block);
          if free { return 0; }
        }
        for block := 0 to current_block
          invariant Img() == f && 0 <= block <= current_block
          invariant FindFree(f, 0, f.block) == FindFree(f, block, f.block)
        {
          var free := IsBlockFree(block);
          if free { return 0; }
        }
        return -1;
      }
      return 0;
    }

    method WriteLogging(page_address: nat, value: char) returns (rc: Outcome)
      requires Valid() && page_address < num_logical_pages
      modifies this
      ensures Valid() && Img() == WriteLog(old(Img()), page_address, value)
      ensures rc == if old(Full(Img())) then DeviceFull else Success
    {
      ghost var f := Img();
      var cursor := GetCursor();
      if cursor == -1 {
        FailShape(f);
        logical_write_fail_sum := logical_write_fail_sum + 1;
        return DeviceFull;
      }
      CursorFacts(f);
      ProgramShape(Cursor(f), page_address, value);
      assert state[current_page] == ERASED;
      ProgramPage(page_address, value);
      return Success;
    }

    /** physical_program, the two map updates and update_cursor (lines 228-231) */
    method ProgramPage(page_address: nat, value: char)
      requires Sizes(Img()) && current_page != -1 && page_address < |forward_map|
      modifies `state, `data, `forward_map, `reverse_map, `current_page
      ensures Img() == Program(old(Img()), page_address, value)
    {
      FirstInRange(Img(), current_block);
      data := data[current_page := value];
      state := state[current_page := VALID];
      forward_map := forward_map[page_address := current_page];
      reverse_map := reverse_map[current_page := page_address];
      UpdateCursor();
    }

    method UpdateCursor()
      requires pages_per_block >= 1 && current_block >= 0 && InBlock(pages_per_block, current_block, current_page)
      modifies `current_page
      ensures current_page == if old(current_page) + 1 == First(pages_per_block, current_block) + pages_per_block
                              then -1 else old(current_page) + 1
    {
      EndOfBlock(pages_per_block, current_block, current_page + 1);
      current_page := current_page + 1;
      if current_page % pages_per_block == 0 {
        current_page := -1;
      }
    }

    /** The live pages of a block (lines 251-255). */
    method LivePages(block: nat) returns (live_pages: seq<nat>)
      requires Valid() && block < num_blocks
      ensures live_pages == Live(Img(), block)
    {
      FirstInRange(Img(), block);
      FirstIsProduct(pages_per_block, block);
      var page_start := block * pages_per_block;
      live_pages := [];
      for page := page_start to page_start + pages_per_block
        invariant live_pages + LiveFrom(Img(), page, page_start + pages_per_block) == Live(Img(), block)
      {
        assert ReverseOk(Img(), page);
        ghost var rest := LiveFrom(Img(), page + 1, page_start + pages_per_block);
        assert (live_pages + [page]) + rest == live_pages + ([page] + rest);
        var logical_page := reverse_map[page];
        if logical_page != -1 && forward_map[logical_page] == page {
          live_pages := live_pages + [page];
        }
      }
    }

    /** Copy the live pages to the current writing location (lines 262-268). */
    method CopyOut(live_pages: seq<nat>)
      requires Valid() && Copyable(Img(), live_pages)
      modifies this
      ensures Valid() && Img() == CopyLive(old(Img()), live_pages)
    {
      ghost var f := Img();
      for i := 0 to |live_pages|
        invariant Valid() && Copyable(Img(), live_pages[i..])
        invariant CopyLive(Img(), live_pages[i..]) == CopyLive(f, live_pages)
      {
        assert live_pages[i..][0] == live_pages[i] && live_pages[i..][1..] == live_pages[i + 1..];
        var page := live_pages[i];
        assert ReverseOk(Img(), page);
        var value := data[page];
        WriteKeepsCopyable(Img(), reverse_map[page], value, live_pages[i + 1..]);
        var _ := WriteLogical(reverse_map[page], value);
      }
    }

    /** write, in log mode */
    method WriteLogical(address: int, value: char) returns (rc: Outcome)
      requires Valid()
      modifies this
      ensures Valid()
      ensures if 0 <= address < num_logical_pages
        then Img() == WriteLog(old(Img()), address, value) && rc == (if old(Full(Img())) then DeviceFull else Success)
        else Img() == old(Img().(writeFails := Img().writeFails + 1)) && rc == IllegalAddress
    {
      if address < 0 || address >= num_logical_pages {
        FailShape(Img());
        logical_write_fail_sum := logical_write_fail_sum + 1;
        return IllegalAddress;
      }
      rc := WriteLogging(address, value);
    }

    /** One turn of the collector's loop: pass the block over, or copy its live pages out and erase it. */
    method CleanBlock(block: nat) returns (cleaned: bool)
      requires Valid() && block < num_blocks
      modifies this
      ensures Valid() && cleaned == !old(Skips(Img(), block))
      ensures Img() == if cleaned then Collect(old(Img()), block) else old(Img())
    {
      if block == current_block { return false; }
      FirstInRange(Img(), block);
      FirstIsProduct(pages_per_block, block);
      if state[block * pages_per_block] == ERASED { return false; }
      var live_pages := LivePages(block);
      if |live_pages| == pages_per_block { return false; }
      LiveIsCopyable(Img(), block);
      CollectShape(Img(), block);
      CopyOut(live_pages);
      PhysicalErase(block);
      return true;
    }

    /** The rest of the loop body: stop once few enough blocks are in use (lines 271-285). */
    method Visit(order: seq<nat>, i: nat) returns (done: bool)
      requires Valid() && i < |order| && forall j :: 0 <= j < |order| ==> order[j] < num_blocks
      modifies this
      ensures Valid()
      ensures var whole := old(Gc(Img(), order[i..], gc_low_water_mark));
        whole == if done then Img() else Gc(Img(), order[i + 1..], gc_low_water_mark)
    {
      var block := order[i];
      GcNext(Img(), order, i, gc_low_water_mark);
      var cleaned := CleanBlock(block);
      if !cleaned { return false; }
      var used := BlocksInUse();
      if used > gc_low_water_mark { return false; }
      MarkShape(Img(), block);
      gc_current_block := block;
      gc_count := gc_count + 1;
      return true;
    }

    method GarbageCollect()
      requires Valid()
      modifies this
      ensures Valid() && Img() == GcAll(old(Img()), gc_low_water_mark)
    {
      hide Gc;
      ghost var f := Img();
      var order := Range(gc_current_block, num_blocks) + Range(0, gc_current_block);
      for i := 0 to |order|
        invariant Valid() && forall j :: 0 <= j < |order| ==> order[j] < num_blocks
        invariant Gc(Img(), order[i..], gc_low_water_mark) == GcAll(f, gc_low_water_mark)
      {
        var done := Visit(order, i);
        if done { return; }
      }
      GcDone(Img(), order, gc_low_water_mark);
    }

    method Upkeep()
      requires Valid()
      modifies this
      ensures Valid() && Img() == Flash.Upkeep(old(Img()), gc_high_water_mark, gc_low_water_mark)
    {
      var used := BlocksInUse();
      if used >= gc_high_water_mark {
        GarbageCollect();
      }
    }

    method TrimLogical(address: int) returns (rc: Outcome)
      requires Valid()
      modifies `forward_map
      ensures Valid()
      ensures if !(0 <= address < num_logical_pages) then rc == IllegalAddress && Img() == old(Img())
        else if old(forward_map[address]) == -1 then rc == Uninitialized && Img() == old(Img())
        else rc == Success && Img() == FlashTheorems.Trim(old(Img()), address)
    {
      if address < 0 || address >= num_logical_pages { return IllegalAddress; }
      if forward_map[address] == -1 { return Uninitialized; }
      TrimTheorem(Img(), address);
      forward_map := forward_map[address := -1];
      return Success;
    }

    method ReadLogical(address: int) returns (r: Outcome)
      requires Valid()
      ensures r == Lookup(Contents(Img()), num_logical_pages, address)
    {
      if address < 0 || address >= num_logical_pages { return IllegalAddress; }
      if forward_map[address] == -1 { return Uninitialized; }
      return Data(data[forward_map[address]]);
    }
  }

  lemma GcNext(f: Image, order: seq<nat>, i: nat, low: int)
    requires Shape(f) && i < |order| && forall j :: 0 <= j < |order| ==> order[j] < f.blocks
    ensures var rest, b := order[i + 1..], order[i];
      Gc(f, order[i..], low) ==
        if Skips(f, b) then Gc(f, rest, low)
        else var g := Collect(f, b);
             if Flash.BlocksInUse(g) <= low then g.(gcBlock := b, gcCount := g.gcCount + 1) else Gc(g, rest, low)
  {
    assert order[i..][0] == order[i] && order[i..][1..] == order[i + 1..];
  }

  lemma GcDone(f: Image, order: seq<nat>, low: int)
    requires Shape(f)
    ensures Gc(f, order[|order|..], low) == f
  {
  }

  // ---------- whole runs ----------

  /** What a read of a plain map answers. */
  function Lookup(m: map<int, char>, logical: nat, address: int): Outcome {
    if !(0 <= address < logical) then IllegalAddress else if address in m then Data(m[address]) else Uninitialized
  }

  /** A read that changes: after five writes to a new device the upkeep that collects makes the value of page 2 a
      blank. */
  lemma ReadChanges(high: int, low: int)
    requires high <= 2
    ensures Shape(Cramped())
    ensures Lookup(Contents(Cramped()), 4, 2) == Data('c')
    ensures Lookup(Contents(Flash.Upkeep(Cramped(), high, low)), 4, 2) == Data(' ')
  {
    hide Shape, GcAll;
    CollectionCanLose(low);
    assert Cramped().used == [1, 1] && [1, 1][..1] == [1] && [1][..0] == [];
    assert Sum([1]) == 1 && BlocksInUse(Cramped()) == 2;
  }

  /** The map the commands so far have built, given which of them were reported successful. */
  ghost function Replay(commands: seq<Command>, rcs: seq<Outcome>): map<int, char>
    requires |commands| == |rcs|
  {
    if commands == [] then map[]
    else
      var n := |commands| - 1;
      Apply(Replay(commands[..n], rcs[..n]), commands[n], rcs[n])
  }

  ghost function Apply(m: map<int, char>, c: Command, rc: Outcome): map<int, char> {
    if rc != Success then m
    else match c
      case Read(_) => m
      case Write(a, d) => m[a := d]
      case Trim(a) => m - {a}
  }

  /** How a plain map `m` would answer a command; a write may also be refused for want of room. */
  ghost predicate Answers(m: map<int, char>, logical: nat, c: Command, rc: Outcome) {
    match c
    case Read(a) => rc == Lookup(m, logical, a)
    case Write(a, _) => if 0 <= a < logical then rc == Success || rc == DeviceFull else rc == IllegalAddress
    case Trim(a) => rc == if !(0 <= a < logical) then IllegalAddress else if a in m then Success else Uninitialized
  }

  ghost predicate AllAnswered(logical: nat, commands: seq<Command>, rcs: seq<Outcome>, n: nat)
    requires n <= |commands| && n <= |rcs|
  {
    forall i :: 0 <= i < n ==> Answers(Replay(commands[..i], rcs[..i]), logical, commands[i], rcs[i])
  }

  /** One more command. */
  lemma ReplayOneMore(logical: nat, commands: seq<Command>, c: Command, rcs: seq<Outcome>, rc: Outcome)
    requires |rcs| == |commands| && AllAnswered(logical, commands, rcs, |rcs|)
    requires Answers(Replay(commands, rcs), logical, c, rc)
    ensures AllAnswered(logical, commands + [c], rcs + [rc], |rcs| + 1)
    ensures Replay(commands + [c], rcs + [rc]) == Apply(Replay(commands, rcs), c, rc)
  {
    hide Replay, Answers;
    var more, longer := commands + [c], rcs + [rc];
    forall i | 0 <= i < |longer| ensures Answers(Replay(more[..i], longer[..i]), logical, more[i], longer[i]) {
      if i < |rcs| {
        assert longer[..i] == rcs[..i] && more[..i] == commands[..i];
        assert Answers(Replay(commands[..i], rcs[..i]), logical, commands[i], rcs[i]);
      } else {
        assert longer[..i] == rcs && more[..i] == commands;
      }
    }
    ReplayEnd(commands, c, rcs, rc);
  }

  lemma ReplayEnd(commands: seq<Command>, c: Command, rcs: seq<Outcome>, rc: Outcome)
    requires |rcs| == |commands|
    ensures Replay(commands + [c], rcs + [rc]) == Apply(Replay(commands, rcs), c, rc)
  {
    assert (commands + [c])[..|commands|] == commands && (rcs + [rc])[..|rcs|] == rcs;
  }

  /** The device after a command. */
  ghost function Commanded(f: Image, c: Command): (g: Image)
    requires Shape(f)
    ensures Shape(g) && g.blocks == f.blocks && g.ppb == f.ppb && |g.forward| == |f.forward|
  {
    match c
    case Read(_) => f
    case Write(a, d) =>
      if 0 <= a < |f.forward| then WriteLog(f, a, d)
      else
        FailShape(f);
        f.(writeFails := f.writeFails + 1)
    case Trim(a) =>
      if 0 <= a < |f.forward| then
        TrimTheorem(f, a);
        FlashTheorems.Trim(f, a)
      else f
  }

  /** What the device answers. */
  ghost function Reply(f: Image, c: Command): Outcome
    requires Shape(f)
  {
    match c
    case Read(a) => Lookup(Contents(f), |f.forward|, a)
    case Write(a, _) => if !(0 <= a < |f.forward|) then IllegalAddress else if Full(f) then DeviceFull else Success
    case Trim(a) =>
      if !(0 <= a < |f.forward|) then IllegalAddress else if f.forward[a] == -1 then Uninitialized else Success
  }

  /** One command: the map changes as a plain map would, and the answer is that of a plain map; a write is refused
      exactly when no page is left. */
  lemma CommandIsMap(f: Image, c: Command)
    requires Shape(f) && Mapped(f)
    ensures Mapped(Commanded(f, c)) && Contents(Commanded(f, c)) == Apply(Contents(f), c, Reply(f, c))
    ensures Answers(Contents(f), |f.forward|, c, Reply(f, c))
    ensures c.Write? && 0 <= c.address < |f.forward| ==> (Reply(f, c) == DeviceFull <==> Writable(f.state) == 0)
  {
    match c {
      case Read(a) =>
      case Write(a, d) =>
        FullIff(f);
        if 0 <= a < |f.forward| { WriteTheorem(f, a, d); } else { FailKeepsContents(f); }
      case Trim(a) =>
        if 0 <= a < |f.forward| {
          TrimTheorem(f, a);
          if f.forward[a] == -1 { assert Contents(f) - {a} == Contents(f); }
        }
    }
  }

  lemma FailKeepsContents(f: Image)
    requires Shape(f)
    ensures var g := f.(writeFails := f.writeFails + 1);
      Shape(g) && Contents(g) == Contents(f) && (Mapped(f) ==> Mapped(g))
  {
    FailShape(f);
    var g := f.(writeFails := f.writeFails + 1);
    assert forall a :: 0 <= a < |f.forward| ==> (Sound(g, a) <==> Sound(f, a));
  }

  /** One command, as the loop dispatches it. */
  method Execute(s: Device, c: Command) returns (rc: Outcome)
    requires s.Valid()
    modifies s
    ensures s.Valid() && s.Img() == Commanded(old(s.Img()), c) && rc == Reply(old(s.Img()), c)
  {
    ghost var f := s.Img();
    match c {
      case Read(a) => rc := s.ReadLogical(a);
      case Write(a, d) => rc := s.WriteLogical(a, d);
      case Trim(a) =>
        rc := s.TrimLogical(a);
        if rc == Uninitialized { assert f.forward[a := -1] == f.forward; }
    }
  }

  /** The device after the commands, with an upkeep after each. */
  ghost function AfterCommands(f: Image, commands: seq<Command>, high: int, low: int): (g: Image)
    requires Shape(f)
    ensures Shape(g) && g.blocks == f.blocks && g.ppb == f.ppb && |g.forward| == |f.forward|
  {
    if commands == [] then f
    else
      var n := |commands| - 1;
      Flash.Upkeep(Commanded(AfterCommands(f, commands[..n], high, low), commands[n]), high, low)
  }

  /** The device when the upkeep after the last command begins. */
  ghost function BeforeUpkeep(f: Image, commands: seq<Command>, high: int, low: int): (g: Image)
    requires Shape(f) && commands != []
    ensures Shape(g) && g.blocks == f.blocks && g.ppb == f.ppb && |g.forward| == |f.forward|
  {
    Commanded(AfterCommands(f, commands[..|commands| - 1], high, low), commands[|commands| - 1])
  }

  ghost function Replies(f: Image, commands: seq<Command>, high: int, low: int): (rcs: seq<Outcome>)
    requires Shape(f)
    ensures |rcs| == |commands|
  {
    if commands == [] then []
    else
      var n := |commands| - 1;
      Replies(f, commands[..n], high, low) + [Reply(AfterCommands(f, commands[..n], high, low), commands[n])]
  }

  /** Every collection of the run starts with at least pages_per_block - 1 writable pages. */
  ghost predicate Roomy(f: Image, commands: seq<Command>, high: int, low: int)
    requires Shape(f)
  {
    commands != [] ==>
      var g := BeforeUpkeep(f, commands, high, low);
      Roomy(f, commands[..|commands| - 1], high, low) && (BlocksInUse(g) >= high ==> Writable(g.state) >= g.ppb - 1)
  }

  /** The live pages of the first block that each collection cleans fit in the writable pages. */
  ghost predicate Safe(f: Image, commands: seq<Command>, high: int, low: int)
    requires Shape(f)
  {
    commands != [] ==>
      var g := BeforeUpkeep(f, commands, high, low);
      Safe(f, commands[..|commands| - 1], high, low)
      && (BlocksInUse(g) >= high ==> FirstVictimFits(g, Order(g), low))
  }

  ghost predicate ActsAsMap(g: Image, commands: seq<Command>, rcs: seq<Outcome>)
    requires Sizes(g) && |rcs| == |commands|
  {
    Mapped(g) && Contents(g) == Replay(commands, rcs) && AllAnswered(|g.forward|, commands, rcs, |commands|)
  }

  ghost predicate Empty(f: Image)
    requires Sizes(f)
  {
    Mapped(f) && Contents(f) == map[]
  }

  /** Over any safe run from an empty device, the device is a plain map: it holds what was reported written and not
      since trimmed, and every command is answered as that map would, every read with the last such value. */
  lemma {:induction false} RunIsMap(f: Image, commands: seq<Command>, high: int, low: int)
    requires Shape(f) && Empty(f) && Safe(f, commands, high, low)
    ensures var g, rcs := AfterCommands(f, commands, high, low), Replies(f, commands, high, low);
      ActsAsMap(g, commands, rcs)
    decreases |commands|
  {
    hide Shape, Mapped, Contents, Commanded, Reply, FirstVictimFits, GcAll, BlocksInUse, Answers, Apply;
    if commands != [] {
      var n := |commands| - 1;
      RunIsMap(f, commands[..n], high, low);
      var g, rcs := AfterCommands(f, commands[..n], high, low), Replies(f, commands[..n], high, low);
      CommandIsMap(g, commands[n]);
      assert commands == commands[..n] + [commands[n]];
      ReplayOneMore(|f.forward|, commands[..n], commands[n], rcs, Reply(g, commands[n]));
      UpkeepExactlySafe(Commanded(g, commands[n]), high, low);
    }
  }

  lemma UpkeepExactlySafe(f: Image, high: int, low: int)
    requires Shape(f) && Mapped(f)
    ensures Mapped(Flash.Upkeep(f, high, low)) <==> (BlocksInUse(f) >= high ==> FirstVictimFits(f, Order(f), low))
    ensures Mapped(Flash.Upkeep(f, high, low)) ==> Contents(Flash.Upkeep(f, high, low)) == Contents(f)
  {
    if BlocksInUse(f) >= high { GcExactlySafe(f, Order(f), low); }
  }

  /** The headroom makes a run safe. */
  lemma {:induction false} RoomyIsSafe(f: Image, commands: seq<Command>, high: int, low: int)
    requires Shape(f) && Empty(f) && Roomy(f, commands, high, low)
    ensures Safe(f, commands, high, low)
    decreases |commands|
  {
    hide Sizes, Uniform, UsedOk, Mapped, Contents, Commanded, FirstVictimFits, Gc, BlocksInUse, Writable;
    if commands != [] {
      var n, g := |commands| - 1, BeforeUpkeep(f, commands, high, low);
      RoomyIsSafe(f, commands[..n], high, low);
      RunIsMap(f, commands[..n], high, low);
      CommandIsMap(AfterCommands(f, commands[..n], high, low), commands[n]);
      if BlocksInUse(g) >= high {
        GcWithRoom(g, Order(g), low);
        GcExactlySafe(g, Order(g), low);
      }
    }
  }

  ghost predicate MappedAt(f: Image, commands: seq<Command>, k: nat, high: int, low: int)
    requires Shape(f) && k <= |commands|
  {
    Mapped(AfterCommands(f, commands[..k], high, low))
  }

  lemma MappedInPrefix(f: Image, commands: seq<Command>, n: nat, k: nat, high: int, low: int)
    requires Shape(f) && k <= n <= |commands|
    ensures MappedAt(f, commands[..n], k, high, low) == MappedAt(f, commands, k, high, low)
  {
    assert commands[..n][..k] == commands[..k];
  }

  /** And no weaker condition will do: the mapping stands after every command of a run if and only if the run is
      safe. */
  lemma {:induction false} RunExactlySafe(f: Image, commands: seq<Command>, high: int, low: int)
    requires Shape(f) && Empty(f)
    ensures Safe(f, commands, high, low) <==> forall k: nat :: k <= |commands| ==> MappedAt(f, commands, k, high, low)
    decreases |commands|
  {
    hide Sizes, Uniform, UsedOk, Contents, Commanded, FirstVictimFits, Gc, BlocksInUse, MappedAt, AfterCommands;
    if commands == [] {
      NothingRun(f, commands, high, low);
    } else {
      var n := |commands| - 1;
      RunExactlySafe(f, commands[..n], high, low);
      forall k: nat | k <= n ensures MappedAt(f, commands[..n], k, high, low) == MappedAt(f, commands, k, high, low) {
        MappedInPrefix(f, commands, n, k, high, low);
      }
      if Safe(f, commands[..n], high, low) { LastExactlySafe(f, commands, high, low); }
    }
  }

  lemma NothingRun(f: Image, commands: seq<Command>, high: int, low: int)
    requires Shape(f) && Empty(f) && commands == []
    ensures MappedAt(f, commands, 0, high, low)
  {
  }

  lemma LastExactlySafe(f: Image, commands: seq<Command>, high: int, low: int)
    requires Shape(f) && Empty(f) && commands != [] && Safe(f, commands[..|commands| - 1], high, low)
    ensures MappedAt(f, commands, |commands|, high, low) <==> Safe(f, commands, high, low)
  {
    hide Sizes, Uniform, UsedOk, Mapped, Contents, Commanded, FirstVictimFits, Gc, GcAll, BlocksInUse;
    var n := |commands| - 1;
    RunIsMap(f, commands[..n], high, low);
    CommandIsMap(AfterCommands(f, commands[..n], high, low), commands[n]);
    UpkeepExactlySafe(BeforeUpkeep(f, commands, high, low), high, low);
    assert commands[..|commands|] == commands;
  }

  /** The command loop (lines 574-613). */
  method Run(s: Device, commands: seq<Command>) returns (rcs: seq<Outcome>)
    requires s.Valid()
    modifies s
    ensures s.Valid()
    ensures s.Img() == AfterCommands(old(s.Img()), commands, s.gc_high_water_mark, s.gc_low_water_mark)
    ensures rcs == Replies(old(s.Img()), commands, s.gc_high_water_mark, s.gc_low_water_mark)
    ensures Empty(old(s.Img())) && Roomy(old(s.Img()), commands, s.gc_high_water_mark, s.gc_low_water_mark) ==>
      ActsAsMap(s.Img(), commands, rcs)
    ensures Empty(old(s.Img())) && Safe(old(s.Img()), commands, s.gc_high_water_mark, s.gc_low_water_mark) ==>
      ActsAsMap(s.Img(), commands, rcs)
  {
    ghost var f, high, low := s.Img(), s.gc_high_water_mark, s.gc_low_water_mark;
    rcs := [];
    for i := 0 to |commands|
      invariant s.Valid() && s.Img() == AfterCommands(f, commands[..i], high, low)
      invariant rcs == Replies(f, commands[..i], high, low)
    {
      var rc := Execute(s, commands[i]);
      rcs := rcs + [rc];
      s.Upkeep();
      assert commands[..i + 1][..i] == commands[..i];
    }
    assert commands[..|commands|] == commands;
    if Empty(f) {
      if Roomy(f, commands, high, low) { RoomyIsSafe(f, commands, high, low); }
      if Safe(f, commands, high, low) { RunIsMap(f, commands, high, low); }
    }
  }

  lemma EndOfBlock(ppb: nat, b: nat, p: nat)
    requires ppb >= 1 && First(ppb, b) < p <= First(ppb, b) + ppb
    ensures p % ppb == 0 <==> p == First(ppb, b) + ppb
  {
    FirstIsProduct(ppb, b);
    if p == b * ppb + ppb {
      DivModOf(p, ppb, b + 1, 0);
    } else {
      DivModOf(p, ppb, b, p - b * ppb);
    }
  }
}
