/** class OS of vm-smalltables/paging-multilevel-translate.py: page allocation and page tables in a memory array. */
module PageTableOS {
  import opened PageTable

  /** The pages in use are the pages that have a role. */
  ghost predicate Accounts(used: seq<nat>, count: nat, roles: Roles) {
    && |used| == PHYS_PAGES
    && (forall p: nat :: p < PHYS_PAGES ==> used[p] == if p in roles then 1 else 0)
    && count == |roles|
  }

  /** Roles already given stay. */
  ghost predicate Extends(before: Roles, after: Roles) {
    forall p :: p in before ==> p in after && after[p] == before[p]
  }

  predicate Owns(role: Role, pid: int) { HasEntries(role) && role.pid == pid }

  /** Pages in use, other than the tables of process `pid`, keep their contents. */
  ghost predicate Untouched(before: Memory, after: Memory, roles: Roles, pid: int) {
    forall p :: p in roles && !Owns(roles[p], pid) ==> p < PHYS_PAGES && SamePage(before, after, p)
  }

  /** Roles given since are those of `vpn` of process `pid`: its frame, and perhaps a page of the page table. */
  ghost predicate OnlyFor(before: Roles, after: Roles, pid: int, vpn: nat) {
    forall p :: p in after && p !in before && !after[p].Reserved? ==>
      after[p] == Frame(pid, vpn) || after[p] == Table(pid, vpn / 32)
  }

  /** `vps` are the virtual pages of `pid` that have a frame. */
  ghost predicate MapsExactly(roles: Roles, pid: int, vps: seq<nat>) {
    && (forall vp: nat :: vp in vps ==> vp < VA_PAGES && IsMapped(roles, pid, vp))
    && (forall frame: nat, vp: nat :: Maps(roles, pid, vp, frame) ==> vp in vps)
  }

  ghost predicate IsMapped(roles: Roles, pid: int, vp: nat) { exists frame: nat :: Maps(roles, pid, vp, frame) }

  ghost predicate NewOwner(before: Roles, after: Roles, pid: int) {
    forall p :: p in after && p !in before && !after[p].Reserved? ==> after[p].pid == pid
  }

  lemma OneMoreMapped(before: Roles, after: Roles, pid: int, vps: seq<nat>, vp: nat)
    requires MapsExactly(before, pid, vps) && Extends(before, after) && OnlyFor(before, after, pid, vp)
    requires IsMapped(after, pid, vp) && vp < VA_PAGES
    ensures MapsExactly(after, pid, vps + [vp])
  {
    forall v: nat | v in vps ensures IsMapped(after, pid, v) {
      var frame: nat :| Maps(before, pid, v, frame);
      assert Maps(after, pid, v, frame);
    }
    forall frame: nat, v: nat | Maps(after, pid, v, frame) ensures v in vps + [vp] {
      if frame in before { assert Maps(before, pid, v, frame); }
    }
  }

  /** Pages of others stay untouched over two steps. */
  lemma UntouchedTwice(m0: Memory, m1: Memory, m2: Memory, r0: Roles, r1: Roles, pid: int)
    requires Untouched(m0, m1, r0, pid) && Untouched(m1, m2, r1, pid)
    requires forall p :: p in r0 && !Owns(r0[p], pid) ==> p in r1 && !Owns(r1[p], pid)
    ensures Untouched(m0, m2, r0, pid)
  {
    forall p | p in r0 && !Owns(r0[p], pid) ensures p < PHYS_PAGES && SamePage(m0, m2, p) {
      assert SamePage(m0, m1, p) && SamePage(m1, m2, p);
    }
  }

  lemma UntouchedByPage(before: Memory, after: Memory, roles: Roles, pid: int, page: nat)
    requires OnlyPage(before, after, page) && page !in roles && InRange(roles)
    ensures Untouched(before, after, roles, pid)
  {
  }

  predicate Distinct(s: seq<nat>) { forall i, j :: 0 <= i < j < |s| ==> s[i] != s[j] }

  // ---------- counting pages ----------

  ghost function Below(n: nat): (s: set<nat>)
    ensures |s| == n && forall p: nat :: p in s <==> p < n
  {
    if n == 0 then {} else Below(n - 1) + {n - 1}
  }

  lemma UsedBound(mem: Memory, pdbr: map<int, nat>, roles: Roles)
    requires Tree(mem, pdbr, roles)
    ensures |roles| <= PHYS_PAGES
  {
    assert roles.Keys <= Below(PHYS_PAGES);
    Smaller(roles.Keys, Below(PHYS_PAGES));
    assert |roles| == |roles.Keys|;
  }

  lemma Smaller(a: set<nat>, b: set<nat>)
    requires a <= b
    ensures |a| <= |b|
  {
    assert |b - a| == |b| - |a|;
  }

  lemma SomeOutside(a: set<nat>, n: nat)
    requires |a| < n
    ensures exists p: nat :: p < n && p !in a
  {
    if forall p: nat :: p < n ==> p in a {
      assert Below(n) <= a;
      Smaller(Below(n), a);
    }
  }

  lemma SomeFree(used: seq<nat>, count: nat, roles: Roles)
    requires Accounts(used, count, roles) && count < PHYS_PAGES
    ensures exists p: nat :: p < PHYS_PAGES && used[p] != 1
  {
    SomeOutside(roles.Keys, PHYS_PAGES);
    var p: nat :| p < PHYS_PAGES && p !in roles.Keys;
    assert used[p] == 0;
  }

  lemma SomeUnused(s: seq<nat>)
    requires |s| < VA_PAGES
    ensures exists vp: nat :: vp < VA_PAGES && vp !in s
  {
    ElementsBound(s);
    SomeOutside(Elements(s), VA_PAGES);
    var vp: nat :| vp < VA_PAGES && vp !in Elements(s);
  }

  function Elements(s: seq<nat>): set<nat> { set x | x in s }

  lemma {:induction false} ElementsBound(s: seq<nat>)
    ensures |Elements(s)| <= |s|
  {
    if s != [] {
      ElementsBound(s[1..]);
      assert Elements(s) == {s[0]} + Elements(s[1..]);
    }
  }

  lemma AccountsKept(used: seq<nat>, count: nat, roles: Roles, page: nat, role: Role)
    requires Accounts(used, count, roles) && page in roles
    ensures Accounts(used, count, roles[page := role])
  {
    assert roles[page := role].Keys == roles.Keys;
    assert |roles.Keys| == |roles| && |roles[page := role].Keys| == |roles[page := role]|;
  }

  lemma AccountsGrow(used: seq<nat>, count: nat, roles: Roles, page: nat, role: Role)
    requires Accounts(used, count, roles) && page !in roles && page < PHYS_PAGES
    ensures Accounts(used[page := 1], count + 1, roles[page := role])
  {
    assert roles[page := role].Keys == roles.Keys + {page};
    assert |roles.Keys| == |roles| && |roles[page := role].Keys| == |roles[page := role]|;
  }

  // ---------- writing memory ----------

  lemma PageWritten(mem: Memory, mem': Memory, page: nat)
    requires page < PHYS_PAGES
    requires forall k :: 0 <= k < PHYS_MEM && !(page * PAGE_SIZE <= k < page * PAGE_SIZE + PAGE_SIZE) ==>
      mem'[k] == mem[k]
    ensures OnlyPage(mem, mem', page)
  {
  }

  /** A new page of a page table: entered in the directory, then cleared. */
  lemma DirectoryLinked(mem: Memory, linked: Memory, mem': Memory, pdbr: map<int, nat>, roles: Roles, dir: nat,
      i: nat, page: nat)
    requires Tree(mem, pdbr, roles) && Holds(roles, page, Reserved) && dir in roles && roles[dir].Directory?
    requires dir < PHYS_PAGES && i < PAGE_SIZE && Entry(mem, dir, i) == UNSET
    requires linked == mem[dir * PAGE_SIZE + i := 128 + page]
    requires OnlyPage(linked, mem', page) && page < PHYS_PAGES && Cleared(mem', page)
    ensures Tree(mem', pdbr, roles[page := Table(roles[dir].pid, i)])
    ensures forall p: nat :: p < PHYS_PAGES && p != page && p != dir ==> SamePage(mem, mem', p)
  {
    hide Tree, Cleared;
    forall p: nat, j: nat | p < PHYS_PAGES && j < PAGE_SIZE && p != page && (p != dir || j != i)
      ensures Entry(mem', p, j) == Entry(mem, p, j)
    {
      assert SamePage(linked, mem', p);
      assert Entry(linked, p, j) == Entry(mem, p, j);
    }
    assert SamePage(linked, mem', dir);
    assert Entry(linked, dir, i) == 128 + page;
    AddChild(mem, mem', pdbr, roles, dir, i, page);
  }

  /** The slot of a virtual page without a frame is unset. */
  lemma FrameSlotFree(mem: Memory, pdbr: map<int, nat>, roles: Roles, pid: int, vpn: nat, table: nat)
    requires Tree(mem, pdbr, roles) && Holds(roles, table, Table(pid, vpn / 32))
    requires forall p: nat :: !Maps(roles, pid, vpn, p)
    ensures table < PHYS_PAGES && Entry(mem, table, vpn % 32) == UNSET
  {
    SecondLevel(mem, pdbr, roles, pid, vpn, table);
  }

  /** A frame entered in its page of the page table, which may be new and so far empty. */
  lemma FrameLinked(mem: Memory, mem': Memory, pdbr: map<int, nat>, before: Roles, roles: Roles, pid: int,
      vpn: nat, table: nat, page: nat)
    requires Tree(mem, pdbr, roles) && Holds(roles, table, Table(pid, vpn / 32)) && table < PHYS_PAGES
    requires Holds(roles, page, Reserved) && Entry(mem, table, vpn % 32) == UNSET
    requires mem' == mem[table * PAGE_SIZE + vpn % 32 := 128 + page]
    requires Populated(before) && Extends(before, roles) && (forall p :: p in roles && p !in before ==> p == table)
    ensures Tree(mem', pdbr, roles[page := Frame(pid, vpn)]) && Populated(roles[page := Frame(pid, vpn)])
    ensures forall p: nat :: p < PHYS_PAGES && p != table ==> SamePage(mem, mem', p)
  {
    var i, roles' := vpn % 32, roles[page := Frame(pid, vpn)];
    forall p: nat, j: nat | p < PHYS_PAGES && j < PAGE_SIZE && (p != table || j != i)
      ensures Entry(mem', p, j) == Entry(mem, p, j)
    {
    }
    assert Target(roles[table], i) == Frame(pid, vpn);
    AddChild(mem, mem', pdbr, roles, table, i, page);
    PopulatedByFrame(before, roles, pid, vpn, table, page);
  }

  lemma PopulatedByFrame(before: Roles, roles: Roles, pid: int, vpn: nat, table: nat, page: nat)
    requires Holds(roles, table, Table(pid, vpn / 32)) && Holds(roles, page, Reserved)
    requires Populated(before) && Extends(before, roles) && (forall p :: p in roles && p !in before ==> p == table)
    ensures Populated(roles[page := Frame(pid, vpn)])
  {
    var roles' := roles[page := Frame(pid, vpn)];
    forall p | p in roles' && roles'[p].Table? ensures HasFrame(roles', roles'[p].pid, roles'[p].pde) {
      if p == table {
        assert Holds(roles', page, Frame(pid, vpn));
      } else {
        assert HasFrame(before, roles'[p].pid, roles'[p].pde);
        var q: nat, v: nat :| Holds(before, q, Frame(roles'[p].pid, v)) && v / 32 == roles'[p].pde;
        assert Holds(roles', q, Frame(roles'[p].pid, v));
      }
    }
  }

  lemma PageNumberBits(vpn: nat)
    requires vpn < VA_PAGES
    ensures PdeBits(vpn * PAGE_SIZE) == vpn / 32 < 32 && PteBits(vpn * PAGE_SIZE) == vpn % 32
  {
  }

  lemma UntouchedByTable(before: Memory, after: Memory, pdbr: map<int, nat>, roles: Roles, pid: int, table: nat)
    requires Tree(before, pdbr, roles) && table in roles && Owns(roles[table], pid)
    requires forall p: nat :: p < PHYS_PAGES && p != table ==> SamePage(before, after, p)
    ensures Untouched(before, after, roles, pid)
  {
  }

  lemma UntouchedSame(mem: Memory, pdbr: map<int, nat>, before: Roles, roles: Roles, pid: int)
    requires Tree(mem, pdbr, roles) && Extends(before, roles)
    ensures Untouched(mem, mem, before, pid)
  {
  }

  lemma AccountsBound(mem: Memory, pdbr: map<int, nat>, used: seq<nat>, count: nat, roles: Roles)
    requires Tree(mem, pdbr, roles) && Accounts(used, count, roles)
    ensures count <= PHYS_PAGES
  {
    UsedBound(mem, pdbr, roles);
  }

  lemma NewPid(mem: Memory, pdbr: map<int, nat>, roles: Roles, pid: int)
    requires Tree(mem, pdbr, roles) && pid !in pdbr
    ensures forall p :: p in roles && !roles[p].Reserved? ==> roles[p].pid != pid
  {
    NewRootHasNoTables(roles, pdbr, pid);
  }

  lemma InRangeOf(mem: Memory, pdbr: map<int, nat>, roles: Roles)
    requires Tree(mem, pdbr, roles)
    ensures InRange(roles)
    ensures forall pid :: pid in pdbr ==> Holds(roles, pdbr[pid], Directory(pid))
    ensures forall p, q :: p in roles && q in roles && roles[p] == roles[q] && !roles[p].Reserved? ==> p == q
  {
  }

  /** What procAlloc promises about the state before and after is enough for every other process: each of its
      addresses translates, or faults, as before, and what it would load from there is the same byte. */
  lemma OthersUnaffected(m0: Memory, m1: Memory, d0: map<int, nat>, d1: map<int, nat>, r0: Roles, r1: Roles,
      pid: int, other: int, va: nat)
    requires Tree(m0, d0, r0) && Populated(r0) && Tree(m1, d1, r1) && Populated(r1)
    requires Extends(r0, r1) && NewOwner(r0, r1, pid) && Untouched(m0, m1, r0, pid)
    requires other in d0 && other in d1 && other != pid
    ensures TranslateIn(m0, d0[other], va) == TranslateIn(m1, d1[other], va)
    ensures var a := TranslateIn(m0, d0[other], va); a >= 0 ==> a < PHYS_MEM && m0[a] == m1[a]
  {
    hide Tree, Populated, TranslateIn, Vpn, Offset, HasFrame;
    InRangeOf(m0, d0, r0);
    TranslateIsLookup(m0, d0, r0, other, va);
    TranslateIsLookup(m1, d1, r1, other, va);
    var a, b := TranslateIn(m0, d0[other], va), TranslateIn(m1, d1[other], va);
    SameFrames(r0, r1, pid, other, Vpn(va) / 32);
    TranslateRange(m0, d0[other], va);
    TranslateRange(m1, d1[other], va);
    if a >= 0 {
      var frame := a / PAGE_SIZE;
      assert Maps(r0, other, Vpn(va), frame) && Maps(r1, other, Vpn(va), frame);
      assert SamePage(m0, m1, frame);
      assert Entry(m0, frame, Offset(va)) == Entry(m1, frame, Offset(va));
    }
    if b >= 0 {
      assert Maps(r1, other, Vpn(va), b / PAGE_SIZE) && Maps(r0, other, Vpn(va), b / PAGE_SIZE);
    }
  }

  lemma TranslateRange(mem: Memory, directory: nat, va: nat)
    requires directory < PHYS_PAGES
    ensures TranslateIn(mem, directory, va) >= -2 && 0 <= Offset(va) < PAGE_SIZE
  {
  }

  lemma SameFrames(r0: Roles, r1: Roles, pid: int, other: int, pde: nat)
    requires Extends(r0, r1) && NewOwner(r0, r1, pid) && other != pid
    ensures HasFrame(r0, other, pde) <==> HasFrame(r1, other, pde)
  {
    if q: nat, v: nat :| Holds(r0, q, Frame(other, v)) && v / 32 == pde { assert Holds(r1, q, Frame(other, v)); }
    if q: nat, v: nat :| Holds(r1, q, Frame(other, v)) && v / 32 == pde { assert Holds(r0, q, Frame(other, v)); }
  }

  lemma OwnTranslate(mem: Memory, pdbr: map<int, nat>, roles: Roles, pid: int, vps: seq<nat>)
    requires Tree(mem, pdbr, roles) && Populated(roles) && pid in pdbr && MapsExactly(roles, pid, vps)
    ensures pdbr[pid] < PHYS_PAGES && forall va: nat :: TranslateIn(mem, pdbr[pid], va) >= 0 <==> Vpn(va) in vps
  {
    hide Tree, Populated, TranslateIn, Vpn;
    InRangeOf(mem, pdbr, roles);
    forall va: nat ensures TranslateIn(mem, pdbr[pid], va) >= 0 <==> Vpn(va) in vps {
      TranslateIsLookup(mem, pdbr, roles, pid, va);
      OffsetPart(va, 0);
      if Vpn(va) in vps {
        var frame: nat :| Maps(roles, pid, Vpn(va), frame);
      }
    }
  }

  lemma OthersTranslate(m0: Memory, m1: Memory, d0: map<int, nat>, d1: map<int, nat>, r0: Roles, r1: Roles, pid: int)
    requires Tree(m0, d0, r0) && Populated(r0) && Tree(m1, d1, r1) && Populated(r1)
    requires Extends(r0, r1) && NewOwner(r0, r1, pid) && Untouched(m0, m1, r0, pid) && pid !in d0
    requires forall other :: other in d0 ==> other in d1
    ensures forall other :: other in d0 ==> d0[other] < PHYS_PAGES && d1[other] < PHYS_PAGES
    ensures forall other, va: nat :: other in d0 ==> TranslateIn(m0, d0[other], va) == TranslateIn(m1, d1[other], va)
  {
    hide Tree, Populated, TranslateIn, Extends, NewOwner, Untouched;
    InRangeOf(m0, d0, r0);
    InRangeOf(m1, d1, r1);
    forall other, va: nat | other in d0 ensures TranslateIn(m0, d0[other], va) == TranslateIn(m1, d1[other], va) {
      OthersUnaffected(m0, m1, d0, d1, r0, r1, pid, other, va);
    }
  }

  class OS {
    const memory: array<nat>
    const usedPages: array<nat>
    var usedPagesCount: nat
    var pdbr: map<int, nat>
    ghost var roles: Roles

    ghost predicate Sized()
      reads this
    {
      memory.Length == PHYS_MEM && usedPages.Length == PHYS_PAGES && memory != usedPages
    }

    ghost predicate Valid()
      reads this, memory, usedPages
    {
      && Sized()
      && Accounts(usedPages[..], usedPagesCount, roles)
      && Tree(memory[..], pdbr, roles)
      && Populated(roles)
    }

    constructor ()
      ensures Valid() && pdbr == map[] && roles == map[] && usedPagesCount == 0 && fresh(memory) && fresh(usedPages)
    {
      memory := new nat[PHYS_MEM](i => 0);
      usedPages := new nat[PHYS_PAGES](i => 0);
      usedPagesCount := 0;
      pdbr := map[];
      roles := map[];
    }

    /** Any free page; none when all are in use, where the source's assertion stops the program. */
    method FindFree() returns (found: bool, look: nat)
      requires Valid()
      modifies this`usedPagesCount, this`roles, usedPages
      ensures Valid() && found == (old(usedPagesCount) < PHYS_PAGES)
      ensures found ==> look < PHYS_PAGES && look !in old(roles) && roles == old(roles)[look := Reserved]
      ensures found ==> usedPagesCount == old(usedPagesCount) + 1
      ensures !found ==> roles == old(roles) && usedPagesCount == old(usedPagesCount) == PHYS_PAGES
    {
      hide Tree, Populated;
      AccountsBound(memory[..], pdbr, usedPages[..], usedPagesCount, roles);
      if usedPagesCount >= PHYS_PAGES { return false, 0; }
      SomeFree(usedPages[..], usedPagesCount, roles);
      found := true;
      look :| look < PHYS_PAGES && usedPages[look] != 1;
      usedPagesCount := usedPagesCount + 1;
      Reserve(memory[..], pdbr, roles, look);
      AccountsGrow(usedPages[..], usedPagesCount - 1, roles, look, Reserved);
      usedPages[look] := 1;
      roles := roles[look := Reserved];
    }

    method InitPageDir(whichPage: nat)
      requires Sized() && whichPage < PHYS_PAGES
      modifies memory
      ensures OnlyPage(old(memory[..]), memory[..], whichPage) && Cleared(memory[..], whichPage)
    {
      var whichByte := whichPage * PAGE_SIZE;
      for i := whichByte to whichByte + PAGE_SIZE
        invariant forall k :: whichByte <= k < i ==> memory[k] == UNSET
        invariant forall k :: 0 <= k < PHYS_MEM && !(whichByte <= k < i) ==> memory[k] == old(memory[k])
      {
        memory[i] := UNSET;
      }
      PageWritten(old(memory[..]), memory[..], whichPage);
    }

    /** Arbitrary bytes below 31 in a data page. */
    method FillPage(whichPage: nat)
      requires Sized() && whichPage < PHYS_PAGES
      modifies memory
      ensures OnlyPage(old(memory[..]), memory[..], whichPage)
      ensures forall i: nat :: i < PAGE_SIZE ==> Entry(memory[..], whichPage, i) < 31
    {
      var first := whichPage * PAGE_SIZE;
      for j := 0 to PAGE_SIZE
        invariant forall k :: first <= k < first + j ==> memory[k] < 31
        invariant forall k :: 0 <= k < PHYS_MEM && !(first <= k < first + j) ==> memory[k] == old(memory[k])
      {
        var byte: nat :| byte < 31;
        memory[first + j] := byte;
      }
      PageWritten(old(memory[..]), memory[..], whichPage);
    }

    /** Both kinds of entry are set the same way. */
    method SetEntry(entryAddr: nat, physicalPage: nat)
      requires Sized() && entryAddr < PHYS_MEM
      modifies memory
      ensures memory[..] == old(memory[..])[entryAddr := 128 + physicalPage]
    {
      memory[entryAddr] := 128 + physicalPage;
    }

    /** translate: a physical address, -1 or -2. */
    function Translate(pid: int, va: nat): int
      requires Valid() && pid in pdbr
      reads this, memory, usedPages
    {
      InRangeOf(memory[..], pdbr, roles);
      TranslateIn(memory[..], pdbr[pid], va)
    }

    /** A new page of the page table: allocated, entered in the directory and cleared. */
    method AddTable(pid: int, i: nat) returns (ok: bool, ptePage: nat)
      requires Valid() && pid in pdbr && i < PAGE_SIZE && pdbr[pid] < PHYS_PAGES
      requires Entry(memory[..], pdbr[pid], i) == UNSET
      modifies this`usedPagesCount, this`roles, usedPages, memory
      ensures Accounts(usedPages[..], usedPagesCount, roles) && Tree(memory[..], pdbr, roles)
      ensures ok ==> ptePage !in old(roles) && roles == old(roles)[ptePage := Table(pid, i)]
      ensures old(usedPagesCount) <= usedPagesCount
      ensures Untouched(old(memory[..]), memory[..], old(roles), pid)
      ensures !ok ==> usedPagesCount == PHYS_PAGES && Valid() && roles == old(roles)
    {
      hide Tree, Populated, Accounts, SlotOk;
      InRangeOf(memory[..], pdbr, roles);
      var pageDir := pdbr[pid];
      ok, ptePage := FindFree();
      if !ok { return; }
      ghost var before := memory[..];
      assert Holds(roles, pageDir, Directory(pid));
      SetEntry(pageDir * PAGE_SIZE + i, ptePage);
      ghost var linked := memory[..];
      InitPageDir(ptePage);
      DirectoryLinked(before, linked, memory[..], pdbr, roles, pageDir, i, ptePage);
      AccountsKept(usedPages[..], usedPagesCount, roles, ptePage, Table(pid, i));
      roles := roles[ptePage := Table(pid, i)];
    }

    /** The page of the page table for a virtual page: that of a valid directory entry, or a new one. */
    method TablePage(pid: int, virtualPage: nat) returns (ok: bool, ptePage: nat)
      requires Valid() && pid in pdbr && virtualPage < VA_PAGES
      modifies this`usedPagesCount, this`roles, usedPages, memory
      ensures Accounts(usedPages[..], usedPagesCount, roles) && Tree(memory[..], pdbr, roles)
      ensures ok ==> Holds(roles, ptePage, Table(pid, virtualPage / 32))
      ensures ok ==>
        || roles == old(roles)
        || (ptePage !in old(roles) && roles == old(roles)[ptePage := Table(pid, virtualPage / 32)])
      ensures old(usedPagesCount) <= usedPagesCount
      ensures Untouched(old(memory[..]), memory[..], old(roles), pid)
      ensures !ok ==> usedPagesCount == PHYS_PAGES && Valid() && roles == old(roles)
    {
      hide Tree, Populated, Accounts, SlotOk, ValidBit, Pfn, PdeBits;
      var pageDir, i := pdbr[pid], PdeBits(virtualPage * PAGE_SIZE);
      PageNumberBits(virtualPage);
      FirstLevel(memory[..], pdbr, roles, pid, i);
      InRangeOf(memory[..], pdbr, roles);
      var pde := memory[pageDir * PAGE_SIZE + i];
      EntryFields(pde);
      if ValidBit(pde) == 0 {
        assert Pfn(pde) == 127;
        ok, ptePage := AddTable(pid, i);
      } else {
        ok, ptePage := true, Pfn(pde);
      }
    }

    /** allocVirtualPage: enter `physicalPage` as the frame of `virtualPage`. */
    method AllocVirtualPage(pid: int, virtualPage: nat, physicalPage: nat) returns (ok: bool)
      requires Valid() && pid in pdbr && virtualPage < VA_PAGES && Holds(roles, physicalPage, Reserved)
      requires forall frame: nat :: !Maps(roles, pid, virtualPage, frame)
      modifies this`usedPagesCount, this`roles, usedPages, memory
      ensures Valid() && old(usedPagesCount) <= usedPagesCount
      ensures ok ==> Maps(roles, pid, virtualPage, physicalPage)
      ensures ok ==> Extends(old(roles)[physicalPage := Frame(pid, virtualPage)], roles)
      ensures !ok ==> usedPagesCount == PHYS_PAGES && roles == old(roles)
      ensures OnlyFor(old(roles), roles, pid, virtualPage)
      ensures Untouched(old(memory[..]), memory[..], old(roles), pid)
    {
      hide Tree, Populated, Accounts, SlotOk, Untouched, ValidBit, Pfn, PteBits;
      var ptePage;
      ok, ptePage := TablePage(pid, virtualPage);
      if !ok { return; }
      var j := PteBits(virtualPage * PAGE_SIZE);
      PageNumberBits(virtualPage);
      assert forall p: nat :: Maps(roles, pid, virtualPage, p) ==> Maps(old(roles), pid, virtualPage, p);
      FrameSlotFree(memory[..], pdbr, roles, pid, virtualPage, ptePage);
      var pte := memory[ptePage * PAGE_SIZE + j];
      EntryFields(pte);
      assert ValidBit(pte) == 0;
      assert Pfn(pte) == 127;
      ghost var before := memory[..];
      SetEntry(ptePage * PAGE_SIZE + j, physicalPage);
      FrameLinked(before, memory[..], pdbr, old(roles), roles, pid, virtualPage, ptePage, physicalPage);
      AccountsKept(usedPages[..], usedPagesCount, roles, physicalPage, Frame(pid, virtualPage));
      UntouchedByTable(before, memory[..], pdbr, roles, pid, ptePage);
      UntouchedTwice(old(memory[..]), before, memory[..], old(roles), roles, pid);
      roles := roles[physicalPage := Frame(pid, virtualPage)];
    }

    /** One turn of procAlloc's loop: a free page becomes the frame of `vp` and is filled. */
    method MapOne(pid: int, vp: nat) returns (ok: bool)
      requires Valid() && pid in pdbr && vp < VA_PAGES
      requires forall frame: nat :: !Maps(roles, pid, vp, frame)
      modifies this`usedPagesCount, this`roles, usedPages, memory
      ensures Valid() && Extends(old(roles), roles) && OnlyFor(old(roles), roles, pid, vp)
      ensures ok ==> IsMapped(roles, pid, vp) && old(usedPagesCount) < usedPagesCount
      ensures !ok ==> usedPagesCount == PHYS_PAGES
      ensures Untouched(old(memory[..]), memory[..], old(roles), pid)
    {
      hide Tree, Populated, Accounts, Untouched;
      InRangeOf(memory[..], pdbr, roles);
      var pp;
      ok, pp := FindFree();
      UntouchedSame(memory[..], pdbr, old(roles), roles, pid);
      if !ok { return; }
      ghost var reserved := roles;
      assert forall p: nat :: Maps(roles, pid, vp, p) ==> Maps(old(roles), pid, vp, p);
      ok := AllocVirtualPage(pid, vp, pp);
      UntouchedTwice(old(memory[..]), old(memory[..]), memory[..], old(roles), reserved, pid);
      if !ok { return; }
      ghost var before := memory[..];
      assert Holds(roles, pp, Frame(pid, vp));
      FillPage(pp);
      DataPagesAreFree(before, memory[..], pdbr, roles, pp);
      UntouchedByPage(before, memory[..], old(roles), pid, pp);
      UntouchedTwice(old(memory[..]), before, memory[..], old(roles), old(roles), pid);
    }

    /** procAlloc, as seen through translate: on success the addresses of the process that translate are exactly those
        on the pages returned; in any case every other process's addresses translate, or fault, as before. */
    method ProcAlloc(pid: int, numPages: nat) returns (ok: bool, allocatedVPs: seq<nat>)
      requires Valid() && pid !in pdbr
      modifies this, memory, usedPages
      ensures Valid()
      ensures !ok ==> usedPagesCount == PHYS_PAGES
      ensures ok ==> pdbr.Keys == old(pdbr).Keys + {pid} && |allocatedVPs| == numPages && Distinct(allocatedVPs)
      ensures ok ==> MapsExactly(roles, pid, allocatedVPs)
      ensures Extends(old(roles), roles) && NewOwner(old(roles), roles, pid)
      ensures Untouched(old(memory[..]), memory[..], old(roles), pid)
      ensures forall other :: other in old(pdbr) ==> other in pdbr && pdbr[other] == old(pdbr)[other]
      ensures ok ==> forall va: nat :: Translate(pid, va) >= 0 <==> Vpn(va) in allocatedVPs
      ensures forall other, va: nat :: other in old(pdbr) ==> Translate(other, va) == old(Translate(other, va))
    {
      hide Tree, Populated, Accounts, Untouched, TranslateIn, Vpn;
      ok, allocatedVPs := Populate(pid, numPages);
      if ok { OwnTranslate(memory[..], pdbr, roles, pid, allocatedVPs); }
      OthersTranslate(old(memory[..]), memory[..], old(pdbr), pdbr, old(roles), roles, pid);
    }

    /** Its work: a directory and `numPages` distinct virtual pages on frames of their own. On success the process maps
        exactly the pages returned; in any case no page in use before is touched. */
    method Populate(pid: int, numPages: nat) returns (ok: bool, allocatedVPs: seq<nat>)
      requires Valid() && pid !in pdbr
      modifies this, memory, usedPages
      ensures Valid()
      ensures !ok ==> usedPagesCount == PHYS_PAGES
      ensures ok ==> pdbr.Keys == old(pdbr).Keys + {pid} && |allocatedVPs| == numPages && Distinct(allocatedVPs)
      ensures ok ==> MapsExactly(roles, pid, allocatedVPs)
      ensures Extends(old(roles), roles) && NewOwner(old(roles), roles, pid)
      ensures Untouched(old(memory[..]), memory[..], old(roles), pid)
      ensures forall other :: other in old(pdbr) ==> other in pdbr && pdbr[other] == old(pdbr)[other]
    {
      hide Tree, Populated, Accounts, Untouched;
      allocatedVPs := [];
      NewPid(memory[..], pdbr, roles, pid);
      UntouchedSame(memory[..], pdbr, roles, roles, pid);
      InRangeOf(memory[..], pdbr, roles);
      var pageDir;
      ok, pageDir := FindFree();
      if !ok { return; }
      ghost var before := memory[..];
      InitPageDir(pageDir);
      AddDirectory(before, memory[..], pdbr, roles, pid, pageDir);
      UntouchedByPage(before, memory[..], old(roles), pid, pageDir);
      AccountsKept(usedPages[..], usedPagesCount, roles, pageDir, Directory(pid));
      pdbr := pdbr[pid := pageDir];
      roles := roles[pageDir := Directory(pid)];
      while |allocatedVPs| < numPages
        invariant Valid() && ok && pdbr == old(pdbr)[pid := pageDir]
        invariant |allocatedVPs| <= numPages && |allocatedVPs| < usedPagesCount && Distinct(allocatedVPs)
        invariant MapsExactly(roles, pid, allocatedVPs)
        invariant Extends(old(roles), roles) && NewOwner(old(roles), roles, pid)
        invariant Untouched(old(memory[..]), memory[..], old(roles), pid)
        decreases numPages - |allocatedVPs|
      {
        AccountsBound(memory[..], pdbr, usedPages[..], usedPagesCount, roles);
        SomeUnused(allocatedVPs);
        var vp: nat :| vp < VA_PAGES && vp !in allocatedVPs;
        ghost var m1, r1 := memory[..], roles;
        assert forall frame: nat :: !Maps(roles, pid, vp, frame);
        ok := MapOne(pid, vp);
        UntouchedTwice(old(memory[..]), m1, memory[..], old(roles), r1, pid);
        if !ok { return; }
        OneMoreMapped(r1, roles, pid, allocatedVPs, vp);
        allocatedVPs := allocatedVPs + [vp];
      }
    }
  }
}
