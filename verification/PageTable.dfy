/** Two-level page tables kept in raw memory: what vm-smalltables/paging-multilevel-translate.py promises. */
module PageTable {

  const PAGE_SIZE: nat := 32
  const PHYS_PAGES: nat := 128
  const PHYS_MEM: nat := 4096
  const VA_PAGES: nat := 1024

  /** Contents of an entry that maps nothing: valid bit clear, frame number all ones. */
  const UNSET: nat := 0x7f

  type Memory = m: seq<nat> | |m| == PHYS_MEM witness seq(PHYS_MEM, _ => 0)

  // The masks and shifts of the source, on natural numbers.

  function PdeBits(va: nat): nat { va / 1024 % 32 }

  function PteBits(va: nat): nat { va / 32 % 32 }

  function Vpn(va: nat): nat { va / 32 % VA_PAGES }

  function Offset(va: nat): nat { va % 32 }

  function ValidBit(entry: nat): nat { entry / 128 % 2 }

  function Pfn(entry: nat): nat { entry % 128 }

  /** The same fields cut out of a 15-bit address with the source's masks and shifts. */
  lemma MasksAndShifts(va: bv15)
    ensures (va & 0x7c00) >> 10 == va / 1024
    ensures (va & 0x03e0) >> 5 == va / 32 % 32
    ensures va & 0x1f == va % 32
  {
  }

  function Entry(mem: Memory, page: nat, i: nat): nat
    requires page < PHYS_PAGES && i < PAGE_SIZE
  {
    mem[page * PAGE_SIZE + i]
  }

  /** translate: -1 is a page directory fault, -2 a page table fault. */
  function TranslateIn(mem: Memory, directory: nat, va: nat): int
    requires directory < PHYS_PAGES
  {
    var pde := Entry(mem, directory, PdeBits(va));
    if ValidBit(pde) == 1 then
      var pte := Entry(mem, Pfn(pde), PteBits(va));
      if ValidBit(pte) == 1 then Pfn(pte) * PAGE_SIZE + Offset(va) else -2
    else -1
  }

  // ---------- what each physical page is for ----------

  datatype Role =
    | Directory(pid: int)
    | Table(pid: int, pde: nat)
    | Frame(pid: int, vpn: nat)
    | Reserved

  type Roles = map<nat, Role>

  predicate Holds(roles: Roles, page: nat, role: Role) { page in roles && roles[page] == role }

  predicate HasEntries(role: Role) { role.Directory? || role.Table? }

  /** What entry `i` of a page with this role may point at. */
  function Target(role: Role, i: nat): Role
    requires HasEntries(role)
  {
    if role.Directory? then Table(role.pid, i) else Frame(role.pid, role.pde * 32 + i)
  }

  /** The page whose entry must point at a page with this role. */
  function Parent(role: Role): Role
    requires role.Table? || role.Frame?
  {
    if role.Table? then Directory(role.pid) else Table(role.pid, role.vpn / 32)
  }

  ghost predicate SlotOk(mem: Memory, roles: Roles, page: nat, i: nat, target: Role)
    requires page < PHYS_PAGES && i < PAGE_SIZE
  {
    && (Entry(mem, page, i) == UNSET || (Entry(mem, page, i) >= 128 && Holds(roles, Entry(mem, page, i) - 128, target)))
    && (forall q: nat :: Holds(roles, q, target) ==> Entry(mem, page, i) == 128 + q)
  }

  ghost predicate InRange(roles: Roles) {
    forall p :: p in roles ==>
      p < PHYS_PAGES && (roles[p].Table? ==> roles[p].pde < 32) && (roles[p].Frame? ==> roles[p].vpn < VA_PAGES)
  }

  ghost predicate OneEach(roles: Roles) {
    forall p: nat, q: nat :: p in roles && q in roles && roles[p] == roles[q] && !roles[p].Reserved? ==> p == q
  }

  ghost predicate Parented(roles: Roles) {
    forall p :: p in roles && (roles[p].Table? || roles[p].Frame?) ==> exists q :: Holds(roles, q, Parent(roles[p]))
  }

  ghost predicate SlotsOk(mem: Memory, roles: Roles)
    requires InRange(roles)
  {
    forall p, i: nat :: p in roles && HasEntries(roles[p]) && i < PAGE_SIZE ==>
      SlotOk(mem, roles, p, i, Target(roles[p], i))
  }

  ghost predicate Roots(pdbr: map<int, nat>, roles: Roles) {
    && (forall pid :: pid in pdbr ==> Holds(roles, pdbr[pid], Directory(pid)))
    && (forall p :: p in roles && roles[p].Directory? ==> roles[p].pid in pdbr)
  }

  /** No page of a page table is empty. */
  ghost predicate Populated(roles: Roles) {
    forall p :: p in roles && roles[p].Table? ==> HasFrame(roles, roles[p].pid, roles[p].pde)
  }

  ghost predicate HasFrame(roles: Roles, pid: int, pde: nat) {
    exists q: nat, v: nat :: Holds(roles, q, Frame(pid, v)) && v / 32 == pde
  }

  /** The tables in memory are exactly the tree the roles describe. */
  ghost predicate Tree(mem: Memory, pdbr: map<int, nat>, roles: Roles) {
    InRange(roles) && OneEach(roles) && Parented(roles) && Roots(pdbr, roles) && SlotsOk(mem, roles)
  }

  // ---------- translation is a map lookup ----------

  /** The abstract map: the frame of a virtual page. */
  ghost predicate Maps(roles: Roles, pid: int, vpn: nat, frame: nat) { Holds(roles, frame, Frame(pid, vpn)) }

  lemma AddressParts(va: nat)
    ensures Vpn(va) == PdeBits(va) * 32 + PteBits(va) && Vpn(va) / 32 == PdeBits(va)
    ensures PdeBits(va) < 32 && PteBits(va) < 32
  {
    var x := va / 32;
    assert va / 1024 == x / 32;
    assert x % 1024 == (x / 32 % 32) * 32 + x % 32;
  }

  /** translate finds the frame of a mapped page, and faults exactly on unmapped ones: with -2 when some other
      page of the same page-table page is mapped, with -1 when none is. */
  lemma TranslateIsLookup(mem: Memory, pdbr: map<int, nat>, roles: Roles, pid: int, va: nat)
    requires Tree(mem, pdbr, roles) && Populated(roles) && pid in pdbr
    ensures pdbr[pid] < PHYS_PAGES
    ensures forall frame: nat :: Maps(roles, pid, Vpn(va), frame) ==>
      TranslateIn(mem, pdbr[pid], va) == frame * PAGE_SIZE + Offset(va)
    ensures TranslateIn(mem, pdbr[pid], va) >= 0 ==>
      Maps(roles, pid, Vpn(va), TranslateIn(mem, pdbr[pid], va) / PAGE_SIZE)
    ensures TranslateIn(mem, pdbr[pid], va) == -1 <==> !HasFrame(roles, pid, Vpn(va) / 32)
  {
    hide Tree, Populated, HasFrame, SlotOk, Entry, Vpn, PdeBits, PteBits, ValidBit, Pfn, Offset;
    AddressParts(va);
    var d, i, j := pdbr[pid], PdeBits(va), PteBits(va);
    FirstLevel(mem, pdbr, roles, pid, i);
    var pde := Entry(mem, d, i);
    EntryFields(pde);
    if pde != UNSET {
      SecondLevel(mem, pdbr, roles, pid, Vpn(va), pde - 128);
      EntryFields(Entry(mem, pde - 128, j));
      OffsetPart(va, Entry(mem, pde - 128, j) - 128);
    } else {
      assert forall frame: nat :: Maps(roles, pid, Vpn(va), frame) ==>
        HasFrame(roles, pid, i) by { MappedHasFrame(roles, pid, Vpn(va)); }
    }
  }

  lemma EntryFields(entry: nat)
    ensures entry == UNSET ==> ValidBit(entry) == 0 && Pfn(entry) == 127
    ensures 128 <= entry < 256 ==> ValidBit(entry) == 1 && Pfn(entry) == entry - 128
  {
  }

  lemma OffsetPart(va: nat, frame: int)
    ensures 0 <= Offset(va) < PAGE_SIZE && (frame * PAGE_SIZE + Offset(va)) / PAGE_SIZE == frame
  {
  }

  lemma MappedHasFrame(roles: Roles, pid: int, vpn: nat)
    ensures forall frame: nat :: Maps(roles, pid, vpn, frame) ==> HasFrame(roles, pid, vpn / 32)
  {
    forall frame: nat | Maps(roles, pid, vpn, frame) ensures HasFrame(roles, pid, vpn / 32) {
      assert Holds(roles, frame, Frame(pid, vpn));
    }
  }

  lemma FirstLevel(mem: Memory, pdbr: map<int, nat>, roles: Roles, pid: int, i: nat)
    requires Tree(mem, pdbr, roles) && Populated(roles) && pid in pdbr && i < 32
    ensures pdbr[pid] < PHYS_PAGES
    ensures var pde := Entry(mem, pdbr[pid], i);
      && (pde == UNSET || (128 <= pde < 256 && Holds(roles, pde - 128, Table(pid, i))))
      && (pde == UNSET <==> !HasFrame(roles, pid, i))
  {
    var d := pdbr[pid];
    assert Holds(roles, d, Directory(pid));
    assert SlotOk(mem, roles, d, i, Target(roles[d], i));
    if HasFrame(roles, pid, i) {
      var q: nat, v: nat :| Holds(roles, q, Frame(pid, v)) && v / 32 == i;
      var t :| Holds(roles, t, Parent(roles[q]));
    }
  }

  lemma SecondLevel(mem: Memory, pdbr: map<int, nat>, roles: Roles, pid: int, vpn: nat, table: nat)
    requires Tree(mem, pdbr, roles) && Holds(roles, table, Table(pid, vpn / 32))
    ensures table < PHYS_PAGES
    ensures var pte := Entry(mem, table, vpn % 32);
      && (pte == UNSET || (128 <= pte < 256 && Maps(roles, pid, vpn, pte - 128)))
      && (forall frame: nat :: Maps(roles, pid, vpn, frame) ==> pte == 128 + frame)
  {
    var j := vpn % 32;
    assert vpn == vpn / 32 * 32 + j;
    assert SlotOk(mem, roles, table, j, Target(roles[table], j));
  }

  /** Two processes, or two pages of one, never share a physical address. */
  lemma NoAliasing(mem: Memory, pdbr: map<int, nat>, roles: Roles, pid: int, va: nat, pid': int, va': nat)
    requires Tree(mem, pdbr, roles) && Populated(roles) && pid in pdbr && pid' in pdbr
    requires TranslateIn(mem, pdbr[pid], va) == TranslateIn(mem, pdbr[pid'], va') >= 0
    ensures pid == pid' && Vpn(va) == Vpn(va') && Offset(va) == Offset(va')
    ensures va < 0x8000 && va' < 0x8000 ==> va == va'
  {
    if va < 0x8000 && va' < 0x8000 { WholeAddress(va); WholeAddress(va'); }
    hide Tree, Populated, TranslateIn, Vpn;
    TranslateIsLookup(mem, pdbr, roles, pid, va);
    TranslateIsLookup(mem, pdbr, roles, pid', va');
    var f := TranslateIn(mem, pdbr[pid], va) / PAGE_SIZE;
    assert Maps(roles, pid, Vpn(va), f) && Maps(roles, pid', Vpn(va'), f);
  }

  lemma WholeAddress(va: nat)
    requires va < 0x8000
    ensures Vpn(va) == va / 32 && Offset(va) == va % 32 && va == Vpn(va) * 32 + Offset(va)
  {
  }

  /** In numbers: the byte at a 15-bit address is in page va / 32, at the same place in its frame of 32 bytes. */
  lemma TranslateInNumbers(mem: Memory, pdbr: map<int, nat>, roles: Roles, pid: int, va: nat, frame: nat)
    requires Tree(mem, pdbr, roles) && Populated(roles) && pid in pdbr && va < 0x8000
    ensures pdbr[pid] < PHYS_PAGES
    ensures Maps(roles, pid, va / 32, frame) ==> TranslateIn(mem, pdbr[pid], va) == frame * 32 + va % 32
    ensures TranslateIn(mem, pdbr[pid], va) < 0 <==> forall f: nat :: !Maps(roles, pid, va / 32, f)
  {
    hide Tree, Populated, TranslateIn, HasFrame;
    WholeAddress(va);
    TranslateIsLookup(mem, pdbr, roles, pid, va);
    var a := TranslateIn(mem, pdbr[pid], va);
    if a >= 0 { assert Maps(roles, pid, va / 32, a / 32); }
  }

  // ---------- steps on memory ----------

  ghost predicate SamePage(mem: Memory, mem': Memory, page: nat)
    requires page < PHYS_PAGES
  {
    forall i: nat :: i < PAGE_SIZE ==> Entry(mem', page, i) == Entry(mem, page, i)
  }

  /** Only `page` may differ. */
  ghost predicate OnlyPage(mem: Memory, mem': Memory, page: nat) {
    forall p: nat :: p < PHYS_PAGES && p != page ==> SamePage(mem, mem', p)
  }

  ghost predicate Cleared(mem: Memory, page: nat)
    requires page < PHYS_PAGES
  {
    forall i: nat :: i < PAGE_SIZE ==> Entry(mem, page, i) == UNSET
  }

  /** Filling a data page, or taking a page into use, does not damage any table. */
  lemma DataPagesAreFree(mem: Memory, mem': Memory, pdbr: map<int, nat>, roles: Roles, page: nat)
    requires Tree(mem, pdbr, roles) && OnlyPage(mem, mem', page) && (page in roles ==> !HasEntries(roles[page]))
    ensures Tree(mem', pdbr, roles)
  {
    forall p, i: nat | p in roles && HasEntries(roles[p]) && i < PAGE_SIZE
      ensures SlotOk(mem', roles, p, i, Target(roles[p], i))
    {
      assert SlotOk(mem, roles, p, i, Target(roles[p], i)) && SamePage(mem, mem', p);
    }
  }

  lemma Reserve(mem: Memory, pdbr: map<int, nat>, roles: Roles, page: nat)
    requires Tree(mem, pdbr, roles) && Populated(roles) && page !in roles && page < PHYS_PAGES
    ensures Tree(mem, pdbr, roles[page := Reserved]) && Populated(roles[page := Reserved])
  {
    var roles' := roles[page := Reserved];
    forall p | p in roles' && (roles'[p].Table? || roles'[p].Frame?)
      ensures exists q :: Holds(roles', q, Parent(roles'[p]))
    {
      var q :| Holds(roles, q, Parent(roles[p]));
      assert Holds(roles', q, Parent(roles'[p]));
    }
    forall p, i: nat | p in roles' && HasEntries(roles'[p]) && i < PAGE_SIZE
      ensures SlotOk(mem, roles', p, i, Target(roles'[p], i))
    {
      assert SlotOk(mem, roles, p, i, Target(roles[p], i));
      SlotAfter(mem, mem, roles, page, Reserved, p, i, Target(roles[p], i));
    }
    PopulatedAfter(roles, page, Reserved);
  }

  /** Giving `page`, so far reserved or unused, a new role does not disturb slots that look for another. */
  lemma SlotAfter(mem: Memory, mem': Memory, roles: Roles, page: nat, role: Role, p: nat, i: nat, target: Role)
    requires p < PHYS_PAGES && i < PAGE_SIZE && Entry(mem, p, i) == Entry(mem', p, i)
    requires SlotOk(mem, roles, p, i, target)
    requires (page in roles ==> roles[page].Reserved?) && !target.Reserved? && target != role
    ensures SlotOk(mem', roles[page := role], p, i, target)
  {
    var roles', e := roles[page := role], Entry(mem', p, i);
    assert e != UNSET ==> e - 128 != page && Holds(roles', e - 128, target);
    forall q: nat | Holds(roles', q, target) ensures e == 128 + q {
      assert Holds(roles, q, target);
    }
  }

  lemma PopulatedAfter(roles: Roles, page: nat, role: Role)
    requires Populated(roles) && (page in roles ==> roles[page].Reserved?) && !role.Table?
    ensures Populated(roles[page := role])
  {
    var roles' := roles[page := role];
    forall p | p in roles' && roles'[p].Table? ensures HasFrame(roles', roles'[p].pid, roles'[p].pde) {
      var q: nat, v: nat :| Holds(roles, q, Frame(roles[p].pid, v)) && v / 32 == roles[p].pde;
      assert Holds(roles', q, Frame(roles[p].pid, v));
    }
  }

  lemma ParentedAfter(roles: Roles, page: nat, role: Role)
    requires Parented(roles) && (page in roles ==> roles[page].Reserved?)
    requires role.Table? || role.Frame? ==> exists q :: Holds(roles, q, Parent(role))
    ensures Parented(roles[page := role])
  {
    var roles' := roles[page := role];
    forall p | p in roles' && (roles'[p].Table? || roles'[p].Frame?)
      ensures exists q :: Holds(roles', q, Parent(roles'[p]))
    {
      var q :| Holds(roles, q, Parent(roles'[p]));
      assert Holds(roles', q, Parent(roles'[p]));
    }
  }

  lemma TargetIsOwn(r: Role, i: nat, s: Role, j: nat)
    requires HasEntries(r) && HasEntries(s) && i < 32 && j < 32 && Target(r, i) == Target(s, j)
    ensures r == s && i == j
  {
  }

  /** A new process's directory: a reserved page, cleared. */
  lemma AddDirectory(mem: Memory, mem': Memory, pdbr: map<int, nat>, roles: Roles, pid: int, page: nat)
    requires Tree(mem, pdbr, roles) && Populated(roles) && pid !in pdbr && Holds(roles, page, Reserved)
    requires OnlyPage(mem, mem', page) && Cleared(mem', page)
    ensures Tree(mem', pdbr[pid := page], roles[page := Directory(pid)]) && Populated(roles[page := Directory(pid)])
  {
    var role := Directory(pid);
    var roles' := roles[page := role];
    PopulatedAfter(roles, page, role);
    ParentedAfter(roles, page, role);
    NewRootHasNoTables(roles, pdbr, pid);
    forall p, i: nat | p in roles' && HasEntries(roles'[p]) && i < PAGE_SIZE
      ensures SlotOk(mem', roles', p, i, Target(roles'[p], i))
    {
      if p != page {
        assert SlotOk(mem, roles, p, i, Target(roles[p], i)) && SamePage(mem, mem', p);
        SlotAfter(mem, mem', roles, page, role, p, i, Target(roles[p], i));
      }
    }
  }

  lemma NewRootHasNoTables(roles: Roles, pdbr: map<int, nat>, pid: int)
    requires Parented(roles) && Roots(pdbr, roles) && pid !in pdbr
    ensures forall p :: p in roles && !roles[p].Reserved? ==> roles[p].pid != pid
  {
    forall p | p in roles && !roles[p].Reserved? ensures roles[p].pid != pid {
      if roles[p].Table? {
        var q :| Holds(roles, q, Parent(roles[p]));
      } else if roles[p].Frame? {
        var q :| Holds(roles, q, Parent(roles[p]));
        var d :| Holds(roles, d, Parent(roles[q]));
      }
    }
  }

  /** Writing a valid entry: entry `i` of `parent` now points at `child`, a page reserved so far, which takes
      the role the entry gives it. */
  lemma AddChild(mem: Memory, mem': Memory, pdbr: map<int, nat>, roles: Roles, parent: nat, i: nat, child: nat)
    requires Tree(mem, pdbr, roles) && parent in roles && HasEntries(roles[parent]) && i < PAGE_SIZE
    requires Holds(roles, child, Reserved) && Entry(mem, parent, i) == UNSET
    requires Entry(mem', parent, i) == 128 + child
    requires forall p: nat, j: nat :: p < PHYS_PAGES && j < PAGE_SIZE && p != child && (p != parent || j != i) ==>
      Entry(mem', p, j) == Entry(mem, p, j)
    requires roles[parent].Directory? ==> Cleared(mem', child)
    ensures Tree(mem', pdbr, roles[child := Target(roles[parent], i)])
  {
    var role := Target(roles[parent], i);
    var roles' := roles[child := role];
    assert Holds(roles, parent, Parent(role));
    ParentedAfter(roles, child, role);
    NoneYet(mem, roles, parent, i);
    ShapeAfter(pdbr, roles, child, role);
    forall p, j: nat | p in roles' && HasEntries(roles'[p]) && j < PAGE_SIZE
      ensures SlotOk(mem', roles', p, j, Target(roles'[p], j))
    {
      SlotAfterLink(mem, mem', roles, parent, i, child, p, j);
    }
  }

  lemma ShapeAfter(pdbr: map<int, nat>, roles: Roles, child: nat, role: Role)
    requires InRange(roles) && OneEach(roles) && Roots(pdbr, roles) && Holds(roles, child, Reserved)
    requires (role.Table? && role.pde < 32) || (role.Frame? && role.vpn < VA_PAGES)
    requires forall q: nat :: !Holds(roles, q, role)
    ensures InRange(roles[child := role]) && OneEach(roles[child := role]) && Roots(pdbr, roles[child := role])
  {
    var roles' := roles[child := role];
    forall p: nat, q: nat | p in roles' && q in roles' && roles'[p] == roles'[q] && !roles'[p].Reserved?
      ensures p == q
    {
      assert p != child ==> Holds(roles, p, roles'[p]);
      assert q != child ==> Holds(roles, q, roles'[q]);
    }
    forall pid | pid in pdbr ensures Holds(roles', pdbr[pid], Directory(pid)) {
      assert Holds(roles, pdbr[pid], Directory(pid));
    }
  }

  lemma NoneYet(mem: Memory, roles: Roles, parent: nat, i: nat)
    requires InRange(roles) && SlotsOk(mem, roles) && parent in roles && HasEntries(roles[parent]) && i < PAGE_SIZE
    requires Entry(mem, parent, i) == UNSET
    ensures forall q: nat :: !Holds(roles, q, Target(roles[parent], i))
  {
    assert SlotOk(mem, roles, parent, i, Target(roles[parent], i));
  }

  lemma SlotAfterLink(mem: Memory, mem': Memory, roles: Roles, parent: nat, i: nat, child: nat, p: nat, j: nat)
    requires InRange(roles) && OneEach(roles) && Parented(roles) && SlotsOk(mem, roles)
    requires parent in roles && HasEntries(roles[parent]) && i < PAGE_SIZE
    requires Holds(roles, child, Reserved) && Entry(mem, parent, i) == UNSET
    requires Entry(mem', parent, i) == 128 + child
    requires p < PHYS_PAGES && j < PAGE_SIZE
    requires p != child && (p != parent || j != i) ==> Entry(mem', p, j) == Entry(mem, p, j)
    requires roles[parent].Directory? ==> Cleared(mem', child)
    requires p == child || (p in roles && HasEntries(roles[p]))
    requires p == child ==> roles[parent].Directory?
    ensures var roles' := roles[child := Target(roles[parent], i)]; SlotOk(mem', roles', p, j, Target(roles'[p], j))
  {
    var role := Target(roles[parent], i);
    var roles', target := roles[child := role], if p == child then Target(role, j) else role;
    NoneYet(mem, roles, parent, i);
    if p == child {
      NoOrphans(roles, role, j);
      assert target != role;
      assert forall q: nat :: Holds(roles', q, target) ==> Holds(roles, q, target);
    } else if p == parent && j == i {
      assert forall q: nat :: Holds(roles', q, target) && q != child ==> Holds(roles, q, target);
    } else if p != parent || j != i {
      assert SlotOk(mem, roles, p, j, Target(roles[p], j));
      if Target(roles[p], j) == role { TargetIsOwn(roles[p], j, roles[parent], i); }
      SlotAfter(mem, mem', roles, child, role, p, j, Target(roles[p], j));
    }
  }

  /** Nothing hangs below a table that does not exist yet. */
  lemma NoOrphans(roles: Roles, role: Role, j: nat)
    requires Parented(roles) && role.Table? && (forall p: nat :: !Holds(roles, p, role)) && j < 32
    ensures forall p: nat :: !Holds(roles, p, Target(role, j))
  {
    forall p: nat ensures !Holds(roles, p, Target(role, j)) {
      if Holds(roles, p, Target(role, j)) {
        var q :| Holds(roles, q, Parent(roles[p]));
        assert false;
      }
    }
  }
}
