/** Every operation keeps the kernel half shared and the kernel mappings apart. */
module VmInv {
  import opened Machine
  import opened Wrappers
  import opened Paging
  import opened Vm

  /** A frame the physical memory manager may hand out. */
  predicate Fresh(vm: Vm, answer: Option<nat>) { answer.Some? ==> answer.value !in vm.used && answer.value < 0x10_0000 }

  // ----- where a kernel page-table entry is written

  lemma AddrFields(p: nat)
    requires p < POOL
    ensures Addr(p) < WORD && DirIndex(Addr(p)) == 768 + p / 1024 && TabIndex(Addr(p)) == p % 1024 && PageNo(Addr(p)) == p
    ensures Addr(p) % PAGE == 0
  {
    PageFields(0xC_0000 + p, 0);
  }

  lemma TargetFields(target: nat)
    requires KERN <= target < WORD
    ensures 0 <= PageNo(target) < POOL && GetPte(target) == GetPte(Addr(PageNo(target)))
    ensures PageNo(target) < RESERVED <==> target < 0xFFC0_0000
    ensures DirIndex(target) == 768 + PageNo(target) / 1024 && TabIndex(target) == PageNo(target) % 1024
  {
    var k, o := target / PAGE, target % PAGE;
    assert target == k * PAGE + o && PageNo(target) == k - 0xC_0000;
    PageFields(k, o);
    AddrFields(PageNo(target));
  }

  /** In any active address space, the entry of a kernel page below the reserved ones is
      written in its kernel page table. */
  lemma StoreToSlot(vm: Vm, p: nat, w: nat)
    requires Tables(vm) && p < RESERVED
    ensures Store(vm.mem, vm.dir, GetPte(Addr(p)), w) == vm.mem[Slot(vm, p) := w]
    ensures Load(vm.mem, vm.dir, GetPte(Addr(p))) == Some(Read(vm.mem, Slot(vm, p)))
  {
    AddrFields(p);
    assert DirOk(vm, vm.dir) && TabOk(vm, 768 + p / 1024);
    WalkOfGetPte(vm.mem, vm.dir, Addr(p));
  }

  // ----- what a kernel page shows

  /** The frame that kernel page q shows; None when it is not mapped. */
  function Shown(vm: Vm, q: nat): Option<nat> {
    var e := Read(vm.mem, Slot(vm, q));
    if Present(e) then Some(FrameOf(e)) else None
  }

  /** A word of a kernel page is a word of the frame it shows. */
  lemma PageWord(vm: Vm, q: nat, i: nat, va: nat, w: nat)
    requires Tables(vm) && q < RESERVED && i < 1024 && va == Addr(q) + i * 4
    ensures Load(vm.mem, vm.dir, va) ==
            match Shown(vm, q) case None => None case Some(g) => Some(Read(vm.mem, Loc(g, i)))
    ensures Store(vm.mem, vm.dir, va, w) ==
            match Shown(vm, q) case None => vm.mem case Some(g) => vm.mem[Loc(g, i) := w]
  {
    PageFields(0xC_0000 + q, i * 4);
    assert DirOk(vm, vm.dir) && TabOk(vm, 768 + q / 1024);
  }

  /** vmm_v2p of a kernel page is the frame in its entry, present or not; it never faults and
      never spells the error value. */
  lemma V2POfPage(vm: Vm, q: nat)
    requires Tables(vm) && q < RESERVED
    ensures var a := V2P(vm.mem, vm.dir, Addr(q));
            a == Some(FrameOf(Read(vm.mem, Slot(vm, q))) * PAGE) && a != Some(ERRO)
    ensures Activate(vm, q) == vm.(dir := FrameOf(Read(vm.mem, Slot(vm, q))))
  {
    AddrFields(q);
    assert DirOk(vm, vm.dir) && TabOk(vm, 768 + q / 1024);
    WalkOfGetPde(vm.mem, vm.dir, Addr(q));
    StoreToSlot(vm, q, 0);
    PageFields(FrameOf(Read(vm.mem, Slot(vm, q))), 0);
  }

  /** With a page table for every slot, no two kernel pages share an entry. */
  lemma SlotsDiffer(vm: Vm, p: nat, q: nat)
    requires TabsApart(vm) && p < RESERVED && q < RESERVED && p != q
    ensures Slot(vm, p) != Slot(vm, q)
  {
    var i, j := 768 + p / 1024, 768 + q / 1024;
    if i < j { assert DifferentTabs(vm, i, j); } else if j < i { assert DifferentTabs(vm, j, i); }
  }

  // ----- frames: what a change of memory leaves alone

  /** Directories read the same words as before. */
  ghost predicate SameDirs(vm: Vm, vm': Vm) {
    forall d, i {:trigger Read(vm'.mem, Loc(d, i))} :: d in AllDirs(vm) ==> Read(vm'.mem, Loc(d, i)) == Read(vm.mem, Loc(d, i))
  }

  lemma TablesFrame(vm: Vm, vm': Vm)
    requires Tables(vm) && SameDirs(vm, vm')
    requires vm'.dir in AllDirs(vm) && vm'.kdir == vm.kdir && vm'.dirs == vm.dirs && vm'.utabs == vm.utabs && vm.used <= vm'.used
    ensures Tables(vm')
  {
    forall d | d in AllDirs(vm') ensures DirOk(vm', d) { assert DirOk(vm, d); }
    forall i | 768 <= i < 1023 ensures TabOk(vm', i) && KTab(vm', i) == KTab(vm, i) { assert TabOk(vm, i); }
    forall d | d in vm'.dirs ensures UserHalfOk(vm', d) { assert UserHalfOk(vm, d); }
  }

  lemma TabsFrame(vm: Vm, vm': Vm)
    requires TabsApart(vm) && vm'.kdir == vm.kdir && SameDirs(vm, vm')
    ensures TabsApart(vm')
  {
    forall i, j | 768 <= i < j < 1023 ensures DifferentTabs(vm', i, j) { assert DifferentTabs(vm, i, j); }
  }

  lemma SlotSame(vm: Vm, vm': Vm, p: nat)
    requires SameDirs(vm, vm') && vm'.kdir == vm.kdir
    ensures Slot(vm', p) == Slot(vm, p)
  {}

  /** Pages of directories are still busy, and no page has become one. */
  ghost predicate FewerHomes(vm: Vm, vm': Vm) {
    vm.dirs <= vm'.dirs && forall q :: q in vm'.homes ==> q in vm.homes && vm'.homes[q] == vm.homes[q] && Busy(vm', q)
  }

  /** No busy page's entry has changed, and no more pages are busy. */
  lemma MappingsFrame(vm: Vm, vm': Vm)
    requires Mappings(vm) && Homes(vm) && SameDirs(vm, vm') && vm'.kdir == vm.kdir && vm.used <= vm'.used
    requires forall p :: Busy(vm', p) ==> Busy(vm, p) && Read(vm'.mem, Slot(vm, p)) == Read(vm.mem, Slot(vm, p))
    requires FewerHomes(vm, vm')
    ensures Mappings(vm') && Homes(vm')
  {
    forall p | Busy(vm', p) ensures Mapped(vm', p) { SlotSame(vm, vm', p); assert Mapped(vm, p); }
    forall p, q | Busy(vm', p) && Busy(vm', q) && p != q ensures Separate(vm', p, q) {
      SlotSame(vm, vm', p);
      SlotSame(vm, vm', q);
      assert Separate(vm, p, q);
    }
    forall q | q in vm'.homes ensures Home(vm', q) {
      assert Home(vm, q);
      SlotSame(vm, vm', q);
    }
  }

  // ----- kernel pages

  lemma SlotWrite(vm: Vm, vm': Vm, p: nat, w: nat)
    requires Tables(vm) && p < RESERVED && vm'.mem == vm.mem[Slot(vm, p) := w]
    ensures SameDirs(vm, vm')
    ensures forall l: Loc {:trigger Read(vm'.mem, l)} :: Read(vm'.mem, l) == if l == Slot(vm, p) then w else Read(vm.mem, l)
  {
    assert TabOk(vm, 768 + p / 1024);
  }

  lemma EntryFields(f: nat)
    ensures Present(f * PAGE + KFLAGS) && FrameOf(f * PAGE + KFLAGS) == f
    ensures Present(f * PAGE + UFLAGS) && FrameOf(f * PAGE + UFLAGS) == f
  {}

  /** Entries of kernel pages, directories and their tables are writable and closed to user
      mode; entries of user pages and tables are writable and open to it. */
  lemma EntryBits(f: nat)
    ensures var k, u := f * PAGE + KFLAGS, f * PAGE + UFLAGS;
            Writable(k) && !UserMode(k) && Writable(u) && UserMode(u)
  {
    var q := f * 512 + 32;
    SupervisorBits(q);
    UserBits(q);
    assert f * PAGE + KFLAGS == 8 * q + 3 && f * PAGE + UFLAGS == 8 * q + 7;
  }

  lemma TwiceAndBit(h: nat, b: nat)
    requires b < 2
    ensures (2 * h + b) / 2 == h && (2 * h + b) % 2 == b
  {}

  lemma FourfoldAnd(h: nat, b: nat)
    requires b < 4
    ensures (4 * h + b) / 4 == h
  {}

  lemma SupervisorBits(q: nat)
    ensures Writable(8 * q + 3) && !UserMode(8 * q + 3)
  {
    TwiceAndBit(4 * q + 1, 1);
    TwiceAndBit(2 * q, 1);
    FourfoldAnd(2 * q, 3);
    TwiceAndBit(q, 0);
  }

  lemma UserBits(q: nat)
    ensures Writable(8 * q + 7) && UserMode(8 * q + 7)
  {
    TwiceAndBit(4 * q + 3, 1);
    TwiceAndBit(2 * q + 1, 1);
    FourfoldAnd(2 * q + 1, 3);
    TwiceAndBit(q, 1);
  }

  /** The state with a fresh frame entered for page p. */
  function Entered(vm: Vm, p: nat, f: nat): Vm {
    vm.(free := vm.free - {p}, used := vm.used + {f}, mem := vm.mem[Slot(vm, p) := f * PAGE + KFLAGS])
  }

  lemma EnterKeeps(vm: Vm, p: nat, f: nat)
    requires Base(vm) && p in vm.free
    ensures var u := Entered(vm, p, f); Base(u) && SameDirs(vm, u) && Slot(u, p) == Slot(vm, p) && Read(u.mem, Slot(u, p)) == f * PAGE + KFLAGS
    ensures Inv(vm) && f !in vm.used ==> Inv(Entered(vm, p, f))
  {
    var u := Entered(vm, p, f);
    SlotWrite(vm, u, p, f * PAGE + KFLAGS);
    SlotSame(vm, u, p);
    TablesFrame(vm, u);
    if Inv(vm) && f !in vm.used { EnteredInv(vm, p, f); }
  }

  lemma EnteredInv(vm: Vm, p: nat, f: nat)
    requires Inv(vm) && p in vm.free && f !in vm.used
    requires Base(Entered(vm, p, f)) && SameDirs(vm, Entered(vm, p, f))
    ensures Inv(Entered(vm, p, f))
  {
    var u := Entered(vm, p, f);
    TabsFrame(vm, u);
    forall q | Busy(u, q) ensures Mapped(u, q) { EnteredOne(vm, p, f, q); }
    forall q, r | Busy(u, q) && Busy(u, r) && q != r ensures Separate(u, q, r) {
      EnteredOne(vm, p, f, q);
      EnteredOne(vm, p, f, r);
      if q != p && r != p { assert Separate(vm, q, r); }
    }
    forall q | q in u.homes ensures Home(u, q) {
      assert Home(vm, q);
      EnteredOne(vm, p, f, q);
    }
  }

  lemma EnteredOne(vm: Vm, p: nat, f: nat, q: nat)
    requires Inv(vm) && p in vm.free && f !in vm.used && Busy(Entered(vm, p, f), q)
    ensures var u := Entered(vm, p, f);
            && Mapped(u, q) && (q == p ==> FrameOf(Read(u.mem, Slot(u, q))) == f)
            && (q != p ==> Busy(vm, q) && Read(u.mem, Slot(u, q)) == Read(vm.mem, Slot(vm, q)) && FrameOf(Read(u.mem, Slot(u, q))) != f)
  {
    var u, w := Entered(vm, p, f), f * PAGE + KFLAGS;
    EntryFields(f);
    SlotWrite(vm, u, p, w);
    SlotSame(vm, u, q);
    if q != p {
      SlotsDiffer(vm, p, q);
      assert Busy(vm, q) && Mapped(vm, q);
    }
  }

  lemma BackKeeps(vm: Vm, p: nat, target: nat, answer: Option<nat>)
    requires Base(vm) && p in vm.free && KERN <= target < WORD && PageNo(target) == p && Fresh(vm, answer)
    ensures var r := Back(vm.(free := vm.free - {p}), p, target, answer);
            && (answer == None ==> r == (vm, ERRO))
            && (answer.Some? ==> r == (Entered(vm, p, answer.value), target))
  {
    TargetFields(target);
    if answer == None {
      assert vm.free - {p} + {p} == vm.free;
    } else {
      StoreToSlot(vm, p, answer.value * PAGE + KFLAGS);
    }
  }

  /** A kernel allocation takes one page of the pool and maps it to the new frame; a failed
      one changes nothing. Reserved pages are never handed out. */
  lemma KernAllocAtKeeps(vm: Vm, p: nat, answer: Option<nat>)
    requires Base(vm) && p in vm.free && Fresh(vm, answer)
    ensures var r := KernAllocAt(vm, p, answer);
            && Base(r.0) && (Inv(vm) ==> Inv(r.0)) && p < RESERVED
            && (answer == None ==> r == (vm, ERRO))
            && (answer.Some? ==> r == (Entered(vm, p, answer.value), Addr(p)))
  {
    AddrFields(p);
    BackKeeps(vm, p, Addr(p), answer);
    if answer.Some? { EnterKeeps(vm, p, answer.value); }
  }

  lemma KernAllocOneKeeps(vm: Vm, target: nat, answer: Option<nat>)
    requires Base(vm) && target < WORD && Fresh(vm, answer)
    ensures var r := KernAllocOne(vm, target, answer);
            && Base(r.0) && (Inv(vm) ==> Inv(r.0))
            && (r.1 == ERRO <==> PageNo(target) !in vm.free || answer == None)
            && (r.1 == ERRO ==> r.0 == vm)
            && (r.1 != ERRO ==> r.1 == target < 0xFFC0_0000 && PageNo(target) >= 0 && r.0 == Entered(vm, PageNo(target), answer.value))
  {
    if PageNo(target) in vm.free {
      assert target >= KERN;
      TargetFields(target);
      BackKeeps(vm, PageNo(target), target, answer);
      if answer.Some? { EnterKeeps(vm, PageNo(target), answer.value); }
    }
  }

  /** Releasing keeps the invariant exactly when the page is not one of the reserved ones. */
  lemma KernReleaseKeepsIff(vm: Vm, target: nat)
    requires Base(vm) && target < WORD
    ensures Base(KernRelease(vm, target)) <==> target < 0xFFC0_0000
    ensures target < KERN ==> KernRelease(vm, target) == vm
    ensures Inv(vm) ==> (Inv(KernRelease(vm, target)) <==> target < 0xFFC0_0000)
  {
    if target >= KERN {
      TargetFields(target);
      var p, r := PageNo(target), KernRelease(vm, target);
      if p >= RESERVED {
        assert p in r.free;
      } else {
        ReleaseInPool(vm, p);
        if Inv(vm) { ReleasedInv(vm, p); }
      }
    }
  }

  function Released(vm: Vm, p: nat): Vm {
    var e := Read(vm.mem, Slot(vm, p));
    vm.(free := vm.free + {p}, homes := vm.homes - {p}, mem := vm.mem[Slot(vm, p) := e - e % 2])
  }

  lemma ReleaseInPool(vm: Vm, p: nat)
    requires Base(vm) && p < RESERVED
    ensures KernRelease(vm, Addr(p)) == Released(vm, p) && Base(Released(vm, p)) && SameDirs(vm, Released(vm, p))
    ensures forall t :: KERN <= t < WORD && PageNo(t) == p ==> KernRelease(vm, t) == Released(vm, p)
  {
    var r, e := Released(vm, p), Read(vm.mem, Slot(vm, p));
    AddrFields(p);
    StoreToSlot(vm, p, e - e % 2);
    SlotWrite(vm, r, p, e - e % 2);
    TablesFrame(vm, r);
    forall t | KERN <= t < WORD && PageNo(t) == p ensures GetPte(t) == GetPte(Addr(p)) { TargetFields(t); }
  }

  lemma ReleasedInv(vm: Vm, p: nat)
    requires Inv(vm) && p < RESERVED && Base(Released(vm, p)) && SameDirs(vm, Released(vm, p))
    ensures Inv(Released(vm, p))
  {
    var r, e := Released(vm, p), Read(vm.mem, Slot(vm, p));
    SlotWrite(vm, r, p, e - e % 2);
    TabsFrame(vm, r);
    forall q | Busy(r, q) ensures Busy(vm, q) && Read(r.mem, Slot(vm, q)) == Read(vm.mem, Slot(vm, q)) { SlotsDiffer(vm, p, q); }
    forall q | q in r.homes ensures Busy(r, q) { assert Home(vm, q); }
    MappingsFrame(vm, r);
  }

  // ----- user directories

  /** Memory changes inside one frame that is neither a directory nor a kernel page table. */
  ghost predicate OnlyFrame(mem: Mem, mem': Mem, f: nat) {
    forall l: Loc {:trigger Read(mem', l)} :: l.frame != f ==> Read(mem', l) == Read(mem, l)
  }

  lemma ZeroReads(mem: Mem, f: nat)
    ensures OnlyFrame(mem, ZeroFrame(mem, f), f)
    ensures forall i :: 0 <= i < 1024 ==> Read(ZeroFrame(mem, f), Loc(f, i)) == 0
  {
    var z := map i | 0 <= i < 1024 :: Loc(f, i) := 0;
    forall i | 0 <= i < 1024 ensures Loc(f, i) in z {}
  }

  lemma CopyReads(mem: Mem, f: nat, d: nat)
    ensures OnlyFrame(mem, CopyHalf(mem, f, d), f)
    ensures forall i :: 768 <= i < 1024 ==> Read(CopyHalf(mem, f, d), Loc(f, i)) == Read(mem, Loc(d, i))
    ensures forall i :: 0 <= i < 768 ==> Read(CopyHalf(mem, f, d), Loc(f, i)) == Read(mem, Loc(f, i))
  {
    var z := map i | 768 <= i < 1024 :: Loc(f, i) := Read(mem, Loc(d, i));
    forall i | 768 <= i < 1024 ensures Loc(f, i) in z {}
  }

  lemma NewDirReads(mem: Mem, f: nat, d: nat)
    requires f != d && f < 0x10_0000
    ensures var m := NewDirIn(mem, f, d);
            && OnlyFrame(mem, m, f)
            && SelfMapped(m, f)
            && (forall i :: 768 <= i < 1023 ==> Read(m, Loc(f, i)) == Read(mem, Loc(d, i)))
            && (forall i :: 0 <= i < 768 ==> Read(m, Loc(f, i)) == 0)
  {
    var z := ZeroFrame(mem, f);
    var c := CopyHalf(z, f, d);
    ZeroReads(mem, f);
    CopyReads(z, f, d);
    LastEntry(c, f);
  }

  lemma LastEntry(c: Mem, f: nat)
    ensures var m := c[Loc(f, 1023) := f * PAGE + KFLAGS];
            SelfMapped(m, f) && OnlyFrame(c, m, f) && forall i :: 0 <= i < 1023 ==> Read(m, Loc(f, i)) == Read(c, Loc(f, i))
  {}

  /** A fresh frame is no directory, no kernel page table and no user page table. */
  lemma FreshApart(vm: Vm, f: nat)
    requires Tables(vm) && f !in vm.used
    ensures f !in AllDirs(vm) && f !in vm.utabs
    ensures forall i :: 768 <= i < 1023 ==> KTab(vm, i) != f
    ensures forall p :: 0 <= p < RESERVED ==> Slot(vm, p).frame != f
  {
    forall i | 768 <= i < 1023 ensures KTab(vm, i) != f { assert TabOk(vm, i); }
  }

  /** The states in between agree with the one before on the directories and the frames' roles. */
  ghost predicate SameRoles(vm: Vm, u: Vm, f: nat) {
    && u.dir == vm.dir && u.kdir == vm.kdir && u.dirs == vm.dirs && u.utabs == vm.utabs && u.used == vm.used + {f}
    && SameDirs(vm, u)
  }

  lemma AddDirKeeps(vm: Vm, u: Vm, p: nat, f: nat, v': Vm)
    requires Base(vm) && f !in vm.used && f < 0x10_0000 && Base(u) && SameRoles(vm, u, f)
    requires Busy(u, p) && FrameOf(Read(u.mem, Slot(u, p))) == f
    requires v' == u.(mem := NewDirIn(u.mem, f, u.dir), dirs := u.dirs + {f}, homes := u.homes[p := f])
    ensures Base(v') && (Inv(u) ==> Inv(v'))
  {
    FreshApart(vm, f);
    NewDirReads(u.mem, f, u.dir);
    NewDirTables(vm, u, f, v');
    if Inv(u) { AddDirInv(vm, u, p, f, v'); }
  }

  lemma AddDirInv(vm: Vm, u: Vm, p: nat, f: nat, v': Vm)
    requires Base(vm) && f !in vm.used && Inv(u) && SameRoles(vm, u, f) && Base(v')
    requires Busy(u, p) && FrameOf(Read(u.mem, Slot(u, p))) == f
    requires v' == u.(mem := v'.mem, dirs := u.dirs + {f}, homes := u.homes[p := f]) && OnlyFrame(u.mem, v'.mem, f)
    ensures Inv(v')
  {
    FreshApart(vm, f);
    OthersSame(u, v', f);
    forall q | 0 <= q < RESERVED ensures Slot(u, q).frame != f { assert KTab(vm, 768 + q / 1024) != f; }
    TabsFrame(u, v');
    var w := v'.(homes := u.homes);
    forall q | q in w.homes ensures Busy(w, q) { assert Home(u, q); }
    MappingsFrame(u, w);
    forall q | Busy(v', q) ensures Mapped(v', q) { assert Mapped(w, q); }
    forall q, r | Busy(v', q) && Busy(v', r) && q != r ensures Separate(v', q, r) { assert Separate(w, q, r); }
    forall q | q in v'.homes ensures Home(v', q) {
      if q == p { SlotSame(u, v', p); } else { assert Home(w, q); }
    }
  }

  /** Memory changed in a frame that was no directory. */
  lemma OthersSame(u: Vm, v': Vm, f: nat)
    requires f !in AllDirs(u) && OnlyFrame(u.mem, v'.mem, f)
    ensures SameDirs(u, v')
  {}

  lemma NewDirTables(vm: Vm, u: Vm, f: nat, v': Vm)
    requires Tables(vm) && Tables(u) && f !in vm.used && SameRoles(vm, u, f)
    requires v' == u.(mem := v'.mem, dirs := u.dirs + {f}, homes := v'.homes)
    requires OnlyFrame(u.mem, v'.mem, f) && SelfMapped(v'.mem, f)
    requires forall i :: 768 <= i < 1023 ==> Read(v'.mem, Loc(f, i)) == Read(u.mem, Loc(u.dir, i))
    requires forall i :: 0 <= i < 768 ==> Read(v'.mem, Loc(f, i)) == 0
    ensures Tables(v')
  {
    FreshApart(vm, f);
    forall d | d in AllDirs(v') ensures DirOk(v', d) {
      assert DirOk(u, u.dir);
      if d != f { assert DirOk(u, d); }
    }
    forall i | 768 <= i < 1023 ensures TabOk(v', i) && KTab(v', i) == KTab(u, i) {
      assert TabOk(u, i);
      assert KTab(u, i) == KTab(vm, i);
    }
    forall d | d in v'.dirs ensures UserHalfOk(v', d) {
      if d != f { assert UserHalfOk(u, d); }
    }
  }

  /** The state once frame f, behind kernel page p, is a directory. */
  function DirMade(vm: Vm, p: nat, f: nat): Vm {
    var u := Entered(vm, p, f);
    u.(mem := NewDirIn(u.mem, f, u.dir), dirs := u.dirs + {f}, homes := u.homes[p := f])
  }

  /** Creating a user directory, which page p then shows; without a frame nothing changes. */
  lemma CreatePdtKeeps(vm: Vm, p: nat, answer: Option<nat>)
    requires Base(vm) && p in vm.free && Fresh(vm, answer)
    ensures p < POOL
    ensures var r := CreatePdt(vm, p, answer);
            if answer == None then r == (vm, ERRO)
            else var u, f := DirMade(vm, p, answer.value), answer.value;
                 && r == (u, Addr(p)) && r.1 != ERRO && Base(u) && (Inv(vm) ==> Inv(u))
                 && f in u.dirs && f !in vm.dirs && Shown(u, p) == Some(f) && SameDirs(vm, u)
  {
    KernAllocAtKeeps(vm, p, answer);
    AddrFields(p);
    if answer.Some? { DirMadeKeeps(vm, p, answer.value); }
  }

  lemma DirMadeKeeps(vm: Vm, p: nat, f: nat)
    requires Base(vm) && p in vm.free && Fresh(vm, Some(f))
    ensures var u := DirMade(vm, p, f);
            Base(u) && (Inv(vm) ==> Inv(u)) && f !in vm.dirs && Shown(u, p) == Some(f) && SameDirs(vm, u)
  {
    var u, r := Entered(vm, p, f), DirMade(vm, p, f);
    EnterKeeps(vm, p, f);
    EntryFields(f);
    AddDirKeeps(vm, u, p, f, r);
    FreshApart(vm, f);
    NewDirReads(u.mem, f, u.dir);
    OthersSame(u, r, f);
    SlotSame(u, r, p);
  }

  /** Switching to the directory of page q keeps the invariant exactly when the frame in its
      entry is a directory; the page of a directory not given back loads that directory. */
  lemma ActivateKeepsIff(vm: Vm, q: nat)
    requires Base(vm) && q < RESERVED
    ensures var r := Activate(vm, q);
            && (Base(r) <==> r.dir in AllDirs(vm))
            && (Inv(vm) ==> (Inv(r) <==> r.dir in AllDirs(vm)))
            && (Inv(vm) && q in vm.homes ==> r.dir == vm.homes[q] && Inv(r))
  {
    var r := Activate(vm, q);
    V2POfPage(vm, q);
    if Inv(vm) && q in vm.homes { assert Home(vm, q); }
    if r.dir in AllDirs(vm) { OtherDir(vm, r); }
  }

  lemma OtherDir(vm: Vm, r: Vm)
    requires Base(vm) && r.dir in AllDirs(vm) && r == vm.(dir := r.dir)
    ensures Base(r) && (Inv(vm) ==> Inv(r))
  {
    TablesFrame(vm, r);
    if Inv(vm) {
      TabsFrame(vm, r);
      forall q | q in vm.homes ensures Busy(vm, q) { assert Home(vm, q); }
      MappingsFrame(vm, r);
    }
  }

  lemma ActivateKernelKeeps(vm: Vm)
    requires Base(vm)
    ensures Base(ActivateKernel(vm)) && (Inv(vm) ==> Inv(ActivateKernel(vm)))
  {
    OtherDir(vm, ActivateKernel(vm));
  }

  /** An allocation leaves what page q shows exactly when it takes a page with another entry;
      otherwise q shows the new frame. */
  lemma ShownAfter(vm: Vm, p: nat, f: nat, q: nat)
    requires Base(vm) && p in vm.free && f !in vm.used && q < RESERVED
    ensures var u := Entered(vm, p, f);
            && Shown(u, q) == (if Slot(vm, p) == Slot(vm, q) then Some(f) else Shown(vm, q))
            && FrameOf(Read(u.mem, Slot(u, q))) == (if Slot(vm, p) == Slot(vm, q) then f else FrameOf(Read(vm.mem, Slot(vm, q))))
  {
    var u := Entered(vm, p, f);
    EntryFields(f);
    SlotWrite(vm, u, p, f * PAGE + KFLAGS);
    SlotSame(vm, u, q);
  }

  // ----- user pages

  /** The clean-up of a failed user allocation releases a bit of the kernel's pool. It keeps
      the invariant exactly when the address is not one of the reserved kernel pages, and
      changes nothing exactly below the kernel and for pages already free. */
  lemma ReleaseBitKeepsIff(vm: Vm, v: nat)
    requires Base(vm) && v < WORD
    ensures Base(ReleaseBit(vm, v)) <==> v < 0xFFC0_0000
    ensures Inv(vm) ==> (Inv(ReleaseBit(vm, v)) <==> v < 0xFFC0_0000)
    ensures ReleaseBit(vm, v).(homes := vm.homes) == vm <==> v < KERN || PageNo(v) in vm.free
    ensures Inv(vm) ==> (ReleaseBit(vm, v) == vm <==> v < KERN || PageNo(v) in vm.free)
    ensures ReleaseBit(vm, v).mem == vm.mem && ReleaseBit(vm, v).free == vm.free + if v >= KERN then {PageNo(v)} else {}
  {
    if v >= KERN {
      TargetFields(v);
      var r := ReleaseBit(vm, v);
      if PageNo(v) >= RESERVED {
        assert PageNo(v) in r.free;
      } else {
        TablesFrame(vm, r);
        if Inv(vm) {
          TabsFrame(vm, r);
          forall q | q in vm.homes ensures Busy(vm, q) { assert Home(vm, q); }
          MappingsFrame(vm, r);
        }
      }
      assert PageNo(v) in r.free;
      if PageNo(v) in vm.free {
        assert r.free == vm.free;
        if Inv(vm) { NoHome(vm, PageNo(v)); }
      }
    }
  }

  /** A free page is no directory's. */
  lemma NoHome(vm: Vm, p: int)
    requires Homes(vm) && p in vm.free
    ensures vm.homes - {p} == vm.homes
  {
    forall q | q in vm.homes ensures q != p { assert Home(vm, q); }
  }

  lemma UserDirIndex(v: nat)
    requires v < KERN
    ensures DirIndex(v) < 768
  {}

  /** A user page is entered in a user page table, or the entry faults: no directory and no
      kernel page table changes. */
  lemma EnterUserKeeps(vm: Vm, v: nat, answer: Option<nat>)
    requires Base(vm) && vm.dir in vm.dirs && v < KERN && Fresh(vm, answer)
    ensures var o := EnterUserPage(vm, v, answer);
            && Base(o.vm) && (Inv(vm) ==> Inv(o.vm))
            && (o.Faults? <==> answer.Some? && !Present(Pde(vm.mem, vm.dir, v)))
            && (o.Returns? && o.r != ERRO ==> answer.Some? && o.r == v - v % PAGE && Walk(o.vm.mem, vm.dir, v) == Phys(answer.value, Offset(v)))
            && (o.Returns? && answer.Some? ==> o.r != ERRO)
  {
    ReleaseBitKeepsIff(vm, v);
    if answer.Some? {
      UserDirIndex(v);
      var r, t, f := EnterUserPage(vm, v, answer).vm, FrameOf(Pde(vm.mem, vm.dir, v)), answer.value;
      assert UserHalfOk(vm, vm.dir) && DirOk(vm, vm.dir);
      WalkOfGetPte(vm.mem, vm.dir, v);
      EntryFields(f);
      if Present(Pde(vm.mem, vm.dir, v)) {
        assert t in vm.utabs;
        assert r.mem == vm.mem[Loc(t, TabIndex(v)) := f * PAGE + UFLAGS];
        UtabWrite(vm, r, {t});
      } else {
        UtabWrite(vm, r, {});
      }
    }
  }

  /** Memory changes in user page tables only. */
  lemma UtabWrite(vm: Vm, r: Vm, ts: set<nat>)
    requires Base(vm) && ts <= vm.utabs
    requires forall l: Loc {:trigger Read(r.mem, l)} :: l.frame !in ts ==> Read(r.mem, l) == Read(vm.mem, l)
    requires r == vm.(mem := r.mem, used := r.used) && vm.used <= r.used
    ensures Base(r) && (Inv(vm) ==> Inv(r))
  {
    forall d | d in AllDirs(vm) ensures d !in ts {}
    assert SameDirs(vm, r);
    TablesFrame(vm, r);
    if Inv(vm) {
      forall p | 0 <= p < RESERVED ensures Slot(vm, p).frame !in ts { assert TabOk(vm, 768 + p / 1024); }
      TabsFrame(vm, r);
      forall q | q in vm.homes ensures Busy(vm, q) { assert Home(vm, q); }
      MappingsFrame(vm, r);
    }
  }

  /** The state once frame f, behind kernel page p, is a table entered at the address pde. */
  function TableMade(vm: Vm, pde: nat, p: nat, f: nat): Vm {
    var u := Entered(vm, p, f);
    u.(mem := Store(ZeroFrame(u.mem, f), u.dir, pde, f * PAGE + UFLAGS), utabs := u.utabs + {f})
  }

  /** Clearing a fresh frame changes no directory and no kernel page table. */
  lemma Cleared(vm: Vm, p: nat, f: nat)
    requires Base(vm) && p in vm.free && f !in vm.used
    ensures var u := Entered(vm, p, f); var z := u.(mem := ZeroFrame(u.mem, f));
            && Tables(u) && Tables(z) && SameRoles(vm, u, f) && (forall q :: 0 <= q < RESERVED ==> Shown(z, q) == Shown(u, q))
            && (forall l: Loc {:trigger Read(z.mem, l)} :: l.frame != f ==> Read(z.mem, l) == Read(u.mem, l))
  {
    var u := Entered(vm, p, f);
    var z := u.(mem := ZeroFrame(u.mem, f));
    EnterKeeps(vm, p, f);
    FreshApart(vm, f);
    ZeroReads(u.mem, f);
    OthersSame(u, z, f);
    TablesFrame(u, z);
    forall q | 0 <= q < RESERVED ensures Shown(z, q) == Shown(u, q) {
      SlotSame(u, z, q);
      SlotSame(vm, u, q);
    }
  }

  /** A word of the user half of some frame may point at the new table; nothing else changes
      outside the table. */
  ghost predicate OneWord(u: Vm, t: Vm, f: nat, i: nat, g: nat) {
    forall l: Loc {:trigger Read(t.mem, l)} :: l.frame != f ==>
      Read(t.mem, l) == Read(u.mem, l) || (l == Loc(g, i) && Read(t.mem, l) == f * PAGE + UFLAGS)
  }

  /** Whatever page q shows, a new user page table keeps the kernel half: the entry lands in
      the user half of a frame. */
  lemma TableKeepsBase(vm: Vm, u: Vm, t: Vm, f: nat, i: nat, g: nat)
    requires Base(vm) && Base(u) && f !in vm.used && i < 768 && SameRoles(vm, u, f)
    requires t == u.(mem := t.mem, utabs := u.utabs + {f}) && OneWord(u, t, f, i, g)
    ensures Base(t)
  {
    FreshApart(vm, f);
    EntryFields(f);
    forall e | e in AllDirs(t) ensures DirOk(t, e) { assert DirOk(u, e); }
    forall k | 768 <= k < 1023 ensures TabOk(t, k) && KTab(t, k) == KTab(u, k) {
      assert TabOk(u, k);
      assert KTab(u, k) == KTab(vm, k);
    }
    forall e | e in t.dirs ensures UserHalfOk(t, e) { assert UserHalfOk(u, e); }
  }

  /** When page q shows a user directory, kernel pages stay apart as well. */
  lemma TableKeepsInv(vm: Vm, u: Vm, t: Vm, f: nat, i: nat, g: nat)
    requires Base(vm) && Inv(u) && Base(t) && f !in vm.used && SameRoles(vm, u, f) && g in vm.dirs && i < 768
    requires t == u.(mem := t.mem, utabs := t.utabs) && OneWord(u, t, f, i, g)
    ensures Inv(t)
  {
    FreshApart(vm, f);
    forall k | 768 <= k < 1023 ensures KTab(t, k) == KTab(u, k) {}
    forall k, j | 768 <= k < j < 1023 ensures DifferentTabs(t, k, j) { assert DifferentTabs(u, k, j); }
    forall p | 0 <= p < RESERVED ensures Read(t.mem, Slot(u, p)) == Read(u.mem, Slot(u, p)) && Slot(t, p) == Slot(u, p) {
      assert TabOk(u, 768 + p / 1024);
      assert KTab(u, 768 + p / 1024) == KTab(vm, 768 + p / 1024);
    }
    forall p | Busy(t, p) ensures Mapped(t, p) { assert Busy(u, p) && Mapped(u, p); }
    forall p, q | Busy(t, p) && Busy(t, q) && p != q ensures Separate(t, p, q) {
      assert Busy(u, p) && Busy(u, q) && Separate(u, p, q);
    }
    forall q | q in t.homes ensures Home(t, q) { assert Home(u, q); }
  }

  /** The address of word i of page q enters the table in word i of whatever q shows. */
  lemma TableStored(vm: Vm, q: nat, i: nat, pde: nat, p: nat, f: nat)
    requires Base(vm) && q < RESERVED && i < 1024 && pde == Addr(q) + i * 4 && p in vm.free && f !in vm.used
    ensures var u, t := Entered(vm, p, f), TableMade(vm, pde, p, f);
            t.mem == match Shown(u, q)
                     case None => ZeroFrame(u.mem, f)
                     case Some(g) => ZeroFrame(u.mem, f)[Loc(g, i) := f * PAGE + UFLAGS]
  {
    var u := Entered(vm, p, f);
    Cleared(vm, p, f);
    PageWord(u.(mem := ZeroFrame(u.mem, f)), q, i, pde, f * PAGE + UFLAGS);
  }

  lemma TableReads(vm: Vm, q: nat, i: nat, pde: nat, p: nat, f: nat, l: Loc)
    requires Base(vm) && q < RESERVED && i < 1024 && pde == Addr(q) + i * 4 && p in vm.free && f !in vm.used && l.frame != f
    ensures var u, t := Entered(vm, p, f), TableMade(vm, pde, p, f);
            Read(t.mem, l) == if Shown(u, q) == Some(l.frame) && l.index == i then f * PAGE + UFLAGS else Read(u.mem, l)
  {
    TableStored(vm, q, i, pde, p, f);
    ZeroReads(Entered(vm, p, f).mem, f);
  }

  lemma TableWord(vm: Vm, q: nat, i: nat, pde: nat, p: nat, f: nat)
    requires Base(vm) && q < RESERVED && i < 1024 && pde == Addr(q) + i * 4 && p in vm.free && f !in vm.used
    ensures var u, t := Entered(vm, p, f), TableMade(vm, pde, p, f);
            OneWord(u, t, f, i, if Shown(u, q) == None then f else Shown(u, q).value)
  {
    var t := TableMade(vm, pde, p, f);
    forall l: Loc {:trigger Read(t.mem, l)} | l.frame != f
      ensures Read(t.mem, l) == Read(Entered(vm, p, f).mem, l) || (Shown(Entered(vm, p, f), q) == Some(l.frame) && l.index == i && Read(t.mem, l) == f * PAGE + UFLAGS)
    {
      TableReads(vm, q, i, pde, p, f, l);
    }
  }

  lemma TableMadeKeeps(vm: Vm, q: nat, i: nat, pde: nat, p: nat, f: nat)
    requires Base(vm) && q < RESERVED && i < 768 && pde == Addr(q) + i * 4 && p in vm.free && f !in vm.used
    ensures var t := TableMade(vm, pde, p, f);
            Base(t) && (Inv(vm) && q in vm.homes ==> Inv(t))
  {
    var u, t := Entered(vm, p, f), TableMade(vm, pde, p, f);
    EnterKeeps(vm, p, f);
    TableWord(vm, q, i, pde, p, f);
    var g := if Shown(u, q) == None then f else Shown(u, q).value;
    TableKeepsBase(vm, u, t, f, i, g);
    if Inv(vm) && q in vm.homes {
      ShownAfter(vm, p, f, q);
      assert Home(vm, q) && Mapped(vm, q);
      SlotsDiffer(vm, p, q);
      TableKeepsInv(vm, u, t, f, i, g);
    }
  }

  lemma TableUnfolded(vm: Vm, pde: nat, p: nat, answer: Option<nat>)
    requires Base(vm) && p in vm.free && Fresh(vm, answer)
    ensures p < POOL
    ensures CreateUserTable(vm, pde, p, answer) == if answer == None then (vm, false) else (TableMade(vm, pde, p, answer.value), true)
  {
    KernAllocAtKeeps(vm, p, answer);
    AddrFields(p);
  }

  /** create_user_page_table with the address of word i of page q, in the user half: whatever
      q shows, the kernel half stays shared; when q is the page of a directory, kernel pages
      stay apart. */
  lemma CreateTableKeeps(vm: Vm, q: nat, i: nat, pde: nat, p: nat, answer: Option<nat>)
    requires Base(vm) && q < RESERVED && i < 768 && pde == Addr(q) + i * 4 && p in vm.free && Fresh(vm, answer)
    ensures p < POOL
    ensures var r := CreateUserTable(vm, pde, p, answer);
            if answer == None then r == (vm, false)
            else var t := TableMade(vm, pde, p, answer.value);
                 r == (t, true) && Base(t) && (Inv(vm) && q in vm.homes ==> Inv(t))
  {
    TableUnfolded(vm, pde, p, answer);
    if answer.Some? { TableMadeKeeps(vm, q, i, pde, p, answer.value); }
  }

  /** A user allocation, case by case: the check reads what page q shows, a missing table is
      made, and the page is entered through the active directory. */
  lemma UserAllocCases(vm: Vm, q: nat, v: nat, p: Option<nat>, table: Option<nat>, page: Option<nat>)
    requires Base(vm) && q < RESERVED && v < KERN && (p.Some? ==> p.value in vm.free && p.value < POOL) && Fresh(vm, table)
    ensures var o, i, seen := UserAlloc(vm, q, v, true, p, table, page), DirIndex(v), Shown(vm, q);
            && (seen == None ==> o == Faults(vm))
            && (seen.Some? && Present(Read(vm.mem, Loc(seen.value, i))) ==> o == EnterUserPage(vm, v, page))
            && (seen.Some? && !Present(Read(vm.mem, Loc(seen.value, i))) ==>
                  if p == None || table == None then o == Returns(ReleaseBit(vm, v), ERRO)
                  else o == EnterUserPage(TableMade(vm, PdeAt(q, v), p.value, table.value), v, page))
  {
    var i, seen := DirIndex(v), Shown(vm, q);
    UserDirIndex(v);
    PageWord(vm, q, i, PdeAt(q, v), 0);
    if p.Some? && seen.Some? && !Present(Read(vm.mem, Loc(seen.value, i))) {
      CreateTableKeeps(vm, q, i, PdeAt(q, v), p.value, table);
      AfterTable(vm, q, v, p, table, page, CreateUserTable(vm, PdeAt(q, v), p.value, table));
    }
  }

  lemma AfterTable(vm: Vm, q: nat, v: nat, p: Option<nat>, table: Option<nat>, page: Option<nat>, r: (Vm, bool))
    requires v < WORD && p.Some? && p.value < POOL && r == CreateUserTable(vm, PdeAt(q, v), p.value, table)
    requires var seen := Load(vm.mem, vm.dir, PdeAt(q, v)); seen.Some? && !Present(seen.value)
    ensures UserAlloc(vm, q, v, true, p, table, page) == if r.1 then EnterUserPage(r.0, v, page) else Returns(ReleaseBit(r.0, v), ERRO)
  {}

  /** Allocating a user page in the running process, with or without a new page table, keeps
      the kernel half shared whatever page q shows, and kernel pages apart when q is the page
      of a directory; also when it stops at a page fault. */
  lemma UserAllocKeeps(vm: Vm, q: nat, v: nat, granted: bool, p: Option<nat>, table: Option<nat>, page: Option<nat>)
    requires Base(vm) && vm.dir in vm.dirs && q < RESERVED && v < 0xFFC0_0000 && (granted ==> v < KERN)
    requires p.Some? ==> p.value in vm.free && p.value < POOL
    requires Fresh(vm, table) && Fresh(vm, page) && (table.Some? && page.Some? ==> table.value != page.value)
    ensures var o := UserAlloc(vm, q, v, granted, p, table, page); Base(o.vm) && (Inv(vm) && q in vm.homes ==> Inv(o.vm))
  {
    ReleaseBitKeepsIff(vm, v);
    if granted {
      UserAllocCases(vm, q, v, p, table, page);
      EnterUserKeeps(vm, v, page);
      if p.Some? && table.Some? { EntryBehindTable(vm, q, v, p.value, table.value, page); }
    }
  }

  lemma EntryBehindTable(vm: Vm, q: nat, v: nat, p: nat, f: nat, page: Option<nat>)
    requires Base(vm) && vm.dir in vm.dirs && q < RESERVED && v < KERN && p in vm.free
    requires Fresh(vm, Some(f)) && Fresh(vm, page) && (page.Some? ==> page.value != f)
    ensures var t := TableMade(vm, PdeAt(q, v), p, f);
            var o := EnterUserPage(t, v, page);
            && Base(t) && t.dir == vm.dir && t.dir in t.dirs && Fresh(t, page)
            && Base(o.vm) && (Inv(vm) && q in vm.homes ==> Inv(o.vm))
  {
    UserDirIndex(v);
    TableMadeKeeps(vm, q, DirIndex(v), PdeAt(q, v), p, f);
    EnterUserKeeps(TableMade(vm, PdeAt(q, v), p, f), v, page);
  }
}
