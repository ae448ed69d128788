/** What address spaces are for: in every run, a user page is a frame of its own, which no other
    process, no kernel page and no table shares, and user mode reaches nothing of the kernel. */
module UserSpace {
  import opened Machine
  import opened Wrappers
  import opened Paging
  import opened Vm
  import opened VmInv
  import opened VmRuns

  // ----- the invariant

  /** Word l, if present, points at a frame. */
  function Points(vm: Vm, l: Loc): Option<nat> {
    var e := Read(vm.mem, l); if Present(e) then Some(FrameOf(e)) else None
  }

  predicate Apart(a: Option<nat>, b: Option<nat>) { a.Some? && b.Some? ==> a.value != b.value }

  predicate TabsDiffer(vm: Vm, l: Loc, n: Loc) { Apart(Points(vm, l), Points(vm, n)) }

  predicate UserHalf(vm: Vm, l: Loc) { l.frame in vm.dirs && l.index < 768 }

  predicate UserEntry(vm: Vm, l: Loc) { l.frame in vm.utabs && l.index < 1024 }

  /** No two slots of the user halves share a page table. */
  ghost predicate TabsPrivate(vm: Vm) {
    forall l, n {:trigger TabsDiffer(vm, l, n)} :: UserHalf(vm, l) && UserHalf(vm, n) && l != n ==> TabsDiffer(vm, l, n)
  }

  /** A user page is a frame in use that is no directory, no user page table and no kernel page table. */
  ghost predicate PlainFrame(vm: Vm, f: nat) {
    f in vm.used && f !in AllDirs(vm) && f !in vm.utabs && forall i :: 768 <= i < 1023 ==> KTab(vm, i) != f
  }

  ghost predicate EntryOk(vm: Vm, l: Loc) { Points(vm, l).Some? ==> PlainFrame(vm, Points(vm, l).value) }

  predicate PagesDiffer(vm: Vm, l: Loc, n: Loc) { Apart(Points(vm, l), Points(vm, n)) }

  predicate NotKernel(vm: Vm, l: Loc, p: nat) { Points(vm, l) != Some(FrameOf(Read(vm.mem, Slot(vm, p)))) }

  ghost predicate PagesPrivate(vm: Vm) {
    && (forall l: Loc :: UserEntry(vm, l) ==> EntryOk(vm, l))
    && (forall l, n {:trigger PagesDiffer(vm, l, n)} :: UserEntry(vm, l) && UserEntry(vm, n) && l != n ==> PagesDiffer(vm, l, n))
    && (forall l, p {:trigger NotKernel(vm, l, p)} :: UserEntry(vm, l) && Busy(vm, p) ==> NotKernel(vm, l, p))
  }

  /** A present entry lets user mode in, for writing too. */
  predicate EntryOpen(vm: Vm, l: Loc) {
    var e := Read(vm.mem, l); Present(e) ==> Writable(e) && UserMode(e)
  }

  ghost predicate EntriesOpen(vm: Vm) { forall l: Loc :: UserHalf(vm, l) || UserEntry(vm, l) ==> EntryOpen(vm, l) }

  ghost predicate Private(vm: Vm) { Inv(vm) && TabsPrivate(vm) && PagesPrivate(vm) && EntriesOpen(vm) }

  // ----- steps of the kernel

  /** The user halves and the user page tables read as before. */
  ghost predicate UserSame(vm: Vm, u: Vm) {
    forall l: Loc {:trigger Read(u.mem, l)} :: l.frame in vm.dirs || l.frame in vm.utabs ==> Read(u.mem, l) == Read(vm.mem, l)
  }

  /** Kernel pages of u are those of vm, or show frames that were not in use. */
  ghost predicate FreshPages(vm: Vm, u: Vm) {
    forall p :: Busy(u, p) ==>
      (Busy(vm, p) && Read(u.mem, Slot(u, p)) == Read(vm.mem, Slot(vm, p))) || FrameOf(Read(u.mem, Slot(u, p))) !in vm.used
  }

  ghost predicate SameKernelTabs(vm: Vm, u: Vm) { forall i :: 768 <= i < 1023 ==> KTab(u, i) == KTab(vm, i) }

  lemma PrivateFrame(vm: Vm, u: Vm)
    requires Private(vm) && Inv(u) && UserSame(vm, u) && FreshPages(vm, u) && SameKernelTabs(vm, u)
    requires u.dirs == vm.dirs && u.utabs == vm.utabs && u.kdir == vm.kdir && vm.used <= u.used
    ensures Private(u)
  {
    forall l, n | UserHalf(u, l) && UserHalf(u, n) && l != n ensures TabsDiffer(u, l, n) { assert TabsDiffer(vm, l, n); }
    forall l | UserHalf(u, l) || UserEntry(u, l) ensures EntryOpen(u, l) { assert EntryOpen(vm, l); }
    forall l | UserEntry(u, l) ensures EntryOk(u, l) { assert EntryOk(vm, l); }
    forall l, n | UserEntry(u, l) && UserEntry(u, n) && l != n ensures PagesDiffer(u, l, n) { assert PagesDiffer(vm, l, n); }
    forall l, p | UserEntry(u, l) && Busy(u, p) ensures NotKernel(u, l, p) {
      assert EntryOk(vm, l);
      if Busy(vm, p) { assert NotKernel(vm, l, p); }
    }
  }

  lemma EnteredPrivate(vm: Vm, p: nat, f: nat)
    requires Private(vm) && p in vm.free && f !in vm.used
    ensures Private(Entered(vm, p, f)) && UserSame(vm, Entered(vm, p, f))
  {
    var u := Entered(vm, p, f);
    EnterKeeps(vm, p, f);
    EntryFields(f);
    SlotWrite(vm, u, p, f * PAGE + KFLAGS);
    assert TabOk(vm, 768 + p / 1024);
    forall q | Busy(u, q) ensures (Busy(vm, q) && Read(u.mem, Slot(u, q)) == Read(vm.mem, Slot(vm, q))) || FrameOf(Read(u.mem, Slot(u, q))) !in vm.used {
      EnteredOne(vm, p, f, q);
    }
    PrivateFrame(vm, u);
  }

  lemma ReleasedPrivate(vm: Vm, p: nat)
    requires Private(vm) && p < RESERVED
    ensures Private(Released(vm, p)) && UserSame(vm, Released(vm, p))
  {
    var r, e := Released(vm, p), Read(vm.mem, Slot(vm, p));
    ReleaseInPool(vm, p);
    ReleasedInv(vm, p);
    SlotWrite(vm, r, p, e - e % 2);
    assert TabOk(vm, 768 + p / 1024);
    forall q | Busy(r, q) ensures Busy(vm, q) && Read(r.mem, Slot(r, q)) == Read(vm.mem, Slot(vm, q)) {
      SlotsDiffer(vm, p, q);
      SlotSame(vm, r, q);
    }
    PrivateFrame(vm, r);
  }

  /** Nothing changes in memory, and no more pages are busy. */
  lemma SameMemPrivate(vm: Vm, u: Vm)
    requires Private(vm) && Inv(u) && u.mem == vm.mem && u.kdir == vm.kdir && u.dirs == vm.dirs && u.utabs == vm.utabs
    requires vm.used <= u.used && vm.free <= u.free
    ensures Private(u) && UserSame(vm, u)
  {
    PrivateFrame(vm, u);
  }

  // ----- a new directory

  /** The user half of a new directory is empty. */
  lemma NewDirEmpty(vm: Vm, p: nat, f: nat)
    requires Base(vm) && p in vm.free && Fresh(vm, Some(f))
    ensures forall i :: 0 <= i < 768 ==> Points(DirMade(vm, p, f), Loc(f, i)) == None
    ensures OnlyFrame(Entered(vm, p, f).mem, DirMade(vm, p, f).mem, f)
  {
    EnterKeeps(vm, p, f);
    FreshApart(vm, f);
    NewDirReads(Entered(vm, p, f).mem, f, vm.dir);
  }

  lemma DirMadePrivate(vm: Vm, p: nat, f: nat)
    requires Private(vm) && p in vm.free && Fresh(vm, Some(f))
    ensures Private(DirMade(vm, p, f)) && UserSame(vm, DirMade(vm, p, f))
  {
    var u, r := Entered(vm, p, f), DirMade(vm, p, f);
    EnteredPrivate(vm, p, f);
    EnterKeeps(vm, p, f);
    DirMadeKeeps(vm, p, f);
    NewDirEmpty(vm, p, f);
    FreshApart(vm, f);
    DirAdded(vm, u, r, f);
  }

  lemma DirAdded(vm: Vm, u: Vm, r: Vm, f: nat)
    requires Private(vm) && Private(u) && UserSame(vm, u) && Inv(r) && f !in vm.used && SameRoles(vm, u, f)
    requires r == u.(mem := r.mem, dirs := u.dirs + {f}, homes := r.homes) && OnlyFrame(u.mem, r.mem, f)
    requires forall i :: 0 <= i < 768 ==> Points(r, Loc(f, i)) == None
    ensures Private(r)
  {
    FreshApart(vm, f);
    forall i | 768 <= i < 1023 ensures KTab(r, i) == KTab(u, i) == KTab(vm, i) {}
    forall l, n | UserHalf(r, l) && UserHalf(r, n) && l != n ensures TabsDiffer(r, l, n) {
      assert l == Loc(l.frame, l.index) && n == Loc(n.frame, n.index);
      if l.frame != f && n.frame != f { assert TabsDiffer(u, l, n); }
    }
    forall l | UserHalf(r, l) || UserEntry(r, l) ensures EntryOpen(r, l) {
      assert l == Loc(l.frame, l.index);
      if l.frame != f { assert EntryOpen(u, l); } else { assert Points(r, Loc(f, l.index)) == None; }
    }
    forall l | UserEntry(r, l) ensures EntryOk(r, l) {
      assert Points(r, l) == Points(u, l) == Points(vm, l);
      assert EntryOk(u, l) && EntryOk(vm, l);
    }
    forall l, n | UserEntry(r, l) && UserEntry(r, n) && l != n ensures PagesDiffer(r, l, n) { assert PagesDiffer(u, l, n); }
    forall l, p | UserEntry(r, l) && Busy(r, p) ensures NotKernel(r, l, p) {
      assert NotKernel(u, l, p) && TabOk(u, 768 + p / 1024);
      assert Slot(r, p) == Slot(u, p) && Slot(u, p).frame != f;
    }
  }

  // ----- user pages

  /** A new table, cleared in a fresh frame, behind word i of directory g. */
  lemma TableMadePrivate(vm: Vm, q: nat, i: nat, pde: nat, p: nat, f: nat)
    requires Private(vm) && q in vm.homes && q < RESERVED && i < 768 && pde == Addr(q) + i * 4 && p in vm.free && f !in vm.used
    ensures Private(TableMade(vm, pde, p, f))
  {
    var u, t, g := Entered(vm, p, f), TableMade(vm, pde, p, f), vm.homes[q];
    EnteredPrivate(vm, p, f);
    EnterKeeps(vm, p, f);
    TableMadeKeeps(vm, q, i, pde, p, f);
    HomeShown(vm, q, p, f);
    FreshApart(vm, f);
    forall l: Loc | l.frame != f ensures Read(t.mem, l) == if l == Loc(g, i) then f * PAGE + UFLAGS else Read(u.mem, l) {
      TableReads(vm, q, i, pde, p, f, l);
    }
    TableEmpty(vm, q, i, pde, p, f);
    TableAdded(vm, u, t, f, Loc(g, i));
  }

  /** The page of a directory still shows it behind another allocation. */
  lemma HomeShown(vm: Vm, q: nat, p: nat, f: nat)
    requires Inv(vm) && q in vm.homes && q < RESERVED && p in vm.free && f !in vm.used
    ensures Shown(Entered(vm, p, f), q) == Shown(vm, q) == Some(vm.homes[q]) && vm.homes[q] in vm.dirs
  {
    assert Home(vm, q) && Mapped(vm, q);
    EnterKeeps(vm, p, f);
    ShownAfter(vm, p, f, q);
    SlotsDiffer(vm, p, q);
  }

  lemma TableEmpty(vm: Vm, q: nat, i: nat, pde: nat, p: nat, f: nat)
    requires Inv(vm) && q in vm.homes && q < RESERVED && i < 768 && pde == Addr(q) + i * 4 && p in vm.free && f !in vm.used
    ensures forall k :: 0 <= k < 1024 ==> Points(TableMade(vm, pde, p, f), Loc(f, k)) == None
  {
    TableStored(vm, q, i, pde, p, f);
    HomeShown(vm, q, p, f);
    FreshApart(vm, f);
    ZeroReads(Entered(vm, p, f).mem, f);
  }

  lemma TableAdded(vm: Vm, u: Vm, t: Vm, f: nat, w: Loc)
    requires Private(vm) && Private(u) && UserSame(vm, u) && Inv(t) && f !in vm.used && SameRoles(vm, u, f)
    requires t == u.(mem := t.mem, utabs := u.utabs + {f}) && w.frame in vm.dirs && w.index < 768
    requires forall l: Loc {:trigger Read(t.mem, l)} :: l.frame != f ==> Read(t.mem, l) == if l == w then f * PAGE + UFLAGS else Read(u.mem, l)
    requires forall k :: 0 <= k < 1024 ==> Points(t, Loc(f, k)) == None
    ensures Private(t)
  {
    FreshApart(vm, f);
    EntryFields(f);
    assert f !in vm.dirs;
    forall i | 768 <= i < 1023 ensures KTab(t, i) == KTab(u, i) == KTab(vm, i) {}
    forall l, n | UserHalf(t, l) && UserHalf(t, n) && l != n ensures TabsDiffer(t, l, n) {
      assert TabsDiffer(u, l, n);
      OldTable(vm, f, l);
      OldTable(vm, f, n);
    }
    forall l | UserHalf(t, l) || UserEntry(t, l) ensures EntryOpen(t, l) {
      assert l == Loc(l.frame, l.index);
      if l.frame != f && l != w { assert EntryOpen(u, l); }
      EntryBits(f);
    }
    forall l | UserEntry(t, l) ensures EntryOk(t, l) { if l.frame != f { assert EntryOk(u, l) && EntryOk(vm, l); } }
    forall l, n | UserEntry(t, l) && UserEntry(t, n) && l != n ensures PagesDiffer(t, l, n) {
      if l.frame != f && n.frame != f { assert PagesDiffer(u, l, n); }
    }
    forall l, p | UserEntry(t, l) && Busy(t, p) ensures NotKernel(t, l, p) {
      assert TabOk(u, 768 + p / 1024);
      if l.frame != f { assert NotKernel(u, l, p); }
    }
  }

  /** A table in place is not a fresh frame. */
  lemma OldTable(vm: Vm, f: nat, l: Loc)
    requires Tables(vm) && f !in vm.used
    ensures UserHalf(vm, l) ==> Points(vm, l) != Some(f)
  {
    if UserHalf(vm, l) { assert UserHalfOk(vm, l.frame); }
  }

  /** A frame not in use becomes the page behind word w of a user page table. */
  lemma PageAdded(vm: Vm, r: Vm, f: nat, w: Loc)
    requires Private(vm) && Inv(r) && f !in vm.used && f in r.used && UserEntry(vm, w)
    requires r == vm.(mem := vm.mem[w := f * PAGE + UFLAGS], used := r.used) && vm.used <= r.used
    ensures Private(r)
  {
    FreshApart(vm, f);
    EntryFields(f);
    forall l: Loc ensures Points(r, l) == if l == w then Some(f) else Points(vm, l) {}
    forall i | 768 <= i < 1023 ensures KTab(r, i) == KTab(vm, i) {}
    forall l, n | UserHalf(r, l) && UserHalf(r, n) && l != n ensures TabsDiffer(r, l, n) { assert TabsDiffer(vm, l, n); }
    forall l | UserHalf(r, l) || UserEntry(r, l) ensures EntryOpen(r, l) {
      EntryBits(f);
      if l != w { assert EntryOpen(vm, l); }
    }
    forall l | UserEntry(r, l) ensures EntryOk(r, l) { assert EntryOk(vm, l); }
    forall l, n | UserEntry(r, l) && UserEntry(r, n) && l != n ensures PagesDiffer(r, l, n) {
      assert PagesDiffer(vm, l, n) && EntryOk(vm, l) && EntryOk(vm, n);
    }
    forall l, p | UserEntry(r, l) && Busy(r, p) ensures NotKernel(r, l, p) {
      assert NotKernel(vm, l, p) && TabOk(vm, 768 + p / 1024) && Mapped(vm, p);
    }
  }

  lemma EnteredUserPrivate(vm: Vm, v: nat, answer: Option<nat>)
    requires Private(vm) && vm.dir in vm.dirs && v < KERN && Fresh(vm, answer)
    ensures Private(EnterUserPage(vm, v, answer).vm)
  {
    EnterUserKeeps(vm, v, answer);
    if answer.Some? {
      var o, t := EnterUserPage(vm, v, answer), FrameOf(Pde(vm.mem, vm.dir, v));
      if Present(Pde(vm.mem, vm.dir, v)) {
        UserDirIndex(v);
        assert UserHalfOk(vm, vm.dir) && DirOk(vm, vm.dir);
        WalkOfGetPte(vm.mem, vm.dir, v);
        PageAdded(vm, o.vm, answer.value, Loc(t, TabIndex(v)));
      } else {
        SameMemPrivate(vm, o.vm);
      }
    }
  }

  lemma ReleaseBitPrivate(vm: Vm, v: nat)
    requires Private(vm) && v < 0xFFC0_0000
    ensures Private(ReleaseBit(vm, v))
  {
    ReleaseBitKeepsIff(vm, v);
    SameMemPrivate(vm, ReleaseBit(vm, v));
  }

  lemma UserAllocPrivate(vm: Vm, q: nat, v: nat, granted: bool, p: Option<nat>, table: Option<nat>, page: Option<nat>)
    requires Private(vm) && vm.dir in vm.dirs && q in vm.homes && q < RESERVED && v < 0xFFC0_0000 && (granted ==> v < KERN)
    requires p.Some? ==> p.value in vm.free && p.value < POOL
    requires Fresh(vm, table) && Fresh(vm, page) && (table.Some? && page.Some? ==> table.value != page.value)
    ensures Private(UserAlloc(vm, q, v, granted, p, table, page).vm)
  {
    ReleaseBitPrivate(vm, v);
    if granted {
      UserDirIndex(v);
      UserAllocCases(vm, q, v, p, table, page);
      EnteredUserPrivate(vm, v, page);
      if p.Some? && table.Some? {
        EntryBehindTable(vm, q, v, p.value, table.value, page);
        TableMadePrivate(vm, q, DirIndex(v), PdeAt(q, v), p.value, table.value);
        EnteredUserPrivate(TableMade(vm, PdeAt(q, v), p.value, table.value), v, page);
      }
    }
  }

  // ----- every run

  lemma ApplyKeepsPrivate(vm: Vm, op: Op)
    requires Private(vm) && Legal(vm, op)
    ensures Private(Apply(vm, op))
  {
    ApplyKeepsIff(vm, op);
    match op
    case Alloc(p, answer) =>
      KernAllocAtKeeps(vm, p, answer);
      if answer.Some? { EnteredPrivate(vm, p, answer.value); }
    case AllocOne(target, answer) =>
      KernAllocOneKeeps(vm, target, answer);
      if PageNo(target) in vm.free && answer.Some? { EnteredPrivate(vm, PageNo(target), answer.value); }
    case Release(target) =>
      if target >= KERN {
        TargetFields(target);
        ReleaseInPool(vm, PageNo(target));
        ReleasedPrivate(vm, PageNo(target));
      }
    case NewDir(p, answer) =>
      CreatePdtKeeps(vm, p, answer);
      if answer.Some? { DirMadePrivate(vm, p, answer.value); }
    case Switch(q) =>
      V2POfPage(vm, q);
      SameMemPrivate(vm, Apply(vm, op));
    case SwitchKernel => SameMemPrivate(vm, Apply(vm, op));
    case UserPage(q, v, granted, table, tableFrame, page) => UserAllocPrivate(vm, q, v, granted, table, tableFrame, page);
  }

  lemma {:induction false} RunPrivate(mem: Mem, kdir: nat, used: set<nat>, pages: nat, trace: seq<Vm>, ops: seq<Op>, i: nat)
    requires Booted(mem, kdir, used, pages) && TabsApart(Init(mem, kdir, used, pages))
    requires IsRun(trace, ops) && trace[0] == Init(mem, kdir, used, pages) && i < |trace|
    ensures Private(trace[i])
  {
    if i == 0 {
      InitInv(mem, kdir, used, pages);
    } else {
      RunPrivate(mem, kdir, used, pages, trace, ops, i - 1);
      assert Follows(trace[i - 1], ops[i - 1], trace[i]);
      ApplyKeepsPrivate(trace[i - 1], ops[i - 1]);
    }
  }

  // ----- isolation

  /** The table entry that maps v in directory d, when v has a table. */
  function EntryAt(vm: Vm, d: nat, v: nat): Loc { Loc(FrameOf(Pde(vm.mem, d, v)), TabIndex(v)) }

  lemma MappedEntry(vm: Vm, d: nat, v: nat)
    requires Private(vm) && d in vm.dirs && v < KERN && Walk(vm.mem, d, v).Phys?
    ensures UserHalf(vm, Loc(d, DirIndex(v))) && Points(vm, Loc(d, DirIndex(v))) == Some(EntryAt(vm, d, v).frame)
    ensures UserEntry(vm, EntryAt(vm, d, v)) && Points(vm, EntryAt(vm, d, v)) == Some(Walk(vm.mem, d, v).frame)
  {
    UserDirIndex(v);
    assert UserHalfOk(vm, d);
  }

  lemma SamePage(v: nat, w: nat)
    requires DirIndex(v) == DirIndex(w) && TabIndex(v) == TabIndex(w)
    ensures v / PAGE == w / PAGE
  {
    PageFields(v / PAGE, v % PAGE);
    PageFields(w / PAGE, w % PAGE);
  }

  /** Two user pages, of one process or of two, are never the same frame. */
  lemma PagesApart(vm: Vm, d: nat, v: nat, e: nat, w: nat)
    requires Private(vm) && d in vm.dirs && e in vm.dirs && v < KERN && w < KERN
    requires d != e || v / PAGE != w / PAGE
    requires Walk(vm.mem, d, v).Phys? && Walk(vm.mem, e, w).Phys?
    ensures Walk(vm.mem, d, v).frame != Walk(vm.mem, e, w).frame
  {
    MappedEntry(vm, d, v);
    MappedEntry(vm, e, w);
    var l, n := EntryAt(vm, d, v), EntryAt(vm, e, w);
    if d == e && DirIndex(v) == DirIndex(w) {
      if TabIndex(v) == TabIndex(w) { SamePage(v, w); }
    } else {
      assert TabsDiffer(vm, Loc(d, DirIndex(v)), Loc(e, DirIndex(w)));
    }
    assert PagesDiffer(vm, l, n);
  }

  /** A user page is no kernel page, no directory, and no page table, and user mode may read
      and write it. */
  lemma UserPageApart(vm: Vm, d: nat, v: nat, p: nat)
    requires Private(vm) && d in vm.dirs && v < KERN && Walk(vm.mem, d, v).Phys?
    ensures PlainFrame(vm, Walk(vm.mem, d, v).frame) && UserMay(vm.mem, d, v)
    ensures Busy(vm, p) ==> Walk(vm.mem, vm.dir, Addr(p)).Phys? && Walk(vm.mem, vm.dir, Addr(p)).frame != Walk(vm.mem, d, v).frame
  {
    MappedEntry(vm, d, v);
    var l := EntryAt(vm, d, v);
    assert EntryOk(vm, l) && EntryOpen(vm, l) && EntryOpen(vm, Loc(d, DirIndex(v)));
    if Busy(vm, p) {
      assert NotKernel(vm, l, p) && Mapped(vm, p);
      WalkOfPage(vm, p);
    }
  }

  /** Process isolation: in every run from start-up with a table of its own for every kernel
      slot, a mapped user page is a frame of its own: no other user page of any process, no
      busy kernel page, no directory and no page table is on that frame. */
  lemma ProcessIsolation(mem: Mem, kdir: nat, used: set<nat>, pages: nat, trace: seq<Vm>, ops: seq<Op>, i: nat, d: nat, v: nat, e: nat, w: nat, p: nat)
    requires Booted(mem, kdir, used, pages) && TabsApart(Init(mem, kdir, used, pages))
    requires IsRun(trace, ops) && trace[0] == Init(mem, kdir, used, pages) && i < |trace|
    requires d in trace[i].dirs && v < KERN && Walk(trace[i].mem, d, v).Phys?
    ensures var vm := trace[i]; var f := Walk(vm.mem, d, v).frame;
            && PlainFrame(vm, f) && UserMay(vm.mem, d, v)
            && (Busy(vm, p) ==> Walk(vm.mem, vm.dir, Addr(p)).Phys? && Walk(vm.mem, vm.dir, Addr(p)).frame != f)
            && (e in vm.dirs && w < KERN && (d != e || v / PAGE != w / PAGE) && Walk(vm.mem, e, w).Phys? ==> Walk(vm.mem, e, w).frame != f)
  {
    RunPrivate(mem, kdir, used, pages, trace, ops, i);
    var vm := trace[i];
    UserPageApart(vm, d, v, p);
    if e in vm.dirs && w < KERN && (d != e || v / PAGE != w / PAGE) && Walk(vm.mem, e, w).Phys? { PagesApart(vm, d, v, e, w); }
  }

  // ----- what a step leaves alone

  lemma SameWalk(vm: Vm, u: Vm, d: nat, w: nat)
    requires Tables(vm) && UserSame(vm, u) && d in vm.dirs && w < KERN
    ensures Walk(u.mem, d, w) == Walk(vm.mem, d, w)
  {
    UserDirIndex(w);
    assert UserHalfOk(vm, d);
  }

  /** A new table maps nothing yet. */
  lemma TableWalk(vm: Vm, q: nat, i: nat, pde: nat, p: nat, f: nat, d: nat, w: nat)
    requires Private(vm) && q in vm.homes && q < RESERVED && i < 768 && pde == Addr(q) + i * 4 && p in vm.free && f !in vm.used
    requires !Present(Read(vm.mem, Loc(vm.homes[q], i))) && d in vm.dirs && w < KERN
    ensures Walk(TableMade(vm, pde, p, f).mem, d, w) == Walk(vm.mem, d, w)
  {
    var u, t, l, n := Entered(vm, p, f), TableMade(vm, pde, p, f), Loc(d, DirIndex(w)), EntryAt(vm, d, w);
    UserDirIndex(w);
    EnteredPrivate(vm, p, f);
    HomeShown(vm, q, p, f);
    FreshApart(vm, f);
    EntryFields(f);
    TableReads(vm, q, i, pde, p, f, l);
    assert UserHalfOk(vm, d);
    if l == Loc(vm.homes[q], i) {
      TableEmpty(vm, q, i, pde, p, f);
      assert Points(t, Loc(f, TabIndex(w))) == None;
    } else if Present(Read(vm.mem, l)) {
      TableReads(vm, q, i, pde, p, f, n);
    }
  }

  /** Entering a page changes the translation of that page alone. */
  lemma EntryWalk(vm: Vm, v: nat, answer: Option<nat>, d: nat, w: nat)
    requires Private(vm) && vm.dir in vm.dirs && v < KERN && Fresh(vm, answer) && d in vm.dirs && w < KERN
    requires d != vm.dir || w / PAGE != v / PAGE
    ensures Walk(EnterUserPage(vm, v, answer).vm.mem, d, w) == Walk(vm.mem, d, w)
  {
    if answer.Some? && Present(Pde(vm.mem, vm.dir, v)) {
      var l, n := EntryAt(vm, vm.dir, v), EntryAt(vm, d, w);
      UserDirIndex(v);
      UserDirIndex(w);
      assert UserHalfOk(vm, vm.dir) && UserHalfOk(vm, d) && DirOk(vm, vm.dir);
      WalkOfGetPte(vm.mem, vm.dir, v);
      assert EnterUserPage(vm, v, answer).vm.mem == vm.mem[l := answer.value * PAGE + UFLAGS];
      if d == vm.dir && DirIndex(w) == DirIndex(v) {
        if TabIndex(w) == TabIndex(v) { SamePage(v, w); }
      } else {
        assert TabsDiffer(vm, Loc(vm.dir, DirIndex(v)), Loc(d, DirIndex(w)));
      }
    }
  }

  lemma UserAllocWalk(vm: Vm, q: nat, v: nat, granted: bool, p: Option<nat>, table: Option<nat>, page: Option<nat>, d: nat, w: nat)
    requires Private(vm) && vm.dir in vm.dirs && q in vm.homes && q < RESERVED && v < 0xFFC0_0000 && (granted ==> v < KERN)
    requires p.Some? ==> p.value in vm.free && p.value < POOL
    requires Fresh(vm, table) && Fresh(vm, page) && (table.Some? && page.Some? ==> table.value != page.value)
    requires d in vm.dirs && w < KERN && (d != vm.dir || w / PAGE != v / PAGE)
    ensures Walk(UserAlloc(vm, q, v, granted, p, table, page).vm.mem, d, w) == Walk(vm.mem, d, w)
  {
    if granted {
      UserDirIndex(v);
      UserAllocCases(vm, q, v, p, table, page);
      EntryWalk(vm, v, page, d, w);
      assert Home(vm, q) && Mapped(vm, q);
      if p.Some? && table.Some? && !Present(Read(vm.mem, Loc(vm.homes[q], DirIndex(v)))) {
        EntryBehindTable(vm, q, v, p.value, table.value, page);
        TableMadePrivate(vm, q, DirIndex(v), PdeAt(q, v), p.value, table.value);
        TableWalk(vm, q, DirIndex(v), PdeAt(q, v), p.value, table.value, d, w);
        EntryWalk(TableMade(vm, PdeAt(q, v), p.value, table.value), v, page, d, w);
      }
    }
  }

  /** No step changes the translation of a user address, but for the page that a user page
      allocation enters in the running process. */
  lemma StepKeepsUserSpace(vm: Vm, op: Op, d: nat, w: nat)
    requires Private(vm) && Legal(vm, op) && d in vm.dirs && w < KERN
    requires op.UserPage? ==> d != vm.dir || w / PAGE != op.v / PAGE
    ensures Walk(Apply(vm, op).mem, d, w) == Walk(vm.mem, d, w)
  {
    match op
    case Alloc(p, answer) =>
      KernAllocAtKeeps(vm, p, answer);
      if answer.Some? {
        EnteredPrivate(vm, p, answer.value);
        SameWalk(vm, Apply(vm, op), d, w);
      }
    case AllocOne(target, answer) =>
      KernAllocOneKeeps(vm, target, answer);
      if PageNo(target) in vm.free && answer.Some? {
        EnteredPrivate(vm, PageNo(target), answer.value);
        SameWalk(vm, Apply(vm, op), d, w);
      }
    case Release(target) =>
      if target >= KERN {
        TargetFields(target);
        ReleaseInPool(vm, PageNo(target));
        ReleasedPrivate(vm, PageNo(target));
        SameWalk(vm, Apply(vm, op), d, w);
      }
    case NewDir(p, answer) =>
      CreatePdtKeeps(vm, p, answer);
      if answer.Some? {
        DirMadePrivate(vm, p, answer.value);
        SameWalk(vm, Apply(vm, op), d, w);
      }
    case Switch(q) => V2POfPage(vm, q);
    case SwitchKernel =>
    case UserPage(q, v, granted, table, tableFrame, page) => UserAllocWalk(vm, q, v, granted, table, tableFrame, page, d, w);
  }

  /** A new process starts with no user page at all. */
  lemma NewProcessIsEmpty(vm: Vm, p: nat, f: nat, v: nat)
    requires Base(vm) && p in vm.free && Fresh(vm, Some(f)) && v < KERN
    ensures p < POOL && Walk(CreatePdt(vm, p, Some(f)).0.mem, f, v) == Fault
  {
    CreatePdtKeeps(vm, p, Some(f));
    NewDirEmpty(vm, p, f);
    UserDirIndex(v);
    assert Points(DirMade(vm, p, f), Loc(f, DirIndex(v))) == None;
  }

  // ----- the kernel's half is closed to user mode

  /** Every entry of the kernel half of every directory is a supervisor entry. */
  ghost predicate Guarded(vm: Vm) { forall d, i :: d in AllDirs(vm) && 768 <= i < 1024 ==> !UserMode(Read(vm.mem, Loc(d, i))) }

  /** The kernel half of a directory never changes. */
  lemma KernelHalfFrozen(vm: Vm, op: Op, d: nat, i: nat)
    requires Base(vm) && Legal(vm, op) && d in AllDirs(vm) && 768 <= i < 1024
    ensures Read(Apply(vm, op).mem, Loc(d, i)) == Read(vm.mem, Loc(d, i))
  {
    match op
    case Alloc(p, answer) =>
      KernAllocAtKeeps(vm, p, answer);
      if answer.Some? { EnterKeeps(vm, p, answer.value); }
    case AllocOne(target, answer) =>
      KernAllocOneKeeps(vm, target, answer);
      if PageNo(target) in vm.free && answer.Some? { EnterKeeps(vm, PageNo(target), answer.value); }
    case Release(target) =>
      if target >= KERN {
        TargetFields(target);
        ReleaseInPool(vm, PageNo(target));
      }
    case NewDir(p, answer) => CreatePdtKeeps(vm, p, answer);
    case Switch(q) => V2POfPage(vm, q);
    case SwitchKernel =>
    case UserPage(q, v, granted, table, tableFrame, page) => UserAllocFrozen(vm, q, v, granted, table, tableFrame, page, Loc(d, i));
  }

  lemma EntryFrozen(vm: Vm, v: nat, answer: Option<nat>, l: Loc)
    requires Base(vm) && vm.dir in vm.dirs && v < KERN && l.frame in AllDirs(vm)
    ensures Read(EnterUserPage(vm, v, answer).vm.mem, l) == Read(vm.mem, l)
  {
    if answer.Some? && Present(Pde(vm.mem, vm.dir, v)) {
      UserDirIndex(v);
      assert UserHalfOk(vm, vm.dir) && DirOk(vm, vm.dir);
      WalkOfGetPte(vm.mem, vm.dir, v);
    }
  }

  lemma UserAllocFrozen(vm: Vm, q: nat, v: nat, granted: bool, p: Option<nat>, table: Option<nat>, page: Option<nat>, l: Loc)
    requires Base(vm) && vm.dir in vm.dirs && q < RESERVED && v < 0xFFC0_0000 && (granted ==> v < KERN)
    requires p.Some? ==> p.value in vm.free && p.value < POOL
    requires Fresh(vm, table) && Fresh(vm, page) && (table.Some? && page.Some? ==> table.value != page.value)
    requires l.frame in AllDirs(vm) && l.index >= 768
    ensures Read(UserAlloc(vm, q, v, granted, p, table, page).vm.mem, l) == Read(vm.mem, l)
  {
    if granted {
      UserDirIndex(v);
      UserAllocCases(vm, q, v, p, table, page);
      EntryFrozen(vm, v, page, l);
      if p.Some? && table.Some? {
        var f, t := table.value, TableMade(vm, PdeAt(q, v), p.value, table.value);
        EntryBehindTable(vm, q, v, p.value, f, page);
        FreshApart(vm, f);
        EnterKeeps(vm, p.value, f);
        TableReads(vm, q, DirIndex(v), PdeAt(q, v), p.value, f, l);
        EntryFrozen(t, v, page, l);
      }
    }
  }

  lemma ApplyKeepsGuarded(vm: Vm, op: Op)
    requires Base(vm) && Guarded(vm) && Legal(vm, op)
    ensures Guarded(Apply(vm, op))
  {
    var r := Apply(vm, op);
    ApplyKeepsIff(vm, op);
    forall d, i | d in AllDirs(r) && 768 <= i < 1024 ensures !UserMode(Read(r.mem, Loc(d, i))) {
      if d in AllDirs(vm) {
        KernelHalfFrozen(vm, op, d, i);
      } else {
        NewDirGuarded(vm, op, d, i);
      }
    }
  }

  lemma NewDirGuarded(vm: Vm, op: Op, d: nat, i: nat)
    requires Base(vm) && Guarded(vm) && Legal(vm, op) && d in AllDirs(Apply(vm, op)) && d !in AllDirs(vm) && 768 <= i < 1024
    ensures !UserMode(Read(Apply(vm, op).mem, Loc(d, i)))
  {
    match op
    case NewDir(p, answer) =>
      CreatePdtKeeps(vm, p, answer);
      var r := DirMade(vm, p, d);
      if i == 1023 {
        EntryBits(d);
      } else {
        assert DirOk(r, d);
        DirMadeKeeps(vm, p, d);
      }
    case UserPage(q, v, granted, table, tableFrame, page) => SameDirSet(vm, op);
    case _ =>
  }

  lemma SameDirSet(vm: Vm, op: Op)
    requires Allowed(vm, op) && op.UserPage?
    ensures AllDirs(Apply(vm, op)) == AllDirs(vm)
  {}

  lemma {:induction false} RunGuarded(trace: seq<Vm>, ops: seq<Op>, i: nat)
    requires IsRun(trace, ops) && Base(trace[0]) && Guarded(trace[0]) && i < |trace|
    requires Inv(trace[0]) || LoadsDirs(trace, ops, i)
    ensures Guarded(trace[i])
  {
    if i > 0 {
      RunGuarded(trace, ops, i - 1);
      RunKeeps(trace, ops, i - 1);
      assert Follows(trace[i - 1], ops[i - 1], trace[i]);
      ApplyKeepsGuarded(trace[i - 1], ops[i - 1]);
    }
  }

  /** When boot closes the kernel half to user mode, no run ever opens an address of it, the
      page tables' own window included, in any address space: with a page table of its own for
      every slot in every run, with any tables as long as switches load directories. */
  lemma KernelIsClosed(mem: Mem, kdir: nat, used: set<nat>, pages: nat, trace: seq<Vm>, ops: seq<Op>, i: nat, d: nat, v: nat)
    requires Booted(mem, kdir, used, pages) && forall k :: 768 <= k < 1024 ==> !UserMode(Read(mem, Loc(kdir, k)))
    requires IsRun(trace, ops) && trace[0] == Init(mem, kdir, used, pages) && i < |trace|
    requires TabsApart(trace[0]) || LoadsDirs(trace, ops, i)
    requires d in AllDirs(trace[i]) && KERN <= v < WORD
    ensures !UserMay(trace[i].mem, d, v)
  {
    InitInv(mem, kdir, used, pages);
    RunGuarded(trace, ops, i);
    assert 768 <= DirIndex(v) < 1024;
  }

  /** The real boot does. */
  lemma BootClosesKernel(mem: Mem, kdir: nat, t: nat, k: nat)
    requires BootTables(mem, kdir, t) && Read(mem, Loc(kdir, 1023)) == kdir * PAGE + 3 && 768 <= k < 1024
    ensures !UserMode(Read(mem, Loc(kdir, k)))
  {
    if k < 1023 {
      var c := k - 768;
      assert Read(mem, Loc(kdir, 768 + c)) == BootEntry(t, c);
      BootEntryClosed(t, c);
    }
  }

  lemma BootEntryClosed(t: nat, c: nat)
    ensures !UserMode(BootEntry(t, c))
  {
    var q, r := c / 16, c % 16;
    assert 4096 * c == 0x1_0000 * q + 4096 * r;
    LowWord(q, 4096 * r);
    assert BootEntry(t, c) == 8 * ((t + r) * 512) + 3;
    SupervisorBits((t + r) * 512);
  }

  // ----- the active address space

  /** Only switches load CR3. */
  lemma OnlySwitchesLoad(vm: Vm, op: Op)
    requires Allowed(vm, op)
    ensures Apply(vm, op).kdir == vm.kdir
    ensures !op.Switch? && !op.SwitchKernel? ==> Apply(vm, op).dir == vm.dir
  {}

  /** Between a switch to a kernel thread at k and the next switch, every address translates as
      under the kernel directory, user addresses included: a kernel thread sees no process's
      user half, whatever tables boot has left. */
  lemma KernelThreadSpace(trace: seq<Vm>, ops: seq<Op>, k: nat, i: nat, v: nat)
    requires IsRun(trace, ops) && k < i < |trace| && ops[k] == SwitchKernel
    requires forall j :: k < j < i ==> !ops[j].Switch?
    ensures trace[i].dir == trace[k].kdir == trace[i].kdir
    ensures Walk(trace[i].mem, trace[i].dir, v) == Walk(trace[i].mem, trace[k].kdir, v)
  {
    KernelDirLoaded(trace, ops, k, i);
  }

  lemma {:induction false} KernelDirLoaded(trace: seq<Vm>, ops: seq<Op>, k: nat, i: nat)
    requires IsRun(trace, ops) && k < i < |trace| && ops[k] == SwitchKernel
    requires forall j :: k < j < i ==> !ops[j].Switch?
    ensures trace[i].dir == trace[i].kdir == trace[k].kdir
    decreases i
  {
    var j := i - 1;
    assert Follows(trace[j], ops[j], trace[j + 1]);
    if k < j { KernelDirLoaded(trace, ops, k, j); }
    StaysInKernel(trace[j], ops[j], trace[i]);
  }

  lemma StaysInKernel(vm: Vm, op: Op, u: Vm)
    requires Follows(vm, op, u) && (op == SwitchKernel || (!op.Switch? && vm.dir == vm.kdir))
    ensures u.dir == u.kdir == vm.kdir
  {
    OnlySwitchesLoad(vm, op);
  }

  /** Between a switch to a process and the next switch its own directory is the active one. */
  lemma {:induction false} ProcessSpace(trace: seq<Vm>, ops: seq<Op>, k: nat, i: nat)
    requires IsRun(trace, ops) && Inv(trace[0]) && k < i < |trace| && ops[k].Switch?
    requires forall j :: k < j < i ==> !ops[j].Switch? && !ops[j].SwitchKernel?
    ensures ops[k].q in trace[k].homes && trace[i].dir == trace[k].homes[ops[k].q]
    decreases i
  {
    assert Follows(trace[i - 1], ops[i - 1], trace[i]);
    if k < i - 1 {
      ProcessSpace(trace, ops, k, i - 1);
      OnlySwitchesLoad(trace[i - 1], ops[i - 1]);
    } else {
      RunKeeps(trace, ops, k);
      ActivateKeepsIff(trace[k], ops[k].q);
    }
  }
}
