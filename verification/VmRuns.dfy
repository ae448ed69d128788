/** From start-up through every run: one kernel half in all address spaces, and exactly when
    kernel pages never share a frame. */
module VmRuns {
  import opened Machine
  import opened Wrappers
  import opened Paging
  import opened Vm
  import opened VmInv

  // ----- start-up

  /** What boot leaves behind: the kernel directory maps itself and has a present table in
      every other slot of the kernel half, and the first kernel pages are mapped to the
      frames of the same number. */
  ghost predicate Booted(mem: Mem, kdir: nat, used: set<nat>, pages: nat) {
    var vm := Vm(mem, kdir, kdir, {}, used, {}, {}, map[]);
    && pages <= 1024 && kdir in used && (forall f :: 0 <= f < pages ==> f in used)
    && SelfMapped(mem, kdir)
    && (forall i :: 768 <= i < 1023 ==> TabOk(vm, i))
    && (forall p :: 0 <= p < pages ==> IdentityMapped(vm, p))
  }

  predicate IdentityMapped(vm: Vm, p: nat) {
    var e := Read(vm.mem, Slot(vm, p));
    Present(e) && FrameOf(e) == p
  }

  predicate InPool(p: int, pages: nat) { pages <= p < RESERVED }

  /** vmm_kern_init: the kernel's own pages and the last 1024 are busy, all others free. */
  function Init(mem: Mem, kdir: nat, used: set<nat>, pages: nat): Vm {
    Vm(mem, kdir, kdir, (set p: int | pages <= p < RESERVED && InPool(p, pages)), used, {}, {}, map[])
  }

  /** Start-up leaves one kernel half and no reserved page free; with a table of its own for
      every slot, kernel pages are apart from the start. */
  lemma InitInv(mem: Mem, kdir: nat, used: set<nat>, pages: nat)
    requires Booted(mem, kdir, used, pages)
    ensures var vm := Init(mem, kdir, used, pages); Base(vm) && Mappings(vm) && (TabsApart(vm) <==> Inv(vm))
  {
    var vm := Init(mem, kdir, used, pages);
    var b := Vm(mem, kdir, kdir, {}, used, {}, {}, map[]);
    forall i | 768 <= i < 1023 ensures TabOk(vm, i) { assert TabOk(b, i); }
    assert DirOk(vm, kdir);
    forall p | Busy(vm, p) ensures Mapped(vm, p) && FrameOf(Read(vm.mem, Slot(vm, p))) == p { assert IdentityMapped(b, p); }
    forall p, q | Busy(vm, p) && Busy(vm, q) && p != q ensures Separate(vm, p, q) {}
  }

  // ----- steps and runs

  /** Kernel page allocations, releases, directory creations, switches of the address space
      to the process whose directory is at page q or to a kernel thread, and user page
      allocations of such a process. `p` is the page bitmap_alloc finds. */
  datatype Op =
    | Alloc(p: nat, answer: Option<nat>)
    | AllocOne(target: nat, answer: Option<nat>)
    | Release(target: nat)
    | NewDir(p: nat, answer: Option<nat>)
    | Switch(q: nat)
    | SwitchKernel
    | UserPage(q: nat, v: nat, granted: bool, table: Option<nat>, tableFrame: Option<nat>, page: Option<nat>)

  /** bitmap_alloc takes the lowest free page, releases and clean-ups name pages that can be
      handed out, processes own a directory that has not been given back, user pages are
      allocated by a running process, and its bitmap grants addresses below the kernel only. */
  ghost predicate Allowed(vm: Vm, op: Op) {
    match op
    case Alloc(p, answer) => Least(vm.free, p) && p < POOL
    case AllocOne(target, answer) => target < WORD
    case Release(target) => target < 0xFFC0_0000
    case NewDir(p, answer) => Least(vm.free, p) && p < POOL
    case Switch(q) => q in vm.homes && q < RESERVED
    case SwitchKernel => true
    case UserPage(q, v, granted, table, tableFrame, page) =>
      && vm.dir in vm.dirs && q in vm.homes && q < RESERVED && v < 0xFFC0_0000 && (granted ==> v < KERN)
      && (table.Some? ==> Least(vm.free, table.value) && table.value < POOL)
  }

  /** The answers of the physical memory manager are frames not in use. */
  ghost predicate FreshAnswers(vm: Vm, op: Op) {
    match op
    case Alloc(_, answer) => Fresh(vm, answer)
    case AllocOne(_, answer) => Fresh(vm, answer)
    case NewDir(_, answer) => Fresh(vm, answer)
    case UserPage(_, _, _, _, tableFrame, page) =>
      Fresh(vm, tableFrame) && Fresh(vm, page) && (tableFrame.Some? && page.Some? ==> tableFrame.value != page.value)
    case _ => true
  }

  ghost predicate Legal(vm: Vm, op: Op) { Allowed(vm, op) && FreshAnswers(vm, op) }

  function Apply(vm: Vm, op: Op): Vm
    requires Allowed(vm, op)
  {
    match op
    case Alloc(p, answer) => KernAllocAt(vm, p, answer).0
    case AllocOne(target, answer) => KernAllocOne(vm, target, answer).0
    case Release(target) => KernRelease(vm, target)
    case NewDir(p, answer) => CreatePdt(vm, p, answer).0
    case Switch(q) => Activate(vm, q)
    case SwitchKernel => ActivateKernel(vm)
    case UserPage(q, v, granted, table, tableFrame, page) => UserAlloc(vm, q, v, granted, table, tableFrame, page).vm
  }

  /** A switch to a process loads a directory. */
  ghost predicate LoadsDir(vm: Vm, op: Op) { op.Switch? && op.q < POOL ==> Activate(vm, op.q).dir in AllDirs(vm) }

  /** A step keeps the kernel half shared exactly when it does not load anything but a
      directory. With all kernel pages apart no switch does. */
  lemma ApplyKeepsIff(vm: Vm, op: Op)
    requires Base(vm) && Legal(vm, op)
    ensures Base(Apply(vm, op)) <==> LoadsDir(vm, op)
    ensures Inv(vm) ==> LoadsDir(vm, op) && Inv(Apply(vm, op))
  {
    match op
    case Alloc(p, answer) => KernAllocAtKeeps(vm, p, answer);
    case AllocOne(target, answer) => KernAllocOneKeeps(vm, target, answer);
    case Release(target) => KernReleaseKeepsIff(vm, target);
    case NewDir(p, answer) => CreatePdtKeeps(vm, p, answer);
    case Switch(q) => ActivateKeepsIff(vm, q);
    case SwitchKernel => ActivateKernelKeeps(vm);
    case UserPage(q, v, granted, table, tableFrame, page) => UserAllocKeeps(vm, q, v, granted, table, tableFrame, page);
  }

  ghost predicate IsRun(trace: seq<Vm>, ops: seq<Op>) {
    |trace| == |ops| + 1 && forall i :: 0 <= i < |ops| ==> Follows(trace[i], ops[i], trace[i + 1])
  }

  ghost predicate Follows(vm: Vm, op: Op, next: Vm) { Legal(vm, op) && next == Apply(vm, op) }

  /** The first n steps of the run load directories only. */
  ghost predicate LoadsDirs(trace: seq<Vm>, ops: seq<Op>, n: nat) {
    forall i :: 0 <= i < n && i < |trace| && i < |ops| ==> LoadsDir(trace[i], ops[i])
  }

  lemma {:induction false} RunKeeps(trace: seq<Vm>, ops: seq<Op>, i: nat)
    requires IsRun(trace, ops) && Base(trace[0]) && i < |trace|
    requires Inv(trace[0]) || LoadsDirs(trace, ops, i)
    ensures Base(trace[i]) && (Inv(trace[0]) ==> Inv(trace[i]))
  {
    if i > 0 {
      RunKeeps(trace, ops, i - 1);
      assert Follows(trace[i - 1], ops[i - 1], trace[i]);
      ApplyKeepsIff(trace[i - 1], ops[i - 1]);
    }
  }

  /** At every point of every run from start-up, every kernel address below the reserved
      pages translates under every user directory as it does under the kernel directory: with
      a page table of its own for every slot in every run, and with whatever tables boot has
      left as long as switches load directories. */
  lemma KernelHalfShared(mem: Mem, kdir: nat, used: set<nat>, pages: nat, trace: seq<Vm>, ops: seq<Op>, i: nat, d: nat, v: nat)
    requires Booted(mem, kdir, used, pages) && IsRun(trace, ops) && trace[0] == Init(mem, kdir, used, pages)
    requires TabsApart(trace[0]) || LoadsDirs(trace, ops, i)
    requires i < |trace| && d in trace[i].dirs && KERN <= v < 0xFFC0_0000
    ensures Walk(trace[i].mem, d, v) == Walk(trace[i].mem, trace[i].kdir, v)
  {
    InitInv(mem, kdir, used, pages);
    RunKeeps(trace, ops, i);
    SharedNow(trace[i], d, v);
  }

  lemma SharedNow(vm: Vm, d: nat, v: nat)
    requires Tables(vm) && d in vm.dirs && KERN <= v < 0xFFC0_0000
    ensures Walk(vm.mem, d, v) == Walk(vm.mem, vm.kdir, v)
  {
    assert DirOk(vm, d) && 768 <= DirIndex(v) < 1023;
  }

  // ----- the reserved pages

  ghost predicate ReservedBusy(vm: Vm) { forall r :: r in vm.free ==> 0 <= r < RESERVED }

  lemma ApplyKeepsReserved(vm: Vm, op: Op)
    requires ReservedBusy(vm) && Allowed(vm, op)
    ensures ReservedBusy(Apply(vm, op))
  {
    match op
    case Release(target) => if target >= KERN { TargetFields(target); }
    case UserPage(q, v, granted, table, tableFrame, page) => if v >= KERN { TargetFields(v); }
    case _ =>
  }

  /** In every run from start-up no reserved page is ever free to hand out, whatever tables
      boot has left and whatever switches load. */
  lemma {:induction false} ReservedStay(mem: Mem, kdir: nat, used: set<nat>, pages: nat, trace: seq<Vm>, ops: seq<Op>, i: nat)
    requires IsRun(trace, ops) && trace[0] == Init(mem, kdir, used, pages) && i < |trace|
    ensures ReservedBusy(trace[i])
  {
    if i > 0 {
      ReservedStay(mem, kdir, used, pages, trace, ops, i - 1);
      assert Follows(trace[i - 1], ops[i - 1], trace[i]);
      ApplyKeepsReserved(trace[i - 1], ops[i - 1]);
    }
  }

  // ----- kernel pages apart

  /** In every run from start-up with a table of its own for every slot, busy kernel pages
      below the reserved ones translate to pairwise different frames. */
  lemma MappingSafety(mem: Mem, kdir: nat, used: set<nat>, pages: nat, trace: seq<Vm>, ops: seq<Op>, i: nat, p: nat, q: nat)
    requires Booted(mem, kdir, used, pages) && TabsApart(Init(mem, kdir, used, pages))
    requires IsRun(trace, ops) && trace[0] == Init(mem, kdir, used, pages)
    requires i < |trace| && Busy(trace[i], p) && Busy(trace[i], q)
    ensures var vm := trace[i];
            && Walk(vm.mem, vm.dir, Addr(p)).Phys? && Walk(vm.mem, vm.dir, Addr(q)).Phys?
            && (p != q ==> Walk(vm.mem, vm.dir, Addr(p)).frame != Walk(vm.mem, vm.dir, Addr(q)).frame)
  {
    InitInv(mem, kdir, used, pages);
    RunKeeps(trace, ops, i);
    var vm := trace[i];
    WalkOfPage(vm, p);
    WalkOfPage(vm, q);
    assert Mapped(vm, p) && Mapped(vm, q);
    if p != q { assert Separate(vm, p, q); }
  }

  /** Kernel pages stay mapped and apart in every run from vm. */
  ghost predicate SafeFrom(vm: Vm) {
    forall trace, ops, i {:trigger IsRun(trace, ops), trace[i]} ::
      IsRun(trace, ops) && trace[0] == vm && 0 <= i < |trace| ==> Mappings(trace[i])
  }

  /** That is exact: as long as two frames are left, kernel pages stay apart in every run if
      and only if no two slots of the kernel directory share a page table. */
  lemma MappingSafetyIff(mem: Mem, kdir: nat, used: set<nat>, pages: nat, f: nat, g: nat)
    requires Booted(mem, kdir, used, pages)
    requires f !in used && g !in used && f != g && f < 0x10_0000 && g < 0x10_0000
    ensures SafeFrom(Init(mem, kdir, used, pages)) <==> TabsApart(Init(mem, kdir, used, pages))
  {
    var vm := Init(mem, kdir, used, pages);
    InitInv(mem, kdir, used, pages);
    if TabsApart(vm) {
      forall trace, ops, i | IsRun(trace, ops) && trace[0] == vm && 0 <= i < |trace| ensures Mappings(trace[i]) {
        RunKeeps(trace, ops, i);
      }
    } else {
      var i, j :| 768 <= i < j < 1023 && !DifferentTabs(vm, i, j);
      TwoInOneTable(vm, i, j, pages, f, g);
    }
  }

  /** Allocating a page that shares its entry with a busy page moves the busy page along: the
      two translate to one frame exactly when they share the entry. */
  lemma AliasIff(vm: Vm, p: nat, q: nat, f: nat)
    requires Base(vm) && Busy(vm, p) && Mapped(vm, p) && q in vm.free && f !in vm.used && f < 0x10_0000
    ensures var r := KernAllocOne(vm, Addr(q), Some(f)); var u := r.0;
            && r.1 == Addr(q) && Busy(u, p) && Busy(u, q)
            && Walk(u.mem, u.dir, Addr(q)) == Phys(f, 0) && Walk(u.mem, u.dir, Addr(p)).Phys?
            && (Walk(u.mem, u.dir, Addr(p)) == Walk(u.mem, u.dir, Addr(q)) <==> Slot(vm, p) == Slot(vm, q))
  {
    AddrFields(q);
    KernAllocOneKeeps(vm, Addr(q), Some(f));
    EnterKeeps(vm, q, f);
    EntryFields(f);
    var u := Entered(vm, q, f);
    SlotWrite(vm, u, q, f * PAGE + KFLAGS);
    SlotSame(vm, u, p);
    WalkOfPage(u, p);
    WalkOfPage(u, q);
  }

  /** The run that goes wrong: the first pages of two slots with one table, both allocated. */
  lemma TwoInOneTable(vm: Vm, i: nat, j: nat, pages: nat, f: nat, g: nat)
    requires Base(vm) && Mappings(vm) && 768 <= i < j < 1023 && KTab(vm, i) == KTab(vm, j)
    requires pages <= 1024 && forall p: int :: p in vm.free <==> pages <= p < RESERVED
    requires f !in vm.used && g !in vm.used && f != g && f < 0x10_0000 && g < 0x10_0000
    ensures !SafeFrom(vm)
  {
    var p, q := (i - 768) * 1024, (j - 768) * 1024;
    assert Slot(vm, p) == Slot(vm, q);
    if Busy(vm, p) {
      Collide(vm, p, q, g);
      OneStep(vm, AllocOne(Addr(q), Some(g)));
    } else {
      AddrFields(p);
      KernAllocOneKeeps(vm, Addr(p), Some(f));
      var u := Entered(vm, p, f);
      EnterKeeps(vm, p, f);
      EntryFields(f);
      SlotSame(vm, u, q);
      Collide(u, p, q, g);
      TwoSteps(vm, AllocOne(Addr(p), Some(f)), u, AllocOne(Addr(q), Some(g)));
    }
  }

  lemma Collide(vm: Vm, p: nat, q: nat, g: nat)
    requires Base(vm) && Busy(vm, p) && Mapped(vm, p) && q in vm.free && g !in vm.used && g < 0x10_0000
    requires Slot(vm, p) == Slot(vm, q) && p != q
    ensures Addr(q) < WORD && Legal(vm, AllocOne(Addr(q), Some(g))) && !Mappings(Apply(vm, AllocOne(Addr(q), Some(g))))
  {
    AddrFields(q);
    KernAllocOneKeeps(vm, Addr(q), Some(g));
    var u := Entered(vm, q, g);
    EnterKeeps(vm, q, g);
    SlotSame(vm, u, p);
    assert Busy(u, p) && Busy(u, q) && !Separate(u, p, q);
  }

  lemma OneStep(vm: Vm, op: Op)
    requires Legal(vm, op) && !Mappings(Apply(vm, op))
    ensures !SafeFrom(vm)
  {
    var trace := [vm, Apply(vm, op)];
    assert Follows(trace[0], [op][0], trace[1]);
    assert IsRun(trace, [op]) && !Mappings(trace[1]);
  }

  lemma TwoSteps(vm: Vm, op: Op, u: Vm, op': Op)
    requires Legal(vm, op) && u == Apply(vm, op) && Legal(u, op') && !Mappings(Apply(u, op'))
    ensures !SafeFrom(vm)
  {
    var trace, ops := [vm, u, Apply(u, op')], [op, op'];
    assert Follows(trace[0], ops[0], trace[1]) && Follows(trace[1], ops[1], trace[2]);
    assert IsRun(trace, ops) && !Mappings(trace[2]);
  }

  // ----- the pages that show directories

  /** In every run from start-up with a table of its own for every slot, the page of a
      directory that has not been given back shows that directory: vmm_v2p answers it, and a
      switch loads it. */
  lemma DirectoriesStayShown(mem: Mem, kdir: nat, used: set<nat>, pages: nat, trace: seq<Vm>, ops: seq<Op>, i: nat, q: nat)
    requires Booted(mem, kdir, used, pages) && TabsApart(Init(mem, kdir, used, pages))
    requires IsRun(trace, ops) && trace[0] == Init(mem, kdir, used, pages)
    requires i < |trace| && q in trace[i].homes
    ensures var vm := trace[i]; var d := vm.homes[q];
            && q < RESERVED && q !in vm.free && d in vm.dirs && Shown(vm, q) == Some(d)
            && V2P(vm.mem, vm.dir, Addr(q)) == Some(d * PAGE) && Activate(vm, q).dir == d
  {
    InitInv(mem, kdir, used, pages);
    RunKeeps(trace, ops, i);
    var vm := trace[i];
    assert Home(vm, q) && Mapped(vm, q);
    V2POfPage(vm, q);
  }

  /** Whatever tables boot has left: an allocation leaves the directory shown at page q exactly
      when it takes a page with another entry. Otherwise vmm_v2p answers the new frame, which
      is no directory, and a switch that loads it leaves the kernel half unshared. */
  lemma DirectoryShownIff(vm: Vm, p: nat, f: nat, q: nat)
    requires Base(vm) && p in vm.free && Fresh(vm, Some(f)) && q < RESERVED && FrameOf(Read(vm.mem, Slot(vm, q))) in AllDirs(vm)
    ensures p < POOL
    ensures var u := KernAllocAt(vm, p, Some(f)).0;
            && (V2P(u.mem, u.dir, Addr(q)) == V2P(vm.mem, vm.dir, Addr(q)) <==> Slot(vm, p) != Slot(vm, q))
            && (Slot(vm, p) == Slot(vm, q) ==> Activate(u, q).dir == f)
            && (Base(Activate(u, q)) <==> Slot(vm, p) != Slot(vm, q))
  {
    var u := Entered(vm, p, f);
    KernAllocAtKeeps(vm, p, Some(f));
    EnterKeeps(vm, p, f);
    ShownAfter(vm, p, f, q);
    V2POfPage(vm, q);
    V2POfPage(u, q);
    ActivateKeepsIff(u, q);
    FreshApart(vm, f);
  }

  // ----- the tables of the real boot

  /** Slot 768 + c as the start-up loop fills it: the 16-bit product 4096 * c, its high word
      dropped, plus the address of the first table, plus present and writable. */
  function BootEntry(t: nat, c: nat): nat { 4096 * c % 0x1_0000 + t * PAGE + 3 }

  /** The kernel directory after boot, with the first of its page tables in frame t. */
  ghost predicate BootTables(mem: Mem, kdir: nat, t: nat) {
    forall c :: 0 <= c < 255 ==> Read(mem, Loc(kdir, 768 + c)) == BootEntry(t, c)
  }

  lemma BootEntryFields(t: nat, c: nat)
    ensures Present(BootEntry(t, c)) && FrameOf(BootEntry(t, c)) == t + c % 16
  {
    var q, r := c / 16, c % 16;
    assert 4096 * c == 0x1_0000 * q + 4096 * r;
    LowWord(q, 4096 * r);
  }

  lemma LowWord(q: nat, x: nat)
    requires x < 0x1_0000
    ensures (0x1_0000 * q + x) % 0x1_0000 == x
  {
  }

  /** The tables repeat every 16 slots: sharing and the reserved pages are as proved above,
      and kernel pages can collide. */
  lemma BootTablesRepeat(mem: Mem, kdir: nat, t: nat, used: set<nat>, pages: nat)
    requires BootTables(mem, kdir, t) && SelfMapped(mem, kdir) && pages <= 1024
    requires kdir in used && (forall f :: 0 <= f < pages ==> f in used) && (forall k :: t <= k < t + 16 ==> k in used && k != kdir)
    requires forall p :: 0 <= p < pages ==> Present(Read(mem, Loc(t, p))) && FrameOf(Read(mem, Loc(t, p))) == p
    ensures Booted(mem, kdir, used, pages) && !TabsApart(Init(mem, kdir, used, pages))
    ensures forall i :: 768 <= i < 1023 ==> KTab(Init(mem, kdir, used, pages), i) == t + i % 16
  {
    var b, vm := Vm(mem, kdir, kdir, {}, used, {}, {}, map[]), Init(mem, kdir, used, pages);
    forall i | 768 <= i < 1023 ensures TabOk(b, i) && KTab(vm, i) == t + i % 16 {
      BootEntryFields(t, i - 768);
      assert Read(mem, Loc(kdir, 768 + (i - 768))) == BootEntry(t, i - 768);
    }
    forall p | 0 <= p < pages ensures IdentityMapped(b, p) {
      assert KTab(vm, 768) == t;
      assert Slot(b, p) == Loc(t, p);
    }
    assert !DifferentTabs(vm, 768, 784);
  }

  /** Right after the real boot, allocating the page at 0xC4000000 overwrites the entry of the
      kernel's first page: both addresses then show the new frame. */
  lemma BootCollisionExample(mem: Mem, kdir: nat, t: nat, used: set<nat>, pages: nat, f: nat)
    requires BootTables(mem, kdir, t) && SelfMapped(mem, kdir) && 1 <= pages <= 1024
    requires kdir in used && (forall n :: 0 <= n < pages ==> n in used) && (forall k :: t <= k < t + 16 ==> k in used && k != kdir)
    requires forall p :: 0 <= p < pages ==> Present(Read(mem, Loc(t, p))) && FrameOf(Read(mem, Loc(t, p))) == p
    requires f !in used && f < 0x10_0000
    ensures var vm := Init(mem, kdir, used, pages); var u := KernAllocOne(vm, 0xC400_0000, Some(f)).0;
            && Walk(vm.mem, vm.dir, 0xC000_0000) == Phys(0, 0)
            && Walk(u.mem, u.dir, 0xC400_0000) == Phys(f, 0) && Walk(u.mem, u.dir, 0xC000_0000) == Phys(f, 0)
  {
    var vm, q := Init(mem, kdir, used, pages), 16 * 1024;
    BootTablesRepeat(mem, kdir, t, used, pages);
    InitInv(mem, kdir, used, pages);
    assert Addr(q) == 0xC400_0000 && Addr(0) == 0xC000_0000;
    assert !DifferentTabs(vm, 768, 784);
    assert KTab(vm, 768) == t && Slot(vm, 0) == Loc(t, 0) && Present(Read(mem, Loc(t, 0)));
    assert Busy(vm, 0) && Mapped(vm, 0);
    WalkOfPage(vm, 0);
    AliasIff(vm, 0, q, f);
  }

  /** Right after the real boot, a directory is created at the first free page, and then the
      page 16 slots on is allocated: a switch to the process loads the new frame. */
  lemma BootDirectoryExample(mem: Mem, kdir: nat, t: nat, used: set<nat>, pages: nat, q: nat, f: nat, g: nat)
    requires BootTables(mem, kdir, t) && SelfMapped(mem, kdir) && pages < 1024 && q == pages + 16 * 1024
    requires kdir in used && (forall n :: 0 <= n < pages ==> n in used) && (forall k :: t <= k < t + 16 ==> k in used && k != kdir)
    requires forall p :: 0 <= p < pages ==> Present(Read(mem, Loc(t, p))) && FrameOf(Read(mem, Loc(t, p))) == p
    requires f !in used && g !in used && f != g && f < 0x10_0000 && g < 0x10_0000
    ensures var vm := Init(mem, kdir, used, pages); var d := CreatePdt(vm, pages, Some(f)).0; var u := KernAllocOne(d, Addr(q), Some(g)).0;
            && Least(vm.free, pages) && d.homes == map[pages as int := f] && Activate(d, pages).dir == f && Base(Activate(d, pages))
            && u.homes == d.homes && Activate(u, pages).dir == g && !Base(Activate(u, pages))
  {
    var vm := Init(mem, kdir, used, pages);
    SameSlot(mem, kdir, t, used, pages, vm, q);
    CreateThenAllocate(vm, pages, q, f, g, CreatePdt(vm, pages, Some(f)).0);
  }

  /** The first free page behind boot and the one 16 slots on share their entry. */
  lemma SameSlot(mem: Mem, kdir: nat, t: nat, used: set<nat>, pages: nat, vm: Vm, q: nat)
    requires BootTables(mem, kdir, t) && SelfMapped(mem, kdir) && pages < 1024 && q == pages + 16 * 1024
    requires kdir in used && (forall n :: 0 <= n < pages ==> n in used) && (forall k :: t <= k < t + 16 ==> k in used && k != kdir)
    requires forall p :: 0 <= p < pages ==> Present(Read(mem, Loc(t, p))) && FrameOf(Read(mem, Loc(t, p))) == p
    requires vm == Init(mem, kdir, used, pages)
    ensures Base(vm) && Least(vm.free, pages) && q in vm.free && Slot(vm, pages) == Slot(vm, q) && vm.homes == map[] && vm.used == used
  {
    BootTablesRepeat(mem, kdir, t, used, pages);
    InitInv(mem, kdir, used, pages);
    assert KTab(vm, 768) == t && KTab(vm, 784) == t;
    assert q / 1024 == 16 && q % 1024 == pages;
  }

  /** A directory is created at page p, then a page q with the same entry is allocated. */
  lemma DirectoryDisplaced(vm: Vm, p: nat, q: nat, f: nat, g: nat, d: Vm)
    requires Base(vm) && p in vm.free && q in vm.free && p != q && Slot(vm, p) == Slot(vm, q)
    requires Fresh(vm, Some(f)) && Fresh(vm, Some(g)) && f != g && d == DirMade(vm, p, f)
    ensures p < POOL && Addr(q) < WORD && d.homes == vm.homes[p := f] && Activate(d, p).dir == f && Base(Activate(d, p))
    ensures var u := KernAllocOne(d, Addr(q), Some(g)).0; u.homes == d.homes && Activate(u, p).dir == g && !Base(Activate(u, p))
  {
    DirMadeKeeps(vm, p, f);
    CreatedShown(vm, p, f, d);
    SlotSame(vm, d, q);
    Displaced(d, p, q, g);
  }

  /** ... with the creation and the allocation as calls. */
  lemma CreateThenAllocate(vm: Vm, p: nat, q: nat, f: nat, g: nat, d: Vm)
    requires Base(vm) && p in vm.free && q in vm.free && p != q && Slot(vm, p) == Slot(vm, q)
    requires Fresh(vm, Some(f)) && Fresh(vm, Some(g)) && f != g && p < POOL && d == CreatePdt(vm, p, Some(f)).0
    ensures Addr(q) < WORD && d.homes == vm.homes[p := f] && Activate(d, p).dir == f && Base(Activate(d, p))
    ensures var u := KernAllocOne(d, Addr(q), Some(g)).0; u.homes == d.homes && Activate(u, p).dir == g && !Base(Activate(u, p))
  {
    CreatePdtKeeps(vm, p, Some(f));
    DirectoryDisplaced(vm, p, q, f, g, d);
  }

  /** A switch to a directory just created loads it. */
  lemma CreatedShown(vm: Vm, p: nat, f: nat, d: Vm)
    requires Base(vm) && p in vm.free && Fresh(vm, Some(f)) && d == DirMade(vm, p, f)
    ensures Slot(d, p) == Slot(vm, p) && FrameOf(Read(d.mem, Slot(d, p))) == f && f in d.dirs
    ensures p < POOL && Activate(d, p).dir == f && Base(Activate(d, p))
  {
    DirMadeKeeps(vm, p, f);
    SlotSame(vm, d, p);
    V2POfPage(d, p);
    ActivateKeepsIff(d, p);
  }

  /** A targeted allocation of a page with the entry of a directory's page p. */
  lemma Displaced(d: Vm, p: nat, q: nat, g: nat)
    requires Base(d) && p < RESERVED && q in d.free && Slot(d, p) == Slot(d, q) && Fresh(d, Some(g))
    requires FrameOf(Read(d.mem, Slot(d, p))) in d.dirs
    ensures Addr(q) < WORD
    ensures var u := KernAllocOne(d, Addr(q), Some(g)).0;
            u.homes == d.homes && Activate(u, p).dir == g && !Base(Activate(u, p))
  {
    AddrFields(q);
    KernAllocOneKeeps(d, Addr(q), Some(g));
    KernAllocAtKeeps(d, q, Some(g));
    DirectoryShownIff(d, q, g, p);
  }

  /** A kernel page translates through its slot. */
  lemma WalkOfPage(vm: Vm, p: nat)
    requires Tables(vm) && p < RESERVED
    ensures Walk(vm.mem, vm.dir, Addr(p)) ==
            if Present(Read(vm.mem, Slot(vm, p))) then Phys(FrameOf(Read(vm.mem, Slot(vm, p))), 0) else Fault
  {
    AddrFields(p);
    assert DirOk(vm, vm.dir) && TabOk(vm, 768 + p / 1024);
  }

  lemma WalkOfPageIn(vm: Vm, d: nat, v: nat)
    requires Tables(vm) && d in AllDirs(vm) && KERN <= v < 0xFFC0_0000
    ensures Walk(vm.mem, d, v) ==
            var e := Read(vm.mem, Slot(vm, PageNo(v))); if Present(e) then Phys(FrameOf(e), Offset(v)) else Fault
  {
    TargetFields(v);
    assert DirOk(vm, d) && TabOk(vm, DirIndex(v));
  }

  /** An allocated kernel page is taken, and translates to its frame in every address space,
      not only the active one; every kernel page with an entry of its own translates as before. */
  lemma AllocMapsEverywhere(vm: Vm, p: nat, f: nat, d: nat, v: nat)
    requires Base(vm) && p in vm.free && Fresh(vm, Some(f)) && d in AllDirs(vm) && KERN <= v < 0xFFC0_0000
    ensures p < POOL && PageNo(v) >= 0
    ensures var u := KernAllocAt(vm, p, Some(f)).0;
            && u.free == vm.free - {p} && u.used == vm.used + {f} && Walk(u.mem, d, Addr(p)) == Phys(f, 0)
            && Walk(u.mem, d, v) == if Slot(vm, PageNo(v)) == Slot(vm, p) then Phys(f, Offset(v)) else Walk(vm.mem, d, v)
  {
    var u := Entered(vm, p, f);
    TargetFields(v);
    KernAllocAtKeeps(vm, p, Some(f));
    AddrFields(p);
    EnterKeeps(vm, p, f);
    EntryFields(f);
    SlotWrite(vm, u, p, f * PAGE + KFLAGS);
    SlotSame(vm, u, PageNo(v));
    WalkOfPageIn(u, d, Addr(p));
    WalkOfPageIn(u, d, v);
    WalkOfPageIn(vm, d, v);
  }

  /** A released kernel page is free and faults in every address space; every kernel page
      with an entry of its own translates as before. */
  lemma ReleaseUnmapsEverywhere(vm: Vm, target: nat, d: nat, v: nat)
    requires Base(vm) && KERN <= target < 0xFFC0_0000 && KERN <= v < 0xFFC0_0000 && d in AllDirs(vm)
    ensures PageNo(target) >= 0 && PageNo(v) >= 0
    ensures var r := KernRelease(vm, target);
            && r.free == vm.free + {PageNo(target)}
            && Walk(r.mem, d, v) == if Slot(vm, PageNo(v)) == Slot(vm, PageNo(target)) then Fault else Walk(vm.mem, d, v)
    ensures TabsApart(vm) ==> (Slot(vm, PageNo(v)) == Slot(vm, PageNo(target)) <==> PageNo(v) == PageNo(target))
  {
    TargetFields(target);
    TargetFields(v);
    ReleaseInPool(vm, PageNo(target));
    ReleasedEntry(vm, PageNo(target), PageNo(v));
    WalkOfPageIn(vm, d, v);
    WalkOfPageIn(Released(vm, PageNo(target)), d, v);
    if TabsApart(vm) && PageNo(v) != PageNo(target) { SlotsDiffer(vm, PageNo(v), PageNo(target)); }
  }

  lemma NotPresent(e: nat)
    ensures !Present(e - e % 2)
  {}

  lemma ReleasedEntry(vm: Vm, p: nat, q: nat)
    requires Base(vm) && p < RESERVED && q < RESERVED
    ensures var r := Released(vm, p);
            if Slot(vm, q) == Slot(vm, p) then !Present(Read(r.mem, Slot(r, q))) else Read(r.mem, Slot(r, q)) == Read(vm.mem, Slot(vm, q))
  {
    var r, e := Released(vm, p), Read(vm.mem, Slot(vm, p));
    SlotWrite(vm, r, p, e - e % 2);
    SlotSame(vm, r, q);
    NotPresent(e);
  }

  // ----- user pages

  /** The call returns the page, and the address translates to the frame of the answer. */
  predicate Maps(o: Outcome, dir: nat, v: nat, page: Option<nat>) {
    o.Returns? && o.r == v - v % PAGE && page.Some? && Walk(o.vm.mem, dir, v) == Phys(page.value, Offset(v))
  }

  /** v's directory entry is present behind the new table exactly when it was before, or page q
      shows the active directory and the table's page has an entry of its own. */
  lemma EntryPresentIff(vm: Vm, q: nat, i: nat, pde: nat, p: nat, f: nat)
    requires Base(vm) && q < RESERVED && i < 768 && pde == Addr(q) + i * 4 && p in vm.free && f !in vm.used
    ensures var t := TableMade(vm, pde, p, f);
            Present(Read(t.mem, Loc(vm.dir, i))) <==>
            Present(Read(vm.mem, Loc(vm.dir, i))) || (Shown(vm, q) == Some(vm.dir) && Slot(vm, p) != Slot(vm, q))
  {
    Cleared(vm, p, f);
    TableReads(vm, q, i, pde, p, f, Loc(vm.dir, i));
    ShownAfter(vm, p, f, q);
    FreshApart(vm, f);
    EntryFields(f);
  }

  /** What the allocation of a user page needs besides the grant and a frame: when the running
      process has no table for v yet, page q must show its directory, and the table must get a
      page with another entry; when it has one, the check must not fault. */
  predicate Enterable(vm: Vm, q: nat, v: nat, p: Option<nat>, table: Option<nat>)
    requires p.Some? ==> p.value < POOL
  {
    var seen := Shown(vm, q);
    if Present(Pde(vm.mem, vm.dir, v))
    then seen.Some? && (Present(Read(vm.mem, Loc(seen.value, DirIndex(v)))) || (p.Some? && table.Some?))
    else seen == Some(vm.dir) && p.Some? && table.Some? && Slot(vm, p.value) != Slot(vm, q)
  }

  /** A user page allocation maps the page exactly when the process's bitmap grants it, a frame
      is left, and the page can be entered; it returns an address in no other case. With its
      directory shown at page q, a process that has a table for v needs nothing else. */
  lemma UserAllocMapsIff(vm: Vm, q: nat, v: nat, granted: bool, p: Option<nat>, table: Option<nat>, page: Option<nat>)
    requires Base(vm) && vm.dir in vm.dirs && q < RESERVED && v < KERN && (p.Some? ==> p.value in vm.free && p.value < POOL)
    requires Fresh(vm, table) && Fresh(vm, page) && (table.Some? && page.Some? ==> table.value != page.value)
    ensures var o := UserAlloc(vm, q, v, granted, p, table, page);
            && (Maps(o, vm.dir, v, page) <==> granted && page.Some? && Enterable(vm, q, v, p, table))
            && (o.Returns? && o.r != ERRO <==> Maps(o, vm.dir, v, page))
    ensures Shown(vm, q) == Some(vm.dir) ==>
              (Enterable(vm, q, v, p, table) <==>
               Present(Pde(vm.mem, vm.dir, v)) || (p.Some? && table.Some? && Slot(vm, p.value) != Slot(vm, q)))
  {
    if granted {
      UserDirIndex(v);
      UserAllocCases(vm, q, v, p, table, page);
      EnterUserKeeps(vm, v, page);
      if p.Some? && table.Some? {
        EntryBehindTable(vm, q, v, p.value, table.value, page);
        EntryPresentIff(vm, q, DirIndex(v), PdeAt(q, v), p.value, table.value);
        EnterUserKeeps(TableMade(vm, PdeAt(q, v), p.value, table.value), v, page);
      }
    }
  }

  // ----- why the last 1024 pages are reserved

  /** Releasing a reserved page writes a directory entry: for 0xFFF00000 it is the entry of
      the first kernel addresses, in the active directory alone. */
  lemma ReleaseReservedUnshares(vm: Vm)
    requires Base(vm) && vm.dir in vm.dirs
    ensures var r := KernRelease(vm, 0xFFF0_0000);
            && Walk(r.mem, vm.dir, KERN) == Fault
            && Walk(r.mem, vm.kdir, KERN) == Walk(vm.mem, vm.kdir, KERN)
  {
    assert DirOk(vm, vm.dir) && DirOk(vm, vm.kdir) && TabOk(vm, 768);
    WalkOfGetPte(vm.mem, vm.dir, 0xFFF0_0000);
  }

  lemma StaleEntry(e: nat)
    ensures FrameOf(e - e % 2) == FrameOf(e) && e - e % 2 - (e - e % 2) % PAGE == FrameOf(e) * PAGE
  {
    var q, r := e / PAGE, e % PAGE;
    assert (e - e % 2) / PAGE == q;
  }

  /** A released page faults, but vmm_v2p still answers the frame it had. */
  lemma ReleasedPageStillAnswers(vm: Vm, p: nat)
    requires Base(vm) && Busy(vm, p) && Mapped(vm, p)
    ensures Addr(p) < WORD
    ensures var r := KernRelease(vm, Addr(p));
            && Walk(vm.mem, vm.dir, Addr(p)) == Phys(FrameOf(Read(vm.mem, Slot(vm, p))), 0)
            && Walk(r.mem, r.dir, Addr(p)) == Fault && DocumentedV2P(r.mem, r.dir, Addr(p)) == ERRO
            && V2P(r.mem, r.dir, Addr(p)) == Some(FrameOf(Read(vm.mem, Slot(vm, p))) * PAGE)
  {
    AddrFields(p);
    var e, r := Read(vm.mem, Slot(vm, p)), Released(vm, p);
    StaleEntry(e);
    ReleaseInPool(vm, p);
    ReleasedEntry(vm, p, p);
    SlotWrite(vm, r, p, e - e % 2);
    WalkOfPage(vm, p);
    WalkOfPage(r, p);
    V2POfPage(r, p);
  }

  /** A failed user allocation at a kernel address frees that kernel page although it stays mapped. */
  lemma FailedUserAllocFreesKernelPage(vm: Vm, p: nat, q: nat)
    requires Base(vm) && Busy(vm, p) && Mapped(vm, p)
    ensures var o := UserAlloc(vm, q, Addr(p), false, None, None, None);
            o.Returns? && o.r == ERRO && p in o.vm.free && Walk(o.vm.mem, o.vm.dir, Addr(p)).Phys?
  {
    AddrFields(p);
    WalkOfPage(vm, p);
  }
}
