/** Kernel virtual memory as a value: the page pool, physical memory with its directories
    and tables, and the operations of vmm.c and user_task.c on them. Frames come from the
    physical memory manager as answers: None when it has none left. */
module Vm {
  import opened Machine
  import opened Wrappers
  import opened Paging

  const KERN: nat := 0xC000_0000        // first kernel address
  const POOL: nat := 0x4_0000           // pages of the kernel half
  const RESERVED: nat := 0x3_fc00       // the last 1024 of them show the page tables
  const KFLAGS: nat := 0x103            // present, writable, supervisor, global bit
  const UFLAGS: nat := 0x107            // present, writable, user, global bit

  datatype Vm = Vm(
    mem: Mem,
    dir: nat,             // frame of the directory in CR3
    kdir: nat,            // frame of the kernel directory
    free: set<int>,       // free pages of kern_vmm_pool, numbered from KERN
    used: set<nat>,       // frames in use
    dirs: set<nat>,       // frames of the user directories
    utabs: set<nat>,      // frames of the user page tables
    homes: map<int, nat>) // kernel pages taken for a user directory and not given back, with its frame

  /** How a call ends: with an answer, or at a page fault, which the handler only reports, so
      that the access is tried again for ever. */
  datatype Outcome = Returns(vm: Vm, r: nat) | Faults(vm: Vm)

  function Addr(p: nat): nat { KERN + p * PAGE }

  function PageNo(v: nat): int { (v - v % PAGE - KERN) / PAGE }

  // ----- kernel pages

  /** The pool's lowest free page; meaningful when there is one. */
  ghost predicate Least(free: set<int>, p: int) { p in free && forall q :: q in free ==> p <= q }

  /** Behind the taken bit of page p: get a frame and enter it, or give the bit back. */
  function Back(vm: Vm, p: nat, target: nat, answer: Option<nat>): (r: (Vm, nat))
    requires target < WORD
  {
    match answer
    case None => (vm.(free := vm.free + {p}), ERRO)
    case Some(f) => (vm.(mem := Store(vm.mem, vm.dir, GetPte(target), f * PAGE + KFLAGS), used := vm.used + {f}), target)
  }

  function KernAllocAt(vm: Vm, p: nat, answer: Option<nat>): (r: (Vm, nat))
    requires p < POOL
  {
    Back(vm.(free := vm.free - {p}), p, Addr(p), answer)
  }

  function KernAllocOne(vm: Vm, target: nat, answer: Option<nat>): (r: (Vm, nat))
    requires target < WORD
  {
    if PageNo(target) in vm.free && PageNo(target) >= 0
    then Back(vm.(free := vm.free - {PageNo(target)}), PageNo(target), target, answer)
    else (vm, ERRO)
  }

  function KernRelease(vm: Vm, target: nat): (r: Vm)
    requires target < WORD
  {
    if target < KERN then vm
    else
      var entry := Load(vm.mem, vm.dir, GetPte(target));
      vm.(free := vm.free + {PageNo(target)}, homes := vm.homes - {PageNo(target)},
          mem := if entry == None then vm.mem
                 else Store(vm.mem, vm.dir, GetPte(target), entry.value - entry.value % 2))
  }

  // ----- user directories and pages

  function ZeroFrame(mem: Mem, f: nat): Mem { mem + map i | 0 <= i < 1024 :: Loc(f, i) := 0 }

  /** memcpy of the upper 256 entries of directory d into frame f. */
  function CopyHalf(mem: Mem, f: nat, d: nat): Mem {
    mem + map i | 768 <= i < 1024 :: Loc(f, i) := Read(mem, Loc(d, i))
  }

  /** A fresh directory in frame f: cleared, kernel half copied from the active directory,
      last entry mapped to itself. */
  function NewDirIn(mem: Mem, f: nat, d: nat): Mem {
    CopyHalf(ZeroFrame(mem, f), f, d)[Loc(f, 1023) := f * PAGE + KFLAGS]
  }

  function CreatePdt(vm: Vm, p: nat, answer: Option<nat>): (r: (Vm, nat))
    requires p < POOL
  {
    var (u, va) := KernAllocAt(vm, p, answer);
    if va == ERRO || answer == None then (u, ERRO)
    else (u.(mem := NewDirIn(u.mem, answer.value, u.dir), dirs := u.dirs + {answer.value}, homes := u.homes[p := answer.value]), va)
  }

  /** active_task for a user process: CR3 from the translation of kernel page q, at which its
      directory is mapped. */
  function Activate(vm: Vm, q: nat): Vm
    requires q < POOL
  {
    match V2P(vm.mem, vm.dir, Addr(q))
    case None => vm
    case Some(a) => vm.(dir := a / PAGE)
  }

  /** ... and for a kernel thread. */
  function ActivateKernel(vm: Vm): Vm { vm.(dir := vm.kdir) }

  /** create_user_page_table: a cleared table in kernel page p, entered at the address pde. */
  function CreateUserTable(vm: Vm, pde: nat, p: nat, answer: Option<nat>): (r: (Vm, bool))
    requires p < POOL
  {
    var (u, va) := KernAllocAt(vm, p, answer);
    if va == ERRO || answer == None then (u, false)
    else
      var f := answer.value;
      (u.(mem := Store(ZeroFrame(u.mem, f), u.dir, pde, f * PAGE + UFLAGS), utabs := u.utabs + {f}), true)
  }

  /** Entering the frame for the user page v through the active directory. */
  function EnterUserPage(vm: Vm, v: nat, answer: Option<nat>): (o: Outcome)
    requires v < WORD
  {
    match answer
    case None => Returns(ReleaseBit(vm, v), ERRO)
    case Some(f) =>
      var u := vm.(used := vm.used + {f});
      if Walk(vm.mem, vm.dir, GetPte(v)).Fault? then Faults(u)
      else Returns(u.(mem := Store(vm.mem, vm.dir, GetPte(v), f * PAGE + UFLAGS)), v - v % PAGE)
  }

  /** The clean-up of vmm_user_alloc_one_page: it clears the bit in the kernel's pool. */
  function ReleaseBit(vm: Vm, v: nat): Vm {
    if v >= KERN then vm.(free := vm.free + {PageNo(v)}, homes := vm.homes - {PageNo(v)}) else vm
  }

  /** The address of v's entry in the directory mapped at kernel page q. */
  function PdeAt(q: nat, v: nat): nat { Addr(q) + DirIndex(v) * 4 }

  /** vmm_user_alloc_one_page in the running process, whose directory is mapped at kernel page
      q: `granted` is the answer of the process's own bitmap; p is the kernel page for a new
      page table, None when the pool is empty. */
  function UserAlloc(vm: Vm, q: nat, v: nat, granted: bool, p: Option<nat>, table: Option<nat>, page: Option<nat>): (o: Outcome)
    requires v < WORD && (p.Some? ==> p.value < POOL)
  {
    if !granted then Returns(ReleaseBit(vm, v), ERRO)
    else
      match Load(vm.mem, vm.dir, PdeAt(q, v))
      case None => Faults(vm)
      case Some(entry) =>
        if Present(entry) then EnterUserPage(vm, v, page)
        else if p == None then Returns(ReleaseBit(vm, v), ERRO)
        else
          var (u, ok) := CreateUserTable(vm, PdeAt(q, v), p.value, table);
          if ok then EnterUserPage(u, v, page) else Returns(ReleaseBit(u, v), ERRO)
  }

  // ----- the invariant

  /** Frame of the kernel page table for slot i of the directories. */
  function KTab(vm: Vm, i: nat): nat { FrameOf(Read(vm.mem, Loc(vm.kdir, i))) }

  ghost function AllDirs(vm: Vm): set<nat> { vm.dirs + {vm.kdir} }

  /** Every directory maps itself and has the kernel directory's kernel half. */
  ghost predicate DirOk(vm: Vm, d: nat) {
    && SelfMapped(vm.mem, d)
    && (forall i :: 768 <= i < 1023 ==> Read(vm.mem, Loc(d, i)) == Read(vm.mem, Loc(vm.kdir, i)))
  }

  ghost predicate TabOk(vm: Vm, i: nat) {
    && Present(Read(vm.mem, Loc(vm.kdir, i)))
    && KTab(vm, i) in vm.used && KTab(vm, i) !in AllDirs(vm) && KTab(vm, i) !in vm.utabs
  }

  /** The user half of a user directory points at user page tables only. */
  ghost predicate UserHalfOk(vm: Vm, d: nat) {
    forall i :: 0 <= i < 768 && Present(Read(vm.mem, Loc(d, i))) ==> FrameOf(Read(vm.mem, Loc(d, i))) in vm.utabs
  }

  ghost predicate Tables(vm: Vm) {
    && vm.dir in AllDirs(vm) && vm.kdir !in vm.dirs
    && (forall d :: d in AllDirs(vm) ==> DirOk(vm, d))
    && (forall i :: 768 <= i < 1023 ==> TabOk(vm, i))
    && (forall d :: d in vm.dirs ==> UserHalfOk(vm, d))
    && AllDirs(vm) <= vm.used && vm.utabs <= vm.used && vm.utabs !! AllDirs(vm)
  }

  /** One kernel half in all directories, and reserved pages never free: what holds whatever
      kernel page tables the directories start with. */
  ghost predicate Base(vm: Vm) {
    Tables(vm) && forall p :: p in vm.free ==> 0 <= p < RESERVED
  }

  predicate DifferentTabs(vm: Vm, i: nat, j: nat) { KTab(vm, i) != KTab(vm, j) }

  /** Every slot of the kernel half has a page table of its own. */
  ghost predicate TabsApart(vm: Vm) {
    forall i, j :: 768 <= i < j < 1023 ==> DifferentTabs(vm, i, j)
  }

  /** The word that maps kernel page p. */
  function Slot(vm: Vm, p: nat): Loc { Loc(KTab(vm, 768 + p / 1024), p % 1024) }

  predicate Mapped(vm: Vm, p: nat) {
    var e := Read(vm.mem, Slot(vm, p));
    Present(e) && FrameOf(e) in vm.used
  }

  predicate Separate(vm: Vm, p: nat, q: nat) { FrameOf(Read(vm.mem, Slot(vm, p))) != FrameOf(Read(vm.mem, Slot(vm, q))) }

  predicate Busy(vm: Vm, p: int) { 0 <= p < RESERVED && p !in vm.free }

  /** Busy kernel pages are mapped, to pairwise different frames. */
  ghost predicate Mappings(vm: Vm) {
    && (forall p :: Busy(vm, p) ==> Mapped(vm, p))
    && (forall p, q {:trigger Separate(vm, p, q)} :: Busy(vm, p) && Busy(vm, q) && p != q ==> Separate(vm, p, q))
  }

  /** The kernel page taken for a directory still shows it. */
  predicate Home(vm: Vm, q: int)
    requires q in vm.homes
  {
    Busy(vm, q) && vm.homes[q] in vm.dirs && FrameOf(Read(vm.mem, Slot(vm, q))) == vm.homes[q]
  }

  ghost predicate Homes(vm: Vm) { forall q :: q in vm.homes ==> Home(vm, q) }

  ghost predicate Inv(vm: Vm) { Base(vm) && TabsApart(vm) && Mappings(vm) && Homes(vm) }
}
