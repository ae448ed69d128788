/** Kernel virtual memory over its real data: the bitmap in bytes, and page tables written
    through the directory that maps itself. */
module Vmm {
  import opened Machine
  import opened Wrappers
  import opened Paging
  import opened Vm
  import opened VmInv
  import opened VmRuns
  import Bits = Bitmap

  /** p is the page that bitmap_alloc finds, None when the pool is empty. */
  ghost predicate LowestFree(vm: Vm, p: Option<nat>) {
    if p == None then vm.free == {} else Least(vm.free, p.value) && p.value < POOL
  }

  class Vmm {
    const pool: Bits.Bitmap         // kern_vmm_pool
    const kdir: nat
    var mem: Mem
    var dir: nat                    // CR3
    ghost var vm: Vm

    ghost predicate PoolOk()
      reads this, pool
    {
      pool.Valid() && pool.hdr == KERN && pool.bytes.Length == 0x8000
    }

    /** The data are a picture of `vm`. */
    ghost predicate Linked()
      reads this, pool, pool.bytes
    {
      PoolOk() && vm.free == pool.Free() && vm.mem == mem && vm.dir == dir && vm.kdir == kdir
    }

    ghost predicate Valid()
      reads this, pool, pool.bytes
    {
      Linked() && Base(vm)
    }

    /** vmm_kern_init: all free, then the kernel's own pages one by one, then the last 128 bytes. */
    constructor (bitmap: array<bv8>, mem: Mem, kdir: nat, pages: nat, ghost used: set<nat>)
      requires bitmap.Length == 0x8000 && Booted(mem, kdir, used, pages)
      modifies bitmap
      ensures Valid() && pool.bytes == bitmap && vm == Init(mem, kdir, used, pages)
      ensures forall p :: p in pool.Free() <==> pages <= p < RESERVED
    {
      var b := new Bits.Bitmap(KERN, bitmap);
      pool, this.kdir, this.mem, dir := b, kdir, mem, kdir;
      vm := Init(mem, kdir, used, pages);
      new;
      pool.InitMem();
      TakeFirst(pages);
      ClearLast(pages);
      InitInv(mem, kdir, used, pages);
      assert pool.Free() == vm.free;
    }

    method TakeFirst(pages: nat)
      requires PoolOk() && pages <= 1024 && forall p :: p in pool.Free() <==> 0 <= p < POOL
      modifies pool.bytes
      ensures forall p :: p in pool.Free() <==> pages <= p < POOL
    {
      var i := 0;
      while i < pages
        invariant 0 <= i <= pages
        invariant forall p :: p in pool.Free() <==> i <= p < POOL
      {
        assert i in pool.Free();
        var rem := pool.Alloc();
        i := i + 1;
      }
    }

    method ClearLast(pages: nat)
      requires PoolOk() && pages <= 1024 && forall p :: p in pool.Free() <==> pages <= p < POOL
      modifies pool.bytes
      ensures forall p :: p in pool.Free() <==> pages <= p < RESERVED
    {
      ghost var before := pool.bytes[..];
      assert pool.Free() == Bits.FreeSet(before);
      assert forall p :: p in Bits.FreeSet(before) <==> pages <= p < POOL;
      var probe, cnt := 0x8000 - 1, 0;
      while cnt < 128
        invariant 0 <= cnt <= 128 && probe == 0x8000 - 1 - cnt
        invariant forall k :: 0x8000 - cnt <= k < 0x8000 ==> pool.bytes[k] == 0
        invariant forall k :: 0 <= k < 0x8000 - cnt ==> pool.bytes[k] == before[k]
      {
        pool.bytes[probe] := 0;
        cnt, probe := cnt + 1, probe - 1;
      }
      forall p ensures p in pool.Free() <==> pages <= p < RESERVED {
        ClearedBytes(before, pool.bytes[..], p);
      }
    }

    // ----- kernel pages

    /** vmm_kern_alloc: the lowest free page of the pool, mapped to the frame of the answer. */
    method KernAlloc(answer: Option<nat>) returns (r: nat)
      requires Valid() && Fresh(vm, answer)
      modifies this, pool.bytes
      ensures Valid()
      ensures old(vm.free) == {} || answer == None ==> r == ERRO && vm == old(vm) && pool.bytes[..] == old(pool.bytes[..])
      ensures old(vm.free) != {} && answer.Some? ==>
                exists p: nat :: Least(old(vm.free), p) && p < RESERVED && r == Addr(p) && vm == KernAllocAt(old(vm), p, answer).0
    {
      ghost var before := pool.bytes[..];
      r := pool.Alloc();
      if r == ERRO {
        EmptyPool(vm, old(pool.Free()), r);
        return;
      }
      ghost var p :| Least(vm.free, p) && r == pool.Addr(p) && pool.Free() == vm.free - {p};
      KernAllocAtKeeps(vm, p, answer);
      r := MapLowest(p, r, answer);
      if answer == None { Bits.SameSetSameBytes(before, pool.bytes[..]); }
    }

    /** The rest of vmm_kern_alloc, once the bitmap has given up its lowest page p. */
    method MapLowest(ghost p: nat, target: nat, answer: Option<nat>) returns (r: nat)
      requires PoolOk() && vm.mem == mem && vm.dir == dir && vm.kdir == kdir
      requires p < RESERVED && target == Addr(p) && pool.Free() == vm.free - {p}
      modifies this, pool.bytes
      ensures Linked() && (vm, r) == KernAllocAt(old(vm), p, answer)
    {
      LowestFields(p);
      vm := vm.(free := vm.free - {p});
      r := MapTarget(target, answer);
    }

    /** Behind the bitmap: take a frame and enter it, or clean up. */
    method MapTarget(target: nat, answer: Option<nat>) returns (r: nat)
      requires Linked() && KERN <= target < WORD
      modifies this, pool.bytes
      ensures Linked() && (vm, r) == Back(old(vm), PageNo(target), target, answer)
    {
      TargetFields(target);
      if answer == None {
        pool.ReleaseOnePage(target);
        vm := vm.(free := vm.free + {PageNo(target)});
        r := ERRO;
      } else {
        mem := Store(mem, dir, GetPte(target), answer.value * PAGE + KFLAGS);
        vm := Back(vm, PageNo(target), target, answer).0;
        r := target;
      }
    }

    /** vmm_kern_alloc_one_page. */
    method KernAllocOnePage(target: nat, answer: Option<nat>) returns (r: nat)
      requires Valid() && target < WORD && Fresh(vm, answer)
      modifies this, pool.bytes
      ensures Valid() && (vm, r) == KernAllocOne(old(vm), target, answer)
      ensures r == ERRO ==> pool.bytes[..] == old(pool.bytes[..])
    {
      ghost var before := pool.bytes[..];
      KernAllocOneKeeps(vm, target, answer);
      assert pool.PageNo(target) == PageNo(target);
      r := pool.AllocOnePage(target);
      if r == ERRO {
        return;
      }
      TargetFields(target);
      vm := vm.(free := vm.free - {PageNo(target)});
      r := MapTarget(target, answer);
      if r == ERRO { Bits.SameSetSameBytes(before, pool.bytes[..]); }
    }

    /** vmm_kern_release_one_page; the state stays good exactly when the page is not reserved. */
    method KernReleasePage(target: nat)
      requires Valid() && target < WORD
      modifies this, pool.bytes
      ensures Linked() && vm == KernRelease(old(vm), target)
      ensures Valid() <==> target < 0xFFC0_0000
    {
      KernReleaseKeepsIff(vm, target);
      if target >= KERN { ReleaseLinked(target); }
    }

    method ReleaseLinked(target: nat)
      requires Linked() && KERN <= target < WORD
      modifies this, pool.bytes
      ensures Linked() && vm == KernRelease(old(vm), target)
    {
      TargetFields(target);
      pool.ReleaseOnePage(target);
      var entry := Load(mem, dir, GetPte(target));
      if entry != None {
        mem := Store(mem, dir, GetPte(target), entry.value - entry.value % 2);
      }
      vm := KernRelease(vm, target);
    }

    // ----- memory behind a kernel page

    /** memset of a mapped page to zero, word by word. */
    method ZeroPage(va: nat, ghost f: nat)
      requires PageAt(mem, dir, va, f) && f != dir
      modifies `mem
      ensures mem == ZeroFrame(old(mem), f)
    {
      ghost var before := mem;
      var i, n := 0, 1024;
      while i < n
        invariant 0 <= i <= n == 1024 && mem == ZeroUpto(before, f, i) && PageAt(mem, dir, va, f)
      {
        ZeroOnce(before, dir, va, f, i);
        mem := Store(mem, dir, va + 4 * i, 0);
        i := i + 1;
      }
      ZeroWhole(before, f, n);
    }

    /** pdt_mapping_helper: copy the kernel half of the active directory, seen through its own entries. */
    method CopyKernelHalf(va: nat, ghost f: nat)
      requires PageAt(mem, dir, va, f) && f != dir && SelfMapped(mem, dir)
      modifies `mem
      ensures mem == CopyHalf(old(mem), f, dir) && PageAt(mem, dir, va, f)
    {
      ghost var before := mem;
      var i, n := 0, 256;
      while i < n
        invariant 0 <= i <= n == 256 && mem == CopyUpto(before, f, dir, i) && PageAt(mem, dir, va, f)
      {
        CopyOnce(before, dir, va, f, i);
        var w := Load(mem, dir, GetPde(KERN) + 4 * i);
        mem := Store(mem, dir, va + 0xC00 + 4 * i, w.value);
        i := i + 1;
      }
      CopyWhole(before, f, dir, n);
    }

    /** create_user_task_pdt: a kernel page for the directory, cleared, with the kernel half
        of the active directory and its last entry pointing at itself. */
    method CreateUserPdt(answer: Option<nat>) returns (r: nat)
      requires Valid() && Fresh(vm, answer)
      modifies this, pool.bytes
      ensures Valid()
      ensures old(vm.free) == {} || answer == None ==> r == ERRO && vm == old(vm) && pool.bytes[..] == old(pool.bytes[..])
      ensures old(vm.free) != {} && answer.Some? ==>
                exists p: nat :: Least(old(vm.free), p) && p < RESERVED && r == Addr(p) && vm == CreatePdt(old(vm), p, answer).0
    {
      ghost var s := vm;
      r := KernAlloc(answer);
      if r != ERRO {
        ghost var p: nat :| Least(s.free, p) && p < RESERVED && r == Addr(p) && vm == KernAllocAt(s, p, answer).0;
        KernAllocAtKeeps(s, p, answer);
        CreatePdtKeeps(s, p, answer);
        Populate(s, p, answer.value, r);
      }
    }

    /** The steps behind a successful allocation of the directory's page. */
    method Populate(ghost s: Vm, ghost p: nat, ghost f: nat, va: nat)
      requires Linked() && Base(s) && p in s.free && p < RESERVED && Fresh(s, Some(f)) && va == Addr(p)
      requires vm == Entered(s, p, f)
      modifies `mem, `vm
      ensures Linked() && vm == DirMade(s, p, f)
    {
      NewPage(s, p, f);
      FillDirectory(va, f);
      vm := DirMade(s, p, f);
    }

    method FillDirectory(va: nat, ghost f: nat)
      requires PageAt(mem, dir, va, f) && f != dir && SelfMapped(mem, dir) && va < WORD
      modifies `mem
      ensures mem == NewDirIn(old(mem), f, dir)
    {
      ZeroKeepsPage(mem, dir, va, f);
      ZeroPage(va, f);
      CopyKeepsSelf(mem, f, dir);
      CopyKernelHalf(va, f);
      MapLastPde(va, f);
    }

    /** mapping_last_pde, with the physical address found by vmm_v2p. */
    method MapLastPde(va: nat, ghost f: nat)
      requires PageAt(mem, dir, va, f) && f != dir && SelfMapped(mem, dir) && va < WORD
      modifies `mem
      ensures mem == old(mem)[Loc(f, 1023) := f * PAGE + KFLAGS]
    {
      PageV2P(mem, dir, va, f);
      var paddr := V2P(mem, dir, va);
      PageFields(f, 0);
      PageStore(mem, dir, va, f, 0x1000 - 4, f * PAGE + KFLAGS);
      mem := Store(mem, dir, va + 0x1000 - 4, paddr.value - paddr.value % PAGE + KFLAGS);
    }

    /** active_task: CR3 from the kernel directory for a kernel thread, from the translation of
        the directory's page for a user process. The stopping path behind a failed translation
        is never taken. */
    method ActiveTask(isKernThread: bool, pdt: nat, ghost q: nat)
      requires Valid() && (!isKernThread ==> q < RESERVED && pdt == Addr(q))
      modifies `dir, `vm
      ensures Linked() && vm == if isKernThread then ActivateKernel(old(vm)) else Activate(old(vm), q)
      ensures dir == if isKernThread then kdir else FrameOf(Read(old(mem), Slot(old(vm), q)))
      ensures mem == old(mem) && vm == old(vm).(dir := dir)
      ensures Valid() <==> dir in AllDirs(old(vm))
      ensures isKernThread ==> Valid()
    {
      if isKernThread {
        ActivateKernelKeeps(vm);
        dir := kdir;
        vm := ActivateKernel(vm);
      } else {
        ActivateKeepsIff(vm, q);
        V2POfPage(vm, q);
        var paddr := V2P(mem, dir, pdt);
        dir := paddr.value / PAGE;
        vm := Activate(vm, q);
      }
    }

    // ----- user pages

    /** create_user_page_table: the lowest free kernel page p for the table, cleared, and
        entered at pde, the address of word i of kernel page q, whatever that page shows. */
    method CreateUserPageTable(pde: nat, ghost q: nat, ghost i: nat, ghost p: Option<nat>, answer: Option<nat>) returns (ok: bool)
      requires Valid() && q < RESERVED && i < 768 && pde == Addr(q) + i * 4 && Fresh(vm, answer)
      requires LowestFree(vm, p)
      modifies this, pool.bytes
      ensures Valid()
      ensures ok <==> p.Some? && answer.Some?
      ensures !ok ==> vm == old(vm) && pool.bytes[..] == old(pool.bytes[..])
      ensures p.Some? ==> (vm, ok) == CreateUserTable(old(vm), pde, p.value, answer)
    {
      ghost var s := vm;
      if p.Some? { CreateTableKeeps(s, q, i, pde, p.value, answer); }
      var va := KernAlloc(answer);
      ok := va != ERRO;
      if ok {
        KernAllocAtKeeps(s, p.value, answer);
        EnterTable(s, p.value, answer.value, va, pde);
      }
    }

    /** The steps behind a successful allocation of the table's page. */
    method EnterTable(ghost s: Vm, ghost p: nat, ghost f: nat, va: nat, pde: nat)
      requires Linked() && Base(s) && p in s.free && p < RESERVED && Fresh(s, Some(f)) && va == Addr(p)
      requires vm == Entered(s, p, f)
      modifies `mem, `vm
      ensures Linked() && vm == TableMade(s, pde, p, f)
    {
      NewPage(s, p, f);
      InstallTable(va, f, pde);
      vm := TableMade(s, pde, p, f);
    }

    method InstallTable(va: nat, ghost f: nat, pde: nat)
      requires PageAt(mem, dir, va, f) && f != dir && SelfMapped(mem, dir) && va < WORD
      modifies `mem
      ensures mem == Store(ZeroFrame(old(mem), f), dir, pde, f * PAGE + UFLAGS)
    {
      ZeroKeepsPage(mem, dir, va, f);
      ZeroPage(va, f);
      PageV2P(mem, dir, va, f);
      var paddr := V2P(mem, dir, va);
      PageFields(f, 0);
      mem := Store(mem, dir, pde, paddr.value - paddr.value % PAGE + UFLAGS);
    }

    /** vmm_user_alloc_one_page in the running process: `user` is its bitmap, pdt the kernel
        page q taken for its directory, p the lowest free kernel page. A failure clears the bit
        of the kernel's pool, if there is one, and leaves the process's own bit taken; `faulted`
        says that the call stopped at a page fault. */
    method UserAllocOnePage(user: Bits.Bitmap, pdt: nat, v: nat, ghost q: nat, ghost p: Option<nat>, table: Option<nat>, page: Option<nat>)
      returns (r: nat, faulted: bool)
      requires Valid() && dir in vm.dirs && q < RESERVED && pdt == Addr(q) && v < WORD
      requires LowestFree(vm, p)
      requires user.Valid() && user.hdr == 0 && user.bytes.Length * 8 * PAGE == KERN && user.bytes != pool.bytes
      requires Fresh(vm, table) && Fresh(vm, page) && (table.Some? && page.Some? ==> table.value != page.value)
      modifies this, pool.bytes, user.bytes
      ensures Linked() && (Valid() <==> v < 0xFFC0_0000)
      ensures UserAlloc(old(vm), q, v, user.PageNo(v) in old(user.Free()), p, table, page) == if faulted then Faults(vm) else Returns(vm, r)
      ensures user.Free() == old(user.Free()) - {user.PageNo(v)}
    {
      faulted := false;
      var got := user.AllocOnePage(v);
      if got == ERRO {
        r := CleanUp(v);
        return;
      }
      r, faulted := EnterUser(pdt, v, q, p, table, page);
    }

    /** Behind the process's bitmap: make sure of the page table, then enter the page. */
    method EnterUser(pdt: nat, v: nat, ghost q: nat, ghost p: Option<nat>, table: Option<nat>, page: Option<nat>) returns (r: nat, faulted: bool)
      requires Valid() && dir in vm.dirs && q < RESERVED && pdt == Addr(q) && v < KERN
      requires LowestFree(vm, p)
      requires Fresh(vm, table) && Fresh(vm, page) && (table.Some? && page.Some? ==> table.value != page.value)
      modifies this, pool.bytes
      ensures Valid()
      ensures UserAlloc(old(vm), q, v, true, p, table, page) == if faulted then Faults(vm) else Returns(vm, r)
    {
      ghost var s := vm;
      UserDirIndex(v);
      UserAllocKeeps(s, q, v, true, p, table, page);
      r, faulted := ERRO, false;
      var pde := pdt + DirIndex(v) * 4;
      assert pde == PdeAt(q, v);
      var entry := Load(mem, dir, pde);
      if entry == None {
        faulted := true;
        return;
      }
      if entry.value % 2 == 0 {
        var ok := CreateUserPageTable(pde, q, DirIndex(v), p, table);
        if p.Some? { AfterTable(s, q, v, p, table, page, (vm, ok)); }
        if !ok {
          r := CleanUp(v);
          return;
        }
      }
      r, faulted := EnterPage(v, page);
    }

    method EnterPage(v: nat, page: Option<nat>) returns (r: nat, faulted: bool)
      requires Linked() && v < WORD
      modifies this, pool.bytes
      ensures Linked() && EnterUserPage(old(vm), v, page) == if faulted then Faults(vm) else Returns(vm, r)
    {
      faulted := false;
      if page == None {
        r := CleanUp(v);
      } else {
        r, faulted := v - v % PAGE, Walk(mem, dir, GetPte(v)).Fault?;
        ghost var s := vm;
        mem := Store(mem, dir, GetPte(v), page.value * PAGE + UFLAGS);
        vm := EnterUserPage(s, v, page).vm;
      }
    }

    /** clean_bitmap_alloc: the release goes to the kernel's pool. */
    method CleanUp(v: nat) returns (r: nat)
      requires Linked() && v < WORD
      modifies this, pool.bytes
      ensures Linked() && vm == ReleaseBit(old(vm), v) && r == ERRO
      ensures old(Valid()) ==> (Valid() <==> v < 0xFFC0_0000)
    {
      if Base(vm) { ReleaseBitKeepsIff(vm, v); }
      if v >= KERN { TargetFields(v); }
      pool.ReleaseOnePage(v);
      vm := ReleaseBit(vm, v);
      r := ERRO;
    }
  }

  lemma LowestFields(p: nat)
    requires p < RESERVED
    ensures KERN <= Addr(p) < WORD && PageNo(Addr(p)) == p
  {
    AddrFields(p);
  }

  // ----- pages seen through the active directory

  /** The page at va is frame f, and f holds neither the directory nor the page's own table. */
  predicate PageAt(mem: Mem, dir: nat, va: nat, f: nat) {
    && va % PAGE == 0
    && Present(Pde(mem, dir, va)) && Present(Pte(mem, dir, va))
    && FrameOf(Pte(mem, dir, va)) == f && f != FrameOf(Pde(mem, dir, va))
  }

  lemma SamePage(va: nat, o: nat)
    requires va % PAGE == 0 && o < PAGE
    ensures DirIndex(va + o) == DirIndex(va) && TabIndex(va + o) == TabIndex(va) && Offset(va + o) == o
  {
    var k := va / PAGE;
    PageFields(k, 0);
    PageFields(k, o);
  }

  /** A store inside the page writes one word of its frame and keeps the page in place. */
  lemma PageStore(mem: Mem, dir: nat, va: nat, f: nat, o: nat, w: nat)
    requires PageAt(mem, dir, va, f) && f != dir && o < PAGE && o % 4 == 0
    ensures Store(mem, dir, va + o, w) == mem[Loc(f, o / 4) := w]
    ensures PageAt(mem[Loc(f, o / 4) := w], dir, va, f)
  {
    SamePage(va, o);
  }

  lemma PageV2P(mem: Mem, dir: nat, va: nat, f: nat)
    requires PageAt(mem, dir, va, f) && SelfMapped(mem, dir) && va < WORD
    ensures V2P(mem, dir, va) == Some(f * PAGE)
  {
    V2PIsWalk(mem, dir, va);
  }

  lemma ZeroKeepsPage(mem: Mem, dir: nat, va: nat, f: nat)
    requires PageAt(mem, dir, va, f) && f != dir && SelfMapped(mem, dir)
    ensures PageAt(ZeroFrame(mem, f), dir, va, f) && SelfMapped(ZeroFrame(mem, f), dir)
  {
    ZeroReads(mem, f);
  }

  /** Word i of the kernel half of the active directory, read through get_pde. */
  lemma DirWord(mem: Mem, dir: nat, i: nat)
    requires SelfMapped(mem, dir) && i < 256
    ensures Load(mem, dir, GetPde(KERN) + 4 * i) == Some(Read(mem, Loc(dir, 768 + i)))
  {
    SamePage(GetPde(KERN) - 0xC00, 0xC00 + 4 * i);
  }

  /** The first i words of frame f cleared. */
  function ZeroUpto(mem: Mem, f: nat, i: nat): Mem {
    if i == 0 then mem else ZeroUpto(mem, f, i - 1)[Loc(f, i - 1) := 0]
  }

  /** The first i words of the kernel half copied from directory d to frame f. */
  function CopyUpto(mem: Mem, f: nat, d: nat, i: nat): Mem {
    if i == 0 then mem else CopyUpto(mem, f, d, i - 1)[Loc(f, 767 + i) := Read(mem, Loc(d, 767 + i))]
  }

  lemma {:induction false} ZeroAt(mem: Mem, f: nat, i: nat, l: Loc)
    ensures var z := ZeroUpto(mem, f, i);
            if l.frame == f && l.index < i then l in z && z[l] == 0
            else (l in z <==> l in mem) && (l in mem ==> z[l] == mem[l])
  {
    if i > 0 { ZeroAt(mem, f, i - 1, l); }
  }

  lemma {:induction false} CopyAt(mem: Mem, f: nat, d: nat, i: nat, l: Loc)
    ensures var c := CopyUpto(mem, f, d, i);
            if l.frame == f && 768 <= l.index < 768 + i then l in c && c[l] == Read(mem, Loc(d, l.index))
            else (l in c <==> l in mem) && (l in mem ==> c[l] == mem[l])
  {
    if i > 0 { CopyAt(mem, f, d, i - 1, l); }
  }

  predicate SameAt(a: Mem, b: Mem, l: Loc) { (l in a <==> l in b) && (l in a ==> a[l] == b[l]) }

  lemma SameEverywhere(a: Mem, b: Mem)
    requires forall l: Loc :: SameAt(a, b, l)
    ensures a == b
  {
    forall l: Loc {:trigger a[l]} {:trigger l in a} ensures (l in a <==> l in b) && (l in a ==> a[l] == b[l]) { assert SameAt(a, b, l); }
  }

  lemma ZeroFrameAt(mem: Mem, f: nat, l: Loc)
    ensures var z := ZeroFrame(mem, f);
            if l.frame == f && l.index < 1024 then l in z && z[l] == 0
            else (l in z <==> l in mem) && (l in mem ==> z[l] == mem[l])
  {
    var z := map i | 0 <= i < 1024 :: Loc(f, i) := 0;
    if l.frame == f && l.index < 1024 { assert Loc(f, l.index) in z; }
  }

  lemma CopyHalfAt(mem: Mem, f: nat, d: nat, l: Loc)
    ensures var c := CopyHalf(mem, f, d);
            if l.frame == f && 768 <= l.index < 1024 then l in c && c[l] == Read(mem, Loc(d, l.index))
            else (l in c <==> l in mem) && (l in mem ==> c[l] == mem[l])
  {
    var z := map i | 768 <= i < 1024 :: Loc(f, i) := Read(mem, Loc(d, i));
    if l.frame == f && 768 <= l.index < 1024 { assert Loc(f, l.index) in z; }
  }

  lemma ZeroWhole(mem: Mem, f: nat, n: nat)
    requires n == 1024
    ensures ZeroUpto(mem, f, n) == ZeroFrame(mem, f)
  {
    forall l: Loc ensures SameAt(ZeroUpto(mem, f, n), ZeroFrame(mem, f), l) {
      ZeroAt(mem, f, n, l);
      ZeroFrameAt(mem, f, l);
    }
    SameEverywhere(ZeroUpto(mem, f, n), ZeroFrame(mem, f));
  }

  lemma CopyWhole(mem: Mem, f: nat, d: nat, n: nat)
    requires n == 256
    ensures CopyUpto(mem, f, d, n) == CopyHalf(mem, f, d)
  {
    forall l: Loc ensures SameAt(CopyUpto(mem, f, d, n), CopyHalf(mem, f, d), l) {
      CopyAt(mem, f, d, n, l);
      CopyHalfAt(mem, f, d, l);
    }
    SameEverywhere(CopyUpto(mem, f, d, n), CopyHalf(mem, f, d));
  }

  /** One word of the memset. */
  lemma ZeroOnce(mem: Mem, dir: nat, va: nat, f: nat, i: nat)
    requires PageAt(ZeroUpto(mem, f, i), dir, va, f) && f != dir && i < 1024
    ensures Store(ZeroUpto(mem, f, i), dir, va + 4 * i, 0) == ZeroUpto(mem, f, i + 1)
    ensures PageAt(ZeroUpto(mem, f, i + 1), dir, va, f)
  {
    PageStore(ZeroUpto(mem, f, i), dir, va, f, 4 * i, 0);
  }

  /** One word of the memcpy. */
  lemma CopyOnce(mem: Mem, dir: nat, va: nat, f: nat, i: nat)
    requires var cur := CopyUpto(mem, f, dir, i); PageAt(cur, dir, va, f) && SelfMapped(mem, dir)
    requires f != dir && i < 256
    ensures var cur, w := CopyUpto(mem, f, dir, i), Read(mem, Loc(dir, 768 + i));
            && Load(cur, dir, GetPde(KERN) + 4 * i) == Some(w)
            && Store(cur, dir, va + 0xC00 + 4 * i, w) == CopyUpto(mem, f, dir, i + 1)
            && PageAt(CopyUpto(mem, f, dir, i + 1), dir, va, f)
  {
    var cur, w := CopyUpto(mem, f, dir, i), Read(mem, Loc(dir, 768 + i));
    CopyReadsDir(mem, f, dir, i);
    DirWord(cur, dir, i);
    PageStore(cur, dir, va, f, 0xC00 + 4 * i, w);
  }

  lemma CopyReadsDir(mem: Mem, f: nat, d: nat, i: nat)
    requires f != d
    ensures forall k :: Read(CopyUpto(mem, f, d, i), Loc(d, k)) == Read(mem, Loc(d, k))
    ensures SelfMapped(mem, d) ==> SelfMapped(CopyUpto(mem, f, d, i), d)
  {
    forall k ensures Read(CopyUpto(mem, f, d, i), Loc(d, k)) == Read(mem, Loc(d, k)) { CopyAt(mem, f, d, i, Loc(d, k)); }
  }

  lemma CopyKeepsSelf(mem: Mem, f: nat, d: nat)
    requires f != d && SelfMapped(mem, d)
    ensures SelfMapped(CopyHalf(mem, f, d), d)
  {
    CopyReads(mem, f, d);
  }

  /** A page just allocated is its frame, apart from every directory and table. */
  lemma NewPage(s: Vm, p: nat, f: nat)
    requires Base(s) && p in s.free && p < RESERVED && Fresh(s, Some(f))
    ensures var u := Entered(s, p, f);
            PageAt(u.mem, u.dir, Addr(p), f) && f != u.dir && SelfMapped(u.mem, u.dir) && Addr(p) < WORD
  {
    AddrFields(p);
    FreshApart(s, f);
    assert DirOk(s, s.dir) && TabOk(s, 768 + p / 1024);
    SlotPage(s, p, f);
  }

  /** An address whose table is t, under a directory the write does not touch. */
  lemma WrittenEntry(mem: Mem, dir: nat, v: nat, t: nat, f: nat)
    requires v % PAGE == 0 && Present(Pde(mem, dir, v)) && FrameOf(Pde(mem, dir, v)) == t && t != dir && f != t
    ensures var m := mem[Loc(t, TabIndex(v)) := f * PAGE + KFLAGS];
            PageAt(m, dir, v, f) && (SelfMapped(mem, dir) ==> SelfMapped(m, dir))
  {
    EntryFields(f);
  }

  lemma SlotPage(s: Vm, p: nat, f: nat)
    requires Tables(s) && p < RESERVED && f != KTab(s, 768 + p / 1024)
    ensures PageAt(s.mem[Slot(s, p) := f * PAGE + KFLAGS], s.dir, Addr(p), f)
    ensures SelfMapped(s.mem[Slot(s, p) := f * PAGE + KFLAGS], s.dir)
  {
    AddrFields(p);
    var i := 768 + p / 1024;
    assert DirOk(s, s.dir) && TabOk(s, i);
    WrittenEntry(s.mem, s.dir, Addr(p), KTab(s, i), f);
  }

  lemma ClearedBytes(before: seq<bv8>, after: seq<bv8>, p: int)
    requires |before| == |after| == 0x8000
    requires forall k :: 0x8000 - 128 <= k < 0x8000 ==> after[k] == 0
    requires forall k :: 0 <= k < 0x8000 - 128 ==> after[k] == before[k]
    ensures p in Bits.FreeSet(after) <==> p in Bits.FreeSet(before) && p < RESERVED
  {
    Bits.NonZero(0);
    if 0 <= p < 8 * 0x8000 { assert p / 8 >= 0x8000 - 128 <==> p >= RESERVED; }
  }

  lemma EmptyPool(s: Vm, free: set<int>, r: nat)
    requires r == ERRO && s.free == free && Base(s)
    requires free != {} ==> exists p :: Least(free, p) && r == KERN + p * PAGE
    ensures free == {}
  {}
}
