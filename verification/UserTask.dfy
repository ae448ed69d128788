/** The page bitmap of a user process: 24 consecutive kernel pages, taken and given back. */
module UserTask {
  import opened Machine
  import opened Wrappers
  import opened Paging
  import opened Vm
  import opened VmInv
  import V = Vmm
  import Bits = Bitmap

  const USER_PAGES: nat := 24       // pages of a user bitmap
  const USER_BYTES: nat := 0x18000  // its length: one bit for each page below 3 GB

  predicate Within(q: int, p: int, n: nat) { p <= q < p + n }

  ghost function Span(p: int, n: nat): set<int> { set q | p <= q < p + n && Within(q, p, n) }

  /** From the i-th on, the answers are frames not in use. */
  ghost predicate FreshFrom(vm: Vm, answers: seq<Option<nat>>, i: nat) {
    forall j :: i <= j < |answers| ==> Fresh(vm, answers[j])
  }

  predicate DifferentFrames(a: Option<nat>, b: Option<nat>) { a.Some? && b.Some? ==> a.value != b.value }

  ghost predicate AllDifferent(answers: seq<Option<nat>>) {
    forall i, j :: 0 <= i < j < |answers| ==> DifferentFrames(answers[i], answers[j])
  }

  /** n pages from the lowest free one on are all free, and each gets a frame. */
  ghost predicate Room(free: set<int>, p: int, n: nat, answers: seq<Option<nat>>) {
    && n <= |answers| && Least(free, p) && Span(p, n) <= free
    && (forall i :: 0 <= i < n ==> answers[i].Some?)
  }

  /** The bitmap fills its pages exactly and covers the addresses below the kernel exactly. */
  lemma BitmapFillsPages()
    ensures USER_BYTES == USER_PAGES * PAGE && USER_BYTES * 8 * PAGE == KERN
  {}

  lemma RoomShrinks(free: set<int>, p: int, n: nat, m: nat, answers: seq<Option<nat>>)
    requires n <= m && Room(free, p, m, answers)
    ensures Room(free, p, n, answers)
  {
    assert Span(p, n) <= Span(p, m);
  }

  lemma NoRoom(free: set<int>, p: int, n: nat, answers: seq<Option<nat>>)
    requires Least(free, p) && n <= USER_PAGES == |answers| && !Room(free, p, n, answers)
    ensures forall q :: !Room(free, q, USER_PAGES, answers)
  {
    forall q | Least(free, q) ensures q == p {}
    if Room(free, p, USER_PAGES, answers) { RoomShrinks(free, p, n, USER_PAGES, answers); }
  }

  /** create_user_task_bitmap: None when the kernel stops because a page or a frame is missing. */
  method CreateUserTaskBitmap(k: V.Vmm, answers: seq<Option<nat>>) returns (r: Option<nat>, bm: Bits.Bitmap)
    requires k.Valid() && |answers| == USER_PAGES && FreshFrom(k.vm, answers, 0) && AllDifferent(answers)
    modifies k, k.pool.bytes
    ensures k.Valid() && fresh(bm) && fresh(bm.bytes)
    ensures r.Some? <==> exists p :: Room(old(k.vm.free), p, USER_PAGES, answers)
    ensures r.Some? ==> exists p: nat :: Room(old(k.vm.free), p, USER_PAGES, answers)
                          && r.value == Addr(p) && k.vm.free == old(k.vm.free) - Span(p, USER_PAGES)
    ensures r.Some? ==> bm.Valid() && bm.hdr == 0 && bm.bytes.Length == USER_BYTES
                          && (forall q :: q in bm.Free() <==> 0 <= q < KERN / PAGE)
  {
    ghost var free := k.vm.free;
    var memory := new bv8[USER_BYTES];
    bm := new Bits.Bitmap(0, memory);
    r := None;
    var head := k.KernAlloc(answers[0]);
    if head == ERRO {
      NoFirst(free, answers);
      return;
    }
    ghost var p: nat :| Least(free, p) && p < RESERVED && head == Addr(p) && k.vm == KernAllocAt(old(k.vm), p, answers[0]).0;
    FirstPage(old(k.vm), p, answers);
    var all := MorePages(k, head, free, p, answers);
    if all {
      bm.InitMem();
      r := Some(head);
      assert Room(free, p, USER_PAGES, answers);
    } else {
      NoRoom(free, p, USER_PAGES, answers);
    }
  }

  lemma NoFirst(free: set<int>, answers: seq<Option<nat>>)
    requires |answers| == USER_PAGES && (free == {} || answers[0] == None)
    ensures forall q :: !Room(free, q, USER_PAGES, answers)
  {}

  lemma FirstPage(vm: Vm, p: nat, answers: seq<Option<nat>>)
    requires Base(vm) && Least(vm.free, p) && |answers| == USER_PAGES && FreshFrom(vm, answers, 0) && AllDifferent(answers)
    requires answers[0].Some? && p < RESERVED
    ensures var u := KernAllocAt(vm, p, answers[0]).0;
            u.free == vm.free - Span(p, 1) && FreshFrom(u, answers, 1)
    ensures Room(vm.free, p, 1, answers)
  {
    KernAllocAtKeeps(vm, p, answers[0]);
    forall j | 1 <= j < |answers| ensures DifferentFrames(answers[0], answers[j]) {}
  }

  /** The loop over the 23 pages behind the first. */
  method MorePages(k: V.Vmm, head: nat, ghost free: set<int>, ghost p: nat, answers: seq<Option<nat>>) returns (all: bool)
    requires k.Valid() && |answers| == USER_PAGES && AllDifferent(answers) && FreshFrom(k.vm, answers, 1)
    requires Room(free, p, 1, answers) && k.vm.free == free - Span(p, 1) && head == Addr(p)
    requires forall q :: q in free ==> 0 <= q < RESERVED
    modifies k, k.pool.bytes
    ensures k.Valid()
    ensures all <==> Room(free, p, USER_PAGES, answers)
    ensures all ==> k.vm.free == free - Span(p, USER_PAGES)
  {
    var item, addr := 0, head + PAGE;
    while item < 23
      invariant 0 <= item <= 23 && addr == Addr(p + item + 1)
      invariant k.Valid() && FreshFrom(k.vm, answers, item + 1)
      invariant Room(free, p, item + 1, answers) && k.vm.free == free - Span(p, item + 1)
    {
      all := NextPage(k, addr, free, p, item + 1, answers);
      if !all {
        NoRoom(free, p, item + 2, answers);
        return;
      }
      item, addr := item + 1, addr + PAGE;
    }
    all := true;
  }

  /** One turn: it succeeds exactly when the next page is free and gets a frame. */
  method NextPage(k: V.Vmm, addr: nat, ghost free: set<int>, ghost p: nat, n: nat, answers: seq<Option<nat>>) returns (got: bool)
    requires k.Valid() && |answers| == USER_PAGES && 0 < n < USER_PAGES && AllDifferent(answers) && FreshFrom(k.vm, answers, n)
    requires Room(free, p, n, answers) && k.vm.free == free - Span(p, n) && addr == Addr(p + n)
    requires forall q :: q in free ==> 0 <= q < RESERVED
    modifies k, k.pool.bytes
    ensures k.Valid()
    ensures got <==> Room(free, p, n + 1, answers)
    ensures got ==> k.vm.free == free - Span(p, n + 1) && FreshFrom(k.vm, answers, n + 1)
  {
    assert p + n - 1 in Span(p, n);
    ghost var q := p + n;
    NextRoom(free, p, n, q, answers);
    OnePage(k.vm, q, answers, n);
    var r := k.KernAllocOnePage(addr, answers[n]);
    got := r != ERRO;
  }

  lemma NextRoom(free: set<int>, p: nat, n: nat, q: nat, answers: seq<Option<nat>>)
    requires n < |answers| && Room(free, p, n, answers) && q == p + n
    ensures Room(free, p, n + 1, answers) <==> q in free - Span(p, n) && answers[n].Some?
    ensures free - Span(p, n + 1) == (free - Span(p, n)) - {q}
  {
    assert Span(p, n + 1) == Span(p, n) + {q};
    assert q in Span(p, n + 1);
  }

  lemma OnePage(vm: Vm, q: nat, answers: seq<Option<nat>>, n: nat)
    requires Base(vm) && n < |answers| && AllDifferent(answers) && FreshFrom(vm, answers, n) && q <= RESERVED
    ensures var r := KernAllocOne(vm, Addr(q), answers[n]);
            && (r.1 != ERRO <==> q in vm.free && answers[n].Some?)
            && (r.1 != ERRO ==> r.0.free == vm.free - {q} && FreshFrom(r.0, answers, n + 1))
  {
    AddrFields(q);
    KernAllocOneKeeps(vm, Addr(q), answers[n]);
    forall j | n < j < |answers| ensures DifferentFrames(answers[n], answers[j]) {}
  }

  /** release_user_task_bitmap: the 24 pages are free again. */
  method ReleaseUserTaskBitmap(k: V.Vmm, header: nat, ghost p: nat)
    requires k.Valid() && header == Addr(p) && p + USER_PAGES <= RESERVED
    modifies k, k.pool.bytes
    ensures k.Valid() && k.vm.free == old(k.vm.free) + Span(p, USER_PAGES)
  {
    var vm, i := header, 0;
    while i < 24
      invariant 0 <= i <= 24 && vm == Addr(p + i)
      invariant k.Valid() && k.vm.free == old(k.vm.free) + Span(p, i)
    {
      AddrFields(p + i);
      assert Span(p, i + 1) == Span(p, i) + {p + i};
      k.KernReleasePage(vm);
      vm, i := vm + PAGE, i + 1;
    }
  }

  /** Creating a user bitmap and releasing it restores the kernel's bitmap byte for byte. */
  method UserTaskTest(k: V.Vmm, answers: seq<Option<nat>>) returns (created: bool)
    requires k.Valid() && |answers| == USER_PAGES && FreshFrom(k.vm, answers, 0) && AllDifferent(answers)
    modifies k, k.pool.bytes
    ensures k.Valid()
    ensures created <==> exists p :: Room(old(k.vm.free), p, USER_PAGES, answers)
    ensures created ==> k.pool.bytes[..] == old(k.pool.bytes[..])
  {
    ghost var free, before := k.vm.free, k.pool.bytes[..];
    var r, bm := CreateUserTaskBitmap(k, answers);
    created := r.Some?;
    if created {
      ghost var p: nat :| Room(free, p, USER_PAGES, answers) && r.value == Addr(p) && k.vm.free == free - Span(p, USER_PAGES);
      assert p + USER_PAGES - 1 in Span(p, USER_PAGES);
      ReleaseUserTaskBitmap(k, r.value, p);
      assert free - Span(p, USER_PAGES) + Span(p, USER_PAGES) == free;
      Bits.SameSetSameBytes(before, k.pool.bytes[..]);
    }
  }
}
