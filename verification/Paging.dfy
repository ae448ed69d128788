/** 32-bit paging as the processor walks it (Intel SDM Volume 3A, section 4.3), and the
    addresses through which a directory that maps itself shows its own entries. */
module Paging {
  import opened Machine
  import opened Wrappers

  const ERRO: nat := 0xffff_ffff

  /** Word `index` of physical page `frame`; words never written read as 0. */
  datatype Loc = Loc(frame: nat, index: nat)

  type Mem = map<Loc, nat>

  function Read(mem: Mem, l: Loc): nat { if l in mem then mem[l] else 0 }

  // ----- fields of an address and of an entry

  function DirIndex(v: nat): nat { v / 0x40_0000 }
  function TabIndex(v: nat): nat { v / PAGE % 1024 }
  function Offset(v: nat): nat { v % PAGE }

  /** The fields of byte o of page k. */
  lemma PageFields(k: nat, o: nat)
    requires o < PAGE
    ensures var v := k * PAGE + o;
            v / PAGE == k && DirIndex(v) == k / 1024 && TabIndex(v) == k % 1024 && Offset(v) == o
  {
    var d, t := k / 1024, k % 1024;
    assert k * PAGE + o == d * 0x40_0000 + (t * PAGE + o);
  }

  predicate Present(entry: nat) { entry % 2 == 1 }
  predicate Writable(entry: nat) { entry / 2 % 2 == 1 }
  predicate UserMode(entry: nat) { entry / 4 % 2 == 1 }
  function FrameOf(entry: nat): nat { entry / PAGE }

  // ----- the walk

  datatype Access = Fault | Phys(frame: nat, offset: nat)

  function Pde(mem: Mem, dir: nat, v: nat): nat { Read(mem, Loc(dir, DirIndex(v))) }

  function Pte(mem: Mem, dir: nat, v: nat): nat { Read(mem, Loc(FrameOf(Pde(mem, dir, v)), TabIndex(v))) }

  function Walk(mem: Mem, dir: nat, v: nat): Access {
    if !Present(Pde(mem, dir, v)) then Fault
    else if !Present(Pte(mem, dir, v)) then Fault
    else Phys(FrameOf(Pte(mem, dir, v)), Offset(v))
  }

  /** User mode reads and writes v when both entries are present, writable and open to it (Intel
      SDM Volume 3A, section 4.6). */
  predicate UserMay(mem: Mem, dir: nat, v: nat) {
    && Walk(mem, dir, v).Phys?
    && Writable(Pde(mem, dir, v)) && Writable(Pte(mem, dir, v)) && UserMode(Pde(mem, dir, v)) && UserMode(Pte(mem, dir, v))
  }

  /** A load of the 32-bit word at virtual address va: None is a page fault. */
  function Load(mem: Mem, dir: nat, va: nat): Option<nat> {
    match Walk(mem, dir, va)
    case Fault => None
    case Phys(f, o) => Some(Read(mem, Loc(f, o / 4)))
  }

  /** A store of a 32-bit word; a faulting store does not take place. */
  function Store(mem: Mem, dir: nat, va: nat, w: nat): Mem {
    match Walk(mem, dir, va)
    case Fault => mem
    case Phys(f, o) => mem[Loc(f, o / 4) := w]
  }

  // ----- get_pte and get_pde

  /** The address get_pte builds: directory slot 1023, then the fields of v shifted down. */
  function GetPte(v: nat): (r: nat)
    requires v < WORD
    ensures r < WORD && r % 4 == 0
    ensures DirIndex(r) == 1023 && TabIndex(r) == DirIndex(v) && Offset(r) == TabIndex(v) * 4
  {
    FieldsOf(0x3ff, v / 0x40_0000, v / PAGE % 1024 * 4);
    0x3ff * 0x40_0000 + v / 0x40_0000 * PAGE + v / PAGE % 1024 * 4
  }

  lemma FieldsOf(i: nat, j: nat, o: nat)
    requires i < 1024 && j < 1024 && o < PAGE && o % 4 == 0
    ensures var r := i * 0x40_0000 + j * PAGE + o;
            r < WORD && r % 4 == 0 && DirIndex(r) == i && TabIndex(r) == j && Offset(r) == o
  {
    var r := i * 0x40_0000 + j * PAGE + o;
    assert r / PAGE == i * 1024 + j;
  }

  function GetPde(v: nat): (r: nat)
    requires v < WORD
    ensures r < WORD && r % 4 == 0
    ensures DirIndex(r) == 1023 && TabIndex(r) == 1023 && Offset(r) == DirIndex(v) * 4
  {
    FieldsOf(0x3ff, 0x3ff, v / 0x40_0000 * 4);
    0x3ff * 0x40_0000 + 0x3ff * PAGE + v / 0x40_0000 * 4
  }

  /** The two C expressions, masks and shifts as written, have these fields. */
  lemma GetPteBits(v: bv32)
    ensures var t := v & 0xffff_f000;
            var r := (0x3ff << 22) | ((t >> 10) & 0x003f_f000) | ((((t >> 12) & 0x3ff) * 4) & 0xfff);
            r >> 22 == 0x3ff && (r >> 12) & 0x3ff == v >> 22 && r & 0xfff == ((v >> 12) & 0x3ff) << 2
  {}

  lemma GetPdeBits(v: bv32)
    ensures var t := v & 0xffff_f000;
            var r := (0x3ff << 22) | 0x003f_f000 | ((((t >> 22) & 0x3ff) * 4) & 0xfff);
            r >> 22 == 0x3ff && (r >> 12) & 0x3ff == 0x3ff && r & 0xfff == (v >> 22) << 2
  {}

  /** The entry of an entry: get_pde is get_pte applied twice. */
  lemma PdeIsPteOfPte(v: nat)
    requires v < WORD
    ensures GetPde(v) == GetPte(GetPte(v))
  {}

  ghost predicate SelfMapped(mem: Mem, dir: nat) {
    var e := Read(mem, Loc(dir, 1023));
    Present(e) && FrameOf(e) == dir
  }

  /** Under a directory that maps itself, get_pde(v) is the address of v's directory entry. */
  lemma WalkOfGetPde(mem: Mem, dir: nat, v: nat)
    requires v < WORD && SelfMapped(mem, dir)
    ensures Walk(mem, dir, GetPde(v)) == Phys(dir, DirIndex(v) * 4)
    ensures Load(mem, dir, GetPde(v)) == Some(Pde(mem, dir, v))
  {}

  /** ... and get_pte(v) is the address of v's own page-table entry, readable exactly when v
      has a page table. */
  lemma WalkOfGetPte(mem: Mem, dir: nat, v: nat)
    requires v < WORD && SelfMapped(mem, dir)
    ensures Walk(mem, dir, GetPte(v)) ==
            if Present(Pde(mem, dir, v)) then Phys(FrameOf(Pde(mem, dir, v)), TabIndex(v) * 4) else Fault
    ensures Present(Pde(mem, dir, v)) ==> Load(mem, dir, GetPte(v)) == Some(Pte(mem, dir, v))
    ensures forall w :: Present(Pde(mem, dir, v)) ==>
              Store(mem, dir, GetPte(v), w) == mem[Loc(FrameOf(Pde(mem, dir, v)), TabIndex(v)) := w]
  {}

  // ----- vmm_v2p

  /** The presence test compares before it masks, so it always succeeds; it still reads both
      entries. None is a page fault on the way. */
  function V2P(mem: Mem, dir: nat, v: nat): Option<nat>
    requires v < WORD
  {
    match Load(mem, dir, GetPde(v))
    case None => None
    case Some(_) =>
      match Load(mem, dir, GetPte(v))
      case None => None
      case Some(entry) => Some(entry - entry % PAGE + v % PAGE)
  }

  /** What the function is documented to return: the error value for an absent page. */
  function DocumentedV2P(mem: Mem, dir: nat, v: nat): nat {
    match Walk(mem, dir, v)
    case Fault => ERRO
    case Phys(f, o) => f * PAGE + o
  }

  lemma V2PIsWalk(mem: Mem, dir: nat, v: nat)
    requires v < WORD && SelfMapped(mem, dir) && Walk(mem, dir, v).Phys?
    ensures V2P(mem, dir, v) == Some(Walk(mem, dir, v).frame * PAGE + Walk(mem, dir, v).offset)
  {}

  /** For every address with a page table, the result is the documented one exactly when the
      page is present (or the stale entry happens to spell the error value). */
  lemma V2PDocumentedIff(mem: Mem, dir: nat, v: nat)
    requires v < WORD && SelfMapped(mem, dir) && Present(Pde(mem, dir, v))
    ensures V2P(mem, dir, v) == Some(DocumentedV2P(mem, dir, v)) <==>
            Present(Pte(mem, dir, v)) || (FrameOf(Pte(mem, dir, v)) == 0xf_ffff && Offset(v) == 0xfff)
  {
    WalkOfGetPte(mem, dir, v);
    WalkOfGetPde(mem, dir, v);
  }

  /** Without a page table the function faults. */
  lemma V2PFaultsIff(mem: Mem, dir: nat, v: nat)
    requires v < WORD && SelfMapped(mem, dir)
    ensures V2P(mem, dir, v) == None <==> !Present(Pde(mem, dir, v))
  {
    WalkOfGetPte(mem, dir, v);
    WalkOfGetPde(mem, dir, v);
  }
}
