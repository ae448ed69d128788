/** The page bitmap: one bit per page, most significant bit first, 1 for free, kept in bytes
    and addressed with 32-bit arithmetic. */
module Bitmap {
  import opened Machine

  const ERRO: nat := 0xffff_ffff

  // ----- bits of a byte

  function Mask(j: nat): bv8
    requires j < 8
  {
    1 << (7 - j)
  }

  /** Bit j, counted from the left. */
  predicate Bit(b: bv8, j: nat)
    requires j < 8
  {
    b & Mask(j) != 0
  }

  lemma Masks()
    ensures Mask(0) == 0x80 && Mask(1) == 0x40 && Mask(2) == 0x20 && Mask(3) == 0x10
    ensures Mask(4) == 0x08 && Mask(5) == 0x04 && Mask(6) == 0x02 && Mask(7) == 0x01
  {}

  lemma EachBit(j: nat)
    requires j < 8
    ensures j == 0 || j == 1 || j == 2 || j == 3 || j == 4 || j == 5 || j == 6 || j == 7
  {}

  predicate OneBit(m: bv8) {
    m == 0x80 || m == 0x40 || m == 0x20 || m == 0x10 || m == 0x08 || m == 0x04 || m == 0x02 || m == 0x01
  }

  lemma SubtractOne(b: bv8, m: bv8, n: bv8)
    requires OneBit(m) && b & m != 0
    ensures (b - m) & m == 0
    ensures m & n == 0 ==> (b - m) & n == b & n
  {
    assert b - m == b & !m;
    ClearOne(b, m, n);
  }

  lemma MasksApart(i: nat, j: nat)
    requires i < 8 && j < 8 && i != j
    ensures Mask(i) & Mask(j) == 0
  {
    Masks();
    EachBit(j);
    EachBit(i);
  }

  lemma ClearOne(b: bv8, m: bv8, n: bv8)
    ensures (b & !m) & m == 0
    ensures m & n == 0 ==> (b & !m) & n == b & n
  {}

  lemma SubtractSame(b: bv8, j: nat)
    requires j < 8 && Bit(b, j)
    ensures !Bit(b - Mask(j), j)
  {
    IsMask(j);
    SubtractOne(b, Mask(j), 0);
  }

  lemma SubtractOther(b: bv8, j: nat, i: nat)
    requires j < 8 && i < 8 && i != j && Bit(b, j)
    ensures Bit(b - Mask(j), i) <==> Bit(b, i)
  {
    IsMask(j);
    MasksApart(j, i);
    SubtractOne(b, Mask(j), Mask(i));
  }

  /** Subtracting the mask of a set bit clears that bit and no other. */
  lemma SubtractClears(b: bv8, j: nat, i: nat)
    requires j < 8 && i < 8 && Bit(b, j)
    ensures Bit(b - Mask(j), i) <==> i != j && Bit(b, i)
  {
    if i == j { SubtractSame(b, j); } else { SubtractOther(b, j, i); }
  }

  lemma IsMask(j: nat)
    requires j < 8
    ensures OneBit(Mask(j))
  {
    Masks();
    EachBit(j);
  }

  lemma OrSets(b: bv8, j: nat, i: nat)
    requires j < 8 && i < 8
    ensures Bit(b | Mask(j), i) <==> i == j || Bit(b, i)
  {
    Masks();
    EachBit(j);
    EachBit(i);
  }

  /** The test of the C code for a free page. */
  lemma OrTest(b: bv8, j: nat)
    requires j < 8
    ensures b == (b | Mask(j)) <==> Bit(b, j)
  {
    Masks();
    EachBit(j);
  }

  /** The test of the C code for the top bit. */
  lemma TopBit(b: bv8)
    ensures b != b & 0x7f <==> Bit(b, 0)
  {
    Masks();
  }

  lemma ShiftOnce(b: bv8, j: nat)
    requires j < 8
    ensures Bit(b << 1, j) <==> j < 7 && Bit(b, j + 1)
  {
    Masks();
    EachBit(j);
  }

  /** Bit k of b, n places further left in `now`. */
  predicate SameBit(now: bv8, b: bv8, n: nat, k: nat)
    requires n <= k < 8
  {
    Bit(now, k - n) <==> Bit(b, k)
  }

  /** `now` shows at its left end what b has from bit n on. */
  ghost predicate Shifted(now: bv8, b: bv8, n: nat) {
    forall k :: n <= k < 8 ==> SameBit(now, b, n, k)
  }

  lemma ShiftedOnce(now: bv8, b: bv8, n: nat)
    requires n < 7 && Shifted(now, b, n)
    ensures Shifted(now << 1, b, n + 1)
  {
    var next, m := now << 1, n + 1;
    forall k | m <= k < 8 ensures SameBit(next, b, m, k) {
      ShiftOnce(now, k - m);
      assert SameBit(now, b, n, k);
    }
  }

  lemma TopShows(now: bv8, b: bv8, n: nat)
    requires n < 8 && Shifted(now, b, n)
    ensures now != now & 0x7f <==> Bit(b, n)
  {
    TopBit(now);
    assert SameBit(now, b, n, n);
  }

  lemma NonZero(b: bv8)
    ensures b != 0 <==> exists j :: 0 <= j < 8 && Bit(b, j)
  {
    Masks();
    if b != 0 {
      assert Bit(b, 0) || Bit(b, 1) || Bit(b, 2) || Bit(b, 3) || Bit(b, 4) || Bit(b, 5) || Bit(b, 6) || Bit(b, 7);
    }
  }

  lemma SameBitsSameByte(a: bv8, b: bv8)
    requires forall j :: 0 <= j < 8 ==> (Bit(a, j) <==> Bit(b, j))
    ensures a == b
  {
    Masks();
    assert Bit(a, 0) <==> Bit(b, 0);
    assert Bit(a, 1) <==> Bit(b, 1);
    assert Bit(a, 2) <==> Bit(b, 2);
    assert Bit(a, 3) <==> Bit(b, 3);
    assert Bit(a, 4) <==> Bit(b, 4);
    assert Bit(a, 5) <==> Bit(b, 5);
    assert Bit(a, 6) <==> Bit(b, 6);
    assert Bit(a, 7) <==> Bit(b, 7);
  }

  // ----- bitmaps as sets of free pages

  predicate IsFree(bytes: seq<bv8>, p: int) {
    0 <= p < 8 * |bytes| && Bit(bytes[p / 8], p % 8)
  }

  ghost function FreeSet(bytes: seq<bv8>): set<int> {
    set p | 0 <= p < 8 * |bytes| && IsFree(bytes, p)
  }

  /** The set of free pages determines the bitmap byte for byte. */
  lemma SameSetSameBytes(a: seq<bv8>, b: seq<bv8>)
    requires |a| == |b| && FreeSet(a) == FreeSet(b)
    ensures a == b
  {
    forall k | 0 <= k < |a| ensures a[k] == b[k] {
      forall j | 0 <= j < 8 ensures Bit(a[k], j) <==> Bit(b[k], j) {
        var p := 8 * k + j;
        assert p / 8 == k && p % 8 == j;
        assert IsFree(a, p) <==> p in FreeSet(a);
        assert IsFree(b, p) <==> p in FreeSet(b);
      }
      SameBitsSameByte(a[k], b[k]);
    }
  }

  lemma ClearBit(bytes: seq<bv8>, p: nat)
    requires IsFree(bytes, p)
    ensures FreeSet(bytes[p / 8 := bytes[p / 8] - Mask(p % 8)]) == FreeSet(bytes) - {p}
  {
    var after := bytes[p / 8 := bytes[p / 8] - Mask(p % 8)];
    forall q | 0 <= q < 8 * |bytes| ensures IsFree(after, q) <==> q != p && IsFree(bytes, q) {
      if q / 8 == p / 8 { SubtractClears(bytes[p / 8], p % 8, q % 8); }
    }
  }

  lemma ClearedBit(before: seq<bv8>, after: seq<bv8>, i: nat, j: nat)
    requires i < |before| && j < 8 && Bit(before[i], j) && after == before[i := before[i] - Mask(j)]
    ensures FreeSet(after) == FreeSet(before) - {8 * i + j}
  {
    var p := 8 * i + j;
    assert p / 8 == i && p % 8 == j;
    ClearBit(before, p);
  }

  lemma SetBit(bytes: seq<bv8>, p: nat)
    requires p < 8 * |bytes|
    ensures FreeSet(bytes[p / 8 := bytes[p / 8] | Mask(p % 8)]) == FreeSet(bytes) + {p}
  {
    var after := bytes[p / 8 := bytes[p / 8] | Mask(p % 8)];
    forall q | 0 <= q < 8 * |bytes| ensures IsFree(after, q) <==> q == p || IsFree(bytes, q) {
      if q / 8 == p / 8 { OrSets(bytes[p / 8], p % 8, q % 8); }
    }
  }

  // ----- addresses

  /** The page a target address lies in: the address with its low twelve bits masked off. */
  function PageOf(target: nat): nat { target - target % PAGE }

  /** The range test as the C code computes it. */
  predicate InRange(hdr: nat, length: nat, target: nat) {
    var max_addr := (hdr - 1 + length * 8 * PAGE) % WORD;
    hdr <= target < max_addr
  }

  /** The 32-bit test is the mathematical one for every page-aligned region that ends at or
      before 2^32, except for an empty region at address 0. */
  lemma InRangeIff(hdr: nat, length: nat)
    requires hdr % PAGE == 0 && hdr + length * 8 * PAGE <= WORD && hdr < WORD
    ensures (forall t: nat {:trigger PageOf(t)} :: t < WORD ==>
               (InRange(hdr, length, PageOf(t)) <==> hdr <= t < hdr + length * 8 * PAGE))
            <==> length > 0 || hdr > 0
  {
    if length == 0 && hdr == 0 {
      assert InRange(0, 0, PageOf(0));
    }
    forall t: nat | t < WORD && (length > 0 || hdr > 0)
      ensures InRange(hdr, length, PageOf(t)) <==> hdr <= t < hdr + length * 8 * PAGE
    {
      RangeTest(hdr, length, t);
    }
  }

  lemma RangeTest(hdr: nat, length: nat, t: nat)
    requires hdr % PAGE == 0 && hdr + length * 8 * PAGE <= WORD && t < WORD && (length > 0 || hdr > 0)
    ensures InRange(hdr, length, PageOf(t)) <==> hdr <= t < hdr + length * 8 * PAGE
  {
    var size := length * 8 * PAGE;
    assert 0 <= hdr - 1 + size < WORD;
    assert size % PAGE == 0;
  }

  class Bitmap {
    const hdr: nat              // target_addr_header
    const bytes: array<bv8>     // the bitmap's memory

    ghost predicate Valid()
      reads this
    {
      bytes.Length > 0 && hdr % PAGE == 0 && hdr + bytes.Length * 8 * PAGE <= WORD
    }

    ghost function Free(): set<int>
      reads this, bytes
    {
      FreeSet(bytes[..])
    }

    function Addr(p: int): int { hdr + p * PAGE }

    function PageNo(target: nat): int { (PageOf(target) - hdr) / PAGE }

    constructor (hdr: nat, bytes: array<bv8>)
      requires bytes.Length > 0 && hdr % PAGE == 0 && hdr + bytes.Length * 8 * PAGE <= WORD
      ensures Valid() && this.hdr == hdr && this.bytes == bytes
    {
      this.hdr, this.bytes := hdr, bytes;
    }

    /** bitmap_init_mem: every page free. */
    method InitMem()
      requires Valid()
      modifies bytes
      ensures forall p :: p in Free() <==> 0 <= p < 8 * bytes.Length
    {
      var i := 0;
      while i < bytes.Length
        invariant 0 <= i <= bytes.Length
        invariant forall k :: 0 <= k < i ==> bytes[k] == 0xff
      {
        bytes[i] := 0xff;
        i := i + 1;
      }
      AllOnes();
      assert forall p :: 0 <= p < 8 * bytes.Length ==> IsFree(bytes[..], p);
    }

    /** bitmap_alloc_one_page: succeeds exactly when the page is in the region and free. */
    method AllocOnePage(target: nat) returns (r: nat)
      requires Valid() && target < WORD
      modifies bytes
      ensures PageNo(target) in old(Free()) ==> r == PageOf(target) && Free() == old(Free()) - {PageNo(target)}
      ensures PageNo(target) !in old(Free()) ==> r == ERRO && bytes[..] == old(bytes[..])
    {
      RangeTest(hdr, bytes.Length, target);
      var page := PageOf(target);
      if InRange(hdr, bytes.Length, page) {
        var p := (page - hdr) / PAGE;
        var i, j := p / 8, p % 8;
        OrTest(bytes[i], j);
        if bytes[i] == bytes[i] | Mask(j) {
          TakeBit(i, j);
          r := page;
        } else {
          r := ERRO;
        }
      } else {
        r := ERRO;
      }
    }

    /** bitmap_release_one_page: the page becomes free; out of the region nothing happens. */
    method ReleaseOnePage(target: nat)
      requires Valid() && target < WORD
      modifies bytes
      ensures 0 <= PageNo(target) < 8 * bytes.Length ==> Free() == old(Free()) + {PageNo(target)}
      ensures !(0 <= PageNo(target) < 8 * bytes.Length) ==> bytes[..] == old(bytes[..])
    {
      RangeTest(hdr, bytes.Length, target);
      var page := PageOf(target);
      if InRange(hdr, bytes.Length, page) {
        var p := (page - hdr) / PAGE;
        GiveBit(p, p / 8, p % 8);
      }
    }

    method GiveBit(ghost p: nat, i: nat, j: nat)
      requires p < 8 * bytes.Length && i == p / 8 && j == p % 8
      modifies bytes
      ensures Free() == old(Free()) + {p}
    {
      ghost var before := bytes[..];
      SetBit(before, p);
      bytes[i] := bytes[i] | Mask(j);
      assert bytes[..] == before[i := before[i] | Mask(j)];
    }

    /** bitmap_alloc: the lowest free page, if there is one. */
    method Alloc() returns (r: nat)
      requires Valid()
      modifies bytes
      ensures old(Free()) == {} ==> r == ERRO && bytes[..] == old(bytes[..])
      ensures old(Free()) != {} ==>
                exists p :: p in old(Free()) && (forall q :: q in old(Free()) ==> p <= q)
                  && r == Addr(p) && Free() == old(Free()) - {p}
    {
      var i := 0;
      while i < bytes.Length
        invariant 0 <= i <= bytes.Length && bytes[..] == old(bytes[..])
        invariant forall q :: q in FreeSet(bytes[..]) ==> 8 * i <= q
      {
        var now := bytes[i];
        if now != 0 {
          var pos := LeadingBit(now);
          var p := 8 * i + pos;
          assert p / 8 == i && p % 8 == pos;
          assert p in Free();
          LeastFree(bytes[..], i, pos);
          TakeBit(i, pos);
          return p * PAGE + hdr;
        }
        NoneInByte(bytes[..], i);
        i := i + 1;
      }
      assert forall q :: q !in FreeSet(bytes[..]);
      r := ERRO;
    }

    method TakeBit(i: nat, j: nat)
      requires i < bytes.Length && j < 8 && Bit(bytes[i], j)
      modifies bytes
      ensures Free() == old(Free()) - {8 * i + j}
    {
      ghost var before := bytes[..];
      bytes[i] := bytes[i] - Mask(j);
      ClearedBit(before, bytes[..], i, j);
    }

    /** The inner loop of bitmap_alloc: shift left until the top bit shows. */
    method LeadingBit(b: bv8) returns (pos: nat)
      requires b != 0
      ensures pos < 8 && Bit(b, pos) && forall j :: 0 <= j < pos ==> !Bit(b, j)
    {
      NonZero(b);
      var now := b;
      pos := 0;
      while true
        invariant pos < 8 && Shifted(now, b, pos)
        invariant forall j :: 0 <= j < pos ==> !Bit(b, j)
        decreases 8 - pos
      {
        TopShows(now, b, pos);
        if now != now & 0x7f { return; }
        if pos == 7 { NoBits(b); assert false; }
        ShiftedOnce(now, b, pos);
        now := now << 1;
        pos := pos + 1;
      }
    }
  }

  lemma LeastFree(bytes: seq<bv8>, i: nat, pos: nat)
    requires i < |bytes| && pos < 8 && Bit(bytes[i], pos) && forall j :: 0 <= j < pos ==> !Bit(bytes[i], j)
    requires forall q :: q in FreeSet(bytes) ==> 8 * i <= q
    ensures 8 * i + pos in FreeSet(bytes) && forall q :: q in FreeSet(bytes) ==> 8 * i + pos <= q
  {
    var p := 8 * i + pos;
    assert p / 8 == i && p % 8 == pos;
    forall q | q in FreeSet(bytes) ensures p <= q {
      if q / 8 == i { assert Bit(bytes[i], q % 8); }
    }
  }

  lemma NoneInByte(bytes: seq<bv8>, i: nat)
    requires i < |bytes| && bytes[i] == 0 && forall q :: q in FreeSet(bytes) ==> 8 * i <= q
    ensures forall q :: q in FreeSet(bytes) ==> 8 * (i + 1) <= q
  {
    NonZero(bytes[i]);
    forall q | q in FreeSet(bytes) ensures 8 * (i + 1) <= q {
      assert Bit(bytes[q / 8], q % 8);
      assert q / 8 != i;
    }
  }

  lemma NoBits(b: bv8)
    requires forall j :: 0 <= j < 8 ==> !Bit(b, j)
    ensures b == 0
  {
    NonZero(b);
  }

  lemma AllOnes()
    ensures forall j :: 0 <= j < 8 ==> Bit(0xff, j)
  {
    forall j | 0 <= j < 8 ensures Bit(0xff, j) {
      Masks();
      EachBit(j);
    }
  }
}
