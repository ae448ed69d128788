/** Blocks of 2^k pages, their alignment and their buddies. */
module Blocks {

  const LISTS: nat := 11      // classes _1 .. _1024
  const ERRO: nat := 11       // the class _erro, which has no list

  datatype Block = Block(page: nat, cls: nat)

  function Size(k: nat): (n: nat)
    ensures n >= 1
  {
    if k == 0 then 1 else 2 * Size(k - 1)
  }

  predicate Covers(b: Block, x: int) { b.page <= x < b.page + Size(b.cls) }

  predicate Aligned(b: Block) { b.page % Size(b.cls) == 0 }

  predicate Apart(a: Block, b: Block) {
    a.page + Size(a.cls) <= b.page || b.page + Size(b.cls) <= a.page
  }

  // ----- powers of two and partners

  lemma SizeValues()
    ensures Size(0) == 1 && Size(1) == 2 && Size(2) == 4 && Size(3) == 8 && Size(4) == 16 && Size(5) == 32
    ensures Size(6) == 64 && Size(7) == 128 && Size(8) == 256 && Size(9) == 512 && Size(10) == 1024 && Size(11) == 2048
  {
    assert Size(5) == 2 * Size(4) && Size(3) == 8;
    assert Size(8) == 2 * Size(7) && Size(7) == 2 * Size(6);
  }

  lemma {:induction false} MulMono(a: int, b: int, m: nat)
    requires a < b
    ensures a * m + m <= b * m
    decreases b - a
  {
    if b > a + 1 { MulMono(a, b - 1, m); }
    assert b * m == (b - 1) * m + m;
  }

  lemma RepresentationUnique(m: nat, q: int, r: int, p: int, t: int)
    requires 0 <= r < m && 0 <= t < m && q * m + r == p * m + t
    ensures q == p && r == t
  {
    if q < p { MulMono(q, p, m); } else if p < q { MulMono(p, q, m); }
  }

  /** Division is determined by any decomposition with a remainder in range. */
  lemma DivModUnique(x: int, m: nat, q: int, r: int)
    requires x == q * m + r && 0 <= r < m
    ensures x / m == q && x % m == r
  {
    RepresentationUnique(m, q, r, x / m, x % m);
  }

  /** 2^32 is a multiple of every block size. */
  lemma WordMultiple(k: nat) returns (c: int)
    requires k <= ERRO + 1
    ensures 0x1_0000_0000 == c * Size(k)
  {
    SizeValues();
    assert Size(12) == 2 * Size(11);
    c := 0x1_0000_0000 / Size(k);
  }

  lemma Plus(a: int, b: int, m: int)
    ensures (a + b) * m == a * m + b * m
  {}

  lemma SizeBound(k: nat)
    requires k <= ERRO + 1
    ensures Size(k) <= 4096
  {
    SizeValues();
    assert Size(12) == 2 * Size(11);
  }

  /** Wrapping by a multiple of m first does not change a remainder by m. */
  lemma WrapByMultiple(x: int, h: int, r: int, m: nat, c: int)
    requires 0 <= r < m && x == h * m + r && 0x1_0000_0000 == c * m && -0x1_0000_0000 <= x < 0x1_0000_0000
    ensures x % 0x1_0000_0000 % m == r
  {
    if x >= 0 {
      DivModUnique(x, m, h, r);
    } else {
      Plus(h, c, m);
      DivModUnique(x + 0x1_0000_0000, m, h + c, r);
    }
  }

  /** Wrapping to 32 bits first does not change a remainder by a block size. */
  lemma WrapThenMod(x: int, h: int, r: int, k: nat)
    requires k <= ERRO + 1 && 0 <= r < Size(k) && x == h * Size(k) + r
    requires -0x1_0000_0000 <= x < 0x1_0000_0000
    ensures x % 0x1_0000_0000 % Size(k) == r
  {
    var c := WordMultiple(k);
    WrapByMultiple(x, h, r, Size(k), c);
  }

  /** The first page of the block's buddy: bit k of the page number flipped. */
  function Partner(page: nat, k: nat): int {
    if page / Size(k) % 2 == 1 then page - Size(k) else page + Size(k)
  }

  function Lower(a: int, b: int): int { if a < b then a else b }

  lemma Pairing(q: int, s: int)
    ensures q % 2 == 1 ==> (q - 1) * s == ((q - 1) / 2) * (2 * s)
    ensures q % 2 == 0 ==> (q - 1) * s == ((q - 1) / 2) * (2 * s) + s
  {
    var h := (q - 1) / 2;
    assert h * (2 * s) == (2 * h) * s;
    if q % 2 == 1 {
      assert q - 1 == 2 * h;
    } else {
      assert q - 1 == 2 * h + 1;
      Plus(2 * h, 1, s);
    }
  }

  lemma Quotient(page: nat, k: nat) returns (q: nat)
    requires page % Size(k) == 0
    ensures page == q * Size(k) && q == page / Size(k)
  {
    q := page / Size(k);
  }

  lemma PrecedingMultiple(q: int, k: nat)
    ensures q * Size(k) - Size(k) == (q - 1) / 2 * Size(k + 1) + if q % 2 == 1 then 0 else Size(k)
  {
    Plus(q, -1, Size(k));
    Pairing(q, Size(k));
  }

  lemma WrappedRemainder(page: nat, q: nat, k: nat)
    requires k <= ERRO && page == q * Size(k) < 0x1_0000_0000
    ensures (page - Size(k)) % 0x1_0000_0000 % Size(k + 1) == if q % 2 == 1 then 0 else Size(k)
  {
    SizeBound(k);
    PrecedingMultiple(q, k);
    WrapThenMod(page - Size(k), (q - 1) / 2, if q % 2 == 1 then 0 else Size(k), k + 1);
  }

  /** The C test for the upper buddy subtracts on 32-bit unsigned numbers, so it wraps for
      page 0; it still decides the right bit. */
  lemma UpperBuddyTest(page: nat, k: nat)
    requires k <= ERRO && page % Size(k) == 0 && page < 0x1_0000_0000
    ensures (page - Size(k)) % 0x1_0000_0000 % (2 * Size(k)) == 0 <==> Partner(page, k) == page - Size(k)
  {
    var q := Quotient(page, k);
    WrappedRemainder(page, q, k);
  }

  lemma NextMultiple(page: nat, s: nat)
    requires s > 0 && page % s == 0
    ensures (page + s) % s == 0 && (page + s) / s == page / s + 1
    ensures (page - s) % s == 0 && (page - s) / s == page / s - 1
  {
    var q := page / s;
    Plus(q, 1, s);
    Plus(q, -1, s);
    DivModUnique(page + s, s, q + 1, 0);
    DivModUnique(page - s, s, q - 1, 0);
  }

  lemma FactorBelow(a: int, b: int, m: nat)
    requires a * m < b * m
    ensures a < b
  {
    if b < a { MulMono(b, a, m); }
  }

  lemma EvenBelow(q: nat, m: nat, c: int)
    requires q % 2 == 0 && m > 0 && q * m < 2 * c * m
    ensures (q + 1) * m < 2 * c * m
  {
    FactorBelow(q, 2 * c, m);
    MulMono(q + 1, 2 * c, m);
  }

  lemma TwiceOver(c: int, m: nat)
    ensures c * (2 * m) == 2 * c * m
  {}

  lemma BelowWord(q: nat, k: nat)
    requires k <= ERRO && q % 2 == 0 && q * Size(k) < 0x1_0000_0000
    ensures (q + 1) * Size(k) < 0x1_0000_0000
  {
    var c := WordMultiple(k + 1);
    TwiceOver(c, Size(k));
    EvenBelow(q, Size(k), c);
  }

  lemma PositiveMultiple(page: nat, s: nat)
    requires s > 0 && page % s == 0 && page / s % 2 == 1
    ensures page >= s
  {
    if page < s { DivModUnique(page, s, 0, page); }
  }

  /** The partner is aligned and still a 32-bit number. */
  lemma PartnerInRange(page: nat, k: nat)
    requires k <= ERRO && page % Size(k) == 0 && page < 0x1_0000_0000
    ensures 0 <= Partner(page, k) < 0x1_0000_0000 && Partner(page, k) % Size(k) == 0
  {
    NextMultiple(page, Size(k));
    if page / Size(k) % 2 == 1 { PositiveMultiple(page, Size(k)); } else { NextBelowWord(page, k); }
  }

  lemma NextBelowWord(page: nat, k: nat)
    requires k <= ERRO && page % Size(k) == 0 && page < 0x1_0000_0000 && page / Size(k) % 2 == 0
    ensures page + Size(k) < 0x1_0000_0000
  {
    var q := Quotient(page, k);
    BelowWord(q, k);
    Plus(q, 1, Size(k));
  }

  lemma PartnerQuotient(page: nat, s: nat)
    requires s > 0 && page % s == 0
    ensures page / s % 2 == 1 ==> page >= s && (page - s) / s % 2 == 0
    ensures page / s % 2 == 0 ==> (page + s) / s % 2 == 1
  {
    NextMultiple(page, s);
    if page / s % 2 == 1 { PositiveMultiple(page, s); }
  }

  /** Looking for the partner's partner comes back. */
  lemma PartnerInvolution(page: nat, k: nat)
    requires page % Size(k) == 0
    ensures Partner(page, k) >= 0 && Partner(Partner(page, k), k) == page
  {
    PartnerQuotient(page, Size(k));
  }

  /** n with binary digit k flipped: n exclusive-or 2^k. */
  function FlipBit(n: nat, k: nat): nat {
    if k == 0 then (if n % 2 == 1 then n - 1 else n + 1) else 2 * FlipBit(n / 2, k - 1) + n % 2
  }

  lemma HalfFirst(x: nat, m: nat)
    requires m > 0
    ensures x / (2 * m) == x / 2 / m
  {
    var q, r := x / 2 / m, x / 2 % m;
    assert q * (2 * m) == 2 * (q * m);
    DivModUnique(x, 2 * m, q, 2 * r + x % 2);
  }

  lemma {:induction false} PartnerFlipsBit(page: nat, k: nat)
    ensures Partner(page, k) == FlipBit(page, k)
  {
    if k > 0 {
      HalfFirst(page, Size(k - 1));
      PartnerFlipsBit(page / 2, k - 1);
    }
  }

  lemma LowerMultiple(q: nat, s: nat)
    requires s > 0
    ensures q * s / (2 * s) == q / 2 && q * s % (2 * s) == if q % 2 == 0 then 0 else s
  {
    Pairing(q + 1, s);
    DivModUnique(q * s, 2 * s, q / 2, if q % 2 == 0 then 0 else s);
  }

  /** The lower of two buddies is aligned for the next class. */
  lemma LowerAligned(page: nat, k: nat)
    requires k <= ERRO && page % Size(k) == 0 && page < 0x1_0000_0000
    ensures Lower(page, Partner(page, k)) == page / Size(k + 1) * Size(k + 1)
    ensures Lower(page, Partner(page, k)) % Size(k + 1) == 0
  {
    var q := Quotient(page, k);
    LowerMultiple(q, Size(k));
    RoundedDown(page, Size(k + 1));
    RoundedAligned(page, Size(k + 1));
  }

  lemma RoundedDown(page: nat, m: nat)
    requires m > 0
    ensures page / m * m == page - page % m
  {}

  lemma RoundedAligned(page: nat, m: nat)
    requires m > 0
    ensures (page - page % m) % m == 0 && 0 <= page - page % m <= page
  {
    assert page % m <= page by { if page < m { DivModUnique(page, m, 0, page); } }
    DivModUnique(page - page % m, m, page / m, 0);
  }

  /** The upper half of a split block is the partner of the lower half. */
  lemma HalvesAligned(page: nat, k: nat)
    requires 0 < k <= ERRO && page % Size(k) == 0 && page < 0x1_0000_0000
    ensures page % Size(k - 1) == 0 && (page + Size(k - 1)) % Size(k - 1) == 0
    ensures Partner(page, k - 1) == page + Size(k - 1)
  {
    var s := Size(k - 1);
    var q := Quotient(page, k);
    assert q * (2 * s) == (2 * q) * s;
    Plus(2 * q, 1, s);
    DivModUnique(page, s, 2 * q, 0);
    DivModUnique(page + s, s, 2 * q + 1, 0);
  }
}
