/** The page pool of the physical memory manager as a value: eleven free lists, the
    single-page buffer, the blocks handed out, and what it means for them to partition
    the page range. Page numbers are indices into the descriptor array. */
module Buddy {
  import opened Blocks
  import opened Sequences

  datatype Pool = Pool(
    max: nat,                  // pages managed
    singleFirst: nat,          // first page of the single-page buffer
    lists: seq<seq<nat>>,      // lists[k]: first pages of the free blocks of class k, in list order
    single: seq<nat>,          // free pages of the single-page buffer, in list order
    out: multiset<Block>,      // handed out and not yet freed
    lost: multiset<Block>)     // freed, but put on no list

  /** The blocks of s, in this order, are aligned and cover [lo, hi) without gap or overlap. */
  ghost predicate Chain(s: seq<Block>, lo: nat, hi: nat) {
    if s == [] then lo == hi
    else s[0].page == lo && s[0].cls <= ERRO && Aligned(s[0]) && Chain(s[1..], lo + Size(s[0].cls), hi)
  }

  /** The blocks of m can be laid end to end from page 0 to page n. */
  ghost predicate Tiles(m: multiset<Block>, n: nat) {
    exists s: seq<Block> :: multiset(s) == m && Chain(s, 0, n)
  }

  ghost predicate Covered(m: multiset<Block>, x: int) {
    exists b :: b in m && Covers(b, x)
  }

  ghost function Tag(s: seq<nat>, k: nat): (r: seq<Block>)
    ensures |r| == |s| && forall i :: 0 <= i < |s| ==> r[i] == Block(s[i], k)
  {
    seq(|s|, i requires 0 <= i < |s| => Block(s[i], k))
  }

  /** All blocks on the lists, each tagged with the class of its list. */
  ghost function AllFree(lists: seq<seq<nat>>): multiset<Block> {
    if lists == [] then multiset{}
    else AllFree(lists[..|lists| - 1]) + multiset(Tag(lists[|lists| - 1], |lists| - 1))
  }

  ghost function Total(p: Pool): multiset<Block>
    requires |p.lists| == LISTS
  {
    AllFree(p.lists) + multiset(Tag(p.single, 0)) + p.out + p.lost
  }

  /** Blocks below `singleFirst` belong to the buddy lists, pages from there on to the buffer. */
  ghost predicate Regions(p: Pool)
    requires |p.lists| == LISTS
  {
    && p.singleFirst <= p.max < 0x1_0000_0000
    && (forall k, x :: 0 <= k < LISTS && x in p.lists[k] ==> x + Size(k) <= p.singleFirst)
    && (forall x :: x in p.single ==> p.singleFirst <= x < p.max)
    && (forall b :: b in p.out ==> b.cls < ERRO && InRegion(p, b))
  }

  predicate InRegion(p: Pool, b: Block) {
    if b.page < p.singleFirst then b.page + Size(b.cls) <= p.singleFirst else b.cls == 0
  }

  ghost predicate Inv(p: Pool) {
    |p.lists| == LISTS && Regions(p) && Tiles(Total(p), p.max)
  }

  // ----- chains of blocks

  lemma {:induction false} ChainConcat(s: seq<Block>, t: seq<Block>, lo: nat, mid: nat, hi: nat)
    requires Chain(s, lo, mid) && Chain(t, mid, hi)
    ensures Chain(s + t, lo, hi)
  {
    if s == [] {
      assert s + t == t;
    } else {
      assert (s + t)[1..] == s[1..] + t;
      ChainConcat(s[1..], t, lo + Size(s[0].cls), mid, hi);
    }
  }

  lemma {:induction false} ChainCut(s: seq<Block>, lo: nat, hi: nat, i: nat)
    requires Chain(s, lo, hi) && i < |s|
    ensures Chain(s[..i], lo, s[i].page) && s[i].cls <= ERRO && Aligned(s[i])
    ensures Chain(s[i + 1..], s[i].page + Size(s[i].cls), hi)
    ensures lo <= s[i].page && s[i].page + Size(s[i].cls) <= hi
  {
    if i == 0 {
      ChainGrows(s[1..], lo + Size(s[0].cls), hi);
    } else {
      ChainCut(s[1..], lo + Size(s[0].cls), hi, i - 1);
      assert s[..i][1..] == s[1..][..i - 1] && s[1..][i..] == s[i + 1..];
    }
  }

  lemma {:induction false} ChainGrows(s: seq<Block>, lo: nat, hi: nat)
    requires Chain(s, lo, hi)
    ensures lo <= hi && (s != [] ==> lo < hi)
  {
    if s != [] { ChainGrows(s[1..], lo + Size(s[0].cls), hi); }
  }

  lemma ChainOrdered(s: seq<Block>, lo: nat, hi: nat, i: nat, j: nat)
    requires Chain(s, lo, hi) && i < j < |s|
    ensures s[i].page + Size(s[i].cls) <= s[j].page
    ensures j == i + 1 ==> s[i].page + Size(s[i].cls) == s[j].page
  {
    ChainCut(s, lo, hi, i);
    assert s[i + 1..][j - i - 1] == s[j];
    ChainCut(s[i + 1..], s[i].page + Size(s[i].cls), hi, j - i - 1);
  }

  lemma {:induction false} ChainCovers(s: seq<Block>, lo: nat, hi: nat, x: int) returns (i: nat)
    requires Chain(s, lo, hi) && lo <= x < hi
    ensures i < |s| && Covers(s[i], x)
  {
    if x < lo + Size(s[0].cls) {
      i := 0;
    } else {
      i := ChainCovers(s[1..], lo + Size(s[0].cls), hi, x);
      i := i + 1;
    }
  }

  // ----- what a tiling means page by page

  lemma ChainOnce(s: seq<Block>, n: nat, i: nat, j: nat)
    requires Chain(s, 0, n) && i < |s| && j < |s| && i != j
    ensures s[i] != s[j]
  {
    if i < j { ChainOrdered(s, 0, n, i, j); } else { ChainOrdered(s, 0, n, j, i); }
  }

  lemma ChainMultiplicity(s: seq<Block>, n: nat, i: nat)
    requires Chain(s, 0, n) && i < |s|
    ensures multiset(s)[s[i]] == 1
  {
    var rest := s[..i] + s[i + 1..];
    forall j | 0 <= j < |rest| ensures rest[j] != s[i] {
      ChainOnce(s, n, i, if j < i then j else j + 1);
    }
    assert s == s[..i] + [s[i]] + s[i + 1..];
    assert multiset(s) == multiset(rest) + multiset{s[i]};
  }

  lemma TilesBlock(m: multiset<Block>, n: nat, b: Block)
    requires Tiles(m, n) && b in m
    ensures m[b] == 1 && b.cls <= ERRO && Aligned(b) && b.page + Size(b.cls) <= n
  {
    var s :| multiset(s) == m && Chain(s, 0, n);
    var i :| 0 <= i < |s| && s[i] == b;
    ChainCut(s, 0, n, i);
    ChainMultiplicity(s, n, i);
  }

  lemma TilesApart(m: multiset<Block>, n: nat, a: Block, b: Block)
    requires Tiles(m, n) && a in m && b in m && a != b
    ensures Apart(a, b)
  {
    var s :| multiset(s) == m && Chain(s, 0, n);
    var i :| 0 <= i < |s| && s[i] == a;
    var j :| 0 <= j < |s| && s[j] == b;
    if i < j { ChainOrdered(s, 0, n, i, j); } else { ChainOrdered(s, 0, n, j, i); }
  }

  /** A tiling is a partition of the pages [0, n) into aligned blocks, each listed once. */
  lemma TilesPartition(m: multiset<Block>, n: nat)
    requires Tiles(m, n)
    ensures forall b :: b in m ==> m[b] == 1 && Aligned(b) && b.page + Size(b.cls) <= n
    ensures forall a, b :: a in m && b in m && a != b ==> Apart(a, b)
    ensures forall x :: 0 <= x < n <==> Covered(m, x)
  {
    forall b | b in m ensures m[b] == 1 && Aligned(b) && b.page + Size(b.cls) <= n { TilesBlock(m, n, b); }
    forall a, b | a in m && b in m && a != b ensures Apart(a, b) { TilesApart(m, n, a, b); }
    var s :| multiset(s) == m && Chain(s, 0, n);
    forall x ensures 0 <= x < n <==> Covered(m, x) {
      if 0 <= x < n {
        var i := ChainCovers(s, 0, n, x);
        assert s[i] in m;
      }
    }
  }

  // ----- splitting, merging and extending a tiling

  lemma Pull(m: multiset<Block>, u: Block, s: seq<Block>) returns (i: nat)
    requires multiset(s) == m + multiset{u}
    ensures i < |s| && s[i] == u && s == s[..i] + [u] + s[i + 1..] && multiset(s[..i] + s[i + 1..]) == m
  {
    assert u in multiset(s);
    i :| 0 <= i < |s| && s[i] == u;
    assert s == s[..i] + [u] + s[i + 1..];
    assert multiset(s) == multiset(s[..i] + s[i + 1..]) + multiset{u};
    forall b: Block ensures multiset(s[..i] + s[i + 1..])[b] == m[b] {
      assert multiset(s)[b] == (m + multiset{u})[b];
    }
  }

  lemma ChainConcat3(a: seq<Block>, b: seq<Block>, c: seq<Block>, p: nat, q: nat, n: nat)
    requires Chain(a, 0, p) && Chain(b, p, q) && Chain(c, q, n)
    ensures Chain(a + b + c, 0, n)
  {
    ChainConcat(a, b, 0, p, q);
    ChainConcat(a + b, c, 0, q, n);
  }

  lemma ChainOne(b: Block)
    requires b.cls <= ERRO && Aligned(b)
    ensures Chain([b], b.page, b.page + Size(b.cls))
  {
    assert [b][1..] == [];
  }

  lemma Laid(s: seq<Block>, m: multiset<Block>, n: nat)
    requires Chain(s, 0, n) && multiset(s) == m
    ensures Tiles(m, n)
  {}

  lemma TwoHalves(page: nat, k: nat)
    requires 0 < k <= ERRO && page % Size(k) == 0 && page < 0x1_0000_0000
    ensures Chain([Block(page, k - 1), Block(page + Size(k - 1), k - 1)], page, page + Size(k))
  {
    var lo, hi := Block(page, k - 1), Block(page + Size(k - 1), k - 1);
    HalvesAligned(page, k);
    assert [lo, hi][1..] == [hi] && [hi][1..] == [];
  }

  lemma SplitTiles(m: multiset<Block>, page: nat, k: nat, n: nat)
    requires 0 < k <= ERRO && n < 0x1_0000_0000
    requires Tiles(m + multiset{Block(page, k)}, n)
    ensures Tiles(m + multiset{Block(page + Size(k - 1), k - 1)} + multiset{Block(page, k - 1)}, n)
  {
    var s :| multiset(s) == m + multiset{Block(page, k)} && Chain(s, 0, n);
    SplitLaid(s, m, page, k, n);
  }

  lemma SplitLaid(s: seq<Block>, m: multiset<Block>, page: nat, k: nat, n: nat)
    requires 0 < k <= ERRO && n < 0x1_0000_0000
    requires multiset(s) == m + multiset{Block(page, k)} && Chain(s, 0, n)
    ensures Tiles(m + multiset{Block(page + Size(k - 1), k - 1)} + multiset{Block(page, k - 1)}, n)
  {
    var i := Pull(m, Block(page, k), s);
    ChainCut(s, 0, n, i);
    SplitAt(s[..i], s[i + 1..], m, page, k, n);
  }

  lemma SplitAt(a: seq<Block>, c: seq<Block>, m: multiset<Block>, page: nat, k: nat, n: nat)
    requires 0 < k <= ERRO && page % Size(k) == 0 && page < 0x1_0000_0000
    requires Chain(a, 0, page) && Chain(c, page + Size(k), n) && multiset(a + c) == m
    ensures Tiles(m + multiset{Block(page + Size(k - 1), k - 1)} + multiset{Block(page, k - 1)}, n)
  {
    var halves := [Block(page, k - 1), Block(page + Size(k - 1), k - 1)];
    TwoHalves(page, k);
    ChainConcat3(a, halves, c, page, page + Size(k), n);
    Laid(a + halves + c, m + multiset{halves[1]} + multiset{halves[0]}, n);
  }

  lemma MergedBlock(page: nat, k: nat)
    requires k < ERRO && page % Size(k) == 0 && page < 0x1_0000_0000
    ensures Partner(page, k) >= 0 && Partner(page, k) != page
    ensures Aligned(Block(Lower(page, Partner(page, k)), k + 1))
    ensures var l := Lower(page, Partner(page, k));
            (page == l && Partner(page, k) == l + Size(k)) || (page == l + Size(k) && Partner(page, k) == l)
  {
    PartnerInRange(page, k);
    LowerAligned(page, k);
  }

  lemma MergeTiles(m: multiset<Block>, page: nat, k: nat, n: nat)
    requires k < ERRO && n < 0x1_0000_0000 && Partner(page, k) >= 0
    requires Tiles(m + multiset{Block(Partner(page, k), k)} + multiset{Block(page, k)}, n)
    ensures Tiles(m + multiset{Block(Lower(page, Partner(page, k)), k + 1)}, n)
  {
    var a, b := Block(page, k), Block(Partner(page, k), k);
    TilesBlock(m + multiset{b} + multiset{a}, n, a);
    MergedBlock(page, k);
    assert m + multiset{b} + multiset{a} == m + multiset{a} + multiset{b};
    if page < Partner(page, k) { JoinTiles(m, a, b, n); } else { JoinTiles(m, b, a, n); }
  }

  /** Each block of a chain begins where the one before ends. */
  lemma Adjacent(s: seq<Block>, n: nat, i: nat)
    requires Chain(s, 0, n) && i + 1 < |s|
    ensures s[i + 1].page == s[i].page + Size(s[i].cls)
  {
    ChainCut(s, 0, n, i);
    assert s[i + 1..][0] == s[i + 1];
  }

  lemma ChainBehind(s: seq<Block>, i: nat, n: nat)
    requires Chain(s, 0, n) && i + 1 < |s|
    ensures Chain(s[i + 2..], s[i].page + Size(s[i].cls) + Size(s[i + 1].cls), n)
  {
    Adjacent(s, n, i);
    ChainCut(s, 0, n, i + 1);
  }

  lemma ChainJoin(s: seq<Block>, i: nat, u: Block, n: nat)
    requires Chain(s, 0, n) && i + 1 < |s| && s[i].cls == s[i + 1].cls < ERRO
    requires u == Block(s[i].page, s[i].cls + 1) && Aligned(u)
    ensures Chain(s[..i] + [u] + s[i + 2..], 0, n)
  {
    ChainBehind(s, i, n);
    ChainCut(s, 0, n, i);
    ChainOne(u);
    ChainConcat3(s[..i], [u], s[i + 2..], u.page, u.page + Size(u.cls), n);
  }

  lemma JoinTiles(m: multiset<Block>, lo: Block, hi: Block, n: nat)
    requires Tiles(m + multiset{hi} + multiset{lo}, n)
    requires lo.cls == hi.cls < ERRO && hi.page == lo.page + Size(lo.cls) && Aligned(Block(lo.page, lo.cls + 1))
    ensures Tiles(m + multiset{Block(lo.page, lo.cls + 1)}, n)
  {
    var s :| multiset(s) == m + multiset{hi} + multiset{lo} && Chain(s, 0, n);
    var i := Pull(m + multiset{hi}, lo, s);
    var j := Follows(s, n, i, hi);
    JoinAt(s, m, i, Block(lo.page, lo.cls + 1), n);
  }

  lemma JoinAt(s: seq<Block>, m: multiset<Block>, i: nat, u: Block, n: nat)
    requires Chain(s, 0, n) && i + 1 < |s| && s[i].cls == s[i + 1].cls < ERRO
    requires u == Block(s[i].page, s[i].cls + 1) && Aligned(u)
    requires multiset(s[..i] + s[i + 1..]) == m + multiset{s[i + 1]}
    ensures Tiles(m + multiset{u}, n)
  {
    ChainJoin(s, i, u, n);
    JoinMultiset(s, m, i);
    Laid(s[..i] + [u] + s[i + 2..], m + multiset{u}, n);
  }

  lemma JoinMultiset(s: seq<Block>, m: multiset<Block>, i: nat)
    requires i + 1 < |s| && multiset(s[..i] + s[i + 1..]) == m + multiset{s[i + 1]}
    ensures multiset(s[..i] + s[i + 2..]) == m
  {
    assert s[i + 1..] == [s[i + 1]] + s[i + 2..];
    assert multiset(s[..i] + s[i + 1..]) == multiset(s[..i] + s[i + 2..]) + multiset{s[i + 1]};
    CancelLeft(multiset(s[..i] + s[i + 2..]), m, multiset{s[i + 1]}, multiset{});
  }

  /** In a chain, the block that begins where block i ends comes next. */
  lemma Follows(s: seq<Block>, n: nat, i: nat, hi: Block) returns (j: nat)
    requires Chain(s, 0, n) && i < |s| && hi in multiset(s) && hi.page == s[i].page + Size(s[i].cls)
    ensures j == i + 1 < |s| && s[j] == hi
  {
    j :| 0 <= j < |s| && s[j] == hi;
    if j < i { ChainOrdered(s, 0, n, j, i); }
    if j > i + 1 { ChainOrdered(s, 0, n, i, i + 1); ChainOrdered(s, 0, n, i + 1, j); }
  }

  lemma ChainExtend(s: seq<Block>, b: Block, n: nat)
    requires Chain(s, 0, n) && b.page == n && b.cls <= ERRO && Aligned(b)
    ensures Chain(s + [b], 0, n + Size(b.cls))
  {
    ChainOne(b);
    ChainConcat(s, [b], 0, n, n + Size(b.cls));
  }

  lemma ExtendedChain(s: seq<Block>, t: seq<Block>, m: multiset<Block>, b: Block, n: nat)
    requires multiset(s) == m && Chain(s, 0, n) && b.page == n && b.cls <= ERRO && Aligned(b) && t == s + [b]
    ensures multiset(t) == m + multiset{b} && Chain(t, 0, n + Size(b.cls))
  {
    ChainExtend(s, b, n);
  }

  lemma ExtendLaid(s: seq<Block>, m: multiset<Block>, b: Block, n: nat)
    requires multiset(s) == m && Chain(s, 0, n) && b.page == n && b.cls <= ERRO && Aligned(b)
    ensures Tiles(m + multiset{b}, n + Size(b.cls))
  {
    ExtendedChain(s, s + [b], m, b, n);
    Laid(s + [b], m + multiset{b}, n + Size(b.cls));
  }

  lemma ExtendTiles(m: multiset<Block>, k: nat, n: nat)
    requires k < ERRO && n % Size(k) == 0 && Tiles(m, n)
    ensures Tiles(m + multiset{Block(n, k)}, n + Size(k))
  {
    var s :| multiset(s) == m && Chain(s, 0, n);
    ExtendLaid(s, m, Block(n, k), n);
  }

  // ----- the blocks of a family of lists

  lemma {:induction false} AllFreeUpdate(lists: seq<seq<nat>>, k: nat, s: seq<nat>)
    requires k < |lists|
    ensures AllFree(lists[k := s]) + multiset(Tag(lists[k], k)) == AllFree(lists) + multiset(Tag(s, k))
  {
    var n := |lists| - 1;
    var a, b := AllFree(lists[k := s][..n]), AllFree(lists[..n]);
    if k < n {
      assert lists[k := s][..n] == lists[..n][k := s];
      AllFreeUpdate(lists[..n], k, s);
      Widen(a, multiset(Tag(lists[k], k)), b, multiset(Tag(s, k)), multiset(Tag(lists[n], n)));
    } else {
      assert lists[k := s][..n] == lists[..n];
      Widen(a, multiset{}, b, multiset{}, multiset(Tag(lists[k], k)) + multiset(Tag(s, k)));
    }
  }

  lemma Widen(a: multiset<Block>, c: multiset<Block>, b: multiset<Block>, d: multiset<Block>, t: multiset<Block>)
    requires a + c == b + d
    ensures a + t + c == b + t + d
  {
    assert a + t + c == (a + c) + t;
    assert b + t + d == (b + d) + t;
  }

  lemma CancelLeft(a: multiset<Block>, b: multiset<Block>, c: multiset<Block>, d: multiset<Block>)
    requires a + c == b + (c + d)
    ensures a == b + d
  {
    forall x: Block ensures a[x] == (b + d)[x] {
      assert (a + c)[x] == (b + (c + d))[x];
    }
  }

  lemma TagAppend(s: seq<nat>, k: nat, x: nat)
    ensures Tag(s + [x], k) == Tag(s, k) + [Block(x, k)]
  {}

  lemma TagRemove(s: seq<nat>, k: nat, i: nat)
    requires i < |s|
    ensures multiset(Tag(s, k)) == multiset(Tag(s[..i] + s[i + 1..], k)) + multiset{Block(s[i], k)}
  {
    assert Tag(s, k) == Tag(s[..i], k) + [Block(s[i], k)] + Tag(s[i + 1..], k);
    assert Tag(s[..i] + s[i + 1..], k) == Tag(s[..i], k) + Tag(s[i + 1..], k);
  }

  lemma AllFreeAppend(lists: seq<seq<nat>>, k: nat, x: nat)
    requires k < |lists|
    ensures AllFree(lists[k := lists[k] + [x]]) == AllFree(lists) + multiset{Block(x, k)}
  {
    AllFreeUpdate(lists, k, lists[k] + [x]);
    TagAppend(lists[k], k, x);
    CancelLeft(AllFree(lists[k := lists[k] + [x]]), AllFree(lists), multiset(Tag(lists[k], k)), multiset{Block(x, k)});
  }

  lemma AllFreeRemove(lists: seq<seq<nat>>, k: nat, i: nat)
    requires k < |lists| && i < |lists[k]|
    ensures AllFree(lists) ==
            AllFree(lists[k := lists[k][..i] + lists[k][i + 1..]]) + multiset{Block(lists[k][i], k)}
  {
    AllFreeUpdate(lists, k, lists[k][..i] + lists[k][i + 1..]);
    TagRemove(lists[k], k, i);
    var rest := lists[k][..i] + lists[k][i + 1..];
    CancelLeft(AllFree(lists), AllFree(lists[k := rest]), multiset(Tag(rest, k)), multiset{Block(lists[k][i], k)});
  }

  lemma {:induction false} AllFreeMember(lists: seq<seq<nat>>, k: nat, i: nat)
    requires k < |lists| && i < |lists[k]|
    ensures Block(lists[k][i], k) in AllFree(lists)
    ensures multiset(Tag(lists[k], k)) <= AllFree(lists)
  {
    if k < |lists| - 1 { AllFreeMember(lists[..|lists| - 1], k, i); }
    assert Block(lists[k][i], k) == Tag(lists[k], k)[i];
  }

  // ----- nodes of the lists

  /** No descriptor is on two lists, or twice on one. */
  ghost predicate NodesDisjoint(lists: seq<seq<nat>>, single: seq<nat>) {
    && Distinct(single)
    && (forall k :: 0 <= k < |lists| ==> Distinct(lists[k]))
    && (forall k, x {:trigger x in lists[k], x in single} :: 0 <= k < |lists| && x in lists[k] ==> x !in single)
    && (forall j, k, x {:trigger x in lists[j], x in lists[k]} ::
          0 <= j < |lists| && 0 <= k < |lists| && x in lists[j] && x in lists[k] ==> j == k)
  }

  lemma TagDistinct(s: seq<nat>, k: nat)
    requires forall b :: b in multiset(Tag(s, k)) ==> multiset(Tag(s, k))[b] == 1
    ensures Distinct(s)
  {
    forall i, j | 0 <= i < j < |s| ensures Differ(s, i, j) {
      TagRemove(s, k, i);
      var r := s[..i] + s[i + 1..];
      assert r[j - 1] == s[j];
      assert Tag(r, k)[j - 1] == Block(s[j], k);
      assert Block(s[j], k) in multiset(Tag(r, k));
      assert Block(s[i], k) in multiset(Tag(s, k));
    }
  }

  lemma TilesMultiplicity(m: multiset<Block>, n: nat, s: seq<nat>, k: nat)
    requires Tiles(m, n) && multiset(Tag(s, k)) <= m
    ensures Distinct(s)
  {
    forall b | b in multiset(Tag(s, k)) ensures multiset(Tag(s, k))[b] == 1 {
      TilesBlock(m, n, b);
    }
    TagDistinct(s, k);
  }

  lemma SamePage(m: multiset<Block>, n: nat, a: Block, b: Block)
    requires Tiles(m, n) && a in m && b in m && a.page == b.page
    ensures a == b
  {
    if a != b {
      TilesApart(m, n, a, b);
      assert false;
    }
  }

  lemma ListedInTotal(p: Pool, k: nat, x: nat)
    requires |p.lists| == LISTS && k < LISTS && x in p.lists[k]
    ensures Block(x, k) in Total(p)
  {
    var i :| 0 <= i < |p.lists[k]| && p.lists[k][i] == x;
    AllFreeMember(p.lists, k, i);
  }

  lemma InvNodesDisjoint(p: Pool)
    requires Inv(p)
    ensures NodesDisjoint(p.lists, p.single)
  {
    var m := Total(p);
    TilesMultiplicity(m, p.max, p.single, 0);
    forall k | 0 <= k < LISTS ensures Distinct(p.lists[k]) {
      if |p.lists[k]| > 0 {
        AllFreeMember(p.lists, k, 0);
        TilesMultiplicity(m, p.max, p.lists[k], k);
      }
    }
    forall j, k, x | 0 <= j < LISTS && 0 <= k < LISTS && x in p.lists[j] && x in p.lists[k] ensures j == k {
      ListedInTotal(p, j, x);
      ListedInTotal(p, k, x);
      SamePage(m, p.max, Block(x, j), Block(x, k));
    }
  }
}
