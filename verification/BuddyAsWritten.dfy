/** Places where the C text of the allocator is not the allocator it means to be: the class
    its split loop passes on, the missing cap on merging, and the head that is never found. */
module BuddyAsWritten {
  import opened Wrappers
  import opened Blocks
  import opened Buddy
  import opened BuddyOps
  import opened BuddyRuns

  function LiteralClass(page: nat): (c: nat)
    ensures 0 < page <= 0x1_0000_0000 ==> c == page - 1
    ensures page == 0 ==> c == 0xffff_ffff
  {
    (page - 1) % 0x1_0000_0000
  }

  /** The split loop as written: every upper half goes to the list of class (page - 1), a
      32-bit unsigned number. A class without a list selects no header at all: None. */
  function LiteralSplit(lists: seq<seq<nat>>, page: nat, j: nat, k: nat): (r: Option<seq<seq<nat>>>)
    requires k <= j && |lists| == LISTS
    ensures r.Some? ==> |r.value| == LISTS
    decreases j
  {
    if j == k then Some(lists)
    else
      var c := LiteralClass(page);
      if c < LISTS then LiteralSplit(Append(lists, c, page + Size(j) / 2), page, j - 1, k) else None
  }

  lemma {:induction false} LiteralSplitKeeps(lists: seq<seq<nat>>, page: nat, j: nat, k: nat, b: Block)
    requires k <= j && |lists| == LISTS && LiteralSplit(lists, page, j, k).Some? && b in AllFree(lists)
    ensures b in AllFree(LiteralSplit(lists, page, j, k).value)
    decreases j
  {
    if j > k {
      var c := LiteralClass(page);
      AllFreeAppend(lists, c, page + Size(j) / 2);
      LiteralSplitKeeps(Append(lists, c, page + Size(j) / 2), page, j - 1, k, b);
    }
  }

  lemma SmallRemainder(x: nat, c: nat)
    requires (c == 1 && x == 3) || (c == 3 && (x == 5 || x == 6)) || (c == 5 && x == 7) || (c == 7 && 9 <= x <= 12) || (c == 9 && x == 11)
    ensures x % Size(c) != 0
  {
    SizeValues();
    if c > 3 { DivModUnique(x, Size(c), 0, x); }
  }

  lemma SmallClass(page: nat, j: nat)
    requires 0 < j < LISTS && page % Size(j) == 0 && 0 < page <= LISTS
    ensures j <= 3 && page % 2 == 0
  {
    SizeValues();
    if j > 3 {
      SizeMonotone(3, j);
      DivModUnique(page, Size(j), 0, page);
      assert false;
    }
  }

  /** The first half put back is never aligned for the class it is put under. */
  lemma FirstHalfMisaligned(page: nat, j: nat)
    requires 0 < j < LISTS && page % Size(j) == 0 && 0 < page <= LISTS
    ensures !Aligned(Block(page + Size(j) / 2, page - 1))
  {
    SmallClass(page, j);
    var x := page + Size(j) / 2;
    assert (page - 1 == 1 && x == 3) || (page - 1 == 3 && (x == 5 || x == 6)) || (page - 1 == 5 && x == 7)
           || (page - 1 == 7 && 9 <= x <= 12) || (page - 1 == 9 && x == 11) by {
      assert Size(1) == 2 && Size(2) == 4 && Size(3) == 8 by { SizeValues(); }
      if j == 1 {} else if j == 2 {} else { assert j == 3; }
    }
    SmallRemainder(x, page - 1);
  }

  ghost function AfterLiteral(p: Pool, j: nat, k: nat): (r: Option<Pool>)
    requires |p.lists| == LISTS && k <= j < LISTS && p.lists[j] != []
    ensures r.Some? ==> |r.value.lists| == LISTS
  {
    var l := p.lists[j];
    var page := l[|l| - 1];
    match LiteralSplit(p.lists[j := l[..|l| - 1]], page, j, k)
    case None => None
    case Some(lists) => Some(p.(lists := lists, out := p.out + multiset{Block(page, k)}))
  }

  lemma LastBlock(p: Pool, j: nat)
    requires Inv(p) && j < LISTS && p.lists[j] != []
    ensures p.lists[j][|p.lists[j]| - 1] % Size(j) == 0
  {
    var page := p.lists[j][|p.lists[j]| - 1];
    ListedInTotal(p, j, page);
    TilesBlock(Total(p), p.max, Block(page, j));
  }

  lemma NoSplitTotal(p: Pool, j: nat)
    requires |p.lists| == LISTS && j < LISTS && p.lists[j] != []
    ensures AfterLiteral(p, j, j).Some? && Total(AfterLiteral(p, j, j).value) == Total(p)
  {
    RemoveLastFree(p.lists, j);
  }

  lemma NoSplitKeeps(p: Pool, j: nat)
    requires Inv(p) && j < LISTS && p.lists[j] != []
    ensures AfterLiteral(p, j, j).Some? && Inv(AfterLiteral(p, j, j).value)
  {
    NoSplitTotal(p, j);
    SameRegions(p, AfterLiteral(p, j, j).value, j, p.lists[j][|p.lists[j]| - 1]);
  }

  lemma HalfListed(lists: seq<seq<nat>>, page: nat, j: nat, k: nat)
    requires |lists| == LISTS && k < j && LiteralSplit(lists, page, j, k).Some?
    ensures LiteralClass(page) < LISTS
    ensures Block(page + Size(j) / 2, LiteralClass(page)) in AllFree(LiteralSplit(lists, page, j, k).value)
  {
    var c, half := LiteralClass(page), page + Size(j) / 2;
    var next := Append(lists, c, half);
    assert Block(half, c) in AllFree(next) by { AllFreeAppend(lists, c, half); }
    LiteralSplitKeeps(next, page, j - 1, k, Block(half, c));
  }

  lemma MisalignedHalf(m: multiset<Block>, n: nat, page: nat, j: nat)
    requires 0 < j < LISTS && page % Size(j) == 0 && 0 < page <= LISTS
    requires Block(page + Size(j) / 2, page - 1) in m
    ensures !Tiles(m, n)
  {
    if Tiles(m, n) {
      TilesBlock(m, n, Block(page + Size(j) / 2, page - 1));
      FirstHalfMisaligned(page, j);
    }
  }

  lemma LastPage(p: Pool, j: nat)
    requires Inv(p) && j < LISTS && p.lists[j] != []
    ensures p.lists[j][|p.lists[j]| - 1] < 0x1_0000_0000
  {
    assert p.lists[j][|p.lists[j]| - 1] in p.lists[j];
  }

  lemma ListedSoTotal(q: Pool, b: Block)
    requires |q.lists| == LISTS && b in AllFree(q.lists)
    ensures b in Total(q)
  {}

  lemma SplitBreaks(q: Pool, lists: seq<seq<nat>>, page: nat, j: nat, k: nat)
    requires |lists| == |q.lists| == LISTS && k < j < LISTS && LiteralSplit(lists, page, j, k) == Some(q.lists)
    requires page % Size(j) == 0 && page < 0x1_0000_0000
    ensures !Tiles(Total(q), q.max)
  {
    HalfListed(lists, page, j, k);
    assert 0 < page <= LISTS && LiteralClass(page) == page - 1;
    ListedSoTotal(q, Block(page + Size(j) / 2, page - 1));
    MisalignedHalf(Total(q), q.max, page, j);
  }

  /** As written, an allocation leaves the pages partitioned exactly when nothing is split:
      when the smallest class that fits is the requested one. */
  lemma LiteralSplitRightIff(p: Pool, j: nat, k: nat)
    requires Inv(p) && k <= j < LISTS && p.lists[j] != []
    ensures AfterLiteral(p, j, k).Some? && Inv(AfterLiteral(p, j, k).value) <==> j == k
  {
    if j == k {
      NoSplitKeeps(p, j);
    } else if AfterLiteral(p, j, k).Some? {
      LastBlock(p, j);
      LastPage(p, j);
      var l := p.lists[j];
      SplitBreaks(AfterLiteral(p, j, k).value, p.lists[j := l[..|l| - 1]], l[|l| - 1], j, k);
    }
  }

  lemma SameRegions(p: Pool, q: Pool, j: nat, page: nat)
    requires |p.lists| == LISTS && Regions(p) && j < LISTS && p.lists[j] != [] && page == p.lists[j][|p.lists[j]| - 1]
    requires q == p.(lists := p.lists[j := p.lists[j][..|p.lists[j]| - 1]], out := p.out + multiset{Block(page, j)})
    ensures Regions(q)
  {
    assert page in p.lists[j];
    assert forall x :: x in q.lists[j] ==> x in p.lists[j];
  }

  // ----- a run that breaks the partition

  /** A request for n pages with the split loop as written; None when it stops at a class
      without a list. */
  ghost function AllocLiteral(p: Pool, n: nat): (r: Option<Pool>)
    requires |p.lists| == LISTS && 1 <= n <= 1024
    ensures r.Some? ==> |r.value.lists| == LISTS
  {
    ClassForBounds(n);
    var j := FirstNonEmpty(p.lists, ClassFor(n));
    if j == LISTS then Some(p) else AfterLiteral(p, j, ClassFor(n))
  }

  lemma {:induction false} SmallListAt(k: nat, c: nat)
    requires 0 < c < k <= LISTS
    ensures Small(k)[c] == [Size(c)]
  {
    if c == k - 1 {
      SmallEmptyAt(k - 1, c);
    } else {
      SmallListAt(k - 1, c);
    }
  }

  lemma {:induction false} SmallEmptyAt(k: nat, c: nat)
    requires 0 < k <= c < LISTS
    ensures Small(k)[c] == []
  {
    if k > 1 { SmallEmptyAt(k - 1, c); }
  }

  lemma {:induction false} LargeListAt(small: seq<seq<nat>>, j: nat, c: nat)
    requires |small| == LISTS && c < 10
    ensures Large(small, j)[c] == small[c]
  {
    if j > 0 { LargeListAt(small, j - 1, c); }
  }

  lemma InitListAt(max: nat, n: nat, c: nat)
    requires max >= 2048 && n == LISTS && 0 < c < 10
    ensures Init(max).lists[c] == [Size(c)]
  {
    SmallListAt(n, c);
    LargeListAt(Small(n), LargeCount(max), c);
  }

  /** A request served from its own class, which loses its last block. */
  lemma FourTaken(p: Pool)
    requires |p.lists| == LISTS && p.lists[2] == [4]
    ensures var q := AllocLiteral(p, 4); q == AfterLiteral(p, 2, 2) && q == Some(p.(lists := p.lists[2 := []], out := p.out + multiset{Block(4, 2)}))
  {
    FourPages();
    assert [4][..0] == [];
  }

  lemma FourPages()
    ensures ClassFor(4) == 2
  {
    ClassForBounds(4);
    SizeValues();
  }

  lemma EightSplit(p: Pool)
    requires |p.lists| == LISTS && p.lists[2] == [] && p.lists[3] == [8]
    ensures var q := AllocLiteral(p, 4);
            q == AfterLiteral(p, 3, 2) && q.Some? && q.value.out == p.out + multiset{Block(8, 2)} && q.value.lists[7] == p.lists[7] + [12]
  {
    FourPages();
    assert FirstNonEmpty(p.lists, 2) == 3;
    assert Size(3) == 8 by { SizeValues(); }
    assert LiteralSplit(p.lists[3 := []], 8, 2, 2) == Some(p.lists[3 := []]);
    assert LiteralClass(8) == 7;
    assert [8][..0] == [];
  }

  /** With any page count, two requests for 4 pages right after start-up put page 12 on the
      list of 128-page blocks: the pages are no longer partitioned. */
  lemma LiteralSplitExample(max: nat)
    requires 2048 <= max < 0x1_0000_0000
    ensures var p := AllocLiteral(Init(max), 4);
            && p.Some? && Inv(p.value) && p.value.out == multiset{Block(4, 2)}
            && var q := AllocLiteral(p.value, 4);
               q.Some? && q.value.out == multiset{Block(4, 2), Block(8, 2)} && q.value.lists[7] == [128, 12] && !Inv(q.value)
  {
    assert Size(2) == 4 && Size(3) == 8 && Size(7) == 128 by { SizeValues(); }
    InitListAt(max, LISTS, 2);
    InitListAt(max, LISTS, 3);
    InitListAt(max, LISTS, 7);
    InitPartitions(max);
    TwoRequests(Init(max));
  }

  lemma TwoRequests(p0: Pool)
    requires Inv(p0) && p0.lists[2] == [4] && p0.lists[3] == [8] && p0.lists[7] == [128] && p0.out == multiset{}
    ensures var p := AllocLiteral(p0, 4);
            && p.Some? && Inv(p.value) && p.value.out == multiset{Block(4, 2)}
            && var q := AllocLiteral(p.value, 4);
               q.Some? && q.value.out == multiset{Block(4, 2), Block(8, 2)} && q.value.lists[7] == [128, 12] && !Inv(q.value)
  {
    FourTaken(p0);
    NoSplitKeeps(p0, 2);
    var p := AllocLiteral(p0, 4).value;
    EightSplit(p);
    LiteralSplitRightIff(p, 3, 2);
  }

  lemma LargeBlocksAt5000()
    ensures Init(5000).lists[10] == [1024, 2048, 3072] && Init(5000).singleFirst == 4096
  {
    var small := Small(LISTS);
    assert Size(10) == 1024 by { SizeValues(); }
    SmallListAt(LISTS, 10);
    assert small[10] == [1024];
    assert Large(small, 1)[10] == [1024, 2048] by { assert Large(small, 0) == small; }
  }

  lemma Alloc1024At5000()
    ensures var p := AllocPages(Init(5000), 1024);
            p.1 == Some(Block(3072, 10)) && p.0.lists[10] == [1024, 2048] && p.0.out == multiset{Block(3072, 10)}
            && p.0.lost == multiset{} && p.0.singleFirst == 4096
  {
    LargeBlocksAt5000();
    ClassForBounds(1024);
    assert ClassFor(1024) == 10 by { SizeValues(); }
  }

  lemma TopMergeLost(q: Pool, b: Block)
    requires |q.lists| == LISTS && q.lists[10] == [1024, 2048] && b in q.out && b == Block(3072, 10) && q.singleFirst == 4096
    ensures Free(q, b).lost == q.lost + multiset{Block(2048, 11)}
  {
    assert Size(b.cls) == 1024 && Size(ERRO) == 2048 by { SizeValues(); }
    assert [1024, 2048][1..][0] == 2048;
    MergeLoss(q.(out := q.out - multiset{b}), b.page, b.cls);
  }

  /** With 5000 pages, taking 1024 pages right after start-up and giving them back loses
      2048 pages: the merge runs past the last class. */
  lemma FreeLosesExample()
    ensures var p := AllocPages(Init(5000), 1024);
            p.1 == Some(Block(3072, 10)) && Block(3072, 10) in p.0.out
            && Free(p.0, Block(3072, 10)).lost == multiset{Block(2048, 11)}
  {
    Alloc1024At5000();
    TopMergeLost(AllocPages(Init(5000), 1024).0, Block(3072, 10));
  }

  // ----- the head of a list is never found

  lemma {:induction false} SmallHead(k: nat)
    requires 0 < k <= LISTS
    ensures Small(k)[0] == [0, 1]
  {
    if k > 1 { SmallHead(k - 1); }
  }

  /** A one-page request, served from class j = 0 or j = 1. */
  lemma TakeOne(p: Pool, j: nat)
    requires |p.lists| == LISTS && j <= 1 && p.lists[j] != [] && (j == 1 ==> p.lists[0] == [])
    ensures var (q, r) := AllocPages(p, 1); var page := p.lists[j][|p.lists[j]| - 1];
            && r == Some(Block(page, 0)) && q == p.(lists := q.lists, out := p.out + multiset{Block(page, 0)})
            && q.lists[0] == (if j == 0 then p.lists[0][..|p.lists[0]| - 1] else [page + 1])
            && (j == 0 ==> q.lists[1] == p.lists[1])
  {
    assert BitLen(1) == 1 && Size(0) == 1;
    assert ClassFor(1) == 0;
    assert FirstNonEmpty(p.lists, 0) == j;
    AllocPagesLists(p, 1);
  }

  /** A freed page whose buddy is not found goes to the end of its list. */
  lemma GiveBackOne(p: Pool, page: nat)
    requires |p.lists| == LISTS && Block(page, 0) in p.out && page < p.singleFirst
    requires FindAndPop(p.lists[0], Partner(page, 0)).None?
    ensures var q := Free(p, Block(page, 0));
            && q.lists[0] == p.lists[0] + [page] && q.out == p.out - multiset{Block(page, 0)} && q.singleFirst == p.singleFirst
  {}

  lemma ThreeTaken(p: Pool)
    requires |p.lists| == LISTS && p.lists[0] == [0, 1] && p.lists[1] == [2] && p.out == multiset{}
    ensures var p3 := AllocPages(AllocPages(AllocPages(p, 1).0, 1).0, 1).0;
            p3.lists[0] == [3] && p3.out == multiset{Block(1, 0), Block(0, 0), Block(2, 0)} && p3.singleFirst == p.singleFirst
  {
    TakeOne(p, 0);
    var p1 := AllocPages(p, 1).0;
    TakeOne(p1, 0);
    var p2 := AllocPages(p1, 1).0;
    TakeOne(p2, 1);
  }

  lemma TwoGivenBack(p: Pool)
    requires |p.lists| == LISTS && p.lists[0] == [3] && p.out == multiset{Block(1, 0), Block(0, 0), Block(2, 0)} && p.singleFirst >= 2048
    ensures Block(0, 0) in p.out
    ensures var q := Free(p, Block(0, 0));
            && Block(2, 0) in q.out && q.lists[0] == [3, 0] && Partner(2, 0) == 3
            && Free(q, Block(2, 0)).lists[0] == [3, 0, 2]
  {
    assert Size(0) == 1;
    GiveBackOne(p, 0);
    assert [3, 0][1..] == [0];
    GiveBackOne(Free(p, Block(0, 0)), 2);
  }

  /** With any page count, three one-page requests and two frees leave the buddies 2 and 3
      both free: the search for page 3 does not find the head of its list. */
  lemma HeadMissedExample(max: nat)
    requires 2048 <= max < 0x1_0000_0000
    ensures var p := AllocPages(AllocPages(AllocPages(Init(max), 1).0, 1).0, 1).0;
            && Block(0, 0) in p.out
            && var q := Free(p, Block(0, 0));
               && Block(2, 0) in q.out && q.lists[0] == [3, 0] && Partner(2, 0) == 3
               && Free(q, Block(2, 0)).lists[0] == [3, 0, 2]
  {
    var n := LISTS;
    SmallHead(n);
    LargeListAt(Small(n), LargeCount(max), 0);
    InitListAt(max, n, 1);
    assert Size(1) == 2 by { SizeValues(); }
    ThreeTaken(Init(max));
    TwoGivenBack(AllocPages(AllocPages(AllocPages(Init(max), 1).0, 1).0, 1).0);
  }
}
