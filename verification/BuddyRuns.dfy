/** What the allocator guarantees from start-up through every run of allocations and
    frees, and exactly where the C text keeps it. */
module BuddyRuns {
  import opened Wrappers
  import opened Blocks
  import opened Buddy
  import opened BuddyOps

  // ----- start-up

  /** The lists once the single blocks of the classes below k are loaded: pages 0 and 1
      in class _1, then one block of 2^c pages at page 2^c for each further class c. */
  function Small(k: nat): (r: seq<seq<nat>>)
    requires 0 < k <= LISTS
    ensures |r| == LISTS
  {
    if k == 1 then [[0, 1], [], [], [], [], [], [], [], [], [], []]
    else Append(Small(k - 1), k - 1, Size(k - 1))
  }

  /** ... and then j blocks of 1024 pages from page 2048 on. */
  function Large(small: seq<seq<nat>>, j: nat): (r: seq<seq<nat>>)
    requires |small| == LISTS
    ensures |r| == LISTS
  {
    if j == 0 then small else Append(Large(small, j - 1), 10, 1024 + 1024 * j)
  }

  /** How many further blocks of 1024 pages are loaded before the buffer begins. */
  function LargeCount(max: nat): (j: nat)
    ensures j > 0 ==> 1024 + 1024 * j < max - 1024
    ensures 2048 + 1024 * j >= max - 1024
  {
    if max <= 3072 then 0 else (max - 3072 + 1023) / 1024
  }

  function Upto(first: nat, max: nat): (r: seq<nat>)
    requires first <= max
    ensures |r| == max - first && forall i :: 0 <= i < |r| ==> r[i] == first + i
  {
    seq(max - first, i requires 0 <= i => first + i)
  }

  function Init(max: nat): (p: Pool)
    requires max >= 2048
  {
    var first := 2048 + 1024 * LargeCount(max);
    Pool(max, first, Large(Small(LISTS), LargeCount(max)), Upto(first, max), multiset{}, multiset{})
  }

  ghost predicate Loaded(lists: seq<seq<nat>>, n: nat) {
    && |lists| == LISTS
    && Tiles(AllFree(lists), n)
    && forall k, x :: 0 <= k < LISTS && x in lists[k] ==> x + Size(k) <= n
  }

  lemma LoadOne(lists: seq<seq<nat>>, k: nat, n: nat)
    requires Loaded(lists, n) && k < LISTS && n % Size(k) == 0
    ensures Loaded(Append(lists, k, n), n + Size(k))
  {
    AllFreeAppend(lists, k, n);
    ExtendTiles(AllFree(lists), k, n);
    assert forall x :: x in lists[k] + [n] ==> x in lists[k] || x == n;
  }

  lemma {:induction false} EmptyListsFree(lists: seq<seq<nat>>)
    requires forall k :: 0 <= k < |lists| ==> lists[k] == []
    ensures AllFree(lists) == multiset{}
  {
    if lists != [] { EmptyListsFree(lists[..|lists| - 1]); }
  }

  lemma NothingLoaded(lists: seq<seq<nat>>)
    requires |lists| == LISTS && forall k :: 0 <= k < LISTS ==> lists[k] == []
    ensures Loaded(lists, 0)
  {
    EmptyListsFree(lists);
    Laid([], multiset{}, 0);
  }

  lemma FirstPage()
    ensures Loaded([[0], [], [], [], [], [], [], [], [], [], []], 1)
  {
    var l0: seq<seq<nat>> := [[], [], [], [], [], [], [], [], [], [], []];
    NothingLoaded(l0);
    assert Append(l0, 0, 0) == [[0], [], [], [], [], [], [], [], [], [], []] by { assert l0[0] + [0] == [0]; }
    LoadOne(l0, 0, 0);
  }

  lemma FirstTwoPages()
    ensures Loaded(Small(1), 2)
  {
    var l1: seq<seq<nat>> := [[0], [], [], [], [], [], [], [], [], [], []];
    FirstPage();
    assert Append(l1, 0, 1) == Small(1) by { assert l1[0] + [1] == [0, 1]; }
    LoadOne(l1, 0, 1);
  }

  lemma LoadSame(lists: seq<seq<nat>>, k: nat)
    requires k < LISTS && Loaded(lists, Size(k))
    ensures Loaded(Append(lists, k, Size(k)), Size(k + 1))
  {
    DivModUnique(Size(k), Size(k), 1, 0);
    LoadOne(lists, k, Size(k));
  }

  lemma {:induction false} SmallLoaded(k: nat)
    requires 0 < k <= LISTS
    ensures Loaded(Small(k), Size(k))
  {
    if k == 1 {
      FirstTwoPages();
      assert Size(1) == 2 * Size(0);
    } else {
      SmallLoaded(k - 1);
      LoadSame(Small(k - 1), k - 1);
    }
  }

  lemma {:induction false} LargeLoaded(small: seq<seq<nat>>, j: nat)
    requires Loaded(small, 2048)
    ensures Loaded(Large(small, j), 2048 + 1024 * j)
  {
    if j > 0 {
      LargeLoaded(small, j - 1);
      LoadLast(Large(small, j - 1), 1024 + 1024 * j);
    }
  }

  lemma LoadLast(lists: seq<seq<nat>>, n: nat)
    requires Loaded(lists, n) && n % 1024 == 0
    ensures Loaded(Append(lists, 10, n), n + 1024)
  {
    assert Size(10) == 1024 by { SizeValues(); }
    LoadOne(lists, 10, n);
  }

  lemma BufferTotal(m: multiset<Block>, first: nat, n: nat)
    requires first < n
    ensures m + multiset(Tag(Upto(first, n), 0)) == m + multiset(Tag(Upto(first, n - 1), 0)) + multiset{Block(n - 1, 0)}
  {
    var s := Upto(first, n - 1);
    assert Upto(first, n) == s + [n - 1];
    TagAppend(s, 0, n - 1);
  }

  lemma {:induction false} BufferTiles(m: multiset<Block>, first: nat, n: nat)
    requires first <= n && Tiles(m, first)
    ensures Tiles(m + multiset(Tag(Upto(first, n), 0)), n)
    decreases n - first
  {
    if first == n {
      assert m + multiset(Tag(Upto(first, n), 0)) == m;
    } else {
      BufferTiles(m, first, n - 1);
      BufferTotal(m, first, n);
      ExtendTiles(m + multiset(Tag(Upto(first, n - 1), 0)), 0, n - 1);
    }
  }

  /** Start-up partitions all pages; the single-page buffer gets between 1 and 1024 of them
      when there are more than 2048. */
  lemma InitPartitions(max: nat)
    requires 2048 <= max < 0x1_0000_0000
    ensures Inv(Init(max)) && Init(max).max == max && Init(max).out == multiset{} && Init(max).lost == multiset{}
    ensures max > 2048 ==> 1 <= |Init(max).single| <= 1024
  {
    var p := Init(max);
    assert Size(LISTS) == 2048 by { SizeValues(); }
    SmallLoaded(LISTS);
    LargeLoaded(Small(LISTS), LargeCount(max));
    BufferTiles(AllFree(p.lists), p.singleFirst, max);
    InitTotal(max);
  }

  lemma InitTotal(max: nat)
    requires max >= 2048
    ensures Total(Init(max)) == AllFree(Init(max).lists) + multiset(Tag(Init(max).single, 0))
  {}

  // ----- every run

  datatype Op = Pages(n: nat) | OnePage | Release(b: Block)

  /** A caller frees only what it holds, in the form it got it; it may ask for any number of pages. */
  predicate Legal(p: Pool, op: Op) { op.Release? ==> op.b in p.out }

  function Step(p: Pool, op: Op): (r: Pool)
    requires |p.lists| == LISTS && Legal(p, op) && (op.Release? ==> op.b.cls <= ERRO)
    ensures |r.lists| == LISTS
  {
    match op
    case Pages(n) => AllocPages(p, n).0
    case OnePage => AllocOne(p).0
    case Release(b) => Free(p, b)
  }

  /** `trace` is a run: every state follows from the one before by a legal operation. */
  ghost predicate IsRun(trace: seq<Pool>, ops: seq<Op>) {
    && |trace| == |ops| + 1
    && forall i :: 0 <= i < |ops| ==>
         |trace[i].lists| == LISTS && Legal(trace[i], ops[i]) && (ops[i].Release? ==> ops[i].b.cls <= ERRO)
         && trace[i + 1] == Step(trace[i], ops[i])
  }

  lemma StepKeepsInv(p: Pool, op: Op)
    requires Inv(p) && Legal(p, op)
    ensures op.Release? ==> op.b.cls <= ERRO
    ensures Inv(Step(p, op)) && Step(p, op).max == p.max
  {
    match op
    case Pages(n) => AllocPagesKeepsInv(p, n);
    case OnePage => AllocOneKeepsInv(p);
    case Release(b) => FreeKeepsInv(p, b);
  }

  /** From start-up through any run, the free blocks, the buffered pages, the blocks handed
      out and the lost ones are disjoint, aligned, and together are exactly all pages. */
  lemma {:induction false} RunPartitions(trace: seq<Pool>, ops: seq<Op>, max: nat, i: nat)
    requires 2048 <= max < 0x1_0000_0000
    requires IsRun(trace, ops) && trace[0] == Init(max) && i < |trace|
    ensures Inv(trace[i]) && trace[i].max == max
    ensures forall b :: b in Total(trace[i]) ==> Total(trace[i])[b] == 1 && Aligned(b)
    ensures forall a, b :: a in Total(trace[i]) && b in Total(trace[i]) && a != b ==> Apart(a, b)
    ensures forall x :: 0 <= x < max <==> Covered(Total(trace[i]), x)
  {
    RunKeepsInv(trace, ops, max, i);
    TilesPartition(Total(trace[i]), max);
  }

  lemma {:induction false} RunKeepsInv(trace: seq<Pool>, ops: seq<Op>, max: nat, i: nat)
    requires 2048 <= max < 0x1_0000_0000
    requires IsRun(trace, ops) && trace[0] == Init(max) && i < |trace|
    ensures Inv(trace[i]) && trace[i].max == max
  {
    if i == 0 {
      InitPartitions(max);
    } else {
      RunKeepsInv(trace, ops, max, i - 1);
      StepKeepsInv(trace[i - 1], ops[i - 1]);
    }
  }

  // ----- allocation is exact best fit

  /** Class k holds blocks of at least n pages and has one. */
  predicate Fits(p: Pool, n: nat, k: nat) { k < |p.lists| && Size(k) >= n && p.lists[k] != [] }

  lemma AllocBestFit(p: Pool, n: nat)
    requires |p.lists| == LISTS && 1 <= n <= 1024
    ensures AllocPages(p, n).1.Some? <==> exists k: nat :: Fits(p, n, k)
    ensures AllocPages(p, n).1.None? ==> AllocPages(p, n).0 == p
    ensures AllocPages(p, n).1.Some? ==>
              var b := AllocPages(p, n).1.value;
              && n <= Size(b.cls) < 2 * n
              && exists j: nat :: Fits(p, n, j) && (forall i: nat :: i < j ==> !Fits(p, n, i))
                   && b.page == p.lists[j][|p.lists[j]| - 1]
  {
    ClassForBounds(n);
    var k := ClassFor(n);
    var j := FirstNonEmpty(p.lists, k);
    if j < LISTS {
      assert Fits(p, n, j);
      forall i: nat | i < j ensures !Fits(p, n, i) {}
    } else {
      forall i: nat ensures !Fits(p, n, i) {}
    }
  }

  /** A single page comes from the end of the buffer, and without one there from the last block
      of the smallest class that has one. */
  lemma AllocOneServes(p: Pool)
    requires |p.lists| == LISTS
    ensures AllocOne(p).1.Some? <==> p.single != [] || exists k: nat :: Fits(p, 1, k)
    ensures AllocOne(p).1.None? ==> AllocOne(p).0 == p
    ensures AllocOne(p).1.Some? ==>
              var b := AllocOne(p).1.value;
              && b.cls == 0 && AllocOne(p).0.out == p.out + multiset{b}
              && (p.single != [] ==> b.page == p.single[|p.single| - 1] && AllocOne(p).0.single == p.single[..|p.single| - 1])
              && (p.single == [] ==>
                    exists j: nat :: Fits(p, 1, j) && (forall i: nat :: i < j ==> !Fits(p, 1, i))
                      && b.page == p.lists[j][|p.lists[j]| - 1])
  {
    if p.single == [] {
      AllocBestFit(p, 1);
      assert BitLen(1) == 1 && ClassFor(1) == 0 && Size(0) == 1;
    }
  }

  /** A page is free when it is on a list or in the buffer. */
  ghost predicate IsFree(p: Pool, x: int)
    requires |p.lists| == LISTS
  {
    Covered(AllFree(p.lists) + multiset(Tag(p.single, 0)), x)
  }

  ghost predicate IsHeld(p: Pool, x: int) { Covered(p.out + p.lost, x) }

  lemma FreeIsComplement(p: Pool, x: int)
    requires Inv(p)
    ensures IsFree(p, x) <==> 0 <= x < p.max && !IsHeld(p, x)
  {
    var m, f, h := Total(p), AllFree(p.lists) + multiset(Tag(p.single, 0)), p.out + p.lost;
    assert m == f + h;
    TilesPartition(m, p.max);
    if Covered(m, x) {
      var b :| b in m && Covers(b, x);
      assert b in f || b in h;
    }
    if IsFree(p, x) {
      var b :| b in f && Covers(b, x);
      assert b in m;
      if IsHeld(p, x) {
        var c :| c in h && Covers(c, x);
        FreeNotHeld(m, f, h, b, c, p.max);
      }
    }
  }

  lemma FreeNotHeld(m: multiset<Block>, f: multiset<Block>, h: multiset<Block>, b: Block, c: Block, n: nat)
    requires Tiles(m, n) && m == f + h && b in f && c in h
    ensures Apart(b, c)
  {
    if b == c {
      TilesBlock(m, n, b);
      assert false;
    }
    TilesApart(m, n, b, c);
  }

  /** Allocation takes exactly the returned block's pages out of the free pages: the halves
      put back by the split loop tile the rest of the popped block. */
  lemma AllocTakesBlock(p: Pool, n: nat, x: int)
    requires Inv(p) && AllocPages(p, n).1.Some?
    ensures IsFree(p, x) <==> IsFree(AllocPages(p, n).0, x) || Covers(AllocPages(p, n).1.value, x)
    ensures !(IsFree(AllocPages(p, n).0, x) && Covers(AllocPages(p, n).1.value, x))
  {
    var q, b := AllocPages(p, n).0, AllocPages(p, n).1.value;
    AllocPagesKeepsInv(p, n);
    AllocPagesLists(p, n);
    HeldGrows(p, q, b, x);
  }

  /** The same for a single page. */
  lemma AllocOneTakes(p: Pool, x: int)
    requires Inv(p) && AllocOne(p).1.Some?
    ensures var (q, b) := AllocOne(p);
            && Inv(q) && q.max == p.max
            && (IsFree(p, x) <==> IsFree(q, x) || x == b.value.page) && !IsFree(q, b.value.page)
  {
    var q, b := AllocOne(p).0, AllocOne(p).1.value;
    AllocOneKeepsInv(p);
    assert Size(0) == 1;
    if p.single == [] {
      assert BitLen(1) == 1 && ClassFor(1) == 0;
      AllocTakesBlock(p, 1, x);
      AllocTakesBlock(p, 1, b.page);
    } else {
      assert q.out + q.lost == p.out + p.lost + multiset{b};
      HeldGrows(p, q, b, x);
      HeldGrows(p, q, b, b.page);
    }
  }

  lemma {:induction false} ListedIn(lists: seq<seq<nat>>, b: Block)
    requires b in AllFree(lists)
    ensures b.cls < |lists| && b.page in lists[b.cls]
  {
    var n := |lists| - 1;
    if b in AllFree(lists[..n]) {
      ListedIn(lists[..n], b);
    } else {
      assert b in Tag(lists[n], n);
    }
  }

  /** A request for one page fails only when no page is free. */
  lemma AllocOneFailsIff(p: Pool)
    requires Inv(p)
    ensures AllocOne(p).1.None? <==> forall x :: !IsFree(p, x)
  {
    AllocOneServes(p);
    if AllocOne(p).1.Some? {
      AllocOneTakes(p, AllocOne(p).1.value.page);
    } else {
      forall x ensures !IsFree(p, x) { NothingFree(p, x); }
    }
  }

  lemma NothingFree(p: Pool, x: int)
    requires |p.lists| == LISTS && p.single == [] && forall k: nat :: !Fits(p, 1, k)
    ensures !IsFree(p, x)
  {
    if IsFree(p, x) {
      var b :| b in AllFree(p.lists) + multiset(Tag(p.single, 0)) && Covers(b, x);
      assert b in AllFree(p.lists);
      ListedIn(p.lists, b);
      assert Fits(p, 1, b.cls);
    }
  }

  lemma HeldGrows(p: Pool, q: Pool, b: Block, x: int)
    requires Inv(p) && Inv(q) && q.max == p.max && q.out + q.lost == p.out + p.lost + multiset{b}
    ensures IsFree(p, x) <==> IsFree(q, x) || Covers(b, x)
    ensures !(IsFree(q, x) && Covers(b, x))
  {
    FreeIsComplement(p, x);
    FreeIsComplement(q, x);
    var h, h' := p.out + p.lost, q.out + q.lost;
    assert b in h';
    assert Total(q) == AllFree(q.lists) + multiset(Tag(q.single, 0)) + h';
    TilesBlock(Total(q), q.max, b);
    if Covers(b, x) && Covered(h, x) {
      var c :| c in h && Covers(c, x);
      HeldOnce(Total(q), q.max, h, b, c);
    }
    if Covered(h', x) {
      var c :| c in h' && Covers(c, x);
      assert c in h || c == b;
    }
    if Covered(h, x) {
      var c :| c in h && Covers(c, x);
      assert c in h';
    }
  }

  lemma HeldOnce(m: multiset<Block>, n: nat, h: multiset<Block>, b: Block, c: Block)
    requires Tiles(m, n) && h + multiset{b} <= m && c in h
    ensures Apart(b, c)
  {
    assert c in m && b in m;
    if b == c {
      TilesBlock(m, n, b);
      assert false;
    }
    TilesApart(m, n, b, c);
  }

  // ----- freeing conserves pages, and exactly when it does not

  /** Where the block of class j that contains the page begins. */
  function Down(page: nat, j: nat): (r: nat)
    ensures r % Size(j) == 0
  {
    RoundedAligned(page, Size(j));
    page - page % Size(j)
  }

  /** The search for the buddy at class j finds it. */
  predicate BuddyFound(lists: seq<seq<nat>>, page: nat, j: nat)
    requires j < |lists|
  {
    FindAndPop(lists[j], Partner(Down(page, j), j)).Some?
  }

  /** The chain of merges from (page, k) finds a buddy at every class up to _1024. */
  predicate Escapes(p: Pool, page: nat, k: nat)
    requires |p.lists| == LISTS
  {
    forall j :: k <= j < LISTS ==> BuddyFound(p.lists, page, j)
  }

  ghost function Loss(p: Pool, page: nat, k: nat): multiset<Block>
    requires |p.lists| == LISTS
  {
    if Escapes(p, page, k) then multiset{Block(Down(page, ERRO), ERRO)} else multiset{}
  }

  /** Freeing a buddy block loses it, at its full merged size, exactly when the merge chain
      runs through all lists; otherwise nothing is lost. */
  lemma FreeLosesIff(p: Pool, b: Block)
    requires Inv(p) && b in p.out && b.page < p.singleFirst
    ensures Free(p, b).lost == p.lost + Loss(p, b.page, b.cls)
    ensures Escapes(p, b.page, b.cls) <==> Free(p, b).lost != p.lost
  {
    TilesBlock(Total(p), p.max, b);
    MergeLoss(p.(out := p.out - multiset{b}), b.page, b.cls);
    assert Free(p, b).lost == p.lost + Loss(p, b.page, b.cls);
    assert forall c: Block :: |p.lost + multiset{c}| == |p.lost| + 1;
  }

  lemma LossOn(p: Pool, q: Pool, page: nat, low: nat, k: nat)
    requires |p.lists| == |q.lists| == LISTS && k < LISTS && BuddyFound(p.lists, page, k)
    requires forall j :: k < j <= ERRO ==> Down(page, j) == Down(low, j)
    requires forall j :: k < j < LISTS ==> p.lists[j] == q.lists[j]
    ensures Loss(p, page, k) == Loss(q, low, k + 1)
  {
    forall j | k < j < LISTS ensures BuddyFound(p.lists, page, j) <==> BuddyFound(q.lists, low, j) {}
    assert Escapes(p, page, k) <==> Escapes(q, low, k + 1);
  }

  lemma MergeStops(p: Pool, page: nat, k: nat)
    requires |p.lists| == LISTS && k <= ERRO && page % Size(k) == 0 && (k < ERRO ==> !BuddyFound(p.lists, page, k))
    ensures MergeUp(p, page, k).lost == p.lost + Loss(p, page, k)
  {
    assert Down(page, k) == page;
  }

  lemma {:induction false} MergeLoss(p: Pool, page: nat, k: nat)
    requires |p.lists| == LISTS && k <= ERRO && page % Size(k) == 0 && page < 0x1_0000_0000
    ensures MergeUp(p, page, k).lost == p.lost + Loss(p, page, k)
    decreases ERRO - k
  {
    if k < ERRO && BuddyFound(p.lists, page, k) {
      assert Down(page, k) == page;
      var q, low := MergeStep(p, page, k), Lower(Partner(page, k), page);
      MergeGoesOn(p, page, k, q, low);
      MergeLoss(q, low, k + 1);
      LossOn(p, q, page, low, k);
    } else {
      MergeStops(p, page, k);
    }
  }

  lemma MergeGoesOn(p: Pool, page: nat, k: nat, q: Pool, low: int)
    requires |p.lists| == LISTS && k < ERRO && page % Size(k) == 0 && page < 0x1_0000_0000 && BuddyFound(p.lists, page, k)
    requires q == MergeStep(p, page, k) && low == Lower(Partner(page, k), page)
    ensures 0 <= low < 0x1_0000_0000 && low % Size(k + 1) == 0 && |q.lists| == LISTS
    ensures MergeUp(p, page, k) == MergeUp(q, low, k + 1) && q.lost == p.lost
    ensures forall j :: k < j < LISTS ==> p.lists[j] == q.lists[j]
    ensures forall j :: k < j <= ERRO ==> Down(page, j) == Down(low, j)
  {
    assert Down(page, k) == page;
    PartnerInRange(page, k);
    LowerIsDown(page, k);
    forall j | k < j <= ERRO ensures Down(low, j) == Down(page, j) { SameBlock(page, k + 1, j); }
  }

  /** The class a block of class k grows to: the first one whose search for the buddy fails. */
  function MergeTop(lists: seq<seq<nat>>, page: nat, k: nat): (top: nat)
    requires |lists| == LISTS && k <= ERRO
    ensures k <= top <= ERRO && (forall j :: k <= j < top ==> BuddyFound(lists, page, j))
    ensures top < ERRO ==> !BuddyFound(lists, page, top)
    decreases ERRO - k
  {
    if k == ERRO || !BuddyFound(lists, page, k) then k else MergeTop(lists, page, k + 1)
  }

  lemma {:induction false} SameTop(lists: seq<seq<nat>>, page: nat, lists': seq<seq<nat>>, page': nat, k: nat)
    requires |lists| == |lists'| == LISTS && k <= ERRO
    requires forall j :: k <= j < LISTS ==> lists[j] == lists'[j] && Down(page, j) == Down(page', j)
    ensures MergeTop(lists, page, k) == MergeTop(lists', page', k)
    decreases ERRO - k
  {
    if k < ERRO { SameTop(lists, page, lists', page', k + 1); }
  }

  function ListAfterMerge(lists: seq<seq<nat>>, c: nat, page: nat, k: nat, top: nat): seq<nat>
    requires c < |lists| && (k <= c < top ==> BuddyFound(lists, page, c))
  {
    if k <= c < top then FindAndPop(lists[c], Partner(Down(page, c), c)).value
    else if c == top then lists[c] + [Down(page, c)]
    else lists[c]
  }

  lemma ListAfterStep(p: Pool, page: nat, k: nat, c: nat, q: Pool, low: nat, top: nat)
    requires |p.lists| == LISTS && k < top <= ERRO && BuddyFound(p.lists, page, k) && Down(page, k) == page && c < LISTS
    requires q == MergeStep(p, page, k) && (forall j :: k < j <= ERRO ==> Down(page, j) == Down(low, j))
    requires forall j :: k < j < top ==> BuddyFound(p.lists, page, j) && BuddyFound(q.lists, low, j)
    ensures ListAfterMerge(q.lists, c, low, k + 1, top) == ListAfterMerge(p.lists, c, page, k, top)
  {}

  /** List by list: each class the block passes loses its buddy there, the class it stops at
      gains the merged block, and no other list changes. */
  lemma {:induction false} MergeUpLists(p: Pool, page: nat, k: nat, c: nat)
    requires |p.lists| == LISTS && k <= ERRO && page % Size(k) == 0 && page < 0x1_0000_0000 && c < LISTS
    ensures MergeUp(p, page, k).lists[c] == ListAfterMerge(p.lists, c, page, k, MergeTop(p.lists, page, k))
    decreases ERRO - k
  {
    if k < ERRO && BuddyFound(p.lists, page, k) {
      assert Down(page, k) == page;
      var q, low := MergeStep(p, page, k), Lower(Partner(page, k), page);
      MergeGoesOn(p, page, k, q, low);
      MergeUpLists(q, low, k + 1, c);
      SameTop(q.lists, low, p.lists, page, k + 1);
      ListAfterStep(p, page, k, c, q, low, MergeTop(q.lists, low, k + 1));
    } else {
      assert Down(page, k) == page;
    }
  }

  lemma LowerIsDown(page: nat, k: nat)
    requires k <= ERRO && page % Size(k) == 0 && page < 0x1_0000_0000
    ensures Lower(Partner(page, k), page) == Down(page, k + 1)
  {
    LowerAligned(page, k);
    RoundedDown(page, Size(k + 1));
  }

  lemma SameBlock(page: nat, i: nat, j: nat)
    requires i <= j
    ensures Down(Down(page, i), j) == Down(page, j)
  {
    var low := Down(page, i);
    RoundedDown(page, Size(i));
    RoundedDown(page, Size(j));
    RoundedDown(low, Size(j));
    DivModUnique(low, Size(i), page / Size(i), 0);
    SameQuotient(low, page, i, j);
  }

  lemma {:induction false} SameQuotient(a: nat, b: nat, i: nat, j: nat)
    requires i <= j && a / Size(i) == b / Size(i)
    ensures a / Size(j) == b / Size(j)
  {
    if i < j {
      SameQuotient(a, b, i, j - 1);
      DivideTwice(a, Size(j - 1));
      DivideTwice(b, Size(j - 1));
    }
  }

  lemma DivideTwice(x: nat, m: nat)
    requires m > 0
    ensures x / (2 * m) == x / m / 2
  {
    var q := x / m;
    Pairing(q + 1, m);
    DivModUnique(x, 2 * m, q / 2, x % m + if q % 2 == 0 then 0 else m);
  }

  /** A page of the buffer that is given back is the next one handed out. */
  lemma FreedSingleIsNext(p: Pool, b: Block)
    requires Inv(p) && b in p.out && b.page >= p.singleFirst && b.cls <= ERRO
    ensures AllocOne(Free(p, b)).1 == Some(Block(b.page, 0)) && AllocOne(Free(p, b)).0.single == p.single
  {
    var q := Free(p, b);
    assert q.single[|q.single| - 1] == b.page && q.single[..|q.single| - 1] == p.single;
  }

  /** Freeing gives back exactly the block's pages, as long as the merge chain stops. */
  lemma FreeGivesBack(p: Pool, b: Block, x: int)
    requires Inv(p) && b in p.out
    requires b.page < p.singleFirst ==> !Escapes(p, b.page, b.cls)
    ensures IsFree(Free(p, b), x) <==> IsFree(p, x) || Covers(b, x)
    ensures !(IsFree(p, x) && Covers(b, x))
  {
    var q := Free(p, b);
    FreeKeepsInv(p, b);
    TilesBlock(Total(p), p.max, b);
    if b.page < p.singleFirst { FreeLosesIff(p, b); }
    assert q.out + q.lost + multiset{b} == p.out + p.lost;
    HeldGrows(q, p, b, x);
  }
}
