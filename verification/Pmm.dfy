/** The physical memory manager as it is laid out in memory: one array of page descriptors,
    threaded by their `next` links into eleven class lists and the single-page list. A
    pointer into the array is an index, NULL is Null. */
module Pmm {
  import opened Machine
  import opened Sequences
  import opened Wrappers
  import opened Blocks
  import opened Buddy
  import opened BuddyOps
  import opened BuddyRuns

  const MAX_PAGES: nat := 0x10_0001   // page numbers of a 32-bit physical address space
  const ERRO_POP_BLOCK: nat := 0xffff_ffff

  datatype Link = Null | At(page: nat)
  datatype Page = Page(pageNo: nat, next: Link)

  function LinkOf(s: seq<nat>, i: nat): Link { if i < |s| then At(s[i]) else Null }

  /** Following `next` from `head` visits exactly the descriptors of s, in order, and ends at NULL. */
  ghost predicate Threads(pages: seq<Page>, head: Link, s: seq<nat>) {
    && head == LinkOf(s, 0)
    && forall i :: 0 <= i < |s| ==> s[i] < |pages| && pages[s[i]].next == LinkOf(s, i + 1)
  }

  /** Descriptors off the list do not matter. */
  lemma ThreadsFrame(pages: seq<Page>, pages': seq<Page>, head: Link, s: seq<nat>)
    requires Threads(pages, head, s) && |pages'| == |pages|
    requires forall x :: x in s && x < |pages| ==> pages'[x].next == pages[x].next
    ensures Threads(pages', head, s)
  {
    forall i | 0 <= i < |s| ensures s[i] < |pages'| && pages'[s[i]].next == LinkOf(s, i + 1) {
      assert s[i] in s;
    }
  }

  lemma ThreadsAppend(pages: seq<Page>, pages': seq<Page>, head: Link, s: seq<nat>, page: nat)
    requires Threads(pages, head, s) && |pages'| == |pages| && page < |pages| && page !in s && Distinct(s)
    requires pages'[page].next == Null
    requires s != [] ==> pages'[s[|s| - 1]].next == At(page)
    requires forall x :: x in s && x != s[|s| - 1] && x < |pages| ==> pages'[x].next == pages[x].next
    ensures Threads(pages', LinkOf(s + [page], 0), s + [page])
  {
    var t := s + [page];
    forall i | 0 <= i < |t| ensures t[i] < |pages'| && pages'[t[i]].next == LinkOf(t, i + 1) {
      if i < |s| {
        assert s[i] in s;
        if i < |s| - 1 { assert Differ(s, i, |s| - 1); }
      }
    }
  }

  lemma LinksWithout(s: seq<nat>, i: nat, j: nat)
    requires 0 < i < |s| && j < |s| - 1
    ensures var t := s[..i] + s[i + 1..];
            && t[j] == s[if j < i then j else j + 1]
            && LinkOf(t, j + 1) == LinkOf(s, if j + 1 < i then j + 1 else j + 2)
  {}

  /** Dropping node i: its predecessor skips it. */
  lemma ThreadsRemove(pages: seq<Page>, pages': seq<Page>, head: Link, s: seq<nat>, i: nat)
    requires Threads(pages, head, s) && 0 < i < |s| && Distinct(s)
    requires pages' == pages[s[i - 1] := pages[s[i - 1]].(next := LinkOf(s, i + 1))]
    ensures Threads(pages', head, s[..i] + s[i + 1..])
  {
    var t := s[..i] + s[i + 1..];
    forall j | 0 <= j < |t| ensures t[j] < |pages'| && pages'[t[j]].next == LinkOf(t, j + 1) {
      LinksWithout(s, i, j);
      var j' := if j < i then j else j + 1;
      if j' < i - 1 { assert Differ(s, j', i - 1); } else if j' > i - 1 { assert Differ(s, i - 1, j'); }
    }
  }

  lemma ThreadsDropLast(pages: seq<Page>, pages': seq<Page>, head: Link, s: seq<nat>)
    requires Threads(pages, head, s) && |s| > 1 && Distinct(s)
    requires pages' == pages[s[|s| - 2] := pages[s[|s| - 2]].(next := Null)]
    ensures Threads(pages', head, s[..|s| - 1])
  {
    ThreadsRemove(pages, pages', head, s, |s| - 1);
    assert s[..|s| - 1] + s[|s|..] == s[..|s| - 1];
  }

  lemma NoDupDropLast(s: seq<nat>, t: seq<nat>)
    requires Distinct(s) && s != [] && t == s[..|s| - 1]
    ensures Distinct(t) && forall x :: x in t ==> x in s
  {
    forall a, b | 0 <= a < b < |t| ensures Differ(t, a, b) {
      assert Differ(s, a, b);
    }
  }

  lemma FoundAt(s: seq<nat>, target: nat, i: nat)
    requires 1 <= i < |s| && s[i] == target && forall j :: 1 <= j < i ==> s[j] != target
    ensures FindAndPop(s, target) == Some(s[..i] + s[i + 1..])
  {
    assert s[1..][i - 1] == target;
    assert IndexFrom(s, target, 1) == i;
  }

  lemma NotFound(s: seq<nat>, target: nat)
    requires |s| == 1 ==> s[0] != target
    requires forall j :: 1 <= j < |s| ==> s[j] != target
    ensures FindAndPop(s, target).None?
  {}

  lemma DisjointAfterRemove(lists: seq<seq<nat>>, single: seq<nat>, k: nat, i: nat)
    requires NodesDisjoint(lists, single) && k < |lists| && i < |lists[k]|
    ensures NodesDisjoint(lists[k := lists[k][..i] + lists[k][i + 1..]], single)
  {
    var s := lists[k];
    var t := s[..i] + s[i + 1..];
    assert forall x :: x in t ==> x in s;
    forall a, b | 0 <= a < b < |t| ensures Differ(t, a, b) {
      assert Differ(s, if a < i then a else a + 1, if b < i then b else b + 1);
    }
  }

  lemma DisjointAfterAppend(lists: seq<seq<nat>>, single: seq<nat>, k: nat, page: nat)
    requires NodesDisjoint(lists, single) && k < |lists| && Unlisted(lists, single, page)
    ensures NodesDisjoint(Append(lists, k, page), single)
  {
    var t := lists[k] + [page];
    assert forall x :: x in t <==> x in lists[k] || x == page;
    forall a, b | 0 <= a < b < |t| ensures Differ(t, a, b) {
      if b < |t| - 1 { assert Differ(lists[k], a, b); } else { assert t[a] in lists[k]; }
    }
  }

  /** A page inside a block that is in transit is on no list. */
  lemma UnlistedInside(p: Pool, held: Block, x: nat)
    requires |p.lists| == LISTS && Tiles(Total(p) + multiset{held}, p.max) && Covers(held, x)
    ensures Unlisted(p.lists, p.single, x)
  {
    var m := Total(p) + multiset{held};
    forall k | 0 <= k < LISTS ensures x !in p.lists[k] {
      if x in p.lists[k] {
        ListedInTotal(p, k, x);
        InTransitApart(Total(p), held, Block(x, k), p.max);
        assert false;
      }
    }
    if x in p.single {
      var i :| 0 <= i < |p.single| && p.single[i] == x;
      assert Tag(p.single, 0)[i] == Block(x, 0);
      assert Block(x, 0) in Total(p);
      InTransitApart(Total(p), held, Block(x, 0), p.max);
      assert false;
    }
  }

  lemma InTransitApart(m: multiset<Block>, held: Block, b: Block, n: nat)
    requires Tiles(m + multiset{held}, n) && b in m
    ensures Apart(held, b)
  {
    if b == held {
      TilesBlock(m + multiset{held}, n, b);
      assert false;
    }
    TilesApart(m + multiset{held}, n, held, b);
  }

  // ----- what the merge and split loops may rely on, step by step

  /** A block in transit may be put on its list: it is in range and on no list. */
  ghost predicate MayList(p: Pool, page: nat, k: nat)
    requires |p.lists| == LISTS
  {
    && k <= ERRO && page < p.singleFirst <= p.max
    && Unlisted(p.lists, p.single, page)
    && (k < ERRO ==> forall x :: x in p.lists[k] ==> x < p.singleFirst)
  }

  ghost predicate MergeSafe(p: Pool, page: nat, k: nat)
    requires |p.lists| == LISTS
    decreases ERRO - k
  {
    && page % Size(k) == 0 && MayList(p, page, k)
    && (k < ERRO && FindAndPop(p.lists[k], Partner(page, k)).Some? ==>
          Partner(page, k) >= 0 && MergeSafe(MergeStep(p, page, k), Lower(Partner(page, k), page), k + 1))
  }

  ghost predicate SplitSafe(p: Pool, page: nat, k: nat, target: nat)
    requires |p.lists| == LISTS && target <= k < LISTS
    decreases k
  {
    k > target ==>
      && MayList(p, page + Size(k - 1), k - 1)
      && SplitSafe(HalfPut(p, page, k), page, k - 1, target)
  }

  lemma InTransitMayList(p: Pool, held: Block, page: nat, k: nat)
    requires |p.lists| == LISTS && k <= ERRO && Regions(p) && Tiles(Total(p) + multiset{held}, p.max)
    requires Covers(held, page) && page < p.singleFirst
    ensures MayList(p, page, k)
  {
    UnlistedInside(p, held, page);
  }

  lemma MergeNext(p: Pool, page: nat, k: nat, q: Pool, low: int)
    requires |p.lists| == LISTS && k < ERRO && Regions(p) && page + Size(k) <= p.singleFirst
    requires Tiles(Total(p) + multiset{Block(page, k)}, p.max) && FindAndPop(p.lists[k], Partner(page, k)).Some?
    requires q == MergeStep(p, page, k) && low == Lower(Partner(page, k), page)
    ensures Partner(page, k) >= 0 && low >= 0 && |q.lists| == LISTS && Regions(q) && low + Size(k + 1) <= q.singleFirst
    ensures Tiles(Total(q) + multiset{Block(low, k + 1)}, q.max)
  {
    MergeStepTiles(p, page, k);
    MergeStepRegions(p, page, k);
    MergeStepInRange(p, page, k);
  }

  lemma {:induction false} MergeIsSafe(p: Pool, page: nat, k: nat)
    requires |p.lists| == LISTS && k <= ERRO && Regions(p) && page + Size(k) <= p.singleFirst
    requires Tiles(Total(p) + multiset{Block(page, k)}, p.max)
    ensures MergeSafe(p, page, k)
    decreases ERRO - k
  {
    TilesBlock(Total(p) + multiset{Block(page, k)}, p.max, Block(page, k));
    InTransitMayList(p, Block(page, k), page, k);
    if k < ERRO && FindAndPop(p.lists[k], Partner(page, k)).Some? {
      var q, low := MergeStep(p, page, k), Lower(Partner(page, k), page);
      MergeNext(p, page, k, q, low);
      MergeIsSafe(q, low, k + 1);
    }
  }

  lemma BuddyTaken(p: Pool, page: nat, k: nat)
    requires |p.lists| == LISTS && k < ERRO && MergeSafe(p, page, k) && FindAndPop(p.lists[k], Partner(page, k)).Some?
    ensures Partner(page, k) >= 0
    ensures var q, low := MergeStep(p, page, k), Lower(Partner(page, k), page);
            MergeSafe(q, low, k + 1) && MergeUp(p, page, k) == MergeUp(q, low, k + 1)
  {}

  lemma AppendRegions(p: Pool, k: nat, page: nat)
    requires |p.lists| == LISTS && k < LISTS && Regions(p) && page + Size(k) <= p.singleFirst
    ensures Regions(p.(lists := Append(p.lists, k, page)))
  {
    assert forall x :: x in p.lists[k] + [page] ==> x in p.lists[k] || x == page;
  }

  /** Half of the block on its list, the other half in transit. */
  function HalfPut(p: Pool, page: nat, k: nat): Pool
    requires 0 < k <= |p.lists|
  {
    p.(lists := Append(p.lists, k - 1, page + Size(k - 1)))
  }

  lemma HalfTotal(p: Pool, rest: multiset<Block>, b: Block)
    requires |p.lists| == LISTS && rest == multiset(Tag(p.single, 0)) + p.out + p.lost
    ensures Total(p) + multiset{b} == AllFree(p.lists) + rest + multiset{b}
  {}

  lemma SplitStepTiles(p: Pool, page: nat, k: nat)
    requires |p.lists| == LISTS && 0 < k < LISTS && p.max < WORD
    requires Tiles(Total(p) + multiset{Block(page, k)}, p.max)
    ensures Tiles(Total(HalfPut(p, page, k)) + multiset{Block(page, k - 1)}, p.max)
  {
    var q := HalfPut(p, page, k);
    var rest := multiset(Tag(p.single, 0)) + p.out + p.lost;
    HalfTotal(p, rest, Block(page, k));
    SplitStep(p.lists, rest, page, k, p.max);
    HalfTotal(q, rest, Block(page, k - 1));
  }

  /** A block of class k in transit between the lists of a good pool. */
  ghost predicate InTransit(p: Pool, page: nat, k: nat) {
    && |p.lists| == LISTS && k < LISTS && Regions(p) && page + Size(k) <= p.singleFirst
    && Tiles(Total(p) + multiset{Block(page, k)}, p.max)
  }

  lemma SplitNext(p: Pool, page: nat, k: nat)
    requires InTransit(p, page, k) && k > 0
    ensures MayList(p, page + Size(k - 1), k - 1)
    ensures InTransit(HalfPut(p, page, k), page, k - 1)
  {
    assert MayList(p, page + Size(k - 1), k - 1) by { InTransitMayList(p, Block(page, k), page + Size(k - 1), k - 1); }
    HalfPutInTransit(p, page, k);
  }

  lemma HalfPutInTransit(p: Pool, page: nat, k: nat)
    requires InTransit(p, page, k) && k > 0
    ensures InTransit(HalfPut(p, page, k), page, k - 1)
  {
    AppendRegions(p, k - 1, page + Size(k - 1));
    SplitStepTiles(p, page, k);
  }

  lemma SplitSafeStep(p: Pool, page: nat, k: nat, target: nat)
    requires |p.lists| == LISTS && target < k < LISTS && MayList(p, page + Size(k - 1), k - 1)
    requires SplitSafe(HalfPut(p, page, k), page, k - 1, target)
    ensures SplitSafe(p, page, k, target)
  {}

  lemma {:induction false} SplitIsSafe(p: Pool, page: nat, k: nat, target: nat)
    requires InTransit(p, page, k) && target <= k
    ensures SplitSafe(p, page, k, target)
    decreases k
  {
    if k > target {
      SplitNext(p, page, k);
      var q := HalfPut(p, page, k);
      assert InTransit(q, page, k - 1);
      SplitIsSafe(q, page, k - 1, target);
      SplitSafeStep(p, page, k, target);
    }
  }

  ghost predicate Unlisted(lists: seq<seq<nat>>, single: seq<nat>, page: nat) {
    page !in single && forall k :: 0 <= k < |lists| ==> page !in lists[k]
  }

  class Pmm {
    const start: nat              // pmm_page_start
    const max: nat                // pmm_max_page_no
    const pages: array<Page>      // page_array
    const multi: array<Link>      // MULTI_LINK
    var single: Link              // SINGLE_LINK
    var singleFirst: nat          // singel_page_first_no
    ghost var pool: Pool

    /** The heap structure alone: what every list operation keeps, also between split steps. */
    ghost predicate Linked()
      reads this, pages, multi
    {
      && pages.Length == max && multi.Length == |pool.lists| == LISTS
      && (forall i :: 0 <= i < max ==> pages[i].pageNo == i)
      && (forall k :: 0 <= k < LISTS ==> Threads(pages[..], multi[k], pool.lists[k]))
      && Threads(pages[..], single, pool.single)
      && NodesDisjoint(pool.lists, pool.single)
    }

    /** A page of the buffer that is handed out has a NULL link, so it can be appended as it is. */
    ghost predicate HeldSinglesClean()
      reads this, pages
    {
      forall b :: b in pool.out && singleFirst <= b.page < pages.Length ==> pages[b.page].next == Null
    }

    ghost predicate Valid()
      reads this, pages, multi
    {
      && Linked() && Inv(pool) && HeldSinglesClean()
      && pool.max == max && pool.singleFirst == singleFirst
      && start % PAGE == 0 && start + max * PAGE <= WORD
    }

    // ----- start-up

    /** pmm_page_init: descriptors, class lists, single-page buffer. */
    constructor (start: nat, max: nat)
      requires max >= 2048 && start % PAGE == 0 && start + max * PAGE <= WORD
      ensures Valid() && fresh(pages) && fresh(multi)
      ensures this.start == start && this.max == max && pool == Init(max)
    {
      this.start, this.max := start, max;
      pages := new Page[max](i => Page(i, Null));
      multi := new Link[LISTS](_ => Null);
      single := Null;
      var first := 2048 + 1024 * LargeCount(max);
      singleFirst := first;
      pool := Pool(max, first, Unloaded(), [], multiset{}, multiset{});
      new;
      LoadSmall();
      LargeLoads();
      LoadLarge(Small(LISTS));
      LoadedBelowBuffer(max);
      LoadSingles();
      InitPartitions(max);
    }

    /** The blocks below page 2048: pages 0 and 1, then one block of each further class. */
    method LoadSmall()
      requires Linked() && pool.lists == Unloaded() && pool.single == [] && max >= 2048 && pool.singleFirst >= 2048
      modifies pages, multi, `pool
      ensures Linked() && pool == old(pool).(lists := Small(LISTS))
      ensures BufferAsIn(old(pages[..]))
    {
      FirstPagesLoad();
      AppendBlock(0, 0);
      AppendBlock(1, 0);
      var k := 1;
      while k < LISTS
        invariant 1 <= k <= LISTS && Linked() && pool == old(pool).(lists := Small(k))
        invariant BufferAsIn(old(pages[..]))
      {
        LoadClass(k);
        k := k + 1;
      }
    }

    method LoadClass(k: nat)
      requires Linked() && 1 <= k < LISTS && pool.lists == Small(k) && pool.single == [] && max >= 2048 && pool.singleFirst >= 2048
      modifies pages, multi, `pool
      ensures Linked() && pool == old(pool).(lists := Small(k + 1))
      ensures BufferAsIn(old(pages[..]))
    {
      SmallUnlisted(k);
      AppendBlock(Size(k), k);
    }

    /** Blocks of 1024 pages up to the buffer. */
    method LoadLarge(ghost small: seq<seq<nat>>)
      requires Linked() && |small| == LISTS && pool.lists == small && Loadable(small)
      requires pool.single == [] && pool.singleFirst == singleFirst
      requires max >= 2048 && singleFirst == 2048 + 1024 * LargeCount(max)
      modifies pages, multi, `pool
      ensures Linked() && pool == old(pool).(lists := Large(small, LargeCount(max)))
      ensures BufferAsIn(old(pages[..]))
    {
      var page := 2048;
      ghost var j := 0;
      while page < max - 1024
        invariant page == 2048 + 1024 * j && j <= LargeCount(max)
        invariant Linked() && pool == old(pool).(lists := Large(small, j))
        invariant BufferAsIn(old(pages[..]))
      {
        assert LargeFits(small, j);
        LoadBlock(small, j, page);
        page := page + 1024;
        j := j + 1;
      }
    }

    method LoadBlock(ghost small: seq<seq<nat>>, ghost j: nat, page: nat)
      requires Linked() && |small| == LISTS && pool.lists == Large(small, j) && pool.single == []
      requires page == 2048 + 1024 * j && page < singleFirst && page < max && pool.singleFirst == singleFirst
      requires LargeFits(small, j)
      modifies pages, multi, `pool
      ensures Linked() && pool == old(pool).(lists := Large(small, j + 1)) && BufferAsIn(old(pages[..]))
    {
      forall i | singleFirst <= i < max ensures i !in pool.lists[10] {}
      AppendBlock(page, 10);
    }

    /** The rest of the pages, one after the other, as the single-page buffer. */
    method LoadSingles()
      requires Linked() && pool.single == [] && single == Null && singleFirst <= max && pool.singleFirst == singleFirst
      requires Below(pool.lists, singleFirst)
      requires forall i :: singleFirst <= i < max ==> pages[i].next == Null
      modifies this, pages
      ensures Linked() && singleFirst == old(singleFirst) && pool == old(pool).(single := Upto(singleFirst, max))
    {
      var page := singleFirst;
      var last := 0;
      assert pool.single == Upto(singleFirst, page);
      while page < max
        invariant singleFirst == old(singleFirst) <= page <= max && Linked()
        invariant pool == old(pool).(single := Upto(singleFirst, page))
        invariant page > singleFirst ==> last == page - 1
        invariant forall i :: page <= i < max ==> pages[i].next == Null
      {
        ghost var s, before, head := pool.single, pages[..], single;
        if single == Null {
          single := At(page);
          last := page;
        } else {
          pages[last] := pages[last].(next := At(page));
          last := page;
        }
        UptoNext(singleFirst, page);
        ThreadsAppend(before, pages[..], head, s, page);
        SingleChanged(s + [page], before);
        page := page + 1;
      }
    }

    /** append_block for the class _erro: the descriptor is cut loose and no list is selected.
        The C variable for the list head is then left unset; this is the reading in which it
        happens to be NULL. */
    method AppendErro(page: nat)
      requires Linked() && page < max && Unlisted(pool.lists, pool.single, page)
      modifies pages
      ensures Linked()
      ensures forall i :: 0 <= i < max && i != page ==> pages[i] == old(pages[i])
    {
      ghost var before := pages[..];
      pages[page] := pages[page].(next := Null);
      forall c | 0 <= c < LISTS ensures Threads(pages[..], multi[c], pool.lists[c]) {
        ThreadsFrame(before, pages[..], multi[c], pool.lists[c]);
      }
      ThreadsFrame(before, pages[..], single, pool.single);
    }

    /** Put the block at the end of its class list. */
    method AppendBlock(page: nat, k: nat)
      requires Linked() && k < LISTS && page < max && Unlisted(pool.lists, pool.single, page)
      modifies pages, multi, `pool
      ensures Linked() && pool == old(pool).(lists := Append(old(pool.lists), k, page))
      ensures forall i :: 0 <= i < max && i != page && i !in old(pool.lists[k]) ==> pages[i] == old(pages[i])
    {
      ghost var before := pages[..];
      pages[page] := pages[page].(next := Null);
      ghost var s := pool.lists[k];
      var header := multi[k];
      if header == Null {
        multi[k] := At(page);
      } else {
        var probe := header.page;
        ghost var i := 0;
        while pages[probe].next != Null
          invariant i < |s| && probe == s[i]
          decreases |s| - i
        {
          probe := pages[probe].next.page;
          i := i + 1;
        }
        pages[probe] := pages[probe].(next := At(page));
      }
      ThreadsAppend(before, pages[..], old(multi[k]), s, page);
      Added(k, page, before);
    }

    /** The list k with a node at its end: links of the other lists are as before. */
    ghost method Added(k: nat, page: nat, before: seq<Page>)
      requires pages.Length == max == |before| && multi.Length == |pool.lists| == LISTS && k < LISTS
      requires NodesDisjoint(pool.lists, pool.single) && Unlisted(pool.lists, pool.single, page)
      requires forall j :: 0 <= j < max ==> pages[j].pageNo == j
      requires Threads(pages[..], multi[k], pool.lists[k] + [page])
      requires forall c :: 0 <= c < LISTS && c != k ==> Threads(before, multi[c], pool.lists[c])
      requires Threads(before, single, pool.single)
      requires forall j :: 0 <= j < max && j != page && j !in pool.lists[k] ==> pages[j] == before[j]
      modifies `pool
      ensures Linked() && pool == old(pool).(lists := Append(old(pool.lists), k, page))
    {
      DisjointAfterAppend(pool.lists, pool.single, k, page);
      forall c | 0 <= c < LISTS && c != k ensures Threads(pages[..], multi[c], pool.lists[c]) {
        ThreadsFrame(before, pages[..], multi[c], pool.lists[c]);
      }
      ThreadsFrame(before, pages[..], single, pool.single);
      pool := pool.(lists := Append(pool.lists, k, page));
    }

    /** Unlink the node after node i of a class list. */
    method SkipNext(k: nat, probe: nat, to: Link, ghost i: nat)
      requires Linked() && k < LISTS && i + 1 < |pool.lists[k]| && probe == pool.lists[k][i]
      requires to == LinkOf(pool.lists[k], i + 2)
      modifies pages, `pool
      ensures Linked()
      ensures pool == old(pool).(lists := old(pool.lists)[k := old(pool.lists[k])[..i + 1] + old(pool.lists[k])[i + 2..]])
      ensures forall j :: 0 <= j < max && j !in old(pool.lists[k]) ==> pages[j] == old(pages[j])
    {
      ghost var s, before := pool.lists[k], pages[..];
      pages[probe] := pages[probe].(next := to);
      assert pages[..] == before[probe := before[probe].(next := to)];
      ThreadsRemove(before, pages[..], multi[k], s, i + 1);
      Dropped(k, i + 1, before);
    }

    /** Take the last block of a class list; ERRO_POP_BLOCK when the list is empty. */
    method PopBlock(k: nat) returns (r: nat)
      requires Linked() && k < LISTS
      modifies pages, multi, `pool
      ensures Linked()
      ensures var l := old(pool.lists[k]);
              if l == [] then r == ERRO_POP_BLOCK && pool == old(pool)
              else r == l[|l| - 1] && pool == old(pool).(lists := old(pool.lists)[k := l[..|l| - 1]])
      ensures forall i :: 0 <= i < max && i !in old(pool.lists[k]) ==> pages[i] == old(pages[i])
    {
      ghost var s, before := pool.lists[k], pages[..];
      var header := multi[k];
      if header == Null { return ERRO_POP_BLOCK; }
      if pages[header.page].next == Null {
        multi[k] := Null;
        r := pages[header.page].pageNo;
        assert s[..0] + s[1..] == [] == s[..|s| - 1];
        Dropped(k, 0, before);
      } else {
        var probe := header.page;
        ghost var i := 0;
        while pages[pages[probe].next.page].next != Null
          invariant i + 1 < |s| && probe == s[i]
          decreases |s| - i
        {
          probe := pages[probe].next.page;
          i := i + 1;
        }
        r := pages[pages[probe].next.page].pageNo;
        SkipNext(k, probe, Null, i);
        assert s[..|s| - 1] + s[|s|..] == s[..|s| - 1];
      }
    }

    /** The list k without node i: links of the other lists are as before. */
    ghost method Dropped(k: nat, i: nat, before: seq<Page>)
      requires pages.Length == max == |before| && multi.Length == |pool.lists| == LISTS && k < LISTS && i < |pool.lists[k]|
      requires NodesDisjoint(pool.lists, pool.single)
      requires forall j :: 0 <= j < max ==> pages[j].pageNo == j
      requires Threads(pages[..], multi[k], pool.lists[k][..i] + pool.lists[k][i + 1..])
      requires forall c :: 0 <= c < LISTS && c != k ==> Threads(before, multi[c], pool.lists[c])
      requires Threads(before, single, pool.single)
      requires forall j :: 0 <= j < max && j !in pool.lists[k] ==> pages[j] == before[j]
      modifies `pool
      ensures Linked()
      ensures pool == old(pool).(lists := old(pool.lists)[k := old(pool.lists[k])[..i] + old(pool.lists[k])[i + 1..]])
      ensures i == |old(pool.lists[k])| - 1 ==> pool.lists == old(pool.lists)[k := old(pool.lists[k])[..i]]
    {
      DisjointAfterRemove(pool.lists, pool.single, k, i);
      forall c | 0 <= c < LISTS && c != k ensures Threads(pages[..], multi[c], pool.lists[c]) {
        ThreadsFrame(before, pages[..], multi[c], pool.lists[c]);
      }
      ThreadsFrame(before, pages[..], single, pool.single);
      var l := pool.lists[k];
      if i == |l| - 1 { assert l[..i] + l[i + 1..] == l[..i]; }
      pool := pool.(lists := pool.lists[k := l[..i] + l[i + 1..]]);
    }

    /** Search a class list for a block and unlink it; ERRO_POP_BLOCK when it is not found. */
    method FindAndPopBlock(target: nat, k: nat) returns (r: nat)
      requires Linked() && k <= ERRO && target != ERRO_POP_BLOCK
      modifies pages, multi, `pool
      ensures Linked()
      ensures r == ERRO_POP_BLOCK || r == target
      ensures r == target <==> k < ERRO && FindAndPop(old(pool.lists[k]), target).Some?
      ensures r == ERRO_POP_BLOCK ==> pool == old(pool)
      ensures r == target ==> pool == old(pool).(lists := old(pool.lists)[k := FindAndPop(old(pool.lists[k]), target).value])
      ensures forall i :: 0 <= i < max && (k < ERRO ==> i !in old(pool.lists[k])) ==> pages[i] == old(pages[i])
    {
      if k == ERRO { return ERRO_POP_BLOCK; }
      ghost var s := pool.lists[k];
      var header := multi[k];
      if header == Null { return ERRO_POP_BLOCK; }
      if pages[header.page].next == Null {
        if pages[header.page].pageNo == target {
          assert s == [target];
          var popped := PopBlock(k);
          return target;
        }
      }
      var probe := header.page;
      ghost var i := 0;
      while pages[probe].next != Null
        invariant i < |s| && probe == s[i]
        invariant forall j :: 1 <= j <= i ==> s[j] != target
        invariant |s| == 1 ==> s[0] != target
        decreases |s| - i
      {
        if pages[pages[probe].next.page].pageNo == target {
          FoundAt(s, target, i + 1);
          SkipNext(k, probe, pages[pages[probe].next.page].next, i);
          return target;
        }
        probe := pages[probe].next.page;
        i := i + 1;
      }
      NotFound(s, target);
      // The last node was compared on the way; its page number cannot be the target.
      if pages[probe].pageNo == target { assert false; }
      return ERRO_POP_BLOCK;
    }

    method GetPartnerPageNo(page: nat, k: nat) returns (r: nat)
      requires k <= ERRO && page % Size(k) == 0 && page < MAX_PAGES
      ensures r == Partner(page, k)
    {
      var v1 := Size(k);
      var v2 := 2 * v1;
      UpperBuddyTest(page, k);
      PartnerInRange(page, k);
      if (page - v1) % WORD % v2 == 0 {
        r := page - v1;
      } else {
        r := page + v1;
      }
    }

    /** AppendBlock for a block on its way back: the buffer's descriptors are not touched. */
    method PutBack(page: nat, k: nat)
      requires Linked() && MayList(pool, page, k) && pool.max == max
      modifies pages, multi, `pool
      ensures Linked() && pool == old(pool).(lists := if k < ERRO then Append(old(pool.lists), k, page) else old(pool.lists))
      ensures BufferAsIn(old(pages[..]))
    {
      if k < ERRO { AppendBlock(page, k); } else { AppendErro(page); }
    }

    ghost predicate BufferAsIn(before: seq<Page>)
      reads this, pages
    {
      |before| == pages.Length && forall i :: pool.singleFirst <= i < pages.Length ==> pages[i] == before[i]
    }

    /** Unlink the buddy of a block on its way back, if it is found. */
    method TakeBuddy(page: nat, k: nat) returns (partner: nat, found: bool)
      requires Linked() && page % Size(k) == 0 && MayList(pool, page, k) && pool.max == max < MAX_PAGES
      modifies pages, multi, `pool
      ensures Linked() && partner == Partner(page, k)
      ensures found <==> k < ERRO && FindAndPop(old(pool.lists[k]), partner).Some?
      ensures pool == if found then MergeStep(old(pool), page, k) else old(pool)
      ensures BufferAsIn(old(pages[..]))
    {
      BuddyIsPage(page, k);
      partner := GetPartnerPageNo(page, k);
      var r := FindAndPopBlock(partner, k);
      found := r != ERRO_POP_BLOCK;
    }

    /** The end of a merge chain: list the block, or lose it when it has no list. */
    method Settle(page: nat, k: nat)
      requires Linked() && MayList(pool, page, k) && pool.max == max
      requires k < ERRO ==> FindAndPop(pool.lists[k], Partner(page, k)).None?
      modifies pages, multi, `pool
      ensures Linked() && pool == MergeUp(old(pool), page, k)
      ensures BufferAsIn(old(pages[..]))
    {
      PutBack(page, k);
      if k == ERRO { pool := pool.(lost := pool.lost + multiset{Block(page, ERRO)}); }
    }

    /** Merge upwards, then put the block on the list of the class it has grown to. */
    method FreeHelper(page: nat, k: nat)
      requires Linked() && k <= ERRO && MergeSafe(pool, page, k) && pool.max == max < MAX_PAGES
      modifies pages, multi, `pool
      ensures Linked() && pool == MergeUp(old(pool), page, k)
      ensures BufferAsIn(old(pages[..]))
      decreases ERRO - k
    {
      ghost var p := pool;
      if k < ERRO && FindAndPop(p.lists[k], Partner(page, k)).Some? { BuddyTaken(p, page, k); }
      var partner, found := TakeBuddy(page, k);
      if found {
        var low := if partner < page then partner else page;
        assert low == Lower(Partner(page, k), page) && pool == MergeStep(p, page, k);
        FreeHelper(low, k + 1);
      } else {
        Settle(page, k);
      }
    }

    /** One turn of the split loop: the upper half goes to the next lower class. */
    method SplitOnce(target: nat, k: nat, page: nat)
      requires Linked() && target < k < LISTS && SplitSafe(pool, page, k, target) && pool.max == max
      modifies pages, multi, `pool
      ensures Linked() && pool == old(pool).(lists := Append(old(pool.lists), k - 1, page + Size(k - 1)))
      ensures SplitSafe(pool, page, k - 1, target)
      ensures Split(pool.lists, page, k - 1, target) == Split(old(pool.lists), page, k, target)
      ensures BufferAsIn(old(pages[..]))
    {
      PutBack(page + Size(k) / 2, k - 1);
    }

    /** Split the popped block down to the wanted class. */
    method AllocHelper(target: nat, popped: nat, page: nat)
      requires Linked() && target <= popped < LISTS && SplitSafe(pool, page, popped, target) && pool.max == max
      modifies pages, multi, `pool
      ensures Linked() && pool == old(pool).(lists := Split(old(pool.lists), page, popped, target))
      ensures BufferAsIn(old(pages[..]))
    {
      var k := popped;
      ghost var p, before, goal := pool, pages[..], Split(pool.lists, page, popped, target);
      while k != target
        invariant target <= k <= popped && Linked() && pool == p.(lists := pool.lists)
        invariant SplitSafe(pool, page, k, target) && Split(pool.lists, page, k, target) == goal
        invariant BufferAsIn(before)
      {
        SplitOnce(target, k, page);
        k := k - 1;
      }
    }

    // ----- allocation

    /** The loop that rounds the page count up to a class. */
    method ClassOf(n: nat) returns (c: nat)
      requires 0 < n
      ensures c == ClassFor(n)
    {
      var probe := n;
      c := 0;
      while probe != 0
        invariant c + BitLen(probe) == BitLen(n)
      {
        c := c + 1;
        probe := probe / 2;
      }
      var counter2 := c - 1;
      if n == Size(counter2) { c := c - 1; }
    }

    /** Pop from the smallest class from k on that has a block. */
    method PopSmallest(k: nat) returns (j: nat, page: nat)
      requires Linked() && k < LISTS && pool.max == max < MAX_PAGES
      modifies pages, multi, `pool
      ensures Linked() && j == FirstNonEmpty(old(pool.lists), k)
      ensures var lists := old(pool.lists);
              if j == LISTS then pool == old(pool) && page == ERRO_POP_BLOCK
              else var l := lists[j]; page == l[|l| - 1] && page != ERRO_POP_BLOCK && pool == old(pool).(lists := lists[j := l[..|l| - 1]])
      ensures forall i :: 0 <= i < max && (j < LISTS ==> i !in old(pool.lists)[j]) ==> pages[i] == old(pages[i])
    {
      page := ERRO_POP_BLOCK;
      j := k;
      ghost var lists := pool.lists;
      while j < ERRO
        invariant k <= j <= ERRO && Linked() && pool == old(pool) && page == ERRO_POP_BLOCK
        invariant FirstNonEmpty(lists, k) == FirstNonEmpty(lists, j)
        invariant forall i :: 0 <= i < max ==> pages[i] == old(pages[i])
      {
        page := PopBlock(j);
        if page != ERRO_POP_BLOCK {
          return;
        }
        j := j + 1;
      }
    }

    /** Pop the smallest block that fits and split it down to class k. */
    method TakeBlock(k: nat) returns (page: nat)
      requires Linked() && k < LISTS && Takeable(pool, k) && pool.max == max < MAX_PAGES
      modifies pages, multi, `pool
      ensures Linked() && BufferAsIn(old(pages[..]))
      ensures var lists, j := old(pool.lists), FirstNonEmpty(old(pool.lists), k);
              if j == LISTS then pool == old(pool) && page == ERRO_POP_BLOCK
              else page == lists[j][|lists[j]| - 1] && page != ERRO_POP_BLOCK
                   && pool == old(pool).(lists := Split(Popped(lists, j), page, j, k))
    {
      ghost var before := pages[..];
      var j;
      j, page := PopSmallest(k);
      assert BufferAsIn(before);
      if page != ERRO_POP_BLOCK {
        AllocHelper(k, j, page);
        assert BufferAsIn(before);
      }
    }

    /** Buddy allocation on a linked heap, given that the block may be split safely. */
    method AllocLinked(count: nat) returns (r: PmAlloc)
      requires Linked() && pool.max == max < MAX_PAGES
      requires 1 <= count <= 1024 ==> ClassFor(count) < LISTS && Takeable(pool, ClassFor(count))
      modifies pages, multi, `pool
      ensures Linked() && BufferAsIn(old(pages[..]))
      ensures pool == BuddyOps.AllocPages(old(pool), count).0
      ensures r == Answer(BuddyOps.AllocPages(old(pool), count).1)
    {
      if count > 1024 || count == 0 { return PmAlloc(0, ERRO, 0); }
      var k := ClassOf(count);
      var page := TakeBlock(k);
      if page == ERRO_POP_BLOCK { return PmAlloc(0, ERRO, 0); }
      pool := pool.(out := pool.out + multiset{Block(page, k)});
      r := PmAlloc(PageToAddr(page), k, 1);
    }

    /** The answer names the block by which what is handed out has grown since p, by the address
        of its first page and its class. */
    ghost predicate Holds(p: Pool, r: PmAlloc)
      reads this
    {
      && AddrToPage(r.addr) < max && r.addr == start + AddrToPage(r.addr) * PAGE
      && pool.out == p.out + multiset{Block(AddrToPage(r.addr), r.size)}
    }

    /** Buddy allocation of at least `count` pages. */
    method AllocPages(count: nat) returns (r: PmAlloc)
      requires Valid()
      modifies this, pages, multi
      ensures Valid() && pool == BuddyOps.AllocPages(old(pool), count).0
      ensures r.state == if count > 0 && exists k: nat :: Fits(old(pool), count, k) then 1 else 0
      ensures r.state == 1 ==> count <= Size(r.size) < 2 * count && Holds(old(pool), r)
      ensures r.state == 0 ==> pool == old(pool)
    {
      ghost var p, before := pool, pages[..];
      AllocAnswers(p, count);
      MayAllocate(p, count);
      r := AllocLinked(count);
      AllocPagesKeepsInv(p, count);
      AllocHolds(p, count);
      CleanAfter(p, before);
    }

    // ----- the single-page buffer

    /** Take the last page of the single-page list. */
    method PopSingle() returns (page: nat)
      requires Linked() && pool.single != []
      modifies this, pages
      ensures Linked() && singleFirst == old(singleFirst)
      ensures var l := old(pool.single); page == l[|l| - 1] && page < max && pool == old(pool).(single := l[..|l| - 1])
      ensures pages[page].next == Null
      ensures forall i :: 0 <= i < max && i !in old(pool.single) ==> pages[i] == old(pages[i])
    {
      ghost var s, before := pool.single, pages[..];
      if pages[single.page].next == Null {
        page := pages[single.page].pageNo;
        single := Null;
        assert s[..|s| - 1] == [];
      } else {
        var probe := single.page;
        ghost var i := 0;
        while pages[pages[probe].next.page].next != Null
          invariant i + 1 < |s| && probe == s[i]
          decreases |s| - i
        {
          probe := pages[probe].next.page;
          i := i + 1;
        }
        page := pages[pages[probe].next.page].pageNo;
        assert Differ(s, i, i + 1);
        pages[probe] := pages[probe].(next := Null);
        assert pages[..] == before[probe := before[probe].(next := Null)];
        ThreadsDropLast(before, pages[..], single, s);
      }
      NoDupDropLast(s, s[..|s| - 1]);
      SingleChanged(s[..|s| - 1], before);
    }

    /** Put a page at the end of the single-page list, trusting its link to be NULL. */
    method AppendSingle(page: nat)
      requires Linked() && page < max && Unlisted(pool.lists, pool.single, page) && pages[page].next == Null
      modifies this, pages
      ensures Linked() && singleFirst == old(singleFirst) && pool == old(pool).(single := old(pool.single) + [page])
      ensures forall i :: 0 <= i < max && i !in old(pool.single) ==> pages[i] == old(pages[i])
    {
      ghost var s, before, head := pool.single, pages[..], single;
      if single == Null {
        single := At(page);
      } else {
        var probe := single.page;
        ghost var i := 0;
        while pages[probe].next != Null
          invariant i < |s| && probe == s[i]
          decreases |s| - i
        {
          probe := pages[probe].next.page;
          i := i + 1;
        }
        pages[probe] := pages[probe].(next := At(page));
      }
      ThreadsAppend(before, pages[..], head, s, page);
      forall a, b | 0 <= a < b < |s| + 1 ensures Differ(s + [page], a, b) {
        if b < |s| { assert Differ(s, a, b); } else { assert s[a] in s; }
      }
      SingleChanged(s + [page], before);
    }

    ghost method SingleChanged(s: seq<nat>, before: seq<Page>)
      requires pages.Length == max == |before| && multi.Length == |pool.lists| == LISTS
      requires NodesDisjoint(pool.lists, pool.single) && Distinct(s)
      requires forall x :: x in s ==> x in pool.single || forall k :: 0 <= k < LISTS ==> x !in pool.lists[k]
      requires forall j :: 0 <= j < max ==> pages[j].pageNo == j
      requires Threads(pages[..], single, s)
      requires forall c :: 0 <= c < LISTS ==> Threads(before, multi[c], pool.lists[c])
      requires forall j :: 0 <= j < max && j !in pool.single ==> pages[j] == before[j]
      modifies `pool
      ensures Linked() && pool == old(pool).(single := s)
    {
      forall c | 0 <= c < LISTS ensures Threads(pages[..], multi[c], pool.lists[c]) {
        ThreadsFrame(before, pages[..], multi[c], pool.lists[c]);
      }
      pool := pool.(single := s);
    }

    /** One page: from the buffer when it has one, from the buddy lists otherwise. */
    method AllocOnePage() returns (r: PmAlloc)
      requires Valid()
      modifies this, pages, multi
      ensures Valid() && pool == AllocOne(old(pool)).0
      ensures r.state == if exists x :: IsFree(old(pool), x) then 1 else 0
      ensures r.state == 1 ==> r.size == 0 && Holds(old(pool), r)
      ensures r.state == 1 && old(pool.single) != [] ==> AddrToPage(r.addr) == old(pool.single[|pool.single| - 1])
      ensures r.state == 0 ==> pool == old(pool)
    {
      ghost var p := pool;
      AllocOneServes(p);
      AllocOneFailsIff(p);
      if single != Null {
        r := TakeSingle();
      } else {
        r := AllocPages(1);
        if r.state == 1 { SameAdded(p.out, Block(AddrToPage(r.addr), r.size), AllocOne(p).1.value); }
      }
    }

    /** The buffer's last page is handed out. */
    method TakeSingle() returns (r: PmAlloc)
      requires Valid() && single != Null
      modifies this, pages, multi
      ensures Valid() && pool == AllocOne(old(pool)).0
      ensures r.state == 1 && r.size == 0 && Holds(old(pool), r)
      ensures AddrToPage(r.addr) == old(pool.single[|pool.single| - 1])
    {
      HeldNotBuffered(pool);
      AllocOneKeepsInv(pool);
      var page := PopSingle();
      AnswerMeans(Block(page, 0));
      pool := pool.(out := pool.out + multiset{Block(page, 0)});
      r := PmAlloc(PageToAddr(page), 0, 1);
    }

    // ----- freeing

    method FreeBuddy(ghost b: Block, page: nat, size: nat)
      requires Linked() && HeldSinglesClean() && pool.max == max < MAX_PAGES && pool.singleFirst == singleFirst
      requires b == Block(page, size) && b in pool.out && size <= ERRO && page < singleFirst
      requires MergeSafe(pool.(out := pool.out - multiset{b}), page, size)
      modifies pages, multi, `pool
      ensures Linked() && HeldSinglesClean() && pool == Free(old(pool), b)
    {
      pool := pool.(out := pool.out - multiset{b});
      FreeHelper(page, size);
    }

    method FreeSingle(ghost b: Block, page: nat)
      requires Linked() && HeldSinglesClean() && pool.singleFirst == singleFirst <= page < max
      requires b.page == page && b.cls <= ERRO && b in pool.out && Unlisted(pool.lists, pool.single, page)
      requires forall c :: c in pool.out ==> c.page !in pool.single
      requires forall c :: c in pool.out && c.page == page ==> c == b && pool.out[b] == 1
      modifies this, pages
      ensures Linked() && HeldSinglesClean() && pool == Free(old(pool), b) && singleFirst == old(singleFirst)
    {
      pool := pool.(out := pool.out - multiset{b});
      AppendSingle(page);
    }

    /** Free a block in the form it was handed out; False when the address is out of range. */
    method FreePage(r: PmAlloc) returns (ok: bool)
      requires Valid()
      requires AddrToPage(r.addr) < max ==> Block(AddrToPage(r.addr), r.size) in pool.out
      modifies this, pages, multi
      ensures Valid()
      ensures ok <==> AddrToPage(r.addr) < max
      ensures r.addr < WORD ==> (ok <==> start <= r.addr < start + max * PAGE)
      ensures pool.out == old(pool.out) - if ok then multiset{Block(AddrToPage(r.addr), r.size)} else multiset{}
      ensures pool == if ok then Free(old(pool), Block(AddrToPage(r.addr), r.size)) else old(pool)
    {
      var page := AddrToPage(r.addr);
      ok := page < max;
      if r.addr < WORD { AddrInRangeIff(r.addr); }
      if ok {
        FreeHolds(pool, Block(page, r.size));
        FreeInRange(page, r.size);
      }
    }

    /** Every answer can be given back as it is; then nothing more is handed out than before,
        and the same pages are free, unless the merge chain has lost a block. */
    method AllocAndFree(count: nat) returns (got: bool)
      requires Valid()
      modifies this, pages, multi
      ensures Valid() && pool.out == old(pool.out)
      ensures got <==> count > 0 && exists k: nat :: Fits(old(pool), count, k)
      ensures pool.lost == old(pool.lost) ==> forall x :: IsFree(pool, x) <==> IsFree(old(pool), x)
    {
      ghost var p := pool;
      var r := AllocPages(count);
      got := r.state == 1;
      if got {
        ghost var b := Block(AddrToPage(r.addr), r.size);
        assert b in pool.out;
        var freed := FreePage(r);
        GivenBack(p, count, b, pool);
      }
    }

    method FreeInRange(page: nat, size: nat)
      requires Valid() && page < max && Block(page, size) in pool.out
      modifies this, pages, multi
      ensures Valid() && pool == Free(old(pool), Block(page, size))
    {
      ghost var b, p := Block(page, size), pool;
      FreeKeepsInv(p, b);
      FreeHolds(p, b);
      if page < singleFirst {
        FreeMayMerge(p, b);
        FreeBuddy(b, page, size);
      } else {
        FreedUnlisted(p, b);
        HeldNotBuffered(p);
        FreeSingle(b, page);
      }
    }

    /** The address of a page, and the page of an address, in 32-bit arithmetic. */
    function PageToAddr(page: nat): nat { (page * PAGE + start) % WORD }

    function AddrToPage(addr: nat): nat { (addr - start) % WORD / PAGE }

    /** Exactly the addresses of managed pages lead back to a page: any other address, also
        one below the first page, is out of range. */
    lemma AddrInRangeIff(addr: nat)
      requires start % PAGE == 0 && start + max * PAGE <= WORD && addr < WORD
      ensures AddrToPage(addr) < max <==> start <= addr < start + max * PAGE
      ensures forall page :: 0 <= page < max ==> AddrToPage(PageToAddr(page)) == page
    {
      if addr < start { assert (addr - start) % WORD == addr - start + WORD; } else { assert (addr - start) % WORD == addr - start; }
    }

    function Answer(b: Option<Block>): PmAlloc {
      if b.Some? then PmAlloc(PageToAddr(b.value.page), b.value.cls, 1) else PmAlloc(0, ERRO, 0)
    }

    /** The answer for a block is its address, its class and the state 1. */
    lemma AnswerMeans(b: Block)
      requires start % PAGE == 0 && start + max * PAGE <= WORD && b.page < max
      ensures var r := Answer(Some(b));
              r.state == 1 && r.size == b.cls && AddrToPage(r.addr) == b.page && r.addr == start + b.page * PAGE
    {
      AddrInRangeIff(start);
      assert b.page * PAGE + start < WORD;
    }

    lemma AllocAnswers(p: Pool, count: nat)
      requires Inv(p) && p.max == max && start % PAGE == 0 && start + max * PAGE <= WORD
      ensures var (q, b) := BuddyOps.AllocPages(p, count); var r := Answer(b);
              && r.state == (if count > 0 && exists k: nat :: Fits(p, count, k) then 1 else 0)
              && (r.state == 1 ==> count <= Size(r.size) < 2 * count && AddrToPage(r.addr) < max && r.addr == start + AddrToPage(r.addr) * PAGE
                                   && q.out == p.out + multiset{Block(AddrToPage(r.addr), r.size)})
              && (r.state == 0 ==> q == p)
    {
      var q, b := BuddyOps.AllocPages(p, count).0, BuddyOps.AllocPages(p, count).1;
      if count > 1024 {
        SizeValues();
        forall k: nat | k < LISTS ensures Size(k) <= 1024 { if k < 10 { SizeMonotone(k, 10); } }
      } else if count > 0 {
        AllocBestFit(p, count);
        if b.Some? {
          AllocTakesBlock(p, count, b.value.page);
          AllocPagesLists(p, count);
          FreeIsComplement(p, b.value.page);
          AnswerMeans(b.value);
        }
      }
    }

    lemma CleanAfter(p: Pool, before: seq<Page>)
      requires |before| == pages.Length == max && p.singleFirst == singleFirst == pool.singleFirst
      requires forall b :: b in p.out && singleFirst <= b.page < max ==> before[b.page].next == Null
      requires BufferAsIn(before) && forall b :: b in pool.out ==> b in p.out || b.page < singleFirst
      ensures HeldSinglesClean()
    {}
  }

  lemma GivenBack(p: Pool, count: nat, b: Block, q: Pool)
    requires Inv(p) && BuddyOps.AllocPages(p, count).0.out == p.out + multiset{b} && BuddyOps.AllocPages(p, count).1.Some? && b.cls <= ERRO
    requires var u := BuddyOps.AllocPages(p, count).0; b in u.out && q == Free(u, b) && Inv(q)
    ensures q.out == p.out
    ensures q.lost == p.lost ==> forall x :: IsFree(q, x) <==> IsFree(p, x)
  {
    var u, c := BuddyOps.AllocPages(p, count).0, BuddyOps.AllocPages(p, count).1.value;
    AllocPagesKeepsInv(p, count);
    AllocPagesLists(p, count);
    SameAdded(p.out, b, c);
    FreeHolds(u, b);
    if q.lost == p.lost {
      forall x ensures IsFree(q, x) <==> IsFree(p, x) { GivenBackPage(p, count, b, q, x); }
    }
  }

  lemma GivenBackPage(p: Pool, count: nat, b: Block, q: Pool, x: int)
    requires Inv(p) && BuddyOps.AllocPages(p, count).1 == Some(b) && b.cls <= ERRO && b in BuddyOps.AllocPages(p, count).0.out
    requires q == Free(BuddyOps.AllocPages(p, count).0, b) && Inv(q) && q.lost == p.lost && BuddyOps.AllocPages(p, count).0.lost == p.lost
    ensures IsFree(q, x) <==> IsFree(p, x)
  {
    var u := BuddyOps.AllocPages(p, count).0;
    AllocPagesKeepsInv(p, count);
    AllocTakesBlock(p, count, x);
    if b.page < u.singleFirst { FreeLosesIff(u, b); }
    FreeGivesBack(u, b, x);
  }

  lemma SameAdded(m: multiset<Block>, a: Block, b: Block)
    requires m + multiset{a} == m + multiset{b}
    ensures a == b
  {
    assert (m + multiset{a})[a] == (m + multiset{b})[a];
  }

  lemma BuddyIsPage(page: nat, k: nat)
    requires k <= ERRO && page % Size(k) == 0 && page < MAX_PAGES
    ensures 0 <= Partner(page, k) < ERRO_POP_BLOCK
  {
    PartnerInRange(page, k);
    SizeBound(k);
  }

  lemma HeldNotBuffered(p: Pool)
    requires Inv(p)
    ensures forall b :: b in p.out ==> b.page !in p.single
    ensures forall b :: b in p.out && p.singleFirst <= b.page ==> p.out[b] == 1 && b.cls == 0
  {
    forall b | b in p.out ensures b.page !in p.single && (p.singleFirst <= b.page ==> p.out[b] == 1) {
      FreedUnlisted(p, b);
    }
  }

  /** A block held is on no list. */
  lemma FreedUnlisted(p: Pool, b: Block)
    requires Inv(p) && b in p.out
    ensures Unlisted(p.lists, p.single, b.page) && p.out[b] == 1
  {
    var q := p.(out := p.out - multiset{b});
    FreeTotal(p, b);
    UnlistedInside(q, b, b.page);
    TilesBlock(Total(p), p.max, b);
  }

  lemma FreeMayMerge(p: Pool, b: Block)
    requires Inv(p) && b in p.out && b.page < p.singleFirst
    ensures MergeSafe(p.(out := p.out - multiset{b}), b.page, b.cls)
  {
    var q := p.(out := p.out - multiset{b});
    FreeTotal(p, b);
    assert forall c :: c in q.out ==> c in p.out;
    MergeIsSafe(q, b.page, b.cls);
  }

  lemma FreeHolds(p: Pool, b: Block)
    requires Inv(p) && b in p.out
    ensures Free(p, b).out == p.out - multiset{b} && Free(p, b).singleFirst == p.singleFirst && Free(p, b).max == p.max
  {}

  // ----- what start-up relies on

  function Unloaded(): (r: seq<seq<nat>>)
    ensures |r| == LISTS && forall k :: 0 <= k < LISTS ==> r[k] == []
  {
    [[], [], [], [], [], [], [], [], [], [], []]
  }

  lemma FirstPagesLoad()
    ensures Append(Append(Unloaded(), 0, 0), 0, 1) == Small(1)
    ensures forall k :: 0 <= k < LISTS ==> 1 !in Append(Unloaded(), 0, 0)[k]
  {
    var l1: seq<seq<nat>> := [[0], [], [], [], [], [], [], [], [], [], []];
    assert Append(Unloaded(), 0, 0) == l1 by { assert Unloaded()[0] + [0] == [0]; }
    assert l1[0] + [1] == [0, 1];
  }

  ghost predicate Below(lists: seq<seq<nat>>, n: nat) {
    forall k, x :: 0 <= k < |lists| && x in lists[k] ==> x < n
  }

  lemma LoadedBelow(lists: seq<seq<nat>>, n: nat)
    requires Loaded(lists, n)
    ensures Unlisted(lists, [], n) && Below(lists, n)
  {}

  lemma SmallUnlisted(k: nat)
    requires 1 <= k < LISTS
    ensures Unlisted(Small(k), [], Size(k)) && Below(Small(k), Size(k)) && Size(k) < 2048
    ensures Small(k + 1) == Append(Small(k), k, Size(k))
  {
    SmallLoaded(k);
    LoadedBelow(Small(k), Size(k));
    SizeValues();
    SizeMonotone(k, LISTS);
  }

  /** The next block of 1024 pages is on no list yet, and behind all the others. */
  ghost predicate LargeFits(small: seq<seq<nat>>, j: nat)
    requires |small| == LISTS
  {
    var page := 2048 + 1024 * j;
    Unlisted(Large(small, j), [], page) && Below(Large(small, j), page)
  }

  ghost predicate Loadable(small: seq<seq<nat>>)
    requires |small| == LISTS
  {
    forall j: nat :: LargeFits(small, j)
  }

  lemma LargeUnlisted(small: seq<seq<nat>>, j: nat)
    requires |small| == LISTS && Loaded(small, 2048)
    ensures LargeFits(small, j)
  {
    LargeLoaded(small, j);
    LoadedBelow(Large(small, j), 2048 + 1024 * j);
  }

  lemma LargeLoads()
    ensures Loadable(Small(LISTS))
  {
    assert Size(LISTS) == 2048 by { SizeValues(); }
    SmallLoaded(LISTS);
    forall j: nat ensures LargeFits(Small(LISTS), j) { LargeUnlisted(Small(LISTS), j); }
  }

  lemma LoadedBelowBuffer(max: nat)
    ensures Below(Large(Small(LISTS), LargeCount(max)), 2048 + 1024 * LargeCount(max))
  {
    LargeLoads();
    assert LargeFits(Small(LISTS), LargeCount(max));
  }

  lemma UptoNext(first: nat, page: nat)
    requires first <= page
    ensures Upto(first, page) + [page] == Upto(first, page + 1) && page !in Upto(first, page)
    ensures Distinct(Upto(first, page)) && Distinct(Upto(first, page + 1))
  {}

  datatype PmAlloc = PmAlloc(addr: nat, size: nat, state: nat)

  function Popped(lists: seq<seq<nat>>, j: nat): (r: seq<seq<nat>>)
    requires j < |lists| && lists[j] != []
    ensures |r| == |lists|
  {
    lists[j := lists[j][..|lists[j]| - 1]]
  }

  /** What taking a block of class k may rely on. */
  ghost predicate Takeable(p: Pool, k: nat)
    requires |p.lists| == LISTS && k < LISTS
  {
    var j := FirstNonEmpty(p.lists, k);
    j < LISTS ==>
      && SplitSafe(p.(lists := Popped(p.lists, j)), p.lists[j][|p.lists[j]| - 1], j, k)
      && forall x :: x in p.lists[j] ==> x < p.singleFirst
  }

  lemma IsTakeable(p: Pool, k: nat)
    requires Inv(p) && k < LISTS
    ensures Takeable(p, k)
  {
    var j := FirstNonEmpty(p.lists, k);
    if j < LISTS {
      PoppedTotal(p, j);
      PoppedRegions(p, j);
      SplitIsSafe(p.(lists := Popped(p.lists, j)), p.lists[j][|p.lists[j]| - 1], j, k);
    }
  }

  lemma MayAllocate(p: Pool, n: nat)
    requires Inv(p)
    ensures 1 <= n <= 1024 ==> ClassFor(n) < LISTS && Takeable(p, ClassFor(n))
  {
    if 1 <= n <= 1024 {
      ClassForBounds(n);
      IsTakeable(p, ClassFor(n));
    }
  }

  /** What a buddy allocation adds to the blocks held lies below the buffer. */
  lemma AllocHolds(p: Pool, n: nat)
    requires Inv(p)
    ensures var q := BuddyOps.AllocPages(p, n).0;
            q.singleFirst == p.singleFirst && forall b :: b in q.out ==> b in p.out || b.page < p.singleFirst
  {
    if BuddyOps.AllocPages(p, n).1.Some? {
      AllocPagesLists(p, n);
      PoppedRegions(p, FirstNonEmpty(p.lists, ClassFor(n)));
    }
  }

  lemma PoppedTotal(p: Pool, j: nat)
    requires |p.lists| == LISTS && j < LISTS && p.lists[j] != []
    ensures Total(p) == Total(p.(lists := Popped(p.lists, j))) + multiset{Block(p.lists[j][|p.lists[j]| - 1], j)}
  {
    RemoveLastFree(p.lists, j);
  }

  lemma PoppedRegions(p: Pool, j: nat)
    requires |p.lists| == LISTS && Regions(p) && j < LISTS && p.lists[j] != []
    ensures Regions(p.(lists := Popped(p.lists, j))) && p.lists[j][|p.lists[j]| - 1] + Size(j) <= p.singleFirst
  {
    var l := p.lists[j];
    assert l[|l| - 1] in l;
    assert forall x :: x in l[..|l| - 1] ==> x in l;
  }
}
