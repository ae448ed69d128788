/** Allocation and freeing as functions on the pool, and the partition each of them keeps. */
module BuddyOps {
  import opened Wrappers
  import opened Blocks
  import opened Buddy

  // ----- list operations

  /** First index from `from` on that holds t, or |s|. */
  function IndexFrom(s: seq<nat>, t: int, from: nat): (i: nat)
    requires from <= |s|
    ensures from <= i <= |s| && (i < |s| ==> s[i] == t) && forall j :: from <= j < i ==> s[j] != t
    decreases |s| - from
  {
    if from == |s| || s[from] == t then from else IndexFrom(s, t, from + 1)
  }

  /** What is left of a list when the search for t succeeds. The head of a list with two
      or more nodes is never compared. */
  function FindAndPop(s: seq<nat>, t: int): (r: Option<seq<nat>>)
    ensures r.Some? <==> s == [t] || (|s| > 1 && t in s[1..])
  {
    if |s| == 0 then None
    else if |s| == 1 then (if s[0] == t then Some([]) else None)
    else
      var i := IndexFrom(s, t, 1);
      assert i < |s| ==> s[1..][i - 1] == t;
      if i < |s| then Some(s[..i] + s[i + 1..]) else None
  }

  lemma FindAndPopRemoves(s: seq<nat>, t: int) returns (i: nat)
    requires FindAndPop(s, t).Some?
    ensures i < |s| && s[i] == t && FindAndPop(s, t).value == s[..i] + s[i + 1..]
  {
    i := if |s| == 1 then 0 else IndexFrom(s, t, 1);
  }

  function Append(lists: seq<seq<nat>>, k: nat, page: nat): (r: seq<seq<nat>>)
    requires k < |lists|
    ensures |r| == |lists|
  {
    lists[k := lists[k] + [page]]
  }

  function FirstNonEmpty(lists: seq<seq<nat>>, k: nat): (j: nat)
    requires k <= |lists|
    ensures k <= j <= |lists| && (j < |lists| ==> lists[j] != []) && forall i :: k <= i < j ==> lists[i] == []
    decreases |lists| - k
  {
    if k == |lists| || lists[k] != [] then k else FirstNonEmpty(lists, k + 1)
  }

  // ----- freeing

  /** Merge the block with its buddy as long as the buddy is found; a block that grows past
      class _1024 has no list to go to. */
  function MergeUp(p: Pool, page: nat, k: nat): (r: Pool)
    requires |p.lists| == LISTS && k <= ERRO
    ensures |r.lists| == LISTS && r == p.(lists := r.lists, lost := r.lost)
    decreases ERRO - k
  {
    if k == ERRO then p.(lost := p.lost + multiset{Block(page, ERRO)})
    else
      var partner := Partner(page, k);
      match FindAndPop(p.lists[k], partner)
      case Some(rest) => MergeUp(p.(lists := p.lists[k := rest]), Lower(partner, page), k + 1)
      case None => p.(lists := Append(p.lists, k, page))
  }

  function Free(p: Pool, b: Block): (r: Pool)
    requires |p.lists| == LISTS && b in p.out && b.cls <= ERRO
    ensures |r.lists| == LISTS
  {
    var q := p.(out := p.out - multiset{b});
    if b.page < p.singleFirst then MergeUp(q, b.page, b.cls) else q.(single := p.single + [b.page])
  }

  // ----- allocating

  function BitLen(n: nat): nat { if n == 0 then 0 else 1 + BitLen(n / 2) }

  function ClassFor(n: nat): nat
    requires n > 0
  {
    if n == Size(BitLen(n) - 1) then BitLen(n) - 1 else BitLen(n)
  }

  /** Halve the block down from class j to class k, putting every upper half on its list. */
  function Split(lists: seq<seq<nat>>, page: nat, j: nat, k: nat): (r: seq<seq<nat>>)
    requires k <= j < |lists|
    ensures |r| == |lists|
    decreases j
  {
    if j == k then lists else Split(Append(lists, j - 1, page + Size(j - 1)), page, j - 1, k)
  }

  function AllocPages(p: Pool, n: nat): (r: (Pool, Option<Block>))
    requires |p.lists| == LISTS
    ensures |r.0.lists| == LISTS
  {
    if n > 1024 || n == 0 then (p, None)
    else
      ClassForBounds(n);
      var k := ClassFor(n);
      var j := FirstNonEmpty(p.lists, k);
      if j == LISTS then (p, None)
      else
        var l := p.lists[j];
        var page := l[|l| - 1];
        var b := Block(page, k);
        (p.(lists := Split(p.lists[j := l[..|l| - 1]], page, j, k), out := p.out + multiset{b}), Some(b))
  }

  function AllocOne(p: Pool): (r: (Pool, Option<Block>))
    requires |p.lists| == LISTS
    ensures |r.0.lists| == LISTS
  {
    if p.single == [] then AllocPages(p, 1)
    else
      var b := Block(p.single[|p.single| - 1], 0);
      (p.(single := p.single[..|p.single| - 1], out := p.out + multiset{b}), Some(b))
  }

  /** The loop of the class computation rounds the page count up to a power of two. */
  lemma {:induction false} BitLenBounds(n: nat)
    requires n > 0
    ensures BitLen(n) > 0 && Size(BitLen(n) - 1) <= n < Size(BitLen(n))
  {
    if n > 1 {
      BitLenBounds(n / 2);
    } else {
      assert BitLen(1) == 1 + BitLen(0);
    }
  }

  lemma {:induction false} SizeMonotone(j: nat, k: nat)
    requires j < k
    ensures 2 * Size(j) <= Size(k)
  {
    if j + 1 < k { SizeMonotone(j, k - 1); }
  }

  lemma ClassForBounds(n: nat)
    requires 0 < n <= 1024
    ensures ClassFor(n) < LISTS && n <= Size(ClassFor(n)) < 2 * n
    ensures forall k: nat :: Size(k) >= n <==> k >= ClassFor(n)
  {
    BitLenBounds(n);
    var c := ClassFor(n);
    SizeValues();
    if c > 10 {
      if BitLen(n) - 1 > 10 { SizeMonotone(10, BitLen(n) - 1); }
      assert false;
    }
    if c > 0 { assert Size(c) == 2 * Size(c - 1); }
    forall k: nat ensures Size(k) >= n <==> k >= c {
      if k > c { SizeMonotone(c, k); }
      if k < c { SizeMonotone(k, c); }
    }
  }

  // ----- the partition is kept

  lemma SplitStep(lists: seq<seq<nat>>, rest: multiset<Block>, page: nat, j: nat, n: nat)
    requires 0 < j < LISTS == |lists| && n < 0x1_0000_0000
    requires Tiles(AllFree(lists) + rest + multiset{Block(page, j)}, n)
    ensures Tiles(AllFree(Append(lists, j - 1, page + Size(j - 1))) + rest + multiset{Block(page, j - 1)}, n)
  {
    SplitTiles(AllFree(lists) + rest, page, j, n);
    AllFreeAppend(lists, j - 1, page + Size(j - 1));
    var half := multiset{Block(page + Size(j - 1), j - 1)};
    assert AllFree(lists) + rest + half == AllFree(lists) + half + rest;
  }

  lemma {:induction false} SplitKeepsPartition(lists: seq<seq<nat>>, rest: multiset<Block>, page: nat, j: nat, k: nat, n: nat)
    requires k <= j < LISTS == |lists| && n < 0x1_0000_0000
    requires Tiles(AllFree(lists) + rest + multiset{Block(page, j)}, n)
    ensures Tiles(AllFree(Split(lists, page, j, k)) + rest + multiset{Block(page, k)}, n)
    decreases j
  {
    if j > k {
      SplitStep(lists, rest, page, j, n);
      SplitKeepsPartition(Append(lists, j - 1, page + Size(j - 1)), rest, page, j - 1, k, n);
    }
  }

  /** The split loop appends exactly one half to each class below the popped one. */
  lemma {:induction false} SplitLists(lists: seq<seq<nat>>, page: nat, j: nat, k: nat)
    requires k <= j < |lists|
    ensures forall c :: 0 <= c < |lists| ==>
              Split(lists, page, j, k)[c] == if k <= c < j then lists[c] + [page + Size(c)] else lists[c]
    decreases j
  {
    if j > k { SplitLists(Append(lists, j - 1, page + Size(j - 1)), page, j - 1, k); }
  }

  lemma RemoveLastFree(lists: seq<seq<nat>>, j: nat)
    requires |lists| == LISTS && j < LISTS && lists[j] != []
    ensures var l := lists[j];
            AllFree(lists) == AllFree(lists[j := l[..|l| - 1]]) + multiset{Block(l[|l| - 1], j)}
  {
    var l := lists[j];
    AllFreeRemove(lists, j, |l| - 1);
    assert l[..|l| - 1] + l[|l| - 1 + 1..] == l[..|l| - 1];
  }

  /** A successful allocation, taken apart: the requested class, the popped class and page. */
  lemma AllocAnatomy(p: Pool, n: nat) returns (k: nat, j: nat, page: nat, popped: seq<seq<nat>>)
    requires |p.lists| == LISTS && AllocPages(p, n).1.Some?
    ensures 0 < n <= 1024 && k == ClassFor(n) && j == FirstNonEmpty(p.lists, k) && k <= j < LISTS && p.lists[j] != []
    ensures page == p.lists[j][|p.lists[j]| - 1] && popped == p.lists[j := p.lists[j][..|p.lists[j]| - 1]]
    ensures AllocPages(p, n).0 == p.(lists := Split(popped, page, j, k), out := p.out + multiset{Block(page, k)})
    ensures AllocPages(p, n).1 == Some(Block(page, k))
  {
    ClassForBounds(n);
    k := ClassFor(n);
    j := FirstNonEmpty(p.lists, k);
    var l := p.lists[j];
    page, popped := l[|l| - 1], p.lists[j := l[..|l| - 1]];
  }

  lemma AllocPagesTiles(p: Pool, n: nat)
    requires |p.lists| == LISTS && p.max < 0x1_0000_0000 && AllocPages(p, n).1.Some? && Tiles(Total(p), p.max)
    ensures Tiles(Total(AllocPages(p, n).0), p.max)
  {
    var k, j, page, popped := AllocAnatomy(p, n);
    var rest := multiset(Tag(p.single, 0)) + p.out + p.lost;
    PoppedFree(p, j, page, popped, rest);
    SplitKeepsPartition(popped, rest, page, j, k, p.max);
    assert Total(AllocPages(p, n).0) == AllFree(Split(popped, page, j, k)) + rest + multiset{Block(page, k)};
  }

  lemma PoppedFree(p: Pool, j: nat, page: nat, popped: seq<seq<nat>>, rest: multiset<Block>)
    requires |p.lists| == LISTS && j < LISTS && p.lists[j] != [] && page == p.lists[j][|p.lists[j]| - 1]
    requires popped == p.lists[j := p.lists[j][..|p.lists[j]| - 1]] && rest == multiset(Tag(p.single, 0)) + p.out + p.lost
    ensures Total(p) == AllFree(popped) + rest + multiset{Block(page, j)}
  {
    RemoveLastFree(p.lists, j);
  }

  /** List by list: the smallest class that fits loses its last block, each class between
      the requested and the popped one gains one half, and no other list changes. */
  lemma AllocPagesLists(p: Pool, n: nat)
    requires |p.lists| == LISTS && AllocPages(p, n).1.Some?
    ensures var q, page, k := AllocPages(p, n).0, AllocPages(p, n).1.value.page, ClassFor(n);
            k < LISTS && AllocPages(p, n).1.value.cls == k &&
            var j := FirstNonEmpty(p.lists, k);
            && k <= j < LISTS && p.lists[j] != [] && page == p.lists[j][|p.lists[j]| - 1]
            && q == p.(lists := q.lists, out := p.out + multiset{Block(page, k)})
            && forall c :: 0 <= c < LISTS ==> q.lists[c] == ListAfterAlloc(p.lists, c, page, j, k)
  {
    var k, j, page, popped := AllocAnatomy(p, n);
    SplitLists(popped, page, j, k);
  }

  function ListAfterAlloc(lists: seq<seq<nat>>, c: nat, page: nat, j: nat, k: nat): seq<nat>
    requires c < |lists| && j < |lists| && lists[j] != []
  {
    if k <= c < j then lists[c] + [page + Size(c)] else if c == j then lists[j][..|lists[j]| - 1] else lists[c]
  }

  lemma AllocPagesRegions(p: Pool, n: nat)
    requires |p.lists| == LISTS && AllocPages(p, n).1.Some? && Regions(p)
    ensures Regions(AllocPages(p, n).0)
  {
    AllocPagesLists(p, n);
    var k := ClassFor(n);
    SplitRegions(p, AllocPages(p, n).0, AllocPages(p, n).1.value.page, FirstNonEmpty(p.lists, k), k);
  }

  lemma AllocPagesKeepsInv(p: Pool, n: nat)
    requires Inv(p)
    ensures Inv(AllocPages(p, n).0)
  {
    if AllocPages(p, n).1.Some? {
      AllocPagesTiles(p, n);
      AllocPagesRegions(p, n);
    }
  }

  lemma SplitRegions(p: Pool, q: Pool, page: nat, j: nat, k: nat)
    requires |p.lists| == LISTS && Regions(p) && k <= j < LISTS && p.lists[j] != [] && page == p.lists[j][|p.lists[j]| - 1]
    requires q == p.(lists := q.lists, out := p.out + multiset{Block(page, k)}) && |q.lists| == LISTS
    requires forall c :: 0 <= c < LISTS ==> q.lists[c] == ListAfterAlloc(p.lists, c, page, j, k)
    ensures Regions(q)
  {
    assert page in p.lists[j];
    forall c, x | 0 <= c < LISTS && x in q.lists[c] ensures x + Size(c) <= p.singleFirst {
      if k <= c < j && x !in p.lists[c] { SizeMonotone(c, j); }
    }
    if k < j { SizeMonotone(k, j); }
  }

  lemma AllocOneTotal(p: Pool)
    requires |p.lists| == LISTS && p.single != []
    ensures Total(AllocOne(p).0) == Total(p)
  {
    var q, i := AllocOne(p).0, |p.single| - 1;
    assert p.single == q.single + [p.single[i]];
    TagAppend(q.single, 0, p.single[i]);
  }

  lemma AllocOneKeepsInv(p: Pool)
    requires Inv(p)
    ensures Inv(AllocOne(p).0)
  {
    if p.single == [] {
      AllocPagesKeepsInv(p, 1);
    } else {
      AllocOneTotal(p);
      AllocOneRegions(p);
    }
  }

  lemma AllocOneRegions(p: Pool)
    requires |p.lists| == LISTS && p.single != [] && Regions(p)
    ensures Regions(AllocOne(p).0)
  {
    assert p.single[|p.single| - 1] in p.single;
    assert forall x :: x in AllocOne(p).0.single ==> x in p.single;
  }

  /** The pool once the buddy of the block is off its list. */
  function MergeStep(p: Pool, page: nat, k: nat): (r: Pool)
    requires |p.lists| == LISTS && k < ERRO && FindAndPop(p.lists[k], Partner(page, k)).Some?
    ensures |r.lists| == LISTS && r == p.(lists := r.lists)
  {
    p.(lists := p.lists[k := FindAndPop(p.lists[k], Partner(page, k)).value])
  }

  lemma MergeStepTotal(p: Pool, page: nat, k: nat)
    requires |p.lists| == LISTS && k < ERRO && FindAndPop(p.lists[k], Partner(page, k)).Some?
    ensures Partner(page, k) >= 0
    ensures Total(p) == Total(MergeStep(p, page, k)) + multiset{Block(Partner(page, k), k)}
  {
    var i := FindAndPopRemoves(p.lists[k], Partner(page, k));
    AllFreeRemove(p.lists, k, i);
  }

  lemma MergeStopTotal(p: Pool, page: nat, k: nat)
    requires |p.lists| == LISTS && k <= ERRO && (k < ERRO ==> FindAndPop(p.lists[k], Partner(page, k)).None?)
    ensures Total(MergeUp(p, page, k)) == Total(p) + multiset{Block(page, k)}
  {
    if k < ERRO { AllFreeAppend(p.lists, k, page); }
  }

  lemma MergeStepRegions(p: Pool, page: nat, k: nat)
    requires |p.lists| == LISTS && k < ERRO && FindAndPop(p.lists[k], Partner(page, k)).Some?
    requires Regions(p)
    ensures Regions(MergeStep(p, page, k))
  {
    var i := FindAndPopRemoves(p.lists[k], Partner(page, k));
    assert forall x :: x in MergeStep(p, page, k).lists[k] ==> x in p.lists[k];
  }

  lemma MergeStepInRange(p: Pool, page: nat, k: nat)
    requires |p.lists| == LISTS && k < ERRO && FindAndPop(p.lists[k], Partner(page, k)).Some?
    requires Regions(p) && page % Size(k) == 0 && page + Size(k) <= p.singleFirst
    ensures Partner(page, k) >= 0 && Lower(page, Partner(page, k)) + Size(k + 1) <= p.singleFirst
  {
    var i := FindAndPopRemoves(p.lists[k], Partner(page, k));
    MergedBlock(page, k);
    assert Partner(page, k) in p.lists[k];
  }

  lemma MergeStepTiles(p: Pool, page: nat, k: nat)
    requires |p.lists| == LISTS && k < ERRO && FindAndPop(p.lists[k], Partner(page, k)).Some?
    requires p.max < 0x1_0000_0000 && Tiles(Total(p) + multiset{Block(page, k)}, p.max)
    ensures page % Size(k) == 0 && Partner(page, k) >= 0
    ensures Tiles(Total(MergeStep(p, page, k)) + multiset{Block(Lower(Partner(page, k), page), k + 1)}, p.max)
  {
    TilesBlock(Total(p) + multiset{Block(page, k)}, p.max, Block(page, k));
    MergeStepTotal(p, page, k);
    MergeTiles(Total(MergeStep(p, page, k)), page, k, p.max);
  }

  lemma MergeStopRegions(p: Pool, page: nat, k: nat)
    requires |p.lists| == LISTS && k <= ERRO && (k < ERRO ==> FindAndPop(p.lists[k], Partner(page, k)).None?)
    requires Regions(p) && page + Size(k) <= p.singleFirst
    ensures Regions(MergeUp(p, page, k))
  {
    if k < ERRO {
      assert forall x :: x in p.lists[k] + [page] ==> x in p.lists[k] || x == page;
    }
  }

  lemma {:induction false} MergeUpKeepsInv(p: Pool, page: nat, k: nat)
    requires |p.lists| == LISTS && Regions(p) && k <= ERRO && page + Size(k) <= p.singleFirst
    requires Tiles(Total(p) + multiset{Block(page, k)}, p.max)
    ensures Inv(MergeUp(p, page, k))
    decreases ERRO - k
  {
    if k < ERRO && FindAndPop(p.lists[k], Partner(page, k)).Some? {
      MergeStepTiles(p, page, k);
      MergeStepRegions(p, page, k);
      MergeStepInRange(p, page, k);
      MergeUpKeepsInv(MergeStep(p, page, k), Lower(Partner(page, k), page), k + 1);
    } else {
      MergeStopTotal(p, page, k);
      MergeStopRegions(p, page, k);
    }
  }

  lemma FreeTotal(p: Pool, b: Block)
    requires |p.lists| == LISTS && b in p.out && b.cls <= ERRO
    ensures Total(p) == Total(p.(out := p.out - multiset{b})) + multiset{b}
    ensures b.page >= p.singleFirst && b.cls == 0 ==> Total(Free(p, b)) == Total(p)
  {
    var q := p.(out := p.out - multiset{b});
    assert p.out == q.out + multiset{b};
    TagAppend(p.single, 0, b.page);
  }

  lemma FreeKeepsInv(p: Pool, b: Block)
    requires Inv(p) && b in p.out
    ensures Inv(Free(p, b))
  {
    FreeTotal(p, b);
    var q := p.(out := p.out - multiset{b});
    if b.page < p.singleFirst {
      assert forall c :: c in q.out ==> c in p.out;
      MergeUpKeepsInv(q, b.page, b.cls);
    } else {
      TilesBlock(Total(p), p.max, b);
      FreeRegions(p, b);
    }
  }

  lemma FreeRegions(p: Pool, b: Block)
    requires |p.lists| == LISTS && Regions(p) && b in p.out && p.singleFirst <= b.page < p.max
    ensures Regions(Free(p, b))
  {
    assert forall c :: c in p.out - multiset{b} ==> c in p.out;
  }
}
