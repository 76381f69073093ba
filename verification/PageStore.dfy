/** The page manager: which pages of the index file are allocated, what they
    hold, and which freed pages wait to be reused. */
module PageStore {
  import opened Prelude
  import opened BTreeShape

  /** Page ids that fit on the free-list page. */
  const FREE_LIST_CAPACITY := (8192 - 32 - 4) / 4

  datatype PageManager = PageManager(pages: map<PageId, Page>, numPages: nat, freeList: seq<PageId>) {

    /** No page but page 0 is both allocated and free, or free twice. */
    ghost predicate Valid() {
      && 1 <= numPages && |freeList| <= FREE_LIST_CAPACITY
      && (forall id :: id in pages ==> 1 <= id < numPages)
      && (forall i :: 0 <= i < |freeList| ==> 1 <= freeList[i] < numPages && freeList[i] !in pages)
      && (forall i, j :: 0 <= i < j < |freeList| ==> freeList[i] != freeList[j])
    }

    /** Every page but page 0 is allocated or can be reused. */
    ghost predicate NoneLost() { forall id :: 1 <= id < numPages ==> id in pages || id in freeList }

    /** How many pages of the file are neither. */
    ghost function Lost(): int { numPages - 1 - |pages| - |freeList| }

    /** Reuses the most recently freed page, or extends the file. */
    function Allocate(): (r: (PageManager, PageId))
      requires Valid()
      ensures r.0.Valid() && r.1 !in pages && 1 <= r.1
      ensures r.0.pages == pages[r.1 := Blank] && |r.0.pages| == |pages| + 1
      ensures freeList != [] ==> r.0.freeList + [r.1] == freeList && r.0.numPages == numPages
      ensures freeList == [] ==> r.0.freeList == [] && r.1 == numPages && r.0.numPages == numPages + 1
    {
      if freeList != [] then
        var n := |freeList| - 1;
        var id := freeList[n];
        (PageManager(pages[id := Blank], numPages, freeList[..n]), id)
      else
        (PageManager(pages[numPages := Blank], numPages + 1, []), numPages)
    }

    function Write(id: PageId, page: Page): (r: PageManager)
      requires Valid() && id in pages
      ensures r.Valid() && r.pages == pages[id := page] && |r.pages| == |pages|
      ensures r.freeList == freeList && r.numPages == numPages
    {
      PageManager(pages[id := page], numPages, freeList)
    }

    /** Writes a node, whose counter is kept beside its entries: only as many as
        it says are read back. */
    function Save(id: PageId, page: Page, counter: nat): (r: PageManager)
      requires Valid() && id in pages && counter == EntryCount(page)
      ensures r.Valid() && r.pages == pages[id := page] && |r.pages| == |pages|
      ensures r.freeList == freeList && r.numPages == numPages
    {
      Write(id, page)
    }

    /** The page stops being allocated and can be reused, unless the free-list
        page is full. */
    function Free(id: PageId): (r: PageManager)
      requires Valid() && id in pages
      ensures r.Valid() && r.pages == pages - {id} && |r.pages| == |pages| - 1 && r.numPages == numPages
      ensures r.freeList == if |freeList| < FREE_LIST_CAPACITY then freeList + [id] else freeList
    {
      assert (pages - {id}).Keys == pages.Keys - {id};
      PageManager(pages - {id}, numPages, if |freeList| < FREE_LIST_CAPACITY then freeList + [id] else freeList)
    }
  }

  /** The number of entries of a node page. */
  function EntryCount(page: Page): nat {
    if page.Internal? then |page.seps| else if page.Leaf? then |page.entries| else 0
  }

  // ── Lost pages ──────────────────────────────────────────────────────

  /** q is p after allocations: free pages are used first, then the file grows. */
  ghost predicate Grown(p: PageManager, q: PageManager) {
    var k, free := |q.pages| - |p.pages|, |p.freeList|;
    && k >= 0 && |q.freeList| == (if k <= free then free - k else 0)
    && q.numPages == p.numPages + (if k <= free then 0 else k - free)
  }

  /** q is p after pages were freed: the free list takes as many as it can. */
  ghost predicate Released(p: PageManager, q: PageManager) {
    var k, free := |p.pages| - |q.pages|, |p.freeList|;
    && k >= 0 && q.numPages == p.numPages
    && |q.freeList| == (if free + k <= FREE_LIST_CAPACITY then free + k else FREE_LIST_CAPACITY)
  }

  /** The pages of the file that are allocated or free. */
  ghost function Held(pm: PageManager): set<PageId> { pm.pages.Keys + Elements(pm.freeList) }

  lemma {:induction false} HeldPages(pm: PageManager)
    requires pm.Valid()
    ensures Held(pm) <= Range(pm.numPages) - {0} && (pm.NoneLost() <==> Held(pm) == Range(pm.numPages) - {0})
  {
    hide Range;
    forall id | id in Held(pm) ensures id in Range(pm.numPages) - {0} {
      assert id in pm.pages || id in pm.freeList;
    }
  }

  /** Counting finds the lost pages. */
  lemma {:induction false} LostCount(pm: PageManager)
    requires pm.Valid()
    ensures pm.Lost() >= 0 && (pm.NoneLost() <==> pm.Lost() == 0)
  {
    hide Range, PageManager.NoneLost, PageManager.Valid;
    HeldPages(pm);
    FreeSize(pm);
    hide Held;
    var all := Range(pm.numPages) - {0};
    ValidSize(pm);
    SubsetSize(Held(pm), all);
  }

  lemma {:induction false} ValidSize(pm: PageManager)
    requires pm.Valid()
    ensures |Range(pm.numPages) - {0}| == pm.numPages - 1
  {
    hide Range;
    assert Range(pm.numPages) == (Range(pm.numPages) - {0}) + {0};
  }

  lemma {:induction false} FreeSize(pm: PageManager)
    requires pm.Valid()
    ensures |Held(pm)| == |pm.pages| + |pm.freeList|
  {
    ElementsSize(pm.freeList);
    forall id | id in Elements(pm.freeList) ensures id !in pm.pages { assert id in pm.freeList; }
    var a, b := pm.pages.Keys, Elements(pm.freeList);
    assert |a + b| == |a| + |b|;
  }

  // ── A file that loses a page ────────────────────────────────────────

  function AllocateMany(pm: PageManager, n: nat): (r: PageManager)
    requires pm.Valid()
    ensures r.Valid()
  {
    if n == 0 then pm else AllocateMany(pm, n - 1).Allocate().0
  }

  /** Frees pages n, n - 1, ..., 1. */
  function FreeDown(pm: PageManager, n: nat): PageManager
    requires pm.Valid() && forall id :: 1 <= id <= n ==> id in pm.pages
    decreases n
  {
    if n == 0 then pm else FreeDown(pm.Free(n), n - 1)
  }

  lemma {:induction false} AllocatedMany(n: nat)
    ensures var pm := AllocateMany(PageManager(map[], 1, []), n);
            && pm.Valid() && pm.freeList == [] && pm.numPages == n + 1 && |pm.pages| == n
            && forall id :: id in pm.pages <==> 1 <= id <= n
  {
    if n > 0 {
      AllocatedMany(n - 1);
      var pm := AllocateMany(PageManager(map[], 1, []), n - 1);
      NextAllocated(pm, n - 1);
      assert AllocateMany(PageManager(map[], 1, []), n) == pm.Allocate().0;
    }
  }

  lemma {:induction false} NextAllocated(pm: PageManager, n: nat)
    requires pm.Valid() && pm.freeList == [] && pm.numPages == n + 1 && |pm.pages| == n
    requires forall id :: id in pm.pages <==> 1 <= id <= n
    ensures var q := pm.Allocate().0;
            && q.Valid() && q.freeList == [] && q.numPages == n + 2 && |q.pages| == n + 1
            && forall id :: id in q.pages <==> 1 <= id <= n + 1
  {
  }

  lemma {:induction false} FreedDown(pm: PageManager, n: nat)
    requires pm.Valid() && forall id :: 1 <= id <= n ==> id in pm.pages
    ensures var q := FreeDown(pm, n); q.Valid() && |q.pages| == |pm.pages| - n && Released(pm, q)
    decreases n
  {
    if n > 0 { FreedDown(pm.Free(n), n - 1); }
  }

  /** A new file that allocates n pages and frees them all loses exactly those
      the free-list page has no room for. */
  lemma {:induction false} OverflowLoses(n: nat)
    ensures var pm := AllocateMany(PageManager(map[], 1, []), n);
            && pm.Valid() && pm.NoneLost() && (forall id :: 1 <= id <= n ==> id in pm.pages)
            && FreeDown(pm, n).Valid() && (FreeDown(pm, n).NoneLost() <==> n <= FREE_LIST_CAPACITY)
  {
    hide AllocateMany, FreeDown;
    AllocatedMany(n);
    var pm := AllocateMany(PageManager(map[], 1, []), n);
    FreedDown(pm, n);
    LostCount(pm);
    LostCount(FreeDown(pm, n));
  }
}
