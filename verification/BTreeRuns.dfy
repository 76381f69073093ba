/** What holds after any sequence of operations on an index. */
module BTreeRuns {
  import opened Prelude
  import opened BTreeShape
  import opened BTreePages
  import opened BTreeSearch
  import opened PageKeys
  import opened PageStore
  import opened NodeLayout
  import opened BTrees
  import opened BTreeCursors

  datatype Op =
    | InsertOp(key: Key, pageId: nat, slotId: nat)
    | DeleteOp(key: Key)
    | SearchOp(key: Key)
    | ReopenOp

  datatype Out =
    | Done(r: Result<(), TreeError>)
    | Found(loc: Option<(nat, nat)>)
    | Reopened

  /** The same operation on a finite map. */
  function Step(m: map<Key, (nat, nat)>, op: Op): (map<Key, (nat, nat)>, Out) {
    match op
    case InsertOp(k, p, s) => if k in m then (m, Done(Err(DuplicateKey))) else (m[k := (p, s)], Done(Ok(())))
    case DeleteOp(k) => if k in m then (m - {k}, Done(Ok(()))) else (m, Done(Err(KeyNotFound)))
    case SearchOp(k) => (m, Found(if k in m then Some(m[k]) else None))
    case ReopenOp => (m, Reopened)
  }

  function Steps(m: map<Key, (nat, nat)>, ops: seq<Op>): (map<Key, (nat, nat)>, seq<Out>) {
    if ops == [] then (m, []) else
    var n := |ops| - 1;
    var (before, outs) := Steps(m, ops[..n]);
    var (after, out) := Step(before, ops[n]);
    (after, outs + [out])
  }

  /** What an operation does to the page file: inserting only allocates and
      deleting only frees. */
  ghost predicate StoreStep(op: Op, p: PageManager, q: PageManager) {
    match op
    case InsertOp(_, _, _) => Grown(p, q)
    case DeleteOp(_) => Released(p, q)
    case _ => q == p
  }

  ghost predicate InsertedIn(ops: seq<Op>, k: Key) { exists op :: op in ops && op.InsertOp? && op.key == k }

  /** One operation answers as the finite map does. */
  method Perform(tree: BTree, op: Op) returns (tree': BTree, out: Out)
    requires tree.Valid()
    modifies tree
    ensures tree' == tree || fresh(tree')
    ensures tree'.Valid() && tree'.cfg == tree.cfg
    ensures (tree'.Contents(), out) == Step(old(tree.Contents()), op)
    ensures StoreStep(op, old(tree.pm), tree'.pm)
    ensures forall k :: k in tree'.known ==> k in old(tree.known) || (op.InsertOp? && k == op.key)
  {
    hide TreeOK, Flat, MapOf, CapsOf, CapsOK, KeysIn;
    tree' := tree;
    if op.InsertOp? {
      var r := tree.Insert(op.key, op.pageId, op.slotId);
      out := Done(r);
    } else if op.DeleteOp? {
      var r := tree.Delete(op.key);
      out := Done(r);
    } else if op.SearchOp? {
      var loc := tree.Search(op.key);
      out := Found(loc);
    } else {
      tree' := new BTree.Open(tree.cfg, tree.pm, tree.shape, tree.known);
      out := Reopened;
    }
  }

  /** The page file after each operation, from a new file on. */
  ghost predicate StoreTrace(ops: seq<Op>, stores: seq<PageManager>) {
    && |stores| == |ops| + 1 && stores[0].Lost() == 0
    && (forall i :: 0 <= i < |stores| ==> stores[i].Valid())
    && (forall i :: 0 <= i < |ops| ==> StoreStep(ops[i], stores[i], stores[i + 1]))
  }

  /** Every run on a fresh index gives the answers a finite map gives, and ends
      in a well-formed tree that stands for the map's final value and holds no
      key that was not inserted. */
  method Run(cfg: KeyConfig, ops: seq<Op>) returns (tree: BTree, outs: seq<Out>, ghost stores: seq<PageManager>)
    requires CapsOK(CapsOf(cfg))
    ensures fresh(tree) && tree.Valid() && tree.cfg == cfg
    ensures (tree.Contents(), outs) == Steps(map[], ops)
    ensures tree.numEntries == |tree.Contents()|
    ensures KeysIn(tree.pm.pages, tree.known) && forall k :: k in tree.known ==> InsertedIn(ops, k)
    ensures StoreTrace(ops, stores) && tree.pm == stores[|ops|]
  {
    hide TreeOK, Flat, MapOf, CapsOf, CapsOK, KeysIn;
    tree := new BTree(cfg);
    outs, stores := [], [tree.pm];
    var i := 0;
    while i < |ops|
      invariant i <= |ops| && fresh(tree) && tree.Valid() && tree.cfg == cfg
      invariant (tree.Contents(), outs) == Steps(map[], ops[..i])
      invariant forall k :: k in tree.known ==> InsertedIn(ops[..i], k)
      invariant StoreTrace(ops[..i], stores) && tree.pm == stores[i]
    {
      hide TreeOK, Flat, MapOf, CapsOf, CapsOK, KeysIn, StoreStep, StoreTrace, InsertedIn;
      assert ops[..i + 1][..i] == ops[..i];
      InsertedGrows(ops, i);
      ghost var was := tree.pm;
      var out;
      tree, out := Perform(tree, ops[i]);
      outs := outs + [out];
      TraceGrows(ops, i, stores, tree.pm);
      stores := stores + [tree.pm];
      i := i + 1;
    }
    assert ops[..i] == ops;
    TreeSorted(tree.C(), tree.pm.pages, tree.shape, tree.height, Leaves(tree.shape));
    MapSize(tree.Entries());
  }

  lemma {:induction false} InsertedGrows(ops: seq<Op>, i: nat)
    requires i < |ops|
    ensures forall k :: InsertedIn(ops[..i], k) ==> InsertedIn(ops[..i + 1], k)
    ensures ops[i].InsertOp? ==> InsertedIn(ops[..i + 1], ops[i].key)
  {
    assert ops[..i + 1] == ops[..i] + [ops[i]];
  }

  lemma {:induction false} TraceGrows(ops: seq<Op>, i: nat, stores: seq<PageManager>, pm: PageManager)
    requires i < |ops| && StoreTrace(ops[..i], stores) && pm.Valid() && StoreStep(ops[i], stores[i], pm)
    ensures |stores| == i + 1 && StoreTrace(ops[..i + 1], stores + [pm])
  {
    hide StoreStep;
    var t := stores + [pm];
    forall j | 0 <= j < i + 1 ensures StoreStep(ops[..i + 1][j], t[j], t[j + 1]) {
      if j < i { assert ops[..i][j] == ops[j]; }
    }
  }

  // ── Lost pages ──────────────────────────────────────────────────────

  /** The operation frees more pages than the free list has room for. */
  ghost predicate Spills(p: PageManager, q: PageManager) {
    |p.freeList| + (|p.pages| - |q.pages|) > FREE_LIST_CAPACITY
  }

  lemma {:induction false} StepLoses(op: Op, p: PageManager, q: PageManager)
    requires p.Valid() && StoreStep(op, p, q)
    ensures q.Lost() >= p.Lost() && (q.Lost() == p.Lost() <==> !Spills(p, q))
    ensures Spills(p, q) ==> op.DeleteOp?
  {
  }

  lemma {:induction false} TraceLoses(ops: seq<Op>, stores: seq<PageManager>, n: nat)
    requires StoreTrace(ops, stores) && n <= |ops|
    ensures stores[n].Lost() >= 0
    ensures stores[n].Lost() == 0 <==> forall i :: 0 <= i < n ==> !Spills(stores[i], stores[i + 1])
  {
    hide StoreStep, Spills, PageManager.Lost, PageManager.Valid;
    if n > 0 {
      TraceLoses(ops, stores, n - 1);
      StepLoses(ops[n - 1], stores[n - 1], stores[n]);
    }
  }

  /** At every point of every run, all pages of the file are in use or reusable
      if and only if no delete so far freed more than the free list could take. */
  lemma {:induction false} LostExactly(ops: seq<Op>, stores: seq<PageManager>, n: nat)
    requires StoreTrace(ops, stores) && n <= |ops|
    ensures stores[n].NoneLost() <==> forall i :: 0 <= i < n ==> !Spills(stores[i], stores[i + 1])
  {
    hide StoreStep, Spills, PageManager.Lost, PageManager.Valid, PageManager.NoneLost;
    TraceLoses(ops, stores, n);
    LostCount(stores[n]);
  }

  // ── Consequences of a valid tree ────────────────────────────────────

  /** The allocated pages are the metadata page and one page for each node, no
      page serving two nodes: nothing is leaked and nothing in use is freed. */
  lemma {:induction false} PageAccounting(c: Caps, pages: map<PageId, Page>, t: Tree, h: nat, leaves: seq<Tree>)
    requires TreeOK(c, pages, t, h, leaves)
    ensures pages.Keys == {META_PAGE_ID} + (set id | id in Pages(t))
    ensures forall id :: id in Pages(t) ==> Pages(t)[id] == 1
    ensures META_PAGE_ID !in Pages(t) && 0 !in Pages(t)
    ensures |pages| == 1 + |Pages(t)|
  {
    hide WF, Skel, Chain, Pages, Leaves;
    var used := Pages(t);
    forall id ensures id in pages <==> id == META_PAGE_ID || id in used {
      assert (id in pages) == (id in multiset(pages.Keys));
    }
    assert forall id :: multiset(pages.Keys)[id] <= 1;
    assert multiset(pages.Keys)[META_PAGE_ID] == 1 + used[META_PAGE_ID];
    forall id | id in used ensures used[id] == 1 {
      assert multiset(pages.Keys)[id] >= used[id];
    }
    assert |multiset(pages.Keys)| == |pages.Keys| == |pages|;
  }

  // Walking the leaf list, reading pages only

  /** The page n levels below id, taking the first child at every level. */
  ghost function Leftmost(pages: map<PageId, Page>, id: PageId, n: nat): PageId
    decreases n
  {
    if n == 0 || id !in pages || !pages[id].Internal? then id
    else Leftmost(pages, ChildAt(pages[id], 0), n - 1)
  }

  /** The leaf pages met from id by following next links, at most n of them. */
  ghost function FollowNext(pages: map<PageId, Page>, id: PageId, n: nat): seq<PageId>
    decreases n
  {
    if n == 0 || id !in pages || !pages[id].Leaf? then []
    else [id] + FollowNext(pages, pages[id].next, n - 1)
  }

  /** The leaf pages up to id, following prev links back over at most n of them. */
  ghost function FollowPrev(pages: map<PageId, Page>, id: PageId, n: nat): seq<PageId>
    decreases n
  {
    if n == 0 || id !in pages || !pages[id].Leaf? then []
    else FollowPrev(pages, pages[id].prev, n - 1) + [id]
  }

  /** The entries of the leaf pages, in order. */
  ghost function EntriesOn(pages: map<PageId, Page>, ids: seq<PageId>): seq<LeafEntry> {
    if ids == [] then []
    else (if ids[0] in pages && pages[ids[0]].Leaf? then pages[ids[0]].entries else []) + EntriesOn(pages, ids[1..])
  }

  lemma {:induction false} LeftmostIs(
      c: Caps, pages: map<PageId, Page>, t: Tree, h: nat, lo: Bound, hi: Bound, m: int)
    requires WF(c, t, h, lo, hi, m) && Skel(pages, t)
    ensures h >= 1 && Leaves(t) != [] && Leftmost(pages, t.id, h - 1) == Leaves(t)[0].id
    decreases t
  {
    match t
    case TLeaf(_, _) =>
    case TNode(_, keys, kids) =>
      assert ChildAt(pages[t.id], 0) == kids[0].id;
      LeftmostIs(c, pages, kids[0], h - 1, LoAt(keys, 0, lo), HiAt(keys, 0, hi), MinCount(c, h - 1));
  }

  lemma {:induction false} NextWalk(pages: map<PageId, Page>, leaves: seq<Tree>, i: nat, n: nat)
    requires Chain(pages, leaves) && 0 !in pages && i <= |leaves| && n >= |leaves| - i
    ensures FollowNext(pages, IdOr0(leaves, i), n) == KidIds(leaves[i..])
    ensures EntriesOn(pages, KidIds(leaves[i..])) == Flat(leaves[i..])
    decreases |leaves| - i
  {
    hide Chain;
    var rest, ids := leaves[i..], KidIds(leaves[i..]);
    if i < |leaves| {
      ChainAt(pages, leaves, i);
      NextWalk(pages, leaves, i + 1, n - 1);
      assert rest[1..] == leaves[i + 1..] && ids[1..] == KidIds(leaves[i + 1..]) && ids[0] == leaves[i].id;
      assert ids == [ids[0]] + ids[1..];
    }
  }

  lemma {:induction false} PrevWalk(pages: map<PageId, Page>, leaves: seq<Tree>, i: nat, n: nat)
    requires Chain(pages, leaves) && 0 !in pages && i <= |leaves| && n >= i
    ensures FollowPrev(pages, IdOr0(leaves, i - 1), n) == KidIds(leaves[..i])
  {
    hide Chain;
    if i > 0 {
      ChainAt(pages, leaves, i - 1);
      PrevWalk(pages, leaves, i - 1, n - 1);
      assert KidIds(leaves[..i]) == KidIds(leaves[..i - 1]) + [leaves[i - 1].id];
    }
  }

  lemma {:induction false} ChainAt(pages: map<PageId, Page>, leaves: seq<Tree>, i: nat)
    requires Chain(pages, leaves) && i < |leaves|
    ensures Linked(pages, leaves, i)
  {
  }

  /** Going down first children and then along next links visits exactly the
      leaves of the tree, once each, and stops; going back along prev links from
      the last visits the same; and the entries met are all of the tree's, in
      ascending order. */
  lemma {:induction false} LeafList(c: Caps, pages: map<PageId, Page>, t: Tree, h: nat, leaves: seq<Tree>, n: nat)
    requires TreeOK(c, pages, t, h, leaves) && n >= |leaves|
    ensures leaves != [] && h >= 1 && FollowNext(pages, Leftmost(pages, t.id, h - 1), n) == KidIds(leaves)
    ensures FollowPrev(pages, leaves[|leaves| - 1].id, n) == KidIds(leaves)
    ensures forall i, j :: 0 <= i < j < |leaves| ==> leaves[i].id != leaves[j].id
    ensures EntriesOn(pages, KidIds(leaves)) == Flat(leaves) && Sorted(Flat(leaves))
  {
    hide Skel, Pages, Leaves, WF, Flat, Leftmost;
    LeftmostIs(c, pages, t, h, NegInf, PosInf, RootMin(h));
    NextWalk(pages, leaves, 0, n);
    PrevWalk(pages, leaves, |leaves|, n);
    assert leaves[0..] == leaves && leaves[..|leaves|] == leaves;
    FlatSorted(c, t, h, NegInf, PosInf, RootMin(h));
  }

  function Pow(b: nat, e: nat): nat { if e == 0 then 1 else b * Pow(b, e - 1) }

  /** Occupancy bounds the height: a tree of height h >= 2 holds at least
      2 * leafMin * (intMin + 1)^(h - 2) entries. */
  lemma {:induction false} TallTreesAreFull(c: Caps, pages: map<PageId, Page>, t: Tree, h: nat, leaves: seq<Tree>)
    requires TreeOK(c, pages, t, h, leaves) && h >= 2
    ensures |Flat(leaves)| >= 2 * (c.leafMin * Pow(c.intMin + 1, h - 2))
  {
    hide Skel, Chain, Pages, Flat, LeavesAll, Pow, SortedKeys, LoAt, HiAt;
    var kids := t.kids;
    var x := c.leafMin * Pow(c.intMin + 1, h - 2);
    forall i | 0 <= i < |kids| ensures |Flat(Leaves(kids[i]))| >= x {
      SubtreeFull(c, kids[i], h - 1, LoAt(t.keys, i, NegInf), HiAt(t.keys, i, PosInf));
    }
    RowFull(kids, x);
    assert |kids| * x >= 2 * x;
  }

  lemma {:induction false} SubtreeFull(c: Caps, t: Tree, h: nat, lo: Bound, hi: Bound)
    requires WF(c, t, h, lo, hi, MinCount(c, h))
    ensures h >= 1 && |Flat(Leaves(t))| >= c.leafMin * Pow(c.intMin + 1, h - 1)
    decreases t
  {
    match t
    case TLeaf(_, es) =>
      FlatAround([], t, []);
      assert [] + [t] + [] == [t];
      assert Pow(c.intMin + 1, 0) == 1;
    case TNode(_, keys, kids) =>
      var x := c.leafMin * Pow(c.intMin + 1, h - 2);
      forall i | 0 <= i < |kids| ensures |Flat(Leaves(kids[i]))| >= x {
        SubtreeFull(c, kids[i], h - 1, LoAt(keys, i, lo), HiAt(keys, i, hi));
      }
      RowFull(kids, x);
      PowStep(c.leafMin, c.intMin + 1, h - 1, |kids|);
  }

  lemma {:induction false} PowStep(l: nat, b: nat, e: nat, n: nat)
    requires e >= 1 && n >= b
    ensures n * (l * Pow(b, e - 1)) >= l * Pow(b, e)
  {
    var p := Pow(b, e - 1);
    assert l * Pow(b, e) == b * (l * p);
    assert n * (l * p) >= b * (l * p);
  }

  lemma {:induction false} RowFull(kids: seq<Tree>, x: nat)
    requires forall i :: 0 <= i < |kids| ==> |Flat(Leaves(kids[i]))| >= x
    ensures |Flat(LeavesAll(kids))| >= |kids| * x
  {
    hide Flat, Leaves;
    if kids != [] {
      var rest := kids[1..];
      assert forall i :: 0 <= i < |rest| ==> rest[i] == kids[i + 1];
      RowFull(rest, x);
      FlatCat(Leaves(kids[0]), LeavesAll(rest));
      TimesNext(|rest|, x);
    }
  }

  lemma {:induction false} TimesNext(n: nat, x: nat)
    ensures (n + 1) * x == x + n * x
  {
  }
}
