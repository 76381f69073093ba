/** The pure side of the B+Tree model: what a page holds, the tree a set of
    pages stands for, and the facts about cutting, joining and splicing nodes
    that every insert and delete relies on.

    A key is an element of a dense unbounded total order. Both key types of the
    index (16-byte identifiers and byte strings) embed in it; module Keys
    proves that. */
module BTreeShape {
  import opened Prelude

  type Key = real
  type PageId = int

  /** Page 0 holds the free list, page 1 the tree's metadata. */
  const META_PAGE_ID: PageId := 1

  datatype LeafEntry = LeafEntry(key: Key, pageId: nat, slotId: nat)
  datatype InternalEntry = InternalEntry(key: Key, child: PageId)

  /** The contents of one allocated page. */
  datatype Page =
    | Blank
    | Meta(root: PageId, height: nat, numEntries: nat)
    | Internal(seps: seq<InternalEntry>, rightChild: PageId)
    | Leaf(entries: seq<LeafEntry>, next: PageId, prev: PageId)

  /** Node capacities and minimum occupancies. */
  datatype Caps = Caps(leafMax: nat, leafMin: nat, intMax: nat, intMin: nat)

  ghost predicate CapsOK(c: Caps) {
    && 1 <= c.leafMax && 5 * c.leafMin <= 2 * c.leafMax
    && 1 <= c.intMax && 5 * c.intMin <= 2 * c.intMax
    && (1 <= c.leafMin ==> 1 <= c.intMin)
  }

  /** The tree of nodes reachable from a root page. */
  datatype Tree =
    | TLeaf(id: PageId, entries: seq<LeafEntry>)
    | TNode(id: PageId, keys: seq<Key>, kids: seq<Tree>)

  /** Where a descent stands: the internal nodes above the current subtree, the
      nearest first, each with the index of the child that was followed. */
  datatype Ctx =
    | Top
    | In(up: Ctx, id: PageId, keys: seq<Key>, kids: seq<Tree>, idx: nat)

  // ── Bounds ──────────────────────────────────────────────────────────

  datatype Bound = NegInf | Fin(key: Key) | PosInf

  ghost predicate Lt(a: Bound, b: Bound) {
    match (a, b)
    case (NegInf, NegInf) => false
    case (NegInf, _) => true
    case (Fin(x), Fin(y)) => x < y
    case (Fin(_), PosInf) => true
    case _ => false
  }

  ghost predicate Le(a: Bound, b: Bound) { a == b || Lt(a, b) }

  /** A key the subtree between the two bounds may hold. */
  ghost predicate Within(k: Key, lo: Bound, hi: Bound) { Le(lo, Fin(k)) && Lt(Fin(k), hi) }

  ghost predicate Sorted(es: seq<LeafEntry>) {
    forall i, j :: 0 <= i < j < |es| ==> es[i].key < es[j].key
  }

  ghost predicate AllWithin(es: seq<LeafEntry>, lo: Bound, hi: Bound) {
    forall i :: 0 <= i < |es| ==> Within(es[i].key, lo, hi)
  }

  ghost predicate SortedKeys(keys: seq<Key>, lo: Bound, hi: Bound) {
    && Lt(lo, hi)
    && (forall i :: 0 <= i < |keys| ==> Lt(lo, Fin(keys[i])) && Lt(Fin(keys[i]), hi))
    && (forall i, j :: 0 <= i < j < |keys| ==> keys[i] < keys[j])
  }

  /** Bounds of the i-th child. */
  ghost function LoAt(keys: seq<Key>, i: int, lo: Bound): Bound {
    if 1 <= i <= |keys| then Fin(keys[i - 1]) else lo
  }

  ghost function HiAt(keys: seq<Key>, i: int, hi: Bound): Bound {
    if 0 <= i < |keys| then Fin(keys[i]) else hi
  }

  // ── Shape ───────────────────────────────────────────────────────────

  ghost function MinCount(c: Caps, h: nat): nat { if h <= 1 then c.leafMin else c.intMin }
  ghost function RootMin(h: nat): nat { if h <= 1 then 0 else 1 }

  /** A subtree of height h whose keys lie within [lo, hi): leaves all at the
      same depth, separators bounding their subtrees, every node at most full,
      and every node but the top one at its minimum; the top one holds at
      least m. */
  ghost predicate WF(c: Caps, t: Tree, h: nat, lo: Bound, hi: Bound, m: int)
    decreases t
  {
    match t
    case TLeaf(_, es) =>
      h == 1 && m <= |es| <= c.leafMax && Sorted(es) && AllWithin(es, lo, hi)
    case TNode(_, keys, kids) =>
      && h >= 2 && m <= |keys| <= c.intMax && |kids| == |keys| + 1 && SortedKeys(keys, lo, hi)
      && forall i :: 0 <= i < |kids| ==>
           WF(c, kids[i], h - 1, LoAt(keys, i, lo), HiAt(keys, i, hi), MinCount(c, h - 1))
  }

  /** The children of a node, each of height h, and the separators between them. */
  ghost predicate NodeOK(c: Caps, keys: seq<Key>, kids: seq<Tree>, h: nat, lo: Bound, hi: Bound) {
    && |kids| == |keys| + 1
    && SortedKeys(keys, lo, hi)
    && forall i :: 0 <= i < |kids| ==>
         WF(c, kids[i], h, LoAt(keys, i, lo), HiAt(keys, i, hi), MinCount(c, h))
  }

  /** All pages a subtree occupies. */
  ghost function Pages(t: Tree): multiset<PageId>
    decreases t
  {
    match t
    case TLeaf(id, _) => multiset{id}
    case TNode(id, _, kids) => multiset{id} + PagesAll(kids)
  }

  ghost function PagesAll(ts: seq<Tree>): multiset<PageId>
    decreases ts
  {
    if ts == [] then multiset{} else Pages(ts[0]) + PagesAll(ts[1..])
  }

  /** The leaves of a subtree from left to right. */
  ghost function Leaves(t: Tree): seq<Tree>
    decreases t
  {
    match t
    case TLeaf(_, _) => [t]
    case TNode(_, _, kids) => LeavesAll(kids)
  }

  ghost function LeavesAll(ts: seq<Tree>): seq<Tree>
    decreases ts
  {
    if ts == [] then [] else Leaves(ts[0]) + LeavesAll(ts[1..])
  }

  /** The entries of a sequence of leaves, in order. */
  ghost function Flat(leaves: seq<Tree>): seq<LeafEntry> {
    if leaves == [] then [] else
    (if leaves[0].TLeaf? then leaves[0].entries else []) + Flat(leaves[1..])
  }

  function KidIds(kids: seq<Tree>): (ids: seq<PageId>)
    ensures |ids| == |kids|
  {
    seq(|kids|, i requires 0 <= i < |kids| => kids[i].id)
  }

  /** The page of an internal node with the given separators and children. */
  function IntPage(keys: seq<Key>, ids: seq<PageId>): (page: Page)
    requires |ids| == |keys| + 1
    ensures page.Internal? && |page.seps| == |keys|
  {
    Internal(seq(|keys|, i requires 0 <= i < |keys| => InternalEntry(keys[i], ids[i])), ids[|keys|])
  }

  /** The internal pages of a subtree hold what the subtree says. */
  ghost predicate Skel(pages: map<PageId, Page>, t: Tree)
    decreases t
  {
    match t
    case TLeaf(_, _) => true
    case TNode(id, keys, kids) =>
      && |kids| == |keys| + 1
      && id in pages && pages[id] == IntPage(keys, KidIds(kids))
      && forall i :: 0 <= i < |kids| ==> Skel(pages, kids[i])
  }

  ghost predicate SkelAll(pages: map<PageId, Page>, ts: seq<Tree>) {
    forall i :: 0 <= i < |ts| ==> Skel(pages, ts[i])
  }

  ghost function IdOr0(leaves: seq<Tree>, i: int): PageId {
    if 0 <= i < |leaves| then leaves[i].id else 0
  }

  ghost predicate Linked(pages: map<PageId, Page>, leaves: seq<Tree>, i: int)
    requires 0 <= i < |leaves|
  {
    && leaves[i].TLeaf? && leaves[i].id in pages && leaves[i].id != 0
    && pages[leaves[i].id] == Leaf(leaves[i].entries, IdOr0(leaves, i + 1), IdOr0(leaves, i - 1))
  }

  /** The leaf pages hold the leaves' entries and form a doubly linked list in
      order: next and prev name the neighbours, 0 at either end, and no leaf
      is visited twice. */
  ghost predicate Chain(pages: map<PageId, Page>, leaves: seq<Tree>) {
    && (forall i :: 0 <= i < |leaves| ==> Linked(pages, leaves, i))
    && (forall i, j :: 0 <= i < j < |leaves| ==> leaves[i].id != leaves[j].id)
  }

  // ── Contexts ────────────────────────────────────────────────────────

  ghost function Plug(ctx: Ctx, t: Tree): Tree
  {
    match ctx
    case Top => t
    case In(up, id, keys, kids, idx) =>
      if idx < |kids| then Plug(up, TNode(id, keys, kids[idx := t])) else t
  }

  ghost function Depth(ctx: Ctx): nat {
    match ctx case Top => 0 case In(up, _, _, _, _) => Depth(up) + 1
  }

  ghost function RootId(ctx: Ctx, id: PageId): PageId {
    match ctx case Top => id case In(up, pid, _, _, _) => RootId(up, pid)
  }

  /** The (page, child index) pairs recorded on the way down, root first. */
  ghost function PathOf(ctx: Ctx): seq<(PageId, nat)> {
    match ctx case Top => [] case In(up, id, _, _, idx) => PathOf(up) + [(id, idx)]
  }

  ghost function Lo(ctx: Ctx): Bound {
    match ctx case Top => NegInf case In(up, _, keys, _, idx) => LoAt(keys, idx, Lo(up))
  }

  ghost function Hi(ctx: Ctx): Bound {
    match ctx case Top => PosInf case In(up, _, keys, _, idx) => HiAt(keys, idx, Hi(up))
  }

  ghost function CtxLeft(ctx: Ctx): seq<Tree> {
    match ctx
    case Top => []
    case In(up, _, _, kids, idx) => if idx < |kids| then CtxLeft(up) + LeavesAll(kids[..idx]) else []
  }

  ghost function CtxRight(ctx: Ctx): seq<Tree> {
    match ctx
    case Top => []
    case In(up, _, _, kids, idx) => if idx < |kids| then LeavesAll(kids[idx + 1..]) + CtxRight(up) else []
  }

  ghost function CtxPages(ctx: Ctx): multiset<PageId> {
    match ctx
    case Top => multiset{}
    case In(up, id, _, kids, idx) =>
      if idx < |kids| then CtxPages(up) + multiset{id} + PagesAll(kids[..idx]) + PagesAll(kids[idx + 1..])
      else multiset{}
  }

  ghost function LevelMin(c: Caps, up: Ctx, h: nat): nat {
    if up.Top? then RootMin(h) else MinCount(c, h)
  }

  /** The nodes above a hole of height h were well formed when the descent
      passed through them. */
  ghost predicate CtxWF(c: Caps, ctx: Ctx, h: nat) {
    match ctx
    case Top => true
    case In(up, id, keys, kids, idx) =>
      && 1 <= h && idx < |kids|
      && WF(c, TNode(id, keys, kids), h + 1, Lo(up), Hi(up), LevelMin(c, up, h + 1))
      && CtxWF(c, up, h + 1)
  }

  /** The pages above the hole hold those nodes, with page child in the hole. */
  ghost predicate CtxSkel(pages: map<PageId, Page>, ctx: Ctx, child: PageId) {
    match ctx
    case Top => true
    case In(up, id, keys, kids, idx) =>
      && |kids| == |keys| + 1 && idx < |kids|
      && id in pages && pages[id] == IntPage(keys, KidIds(kids)[idx := child])
      && SkelAll(pages, kids[..idx]) && SkelAll(pages, kids[idx + 1..])
      && CtxSkel(pages, up, id)
  }

  // ── State predicates ────────────────────────────────────────────────

  ghost predicate Accounts(pages: map<PageId, Page>, used: multiset<PageId>) {
    && 0 !in pages && META_PAGE_ID in pages && pages[META_PAGE_ID].Meta?
    && multiset(pages.Keys) == multiset{META_PAGE_ID} + used
  }

  /** The pages are exactly the metadata page and one page for each node of a
      well-formed tree with the given leaves. */
  ghost predicate TreeOK(c: Caps, pages: map<PageId, Page>, t: Tree, h: nat, leaves: seq<Tree>) {
    && Accounts(pages, Pages(t))
    && Skel(pages, t)
    && WF(c, t, h, NegInf, PosInf, RootMin(h))
    && Leaves(t) == leaves
    && Chain(pages, leaves)
  }

  /** As TreeOK for the tree with t in the hole of ctx, where t's top node need
      only hold m. */
  ghost predicate Hole(c: Caps, pages: map<PageId, Page>, ctx: Ctx, t: Tree, h: nat, m: int, leaves: seq<Tree>) {
    && Accounts(pages, CtxPages(ctx) + Pages(t))
    && CtxSkel(pages, ctx, t.id) && Skel(pages, t)
    && CtxWF(c, ctx, h) && WF(c, t, h, Lo(ctx), Hi(ctx), m)
    && CtxLeft(ctx) + Leaves(t) + CtxRight(ctx) == leaves
    && Chain(pages, leaves)
  }

  /** The hole is filled by two subtrees with a separator the parent does not
      have yet. */
  ghost predicate Hole2(
      c: Caps, pages: map<PageId, Page>, ctx: Ctx, l: Tree, k: Key, r: Tree, h: nat, leaves: seq<Tree>) {
    && Accounts(pages, CtxPages(ctx) + Pages(l) + Pages(r))
    && CtxSkel(pages, ctx, l.id) && Skel(pages, l) && Skel(pages, r)
    && CtxWF(c, ctx, h)
    && Lt(Lo(ctx), Fin(k)) && Lt(Fin(k), Hi(ctx))
    && WF(c, l, h, Lo(ctx), Fin(k), MinCount(c, h)) && WF(c, r, h, Fin(k), Hi(ctx), MinCount(c, h))
    && CtxLeft(ctx) + Leaves(l) + Leaves(r) + CtxRight(ctx) == leaves
    && Chain(pages, leaves)
  }

  /** An internal node whose separators and children (of height h) are settled
      but whose own page has not been written yet; it may hold too few or one
      too many. */
  ghost predicate Pending(c: Caps, pages: map<PageId, Page>, up: Ctx, id: PageId, keys: seq<Key>, kids: seq<Tree>,
                          h: nat, leaves: seq<Tree>) {
    && 1 <= h
    && Accounts(pages, CtxPages(up) + multiset{id} + PagesAll(kids))
    && id in pages && pages[id].Internal?
    && CtxSkel(pages, up, id) && SkelAll(pages, kids)
    && CtxWF(c, up, h + 1) && NodeOK(c, keys, kids, h, Lo(up), Hi(up))
    && CtxLeft(up) + LeavesAll(kids) + CtxRight(up) == leaves
    && Chain(pages, leaves)
  }

  // ── Sequences of subtrees ───────────────────────────────────────────

  lemma {:induction false} PagesCat(a: seq<Tree>, b: seq<Tree>)
    ensures PagesAll(a + b) == PagesAll(a) + PagesAll(b)
  {
    hide Pages;
    if a == [] {
      assert a + b == b;
    } else {
      PagesCat(a[1..], b);
      assert (a + b)[1..] == a[1..] + b;
    }
  }

  lemma {:induction false} LeavesCat(a: seq<Tree>, b: seq<Tree>)
    ensures LeavesAll(a + b) == LeavesAll(a) + LeavesAll(b)
  {
    hide Leaves;
    if a == [] {
      CatEmpty(b);
      CatEmpty(LeavesAll(b));
    } else {
      LeavesCat(a[1..], b);
      TailCat(a, b);
      Assoc(Leaves(a[0]), LeavesAll(a[1..]), LeavesAll(b));
    }
  }

  lemma {:induction false} AllCat(a: seq<Tree>, b: seq<Tree>)
    ensures PagesAll(a + b) == PagesAll(a) + PagesAll(b)
    ensures LeavesAll(a + b) == LeavesAll(a) + LeavesAll(b)
  {
    PagesCat(a, b);
    LeavesCat(a, b);
  }

  lemma {:induction false} FlatCat(a: seq<Tree>, b: seq<Tree>)
    ensures Flat(a + b) == Flat(a) + Flat(b)
  {
    if a == [] {
      CatEmpty(b);
      CatEmpty(Flat(b));
    } else {
      FlatCat(a[1..], b);
      TailCat(a, b);
      Assoc(if a[0].TLeaf? then a[0].entries else [], Flat(a[1..]), Flat(b));
    }
  }

  lemma {:induction false} AllOne(t: Tree)
    ensures PagesAll([t]) == Pages(t) && LeavesAll([t]) == Leaves(t)
  {
    assert [t][1..] == [];
  }

  lemma {:induction false} AllTwo(l: Tree, r: Tree)
    ensures PagesAll([l, r]) == Pages(l) + Pages(r) && LeavesAll([l, r]) == Leaves(l) + Leaves(r)
  {
    assert [l, r] == [l] + [r];
    AllCat([l], [r]);
    AllOne(l);
    AllOne(r);
  }

  /** Pages and leaves of a list with the segment [a, b) singled out. */
  lemma {:induction false} AllSplice(ts: seq<Tree>, a: nat, mid: seq<Tree>, b: nat)
    requires a <= b <= |ts|
    ensures PagesAll(ts[..a] + mid + ts[b..]) == PagesAll(ts[..a]) + PagesAll(mid) + PagesAll(ts[b..])
    ensures LeavesAll(ts[..a] + mid + ts[b..]) == LeavesAll(ts[..a]) + LeavesAll(mid) + LeavesAll(ts[b..])
  {
    AllCat(ts[..a] + mid, ts[b..]);
    AllCat(ts[..a], mid);
  }

  lemma {:induction false} PagesPick(ts: seq<Tree>, i: nat)
    requires i < |ts|
    ensures PagesAll(ts) == PagesAll(ts[..i]) + Pages(ts[i]) + PagesAll(ts[i + 1..])
  {
    hide Pages;
    var head, tail := ts[..i], ts[i..];
    assert ts == head + tail;
    PagesCat(head, tail);
    assert tail[1..] == ts[i + 1..] && tail[0] == ts[i];
  }
  lemma {:induction false} LeavesPick(ts: seq<Tree>, i: nat)
    requires i < |ts|
    ensures LeavesAll(ts) == LeavesAll(ts[..i]) + Leaves(ts[i]) + LeavesAll(ts[i + 1..])
  {
    hide Leaves;
    var head, tail := ts[..i], ts[i..];
    assert ts == head + tail;
    LeavesCat(head, tail);
    assert tail[1..] == ts[i + 1..] && tail[0] == ts[i];
  }

  // ── Node surgery ────────────────────────────────────────────────────

  /** Replacing the separators of the children [a, b) keeps them sorted. */
  lemma {:induction false} SpliceKeys(keys: seq<Key>, lo: Bound, hi: Bound, a: nat, b: nat, midKeys: seq<Key>)
    requires SortedKeys(keys, lo, hi) && a < b <= |keys| + 1
    requires SortedKeys(midKeys, LoAt(keys, a, lo), HiAt(keys, b - 1, hi))
    ensures SortedKeys(keys[..a] + midKeys + keys[b - 1..], lo, hi)
  {
  }

  /** Replacing the children [a, b) and the separators between them by a run
      that fills the same interval keeps the node well formed. */
  lemma {:induction false} Splice(c: Caps, keys: seq<Key>, kids: seq<Tree>, h: nat, lo: Bound, hi: Bound,
               a: nat, b: nat, midKeys: seq<Key>, mid: seq<Tree>)
    requires NodeOK(c, keys, kids, h, lo, hi)
    requires a < b <= |kids|
    requires NodeOK(c, midKeys, mid, h, LoAt(keys, a, lo), HiAt(keys, b - 1, hi))
    ensures NodeOK(c, keys[..a] + midKeys + keys[b - 1..], kids[..a] + mid + kids[b..], h, lo, hi)
  {
    hide WF, SortedKeys;
    SpliceKeys(keys, lo, hi, a, b, midKeys);
    var ks := keys[..a] + midKeys + keys[b - 1..];
    var ts := kids[..a] + mid + kids[b..];
    forall i | 0 <= i < |ts|
      ensures WF(c, ts[i], h, LoAt(ks, i, lo), HiAt(ks, i, hi), MinCount(c, h))
    {
      if i < a {
        assert ts[i] == kids[i];
        assert HiAt(ks, i, hi) == HiAt(keys, i, hi);
      } else if i < a + |mid| {
        assert ts[i] == mid[i - a];
        assert LoAt(ks, i, lo) == LoAt(midKeys, i - a, LoAt(keys, a, lo));
        assert HiAt(ks, i, hi) == HiAt(midKeys, i - a, HiAt(keys, b - 1, hi));
      } else {
        var j := i - a - |mid| + b;
        assert ts[i] == kids[j];
        assert LoAt(ks, i, lo) == LoAt(keys, j, lo);
      }
    }
  }

  /** Cutting a node at separator m leaves two well-formed runs around it. */
  lemma {:induction false} Cut(c: Caps, keys: seq<Key>, kids: seq<Tree>, h: nat, lo: Bound, hi: Bound, m: nat)
    requires NodeOK(c, keys, kids, h, lo, hi)
    requires m < |keys|
    ensures NodeOK(c, keys[..m], kids[..m + 1], h, lo, Fin(keys[m]))
    ensures NodeOK(c, keys[m + 1..], kids[m + 1..], h, Fin(keys[m]), hi)
  {
    hide WF;
    var ts := kids[m + 1..];
    forall i | 0 <= i < |ts|
      ensures WF(c, ts[i], h, LoAt(keys[m + 1..], i, Fin(keys[m])), HiAt(keys[m + 1..], i, hi), MinCount(c, h))
    {
      assert ts[i] == kids[m + 1 + i];
    }
    var us := kids[..m + 1];
    forall i | 0 <= i < |us|
      ensures WF(c, us[i], h, LoAt(keys[..m], i, lo), HiAt(keys[..m], i, Fin(keys[m])), MinCount(c, h))
    {
      assert us[i] == kids[i];
    }
  }

  /** Two runs that meet at k join into one around k. */
  lemma {:induction false} Join(
      c: Caps, ks1: seq<Key>, ts1: seq<Tree>, k: Key, ks2: seq<Key>, ts2: seq<Tree>, h: nat, lo: Bound, hi: Bound)
    requires NodeOK(c, ks1, ts1, h, lo, Fin(k)) && NodeOK(c, ks2, ts2, h, Fin(k), hi)
    ensures NodeOK(c, ks1 + [k] + ks2, ts1 + ts2, h, lo, hi)
  {
    hide WF;
    var ks, ts := ks1 + [k] + ks2, ts1 + ts2;
    var n := |ks1|;
    assert forall i :: 0 <= i < n ==> ks[i] == ks1[i];
    assert ks[n] == k;
    assert forall i :: n < i < |ks| ==> ks[i] == ks2[i - n - 1];
    forall i | 0 <= i < |ts|
      ensures WF(c, ts[i], h, LoAt(ks, i, lo), HiAt(ks, i, hi), MinCount(c, h))
    {
      if i <= n {
        assert ts[i] == ts1[i];
      } else {
        assert ts[i] == ts2[i - n - 1];
      }
    }
  }

  // ── Frames ──────────────────────────────────────────────────────────

  /** Every internal page of p that used mentions is unchanged in q. */
  ghost predicate Keeps(p: map<PageId, Page>, q: map<PageId, Page>, used: multiset<PageId>) {
    forall id :: id in used && id in p && p[id].Internal? ==> id in q && q[id] == p[id]
  }

  lemma {:induction false} SkelFrame(p: map<PageId, Page>, q: map<PageId, Page>, t: Tree)
    requires Skel(p, t) && Keeps(p, q, Pages(t))
    ensures Skel(q, t)
    decreases t
  {
    match t
    case TLeaf(_, _) =>
    case TNode(id, keys, kids) =>
      assert id in Pages(t);
      SkelAllFrame(p, q, kids);
  }

  lemma {:induction false} SkelAllFrame(p: map<PageId, Page>, q: map<PageId, Page>, ts: seq<Tree>)
    requires SkelAll(p, ts) && Keeps(p, q, PagesAll(ts))
    ensures SkelAll(q, ts)
    decreases ts
  {
    if ts != [] {
      SkelFrame(p, q, ts[0]);
      SkelAllFrame(p, q, ts[1..]);
      assert forall i :: 1 <= i < |ts| ==> ts[i] == ts[1..][i - 1];
    }
  }

  lemma {:induction false} CtxSkelFrame(p: map<PageId, Page>, q: map<PageId, Page>, ctx: Ctx, child: PageId)
    requires CtxSkel(p, ctx, child) && Keeps(p, q, CtxPages(ctx))
    ensures CtxSkel(q, ctx, child)
  {
    match ctx
    case Top =>
    case In(up, id, keys, kids, idx) =>
      assert id in CtxPages(ctx);
      SkelAllFrame(p, q, kids[..idx]);
      SkelAllFrame(p, q, kids[idx + 1..]);
      CtxSkelFrame(p, q, up, id);
  }

  lemma {:induction false} ChainFrame(p: map<PageId, Page>, q: map<PageId, Page>, leaves: seq<Tree>)
    requires Chain(p, leaves)
    requires forall id :: id in p && p[id].Leaf? ==> id in q && q[id] == p[id]
    ensures Chain(q, leaves)
  {
    forall i | 0 <= i < |leaves| ensures Linked(q, leaves, i) {
      assert Linked(p, leaves, i);
    }
  }

  // ── Descending and climbing ─────────────────────────────────────────

  /** What a level of the context contributes, with t in its hole. */
  lemma {:induction false} LevelPages(ctx: Ctx, t: Tree)
    requires ctx.In? && ctx.idx < |ctx.kids|
    ensures CtxPages(ctx) + Pages(t)
         == CtxPages(ctx.up) + multiset{ctx.id} + PagesAll(ctx.kids[ctx.idx := t])
  {
    hide Pages, PagesAll;
    var ts := ctx.kids[ctx.idx := t];
    PagesPick(ts, ctx.idx);
    assert ts[..ctx.idx] == ctx.kids[..ctx.idx] && ts[ctx.idx + 1..] == ctx.kids[ctx.idx + 1..];
  }

  lemma {:induction false} LevelLeaves(ctx: Ctx, t: Tree)
    requires ctx.In? && ctx.idx < |ctx.kids|
    ensures CtxLeft(ctx) + Leaves(t) + CtxRight(ctx)
         == CtxLeft(ctx.up) + LeavesAll(ctx.kids[ctx.idx := t]) + CtxRight(ctx.up)
  {
    hide Leaves, LeavesAll;
    var ts := ctx.kids[ctx.idx := t];
    LeavesPick(ts, ctx.idx);
    assert ts[..ctx.idx] == ctx.kids[..ctx.idx] && ts[ctx.idx + 1..] == ctx.kids[ctx.idx + 1..];
    Cat5(CtxLeft(ctx.up), LeavesAll(ts[..ctx.idx]), Leaves(t), LeavesAll(ts[ctx.idx + 1..]), CtxRight(ctx.up));
  }

  lemma {:induction false} SkelPick(pages: map<PageId, Page>, ts: seq<Tree>, i: nat)
    requires i < |ts|
    ensures SkelAll(pages, ts) <==> SkelAll(pages, ts[..i]) && Skel(pages, ts[i]) && SkelAll(pages, ts[i + 1..])
  {
    hide Skel;
    var head, tail := ts[..i], ts[i + 1..];
    assert forall j :: 0 <= j < |head| ==> head[j] == ts[j];
    assert forall j :: 0 <= j < |tail| ==> tail[j] == ts[i + 1 + j];
    assert forall j :: 0 <= j < |ts| ==> ts[j] == if j < i then head[j] else if j == i then ts[i] else tail[j - i - 1];
  }

  lemma {:induction false} LevelSkel(pages: map<PageId, Page>, ctx: Ctx, t: Tree)
    requires ctx.In? && ctx.idx < |ctx.kids| == |ctx.keys| + 1
    ensures CtxSkel(pages, ctx, t.id) && Skel(pages, t) <==>
            CtxSkel(pages, ctx.up, ctx.id) && Skel(pages, TNode(ctx.id, ctx.keys, ctx.kids[ctx.idx := t]))
  {
    var In(up, id, keys, kids, idx) := ctx;
    var ts := kids[idx := t];
    assert KidIds(kids)[idx := t.id] == KidIds(ts);
    assert ts[..idx] == kids[..idx] && ts[idx + 1..] == kids[idx + 1..];
    SkelPick(pages, ts, idx);
  }

  /** Stepping from an internal node into its i-th child. */
  lemma {:induction false} Descend(
      c: Caps, pages: map<PageId, Page>, ctx: Ctx, t: Tree, h: nat, leaves: seq<Tree>, i: nat)
    requires Hole(c, pages, ctx, t, h, LevelMin(c, ctx, h), leaves)
    requires t.TNode? && i < |t.kids|
    ensures h >= 2
    ensures Hole(c, pages, In(ctx, t.id, t.keys, t.kids, i), t.kids[i], h - 1, MinCount(c, h - 1), leaves)
    ensures Plug(In(ctx, t.id, t.keys, t.kids, i), t.kids[i]) == Plug(ctx, t)
  {
    var d := In(ctx, t.id, t.keys, t.kids, i);
    assert t.kids[i := t.kids[i]] == t.kids;
    assert CtxWF(c, d, h - 1) && WF(c, t.kids[i], h - 1, Lo(d), Hi(d), MinCount(c, h - 1)) by {
      hide Hole, SortedKeys;
    }
    LevelPages(d, t.kids[i]);
    LevelLeaves(d, t.kids[i]);
    LevelSkel(pages, d, t.kids[i]);
  }

  /** Filling the hole one level up. */
  lemma {:induction false} FillWF(c: Caps, ctx: Ctx, t: Tree, h: nat)
    requires ctx.In? && CtxWF(c, ctx, h) && WF(c, t, h, Lo(ctx), Hi(ctx), MinCount(c, h))
    ensures ctx.idx < |ctx.kids| == |ctx.keys| + 1 && CtxWF(c, ctx.up, h + 1)
    ensures WF(c, TNode(ctx.id, ctx.keys, ctx.kids[ctx.idx := t]), h + 1, Lo(ctx.up), Hi(ctx.up),
      LevelMin(c, ctx.up, h + 1))
  {
    var In(up, id, keys, kids, idx) := ctx;
    assert forall i :: 0 <= i < |kids| && i != idx ==> kids[idx := t][i] == kids[i];
  }

  lemma {:induction false} Fill(c: Caps, pages: map<PageId, Page>, ctx: Ctx, t: Tree, h: nat, leaves: seq<Tree>)
    requires ctx.In? && Hole(c, pages, ctx, t, h, MinCount(c, h), leaves)
    ensures ctx.idx < |ctx.kids|
    ensures Hole(c, pages, ctx.up, TNode(ctx.id, ctx.keys, ctx.kids[ctx.idx := t]), h + 1,
      LevelMin(c, ctx.up, h + 1), leaves)
  {
    hide WF, CtxWF, Skel, CtxSkel, Chain, PagesAll, LeavesAll, CtxPages, CtxLeft, CtxRight;
    FillWF(c, ctx, t, h);
    LevelPages(ctx, t);
    LevelLeaves(ctx, t);
    LevelSkel(pages, ctx, t);
  }

  lemma {:induction false} AtTop(c: Caps, pages: map<PageId, Page>, t: Tree, h: nat, leaves: seq<Tree>)
    requires Hole(c, pages, Top, t, h, LevelMin(c, Top, h), leaves)
    ensures TreeOK(c, pages, t, h, leaves)
  {
    hide Chain, WF, Pages, Leaves, Skel;
  }

  /** Filling a hole with a subtree that meets the minimum of its level gives a
      well-formed tree. */
  lemma {:induction false} Climb(c: Caps, pages: map<PageId, Page>, ctx: Ctx, t: Tree, h: nat, leaves: seq<Tree>)
    requires Hole(c, pages, ctx, t, h, LevelMin(c, ctx, h), leaves)
    ensures TreeOK(c, pages, Plug(ctx, t), h + Depth(ctx), leaves)
    ensures Plug(ctx, t).id == RootId(ctx, t.id)
    decreases ctx
  {
    hide Chain, WF, CtxWF, PagesAll, Pages, LeavesAll, Leaves, CtxPages, CtxSkel, Skel;
    match ctx
    case Top => AtTop(c, pages, t, h, leaves);
    case In(up, id, keys, kids, idx) =>
      Fill(c, pages, ctx, t, h, leaves);
      Climb(c, pages, up, TNode(id, keys, kids[idx := t]), h + 1, leaves);
  }

  /** Overwriting one internal page that occurs once disturbs nothing else. */
  lemma {:induction false} WriteFrame(
      pages: map<PageId, Page>, id: PageId, page: Page, up: Ctx, kids: seq<Tree>, leaves: seq<Tree>)
    requires id in pages && pages[id].Internal?
    requires Accounts(pages, CtxPages(up) + multiset{id} + PagesAll(kids))
    requires CtxSkel(pages, up, id) && SkelAll(pages, kids) && Chain(pages, leaves)
    ensures Accounts(pages[id := page], CtxPages(up) + multiset{id} + PagesAll(kids))
    ensures CtxSkel(pages[id := page], up, id) && SkelAll(pages[id := page], kids) && Chain(pages[id := page], leaves)
  {
    hide PagesAll, CtxPages, Chain, SkelAll, CtxSkel;
    var q := pages[id := page];
    assert q.Keys == pages.Keys;
    assert multiset(pages.Keys)[id] == 1;
    CtxSkelFrame(pages, q, up, id);
    SkelAllFrame(pages, q, kids);
    ChainFrame(pages, q, leaves);
  }

  /** Writing the page of a pending node completes it. */
  lemma {:induction false} Install(
      c: Caps, pages: map<PageId, Page>, up: Ctx, id: PageId, keys: seq<Key>, kids: seq<Tree>, h: nat, m: int,
      leaves: seq<Tree>)
    requires Pending(c, pages, up, id, keys, kids, h, leaves)
    requires m <= |keys| <= c.intMax
    ensures |kids| == |keys| + 1
    ensures Hole(c, pages[id := IntPage(keys, KidIds(kids))], up, TNode(id, keys, kids), h + 1, m, leaves)
  {
    hide SortedKeys, PagesAll, LeavesAll, CtxPages, CtxLeft, CtxRight, CtxSkel, CtxWF, Lo, Hi, LoAt, HiAt, Chain,
      KidIds, IntPage;
    WriteFrame(pages, id, IntPage(keys, KidIds(kids)), up, kids, leaves);
    assert CtxPages(up) + Pages(TNode(id, keys, kids)) == CtxPages(up) + multiset{id} + PagesAll(kids);
  }
}
