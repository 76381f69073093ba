/** Descending through the pages, and what an edit of the leaf reached means for
    the finite map the tree stands for. */
module BTreeSearch {
  import opened Prelude
  import opened BTreeShape
  import opened BTreeSteps
  import opened BTreePages

  /** A descent for key has reached subtree t, of height h. */
  ghost predicate At(c: Caps, pages: map<PageId, Page>, ctx: Ctx, t: Tree, h: nat, key: Key, leaves: seq<Tree>) {
    && Hole(c, pages, ctx, t, h, LevelMin(c, ctx, h), leaves)
    && Within(key, Lo(ctx), Hi(ctx))
  }

  lemma {:induction false} AtRoot(c: Caps, pages: map<PageId, Page>, t: Tree, h: nat, key: Key, leaves: seq<Tree>)
    requires TreeOK(c, pages, t, h, leaves)
    ensures At(c, pages, Top, t, h, key, leaves)
  {
    hide WF, Skel, Chain, Pages, Leaves;
    CatEmpty(leaves);
  }

  /** The page under a descent is the node's. */
  lemma {:induction false} LoadNode(
      c: Caps, pages: map<PageId, Page>, ctx: Ctx, t: Tree, h: nat, key: Key, leaves: seq<Tree>)
    requires At(c, pages, ctx, t, h, key, leaves)
    ensures t.id in pages
    ensures t.TLeaf? ==> h == 1 && pages[t.id].Leaf? && pages[t.id].entries == t.entries
    ensures t.TNode? ==> |t.kids| == |t.keys| + 1 && pages[t.id] == IntPage(t.keys, KidIds(t.kids))
  {
    hide Chain, CtxSkel, CtxWF, CtxLeft, CtxRight, CtxPages;
    if t.TLeaf? {
      LeafPage(c, pages, ctx, t, LevelMin(c, ctx, h), leaves);
    }
  }

  lemma {:induction false} StepDown(
      c: Caps, pages: map<PageId, Page>, ctx: Ctx, t: Tree, h: nat, key: Key, leaves: seq<Tree>)
    requires At(c, pages, ctx, t, h, key, leaves) && t.TNode? && |t.kids| == |t.keys| + 1
    ensures var i := FindChildIndex(IntPage(t.keys, KidIds(t.kids)).seps, key);
            && i < |t.kids| && h >= 2 && ChildAt(IntPage(t.keys, KidIds(t.kids)), i) == t.kids[i].id
            && At(c, pages, In(ctx, t.id, t.keys, t.kids, i), t.kids[i], h - 1, key, leaves)
            && Plug(In(ctx, t.id, t.keys, t.kids, i), t.kids[i]) == Plug(ctx, t)
  {
    hide CtxWF, CtxSkel, Skel, Chain, SortedKeys, FindChildIndex, CtxPages, CtxLeft, CtxRight, Pages, Leaves,
      PagesAll, LeavesAll;
    var i := FindChildIndex(IntPage(t.keys, KidIds(t.kids)).seps, key);
    DescendBounds(t.keys, KidIds(t.kids), key, Lo(ctx), Hi(ctx));
    hide WF;
    Descend(c, pages, ctx, t, h, leaves, i);
  }

  // ── Membership ──────────────────────────────────────────────────────

  /** The entries of the whole tree around a leaf. */
  lemma {:induction false} FlatAround(left: seq<Tree>, t: Tree, right: seq<Tree>)
    requires t.TLeaf?
    ensures Flat(left + [t] + right) == Flat(left) + t.entries + Flat(right)
  {
    FlatCat(left + [t], right);
    FlatCat(left, [t]);
    assert Flat([t]) == t.entries + Flat([t][1..]);
    CatEmpty(t.entries);
  }

  ghost predicate Surrounds(a: seq<LeafEntry>, key: Key, b: seq<LeafEntry>) {
    && (forall i :: 0 <= i < |a| ==> a[i].key < key)
    && (forall i :: 0 <= i < |b| ==> key < b[i].key)
  }

  lemma {:induction false} SidesOf(c: Caps, pages: map<PageId, Page>, ctx: Ctx, t: Tree, key: Key, leaves: seq<Tree>)
    requires t.TLeaf? && At(c, pages, ctx, t, 1, key, leaves)
    ensures Surrounds(Flat(CtxLeft(ctx)), key, Flat(CtxRight(ctx)))
    ensures Flat(leaves) == Flat(CtxLeft(ctx)) + t.entries + Flat(CtxRight(ctx))
  {
    hide WF, CtxWF, CtxSkel, Skel, Chain, CtxPages, CtxLeft, CtxRight, Flat, Lo, Hi;
    CtxSides(c, ctx, 1);
    FlatAround(CtxLeft(ctx), t, CtxRight(ctx));
  }

  /** Searching the one leaf decides membership in the whole sequence. */
  lemma {:induction false} Decide(a: seq<LeafEntry>, es: seq<LeafEntry>, b: seq<LeafEntry>, key: Key)
    requires Surrounds(a, key, b) && Sorted(es) && Sorted(a + es + b)
    ensures var i := LowerBound(es, key);
            var m := MapOf(a + es + b);
            if i < |es| && es[i].key == key then key in m && m[key] == (es[i].pageId, es[i].slotId) else key !in m
  {
    hide LowerBound;
    var i, all := LowerBound(es, key), a + es + b;
    if i < |es| && es[i].key == key {
      assert all[|a| + i] == es[i];
      MapAt(all, |a| + i);
    } else {
      MapHas(all, key);
    }
  }

  /** Adding an entry to the leaf adds it to the map. */
  lemma {:induction false} InsertMeans(a: seq<LeafEntry>, es: seq<LeafEntry>, b: seq<LeafEntry>, e: LeafEntry)
    requires Sorted(a + InsertEntry(es, e) + b)
    ensures MapOf(a + InsertEntry(es, e) + b) == MapOf(a + es + b)[e.key := (e.pageId, e.slotId)]
    ensures |a + InsertEntry(es, e) + b| == |a + es + b| + 1
  {
    hide LowerBound;
    var i := LowerBound(es, e.key);
    var l, r := a + es[..i], es[i..] + b;
    assert a + (es[..i] + [e] + es[i..]) + b == l + [e] + r;
    assert a + es + b == l + r;
    MapInsert(l, e, r);
  }

  /** Removing an entry from the leaf removes it from the map. */
  lemma {:induction false} RemoveMeans(a: seq<LeafEntry>, es: seq<LeafEntry>, b: seq<LeafEntry>, i: nat)
    requires i < |es| && Sorted(a + es + b)
    ensures MapOf(a + (es[..i] + es[i + 1..]) + b) == MapOf(a + es + b) - {es[i].key}
    ensures |a + (es[..i] + es[i + 1..]) + b| == |a + es + b| - 1
  {
    var l, e, r := a + es[..i], es[i], es[i + 1..] + b;
    assert a + es + b == l + [e] + r;
    assert a + (es[..i] + es[i + 1..]) + b == l + r;
    MapInsert(l, e, r);
  }

  // ── Editing the leaf ────────────────────────────────────────────────

  lemma {:induction false} InsertSorted(es: seq<LeafEntry>, e: LeafEntry, lo: Bound, hi: Bound)
    requires Sorted(es) && AllWithin(es, lo, hi) && Within(e.key, lo, hi)
    requires var i := LowerBound(es, e.key); !(i < |es| && es[i].key == e.key)
    ensures Sorted(InsertEntry(es, e)) && AllWithin(InsertEntry(es, e), lo, hi) && |InsertEntry(es, e)| == |es| + 1
  {
    hide LowerBound, Within;
  }

  lemma {:induction false} RemoveSorted(es: seq<LeafEntry>, i: nat, lo: Bound, hi: Bound)
    requires Sorted(es) && AllWithin(es, lo, hi) && i < |es|
    ensures Sorted(es[..i] + es[i + 1..]) && AllWithin(es[..i] + es[i + 1..], lo, hi)
  {
    hide Within;
  }

  /** Rewriting the metadata page leaves the tree alone. */
  lemma {:induction false} MetaFrame(c: Caps, pages: map<PageId, Page>, meta: Page, t: Tree, h: nat, leaves: seq<Tree>)
    requires meta.Meta? && TreeOK(c, pages, t, h, leaves)
    ensures TreeOK(c, pages[META_PAGE_ID := meta], t, h, leaves)
  {
    hide WF, Skel, Chain, Pages, Leaves;
    var q := pages[META_PAGE_ID := meta];
    assert q.Keys == pages.Keys;
    SkelFrame(pages, q, t);
    ChainFrame(pages, q, leaves);
  }

  /** All entries of a well-formed tree are strictly ascending. */
  lemma {:induction false} TreeSorted(c: Caps, pages: map<PageId, Page>, t: Tree, h: nat, leaves: seq<Tree>)
    requires TreeOK(c, pages, t, h, leaves)
    ensures Sorted(Flat(leaves))
  {
    hide WF, Skel, Chain, Pages, Leaves, Flat;
    FlatSorted(c, t, h, NegInf, PosInf, RootMin(h));
  }

  lemma {:induction false} LeafFacts(c: Caps, pages: map<PageId, Page>, ctx: Ctx, t: Tree, m: int, leaves: seq<Tree>)
    requires t.TLeaf? && Hole(c, pages, ctx, t, 1, m, leaves)
    ensures m <= |t.entries| <= c.leafMax && Sorted(t.entries) && AllWithin(t.entries, Lo(ctx), Hi(ctx))
  {
    hide Chain, CtxSkel, CtxWF, CtxPages, CtxLeft, CtxRight;
  }

  lemma {:induction false} LeafDecides(
      c: Caps, pages: map<PageId, Page>, s: Tree, h: nat, ctx: Ctx, t: Tree, key: Key, leaves: seq<Tree>)
    requires TreeOK(c, pages, s, h, leaves) && t.TLeaf? && At(c, pages, ctx, t, 1, key, leaves)
    ensures var i := LowerBound(t.entries, key);
            var m := MapOf(Flat(leaves));
            if i < |t.entries| && t.entries[i].key == key
            then key in m && m[key] == (t.entries[i].pageId, t.entries[i].slotId) else key !in m
  {
    hide TreeOK, Flat, MapOf, LowerBound, Hole, Sorted, AllWithin;
    TreeSorted(c, pages, s, h, leaves);
    LeafFacts(c, pages, ctx, t, LevelMin(c, ctx, 1), leaves);
    SidesOf(c, pages, ctx, t, key, leaves);
    Decide(Flat(CtxLeft(ctx)), t.entries, Flat(CtxRight(ctx)), key);
  }

  lemma {:induction false} InsertLeafOK(
      c: Caps, pages: map<PageId, Page>, ctx: Ctx, t: Tree, key: Key, leaves: seq<Tree>, e: LeafEntry)
    requires CapsOK(c) && t.TLeaf? && At(c, pages, ctx, t, 1, key, leaves) && e.key == key
    requires var i := LowerBound(t.entries, key); !(i < |t.entries| && t.entries[i].key == key)
    ensures var es := InsertEntry(t.entries, e);
            && Sorted(es) && AllWithin(es, Lo(ctx), Hi(ctx)) && LevelMin(c, ctx, 1) + 1 <= |es| <= c.leafMax + 1
            && (c.leafMax < |es| ==> 2 <= |es|)
  {
    hide Hole, InsertEntry, LowerBound, Lo, Hi, Sorted, AllWithin;
    LeafFacts(c, pages, ctx, t, LevelMin(c, ctx, 1), leaves);
    InsertSorted(t.entries, e, Lo(ctx), Hi(ctx));
  }

  /** Saving a leaf that neither overflows nor underflows completes the tree. */
  lemma {:induction false} LeafSaved(
      c: Caps, pages: map<PageId, Page>, ctx: Ctx, t: Tree, key: Key, leaves: seq<Tree>, es: seq<LeafEntry>)
    requires t.TLeaf? && At(c, pages, ctx, t, 1, key, leaves)
    requires Sorted(es) && AllWithin(es, Lo(ctx), Hi(ctx)) && LevelMin(c, ctx, 1) <= |es| <= c.leafMax
    ensures t.id in pages && pages[t.id].Leaf?
    ensures TreeOK(c, pages[t.id := pages[t.id].(entries := es)], Plug(ctx, TLeaf(t.id, es)), 1 + Depth(ctx),
                   CtxLeft(ctx) + [TLeaf(t.id, es)] + CtxRight(ctx))
    ensures Plug(ctx, TLeaf(t.id, es)).id == RootId(ctx, t.id)
  {
    hide Hole, Sorted, AllWithin, Lo, Hi, CtxLeft, CtxRight, TreeOK, Plug;
    LeafEdit(c, pages, ctx, t, LevelMin(c, ctx, 1), leaves, es, LevelMin(c, ctx, 1));
    Climb(c, pages[t.id := pages[t.id].(entries := es)], ctx, TLeaf(t.id, es), 1,
      CtxLeft(ctx) + [TLeaf(t.id, es)] + CtxRight(ctx));
  }

  /** Once the new entry is in the leaves' entries, it is in the map. */
  lemma {:induction false} InsertDone(
      c: Caps, pages: map<PageId, Page>, ctx: Ctx, t: Tree, key: Key, leaves: seq<Tree>, e: LeafEntry,
      q: map<PageId, Page>, s: Tree, h: nat, ls: seq<Tree>)
    requires t.TLeaf? && At(c, pages, ctx, t, 1, key, leaves) && e.key == key
    requires TreeOK(c, q, s, h, ls)
    requires Flat(ls) == Flat(CtxLeft(ctx)) + InsertEntry(t.entries, e) + Flat(CtxRight(ctx))
    ensures MapOf(Flat(ls)) == MapOf(Flat(leaves))[key := (e.pageId, e.slotId)]
    ensures |Flat(ls)| == |Flat(leaves)| + 1
  {
    hide TreeOK, Flat, MapOf, InsertEntry, Hole;
    TreeSorted(c, q, s, h, ls);
    SidesOf(c, pages, ctx, t, key, leaves);
    InsertMeans(Flat(CtxLeft(ctx)), t.entries, Flat(CtxRight(ctx)), e);
  }

  lemma {:induction false} TreeLeaves(c: Caps, pages: map<PageId, Page>, t: Tree, h: nat, leaves: seq<Tree>)
    requires TreeOK(c, pages, t, h, leaves)
    ensures Leaves(t) == leaves
  {
    hide WF, Skel, Chain, Pages, Leaves;
  }

  // ── Splits ──────────────────────────────────────────────────────────

  /** Saving the halves of an overfull leaf and relinking its neighbour. */
  lemma {:induction false} LeafSplitSaved(
      c: Caps, pages: map<PageId, Page>, ctx: Ctx, t: Tree, key: Key, leaves: seq<Tree>, es: seq<LeafEntry>,
      rid: PageId) returns (l: Tree, r: Tree)
    requires CapsOK(c) && t.TLeaf? && At(c, pages, ctx, t, 1, key, leaves)
    requires |es| == c.leafMax + 1 && Sorted(es) && AllWithin(es, Lo(ctx), Hi(ctx)) && rid !in pages && rid != 0
    ensures 2 <= |es|
    ensures l == TLeaf(t.id, es[..|es| / 2]) && r == TLeaf(rid, es[|es| / 2..])
    ensures t.id in pages && pages[t.id].Leaf?
    ensures var next := pages[t.id].next;
      next == 0 || (next in pages && pages[next].Leaf? && next != t.id && next != rid)
    ensures 0 !in pages
    ensures Hole2(c, SplitPages(pages, pages[t.id].prev, l, r, pages[t.id].next), ctx, l, es[|es| / 2].key, r, 1,
                  CtxLeft(ctx) + [l, r] + CtxRight(ctx))
    ensures Flat(CtxLeft(ctx) + [l, r] + CtxRight(ctx)) == Flat(CtxLeft(ctx)) + es + Flat(CtxRight(ctx))
  {
    hide Hole, Hole2, Flat, CtxLeft, CtxRight, SplitPages, Sorted, AllWithin;
    l, r := TLeaf(t.id, es[..|es| / 2]), TLeaf(rid, es[|es| / 2..]);
    LeafSplit(c, pages, ctx, t, LevelMin(c, ctx, 1), leaves, es, rid);
    NextOf(c, pages, ctx, t, LevelMin(c, ctx, 1), leaves);
    FlatTwo(CtxLeft(ctx), l, r, CtxRight(ctx));
    TakeDrop(es, |es| / 2);
  }

  /** The order in which the pages are saved does not matter. */
  lemma {:induction false} SplitWrites(
      pages: map<PageId, Page>, rid: PageId, l: Tree, r: Tree, prev: PageId, next: PageId)
    requires l.TLeaf? && r.TLeaf? && r.id == rid && rid !in pages && rid != 0 && 0 !in pages && l.id in pages
    requires next == 0 || (next in pages && pages[next].Leaf? && next != l.id && next != rid)
    ensures var p := pages[rid := Blank][l.id := Leaf(l.entries, rid, prev)][rid := Leaf(r.entries, next, l.id)];
            SplitPages(pages, prev, l, r, next) == if next != 0 then p[next := p[next].(prev := rid)] else p
  {
  }

  lemma {:induction false} NextOf(c: Caps, pages: map<PageId, Page>, ctx: Ctx, t: Tree, m: int, leaves: seq<Tree>)
    requires t.TLeaf? && Hole(c, pages, ctx, t, 1, m, leaves)
    ensures t.id in pages && pages[t.id].Leaf? && 0 !in pages
    ensures var next := pages[t.id].next; next == 0 || (next in pages && pages[next].Leaf? && next != t.id)
  {
    hide WF, CtxWF, CtxSkel, CtxPages, CtxLeft, CtxRight;
    LeafPage(c, pages, ctx, t, m, leaves);
    var n := |CtxLeft(ctx)|;
    assert leaves[n] == t;
    if CtxRight(ctx) != [] {
      assert leaves[n + 1] == CtxRight(ctx)[0];
      assert Linked(pages, leaves, n + 1);
    }
  }

  lemma {:induction false} FlatTwo(left: seq<Tree>, x: Tree, y: Tree, right: seq<Tree>)
    requires x.TLeaf? && y.TLeaf?
    ensures Flat(left + [x, y] + right) == Flat(left) + (x.entries + y.entries) + Flat(right)
  {
    hide Flat;
    CatPair(left, x, y, right);
    FlatAround(left + [x], y, right);
    CatEmpty(left + [x]);
    FlatAround(left, x, []);
    FlatNil();
    CatEmpty(Flat(left) + x.entries);
    Assoc(Flat(left), x.entries, y.entries);
  }

  lemma {:induction false} FlatNil()
    ensures Flat([]) == []
  {
  }

  /** Adding the promoted separator to the parent's page. */
  lemma {:induction false} ParentGrown(
      c: Caps, pages: map<PageId, Page>, ctx: Ctx, l: Tree, k: Key, r: Tree, h: nat, leaves: seq<Tree>)
    returns (keys: seq<Key>, kids: seq<Tree>)
    requires ctx.In? && Hole2(c, pages, ctx, l, k, r, h, leaves)
    ensures Pending(c, pages, ctx.up, ctx.id, keys, kids, h, leaves) && |kids| == |keys| + 1
    ensures && ctx.id in pages && pages[ctx.id].Internal?
            && InsertSep(pages[ctx.id], k, r.id) == IntPage(keys, KidIds(kids))
    ensures LevelMin(c, ctx.up, h + 1) <= |keys| <= c.intMax + 1
  {
    hide WF, CtxPages, CtxLeft, CtxRight, Chain, Skel, Pages, Leaves, IntPage, KidIds, InsertSep, Pending, SkelAll;
    Grow(c, pages, ctx, l, k, r, h, leaves);
    keys := ctx.keys[..ctx.idx] + [k] + ctx.keys[ctx.idx..];
    kids := ctx.kids[..ctx.idx] + [l, r] + ctx.kids[ctx.idx + 1..];
    HoleOrder(c, ctx, h, k);
    InsertSepIs(ctx.keys, ctx.kids, ctx.idx, l, k, r);
  }

  /** A key strictly inside the hole falls between the parent's separators. */
  lemma {:induction false} HoleOrder(c: Caps, ctx: Ctx, h: nat, k: Key)
    requires ctx.In? && CtxWF(c, ctx, h) && Lt(Lo(ctx), Fin(k)) && Lt(Fin(k), Hi(ctx))
    ensures ctx.idx < |ctx.kids| == |ctx.keys| + 1 && LevelMin(c, ctx.up, h + 1) <= |ctx.keys| <= c.intMax
    ensures forall i :: 0 <= i < ctx.idx ==> ctx.keys[i] < k
    ensures forall i :: ctx.idx <= i < |ctx.keys| ==> k < ctx.keys[i]
  {
    var ks, n := ctx.keys, ctx.idx;
    assert forall i :: 0 <= i < n ==> ks[i] <= ks[n - 1];
    assert forall i :: n <= i < |ks| ==> ks[n] <= ks[i];
  }

  /** Saving the halves of an overfull internal node. */
  lemma {:induction false} NodeSplitSaved(
      c: Caps, pages: map<PageId, Page>, up: Ctx, id: PageId, keys: seq<Key>, kids: seq<Tree>, h: nat,
      leaves: seq<Tree>, rid: PageId) returns (l: Tree, r: Tree)
    requires CapsOK(c) && Pending(c, pages, up, id, keys, kids, h, leaves) && |kids| == |keys| + 1
    requires |keys| == c.intMax + 1 && rid !in pages && rid != 0
    ensures l.id == id && r.id == rid && id in pages
    ensures var page := IntPage(keys, KidIds(kids));
            var mid := |keys| / 2;
            && page.seps[mid].key == keys[mid]
            && Hole2(c, pages[id := Internal(page.seps[..mid], page.seps[mid].child)]
                             [rid := Internal(page.seps[mid + 1..], page.rightChild)],
                     up, l, keys[mid], r, h + 1, leaves)
  {
    hide Pending, Hole2, IntPage, KidIds;
    var mid := |keys| / 2;
    l, r := TNode(id, keys[..mid], kids[..mid + 1]), TNode(rid, keys[mid + 1..], kids[mid + 1..]);
    InternalSplit(c, pages, up, keys, kids, h, leaves, l, r);
    KidIdsSlice(kids, mid + 1);
    IntPageCut(keys, KidIds(kids), mid);
    PendingPage(c, pages, up, id, keys, kids, h, leaves);
  }

  lemma {:induction false} PendingPage(
      c: Caps, pages: map<PageId, Page>, up: Ctx, id: PageId, keys: seq<Key>, kids: seq<Tree>, h: nat,
      leaves: seq<Tree>)
    requires Pending(c, pages, up, id, keys, kids, h, leaves)
    ensures id in pages && pages[id].Internal?
  {
  }

  /** The page of a new root. */
  lemma {:induction false} GrowRootSaved(
      c: Caps, pages: map<PageId, Page>, l: Tree, k: Key, r: Tree, h: nat, leaves: seq<Tree>, nid: PageId)
    requires CapsOK(c) && Hole2(c, pages, Top, l, k, r, h, leaves) && nid !in pages && nid != 0
    ensures TreeOK(c, pages[nid := Internal([InternalEntry(k, l.id)], r.id)], TNode(nid, [k], [l, r]), h + 1, leaves)
  {
    hide Hole2, TreeOK;
    GrowRoot(c, pages, l, k, r, h, leaves, nid);
    assert IntPage([k], [l.id, r.id]) == Internal([InternalEntry(k, l.id)], r.id);
  }
}
