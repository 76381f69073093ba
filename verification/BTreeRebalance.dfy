/** One level of a rebalance, from the page contents the operation read to the
    page contents it leaves behind. */
module BTreeRebalance {
  import opened Prelude
  import opened BTreeShape
  import opened BTreeSteps
  import opened BTreePages
  import opened BTreeSearch

  /** Replacing one separator. */
  function SetSep(page: Page, a: nat, key: Key): (r: Page)
    requires page.Internal? && a < |page.seps|
    ensures r.Internal? && |r.seps| == |page.seps|
  {
    page.(seps := page.seps[a := page.seps[a].(key := key)])
  }

  function IdsOf(page: Page): (ids: seq<PageId>)
    requires page.Internal?
    ensures |ids| == |page.seps| + 1
  {
    seq(|page.seps|, i requires 0 <= i < |page.seps| => page.seps[i].child) + [page.rightChild]
  }

  function RemoveAt<T>(s: seq<T>, i: nat): (r: seq<T>)
    requires i < |s|
    ensures |r| == |s| - 1
  {
    s[..i] + s[i + 1..]
  }

  lemma {:induction false} PartsOf(ks: seq<Key>, ids: seq<PageId>)
    requires |ids| == |ks| + 1
    ensures KeysOf(IntPage(ks, ids)) == ks && IdsOf(IntPage(ks, ids)) == ids
  {
  }

  /** The pair of children around separator a, one of them the underfull t. */
  ghost predicate Around(ctx: Ctx, t: Tree, a: nat, x: Tree, y: Tree) {
    && ctx.In? && ctx.idx < |ctx.kids| == |ctx.keys| + 1
    && (a == ctx.idx || a + 1 == ctx.idx) && a + 1 < |ctx.kids|
    && x == ctx.kids[ctx.idx := t][a] && y == ctx.kids[ctx.idx := t][a + 1]
  }

  /** What reading the parent and the pair finds. */
  lemma {:induction false} ReadPair(
      c: Caps, pages: map<PageId, Page>, ctx: Ctx, t: Tree, h: nat, m: nat, leaves: seq<Tree>, a: nat)
    requires ctx.In? && Hole(c, pages, ctx, t, h, m, leaves)
    requires (a == ctx.idx || a + 1 == ctx.idx) && a + 1 < |ctx.kids|
    ensures ctx.idx < |ctx.kids| == |ctx.keys| + 1
    ensures var kids := ctx.kids[ctx.idx := t];
            && ctx.id in pages && pages[ctx.id] == IntPage(ctx.keys, KidIds(kids))
            && ChildAt(pages[ctx.id], a) == kids[a].id && ChildAt(pages[ctx.id], a + 1) == kids[a + 1].id
            && Pair(c, pages, ctx.up, ctx.id, ctx.keys, ctx.kids, a, kids[a], kids[a + 1], h, leaves)
            && Around(ctx, t, a, kids[a], kids[a + 1])
  {
    hide WF, CtxWF, Chain, CtxPages, CtxLeft, CtxRight, Pages, Leaves;
    PairUp(c, pages, ctx, t, h, m, leaves, a);
    var kids := ctx.kids[ctx.idx := t];
    assert kids == ctx.kids[a := kids[a]][a + 1 := kids[a + 1]];
    hide Skel, CtxSkel, SkelAll;
  }

  /** Both siblings are leaves, or both are internal nodes; a sibling holds at
      least its minimum. */
  lemma {:induction false} PairKinds(
      c: Caps, pages: map<PageId, Page>, ctx: Ctx, t: Tree, h: nat, m: nat, leaves: seq<Tree>, a: nat, x: Tree,
      y: Tree)
    requires Hole(c, pages, ctx, t, h, m, leaves) && Around(ctx, t, a, x, y)
    ensures h == 1 ==> x.TLeaf? && y.TLeaf? && |x.entries| <= c.leafMax && |y.entries| <= c.leafMax
    ensures h == 1 && a != ctx.idx ==> c.leafMin <= |x.entries|
    ensures h == 1 && a == ctx.idx ==> c.leafMin <= |y.entries|
    ensures h >= 2 ==> x.TNode? && y.TNode? && |x.kids| == |x.keys| + 1 && |y.kids| == |y.keys| + 1
    ensures h >= 2 ==> |x.keys| <= c.intMax && |y.keys| <= c.intMax
    ensures h >= 2 && a != ctx.idx ==> c.intMin <= |x.keys|
    ensures h >= 2 && a == ctx.idx ==> c.intMin <= |y.keys|
  {
    hide Chain, CtxSkel, Skel, CtxPages, CtxLeft, CtxRight, Pages, Leaves;
    var s := if a == ctx.idx then a + 1 else a;
    assert WF(c, ctx.kids[s], h, LoAt(ctx.keys, s, Lo(ctx.up)), HiAt(ctx.keys, s, Hi(ctx.up)), MinCount(c, h));
  }

  // ── Leaves ──────────────────────────────────────────────────────────

  /** Reading the pages of two sibling leaves. */
  lemma {:induction false} ReadLeaves(
      c: Caps, pages: map<PageId, Page>, up: Ctx, id: PageId, keys: seq<Key>, kids: seq<Tree>, a: nat, x: Tree,
      y: Tree, leaves: seq<Tree>)
    requires Pair(c, pages, up, id, keys, kids, a, x, y, 1, leaves) && x.TLeaf? && y.TLeaf?
    ensures x.id in pages && pages[x.id].Leaf? && pages[x.id].entries == x.entries
    ensures y.id in pages && pages[y.id].Leaf? && pages[y.id].entries == y.entries
    ensures x.id != y.id
    ensures pages[y.id].next != x.id && pages[y.id].next != y.id
    ensures pages[y.id].next != 0 ==> pages[y.id].next in pages && pages[pages[y.id].next].Leaf?
  {
    hide WF, CtxWF, NodeOK, Chain, CtxPages, CtxLeft, CtxRight, PairLeft, PairRight, PairRest, CtxSkel, SkelAll,
      KidIds, IntPage;
    var left, right := PairLeft(up, kids, a), PairRight(up, kids, a);
    CatPair(left, x, y, right);
    ChainMerge(pages, left, x, y, right, []);
  }

  /** Borrowing between two sibling leaves, parent's page included: their
      entries are recut at p. */
  lemma {:induction false} BorrowLeafPages(
      c: Caps, pages: map<PageId, Page>, ctx: Ctx, t: Tree, m: nat, leaves: seq<Tree>, a: nat, x: Tree, y: Tree,
      p: nat)
    returns (s: Tree, ls: seq<Tree>)
    requires && CapsOK(c) && ctx.In? && Hole(c, pages, ctx, t, 1, m, leaves) && Around(ctx, t, a, x, y) && x.TLeaf?
             && y.TLeaf?
    requires 1 <= p < |x.entries| + |y.entries|
    requires c.leafMin <= p <= c.leafMax && c.leafMin <= |x.entries| + |y.entries| - p <= c.leafMax
    ensures && x.id in pages && pages[x.id].Leaf? && y.id in pages && pages[y.id].Leaf? && ctx.id in pages
            && pages[ctx.id].Internal?
    ensures a < |pages[ctx.id].seps|
    ensures var es := x.entries + y.entries;
            TreeOK(c, pages[x.id := pages[x.id].(entries := es[..p])][y.id := pages[y.id].(entries := es[p..])]
                           [ctx.id := SetSep(pages[ctx.id], a, es[p].key)], s, 1 + Depth(ctx), ls)
    ensures s.id == RootId(ctx, t.id) && Flat(ls) == Flat(leaves)
  {
    hide Hole, Pair, Pending, TreeOK, IntPage, KidIds, Flat;
    var es := x.entries + y.entries;
    var x', y' := TLeaf(x.id, es[..p]), TLeaf(y.id, es[p..]);
    LevelCounts(c, pages, ctx, t, 1, m, leaves);
    ReadPair(c, pages, ctx, t, 1, m, leaves, a);
    var up, id, keys, kids := ctx.up, ctx.id, ctx.keys, ctx.kids;
    BorrowLeaf(c, pages, up, id, keys, kids, a, x, y, leaves, p);
    var left, right := PairLeft(up, kids, a), PairRight(up, kids, a);
    ls := left + [x', y'] + right;
    BorrowFlat(up, kids, a, left, right, x, y, x', y', es, p, leaves, c, pages, id, keys);
    ParentSet(keys, kids, ctx.idx, t, a, x, y, x', y', es[p].key);
    var q := pages[x.id := pages[x.id].(entries := es[..p])][y.id := pages[y.id].(entries := es[p..])];
    s := FinishLevel(c, q, up, id, keys[..a] + [es[p].key] + keys[a + 1..], kids[..a] + [x', y'] + kids[a + 2..], 1,
      ls, |keys|);
  }

  lemma {:induction false} BorrowFlat(
      up: Ctx, kids: seq<Tree>, a: nat, left: seq<Tree>, right: seq<Tree>, x: Tree, y: Tree, x': Tree, y': Tree,
      es: seq<LeafEntry>, p: nat, leaves: seq<Tree>, c: Caps, pages: map<PageId, Page>, id: PageId, keys: seq<Key>)
    requires Pair(c, pages, up, id, keys, kids, a, x, y, 1, leaves) && x.TLeaf? && y.TLeaf? && x'.TLeaf? && y'.TLeaf?
    requires left == PairLeft(up, kids, a) && right == PairRight(up, kids, a)
    requires es == x.entries + y.entries && p <= |es| && x'.entries == es[..p] && y'.entries == es[p..]
    ensures Flat(left + [x', y'] + right) == Flat(leaves)
  {
    hide Flat, WF, CtxWF, NodeOK, Chain, CtxPages, CtxLeft, CtxRight, PairLeft, PairRight, PairRest, CtxSkel,
      SkelAll, KidIds, IntPage;
    CatPair(left, x, y, right);
    FlatTwo(left, x, y, right);
    FlatTwo(left, x', y', right);
    TakeDrop(es, p);
  }

  /** The parent's page after a borrow: one separator replaced. */
  lemma {:induction false} ParentSet(
      keys: seq<Key>, kids: seq<Tree>, idx: nat, t: Tree, a: nat, x: Tree, y: Tree, x': Tree, y': Tree, k: Key)
    requires idx < |kids| == |keys| + 1 && (a == idx || a + 1 == idx) && a + 1 < |kids|
    requires x == kids[idx := t][a] && y == kids[idx := t][a + 1] && x'.id == x.id && y'.id == y.id
    ensures SetSep(IntPage(keys, KidIds(kids[idx := t])), a, k)
         == IntPage(keys[..a] + [k] + keys[a + 1..], KidIds(kids[..a] + [x', y'] + kids[a + 2..]))
  {
    assert keys[..a] + [k] + keys[a + 1..] == keys[a := k];
    var ts := kids[..a] + [x', y'] + kids[a + 2..];
    assert KidIds(ts) == KidIds(kids[idx := t]);
  }

  /** Writing a parent that did not shrink ends the rebalance. */
  lemma {:induction false} FinishLevel(
      c: Caps, q: map<PageId, Page>, up: Ctx, id: PageId, keys: seq<Key>, kids: seq<Tree>, h: nat, ls: seq<Tree>,
      n: nat) returns (s: Tree)
    requires Pending(c, q, up, id, keys, kids, h, ls) && |keys| == n
    requires LevelMin(c, up, h + 1) <= n <= c.intMax
    ensures |kids| == |keys| + 1
    ensures TreeOK(c, q[id := IntPage(keys, KidIds(kids))], s, h + 1 + Depth(up), ls) && s.id == RootId(up, id)
  {
    hide Pending, Hole, TreeOK, IntPage, KidIds;
    Install(c, q, up, id, keys, kids, h, LevelMin(c, up, h + 1), ls);
    s := Plug(up, TNode(id, keys, kids));
    Climb(c, q[id := IntPage(keys, KidIds(kids))], up, TNode(id, keys, kids), h + 1, ls);
  }

  /** The parent's row after the pair around separator a became one child. */
  ghost predicate Shrunk(page: Page, a: nat, keys: seq<Key>, kids: seq<Tree>) {
    && page.Internal? && a < |page.seps|
    && keys == RemoveAt(KeysOf(page), a) && KidIds(kids) == RemoveAt(IdsOf(page), a + 1)
  }

  lemma {:induction false} ParentShrinks(
      keys: seq<Key>, kids: seq<Tree>, idx: nat, t: Tree, a: nat, x: Tree, y: Tree, xy: Tree)
    requires idx < |kids| == |keys| + 1 && (a == idx || a + 1 == idx) && a + 1 < |kids|
    requires x == kids[idx := t][a] && y == kids[idx := t][a + 1] && xy.id == x.id
    ensures Shrunk(IntPage(keys, KidIds(kids[idx := t])), a, keys[..a] + [] + keys[a + 1..],
      kids[..a] + [xy] + kids[a + 2..])
  {
    PartsOf(keys, KidIds(kids[idx := t]));
    var ts := kids[..a] + [xy] + kids[a + 2..];
    assert KidIds(ts) == RemoveAt(KidIds(kids[idx := t]), a + 1);
  }

  /** Merging two sibling leaves: what is left is for the parent to drop one
      child. */
  lemma {:induction false} MergeLeafPages(
      c: Caps, pages: map<PageId, Page>, ctx: Ctx, t: Tree, m: nat, leaves: seq<Tree>, a: nat, x: Tree, y: Tree)
    returns (ks: seq<Key>, ts: seq<Tree>, ls: seq<Tree>)
    requires && CapsOK(c) && ctx.In? && Hole(c, pages, ctx, t, 1, m, leaves) && Around(ctx, t, a, x, y) && x.TLeaf?
             && y.TLeaf?
    requires c.leafMin <= |x.entries| + |y.entries| <= c.leafMax
    ensures && x.id in pages && pages[x.id].Leaf? && y.id in pages && pages[y.id].Leaf? && ctx.id in pages
            && pages[ctx.id].Internal?
    ensures Pending(c, MergePages(pages, x.id, y.id, x.entries + y.entries), ctx.up, ctx.id, ks, ts, 1, ls)
    ensures Shrunk(pages[ctx.id], a, ks, ts) && Flat(ls) == Flat(leaves)
    ensures |ks| == |ctx.keys| - 1
  {
    hide Hole, IntPage, KidIds, MergePages;
    ReadPair(c, pages, ctx, t, 1, m, leaves, a);
    var up, id, keys, kids := ctx.up, ctx.id, ctx.keys, ctx.kids;
    MergeLeaf(c, pages, up, id, keys, kids, a, x, y, leaves);
    var xy := TLeaf(x.id, x.entries + y.entries);
    var left, right := PairLeft(up, kids, a), PairRight(up, kids, a);
    ks, ts, ls := keys[..a] + [] + keys[a + 1..], kids[..a] + [xy] + kids[a + 2..], left + [xy] + right;
    MergeFlat(up, kids, a, left, right, x, y, xy, leaves, c, pages, id, keys);
    ParentShrinks(keys, kids, ctx.idx, t, a, x, y, xy);
  }

  lemma {:induction false} MergeFlat(
      up: Ctx, kids: seq<Tree>, a: nat, left: seq<Tree>, right: seq<Tree>, x: Tree, y: Tree, xy: Tree,
      leaves: seq<Tree>, c: Caps, pages: map<PageId, Page>, id: PageId, keys: seq<Key>)
    requires Pair(c, pages, up, id, keys, kids, a, x, y, 1, leaves) && x.TLeaf? && y.TLeaf? && xy.TLeaf?
    requires left == PairLeft(up, kids, a) && right == PairRight(up, kids, a) && xy.entries == x.entries + y.entries
    ensures Flat(left + [xy] + right) == Flat(leaves)
  {
    hide Flat, WF, CtxWF, NodeOK, Chain, CtxPages, CtxLeft, CtxRight, PairLeft, PairRight, PairRest, CtxSkel,
      SkelAll, KidIds, IntPage;
    CatPair(left, x, y, right);
    FlatTwo(left, x, y, right);
    FlatAround(left, xy, right);
  }

  // ── Internal nodes ──────────────────────────────────────────────────

  /** The pages of two sibling internal nodes. */
  lemma {:induction false} ReadNodes(
      c: Caps, pages: map<PageId, Page>, up: Ctx, id: PageId, keys: seq<Key>, kids: seq<Tree>, a: nat, x: Tree,
      y: Tree, h: nat, leaves: seq<Tree>)
    requires Pair(c, pages, up, id, keys, kids, a, x, y, h, leaves) && x.TNode? && y.TNode?
    ensures |x.kids| == |x.keys| + 1 && |y.kids| == |y.keys| + 1
    ensures x.id in pages && pages[x.id] == IntPage(x.keys, KidIds(x.kids))
    ensures y.id in pages && pages[y.id] == IntPage(y.keys, KidIds(y.kids))
    ensures x.id != y.id
  {
    hide WF, CtxWF, NodeOK, Chain, CtxPages, CtxLeft, CtxRight, PairLeft, PairRight, PairRest, CtxSkel, SkelAll;
    assert x.id != y.id by {
      assert multiset(pages.Keys)[x.id] <= 1;
      assert x.id in Pages(x) && y.id in Pages(y);
    }
  }

  /** The pages of the two nodes after their joined row is recut at p. */
  lemma {:induction false} RecutPages(x: Tree, k: Key, y: Tree, p: nat, x': Tree, y': Tree)
    requires Recut(x, k, y, p, x', y')
    ensures |x'.kids| == |x'.keys| + 1 && |y'.kids| == |y'.keys| + 1
    ensures var j := JoinPages(IntPage(x.keys, KidIds(x.kids)), k, IntPage(y.keys, KidIds(y.kids)));
            && |j.seps| == |x.keys| + 1 + |y.keys|
            && j.seps[p].key == (x.keys + [k] + y.keys)[p]
            && IntPage(x'.keys, KidIds(x'.kids)) == Internal(j.seps[..p], j.seps[p].child)
            && IntPage(y'.keys, KidIds(y'.kids)) == Internal(j.seps[p + 1..], j.rightChild)
  {
    var ks, ts := x.keys + [k] + y.keys, x.kids + y.kids;
    KidIdsCat(x.kids, y.kids);
    IntPageJoin(x.keys, KidIds(x.kids), k, y.keys, KidIds(y.kids));
    KidIdsSlice(ts, p + 1);
    IntPageCut(ks, KidIds(ts), p);
  }

  lemma {:induction false} RecutOf(x: Tree, k: Key, y: Tree, p: nat) returns (x': Tree, y': Tree)
    requires x.TNode? && y.TNode? && |x.kids| == |x.keys| + 1 && |y.kids| == |y.keys| + 1 && p <= |x.keys| + |y.keys|
    ensures Recut(x, k, y, p, x', y')
  {
    var ks, rs := x.keys + [k] + y.keys, x.kids + y.kids;
    x', y' := TNode(x.id, ks[..p], rs[..p + 1]), TNode(y.id, ks[p + 1..], rs[p + 1..]);
  }

  lemma {:induction false} LevelCounts(
      c: Caps, pages: map<PageId, Page>, ctx: Ctx, t: Tree, h: nat, m: int, leaves: seq<Tree>)
    requires ctx.In? && Hole(c, pages, ctx, t, h, m, leaves)
    ensures LevelMin(c, ctx.up, h + 1) <= |ctx.keys| <= c.intMax && 1 <= h && ctx.idx < |ctx.kids| == |ctx.keys| + 1
  {
    hide Chain, CtxSkel, Skel, CtxPages, CtxLeft, CtxRight, Pages, Leaves;
  }

  /** The pages after j, the joined row of the nodes on x and y, is recut at p
      and the parent's separator a replaced. */
  function RecutWrites(
      pages: map<PageId, Page>, x: PageId, y: PageId, id: PageId, a: nat, j: Page, p: nat): map<PageId, Page>
    requires id in pages && pages[id].Internal? && a < |pages[id].seps| && j.Internal? && p < |j.seps|
  {
    pages[x := Internal(j.seps[..p], j.seps[p].child)][y := Internal(j.seps[p + 1..], j.rightChild)]
         [id := SetSep(pages[id], a, j.seps[p].key)]
  }

  ghost function JoinedPage(x: Tree, k: Key, y: Tree): (j: Page)
    requires x.TNode? && y.TNode? && |x.kids| == |x.keys| + 1 && |y.kids| == |y.keys| + 1
    ensures j.Internal? && |j.seps| == |x.keys| + 1 + |y.keys|
  {
    JoinPages(IntPage(x.keys, KidIds(x.kids)), k, IntPage(y.keys, KidIds(y.kids)))
  }

  /** Borrowing between two sibling internal nodes, parent's page included. */
  lemma {:induction false} BorrowInternalPages(
      c: Caps, pages: map<PageId, Page>, ctx: Ctx, t: Tree, h: nat, m: nat, leaves: seq<Tree>, a: nat, x: Tree,
      y: Tree, p: nat)
    returns (s: Tree)
    requires && CapsOK(c) && ctx.In? && Hole(c, pages, ctx, t, h + 1, m, leaves) && Around(ctx, t, a, x, y)
             && x.TNode? && y.TNode?
    requires |x.kids| == |x.keys| + 1 && |y.kids| == |y.keys| + 1 && p <= |x.keys| + |y.keys|
    requires c.intMin <= p <= c.intMax && c.intMin <= |x.keys| + |y.keys| - p <= c.intMax
    ensures ctx.id in pages && pages[ctx.id].Internal? && a < |pages[ctx.id].seps|
    ensures TreeOK(c, RecutWrites(pages, x.id, y.id, ctx.id, a, JoinedPage(x, ctx.keys[a], y), p), s,
      h + 1 + Depth(ctx), leaves)
    ensures s.id == RootId(ctx, t.id)
  {
    hide Hole, Pair, Pending, TreeOK, Recut, KidIds, JoinPages, IntPage, SetSep;
    LevelCounts(c, pages, ctx, t, h + 1, m, leaves);
    ReadPair(c, pages, ctx, t, h + 1, m, leaves, a);
    var x', y' := RecutOf(x, ctx.keys[a], y, p);
    s := BorrowStep(c, pages, ctx, t, h, leaves, a, x, y, p, x', y');
    RecutPages(x, ctx.keys[a], y, p, x', y');
  }

  lemma {:induction false} BorrowStep(c: Caps, pages: map<PageId, Page>, ctx: Ctx, t: Tree, h: nat, leaves: seq<Tree>,
                                      a: nat, x: Tree, y: Tree, p: nat, x': Tree, y': Tree) returns (s: Tree)
    requires Around(ctx, t, a, x, y) && Pair(c, pages, ctx.up, ctx.id, ctx.keys, ctx.kids, a, x, y, h + 1, leaves)
    requires LevelMin(c, ctx.up, h + 2) <= |ctx.keys| <= c.intMax
    requires Recut(x, ctx.keys[a], y, p, x', y')
    requires c.intMin <= p <= c.intMax && c.intMin <= |x.keys| + |y.keys| - p <= c.intMax
    ensures x'.TNode? && y'.TNode? && |x'.kids| == |x'.keys| + 1 && |y'.kids| == |y'.keys| + 1
    ensures TreeOK(c, pages[x.id := IntPage(x'.keys, KidIds(x'.kids))][y.id := IntPage(y'.keys, KidIds(y'.kids))]
                      [ctx.id := SetSep(IntPage(ctx.keys, KidIds(ctx.kids[ctx.idx := t])), a,
                                        (x.keys + [ctx.keys[a]] + y.keys)[p])],
                   s, h + 2 + Depth(ctx.up), leaves)
    ensures s.id == RootId(ctx.up, ctx.id)
  {
    hide Pair, Pending, KidIds, TreeOK, IntPage, SetSep;
    var k := (x.keys + [ctx.keys[a]] + y.keys)[p];
    BorrowInternal(c, pages, ctx.up, ctx.id, ctx.keys, ctx.kids, a, x, y, h, leaves, p, x', y');
    ParentSet(ctx.keys, ctx.kids, ctx.idx, t, a, x, y, x', y', k);
    var q := pages[x.id := IntPage(x'.keys, KidIds(x'.kids))][y.id := IntPage(y'.keys, KidIds(y'.kids))];
    s := FinishLevel(c, q, ctx.up, ctx.id, ctx.keys[..a] + [k] + ctx.keys[a + 1..],
      ctx.kids[..a] + [x', y'] + ctx.kids[a + 2..], h + 1, leaves, |ctx.keys|);
  }

  /** Merging two sibling internal nodes around their separator. */
  lemma {:induction false} MergeInternalPages(
      c: Caps, pages: map<PageId, Page>, ctx: Ctx, t: Tree, h: nat, m: nat, leaves: seq<Tree>, a: nat, x: Tree,
      y: Tree)
    returns (ks: seq<Key>, ts: seq<Tree>)
    requires && CapsOK(c) && ctx.In? && Hole(c, pages, ctx, t, h + 1, m, leaves) && Around(ctx, t, a, x, y)
             && x.TNode? && y.TNode?
    requires c.intMin <= |x.keys| + 1 + |y.keys| <= c.intMax
    ensures |x.kids| == |x.keys| + 1 && |y.kids| == |y.keys| + 1
    ensures ctx.id in pages && pages[ctx.id].Internal?
    ensures Pending(c, (pages - {y.id})[x.id := JoinedPage(x, ctx.keys[a], y)],
                    ctx.up, ctx.id, ks, ts, h + 1, leaves)
    ensures Shrunk(pages[ctx.id], a, ks, ts) && |ks| == |ctx.keys| - 1
  {
    var up, id, keys, kids := ctx.up, ctx.id, ctx.keys, ctx.kids;
    ReadPair(c, pages, ctx, t, h + 1, m, leaves, a);
    MergeInternal(c, pages, up, id, keys, kids, a, x, y, h, leaves);
    var xy := TNode(x.id, x.keys + [keys[a]] + y.keys, x.kids + y.kids);
    KidIdsCat(x.kids, y.kids);
    IntPageJoin(x.keys, KidIds(x.kids), keys[a], y.keys, KidIds(y.kids));
    ks, ts := keys[..a] + [] + keys[a + 1..], kids[..a] + [xy] + kids[a + 2..];
    ParentShrinks(keys, kids, ctx.idx, t, a, x, y, xy);
  }

  // ── Deleting from the leaf ──────────────────────────────────────────

  /** Saving a leaf from which one entry was removed. */
  lemma {:induction false} LeafRemoved(
      c: Caps, pages: map<PageId, Page>, s: Tree, h: nat, ctx: Ctx, t: Tree, key: Key, leaves: seq<Tree>, i: nat)
    returns (t': Tree, ls: seq<Tree>)
    requires TreeOK(c, pages, s, h, leaves) && t.TLeaf? && At(c, pages, ctx, t, 1, key, leaves)
    requires i < |t.entries| && t.entries[i].key == key
    ensures t' == TLeaf(t.id, RemoveAt(t.entries, i)) && t.id in pages && pages[t.id].Leaf?
    ensures Hole(c, pages[t.id := pages[t.id].(entries := t'.entries)], ctx, t', 1, LevelMin(c, ctx, 1) - 1, ls)
    ensures MapOf(Flat(ls)) == MapOf(Flat(leaves)) - {key} && |Flat(ls)| == |Flat(leaves)| - 1
    ensures LevelMin(c, ctx, 1) - 1 <= |t'.entries| <= c.leafMax
  {
    hide Hole, TreeOK, Flat, MapOf, Lo, Hi, CtxLeft, CtxRight, Sorted, AllWithin;
    t' := TLeaf(t.id, RemoveAt(t.entries, i));
    ls := CtxLeft(ctx) + [t'] + CtxRight(ctx);
    LeafFacts(c, pages, ctx, t, LevelMin(c, ctx, 1), leaves);
    RemoveSorted(t.entries, i, Lo(ctx), Hi(ctx));
    LeafEdit(c, pages, ctx, t, LevelMin(c, ctx, 1), leaves, t'.entries, LevelMin(c, ctx, 1) - 1);
    TreeSorted(c, pages, s, h, leaves);
    SidesOf(c, pages, ctx, t, key, leaves);
    RemoveMeans(Flat(CtxLeft(ctx)), t.entries, Flat(CtxRight(ctx)), i);
    FlatAround(CtxLeft(ctx), t', CtxRight(ctx));
  }

  lemma {:induction false} HoleCount(
      c: Caps, pages: map<PageId, Page>, ctx: Ctx, t: Tree, m: int, m': int, ls: seq<Tree>)
    requires t.TLeaf? && Hole(c, pages, ctx, t, 1, m, ls) && m' <= |t.entries|
    ensures Hole(c, pages, ctx, t, 1, m', ls)
  {
    hide Chain, CtxSkel, CtxWF, CtxPages, CtxLeft, CtxRight, Pages, Leaves;
  }

  /** A leaf that still holds its minimum ends the delete. */
  lemma {:induction false} RemovedFits(c: Caps, pages: map<PageId, Page>, ctx: Ctx, t: Tree, ls: seq<Tree>)
    requires t.TLeaf? && Hole(c, pages, ctx, t, 1, LevelMin(c, ctx, 1) - 1, ls)
    requires ctx.Top? || c.leafMin <= |t.entries|
    ensures TreeOK(c, pages, Plug(ctx, t), 1 + Depth(ctx), ls)
    ensures Plug(ctx, t).id == RootId(ctx, t.id) && Leaves(Plug(ctx, t)) == ls
  {
    hide Hole, TreeOK, Plug, Leaves;
    HoleCount(c, pages, ctx, t, LevelMin(c, ctx, 1) - 1, LevelMin(c, ctx, 1), ls);
    Climb(c, pages, ctx, t, 1, ls);
    TreeLeaves(c, pages, Plug(ctx, t), 1 + Depth(ctx), ls);
  }

  /** A node of a tree that rebalances at all has a sibling. */
  lemma {:induction false} LevelHasSibling(
      c: Caps, pages: map<PageId, Page>, ctx: Ctx, t: Tree, h: nat, leaves: seq<Tree>)
    requires CapsOK(c) && 1 <= c.leafMin && ctx.In? && Hole(c, pages, ctx, t, h, MinCount(c, h) - 1, leaves)
    ensures 2 <= |ctx.kids| == |ctx.keys| + 1 && ctx.idx < |ctx.kids|
    ensures ctx.id in pages && pages[ctx.id].Internal? && |pages[ctx.id].seps| == |ctx.keys|
  {
    hide WF, CtxWF, Chain, CtxPages, CtxLeft, CtxRight, KidIds, IntPage;
    LevelCounts(c, pages, ctx, t, h, MinCount(c, h) - 1, leaves);
  }

  /** The leaf t paired with a sibling leaf. */
  lemma {:induction false} SiblingLeaves(
      c: Caps, pages: map<PageId, Page>, ctx: Ctx, t: Tree, leaves: seq<Tree>, a: nat)
    returns (x: Tree, y: Tree)
    requires 1 <= c.leafMin && ctx.In? && t.TLeaf? && Hole(c, pages, ctx, t, 1, c.leafMin - 1, leaves)
    requires (a == ctx.idx || a + 1 == ctx.idx) && a + 1 < |ctx.kids|
    ensures Around(ctx, t, a, x, y) && x.TLeaf? && y.TLeaf?
    ensures a == ctx.idx ==> x == t && c.leafMin <= |y.entries| <= c.leafMax
    ensures a != ctx.idx ==> y == t && c.leafMin <= |x.entries| <= c.leafMax
    ensures x.id in pages && pages[x.id].Leaf? && pages[x.id].entries == x.entries
    ensures y.id in pages && pages[y.id].Leaf? && pages[y.id].entries == y.entries
    ensures x.id != y.id
    ensures ctx.id in pages && pages[ctx.id].Internal? && a < |pages[ctx.id].seps|
    ensures ChildAt(pages[ctx.id], a) == x.id && ChildAt(pages[ctx.id], a + 1) == y.id
  {
    hide Hole, Pair, KidIds, IntPage, ChildAt;
    ReadPair(c, pages, ctx, t, 1, c.leafMin - 1, leaves, a);
    x, y := ctx.kids[ctx.idx := t][a], ctx.kids[ctx.idx := t][a + 1];
    PairKinds(c, pages, ctx, t, 1, c.leafMin - 1, leaves, a, x, y);
    ReadLeaves(c, pages, ctx.up, ctx.id, ctx.keys, ctx.kids, a, x, y, leaves);
  }

  lemma {:induction false} SiblingNodes(
      c: Caps, pages: map<PageId, Page>, ctx: Ctx, t: Tree, h: nat, leaves: seq<Tree>, a: nat)
    returns (x: Tree, y: Tree)
    requires 1 <= h && 1 <= c.intMin && ctx.In? && t.TNode? && Hole(c, pages, ctx, t, h + 1, c.intMin - 1, leaves)
    requires (a == ctx.idx || a + 1 == ctx.idx) && a + 1 < |ctx.kids|
    ensures Around(ctx, t, a, x, y) && x.TNode? && y.TNode?
    ensures a == ctx.idx ==> x == t && c.intMin <= |y.keys| <= c.intMax
    ensures a != ctx.idx ==> y == t && c.intMin <= |x.keys| <= c.intMax
    ensures |x.kids| == |x.keys| + 1 && |y.kids| == |y.keys| + 1
    ensures x.id in pages && pages[x.id] == IntPage(x.keys, KidIds(x.kids))
    ensures y.id in pages && pages[y.id] == IntPage(y.keys, KidIds(y.kids))
    ensures x.id != y.id
    ensures ctx.id in pages && pages[ctx.id].Internal? && a < |pages[ctx.id].seps| && a < |ctx.keys|
    ensures pages[ctx.id].seps[a].key == ctx.keys[a]
    ensures ChildAt(pages[ctx.id], a) == x.id && ChildAt(pages[ctx.id], a + 1) == y.id
  {
    hide Hole, Pair, KidIds, IntPage, ChildAt;
    ReadPair(c, pages, ctx, t, h + 1, c.intMin - 1, leaves, a);
    x, y := ctx.kids[ctx.idx := t][a], ctx.kids[ctx.idx := t][a + 1];
    PairKinds(c, pages, ctx, t, h + 1, c.intMin - 1, leaves, a, x, y);
    SepKey(ctx.keys, KidIds(ctx.kids[ctx.idx := t]), a);
    ReadNodes(c, pages, ctx.up, ctx.id, ctx.keys, ctx.kids, a, x, y, h + 1, leaves);
  }

  lemma {:induction false} SepKey(keys: seq<Key>, ids: seq<PageId>, a: nat)
    requires |ids| == |keys| + 1 && a < |keys|
    ensures IntPage(keys, ids).seps[a].key == keys[a]
  {
  }

  /** Moving the left leaf's last entry over recuts the pair before it. */
  lemma {:induction false} MovedLeft(
      c: Caps, pages: map<PageId, Page>, ctx: Ctx, t: Tree, leaves: seq<Tree>, a: nat, x: Tree, y: Tree)
    requires 1 <= c.leafMin && ctx.In? && Hole(c, pages, ctx, t, 1, c.leafMin - 1, leaves) && Around(ctx, t, a, x, y)
    requires x.TLeaf? && y.TLeaf? && 1 <= |x.entries|
    ensures var es, n := x.entries + y.entries, |x.entries| - 1;
            && es[..n] == x.entries[..n] && es[n] == x.entries[n] && es[n..] == InsertEntry(y.entries, x.entries[n])
  {
    PairSorted(c, pages, ctx, t, leaves, a, x, y);
    PrependOne(x.entries, y.entries);
  }

  lemma {:induction false} PrependOne(xs: seq<LeafEntry>, ys: seq<LeafEntry>)
    requires Sorted(xs + ys) && 1 <= |xs|
    ensures var es, n := xs + ys, |xs| - 1;
            && es[..n] == xs[..n] && es[n] == xs[n] && es[n..] == InsertEntry(ys, xs[n])
  {
    hide LowerBound;
    var es, n := xs + ys, |xs| - 1;
    assert es[n] == xs[n];
    if ys != [] { assert es[n + 1] == ys[0]; }
    assert LowerBound(ys, xs[n].key) == 0;
    assert es[n..] == [xs[n]] + ys;
  }

  lemma {:induction false} MovedRight(
      c: Caps, pages: map<PageId, Page>, ctx: Ctx, t: Tree, leaves: seq<Tree>, a: nat, x: Tree, y: Tree)
    requires 1 <= c.leafMin && ctx.In? && Hole(c, pages, ctx, t, 1, c.leafMin - 1, leaves) && Around(ctx, t, a, x, y)
    requires x.TLeaf? && y.TLeaf? && 2 <= |y.entries|
    ensures var es, n := x.entries + y.entries, |x.entries| + 1;
            && es[..n] == InsertEntry(x.entries, y.entries[0]) && es[n] == y.entries[1] && es[n..] == y.entries[1..]
  {
    hide Hole, Around, InsertEntry;
    PairSorted(c, pages, ctx, t, leaves, a, x, y);
    AppendOne(x.entries, y.entries);
    var es, n := x.entries + y.entries, |x.entries| + 1;
    assert es[..n] == x.entries + [y.entries[0]];
  }

  lemma {:induction false} AppendOne(xs: seq<LeafEntry>, ys: seq<LeafEntry>)
    requires Sorted(xs + ys) && 1 <= |ys|
    ensures InsertEntry(xs, ys[0]) == xs + [ys[0]]
  {
    var es := xs + ys;
    assert es[|xs|] == ys[0];
    assert forall i :: 0 <= i < |xs| ==> es[i] == xs[i];
    assert LowerBound(xs, ys[0].key) == |xs|;
  }

  /** Entries appended in order land at the end. */
  lemma {:induction false} AppendSorted(xs: seq<LeafEntry>, ys: seq<LeafEntry>, i: nat)
    requires Sorted(xs + ys) && i < |ys|
    ensures InsertEntry(xs + ys[..i], ys[i]) == xs + ys[..i + 1]
  {
    var head, tail := xs + ys[..i], ys[i..];
    assert head + tail == xs + ys;
    AppendOne(head, tail);
    assert ys[..i + 1] == ys[..i] + [ys[i]];
  }

  lemma {:induction false} PairSorted(
      c: Caps, pages: map<PageId, Page>, ctx: Ctx, t: Tree, leaves: seq<Tree>, a: nat, x: Tree, y: Tree)
    requires 1 <= c.leafMin && ctx.In? && Hole(c, pages, ctx, t, 1, c.leafMin - 1, leaves) && Around(ctx, t, a, x, y)
    requires x.TLeaf? && y.TLeaf?
    ensures Sorted(x.entries + y.entries)
  {
    ReadPair(c, pages, ctx, t, 1, c.leafMin - 1, leaves, a);
    hide Hole, Around, CtxWF, Chain, CtxSkel, SkelAll, PairRest, PairLeft, PairRight, IntPage, KidIds;
    JoinEntries(c, x, y, ctx.keys[a], LoAt(ctx.keys, a, Lo(ctx.up)), HiAt(ctx.keys, a + 1, Hi(ctx.up)));
  }

  /** What merging two sibling leaves reads. */
  lemma {:induction false} MergeReads(
      c: Caps, pages: map<PageId, Page>, ctx: Ctx, t: Tree, leaves: seq<Tree>, a: nat, x: Tree, y: Tree)
    requires 1 <= c.leafMin && ctx.In? && Hole(c, pages, ctx, t, 1, c.leafMin - 1, leaves) && Around(ctx, t, a, x, y)
    requires x.TLeaf? && y.TLeaf?
    ensures Sorted(x.entries + y.entries) && 0 !in pages
    ensures y.id in pages && pages[y.id].Leaf?
    ensures var next := pages[y.id].next;
            next != x.id && next != y.id && (next != 0 ==> next in pages && pages[next].Leaf?)
  {
    PairSorted(c, pages, ctx, t, leaves, a, x, y);
    ReadPair(c, pages, ctx, t, 1, c.leafMin - 1, leaves, a);
    hide Pair, Sorted, Around;
    ReadLeaves(c, pages, ctx.up, ctx.id, ctx.keys, ctx.kids, a, x, y, leaves);
  }

  /** The rows the parent keeps after a merge. */
  lemma {:induction false} ShrunkParts(
      c: Caps, pages: map<PageId, Page>, up: Ctx, id: PageId, page: Page, j: nat, ks: seq<Key>, ts: seq<Tree>,
      h: nat, leaves: seq<Tree>)
    requires j > 0 && page.Internal? && Shrunk(page, j - 1, ks, ts) && Pending(c, pages, up, id, ks, ts, h, leaves)
    ensures j < |IdsOf(page)| && j - 1 < |KeysOf(page)| && |ts| == |ks| + 1
    ensures KidIds(ts) == RemoveAt(IdsOf(page), j) && ks == RemoveAt(KeysOf(page), j - 1)
    ensures id in pages && pages[id].Internal? && 1 <= h
  {
    hide CtxWF, Chain, CtxSkel, SkelAll, CtxPages, CtxLeft, CtxRight;
  }

  lemma {:induction false} CollapseSaved(
      c: Caps, pages: map<PageId, Page>, id: PageId, ks: seq<Key>, ts: seq<Tree>, h: nat, leaves: seq<Tree>)
    requires CapsOK(c) && 1 <= c.leafMin && Pending(c, pages, Top, id, ks, ts, h, leaves) && |ks| == 0
    ensures |ts| == 1 && IntPage(ks, KidIds(ts)).rightChild == ts[0].id && 1 <= h
    ensures TreeOK(c, pages - {id}, ts[0], h, leaves)
  {
    assert ks == [] && |ts| == 1;
    assert ts == [ts[0]];
    CollapseRoot(c, pages, id, ts[0], h, leaves);
  }

  /** The joined row cut before the left node's last separator. */
  lemma {:induction false} JoinedCutLeft(l: Page, k: Key, r: Page)
    requires l.Internal? && r.Internal? && 1 <= |l.seps|
    ensures var j, n := JoinPages(l, k, r), |l.seps| - 1;
            && n < |j.seps| && j.seps[n] == l.seps[n] && j.seps[..n] == l.seps[..n] && j.rightChild == r.rightChild
            && j.seps[n + 1..] == [InternalEntry(k, l.rightChild)] + r.seps
  {
  }

  /** The joined row cut after the right node's first separator. */
  lemma {:induction false} JoinedCutRight(l: Page, k: Key, r: Page)
    requires l.Internal? && r.Internal? && 1 <= |r.seps|
    ensures var j, n := JoinPages(l, k, r), |l.seps| + 1;
            && n < |j.seps| && j.seps[n] == r.seps[0] && j.rightChild == r.rightChild
            && j.seps[..n] == l.seps + [InternalEntry(k, l.rightChild)] && j.seps[n + 1..] == r.seps[1..]
  {
  }
}
