/** What each page-level step of an insert or a delete does to the tree the
    pages stand for. */
module BTreeSteps {
  import opened Prelude
  import opened BTreeShape

  // ── Leaf pages ──────────────────────────────────────────────────────

  /** Rewriting one leaf's entries leaves the list linked. */
  lemma {:induction false} ChainSet(
      p: map<PageId, Page>, left: seq<Tree>, t: Tree, right: seq<Tree>, es: seq<LeafEntry>)
    requires Chain(p, left + [t] + right)
    ensures t.TLeaf? && t.id in p && p[t.id] == Leaf(t.entries, IdOr0(right, 0), IdOr0(left, |left| - 1))
    ensures Chain(p[t.id := Leaf(es, IdOr0(right, 0), IdOr0(left, |left| - 1))], left + [TLeaf(t.id, es)] + right)
  {
    var q := p[t.id := Leaf(es, IdOr0(right, 0), IdOr0(left, |left| - 1))];
    var ts, us := left + [t] + right, left + [TLeaf(t.id, es)] + right;
    assert Linked(p, ts, |left|);
    forall i | 0 <= i < |us| ensures Linked(q, us, i) {
      assert Linked(p, ts, i);
    }
    assert forall i :: 0 <= i < |ts| ==> us[i].id == ts[i].id;
  }

  /** The pages after leaf t is replaced by l, on the same page, and r, on a new
      page, with the neighbour to the right relinked. */
  function SplitPages(p: map<PageId, Page>, prev: PageId, l: Tree, r: Tree, next: PageId): map<PageId, Page>
    requires l.TLeaf? && r.TLeaf?
  {
    var q := p[l.id := Leaf(l.entries, r.id, prev)][r.id := Leaf(r.entries, next, l.id)];
    if next in q && q[next].Leaf? then q[next := q[next].(prev := r.id)] else q
  }

  lemma {:induction false} ChainSplit(
      p: map<PageId, Page>, left: seq<Tree>, t: Tree, right: seq<Tree>, l: Tree, r: Tree)
    requires Chain(p, left + [t] + right) && 0 !in p
    requires l.TLeaf? && r.TLeaf? && l.id == t.id && r.id !in p && r.id != 0
    ensures Chain(SplitPages(p, IdOr0(left, |left| - 1), l, r, IdOr0(right, 0)), left + [l, r] + right)
  {
    var q := SplitPages(p, IdOr0(left, |left| - 1), l, r, IdOr0(right, 0));
    var ts, us := left + [t] + right, left + [l, r] + right;
    var n := |left|;
    assert Linked(p, ts, n);
    if right != [] { assert Linked(p, ts, n + 1); }
    forall i | 0 <= i < |us| ensures Linked(q, us, i) {
      if i < n {
        assert Linked(p, ts, i);
      } else if n + 2 <= i {
        assert Linked(p, ts, i - 1);
      }
    }
    forall i, j | 0 <= i < j < |us| ensures us[i].id != us[j].id {
      var i', j' := if i <= n then i else i - 1, if j <= n then j else j - 1;
      assert Linked(p, ts, i') && Linked(p, ts, j');
    }
  }

  /** The page of the leaf a descent has reached. */
  lemma {:induction false} LeafPage(c: Caps, pages: map<PageId, Page>, ctx: Ctx, t: Tree, m: int, leaves: seq<Tree>)
    requires t.TLeaf? && Hole(c, pages, ctx, t, 1, m, leaves)
    ensures t.id in pages && t.id != 0 && t.id != META_PAGE_ID
    ensures pages[t.id] == Leaf(t.entries, IdOr0(CtxRight(ctx), 0), IdOr0(CtxLeft(ctx), |CtxLeft(ctx)| - 1))
  {
    hide WF, CtxWF, CtxSkel, CtxPages, CtxLeft, CtxRight;
    ChainSet(pages, CtxLeft(ctx), t, CtxRight(ctx), t.entries);
    assert multiset(pages.Keys)[META_PAGE_ID] <= 1;
  }

  /** Saving new entries into the leaf a descent has reached. */
  lemma {:induction false} LeafEdit(
      c: Caps, pages: map<PageId, Page>, ctx: Ctx, t: Tree, m: int, leaves: seq<Tree>, es: seq<LeafEntry>, m': int)
    requires t.TLeaf? && Hole(c, pages, ctx, t, 1, m, leaves)
    requires WF(c, TLeaf(t.id, es), 1, Lo(ctx), Hi(ctx), m')
    ensures t.id in pages && pages[t.id].Leaf?
    ensures Hole(c, pages[t.id := pages[t.id].(entries := es)], ctx, TLeaf(t.id, es), 1, m',
                 CtxLeft(ctx) + [TLeaf(t.id, es)] + CtxRight(ctx))
  {
    hide WF, CtxWF, CtxSkel, CtxPages, CtxLeft, CtxRight, Chain;
    ChainSet(pages, CtxLeft(ctx), t, CtxRight(ctx), es);
    var q := pages[t.id := pages[t.id].(entries := es)];
    assert q.Keys == pages.Keys;
    CtxSkelFrame(pages, q, ctx, t.id);
  }

  lemma {:induction false} LeafHalves(c: Caps, id: PageId, rid: PageId, es: seq<LeafEntry>, lo: Bound, hi: Bound)
    requires CapsOK(c) && |es| == c.leafMax + 1 && Sorted(es) && AllWithin(es, lo, hi)
    ensures var mid := |es| / 2;
            && Lt(lo, Fin(es[mid].key)) && Lt(Fin(es[mid].key), hi)
            && WF(c, TLeaf(id, es[..mid]), 1, lo, Fin(es[mid].key), c.leafMin)
            && WF(c, TLeaf(rid, es[mid..]), 1, Fin(es[mid].key), hi, c.leafMin)
  {
    var mid := |es| / 2;
    assert Within(es[0].key, lo, hi) && es[0].key < es[mid].key;
    assert forall i :: 0 <= i < |es[mid..]| ==> es[mid..][i] == es[mid + i];
  }

  /** Splitting the leaf a descent has reached: es is the leaf's entries with the
      new one, cut in the middle. */
  lemma {:induction false} LeafSplit(c: Caps, pages: map<PageId, Page>, ctx: Ctx, t: Tree, m: int, leaves: seq<Tree>,
                  es: seq<LeafEntry>, rid: PageId)
    requires CapsOK(c) && t.TLeaf? && Hole(c, pages, ctx, t, 1, m, leaves)
    requires |es| == c.leafMax + 1 && Sorted(es) && AllWithin(es, Lo(ctx), Hi(ctx))
    requires rid !in pages && rid != 0
    ensures t.id in pages && pages[t.id].Leaf?
    ensures var mid := |es| / 2;
            var l, r := TLeaf(t.id, es[..mid]), TLeaf(rid, es[mid..]);
            Hole2(c, SplitPages(pages, pages[t.id].prev, l, r, pages[t.id].next), ctx, l, es[mid].key, r, 1,
                  CtxLeft(ctx) + [l, r] + CtxRight(ctx))
  {
    hide WF, CtxWF, CtxSkel, CtxPages, CtxLeft, CtxRight, Chain, Lo, Hi, Lt, Sorted, AllWithin, SplitPages;
    var mid := |es| / 2;
    var l, r := TLeaf(t.id, es[..mid]), TLeaf(rid, es[mid..]);
    LeafHalves(c, t.id, rid, es, Lo(ctx), Hi(ctx));
    LeafPage(c, pages, ctx, t, m, leaves);
    SplitFrame(pages, ctx, t, l, r);
    ChainSplit(pages, CtxLeft(ctx), t, CtxRight(ctx), l, r);
    CatPair(CtxLeft(ctx), l, r, CtxRight(ctx));
    assert Leaves(l) == [l] && Leaves(r) == [r];
  }

  lemma {:induction false} SplitFrame(pages: map<PageId, Page>, ctx: Ctx, t: Tree, l: Tree, r: Tree)
    requires t.id in pages && pages[t.id].Leaf? && l.TLeaf? && r.TLeaf? && l.id == t.id && r.id !in pages && r.id != 0
    requires CtxSkel(pages, ctx, t.id) && Accounts(pages, CtxPages(ctx) + multiset{t.id})
    ensures var q := SplitPages(pages, pages[t.id].prev, l, r, pages[t.id].next);
            CtxSkel(q, ctx, t.id) && Accounts(q, CtxPages(ctx) + multiset{l.id} + multiset{r.id})
  {
    hide CtxPages, CtxSkel;
    var q := SplitPages(pages, pages[t.id].prev, l, r, pages[t.id].next);
    assert q.Keys == pages.Keys + {r.id};
    assert multiset(q.Keys) == multiset(pages.Keys) + multiset{r.id};
    CtxSkelFrame(pages, q, ctx, t.id);
  }

  // ── Internal pages: insert ──────────────────────────────────────────

  /** Putting both halves of a split child into the parent. */
  lemma {:induction false} Grow(
      c: Caps, pages: map<PageId, Page>, ctx: Ctx, l: Tree, k: Key, r: Tree, h: nat, leaves: seq<Tree>)
    requires ctx.In? && Hole2(c, pages, ctx, l, k, r, h, leaves)
    ensures ctx.idx < |ctx.kids| == |ctx.keys| + 1
    ensures Pending(c, pages, ctx.up, ctx.id, ctx.keys[..ctx.idx] + [k] + ctx.keys[ctx.idx..],
                    ctx.kids[..ctx.idx] + [l, r] + ctx.kids[ctx.idx + 1..], h, leaves)
  {
    hide WF, NodeOK, CtxWF, PagesAll, LeavesAll, CtxPages, CtxLeft, CtxRight, Chain, Lo, Hi, Skel;
    var In(up, id, keys, kids, idx) := ctx;
    var ts := kids[..idx] + [l, r] + kids[idx + 1..];
    GrowWF(c, ctx, l, k, r, h);
    GrowLists(ctx, l, r);
    forall i | 0 <= i < |ts| ensures Skel(pages, ts[i]) {
      if i < idx {
        assert ts[i] == kids[..idx][i];
      } else if idx + 2 <= i {
        assert ts[i] == kids[idx + 1..][i - idx - 2];
      }
    }
  }

  lemma {:induction false} GrowWF(c: Caps, ctx: Ctx, l: Tree, k: Key, r: Tree, h: nat)
    requires ctx.In? && CtxWF(c, ctx, h) && Lt(Lo(ctx), Fin(k)) && Lt(Fin(k), Hi(ctx))
    requires WF(c, l, h, Lo(ctx), Fin(k), MinCount(c, h)) && WF(c, r, h, Fin(k), Hi(ctx), MinCount(c, h))
    ensures ctx.idx < |ctx.kids| == |ctx.keys| + 1 && CtxWF(c, ctx.up, h + 1) && 1 <= h
    ensures NodeOK(c, ctx.keys[..ctx.idx] + [k] + ctx.keys[ctx.idx..],
                   ctx.kids[..ctx.idx] + [l, r] + ctx.kids[ctx.idx + 1..], h, Lo(ctx.up), Hi(ctx.up))
  {
    var In(up, id, keys, kids, idx) := ctx;
    assert NodeOK(c, keys, kids, h, Lo(up), Hi(up));
    assert NodeOK(c, [k], [l, r], h, LoAt(keys, idx, Lo(up)), HiAt(keys, idx, Hi(up)));
    Splice(c, keys, kids, h, Lo(up), Hi(up), idx, idx + 1, [k], [l, r]);
  }

  lemma {:induction false} GrowLists(ctx: Ctx, l: Tree, r: Tree)
    requires ctx.In? && ctx.idx < |ctx.kids|
    ensures var ts := ctx.kids[..ctx.idx] + [l, r] + ctx.kids[ctx.idx + 1..];
            && CtxPages(ctx) + Pages(l) + Pages(r) == CtxPages(ctx.up) + multiset{ctx.id} + PagesAll(ts)
            && CtxLeft(ctx) + Leaves(l) + Leaves(r) + CtxRight(ctx)
              == CtxLeft(ctx.up) + LeavesAll(ts) + CtxRight(ctx.up)
  {
    hide Pages, PagesAll, Leaves, LeavesAll;
    AllSplice(ctx.kids, ctx.idx, [l, r], ctx.idx + 1);
    AllTwo(l, r);
    var a, b := LeavesAll(ctx.kids[..ctx.idx]), LeavesAll(ctx.kids[ctx.idx + 1..]);
    assert CtxLeft(ctx) + Leaves(l) + Leaves(r) == CtxLeft(ctx) + (Leaves(l) + Leaves(r));
    Cat5(CtxLeft(ctx.up), a, Leaves(l) + Leaves(r), b, CtxRight(ctx.up));
  }

  /** The halves of an overfull internal node around its median separator. */
  ghost predicate Halves(keys: seq<Key>, kids: seq<Tree>, l: Tree, r: Tree) {
    && |kids| == |keys| + 1 && l.TNode? && r.TNode?
    && var mid := |keys| / 2;
       && mid < |keys|
       && l.keys == keys[..mid] && l.kids == kids[..mid + 1] && r.keys == keys[mid + 1..] && r.kids == kids[mid + 1..]
  }

  /** Splitting an overfull internal node: the median separator moves up. */
  lemma {:induction false} InternalSplit(c: Caps, pages: map<PageId, Page>, up: Ctx, keys: seq<Key>, kids: seq<Tree>,
                      h: nat, leaves: seq<Tree>, l: Tree, r: Tree)
    requires CapsOK(c) && Pending(c, pages, up, l.id, keys, kids, h, leaves)
    requires |keys| == c.intMax + 1 && r.id !in pages && r.id != 0 && Halves(keys, kids, l, r)
    ensures |l.kids| == |l.keys| + 1 && |r.kids| == |r.keys| + 1
    ensures Hole2(c, pages[l.id := IntPage(l.keys, KidIds(l.kids))][r.id := IntPage(r.keys, KidIds(r.kids))],
                  up, l, keys[|keys| / 2], r, h + 1, leaves)
  {
    hide NodeOK, WF, CtxWF, PagesAll, LeavesAll, CtxPages, CtxLeft, CtxRight, CtxSkel, Lo, Hi, Lt, Chain, KidIds,
      IntPage;
    var lp, rp := IntPage(l.keys, KidIds(l.kids)), IntPage(r.keys, KidIds(r.kids));
    var used := CtxPages(up) + multiset{l.id} + PagesAll(kids);
    SplitWF(c, keys, kids, h, Lo(up), Hi(up), l, r);
    SplitLists(up, l, r, kids, |keys| / 2 + 1);
    WriteFrame(pages, l.id, lp, up, kids, leaves);
    FreshFrame(pages[l.id := lp], r.id, rp, up, l.id, kids, used, leaves);
    SkelSlice(pages[l.id := lp][r.id := rp], kids, |keys| / 2 + 1);
  }

  lemma {:induction false} SkelSlice(pages: map<PageId, Page>, ts: seq<Tree>, n: nat)
    requires n <= |ts| && SkelAll(pages, ts)
    ensures SkelAll(pages, ts[..n]) && SkelAll(pages, ts[n..])
  {
    hide Skel;
    var tail := ts[n..];
    assert forall i :: 0 <= i < |tail| ==> tail[i] == ts[n + i];
  }

  lemma {:induction false} SplitWF(
      c: Caps, keys: seq<Key>, kids: seq<Tree>, h: nat, lo: Bound, hi: Bound, l: Tree, r: Tree)
    requires && CapsOK(c) && |keys| == c.intMax + 1 && NodeOK(c, keys, kids, h, lo, hi) && 1 <= h
             && Halves(keys, kids, l, r)
    ensures var k := keys[|keys| / 2];
            && Lt(lo, Fin(k)) && Lt(Fin(k), hi)
            && WF(c, l, h + 1, lo, Fin(k), c.intMin) && WF(c, r, h + 1, Fin(k), hi, c.intMin)
  {
    Cut(c, keys, kids, h, lo, hi, |keys| / 2);
  }

  lemma {:induction false} SplitLists(up: Ctx, l: Tree, r: Tree, kids: seq<Tree>, n: nat)
    requires l.TNode? && r.TNode? && n <= |kids| && l.kids == kids[..n] && r.kids == kids[n..]
    ensures CtxPages(up) + Pages(l) + Pages(r) == CtxPages(up) + multiset{l.id} + PagesAll(kids) + multiset{r.id}
    ensures CtxLeft(up) + Leaves(l) + Leaves(r) + CtxRight(up) == CtxLeft(up) + LeavesAll(kids) + CtxRight(up)
  {
    hide PagesAll, LeavesAll, CtxPages, CtxLeft, CtxRight;
    assert kids == l.kids + r.kids;
    AllCat(l.kids, r.kids);
    Assoc(CtxLeft(up), LeavesAll(l.kids), LeavesAll(r.kids));
  }

  /** Writing a freshly allocated page disturbs nothing. */
  lemma {:induction false} FreshFrame(
      pages: map<PageId, Page>, rid: PageId, page: Page, ctx: Ctx, child: PageId, ts: seq<Tree>,
      used: multiset<PageId>, leaves: seq<Tree>)
    requires rid !in pages && rid != 0 && Accounts(pages, used)
    requires CtxSkel(pages, ctx, child) && SkelAll(pages, ts) && Chain(pages, leaves)
    ensures Accounts(pages[rid := page], used + multiset{rid})
    ensures && CtxSkel(pages[rid := page], ctx, child) && SkelAll(pages[rid := page], ts)
            && Chain(pages[rid := page], leaves)
  {
    hide CtxSkel, SkelAll, Chain;
    var q := pages[rid := page];
    assert multiset(q.Keys) == multiset(pages.Keys) + multiset{rid};
    CtxSkelFrame(pages, q, ctx, child);
    SkelAllFrame(pages, q, ts);
    ChainFrame(pages, q, leaves);
  }

  /** A split that reaches the root grows the tree by one level. */
  lemma {:induction false} GrowRoot(
      c: Caps, pages: map<PageId, Page>, l: Tree, k: Key, r: Tree, h: nat, leaves: seq<Tree>, nid: PageId)
    requires CapsOK(c) && Hole2(c, pages, Top, l, k, r, h, leaves) && nid !in pages && nid != 0
    ensures TreeOK(c, pages[nid := IntPage([k], [l.id, r.id])], TNode(nid, [k], [l, r]), h + 1, leaves)
  {
    hide WF, NodeOK, CtxWF, PagesAll, LeavesAll, Chain, Skel, KidIds, IntPage;
    var t := TNode(nid, [k], [l, r]);
    RootWF(c, l, k, r, h, nid);
    var q := pages[nid := IntPage([k], [l.id, r.id])];
    AllTwo(l, r);
    assert SkelAll(pages, [l, r]);
    FreshFrame(pages, nid, IntPage([k], [l.id, r.id]), Top, 0, [l, r], Pages(l) + Pages(r), leaves);
    GrowRootSkel(q, t, l, k, r);
    CatEmpty(Leaves(l));
    CatEmpty(Leaves(l) + Leaves(r));
  }

  lemma {:induction false} RootWF(c: Caps, l: Tree, k: Key, r: Tree, h: nat, nid: PageId)
    requires CapsOK(c)
    requires WF(c, l, h, NegInf, Fin(k), MinCount(c, h)) && WF(c, r, h, Fin(k), PosInf, MinCount(c, h))
    ensures 1 <= h && WF(c, TNode(nid, [k], [l, r]), h + 1, NegInf, PosInf, 1)
  {
  }

  lemma {:induction false} GrowRootSkel(q: map<PageId, Page>, t: Tree, l: Tree, k: Key, r: Tree)
    requires t == TNode(t.id, [k], [l, r]) && t.id in q && q[t.id] == IntPage([k], [l.id, r.id])
    requires SkelAll(q, [l, r])
    ensures Skel(q, t)
  {
    assert KidIds([l, r]) == [l.id, r.id];
  }

  // ── Two siblings: delete ────────────────────────────────────────────

  /** Two adjacent children x and y of the node on page id, in place of its
      children a and a + 1; each may hold too few. */
  ghost predicate Pair(c: Caps, pages: map<PageId, Page>, up: Ctx, id: PageId, keys: seq<Key>, kids: seq<Tree>,
                       a: nat, x: Tree, y: Tree, h: nat, leaves: seq<Tree>) {
    && a + 1 < |kids| == |keys| + 1 && 1 <= h
    && Accounts(pages, PairRest(up, id, kids, a) + Pages(x) + Pages(y))
    && id in pages && pages[id] == IntPage(keys, KidIds(kids[a := x][a + 1 := y]))
    && CtxSkel(pages, up, id) && SkelAll(pages, kids[..a]) && SkelAll(pages, kids[a + 2..])
    && Skel(pages, x) && Skel(pages, y)
    && CtxWF(c, up, h + 1) && NodeOK(c, keys, kids, h, Lo(up), Hi(up))
    && WF(c, x, h, LoAt(keys, a, Lo(up)), Fin(keys[a]), 0)
    && WF(c, y, h, Fin(keys[a]), HiAt(keys, a + 1, Hi(up)), 0)
    && PairLeft(up, kids, a) + Leaves(x) + Leaves(y) + PairRight(up, kids, a) == leaves
    && Chain(pages, leaves)
  }

  /** Everything but the pair: its pages and the leaves on either side. */
  ghost function PairRest(up: Ctx, id: PageId, kids: seq<Tree>, a: nat): multiset<PageId>
    requires a + 1 < |kids|
  {
    CtxPages(up) + multiset{id} + PagesAll(kids[..a]) + PagesAll(kids[a + 2..])
  }

  ghost function PairLeft(up: Ctx, kids: seq<Tree>, a: nat): seq<Tree>
    requires a + 1 < |kids|
  {
    CtxLeft(up) + LeavesAll(kids[..a])
  }

  ghost function PairRight(up: Ctx, kids: seq<Tree>, a: nat): seq<Tree>
    requires a + 1 < |kids|
  {
    LeavesAll(kids[a + 2..]) + CtxRight(up)
  }

  /** The underfull subtree t paired with its left or its right sibling. */
  lemma {:induction false} PairUp(
      c: Caps, pages: map<PageId, Page>, ctx: Ctx, t: Tree, h: nat, m: nat, leaves: seq<Tree>, a: nat)
    requires ctx.In? && Hole(c, pages, ctx, t, h, m, leaves)
    requires (a == ctx.idx || a + 1 == ctx.idx) && a + 1 < |ctx.kids|
    ensures var kids := ctx.kids[ctx.idx := t];
            Pair(c, pages, ctx.up, ctx.id, ctx.keys, ctx.kids, a, kids[a], kids[a + 1], h, leaves)
  {
    hide WF, CtxWF, NodeOK, PagesAll, LeavesAll, Pages, Leaves, CtxPages, CtxLeft, CtxRight, CtxSkel, Chain, Lo, Hi,
      Skel, LoAt, HiAt;
    var kids := ctx.kids[ctx.idx := t];
    PairWF(c, ctx, t, h, m, a);
    PairLists(ctx, t, a);
    LevelSkel(pages, ctx, t);
    PairSkel(pages, ctx, t, a);
  }

  lemma {:induction false} PairWF(c: Caps, ctx: Ctx, t: Tree, h: nat, m: nat, a: nat)
    requires ctx.In? && CtxWF(c, ctx, h) && WF(c, t, h, Lo(ctx), Hi(ctx), m)
    requires (a == ctx.idx || a + 1 == ctx.idx) && a + 1 < |ctx.kids|
    ensures ctx.idx < |ctx.kids| == |ctx.keys| + 1 && 1 <= h && CtxWF(c, ctx.up, h + 1)
    ensures NodeOK(c, ctx.keys, ctx.kids, h, Lo(ctx.up), Hi(ctx.up))
    ensures var kids := ctx.kids[ctx.idx := t];
            && WF(c, kids[a], h, LoAt(ctx.keys, a, Lo(ctx.up)), Fin(ctx.keys[a]), 0)
            && WF(c, kids[a + 1], h, Fin(ctx.keys[a]), HiAt(ctx.keys, a + 1, Hi(ctx.up)), 0)
  {
    assert NodeOK(c, ctx.keys, ctx.kids, h, Lo(ctx.up), Hi(ctx.up));
    var kids := ctx.kids[ctx.idx := t];
    WFZero(c, t, h, Lo(ctx), Hi(ctx), m);
    forall i | 0 <= i < |ctx.kids| ensures WF(c, ctx.kids[i], h, LoAt(ctx.keys, i, Lo(ctx.up)),
      HiAt(ctx.keys, i, Hi(ctx.up)), 0) {
      WFZero(c, ctx.kids[i], h, LoAt(ctx.keys, i, Lo(ctx.up)), HiAt(ctx.keys, i, Hi(ctx.up)), MinCount(c, h));
    }
  }

  lemma {:induction false} WFZero(c: Caps, t: Tree, h: nat, lo: Bound, hi: Bound, m: nat)
    requires WF(c, t, h, lo, hi, m)
    ensures WF(c, t, h, lo, hi, 0)
  {
  }

  lemma {:induction false} PairLists(ctx: Ctx, t: Tree, a: nat)
    requires ctx.In? && ctx.idx < |ctx.kids| && (a == ctx.idx || a + 1 == ctx.idx) && a + 1 < |ctx.kids|
    ensures var kids := ctx.kids[ctx.idx := t];
            && CtxPages(ctx) + Pages(t) == PairRest(ctx.up, ctx.id, ctx.kids, a) + Pages(kids[a]) + Pages(kids[a + 1])
            && CtxLeft(ctx) + Leaves(t) + CtxRight(ctx)
               == PairLeft(ctx.up, ctx.kids, a) + Leaves(kids[a]) + Leaves(kids[a + 1]) + PairRight(ctx.up, ctx.kids, a)
  {
    hide Pages, PagesAll, Leaves, LeavesAll, CtxPages, CtxLeft, CtxRight;
    var kids := ctx.kids[ctx.idx := t];
    LevelPages(ctx, t);
    LevelLeaves(ctx, t);
    ListsOfPair(kids, a);
    assert kids[..a] == ctx.kids[..a] && kids[a + 2..] == ctx.kids[a + 2..];
    Cat6(CtxLeft(ctx.up), LeavesAll(kids[..a]), Leaves(kids[a]), Leaves(kids[a + 1]), LeavesAll(kids[a + 2..]),
      CtxRight(ctx.up));
  }

  lemma {:induction false} ListsOfPair(ts: seq<Tree>, a: nat)
    requires a + 1 < |ts|
    ensures PagesAll(ts) == PagesAll(ts[..a]) + Pages(ts[a]) + Pages(ts[a + 1]) + PagesAll(ts[a + 2..])
    ensures LeavesAll(ts) == LeavesAll(ts[..a]) + (Leaves(ts[a]) + Leaves(ts[a + 1])) + LeavesAll(ts[a + 2..])
  {
    hide Pages, PagesAll, Leaves, LeavesAll;
    var mid := [ts[a], ts[a + 1]];
    AllSplice(ts, a, mid, a + 2);
    AllTwo(ts[a], ts[a + 1]);
    TwoInList(ts, a);
  }

  lemma {:induction false} TwoInList<T>(ts: seq<T>, a: nat)
    requires a + 1 < |ts|
    ensures ts[..a] + [ts[a], ts[a + 1]] + ts[a + 2..] == ts
  {
  }

  lemma {:induction false} PairSkel(pages: map<PageId, Page>, ctx: Ctx, t: Tree, a: nat)
    requires && ctx.In? && ctx.idx < |ctx.kids| == |ctx.keys| + 1 && (a == ctx.idx || a + 1 == ctx.idx)
             && a + 1 < |ctx.kids|
    requires Skel(pages, TNode(ctx.id, ctx.keys, ctx.kids[ctx.idx := t]))
    ensures var kids := ctx.kids[ctx.idx := t];
            ctx.id in pages && pages[ctx.id] == IntPage(ctx.keys, KidIds(ctx.kids[a := kids[a]][a + 1 := kids[a + 1]]))
    ensures SkelAll(pages, ctx.kids[..a]) && SkelAll(pages, ctx.kids[a + 2..])
    ensures var kids := ctx.kids[ctx.idx := t]; Skel(pages, kids[a]) && Skel(pages, kids[a + 1])
  {
    var kids := ctx.kids[ctx.idx := t];
    assert kids == ctx.kids[a := kids[a]][a + 1 := kids[a + 1]];
    assert SkelAll(pages, kids);
    SkelSlice(pages, kids, a);
    SkelSlice(pages, kids, a + 2);
    assert kids[..a] == ctx.kids[..a] && kids[a + 2..] == ctx.kids[a + 2..];
  }

  /** Nothing outside the pages in v is touched, so what uses only u is kept. */
  lemma {:induction false} OnceFrame(
      pages: map<PageId, Page>, q: map<PageId, Page>, u: multiset<PageId>, v: multiset<PageId>)
    requires Accounts(pages, u + v)
    requires forall id :: id in pages && id !in v ==> id in q && q[id] == pages[id]
    ensures Keeps(pages, q, u)
  {
    forall id | id in u && id in pages ensures id in q && q[id] == pages[id] {
      assert multiset(pages.Keys)[id] == 1;
    }
  }

  /** The pair has been rebuilt as mid with separators midKeys; the parent is
      ready to be written. */
  lemma {:induction false} PairDone(
      c: Caps, pages: map<PageId, Page>, up: Ctx, id: PageId, keys: seq<Key>, kids: seq<Tree>, a: nat, x: Tree,
      y: Tree, h: nat, leaves: seq<Tree>, q: map<PageId, Page>, midKeys: seq<Key>, mid: seq<Tree>,
      leaves': seq<Tree>)
    requires Pair(c, pages, up, id, keys, kids, a, x, y, h, leaves)
    requires Keeps(pages, q, PairRest(up, id, kids, a))
    requires Accounts(q, PairRest(up, id, kids, a) + PagesAll(mid))
    requires SkelAll(q, mid)
    requires NodeOK(c, midKeys, mid, h, LoAt(keys, a, Lo(up)), HiAt(keys, a + 1, Hi(up)))
    requires PairLeft(up, kids, a) + LeavesAll(mid) + PairRight(up, kids, a) == leaves' && Chain(q, leaves')
    ensures Pending(c, q, up, id, keys[..a] + midKeys + keys[a + 1..], kids[..a] + mid + kids[a + 2..], h, leaves')
  {
    hide WF, CtxWF, NodeOK, PagesAll, LeavesAll, CtxPages, CtxLeft, CtxRight, Chain, Lo, Hi, Skel, LoAt, HiAt;
    var ts := kids[..a] + mid + kids[a + 2..];
    Splice(c, keys, kids, h, Lo(up), Hi(up), a, a + 2, midKeys, mid);
    AllSplice(kids, a, mid, a + 2);
    assert CtxPages(up) + multiset{id} + PagesAll(ts) == PairRest(up, id, kids, a) + PagesAll(mid);
    Cat5(CtxLeft(up), LeavesAll(kids[..a]), LeavesAll(mid), LeavesAll(kids[a + 2..]), CtxRight(up));
    assert id in PairRest(up, id, kids, a);
    CtxSkelFrame(pages, q, up, id);
    SkelAllFrame(pages, q, kids[..a]);
    SkelAllFrame(pages, q, kids[a + 2..]);
    SkelThree(q, kids[..a], mid, kids[a + 2..]);
  }

  lemma {:induction false} SkelThree(pages: map<PageId, Page>, r: seq<Tree>, s: seq<Tree>, t: seq<Tree>)
    requires SkelAll(pages, r) && SkelAll(pages, s) && SkelAll(pages, t)
    ensures SkelAll(pages, r + s + t)
  {
    hide Skel;
  }

  // ── Two sibling leaves ──────────────────────────────────────────────

  /** The entries of two sibling leaves, one after the other. */
  lemma {:induction false} JoinEntries(c: Caps, x: Tree, y: Tree, k: Key, lo: Bound, hi: Bound)
    requires x.TLeaf? && y.TLeaf? && WF(c, x, 1, lo, Fin(k), 0) && WF(c, y, 1, Fin(k), hi, 0)
    ensures Sorted(x.entries + y.entries) && AllWithin(x.entries + y.entries, lo, hi)
    requires Lt(lo, Fin(k)) && Lt(Fin(k), hi)
  {
  }

  lemma {:induction false} PairKeys(
      c: Caps, pages: map<PageId, Page>, up: Ctx, id: PageId, keys: seq<Key>, kids: seq<Tree>, a: nat, x: Tree,
      y: Tree, h: nat, leaves: seq<Tree>)
    requires Pair(c, pages, up, id, keys, kids, a, x, y, h, leaves)
    ensures SortedKeys(keys, Lo(up), Hi(up))
  {
    hide WF, CtxWF, PagesAll, LeavesAll, CtxSkel, Chain, Lo, Hi, LoAt, HiAt, PairRest, PairLeft, PairRight, KidIds,
      IntPage, SortedKeys;
  }

  /** Recutting two sibling leaves at position p. */
  lemma {:induction false} BorrowLeaf(
      c: Caps, pages: map<PageId, Page>, up: Ctx, id: PageId, keys: seq<Key>, kids: seq<Tree>, a: nat, x: Tree,
      y: Tree, leaves: seq<Tree>, p: nat)
    requires Pair(c, pages, up, id, keys, kids, a, x, y, 1, leaves) && x.TLeaf? && y.TLeaf?
    requires 1 <= p < |x.entries| + |y.entries|
    requires c.leafMin <= p <= c.leafMax && c.leafMin <= |x.entries| + |y.entries| - p <= c.leafMax
    ensures x.id in pages && pages[x.id].Leaf? && y.id in pages && pages[y.id].Leaf? && x.id != y.id
    ensures var es := x.entries + y.entries;
            var x', y' := TLeaf(x.id, es[..p]), TLeaf(y.id, es[p..]);
            Pending(c, pages[x.id := pages[x.id].(entries := es[..p])][y.id := pages[y.id].(entries := es[p..])],
                    up, id, keys[..a] + [es[p].key] + keys[a + 1..], kids[..a] + [x', y'] + kids[a + 2..], 1,
                    PairLeft(up, kids, a) + [x', y'] + PairRight(up, kids, a))
  {
    hide WF, CtxWF, NodeOK, PagesAll, LeavesAll, CtxPages, CtxLeft, CtxRight, CtxSkel, Chain, Lo, Hi, LoAt, HiAt,
         PairRest, PairLeft, PairRight, KidIds, IntPage, SortedKeys;
    var es := x.entries + y.entries;
    var x', y' := TLeaf(x.id, es[..p]), TLeaf(y.id, es[p..]);
    PairKeys(c, pages, up, id, keys, kids, a, x, y, 1, leaves);
    BorrowLeafWF(c, keys, a, Lo(up), Hi(up), x, y, p);
    var left, right := PairLeft(up, kids, a), PairRight(up, kids, a);
    CatPair(left, x, y, right);
    ChainRecut(pages, left, x, y, right, x', y');
    var q := pages[x.id := pages[x.id].(entries := es[..p])][y.id := pages[y.id].(entries := es[p..])];
    assert q.Keys == pages.Keys;
    assert multiset{x.id} + multiset{y.id} == multiset{x.id, y.id};
    OnceFrame(pages, q, PairRest(up, id, kids, a), multiset{x.id, y.id});
    AllTwo(x', y');
    PairDone(c, pages, up, id, keys, kids, a, x, y, 1, leaves, q, [es[p].key], [x', y'], left + [x', y'] + right);
  }

  lemma {:induction false} BorrowLeafWF(c: Caps, keys: seq<Key>, a: nat, lo: Bound, hi: Bound, x: Tree, y: Tree, p: nat)
    requires a < |keys| && SortedKeys(keys, lo, hi) && x.TLeaf? && y.TLeaf?
    requires WF(c, x, 1, LoAt(keys, a, lo), Fin(keys[a]), 0) && WF(c, y, 1, Fin(keys[a]), HiAt(keys, a + 1, hi), 0)
    requires 1 <= p < |x.entries| + |y.entries|
    requires c.leafMin <= p <= c.leafMax && c.leafMin <= |x.entries| + |y.entries| - p <= c.leafMax
    ensures var es := x.entries + y.entries;
            NodeOK(c, [es[p].key], [TLeaf(x.id, es[..p]), TLeaf(y.id, es[p..])], 1, LoAt(keys, a, lo),
              HiAt(keys, a + 1, hi))
  {
    var es := x.entries + y.entries;
    var l, h := LoAt(keys, a, lo), HiAt(keys, a + 1, hi);
    JoinEntries(c, x, y, keys[a], l, h);
    assert Within(es[0].key, l, h) && es[0].key < es[p].key && Within(es[p].key, l, h);
    RecutWF(c, x.id, y.id, es, l, h, p);
  }

  lemma {:induction false} RecutWF(c: Caps, i: PageId, j: PageId, es: seq<LeafEntry>, lo: Bound, hi: Bound, p: nat)
    requires 1 <= p < |es| && Sorted(es) && AllWithin(es, lo, hi)
    requires c.leafMin <= p <= c.leafMax && c.leafMin <= |es| - p <= c.leafMax
    requires Lt(lo, Fin(es[p].key)) && Lt(Fin(es[p].key), hi)
    ensures NodeOK(c, [es[p].key], [TLeaf(i, es[..p]), TLeaf(j, es[p..])], 1, lo, hi)
  {
    var tail := es[p..];
    assert forall n :: 0 <= n < |tail| ==> tail[n] == es[p + n];
    assert WF(c, TLeaf(i, es[..p]), 1, lo, Fin(es[p].key), c.leafMin);
    assert WF(c, TLeaf(j, es[p..]), 1, Fin(es[p].key), hi, c.leafMin);
  }

  lemma {:induction false} ChainRecut(
      p: map<PageId, Page>, left: seq<Tree>, x: Tree, y: Tree, right: seq<Tree>, x': Tree, y': Tree)
    requires x.TLeaf? && y.TLeaf? && x'.TLeaf? && y'.TLeaf? && x'.id == x.id && y'.id == y.id
    requires Chain(p, left + [x, y] + right)
    ensures x.id in p && y.id in p && p[x.id].Leaf? && p[y.id].Leaf? && x.id != y.id
    ensures p[x.id].entries == x.entries && p[y.id].entries == y.entries
    ensures Chain(p[x.id := p[x.id].(entries := x'.entries)][y.id := p[y.id].(entries := y'.entries)],
      left + [x', y'] + right)
  {
    var ts, us, n := left + [x, y] + right, left + [x', y'] + right, |left|;
    assert ts[n] == x && ts[n + 1] == y;
    assert Linked(p, ts, n) && Linked(p, ts, n + 1);
    var q := p[x.id := p[x.id].(entries := x'.entries)][y.id := p[y.id].(entries := y'.entries)];
    assert forall i :: 0 <= i < |ts| ==> us[i].id == ts[i].id;
    forall i | 0 <= i < |us| ensures Linked(q, us, i) {
      assert Linked(p, ts, i);
    }
  }

  /** The pages after leaf y is merged into its left neighbour x: x takes y's
      place in the list and y's page is freed. */
  function MergePages(p: map<PageId, Page>, x: PageId, y: PageId, es: seq<LeafEntry>): map<PageId, Page>
    requires x in p && y in p && p[x].Leaf? && p[y].Leaf?
  {
    var next := p[y].next;
    var linked: map<PageId, Page> := if next in p && p[next].Leaf? then p[next := p[next].(prev := x)] else p;
    var freed: map<PageId, Page> := linked - {y};
    freed[x := Leaf(es, next, p[x].prev)]
  }

  lemma {:induction false} ChainMerge(
      p: map<PageId, Page>, left: seq<Tree>, x: Tree, y: Tree, right: seq<Tree>, es: seq<LeafEntry>)
    requires x.TLeaf? && y.TLeaf? && 0 !in p && Chain(p, left + [x, y] + right)
    ensures x.id in p && y.id in p && p[x.id].Leaf? && p[y.id].Leaf? && x.id != y.id
    ensures p[x.id].entries == x.entries && p[y.id].entries == y.entries
    ensures && p[y.id].next != x.id && p[y.id].next != y.id
            && (p[y.id].next != 0 ==> p[y.id].next in p && p[p[y.id].next].Leaf?)
    ensures Chain(MergePages(p, x.id, y.id, es), left + [TLeaf(x.id, es)] + right)
  {
    var ts, us, n := left + [x, y] + right, left + [TLeaf(x.id, es)] + right, |left|;
    assert ts[n] == x && ts[n + 1] == y;
    assert Linked(p, ts, n) && Linked(p, ts, n + 1);
    if right != [] { assert Linked(p, ts, n + 2); }
    var q := MergePages(p, x.id, y.id, es);
    forall i | 0 <= i < |us| ensures Linked(q, us, i) {
      if i < n {
        assert Linked(p, ts, i);
      } else if n < i {
        assert Linked(p, ts, i + 1);
      }
    }
    forall i, j | 0 <= i < j < |us| ensures us[i].id != us[j].id {
      var i', j' := if i <= n then i else i + 1, if j <= n then j else j + 1;
      assert ts[i'].id != ts[j'].id;
    }
  }

  lemma {:induction false} MergeLeaf(
      c: Caps, pages: map<PageId, Page>, up: Ctx, id: PageId, keys: seq<Key>, kids: seq<Tree>, a: nat, x: Tree,
      y: Tree, leaves: seq<Tree>)
    requires Pair(c, pages, up, id, keys, kids, a, x, y, 1, leaves) && x.TLeaf? && y.TLeaf?
    requires c.leafMin <= |x.entries| + |y.entries| <= c.leafMax
    ensures x.id in pages && pages[x.id].Leaf? && y.id in pages && pages[y.id].Leaf?
    ensures var xy := TLeaf(x.id, x.entries + y.entries);
            Pending(c, MergePages(pages, x.id, y.id, xy.entries), up, id, keys[..a] + [] + keys[a + 1..],
                    kids[..a] + [xy] + kids[a + 2..], 1, PairLeft(up, kids, a) + [xy] + PairRight(up, kids, a))
  {
    hide WF, CtxWF, NodeOK, PagesAll, LeavesAll, CtxPages, CtxLeft, CtxRight, CtxSkel, Chain, Lo, Hi, LoAt, HiAt,
         PairRest, PairLeft, PairRight, KidIds, IntPage, SortedKeys;
    var xy := TLeaf(x.id, x.entries + y.entries);
    PairKeys(c, pages, up, id, keys, kids, a, x, y, 1, leaves);
    MergeLeafWF(c, keys, a, Lo(up), Hi(up), x, y);
    var left, right := PairLeft(up, kids, a), PairRight(up, kids, a);
    CatPair(left, x, y, right);
    ChainMerge(pages, left, x, y, right, xy.entries);
    var q := MergePages(pages, x.id, y.id, xy.entries);
    MergeFrame(pages, q, PairRest(up, id, kids, a), x.id, y.id, xy.entries);
    AllOne(xy);
    PairDone(c, pages, up, id, keys, kids, a, x, y, 1, leaves, q, [], [xy], left + [xy] + right);
  }

  lemma {:induction false} MergeLeafWF(c: Caps, keys: seq<Key>, a: nat, lo: Bound, hi: Bound, x: Tree, y: Tree)
    requires a < |keys| && SortedKeys(keys, lo, hi) && x.TLeaf? && y.TLeaf?
    requires WF(c, x, 1, LoAt(keys, a, lo), Fin(keys[a]), 0) && WF(c, y, 1, Fin(keys[a]), HiAt(keys, a + 1, hi), 0)
    requires c.leafMin <= |x.entries| + |y.entries| <= c.leafMax
    ensures NodeOK(c, [], [TLeaf(x.id, x.entries + y.entries)], 1, LoAt(keys, a, lo), HiAt(keys, a + 1, hi))
  {
    JoinEntries(c, x, y, keys[a], LoAt(keys, a, lo), HiAt(keys, a + 1, hi));
  }

  lemma {:induction false} MergeFrame(
      pages: map<PageId, Page>, q: map<PageId, Page>, rest: multiset<PageId>, x: PageId, y: PageId,
      es: seq<LeafEntry>)
    requires x in pages && y in pages && pages[x].Leaf? && pages[y].Leaf? && x != y
    requires pages[y].next != y && q == MergePages(pages, x, y, es)
    requires Accounts(pages, rest + multiset{x} + multiset{y})
    ensures Keeps(pages, q, rest) && Accounts(q, rest + multiset{x})
  {
    assert q.Keys == pages.Keys - {y};
    assert multiset(pages.Keys) == multiset(q.Keys) + multiset{y};
    Cancel(multiset(q.Keys), multiset{META_PAGE_ID} + (rest + multiset{x}), y);
  }

  // ── Two sibling internal nodes ──────────────────────────────────────

  lemma {:induction false} JoinNodes(c: Caps, x: Tree, y: Tree, k: Key, h: nat, lo: Bound, hi: Bound)
    requires x.TNode? && y.TNode? && WF(c, x, h + 1, lo, Fin(k), 0) && WF(c, y, h + 1, Fin(k), hi, 0)
    ensures NodeOK(c, x.keys + [k] + y.keys, x.kids + y.kids, h, lo, hi)
  {
    assert NodeOK(c, x.keys, x.kids, h, lo, Fin(k)) && NodeOK(c, y.keys, y.kids, h, Fin(k), hi);
    Join(c, x.keys, x.kids, k, y.keys, y.kids, h, lo, hi);
  }

  /** The pages, pair aside, and the pages below the pair. */
  lemma {:induction false} BelowPair(rest: multiset<PageId>, x: Tree, y: Tree)
    requires x.TNode? && y.TNode?
    ensures rest + Pages(x) + Pages(y) == (rest + PagesAll(x.kids + y.kids)) + multiset{x.id, y.id}
    ensures Leaves(x) + Leaves(y) == LeavesAll(x.kids + y.kids)
  {
    hide PagesAll, LeavesAll;
    AllCat(x.kids, y.kids);
  }

  /** x' and y' are x and y with their joined row recut at separator p. */
  ghost predicate Recut(x: Tree, k: Key, y: Tree, p: nat, x': Tree, y': Tree) {
    && x.TNode? && y.TNode? && x'.TNode? && y'.TNode? && x'.id == x.id && y'.id == y.id
    && |x.kids| == |x.keys| + 1 && |y.kids| == |y.keys| + 1 && p <= |x.keys| + |y.keys|
    && var ks, ts := x.keys + [k] + y.keys, x.kids + y.kids;
       && x'.keys == ks[..p] && x'.kids == ts[..p + 1] && y'.keys == ks[p + 1..] && y'.kids == ts[p + 1..]
  }

  lemma {:induction false} BorrowInternal(
      c: Caps, pages: map<PageId, Page>, up: Ctx, id: PageId, keys: seq<Key>, kids: seq<Tree>, a: nat, x: Tree,
      y: Tree, h: nat, leaves: seq<Tree>, p: nat, x': Tree, y': Tree)
    requires Pair(c, pages, up, id, keys, kids, a, x, y, h + 1, leaves) && Recut(x, keys[a], y, p, x', y')
    requires c.intMin <= p <= c.intMax && c.intMin <= |x.keys| + |y.keys| - p <= c.intMax
    ensures |x'.kids| == |x'.keys| + 1 && |y'.kids| == |y'.keys| + 1
    ensures Pending(c, pages[x.id := IntPage(x'.keys, KidIds(x'.kids))][y.id := IntPage(y'.keys, KidIds(y'.kids))],
      up, id, keys[..a] + [(x.keys + [keys[a]] + y.keys)[p]] + keys[a + 1..],
      kids[..a] + [x', y'] + kids[a + 2..], h + 1, leaves)
  {
    hide WF, CtxWF, NodeOK, PagesAll, LeavesAll, CtxPages, CtxLeft, CtxRight, CtxSkel, Chain, Lo, Hi, LoAt, HiAt,
         PairRest, PairLeft, PairRight, KidIds, IntPage, SortedKeys;
    var k := (x.keys + [keys[a]] + y.keys)[p];
    var rest, left, right := PairRest(up, id, kids, a), PairLeft(up, kids, a), PairRight(up, kids, a);
    var q := pages[x.id := IntPage(x'.keys, KidIds(x'.kids))][y.id := IntPage(y'.keys, KidIds(y'.kids))];
    BorrowInternalWF(c, keys, a, Lo(up), Hi(up), x, y, h, p, x', y');
    RewriteTwo(pages, q, rest, x, y, x', y', x.kids + y.kids, p + 1, leaves);
    RecutLists(rest, left, right, x, y, x', y', x.kids + y.kids, p + 1);
    hide Pair, Skel, Pages, Leaves, Recut;
    SkelTwo(q, x', y');
    PairDone(c, pages, up, id, keys, kids, a, x, y, h + 1, leaves, q, [k], [x', y'], leaves);
  }

  lemma {:induction false} SkelTwo(pages: map<PageId, Page>, x: Tree, y: Tree)
    requires Skel(pages, x) && Skel(pages, y)
    ensures SkelAll(pages, [x, y])
  {
  }

  lemma {:induction false} RecutLists(rest: multiset<PageId>, left: seq<Tree>, right: seq<Tree>, x: Tree, y: Tree,
                                      x': Tree, y': Tree, ts: seq<Tree>, n: nat)
    requires x.TNode? && y.TNode? && x'.TNode? && y'.TNode? && x'.id == x.id && y'.id == y.id
    requires ts == x.kids + y.kids && n <= |ts| && x'.kids == ts[..n] && y'.kids == ts[n..]
    ensures rest + PagesAll([x', y']) == rest + Pages(x) + Pages(y)
    ensures left + LeavesAll([x', y']) + right == left + Leaves(x) + Leaves(y) + right
  {
    hide Pages, PagesAll, Leaves, LeavesAll;
    TakeDrop(ts, n);
    AllTwo(x', y');
    BelowPair(rest, x', y');
    BelowPair(rest, x, y);
    Assoc(left, Leaves(x), Leaves(y));
  }

  lemma {:induction false} BorrowInternalWF(
      c: Caps, keys: seq<Key>, a: nat, lo: Bound, hi: Bound, x: Tree, y: Tree, h: nat, p: nat, x': Tree, y': Tree)
    requires a < |keys| && Recut(x, keys[a], y, p, x', y')
    requires && WF(c, x, h + 1, LoAt(keys, a, lo), Fin(keys[a]), 0)
             && WF(c, y, h + 1, Fin(keys[a]), HiAt(keys, a + 1, hi), 0)
    requires c.intMin <= p <= c.intMax && c.intMin <= |x.keys| + |y.keys| - p <= c.intMax
    ensures NodeOK(c, [(x.keys + [keys[a]] + y.keys)[p]], [x', y'], h + 1, LoAt(keys, a, lo), HiAt(keys, a + 1, hi))
  {
    var ks, ts := x.keys + [keys[a]] + y.keys, x.kids + y.kids;
    var l, u := LoAt(keys, a, lo), HiAt(keys, a + 1, hi);
    JoinNodes(c, x, y, keys[a], h, l, u);
    Cut(c, ks, ts, h, l, u, p);
    TwoNodes(c, x', y', ks[p], h, l, u);
  }

  lemma {:induction false} TwoNodes(c: Caps, x: Tree, y: Tree, k: Key, h: nat, lo: Bound, hi: Bound)
    requires x.TNode? && y.TNode? && 1 <= h
    requires NodeOK(c, x.keys, x.kids, h, lo, Fin(k)) && NodeOK(c, y.keys, y.kids, h, Fin(k), hi)
    requires c.intMin <= |x.keys| <= c.intMax && c.intMin <= |y.keys| <= c.intMax
    ensures NodeOK(c, [k], [x, y], h + 1, lo, hi)
  {
    assert WF(c, x, h + 1, lo, Fin(k), c.intMin);
    assert WF(c, y, h + 1, Fin(k), hi, c.intMin);
  }

  lemma {:induction false} RewriteTwo(
      pages: map<PageId, Page>, q: map<PageId, Page>, rest: multiset<PageId>, x: Tree, y: Tree, x': Tree, y': Tree,
      ts: seq<Tree>, n: nat, leaves: seq<Tree>)
    requires x.TNode? && y.TNode? && x'.TNode? && y'.TNode? && x'.id == x.id && y'.id == y.id
    requires Accounts(pages, rest + Pages(x) + Pages(y)) && Skel(pages, x) && Skel(pages, y) && Chain(pages, leaves)
    requires ts == x.kids + y.kids && n <= |ts| && x'.kids == ts[..n] && y'.kids == ts[n..]
    requires |x'.kids| == |x'.keys| + 1 && |y'.kids| == |y'.keys| + 1
    requires q == pages[x.id := IntPage(x'.keys, KidIds(x'.kids))][y.id := IntPage(y'.keys, KidIds(y'.kids))]
    ensures Keeps(pages, q, rest) && Accounts(q, rest + Pages(x) + Pages(y))
    ensures Skel(q, x') && Skel(q, y') && Chain(q, leaves)
  {
    assert SkelAll(pages, ts) by {
      assert SkelAll(pages, x.kids) && SkelAll(pages, y.kids);
      SkelThree(pages, x.kids, y.kids, []);
      assert ts + [] == ts;
    }
    hide SkelAll, Chain, PagesAll, LeavesAll, KidIds, IntPage;
    BelowPair(rest, x, y);
    assert q.Keys == pages.Keys;
    OnceFrame(pages, q, rest + PagesAll(ts), multiset{x.id, y.id});
    SkelAllFrame(pages, q, ts);
    SkelSlice(q, ts, n);
    ChainFrame(pages, q, leaves);
    assert x.id != y.id by {
      assert multiset(pages.Keys)[x.id] == 1;
    }
    SkelNode(q, x');
    SkelNode(q, y');
  }

  lemma {:induction false} SkelNode(pages: map<PageId, Page>, t: Tree)
    requires t.TNode? && |t.kids| == |t.keys| + 1 && t.id in pages && pages[t.id] == IntPage(t.keys, KidIds(t.kids))
    requires SkelAll(pages, t.kids)
    ensures Skel(pages, t)
  {
  }

  /** Merging two sibling internal nodes around their separator. */
  lemma {:induction false} MergeInternal(
      c: Caps, pages: map<PageId, Page>, up: Ctx, id: PageId, keys: seq<Key>, kids: seq<Tree>, a: nat, x: Tree,
      y: Tree, h: nat, leaves: seq<Tree>)
    requires Pair(c, pages, up, id, keys, kids, a, x, y, h + 1, leaves) && x.TNode? && y.TNode?
    requires c.intMin <= |x.keys| + 1 + |y.keys| <= c.intMax
    ensures |x.kids| == |x.keys| + 1 && |y.kids| == |y.keys| + 1
    ensures var xy := TNode(x.id, x.keys + [keys[a]] + y.keys, x.kids + y.kids);
            Pending(c, (pages - {y.id})[x.id := IntPage(xy.keys, KidIds(xy.kids))],
                    up, id, keys[..a] + [] + keys[a + 1..], kids[..a] + [xy] + kids[a + 2..], h + 1, leaves)
  {
    hide WF, CtxWF, PagesAll, LeavesAll, CtxPages, CtxLeft, CtxRight, CtxSkel, Chain, Lo, Hi, LoAt, HiAt,
         PairRest, PairLeft, PairRight, KidIds, IntPage, SortedKeys;
    var xy := TNode(x.id, x.keys + [keys[a]] + y.keys, x.kids + y.kids);
    MergeInternalWF(c, keys, a, Lo(up), Hi(up), x, y, h);
    hide NodeOK;
    var rest, left, right := PairRest(up, id, kids, a), PairLeft(up, kids, a), PairRight(up, kids, a);
    var q := (pages - {y.id})[x.id := IntPage(xy.keys, KidIds(xy.kids))];
    RewriteOne(pages, q, rest, x, y, xy, leaves);
    AllOne(xy);
    BelowPair(rest, x, y);
    Assoc(left, Leaves(x), Leaves(y));
    PairDone(c, pages, up, id, keys, kids, a, x, y, h + 1, leaves, q, [], [xy], leaves);
  }

  lemma {:induction false} MergeInternalWF(
      c: Caps, keys: seq<Key>, a: nat, lo: Bound, hi: Bound, x: Tree, y: Tree, h: nat)
    requires a < |keys| && x.TNode? && y.TNode? && SortedKeys(keys, lo, hi)
    requires && WF(c, x, h + 1, LoAt(keys, a, lo), Fin(keys[a]), 0)
             && WF(c, y, h + 1, Fin(keys[a]), HiAt(keys, a + 1, hi), 0)
    requires c.intMin <= |x.keys| + 1 + |y.keys| <= c.intMax
    ensures |x.kids| == |x.keys| + 1 && |y.kids| == |y.keys| + 1
    ensures NodeOK(c, [], [TNode(x.id, x.keys + [keys[a]] + y.keys, x.kids + y.kids)], h + 1, LoAt(keys, a, lo),
      HiAt(keys, a + 1, hi))
  {
    var l, u := LoAt(keys, a, lo), HiAt(keys, a + 1, hi);
    JoinNodes(c, x, y, keys[a], h, l, u);
    OneNode(c, TNode(x.id, x.keys + [keys[a]] + y.keys, x.kids + y.kids), h, l, u);
  }

  lemma {:induction false} OneNode(c: Caps, t: Tree, h: nat, lo: Bound, hi: Bound)
    requires t.TNode? && 1 <= h && NodeOK(c, t.keys, t.kids, h, lo, hi) && c.intMin <= |t.keys| <= c.intMax
    ensures NodeOK(c, [], [t], h + 1, lo, hi)
  {
    assert WF(c, t, h + 1, lo, hi, c.intMin);
  }

  lemma {:induction false} RewriteOne(
      pages: map<PageId, Page>, q: map<PageId, Page>, rest: multiset<PageId>, x: Tree, y: Tree, xy: Tree,
      leaves: seq<Tree>)
    requires && x.TNode? && y.TNode? && xy.TNode? && xy.id == x.id && xy.kids == x.kids + y.kids
             && |xy.kids| == |xy.keys| + 1
    requires Accounts(pages, rest + Pages(x) + Pages(y)) && Skel(pages, x) && Skel(pages, y) && Chain(pages, leaves)
    requires q == (pages - {y.id})[x.id := IntPage(xy.keys, KidIds(xy.kids))]
    ensures Keeps(pages, q, rest) && Accounts(q, rest + Pages(xy)) && Skel(q, xy) && Chain(q, leaves)
  {
    var ts := x.kids + y.kids;
    assert SkelAll(pages, ts) by {
      assert SkelAll(pages, x.kids) && SkelAll(pages, y.kids);
      SkelThree(pages, x.kids, y.kids, []);
      assert ts + [] == ts;
    }
    assert y.id in pages && pages[y.id].Internal? && x.id in pages && pages[x.id].Internal?;
    hide SkelAll, Chain, PagesAll, LeavesAll, KidIds, IntPage;
    BelowPair(rest, x, y);
    assert x.id != y.id by {
      assert multiset(pages.Keys)[x.id] == 1;
    }
    assert q.Keys == pages.Keys - {y.id};
    assert multiset(pages.Keys) == multiset(q.Keys) + multiset{y.id};
    Cancel(multiset(q.Keys), multiset{META_PAGE_ID} + (rest + Pages(xy)), y.id);
    OnceFrame(pages, q, rest + PagesAll(ts), multiset{x.id, y.id});
    SkelAllFrame(pages, q, ts);
    ChainFrame(pages, q, leaves);
    SkelNode(q, xy);
  }

  /** A root left with a single child gives way to it. */
  lemma {:induction false} CollapseRoot(
      c: Caps, pages: map<PageId, Page>, id: PageId, t: Tree, h: nat, leaves: seq<Tree>)
    requires CapsOK(c) && Pending(c, pages, Top, id, [], [t], h, leaves) && (h >= 2 ==> 1 <= c.intMin)
    ensures TreeOK(c, pages - {id}, t, h, leaves)
  {
    hide Chain, PagesAll, LeavesAll, SortedKeys;
    var q := pages - {id};
    AllOne(t);
    CatEmpty(Leaves(t));
    assert multiset(pages.Keys) == multiset(q.Keys) + multiset{id};
    Cancel(multiset(q.Keys), multiset{META_PAGE_ID} + Pages(t), id);
    OnceFrame(pages, q, Pages(t), multiset{id});
    assert [t][0] == t;
    SkelFrame(pages, q, t);
    ChainFrame(pages, q, leaves);
    assert WF(c, t, h, NegInf, PosInf, MinCount(c, h));
  }
}
