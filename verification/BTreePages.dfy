/** The node operations, on page contents, and what they mean for the subtree a
    page belongs to. */
module BTreePages {
  import opened Prelude
  import opened BTreeShape

  // ── Searching inside a node ─────────────────────────────────────────

  /** First index whose key is greater than key: the child to descend into. */
  function FindChildIndex(seps: seq<InternalEntry>, key: Key): (i: nat)
    ensures i <= |seps|
    ensures forall j :: 0 <= j < i ==> seps[j].key <= key
    ensures i < |seps| ==> key < seps[i].key
  {
    if seps == [] || key < seps[0].key then 0 else
    var i := FindChildIndex(seps[1..], key);
    assert forall j :: 1 <= j <= i ==> seps[j] == seps[1..][j - 1];
    i + 1
  }

  /** First index whose key is not below key: where key is, or belongs. */
  function KeyBound(ks: seq<Key>, key: Key): (i: nat)
    ensures i <= |ks|
    ensures forall j :: 0 <= j < i ==> ks[j] < key
    ensures i < |ks| ==> key <= ks[i]
  {
    if ks == [] || key <= ks[0] then 0 else
    var i := KeyBound(ks[1..], key);
    assert forall j :: 1 <= j <= i ==> ks[j] == ks[1..][j - 1];
    i + 1
  }

  function LowerBound(es: seq<LeafEntry>, key: Key): (i: nat)
    ensures i <= |es|
    ensures forall j :: 0 <= j < i ==> es[j].key < key
    ensures i < |es| ==> key <= es[i].key
  {
    var ks := seq(|es|, i requires 0 <= i < |es| => es[i].key);
    var i := KeyBound(ks, key);
    assert forall j :: 0 <= j < |es| ==> ks[j] == es[j].key;
    i
  }

  function KeysOf(page: Page): (ks: seq<Key>)
    requires page.Internal?
    ensures |ks| == |page.seps|
  {
    seq(|page.seps|, i requires 0 <= i < |page.seps| => page.seps[i].key)
  }

  function ChildAt(page: Page, i: nat): PageId
    requires page.Internal?
  {
    if i < |page.seps| then page.seps[i].child else page.rightChild
  }

  // ── Changing a node ─────────────────────────────────────────────────

  /** Inserting in sorted position. */
  function InsertEntry(es: seq<LeafEntry>, e: LeafEntry): seq<LeafEntry> {
    var i := LowerBound(es, e.key);
    es[..i] + [e] + es[i..]
  }

  /** Adding a separator with the new page to its right: the existing pointer
      at that position becomes the separator's left pointer. */
  function InsertSep(page: Page, key: Key, right: PageId): Page
    requires page.Internal?
  {
    var i := KeyBound(KeysOf(page), key);
    if i < |page.seps| then
      var was := page.seps[i];
      Internal(page.seps[..i] + [InternalEntry(key, was.child), was.(child := right)] + page.seps[i + 1..],
        page.rightChild)
    else
      Internal(page.seps + [InternalEntry(key, page.rightChild)], right)
  }

  lemma {:induction false} InsertEntryCount(es: seq<LeafEntry>, e: LeafEntry)
    ensures |InsertEntry(es, e)| == |es| + 1
  {
    hide LowerBound;
  }

  lemma {:induction false} InsertSepCount(page: Page, key: Key, right: PageId)
    requires page.Internal?
    ensures InsertSep(page, key, right).Internal? && |InsertSep(page, key, right).seps| == |page.seps| + 1
  {
    hide KeyBound;
  }

  // ── Pages of rows of children ───────────────────────────────────────

  lemma {:induction false} IntPageCut(ks: seq<Key>, ids: seq<PageId>, p: nat)
    requires p < |ks| && |ids| == |ks| + 1
    ensures var s := IntPage(ks, ids).seps;
            && s[p].key == ks[p]
            && IntPage(ks[..p], ids[..p + 1]) == Internal(s[..p], s[p].child)
            && IntPage(ks[p + 1..], ids[p + 1..]) == Internal(s[p + 1..], IntPage(ks, ids).rightChild)
  {
  }

  /** Two nodes side by side with a separator pulled down between them. */
  function JoinPages(l: Page, k: Key, r: Page): Page
    requires l.Internal? && r.Internal?
  {
    Internal(l.seps + [InternalEntry(k, l.rightChild)] + r.seps, r.rightChild)
  }

  lemma {:induction false} IntPageJoin(ks1: seq<Key>, ids1: seq<PageId>, k: Key, ks2: seq<Key>, ids2: seq<PageId>)
    requires |ids1| == |ks1| + 1 && |ids2| == |ks2| + 1
    ensures IntPage(ks1 + [k] + ks2, ids1 + ids2) == JoinPages(IntPage(ks1, ids1), k, IntPage(ks2, ids2))
  {
    var s := IntPage(ks1 + [k] + ks2, ids1 + ids2).seps;
    var t := JoinPages(IntPage(ks1, ids1), k, IntPage(ks2, ids2)).seps;
    assert |s| == |t|;
    forall i | 0 <= i < |s| ensures s[i] == t[i] {
    }
  }

  lemma {:induction false} KidIdsCat(a: seq<Tree>, b: seq<Tree>)
    ensures KidIds(a + b) == KidIds(a) + KidIds(b)
  {
  }

  lemma {:induction false} KidIdsSlice(ts: seq<Tree>, n: nat)
    requires n <= |ts|
    ensures KidIds(ts[..n]) == KidIds(ts)[..n] && KidIds(ts[n..]) == KidIds(ts)[n..]
  {
  }

  /** What adding a split child's separator does to the parent's page. */
  lemma {:induction false} InsertSepIs(ks: seq<Key>, kids: seq<Tree>, idx: nat, l: Tree, k: Key, r: Tree)
    requires idx < |kids| == |ks| + 1
    requires forall i :: 0 <= i < idx ==> ks[i] < k
    requires forall i :: idx <= i < |ks| ==> k < ks[i]
    ensures InsertSep(IntPage(ks, KidIds(kids)[idx := l.id]), k, r.id)
         == IntPage(ks[..idx] + [k] + ks[idx..], KidIds(kids[..idx] + [l, r] + kids[idx + 1..]))
  {
    hide KeyBound, KidIds;
    var page := IntPage(ks, KidIds(kids)[idx := l.id]);
    SepBoundIs(page, ks, idx, k);
    var ts := kids[..idx] + [l, r] + kids[idx + 1..];
    var ids := KidIds(ts);
    KidIdsInserted(kids, idx, l, r);
    KeysInserted(ks, idx, k);
    var a, b := InsertSep(page, k, r.id), IntPage(ks[..idx] + [k] + ks[idx..], ids);
    forall i | 0 <= i < |b.seps| ensures a.seps[i] == b.seps[i] {
    }
  }

  lemma {:induction false} SepBoundIs(page: Page, ks: seq<Key>, idx: nat, k: Key)
    requires page.Internal? && |page.seps| == |ks| && idx <= |ks|
    requires forall i :: 0 <= i < |ks| ==> page.seps[i].key == ks[i]
    requires forall i :: 0 <= i < idx ==> ks[i] < k
    requires forall i :: idx <= i < |ks| ==> k < ks[i]
    ensures KeyBound(KeysOf(page), k) == idx
  {
    assert KeysOf(page) == ks;
    var i := KeyBound(ks, k);
    hide KeyBound;
    assert i < |ks| ==> k <= ks[i];
    assert idx < |ks| ==> k < ks[idx];
  }

  lemma {:induction false} KidIdsInserted(kids: seq<Tree>, idx: nat, l: Tree, r: Tree)
    requires idx < |kids|
    ensures KidIds(kids[..idx] + [l, r] + kids[idx + 1..])
         == KidIds(kids)[idx := l.id][..idx + 1] + [r.id] + KidIds(kids)[idx := l.id][idx + 1..]
  {
  }

  lemma {:induction false} KeysInserted(ks: seq<Key>, idx: nat, k: Key)
    requires idx <= |ks|
    ensures forall i :: 0 <= i <= |ks| ==>
      (ks[..idx] + [k] + ks[idx..])[i] == if i < idx then ks[i] else if i == idx then k else ks[i - 1]
  {
  }

  /** The child index a descent takes bounds the key. */
  lemma {:induction false} DescendBounds(ks: seq<Key>, ids: seq<PageId>, key: Key, lo: Bound, hi: Bound)
    requires |ids| == |ks| + 1 && SortedKeys(ks, lo, hi) && Within(key, lo, hi)
    ensures var i := FindChildIndex(IntPage(ks, ids).seps, key);
            i <= |ks| && Within(key, LoAt(ks, i, lo), HiAt(ks, i, hi)) && ChildAt(IntPage(ks, ids), i) == ids[i]
  {
    var seps := IntPage(ks, ids).seps;
    assert forall j :: 0 <= j < |ks| ==> seps[j].key == ks[j];
    var i := FindChildIndex(seps, key);
    if 0 < i { assert seps[i - 1].key == ks[i - 1]; }
    if i < |ks| { assert seps[i].key == ks[i]; }
  }

  // ── Entries in order ────────────────────────────────────────────────

  /** The finite map a sorted sequence of entries stands for. */
  ghost function MapOf(es: seq<LeafEntry>): map<Key, (nat, nat)> {
    if es == [] then map[] else
    var e := es[|es| - 1];
    MapOf(es[..|es| - 1])[e.key := (e.pageId, e.slotId)]
  }

  ghost predicate HasKey(es: seq<LeafEntry>, k: Key) {
    exists i :: 0 <= i < |es| && es[i].key == k
  }

  lemma {:induction false} MapHas(es: seq<LeafEntry>, k: Key)
    ensures k in MapOf(es) <==> HasKey(es, k)
  {
    if es != [] {
      var n := |es| - 1;
      var p := es[..n];
      MapHas(p, k);
      if HasKey(p, k) {
        var i :| 0 <= i < |p| && p[i].key == k;
        assert es[i].key == k;
      }
      if HasKey(es, k) && k != es[n].key {
        var i :| 0 <= i < |es| && es[i].key == k;
        assert p[i].key == k;
      }
    }
  }

  lemma {:induction false} MapAt(es: seq<LeafEntry>, i: nat)
    requires Sorted(es) && i < |es|
    ensures es[i].key in MapOf(es) && MapOf(es)[es[i].key] == (es[i].pageId, es[i].slotId)
  {
    var n := |es| - 1;
    if i < n {
      MapAt(es[..n], i);
    }
  }

  lemma {:induction false} MapSize(es: seq<LeafEntry>)
    requires Sorted(es)
    ensures |MapOf(es)| == |es|
  {
    if es != [] {
      var n := |es| - 1;
      MapSize(es[..n]);
      MapHas(es[..n], es[n].key);
    }
  }

  lemma {:induction false} MapInsert(a: seq<LeafEntry>, e: LeafEntry, b: seq<LeafEntry>)
    requires Sorted(a + [e] + b)
    ensures MapOf(a + [e] + b) == MapOf(a + b)[e.key := (e.pageId, e.slotId)]
    ensures e.key !in MapOf(a + b)
    decreases b
  {
    var s, t := a + [e] + b, a + b;
    assert s[|a|] == e;
    assert forall i :: 0 <= i < |t| ==> t[i] == if i < |a| then s[i] else s[i + 1];
    MapHas(t, e.key);
    if b == [] {
      assert s[..|s| - 1] == a && t == a;
    } else {
      var b', last := b[..|b| - 1], b[|b| - 1];
      MapInsertStep(a, e, b);
      MapInsert(a, e, b');
    }
  }

  lemma {:induction false} MapInsertStep(a: seq<LeafEntry>, e: LeafEntry, b: seq<LeafEntry>)
    requires b != [] && Sorted(a + [e] + b)
    ensures var b', last := b[..|b| - 1], b[|b| - 1];
            && Sorted(a + [e] + b') && last.key != e.key
            && MapOf(a + [e] + b) == MapOf(a + [e] + b')[last.key := (last.pageId, last.slotId)]
            && MapOf(a + b) == MapOf(a + b')[last.key := (last.pageId, last.slotId)]
  {
    var s, t, b' := a + [e] + b, a + b, b[..|b| - 1];
    assert s[..|s| - 1] == a + [e] + b' && t[..|t| - 1] == a + b';
    assert s[|a|] == e && s[|s| - 1] == b[|b| - 1];
  }

  // ── Order ───────────────────────────────────────────────────────────

  /** The entries below a well-formed subtree are strictly ascending and within
      its bounds. */
  lemma {:induction false} FlatSorted(c: Caps, t: Tree, h: nat, lo: Bound, hi: Bound, m: int)
    requires WF(c, t, h, lo, hi, m)
    ensures Sorted(Flat(Leaves(t))) && AllWithin(Flat(Leaves(t)), lo, hi)
    decreases t, 0
  {
    match t
    case TLeaf(_, es) =>
      assert Flat([t]) == es + Flat([]);
      assert es + [] == es;
    case TNode(_, keys, kids) =>
      assert NodeOK(c, keys, kids, h - 1, lo, hi);
      forall i | 0 <= i < |kids|
        ensures Sorted(Flat(Leaves(kids[i])))
          && AllWithin(Flat(Leaves(kids[i])), LoAt(keys, i, lo), HiAt(keys, i, hi)) {
        FlatSorted(c, kids[i], h - 1, LoAt(keys, i, lo), HiAt(keys, i, hi), MinCount(c, h - 1));
      }
      FlatRow(keys, kids, lo, hi, 0, |kids|);
      assert kids[0..|kids|] == kids;
  }

  /** The entries below the children [i, j). */
  lemma {:induction false} FlatRow(keys: seq<Key>, kids: seq<Tree>, lo: Bound, hi: Bound, i: nat, j: nat)
    requires |kids| == |keys| + 1 && SortedKeys(keys, lo, hi) && i < j <= |kids|
    requires forall n :: 0 <= n < |kids| ==>
      Sorted(Flat(Leaves(kids[n]))) && AllWithin(Flat(Leaves(kids[n])), LoAt(keys, n, lo), HiAt(keys, n, hi))
    ensures && Sorted(Flat(LeavesAll(kids[i..j])))
            && AllWithin(Flat(LeavesAll(kids[i..j])), LoAt(keys, i, lo), HiAt(keys, j - 1, hi))
    decreases j - i
  {
    hide LeavesAll, Leaves, Flat;
    var row := kids[i..j];
    if j == i + 1 {
      assert row == [kids[i]];
      AllOne(kids[i]);
    } else {
      FlatRow(keys, kids, lo, hi, i, j - 1);
      var head, last := kids[i..j - 1], kids[j - 1];
      assert row == head + [last];
      LeavesCat(head, [last]);
      AllOne(last);
      FlatCat(LeavesAll(head), Leaves(last));
      CatSorted(Flat(LeavesAll(head)), Flat(Leaves(last)), LoAt(keys, i, lo), keys[j - 2], HiAt(keys, j - 1, hi));
    }
  }

  lemma {:induction false} CatSorted(a: seq<LeafEntry>, b: seq<LeafEntry>, lo: Bound, k: Key, hi: Bound)
    requires Sorted(a) && Sorted(b) && AllWithin(a, lo, Fin(k)) && AllWithin(b, Fin(k), hi)
    requires Lt(lo, Fin(k)) && Lt(Fin(k), hi)
    ensures Sorted(a + b) && AllWithin(a + b, lo, hi)
  {
  }

  /** The entries left of a hole lie below it, those right of it above it. */
  lemma {:induction false} CtxSides(c: Caps, ctx: Ctx, h: nat)
    requires CtxWF(c, ctx, h)
    ensures forall i :: 0 <= i < |Flat(CtxLeft(ctx))| ==> Lt(Fin(Flat(CtxLeft(ctx))[i].key), Lo(ctx))
    ensures forall i :: 0 <= i < |Flat(CtxRight(ctx))| ==> Le(Hi(ctx), Fin(Flat(CtxRight(ctx))[i].key))
  {
    match ctx
    case Top =>
    case In(up, id, keys, kids, idx) =>
      CtxSides(c, up, h + 1);
      forall i | 0 <= i < |kids|
        ensures Sorted(Flat(Leaves(kids[i])))
          && AllWithin(Flat(Leaves(kids[i])), LoAt(keys, i, Lo(up)), HiAt(keys, i, Hi(up))) {
        FlatSorted(c, kids[i], h, LoAt(keys, i, Lo(up)), HiAt(keys, i, Hi(up)), MinCount(c, h));
      }
      hide WF, CtxWF, LeavesAll, Leaves;
      SidesLeft(ctx);
      SidesRight(ctx);
  }

  /** The children of a level lie within their bounds. */
  ghost predicate RowWithin(ctx: Ctx) {
    && ctx.In? && |ctx.kids| == |ctx.keys| + 1 && ctx.idx < |ctx.kids|
    && SortedKeys(ctx.keys, Lo(ctx.up), Hi(ctx.up))
    && forall n :: 0 <= n < |ctx.kids| ==>
         && Sorted(Flat(Leaves(ctx.kids[n])))
         && AllWithin(Flat(Leaves(ctx.kids[n])), LoAt(ctx.keys, n, Lo(ctx.up)), HiAt(ctx.keys, n, Hi(ctx.up)))
  }

  lemma {:induction false} SidesLeft(ctx: Ctx)
    requires RowWithin(ctx)
    requires forall i :: 0 <= i < |Flat(CtxLeft(ctx.up))| ==> Lt(Fin(Flat(CtxLeft(ctx.up))[i].key), Lo(ctx.up))
    ensures forall i :: 0 <= i < |Flat(CtxLeft(ctx))| ==> Lt(Fin(Flat(CtxLeft(ctx))[i].key), Lo(ctx))
  {
    hide LeavesAll, Leaves, Flat;
    var In(up, id, keys, kids, idx) := ctx;
    FlatCat(CtxLeft(up), LeavesAll(kids[..idx]));
    if 0 < idx {
      FlatRow(keys, kids, Lo(up), Hi(up), 0, idx);
      assert kids[0..idx] == kids[..idx];
    } else {
      assert kids[..idx] == [];
      NoLeaves();
    }
  }

  lemma {:induction false} SidesRight(ctx: Ctx)
    requires RowWithin(ctx)
    requires forall i :: 0 <= i < |Flat(CtxRight(ctx.up))| ==> Le(Hi(ctx.up), Fin(Flat(CtxRight(ctx.up))[i].key))
    ensures forall i :: 0 <= i < |Flat(CtxRight(ctx))| ==> Le(Hi(ctx), Fin(Flat(CtxRight(ctx))[i].key))
  {
    hide LeavesAll, Leaves, Flat;
    var In(up, id, keys, kids, idx) := ctx;
    FlatCat(LeavesAll(kids[idx + 1..]), CtxRight(up));
    if idx + 1 < |kids| {
      FlatRow(keys, kids, Lo(up), Hi(up), idx + 1, |kids|);
      assert kids[idx + 1..|kids|] == kids[idx + 1..];
    } else {
      assert kids[idx + 1..] == [];
      NoLeaves();
    }
  }

  lemma {:induction false} NoLeaves()
    ensures Flat(LeavesAll([])) == []
  {
  }
}
