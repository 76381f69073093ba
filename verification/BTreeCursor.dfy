/** Forward scans over the leaf list. */
module BTreeCursors {
  import opened Prelude
  import opened BTreeShape
  import opened BTreeSteps
  import opened BTreePages
  import opened BTreeSearch
  import opened PageStore
  import opened BTrees

  class BTreeCursor {
    var entries: seq<LeafEntry>
    var pos: nat
    var nextLeafId: PageId
    ghost var leaves: seq<Tree>  // the leaves of the tree being scanned
    ghost var k: nat             // how many of them have been loaded

    constructor (entries: seq<LeafEntry>, pos: nat, nextLeafId: PageId, ghost leaves: seq<Tree>, ghost k: nat)
      ensures this.entries == entries && this.pos == pos && this.nextLeafId == nextLeafId
      ensures this.leaves == leaves && this.k == k
    {
      this.entries, this.pos, this.nextLeafId := entries, pos, nextLeafId;
      this.leaves, this.k := leaves, k;
    }

    ghost predicate Valid(pages: map<PageId, Page>)
      reads this
    {
      0 !in pages && Chain(pages, leaves) && pos <= |entries| && k <= |leaves| && nextLeafId == IdOr0(leaves, k)
    }

    /** What the scan has still to deliver. */
    ghost function Remaining(): seq<LeafEntry>
      requires pos <= |entries| && k <= |leaves|
      reads this
    {
      entries[pos..] + Flat(leaves[k..])
    }

    /** The next entry, loading further leaves as needed; None at the end. */
    method NextEntry(pm: PageManager) returns (r: Option<LeafEntry>)
      requires Valid(pm.pages)
      modifies this
      ensures Valid(pm.pages) && leaves == old(leaves)
      ensures old(Remaining()) == [] ==> r == None && Remaining() == []
      ensures old(Remaining()) != [] ==> r == Some(old(Remaining())[0]) && Remaining() == old(Remaining())[1..]
    {
      while true
        invariant Valid(pm.pages) && leaves == old(leaves) && Remaining() == old(Remaining())
        decreases |leaves| - k
      {
        hide Flat, Chain;
        if pos < |entries| {
          var e := entries[pos];
          ghost var rest := Flat(leaves[k..]);
          assert entries[pos..] + rest == [e] + (entries[pos + 1..] + rest);
          pos := pos + 1;
          return Some(e);
        }
        if nextLeafId == 0 {
          AtEnd(pm.pages, leaves, k);
          return None;
        }
        NextLinked(pm.pages, leaves, k);
        var leaf := pm.pages[nextLeafId];
        assert entries[pos..] == [];
        entries, pos, nextLeafId := leaf.entries, 0, leaf.next;
        k := k + 1;
      }
    }
  }

  lemma {:induction false} AtEnd(pages: map<PageId, Page>, leaves: seq<Tree>, k: nat)
    requires Chain(pages, leaves) && k <= |leaves| && IdOr0(leaves, k) == 0
    ensures Flat(leaves[k..]) == []
  {
    assert k < |leaves| ==> leaves[k].id != 0 by { NonZero(pages, leaves); }
  }

  lemma {:induction false} NonZero(pages: map<PageId, Page>, leaves: seq<Tree>)
    requires Chain(pages, leaves)
    ensures forall i :: 0 <= i < |leaves| ==> leaves[i].id != 0
  {
    forall i | 0 <= i < |leaves| ensures leaves[i].id != 0 {
      assert Linked(pages, leaves, i);
    }
  }

  lemma {:induction false} NextLinked(pages: map<PageId, Page>, leaves: seq<Tree>, k: nat)
    requires Chain(pages, leaves) && k <= |leaves| && IdOr0(leaves, k) != 0
    ensures k < |leaves| && leaves[k].id in pages
    ensures pages[leaves[k].id].Leaf? && pages[leaves[k].id].next == IdOr0(leaves, k + 1)
    ensures Flat(leaves[k..]) == pages[leaves[k].id].entries + Flat(leaves[k + 1..])
  {
    assert Linked(pages, leaves, k);
    assert leaves[k..][1..] == leaves[k + 1..];
  }

  /** The leaf that starts a scan, and the leaves after it. */
  lemma {:induction false} ScanFrom(c: Caps, pages: map<PageId, Page>, ctx: Ctx, t: Tree, m: int, leaves: seq<Tree>)
    requires t.TLeaf? && Hole(c, pages, ctx, t, 1, m, leaves)
    ensures Chain(pages, leaves) && 0 !in pages && |CtxLeft(ctx)| + 1 <= |leaves|
    ensures leaves == CtxLeft(ctx) + [t] + CtxRight(ctx) && leaves[|CtxLeft(ctx)| + 1..] == CtxRight(ctx)
    ensures t.id in pages && pages[t.id].Leaf? && pages[t.id].entries == t.entries
    ensures pages[t.id].next == IdOr0(leaves, |CtxLeft(ctx)| + 1)
  {
    hide WF, CtxWF, CtxSkel, CtxPages, CtxLeft, CtxRight;
    LeafPage(c, pages, ctx, t, m, leaves);
    assert leaves == CtxLeft(ctx) + [t] + CtxRight(ctx);
  }

  /** A cursor at the smallest key. */
  method First(tree: BTree) returns (cur: BTreeCursor)
    requires tree.Valid()
    ensures fresh(cur) && cur.Valid(tree.pm.pages) && cur.Remaining() == tree.Entries()
  {
    hide TreeOK, Hole, Leaves, Flat, IntPage, KidIds, ChildAt, Chain;
    var id := tree.root;
    ghost var ctx, t, h: nat, c, leaves := Top, tree.shape, tree.height, tree.C(), Leaves(tree.shape);
    AtRoot(c, tree.pm.pages, t, h, 0.0, leaves);
    while true
      invariant Hole(c, tree.pm.pages, ctx, t, h, LevelMin(c, ctx, h), leaves) && t.id == id && CtxLeft(ctx) == []
      decreases h
    {
      hide TreeOK, Hole, Leaves, Flat, IntPage, KidIds, ChildAt, Chain;
      LoadAny(c, tree.pm.pages, ctx, t, h, leaves);
      var page := tree.pm.pages[id];
      if page.Leaf? {
        ScanFrom(c, tree.pm.pages, ctx, t, LevelMin(c, ctx, h), leaves);
        cur := new BTreeCursor(page.entries, 0, page.next, leaves, 1);
        FirstCovers(ctx, t, leaves);
        return;
      }
      StepLeft(c, tree.pm.pages, ctx, t, h, leaves);
      id := if page.seps == [] then page.rightChild else page.seps[0].child;
      ctx, t, h := In(ctx, t.id, t.keys, t.kids, 0), t.kids[0], h - 1;
    }
  }

  lemma {:induction false} LoadAny(c: Caps, pages: map<PageId, Page>, ctx: Ctx, t: Tree, h: nat, leaves: seq<Tree>)
    requires Hole(c, pages, ctx, t, h, LevelMin(c, ctx, h), leaves)
    ensures t.id in pages
    ensures t.TLeaf? ==> h == 1 && pages[t.id].Leaf? && pages[t.id].entries == t.entries
    ensures t.TNode? ==> |t.kids| == |t.keys| + 1 && pages[t.id] == IntPage(t.keys, KidIds(t.kids))
  {
    hide Chain, CtxSkel, CtxWF, CtxLeft, CtxRight, CtxPages;
    if t.TLeaf? {
      LeafPage(c, pages, ctx, t, LevelMin(c, ctx, h), leaves);
    }
  }

  lemma {:induction false} StepLeft(c: Caps, pages: map<PageId, Page>, ctx: Ctx, t: Tree, h: nat, leaves: seq<Tree>)
    requires && Hole(c, pages, ctx, t, h, LevelMin(c, ctx, h), leaves) && t.TNode? && |t.kids| == |t.keys| + 1
             && CtxLeft(ctx) == []
    ensures var page := IntPage(t.keys, KidIds(t.kids));
            && h >= 2 && (if page.seps == [] then page.rightChild else page.seps[0].child) == t.kids[0].id
            && Hole(c, pages, In(ctx, t.id, t.keys, t.kids, 0), t.kids[0], h - 1, MinCount(c, h - 1), leaves)
            && CtxLeft(In(ctx, t.id, t.keys, t.kids, 0)) == []
  {
    hide Hole;
    Descend(c, pages, ctx, t, h, leaves, 0);
    assert t.kids[..0] == [];
  }

  lemma {:induction false} FirstCovers(ctx: Ctx, t: Tree, leaves: seq<Tree>)
    requires t.TLeaf? && CtxLeft(ctx) == [] && 1 <= |leaves| && leaves == CtxLeft(ctx) + [t] + CtxRight(ctx)
    ensures t.entries[0..] + Flat(leaves[1..]) == Flat(leaves)
  {
    assert leaves[0] == t;
  }

  /** A cursor at the first entry with key >= start. */
  method From(tree: BTree, start: Key) returns (cur: BTreeCursor, ghost a: nat)
    requires tree.Valid()
    ensures fresh(cur) && cur.Valid(tree.pm.pages) && a <= |tree.Entries()| && cur.Remaining() == tree.Entries()[a..]
    ensures forall i :: 0 <= i < a ==> tree.Entries()[i].key < start
    ensures forall i :: a <= i < |tree.Entries()| ==> start <= tree.Entries()[i].key
  {
    hide TreeOK, Hole, Leaves, Flat, At, Chain, LowerBound;
    var id, path, ctx, t := tree.FindLeafWithPath(start);
    var leaf := tree.pm.pages[id];
    ghost var c, leaves := tree.C(), Leaves(tree.shape);
    var pos := LowerBound(leaf.entries, start);
    a := StartAt(c, tree.pm.pages, tree.shape, tree.height, ctx, t, start, leaves);
    cur := new BTreeCursor(leaf.entries, pos, leaf.next, leaves, |CtxLeft(ctx)| + 1);
  }

  lemma {:induction false} StartAt(
      c: Caps, pages: map<PageId, Page>, s: Tree, h: nat, ctx: Ctx, t: Tree, start: Key, leaves: seq<Tree>)
    returns (a: nat)
    requires TreeOK(c, pages, s, h, leaves) && t.TLeaf? && At(c, pages, ctx, t, 1, start, leaves)
    ensures Chain(pages, leaves) && 0 !in pages && |CtxLeft(ctx)| + 1 <= |leaves|
    ensures t.id in pages && pages[t.id].Leaf? && pages[t.id].next == IdOr0(leaves, |CtxLeft(ctx)| + 1)
    ensures a <= |Flat(leaves)|
    ensures t.entries[LowerBound(t.entries, start)..] + Flat(leaves[|CtxLeft(ctx)| + 1..]) == Flat(leaves)[a..]
    ensures forall i :: 0 <= i < a ==> Flat(leaves)[i].key < start
    ensures forall i :: a <= i < |Flat(leaves)| ==> start <= Flat(leaves)[i].key
  {
    hide TreeOK, Hole, Flat, Chain, LowerBound, CtxLeft, CtxRight;
    ScanFrom(c, pages, ctx, t, LevelMin(c, ctx, 1), leaves);
    SidesOf(c, pages, ctx, t, start, leaves);
    LeafFacts(c, pages, ctx, t, LevelMin(c, ctx, 1), leaves);
    a := |Flat(CtxLeft(ctx))| + LowerBound(t.entries, start);
    CutAt(Flat(CtxLeft(ctx)), t.entries, Flat(CtxRight(ctx)), start);
  }

  lemma {:induction false} CutAt(l: seq<LeafEntry>, es: seq<LeafEntry>, r: seq<LeafEntry>, start: Key)
    requires Surrounds(l, start, r) && Sorted(es)
    ensures var n, all := LowerBound(es, start), l + es + r;
            && es[n..] + r == all[|l| + n..]
            && (forall i :: 0 <= i < |l| + n ==> all[i].key < start)
            && (forall i :: |l| + n <= i < |all| ==> start <= all[i].key)
  {
    hide LowerBound;
    var n, all := LowerBound(es, start), l + es + r;
    SliceOfThree(l, es, r, n);
    assert forall j :: n <= j < |es| ==> es[n].key <= es[j].key;
    forall i | 0 <= i < |all| ensures if i < |l| + n then all[i].key < start else start <= all[i].key {
      assert all[i] == if i < |l| then l[i] else if i < |l| + |es| then es[i - |l|] else r[i - |l| - |es|];
    }
  }

  lemma {:induction false} SliceOfThree<T>(l: seq<T>, es: seq<T>, r: seq<T>, n: nat)
    requires n <= |es|
    ensures es[n..] + r == (l + es + r)[|l| + n..]
  {
  }

  ghost predicate InRange(k: Key, start: Option<Key>, end: Option<Key>) {
    (start.Some? ==> start.value <= k) && (end.Some? ==> k < end.value)
  }

  /** All entries with start <= key < end, in ascending key order. */
  method Range(tree: BTree, start: Option<Key>, end: Option<Key>) returns (results: seq<LeafEntry>)
    requires tree.Valid()
    ensures Sorted(results)
    ensures MapOf(results) == map k | k in tree.Contents() && InRange(k, start, end) :: tree.Contents()[k]
  {
    hide Flat, MapOf, Sorted, InRange, TreeOK, Leaves;
    ghost var all := tree.Entries();
    var cur: BTreeCursor;
    ghost var a := 0;
    if start.Some? {
      cur, a := From(tree, start.value);
    } else {
      cur := First(tree);
      assert all[0..] == all;
    }
    ghost var b;
    results, b := Collect(cur, tree.pm, end, all, a);
    TreeSorted(tree.C(), tree.pm.pages, tree.shape, tree.height, Leaves(tree.shape));
    SliceIs(all, a, b, start, end);
  }

  /** Pulls entries off a cursor until one reaches the end key. */
  method Collect(cur: BTreeCursor, pm: PageManager, end: Option<Key>, ghost all: seq<LeafEntry>, ghost a: nat)
    returns (results: seq<LeafEntry>, ghost b: nat)
    requires cur.Valid(pm.pages) && a <= |all| && cur.Remaining() == all[a..]
    modifies cur
    ensures a <= b <= |all| && results == all[a..b]
    ensures end.Some? ==> forall i :: a <= i < b ==> all[i].key < end.value
    ensures b == |all| || (end.Some? && all[b].key >= end.value)
  {
    hide Flat, Chain;
    results := [];
    b := a;
    while true
      invariant cur.Valid(pm.pages) && a <= b <= |all| && cur.Remaining() == all[b..] && results == all[a..b]
      invariant end.Some? ==> forall i :: a <= i < b ==> all[i].key < end.value
      decreases |all| - b
    {
      var item := cur.NextEntry(pm);
      if item.None? {
        return;
      }
      assert item.value == all[b];
      if end.Some? && item.value.key >= end.value {
        return;
      }
      results := results + [item.value];
      b := b + 1;
    }
  }

  /** Between the two cut points lie exactly the keys of the range. */
  lemma {:induction false} SliceKeys(es: seq<LeafEntry>, a: nat, b: nat, start: Option<Key>, end: Option<Key>, k: Key)
    requires Sorted(es) && a <= b <= |es|
    requires start.None? ==> a == 0
    requires start.Some? ==>
      (forall i :: 0 <= i < a ==> es[i].key < start.value) && (forall i :: a <= i < |es| ==> start.value <= es[i].key)
    requires end.Some? ==> forall i :: a <= i < b ==> es[i].key < end.value
    requires b == |es| || (end.Some? && es[b].key >= end.value)
    ensures HasKey(es[a..b], k) <==> HasKey(es, k) && InRange(k, start, end)
  {
    var s := es[a..b];
    assert forall i :: 0 <= i < |s| ==> s[i] == es[a + i];
    if HasKey(es, k) && InRange(k, start, end) {
      var i :| 0 <= i < |es| && es[i].key == k;
      assert a <= i < b;
      assert s[i - a].key == k;
    }
  }

  /** A slice of a sorted sequence between two cut points is the range between
      the two keys. */
  lemma {:induction false} SliceIs(es: seq<LeafEntry>, a: nat, b: nat, start: Option<Key>, end: Option<Key>)
    requires Sorted(es) && a <= b <= |es|
    requires start.None? ==> a == 0
    requires start.Some? ==>
      (forall i :: 0 <= i < a ==> es[i].key < start.value) && (forall i :: a <= i < |es| ==> start.value <= es[i].key)
    requires end.Some? ==> forall i :: a <= i < b ==> es[i].key < end.value
    requires b == |es| || (end.Some? && es[b].key >= end.value)
    ensures Sorted(es[a..b])
    ensures MapOf(es[a..b]) == map k | k in MapOf(es) && InRange(k, start, end) :: MapOf(es)[k]
  {
    hide InRange, MapOf, HasKey;
    var s := es[a..b];
    var m := map k | k in MapOf(es) && InRange(k, start, end) :: MapOf(es)[k];
    forall k ensures k in MapOf(s) <==> k in m {
      MapHas(s, k);
      MapHas(es, k);
      SliceKeys(es, a, b, start, end, k);
    }
    forall k | k in m ensures MapOf(s)[k] == m[k] {
      SliceValue(es, a, b, k);
    }
  }

  lemma {:induction false} SliceValue(es: seq<LeafEntry>, a: nat, b: nat, k: Key)
    requires Sorted(es) && a <= b <= |es| && k in MapOf(es[a..b])
    ensures Sorted(es[a..b]) && k in MapOf(es) && MapOf(es[a..b])[k] == MapOf(es)[k]
  {
    hide MapOf;
    var s := es[a..b];
    MapHas(s, k);
    var i :| 0 <= i < |s| && s[i].key == k;
    MapAt(s, i);
    MapAt(es, a + i);
  }
}
