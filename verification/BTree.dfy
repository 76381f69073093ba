/** The B+Tree index: an object that reads and writes pages, proved to behave
    as a finite map. */
module BTrees {
  import opened Prelude
  import opened BTreeShape
  import opened BTreeSteps
  import opened BTreePages
  import opened BTreeSearch
  import opened BTreeRebalance
  import opened PageKeys
  import opened PageStore
  import opened NodeLayout

  datatype TreeError = DuplicateKey | KeyNotFound

  /** A single empty leaf beside the metadata page is a tree. */
  lemma {:induction false} FirstTree(c: Caps, pages: map<PageId, Page>, rootId: PageId)
    requires && CapsOK(c) && pages.Keys == {META_PAGE_ID, rootId} && rootId > META_PAGE_ID
             && pages[META_PAGE_ID].Meta? && pages[rootId] == Leaf([], 0, 0)
    ensures var t := TLeaf(rootId, []);
            TreeOK(c, pages, t, 1, Leaves(t)) && Flat(Leaves(t)) == [] && MapOf(Flat(Leaves(t))) == map[]
  {
    var t := TLeaf(rootId, []);
    assert multiset(pages.Keys) == multiset{META_PAGE_ID} + Pages(t);
    assert Linked(pages, [t], 0);
    assert Flat([t]) == [] + Flat([]);
  }

  // ── What a step does to the pages ───────────────────────────────────

  /** Every leaf page is as it was. */
  ghost predicate LeavesKept(p: map<PageId, Page>, q: map<PageId, Page>) {
    forall id :: id in p && p[id].Leaf? ==> id in q && q[id] == p[id]
  }

  /** No page was added, and every leaf page is as it was. */
  ghost predicate OnlyAbove(p: map<PageId, Page>, q: map<PageId, Page>) { LeavesKept(p, q) && q.Keys <= p.Keys }

  /** The left leaf's last entry is now the right leaf's first, and separates
      them; no other page changed. */
  ghost predicate LeafLentRight(p: map<PageId, Page>, q: map<PageId, Page>, x: PageId, y: PageId, up: PageId, a: nat) {
    && x in p && p[x].Leaf? && y in p && p[y].Leaf? && up in p && p[up].Internal? && a < |p[up].seps|
    && |p[x].entries| > 0
    && var n := |p[x].entries| - 1;
       var e := p[x].entries[n];
       q == p[x := p[x].(entries := p[x].entries[..n])][y := p[y].(entries := [e] + p[y].entries)]
             [up := SetSep(p[up], a, e.key)]
  }

  /** The right leaf's first entry is now the left leaf's last, and the next one
      separates them; no other page changed. */
  ghost predicate LeafLentLeft(p: map<PageId, Page>, q: map<PageId, Page>, x: PageId, y: PageId, up: PageId, a: nat) {
    && x in p && p[x].Leaf? && y in p && p[y].Leaf? && up in p && p[up].Internal? && a < |p[up].seps|
    && |p[y].entries| > 1
    && q == p[x := p[x].(entries := p[x].entries + [p[y].entries[0]])][y := p[y].(entries := p[y].entries[1..])]
             [up := SetSep(p[up], a, p[y].entries[1].key)]
  }

  /** The right leaf's entries follow the left leaf's on one page. */
  ghost predicate LeavesJoined(p: map<PageId, Page>, q: map<PageId, Page>, x: PageId, y: PageId) {
    && x in p && p[x].Leaf? && y in p && p[y].Leaf? && y !in q && q.Keys <= p.Keys
    && x in q && q[x] == p[x].(entries := p[x].entries + p[y].entries, next := p[y].next)
  }

  /** What an underfull leaf does: it takes an entry from its left sibling if that
      has one to spare and otherwise joins it; the first child does so with its
      right sibling. */
  ghost predicate LeafRefilled(
      p: map<PageId, Page>, q: map<PageId, Page>, min: nat, up: PageId, i: nat, id: PageId) {
    && up in p && p[up].Internal?
    && if i > 0 then
         var left := ChildAt(p[up], i - 1);
         && left in p && p[left].Leaf?
         && if |p[left].entries| > min then LeafLentRight(p, q, left, id, up, i - 1) else LeavesJoined(p, q, left, id)
       else
         var right := ChildAt(p[up], 1);
         && right in p && p[right].Leaf?
         && if |p[right].entries| > min then LeafLentLeft(p, q, id, right, up, 0) else LeavesJoined(p, q, id, right)
  }

  /** The separator came down into the right node with the left node's last
      child, and the left node's last separator went up. */
  ghost predicate NodeLentRight(p: map<PageId, Page>, q: map<PageId, Page>, x: PageId, y: PageId, up: PageId, a: nat) {
    && x in p && p[x].Internal? && y in p && p[y].Internal? && up in p && p[up].Internal? && a < |p[up].seps|
    && |p[x].seps| > 0
    && var n := |p[x].seps| - 1;
       q == p[x := Internal(p[x].seps[..n], p[x].seps[n].child)]
             [y := p[y].(seps := [InternalEntry(p[up].seps[a].key, p[x].rightChild)] + p[y].seps)]
             [up := SetSep(p[up], a, p[x].seps[n].key)]
  }

  /** The separator came down into the left node with the right node's first
      child, and the right node's first separator went up. */
  ghost predicate NodeLentLeft(p: map<PageId, Page>, q: map<PageId, Page>, x: PageId, y: PageId, up: PageId, a: nat) {
    && x in p && p[x].Internal? && y in p && p[y].Internal? && up in p && p[up].Internal? && a < |p[up].seps|
    && |p[y].seps| > 0
    && q == p[x := Internal(p[x].seps + [InternalEntry(p[up].seps[a].key, p[x].rightChild)], p[y].seps[0].child)]
             [y := p[y].(seps := p[y].seps[1..])][up := SetSep(p[up], a, p[y].seps[0].key)]
  }

  /** What an underfull internal node does, with the same preferences; of two
      nodes that join the right one's page is freed. */
  ghost predicate NodeRefilled(
      p: map<PageId, Page>, q: map<PageId, Page>, min: nat, up: PageId, i: nat, id: PageId) {
    && up in p && p[up].Internal?
    && if i > 0 then
         var left := ChildAt(p[up], i - 1);
         && left in p && p[left].Internal?
         && if |p[left].seps| > min then NodeLentRight(p, q, left, id, up, i - 1) else id in p && id !in q
       else
         var right := ChildAt(p[up], 1);
         && right in p && p[right].Internal?
         && if |p[right].seps| > min then NodeLentLeft(p, q, id, right, up, 0) else right !in q
  }

  /** The parent without the child at j and the separator before it; a root left
      with one child gives way to that child instead. */
  ghost predicate ChildDropped(
      p: map<PageId, Page>, q: map<PageId, Page>, id: PageId, parent: Page, j: nat, isRoot: bool, root: PageId) {
    && parent.Internal? && 0 < j <= |parent.seps|
    && var keys, ids := RemoveAt(KeysOf(parent), j - 1), RemoveAt(IdsOf(parent), j);
       if isRoot && |keys| == 0 then q == p - {id} && |ids| == 1 && root == ids[0]
       else |ids| == |keys| + 1 && q == p[id := IntPage(keys, ids)]
  }

  lemma {:induction false} LastChild(keys: seq<Key>, ids: seq<PageId>)
    requires |ids| == |keys| + 1
    ensures IntPage(keys, ids).rightChild == ids[|keys|]
  {
  }

  /** A new file with the metadata page and an empty root leaf. */
  function NewIndex(): (r: (PageManager, PageId))
    ensures r.0.Valid() && r.0.freeList == [] && r.0.numPages == 3 && |r.0.pages| == 2 && r.1 == 2
    ensures r.0.pages == map[META_PAGE_ID := Meta(2, 1, 0), 2 := Leaf([], 0, 0)]
  {
    var (pm1, metaId) := PageManager(map[], 1, []).Allocate();
    var (pm2, rootId) := pm1.Allocate();
    (pm2.Save(rootId, Leaf([], 0, 0), 0).Write(metaId, Meta(rootId, 1, 0)), rootId)
  }

  class BTree {
    const cfg: KeyConfig
    var pm: PageManager
    var root: PageId
    var height: nat
    var numEntries: nat
    ghost var shape: Tree

    /** Every key ever inserted. */
    ghost var known: iset<Key>

    ghost function C(): Caps { CapsOf(cfg) }

    /** The entries in key order. */
    ghost function Entries(): seq<LeafEntry>
      reads this
    {
      Flat(Leaves(shape))
    }

    /** The finite map the tree stands for. */
    ghost function Contents(): map<Key, (nat, nat)>
      reads this
    {
      MapOf(Entries())
    }

    ghost predicate StoreOK()
      reads this
    {
      pm.Valid() && KeysIn(pm.pages, known)
    }

    /** The pages form a well-formed tree under root; the metadata page may be
        stale. */
    ghost predicate Sound()
      reads this
    {
      CapsOK(C()) && StoreOK() && root == shape.id && TreeOK(C(), pm.pages, shape, height, Leaves(shape))
    }

    ghost predicate Valid()
      reads this
    {
      && Sound()
      && numEntries == |Entries()|
      && META_PAGE_ID in pm.pages && pm.pages[META_PAGE_ID] == Meta(root, height, numEntries)
    }

    constructor (cfg: KeyConfig)
      requires CapsOK(CapsOf(cfg))
      ensures Valid() && this.cfg == cfg && Contents() == map[] && height == 1 && root == 2
      ensures known == iset{} && pm.Lost() == 0 && pm.freeList == []
    {
      this.cfg := cfg;
      var (store, rootId) := NewIndex();
      pm := store;
      root, height, numEntries := rootId, 1, 0;
      shape := TLeaf(rootId, []);
      known := iset{};
      new;
      hide NewIndex, LeafMaxEntries, LeafMinEntries, InternalMaxKeys, InternalMinKeys, TreeOK, Leaves, Flat, MapOf;
      FirstTree(C(), pm.pages, rootId);
    }

    /** Opens an existing index: root, height and entry count come from the
        metadata page. */
    constructor Open(cfg: KeyConfig, pm: PageManager, ghost shape: Tree, ghost known: iset<Key>)
      requires CapsOK(CapsOf(cfg)) && pm.Valid() && KeysIn(pm.pages, known)
      requires META_PAGE_ID in pm.pages && pm.pages[META_PAGE_ID].Meta?
      requires var meta := pm.pages[META_PAGE_ID];
               && meta.root == shape.id && meta.numEntries == |Flat(Leaves(shape))|
               && TreeOK(CapsOf(cfg), pm.pages, shape, meta.height, Leaves(shape))
      ensures Valid() && this.cfg == cfg && this.pm == pm && this.shape == shape && this.known == known
    {
      this.cfg, this.pm, this.shape, this.known := cfg, pm, shape, known;
      var meta := pm.pages[META_PAGE_ID];
      root, height, numEntries := meta.root, meta.height, meta.numEntries;
    }

    /** Writes root, height and entry count to the metadata page. */
    method FlushMeta()
      requires Sound()
      modifies this`pm
      ensures Sound() && META_PAGE_ID in pm.pages && pm.pages[META_PAGE_ID] == Meta(root, height, numEntries)
      ensures |pm.pages| == |old(pm).pages| && pm.numPages == old(pm).numPages && pm.freeList == old(pm).freeList
    {
      KeysWrite(pm.pages, known, META_PAGE_ID, Meta(root, height, numEntries));
      pm := pm.Write(META_PAGE_ID, Meta(root, height, numEntries));
      MetaFrame(C(), old(pm.pages), Meta(root, height, numEntries), shape, height, Leaves(shape));
    }

    // ── Search ────────────────────────────────────────────────────────

    /** Descends to the leaf that would hold key, recording the page and child
        index taken at each level. */
    method FindLeafWithPath(key: Key) returns (id: PageId, path: seq<(PageId, nat)>, ghost ctx: Ctx, ghost t: Tree)
      requires Sound()
      ensures t.TLeaf? && t.id == id && At(C(), pm.pages, ctx, t, 1, key, Leaves(shape))
      ensures path == PathOf(ctx) && Plug(ctx, t) == shape
      ensures root == RootId(ctx, t.id) && height == 1 + Depth(ctx)
      ensures id in pm.pages && pm.pages[id].Leaf? && pm.pages[id].entries == t.entries
    {
      hide TreeOK, At;
      id, path, ctx, t := root, [], Top, shape;
      ghost var h: nat, c, leaves := height, C(), Leaves(shape);
      AtRoot(c, pm.pages, t, h, key, leaves);
      while true
        invariant At(c, pm.pages, ctx, t, h, key, leaves) && t.id == id
        invariant path == PathOf(ctx) && Plug(ctx, t) == shape
        invariant root == RootId(ctx, t.id) && height == h + Depth(ctx)
        decreases h
      {
        hide TreeOK, At, KidIds, IntPage, FindChildIndex, ChildAt;
        LoadNode(c, pm.pages, ctx, t, h, key, leaves);
        var page := pm.pages[id];
        if page.Leaf? {
          return;
        }
        StepDown(c, pm.pages, ctx, t, h, key, leaves);
        var i := FindChildIndex(page.seps, key);
        path := path + [(id, i)];
        id := ChildAt(page, i);
        ctx, t, h := In(ctx, t.id, t.keys, t.kids, i), t.kids[i], h - 1;
      }
    }

    /** Looks key up. */
    method Search(key: Key) returns (r: Option<(nat, nat)>)
      requires Valid()
      ensures r == if key in Contents() then Some(Contents()[key]) else None
    {
      hide LowerBound, At, TreeOK, MapOf, Flat, Leaves;
      var id, path, ctx, t := FindLeafWithPath(key);
      var es := pm.pages[id].entries;
      LeafDecides(C(), pm.pages, shape, height, ctx, t, key, Leaves(shape));
      var i := LowerBound(es, key);
      if i < |es| && es[i].key == key {
        r := Some((es[i].pageId, es[i].slotId));
      } else {
        r := None;
      }
    }

    // ── Insert ────────────────────────────────────────────────────────

    /** Adds key; a key already present is refused and nothing changes. */
    method Insert(key: Key, pageId: nat, slotId: nat) returns (r: Result<(), TreeError>)
      requires Valid()
      modifies this
      ensures Valid()
      ensures key in old(Contents()) ==> r == Err(DuplicateKey) && unchanged(this)
      ensures key !in old(Contents()) ==> r == Ok(()) && Contents() == old(Contents())[key := (pageId, slotId)]
      ensures r.Ok? ==> Grown(old(pm), pm) && known == old(known) + iset{key}
    {
      hide KeysIn, EntryKeys, SepKeys, LowerBound, At, TreeOK, MapOf, Flat, Leaves, InsertEntry, Hole, Hole2,
        LeafMaxEntries, LeafMinEntries, InternalMaxKeys, InternalMinKeys, SplitPages, CapsOK;
      var id, path, ctx, t := FindLeafWithPath(key);
      var leaf := pm.pages[id];
      ghost var c, leaves, pages := C(), Leaves(shape), pm.pages;
      LeafDecides(c, pm.pages, shape, height, ctx, t, key, leaves);
      var i := LowerBound(leaf.entries, key);
      if i < |leaf.entries| && leaf.entries[i].key == key {
        return Err(DuplicateKey);
      }
      var e := LeafEntry(key, pageId, slotId);
      var es, counter := InsertEntry(leaf.entries, e), |leaf.entries| + 1;
      InsertLeafOK(c, pm.pages, ctx, t, key, leaves, e);
      KeysWiden(pm.pages, known, key);
      known := known + iset{key};
      KeysRead(pm.pages, known, id);
      EntryKeysInsert(leaf.entries, e, known);
      InsertEntryCount(leaf.entries, e);
      if counter <= LeafMaxEntries(cfg) {
        KeysWrite(pm.pages, known, id, leaf.(entries := es));
        pm := pm.Save(id, leaf.(entries := es), counter);
        LeafSaved(c, pages, ctx, t, key, leaves, es);
        shape := Plug(ctx, TLeaf(id, es));
        ghost var ls := CtxLeft(ctx) + [TLeaf(id, es)] + CtxRight(ctx);
        FlatAround(CtxLeft(ctx), TLeaf(id, es), CtxRight(ctx));
        InsertDone(c, pages, ctx, t, key, leaves, e, pm.pages, shape, height, ls);
        numEntries := numEntries + 1;
        TreeLeaves(c, pm.pages, shape, height, ls);
        FlushMeta();
        return Ok(());
      }
      ghost var ls := SplitAndPropagate(id, leaf.(entries := es), path, ctx, t, key, leaves);
      InsertDone(c, pages, ctx, t, key, leaves, e, pm.pages, shape, height, ls);
      numEntries := numEntries + 1;
      FlushMeta();
      return Ok(());
    }

    /** Saves the halves of an overfull leaf, relinks its neighbour and carries
        the new separator up. */
    method SplitAndPropagate(id: PageId, full: Page, path: seq<(PageId, nat)>,
                             ghost ctx: Ctx, ghost t: Tree, ghost key: Key, ghost leaves: seq<Tree>)
      returns (ghost ls: seq<Tree>)
      requires CapsOK(C()) && StoreOK() && KeysOn(full, known) && path == PathOf(ctx)
      requires t.TLeaf? && t.id == id && At(C(), pm.pages, ctx, t, 1, key, leaves)
      requires id in pm.pages && pm.pages[id].Leaf? && full.Leaf? && full == pm.pages[id].(entries := full.entries)
      requires 2 <= |full.entries| == C().leafMax + 1
      requires Sorted(full.entries) && AllWithin(full.entries, Lo(ctx), Hi(ctx))
      requires root == RootId(ctx, id) && height == 1 + Depth(ctx)
      modifies `pm, `root, `height, `shape
      ensures Sound() && Leaves(shape) == ls && Grown(old(pm), pm)
      ensures Flat(ls) == Flat(CtxLeft(ctx)) + full.entries + Flat(CtxRight(ctx))
      ensures id in pm.pages && pm.pages[id].Leaf?
      ensures var mid, rid := |full.entries| / 2, pm.pages[id].next;
              && pm.pages[id] == Leaf(full.entries[..mid], rid, full.prev) && rid !in old(pm.pages)
              && rid in pm.pages && pm.pages[rid] == Leaf(full.entries[mid..], full.next, id)
    {
      hide KeysIn, EntryKeys, At, TreeOK, Flat, Leaves, Hole, Hole2, LeafMaxEntries, LeafMinEntries, InternalMaxKeys,
        InternalMinKeys, SplitPages, CapsOK, Sorted, AllWithin;
      ghost var c, pages, es := C(), pm.pages, full.entries;
      var left, rightId, right, promoted := SplitLeaf(id, full);
      KeysWrite(pages, known, rightId, Blank);
      HalvesKnown(es, known);
      KeysWrite(pm.pages, known, id, left);
      pm := pm.Save(id, left, |left.entries|);
      KeysWrite(pm.pages, known, rightId, right);
      pm := pm.Save(rightId, right, |right.entries|);
      ghost var l, r := LeafSplitSaved(c, pages, ctx, t, key, leaves, es, rightId);
      if right.next != 0 {
        var next := pm.pages[right.next];
        KeysRead(pm.pages, known, right.next);
        KeysWrite(pm.pages, known, right.next, next.(prev := rightId));
        pm := pm.Save(right.next, next.(prev := rightId), |next.entries|);
      }
      SplitWrites(pages, rightId, l, r, full.prev, full.next);
      ls := CtxLeft(ctx) + [l, r] + CtxRight(ctx);
      PropagateSplit(path, promoted, rightId, ctx, l, r, ls);
    }

    /** Cuts a full leaf in two; the right half goes to a new page, linked in
        after the left one. */
    method SplitLeaf(id: PageId, full: Page) returns (left: Page, rightId: PageId, right: Page, promoted: Key)
      requires pm.Valid() && full.Leaf? && |full.entries| >= 2
      modifies this`pm
      ensures pm.Valid() && rightId !in old(pm.pages) && 1 <= rightId && pm.pages == old(pm.pages)[rightId := Blank]
      ensures Grown(old(pm), pm)
      ensures var mid := |full.entries| / 2;
              && left == Leaf(full.entries[..mid], rightId, full.prev)
              && right == Leaf(full.entries[mid..], full.next, id)
              && promoted == full.entries[mid].key
    {
      var mid := |full.entries| / 2;
      var rightEntries := full.entries[mid..];
      left := full.(entries := full.entries[..mid]);
      var (pm', rid) := pm.Allocate();
      pm, rightId := pm', rid;
      right := Leaf(rightEntries, left.next, id);
      left := left.(next := rightId);
      promoted := right.entries[0].key;
    }

    /** Cuts a full internal node in two around its median separator, which goes
        to neither half. */
    method SplitInternal(full: Page) returns (left: Page, rightId: PageId, right: Page, promoted: Key)
      requires pm.Valid() && full.Internal? && |full.seps| >= 1
      modifies this`pm
      ensures pm.Valid() && rightId !in old(pm.pages) && 1 <= rightId && pm.pages == old(pm.pages)[rightId := Blank]
      ensures Grown(old(pm), pm)
      ensures var mid := |full.seps| / 2;
              && left == Internal(full.seps[..mid], full.seps[mid].child)
              && right == Internal(full.seps[mid + 1..], full.rightChild)
              && promoted == full.seps[mid].key
    {
      var mid := |full.seps| / 2;
      promoted := full.seps[mid].key;
      var rightSeps := full.seps[mid + 1..];
      var midEntry := full.seps[mid];
      var (pm', rid) := pm.Allocate();
      pm, rightId := pm', rid;
      right := Internal(rightSeps, full.rightChild);
      left := Internal(full.seps[..mid], midEntry.child);
    }

    /** Walks back up the path, inserting the promoted separator at each level
        and splitting further where needed; past the root, the tree grows. */
    method PropagateSplit(path0: seq<(PageId, nat)>, promoted0: Key, rightId0: PageId,
                          ghost ctx0: Ctx, ghost l0: Tree, ghost r0: Tree, ghost leaves: seq<Tree>)
      requires CapsOK(C()) && StoreOK() && promoted0 in known && path0 == PathOf(ctx0) && r0.id == rightId0
      requires Hole2(C(), pm.pages, ctx0, l0, promoted0, r0, 1, leaves)
      requires root == RootId(ctx0, l0.id) && height == 1 + Depth(ctx0)
      modifies `pm, `root, `height, `shape
      ensures Sound() && Leaves(shape) == leaves && Grown(old(pm), pm) && LeavesKept(old(pm.pages), pm.pages)
    {
      hide KeysIn, SepKeys, Hole, Hole2, Pending, TreeOK, Leaves, LeafMaxEntries, LeafMinEntries, InternalMaxKeys,
        InternalMinKeys, IntPage, KidIds, InsertSep, CapsOK;
      var path, promoted, rightId := path0, promoted0, rightId0;
      ghost var ctx, l, r, h: nat, c := ctx0, l0, r0, 1, C();
      while path != []
        invariant CapsOK(c) && StoreOK() && promoted in known && path == PathOf(ctx) && r.id == rightId
        invariant Grown(old(pm), pm) && LeavesKept(old(pm.pages), pm.pages)
        invariant Hole2(c, pm.pages, ctx, l, promoted, r, h, leaves)
        invariant root == RootId(ctx, l.id) && height == h + Depth(ctx)
        decreases |path|
      {
        hide KeysIn, SepKeys, Hole, Hole2, Pending, TreeOK, Leaves, LeafMaxEntries, LeafMinEntries, InternalMaxKeys,
          InternalMinKeys, IntPage, KidIds, InsertSep, CapsOK;
        var (parentId, _) := path[|path| - 1];
        path := path[..|path| - 1];
        assert path == PathOf(ctx.up) && parentId == ctx.id;
        ghost var keys, kids := ParentGrown(c, pm.pages, ctx, l, promoted, r, h, leaves);
        var counter := |pm.pages[parentId].seps| + 1;
        var parent := InsertSep(pm.pages[parentId], promoted, rightId);
        InsertSepCount(pm.pages[parentId], promoted, rightId);
        KeysRead(pm.pages, known, parentId);
        SepKeysInsert(pm.pages[parentId], promoted, rightId, known);
        if counter <= InternalMaxKeys(cfg) {
          ghost var pages := pm.pages;
          KeysWrite(pm.pages, known, parentId, parent);
          pm := pm.Save(parentId, parent, counter);
          shape := FinishLevel(c, pages, ctx.up, parentId, keys, kids, h, leaves, |keys|);
          TreeLeaves(c, pm.pages, shape, height, leaves);
          return;
        }
        promoted, rightId, l, r := SplitParent(parentId, parent, ctx.up, keys, kids, h, leaves);
        ctx, h := ctx.up, h + 1;
      }
      GrowRoot(promoted, rightId, l, r, leaves);
    }

    /** Splits an overfull node in two pages. */
    method SplitParent(
        id: PageId, full: Page, ghost up: Ctx, ghost keys: seq<Key>, ghost kids: seq<Tree>, ghost h: nat,
        ghost leaves: seq<Tree>)
      returns (promoted: Key, rightId: PageId, ghost l: Tree, ghost r: Tree)
      requires && CapsOK(C()) && StoreOK() && Pending(C(), pm.pages, up, id, keys, kids, h, leaves)
               && |kids| == |keys| + 1
      requires |keys| == C().intMax + 1 && full == IntPage(keys, KidIds(kids)) && KeysOn(full, known)
      modifies `pm
      ensures Hole2(C(), pm.pages, up, l, promoted, r, h + 1, leaves) && l.id == id && r.id == rightId
      ensures StoreOK() && promoted in known && Grown(old(pm), pm) && LeavesKept(old(pm.pages), pm.pages)
      ensures var mid := |full.seps| / 2;
              && promoted == full.seps[mid].key && rightId !in old(pm.pages)
              && pm.pages == old(pm.pages)[id := Internal(full.seps[..mid], full.seps[mid].child)]
                                          [rightId := Internal(full.seps[mid + 1..], full.rightChild)]
    {
      hide KeysIn, Hole2, Pending, LeafMaxEntries, LeafMinEntries, InternalMaxKeys, InternalMinKeys, IntPage, KidIds,
        CapsOK;
      ghost var pages := pm.pages;
      PendingPage(C(), pages, up, id, keys, kids, h, leaves);
      var left, newId, right, newPromoted := SplitInternal(full);
      KeysWrite(pages, known, newId, Blank);
      KeysWrite(pm.pages, known, id, left);
      pm := pm.Save(id, left, |left.seps|);
      KeysWrite(pm.pages, known, newId, right);
      pm := pm.Save(newId, right, |right.seps|);
      l, r := NodeSplitSaved(C(), pages, up, id, keys, kids, h, leaves, newId);
      assert pm.pages == pages[id := left][newId := right];
      promoted, rightId := newPromoted, newId;
    }

    /** Puts a new root above the two halves of the old one. */
    method GrowRoot(promoted: Key, rightId: PageId, ghost l: Tree, ghost r: Tree, ghost leaves: seq<Tree>)
      requires CapsOK(C()) && StoreOK() && promoted in known && r.id == rightId && root == l.id && height >= 1
      requires Hole2(C(), pm.pages, Top, l, promoted, r, height, leaves)
      modifies `pm, `root, `height, `shape
      ensures Sound() && Leaves(shape) == leaves && Grown(old(pm), pm) && LeavesKept(old(pm.pages), pm.pages)
      ensures root !in old(pm.pages) && height == old(height) + 1
      ensures pm.pages == old(pm.pages)[root := Internal([InternalEntry(promoted, old(root))], rightId)]
    {
      hide KeysIn, Hole2, TreeOK, Leaves, LeafMaxEntries, LeafMinEntries, InternalMaxKeys, InternalMinKeys, CapsOK;
      var (pm', newRoot) := pm.Allocate();
      ghost var pages := pm.pages;
      KeysWrite(pages, known, newRoot, Internal([InternalEntry(promoted, root)], rightId));
      pm := pm'.Save(newRoot, Internal([InternalEntry(promoted, root)], rightId), 1);
      GrowRootSaved(C(), pages, l, promoted, r, height, leaves, newRoot);
      assert pm.pages == pages[newRoot := Internal([InternalEntry(promoted, root)], rightId)];
      shape := TNode(newRoot, [promoted], [l, r]);
      root, height := newRoot, height + 1;
      TreeLeaves(C(), pm.pages, shape, height, leaves);
    }

    // ── Delete ────────────────────────────────────────────────────────

    /** Removes key; a missing key is an error and nothing changes. */
    method Delete(key: Key) returns (r: Result<(), TreeError>)
      requires Valid()
      modifies this
      ensures Valid()
      ensures key !in old(Contents()) ==> r == Err(KeyNotFound) && unchanged(this)
      ensures key in old(Contents()) ==> r == Ok(()) && Contents() == old(Contents()) - {key}
      ensures Released(old(pm), pm) && known == old(known)
    {
      hide KeysIn, EntryKeys, SepKeys, LowerBound, At, TreeOK, MapOf, Flat, Leaves, Hole, LeafMaxEntries,
        LeafMinEntries, InternalMaxKeys, InternalMinKeys, CapsOK, RemoveAt;
      var id, path, ctx, t := FindLeafWithPath(key);
      var leaf := pm.pages[id];
      ghost var c, leaves, pages := C(), Leaves(shape), pm.pages;
      LeafDecides(c, pm.pages, shape, height, ctx, t, key, leaves);
      var i := LowerBound(leaf.entries, key);
      if !(i < |leaf.entries| && leaf.entries[i].key == key) {
        return Err(KeyNotFound);
      }
      KeysRead(pages, known, id);
      EntryKeysRemove(leaf.entries, i, known);
      var counter := |leaf.entries| - 1;
      leaf := leaf.(entries := RemoveAt(leaf.entries, i));
      ghost var t', ls := LeafRemoved(c, pages, shape, height, ctx, t, key, leaves, i);
      KeysWrite(pages, known, id, leaf);
      pm := pm.Save(id, leaf, counter);
      numEntries := numEntries - 1;
      if path == [] || counter >= LeafMinEntries(cfg) {
        shape := Plug(ctx, t');
        RemovedFits(c, pm.pages, ctx, t', ls);
        FlushMeta();
        return Ok(());
      }
      RebalanceLeaf(id, leaf, path, ctx, t', ls);
      FlushMeta();
      return Ok(());
    }

    /** An underfull leaf borrows from or merges with a sibling, the left one
        first. */
    method RebalanceLeaf(
        id: PageId, leaf: Page, path0: seq<(PageId, nat)>, ghost ctx: Ctx, ghost t: Tree, ghost leaves: seq<Tree>)
      requires CapsOK(C()) && StoreOK() && ctx.In? && path0 == PathOf(ctx)
      requires && t.TLeaf? && t.id == id && id in pm.pages && pm.pages[id] == leaf && leaf.Leaf?
               && leaf.entries == t.entries
      requires |t.entries| == C().leafMin - 1
      requires Hole(C(), pm.pages, ctx, t, 1, C().leafMin - 1, leaves)
      requires root == RootId(ctx, t.id) && height == 1 + Depth(ctx)
      modifies `pm, `root, `height, `shape
      ensures Sound() && Flat(Leaves(shape)) == Flat(leaves) && Released(old(pm), pm)
      ensures path0 != []
      ensures var (parentId, i) := path0[|path0| - 1];
              LeafRefilled(old(pm.pages), pm.pages, LeafMinEntries(cfg), parentId, i, id)
    {
      hide KeysIn, Hole, TreeOK, Leaves, Flat, LeafMaxEntries, LeafMinEntries, InternalMaxKeys, InternalMinKeys,
        IntPage, KidIds, ChildAt, Pair, Around, LeafLentLeft, LeafLentRight, LeavesJoined;
      ghost var c := C();
      var (parentId, childIdx) := path0[|path0| - 1];
      var path := path0[..|path0| - 1];
      assert path == PathOf(ctx.up);
      LevelHasSibling(c, pm.pages, ctx, t, 1, leaves);
      var parent := pm.pages[parentId];
      var numChildren := |parent.seps| + 1;
      var min := LeafMinEntries(cfg);
      if childIdx > 0 {
        ghost var x, y := SiblingLeaves(c, pm.pages, ctx, t, leaves, childIdx - 1);
        var leftId := ChildAt(parent, childIdx - 1);
        var left := pm.pages[leftId];
        if |left.entries| > min {
          RedistributeLeafFromLeft(leftId, left, id, leaf, parentId, parent, childIdx, ctx, t, leaves, x, y);
          return;
        }
        MergeLeaves(leftId, left, id, leaf, parentId, parent, childIdx, path, ctx, t, leaves, x, y);
        return;
      }
      if childIdx + 1 < numChildren {
        ghost var x, y := SiblingLeaves(c, pm.pages, ctx, t, leaves, childIdx);
        var rightId := ChildAt(parent, childIdx + 1);
        var right := pm.pages[rightId];
        if |right.entries| > min {
          RedistributeLeafFromRight(id, leaf, rightId, right, parentId, parent, childIdx, ctx, t, leaves, x, y);
          return;
        }
        MergeLeaves(id, leaf, rightId, right, parentId, parent, childIdx + 1, path, ctx, t, leaves, x, y);
        return;
      }
    }

    /** The pages of two sibling leaves and their parent, as read by a
        rebalance. */
    ghost predicate LeafPair(xId: PageId, xPage: Page, yId: PageId, yPage: Page, parentId: PageId, parent: Page, a: nat,
                             ctx: Ctx, t: Tree, leaves: seq<Tree>, x: Tree, y: Tree)
      reads this
    {
      && CapsOK(C()) && StoreOK() && ctx.In? && t.TLeaf? && 1 <= C().leafMin
      && Hole(C(), pm.pages, ctx, t, 1, C().leafMin - 1, leaves)
      && root == RootId(ctx, t.id) && height == 1 + Depth(ctx)
      && Around(ctx, t, a, x, y) && x.TLeaf? && y.TLeaf? && x.id == xId && y.id == yId && parentId == ctx.id
      && xId in pm.pages && pm.pages[xId] == xPage && xPage.Leaf? && xPage.entries == x.entries
      && yId in pm.pages && pm.pages[yId] == yPage && yPage.Leaf? && yPage.entries == y.entries
      && xId != yId && parentId in pm.pages && pm.pages[parentId] == parent && parent.Internal? && a < |parent.seps|
    }

    lemma {:induction false} PairKnown(a: PageId, b: PageId, c: PageId)
      requires StoreOK() && a in pm.pages && b in pm.pages && c in pm.pages
      ensures KeysOn(pm.pages[a], known) && KeysOn(pm.pages[b], known) && KeysOn(pm.pages[c], known)
    {
    }

    /** The left sibling's last entry moves over. */
    method RedistributeLeafFromLeft(
        leftId: PageId, left0: Page, id: PageId, leaf0: Page, parentId: PageId, parent0: Page, childIdx: nat,
        ghost ctx: Ctx, ghost t: Tree, ghost leaves: seq<Tree>, ghost x: Tree, ghost y: Tree)
      requires childIdx > 0 && LeafPair(leftId, left0, id, leaf0, parentId, parent0, childIdx - 1, ctx, t, leaves, x, y)
      requires C().leafMin < |left0.entries| <= C().leafMax && |leaf0.entries| == C().leafMin - 1
      modifies `pm, `root, `height, `shape
      ensures Sound() && Flat(Leaves(shape)) == Flat(leaves) && Released(old(pm), pm)
      ensures LeafLentRight(old(pm.pages), pm.pages, leftId, id, parentId, childIdx - 1)
    {
      hide Hole, TreeOK, Leaves, Flat, LeafMaxEntries, LeafMinEntries, InternalMaxKeys, InternalMinKeys, CapsOK,
        Around, InsertEntry, SetSep, KeysIn, EntryKeys, SepKeys;
      ghost var c, pages := C(), pm.pages;
      var n := |left0.entries| - 1;
      var moved := left0.entries[n];
      var left := left0.(entries := left0.entries[..n]);
      MovedLeft(c, pages, ctx, t, leaves, childIdx - 1, x, y);
      assert (x.entries + y.entries)[n..] == [moved] + leaf0.entries;
      var leaf := leaf0.(entries := InsertEntry(leaf0.entries, moved));
      var parent := SetSep(parent0, childIdx - 1, leaf.entries[0].key);
      ghost var ls;
      shape, ls := BorrowLeafPages(c, pages, ctx, t, c.leafMin - 1, leaves, childIdx - 1, x, y, n);
      PairKnown(leftId, id, parentId);
      LeafLends(left0, leaf0, parent0, n, childIdx - 1, known);
      InsertEntryCount(leaf0.entries, moved);
      ThreeWrites(pages, known, leftId, left, id, leaf, parentId, parent);
      pm := pm.Save(leftId, left, |left0.entries| - 1);
      pm := pm.Save(id, leaf, |leaf0.entries| + 1);
      pm := pm.Save(parentId, parent, |parent0.seps|);
      TreeLeaves(c, pm.pages, shape, height, ls);
    }

    /** The right sibling's first entry moves over. */
    method RedistributeLeafFromRight(
        id: PageId, leaf0: Page, rightId: PageId, right0: Page, parentId: PageId, parent0: Page, childIdx: nat,
        ghost ctx: Ctx, ghost t: Tree, ghost leaves: seq<Tree>, ghost x: Tree, ghost y: Tree)
      requires LeafPair(id, leaf0, rightId, right0, parentId, parent0, childIdx, ctx, t, leaves, x, y)
      requires C().leafMin < |right0.entries| <= C().leafMax && |leaf0.entries| == C().leafMin - 1
      modifies `pm, `root, `height, `shape
      ensures Sound() && Flat(Leaves(shape)) == Flat(leaves) && Released(old(pm), pm)
      ensures LeafLentLeft(old(pm.pages), pm.pages, id, rightId, parentId, childIdx)
    {
      hide Hole, TreeOK, Leaves, Flat, LeafMaxEntries, LeafMinEntries, InternalMaxKeys, InternalMinKeys, CapsOK,
        Around, InsertEntry, SetSep, KeysIn, EntryKeys, SepKeys;
      ghost var c, pages := C(), pm.pages;
      var moved := right0.entries[0];
      var right := right0.(entries := right0.entries[1..]);
      MovedRight(c, pages, ctx, t, leaves, childIdx, x, y);
      assert (x.entries + y.entries)[..|leaf0.entries| + 1] == leaf0.entries + [moved];
      var leaf := leaf0.(entries := InsertEntry(leaf0.entries, moved));
      var parent := parent0;
      if childIdx < |parent.seps| {
        parent := SetSep(parent, childIdx, right.entries[0].key);
      }
      ghost var ls;
      shape, ls := BorrowLeafPages(c, pages, ctx, t, c.leafMin - 1, leaves, childIdx, x, y, |leaf0.entries| + 1);
      PairKnown(id, rightId, parentId);
      LeafLends(right0, leaf0, parent0, 1, childIdx, known);
      InsertEntryCount(leaf0.entries, moved);
      ThreeWrites(pages, known, id, leaf, rightId, right, parentId, parent);
      pm := pm.Save(id, leaf, |leaf0.entries| + 1);
      pm := pm.Save(rightId, right, |right0.entries| - 1);
      pm := pm.Save(parentId, parent, |parent0.seps|);
      TreeLeaves(c, pm.pages, shape, height, ls);
    }

    /** The right leaf's entries join the left leaf; its page is unlinked and
        freed, and the parent drops it. */
    method MergeLeaves(
        leftId: PageId, left0: Page, rightId: PageId, right: Page, parentId: PageId, parent: Page, rightIdx: nat,
        path: seq<(PageId, nat)>, ghost ctx: Ctx, ghost t: Tree, ghost leaves: seq<Tree>, ghost x: Tree,
        ghost y: Tree)
      requires && rightIdx > 0
               && LeafPair(leftId, left0, rightId, right, parentId, parent, rightIdx - 1, ctx, t, leaves, x, y)
      requires C().leafMin <= |left0.entries| + |right.entries| <= C().leafMax
      requires path == PathOf(ctx.up)
      modifies `pm, `root, `height, `shape
      ensures Sound() && Flat(Leaves(shape)) == Flat(leaves) && Released(old(pm), pm)
      ensures LeavesJoined(old(pm.pages), pm.pages, leftId, rightId)
    {
      hide Hole, TreeOK, Leaves, Flat, LeafMaxEntries, LeafMinEntries, InternalMaxKeys, InternalMinKeys, CapsOK,
        Around, Pending, Shrunk, InsertEntry, KeysIn, EntryKeys, SepKeys;
      ghost var c, pages := C(), pm.pages;
      PairKnown(leftId, rightId, parentId);
      EntryKeysJoin(left0.entries, right.entries, known);
      MergeReads(c, pages, ctx, t, leaves, rightIdx - 1, x, y);
      var left, counter := left0, |left0.entries|;
      var i := 0;
      while i < |right.entries|
        invariant i <= |right.entries| && left == left0.(entries := left0.entries + right.entries[..i])
        invariant counter == |left.entries| && unchanged(this)
      {
        AppendSorted(left0.entries, right.entries, i);
        left := left.(entries := InsertEntry(left.entries, right.entries[i]));
        counter := counter + 1;
        i := i + 1;
      }
      assert right.entries[..i] == right.entries;
      left := left.(next := right.next);
      if right.next != 0 {
        var next := pm.pages[right.next];
        KeysRead(pm.pages, known, right.next);
        KeysWrite(pm.pages, known, right.next, next.(prev := leftId));
        pm := pm.Save(right.next, next.(prev := leftId), |next.entries|);
      }
      KeysFree(pm.pages, known, rightId);
      pm := pm.Free(rightId);
      KeysWrite(pm.pages, known, leftId, left);
      pm := pm.Save(leftId, left, counter);
      ghost var ks, ts, ls := MergeLeafPages(c, pages, ctx, t, c.leafMin - 1, leaves, rightIdx - 1, x, y);
      assert pm.pages == MergePages(pages, leftId, rightId, left.entries);
      LevelCounts(c, pages, ctx, t, 1, c.leafMin - 1, leaves);
      RemoveFromInternal(parentId, parent, rightIdx, path, ctx.up, ks, ts, 1, ls);
    }

    /** The parent drops the child at mergedIdx and the separator before it; a
        root left with one child gives way to it, and a parent left underfull
        is rebalanced in turn. */
    method RemoveFromInternal(
        parentId: PageId, parent0: Page, mergedIdx: nat, path: seq<(PageId, nat)>, ghost up: Ctx,
        ghost ks: seq<Key>, ghost ts: seq<Tree>, ghost h: nat, ghost leaves: seq<Tree>)
      requires CapsOK(C()) && StoreOK() && path == PathOf(up) && 1 <= C().leafMin
      requires mergedIdx > 0 && parent0.Internal? && KeysOn(parent0, known) && Shrunk(parent0, mergedIdx - 1, ks, ts)
      requires Pending(C(), pm.pages, up, parentId, ks, ts, h, leaves)
      requires LevelMin(C(), up, h + 1) - 1 <= |ks| <= C().intMax
      requires root == RootId(up, parentId) && height == h + 1 + Depth(up)
      modifies `pm, `root, `height, `shape
      ensures Sound() && Leaves(shape) == leaves && Released(old(pm), pm) && OnlyAbove(old(pm.pages), pm.pages)
      ensures path == [] || |parent0.seps| > InternalMinKeys(cfg) ==>
        && ChildDropped(old(pm.pages), pm.pages, parentId, parent0, mergedIdx, path == [], root)
        && (path != [] || |parent0.seps| > 1 ==> root == old(root) && height == old(height))
      decreases |path|, 2
    {
      hide Hole, TreeOK, Leaves, LeafMaxEntries, LeafMinEntries, InternalMaxKeys, InternalMinKeys, CapsOK, Pending,
        IntPage, KidIds, KeysOf, IdsOf, RemoveAt, KeysIn, SepKeys;
      ghost var c, pages := C(), pm.pages;
      ShrunkParts(c, pages, up, parentId, parent0, mergedIdx, ks, ts, h, leaves);
      var children := RemoveAt(IdsOf(parent0), mergedIdx);
      var keys := RemoveAt(KeysOf(parent0), mergedIdx - 1);
      var parent := Rebuild(keys, children);
      SepKeysDrop(parent0, mergedIdx - 1, children, known);
      if path == [] && |parent.seps| == 0 {
        assert up.Top?;
        CollapseSaved(c, pages, parentId, ks, ts, h, leaves);
        LastChild(keys, children);
        shape := ts[0];
        KeysFree(pm.pages, known, parentId);
        pm := pm.Free(parentId);
        root := parent.rightChild;
        if height > 1 {
          height := height - 1;
        }
        TreeLeaves(c, pm.pages, shape, height, leaves);
        return;
      }
      KeysWrite(pm.pages, known, parentId, parent);
      pm := pm.Save(parentId, parent, |parent.seps|);
      if path != [] && |parent.seps| < InternalMinKeys(cfg) {
        Install(c, pages, up, parentId, ks, ts, h, c.intMin - 1, leaves);
        RebalanceInternal(parentId, parent, path, up, TNode(parentId, ks, ts), h, leaves);
        return;
      }
      shape := FinishLevel(c, pages, up, parentId, ks, ts, h, leaves, |ks|);
      TreeLeaves(c, pm.pages, shape, height, leaves);
    }

    /** Rebuilds a node from its flat rows of separators and children. */
    static method Rebuild(keys: seq<Key>, children: seq<PageId>) returns (page: Page)
      requires |children| == |keys| + 1
      ensures page == IntPage(keys, children)
    {
      var seps: seq<InternalEntry> := [];
      var i := 0;
      while i < |keys|
        invariant i <= |keys| == |children| - 1 && |seps| == i
        invariant forall j :: 0 <= j < i ==> seps[j] == InternalEntry(keys[j], children[j])
      {
        seps := seps + [InternalEntry(keys[i], children[i])];
        i := i + 1;
      }
      page := Internal(seps, children[|children| - 1]);
    }

    /** An underfull internal node borrows from or merges with a sibling, the
        left one first. */
    method RebalanceInternal(
        id: PageId, node: Page, path0: seq<(PageId, nat)>, ghost ctx: Ctx, ghost t: Tree, ghost h: nat,
        ghost leaves: seq<Tree>)
      requires CapsOK(C()) && StoreOK() && ctx.In? && path0 == PathOf(ctx) && 1 <= C().leafMin
      requires 1 <= h && t.TNode? && t.id == id && id in pm.pages && pm.pages[id] == node
      requires |t.kids| == |t.keys| + 1 && node == IntPage(t.keys, KidIds(t.kids)) && |t.keys| == C().intMin - 1
      requires Hole(C(), pm.pages, ctx, t, h + 1, C().intMin - 1, leaves)
      requires root == RootId(ctx, t.id) && height == h + 1 + Depth(ctx)
      modifies `pm, `root, `height, `shape
      ensures Sound() && Leaves(shape) == leaves && Released(old(pm), pm) && OnlyAbove(old(pm.pages), pm.pages)
      ensures path0 != []
      ensures var (gpId, i) := path0[|path0| - 1];
              NodeRefilled(old(pm.pages), pm.pages, InternalMinKeys(cfg), gpId, i, id)
      decreases |path0|, 1
    {
      hide KeysIn, Hole, TreeOK, Leaves, LeafMaxEntries, LeafMinEntries, InternalMaxKeys, InternalMinKeys, Pending,
        IntPage, KidIds, Around, ChildAt;
      ghost var c := C();
      var (gpId, childIdx) := path0[|path0| - 1];
      var path := path0[..|path0| - 1];
      assert path == PathOf(ctx.up);
      LevelHasSibling(c, pm.pages, ctx, t, h + 1, leaves);
      var gp := pm.pages[gpId];
      var numChildren := |gp.seps| + 1;
      var min := InternalMinKeys(cfg);
      if childIdx > 0 {
        ghost var x, y := SiblingNodes(c, pm.pages, ctx, t, h, leaves, childIdx - 1);
        var leftId := ChildAt(gp, childIdx - 1);
        var left := pm.pages[leftId];
        if |left.seps| > min {
          RedistributeInternalFromLeft(leftId, left, id, node, gpId, gp, childIdx, ctx, t, h, leaves, x, y);
          return;
        }
        MergeInternal(leftId, left, id, node, gpId, gp, childIdx, path, ctx, t, h, leaves, x, y);
        return;
      }
      if childIdx + 1 < numChildren {
        ghost var x, y := SiblingNodes(c, pm.pages, ctx, t, h, leaves, childIdx);
        var rightId := ChildAt(gp, childIdx + 1);
        var right := pm.pages[rightId];
        if |right.seps| > min {
          RedistributeInternalFromRight(id, node, rightId, right, gpId, gp, childIdx, ctx, t, h, leaves, x, y);
          return;
        }
        MergeInternal(id, node, rightId, right, gpId, gp, childIdx + 1, path, ctx, t, h, leaves, x, y);
        return;
      }
    }

    /** The pages of two sibling internal nodes and their parent. */
    ghost predicate NodePair(xId: PageId, xPage: Page, yId: PageId, yPage: Page, gpId: PageId, gp: Page, a: nat,
                             ctx: Ctx, t: Tree, h: nat, leaves: seq<Tree>, x: Tree, y: Tree)
      reads this
    {
      && CapsOK(C()) && StoreOK() && ctx.In? && 1 <= C().leafMin && 1 <= h
      && Hole(C(), pm.pages, ctx, t, h + 1, C().intMin - 1, leaves)
      && root == RootId(ctx, t.id) && height == h + 1 + Depth(ctx)
      && Around(ctx, t, a, x, y) && x.TNode? && y.TNode? && x.id == xId && y.id == yId && gpId == ctx.id
      && |x.kids| == |x.keys| + 1 && |y.kids| == |y.keys| + 1
      && xId in pm.pages && pm.pages[xId] == xPage && xPage == IntPage(x.keys, KidIds(x.kids))
      && yId in pm.pages && pm.pages[yId] == yPage && yPage == IntPage(y.keys, KidIds(y.kids))
      && xId != yId && gpId in pm.pages && pm.pages[gpId] == gp && gp.Internal? && a < |gp.seps| && a < |ctx.keys|
      && gp.seps[a].key == ctx.keys[a]
    }

    /** The separator comes down into the node and the left sibling's last
        separator goes up. */
    method RedistributeInternalFromLeft(
        leftId: PageId, left0: Page, id: PageId, node0: Page, gpId: PageId, gp0: Page, childIdx: nat,
        ghost ctx: Ctx, ghost t: Tree, ghost h: nat, ghost leaves: seq<Tree>, ghost x: Tree, ghost y: Tree)
      requires childIdx > 0 && NodePair(leftId, left0, id, node0, gpId, gp0, childIdx - 1, ctx, t, h, leaves, x, y)
      requires C().intMin < |left0.seps| <= C().intMax && |node0.seps| == C().intMin - 1
      modifies `pm, `root, `height, `shape
      ensures Sound() && Leaves(shape) == leaves && Released(old(pm), pm)
      ensures NodeLentRight(old(pm.pages), pm.pages, leftId, id, gpId, childIdx - 1)
      ensures OnlyAbove(old(pm.pages), pm.pages)
    {
      hide Hole, TreeOK, Leaves, LeafMaxEntries, LeafMinEntries, InternalMaxKeys, InternalMinKeys, IntPage, KidIds,
        Around, KeysIn, SepKeys, SetSep;
      ghost var c, pages := C(), pm.pages;
      var sepIdx := childIdx - 1;
      var separator := gp0.seps[sepIdx].key;
      var node := node0.(seps := [InternalEntry(separator, left0.rightChild)] + node0.seps);
      var n := |left0.seps| - 1;
      var movedUp := left0.seps[n];
      var left := Internal(left0.seps[..n], movedUp.child);
      var gp := SetSep(gp0, sepIdx, movedUp.key);
      shape := BorrowInternalPages(c, pages, ctx, t, h, c.intMin - 1, leaves, sepIdx, x, y, n);
      JoinedCutLeft(left0, separator, node0);
      PairKnown(leftId, id, gpId);
      NodeLends(left0, node0, gp0, n, sepIdx, left0.rightChild, known);
      ThreeWrites(pages, known, leftId, left, id, node, gpId, gp);
      pm := pm.Save(leftId, left, |left0.seps| - 1);
      pm := pm.Save(id, node, |node0.seps| + 1);
      pm := pm.Save(gpId, gp, |gp0.seps|);
      TreeLeaves(c, pm.pages, shape, height, leaves);
    }

    /** The separator comes down into the node and the right sibling's first
        separator goes up. */
    method RedistributeInternalFromRight(
        id: PageId, node0: Page, rightId: PageId, right0: Page, gpId: PageId, gp0: Page, childIdx: nat,
        ghost ctx: Ctx, ghost t: Tree, ghost h: nat, ghost leaves: seq<Tree>, ghost x: Tree, ghost y: Tree)
      requires NodePair(id, node0, rightId, right0, gpId, gp0, childIdx, ctx, t, h, leaves, x, y)
      requires C().intMin < |right0.seps| <= C().intMax && |node0.seps| == C().intMin - 1
      modifies `pm, `root, `height, `shape
      ensures Sound() && Leaves(shape) == leaves && Released(old(pm), pm)
      ensures NodeLentLeft(old(pm.pages), pm.pages, id, rightId, gpId, childIdx)
      ensures OnlyAbove(old(pm.pages), pm.pages)
    {
      hide Hole, TreeOK, Leaves, LeafMaxEntries, LeafMinEntries, InternalMaxKeys, InternalMinKeys, IntPage, KidIds,
        Around, KeysIn, SepKeys, SetSep;
      ghost var c, pages := C(), pm.pages;
      var sepIdx := childIdx;
      var separator := gp0.seps[sepIdx].key;
      var movedUp := right0.seps[0];
      var node := Internal(node0.seps + [InternalEntry(separator, node0.rightChild)], movedUp.child);
      var right := right0.(seps := right0.seps[1..]);
      var gp := SetSep(gp0, sepIdx, movedUp.key);
      shape := BorrowInternalPages(c, pages, ctx, t, h, c.intMin - 1, leaves, sepIdx, x, y, |node0.seps| + 1);
      JoinedCutRight(node0, separator, right0);
      PairKnown(id, rightId, gpId);
      NodeLends(right0, node0, gp0, 0, sepIdx, node0.rightChild, known);
      ThreeWrites(pages, known, id, node, rightId, right, gpId, gp);
      pm := pm.Save(id, node, |node0.seps| + 1);
      pm := pm.Save(rightId, right, |right0.seps| - 1);
      pm := pm.Save(gpId, gp, |gp0.seps|);
      TreeLeaves(c, pm.pages, shape, height, leaves);
    }

    /** The separator and the right node's row join the left node; the right
        node's page is freed, and the parent drops it. */
    method MergeInternal(
        leftId: PageId, left0: Page, rightId: PageId, right: Page, gpId: PageId, gp: Page, rightIdx: nat,
        path: seq<(PageId, nat)>, ghost ctx: Ctx, ghost t: Tree, ghost h: nat, ghost leaves: seq<Tree>,
        ghost x: Tree, ghost y: Tree)
      requires rightIdx > 0 && NodePair(leftId, left0, rightId, right, gpId, gp, rightIdx - 1, ctx, t, h, leaves, x, y)
      requires C().intMin <= |left0.seps| + 1 + |right.seps| <= C().intMax
      requires path == PathOf(ctx.up)
      modifies `pm, `root, `height, `shape
      ensures Sound() && Leaves(shape) == leaves && Released(old(pm), pm)
      ensures rightId !in pm.pages && OnlyAbove(old(pm.pages), pm.pages)
      decreases |path|, 3
    {
      hide Hole, TreeOK, Leaves, LeafMaxEntries, LeafMinEntries, InternalMaxKeys, InternalMinKeys, IntPage, KidIds,
        Around, Pending, Shrunk, KeysIn, SepKeys;
      ghost var c, pages := C(), pm.pages;
      PairKnown(leftId, rightId, gpId);
      NodesJoin(left0, right, gp, rightIdx - 1, left0.rightChild, known);
      var separator := gp.seps[rightIdx - 1].key;
      var seps, counter := left0.seps + [InternalEntry(separator, left0.rightChild)], |left0.seps| + 1;
      var i := 0;
      while i < |right.seps|
        invariant && i <= |right.seps|
                  && seps == left0.seps + [InternalEntry(separator, left0.rightChild)] + right.seps[..i]
        invariant counter == |seps| && unchanged(this)
      {
        seps := seps + [right.seps[i]];
        counter := counter + 1;
        i := i + 1;
      }
      assert right.seps[..i] == right.seps;
      var left := Internal(seps, right.rightChild);
      ghost var ks, ts := MergeInternalPages(c, pages, ctx, t, h, c.intMin - 1, leaves, rightIdx - 1, x, y);
      KeysFree(pages, known, rightId);
      pm := pm.Free(rightId);
      KeysWrite(pm.pages, known, leftId, left);
      pm := pm.Save(leftId, left, counter);
      LevelCounts(c, pages, ctx, t, h + 1, c.intMin - 1, leaves);
      RemoveFromInternal(gpId, gp, rightIdx, path, ctx.up, ks, ts, h + 1, leaves);
    }
  }
}
