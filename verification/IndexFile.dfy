/** The index file: a well-formed tree's pages as the bytes the node codec and
    the metadata page give them, and the tree read back from those bytes. */
module IndexFile {
  import opened Prelude
  import opened LittleEndian
  import opened BTreeShape
  import opened BTreePages
  import opened BTreeRuns
  import opened BTrees
  import opened BTreeSearch
  import opened NodeLayout
  import opened PageKeys
  import opened PageStore
  import Codec = NodeCodec
  import Keys

  // ── From the tree's pages to nodes ──────────────────────────────────

  /** The key stands for a byte string of a configured size. */
  ghost predicate Named(cfg: KeyConfig, k: Key) {
    exists s: seq<Byte> :: Codec.KeyOK(cfg, s) && Keys.Rank(s) == k
  }

  ghost function Name(cfg: KeyConfig, k: Key): (s: seq<Byte>)
    ensures Named(cfg, k) ==> Codec.KeyOK(cfg, s) && Keys.Rank(s) == k
  {
    if Named(cfg, k) then
      var s: seq<Byte> :| Codec.KeyOK(cfg, s) && Keys.Rank(s) == k;
      s
    else []
  }

  ghost function Number(id: PageId): nat { if id < 0 then 0 else id }

  ghost function SepSlot(cfg: KeyConfig, e: InternalEntry): Codec.Entry {
    Codec.Child(Name(cfg, e.key), Number(e.child))
  }

  ghost function DataSlot(cfg: KeyConfig, e: LeafEntry): Codec.Entry {
    Codec.Data(Name(cfg, e.key), e.pageId, e.slotId)
  }

  /** The node a tree page is written as, with the counter it was saved with. */
  ghost function NodeOf(cfg: KeyConfig, id: PageId, page: Page): Codec.Node
    requires page.Internal? || page.Leaf?
  {
    if page.Internal? then
      var es := seq(|page.seps|, i requires 0 <= i < |page.seps| => SepSlot(cfg, page.seps[i]));
      Codec.InternalNode(Number(id), EntryCount(page), Number(page.rightChild), cfg, es)
    else
      var es := seq(|page.entries|, i requires 0 <= i < |page.entries| => DataSlot(cfg, page.entries[i]));
      Codec.LeafNode(Number(id), EntryCount(page), Number(page.next), Number(page.prev), cfg, es)
  }

  /** The page ids a node page names are natural numbers. */
  ghost predicate Natural(page: Page) {
    && (page.Internal? ==> page.rightChild >= 0 && forall i :: 0 <= i < |page.seps| ==> page.seps[i].child >= 0)
    && (page.Leaf? ==> page.next >= 0 && page.prev >= 0)
  }

  /** The numbers have the widths of the source's fields, and the keys the
      configured size. */
  ghost predicate FieldsFit(cfg: KeyConfig, page: Page) {
    match page
    case Blank => true
    case Meta(root, height, n) =>
      0 <= root < 0x1_0000_0000 && height < 0x1_0000_0000 && n < 0x1_0000_0000_0000_0000
    case Internal(seps, _) => forall i :: 0 <= i < |seps| ==> Named(cfg, seps[i].key)
    case Leaf(es, _, _) =>
      forall i :: 0 <= i < |es| ==>
        Named(cfg, es[i].key) && es[i].pageId < 0x1_0000_0000 && es[i].slotId < 0x1_0000
  }

  ghost predicate Storable(cfg: KeyConfig, pages: map<PageId, Page>) {
    && (cfg.VarKeys? ==> cfg.maxKeySize < 0x1_0000)
    && forall id :: id in pages ==> 0 < id < 0x1_0000_0000 && FieldsFit(cfg, pages[id])
  }

  // ── Every node fits ─────────────────────────────────────────────────

  /** A page of the tree is either one of its leaves' or an internal page
      within capacity whose children are pages of the tree. */
  ghost predicate NodeOfTree(c: Caps, pages: map<PageId, Page>, t: Tree, id: PageId) {
    || (exists leaf :: leaf in Leaves(t) && LeafWithin(c, leaf, id))
    || (id in pages && InternalWithin(c, pages[id], Pages(t)))
  }

  ghost predicate LeafWithin(c: Caps, leaf: Tree, id: PageId) {
    leaf.TLeaf? && leaf.id == id && |leaf.entries| <= c.leafMax
  }

  ghost predicate InternalWithin(c: Caps, page: Page, used: multiset<PageId>) {
    && page.Internal? && |page.seps| <= c.intMax && page.rightChild in used
    && forall i :: 0 <= i < |page.seps| ==> page.seps[i].child in used
  }

  /** The page is one of a child's. */
  lemma {:induction false} KidWith(kids: seq<Tree>, id: PageId) returns (i: nat)
    requires id in PagesAll(kids)
    ensures i < |kids| && id in Pages(kids[i])
  {
    hide Pages;
    if id in Pages(kids[0]) {
      i := 0;
    } else {
      var j := KidWith(kids[1..], id);
      i := j + 1;
    }
  }

  /** A child's pages and leaves are the parent's. */
  lemma {:induction false} KidWithin(t: Tree, i: nat)
    requires t.TNode? && i < |t.kids|
    ensures Pages(t.kids[i]) <= Pages(t) && t.kids[i].id in Pages(t)
    ensures forall x :: x in Leaves(t.kids[i]) ==> x in Leaves(t)
  {
    hide PagesAll, LeavesAll;
    PagesPick(t.kids, i);
    LeavesPick(t.kids, i);
    assert t.kids[i].id in Pages(t.kids[i]);
  }

  lemma {:induction false} TopIsNode(c: Caps, pages: map<PageId, Page>, t: Tree, h: nat, lo: Bound, hi: Bound, m: int)
    requires WF(c, t, h, lo, hi, m) && Skel(pages, t) && t.TNode?
    ensures InternalWithin(c, pages[t.id], Pages(t))
  {
    hide Pages;
    forall i | 0 <= i < |t.kids| ensures t.kids[i].id in Pages(t) {
      KidWithin(t, i);
    }
    var page := pages[t.id];
    assert page.rightChild == t.kids[|t.keys|].id;
    assert forall i :: 0 <= i < |page.seps| ==> page.seps[i].child == t.kids[i].id;
  }

  lemma {:induction false} NodeFound(
      c: Caps, pages: map<PageId, Page>, t: Tree, h: nat, lo: Bound, hi: Bound, m: int, id: PageId)
    requires WF(c, t, h, lo, hi, m) && Skel(pages, t) && id in Pages(t)
    ensures NodeOfTree(c, pages, t, id)
    decreases t
  {
    match t
    case TLeaf(_, _) => assert LeafWithin(c, t, id) && t in Leaves(t);
    case TNode(_, keys, kids) =>
      hide NodeOfTree, PagesAll, LeavesAll;
      if id == t.id {
        TopIsNode(c, pages, t, h, lo, hi, m);
        TopCounts(c, pages, t);
      } else {
        var i := KidWith(kids, id);
        NodeFound(c, pages, kids[i], h - 1, LoAt(keys, i, lo), HiAt(keys, i, hi), MinCount(c, h - 1), id);
        NodeLifts(c, pages, t, i, id);
      }
  }

  lemma {:induction false} TopCounts(c: Caps, pages: map<PageId, Page>, t: Tree)
    requires t.id in pages && InternalWithin(c, pages[t.id], Pages(t))
    ensures NodeOfTree(c, pages, t, t.id)
  {
  }

  lemma {:induction false} NodeLifts(c: Caps, pages: map<PageId, Page>, t: Tree, i: nat, id: PageId)
    requires t.TNode? && i < |t.kids| && NodeOfTree(c, pages, t.kids[i], id)
    ensures NodeOfTree(c, pages, t, id)
  {
    hide Pages, Leaves;
    KidWithin(t, i);
    if leaf :| leaf in Leaves(t.kids[i]) && LeafWithin(c, leaf, id) {
      assert leaf in Leaves(t);
    }
  }

  lemma {:induction false} CapacityIsSmall(kind: Codec.Kind, cfg: KeyConfig)
    ensures Codec.Capacity(kind, cfg) < 0x1_0000
  {
    Codec.CapacityIsExact(kind, cfg, 0x1_0000);
    Codec.MulAdd(0, 0x1_0000, Codec.SlotSize(kind, cfg));
    assert Codec.SlotSize(kind, cfg) >= 1;
  }

  lemma {:induction false} LeafFits(cfg: KeyConfig, id: PageId, page: Page)
    requires 0 < id < 0x1_0000_0000 && (cfg.VarKeys? ==> cfg.maxKeySize < 0x1_0000)
    requires page.Leaf? && FieldsFit(cfg, page) && |page.entries| <= LeafMaxEntries(cfg)
    requires 0 <= page.next < 0x1_0000_0000 && 0 <= page.prev < 0x1_0000_0000
    ensures Codec.NodeOK(NodeOf(cfg, id, page))
  {
    hide LeafMaxEntries, Named;
    CapacityIsSmall(Codec.LeafKind, cfg);
  }

  lemma {:induction false} InternalFits(cfg: KeyConfig, id: PageId, page: Page)
    requires 0 < id < 0x1_0000_0000 && (cfg.VarKeys? ==> cfg.maxKeySize < 0x1_0000)
    requires page.Internal? && FieldsFit(cfg, page) && |page.seps| <= InternalMaxKeys(cfg)
    requires 0 <= page.rightChild < 0x1_0000_0000
    requires forall i :: 0 <= i < |page.seps| ==> 0 <= page.seps[i].child < 0x1_0000_0000
    ensures Codec.NodeOK(NodeOf(cfg, id, page))
  {
    hide InternalMaxKeys, Named;
    CapacityIsSmall(Codec.InternalKind, cfg);
  }

  lemma {:induction false} PageOfLeaf(c: Caps, pages: map<PageId, Page>, leaves: seq<Tree>, leaf: Tree)
    requires Chain(pages, leaves) && leaf in leaves && leaf.TLeaf?
    ensures leaf.id in pages && pages[leaf.id].Leaf? && pages[leaf.id].entries == leaf.entries
    ensures pages[leaf.id].next == 0 || pages[leaf.id].next in pages
    ensures pages[leaf.id].prev == 0 || pages[leaf.id].prev in pages
  {
    var i :| 0 <= i < |leaves| && leaves[i] == leaf;
    assert Linked(pages, leaves, i);
    if i > 0 { assert Linked(pages, leaves, i - 1); }
    if i + 1 < |leaves| { assert Linked(pages, leaves, i + 1); }
  }

  lemma {:induction false} UsedPages(pages: map<PageId, Page>, used: multiset<PageId>, id: PageId)
    requires Accounts(pages, used)
    ensures id in pages && id != META_PAGE_ID <==> id in used
  {
    assert (id in pages) == (id in multiset(pages.Keys));
    assert multiset(pages.Keys)[META_PAGE_ID] == 1;
  }

  /** Every page of a well-formed tree but the metadata page is a node the codec
      can write. */
  lemma {:induction false} NodesFit(
      cfg: KeyConfig, pages: map<PageId, Page>, t: Tree, h: nat, leaves: seq<Tree>, id: PageId)
    requires TreeOK(CapsOf(cfg), pages, t, h, leaves) && Storable(cfg, pages)
    requires id in pages && id != META_PAGE_ID
    ensures (pages[id].Internal? || pages[id].Leaf?) && Natural(pages[id])
    ensures Codec.NodeOK(NodeOf(cfg, id, pages[id]))
    ensures NodeOf(cfg, id, pages[id]).count == |NodeOf(cfg, id, pages[id]).entries|
  {
    hide Pages, Leaves, WF, Skel, Chain, Accounts, FieldsFit, Codec.NodeOK,
      LeafMaxEntries, LeafMinEntries, InternalMaxKeys, InternalMinKeys;
    var c := CapsOf(cfg);
    UsedPages(pages, Pages(t), id);
    NodeFound(c, pages, t, h, NegInf, PosInf, RootMin(h), id);
    if leaf :| leaf in Leaves(t) && LeafWithin(c, leaf, id) {
      PageOfLeaf(c, pages, leaves, leaf);
      LeafFits(cfg, id, pages[id]);
    } else {
      var page := pages[id];
      UsedPages(pages, Pages(t), page.rightChild);
      forall i | 0 <= i < |page.seps| ensures 0 <= page.seps[i].child < 0x1_0000_0000 {
        UsedPages(pages, Pages(t), page.seps[i].child);
      }
      InternalFits(cfg, id, page);
    }
  }

  // ── The metadata page ───────────────────────────────────────────────

  /** The first offset after the metadata fields. */
  function MetaEnd(cfg: KeyConfig): nat { 48 + NodeMetaBytes(cfg) }

  ghost predicate MetaHolds(b: seq<Byte>, cfg: KeyConfig, meta: Page)
    requires meta.Meta?
  {
    && |b| == PAGE_SIZE
    && b[..28] == Codec.HeaderBytes(META_PAGE_ID, Codec.InternalKind)[..28]
    && b[32..36] == LE(Number(meta.root), 4) && b[36..40] == LE(meta.height, 4)
    && b[40..48] == LE(meta.numEntries, 8)
    && b[48..MetaEnd(cfg)] == Codec.ConfigBytes(cfg)
    && forall k :: MetaEnd(cfg) <= k < |b| ==> b[k] == 0
  }

  /** Writes root, height, entry count and key configuration to a fresh page. */
  method MetaToBytes(cfg: KeyConfig, root: nat, height: nat, numEntries: nat) returns (buf: array<Byte>)
    ensures fresh(buf) && MetaHolds(buf[..], cfg, Meta(root, height, numEntries))
  {
    hide LE;
    buf := new Byte[PAGE_SIZE](i => 0);
    Codec.PutSlice(buf, 0, Codec.HeaderBytes(META_PAGE_ID, Codec.InternalKind));
    assert buf[..28] == buf[0..32][..28];
    Codec.PutSlice(buf, 32, LE(root, 4));
    Codec.PutSlice(buf, 36, LE(height, 4));
    Codec.PutSlice(buf, 40, LE(numEntries, 8));
    Codec.PutSlice(buf, 48, Codec.ConfigBytes(cfg));
  }

  /** What opening an index reads from its metadata page. */
  function ReadMeta(b: seq<Byte>, varKeys: bool): (Page, KeyConfig)
    requires |b| == PAGE_SIZE
  {
    (Meta(FromLE(b[32..36]), FromLE(b[36..40]), FromLE(b[40..48])), Codec.ReadConfig(varKeys, b, 48))
  }

  /** The metadata page reads back exactly when its numbers fit their fields. */
  lemma {:induction false} MetaRoundTrip(b: seq<Byte>, cfg: KeyConfig, meta: Page)
    requires meta.Meta? && meta.root >= 0 && MetaHolds(b, cfg, meta)
    ensures ReadMeta(b, cfg.VarKeys?) == (meta, cfg)
       <==> FieldsFit(cfg, meta) && (cfg.VarKeys? ==> cfg.maxKeySize < 0x1_0000)
  {
    hide LE, FromLE;
    Widths();
    RoundTrip(meta.root, 4);
    RoundTrip(meta.height, 4);
    RoundTrip(meta.numEntries, 8);
    if cfg.VarKeys? { RoundTrip(cfg.maxKeySize, 2); }
  }

  // ── The whole file ──────────────────────────────────────────────────

  /** Each page's bytes, checksums aside: the metadata page, and the codec's
      encoding of every node. */
  ghost predicate FileHolds(cfg: KeyConfig, file: map<PageId, seq<Byte>>, pages: map<PageId, Page>) {
    file.Keys == pages.Keys && forall id :: id in pages ==> PageHolds(cfg, file[id], id, pages[id])
  }

  ghost predicate PageHolds(cfg: KeyConfig, b: seq<Byte>, id: PageId, page: Page) {
    match page
    case Blank => |b| == PAGE_SIZE
    case Meta(_, _, _) => MetaHolds(b, cfg, page)
    case _ => Codec.Encoded(b, NodeOf(cfg, id, page))
  }

  /** Loads a node page by its type byte; None for any other type and for pages
      that do not decode. */
  function LoadNode(b: seq<Byte>, varKeys: bool): Option<Codec.Node>
    requires |b| == PAGE_SIZE
  {
    if b[4] == 2 then Codec.Decode(b, Codec.InternalKind, varKeys)
    else if b[4] == 3 then Codec.Decode(b, Codec.LeafKind, varKeys)
    else None
  }

  /** A page loads as a node exactly when its type byte is that node kind's and
      its bytes decode to the node. */
  lemma {:induction false} LoadsByType(b: seq<Byte>, varKeys: bool, n: Codec.Node)
    requires |b| == PAGE_SIZE
    ensures LoadNode(b, varKeys) == Some(n) <==>
      && b[4] == (match n case InternalNode(_, _, _, _, _) => 2 case LeafNode(_, _, _, _, _, _) => 3)
      && Codec.Decode(b, n.Kind(), varKeys) == Some(n)
    ensures b[4] != 2 && b[4] != 3 ==> LoadNode(b, varKeys) == None
  {
    hide Codec.Decode;
    Codec.DecodeExactly(b, Codec.InternalKind, varKeys, n);
    Codec.DecodeExactly(b, Codec.LeafKind, varKeys, n);
  }

  ghost function SepOf(e: Codec.Entry): InternalEntry {
    InternalEntry(Keys.Rank(e.key), if e.Child? then e.child else 0)
  }

  ghost function DataOf(e: Codec.Entry): LeafEntry {
    if e.Data? then LeafEntry(Keys.Rank(e.key), e.pageId, e.slotId) else LeafEntry(0.0, 0, 0)
  }

  /** The tree page a node stands for. */
  ghost function PageOf(n: Codec.Node): Page {
    match n
    case InternalNode(_, _, right, _, es) => Internal(seq(|es|, i requires 0 <= i < |es| => SepOf(es[i])), right)
    case LeafNode(_, _, next, prev, _, es) => Leaf(seq(|es|, i requires 0 <= i < |es| => DataOf(es[i])), next, prev)
  }

  lemma {:induction false} PageOfNode(cfg: KeyConfig, id: PageId, page: Page)
    requires (page.Internal? || page.Leaf?) && FieldsFit(cfg, page)
    requires Natural(page)
    ensures PageOf(NodeOf(cfg, id, page)) == page
  {
    hide Named;
    var n := NodeOf(cfg, id, page);
    if page.Internal? {
      assert PageOf(n).seps == page.seps;
    } else {
      assert PageOf(n).entries == page.entries;
    }
  }

  /** Opening the file reads the pages' root, height, count and key
      configuration, and loading any other page gives the page back, keys and
      all. */
  ghost predicate ReadsBack(cfg: KeyConfig, file: map<PageId, seq<Byte>>, pages: map<PageId, Page>) {
    && META_PAGE_ID in file && META_PAGE_ID in pages && |file[META_PAGE_ID]| == PAGE_SIZE
    && ReadMeta(file[META_PAGE_ID], cfg.VarKeys?) == (pages[META_PAGE_ID], cfg)
    && forall id :: id in pages && id != META_PAGE_ID ==> id in file && LoadsAs(cfg, file[id], pages[id])
  }

  ghost predicate LoadsAs(cfg: KeyConfig, b: seq<Byte>, page: Page) {
    && |b| == PAGE_SIZE && LoadNode(b, cfg.VarKeys?).Some?
    && PageOf(LoadNode(b, cfg.VarKeys?).value) == page
  }

  /** A well-formed tree survives its file. */
  lemma {:induction false} TreeReadsBack(
      cfg: KeyConfig, pages: map<PageId, Page>, t: Tree, h: nat, leaves: seq<Tree>, file: map<PageId, seq<Byte>>)
    requires TreeOK(CapsOf(cfg), pages, t, h, leaves) && Storable(cfg, pages) && FileHolds(cfg, file, pages)
    ensures ReadsBack(cfg, file, pages)
  {
    hide FieldsFit, MetaHolds, LoadsAs, CapsOf, Codec.Encoded, ReadMeta, NodeOf;
    MetaBack(cfg, file[META_PAGE_ID], pages[META_PAGE_ID]);
    forall id | id in pages && id != META_PAGE_ID ensures LoadsAs(cfg, file[id], pages[id]) {
      NodesFit(cfg, pages, t, h, leaves, id);
      NodeBack(cfg, file[id], id, pages[id]);
    }
  }

  /** Opens the index in a file: the key configuration, like root, height and
      entry count, comes from the bytes of the metadata page. */
  method OpenFile(varKeys: bool, file: map<PageId, seq<Byte>>, pm: PageManager,
                  ghost cfg: KeyConfig, ghost shape: Tree, ghost known: iset<Key>)
    returns (tree: BTree)
    requires varKeys == cfg.VarKeys? && CapsOK(CapsOf(cfg)) && pm.Valid() && KeysIn(pm.pages, known)
    requires Storable(cfg, pm.pages) && FileHolds(cfg, file, pm.pages)
    requires META_PAGE_ID in pm.pages && pm.pages[META_PAGE_ID].Meta?
    requires var meta := pm.pages[META_PAGE_ID];
             && meta.root == shape.id && meta.numEntries == |Flat(Leaves(shape))|
             && TreeOK(CapsOf(cfg), pm.pages, shape, meta.height, Leaves(shape))
    ensures fresh(tree) && tree.Valid() && tree.cfg == cfg && tree.pm == pm && tree.shape == shape
  {
    hide TreeOK, Flat, Leaves, CapsOf, CapsOK, KeysIn, FieldsFit, MetaHolds, ReadMeta;
    MetaBack(cfg, file[META_PAGE_ID], pm.pages[META_PAGE_ID]);
    var (meta, stored) := ReadMeta(file[META_PAGE_ID], varKeys);
    var store := pm.Write(META_PAGE_ID, meta);
    assert store.pages == pm.pages;
    tree := new BTree.Open(stored, store, shape, known);
  }

  lemma {:induction false} MetaBack(cfg: KeyConfig, b: seq<Byte>, meta: Page)
    requires meta.Meta? && FieldsFit(cfg, meta) && (cfg.VarKeys? ==> cfg.maxKeySize < 0x1_0000)
    requires MetaHolds(b, cfg, meta)
    ensures |b| == PAGE_SIZE && ReadMeta(b, cfg.VarKeys?) == (meta, cfg)
  {
    MetaRoundTrip(b, cfg, meta);
  }

  lemma {:induction false} NodeBack(cfg: KeyConfig, b: seq<Byte>, id: PageId, page: Page)
    requires (page.Internal? || page.Leaf?) && FieldsFit(cfg, page) && Natural(page)
    requires Codec.NodeOK(NodeOf(cfg, id, page)) && Codec.Encoded(b, NodeOf(cfg, id, page))
    ensures LoadsAs(cfg, b, page)
  {
    hide FieldsFit, Codec.Encoded, Codec.NodeOK, Codec.Decode, PageOf;
    var n := NodeOf(cfg, id, page);
    Codec.KindShows(b, n);
    Codec.NodeRoundTrip(b, n);
    PageOfNode(cfg, id, page);
  }

  // ── Over every run ──────────────────────────────────────────────────

  /** Inserts give keys of the configured size and locations of the source's
      widths. */
  ghost predicate OpsFit(cfg: KeyConfig, ops: seq<Op>) {
    forall op :: op in ops && op.InsertOp? ==>
      Named(cfg, op.key) && op.pageId < 0x1_0000_0000 && op.slotId < 0x1_0000
  }

  ghost predicate EntryFits(e: LeafEntry) { e.pageId < 0x1_0000_0000 && e.slotId < 0x1_0000 }

  /** What a run leaves in the map was inserted in it. */
  lemma {:induction false} FromInsert(ops: seq<Op>, k: Key)
    requires k in Steps(map[], ops).0
    ensures exists op :: op in ops && op.InsertOp? && op.key == k && (op.pageId, op.slotId) == Steps(map[], ops).0[k]
  {
    var n := |ops| - 1;
    var before := Steps(map[], ops[..n]).0;
    assert ops == ops[..n] + [ops[n]];
    if k in before && before[k] == Steps(map[], ops).0[k] {
      FromInsert(ops[..n], k);
    } else {
      assert ops[n] in ops;
    }
  }

  lemma {:induction false} EntriesFit(cfg: KeyConfig, ops: seq<Op>, es: seq<LeafEntry>)
    requires Sorted(es) && MapOf(es) == Steps(map[], ops).0 && OpsFit(cfg, ops)
    ensures forall i :: 0 <= i < |es| ==> EntryFits(es[i])
  {
    hide MapOf, Steps, Named;
    forall i | 0 <= i < |es| ensures EntryFits(es[i]) {
      MapAt(es, i);
      FromInsert(ops, es[i].key);
    }
  }

  // How large the metadata can get

  lemma {:induction false} LevelsArePages(c: Caps, t: Tree, h: nat, lo: Bound, hi: Bound, m: int)
    requires WF(c, t, h, lo, hi, m)
    ensures h <= |Pages(t)| && |Leaves(t)| <= |Pages(t)| && |Flat(Leaves(t))| <= |Leaves(t)| * c.leafMax
    decreases t, 1
  {
    match t
    case TLeaf(_, es) => assert Flat([t]) == es + Flat([]);
    case TNode(_, keys, kids) =>
      hide Pages, Leaves, Flat;
      assert Pages(t) == multiset{t.id} + PagesAll(kids) && Leaves(t) == LeavesAll(kids) by { NodeParts(t); }
      RowsArePages(c, keys, kids, h - 1, lo, hi, 0);
      assert kids[0..] == kids;
  }

  lemma {:induction false} NodeParts(t: Tree)
    requires t.TNode?
    ensures Pages(t) == multiset{t.id} + PagesAll(t.kids) && Leaves(t) == LeavesAll(t.kids)
  {
  }

  lemma {:induction false} RowsArePages(
      c: Caps, keys: seq<Key>, kids: seq<Tree>, h: nat, lo: Bound, hi: Bound, i: nat)
    requires i < |kids|
    requires forall j :: 0 <= j < |kids| ==> WF(c, kids[j], h, LoAt(keys, j, lo), HiAt(keys, j, hi), MinCount(c, h))
    ensures h <= |PagesAll(kids[i..])| && |LeavesAll(kids[i..])| <= |PagesAll(kids[i..])|
    ensures |Flat(LeavesAll(kids[i..]))| <= |LeavesAll(kids[i..])| * c.leafMax
    decreases kids, 0, |kids| - i
  {
    hide WF, Pages, Leaves, Flat;
    var rest := kids[i + 1..];
    assert kids[i..] == [kids[i]] + rest;
    LevelsArePages(c, kids[i], h, LoAt(keys, i, lo), HiAt(keys, i, hi), MinCount(c, h));
    AllCat([kids[i]], rest);
    AllOne(kids[i]);
    FlatCat(Leaves(kids[i]), LeavesAll(rest));
    if i + 1 < |kids| {
      RowsArePages(c, keys, kids, h, lo, hi, i + 1);
      SumTimes(|Leaves(kids[i])|, |LeavesAll(rest)|, c.leafMax);
    }
  }

  lemma {:induction false} SumTimes(a: nat, b: nat, m: nat)
    ensures (a + b) * m == a * m + b * m
  {
  }

  lemma {:induction false} TwoWidths(n: nat, m: nat)
    requires n < 0x1_0000_0000 && m < 0x1_0000
    ensures n * m < 0x1_0000_0000_0000_0000
  {
    SumTimes(n, 0x1_0000_0000 - n, m);
    Nonnegative(0x1_0000_0000 - n, m);
  }

  lemma {:induction false} Nonnegative(a: nat, b: nat)
    ensures a * b >= 0
  {
  }

  /** With 32-bit page ids, height and entry count fit their fields. */
  lemma {:induction false} MetaFits(cfg: KeyConfig, pm: PageManager, t: Tree, h: nat, leaves: seq<Tree>)
    requires TreeOK(CapsOf(cfg), pm.pages, t, h, leaves) && pm.Valid() && pm.numPages <= 0x1_0000_0000
    ensures h < 0x1_0000_0000 && |Flat(leaves)| < 0x1_0000_0000_0000_0000 && 0 <= t.id < 0x1_0000_0000
  {
    hide WF, Skel, Chain, Pages, Leaves, Flat, LeafMaxEntries, LeafMinEntries, InternalMaxKeys, InternalMinKeys;
    var c := CapsOf(cfg);
    LevelsArePages(c, t, h, NegInf, PosInf, RootMin(h));
    PageAccounting(c, pm.pages, t, h, leaves);
    LostCount(pm);
    CapacityIsSmall(Codec.LeafKind, cfg);
    TwoWidths(|leaves|, c.leafMax);
    TopOwnPage(t);
    UsedPages(pm.pages, Pages(t), t.id);
  }

  lemma {:induction false} TopOwnPage(t: Tree)
    ensures t.id in Pages(t)
  {
    hide PagesAll;
  }

  /** A tree over inserted keys of the configured size can be stored. */
  lemma {:induction false} TreeStorable(
      cfg: KeyConfig, pm: PageManager, t: Tree, h: nat, leaves: seq<Tree>, ks: iset<Key>)
    requires TreeOK(CapsOf(cfg), pm.pages, t, h, leaves) && pm.Valid() && pm.numPages <= 0x1_0000_0000
    requires META_PAGE_ID in pm.pages && pm.pages[META_PAGE_ID] == Meta(t.id, h, |Flat(leaves)|)
    requires (cfg.VarKeys? ==> cfg.maxKeySize < 0x1_0000) && KeysIn(pm.pages, ks)
    requires forall k :: k in ks ==> Named(cfg, k)
    requires forall i :: 0 <= i < |Flat(leaves)| ==> EntryFits(Flat(leaves)[i])
    ensures Storable(cfg, pm.pages)
  {
    hide Pages, Leaves, WF, Skel, Chain, Accounts, Flat, KeysIn, Named, FieldsFit, CapsOf;
    forall id | id in pm.pages ensures FieldsFit(cfg, pm.pages[id]) {
      if id == META_PAGE_ID {
        MetaFits(cfg, pm, t, h, leaves);
        MetaFieldsFit(cfg, pm.pages[id]);
      } else {
        KeysRead(pm.pages, ks, id);
        NodeFieldsFit(cfg, pm.pages, t, h, leaves, ks, id);
      }
    }
  }

  lemma {:induction false} MetaFieldsFit(cfg: KeyConfig, page: Page)
    requires page.Meta? && 0 <= page.root < 0x1_0000_0000
    requires page.height < 0x1_0000_0000 && page.numEntries < 0x1_0000_0000_0000_0000
    ensures FieldsFit(cfg, page)
  {
  }

  lemma {:induction false} NodeFieldsFit(
      cfg: KeyConfig, pages: map<PageId, Page>, t: Tree, h: nat, leaves: seq<Tree>, ks: iset<Key>, id: PageId)
    requires TreeOK(CapsOf(cfg), pages, t, h, leaves) && id in pages && id != META_PAGE_ID
    requires KeysOn(pages[id], ks) && forall k :: k in ks ==> Named(cfg, k)
    requires forall i :: 0 <= i < |Flat(leaves)| ==> EntryFits(Flat(leaves)[i])
    ensures FieldsFit(cfg, pages[id])
  {
    hide Pages, Leaves, WF, Skel, Chain, Accounts, Flat, Named, CapsOf;
    var c := CapsOf(cfg);
    UsedPages(pages, Pages(t), id);
    NodeFound(c, pages, t, h, NegInf, PosInf, RootMin(h), id);
    if leaf :| leaf in Leaves(t) && LeafWithin(c, leaf, id) {
      PageOfLeaf(c, pages, leaves, leaf);
      InFlat(leaves, leaf);
    }
  }

  lemma {:induction false} InFlat(leaves: seq<Tree>, leaf: Tree)
    requires leaf in leaves && leaf.TLeaf? && forall i :: 0 <= i < |Flat(leaves)| ==> EntryFits(Flat(leaves)[i])
    ensures forall i :: 0 <= i < |leaf.entries| ==> EntryFits(leaf.entries[i])
  {
    hide EntryFits;
    var n :| 0 <= n < |leaves| && leaves[n] == leaf;
    assert leaves == leaves[..n] + [leaf] + leaves[n + 1..];
    FlatAround(leaves[..n], leaf, leaves[n + 1..]);
    var at := |Flat(leaves[..n])|;
    hide Flat;
    forall i | 0 <= i < |leaf.entries| ensures EntryFits(leaf.entries[i]) {
      assert Flat(leaves)[at + i] == leaf.entries[i];
    }
  }

  lemma {:induction false} RunReadsBack(cfg: KeyConfig, ops: seq<Op>, tree: BTree, file: map<PageId, seq<Byte>>)
    requires tree.Valid() && tree.cfg == cfg && tree.Contents() == Steps(map[], ops).0
    requires forall k :: k in tree.known ==> InsertedIn(ops, k)
    requires OpsFit(cfg, ops) && (cfg.VarKeys? ==> cfg.maxKeySize < 0x1_0000) && tree.pm.numPages <= 0x1_0000_0000
    requires FileHolds(cfg, file, tree.pm.pages)
    ensures ReadsBack(cfg, file, tree.pm.pages)
  {
    hide TreeOK, Flat, Leaves, MapOf, Steps, FileHolds, ReadsBack, KeysIn, Storable, CapsOf, Named;
    var c, leaves := CapsOf(cfg), Leaves(tree.shape);
    TreeSorted(c, tree.pm.pages, tree.shape, tree.height, leaves);
    EntriesFit(cfg, ops, Flat(leaves));
    TreeStorable(cfg, tree.pm, tree.shape, tree.height, leaves, tree.known);
    TreeReadsBack(cfg, tree.pm.pages, tree.shape, tree.height, leaves, file);
  }

  /** Every run that inserts keys of the configured size, and stays within 2^32
      pages, leaves a file that reads back. */
  method RunAndStore(cfg: KeyConfig, ops: seq<Op>) returns (tree: BTree, outs: seq<Out>)
    requires CapsOK(CapsOf(cfg)) && (cfg.VarKeys? ==> cfg.maxKeySize < 0x1_0000) && OpsFit(cfg, ops)
    ensures fresh(tree) && tree.Valid() && (tree.Contents(), outs) == Steps(map[], ops)
    ensures tree.pm.numPages <= 0x1_0000_0000 ==>
      forall file :: FileHolds(cfg, file, tree.pm.pages) ==> ReadsBack(cfg, file, tree.pm.pages)
  {
    hide TreeOK, Flat, Leaves, MapOf, Steps, FileHolds, ReadsBack, KeysIn, CapsOf, Named, StoreTrace;
    ghost var stores;
    tree, outs, stores := Run(cfg, ops);
    if tree.pm.numPages <= 0x1_0000_0000 {
      forall file | FileHolds(cfg, file, tree.pm.pages) ensures ReadsBack(cfg, file, tree.pm.pages) {
        RunReadsBack(cfg, ops, tree, file);
      }
    }
  }
}
