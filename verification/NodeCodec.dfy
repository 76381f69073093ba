/** The page form of B+Tree nodes: how a node fills its 8192-byte buffer and how
    it is read back, for both node kinds and both key types. */
module NodeCodec {
  import opened Prelude
  import opened LittleEndian
  import opened NodeLayout

  type Key = seq<Byte>

  datatype Kind = InternalKind | LeafKind

  datatype Entry =
    | Child(key: Key, child: nat)
    | Data(key: Key, pageId: nat, slotId: nat)

  datatype Node =
    | InternalNode(pageId: nat, count: nat, rightChild: nat, config: KeyConfig, entries: seq<Entry>)
    | LeafNode(pageId: nat, count: nat, nextLeaf: nat, prevLeaf: nat, config: KeyConfig, entries: seq<Entry>)
  {
    function Kind(): Kind { if InternalNode? then InternalKind else LeafKind }
  }

  // ── Geometry ────────────────────────────────────────────────────────

  function FixedHeader(kind: Kind): nat { if kind == InternalKind then INTERNAL_FIXED_HEADER else LEAF_FIXED_HEADER }
  function PtrSize(kind: Kind): nat { if kind == InternalKind then CHILD_PTR_SIZE else DATA_PTR_SIZE }
  function EntriesStart(kind: Kind, cfg: KeyConfig): nat { PAGE_HEADER_SIZE + FixedHeader(kind) + NodeMetaBytes(cfg) }
  function SlotSize(kind: Kind, cfg: KeyConfig): nat { SlotKeySize(cfg) + PtrSize(kind) }
  function SlotBase(kind: Kind, cfg: KeyConfig, i: nat): nat { EntriesStart(kind, cfg) + i * SlotSize(kind, cfg) }
  function Capacity(kind: Kind, cfg: KeyConfig): nat {
    if kind == InternalKind then InternalMaxKeys(cfg) else LeafMaxEntries(cfg)
  }

  lemma {:induction false} MulAdd(i: nat, d: nat, m: nat)
    ensures (i + d) * m == i * m + d * m
    ensures d >= 1 ==> d * m >= m
  {
  }

  /** Slots follow one another without overlap. */
  lemma {:induction false} SlotsApart(kind: Kind, cfg: KeyConfig, i: nat, j: nat)
    requires i < j
    ensures SlotBase(kind, cfg, i) + SlotSize(kind, cfg) <= SlotBase(kind, cfg, j)
  {
    MulAdd(i, j - i, SlotSize(kind, cfg));
  }

  /** A node within capacity ends inside its page, and capacity is the largest
      count for which that is so. */
  lemma {:induction false} CapacityIsExact(kind: Kind, cfg: KeyConfig, n: nat)
    ensures n <= Capacity(kind, cfg) <==> SlotBase(kind, cfg, n) <= PAGE_SIZE
  {
    DivBound(USABLE_SPACE - (FixedHeader(kind) + NodeMetaBytes(cfg)), SlotSize(kind, cfg), n);
  }

  // ── Nodes a page can hold ───────────────────────────────────────────

  /** Keys are 16 bytes, or at most as long as configured. */
  predicate KeyOK(cfg: KeyConfig, key: Key) {
    match cfg
    case UuidKeys => |key| == UUID_KEY_SIZE
    case VarKeys(n) => |key| <= n < 0x1_0000
  }

  /** The entry is of the node's kind and its fields have the source's widths. */
  predicate EntryOK(kind: Kind, cfg: KeyConfig, e: Entry) {
    && KeyOK(cfg, e.key)
    && match e
       case Child(_, c) => kind == InternalKind && c < 0x1_0000_0000
       case Data(_, p, s) => kind == LeafKind && p < 0x1_0000_0000 && s < 0x1_0000
  }

  ghost predicate NodeOK(n: Node) {
    && n.pageId < 0x1_0000_0000 && n.count < 0x1_0000
    && (n.config.VarKeys? ==> n.config.maxKeySize < 0x1_0000)
    && (n.InternalNode? ==> n.rightChild < 0x1_0000_0000)
    && (n.LeafNode? ==> n.nextLeaf < 0x1_0000_0000 && n.prevLeaf < 0x1_0000_0000)
    && |n.entries| <= Capacity(n.Kind(), n.config)
    && (forall i :: 0 <= i < |n.entries| ==> EntryOK(n.Kind(), n.config, n.entries[i]))
  }

  // ── Slots ───────────────────────────────────────────────────────────

  /** A key in its slot: raw, or length-prefixed and zero-padded. */
  function KeySlot(cfg: KeyConfig, key: Key): (s: seq<Byte>)
    requires KeyOK(cfg, key)
    ensures |s| == SlotKeySize(cfg)
  {
    match cfg
    case UuidKeys => key
    case VarKeys(n) => LE(|key|, 2) + key + seq(n - |key|, i => 0)
  }

  /** None where the length prefix points past the slot. */
  function ReadKey(cfg: KeyConfig, slot: seq<Byte>): Option<Key>
    requires |slot| == SlotKeySize(cfg)
  {
    match cfg
    case UuidKeys => Some(slot)
    case VarKeys(_) =>
      var n := FromLE(slot[..2]);
      if VAR_LEN_PREFIX + n <= |slot| then Some(slot[VAR_LEN_PREFIX..VAR_LEN_PREFIX + n]) else None
  }

  lemma {:induction false} KeyRoundTrip(cfg: KeyConfig, key: Key)
    requires match cfg
             case UuidKeys => |key| == 16
             case VarKeys(n) => |key| <= n < 0x1_0000
    ensures ReadKey(cfg, KeySlot(cfg, key)) == Some(key)
  {
    match cfg
    case UuidKeys =>
    case VarKeys(n) =>
      RoundTrip(|key|, 2);
      Widths();
      Prefixed(LE(|key|, 2), key, seq(n - |key|, i => 0));
  }

  lemma {:induction false} Prefixed(a: seq<Byte>, b: seq<Byte>, c: seq<Byte>)
    ensures (a + b + c)[..|a|] == a
    ensures (a + b + c)[|a|..|a| + |b|] == b
    ensures (a + b + c)[|a| + |b|..] == c
  {
  }

  function Pointer(e: Entry): (s: seq<Byte>)
    ensures |s| == if e.Child? then CHILD_PTR_SIZE else DATA_PTR_SIZE
  {
    match e
    case Child(_, c) => LE(c, 4)
    case Data(_, p, s) => LE(p, 4) + LE(s, 2)
  }

  function Slot(kind: Kind, cfg: KeyConfig, e: Entry): (s: seq<Byte>)
    requires EntryOK(kind, cfg, e)
    ensures |s| == SlotSize(kind, cfg)
  {
    KeySlot(cfg, e.key) + Pointer(e)
  }

  function ReadPointer(kind: Kind, key: Key, p: seq<Byte>): Entry
    requires |p| == PtrSize(kind)
  {
    match kind
    case InternalKind => Child(key, FromLE(p))
    case LeafKind => Data(key, FromLE(p[..4]), FromLE(p[4..]))
  }

  function ReadSlot(kind: Kind, cfg: KeyConfig, s: seq<Byte>): Option<Entry>
    requires |s| == SlotSize(kind, cfg)
  {
    match ReadKey(cfg, s[..SlotKeySize(cfg)])
    case None => None
    case Some(key) => Some(ReadPointer(kind, key, s[SlotKeySize(cfg)..]))
  }

  lemma {:induction false} SlotRoundTrip(kind: Kind, cfg: KeyConfig, e: Entry)
    requires EntryOK(kind, cfg, e)
    ensures ReadSlot(kind, cfg, Slot(kind, cfg, e)) == Some(e)
  {
    KeyRoundTrip(cfg, e.key);
    Prefixed(KeySlot(cfg, e.key), Pointer(e), []);
    assert KeySlot(cfg, e.key) + Pointer(e) + [] == Slot(kind, cfg, e);
    Widths();
    match e
    case Child(_, c) => RoundTrip(c, 4);
    case Data(_, p, s) =>
      RoundTrip(p, 4);
      RoundTrip(s, 2);
      Prefixed(LE(p, 4), LE(s, 2), []);
      assert LE(p, 4) + LE(s, 2) + [] == Pointer(e);
  }

  // ── Pages ───────────────────────────────────────────────────────────

  /** The page header of a fresh page of the given type. */
  function HeaderBytes(pageId: nat, kind: Kind): (s: seq<Byte>)
    ensures |s| == PAGE_HEADER_SIZE
  {
    LE(pageId, 4) + [if kind == InternalKind then 2 else 3] + [0] + LE(0, 2)
    + LE(PAGE_HEADER_SIZE, 2) + LE(PAGE_SIZE, 2) + LE(0, 4) + LE(0, 4) + LE(0, 8) + LE(0, 4)
  }

  function Links(n: Node): (s: seq<Byte>)
    ensures |s| + 2 == FixedHeader(n.Kind())
  {
    if n.InternalNode? then LE(n.rightChild, 4) else LE(n.nextLeaf, 4) + LE(n.prevLeaf, 4)
  }

  function ConfigBytes(cfg: KeyConfig): (s: seq<Byte>)
    ensures |s| == NodeMetaBytes(cfg)
  {
    if cfg.VarKeys? then LE(cfg.maxKeySize, 2) else []
  }

  function SlotAt(b: seq<Byte>, kind: Kind, cfg: KeyConfig, i: nat): (s: seq<Byte>)
    requires SlotBase(kind, cfg, i) + SlotSize(kind, cfg) <= |b|
    ensures |s| == SlotSize(kind, cfg)
  {
    b[SlotBase(kind, cfg, i)..SlotBase(kind, cfg, i) + SlotSize(kind, cfg)]
  }

  /** The first bytes of the page: header, count, links and key configuration.
      The four checksum bytes at 28 are left open. */
  ghost predicate FrontHolds(b: seq<Byte>, n: Node) {
    && |b| == PAGE_SIZE
    && b[..28] == HeaderBytes(n.pageId, n.Kind())[..28]
    && b[32..34] == LE(n.count, 2)
    && b[34..32 + FixedHeader(n.Kind())] == Links(n)
    && b[32 + FixedHeader(n.Kind())..EntriesStart(n.Kind(), n.config)] == ConfigBytes(n.config)
  }

  ghost predicate SlotHolds(b: seq<Byte>, n: Node, i: nat)
    requires i < |n.entries|
  {
    && SlotBase(n.Kind(), n.config, i) + SlotSize(n.Kind(), n.config) <= |b|
    && EntryOK(n.Kind(), n.config, n.entries[i])
    && SlotAt(b, n.Kind(), n.config, i) == Slot(n.Kind(), n.config, n.entries[i])
  }

  /** The page is the node's: its front, one slot per entry, zeros after them. */
  ghost predicate Encoded(b: seq<Byte>, n: Node) {
    && FrontHolds(b, n)
    && (forall i :: 0 <= i < |n.entries| ==> SlotHolds(b, n, i))
    && (forall k :: SlotBase(n.Kind(), n.config, |n.entries|) <= k < |b| ==> b[k] == 0)
  }

  // ── Writing ─────────────────────────────────────────────────────────

  /** Copies bytes into the buffer at the given offset. */
  method PutSlice(buf: array<Byte>, at: nat, bytes: seq<Byte>)
    requires at + |bytes| <= buf.Length
    modifies buf
    ensures buf[at..at + |bytes|] == bytes
    ensures forall k :: 0 <= k < buf.Length && !(at <= k < at + |bytes|) ==> buf[k] == old(buf[k])
  {
    var i := 0;
    while i < |bytes|
      invariant i <= |bytes|
      invariant buf[at..at + i] == bytes[..i]
      invariant forall k :: 0 <= k < buf.Length && !(at <= k < at + i) ==> buf[k] == old(buf[k])
    {
      buf[at + i] := bytes[i];
      i := i + 1;
    }
  }

  /** Copies two slices one after the other. */
  method PutTwo(buf: array<Byte>, at: nat, first: seq<Byte>, second: seq<Byte>)
    requires at + |first| + |second| <= buf.Length
    modifies buf
    ensures buf[..][at..at + |first|] == first && buf[..][at + |first|..at + |first| + |second|] == second
    ensures SameBut(old(buf[..]), buf[..], at, at + |first| + |second|)
  {
    PutSlice(buf, at, first);
    PutSlice(buf, at + |first|, second);
  }

  /** Writes the front of the page into a zeroed buffer. */
  method PutFront(buf: array<Byte>, n: Node)
    requires buf.Length == PAGE_SIZE && (forall k :: 0 <= k < buf.Length ==> buf[k] == 0)
    modifies buf
    ensures FrontHolds(buf[..], n)
    ensures forall k :: EntriesStart(n.Kind(), n.config) <= k < buf.Length ==> buf[k] == 0
  {
    var header := HeaderBytes(n.pageId, n.Kind());
    PutSlice(buf, 0, header);
    assert buf[..28] == buf[0..32][..28];
    PutSlice(buf, 32, LE(n.count, 2));
    PutSlice(buf, 34, Links(n));
    PutSlice(buf, 32 + FixedHeader(n.Kind()), ConfigBytes(n.config));
  }

  /** Writes entry i into its slot. */
  method PutEntry(buf: array<Byte>, n: Node, i: nat)
    requires i < |n.entries| && EntryOK(n.Kind(), n.config, n.entries[i])
    requires FrontHolds(buf[..], n) && forall j :: 0 <= j < i ==> SlotHolds(buf[..], n, j)
    requires SlotBase(n.Kind(), n.config, i) + SlotSize(n.Kind(), n.config) <= buf.Length
    modifies buf
    ensures FrontHolds(buf[..], n) && forall j :: 0 <= j < i + 1 ==> SlotHolds(buf[..], n, j)
    ensures forall k :: SlotBase(n.Kind(), n.config, i) + SlotSize(n.Kind(), n.config) <= k < buf.Length ==>
      buf[k] == old(buf[k])
  {
    hide SlotBase, FrontHolds, SlotHolds, KeySlot, Pointer;
    var base := SlotBase(n.Kind(), n.config, i);
    PutTwo(buf, base, KeySlot(n.config, n.entries[i].key), Pointer(n.entries[i]));
    SlotWritten(old(buf[..]), buf[..], n, i);
  }

  /** Serialises a node into a fresh page buffer. */
  method ToBytes(n: Node) returns (buf: array<Byte>)
    requires NodeOK(n)
    ensures fresh(buf) && Encoded(buf[..], n)
  {
    hide FrontHolds, SlotHolds;
    buf := new Byte[PAGE_SIZE](i => 0);
    PutFront(buf, n);
    var i := 0;
    var kind, cfg := n.Kind(), n.config;
    while i < |n.entries|
      invariant i <= |n.entries| && fresh(buf) && buf.Length == PAGE_SIZE
      invariant FrontHolds(buf[..], n)
      invariant forall j :: 0 <= j < i ==> SlotHolds(buf[..], n, j)
      invariant forall k :: SlotBase(kind, cfg, i) <= k < buf.Length ==> buf[k] == 0
    {
      CapacityIsExact(kind, cfg, i + 1);
      MulAdd(i, 1, SlotSize(kind, cfg));
      PutEntry(buf, n, i);
      i := i + 1;
    }
  }

  ghost predicate SameBut(a: seq<Byte>, b: seq<Byte>, lo: nat, hi: nat) {
    |a| == |b| && forall k :: 0 <= k < |a| && !(lo <= k < hi) ==> a[k] == b[k]
  }

  lemma {:induction false} SliceSame(a: seq<Byte>, b: seq<Byte>, lo: nat, hi: nat, i: nat, j: nat)
    requires SameBut(a, b, lo, hi) && i <= j <= |a| && (j <= lo || hi <= i)
    ensures a[i..j] == b[i..j]
  {
  }

  /** A slot survives changes elsewhere. */
  lemma {:induction false} SlotKept(a: seq<Byte>, b: seq<Byte>, n: Node, j: nat, lo: nat, hi: nat)
    requires j < |n.entries| && SlotHolds(a, n, j) && SameBut(a, b, lo, hi)
    requires hi <= SlotBase(n.Kind(), n.config, j)
      || SlotBase(n.Kind(), n.config, j) + SlotSize(n.Kind(), n.config) <= lo
    ensures SlotHolds(b, n, j)
  {
    var at, size := SlotBase(n.Kind(), n.config, j), SlotSize(n.Kind(), n.config);
    SliceSame(a, b, lo, hi, at, at + size);
  }

  lemma {:induction false} FrontKept(a: seq<Byte>, b: seq<Byte>, n: Node, lo: nat, hi: nat)
    requires FrontHolds(a, n) && SameBut(a, b, lo, hi)
    requires lo >= EntriesStart(n.Kind(), n.config) || 28 <= lo <= hi <= 32
    ensures FrontHolds(b, n)
  {
    var f, e := 32 + FixedHeader(n.Kind()), EntriesStart(n.Kind(), n.config);
    SliceSame(a, b, lo, hi, 0, 28);
    SliceSame(a, b, lo, hi, 32, 34);
    SliceSame(a, b, lo, hi, 34, f);
    SliceSame(a, b, lo, hi, f, e);
  }

  lemma {:induction false} SlotWritten(a: seq<Byte>, b: seq<Byte>, n: Node, i: nat)
    requires i < |n.entries| && FrontHolds(a, n) && EntryOK(n.Kind(), n.config, n.entries[i])
    requires forall j :: 0 <= j < i ==> SlotHolds(a, n, j)
    requires SlotBase(n.Kind(), n.config, i) + SlotSize(n.Kind(), n.config) <= |a|
    requires SameBut(a, b, SlotBase(n.Kind(), n.config, i),
      SlotBase(n.Kind(), n.config, i) + SlotSize(n.Kind(), n.config))
    requires var base, k := SlotBase(n.Kind(), n.config, i), SlotKeySize(n.config);
             && b[base..base + k] == KeySlot(n.config, n.entries[i].key)
             && b[base + k..base + SlotSize(n.Kind(), n.config)] == Pointer(n.entries[i])
    ensures FrontHolds(b, n)
    ensures forall j :: 0 <= j < i + 1 ==> SlotHolds(b, n, j)
  {
    SlotNow(b, n, i);
    hide SlotBase, SlotHolds, FrontHolds, KeySlot, Pointer, SlotKeySize;
    var base, size := SlotBase(n.Kind(), n.config, i), SlotSize(n.Kind(), n.config);
    SlotsAfterFront(n.Kind(), n.config, i);
    FrontKept(a, b, n, base, base + size);
    forall j | 0 <= j < i
      ensures SlotHolds(b, n, j)
    {
      SlotsApart(n.Kind(), n.config, j, i);
      SlotKept(a, b, n, j, base, base + size);
    }
  }

  lemma {:induction false} SliceJoin(b: seq<Byte>, i: nat, j: nat, k: nat)
    requires i <= j <= k <= |b|
    ensures b[i..k] == b[i..j] + b[j..k]
  {
  }

  lemma {:induction false} SlotNow(b: seq<Byte>, n: Node, i: nat)
    requires i < |n.entries| && EntryOK(n.Kind(), n.config, n.entries[i])
    requires SlotBase(n.Kind(), n.config, i) + SlotSize(n.Kind(), n.config) <= |b|
    requires var base, k := SlotBase(n.Kind(), n.config, i), SlotKeySize(n.config);
             && b[base..base + k] == KeySlot(n.config, n.entries[i].key)
             && b[base + k..base + SlotSize(n.Kind(), n.config)] == Pointer(n.entries[i])
    ensures SlotHolds(b, n, i)
  {
    hide SlotBase, KeySlot, Pointer;
    var base, k, size := SlotBase(n.Kind(), n.config, i), SlotKeySize(n.config), SlotSize(n.Kind(), n.config);
    SliceJoin(b, base, base + k, base + size);
  }

  // ── Reading ─────────────────────────────────────────────────────────

  function ReadConfig(varKeys: bool, b: seq<Byte>, at: nat): KeyConfig
    requires at + 2 <= |b|
  {
    if varKeys then VarKeys(FromLE(b[at..at + 2])) else UuidKeys
  }

  /** The first `count` entries; None where a slot leaves the page or a key
      length leaves its slot. */
  function ReadEntries(b: seq<Byte>, kind: Kind, cfg: KeyConfig, count: nat): (r: Option<seq<Entry>>)
    ensures r.Some? ==> |r.value| == count
  {
    if count == 0 then Some([])
    else
      match ReadEntries(b, kind, cfg, count - 1)
      case None => None
      case Some(es) =>
        if SlotBase(kind, cfg, count - 1) + SlotSize(kind, cfg) > |b| then None
        else
          match ReadSlot(kind, cfg, SlotAt(b, kind, cfg, count - 1))
          case None => None
          case Some(e) => Some(es + [e])
  }

  function Assemble(b: seq<Byte>, kind: Kind, cfg: KeyConfig, count: nat, entries: seq<Entry>): Node
    requires |b| == PAGE_SIZE
  {
    match kind
    case InternalKind => InternalNode(FromLE(b[0..4]), count, FromLE(b[34..38]), cfg, entries)
    case LeafKind => LeafNode(FromLE(b[0..4]), count, FromLE(b[34..38]), FromLE(b[38..42]), cfg, entries)
  }

  function Decode(b: seq<Byte>, kind: Kind, varKeys: bool): Option<Node>
    requires |b| == PAGE_SIZE
  {
    var cfg := ReadConfig(varKeys, b, 32 + FixedHeader(kind));
    var count := FromLE(b[32..34]);
    match ReadEntries(b, kind, cfg, count)
    case None => None
    case Some(es) => Some(Assemble(b, kind, cfg, count, es))
  }

  lemma {:induction false} ReadFails(b: seq<Byte>, kind: Kind, cfg: KeyConfig, i: nat, count: nat)
    requires i <= count && ReadEntries(b, kind, cfg, i).None?
    ensures ReadEntries(b, kind, cfg, count).None?
  {
    if i < count {
      ReadFails(b, kind, cfg, i, count - 1);
    }
  }

  /** Deserialises a node; None where the source would index out of range. */
  method FromBytes(buf: array<Byte>, kind: Kind, varKeys: bool) returns (r: Option<Node>)
    requires buf.Length == PAGE_SIZE
    ensures r == Decode(buf[..], kind, varKeys)
  {
    hide ReadSlot, SlotAt, SlotBase, FromLE, Assemble;
    var b := buf[..];
    var count := FromLE(b[32..34]);
    var cfg := ReadConfig(varKeys, b, 32 + FixedHeader(kind));
    var entries: seq<Entry> := [];
    var i := 0;
    while i < count
      invariant i <= count && ReadEntries(b, kind, cfg, i) == Some(entries)
    {
      if SlotBase(kind, cfg, i) + SlotSize(kind, cfg) > buf.Length {
        ReadFails(b, kind, cfg, i + 1, count);
        return None;
      }
      var e := ReadSlot(kind, cfg, SlotAt(b, kind, cfg, i));
      if e.None? {
        ReadFails(b, kind, cfg, i + 1, count);
        return None;
      }
      entries := entries + [e.value];
      i := i + 1;
    }
    r := Some(Assemble(b, kind, cfg, count, entries));
  }

  // ── Round trip ──────────────────────────────────────────────────────

  lemma {:induction false} EntriesReadBack(b: seq<Byte>, n: Node, i: nat)
    requires Encoded(b, n) && i <= |n.entries|
    ensures ReadEntries(b, n.Kind(), n.config, i) == Some(n.entries[..i])
  {
    hide ReadSlot, Slot, FrontHolds, SlotBase;
    if i > 0 {
      EntriesReadBack(b, n, i - 1);
      assert SlotHolds(b, n, i - 1);
      SlotRoundTrip(n.Kind(), n.config, n.entries[i - 1]);
      assert n.entries[..i] == n.entries[..i - 1] + [n.entries[i - 1]];
    }
  }

  lemma {:induction false} FrontReadsBack(b: seq<Byte>, n: Node)
    requires FrontHolds(b, n) && NodeOK(n)
    ensures FromLE(b[0..4]) == n.pageId && FromLE(b[32..34]) == n.count
    ensures ReadConfig(n.config.VarKeys?, b, 32 + FixedHeader(n.Kind())) == n.config
    ensures n.InternalNode? ==> FromLE(b[34..38]) == n.rightChild
    ensures n.LeafNode? ==> FromLE(b[34..38]) == n.nextLeaf && FromLE(b[38..42]) == n.prevLeaf
  {
    hide FromLE, LE, HeaderBytes;
    Widths();
    RoundTrip(n.pageId, 4);
    RoundTrip(n.count, 2);
    HeaderStart(n.pageId, n.Kind());
    assert b[0..4] == b[..28][..4];
    if n.config.VarKeys? {
      RoundTrip(n.config.maxKeySize, 2);
    }
    match n
    case InternalNode(_, _, c, _, _) => RoundTrip(c, 4);
    case LeafNode(_, _, p, q, _, _) =>
      RoundTrip(p, 4);
      RoundTrip(q, 4);
      LinkPair(b, LE(p, 4), LE(q, 4));
  }

  lemma {:induction false} HeaderStart(pageId: nat, kind: Kind)
    ensures HeaderBytes(pageId, kind)[..28][..4] == LE(pageId, 4)
  {
    hide LE;
  }

  lemma {:induction false} LinkPair(b: seq<Byte>, p: seq<Byte>, q: seq<Byte>)
    requires |b| >= 42 && |p| == 4 && |q| == 4 && b[34..42] == p + q
    ensures b[34..38] == p && b[38..42] == q
  {
    assert b[34..42][..4] == b[34..38] && b[34..42][4..] == b[38..42];
  }

  /** Reading a written page gives the node back exactly when its counter is
      the number of its entries. */
  lemma {:induction false} NodeRoundTrip(b: seq<Byte>, n: Node)
    requires NodeOK(n) && Encoded(b, n)
    ensures Decode(b, n.Kind(), n.config.VarKeys?) == Some(n) <==> n.count == |n.entries|
  {
    FrontReadsBack(b, n);
    if n.count == |n.entries| {
      EntriesReadBack(b, n, |n.entries|);
      assert n.entries[..|n.entries|] == n.entries;
    }
  }

  // ── Exactly what a page reads as ────────────────────────────────────

  /** The slot's key part shows this key; what follows a shorter key is free. */
  ghost predicate KeyShows(cfg: KeyConfig, s: seq<Byte>, key: Key) {
    match cfg
    case UuidKeys => s == key
    case VarKeys(_) => |s| >= 2 + |key| && FromLE(s[..2]) == |key| && s[2..2 + |key|] == key
  }

  /** The pointer part shows where the entry points. */
  ghost predicate PointerShows(kind: Kind, s: seq<Byte>, e: Entry) {
    match kind
    case InternalKind => e.Child? && |s| == 4 && FromLE(s) == e.child
    case LeafKind => e.Data? && |s| == 6 && FromLE(s[..4]) == e.pageId && FromLE(s[4..]) == e.slotId
  }

  /** Slot i of the page shows this entry. */
  ghost predicate SlotShows(b: seq<Byte>, kind: Kind, cfg: KeyConfig, i: nat, e: Entry) {
    var at, k := SlotBase(kind, cfg, i), SlotKeySize(cfg);
    && at + SlotSize(kind, cfg) <= |b|
    && KeyShows(cfg, b[at..at + k], e.key) && PointerShows(kind, b[at + k..at + SlotSize(kind, cfg)], e)
  }

  /** Slot i leaves the page, or its key length leaves the slot. */
  ghost predicate SlotBroken(b: seq<Byte>, kind: Kind, cfg: KeyConfig, i: nat) {
    var at, k := SlotBase(kind, cfg, i), SlotKeySize(cfg);
    || at + SlotSize(kind, cfg) > |b|
    || (cfg.VarKeys? && FromLE(b[at..at + 2]) > cfg.maxKeySize)
  }

  lemma {:induction false} SlotExactly(b: seq<Byte>, kind: Kind, cfg: KeyConfig, i: nat, e: Entry)
    requires SlotBase(kind, cfg, i) + SlotSize(kind, cfg) <= |b|
    ensures ReadSlot(kind, cfg, SlotAt(b, kind, cfg, i)) == Some(e) <==> SlotShows(b, kind, cfg, i, e)
    ensures ReadSlot(kind, cfg, SlotAt(b, kind, cfg, i)) == None <==> SlotBroken(b, kind, cfg, i)
  {
    hide FromLE, SlotBase;
    var at, k, size := SlotBase(kind, cfg, i), SlotKeySize(cfg), SlotSize(kind, cfg);
    var s := SlotAt(b, kind, cfg, i);
    assert s[..k] == b[at..at + k] && s[k..] == b[at + k..at + size];
    if cfg.VarKeys? { assert b[at..at + k][..2] == b[at..at + 2]; }
  }

  lemma {:induction false} EntriesExactly(b: seq<Byte>, kind: Kind, cfg: KeyConfig, count: nat, es: seq<Entry>)
    ensures ReadEntries(b, kind, cfg, count) == Some(es) <==>
      |es| == count && forall i :: 0 <= i < count ==> SlotShows(b, kind, cfg, i, es[i])
  {
    hide ReadSlot, SlotShows, SlotBase, SlotAt;
    if count > 0 && |es| == count {
      var last, init, e := count - 1, es[..count - 1], es[count - 1];
      assert es == init + [e];
      EntriesExactly(b, kind, cfg, last, init);
      assert forall i :: 0 <= i < last ==> init[i] == es[i];
      if SlotBase(kind, cfg, last) + SlotSize(kind, cfg) > |b| {
        OutOfPage(b, kind, cfg, last, e);
      } else {
        SlotExactly(b, kind, cfg, last, e);
        var r, x := ReadEntries(b, kind, cfg, last), ReadSlot(kind, cfg, SlotAt(b, kind, cfg, last));
        if r.Some? && x.Some? { SnocSame(r.value, x.value, init, e); }
      }
    }
  }

  lemma {:induction false} SnocSame(a: seq<Entry>, x: Entry, b: seq<Entry>, y: Entry)
    ensures a + [x] == b + [y] <==> a == b && x == y
  {
    if a + [x] == b + [y] {
      assert |a + [x]| == |b + [y]|;
      assert (a + [x])[..|a|] == a && (b + [y])[..|b|] == b && (a + [x])[|a|] == x;
    }
  }

  lemma {:induction false} OutOfPage(b: seq<Byte>, kind: Kind, cfg: KeyConfig, i: nat, e: Entry)
    requires SlotBase(kind, cfg, i) + SlotSize(kind, cfg) > |b|
    ensures !SlotShows(b, kind, cfg, i, e) && SlotBroken(b, kind, cfg, i)
  {
  }

  lemma {:induction false} EntriesFail(b: seq<Byte>, kind: Kind, cfg: KeyConfig, count: nat)
    ensures ReadEntries(b, kind, cfg, count) == None <==>
      exists i :: 0 <= i < count && SlotBroken(b, kind, cfg, i)
  {
    hide ReadSlot, SlotBroken, SlotBase, SlotAt;
    if count > 0 {
      var last := count - 1;
      EntriesFail(b, kind, cfg, last);
      if SlotBase(kind, cfg, last) + SlotSize(kind, cfg) <= |b| {
        SlotExactly(b, kind, cfg, last, Child([], 0));
      } else {
        OutOfPage(b, kind, cfg, last, Child([], 0));
      }
    }
  }

  /** A page reads as a node exactly when every field stands at its offset, and
      cannot be read exactly when one of its slots is broken. */
  lemma {:induction false} DecodeExactly(b: seq<Byte>, kind: Kind, varKeys: bool, n: Node)
    requires |b| == PAGE_SIZE
    ensures Decode(b, kind, varKeys) == Some(n) <==>
      && n.Kind() == kind && n.config == ReadConfig(varKeys, b, 32 + FixedHeader(kind))
      && n.pageId == FromLE(b[0..4]) && n.count == |n.entries| == FromLE(b[32..34])
      && (n.InternalNode? ==> n.rightChild == FromLE(b[34..38]))
      && (n.LeafNode? ==> n.nextLeaf == FromLE(b[34..38]) && n.prevLeaf == FromLE(b[38..42]))
      && forall i :: 0 <= i < |n.entries| ==> SlotShows(b, kind, n.config, i, n.entries[i])
    ensures var cfg := ReadConfig(varKeys, b, 32 + FixedHeader(kind));
            Decode(b, kind, varKeys) == None <==>
              exists i :: 0 <= i < FromLE(b[32..34]) && SlotBroken(b, kind, cfg, i)
  {
    hide FromLE, ReadEntries, SlotShows, SlotBroken;
    var cfg, count := ReadConfig(varKeys, b, 32 + FixedHeader(kind)), FromLE(b[32..34]);
    EntriesFail(b, kind, cfg, count);
    EntriesExactly(b, kind, cfg, count, n.entries);
  }

  /** Stamping the checksum leaves the page the node's. */
  lemma {:induction false} StampKeeps(a: seq<Byte>, b: seq<Byte>, n: Node)
    requires Encoded(a, n) && SameBut(a, b, 28, 32)
    ensures Encoded(b, n)
  {
    hide FrontHolds, SlotHolds, SlotBase;
    FrontKept(a, b, n, 28, 32);
    forall i | 0 <= i < |n.entries|
      ensures SlotHolds(b, n, i)
    {
      SlotsAfterFront(n.Kind(), n.config, i);
      SlotKept(a, b, n, i, 28, 32);
    }
    SlotsAfterFront(n.Kind(), n.config, |n.entries|);
  }

  lemma {:induction false} SlotsAfterFront(kind: Kind, cfg: KeyConfig, i: nat)
    ensures EntriesStart(kind, cfg) <= SlotBase(kind, cfg, i)
  {
    MulAdd(0, i, SlotSize(kind, cfg));
  }

  /** Two different nodes never share a page image. */
  lemma {:induction false} PagesTellNodesApart(b: seq<Byte>, m: Node, n: Node)
    requires NodeOK(m) && Encoded(b, m) && m.count == |m.entries|
    requires NodeOK(n) && Encoded(b, n) && n.count == |n.entries|
    requires m.config.VarKeys? == n.config.VarKeys?
    ensures m == n
  {
    hide HeaderBytes, Decode, SlotHolds;
    KindShows(b, m);
    KindShows(b, n);
    NodeRoundTrip(b, m);
    NodeRoundTrip(b, n);
  }

  lemma {:induction false} KindShows(b: seq<Byte>, n: Node)
    requires Encoded(b, n)
    ensures |b| == PAGE_SIZE && b[4] == if n.InternalNode? then 2 else 3
  {
    hide SlotHolds;
    assert b[..28][4] == b[4];
    assert HeaderBytes(n.pageId, n.Kind())[..28][4] == HeaderBytes(n.pageId, n.Kind())[4];
  }

  lemma {:induction false} ZeroBytes(k: nat)
    ensures forall i :: 0 <= i < k ==> LE(0, k)[i] == 0
  {
    if k > 0 { ZeroBytes(k - 1); }
  }

  /** The header of a written page: its id, the code of its kind, no flags and no
      slots, all space after the header free, no neighbours and no log position. */
  lemma {:induction false} HeaderFields(b: seq<Byte>, n: Node)
    requires NodeOK(n) && Encoded(b, n)
    ensures |b| == PAGE_SIZE && FromLE(b[0..4]) == n.pageId && b[4] == if n.InternalNode? then 2 else 3
    ensures b[5] == 0 && FromLE(b[6..8]) == 0 && FromLE(b[8..10]) == 32 && FromLE(b[10..12]) == 8192
    ensures forall k :: 12 <= k < 28 ==> b[k] == 0
  {
    KindShows(b, n);
    FrontReadsBack(b, n);
    HeaderFrom(n.pageId, n.Kind());
    var h := HeaderBytes(n.pageId, n.Kind());
    hide Encoded, HeaderBytes, LE, FromLE;
    assert b[..28] == h[..28] by { FrontIs(b, n); }
    assert forall k :: 0 <= k < 28 ==> b[k] == b[..28][k] == h[..28][k] == h[k];
    assert b[6..8] == h[6..8] && b[8..10] == h[8..10] && b[10..12] == h[10..12];
  }

  lemma {:induction false} FrontIs(b: seq<Byte>, n: Node)
    requires Encoded(b, n)
    ensures b[..28] == HeaderBytes(n.pageId, n.Kind())[..28]
  {
  }

  lemma {:induction false} HeaderFrom(pageId: nat, kind: Kind)
    ensures var h := HeaderBytes(pageId, kind);
            && h[5] == 0 && FromLE(h[6..8]) == 0 && FromLE(h[8..10]) == 32 && FromLE(h[10..12]) == 8192
            && forall k :: 12 <= k < 32 ==> h[k] == 0
  {
    Widths();
    RoundTrip(0, 2);
    RoundTrip(32, 2);
    RoundTrip(8192, 2);
    hide LE, FromLE, Limit;
    HeaderSlices(pageId, kind);
    HeaderZeros(pageId, kind);
  }

  lemma {:induction false} HeaderSlices(pageId: nat, kind: Kind)
    ensures var h := HeaderBytes(pageId, kind);
            h[5] == 0 && h[6..8] == LE(0, 2) && h[8..10] == LE(32, 2) && h[10..12] == LE(8192, 2)
            && h[12..] == LE(0, 4) + LE(0, 4) + LE(0, 8) + LE(0, 4)
  {
    hide LE;
  }

  lemma {:induction false} HeaderZeros(pageId: nat, kind: Kind)
    ensures forall k :: 12 <= k < 32 ==> HeaderBytes(pageId, kind)[k] == 0
  {
    ZeroBytes(4);
    ZeroBytes(8);
    HeaderSlices(pageId, kind);
    hide LE, HeaderBytes;
    var h := HeaderBytes(pageId, kind);
    assert forall k :: 12 <= k < 32 ==> h[k] == h[12..][k - 12];
  }
}
