/** The buffer pool: an LRU page cache with pins and dirty bits in front of the
    page file. */
module BufferPools {
  import opened Prelude

  type PageId = nat
  type Body = seq<Byte>

  /** A page's bytes: the checksum field and everything else. */
  datatype Image = Image(body: Body, checksum: nat)

  type Crc = Body -> nat

  /** What the page manager stores for the image it is given. */
  function Stamp(crc: Crc, img: Image): Image { Image(img.body, crc(img.body)) }

  /** The image, or what storing it makes of it. */
  predicate Aged(crc: Crc, a: Image, b: Image) { b == a || b == Stamp(crc, a) }

  /** What the page manager accepts when it reads a page back. */
  predicate Verifies(crc: Crc, img: Image) { img.checksum == 0 || img.checksum == crc(img.body) }

  datatype BufferFrame = BufferFrame(
    data: Image, pageId: Option<PageId>, pinCount: nat, dirty: bool, lastAccessed: nat)
  {
    function Pin(): BufferFrame { this.(pinCount := pinCount + 1) }

    function Unpin(mark: bool): BufferFrame
      requires pinCount > 0
    {
      this.(pinCount := pinCount - 1, dirty := dirty || mark)
    }

    function Reset(): BufferFrame { BufferFrame(data, None, 0, false, 0) }
  }

  const BLANK_FRAME := BufferFrame(Image([], 0), None, 0, false, 0)

  /** The pool's fields as a value. */
  datatype State = State(frames: seq<BufferFrame>, table: map<PageId, nat>, disk: map<PageId, Image>, clock: nat)

  // ── Invariants ──────────────────────────────────────────────────────

  /** Page table and occupied frames are inverse to one another. */
  ghost predicate Bijection(frames: seq<BufferFrame>, table: map<PageId, nat>) {
    && (forall p :: p in table ==> table[p] < |frames| && frames[table[p]].pageId == Some(p))
    && (forall i :: 0 <= i < |frames| && frames[i].pageId.Some? ==>
          frames[i].pageId.value in table && table[frames[i].pageId.value] == i)
  }

  /** Access times are distinct and in the past. */
  ghost predicate Clocked(frames: seq<BufferFrame>, clock: nat) {
    && (forall i :: 0 <= i < |frames| ==> frames[i].lastAccessed <= clock)
    && (forall i, j :: 0 <= i < j < |frames| && frames[i].pageId.Some? && frames[j].pageId.Some? ==>
          frames[i].lastAccessed != frames[j].lastAccessed)
  }

  function PinsOf(s: State, p: PageId): nat
    requires Bijection(s.frames, s.table)
  {
    if p in s.table then s.frames[s.table[p]].pinCount else 0
  }

  function ContentOf(s: State, p: PageId): Image
    requires Bijection(s.frames, s.table) && p in s.disk
  {
    if p in s.table then s.frames[s.table[p]].data else s.disk[p]
  }

  /** The page-to-bytes map a client sees. */
  ghost function View(s: State): map<PageId, Image>
    requires Bijection(s.frames, s.table)
  {
    map p | p in s.disk :: ContentOf(s, p)
  }

  /** Page by page, the bytes of v as they were or as storing left them. */
  ghost predicate Ages(crc: Crc, v: map<PageId, Image>, w: map<PageId, Image>) {
    v.Keys == w.Keys && forall p :: p in v ==> Aged(crc, v[p], w[p])
  }

  /** The page is not cached, or is marked dirty, or is on disk. */
  ghost predicate Settled(crc: Crc, s: State, p: PageId)
    requires Bijection(s.frames, s.table) && p in s.disk
  {
    p in s.table ==> s.frames[s.table[p]].dirty || Aged(crc, s.frames[s.table[p]].data, s.disk[p])
  }

  ghost predicate Valid(crc: Crc, s: State) {
    && Bijection(s.frames, s.table)
    && Clocked(s.frames, s.clock)
    && (forall p :: p in s.table ==> p in s.disk)
    && (forall p :: p in s.disk ==> Verifies(crc, s.disk[p]))
    && (forall p :: p in s.disk && PinsOf(s, p) == 0 ==> Settled(crc, s, p))
  }

  // ── Transitions ─────────────────────────────────────────────────────

  predicate Free(frames: seq<BufferFrame>, i: nat)
    requires i < |frames|
  {
    frames[i].pageId.None?
  }

  predicate Evictable(frames: seq<BufferFrame>, i: nat)
    requires i < |frames|
  {
    frames[i].pageId.Some? && frames[i].pinCount == 0
  }

  /** Some frame is free or may be evicted. */
  ghost predicate Available(frames: seq<BufferFrame>) {
    exists i :: 0 <= i < |frames| && (Free(frames, i) || Evictable(frames, i))
  }

  /** The frame the pool picks: the first free one, or, with none free, the
      unpinned one accessed longest ago. */
  ghost predicate Chosen(frames: seq<BufferFrame>, v: nat) {
    && v < |frames|
    && if Free(frames, v) then forall i :: 0 <= i < v ==> !Free(frames, i)
       else
         && Evictable(frames, v)
         && (forall i :: 0 <= i < |frames| ==> !Free(frames, i))
         && (forall i :: 0 <= i < |frames| && Evictable(frames, i) ==> frames[v].lastAccessed <= frames[i].lastAccessed)
  }

  /** Writes a frame's page back. */
  function WrittenBack(crc: Crc, s: State, p: PageId): State
    requires p in s.table && s.table[p] < |s.frames|
  {
    var f := s.frames[s.table[p]];
    if f.dirty then s.(disk := s.disk[p := Stamp(crc, f.data)], frames := s.frames[s.table[p] := f.(dirty := false)])
    else s
  }

  /** The state once frame v is empty. */
  function Emptied(crc: Crc, s: State, v: nat): State
    requires v < |s.frames|
  {
    match s.frames[v].pageId
    case None => s
    case Some(p) =>
      var f := s.frames[v];
      s.(disk := if f.dirty then s.disk[p := Stamp(crc, f.data)] else s.disk,
         table := s.table - {p},
         frames := s.frames[v := f.Reset()])
  }

  /** Frame v lost its page: written to disk if it was dirty, and only then, with
      its body unchanged; nothing else moved. */
  ghost predicate Evicted(s: State, t: State, v: nat) {
    && v < |s.frames| == |t.frames| && s.frames[v].pageId.Some?
    && var f := s.frames[v];
       && t.frames[v] == BufferFrame(f.data, None, 0, false, 0)
       && (forall i :: 0 <= i < |s.frames| && i != v ==> t.frames[i] == s.frames[i])
       && t.table == s.table - {f.pageId.value} && t.clock == s.clock
       && (!f.dirty ==> t.disk == s.disk)
       && (f.dirty ==> exists img :: t.disk == s.disk[f.pageId.value := img] && img.body == f.data.body)
  }

  /** The state once page p, with the given bytes, sits pinned in frame v. */
  function Loaded(s: State, v: nat, p: PageId, img: Image, dirty: bool): State
    requires v < |s.frames|
  {
    s.(frames := s.frames[v := BufferFrame(img, Some(p), 1, dirty, s.clock + 1)],
       table := s.table[p := v], clock := s.clock + 1)
  }

  function Hit(s: State, p: PageId): State
    requires p in s.table && s.table[p] < |s.frames|
  {
    s.(frames := s.frames[s.table[p] := s.frames[s.table[p]].Pin().(lastAccessed := s.clock + 1)], clock := s.clock + 1)
  }

  ghost predicate Fetched(crc: Crc, s: State, t: State, p: PageId, v: nat)
    requires Bijection(s.frames, s.table)
  {
    if p in s.table then v == s.table[p] && t == Hit(s, p)
    else
      && Chosen(s.frames, v) && p in Emptied(crc, s, v).disk
      && var e := Emptied(crc, s, v);
         t == Loaded(e, v, p, e.disk[p], false)
  }

  // ── What the transitions keep ───────────────────────────────────────

  /** Only page p and frame v differ between the two states. */
  ghost predicate Elsewhere(s: State, t: State, p: PageId, v: nat) {
    && |t.frames| == |s.frames| && (forall i :: 0 <= i < |s.frames| && i != v ==> t.frames[i] == s.frames[i])
    && (forall q :: q != p ==> (q in t.table <==> q in s.table) && (q in s.table ==> t.table[q] == s.table[q] != v))
    && t.disk.Keys == s.disk.Keys + {p} && (forall q :: q in s.disk && q != p ==> t.disk[q] == s.disk[q])
  }

  /** One transition as clients see it: page p is pinned d times more and may
      have new contents; every other page has the pins, the contents and the
      marks it had, and pinned pages stay in their frames. */
  ghost predicate Effect(crc: Crc, s: State, t: State, p: PageId, d: int, view: map<PageId, Image>)
    requires Valid(crc, s)
  {
    && Valid(crc, t) && Ages(crc, view, View(t))
    && (forall q :: PinsOf(t, q) == PinsOf(s, q) + if q == p then d else 0)
    && (forall q :: q in s.disk && q in t.disk && q != p && Settled(crc, s, q) ==> Settled(crc, t, q))
    && (forall q :: PinsOf(s, q) > 0 ==> q in t.table && t.table[q] == s.table[q])
  }

  lemma {:induction false} Untouched(crc: Crc, s: State, t: State, p: PageId, v: nat)
    requires Bijection(s.frames, s.table) && Bijection(t.frames, t.table) && Elsewhere(s, t, p, v)
    ensures forall q :: q != p ==> PinsOf(t, q) == PinsOf(s, q)
    ensures forall q :: q != p && q in s.disk ==> ContentOf(t, q) == ContentOf(s, q)
    ensures forall q :: q != p && q in s.disk ==> Settled(crc, t, q) == Settled(crc, s, q)
  {
  }

  lemma {:induction false} StillOnDisk(s: State, t: State, p: PageId, v: nat)
    requires Elsewhere(s, t, p, v) && forall q :: q in s.table ==> q in s.disk
    ensures forall q :: q in t.table ==> q in t.disk
  {
  }

  lemma {:induction false} PinnedStay(s: State, t: State, p: PageId, v: nat)
    requires Bijection(s.frames, s.table) && Elsewhere(s, t, p, v)
    ensures forall q :: q != p && PinsOf(s, q) > 0 ==> q in t.table && t.table[q] == s.table[q]
  {
  }

  lemma {:induction false} SameView(s: State, t: State, p: PageId)
    requires Bijection(s.frames, s.table) && Bijection(t.frames, t.table) && t.disk.Keys == s.disk.Keys + {p}
    requires forall q :: q != p && q in s.disk ==> ContentOf(t, q) == ContentOf(s, q)
    ensures View(t) == View(s)[p := ContentOf(t, p)]
  {
    hide ContentOf, Bijection;
  }

  /** A change at one page takes effect as intended once its local facts hold. */
  lemma {:induction false} LocalEffect(crc: Crc, s: State, t: State, p: PageId, v: nat, d: int)
    requires Valid(crc, s) && Bijection(t.frames, t.table) && Clocked(t.frames, t.clock) && Elsewhere(s, t, p, v)
    requires Verifies(crc, t.disk[p])
    requires PinsOf(t, p) == PinsOf(s, p) + d && (PinsOf(t, p) == 0 ==> Settled(crc, t, p))
    requires PinsOf(s, p) > 0 ==> p in t.table && t.table[p] == s.table[p]
    ensures Effect(crc, s, t, p, d, View(s)[p := ContentOf(t, p)])
  {
    hide PinsOf, ContentOf, Settled, Verifies, Clocked;
    Untouched(crc, s, t, p, v);
    StillOnDisk(s, t, p, v);
    PinnedStay(s, t, p, v);
    SameView(s, t, p);
    hide Bijection, View;
  }

  lemma {:induction false} OneFrameEach(crc: Crc, s: State)
    requires Valid(crc, s)
    ensures forall p, q :: p in s.table && q in s.table && s.table[p] == s.table[q] ==> p == q
  {
  }

  lemma {:induction false} NoChange(crc: Crc, s: State, p: PageId)
    requires Valid(crc, s) && p in s.disk
    ensures View(s)[p := ContentOf(s, p)] == View(s)
  {
  }

  lemma {:induction false} EmptiedBijection(crc: Crc, s: State, v: nat, p: PageId)
    requires Bijection(s.frames, s.table) && v < |s.frames| && s.frames[v].pageId == Some(p)
    ensures var t := Emptied(crc, s, v); Bijection(t.frames, t.table) && p !in t.table
  {
  }

  lemma {:induction false} EmptiedElsewhere(crc: Crc, s: State, v: nat, p: PageId)
    requires Bijection(s.frames, s.table) && v < |s.frames| && s.frames[v].pageId == Some(p) && p in s.disk
    ensures Elsewhere(s, Emptied(crc, s, v), p, v)
  {
  }

  lemma {:induction false} EmptiedLinks(crc: Crc, s: State, v: nat, p: PageId)
    requires Valid(crc, s) && v < |s.frames| && s.frames[v].pageId == Some(p)
    ensures var t := Emptied(crc, s, v);
            Bijection(t.frames, t.table) && Clocked(t.frames, t.clock) && Elsewhere(s, t, p, v) && p !in t.table
  {
    hide Settled, PinsOf, Verifies, Elsewhere;
    EmptiedBijection(crc, s, v, p);
    EmptiedElsewhere(crc, s, v, p);
    hide Bijection;
  }

  lemma {:induction false} EmptiedBody(crc: Crc, s: State, v: nat, p: PageId)
    requires Valid(crc, s) && v < |s.frames| && s.frames[v].pageId == Some(p) && s.frames[v].pinCount == 0
    ensures var t := Emptied(crc, s, v);
      p in t.disk && Aged(crc, ContentOf(s, p), t.disk[p]) && Verifies(crc, t.disk[p])
  {
    hide Clocked;
    assert PinsOf(s, p) == 0 && Settled(crc, s, p);
  }

  lemma {:induction false} AgesChain(crc: Crc, u: map<PageId, Image>, v: map<PageId, Image>, w: map<PageId, Image>)
    requires Ages(crc, u, v) && Ages(crc, v, w)
    ensures Ages(crc, u, w)
  {
  }

  lemma {:induction false} OneAges(crc: Crc, s: State, p: PageId, img: Image)
    requires Valid(crc, s) && p in s.disk && Aged(crc, ContentOf(s, p), img)
    ensures Ages(crc, View(s), View(s)[p := img])
  {
    hide ContentOf, Bijection, Clocked, Settled, PinsOf;
  }

  /** A view may be replaced by one it came from. */
  lemma {:induction false} EffectAges(
      crc: Crc, s: State, t: State, p: PageId, d: int, v: map<PageId, Image>, w: map<PageId, Image>)
    requires Valid(crc, s) && Effect(crc, s, t, p, d, w) && Ages(crc, v, w)
    ensures Effect(crc, s, t, p, d, v)
  {
    hide Settled, PinsOf, View, Ages, Clocked, Verifies;
    AgesChain(crc, v, w, View(t));
  }

  lemma {:induction false} EffectAt(crc: Crc, s: State, t: State, p: PageId, q: PageId, view: map<PageId, Image>)
    requires && Valid(crc, s) && Effect(crc, s, t, q, 0, view)
             && (q in s.disk && q in t.disk && Settled(crc, s, q) ==> Settled(crc, t, q))
    ensures Effect(crc, s, t, p, 0, view)
  {
    hide Settled, PinsOf, View;
  }

  lemma {:induction false} SelfEffect(crc: Crc, s: State, p: PageId)
    requires Valid(crc, s)
    ensures Effect(crc, s, s, p, 0, View(s))
  {
  }

  /** Emptying an unpinned frame loses nothing. */
  lemma {:induction false} EmptiedKeeps(crc: Crc, s: State, v: nat, p: PageId)
    requires Valid(crc, s) && v < |s.frames| && (Free(s.frames, v) || Evictable(s.frames, v))
    ensures Effect(crc, s, Emptied(crc, s, v), p, 0, View(s))
  {
    if Evictable(s.frames, v) {
      var t, q := Emptied(crc, s, v), s.frames[v].pageId.value;
      EmptiedLinks(crc, s, v, q);
      EmptiedBody(crc, s, v, q);
      hide Emptied, Clocked;
      LocalEffect(crc, s, t, q, v, 0);
      OneAges(crc, s, q, ContentOf(t, q));
      EffectAges(crc, s, t, q, 0, View(s), View(s)[q := ContentOf(t, q)]);
      EffectAt(crc, s, t, p, q, View(s));
    }
  }

  /** Loading a page into an empty frame. */
  lemma {:induction false} LoadedIs(crc: Crc, s: State, v: nat, p: PageId, img: Image, dirty: bool)
    requires Valid(crc, s) && v < |s.frames| && Free(s.frames, v) && p !in s.table && p in s.disk
    ensures Effect(crc, s, Loaded(s, v, p, img, dirty), p, 1, View(s)[p := img])
  {
    var t := Loaded(s, v, p, img, dirty);
    assert Bijection(t.frames, t.table);
    assert Clocked(t.frames, t.clock);
    assert Elsewhere(s, t, p, v);
    LocalEffect(crc, s, t, p, v, 1);
  }

  lemma {:induction false} HitIs(crc: Crc, s: State, p: PageId)
    requires Valid(crc, s) && p in s.table
    ensures Effect(crc, s, Hit(s, p), p, 1, View(s))
    ensures Settled(crc, s, p) ==> Settled(crc, Hit(s, p), p)
  {
    var t := Hit(s, p);
    assert Bijection(t.frames, t.table);
    assert Clocked(t.frames, t.clock);
    assert Elsewhere(s, t, p, s.table[p]);
    LocalEffect(crc, s, t, p, s.table[p], 1);
    NoChange(crc, s, p);
  }

  lemma {:induction false} EffectsChain(
      crc: Crc, s: State, t: State, u: State, p: PageId, d: int, mid: map<PageId, Image>, view: map<PageId, Image>)
    requires Valid(crc, s) && Effect(crc, s, t, p, 0, mid) && Effect(crc, t, u, p, d, view)
    requires s.disk.Keys <= t.disk.Keys
    ensures Effect(crc, s, u, p, d, view)
  {
    hide Settled, PinsOf, Valid, View, Bijection, Clocked, Ages;
  }

  /** A fetch gives the page's bytes, pins it once more, and is otherwise
      invisible. */
  lemma {:induction false} FetchedIs(crc: Crc, s: State, t: State, p: PageId, v: nat)
    requires Valid(crc, s) && Fetched(crc, s, t, p, v)
    ensures Effect(crc, s, t, p, 1, View(s))
    ensures p in t.table && t.table[p] == v && v < |t.frames| && p in View(s) && Aged(crc, View(s)[p], t.frames[v].data)
    ensures Settled(crc, s, p) ==> Settled(crc, t, p)
  {
    if p in s.table {
      HitIs(crc, s, p);
    } else {
      EmptiedKeeps(crc, s, v, p);
      assert Free(Emptied(crc, s, v).frames, v);
      var e := Emptied(crc, s, v);
      hide Emptied;
      LoadedIs(crc, e, v, p, e.disk[p], false);
      NoChange(crc, e, p);
      EffectsChain(crc, s, e, t, p, 1, View(s), View(e));
      EffectAges(crc, s, t, p, 1, View(s), View(e));
    }
  }

  // ── The other transitions ───────────────────────────────────────────

  function Unpinned(s: State, p: PageId, mark: bool): State
    requires p in s.table && s.table[p] < |s.frames| && s.frames[s.table[p]].pinCount > 0
  {
    s.(frames := s.frames[s.table[p] := s.frames[s.table[p]].Unpin(mark)])
  }

  function Changed(s: State, p: PageId, img: Image): State
    requires p in s.table && s.table[p] < |s.frames|
  {
    s.(frames := s.frames[s.table[p] := s.frames[s.table[p]].(data := img)])
  }

  function Allocated(s: State, p: PageId, blank: Image): State { s.(disk := s.disk[p := blank]) }

  /** Unpinning is invisible if the last pin to go leaves no unmarked change. */
  lemma {:induction false} UnpinnedIs(crc: Crc, s: State, p: PageId, mark: bool)
    requires Valid(crc, s) && PinsOf(s, p) > 0 && (mark || PinsOf(s, p) > 1 || Settled(crc, s, p))
    ensures Effect(crc, s, Unpinned(s, p, mark), p, -1, View(s))
    ensures mark || Settled(crc, s, p) ==> Settled(crc, Unpinned(s, p, mark), p)
  {
    var t := Unpinned(s, p, mark);
    assert Bijection(t.frames, t.table);
    assert Clocked(t.frames, t.clock);
    assert Elsewhere(s, t, p, s.table[p]);
    LocalEffect(crc, s, t, p, s.table[p], -1);
    NoChange(crc, s, p);
  }

  /** That is also necessary: a last unpin that forgets the mark breaks the
      invariant, and the change is lost when the frame is emptied. */
  lemma {:induction false} ForgottenMark(crc: Crc, s: State, p: PageId)
    requires Valid(crc, s) && PinsOf(s, p) == 1 && !Settled(crc, s, p)
    ensures var t, v := Unpinned(s, p, false), s.table[p];
            && !Valid(crc, t)
            && Emptied(crc, t, v).disk == s.disk && !Aged(crc, ContentOf(s, p), Emptied(crc, t, v).disk[p])
  {
    var t := Unpinned(s, p, false);
    assert Bijection(t.frames, t.table) && PinsOf(t, p) == 0 && !Settled(crc, t, p);
  }

  lemma {:induction false} ChangedIs(crc: Crc, s: State, p: PageId, img: Image)
    requires Valid(crc, s) && PinsOf(s, p) > 0
    ensures Effect(crc, s, Changed(s, p, img), p, 0, View(s)[p := img])
  {
    var t := Changed(s, p, img);
    assert Bijection(t.frames, t.table);
    assert Clocked(t.frames, t.clock);
    assert Elsewhere(s, t, p, s.table[p]);
    LocalEffect(crc, s, t, p, s.table[p], 0);
  }

  /** Flushing a page is invisible and, unless it has unmarked changes, makes
      the disk agree with the view. */
  lemma {:induction false} WrittenBackIs(crc: Crc, s: State, p: PageId)
    requires Valid(crc, s) && p in s.table
    ensures Effect(crc, s, WrittenBack(crc, s, p), p, 0, View(s))
    ensures View(WrittenBack(crc, s, p)) == View(s)
    ensures Settled(crc, s, p) ==>
              Settled(crc, WrittenBack(crc, s, p), p) && Aged(crc, ContentOf(s, p), WrittenBack(crc, s, p).disk[p])
  {
    var t := WrittenBack(crc, s, p);
    FlushLinks(crc, s, p);
    LocalEffect(crc, s, t, p, s.table[p], 0);
    Untouched(crc, s, t, p, s.table[p]);
    SameView(s, t, p);
    NoChange(crc, s, p);
    hide Bijection, Clocked, Elsewhere, View, PinsOf;
  }

  lemma {:induction false} FlushLinks(crc: Crc, s: State, p: PageId)
    requires Valid(crc, s) && p in s.table
    ensures var t := WrittenBack(crc, s, p);
            Bijection(t.frames, t.table) && Clocked(t.frames, t.clock) && Elsewhere(s, t, p, s.table[p])
  {
    hide Settled, PinsOf, Verifies;
  }

  lemma {:induction false} AllocatedIs(crc: Crc, s: State, p: PageId, blank: Image)
    requires Valid(crc, s) && p !in s.table && Verifies(crc, blank)
    ensures Effect(crc, s, Allocated(s, p, blank), p, 0, View(s)[p := blank])
  {
    var t := Allocated(s, p, blank);
    assert Elsewhere(s, t, p, |s.frames|);
    LocalEffect(crc, s, t, p, |s.frames|, 0);
  }

  lemma {:induction false} NewIs(crc: Crc, s: State, v: nat, p: PageId, blank: Image, zeros: Image)
    requires Valid(crc, s) && p !in s.table && Verifies(crc, blank) && Chosen(s.frames, v)
    ensures var t := Loaded(Emptied(crc, Allocated(s, p, blank), v), v, p, zeros, true);
            Effect(crc, s, t, p, 1, View(s)[p := zeros]) && Settled(crc, t, p)
  {
    hide Effect, Settled, PinsOf, Clocked;
    var a := Allocated(s, p, blank);
    AllocatedIs(crc, s, p, blank);
    Reaches(crc, s, a, p, 0, View(s)[p := blank]);
    EmptiedKeeps(crc, a, v, p);
    var e := Emptied(crc, a, v);
    assert Free(e.frames, v) && p !in e.table && p in e.disk && |e.frames| == |s.frames|;
    hide Emptied, View, Chosen;
    Reaches(crc, a, e, p, 0, View(a));
    EffectsChain(crc, s, a, e, p, 0, View(s)[p := blank], View(a));
    LoadedIs(crc, e, v, p, zeros, true);
    var t := Loaded(e, v, p, zeros, true);
    EffectsChain(crc, s, e, t, p, 1, View(a), View(e)[p := zeros]);
    NewSettled(crc, s, e, v, p, zeros, View(e)[p := zeros]);
    AgesChain(crc, View(s)[p := blank], View(a), View(e));
    AgesReplace(crc, View(s), View(e), p, blank, zeros);
    EffectAges(crc, s, t, p, 1, View(s)[p := zeros], View(e)[p := zeros]);
  }

  lemma {:induction false} AgesReplace(
      crc: Crc, v: map<PageId, Image>, w: map<PageId, Image>, p: PageId, blank: Image, zeros: Image)
    requires Ages(crc, v[p := blank], w)
    ensures Ages(crc, v[p := zeros], w[p := zeros])
  {
    var v', w' := v[p := zeros], w[p := zeros];
    assert v'.Keys == v[p := blank].Keys;
    forall q | q in v' ensures Aged(crc, v'[q], w'[q]) {
      assert q in v[p := blank];
    }
  }

  /** Nothing a client can see has changed. */
  ghost predicate Invisible(crc: Crc, s: State, t: State)
    requires Valid(crc, s)
  {
    && Valid(crc, t) && View(t) == View(s) && |t.frames| == |s.frames| && t.table == s.table
    && (forall q :: PinsOf(t, q) == PinsOf(s, q))
    && (forall q :: q in s.disk && q in t.disk && Settled(crc, s, q) ==> Settled(crc, t, q))
  }

  lemma {:induction false} InvisibleChain(crc: Crc, s: State, t: State, u: State)
    requires Valid(crc, s) && Invisible(crc, s, t) && Invisible(crc, t, u)
    ensures Invisible(crc, s, u)
  {
    assert s.disk.Keys == View(s).Keys && t.disk.Keys == View(t).Keys;
    hide Settled, PinsOf, View, Clocked, Verifies;
  }

  lemma {:induction false} FlushInvisible(crc: Crc, s: State, p: PageId)
    requires Valid(crc, s) && p in s.table
    ensures Invisible(crc, s, WrittenBack(crc, s, p))
  {
    WrittenBackIs(crc, s, p);
    var t := WrittenBack(crc, s, p);
    assert |t.frames| == |s.frames| && t.table == s.table;
    hide WrittenBack, Settled, PinsOf, View, Clocked, Verifies;
  }

  ghost predicate CleanBut(s: State, todo: set<PageId>) {
    forall p :: p in s.table && p !in todo && s.table[p] < |s.frames| ==> !s.frames[s.table[p]].dirty
  }

  ghost function DirtyPages(s: State): set<PageId> {
    set p | p in s.table && s.table[p] < |s.frames| && s.frames[s.table[p]].dirty
  }

  lemma {:induction false} DirtyStep(crc: Crc, s: State, p: PageId)
    requires Bijection(s.frames, s.table) && p in s.table
    ensures DirtyPages(WrittenBack(crc, s, p)) == DirtyPages(s) - {p}
  {
    assert forall q :: q in s.table && q != p ==> s.table[q] != s.table[p];
  }

  lemma {:induction false} StartClean(crc: Crc, s: State, todo: set<PageId>)
    requires Valid(crc, s)
    requires forall p :: p in s.table && s.table[p] < |s.frames| && s.frames[s.table[p]].dirty ==> p in todo
    ensures CleanBut(s, todo) && Invisible(crc, s, s)
  {
  }

  lemma {:induction false} CleanStep(crc: Crc, s: State, p: PageId, todo: set<PageId>)
    requires Valid(crc, s) && p in s.table && CleanBut(s, todo)
    ensures CleanBut(WrittenBack(crc, s, p), todo - {p})
  {
  }

  /** The disk holds what clients see of every page that had no unmarked
      changes. */
  ghost predicate Synced(crc: Crc, s: State, t: State)
    requires Valid(crc, s) && Valid(crc, t)
  {
    forall p :: p in t.disk && p in s.disk && Settled(crc, s, p) ==>
      Settled(crc, t, p) && Aged(crc, ContentOf(t, p), t.disk[p])
  }

  lemma {:induction false} CleanDisk(crc: Crc, s: State, t: State)
    requires Valid(crc, s) && Valid(crc, t) && Invisible(crc, s, t) && CleanBut(t, {})
    ensures Synced(crc, s, t)
  {
    hide PinsOf, Clocked, Verifies;
  }

  lemma {:induction false} NewSettled(
      crc: Crc, s: State, e: State, v: nat, p: PageId, zeros: Image, view: map<PageId, Image>)
    requires Valid(crc, s) && v < |e.frames| && p in e.disk && Effect(crc, s, Loaded(e, v, p, zeros, true), p, 1, view)
    ensures Settled(crc, Loaded(e, v, p, zeros, true), p)
  {
  }

  lemma {:induction false} Reaches(crc: Crc, s: State, t: State, p: PageId, d: int, view: map<PageId, Image>)
    requires Valid(crc, s) && Effect(crc, s, t, p, d, view)
    ensures Valid(crc, t) && Ages(crc, view, View(t))
  {
  }

  /** Emptying the chosen frame keeps every page on disk and brings none in. */
  lemma {:induction false} EmptiedPages(crc: Crc, s: State, v: nat, p: PageId)
    requires Valid(crc, s) && Chosen(s.frames, v)
    ensures Effect(crc, s, Emptied(crc, s, v), p, 0, View(s))
    ensures var e := Emptied(crc, s, v);
            && e.disk.Keys == s.disk.Keys && e.table.Keys <= s.table.Keys
            && v < |e.frames| == |s.frames| && e.clock == s.clock
  {
    EmptiedKeeps(crc, s, v, p);
    var e := Emptied(crc, s, v);
    assert s.frames[v].pageId.Some? ==> s.frames[v].pageId.value in s.disk;
  }

  // ── The pool ────────────────────────────────────────────────────────

  /** A page on disk has no checksum yet or the right one. */
  lemma {:induction false} ReadsVerify(crc: Crc, s: State, p: PageId)
    requires Valid(crc, s) && p in s.disk
    ensures s.disk[p].checksum == 0 || s.disk[p].checksum == crc(s.disk[p].body)
  {
    assert Verifies(crc, s.disk[p]);
  }

  datatype PoolError = BufferPoolExhausted | PageNotFound

  class BufferPool {
    const crc: Crc
    var frames: seq<BufferFrame>
    var pageTable: map<PageId, nat>
    var disk: map<PageId, Image>
    var clock: nat
    var readCount: nat
    var writeCount: nat

    ghost function Now(): State
      reads this
    {
      State(frames, pageTable, disk, clock)
    }

    ghost predicate Sound()
      reads this
    {
      Valid(crc, Now())
    }

    constructor (capacity: nat, crc: Crc, disk: map<PageId, Image>)
      requires forall p :: p in disk ==> Verifies(crc, disk[p])
      ensures this.crc == crc && Sound() && |frames| == capacity && pageTable == map[] && this.disk == disk
      ensures readCount == 0 && writeCount == 0 && forall i :: 0 <= i < |frames| ==> frames[i] == BLANK_FRAME
    {
      this.crc := crc;
      this.frames := seq(capacity, i => BLANK_FRAME);
      this.pageTable := map[];
      this.disk := disk;
      clock := 0;
      readCount := 0;
      writeCount := 0;
    }

    /** Picks a frame and empties it; fails exactly when every frame holds a
        pinned page. */
    method FindFreeFrame() returns (r: Option<nat>)
      requires Sound()
      modifies this
      ensures r.None? <==> !Available(old(frames))
      ensures r.None? ==> Now() == old(Now()) && writeCount == old(writeCount)
      ensures r.Some? ==> Chosen(old(frames), r.value) && Now() == Emptied(crc, old(Now()), r.value)
      ensures r.Some? && old(frames)[r.value].pageId.None? ==> Now() == old(Now()) && writeCount == old(writeCount)
      ensures r.Some? && old(frames)[r.value].pageId.Some? ==> Evicted(old(Now()), Now(), r.value)
      ensures r.Some? && old(frames)[r.value].pageId.Some? ==>
        writeCount == old(writeCount) + if old(frames)[r.value].dirty then 1 else 0
      ensures |frames| == old(|frames|) && disk.Keys >= old(disk.Keys)
      ensures readCount == old(readCount) && clock == old(clock)
    {
      hide Valid;
      var i := 0;
      while i < |frames|
        invariant i <= |frames| && unchanged(this)
        invariant forall j :: 0 <= j < i ==> !Free(frames, j)
      {
        if frames[i].pageId.None? {
          assert Free(frames, i);
          return Some(i);
        }
        i := i + 1;
      }
      var victim: Option<nat> := None;
      i := 0;
      while i < |frames|
        invariant i <= |frames| && unchanged(this)
        invariant victim.None? ==> forall j :: 0 <= j < i ==> !Evictable(frames, j)
        invariant victim.Some? ==> victim.value < |frames| && Evictable(frames, victim.value)
        invariant victim.Some? ==> forall j :: 0 <= j < i && Evictable(frames, j) ==>
          frames[victim.value].lastAccessed <= frames[j].lastAccessed
      {
        if frames[i].pinCount == 0 && frames[i].pageId.Some? {
          if victim.None? || frames[i].lastAccessed < frames[victim.value].lastAccessed {
            victim := Some(i);
          }
        }
        i := i + 1;
      }
      if victim.None? {
        return None;
      }
      var v := victim.value;
      var frame := frames[v];
      if frame.dirty {
        disk := disk[frame.pageId.value := Stamp(crc, frame.data)];
        writeCount := writeCount + 1;
      }
      pageTable := pageTable - {frame.pageId.value};
      frames := frames[v := frame.Reset()];
      return Some(v);
    }

    /** Brings a page into the pool and pins it. A client always gets the bytes
        of the view; the pool is exhausted exactly when the page is not cached
        and every frame is pinned, and the page is unknown exactly when the
        disk lacks it. No outcome changes the view. */
    method FetchPage(p: PageId) returns (r: Result<nat, PoolError>)
      requires Sound()
      modifies this
      ensures Sound() && |frames| == old(|frames|) && Ages(crc, old(View(Now())), View(Now()))
      ensures r.Ok? ==> Fetched(crc, old(Now()), Now(), p, r.value)
      ensures r.Ok? ==>
        Effect(crc, old(Now()), Now(), p, 1, old(View(Now())))
        && (old(Settled(crc, Now(), p)) ==> Settled(crc, Now(), p))
      ensures r.Ok? ==>
        p in pageTable && pageTable[p] == r.value && r.value < |frames| && p in old(View(Now()))
        && Aged(crc, old(View(Now()))[p], frames[r.value].data)
      ensures r.Err? ==> p !in pageTable && Effect(crc, old(Now()), Now(), p, 0, old(View(Now())))
      ensures r == Err(BufferPoolExhausted) <==> p !in old(pageTable) && !Available(old(frames))
      ensures r == Err(BufferPoolExhausted) ==> Now() == old(Now())
      ensures r == Err(PageNotFound) <==> p !in old(disk) && Available(old(frames))
      ensures r == Err(PageNotFound) ==> exists v :: Chosen(old(frames), v) && Now() == Emptied(crc, old(Now()), v)
      ensures readCount == old(readCount) + if r.Ok? && p !in old(pageTable) then 1 else 0
      ensures r.Ok? && p in old(pageTable) ==>
        var f := old(frames)[r.value];
        && frames == old(frames)[r.value := f.(pinCount := f.pinCount + 1, lastAccessed := clock)]
        && pageTable == old(pageTable) && disk == old(disk) && writeCount == old(writeCount)
      ensures r.Ok? && p !in old(pageTable) ==>
        frames[r.value] == BufferFrame(disk[p], Some(p), 1, false, clock)
        && var f := old(frames)[r.value];
           writeCount == old(writeCount) + if f.pageId.Some? && f.dirty then 1 else 0
      ensures r.Ok? && p !in old(pageTable) ==> disk[p].checksum == 0 || disk[p].checksum == crc(disk[p].body)
      ensures clock == old(clock) + if r.Ok? then 1 else 0
    {
      hide Settled, PinsOf, Clocked, Verifies, Ages, Aged, Evicted, Stamp, Effect, View, Available,
        Emptied, Chosen;
      if p in pageTable {
        var hit := pageTable[p];
        clock := clock + 1;
        frames := frames[hit := frames[hit].Pin().(lastAccessed := clock)];
        assert Fetched(crc, old(Now()), Now(), p, hit);
        FetchedIs(crc, old(Now()), Now(), p, hit);
        Reaches(crc, old(Now()), Now(), p, 1, old(View(Now())));
        return Ok(hit);
      }
      var free := FindFreeFrame();
      if free.None? {
        SelfEffect(crc, Now(), p);
        Reaches(crc, Now(), Now(), p, 0, View(Now()));
        return Err(BufferPoolExhausted);
      }
      var v := free.value;
      EmptiedPages(crc, old(Now()), v, p);
      Reaches(crc, old(Now()), Now(), p, 0, old(View(Now())));
      if p !in disk {
        return Err(PageNotFound);
      }
      var data := disk[p];
      ReadsVerify(crc, Now(), p);
      readCount := readCount + 1;
      clock := clock + 1;
      frames := frames[v := BufferFrame(data, Some(p), 1, false, clock)];
      pageTable := pageTable[p := v];
      FetchedIs(crc, old(Now()), Now(), p, v);
      Reaches(crc, old(Now()), Now(), p, 1, old(View(Now())));
      return Ok(v);
    }

    /** Loads a page the page manager has just allocated. When the pool is
        exhausted the page stays allocated. */
    method NewPage(p: PageId, blank: Image, zeros: Image) returns (r: Result<nat, PoolError>)
      requires Sound() && p !in pageTable && Verifies(crc, blank)
      modifies this
      ensures r.Ok? ==>
        Effect(crc, old(Now()), Now(), p, 1, old(View(Now()))[p := zeros]) && p in disk && Settled(crc, Now(), p)
      ensures r.Ok? ==> p in pageTable && pageTable[p] == r.value && Chosen(old(frames), r.value)
      ensures r.Ok? ==> Now() == Loaded(Emptied(crc, Allocated(old(Now()), p, blank), r.value), r.value, p, zeros, true)
      ensures r.Err? ==> Now() == Allocated(old(Now()), p, blank)
      ensures r.Err? ==>
        r == Err(BufferPoolExhausted) && p !in pageTable
        && Effect(crc, old(Now()), Now(), p, 0, old(View(Now()))[p := blank])
      ensures r.Err? <==> !Available(old(frames))
      ensures Sound() && |frames| == old(|frames|) && readCount == old(readCount)
      ensures r.Ok? ==> frames[r.value] == BufferFrame(zeros, Some(p), 1, true, clock) && clock == old(clock) + 1
      ensures writeCount == old(writeCount)
        + if r.Ok? && old(frames)[r.value].pageId.Some? && old(frames)[r.value].dirty then 1 else 0
    {
      hide Settled, PinsOf, Clocked, View, Effect, Emptied, Available, Evicted, Stamp, Verifies, Ages;
      disk := disk[p := blank];
      AllocatedIs(crc, old(Now()), p, blank);
      Reaches(crc, old(Now()), Now(), p, 0, old(View(Now()))[p := blank]);
      var free := FindFreeFrame();
      if free.None? {
        return Err(BufferPoolExhausted);
      }
      var v := free.value;
      NewIs(crc, old(Now()), v, p, blank, zeros);
      clock := clock + 1;
      frames := frames[v := BufferFrame(zeros, Some(p), 1, true, clock)];
      pageTable := pageTable[p := v];
      assert Now() == Loaded(Emptied(crc, Allocated(old(Now()), p, blank), v), v, p, zeros, true);
      Reaches(crc, old(Now()), Now(), p, 1, old(View(Now()))[p := zeros]);
      return Ok(v);
    }

    /** Drops one pin, marking the page dirty if asked. Clients notice nothing if
        the last pin to go leaves no unmarked change. */
    method Unpin(p: PageId, mark: bool) returns (r: Result<(), PoolError>)
      requires Sound() && (p in pageTable ==> PinsOf(Now(), p) > 0)
      modifies this`frames
      ensures r.Err? <==> p !in pageTable
      ensures r.Err? ==> r == Err(PageNotFound) && Now() == old(Now())
      ensures r.Ok? ==> Now() == Unpinned(old(Now()), p, mark)
      ensures r.Ok? ==>
        var f := old(frames)[pageTable[p]];
        frames == old(frames)[pageTable[p] := f.(pinCount := f.pinCount - 1, dirty := f.dirty || mark)]
      ensures r.Ok? && old(mark || PinsOf(Now(), p) > 1 || Settled(crc, Now(), p)) ==>
                Effect(crc, old(Now()), Now(), p, -1, old(View(Now())))
      ensures r.Ok? && old(mark || Settled(crc, Now(), p)) ==>
                Bijection(frames, pageTable) && Settled(crc, Now(), p)
    {
      if p !in pageTable {
        return Err(PageNotFound);
      }
      if mark || PinsOf(Now(), p) > 1 || Settled(crc, Now(), p) {
        UnpinnedIs(crc, Now(), p, mark);
      }
      frames := frames[pageTable[p] := frames[pageTable[p]].Unpin(mark)];
      return Ok(());
    }

    /** A client changes the bytes of a frame it has pinned. */
    method ChangeFrame(p: PageId, img: Image)
      requires Sound() && PinsOf(Now(), p) > 0
      modifies this`frames
      ensures Now() == Changed(old(Now()), p, img)
      ensures Effect(crc, old(Now()), Now(), p, 0, old(View(Now()))[p := img])
    {
      ChangedIs(crc, Now(), p, img);
      frames := frames[pageTable[p] := frames[pageTable[p]].(data := img)];
    }

    /** Writes a page back if it is dirty. */
    method FlushPage(p: PageId) returns (r: Result<(), PoolError>)
      requires Sound()
      modifies this`frames, this`disk, this`writeCount
      ensures r == if p in pageTable then Ok(()) else Err(PageNotFound)
      ensures Now() == if p in pageTable then WrittenBack(crc, old(Now()), p) else old(Now())
      ensures writeCount == old(writeCount) + if p in pageTable && old(frames)[pageTable[p]].dirty then 1 else 0
      ensures p in pageTable ==>
        var f := old(frames)[pageTable[p]];
        && frames == old(frames)[pageTable[p] := f.(dirty := false)]
        && (!f.dirty ==> disk == old(disk))
        && (f.dirty ==> disk == old(disk)[p := Image(f.data.body, crc(f.data.body))])
      ensures Sound() && Effect(crc, old(Now()), Now(), p, 0, old(View(Now())))
      ensures p in pageTable && old(Settled(crc, Now(), p)) ==>
        Settled(crc, Now(), p) && Aged(crc, old(View(Now()))[p], disk[p])
    {
      if p !in pageTable {
        SelfEffect(crc, Now(), p);
        return Err(PageNotFound);
      }
      WrittenBackIs(crc, Now(), p);
      var i := pageTable[p];
      if frames[i].dirty {
        disk := disk[p := Stamp(crc, frames[i].data)];
        writeCount := writeCount + 1;
        frames := frames[i := frames[i].(dirty := false)];
      }
      return Ok(());
    }

    /** Writes every dirty page back: afterwards the disk holds the view of
        every page without unmarked changes. */
    method FlushAll()
      requires Sound()
      modifies this`frames, this`disk, this`writeCount
      ensures Sound() && Invisible(crc, old(Now()), Now())
      ensures Synced(crc, old(Now()), Now())
      ensures writeCount == old(writeCount) + |DirtyPages(old(Now()))| && DirtyPages(Now()) == {}
    {
      hide Invisible, Effect, View, PinsOf, Settled, CleanBut, Clocked, Bijection, Verifies, Synced;
      var todo := set p | p in pageTable && pageTable[p] < |frames| && frames[pageTable[p]].dirty;
      ghost var start := Now();
      assert CleanBut(start, todo) && Invisible(crc, start, start) by {
        StartClean(crc, start, todo);
      }
      while todo != {}
        invariant Sound() && Valid(crc, start) && Invisible(crc, start, Now())
        invariant todo <= pageTable.Keys && pageTable == start.table && CleanBut(Now(), todo)
        invariant todo == DirtyPages(Now()) && writeCount + |todo| == old(writeCount) + |DirtyPages(start)|
        decreases |todo|
      {
        var p :| p in todo;
        FlushInvisible(crc, Now(), p);
        InvisibleChain(crc, start, Now(), WrittenBack(crc, Now(), p));
        CleanStep(crc, Now(), p, todo);
        DirtyStep(crc, Now(), p);
        var r := FlushPage(p);
        todo := todo - {p};
      }
      CleanDisk(crc, start, Now());
    }
  }
}
