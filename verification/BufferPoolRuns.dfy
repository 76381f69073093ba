/** Whole runs against the buffer pool: what clients observe. */
module BufferPoolRuns {
  import opened Prelude
  import opened BufferPools

  datatype Op =
    | Fetch(p: PageId)
    | Change(p: PageId, img: Image)
    | Unpin(p: PageId, mark: bool)
    | Flush(p: PageId)
    | FlushAll
    | New(p: PageId, blank: Image, zeros: Image)

  datatype Out = Got(img: Image) | Failed | Done | Skipped | OnDisk(images: map<PageId, Image>)

  /** What the clients know: the last bytes written to each page, their pins,
      and the pages changed since they were last unpinned dirty. */
  datatype Client = Client(view: map<PageId, Image>, pins: multiset<PageId>, touched: set<PageId>)

  /** The discipline: change and unpin only what is pinned, let the last pin on
      a changed page go with a dirty mark, and create only unused pages. */
  predicate Legal(crc: Crc, c: Client, op: Op) {
    match op
    case Change(p, _) => c.pins[p] > 0
    case Unpin(p, mark) => c.pins[p] > 0 && (mark || p !in c.touched || c.pins[p] > 1)
    case New(p, blank, _) => p !in c.view && Verifies(crc, blank)
    case _ => true
  }

  function Next(c: Client, op: Op, out: Out): Client {
    match op
    case Fetch(p) => if out.Got? then c.(pins := c.pins + multiset{p}) else c
    case Change(p, img) => c.(view := c.view[p := img], touched := c.touched + {p})
    case Unpin(p, mark) =>
      c.(pins := c.pins - multiset{p}, touched := if mark then c.touched - {p} else c.touched)
    case Flush(_) => c
    case FlushAll => c
    case New(p, blank, zeros) =>
      if out.Got? then c.(view := c.view[p := zeros], pins := c.pins + multiset{p})
      else c.(view := c.view[p := blank])
  }

  // ── What the clients may expect ─────────────────────────────────────

  ghost function PinnedPages(c: Client): set<PageId> { set p | p in c.pins }

  /** Every one of the pool's frames holds a pinned page. */
  ghost predicate Crowded(frames: nat, c: Client) { |PinnedPages(c)| >= frames }

  /** The answers of a plain page-to-bytes map that rewrites checksums: a fetch
      fails exactly when the page does not exist or would need a frame while
      all are pinned, and otherwise shows the last bytes written, with the
      checksum field perhaps rewritten. */
  ghost predicate Expected(crc: Crc, frames: nat, c: Client, op: Op, out: Out) {
    match op
    case Fetch(p) =>
      if p !in c.view || (c.pins[p] == 0 && Crowded(frames, c)) then out == Failed
      else out.Got? && Aged(crc, c.view[p], out.img)
    case Change(_, _) => out == Done
    case Unpin(_, _) => out == Done
    case Flush(_) => out == Done || out == Failed
    case FlushAll =>
      && out.OnDisk?
      && forall p :: p in c.view && p !in c.touched ==> p in out.images && Aged(crc, c.view[p], out.images[p])
    case New(_, _, zeros) => out == if Crowded(frames, c) then Failed else Got(zeros)
  }

  ghost predicate Behaves(crc: Crc, frames: nat, c: Client, ops: seq<Op>, outs: seq<Out>)
    decreases |ops|
  {
    if ops == [] then outs == []
    else
      && |outs| > 0
      && if Legal(crc, c, ops[0]) then
           && Expected(crc, frames, c, ops[0], outs[0])
           && Behaves(crc, frames, Next(c, ops[0], outs[0]), ops[1..], outs[1..])
         else outs[0] == Skipped && Behaves(crc, frames, c, ops[1..], outs[1..])
  }

  // ── What the pool does ──────────────────────────────────────────────

  /** A fetch that succeeds, finds every frame pinned, or finds no such page. */
  ghost predicate FetchStep(crc: Crc, s: State, p: PageId, out: Out, t: State)
    requires Valid(crc, s)
  {
    || (out.Got? && exists v: nat :: Fetched(crc, s, t, p, v) && v < |t.frames| && out.img == t.frames[v].data)
    || (out == Failed && p !in s.table && !Available(s.frames) && t == s)
    || (out == Failed && p !in s.disk && exists v: nat :: Chosen(s.frames, v) && t == Emptied(crc, s, v))
  }

  /** A new page that is loaded, or stays allocated without a frame. */
  ghost predicate NewStep(crc: Crc, s: State, p: PageId, blank: Image, zeros: Image, out: Out, t: State) {
    var a := Allocated(s, p, blank);
    || (out == Failed && !Available(s.frames) && t == a)
    || (out == Got(zeros) && exists v: nat :: Chosen(s.frames, v) && t == Loaded(Emptied(crc, a, v), v, p, zeros, true))
  }

  /** One operation takes the pool from s to t with this answer. */
  ghost predicate PoolStep(crc: Crc, s: State, op: Op, out: Out, t: State) {
    && Valid(crc, s)
    && match op
       case Fetch(p) => FetchStep(crc, s, p, out, t)
       case Change(p, img) => PinsOf(s, p) > 0 && t == Changed(s, p, img) && out == Done
       case Unpin(p, mark) => PinsOf(s, p) > 0 && t == Unpinned(s, p, mark) && out == Done
       case Flush(p) =>
         if p in s.table then t == WrittenBack(crc, s, p) && out == Done else t == s && out == Failed
       case FlushAll => Invisible(crc, s, t) && Synced(crc, s, t) && out == OnDisk(t.disk)
       case New(p, blank, zeros) => p !in s.table && NewStep(crc, s, p, blank, zeros, out, t)
  }

  /** A run of operations; those outside the discipline are skipped. */
  ghost predicate Runs(crc: Crc, s: State, c: Client, ops: seq<Op>, outs: seq<Out>, t: State)
    decreases |ops|
  {
    if ops == [] then outs == [] && t == s
    else
      && |outs| > 0
      && if Legal(crc, c, ops[0]) then
           exists m :: PoolStep(crc, s, ops[0], outs[0], m) &&
                       Runs(crc, m, Next(c, ops[0], outs[0]), ops[1..], outs[1..], t)
         else outs[0] == Skipped && Runs(crc, s, c, ops[1..], outs[1..], t)
  }

  // ── The pool stands for the clients' picture ────────────────────────

  ghost predicate Stands(crc: Crc, s: State, c: Client) {
    && Valid(crc, s) && Ages(crc, c.view, View(s))
    && (forall p :: PinsOf(s, p) == c.pins[p])
    && (forall p :: p in s.disk && p !in c.touched ==> Settled(crc, s, p))
  }

  /** A newly created pool stands for the file's contents. */
  lemma {:induction false} FreshStands(crc: Crc, s: State)
    requires s.table == map[] && (forall i :: 0 <= i < |s.frames| ==> s.frames[i] == BLANK_FRAME)
    requires forall p :: p in s.disk ==> Verifies(crc, s.disk[p])
    ensures Stands(crc, s, Client(s.disk, multiset{}, {}))
  {
  }

  /** The discipline is exact: of a page whose change is not on disk, an unpin is
      legal if and only if it keeps the pool's invariant. */
  lemma {:induction false} DisciplineExactly(crc: Crc, s: State, c: Client, p: PageId, mark: bool)
    requires Stands(crc, s, c) && p in s.table && !Settled(crc, s, p) && PinsOf(s, p) > 0
    ensures Legal(crc, c, Unpin(p, mark)) <==> Valid(crc, Unpinned(s, p, mark))
  {
    hide Ages, View, Clocked, Verifies;
    if mark || PinsOf(s, p) > 1 {
      UnpinnedIs(crc, s, p, mark);
      Reaches(crc, s, Unpinned(s, p, mark), p, -1, View(s));
    } else {
      ForgottenMark(crc, s, p);
    }
  }

  lemma {:induction false} StepStands(
      crc: Crc, s: State, t: State, c: Client, d: Client, p: PageId, k: int, view: map<PageId, Image>)
    requires Stands(crc, s, c) && Effect(crc, s, t, p, k, view) && Ages(crc, d.view, view)
    requires forall q :: d.pins[q] == c.pins[q] + if q == p then k else 0
    requires forall q :: q != p ==> (q in d.touched <==> q in c.touched)
    requires c.view.Keys <= d.view.Keys <= c.view.Keys + {p}
    requires p !in d.touched && p in t.disk ==> Settled(crc, t, p)
    ensures Stands(crc, t, d)
  {
    hide Settled, PinsOf, Bijection, Clocked, Verifies, Aged;
    AgesChain(crc, d.view, view, View(t));
    KeysOf(crc, s, c);
    assert t.disk.Keys == View(t).Keys;
    hide View, Aged;
  }

  lemma {:induction false} KeysOf(crc: Crc, s: State, c: Client)
    requires Stands(crc, s, c)
    ensures s.disk.Keys == c.view.Keys
  {
    assert s.disk.Keys == View(s).Keys;
  }

  /** Writing one page: the picture and the view change alike. */
  lemma {:induction false} AgesWrite(crc: Crc, v: map<PageId, Image>, w: map<PageId, Image>, p: PageId, img: Image)
    requires Ages(crc, v, w)
    ensures Ages(crc, v[p := img], w[p := img])
  {
    var v', w' := v[p := img], w[p := img];
    assert v'.Keys == v.Keys + {p} && w'.Keys == w.Keys + {p};
  }

  lemma {:induction false} PinnedIf(crc: Crc, s: State, c: Client, p: PageId)
    requires Stands(crc, s, c)
    ensures Valid(crc, s) && PinsOf(s, p) == c.pins[p] && s.disk.Keys == c.view.Keys
    ensures c.pins[p] > 0 ==> p in s.table && p in s.disk
    ensures p !in c.view ==> p !in s.table
    ensures p !in c.touched && p in s.disk ==> Settled(crc, s, p)
  {
    KeysOf(crc, s, c);
  }

  /** All frames hold pinned pages exactly when as many pages are pinned. */
  lemma {:induction false} CrowdedIff(crc: Crc, s: State, c: Client)
    requires Stands(crc, s, c)
    ensures Crowded(|s.frames|, c) <==> !Available(s.frames)
  {
    hide Stands, Valid, Free, Evictable, ImageOf, Range, PinnedPages;
    PinnedSlots(crc, s, c);
    PinnedCount(crc, s, c);
    var slots, range := ImageOf(PinnedPages(c), s.table), Range(|s.frames|);
    SubsetSize(slots, range);
    if Available(s.frames) {
      var i :| 0 <= i < |s.frames| && (Free(s.frames, i) || Evictable(s.frames, i));
      assert i in range && i !in slots;
    } else {
      assert slots == range;
    }
  }

  lemma {:induction false} PinnedCount(crc: Crc, s: State, c: Client)
    requires Stands(crc, s, c) && forall p :: p in PinnedPages(c) ==> p in s.table
    ensures |ImageOf(PinnedPages(c), s.table)| == |PinnedPages(c)|
  {
    hide Valid, View, ImageOf, PinnedPages, Ages, Settled, PinsOf;
    OneFrameEach(crc, s);
    ImageSize(PinnedPages(c), s.table);
  }

  lemma {:induction false} PinnedSlots(crc: Crc, s: State, c: Client)
    requires Stands(crc, s, c)
    ensures forall p :: p in PinnedPages(c) ==> p in s.table
    ensures ImageOf(PinnedPages(c), s.table) <= Range(|s.frames|)
    ensures forall i :: 0 <= i < |s.frames| ==>
              (i in ImageOf(PinnedPages(c), s.table) <==> !Free(s.frames, i) && !Evictable(s.frames, i))
  {
    hide Settled, Clocked, Verifies, View, Ages;
    forall p | p in PinnedPages(c) ensures p in s.table { assert PinsOf(s, p) == c.pins[p]; }
    forall i | 0 <= i < |s.frames|
      ensures i in ImageOf(PinnedPages(c), s.table) <==> !Free(s.frames, i) && !Evictable(s.frames, i)
    {
      if !Free(s.frames, i) {
        var p := s.frames[i].pageId.value;
        assert PinsOf(s, p) == c.pins[p] == s.frames[i].pinCount;
      }
    }
  }

  // ── Each operation answers as expected ──────────────────────────────

  lemma {:induction false} FetchBehaves(crc: Crc, s: State, t: State, c: Client, p: PageId, out: Out)
    requires Stands(crc, s, c) && FetchStep(crc, s, p, out, t)
    ensures && Expected(crc, |s.frames|, c, Fetch(p), out) && Stands(crc, t, Next(c, Fetch(p), out))
            && |t.frames| == |s.frames|
  {
    hide Effect, Settled, Stands, Crowded, Available;
    PinnedIf(crc, s, c, p);
    CrowdedIff(crc, s, c);
    if out.Got? {
      var v: nat :| Fetched(crc, s, t, p, v) && v < |t.frames| && out.img == t.frames[v].data;
      FetchGot(crc, s, t, c, p, v);
    } else if p !in s.disk && exists v: nat :: Chosen(s.frames, v) && t == Emptied(crc, s, v) {
      var v: nat :| Chosen(s.frames, v) && t == Emptied(crc, s, v);
      EmptiedKeeps(crc, s, v, p);
      assert t.disk.Keys == s.disk.Keys;
      hide Emptied, Chosen;
      StandsAges(crc, s, c);
      StepStands(crc, s, t, c, c, p, 0, View(s));
    }
  }

  lemma {:induction false} StandsAges(crc: Crc, s: State, c: Client)
    requires Stands(crc, s, c)
    ensures Valid(crc, s) && Ages(crc, c.view, View(s))
  {
  }

  lemma {:induction false} AgedChain(crc: Crc, a: Image, b: Image, d: Image)
    requires Aged(crc, a, b) && Aged(crc, b, d)
    ensures Aged(crc, a, d)
  {
  }

  lemma {:induction false} FetchGot(crc: Crc, s: State, t: State, c: Client, p: PageId, v: nat)
    requires Stands(crc, s, c) && Fetched(crc, s, t, p, v)
    ensures v < |t.frames| == |s.frames| && p in c.view && Aged(crc, c.view[p], t.frames[v].data)
    ensures c.pins[p] > 0 || Available(s.frames)
    ensures Stands(crc, t, c.(pins := c.pins + multiset{p}))
  {
    hide Effect, Settled, Stands, Fetched, Available;
    PinnedIf(crc, s, c, p);
    FetchFrames(crc, s, t, p, v);
    StandsAges(crc, s, c);
    FetchedIs(crc, s, t, p, v);
    assert p in s.disk;
    AgedChain(crc, c.view[p], View(s)[p], t.frames[v].data);
    StepStands(crc, s, t, c, c.(pins := c.pins + multiset{p}), p, 1, View(s));
  }

  lemma {:induction false} FetchFrames(crc: Crc, s: State, t: State, p: PageId, v: nat)
    requires Bijection(s.frames, s.table) && Fetched(crc, s, t, p, v)
    ensures |t.frames| == |s.frames| && (PinsOf(s, p) > 0 || Available(s.frames))
  {
    if p in s.table && PinsOf(s, p) == 0 { assert Evictable(s.frames, s.table[p]); }
  }

  lemma {:induction false} ChangeBehaves(crc: Crc, s: State, c: Client, p: PageId, img: Image)
    requires Stands(crc, s, c) && c.pins[p] > 0
    ensures p in s.table && s.table[p] < |s.frames| && Stands(crc, Changed(s, p, img), Next(c, Change(p, img), Done))
  {
    hide Effect, Settled, Stands, View, Ages;
    PinnedIf(crc, s, c, p);
    StandsAges(crc, s, c);
    ChangedIs(crc, s, p, img);
    AgesWrite(crc, c.view, View(s), p, img);
    StepStands(crc, s, Changed(s, p, img), c, Next(c, Change(p, img), Done), p, 0, View(s)[p := img]);
  }

  lemma {:induction false} UnpinBehaves(crc: Crc, s: State, c: Client, p: PageId, mark: bool)
    requires Stands(crc, s, c) && Legal(crc, c, Unpin(p, mark))
    ensures PinsOf(s, p) > 0 && Stands(crc, Unpinned(s, p, mark), Next(c, Unpin(p, mark), Done))
  {
    hide Effect, Settled, Stands, View, Ages;
    PinnedIf(crc, s, c, p);
    StandsAges(crc, s, c);
    UnpinnedIs(crc, s, p, mark);
    StepStands(crc, s, Unpinned(s, p, mark), c, Next(c, Unpin(p, mark), Done), p, -1, View(s));
  }

  lemma {:induction false} FlushBehaves(crc: Crc, s: State, c: Client, p: PageId)
    requires Stands(crc, s, c) && p in s.table && s.table[p] < |s.frames|
    ensures Stands(crc, WrittenBack(crc, s, p), c)
  {
    hide Effect, Settled, Stands, View, Ages, WrittenBack;
    PinnedIf(crc, s, c, p);
    StandsAges(crc, s, c);
    WrittenBackIs(crc, s, p);
    StepStands(crc, s, WrittenBack(crc, s, p), c, c, p, 0, View(s));
  }

  lemma {:induction false} FlushAllBehaves(crc: Crc, s: State, t: State, c: Client)
    requires Stands(crc, s, c) && Invisible(crc, s, t) && Synced(crc, s, t)
    ensures Expected(crc, |s.frames|, c, FlushAll, OnDisk(t.disk)) && Stands(crc, t, c)
  {
    hide PinsOf, Clocked, Verifies;
    KeysOf(crc, s, c);
    assert s.disk.Keys == View(s).Keys && t.disk.Keys == View(t).Keys;
    forall p | p in c.view && p !in c.touched ensures Aged(crc, c.view[p], t.disk[p]) {
      assert Settled(crc, s, p);
      AgedChain(crc, c.view[p], View(t)[p], t.disk[p]);
    }
  }

  lemma {:induction false} NewBehaves(
      crc: Crc, s: State, t: State, c: Client, p: PageId, blank: Image, zeros: Image, out: Out)
    requires Stands(crc, s, c) && p !in c.view && Verifies(crc, blank) && NewStep(crc, s, p, blank, zeros, out, t)
    ensures out == if Crowded(|s.frames|, c) then Failed else Got(zeros)
    ensures Stands(crc, t, Next(c, New(p, blank, zeros), out)) && |t.frames| == |s.frames|
  {
    hide Effect, Settled, Stands, Crowded, Available, View, Ages, Verifies;
    PinnedIf(crc, s, c, p);
    CrowdedIff(crc, s, c);
    StandsAges(crc, s, c);
    if out == Failed {
      AllocatedIs(crc, s, p, blank);
      AgesWrite(crc, c.view, View(s), p, blank);
      NotCachedSettled(crc, t, p);
      StepStands(crc, s, t, c, c.(view := c.view[p := blank]), p, 0, View(s)[p := blank]);
    } else {
      var v: nat :| Chosen(s.frames, v) && t == Loaded(Emptied(crc, Allocated(s, p, blank), v), v, p, zeros, true);
      ChosenAvailable(s.frames, v);
      NewIs(crc, s, v, p, blank, zeros);
      assert |t.frames| == |s.frames|;
      hide Emptied, Loaded, Chosen;
      AgesWrite(crc, c.view, View(s), p, zeros);
      StepStands(crc, s, t, c, Next(c, New(p, blank, zeros), out), p, 1, View(s)[p := zeros]);
    }
  }

  lemma {:induction false} NotCachedSettled(crc: Crc, s: State, p: PageId)
    requires Bijection(s.frames, s.table) && p in s.disk && p !in s.table
    ensures Settled(crc, s, p)
  {
  }

  lemma {:induction false} ChosenAvailable(frames: seq<BufferFrame>, v: nat)
    requires Chosen(frames, v)
    ensures Available(frames)
  {
  }

  /** One legal operation: the answer is the expected one, and the pool goes on
      standing for the clients' picture. */
  lemma {:induction false} StepBehaves(crc: Crc, s: State, t: State, c: Client, op: Op, out: Out)
    requires Stands(crc, s, c) && Legal(crc, c, op) && PoolStep(crc, s, op, out, t)
    ensures Expected(crc, |s.frames|, c, op, out) && Stands(crc, t, Next(c, op, out)) && |t.frames| == |s.frames|
  {
    hide Stands, FetchStep, NewStep, Invisible, Synced, Aged, Verifies, Crowded, Settled, Clocked;
    match op
    case Fetch(p) => FetchBehaves(crc, s, t, c, p, out);
    case Change(p, img) => ChangeBehaves(crc, s, c, p, img);
    case Unpin(p, mark) => UnpinBehaves(crc, s, c, p, mark);
    case Flush(p) => if p in s.table { FlushBehaves(crc, s, c, p); }
    case FlushAll => FlushAllBehaves(crc, s, t, c); SameFrames(crc, s, t);
    case New(p, blank, zeros) => NewBehaves(crc, s, t, c, p, blank, zeros, out);
  }

  lemma {:induction false} SameFrames(crc: Crc, s: State, t: State)
    requires Valid(crc, s) && Invisible(crc, s, t)
    ensures |t.frames| == |s.frames|
  {
  }

  // ── Transparency ────────────────────────────────────────────────────

  /** Over every run each fetch shows the last bytes written to its page, but
      for the checksum field, whatever was evicted or flushed between; it fails
      only for want of a page or a frame; and each full flush leaves on disk
      every page whose changes were unpinned dirty. */
  lemma {:induction false} RunsBehave(crc: Crc, s: State, c: Client, ops: seq<Op>, outs: seq<Out>, t: State)
    requires Stands(crc, s, c) && Runs(crc, s, c, ops, outs, t)
    ensures Behaves(crc, |s.frames|, c, ops, outs)
    decreases |ops|
  {
    hide Stands, PoolStep, Expected, Next, Legal;
    if ops != [] {
      if Legal(crc, c, ops[0]) {
        var m :| PoolStep(crc, s, ops[0], outs[0], m) && Runs(crc, m, Next(c, ops[0], outs[0]), ops[1..], outs[1..], t);
        StepBehaves(crc, s, m, c, ops[0], outs[0]);
        RunsBehave(crc, m, Next(c, ops[0], outs[0]), ops[1..], outs[1..], t);
      } else {
        RunsBehave(crc, s, c, ops[1..], outs[1..], t);
      }
    }
  }

  /** The pool's methods perform the operations. */
  method Perform(pool: BufferPool, op: Op, ghost c: Client) returns (out: Out)
    requires Stands(pool.crc, pool.Now(), c) && Legal(pool.crc, c, op)
    modifies pool
    ensures PoolStep(pool.crc, old(pool.Now()), op, out, pool.Now())
  {
    hide Stands, Effect, Ages, Settled, View, Clocked, Verifies;
    if !op.FlushAll? { PinnedIf(pool.crc, pool.Now(), c, op.p); } else { StandsAges(pool.crc, pool.Now(), c); }
    if op.Fetch? {
      var r := pool.FetchPage(op.p);
      out := if r.Ok? then Got(pool.frames[r.value].data) else Failed;
      FetchAnswers(pool.crc, old(pool.Now()), pool.Now(), op.p, r, out);
    } else if op.Change? {
      pool.ChangeFrame(op.p, op.img);
      out := Done;
    } else if op.Unpin? {
      var r := pool.Unpin(op.p, op.mark);
      out := Done;
    } else if op.Flush? {
      var r := pool.FlushPage(op.p);
      out := if r.Ok? then Done else Failed;
    } else if op.FlushAll? {
      pool.FlushAll();
      out := OnDisk(pool.disk);
    } else {
      var r := pool.NewPage(op.p, op.blank, op.zeros);
      out := if r.Ok? then Got(op.zeros) else Failed;
    }
  }

  lemma {:induction false} FetchAnswers(crc: Crc, s: State, t: State, p: PageId, r: Result<nat, PoolError>, out: Out)
    requires Valid(crc, s)
    requires r.Ok? ==> Fetched(crc, s, t, p, r.value) && r.value < |t.frames| && out == Got(t.frames[r.value].data)
    requires r.Err? ==> out == Failed
    requires r == Err(BufferPoolExhausted) ==> p !in s.table && !Available(s.frames) && t == s
    requires r == Err(PageNotFound) ==> p !in s.disk && exists v: nat :: Chosen(s.frames, v) && t == Emptied(crc, s, v)
    ensures FetchStep(crc, s, p, out, t)
  {
    hide Fetched, Emptied, Chosen, Available;
    if r.Err? {
      match r.error
      case BufferPoolExhausted =>
      case PageNotFound =>
    }
  }

  /** Whatever the operations, the pool's answers are a run's. */
  method Run(pool: BufferPool, ops: seq<Op>, c: Client) returns (outs: seq<Out>)
    requires Stands(pool.crc, pool.Now(), c)
    modifies pool
    ensures Runs(pool.crc, old(pool.Now()), c, ops, outs, pool.Now())
    ensures Behaves(pool.crc, old(|pool.frames|), c, ops, outs)
    decreases |ops|
  {
    hide Stands, PoolStep, Next, Behaves, Legal;
    if ops == [] {
      outs := [];
    } else {
      var out, next := Skipped, c;
      if Legal(pool.crc, c, ops[0]) {
        out := Perform(pool, ops[0], c);
        next := Next(c, ops[0], out);
        StepBehaves(pool.crc, old(pool.Now()), pool.Now(), c, ops[0], out);
      }
      ghost var m := pool.Now();
      var rest := Run(pool, ops[1..], next);
      outs := [out] + rest;
      assert outs[1..] == rest && outs[0] == out;
      assert Runs(pool.crc, m, next, ops[1..], rest, pool.Now());
    }
    RunsBehave(pool.crc, old(pool.Now()), c, ops, outs, pool.Now());
  }

  // ── When the checksum field comes back too ──────────────────────────

  /** Storing the image changes nothing. */
  predicate Stamped(crc: Crc, img: Image) { img.checksum == crc(img.body) }

  /** Every fetch shows exactly the last bytes written. */
  ghost predicate Exact(crc: Crc, c: Client, ops: seq<Op>, outs: seq<Out>)
    decreases |ops|
  {
    (ops != [] && outs != []) ==>
      if Legal(crc, c, ops[0]) then
        && (ops[0].Fetch? && outs[0].Got? ==> ops[0].p in c.view && outs[0].img == c.view[ops[0].p])
        && Exact(crc, Next(c, ops[0], outs[0]), ops[1..], outs[1..])
      else Exact(crc, c, ops[1..], outs[1..])
  }

  predicate Writes(op: Op, img: Image) {
    (op.Change? && op.img == img) || (op.New? && (op.blank == img || op.zeros == img))
  }

  /** Clients write only images that satisfy ok. */
  ghost predicate WritesOnly(ops: seq<Op>, ok: Image -> bool) {
    forall i, img :: 0 <= i < |ops| && Writes(ops[i], img) ==> ok(img)
  }

  ghost predicate AllStamped(crc: Crc, view: map<PageId, Image>) { forall p :: p in view ==> Stamped(crc, view[p]) }

  lemma {:induction false} StampedStep(crc: Crc, frames: nat, c: Client, op: Op, out: Out)
    requires AllStamped(crc, c.view) && Expected(crc, frames, c, op, out)
    requires forall img :: Writes(op, img) ==> Stamped(crc, img)
    ensures AllStamped(crc, Next(c, op, out).view)
    ensures op.Fetch? && out.Got? ==> op.p in c.view && out.img == c.view[op.p]
  {
    match op
    case Change(_, img) => assert Writes(op, img);
    case New(_, blank, zeros) => assert Writes(op, blank) && Writes(op, zeros);
    case _ =>
  }

  /** Stamped images come back byte for byte. */
  lemma {:induction false} StampedIsExact(crc: Crc, frames: nat, c: Client, ops: seq<Op>, outs: seq<Out>)
    requires Behaves(crc, frames, c, ops, outs) && AllStamped(crc, c.view)
    requires forall i, img :: 0 <= i < |ops| && Writes(ops[i], img) ==> Stamped(crc, img)
    ensures Exact(crc, c, ops, outs)
    decreases |ops|
  {
    hide Expected, Next, Legal, Writes, Stamped, AllStamped;
    if ops != [] {
      assert forall i :: 0 <= i < |ops[1..]| ==> ops[1..][i] == ops[i + 1];
      if Legal(crc, c, ops[0]) {
        StampedStep(crc, frames, c, ops[0], outs[0]);
        StampedIsExact(crc, frames, Next(c, ops[0], outs[0]), ops[1..], outs[1..]);
      } else {
        StampedIsExact(crc, frames, c, ops[1..], outs[1..]);
      }
    }
  }

  /** A new pool over a file of stamped pages. */
  ghost predicate Begins(crc: Crc, s: State, c: Client) {
    && s.table == map[] && (forall i :: 0 <= i < |s.frames| ==> s.frames[i] == BLANK_FRAME)
    && AllStamped(crc, s.disk) && c == Client(s.disk, multiset{}, {})
  }

  /** Every run in which clients write only such images shows exactly the last
      bytes written. */
  ghost predicate AlwaysExact(crc: Crc, ok: Image -> bool) {
    forall s, c, ops, outs, t ::
      Begins(crc, s, c) && Runs(crc, s, c, ops, outs, t) && WritesOnly(ops, ok) ==> Exact(crc, c, ops, outs)
  }

  // An unstamped image, evicted and fetched again

  /** A pool of one frame, holding page p. */
  function Single(disk: map<PageId, Image>, p: PageId, data: Image, pins: nat, dirty: bool, clock: nat): State {
    State([BufferFrame(data, Some(p), pins, dirty, clock)], map[p := 0], disk, clock)
  }

  /** Another page pushes an unpinned one out. */
  lemma {:induction false} SingleFetch(
      crc: Crc, s: State, disk: map<PageId, Image>, p: PageId, data: Image, dirty: bool, clock: nat, q: PageId)
    requires s == Single(disk, p, data, 0, dirty, clock) && Valid(crc, s) && q != p && q in disk
    ensures var stored := if dirty then disk[p := Stamp(crc, data)] else disk;
            PoolStep(crc, s, Fetch(q), Got(disk[q]), Single(stored, q, disk[q], 1, false, clock + 1))
  {
    var stored := if dirty then disk[p := Stamp(crc, data)] else disk;
    var t, e := Single(stored, q, disk[q], 1, false, clock + 1), Emptied(crc, s, 0);
    assert e.disk == stored && e.table == map[];
    assert Chosen(s.frames, 0);
    var l := Loaded(e, 0, q, e.disk[q], false);
    assert l.frames == t.frames && l.table == t.table;
    assert Fetched(crc, s, t, q, 0);
  }

  lemma {:induction false} FirstFetch(crc: Crc, s: State, disk: map<PageId, Image>, p: PageId)
    requires s == State([BLANK_FRAME], map[], disk, 0) && Valid(crc, s) && p in disk
    ensures PoolStep(crc, s, Fetch(p), Got(disk[p]), Single(disk, p, disk[p], 1, false, 1))
  {
    var t := Single(disk, p, disk[p], 1, false, 1);
    assert Chosen(s.frames, 0) && Emptied(crc, s, 0) == s;
    var l := Loaded(s, 0, p, disk[p], false);
    assert l.frames == t.frames && l.table == t.table;
    assert Fetched(crc, s, t, p, 0);
  }

  lemma {:induction false} SingleChange(
      crc: Crc, s: State, disk: map<PageId, Image>, p: PageId, data: Image, clock: nat, img: Image)
    requires s == Single(disk, p, data, 1, false, clock) && Valid(crc, s)
    ensures PoolStep(crc, s, Change(p, img), Done, Single(disk, p, img, 1, false, clock))
  {
  }

  lemma {:induction false} SingleUnpin(
      crc: Crc, s: State, disk: map<PageId, Image>, p: PageId, data: Image, dirty: bool, clock: nat, mark: bool)
    requires s == Single(disk, p, data, 1, dirty, clock) && Valid(crc, s)
    ensures PoolStep(crc, s, Unpin(p, mark), Done, Single(disk, p, data, 0, dirty || mark, clock))
  {
  }

  lemma {:induction false} RunsCons(
      crc: Crc, s: State, c: Client, op: Op, out: Out, m: State, ops: seq<Op>, outs: seq<Out>, t: State)
    requires Legal(crc, c, op) && PoolStep(crc, s, op, out, m) && Runs(crc, m, Next(c, op, out), ops, outs, t)
    ensures Runs(crc, s, c, [op] + ops, [out] + outs, t)
    ensures !Exact(crc, Next(c, op, out), ops, outs) ==> !Exact(crc, c, [op] + ops, [out] + outs)
  {
    hide PoolStep, Legal, Next;
    var all, answers := [op] + ops, [out] + outs;
    assert all[0] == op && answers[0] == out && all[1..] == ops && answers[1..] == outs;
    assert PoolStep(crc, s, all[0], answers[0], m)
      && Runs(crc, m, Next(c, all[0], answers[0]), all[1..], answers[1..], t);
  }

  lemma {:induction false} Advance(crc: Crc, s: State, t: State, c: Client, d: Client, op: Op, out: Out)
    requires Stands(crc, s, c) && Legal(crc, c, op) && PoolStep(crc, s, op, out, t) && d == Next(c, op, out)
    ensures Stands(crc, t, d) && Valid(crc, t)
  {
    hide Stands, PoolStep, Legal, Next, Expected;
    StepBehaves(crc, s, t, c, op, out);
    StandsAges(crc, t, d);
  }

  lemma {:induction false} LastFetch(crc: Crc, s: State, t: State, c: Client, p: PageId, img: Image)
    requires PoolStep(crc, s, Fetch(p), Got(img), t)
    ensures Runs(crc, s, c, [Fetch(p)], [Got(img)], t)
    ensures p in c.view && c.view[p] != img ==> !Exact(crc, c, [Fetch(p)], [Got(img)])
  {
    hide PoolStep, Next;
    RunsCons(crc, s, c, Fetch(p), Got(img), t, [], [], t);
    assert [Fetch(p)] + [] == [Fetch(p)] && [Got(img)] + [] == [Got(img)];
    assert [Fetch(p)][0] == Fetch(p) && [Got(img)][0] == Got(img);
  }

  /** Page 0 waits, unpinned and dirty, in the only frame. */
  ghost predicate Waiting(crc: Crc, img: Image, disk: map<PageId, Image>, clock: nat, s: State, c: Client) {
    && 0 in disk && 1 in disk && s == Single(disk, 0, img, 0, true, clock)
    && c == Client(disk[0 := img], multiset{}, {}) && Stands(crc, s, c)
  }

  /** Another page is fetched, which writes the waiting one back, and let go. */
  lemma {:induction false} VisitOther(
      crc: Crc, img: Image, disk: map<PageId, Image>, clock: nat, s: State, c: Client)
    returns (mid: State, t: State, d: Client)
    requires Waiting(crc, img, disk, clock, s, c)
    ensures var y := disk[1];
            && Legal(crc, c, Fetch(1)) && PoolStep(crc, s, Fetch(1), Got(y), mid) && d == Next(c, Fetch(1), Got(y))
            && Legal(crc, d, Unpin(1, false)) && PoolStep(crc, mid, Unpin(1, false), Done, t)
            && c == Next(d, Unpin(1, false), Done)
            && t == Single(disk[0 := Stamp(crc, img)], 1, y, 0, false, clock + 1) && Valid(crc, t)
  {
    hide Stands, PoolStep, Expected;
    var stored, y := disk[0 := Stamp(crc, img)], disk[1];
    StandsAges(crc, s, c);
    SingleFetch(crc, s, disk, 0, img, true, clock, 1);
    mid, d := Single(stored, 1, y, 1, false, clock + 1), c.(pins := multiset{1});
    Advance(crc, s, mid, c, d, Fetch(1), Got(y));
    SingleUnpin(crc, mid, stored, 1, y, false, clock + 1, false);
    t := Single(stored, 1, y, 0, false, clock + 1);
    Advance(crc, mid, t, d, c, Unpin(1, false), Done);
  }

  /** Then the waiting page is fetched again: its checksum field has been
      rewritten. */
  lemma {:induction false} ReadAgain(
      crc: Crc, img: Image, disk: map<PageId, Image>, clock: nat, s: State, c: Client)
    returns (ops: seq<Op>, outs: seq<Out>, t: State)
    requires !Stamped(crc, img) && Waiting(crc, img, disk, clock, s, c)
    ensures ops == [Fetch(1), Unpin(1, false), Fetch(0)]
    ensures Runs(crc, s, c, ops, outs, t) && !Exact(crc, c, ops, outs)
  {
    hide Stands, PoolStep, Runs, Exact, Expected, Next, Legal, Valid;
    var z, y := Stamp(crc, img), disk[1];
    var stored := disk[0 := z];
    var s4, s5, c4 := VisitOther(crc, img, disk, clock, s, c);
    SingleFetch(crc, s5, stored, 1, y, false, clock + 1, 0);
    t := Single(stored, 0, z, 1, false, clock + 2);
    LastFetch(crc, s5, t, c, 0, z);
    RunsCons(crc, s4, c4, Unpin(1, false), Done, s5, [Fetch(0)], [Got(z)], t);
    RunsCons(crc, s, c, Fetch(1), Got(y), s4, [Unpin(1, false)] + [Fetch(0)], [Done] + [Got(z)], t);
    ops := [Fetch(1)] + ([Unpin(1, false)] + [Fetch(0)]);
    outs := [Got(y)] + ([Done] + [Got(z)]);
  }

  /** A page is fetched, changed to an unstamped image, and unpinned dirty. */
  lemma {:induction false} WriteOnce(crc: Crc, img: Image, disk: map<PageId, Image>, s: State, c: Client)
    returns (ops: seq<Op>, answers: seq<Out>, end: State)
    requires !Stamped(crc, img) && disk == map[0 := Stamp(crc, img), 1 := Stamp(crc, img)]
    requires s == State([BLANK_FRAME], map[], disk, 0) && c == Client(disk, multiset{}, {}) && Stands(crc, s, c)
    ensures ops == [Fetch(0), Change(0, img), Unpin(0, true), Fetch(1), Unpin(1, false), Fetch(0)]
    ensures Runs(crc, s, c, ops, answers, end) && !Exact(crc, c, ops, answers)
  {
    hide Stands, PoolStep, Runs, Exact, Expected;
    var z := Stamp(crc, img);
    StandsAges(crc, s, c);
    FirstFetch(crc, s, disk, 0);
    var s1, c1 := Single(disk, 0, z, 1, false, 1), c.(pins := multiset{0});
    Advance(crc, s, s1, c, c1, Fetch(0), Got(z));
    SingleChange(crc, s1, disk, 0, z, 1, img);
    var s2, c2 := Single(disk, 0, img, 1, false, 1), Client(disk[0 := img], multiset{0}, {0});
    Advance(crc, s1, s2, c1, c2, Change(0, img), Done);
    SingleUnpin(crc, s2, disk, 0, img, false, 1, true);
    var t, d := Single(disk, 0, img, 0, true, 1), Client(disk[0 := img], multiset{}, {});
    Advance(crc, s2, t, c2, d, Unpin(0, true), Done);
    ops, answers, end := ReadAgain(crc, img, disk, 1, t, d);
    RunsCons(crc, s2, c2, Unpin(0, true), Done, t, ops, answers, end);
    ops, answers := [Unpin(0, true)] + ops, [Done] + answers;
    RunsCons(crc, s1, c1, Change(0, img), Done, s2, ops, answers, end);
    ops, answers := [Change(0, img)] + ops, [Done] + answers;
    RunsCons(crc, s, c, Fetch(0), Got(z), s1, ops, answers, end);
    ops, answers := [Fetch(0)] + ops, [Got(z)] + answers;
  }

  /** An image that storing changes shows in some run. */
  lemma {:induction false} EvictionShows(crc: Crc, img: Image, ok: Image -> bool)
    requires ok(img) && !Stamped(crc, img)
    ensures !AlwaysExact(crc, ok)
  {
    hide Stands, Runs, Exact, Valid;
    var disk: map<PageId, Image> := map[0 := Stamp(crc, img), 1 := Stamp(crc, img)];
    var s, c := State([BLANK_FRAME], map[], disk, 0), Client(disk, multiset{}, {});
    FreshStands(crc, s);
    var ops, answers, end := WriteOnce(crc, img, disk, s, c);
    assert WritesOnly(ops, ok) && Begins(crc, s, c);
  }

  /** Whole pages, checksum field included, always come back exactly if and only
      if clients write only images that already carry their checksum. */
  lemma {:induction false} ExactIffStamped(crc: Crc, ok: Image -> bool)
    ensures AlwaysExact(crc, ok) <==> forall img :: ok(img) ==> Stamped(crc, img)
  {
    hide Runs, Exact, Stamped, Stands;
    if forall img :: ok(img) ==> Stamped(crc, img) {
      forall s, c, ops, outs, t | Begins(crc, s, c) && Runs(crc, s, c, ops, outs, t) && WritesOnly(ops, ok)
        ensures Exact(crc, c, ops, outs)
      {
        BeginsStands(crc, s, c);
        RunsBehave(crc, s, c, ops, outs, t);
        StampedIsExact(crc, |s.frames|, c, ops, outs);
      }
    } else {
      var img :| ok(img) && !Stamped(crc, img);
      EvictionShows(crc, img, ok);
    }
  }

  lemma {:induction false} BeginsStands(crc: Crc, s: State, c: Client)
    requires Begins(crc, s, c)
    ensures Stands(crc, s, c) && AllStamped(crc, c.view)
  {
    FreshStands(crc, s);
  }

  // New pages, evicted and fetched again

  /** Clients change no page and create pages with these images only: what the
      file holds once a page is allocated, and what a new page starts as. */
  ghost predicate CreatesOnly(ops: seq<Op>, blank: Image, zeros: Image) {
    forall op :: op in ops ==> !op.Change? && (op.New? ==> op.blank == blank && op.zeros == zeros)
  }

  ghost predicate CreationExact(crc: Crc, blank: Image, zeros: Image) {
    forall s, c, ops, outs, t ::
      Begins(crc, s, c) && Runs(crc, s, c, ops, outs, t) && CreatesOnly(ops, blank, zeros) ==> Exact(crc, c, ops, outs)
  }

  lemma {:induction false} FirstNew(crc: Crc, s: State, disk: map<PageId, Image>, blank: Image, zeros: Image)
    requires s == State([BLANK_FRAME], map[], disk, 0) && Valid(crc, s) && 0 !in disk
    ensures PoolStep(crc, s, New(0, blank, zeros), Got(zeros), Single(disk[0 := blank], 0, zeros, 1, true, 1))
  {
    var a, t := Allocated(s, 0, blank), Single(disk[0 := blank], 0, zeros, 1, true, 1);
    assert Chosen(s.frames, 0) && Emptied(crc, a, 0) == a;
    var l := Loaded(a, 0, 0, zeros, true);
    assert l.frames == t.frames && l.table == t.table;
  }

  /** A page is created and let go. */
  lemma {:induction false} CreateOnce(
      crc: Crc, disk: map<PageId, Image>, blank: Image, zeros: Image, s: State, c: Client)
    returns (ops: seq<Op>, answers: seq<Out>, end: State)
    requires !Stamped(crc, zeros) && Verifies(crc, blank) && 0 !in disk && 1 in disk
    requires s == State([BLANK_FRAME], map[], disk, 0) && c == Client(disk, multiset{}, {}) && Stands(crc, s, c)
    ensures ops == [New(0, blank, zeros), Unpin(0, false), Fetch(1), Unpin(1, false), Fetch(0)]
    ensures Runs(crc, s, c, ops, answers, end) && !Exact(crc, c, ops, answers)
  {
    hide Stands, PoolStep, Runs, Exact, Expected, Stamped, Verifies;
    var d := disk[0 := blank];
    StandsAges(crc, s, c);
    FirstNew(crc, s, disk, blank, zeros);
    var s1, c1 := Single(d, 0, zeros, 1, true, 1), Client(disk[0 := zeros], multiset{0}, {});
    Advance(crc, s, s1, c, c1, New(0, blank, zeros), Got(zeros));
    SingleUnpin(crc, s1, d, 0, zeros, true, 1, false);
    var s2, c2 := Single(d, 0, zeros, 0, true, 1), Client(disk[0 := zeros], multiset{}, {});
    Advance(crc, s1, s2, c1, c2, Unpin(0, false), Done);
    assert d[0 := zeros] == disk[0 := zeros];
    ops, answers, end := ReadAgain(crc, zeros, d, 1, s2, c2);
    RunsCons(crc, s1, c1, Unpin(0, false), Done, s2, ops, answers, end);
    ops, answers := [Unpin(0, false)] + ops, [Done] + answers;
    RunsCons(crc, s, c, New(0, blank, zeros), Got(zeros), s1, ops, answers, end);
    ops, answers := [New(0, blank, zeros)] + ops, [Got(zeros)] + answers;
  }

  lemma {:induction false} SingleRefuses(
      crc: Crc, s: State, disk: map<PageId, Image>, data: Image, blank: Image, zeros: Image)
    requires s == Single(disk, 1, data, 1, false, 1) && Valid(crc, s)
    ensures PoolStep(crc, s, New(0, blank, zeros), Failed, Single(disk[0 := blank], 1, data, 1, false, 1))
  {
    assert !Available(s.frames);
  }

  /** A page is created while the only frame is pinned, then fetched and let go
      with a dirty mark. */
  lemma {:induction false} RefuseOnce(
      crc: Crc, disk: map<PageId, Image>, blank: Image, zeros: Image, s: State, c: Client)
    returns (ops: seq<Op>, answers: seq<Out>, end: State)
    requires !Stamped(crc, blank) && Verifies(crc, blank) && 0 !in disk && 1 in disk
    requires s == State([BLANK_FRAME], map[], disk, 0) && c == Client(disk, multiset{}, {}) && Stands(crc, s, c)
    ensures ops == [Fetch(1), New(0, blank, zeros), Unpin(1, false), Fetch(0), Unpin(0, true),
                    Fetch(1), Unpin(1, false), Fetch(0)]
    ensures Runs(crc, s, c, ops, answers, end) && !Exact(crc, c, ops, answers)
  {
    hide Stands, PoolStep, Runs, Exact, Expected, Stamped, Verifies;
    var y := disk[1];
    StandsAges(crc, s, c);
    FirstFetch(crc, s, disk, 1);
    var s1, c1 := Single(disk, 1, y, 1, false, 1), Client(disk, multiset{1}, {});
    Advance(crc, s, s1, c, c1, Fetch(1), Got(y));
    ops, answers, end := RefusedPage(crc, disk, blank, zeros, s1, c1);
    RunsCons(crc, s, c, Fetch(1), Got(y), s1, ops, answers, end);
    ops, answers := [Fetch(1)] + ops, [Got(y)] + answers;
  }

  lemma {:induction false} RefusedPage(
      crc: Crc, disk: map<PageId, Image>, blank: Image, zeros: Image, s: State, c: Client)
    returns (ops: seq<Op>, answers: seq<Out>, end: State)
    requires !Stamped(crc, blank) && Verifies(crc, blank) && 0 !in disk && 1 in disk
    requires s == Single(disk, 1, disk[1], 1, false, 1) && c == Client(disk, multiset{1}, {}) && Stands(crc, s, c)
    ensures ops == [New(0, blank, zeros), Unpin(1, false), Fetch(0), Unpin(0, true),
                    Fetch(1), Unpin(1, false), Fetch(0)]
    ensures Runs(crc, s, c, ops, answers, end) && !Exact(crc, c, ops, answers)
  {
    hide Stands, PoolStep, Runs, Exact, Expected, Stamped, Verifies;
    var y, d := disk[1], disk[0 := blank];
    StandsAges(crc, s, c);
    SingleRefuses(crc, s, disk, y, blank, zeros);
    var s2, c2 := Single(d, 1, y, 1, false, 1), Client(d, multiset{1}, {});
    Advance(crc, s, s2, c, c2, New(0, blank, zeros), Failed);
    SingleUnpin(crc, s2, d, 1, y, false, 1, false);
    var s3, c3 := Single(d, 1, y, 0, false, 1), Client(d, multiset{}, {});
    Advance(crc, s2, s3, c2, c3, Unpin(1, false), Done);
    ops, answers, end := MarkedPage(crc, d, blank, s3, c3);
    RunsCons(crc, s2, c2, Unpin(1, false), Done, s3, ops, answers, end);
    ops, answers := [Unpin(1, false)] + ops, [Done] + answers;
    RunsCons(crc, s, c, New(0, blank, zeros), Failed, s2, ops, answers, end);
    ops, answers := [New(0, blank, zeros)] + ops, [Failed] + answers;
  }

  lemma {:induction false} MarkedPage(crc: Crc, disk: map<PageId, Image>, blank: Image, s: State, c: Client)
    returns (ops: seq<Op>, answers: seq<Out>, end: State)
    requires !Stamped(crc, blank) && 0 in disk && 1 in disk && disk[0] == blank
    requires s == Single(disk, 1, disk[1], 0, false, 1) && c == Client(disk, multiset{}, {}) && Stands(crc, s, c)
    ensures ops == [Fetch(0), Unpin(0, true), Fetch(1), Unpin(1, false), Fetch(0)]
    ensures Runs(crc, s, c, ops, answers, end) && !Exact(crc, c, ops, answers)
  {
    hide Stands, PoolStep, Runs, Exact, Expected, Stamped;
    StandsAges(crc, s, c);
    SingleFetch(crc, s, disk, 1, disk[1], false, 1, 0);
    var s4, c4 := Single(disk, 0, blank, 1, false, 2), Client(disk, multiset{0}, {});
    Advance(crc, s, s4, c, c4, Fetch(0), Got(blank));
    SingleUnpin(crc, s4, disk, 0, blank, false, 2, true);
    var s5, c5 := Single(disk, 0, blank, 0, true, 2), Client(disk, multiset{}, {});
    Advance(crc, s4, s5, c4, c5, Unpin(0, true), Done);
    assert disk[0 := blank] == disk;
    ops, answers, end := ReadAgain(crc, blank, disk, 2, s5, c5);
    RunsCons(crc, s4, c4, Unpin(0, true), Done, s5, ops, answers, end);
    ops, answers := [Unpin(0, true)] + ops, [Done] + answers;
    RunsCons(crc, s, c, Fetch(0), Got(blank), s4, ops, answers, end);
    ops, answers := [Fetch(0)] + ops, [Got(blank)] + answers;
  }

  lemma {:induction false} CreationShows(crc: Crc, blank: Image, zeros: Image)
    requires Verifies(crc, blank) && !(Stamped(crc, blank) && Stamped(crc, zeros))
    ensures !CreationExact(crc, blank, zeros)
  {
    hide Stands, Runs, Exact, Valid, Verifies;
    var disk: map<PageId, Image> := map[1 := Stamp(crc, zeros)];
    var s, c := State([BLANK_FRAME], map[], disk, 0), Client(disk, multiset{}, {});
    assert Begins(crc, s, c);
    BeginsStands(crc, s, c);
    var ops, answers, end;
    if Stamped(crc, zeros) {
      ops, answers, end := RefuseOnce(crc, disk, blank, zeros, s, c);
    } else {
      ops, answers, end := CreateOnce(crc, disk, blank, zeros, s, c);
    }
    assert CreatesOnly(ops, blank, zeros);
  }

  /** Pages that are only created always come back exactly if and only if both
      the image they are allocated with and the one they start as carry their
      checksum. */
  lemma {:induction false} NewPagesExactly(crc: Crc, blank: Image, zeros: Image)
    requires Verifies(crc, blank)
    ensures CreationExact(crc, blank, zeros) <==> Stamped(crc, blank) && Stamped(crc, zeros)
  {
    hide Runs, Exact, Stamped, Begins, Verifies;
    if Stamped(crc, blank) && Stamped(crc, zeros) {
      var ok := (img: Image) => img == blank || img == zeros;
      ExactIffStamped(crc, ok);
      forall s, c, ops, outs, t | Begins(crc, s, c) && Runs(crc, s, c, ops, outs, t) && CreatesOnly(ops, blank, zeros)
        ensures Exact(crc, c, ops, outs)
      {
        assert forall i :: 0 <= i < |ops| ==> ops[i] in ops;
        assert WritesOnly(ops, ok);
      }
    } else {
      CreationShows(crc, blank, zeros);
    }
  }

  /** The page of zeros a new page starts as: 8188 bytes and a checksum field. */
  const ZERO_PAGE := Image(seq(8188, i => 0), 0)

  /** New pages left as they were created, and pages changed to zeros, come back
      exactly only under a checksum that gives zero for them. */
  lemma {:induction false} ZeroPageExactly(crc: Crc, blank: Image)
    requires Verifies(crc, blank)
    ensures CreationExact(crc, blank, ZERO_PAGE) <==> Stamped(crc, blank) && crc(ZERO_PAGE.body) == 0
    ensures AlwaysExact(crc, img => img == ZERO_PAGE) <==> crc(ZERO_PAGE.body) == 0
  {
    hide CreationExact, AlwaysExact, Verifies;
    NewPagesExactly(crc, blank, ZERO_PAGE);
    var ok := (img: Image) => img == ZERO_PAGE;
    ExactIffStamped(crc, ok);
    assert ok(ZERO_PAGE);
  }
}
