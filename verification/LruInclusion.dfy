/** Least-recently-used replacement: on traces of fetch-then-unpin the pool
    caches the most recently used pages, so more frames never read more. */
module LruInclusion {
  import opened Prelude
  import opened BufferPools

  // ── Recency lists ───────────────────────────────────────────────────

  /** p moves to the front. */
  function Used(l: seq<PageId>, p: PageId): seq<PageId> { [p] + Without(l, p) }

  function Keep(c: nat, l: seq<PageId>): seq<PageId> { if |l| <= c then l else l[..c] }

  /** The pages of a trace, most recently used first. */
  function Recent(trace: seq<PageId>): seq<PageId> {
    if trace == [] then [] else Used(Recent(trace[..|trace| - 1]), trace[|trace| - 1])
  }

  /** The pages c frames hold under least-recently-used replacement, most
      recently used first. */
  function Cached(c: nat, trace: seq<PageId>): seq<PageId> {
    if trace == [] then [] else Keep(c, Used(Cached(c, trace[..|trace| - 1]), trace[|trace| - 1]))
  }

  /** How often the trace misses; a pool without frames never gets to read. */
  function Reads(c: nat, trace: seq<PageId>): nat {
    if trace == [] || c == 0 then 0
    else
      var init, p := trace[..|trace| - 1], trace[|trace| - 1];
      Reads(c, init) + if p in Cached(c, init) then 0 else 1
  }

  lemma {:induction false} UsedDistinct(l: seq<PageId>, p: PageId)
    requires Distinct(l)
    ensures Distinct(Used(l, p))
  {
    WithoutDistinct(l, p);
    WithoutIs(l, p);
  }

  lemma {:induction false} RecentDistinct(trace: seq<PageId>)
    ensures Distinct(Recent(trace))
  {
    if trace != [] {
      RecentDistinct(trace[..|trace| - 1]);
      UsedDistinct(Recent(trace[..|trace| - 1]), trace[|trace| - 1]);
    }
  }

  /** Where a page was last used. */
  function LastUse(trace: seq<PageId>, p: PageId): (i: nat)
    requires p in trace
    ensures i < |trace| && trace[i] == p && p !in trace[i + 1..]
  {
    var n := |trace| - 1;
    if trace[n] == p then n
    else
      assert trace == trace[..n] + [trace[n]];
      var i := LastUse(trace[..n], p);
      assert trace[i + 1..] == trace[..n][i + 1..] + [trace[n]];
      i
  }

  /** Entries used later come first. */
  ghost predicate ByLastUse(trace: seq<PageId>, l: seq<PageId>) {
    && (forall p :: p in l <==> p in trace)
    && (forall i, j :: 0 <= i < j < |l| ==> LaterUse(trace, l[i], l[j]))
  }

  ghost predicate LaterUse(trace: seq<PageId>, p: PageId, q: PageId) {
    p in trace && q in trace && LastUse(trace, p) > LastUse(trace, q)
  }

  lemma {:induction false} UseAfter(init: seq<PageId>, p: PageId, q: PageId, r: PageId)
    ensures LaterUse(init, q, r) && q != p && r != p ==> LaterUse(init + [p], q, r)
    ensures r in init && r != p ==> LaterUse(init + [p], p, r)
  {
    var t := init + [p];
    assert t[..|init|] == init && t[|init|] == p;
  }

  lemma {:induction false} UsedByLastUse(init: seq<PageId>, p: PageId, l: seq<PageId>)
    requires ByLastUse(init, l)
    ensures ByLastUse(init + [p], Used(l, p))
  {
    hide LaterUse;
    var rest, t := Without(l, p), init + [p];
    WithoutIs(l, p);
    forall i, j | 0 <= i < j < |Used(l, p)| ensures LaterUse(t, Used(l, p)[i], Used(l, p)[j]) {
      var q := rest[j - 1];
      assert q in rest;
      if i == 0 {
        UseAfter(init, p, p, q);
      } else {
        assert rest[i - 1] in rest;
        WithoutOrder(l, p, i - 1, j - 1);
        UseAfter(init, p, rest[i - 1], q);
      }
    }
  }

  /** The recency list holds exactly the pages of the trace, each once, and those
      used later come first. */
  lemma {:induction false} RecentIs(trace: seq<PageId>)
    ensures Distinct(Recent(trace)) && ByLastUse(trace, Recent(trace))
  {
    RecentDistinct(trace);
    if trace != [] {
      hide ByLastUse;
      var init, p := trace[..|trace| - 1], trace[|trace| - 1];
      RecentIs(init);
      assert trace == init + [p];
      UsedByLastUse(init, p, Recent(init));
    }
  }

  /** The pages used since a page was. */
  ghost function Since(trace: seq<PageId>, p: PageId): set<PageId> { set q | q in trace && LaterUse(trace, q, p) }

  lemma {:induction false} SinceIs(trace: seq<PageId>, l: seq<PageId>, i: nat)
    requires ByLastUse(trace, l) && Distinct(l) && i < |l|
    ensures |Since(trace, l[i])| == i
  {
    var before := l[..i];
    forall q ensures q in before <==> q in Since(trace, l[i]) {
      if q in Since(trace, l[i]) {
        assert q in l;
        var j :| 0 <= j < |l| && l[j] == q;
        assert i < j ==> LaterUse(trace, l[i], l[j]);
      }
      if q in before {
        var j :| 0 <= j < i && l[j] == q;
        assert LaterUse(trace, l[j], l[i]);
        assert l[j] in l;
      }
    }
    assert Elements(before) == Since(trace, l[i]);
    ElementsSize(before);
  }

  /** A page is cached exactly when fewer other pages were used since than there
      are frames. */
  lemma {:induction false} CachedExactly(c: nat, trace: seq<PageId>, p: PageId)
    ensures p in Cached(c, trace) <==> p in trace && |Since(trace, p)| < c
  {
    hide Recent, Cached, Since, Keep;
    CachedIsPrefix(c, trace);
    RecentIs(trace);
    var l := Recent(trace);
    KeepHas(c, l, p);
    if p in trace {
      assert p in l;
      var i :| 0 <= i < |l| && l[i] == p;
      SinceIs(trace, l, i);
    }
  }

  lemma {:induction false} KeepHas(c: nat, l: seq<PageId>, p: PageId)
    requires Distinct(l)
    ensures p in Keep(c, l) <==> exists i :: 0 <= i < |l| && i < c && l[i] == p
  {
    var k := Keep(c, l);
    if p in k {
      var i :| 0 <= i < |k| && k[i] == p;
      assert l[i] == p;
    }
    if i :| 0 <= i < |l| && i < c && l[i] == p { assert k[i] == p; }
  }

  /** Deleting an entry keeps the order of the rest. */
  lemma {:induction false} WithoutOrder(s: seq<PageId>, x: PageId, i: nat, j: nat)
    requires i < j < |Without(s, x)|
    ensures exists a, b :: 0 <= a < b < |s| && s[a] == Without(s, x)[i] && s[b] == Without(s, x)[j]
  {
    var rest := s[1..];
    if s[0] == x {
      WithoutOrder(rest, x, i, j);
      var a, b :| 0 <= a < b < |rest| && rest[a] == Without(rest, x)[i] && rest[b] == Without(rest, x)[j];
      assert s[a + 1] == rest[a] && s[b + 1] == rest[b];
    } else if i > 0 {
      WithoutOrder(rest, x, i - 1, j - 1);
      var a, b :| 0 <= a < b < |rest| && rest[a] == Without(rest, x)[i - 1] && rest[b] == Without(rest, x)[j - 1];
      assert s[a + 1] == rest[a] && s[b + 1] == rest[b];
    } else {
      WithoutIs(rest, x);
      assert Without(rest, x)[j - 1] in rest;
      var b :| 0 <= b < |rest| && rest[b] == Without(rest, x)[j - 1];
      assert s[0] == Without(s, x)[0] && s[b + 1] == rest[b];
    }
  }

  /** Cutting the list one place early loses nothing of its first k places. */
  lemma {:induction false} CutEarly(k: nat, l: seq<PageId>, p: PageId)
    requires Distinct(l)
    ensures Keep(k, Without(Keep(k + 1, l), p)) == Keep(k, Without(l, p))
  {
    if l != [] {
      var rest, cut := l[1..], Keep(k + 1, l);
      assert cut[0] == l[0] && cut[1..] == Keep(k, rest);
      if l[0] == p {
        WithoutIs(rest, p);
        WithoutIs(Keep(k, rest), p);
      } else if k > 0 {
        CutEarly(k - 1, rest, p);
        KeepCons(k, l[0], Without(rest, p));
        KeepCons(k, l[0], Without(Keep(k, rest), p));
      }
    }
  }

  lemma {:induction false} KeepCons(k: nat, x: PageId, l: seq<PageId>)
    requires k > 0
    ensures Keep(k, [x] + l) == [x] + Keep(k - 1, l)
  {
  }

  /** A pool of c frames holds the first c entries of the recency list. */
  lemma {:induction false} CachedIsPrefix(c: nat, trace: seq<PageId>)
    ensures Cached(c, trace) == Keep(c, Recent(trace))
  {
    if trace != [] {
      var init, p := trace[..|trace| - 1], trace[|trace| - 1];
      CachedIsPrefix(c, init);
      RecentDistinct(init);
      if c > 0 {
        var l := Recent(init);
        CutEarly(c - 1, l, p);
        KeepCons(c, p, Without(l, p));
        KeepCons(c, p, Without(Keep(c, l), p));
      }
    }
  }

  /** Inclusion: a larger pool holds everything a smaller one does. */
  lemma {:induction false} Inclusion(c: nat, d: nat, trace: seq<PageId>)
    requires c <= d
    ensures Cached(c, trace) <= Cached(d, trace)
  {
    CachedIsPrefix(c, trace);
    CachedIsPrefix(d, trace);
  }

  lemma {:induction false} FewerReads(c: nat, d: nat, trace: seq<PageId>)
    requires 1 <= c <= d
    ensures Reads(d, trace) <= Reads(c, trace)
  {
    if trace != [] {
      var init := trace[..|trace| - 1];
      FewerReads(c, d, init);
      Inclusion(c, d, init);
    }
  }

  lemma {:induction false} SomeRead(d: nat, trace: seq<PageId>)
    requires d >= 1 && trace != []
    ensures Reads(d, trace) >= 1
  {
    if |trace| > 1 {
      SomeRead(d, trace[..|trace| - 1]);
    }
  }

  /** The larger pool reads no more than the smaller, except that the pool with
      no frames at all never reads. */
  lemma {:induction false} ReadsMonotone(c: nat, d: nat, trace: seq<PageId>)
    requires c <= d
    ensures Reads(d, trace) <= Reads(c, trace) <==> c >= 1 || d == 0 || trace == []
  {
    if c >= 1 {
      FewerReads(c, d, trace);
    } else if d >= 1 && trace != [] {
      SomeRead(d, trace);
    }
  }

  // ── The pool follows the recency list ───────────────────────────────

  /** Access time of each cached page. */
  function Times(s: State): map<PageId, nat>
    requires Bijection(s.frames, s.table)
  {
    map p | p in s.table :: s.frames[s.table[p]].lastAccessed
  }

  /** The list has the pages of the map, latest first. */
  ghost predicate Descending(l: seq<PageId>, m: map<PageId, nat>) {
    && (forall p :: p in l <==> p in m)
    && (forall i, j :: 0 <= i < j < |l| ==> m[l[i]] > m[l[j]])
  }

  ghost predicate AllUnpinned(frames: seq<BufferFrame>) { forall i :: 0 <= i < |frames| ==> frames[i].pinCount == 0 }

  /** The idle pool caches exactly the pages of l, most recently used first. */
  ghost predicate Follows(crc: Crc, s: State, l: seq<PageId>) {
    Valid(crc, s) && Descending(l, Times(s)) && AllUnpinned(s.frames)
  }

  lemma {:induction false} WithoutDescending(l: seq<PageId>, m: map<PageId, nat>, p: PageId)
    requires forall x :: x in l ==> x in m
    requires forall i, j :: 0 <= i < j < |l| ==> m[l[i]] > m[l[j]]
    ensures forall x :: x in Without(l, p) ==> x in m
    ensures forall i, j :: 0 <= i < j < |Without(l, p)| ==> m[Without(l, p)[i]] > m[Without(l, p)[j]]
  {
    WithoutIs(l, p);
    if l != [] {
      var rest := l[1..];
      assert forall i :: 0 <= i < |rest| ==> rest[i] == l[i + 1];
      assert forall x :: x in rest ==> m[l[0]] > m[x];
      WithoutDescending(rest, m, p);
      WithoutIs(rest, p);
    }
  }

  /** Stamping p with a time later than all others moves it to the front. */
  lemma {:induction false} UsedDescending(l: seq<PageId>, m: map<PageId, nat>, p: PageId, time: nat)
    requires Descending(l, m) && forall x :: x in m ==> m[x] < time
    ensures Descending(Used(l, p), m[p := time])
  {
    WithoutDescending(l, m, p);
    WithoutIs(l, p);
    var w, n := Without(l, p), m[p := time];
    assert forall x :: x in w ==> n[x] == m[x];
  }

  lemma {:induction false} DropLast(l: seq<PageId>, m: map<PageId, nat>)
    requires Descending(l, m) && l != []
    ensures Descending(l[..|l| - 1], m - {l[|l| - 1]})
    ensures forall x :: x in m ==> m[l[|l| - 1]] <= m[x]
  {
    var n := |l| - 1;
    assert forall x :: x in l <==> x in l[..n] || x == l[n];
  }

  // Counting frames

  /** The pool is full exactly when the list is as long as there are frames. */
  lemma {:induction false} FullWhen(crc: Crc, s: State, l: seq<PageId>)
    requires Follows(crc, s, l)
    ensures |l| <= |s.frames|
    ensures |l| == |s.frames| <==> forall i :: 0 <= i < |s.frames| ==> !Free(s.frames, i)
  {
    DescendingDistinct(l, Times(s));
    ElementsSize(l);
    assert forall p :: p in Elements(l) <==> p in s.table;
    OneFrameEach(crc, s);
    ImageSize(Elements(l), s.table);
    var range, slots := Range(|s.frames|), ImageOf(Elements(l), s.table);
    SlotsTaken(s, Elements(l));
    SubsetSize(slots, range);
    if forall i :: 0 <= i < |s.frames| ==> !Free(s.frames, i) {
      assert slots == range;
    } else {
      var i :| 0 <= i < |s.frames| && Free(s.frames, i);
      assert i in range && i !in slots;
    }
  }

  lemma {:induction false} SlotsTaken(s: State, pages: set<PageId>)
    requires Bijection(s.frames, s.table) && forall p :: p in pages <==> p in s.table
    ensures ImageOf(pages, s.table) <= Range(|s.frames|)
    ensures forall i :: 0 <= i < |s.frames| ==> (i in ImageOf(pages, s.table) <==> !Free(s.frames, i))
  {
    forall i | 0 <= i < |s.frames| && !Free(s.frames, i) ensures i in ImageOf(pages, s.table) {
      assert s.frames[i].pageId.value in pages;
    }
  }

  lemma {:induction false} DescendingDistinct(l: seq<PageId>, m: map<PageId, nat>)
    requires Descending(l, m)
    ensures Distinct(l)
  {
  }

  // One fetch-then-unpin

  lemma {:induction false} TimesBelow(crc: Crc, s: State)
    requires Valid(crc, s)
    ensures forall x :: x in Times(s) ==> Times(s)[x] < s.clock + 1
  {
  }

  lemma {:induction false} TouchHit(crc: Crc, s: State, p: PageId, l: seq<PageId>)
    requires Follows(crc, s, l) && p in s.table
    ensures var t := Unpinned(Hit(s, p), p, false);
      Bijection(t.frames, t.table) && Times(t) == Times(s)[p := s.clock + 1] && AllUnpinned(t.frames)
  {
    hide Clocked, Settled, Verifies, Descending;
  }

  lemma {:induction false} TouchFree(crc: Crc, s: State, p: PageId, v: nat, img: Image)
    requires Valid(crc, s) && AllUnpinned(s.frames) && p !in s.table && v < |s.frames| && Free(s.frames, v)
    ensures var t := Unpinned(Loaded(s, v, p, img, false), p, false);
            Bijection(t.frames, t.table) && Times(t) == Times(s)[p := s.clock + 1] && AllUnpinned(t.frames)
  {
    hide Clocked, Settled, Verifies;
  }

  lemma {:induction false} TouchEmpty(crc: Crc, s: State, v: nat, q: PageId)
    requires Valid(crc, s) && AllUnpinned(s.frames) && v < |s.frames| && s.frames[v].pageId == Some(q)
    ensures var e := Emptied(crc, s, v);
      Bijection(e.frames, e.table) && Times(e) == Times(s) - {q} && AllUnpinned(e.frames)
  {
    hide Clocked, Settled, Verifies;
  }

  /** With no free frame the page evicted is the last of the list. */
  lemma {:induction false} VictimIsLast(crc: Crc, s: State, v: nat, l: seq<PageId>)
    requires Follows(crc, s, l) && Chosen(s.frames, v) && !Free(s.frames, v)
    ensures l != [] && s.frames[v].pageId == Some(l[|l| - 1])
  {
    var q := s.frames[v].pageId.value;
    assert q in l;
    var z := l[|l| - 1];
    DropLast(l, Times(s));
    assert Times(s)[z] <= Times(s)[q];
    assert Evictable(s.frames, s.table[z]);
  }

  lemma {:induction false} Evicts(crc: Crc, s: State, p: PageId, v: nat, l: seq<PageId>)
    requires Follows(crc, s, l) && p !in s.table && Chosen(s.frames, v) && !Free(s.frames, v)
    ensures var e := Emptied(crc, s, v); Valid(crc, e) && Free(e.frames, v) && AllUnpinned(e.frames) && p !in e.table
    ensures l != [] && Keep(|s.frames|, Used(l, p)) == [p] + l[..|l| - 1]
    ensures Descending([p] + l[..|l| - 1], Times(Emptied(crc, s, v))[p := s.clock + 1])
  {
    VictimIsLast(crc, s, v, l);
    FullWhen(crc, s, l);
    var q, short := l[|l| - 1], l[..|l| - 1];
    TouchEmpty(crc, s, v, q);
    EmptiedKeeps(crc, s, v, p);
    Reaches(crc, s, Emptied(crc, s, v), p, 0, View(s));
    assert p !in l;
    hide Effect, Valid, Follows, Bijection, AllUnpinned, Emptied, View;
    assert Times(s).Keys == s.table.Keys;
    TimesBelow(crc, s);
    DropLast(l, Times(s));
    WithoutIs(l, p);
    WithoutIs(short, p);
    KeepCons(|s.frames|, p, l);
    UsedDescending(short, Times(s) - {q}, p, s.clock + 1);
  }

  /** Follows, without the pool's own invariant. */
  ghost predicate Lists(s: State, l: seq<PageId>) {
    Bijection(s.frames, s.table) && Descending(l, Times(s)) && AllUnpinned(s.frames)
  }

  lemma {:induction false} HitLists(crc: Crc, s: State, p: PageId, l: seq<PageId>)
    requires Follows(crc, s, l) && p in s.table
    ensures Lists(Unpinned(Hit(s, p), p, false), Keep(|s.frames|, Used(l, p)))
  {
    FullWhen(crc, s, l);
    TimesBelow(crc, s);
    TouchHit(crc, s, p, l);
    DescendingDistinct(l, Times(s));
    WithoutDistinct(l, p);
    assert p in l;
    UsedDescending(l, Times(s), p, s.clock + 1);
    hide Valid, Bijection, AllUnpinned, Follows, Hit, Unpinned, Descending;
  }

  lemma {:induction false} FreeLists(crc: Crc, s: State, p: PageId, v: nat, l: seq<PageId>, img: Image)
    requires Follows(crc, s, l) && p !in s.table && v < |s.frames| && Free(s.frames, v)
    ensures Lists(Unpinned(Loaded(s, v, p, img, false), p, false), Keep(|s.frames|, Used(l, p)))
  {
    FullWhen(crc, s, l);
    TimesBelow(crc, s);
    WithoutIs(l, p);
    TouchFree(crc, s, p, v, img);
    UsedDescending(l, Times(s), p, s.clock + 1);
    hide Valid, Bijection, AllUnpinned, Follows, Loaded, Unpinned, Descending;
  }

  lemma {:induction false} EvictLists(crc: Crc, s: State, e: State, p: PageId, v: nat, l: seq<PageId>, img: Image)
    requires Follows(crc, s, l) && p !in s.table && Chosen(s.frames, v) && !Free(s.frames, v) && e == Emptied(crc, s, v)
    requires v < |e.frames|
    ensures Lists(Unpinned(Loaded(e, v, p, img, false), p, false), Keep(|s.frames|, Used(l, p)))
  {
    hide Bijection, AllUnpinned, Follows, Descending, Lists, Keep, Used, Times;
    assert e.clock == s.clock;
    Evicts(crc, s, p, v, l);
    hide Emptied, Valid, Chosen;
    LoadLists(crc, e, p, v, [p] + l[..|l| - 1], img);
  }

  lemma {:induction false} LoadLists(crc: Crc, s: State, p: PageId, v: nat, l: seq<PageId>, img: Image)
    requires Valid(crc, s) && AllUnpinned(s.frames) && p !in s.table && v < |s.frames| && Free(s.frames, v)
    requires Descending(l, Times(s)[p := s.clock + 1])
    ensures Lists(Unpinned(Loaded(s, v, p, img, false), p, false), l)
  {
    TouchFree(crc, s, p, v, img);
  }

  /** Fetching and unpinning a page moves it to the front of the list, cut to
      the number of frames. */
  lemma {:induction false} Touched(crc: Crc, s: State, t: State, p: PageId, v: nat, l: seq<PageId>)
    requires && Follows(crc, s, l) && Fetched(crc, s, t, p, v) && p in t.table && t.table[p] < |t.frames|
             && t.frames[t.table[p]].pinCount > 0
    ensures Lists(Unpinned(t, p, false), Keep(|s.frames|, Used(l, p)))
  {
    hide Lists, Bijection, Descending, AllUnpinned, Keep, Used, Times;
    if p in s.table {
      HitLists(crc, s, p, l);
    } else if Free(s.frames, v) {
      FreeLists(crc, s, p, v, l, s.disk[p]);
    } else {
      EvictLists(crc, s, Emptied(crc, s, v), p, v, l, Emptied(crc, s, v).disk[p]);
    }
  }

  lemma {:induction false} NoFrames(crc: Crc, s: State, l: seq<PageId>, p: PageId)
    requires Follows(crc, s, l)
    ensures Valid(crc, s) && (!Available(s.frames) <==> |s.frames| == 0)
    ensures p in s.table <==> p in l
    ensures p in s.disk ==> Settled(crc, s, p) && PinsOf(s, p) == 0
    ensures |s.frames| == 0 ==> l == []
  {
    FullWhen(crc, s, l);
    assert |s.frames| > 0 ==> (Free(s.frames, 0) || Evictable(s.frames, 0));
  }

  /** Fetch a page and let it go again. */
  method Touch(pool: BufferPool, p: PageId, ghost l: seq<PageId>)
    requires Follows(pool.crc, pool.Now(), l) && p in pool.disk
    modifies pool
    ensures |pool.frames| == old(|pool.frames|) && pool.disk.Keys == old(pool.disk.Keys)
    ensures Follows(pool.crc, pool.Now(), Keep(|pool.frames|, Used(l, p)))
    ensures pool.readCount == old(pool.readCount) + if |pool.frames| == 0 || p in l then 0 else 1
  {
    hide Follows, Settled, PinsOf, Available, Fetched, Effect, View, Valid, Keep, Ages, Aged, Emptied, Chosen;
    ghost var s := pool.Now();
    NoFrames(pool.crc, s, l, p);
    var r := pool.FetchPage(p);
    if r.Ok? {
      FetchReady(pool.crc, s, pool.Now(), p, r.value, l);
      FetchLetGo(pool.crc, s, pool.Now(), p, r.value, l);
      var u := pool.Unpin(p, false);
    } else {
      assert r != Err(PageNotFound) && (r.error == PageNotFound || r.error == BufferPoolExhausted);
      assert |s.frames| == 0 && pool.Now() == s;
      KeepNone(Used(l, p));
    }
  }

  lemma {:induction false} KeepNone(l: seq<PageId>)
    ensures Keep(0, l) == []
  {
  }

  lemma {:induction false} FetchReady(crc: Crc, s: State, t: State, p: PageId, v: nat, l: seq<PageId>)
    requires Follows(crc, s, l) && Fetched(crc, s, t, p, v)
    ensures && Valid(crc, t) && PinsOf(t, p) == 1 && p in t.table && t.frames[t.table[p]].pinCount == 1
            && p in t.disk && Settled(crc, t, p)
    ensures t.disk.Keys == s.disk.Keys
  {
    hide Fetched, Settled, View, Clocked, Verifies, Lists, Descending, AllUnpinned, Times;
    FetchedIs(crc, s, t, p, v);
    Reaches(crc, s, t, p, 1, View(s));
    ViewKeys(s);
    ViewKeys(t);
    NoFrames(crc, s, l, p);
  }

  lemma {:induction false} ViewKeys(s: State)
    requires Bijection(s.frames, s.table)
    ensures View(s).Keys == s.disk.Keys
  {
  }

  lemma {:induction false} FetchLetGo(crc: Crc, s: State, t: State, p: PageId, v: nat, l: seq<PageId>)
    requires Follows(crc, s, l) && Fetched(crc, s, t, p, v)
    requires && Valid(crc, t) && PinsOf(t, p) == 1 && p in t.table && t.frames[t.table[p]].pinCount == 1
             && p in t.disk && Settled(crc, t, p)
    ensures Follows(crc, Unpinned(t, p, false), Keep(|s.frames|, Used(l, p)))
  {
    hide Follows, Settled, Fetched, Effect, View, Keep, Lists;
    Touched(crc, s, t, p, v, l);
    UnpinnedIs(crc, t, p, false);
    Reaches(crc, t, Unpinned(t, p, false), p, -1, View(t));
    FollowsIf(crc, Unpinned(t, p, false), Keep(|s.frames|, Used(l, p)));
  }

  lemma {:induction false} FollowsIf(crc: Crc, s: State, l: seq<PageId>)
    requires Valid(crc, s) && Lists(s, l)
    ensures Follows(crc, s, l)
  {
  }

  /** A newly created pool follows the empty list. */
  lemma {:induction false} FreshFollows(crc: Crc, s: State)
    requires s.table == map[] && (forall i :: 0 <= i < |s.frames| ==> s.frames[i] == BLANK_FRAME)
    requires forall p :: p in s.disk ==> Verifies(crc, s.disk[p])
    ensures Follows(crc, s, [])
  {
  }

  /** A trace of fetch-then-unpin on a fresh pool: it ends up caching exactly
      the most recently used pages, as many as there are frames, having read
      the disk once per miss. */
  method RunTrace(pool: BufferPool, trace: seq<PageId>)
    requires Follows(pool.crc, pool.Now(), []) && pool.readCount == 0
    requires forall p :: p in trace ==> p in pool.disk
    modifies pool
    ensures |pool.frames| == old(|pool.frames|)
    ensures Follows(pool.crc, pool.Now(), Keep(|pool.frames|, Recent(trace)))
    ensures pool.readCount == Reads(|pool.frames|, trace)
  {
    hide Follows;
    var i := 0;
    while i < |trace|
      invariant i <= |trace| && |pool.frames| == old(|pool.frames|) && pool.disk.Keys == old(pool.disk.Keys)
      invariant Follows(pool.crc, pool.Now(), Cached(|pool.frames|, trace[..i]))
      invariant pool.readCount == Reads(|pool.frames|, trace[..i])
    {
      Touch(pool, trace[i], Cached(|pool.frames|, trace[..i]));
      i := i + 1;
      assert trace[..i][..i - 1] == trace[..i - 1];
    }
    assert trace[..i] == trace;
    CachedIsPrefix(|pool.frames|, trace);
  }

  /** Two fresh pools on the same trace: the larger caches all the smaller
      does, and reads no more. */
  method Compare(small: BufferPool, large: BufferPool, trace: seq<PageId>)
    requires small != large && 1 <= |small.frames| <= |large.frames|
    requires Follows(small.crc, small.Now(), []) && small.readCount == 0 && forall p :: p in trace ==> p in small.disk
    requires Follows(large.crc, large.Now(), []) && large.readCount == 0 && forall p :: p in trace ==> p in large.disk
    modifies small, large
    ensures small.pageTable.Keys <= large.pageTable.Keys
    ensures large.readCount <= small.readCount
  {
    RunTrace(small, trace);
    RunTrace(large, trace);
    ReadsMonotone(|small.frames|, |large.frames|, trace);
    assert Times(small.Now()).Keys == small.pageTable.Keys && Times(large.Now()).Keys == large.pageTable.Keys;
  }
}
