/** Gossip: how a node merges what it hears about its peers. */
module Gossip {
  import opened Prelude

  datatype Peer = Peer(addr: string, status: string, lastSeen: Option<nat>, vnodes: seq<nat>)

  /** One report about a node. */
  datatype News = News(addr: string, status: string, lastSeen: Option<nat>, vnodes: seq<nat>)

  // ── Text ────────────────────────────────────────────────────────────

  function Lower(c: char): char { if 'A' <= c <= 'Z' then (c as int - 'A' as int + 'a' as int) as char else c }

  predicate EqIgnoreCase(a: string, b: string) { |a| == |b| && forall i :: 0 <= i < |a| ==> Lower(a[i]) == Lower(b[i]) }

  predicate IsUnknown(status: string) { EqIgnoreCase(status, "unknown") }

  /** What precedes the last colon, or everything. */
  function Host(addr: string): string {
    if addr == [] then []
    else if addr[|addr| - 1] == ':' then addr[..|addr| - 1]
    else
      var h := Host(addr[..|addr| - 1]);
      if ':' in addr then h else addr
  }

  predicate Unroutable(addr: string) { Host(addr) in ["0.0.0.0", "127.0.0.1", "::", "[::]"] }

  /** The host is what stands before the last colon. */
  lemma {:induction false} HostIs(addr: string)
    ensures ':' !in addr ==> Host(addr) == addr
    ensures ':' in addr ==> exists port: string :: ':' !in port && addr == Host(addr) + ":" + port
  {
    if addr != [] {
      var init, c := addr[..|addr| - 1], addr[|addr| - 1];
      assert addr == init + [c];
      if c == ':' {
        var none: string := [];
        assert ':' !in none && addr == Host(addr) + ":" + none;
      } else {
        HostIs(init);
        if ':' in init {
          var port: string :| ':' !in port && init == Host(init) + ":" + port;
          var longer := port + [c];
          assert ':' !in longer && addr == Host(addr) + ":" + longer;
        }
      }
    }
  }

  lemma {:induction false} HostOf(host: string, port: string)
    requires ':' !in port
    ensures Host(host + ":" + port) == host
    decreases |port|
  {
    var addr := host + ":" + port;
    if port == [] {
      assert addr[..|addr| - 1] == host;
    } else {
      var init := port[..|port| - 1];
      assert addr[..|addr| - 1] == host + ":" + init;
      assert addr[|host|] == ':';
      assert addr[|addr| - 1] == port[|port| - 1] && port[|port| - 1] in port;
      assert ':' !in init by { assert forall c :: c in init ==> c in port; }
      HostOf(host, init);
    }
  }

  /** The address is this host, alone or with a port. */
  ghost predicate HasHost(addr: string, host: string) {
    || (':' !in addr && addr == host)
    || exists port: string :: ':' !in port && addr == host + ":" + port
  }

  lemma {:induction false} HasHostIs(addr: string, host: string)
    ensures HasHost(addr, host) <==> Host(addr) == host
  {
    hide Host;
    HostIs(addr);
    if port: string :| ':' !in port && addr == host + ":" + port {
      HostOf(host, port);
      assert addr[|host|] == ':';
    }
  }

  /** The addresses nobody else can use: the wildcard and loopback hosts, alone
      or with any port. */
  lemma {:induction false} UnroutableExactly(addr: string)
    ensures Unroutable(addr) <==>
      HasHost(addr, "0.0.0.0") || HasHost(addr, "127.0.0.1") || HasHost(addr, "::") || HasHost(addr, "[::]")
  {
    hide Host, HasHost;
    forall host ensures HasHost(addr, host) <==> Host(addr) == host { HasHostIs(addr, host); }
  }

  /** Unknown, in capitals or not. */
  lemma {:induction false} UnknownExactly(s: string)
    ensures IsUnknown(s) <==>
      && |s| == 7 && s[0] in "uU" && s[1] in "nN" && s[2] in "kK" && s[3] in "nN" && s[4] in "oO" && s[5] in "wW"
      && s[6] in "nN"
  {
  }

  /** An address others can use. */
  predicate Routable(addr: string) { addr != [] && !Unroutable(addr) }

  function CanonicalStatus(status: string, lastSeen: Option<nat>): string {
    if IsUnknown(status) && lastSeen.Some? then "up" else status
  }

  function DefaultVnodes(n: nat): seq<nat> { seq(n, i => i) }

  // ── One merge ───────────────────────────────────────────────────────

  predicate Fresher(current: Option<nat>, incoming: Option<nat>) {
    match (current, incoming)
    case (None, Some(_)) => true
    case (Some(cur), Some(newer)) => newer >= cur
    case _ => false
  }

  function Vnodes(news: News, perNode: nat): seq<nat> {
    if news.vnodes == [] then DefaultVnodes(perNode) else news.vnodes
  }

  function Merge(existing: Option<Peer>, news: News, perNode: nat): Peer {
    var status := CanonicalStatus(news.status, news.lastSeen);
    match existing
    case None => Peer(news.addr, status, news.lastSeen, Vnodes(news, perNode))
    case Some(p) =>
      var addr := if news.addr != [] && (!Unroutable(news.addr) || p.addr == []) then news.addr else p.addr;
      if Fresher(p.lastSeen, news.lastSeen)
      then
        var kept := if status != "unknown" || IsUnknown(p.status) then status else p.status;
        Peer(addr, kept, news.lastSeen, Vnodes(news, perNode))
      else p.(addr := addr)
  }

  /** Never seen comes before any time. */
  predicate NotAfter(a: Option<nat>, b: Option<nat>) { a.Some? ==> b.Some? && a.value <= b.value }

  lemma {:induction false} CanonicalKnown(status: string, lastSeen: Option<nat>)
    requires lastSeen.Some?
    ensures !IsUnknown(CanonicalStatus(status, lastSeen)) && CanonicalStatus(status, lastSeen) != "unknown"
  {
    assert EqIgnoreCase("unknown", "unknown");
    assert !IsUnknown("up");
  }

  /** What one merge never does: move time back, forget a known status, trade a
      routable address for an unroutable one. */
  lemma {:induction false} MergeKeeps(p: Peer, news: News, perNode: nat)
    ensures var q := Merge(Some(p), news, perNode);
            && NotAfter(p.lastSeen, q.lastSeen)
            && (!IsUnknown(p.status) ==> !IsUnknown(q.status))
            && (Routable(p.addr) ==> Routable(q.addr))
  {
    if Fresher(p.lastSeen, news.lastSeen) {
      CanonicalKnown(news.status, news.lastSeen);
    }
  }

  // ── Sequences of merges ─────────────────────────────────────────────

  function MergeAll(p: Option<Peer>, news: seq<News>, perNode: nat): Option<Peer> {
    if news == [] then p else Some(Merge(MergeAll(p, news[..|news| - 1], perNode), news[|news| - 1], perNode))
  }

  /** The same over every sequence of merges. */
  lemma {:induction false} MergeAllKeeps(p: Peer, news: seq<News>, perNode: nat)
    ensures MergeAll(Some(p), news, perNode).Some?
    ensures var q := MergeAll(Some(p), news, perNode).value;
            && NotAfter(p.lastSeen, q.lastSeen)
            && (!IsUnknown(p.status) ==> !IsUnknown(q.status))
            && (Routable(p.addr) ==> Routable(q.addr))
  {
    hide IsUnknown, Routable, Merge;
    if news != [] {
      var init := news[..|news| - 1];
      MergeAllKeeps(p, init, perNode);
      MergeKeeps(MergeAll(Some(p), init, perNode).value, news[|news| - 1], perNode);
    }
  }

  /** The rule for the address, over one more report. */
  lemma {:induction false} AddressStep(p: Peer, news: seq<News>, perNode: nat)
    requires news != []
    ensures MergeAll(Some(p), news, perNode).Some? && MergeAll(Some(p), news[..|news| - 1], perNode).Some?
    ensures var before, x := MergeAll(Some(p), news[..|news| - 1], perNode).value.addr, news[|news| - 1].addr;
            MergeAll(Some(p), news, perNode).value.addr
            == if Routable(x) || (x != [] && before == []) then x else before
  {
    hide Unroutable, Fresher, CanonicalStatus, Vnodes;
    if |news| > 1 { AddressStep(p, news[..|news| - 1], perNode); }
  }

  /** Of the routable addresses reported, the last one remains. */
  lemma {:induction false} LastRoutable(p: Peer, news: seq<News>, i: nat, perNode: nat)
    requires i < |news| && Routable(news[i].addr) && forall j :: i < j < |news| ==> !Routable(news[j].addr)
    ensures MergeAll(Some(p), news, perNode).Some? && MergeAll(Some(p), news, perNode).value.addr == news[i].addr
  {
    AddressStep(p, news, perNode);
    hide MergeAll, Unroutable;
    if i < |news| - 1 { LastRoutable(p, news[..|news| - 1], i, perNode); }
  }

  /** Without a routable report a known address stays, and an unknown one becomes
      the first reported, if any is. */
  lemma {:induction false} FirstAddress(p: Peer, news: seq<News>, i: nat, perNode: nat)
    requires forall j :: 0 <= j < |news| ==> !Routable(news[j].addr)
    requires i <= |news| && (forall j :: 0 <= j < i ==> news[j].addr == []) && (i < |news| ==> news[i].addr != [])
    ensures MergeAll(Some(p), news, perNode).Some?
    ensures MergeAll(Some(p), news, perNode).value.addr
      == if p.addr != [] then p.addr else if i < |news| then news[i].addr else []
  {
    if news != [] {
      AddressStep(p, news, perNode);
      hide MergeAll, Unroutable;
      var init := news[..|news| - 1];
      FirstAddress(p, init, if i < |news| then i else i - 1, perNode);
    }
  }

  /** The report that counts: the latest by its own clock, and among equals the
      one that came last. */
  function Latest(news: seq<News>): (r: Option<News>)
    ensures r.Some? ==> r.value.lastSeen.Some?
  {
    if news == [] then None
    else
      var best, x := Latest(news[..|news| - 1]), news[|news| - 1];
      if x.lastSeen.None? then best
      else if best.None? || x.lastSeen.value >= best.value.lastSeen.value then Some(x)
      else best
  }

  lemma {:induction false} LatestIs(news: seq<News>)
    ensures Latest(news).Some? ==> Latest(news).value in news
    ensures forall x :: x in news && x.lastSeen.Some? ==>
      Latest(news).Some? && x.lastSeen.value <= Latest(news).value.lastSeen.value
  {
    if news != [] {
      LatestIs(news[..|news| - 1]);
      assert news == news[..|news| - 1] + [news[|news| - 1]];
    }
  }

  /** The peer's status, time and virtual nodes are the report's. */
  predicate Shows(p: Peer, x: News, perNode: nat) {
    p.status == CanonicalStatus(x.status, x.lastSeen) && p.lastSeen == x.lastSeen && p.vnodes == Vnodes(x, perNode)
  }

  function Seen(p: Option<Peer>): Option<nat> { if p.Some? then p.value.lastSeen else None }

  /** The peer as it was, but for its address. */
  predicate SameBut(p: Peer, q: Peer) { p.status == q.status && p.lastSeen == q.lastSeen && p.vnodes == q.vnodes }

  /** Reports without a time, or older than what is known, change no more than
      the address. */
  lemma {:induction false} StaleNews(p: Option<Peer>, news: seq<News>, perNode: nat)
    requires Latest(news).None? || !Fresher(Seen(p), Latest(news).value.lastSeen)
    ensures Seen(MergeAll(p, news, perNode)) == Seen(p)
    ensures p.Some? ==> MergeAll(p, news, perNode).Some? && SameBut(MergeAll(p, news, perNode).value, p.value)
  {
    if news != [] {
      StaleNews(p, news[..|news| - 1], perNode);
    }
  }

  /** A peer ends up as its latest report says, unless it was already known to
      be later. */
  lemma {:induction false} LatestWins(p: Option<Peer>, news: seq<News>, perNode: nat)
    requires Latest(news).Some? && Fresher(Seen(p), Latest(news).value.lastSeen)
    ensures MergeAll(p, news, perNode).Some? && Shows(MergeAll(p, news, perNode).value, Latest(news).value, perNode)
    ensures var q, x := MergeAll(p, news, perNode).value, Latest(news).value;
            && q.status == (if IsUnknown(x.status) then "up" else x.status)
            && (x.vnodes != [] ==> q.vnodes == x.vnodes)
            && (x.vnodes == [] ==> |q.vnodes| == perNode && forall i :: 0 <= i < perNode ==> q.vnodes[i] == i)
  {
    var init, x := news[..|news| - 1], news[|news| - 1];
    if x.lastSeen.Some? { CanonicalKnown(x.status, x.lastSeen); }
    if Latest(init).Some? && Fresher(Seen(p), Latest(init).value.lastSeen) {
      LatestWins(p, init, perNode);
    } else {
      StaleNews(p, init, perNode);
    }
  }

  ghost predicate DistinctTimes(news: seq<News>) {
    forall i, j :: 0 <= i < j < |news| && news[i].lastSeen.Some? && news[j].lastSeen.Some? ==>
      news[i].lastSeen != news[j].lastSeen
  }

  lemma {:induction false} SameLatest(a: seq<News>, b: seq<News>)
    requires multiset(a) == multiset(b) && DistinctTimes(a)
    ensures Latest(a) == Latest(b)
  {
    hide Latest;
    LatestIs(a);
    LatestIs(b);
    assert forall x :: x in a <==> x in multiset(a);
    assert forall x :: x in b <==> x in multiset(b);
    assert Latest(a).Some? <==> Latest(b).Some?;
    if Latest(a).Some? {
      var v, w := Latest(a).value, Latest(b).value;
      assert v in b && w in a;
      var i :| 0 <= i < |a| && a[i] == v;
      var j :| 0 <= j < |a| && a[j] == w;
    }
  }

  /** With distinct times the order of arrival does not matter, for a peer known
      before or reported with a time at least once. */
  lemma {:induction false} OrderFree(p: Option<Peer>, a: seq<News>, b: seq<News>, perNode: nat)
    requires multiset(a) == multiset(b) && DistinctTimes(a)
    requires p.Some? || exists x :: x in a && x.lastSeen.Some?
    ensures MergeAll(p, a, perNode).Some? && MergeAll(p, b, perNode).Some?
    ensures SameBut(MergeAll(p, a, perNode).value, MergeAll(p, b, perNode).value)
  {
    hide Latest, MergeAll;
    SameLatest(a, b);
    LatestIs(a);
    if Latest(a).Some? && Fresher(Seen(p), Latest(a).value.lastSeen) {
      LatestWins(p, a, perNode);
      LatestWins(p, b, perNode);
    } else {
      StaleNews(p, a, perNode);
      StaleNews(p, b, perNode);
    }
  }

  /** The two reports would leave the same entry. */
  predicate SaysSame(x: News, y: News, perNode: nat) {
    CanonicalStatus(x.status, x.lastSeen) == CanonicalStatus(y.status, y.lastSeen)
      && Vnodes(x, perNode) == Vnodes(y, perNode)
  }

  /** All reports with this time say the same. */
  ghost predicate AgreeAt(news: seq<News>, time: Option<nat>, perNode: nat) {
    forall i, j :: 0 <= i < |news| && 0 <= j < |news| && news[i].lastSeen == time && news[j].lastSeen == time ==>
      SaysSame(news[i], news[j], perNode)
  }

  /** The latest reports are older than what is known, or agree. Without timed
      reports a known peer is left alone, and an unknown one taken from the first
      report, so that then all must agree. */
  ghost predicate Unambiguous(p: Option<Peer>, news: seq<News>, perNode: nat) {
    match Latest(news)
    case Some(w) => !Fresher(Seen(p), w.lastSeen) || AgreeAt(news, w.lastSeen, perNode)
    case None => p.Some? || AgreeAt(news, None, perNode)
  }

  predicate SameEntry(p: Option<Peer>, q: Option<Peer>) {
    (p.None? && q.None?) || (p.Some? && q.Some? && SameBut(p.value, q.value))
  }

  ghost predicate Permuted(a: seq<News>, b: seq<News>) { multiset(a) == multiset(b) }

  /** Every order of arrival leaves the same status, time and virtual nodes. */
  ghost predicate OrderIrrelevant(p: Option<Peer>, a: seq<News>, perNode: nat) {
    forall b :: Permuted(a, b) ==> SameEntry(MergeAll(p, a, perNode), MergeAll(p, b, perNode))
  }

  lemma {:induction false} SameMembers(a: seq<News>, b: seq<News>)
    requires Permuted(a, b)
    ensures (forall x :: x in a <==> x in b) && |a| == |b|
  {
    assert forall x :: x in a <==> x in multiset(a);
    assert forall x :: x in b <==> x in multiset(b);
    assert |multiset(a)| == |a| && |multiset(b)| == |b|;
  }

  lemma {:induction false} SameLatestTime(a: seq<News>, b: seq<News>)
    requires Permuted(a, b)
    ensures Latest(a).Some? <==> Latest(b).Some?
    ensures Latest(a).Some? ==> Latest(a).value.lastSeen == Latest(b).value.lastSeen
    ensures Latest(a).Some? ==> Latest(a).value in a && Latest(b).value in a
  {
    hide Latest;
    SameMembers(a, b);
    LatestIs(a);
    LatestIs(b);
  }

  lemma {:induction false} AgreeIn(news: seq<News>, time: Option<nat>, perNode: nat, x: News, y: News)
    requires AgreeAt(news, time, perNode) && x in news && y in news && x.lastSeen == time && y.lastSeen == time
    ensures SaysSame(x, y, perNode)
  {
    var i :| 0 <= i < |news| && news[i] == x;
    var j :| 0 <= j < |news| && news[j] == y;
  }

  lemma {:induction false} AllUntimed(news: seq<News>, i: nat)
    requires Latest(news).None? && i < |news|
    ensures news[i].lastSeen.None?
  {
    hide Latest;
    LatestIs(news);
    assert news[i] in news;
  }

  /** Untimed reports leave an unknown peer as the first of them says. */
  lemma {:induction false} FirstStays(news: seq<News>, perNode: nat)
    requires news != [] && Latest(news).None?
    ensures MergeAll(None, news, perNode).Some? && Shows(MergeAll(None, news, perNode).value, news[0], perNode)
  {
    AllUntimed(news, 0);
    AllUntimed(news, |news| - 1);
    var init := news[..|news| - 1];
    if init != [] {
      FirstStays(init, perNode);
    }
  }

  lemma {:induction false} UnambiguousIsEnough(p: Option<Peer>, a: seq<News>, b: seq<News>, perNode: nat)
    requires Unambiguous(p, a, perNode) && Permuted(a, b)
    ensures SameEntry(MergeAll(p, a, perNode), MergeAll(p, b, perNode))
  {
    hide Latest, MergeAll, AgreeAt, CanonicalStatus, Vnodes;
    SameLatestTime(a, b);
    SameMembers(a, b);
    if Latest(a).Some? && Fresher(Seen(p), Latest(a).value.lastSeen) {
      LatestWins(p, a, perNode);
      LatestWins(p, b, perNode);
      AgreeIn(a, Latest(a).value.lastSeen, perNode, Latest(a).value, Latest(b).value);
    } else {
      StaleNews(p, a, perNode);
      StaleNews(p, b, perNode);
      if p.None? {
        UntimedAgree(a, b, perNode);
      }
    }
  }

  lemma {:induction false} UntimedAgree(a: seq<News>, b: seq<News>, perNode: nat)
    requires Permuted(a, b) && Latest(a).None? && Latest(b).None? && AgreeAt(a, None, perNode)
    ensures SameEntry(MergeAll(None, a, perNode), MergeAll(None, b, perNode))
  {
    hide Latest, AgreeAt, CanonicalStatus, Vnodes, Merge;
    SameMembers(a, b);
    if a != [] {
      FirstStays(a, perNode);
      FirstStays(b, perNode);
      AllUntimed(a, 0);
      AllUntimed(b, 0);
      AgreeIn(a, None, perNode, a[0], b[0]);
    }
  }

  function MoveLast(a: seq<News>, i: nat): seq<News>
    requires i < |a|
  {
    a[..i] + a[i + 1..] + [a[i]]
  }

  function MoveFirst(a: seq<News>, i: nat): seq<News>
    requires i < |a|
  {
    [a[i]] + (a[..i] + a[i + 1..])
  }

  lemma {:induction false} MovesPermute(a: seq<News>, i: nat)
    requires i < |a|
    ensures Permuted(a, MoveLast(a, i)) && Permuted(a, MoveFirst(a, i))
  {
    assert a == a[..i] + [a[i]] + a[i + 1..];
  }

  /** A report at the latest time wins if it comes last. */
  lemma {:induction false} LastWins(p: Option<Peer>, a: seq<News>, i: nat, perNode: nat)
    requires i < |a| && Latest(a).Some? && a[i].lastSeen == Latest(a).value.lastSeen && Fresher(Seen(p), a[i].lastSeen)
    ensures var r := MergeAll(p, MoveLast(a, i), perNode); r.Some? && Shows(r.value, a[i], perNode)
  {
    hide MergeAll;
    var b, rest := MoveLast(a, i), a[..i] + a[i + 1..];
    assert b[..|b| - 1] == rest;
    LatestIs(a);
    LatestIs(rest);
    assert forall x :: x in rest ==> x in a;
    assert Latest(b) == Some(a[i]);
    hide Latest;
    LatestWins(p, b, perNode);
  }

  lemma {:induction false} FirstWins(a: seq<News>, i: nat, perNode: nat)
    requires i < |a| && Latest(a).None?
    ensures var r := MergeAll(None, MoveFirst(a, i), perNode); r.Some? && Shows(r.value, a[i], perNode)
  {
    hide MergeAll, Latest;
    MovesPermute(a, i);
    SameLatestTime(a, MoveFirst(a, i));
    FirstStays(MoveFirst(a, i), perNode);
  }

  /** Two disagreeing reports that may each win show in some order. */
  lemma {:induction false} AmbiguityShows(p: Option<Peer>, a: seq<News>, perNode: nat)
    requires !Unambiguous(p, a, perNode)
    ensures !OrderIrrelevant(p, a, perNode)
  {
    hide Latest, MergeAll, CanonicalStatus, Vnodes, MoveLast, MoveFirst, Permuted;
    var time := if Latest(a).Some? then Latest(a).value.lastSeen else None;
    var i, j :| 0 <= i < |a| && 0 <= j < |a| && a[i].lastSeen == time && a[j].lastSeen == time
      && !SaysSame(a[i], a[j], perNode);
    MovesPermute(a, i);
    MovesPermute(a, j);
    var b, c: seq<News>;
    if Latest(a).Some? {
      b, c := MoveLast(a, i), MoveLast(a, j);
      LastWins(p, a, i, perNode);
      LastWins(p, a, j, perNode);
    } else {
      b, c := MoveFirst(a, i), MoveFirst(a, j);
      FirstWins(a, i, perNode);
      FirstWins(a, j, perNode);
    }
    assert !SameEntry(MergeAll(p, b, perNode), MergeAll(p, c, perNode));
  }

  /** For every peer and every collection of reports, the order of arrival does
      not matter exactly when the reports that can win agree. */
  lemma {:induction false} OrderIrrelevantExactly(p: Option<Peer>, a: seq<News>, perNode: nat)
    ensures OrderIrrelevant(p, a, perNode) <==> Unambiguous(p, a, perNode)
  {
    hide Unambiguous, MergeAll, SameEntry;
    if Unambiguous(p, a, perNode) {
      forall b | Permuted(a, b) ensures SameEntry(MergeAll(p, a, perNode), MergeAll(p, b, perNode)) {
        UnambiguousIsEnough(p, a, b, perNode);
      }
    } else {
      AmbiguityShows(p, a, perNode);
    }
  }

  // ── The peer table ──────────────────────────────────────────────────

  datatype Update = Update(id: string, news: News)

  function Get(peers: map<string, Peer>, id: string): Option<Peer> { if id in peers then Some(peers[id]) else None }

  function Apply(peers: map<string, Peer>, ups: seq<Update>, perNode: nat): map<string, Peer> {
    if ups == [] then peers
    else
      var before, u := Apply(peers, ups[..|ups| - 1], perNode), ups[|ups| - 1];
      before[u.id := Merge(Get(before, u.id), u.news, perNode)]
  }

  /** The reports about one node. */
  function About(ups: seq<Update>, id: string): seq<News> {
    if ups == [] then []
    else
      var before, u := About(ups[..|ups| - 1], id), ups[|ups| - 1];
      if u.id == id then before + [u.news] else before
  }

  /** Each peer's entry is the merge of the reports about it, in order. */
  lemma {:induction false} PeersIndependent(peers: map<string, Peer>, ups: seq<Update>, id: string, perNode: nat)
    ensures Get(Apply(peers, ups, perNode), id) == MergeAll(Get(peers, id), About(ups, id), perNode)
  {
    hide Merge;
    if ups != [] {
      var init, u := ups[..|ups| - 1], ups[|ups| - 1];
      PeersIndependent(peers, init, id, perNode);
      if u.id == id {
        var before := About(init, id);
        assert (before + [u.news])[..|before|] == before;
      }
    }
  }

  datatype Hello = Hello(status: Option<string>, lastSeen: Option<nat>, vnodes: seq<nat>, membership: seq<Update>)

  /** What one gossip message reports: on its sender, then on everyone it lists
      but the receiver. */
  function Reports(local: string, peer: string, hello: Hello, observed: Option<nat>): seq<Update> {
    [Update(peer, News("", if hello.status.Some? then hello.status.value else "up",
                       if hello.lastSeen.Some? then hello.lastSeen else observed, hello.vnodes))]
    + Others(local, hello.membership)
  }

  function Others(local: string, members: seq<Update>): (r: seq<Update>)
    ensures forall i :: 0 <= i < |r| ==> r[i].id != local
  {
    if members == [] then []
    else
      var before, u := Others(local, members[..|members| - 1]), members[|members| - 1];
      if u.id == local then before else before + [u]
  }

  /** Leaving the local node out keeps every other's reports, in order. */
  lemma {:induction false} OthersAbout(local: string, members: seq<Update>, id: string)
    ensures About(Others(local, members), id) == if id == local then [] else About(members, id)
  {
    if members != [] {
      var init, u := members[..|members| - 1], members[|members| - 1];
      OthersAbout(local, init, id);
      if u.id != local {
        var before := Others(local, init);
        assert (before + [u])[..|before|] == before;
      }
    }
  }

  lemma {:induction false} AboutCons(u: Update, ups: seq<Update>, id: string)
    ensures About([u] + ups, id) == (if u.id == id then [u.news] else []) + About(ups, id)
  {
    if ups == [] {
      assert [u] + ups == [u] && [u][..0] == [];
      assert About([], id) == [];
    } else {
      var init := ups[..|ups| - 1];
      assert ([u] + ups)[..|ups|] == [u] + init;
      AboutCons(u, init, id);
    }
  }

  /** What one message does to each peer: its sender's entry merges the sender's
      own report, without an address, and every entry but the local node's then
      merges what is listed about it, in order. */
  lemma {:induction false} MessageMerges(
      peers: map<string, Peer>, local: string, peer: string, hello: Hello, observed: Option<nat>, id: string,
      perNode: nat)
    ensures var own := News("", if hello.status.Some? then hello.status.value else "up",
                            if hello.lastSeen.Some? then hello.lastSeen else observed, hello.vnodes);
            Get(Apply(peers, Reports(local, peer, hello, observed), perNode), id)
            == MergeAll(Get(peers, id),
                        (if id == peer then [own] else []) + (if id == local then [] else About(hello.membership, id)),
                        perNode)
  {
    hide Apply, MergeAll, Others, About;
    var ups := Reports(local, peer, hello, observed);
    PeersIndependent(peers, ups, id, perNode);
    AboutCons(ups[0], Others(local, hello.membership), id);
    OthersAbout(local, hello.membership, id);
  }

  class Coordinator {
    const localId: string
    const perNode: nat
    var peers: map<string, Peer>

    constructor (localId: string, perNode: nat, peers: map<string, Peer>)
      ensures this.localId == localId && this.perNode == perNode && this.peers == peers
    {
      this.localId := localId;
      this.perNode := perNode;
      this.peers := peers;
    }

    method MergePeerRuntime(id: string, news: News)
      modifies this
      ensures peers == old(peers)[id := Merge(Get(old(peers), id), news, perNode)]
    {
      var status := CanonicalStatus(news.status, news.lastSeen);
      var vnodes := if news.vnodes == [] then DefaultVnodes(perNode) else news.vnodes;
      if id in peers {
        var p := peers[id];
        if news.addr != [] && (!Unroutable(news.addr) || p.addr == []) {
          p := p.(addr := news.addr);
        }
        if Fresher(p.lastSeen, news.lastSeen) {
          if status != "unknown" || IsUnknown(p.status) {
            p := p.(status := status);
          }
          p := p.(lastSeen := news.lastSeen, vnodes := vnodes);
        }
        peers := peers[id := p];
      } else {
        peers := peers[id := Peer(news.addr, status, news.lastSeen, vnodes)];
      }
    }

    /** Merges a gossip message. */
    method MergeGossipFromPeer(peer: string, hello: Hello, observed: Option<nat>)
      modifies this
      ensures peers == Apply(old(peers), Reports(localId, peer, hello, observed), perNode)
    {
      hide Merge, Others;
      var first := News("", if hello.status.Some? then hello.status.value else "up",
                        if hello.lastSeen.Some? then hello.lastSeen else observed, hello.vnodes);
      MergePeerRuntime(peer, first);
      ghost var done := [Update(peer, first)];
      ApplyOne(old(peers), [], Update(peer, first), perNode);
      assert [] + [Update(peer, first)] == done;
      NoOthers(localId);
      var i := 0;
      while i < |hello.membership|
        invariant i <= |hello.membership|
        invariant done == [Update(peer, first)] + Others(localId, hello.membership[..i])
        invariant peers == Apply(old(peers), done, perNode)
      {
        var u := hello.membership[i];
        OthersStep(localId, hello.membership, i);
        if u.id != localId {
          ApplyOne(old(peers), done, u, perNode);
          MergePeerRuntime(u.id, u.news);
          Assoc([Update(peer, first)], Others(localId, hello.membership[..i]), [u]);
          done := done + [u];
        }
        i := i + 1;
      }
      assert hello.membership[..i] == hello.membership;
    }
  }

  lemma {:induction false} ApplyOne(peers: map<string, Peer>, ups: seq<Update>, u: Update, perNode: nat)
    ensures var before := Apply(peers, ups, perNode);
            Apply(peers, ups + [u], perNode) == before[u.id := Merge(Get(before, u.id), u.news, perNode)]
    ensures Apply(peers, [], perNode) == peers
  {
    assert (ups + [u])[..|ups|] == ups;
  }

  lemma {:induction false} NoOthers(local: string)
    ensures Others(local, []) == []
  {
  }

  lemma {:induction false} OthersStep(local: string, members: seq<Update>, i: nat)
    requires i < |members|
    ensures Others(local, members[..i + 1])
      == if members[i].id == local then Others(local, members[..i]) else Others(local, members[..i]) + [members[i]]
  {
    assert members[..i + 1][..i] == members[..i];
  }
}
