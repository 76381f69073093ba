/** When records can be lost: the runs that lose one, and exactly which steps
    make a loss possible. */
module ReplicationGaps {
  import opened Prelude
  import opened Replication

  // ── Two runs that lose a record ─────────────────────────────────────

  const FIRST := Rec(1, 1)
  const SECOND := Rec(1, 2)
  const OTHER := Rec(2, 1)

  /** What the counterexamples track about origin 1. */
  ghost predicate At(s: Sys, mem: nat, saved: nat, inner: seq<Rec>) {
    && s.log == [FIRST, SECOND, OTHER] && HighWater(s.mem, 1) == mem && HighWater(s.saved, 1) == saved
      && Inner(s, 1) == inner
  }

  ghost predicate LinkAt(s: Sys, l: Link) { 1 in s.links && s.links[1] == l }

  const WRITTEN := [Append(FIRST), Append(SECOND), Append(OTHER)]
  const REFUSED := [Connect(1), Ship(1), Take(1)]
  const RECONNECTED := [Connect(1), Ship(1), Ship(1)]
  const SKIPPED := [Take(1), SendAck(1), RecvAck(1)] + [Take(1), InnerOk(1)]

  lemma {:induction false} Refused(s: Sys)
    requires At(s, 0, 0, []) && 1 !in s.links
    ensures At(Run(s, REFUSED), 1, 0, []) && LinkAt(Run(s, REFUSED), Link(0, 1, [], 1, Applying(FIRST), 0, [], 0))
  {
    Three(s, Connect(1), Ship(1), Take(1));
    var s1 := Do(s, Connect(1));
    assert At(s1, 0, 0, []) && LinkAt(s1, NewLink(0));
    var s2 := Do(s1, Ship(1));
    assert At(s2, 0, 0, []) && LinkAt(s2, Link(0, 1, [FIRST], 0, Idle, 0, [], 0));
  }

  lemma {:induction false} Reconnected(s: Sys, mem: nat, saved: nat)
    requires At(s, mem, saved, []) && 1 !in s.links && saved <= 1
    ensures && At(Run(s, RECONNECTED), mem, saved, [])
            && LinkAt(Run(s, RECONNECTED), Link(saved, 2, [FIRST, SECOND], 0, Idle, 0, [], 0))
  {
    Three(s, Connect(1), Ship(1), Ship(1));
    var s1 := Do(s, Connect(1));
    assert At(s1, mem, saved, []) && LinkAt(s1, NewLink(saved));
    var s2 := Do(s1, Ship(1));
    assert At(s2, mem, saved, []) && LinkAt(s2, Link(saved, 1, [FIRST], 0, Idle, 0, [], 0));
  }

  /** The record below the watermark is acknowledged to the leader, and the next
      one applied. */
  lemma {:induction false} Skipped(s: Sys, saved: nat)
    requires At(s, 1, saved, []) && LinkAt(s, Link(saved, 2, [FIRST, SECOND], 0, Idle, 0, [], 0))
    ensures At(Run(s, SKIPPED), 2, saved, [SECOND])
    ensures LinkAt(Run(s, SKIPPED), Link(saved, 2, [], 2, Saving(SECOND), 1, [], 1))
  {
    var told, took := [Take(1), SendAck(1), RecvAck(1)], [Take(1), InnerOk(1)];
    RunSplit(s, told, took);
    Three(s, Take(1), SendAck(1), RecvAck(1));
    var s1 := Do(s, Take(1));
    assert At(s1, 1, saved, []) && LinkAt(s1, Link(saved, 2, [SECOND], 1, Idle, 1, [], 0));
    var s2 := Do(s1, SendAck(1));
    assert At(s2, 1, saved, []) && LinkAt(s2, Link(saved, 2, [SECOND], 1, Idle, 1, [1], 0));
    var s3 := Run(s, told);
    assert At(s3, 1, saved, []) && LinkAt(s3, Link(saved, 2, [SECOND], 1, Idle, 1, [], 1));
    Two(s3, Take(1), InnerOk(1));
    var s4 := Do(s3, Take(1));
    assert At(s4, 2, saved, []) && LinkAt(s4, Link(saved, 2, [], 2, Applying(SECOND), 1, [], 1));
  }

  lemma {:induction false} Written()
    ensures var s := Run(INIT, WRITTEN); At(s, 0, 0, []) && s.links == map[] && s.mem == map[] && s.saved == map[]
  {
    Three(INIT, Append(FIRST), Append(SECOND), Append(OTHER));
  }

  /** A gap at origin 1. */
  lemma {:induction false} SecondAlone(s: Sys)
    requires s.log == [FIRST, SECOND, OTHER] && Inner(s, 1) == [SECOND]
    ensures !(FirstTimes(Inner(s, 1)) <= Of(s.log, 1))
  {
    assert [SECOND][..0] == [] && Top([]) == 0;
    assert FirstTimes([SECOND]) == [SECOND];
    assert s.log == [] + [FIRST] + [SECOND] + [OTHER];
    OfAppend([], FIRST, 1);
    OfAppend([] + [FIRST], SECOND, 1);
    OfAppend([] + [FIRST] + [SECOND], OTHER, 1);
    assert Of(s.log, 1) == [FIRST, SECOND];
  }

  lemma {:induction false} Dropped(s: Sys)
    requires At(s, 1, 0, []) && 1 in s.links
    ensures At(Run(s, [Drop(1)]), 1, 0, []) && 1 !in Run(s, [Drop(1)]).links
  {
    One(s, Drop(1));
  }

  const WITHOUT_RELOAD := WRITTEN + REFUSED + [Drop(1)] + RECONNECTED + SKIPPED

  /** Reconnecting after a refused record without reloading the applied set
      leaves a gap, and the leader is told that the missing record was applied. */
  lemma {:induction false} GapWithoutReload()
    ensures var s := Run(INIT, WITHOUT_RELOAD);
            && !(FirstTimes(Inner(s, 1)) <= Of(s.log, 1))
            && 1 in s.links && s.links[1].peer >= FIRST.hlc && FIRST !in Inner(s, 1)
  {
    hide Run, Do, Of, FirstTimes;
    RunSplit(INIT, WRITTEN + REFUSED + [Drop(1)] + RECONNECTED, SKIPPED);
    RunSplit(INIT, WRITTEN + REFUSED + [Drop(1)], RECONNECTED);
    RunSplit(INIT, WRITTEN + REFUSED, [Drop(1)]);
    RunSplit(INIT, WRITTEN, REFUSED);
    Written();
    var a := Run(INIT, WRITTEN);
    Refused(a);
    var b := Run(a, REFUSED);
    Dropped(b);
    var c := Run(b, [Drop(1)]);
    Reconnected(c, 1, 0);
    Skipped(Run(c, RECONNECTED), 0);
    SecondAlone(Run(INIT, WITHOUT_RELOAD));
  }

  const OTHER_READS := [Connect(2), Ship(2), Ship(2)]
  const OTHER_APPLIES := [Ship(2), Take(2), InnerOk(2)]
  const OTHER_SAVES := [SaveOk(2), Restart]

  lemma {:induction false} OtherReads(s: Sys)
    requires At(s, 1, 0, []) && 2 !in s.links && HighWater(s.mem, 2) == 0 && HighWater(s.saved, 2) == 0
    ensures var t := Run(s, OTHER_READS);
            At(t, 1, 0, []) && 2 in t.links && t.links[2] == Link(0, 2, [], 0, Idle, 0, [], 0)
              && HighWater(t.mem, 2) == 0
  {
    Three(s, Connect(2), Ship(2), Ship(2));
    var s1 := Do(s, Connect(2));
    assert At(s1, 1, 0, []) && 2 in s1.links && s1.links[2] == NewLink(0);
    var s2 := Do(s1, Ship(2));
    assert At(s2, 1, 0, []) && 2 in s2.links && s2.links[2] == Link(0, 1, [], 0, Idle, 0, [], 0);
  }

  lemma {:induction false} OtherApplies(s: Sys)
    requires && At(s, 1, 0, []) && 2 in s.links && s.links[2] == Link(0, 2, [], 0, Idle, 0, [], 0)
             && HighWater(s.mem, 2) == 0
    ensures var t := Run(s, OTHER_APPLIES); At(t, 1, 0, []) && 2 in t.links && t.links[2].phase == Saving(OTHER)
  {
    Three(s, Ship(2), Take(2), InnerOk(2));
    var s1 := Do(s, Ship(2));
    assert At(s1, 1, 0, []) && 2 in s1.links && s1.links[2] == Link(0, 3, [OTHER], 0, Idle, 0, [], 0);
    var s2 := Do(s1, Take(2));
    assert At(s2, 1, 0, []) && 2 in s2.links && s2.links[2].phase == Applying(OTHER);
  }

  lemma {:induction false} OtherSaves(s: Sys)
    requires At(s, 1, 0, []) && 2 in s.links && s.links[2].phase == Saving(OTHER)
    ensures var t := Run(s, OTHER_SAVES); At(t, 1, 1, []) && t.links == map[]
  {
    Two(s, SaveOk(2), Restart);
  }

  const SHARED_SAVE := WRITTEN + REFUSED + OTHER_READS + OTHER_APPLIES + OTHER_SAVES + RECONNECTED + SKIPPED

  /** With a shared applied set, one origin's save can persist the watermark of
      another's record that is still being applied; a crash then leaves a gap
      although the applied set was reloaded. */
  lemma {:induction false} GapFromSharedSave()
    ensures var s := Run(INIT, SHARED_SAVE); !(FirstTimes(Inner(s, 1)) <= Of(s.log, 1))
  {
    hide Run, Do, Of, FirstTimes;
    RunSplit(INIT, WRITTEN + REFUSED + OTHER_READS + OTHER_APPLIES + OTHER_SAVES + RECONNECTED, SKIPPED);
    RunSplit(INIT, WRITTEN + REFUSED + OTHER_READS + OTHER_APPLIES + OTHER_SAVES, RECONNECTED);
    RunSplit(INIT, WRITTEN + REFUSED + OTHER_READS + OTHER_APPLIES, OTHER_SAVES);
    RunSplit(INIT, WRITTEN + REFUSED + OTHER_READS, OTHER_APPLIES);
    RunSplit(INIT, WRITTEN + REFUSED, OTHER_READS);
    RunSplit(INIT, WRITTEN, REFUSED);
    Written();
    var a := Run(INIT, WRITTEN);
    Refused(a);
    var b := Run(a, REFUSED);
    RefusedElsewhere(a);
    OtherReads(b);
    var c := Run(b, OTHER_READS);
    OtherApplies(c);
    var d := Run(c, OTHER_APPLIES);
    OtherSaves(d);
    var e := Run(d, OTHER_SAVES);
    Reconnected(e, 1, 1);
    Skipped(Run(e, RECONNECTED), 1);
    SecondAlone(Run(INIT, SHARED_SAVE));
  }

  lemma {:induction false} RefusedElsewhere(s: Sys)
    requires At(s, 0, 0, []) && s.links == map[] && s.mem == map[] && s.saved == map[]
    ensures var t := Run(s, REFUSED); 2 !in t.links && HighWater(t.mem, 2) == 0 && HighWater(t.saved, 2) == 0
  {
    Three(s, Connect(1), Ship(1), Take(1));
    var s1 := Do(s, Connect(1));
    var s2 := Do(s1, Ship(1));
    assert 2 !in s1.links && 2 !in s2.links && LinkAt(s2, Link(0, 1, [FIRST], 0, Idle, 0, [], 0));
  }

  // ── Exactly when a loss becomes possible ────────────────────────────

  /** The engine's first-time applies of the origin are no prefix of its log. */
  ghost predicate Gap(s: Sys, o: Origin) { !(FirstTimes(Inner(s, o)) <= Of(s.log, o)) }

  /** Some careful continuation leaves a gap. */
  ghost predicate LossPossible(s: Sys) {
    exists after, o :: CarefulRun(s, after) && Gap(Run(s, after), o)
  }

  function Repeat(st: Step, k: nat): seq<Step> { if k == 0 then [] else [st] + Repeat(st, k - 1) }

  lemma {:induction false} RepeatOnly(st: Step, k: nat, x: Step)
    requires x in Repeat(st, k)
    ensures x == st
  {
    if k > 0 && x != st { RepeatOnly(st, k - 1, x); }
  }

  /** Steps that are careful whatever the state. */
  predicate Harmless(st: Step) { !st.Connect? && !st.SaveOk? }

  lemma {:induction false} HarmlessIsCareful(s: Sys, steps: seq<Step>)
    requires forall st :: st in steps ==> Harmless(st)
    ensures CarefulRun(s, steps)
    decreases |steps|
  {
    hide Do;
    if steps != [] {
      assert steps[0] in steps && forall st :: st in steps[1..] ==> st in steps;
      HarmlessIsCareful(Do(s, steps[0]), steps[1..]);
    }
  }

  /** What the continuation leaves alone at origin o. */
  ghost predicate SameStore(s: Sys, t: Sys, o: Origin) {
    t.log == s.log && HighWater(t.mem, o) == HighWater(s.mem, o) && Inner(t, o) == Inner(s, o)
  }

  lemma {:induction false} RunOne(s: Sys, st: Step, k: nat)
    requires k > 0
    ensures Run(s, Repeat(st, k)) == Run(Do(s, st), Repeat(st, k - 1))
  {
    assert Repeat(st, k)[1..] == Repeat(st, k - 1);
  }

  /** The leader ships the rest of its log. */
  lemma {:induction false} ShipRest(s: Sys, o: Origin, k: nat)
    requires Increasing(Of(s.log, o)) && o in s.links && s.links[o].pos + k == |s.log| && s.links[o].taken == 0
    requires s.links[o].phase.Idle?
    requires var l, r := s.links[o], Of(s.log, o);
      LinkFits(l, r, Of(s.log[..l.pos], o), |r|, l.start, 0, Cut(r, l.start))
    ensures var t, r := Run(s, Repeat(Ship(o), k)), Of(s.log, o);
            && SameStore(s, t, o) && o in t.links && t.links[o].phase.Idle? && t.links[o].acks == s.links[o].acks
            && t.links[o].chan == Rest(r, Cut(r, s.links[o].start))
    decreases k
  {
    hide Of, Cut, Increasing, LinkFits;
    var l, r := s.links[o], Of(s.log, o);
    if k == 0 {
      assert s.log[..l.pos] == s.log;
      FitsChannel(l, r, r, |r|, l.start, 0, Cut(r, l.start));
    } else {
      var x, seen := s.log[l.pos], Of(s.log[..l.pos], o);
      assert s.log[..l.pos + 1] == s.log[..l.pos] + [x];
      OfAppend(s.log[..l.pos], x, o);
      OfPrefix(s.log, l.pos + 1, o);
      ShipFits(l, x, o, r, seen, |r|, l.start, 0);
      RunOne(s, Ship(o), k);
      ShipRest(Do(s, Ship(o)), o, k - 1);
    }
  }

  lemma {:induction false} FitsChannel(l: Link, r: seq<Rec>, seen: seq<Rec>, n: nat, top: nat, mem: nat, next: nat)
    requires LinkFits(l, r, seen, n, top, mem, next)
    ensures l.chan == Rest(seen, next)
  {
  }

  /** Records at or below the watermark are read and dropped. */
  lemma {:induction false} TakeRest(s: Sys, o: Origin, j: nat)
    requires o in s.links && s.links[o].phase.Idle? && j <= |s.links[o].chan|
    requires forall i :: 0 <= i < j ==> s.links[o].chan[i].origin == o && s.links[o].chan[i].hlc <= HighWater(s.mem, o)
    ensures var t := Run(s, Repeat(Take(o), j));
            && SameStore(s, t, o) && o in t.links && t.links[o].phase.Idle? && t.links[o].acks == s.links[o].acks
            && t.links[o].chan == s.links[o].chan[j..] && t.links[o].applied >= s.links[o].applied
            && (j > 0 ==> t.links[o].applied >= s.links[o].chan[j - 1].hlc)
    decreases j
  {
    if j > 0 {
      var t := Do(s, Take(o));
      assert t.links[o].chan == s.links[o].chan[1..];
      assert SameStore(s, t, o);
      RunOne(s, Take(o), j);
      hide Do;
      TakeRest(t, o, j - 1);
    }
  }

  /** The next record above the watermark reaches the engine and is applied. */
  lemma {:induction false} ApplyNext(s: Sys, o: Origin)
    requires o in s.links && s.links[o].phase.Idle? && s.links[o].chan != []
    requires s.links[o].chan[0].origin == o && s.links[o].chan[0].hlc > HighWater(s.mem, o)
    ensures var t := Run(s, [Take(o), InnerOk(o)]); t.log == s.log && Inner(t, o) == Inner(s, o) + [s.links[o].chan[0]]
  {
    Two(s, Take(o), InnerOk(o));
  }

  function TopHlc(log: seq<Rec>): nat { if log == [] then 0 else Max(TopHlc(log[..|log| - 1]), log[|log| - 1].hlc) }

  lemma {:induction false} TopHlcIs(log: seq<Rec>, i: nat)
    requires i < |log|
    ensures log[i].hlc <= TopHlc(log)
  {
    if i < |log| - 1 { TopHlcIs(log[..|log| - 1], i); }
  }

  /** A record the log can take next. */
  lemma {:induction false} FreshRecord(log: seq<Rec>, o: Origin) returns (x: Rec)
    ensures x.origin == o && Fresh(log, x)
  {
    x := Rec(o, TopHlc(log) + 1);
    forall i | 0 <= i < |log| ensures log[i].hlc < x.hlc { TopHlcIs(log, i); }
  }

  /** A task just connected while the watermark stands at record m, though only
      earlier records were applied. */
  ghost predicate Ahead(s: Sys, o: Origin, m: nat) {
    var r, h := Of(s.log, o), Inner(s, o);
    && o in s.links && s.links[o] == NewLink(s.links[o].start) && s.links[o].start <= HighWater(s.mem, o)
    && m < |r| && r[m].hlc == HighWater(s.mem, o)
    && Increasing(r) && FirstTimes(h) <= r && |FirstTimes(h)| <= m
  }

  lemma {:induction false} AheadAppend(s: Sys, o: Origin, m: nat, x: Rec)
    requires Ahead(s, o, m) && x.origin == o && Fresh(s.log, x)
    ensures Ahead(Do(s, Append(x)), o, m) && Of(Do(s, Append(x)).log, o) == Of(s.log, o) + [x]
    ensures Inner(Do(s, Append(x)), o) == Inner(s, o)
  {
    hide Of, FirstTimes, Increasing;
    OfAppend(s.log, x, o);
    StillIncreasing(s.log, x);
  }

  lemma {:induction false} AheadShip(s: Sys, o: Origin, m: nat)
    requires Ahead(s, o, m)
    ensures var t, r := Run(s, Repeat(Ship(o), |s.log|)), Of(s.log, o);
            && SameStore(s, t, o) && o in t.links && t.links[o].phase.Idle? && t.links[o].acks == []
            && Cut(r, s.links[o].start) <= m && t.links[o].chan == r[Cut(r, s.links[o].start)..]
  {
    hide Of, FirstTimes, Cut, Increasing, Run;
    var r := Of(s.log, o);
    CutIs(r, s.links[o].start);
    NoRecords(o);
    assert s.log[..0] == [];
    ShipRest(s, o, |s.log|);
  }

  /** Skipping a record: what comes after it is no longer a prefix. */
  lemma {:induction false} SkipLeavesGap(r: seq<Rec>, h: seq<Rec>, m: nat)
    requires Increasing(r) && FirstTimes(h) <= r && |FirstTimes(h)| <= m && m + 1 < |r|
    ensures !(FirstTimes(h + [r[m + 1]]) <= r)
  {
    hide FirstTimes, Top;
    BelowTop(r, h, m + 1);
    HistoryGrows(h, r[m + 1]);
    var n := |FirstTimes(h)|;
    assert r[n].hlc < r[m + 1].hlc;
  }

  /** From there a gap follows: whatever is left below the watermark is dropped
      unapplied, and a later record is applied. */
  lemma {:induction false} GapFollows(s: Sys, o: Origin, m: nat) returns (steps: seq<Step>)
    requires Ahead(s, o, m)
    ensures CarefulRun(s, steps) && Gap(Run(s, steps), o)
  {
    var x := FreshRecord(s.log, o);
    hide Of, FirstTimes, Cut, Increasing, Run, Do, CarefulRun;
    var a := Do(s, Append(x));
    AheadAppend(s, o, m, x);
    var r, ships := Of(a.log, o), Repeat(Ship(o), |a.log|);
    var b := Run(a, ships);
    AheadShip(a, o, m);
    var c := Cut(r, a.links[o].start);
    var takes := Repeat(Take(o), m + 1 - c);
    SkipBelow(a.log, o, c, m, HighWater(a.mem, o));
    TakeRest(b, o, m + 1 - c);
    var d := Run(b, takes);
    assert r[c..][m + 1 - c..] == r[m + 1..];
    ApplyNext(d, o);
    SkipLeavesGap(r, Inner(s, o), m);
    var last := [Take(o), InnerOk(o)];
    steps := [Append(x)] + ships + takes + last;
    RunSplit(s, [Append(x)] + ships + takes, last);
    RunSplit(s, [Append(x)] + ships, takes);
    RunSplit(s, [Append(x)], ships);
    One(s, Append(x));
    forall st | st in steps ensures Harmless(st) {
      if st in ships { RepeatOnly(Ship(o), |a.log|, st); } else if st in takes { RepeatOnly(Take(o), m + 1 - c, st); }
    }
    HarmlessIsCareful(s, steps);
  }

  lemma {:induction false} SkipBelow(log: seq<Rec>, o: Origin, c: nat, m: nat, mem: nat)
    requires var r := Of(log, o); Increasing(r) && c <= m && m + 1 < |r| && r[m].hlc == mem
    ensures var r := Of(log, o);
            && (forall i :: 0 <= i < m + 1 - c ==> r[c..][i].origin == o && r[c..][i].hlc <= mem)
            && r[m + 1].origin == o && r[m + 1].hlc > mem
  {
    hide Of;
    var r := Of(log, o);
    forall i | 0 <= i < |r| ensures r[i].origin == o { OfMember(log, o, i); }
  }

  /** An unsettled origin's watermark stands at a record that was not applied. */
  lemma {:induction false} UnsettledAt(s: Sys, o: Origin) returns (m: nat)
    requires OriginOK(s, o) && !Settled(s, o)
    ensures m < |Of(s.log, o)| && Of(s.log, o)[m].hlc == HighWater(s.mem, o) && |FirstTimes(Inner(s, o))| <= m
  {
    hide Of, FirstTimes, Top, LinkOK;
    var r := Of(s.log, o);
    m :| 0 <= m < |r| && r[m].hlc == HighWater(s.mem, o);
    BelowTop(r, Inner(s, o), m);
  }

  lemma {:induction false} CarefulSplit(s: Sys, a: seq<Step>, b: seq<Step>)
    requires CarefulRun(s, a) && CarefulRun(Run(s, a), b)
    ensures CarefulRun(s, a + b)
    decreases |a|
  {
    hide Do, Careful;
    if a == [] {
      assert a + b == b;
    } else {
      assert (a + b)[1..] == a[1..] + b;
      CarefulSplit(Do(s, a[0]), a[1..], b);
    }
  }

  /** After an unsafe step a careful task can be connected to an origin whose
      watermark is ahead: the one reconnected, or after a crash the one whose
      watermark was saved too early. */
  lemma {:induction false} UnsafeLeadsAhead(s: Sys, st: Step) returns (lead: seq<Step>, o: Origin, m: nat)
    requires Inv(s) && Enabled(s, st) && !Safe(s, st)
    ensures CarefulRun(Do(s, st), lead) && Ahead(Run(Do(s, st), lead), o, m)
  {
    hide Of, FirstTimes, Top, Increasing, Settled, Inv;
    var t := Do(s, st);
    if st.Connect? {
      o := st.o;
      SavedBehind(s, o);
      m := UnsettledAt(s, o);
      lead := [];
    } else {
      o :| o != st.o && !Settled(s, o);
      SavedBehind(s, o);
      m := UnsettledAt(s, o);
      lead := [Restart, Connect(o)];
      Two(t, Restart, Connect(o));
      assert lead[1..] == [Connect(o)] && [Connect(o)][1..] == [];
      assert CarefulRun(Do(t, Restart), [Connect(o)]);
    }
  }

  lemma {:induction false} SavedBehind(s: Sys, o: Origin)
    requires Inv(s)
    ensures OriginOK(s, o) && HighWater(s.saved, o) <= HighWater(s.mem, o)
    ensures Increasing(Of(s.log, o)) && FirstTimes(Inner(s, o)) <= Of(s.log, o)
  {
    assert OriginOK(s, o);
  }

  /** A safe step and whatever careful steps follow keep the invariant. */
  lemma {:induction false} SafeStays(s: Sys, st: Step, after: seq<Step>)
    requires Inv(s) && Tracked(s) && Enabled(s, st) && Safe(s, st) && CarefulRun(Do(s, st), after)
    ensures Inv(Run(Do(s, st), after))
  {
    hide OriginOK, Settled, Clear, CarefulRun, Run;
    var t := Do(s, st);
    StepKeeps(s, st);
    forall o | Clear(t, o) ensures Settled(t, o) { StaysTracked(s, st, o); }
    CarefulKeeps(t, after);
  }

  /** After a safe step every careful continuation keeps the prefix. */
  lemma {:induction false} SafeHasNoLoss(s: Sys, st: Step)
    requires Inv(s) && Tracked(s) && Enabled(s, st) && Safe(s, st)
    ensures !LossPossible(Do(s, st))
  {
    hide Inv, Tracked, CarefulRun, Run, Do, Gap;
    var t := Do(s, st);
    forall after, o | CarefulRun(t, after) ensures !Gap(Run(t, after), o) {
      SafeStays(s, st, after);
      PrefixOf(Run(t, after), o);
    }
  }

  lemma {:induction false} PrefixOf(s: Sys, o: Origin)
    requires Inv(s)
    ensures !Gap(s, o)
  {
    assert OriginOK(s, o);
  }

  /** At every point of every careful run, a step makes a loss possible exactly
      when it reconnects an origin whose watermark is ahead of what was applied,
      or saves while another origin's is. */
  lemma {:induction false} LossIffUnsafe(before: seq<Step>, st: Step)
    requires CarefulRun(INIT, before) && Enabled(Run(INIT, before), st)
    ensures LossPossible(Do(Run(INIT, before), st)) <==> !Safe(Run(INIT, before), st)
  {
    hide CarefulRun, Run, Do, OriginOK, Settled, Gap;
    CarefulFromStart(before);
    var s := Run(INIT, before);
    if Safe(s, st) {
      SafeHasNoLoss(s, st);
    } else {
      var t := Do(s, st);
      var lead, o, m := UnsafeLeadsAhead(s, st);
      var rest := GapFollows(Run(t, lead), o, m);
      CarefulSplit(t, lead, rest);
      RunSplit(t, lead, rest);
    }
  }

  lemma {:induction false} CarefulFromStart(before: seq<Step>)
    requires CarefulRun(INIT, before)
    ensures Inv(Run(INIT, before)) && Tracked(Run(INIT, before))
  {
    CarefulKeeps(INIT, before);
  }

  // ── False acknowledgements ──────────────────────────────────────────

  /** Some careful continuation has the leader take a record for applied that
      was not. */
  ghost predicate FalseAckPossible(s: Sys) {
    exists after, o, x :: CarefulRun(s, after) && FalseAck(Run(s, after), o, x)
  }

  lemma {:induction false} TopBounds(h: seq<Rec>, x: Rec)
    requires x in h
    ensures x.hlc <= Top(h)
  {
    if x != h[|h| - 1] { TopBounds(h[..|h| - 1], x); }
  }

  /** An idle task reports its watermark and the leader hears of it. */
  lemma {:induction false} Acknowledge(s: Sys, o: Origin)
    requires o in s.links && s.links[o].phase.Idle? && s.links[o].acks == []
    ensures var t := Run(s, [SendAck(o), RecvAck(o)]);
            t.log == s.log && Inner(t, o) == Inner(s, o) && o in t.links && t.links[o].peer >= s.links[o].applied
  {
    Two(s, SendAck(o), RecvAck(o));
  }

  /** From there a false acknowledgement follows: the record at the watermark is
      read, dropped as a re-delivery, and acknowledged. */
  lemma {:induction false} FalseAckFollows(s: Sys, o: Origin, m: nat) returns (steps: seq<Step>, x: Rec)
    requires Ahead(s, o, m)
    ensures CarefulRun(s, steps) && FalseAck(Run(s, steps), o, x)
  {
    hide Of, FirstTimes, Top, Cut, Increasing, Run, Do, CarefulRun;
    var r, ships := Of(s.log, o), Repeat(Ship(o), |s.log|);
    x := r[m];
    var a := Run(s, ships);
    AheadShip(s, o, m);
    var c := Cut(r, s.links[o].start);
    var takes := Repeat(Take(o), m + 1 - c);
    UpTo(s.log, o, c, m);
    TakeRest(a, o, m + 1 - c);
    var b := Run(a, takes);
    Acknowledge(b, o);
    BelowTop(r, Inner(s, o), m);
    if x in Inner(s, o) { TopBounds(Inner(s, o), x); }
    OfMember(s.log, o, m);
    var last := [SendAck(o), RecvAck(o)];
    steps := ships + takes + last;
    RunSplit(s, ships + takes, last);
    RunSplit(s, ships, takes);
    forall st | st in steps ensures Harmless(st) {
      if st in ships { RepeatOnly(Ship(o), |s.log|, st); } else if st in takes { RepeatOnly(Take(o), m + 1 - c, st); }
    }
    HarmlessIsCareful(s, steps);
  }

  lemma {:induction false} UpTo(log: seq<Rec>, o: Origin, c: nat, m: nat)
    requires var r := Of(log, o); Increasing(r) && c <= m < |r|
    ensures var r := Of(log, o);
            && (forall i :: 0 <= i < m + 1 - c ==> r[c..][i].origin == o && r[c..][i].hlc <= r[m].hlc)
            && r[c..][m - c] == r[m]
  {
    hide Of;
    var r := Of(log, o);
    forall i | 0 <= i < |r| ensures r[i].origin == o { OfMember(log, o, i); }
  }

  lemma {:induction false} SafeHasNoFalseAck(s: Sys, st: Step)
    requires Inv(s) && Tracked(s) && Enabled(s, st) && Safe(s, st)
    ensures !FalseAckPossible(Do(s, st))
  {
    hide Inv, Tracked, CarefulRun, Run, Do, FalseAck;
    var t := Do(s, st);
    forall after, o, x | CarefulRun(t, after) ensures !FalseAck(Run(t, after), o, x) {
      SafeStays(s, st, after);
      OKHasNoFalseAck(Run(t, after), o, x);
    }
  }

  /** At every point of every careful run, a step makes a false acknowledgement
      possible exactly when it is unsafe. */
  lemma {:induction false} FalseAckIffUnsafe(before: seq<Step>, st: Step)
    requires CarefulRun(INIT, before) && Enabled(Run(INIT, before), st)
    ensures FalseAckPossible(Do(Run(INIT, before), st)) <==> !Safe(Run(INIT, before), st)
  {
    hide CarefulRun, Run, Do, OriginOK, Settled, FalseAck;
    CarefulFromStart(before);
    var s := Run(INIT, before);
    if Safe(s, st) {
      SafeHasNoFalseAck(s, st);
    } else {
      var t := Do(s, st);
      var lead, o, m := UnsafeLeadsAhead(s, st);
      var rest, x := FalseAckFollows(Run(t, lead), o, m);
      CarefulSplit(t, lead, rest);
      RunSplit(t, lead, rest);
    }
  }
}
