/** What a follower task tells its leader, exactly, in every run; and that a
    task left alone after a restart applies the whole log and says so. */
module ReplicationProgress {
  import opened Prelude
  import opened Replication
  import opened ReplicationGaps

  // ── Where a link stands, careful run or not ─────────────────────────

  /** The HLC of the last of the first `next` records, if any was read. */
  function Reached(r: seq<Rec>, next: nat, taken: nat): nat {
    if taken == 0 || next == 0 || next > |r| then 0 else r[next - 1].hlc
  }

  /** A link over an origin's records r, of which the leader has read `seen`:
      its channel holds the records from `next` on, and its applied watermark
      is that of the last record it finished. */
  ghost predicate LinkFollows(l: Link, r: seq<Rec>, seen: seq<Rec>, next: nat) {
    && Marked(r, l.start) && l.chan == Rest(seen, next) && l.taken <= next && (l.taken == 0 || next <= |seen|)
    && match l.phase
       case Idle => l.applied == Reached(r, next, l.taken)
       case Applying(x) => Holds(l, r, next, x)
       case Saving(x) => Holds(l, r, next, x)
  }

  ghost predicate Holds(l: Link, r: seq<Rec>, next: nat, x: Rec) {
    0 < l.taken && 0 < next <= |r| && x == r[next - 1] && l.applied == Reached(r, next - 1, l.taken - 1)
  }

  ghost predicate Follows(s: Sys, o: Origin) {
    var r := Of(s.log, o);
    && Increasing(r) && Marked(r, HighWater(s.mem, o)) && Marked(r, HighWater(s.saved, o))
    && (o in s.links ==>
          && s.links[o].pos <= |s.log|
          && LinkFollows(s.links[o], r, Of(s.log[..s.links[o].pos], o), NextAt(s.log, o, s.links[o])))
  }

  /** A start that is some record's HLC keeps its place as the log grows. */
  lemma {:induction false} MarkedCut(r: seq<Rec>, start: nat)
    requires Marked(r, start)
    ensures Cut(r, start) < |r| || (r == [] && start == 0)
  {
    hide Cut;
    CutIs(r, start);
    assert Cut(r, start) > 0 ==> r[0].hlc < start;
  }

  lemma {:induction false} AppendFollows(s: Sys, x: Rec, o: Origin)
    requires Follows(s, o) && Fresh(s.log, x)
    ensures Follows(s.(log := s.log + [x]), o)
  {
    hide Of, Cut, Increasing, Marked;
    var r := Of(s.log, o);
    OfAppend(s.log, x, o);
    MarkedAppend(r, x, HighWater(s.mem, o));
    MarkedAppend(r, x, HighWater(s.saved, o));
    if x.origin == o { StillIncreasing(s.log, x); }
    if o in s.links {
      var l := s.links[o];
      assert (s.log + [x])[..l.pos] == s.log[..l.pos];
      OfPrefix(s.log, l.pos, o);
      MarkedAppend(r, x, l.start);
      MarkedCut(r, l.start);
      CutAppend(r, x, l.start);
    }
  }

  lemma {:induction false} ConnectFollows(s: Sys, o: Origin)
    requires Follows(s, o) && o !in s.links
    ensures Follows(Do(s, Connect(o)), o)
  {
    hide Of, Cut, Increasing, Marked;
    assert s.log[..0] == [];
    NoRecords(o);
  }

  /** The leader's next read extends the channel as its filter decides. */
  lemma {:induction false} ShipLink(l: Link, x: Rec, o: Origin, r: seq<Rec>, seen: seq<Rec>, next: nat)
    requires LinkFollows(l, r, seen, next) && next == Cut(r, l.start) + l.taken
    requires x.origin == o ==> seen + [x] <= r && Increasing(r)
    ensures LinkFollows(Shipped(l, x, o), r, if x.origin == o then seen + [x] else seen, next)
  {
    hide Cut, Increasing, Marked;
    if x.origin == o {
      CutDecides(r, seen, x, l.start);
      if |seen| >= next { assert (seen + [x])[next..] == seen[next..] + [x]; }
    }
  }

  lemma {:induction false} ShipFollows(s: Sys, o: Origin)
    requires Follows(s, o) && Enabled(s, Ship(o))
    ensures Follows(Do(s, Ship(o)), o)
  {
    hide Of, Cut, Increasing, Marked, LinkFollows;
    var l := s.links[o];
    var x, r, seen := s.log[l.pos], Of(s.log, o), Of(s.log[..l.pos], o);
    assert s.log[..l.pos + 1] == s.log[..l.pos] + [x];
    OfAppend(s.log[..l.pos], x, o);
    OfPrefix(s.log, l.pos + 1, o);
    ShipLink(l, x, o, r, seen, NextAt(s.log, o, l));
  }

  /** The next record read: the watermark moves to it, at once if it was
      applied before. */
  lemma {:induction false} TakeLink(l: Link, r: seq<Rec>, seen: seq<Rec>, next: nat)
    requires LinkFollows(l, r, seen, next) && Increasing(r) && seen <= r && l.phase.Idle? && l.chan != []
    ensures next < |r| && l.chan[0] == r[next]
    ensures var l' := l.(chan := l.chan[1..], taken := l.taken + 1);
            && LinkFollows(l'.(phase := Applying(r[next])), r, seen, next + 1)
            && LinkFollows(l'.(applied := Max(l.applied, r[next].hlc)), r, seen, next + 1)
  {
    hide Marked;
    assert next < |seen| && l.chan[0] == seen[next] == r[next];
    assert l.chan[1..] == Rest(seen, next + 1);
    assert l.taken > 0 && next > 0 ==> r[next - 1].hlc < r[next].hlc;
  }

  lemma {:induction false} TakeFollows(s: Sys, o: Origin)
    requires Follows(s, o) && Enabled(s, Take(o))
    ensures Follows(Do(s, Take(o)), o) && s.links[o].chan[0].origin == o
  {
    hide Of, Cut, Marked, Increasing, LinkFollows;
    var l := s.links[o];
    var r, seen, next := Of(s.log, o), Of(s.log[..l.pos], o), NextAt(s.log, o, l);
    OfPrefix(s.log, l.pos, o);
    TakeLink(l, r, seen, next);
    OfMember(s.log, o, next);
    MarkedAt(r, next);
  }

  /** Applied, then saved: the watermark moves to the record in hand. */
  lemma {:induction false} WorkLink(l: Link, r: seq<Rec>, seen: seq<Rec>, next: nat)
    requires LinkFollows(l, r, seen, next) && Increasing(r) && !l.phase.Idle?
    ensures LinkFollows(l.(phase := Saving(l.phase.rec)), r, seen, next)
    ensures LinkFollows(l.(phase := Idle, applied := Max(l.applied, l.phase.rec.hlc)), r, seen, next)
  {
    hide Marked;
    assert l.taken > 1 ==> r[next - 2].hlc < r[next - 1].hlc;
  }

  lemma {:induction false} AckLink(l: Link, r: seq<Rec>, seen: seq<Rec>, next: nat, acks: seq<nat>, peer: nat)
    requires LinkFollows(l, r, seen, next)
    ensures LinkFollows(l.(acks := acks), r, seen, next) && LinkFollows(l.(acks := acks, peer := peer), r, seen, next)
  {
  }

  lemma {:induction false} WorkFollows(s: Sys, o: Origin)
    requires Follows(s, o)
    ensures Follows(Do(s, InnerOk(o)), o) && Follows(Do(s, SaveOk(o)), o)
  {
    hide Of, Cut, Marked, Increasing, LinkFollows;
    if o in s.links && !s.links[o].phase.Idle? {
      var l := s.links[o];
      WorkLink(l, Of(s.log, o), Of(s.log[..l.pos], o), NextAt(s.log, o, l));
    }
  }

  lemma {:induction false} AckFollows(s: Sys, o: Origin)
    requires Follows(s, o)
    ensures Follows(Do(s, SendAck(o)), o) && Follows(Do(s, RecvAck(o)), o) && Follows(Do(s, Drop(o)), o)
  {
    hide Of, Cut, Marked, Increasing, LinkFollows;
    if o in s.links {
      var l := s.links[o];
      var r, seen, next := Of(s.log, o), Of(s.log[..l.pos], o), NextAt(s.log, o, l);
      AckLink(l, r, seen, next, l.acks + [l.applied], 0);
      if l.acks != [] { AckLink(l, r, seen, next, l.acks[1..], Max(l.peer, l.acks[0])); }
    }
  }

  /** Steps of one origin leave the others where they stand. */
  lemma {:induction false} OthersFollow(s: Sys, st: Step, p: Origin)
    requires !st.Append? && Follows(s, p) && (!st.Restart? ==> p != st.o)
    requires st.Take? && Enabled(s, st) ==> s.links[st.o].chan[0].origin == st.o
    ensures Follows(Do(s, st), p)
  {
    hide Of, Cut, Increasing, Marked, LinkFollows;
  }

  lemma {:induction false} StepFollows(s: Sys, st: Step, p: Origin)
    requires forall o :: Follows(s, o)
    ensures Follows(Do(s, st), p)
  {
    hide Follows;
    assert Follows(s, p);
    if Enabled(s, st) {
      if st.Append? {
        AppendFollows(s, st.rec, p);
      } else {
        if st.Take? { TakeFollows(s, st.o); }
        if st.Restart? || p != st.o {
          OthersFollow(s, st, p);
        } else if st.Connect? {
          ConnectFollows(s, p);
        } else if st.Ship? {
          ShipFollows(s, p);
        } else {
          WorkFollows(s, p);
          AckFollows(s, p);
        }
      }
    }
  }

  lemma {:induction false} RunFollows(s: Sys, steps: seq<Step>, p: Origin)
    requires forall o :: Follows(s, o)
    ensures Follows(Run(s, steps), p)
    decreases |steps|
  {
    hide Follows, Do;
    if steps != [] {
      forall o ensures Follows(Do(s, steps[0]), o) { StepFollows(s, steps[0], o); }
      RunFollows(Do(s, steps[0]), steps[1..], p);
    }
  }

  lemma {:induction false} StartFollows(o: Origin)
    ensures Follows(INIT, o)
  {
    NoRecords(o);
  }

  /** In every run an idle task that has read records stands exactly at the last
      one it read: its applied watermark is that record's HLC. */
  lemma {:induction false} AppliedExactly(steps: seq<Step>, o: Origin)
    requires o in Run(INIT, steps).links && Run(INIT, steps).links[o].phase.Idle? && Run(INIT, steps).links[o].taken > 0
    ensures var s := Run(INIT, steps);
            var r, next := Of(s.log, o), NextAt(s.log, o, s.links[o]);
            0 < next <= |r| && s.links[o].applied == r[next - 1].hlc
  {
    hide Run, Of, Cut, Increasing, Marked;
    forall p ensures Follows(INIT, p) { StartFollows(p); }
    RunFollows(INIT, steps, o);
    OfPrefix(Run(INIT, steps).log, Run(INIT, steps).links[o].pos, o);
  }

  /** And once it has reported, with no earlier report under way, the leader's
      mark for it is exactly that HLC. */
  lemma {:induction false} AckDelivers(steps: seq<Step>, o: Origin)
    requires o in Run(INIT, steps).links && Run(INIT, steps).links[o].phase.Idle? && Run(INIT, steps).links[o].taken > 0
    requires Run(INIT, steps).links[o].acks == []
    ensures var s := Run(INIT, steps);
            var t, r, next := Run(s, [SendAck(o), RecvAck(o)]), Of(s.log, o), NextAt(s.log, o, s.links[o]);
            o in t.links && 0 < next <= |r| && t.links[o].peer == t.links[o].applied == r[next - 1].hlc
  {
    AppliedExactly(steps, o);
    PeerTrails(steps, o);
    hide Run, Of, Cut;
    Two(Run(INIT, steps), SendAck(o), RecvAck(o));
  }

  // ── A task left alone catches up ────────────────────────────────────

  /** One task is connected, idle, with nothing of it on its way and its
      watermark saved. */
  ghost predicate Ready(s: Sys, o: Origin) {
    && Inv(s) && Tracked(s) && (forall p :: Follows(s, p))
    && s.failed == {} && s.links.Keys == {o} && s.links[o].phase.Idle? && s.links[o].acks == []
    && HighWater(s.saved, o) == HighWater(s.mem, o)
  }

  /** What a step of the one task keeps, if it is careful. */
  lemma {:induction false} CarefulStep(s: Sys, st: Step)
    requires Inv(s) && Tracked(s) && (forall p :: Follows(s, p)) && (Enabled(s, st) ==> Careful(s, st))
    ensures var t := Do(s, st); Inv(t) && Tracked(t) && forall p :: Follows(t, p)
  {
    hide OriginOK, Settled, Clear, Follows, Careful, Safe;
    StepKeeps(s, st);
    if Enabled(s, st) { CarefulIsSafe(s, st); }
    forall o | Clear(Do(s, st), o) ensures Settled(Do(s, st), o) { StaysTracked(s, st, o); }
    forall p ensures Follows(Do(s, st), p) { StepFollows(s, st, p); }
  }

  /** The task connects after a restart. */
  lemma {:induction false} Rejoins(s: Sys, o: Origin)
    requires Inv(s) && Tracked(s) && forall p :: Follows(s, p)
    ensures var t := Do(Do(s, Restart), Connect(o));
            && Ready(t, o) && t.log == s.log && t.links[o].taken == t.links[o].pos == 0
            && t.links[o].start == HighWater(s.saved, o)
  {
    hide Inv, Tracked, Follows;
    CarefulStep(s, Restart);
    CarefulStep(Do(s, Restart), Connect(o));
    assert Do(s, Restart).links == map[];
  }

  lemma {:induction false} ShipOnce(s: Sys, o: Origin)
    requires Ready(s, o) && s.links[o].pos < |s.log|
    ensures var t := Do(s, Ship(o));
            && Ready(t, o) && t.log == s.log && t.links[o].pos == s.links[o].pos + 1
            && t.links[o].taken == s.links[o].taken && t.links[o].start == s.links[o].start
  {
    hide Inv, Tracked, Follows;
    CarefulStep(s, Ship(o));
    assert (s.links[o := Shipped(s.links[o], s.log[s.links[o].pos], o)]).Keys == {o};
  }

  lemma {:induction false} ShipAll(s: Sys, o: Origin, k: nat)
    requires Ready(s, o) && s.links[o].pos + k == |s.log|
    ensures var t := Run(s, Repeat(Ship(o), k));
            && Ready(t, o) && t.log == s.log && t.links[o].pos == |s.log|
            && t.links[o].taken == s.links[o].taken && t.links[o].start == s.links[o].start
    decreases k
  {
    hide Ready, Do;
    if k > 0 {
      ShipOnce(s, o);
      RunOne(s, Ship(o), k);
      ShipAll(Do(s, Ship(o)), o, k - 1);
    }
  }

  /** The whole log was shipped, and the follower is about to read record
      `next`. */
  ghost predicate Reading(s: Sys, o: Origin, next: nat) {
    Ready(s, o) && s.links[o].pos == |s.log| && NextAt(s.log, o, s.links[o]) == next
  }

  lemma {:induction false} NextIs(s: Sys, o: Origin, next: nat)
    requires Reading(s, o, next) && next < |Of(s.log, o)|
    ensures s.links[o].chan != [] && s.links[o].chan[0] == Of(s.log, o)[next] && s.links[o].chan[0].origin == o
  {
    hide Inv, Tracked, Of, Cut, Increasing, Marked;
    assert s.log[..|s.log|] == s.log;
    assert Follows(s, o);
    OfMember(s.log, o, next);
  }

  /** Reading one record and whatever follows: applying and saving it, or
      nothing if it was applied before. */
  function Round(o: Origin): seq<Step> { [Take(o), InnerOk(o), SaveOk(o)] }

  /** The data of a round. */
  lemma {:induction false} RoundDoes(s: Sys, o: Origin, x: Rec)
    requires s.links.Keys == {o} && s.links[o].phase.Idle? && s.links[o].chan != [] && s.links[o].chan[0] == x
    requires x.origin == o && HighWater(s.saved, o) == HighWater(s.mem, o) && s.failed == {}
    ensures var b := Do(Do(s, Take(o)), InnerOk(o));
            var t := Do(b, SaveOk(o));
            && b.failed == {} && b.links.Keys == {o}
            && t.log == s.log && t.failed == {} && t.links.Keys == {o} && t.links[o].phase.Idle?
            && t.links[o].start == s.links[o].start && t.links[o].taken == s.links[o].taken + 1
            && t.links[o].acks == s.links[o].acks && t.links[o].pos == s.links[o].pos
            && HighWater(t.saved, o) == HighWater(t.mem, o) >= x.hlc
  {
  }

  lemma {:induction false} RoundCareful(s: Sys, o: Origin)
    requires var b := Do(Do(s, Take(o)), InnerOk(o)); b.failed == {} && b.links.Keys == {o}
    ensures CarefulRun(s, Round(o))
  {
    hide Do;
    var b := Do(Do(s, Take(o)), InnerOk(o));
    assert Round(o)[1..] == [InnerOk(o), SaveOk(o)] && Round(o)[1..][1..] == [SaveOk(o)] && [SaveOk(o)][1..] == [];
    assert CarefulRun(b, [SaveOk(o)]);
  }

  lemma {:induction false} CarefulSteps(s: Sys, steps: seq<Step>)
    requires Inv(s) && Tracked(s) && (forall p :: Follows(s, p)) && CarefulRun(s, steps)
    ensures var t := Run(s, steps); Inv(t) && Tracked(t) && forall p :: Follows(t, p)
  {
    hide Inv, Tracked, Follows, CarefulRun, Run;
    CarefulKeeps(s, steps);
    forall p ensures Follows(Run(s, steps), p) { RunFollows(s, steps, p); }
  }

  lemma {:induction false} RoundOnce(s: Sys, o: Origin, next: nat)
    requires Reading(s, o, next) && next < |Of(s.log, o)|
    ensures var t := Run(s, Round(o));
            && Reading(t, o, next + 1) && t.log == s.log && HighWater(t.mem, o) >= Of(s.log, o)[next].hlc
            && CarefulRun(s, Round(o))
  {
    hide Inv, Tracked, Follows, Of, Cut, Do, Run, CarefulRun;
    NextIs(s, o, next);
    Three(s, Take(o), InnerOk(o), SaveOk(o));
    RoundDoes(s, o, s.links[o].chan[0]);
    RoundCareful(s, o);
    CarefulSteps(s, Round(o));
  }

  function Rounds(o: Origin, k: nat): seq<Step> { if k == 0 then [] else Round(o) + Rounds(o, k - 1) }

  lemma {:induction false} ReadAll(s: Sys, o: Origin, next: nat)
    requires Reading(s, o, next) && next <= |Of(s.log, o)|
    ensures var t, r := Run(s, Rounds(o, |Of(s.log, o)| - next)), Of(s.log, o);
            && Reading(t, o, |r|) && t.log == s.log && CarefulRun(s, Rounds(o, |r| - next))
            && (next < |r| ==> HighWater(t.mem, o) >= r[|r| - 1].hlc)
    decreases |Of(s.log, o)| - next
  {
    hide Reading, Of, Round;
    var k := |Of(s.log, o)| - next;
    if k > 0 {
      RoundOnce(s, o, next);
      var t := Run(s, Round(o));
      ReadAll(t, o, next + 1);
      RunSplit(s, Round(o), Rounds(o, k - 1));
      CarefulSplit(s, Round(o), Rounds(o, k - 1));
    }
  }

  /** The HLC of the last record. */
  function LastHlc(r: seq<Rec>): nat { if r == [] then 0 else r[|r| - 1].hlc }

  /** Having read everything, the follower has applied and saved everything. */
  lemma {:induction false} ReadIsApplied(s: Sys, o: Origin)
    requires var r := Of(s.log, o); Reading(s, o, |r|) && (r != [] ==> HighWater(s.mem, o) >= r[|r| - 1].hlc)
    ensures var r := Of(s.log, o);
            && FirstTimes(Inner(s, o)) == r && HighWater(s.saved, o) == HighWater(s.mem, o) == LastHlc(r)
            && s.links[o].applied == LastHlc(r) && s.links[o].peer <= LastHlc(r)
  {
    assert OriginOK(s, o) && Follows(s, o) && Clear(s, o) && Settled(s, o);
    hide Inv, Tracked, Of, FirstTimes, Top, Cut, Increasing, Clear;
    var r, l := Of(s.log, o), s.links[o];
    assert FirstTimes(Inner(s, o)) == r;
    TopIsLast(Inner(s, o));
    MarkedCut(r, l.start);
    assert s.log[..|s.log|] == s.log;
  }

  /** The records a subscription from the saved watermark brings. */
  function Behind(s: Sys, o: Origin): seq<Rec> { Rest(Of(s.log, o), Cut(Of(s.log, o), HighWater(s.saved, o))) }

  /** Restart, connect, ship the whole log, read what it brings, report. */
  function Recovery(s: Sys, o: Origin): seq<Step> {
    [Restart, Connect(o)] + Repeat(Ship(o), |s.log|) + Rounds(o, |Behind(s, o)|) + [SendAck(o), RecvAck(o)]
  }

  lemma {:induction false} ShipsCareful(s: Sys, o: Origin, n: nat)
    ensures CarefulRun(s, Repeat(Ship(o), n)) && CarefulRun(s, [SendAck(o), RecvAck(o)])
  {
    forall st | st in Repeat(Ship(o), n) ensures Harmless(st) { RepeatOnly(Ship(o), n, st); }
    HarmlessIsCareful(s, Repeat(Ship(o), n));
    HarmlessIsCareful(s, [SendAck(o), RecvAck(o)]);
  }

  lemma {:induction false} RejoinCareful(s: Sys, o: Origin)
    ensures CarefulRun(s, [Restart, Connect(o)]) && Run(s, [Restart, Connect(o)]) == Do(Do(s, Restart), Connect(o))
  {
    Two(s, Restart, Connect(o));
    assert [Restart, Connect(o)][1..] == [Connect(o)] && [Connect(o)][1..] == [];
    assert CarefulRun(Do(s, Restart), [Connect(o)]);
  }

  /** Reconnecting without a restart is careful exactly when no apply of the
      origin was cut short, now or since the applied set was last loaded. */
  lemma {:induction false} ReconnectCareful(s: Sys, o: Origin)
    requires o in s.links
    ensures CarefulRun(s, [Drop(o), Connect(o)]) <==> o !in s.failed && !s.links[o].phase.Applying?
  {
    assert [Drop(o), Connect(o)][1..] == [Connect(o)] && [Connect(o)][1..] == [];
    assert CarefulRun(Do(s, Drop(o)), [Connect(o)]) <==> o !in Do(s, Drop(o)).failed;
  }

  lemma {:induction false} Reports(s: Sys, o: Origin)
    requires o in s.links && s.links[o].phase.Idle? && s.links[o].acks == [] && s.links[o].peer <= s.links[o].applied
    ensures var t := Run(s, [SendAck(o), RecvAck(o)]);
            && t.log == s.log && t.inner == s.inner && t.saved == s.saved
            && o in t.links && t.links[o].peer == s.links[o].applied
  {
    Two(s, SendAck(o), RecvAck(o));
  }

  /** From every point of every careful run, a restart followed by one task left
      alone is itself careful, and ends with every record of the origin applied
      in order and once for the first time, its last HLC on disk, and the leader
      knowing exactly that. */
  lemma {:induction false} CatchesUp(before: seq<Step>, o: Origin)
    requires CarefulRun(INIT, before)
    ensures var s := Run(INIT, before);
            var t, r := Run(s, Recovery(s, o)), Of(s.log, o);
            && CarefulRun(s, Recovery(s, o)) && t.log == s.log && FirstTimes(Inner(t, o)) == r
            && HighWater(t.saved, o) == LastHlc(r) && o in t.links && t.links[o].peer == LastHlc(r)
  {
    hide CarefulRun, Run, Do, Inv, Tracked, Follows, Of, FirstTimes, Cut, Round;
    CarefulFromStart(before);
    var s := Run(INIT, before);
    forall p ensures Follows(s, p) {
      forall q ensures Follows(INIT, q) { StartFollows(q); }
      RunFollows(INIT, before, p);
    }
    var a := Do(Do(s, Restart), Connect(o));
    var joins, ships, acks := [Restart, Connect(o)], Repeat(Ship(o), |s.log|), [SendAck(o), RecvAck(o)];
    Rejoins(s, o);
    RejoinCareful(s, o);
    var b := Run(a, ships);
    ShipAll(a, o, |s.log|);
    ShipsCareful(a, o, |s.log|);
    var r, next := Of(s.log, o), NextAt(b.log, o, b.links[o]);
    StartsWithin(b, o);
    ReadAll(b, o, next);
    var rounds := Rounds(o, |r| - next);
    var c := Run(b, rounds);
    ReadIsApplied(c, o);
    Reports(c, o);
    ShipsCareful(c, o, 0);
    RunSplit(s, joins + ships + rounds, acks);
    RunSplit(s, joins + ships, rounds);
    RunSplit(s, joins, ships);
    CarefulSplit(s, joins, ships);
    CarefulSplit(s, joins + ships, rounds);
    CarefulSplit(s, joins + ships + rounds, acks);
  }

  lemma {:induction false} StartsWithin(s: Sys, o: Origin)
    requires Follows(s, o) && o in s.links && s.links[o].taken == 0
    ensures var r := Of(s.log, o); NextAt(s.log, o, s.links[o]) < |r| || (r == [] && NextAt(s.log, o, s.links[o]) == 0)
  {
    hide Of, Cut, Marked, Increasing;
    MarkedCut(Of(s.log, o), s.links[o].start);
    CutIs(Of(s.log, o), s.links[o].start);
  }

  /** In every run a new subscription brings exactly the origin's records at or
      above the watermark on disk, in log order. */
  lemma {:induction false} Resumes(before: seq<Step>, o: Origin)
    requires o !in Run(INIT, before).links
    ensures var s := Run(INIT, before);
            var t, r := Run(Do(s, Connect(o)), Repeat(Ship(o), |s.log|)), Of(s.log, o);
            var c := Cut(r, HighWater(s.saved, o));
            && o in t.links && c <= |r| && t.links[o].chan == Behind(s, o) == r[c..]
            && forall i :: 0 <= i < |r| ==> (i >= c <==> r[i].hlc >= HighWater(s.saved, o))
  {
    hide Run, Of, Cut;
    forall p ensures Follows(INIT, p) { StartFollows(p); }
    RunFollows(INIT, before, o);
    var s := Run(INIT, before);
    CutIs(Of(s.log, o), HighWater(s.saved, o));
    assert s.log[..0] == [];
    NoRecords(o);
    ShipRest(Do(s, Connect(o)), o, |s.log|);
  }
}
