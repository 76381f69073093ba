/** WAL replication as a step system: a leader tails its log and ships one
    origin's records to each follower task over a FIFO link; the tasks share one
    watermark filter in front of the engine, persist its watermarks, and
    acknowledge. Links drop, and the follower crashes and restarts. */
module Replication {
  import opened Prelude

  type Origin = nat

  datatype Rec = Rec(origin: Origin, hlc: nat)

  /** Where a follower task stands inside `apply`. */
  datatype Phase = Idle | Applying(rec: Rec) | Saving(rec: Rec)

  /** One subscription: the leader's cursor and shipped-but-unread records, the
      task's phase and applied watermark, unread acks, and what the leader last
      learned. `taken` counts the records read from the link. */
  datatype Link = Link(
    start: nat, pos: nat, chan: seq<Rec>, taken: nat, phase: Phase, applied: nat, acks: seq<nat>, peer: nat)

  /** `mem` and `saved` are the applied set in memory and on disk; `inner` is
      every record the engine applied successfully, per origin; `failed` the
      origins whose apply was cut short since the applied set was last loaded. */
  datatype Sys = Sys(log: seq<Rec>, mem: map<Origin, nat>, saved: map<Origin, nat>, inner: map<Origin, seq<Rec>>,
                     links: map<Origin, Link>, failed: set<Origin>)

  datatype Step =
    | Append(rec: Rec)
    | Connect(o: Origin)
    | Ship(o: Origin)
    | Take(o: Origin)
    | InnerOk(o: Origin)
    | SaveOk(o: Origin)
    | SendAck(o: Origin)
    | RecvAck(o: Origin)
    | Drop(o: Origin)
    | Restart

  function HighWater(m: map<Origin, nat>, o: Origin): nat { if o in m then m[o] else 0 }
  function Inner(s: Sys, o: Origin): seq<Rec> { if o in s.inner then s.inner[o] else [] }
  function Max(a: nat, b: nat): nat { if a > b then a else b }

  predicate ShouldShip(r: Rec, o: Origin, start: nat) { r.origin == o && r.hlc >= start }

  /** The origin's records in log order. */
  function Of(log: seq<Rec>, o: Origin): seq<Rec> {
    if log == [] then []
    else
      var rest, x := Of(log[..|log| - 1], o), log[|log| - 1];
      if x.origin == o then rest + [x] else rest
  }

  /** The highest HLC the engine has applied. */
  function Top(h: seq<Rec>): nat {
    if h == [] then 0 else Max(Top(h[..|h| - 1]), h[|h| - 1].hlc)
  }

  /** The applies that were not re-deliveries. */
  function FirstTimes(h: seq<Rec>): seq<Rec> {
    if h == [] then []
    else
      var before, x := h[..|h| - 1], h[|h| - 1];
      if x.hlc > Top(before) then FirstTimes(before) + [x] else FirstTimes(before)
  }

  /** A new record's HLC is above every earlier one of its origin. */
  predicate Fresh(log: seq<Rec>, r: Rec) {
    r.hlc > 0 && forall i :: 0 <= i < |log| && log[i].origin == r.origin ==> log[i].hlc < r.hlc
  }

  predicate Enabled(s: Sys, st: Step) {
    match st
    case Append(r) => Fresh(s.log, r)
    case Connect(o) => o !in s.links
    case Ship(o) => o in s.links && s.links[o].pos < |s.log|
    case Take(o) => o in s.links && s.links[o].phase.Idle? && s.links[o].chan != []
    case InnerOk(o) => o in s.links && s.links[o].phase.Applying?
    case SaveOk(o) => o in s.links && s.links[o].phase.Saving?
    case SendAck(o) => o in s.links && s.links[o].phase.Idle?
    case RecvAck(o) => o in s.links && s.links[o].acks != []
    case Drop(o) => o in s.links
    case Restart => true
  }

  function NewLink(start: nat): Link { Link(start, 0, [], 0, Idle, 0, [], 0) }

  function Shipped(l: Link, r: Rec, o: Origin): Link {
    l.(pos := l.pos + 1, chan := if ShouldShip(r, o, l.start) then l.chan + [r] else l.chan)
  }

  /** The effect of an enabled step; others change nothing. A link drops when
      the connection or a save fails, and also when the engine refuses a record:
      then the watermark in memory has already moved. */
  function Do(s: Sys, st: Step): Sys {
    if !Enabled(s, st) then s
    else
      match st
      case Append(r) => s.(log := s.log + [r])
      case Connect(o) => s.(links := s.links[o := NewLink(HighWater(s.saved, o))])
      case Ship(o) => s.(links := s.links[o := Shipped(s.links[o], s.log[s.links[o].pos], o)])
      case Take(o) =>
        var l := s.links[o];
        var r := l.chan[0];
        var l' := l.(chan := l.chan[1..], taken := l.taken + 1);
        if r.hlc > HighWater(s.mem, r.origin)
        then s.(mem := s.mem[r.origin := r.hlc], links := s.links[o := l'.(phase := Applying(r))])
        else s.(links := s.links[o := l'.(applied := Max(l.applied, r.hlc))])
      case InnerOk(o) =>
        var r := s.links[o].phase.rec;
        s.(inner := s.inner[o := Inner(s, o) + [r]], links := s.links[o := s.links[o].(phase := Saving(r))])
      case SaveOk(o) =>
        var l := s.links[o];
        s.(saved := s.mem, links := s.links[o := l.(phase := Idle, applied := Max(l.applied, l.phase.rec.hlc))])
      case SendAck(o) => s.(links := s.links[o := s.links[o].(acks := s.links[o].acks + [s.links[o].applied])])
      case RecvAck(o) =>
        var l := s.links[o];
        s.(links := s.links[o := l.(acks := l.acks[1..], peer := Max(l.peer, l.acks[0]))])
      case Drop(o) =>
        s.(links := s.links - {o}, failed := if s.links[o].phase.Applying? then s.failed + {o} else s.failed)
      case Restart => s.(mem := s.saved, links := map[], failed := {})
  }

  const INIT := Sys([], map[], map[], map[], map[], {})

  // ── Invariant ───────────────────────────────────────────────────────

  ghost predicate Increasing(r: seq<Rec>) {
    (forall i :: 0 <= i < |r| ==> r[i].hlc > 0) && (forall i, j :: 0 <= i < j < |r| ==> r[i].hlc < r[j].hlc)
  }

  /** How many records lie below the subscription's start. */
  function Cut(r: seq<Rec>, start: nat): nat {
    if r == [] || r[0].hlc >= start then 0 else 1 + Cut(r[1..], start)
  }

  function Rest(r: seq<Rec>, i: nat): seq<Rec> { if i <= |r| then r[i..] else [] }

  /** Position in the origin's log of the next record the follower will read. */
  function NextAt(log: seq<Rec>, o: Origin, l: Link): nat { Cut(Of(log, o), l.start) + l.taken }

  /** A link over an origin's records r, of which the leader has read `seen`
      and the engine has applied the first n, up to HLC `top`. */
  ghost predicate LinkFits(l: Link, r: seq<Rec>, seen: seq<Rec>, n: nat, top: nat, mem: nat, next: nat) {
    && l.start <= top
    && l.chan == Rest(seen, next) && (l.taken == 0 || next <= |seen|)
    && (match l.phase
        case Idle => next <= n && mem <= top
        case Applying(x) => 1 <= next <= |r| && next - 1 <= n && r[next - 1] == x && mem == x.hlc
        case Saving(x) => next <= n && mem == x.hlc <= top)
    && l.applied <= top && l.peer <= l.applied
    && (forall i :: 0 <= i < |l.acks| ==> l.acks[i] <= l.applied)
  }

  ghost predicate LinkOK(s: Sys, o: Origin, l: Link) {
    && l.pos <= |s.log|
    && LinkFits(l, Of(s.log, o), Of(s.log[..l.pos], o), |FirstTimes(Inner(s, o))|, Top(Inner(s, o)),
      HighWater(s.mem, o), NextAt(s.log, o, l))
  }

  /** A watermark is zero or the HLC of some record. */
  ghost predicate Marked(r: seq<Rec>, m: nat) { m == 0 || exists i :: 0 <= i < |r| && r[i].hlc == m }

  ghost predicate OriginOK(s: Sys, o: Origin) {
    && Increasing(Of(s.log, o))
    && Marked(Of(s.log, o), HighWater(s.mem, o)) && Marked(Of(s.log, o), HighWater(s.saved, o))
    && FirstTimes(Inner(s, o)) <= Of(s.log, o)
    && HighWater(s.saved, o) <= HighWater(s.mem, o)
    && HighWater(s.saved, o) <= Top(Inner(s, o))
    && (o in s.links ==> LinkOK(s, o, s.links[o]))
  }

  ghost predicate Inv(s: Sys) { forall o :: OriginOK(s, o) }

  /** The record the engine was given last has been applied. */
  ghost predicate Settled(s: Sys, o: Origin) { HighWater(s.mem, o) <= Top(Inner(s, o)) }

  /** Reconnecting an origin is safe once its last record was applied, and
      saving is safe when every other origin's was. */
  ghost predicate Safe(s: Sys, st: Step) {
    match st
    case Connect(o) => Settled(s, o)
    case SaveOk(o) => forall p :: p != o ==> Settled(s, p)
    case _ => true
  }

  // ── Logs and histories ──────────────────────────────────────────────

  lemma {:induction false} OfAppend(log: seq<Rec>, x: Rec, o: Origin)
    ensures Of(log + [x], o) == if x.origin == o then Of(log, o) + [x] else Of(log, o)
  {
    assert (log + [x])[..|log|] == log;
  }

  lemma {:induction false} OfPrefix(log: seq<Rec>, pos: nat, o: Origin)
    requires pos <= |log|
    ensures Of(log[..pos], o) <= Of(log, o)
  {
    if pos < |log| {
      var init := log[..|log| - 1];
      OfPrefix(init, pos, o);
      assert init[..pos] == log[..pos];
    } else {
      assert log[..pos] == log;
    }
  }

  /** The highest HLC applied is that of the latest first-time apply. */
  lemma {:induction false} TopIsLast(h: seq<Rec>)
    ensures Top(h) == if FirstTimes(h) == [] then 0 else FirstTimes(h)[|FirstTimes(h)| - 1].hlc
  {
    if h != [] {
      TopIsLast(h[..|h| - 1]);
    }
  }

  lemma {:induction false} HistoryGrows(h: seq<Rec>, x: Rec)
    ensures Top(h + [x]) == Max(Top(h), x.hlc)
    ensures FirstTimes(h + [x]) == if x.hlc > Top(h) then FirstTimes(h) + [x] else FirstTimes(h)
  {
    assert (h + [x])[..|h|] == h;
  }

  lemma {:induction false} OfMember(log: seq<Rec>, o: Origin, i: nat)
    requires i < |Of(log, o)|
    ensures Of(log, o)[i] in log && Of(log, o)[i].origin == o
  {
    if i < |Of(log[..|log| - 1], o)| {
      OfMember(log[..|log| - 1], o, i);
    }
  }

  lemma {:induction false} CutIs(r: seq<Rec>, start: nat)
    ensures Cut(r, start) <= |r|
    ensures forall i :: 0 <= i < Cut(r, start) ==> r[i].hlc < start
    ensures Cut(r, start) < |r| ==> r[Cut(r, start)].hlc >= start
  {
    if r != [] && r[0].hlc < start {
      CutIs(r[1..], start);
    }
  }

  /** A record is at or below the top exactly when it is among the first n. */
  lemma {:induction false} BelowTop(r: seq<Rec>, h: seq<Rec>, i: nat)
    requires Increasing(r) && FirstTimes(h) <= r && i < |r|
    ensures r[i].hlc <= Top(h) <==> i < |FirstTimes(h)|
  {
    hide FirstTimes, Top;
    TopIsLast(h);
  }

  /** The start of a subscription is not past the applied prefix. */
  lemma {:induction false} CutBelow(r: seq<Rec>, h: seq<Rec>, start: nat)
    requires Increasing(r) && FirstTimes(h) <= r && start <= Top(h)
    ensures Cut(r, start) <= |FirstTimes(h)|
    ensures Cut(r, start) < |r| || (r == [] && start == 0)
  {
    hide FirstTimes, Top, Cut;
    TopIsLast(h);
    CutIs(r, start);
    var n := |FirstTimes(h)|;
    assert n > 0 ==> r[n - 1].hlc == Top(h);
    assert Cut(r, start) > 0 ==> r[0].hlc < start;
  }

  lemma {:induction false} CutAppend(r: seq<Rec>, x: Rec, start: nat)
    requires Cut(r, start) < |r| || (r == [] && start == 0)
    ensures Cut(r + [x], start) == Cut(r, start)
  {
    if r != [] && r[0].hlc < start {
      CutAppend(r[1..], x, start);
      assert (r + [x])[1..] == r[1..] + [x];
    }
  }

  // ── Steps keep the invariant ────────────────────────────────────────

  /** Nothing about origin p differs between the two states. */
  ghost predicate SameAt(s: Sys, t: Sys, p: Origin) {
    && t.log == s.log && Inner(t, p) == Inner(s, p)
    && HighWater(t.mem, p) == HighWater(s.mem, p) && HighWater(t.saved, p) == HighWater(s.saved, p)
    && (p in t.links ==> p in s.links && t.links[p] == s.links[p])
  }

  lemma {:induction false} SameKeeps(s: Sys, t: Sys, p: Origin)
    requires OriginOK(s, p) && SameAt(s, t, p)
    ensures OriginOK(t, p)
  {
    hide Of, FirstTimes, Top, Cut, LinkFits, Marked;
  }

  lemma {:induction false} MarkedAppend(r: seq<Rec>, x: Rec, m: nat)
    requires Marked(r, m)
    ensures Marked(r + [x], m)
  {
    assert forall i :: 0 <= i < |r| ==> (r + [x])[i] == r[i];
  }

  lemma {:induction false} MarkedAt(r: seq<Rec>, i: nat)
    requires i < |r|
    ensures Marked(r, r[i].hlc)
  {
  }

  lemma {:induction false} StillIncreasing(log: seq<Rec>, x: Rec)
    requires Increasing(Of(log, x.origin)) && Fresh(log, x)
    ensures Increasing(Of(log, x.origin) + [x])
  {
    var r := Of(log, x.origin);
    forall i | 0 <= i < |r|
      ensures r[i].hlc < x.hlc
    {
      OfMember(log, x.origin, i);
    }
  }

  lemma {:induction false} AppendKeeps(s: Sys, x: Rec, o: Origin)
    requires OriginOK(s, o) && Fresh(s.log, x)
    ensures OriginOK(s.(log := s.log + [x]), o)
  {
    hide Of, FirstTimes, Top, Cut, Increasing, Marked;
    OfAppend(s.log, x, o);
    MarkedAppend(Of(s.log, o), x, HighWater(s.mem, o));
    MarkedAppend(Of(s.log, o), x, HighWater(s.saved, o));
    if x.origin == o { StillIncreasing(s.log, x); }
    if o in s.links {
      var l := s.links[o];
      CutBelow(Of(s.log, o), Inner(s, o), l.start);
      CutAppend(Of(s.log, o), x, l.start);
      assert (s.log + [x])[..l.pos] == s.log[..l.pos];
    }
  }

  lemma {:induction false} ConnectKeeps(s: Sys, o: Origin)
    requires OriginOK(s, o) && o !in s.links
    ensures OriginOK(Do(s, Connect(o)), o) <==> Settled(s, o)
  {
    hide Of, FirstTimes, Top, Cut, Increasing, Marked;
    CutBelow(Of(s.log, o), Inner(s, o), HighWater(s.saved, o));
    assert s.log[..0] == [] && Of([], o) == [] by { NoRecords(o); }
  }

  lemma {:induction false} NoRecords(o: Origin)
    ensures Of([], o) == []
  {
  }

  /** The leader's next read extends the link as its filter decides. */
  lemma {:induction false} ShipFits(l: Link, x: Rec, o: Origin, r: seq<Rec>, seen: seq<Rec>, n: nat, top: nat, mem: nat)
    requires LinkFits(l, r, seen, n, top, mem, Cut(r, l.start) + l.taken)
    requires x.origin == o ==> seen + [x] <= r && Increasing(r)
    ensures var seen' := if x.origin == o then seen + [x] else seen;
      LinkFits(Shipped(l, x, o), r, seen', n, top, mem, Cut(r, l.start) + l.taken)
  {
    hide Cut;
    if x.origin == o {
      CutDecides(r, seen, x, l.start);
      var next := Cut(r, l.start) + l.taken;
      if |seen| >= next {
        assert (seen + [x])[next..] == seen[next..] + [x];
      }
    }
  }

  /** A record is at or above the start exactly when it is not cut off. */
  lemma {:induction false} CutDecides(r: seq<Rec>, seen: seq<Rec>, x: Rec, start: nat)
    requires seen + [x] <= r && Increasing(r)
    ensures x.hlc >= start <==> |seen| >= Cut(r, start)
  {
    hide Cut;
    CutIs(r, start);
    assert r[|seen|] == x;
  }

  lemma {:induction false} ShipKeeps(s: Sys, o: Origin)
    requires OriginOK(s, o) && Enabled(s, Ship(o))
    ensures OriginOK(Do(s, Ship(o)), o)
  {
    hide Of, FirstTimes, Top, Cut, Increasing, LinkFits, Marked;
    var l := s.links[o];
    var x, r, seen := s.log[l.pos], Of(s.log, o), Of(s.log[..l.pos], o);
    assert s.log[..l.pos + 1] == s.log[..l.pos] + [x];
    OfAppend(s.log[..l.pos], x, o);
    OfPrefix(s.log, l.pos + 1, o);
    ShipFits(l, x, o, r, seen, |FirstTimes(Inner(s, o))|, Top(Inner(s, o)), HighWater(s.mem, o));
  }

  lemma {:induction false} TakeKeeps(s: Sys, o: Origin)
    requires OriginOK(s, o) && Enabled(s, Take(o))
    ensures OriginOK(Do(s, Take(o)), o)
  {
    hide Of, FirstTimes, Top, Cut, Increasing, LinkFits, Rest, Marked;
    var l := s.links[o];
    var r, seen, next := Of(s.log, o), Of(s.log[..l.pos], o), NextAt(s.log, o, l);
    OfPrefix(s.log, l.pos, o);
    NextRead(l, r, seen, |FirstTimes(Inner(s, o))|, Top(Inner(s, o)), HighWater(s.mem, o), next);
    OfMember(s.log, o, next);
    MarkedAt(r, next);
    BelowTop(r, Inner(s, o), next);
    TakeFits(l, r, seen, |FirstTimes(Inner(s, o))|, Top(Inner(s, o)), HighWater(s.mem, o), next);
  }

  lemma {:induction false} NextRead(l: Link, r: seq<Rec>, seen: seq<Rec>, n: nat, top: nat, mem: nat, next: nat)
    requires LinkFits(l, r, seen, n, top, mem, next) && seen <= r && l.chan != []
    ensures next < |seen| && l.chan[0] == r[next]
  {
  }

  /** Reading a record: new ones go to the engine, others are acknowledged. */
  lemma {:induction false} TakeFits(l: Link, r: seq<Rec>, seen: seq<Rec>, n: nat, top: nat, mem: nat, next: nat)
    requires LinkFits(l, r, seen, n, top, mem, next) && seen <= r && l.phase.Idle? && l.chan != []
    requires next < |r| && (r[next].hlc <= top <==> next < n)
    ensures var x, l' := l.chan[0], l.(chan := l.chan[1..], taken := l.taken + 1);
            if x.hlc > mem then LinkFits(l'.(phase := Applying(x)), r, seen, n, top, x.hlc, next + 1)
            else LinkFits(l'.(applied := Max(l.applied, x.hlc)), r, seen, n, top, mem, next + 1)
  {
  }

  lemma {:induction false} InnerKeeps(s: Sys, o: Origin)
    requires OriginOK(s, o) && Enabled(s, InnerOk(o))
    ensures OriginOK(Do(s, InnerOk(o)), o)
  {
    hide Of, FirstTimes, Top, Cut, Increasing, Marked;
    var l, h := s.links[o], Inner(s, o);
    HistoryGrows(h, l.phase.rec);
    BelowTop(Of(s.log, o), h, NextAt(s.log, o, l) - 1);
  }

  lemma {:induction false} SaveKeeps(s: Sys, o: Origin, p: Origin)
    requires OriginOK(s, p) && Enabled(s, SaveOk(o))
    ensures OriginOK(Do(s, SaveOk(o)), p) <==> p == o || Settled(s, p)
  {
    hide Of, FirstTimes, Top, Cut, Increasing, Marked;
  }

  lemma {:induction false} SendKeeps(s: Sys, o: Origin)
    requires OriginOK(s, o)
    ensures OriginOK(Do(s, SendAck(o)), o)
  {
    hide Of, FirstTimes, Top, Cut, Increasing, Marked;
  }

  lemma {:induction false} RecvKeeps(s: Sys, o: Origin)
    requires OriginOK(s, o)
    ensures OriginOK(Do(s, RecvAck(o)), o)
  {
    hide Of, FirstTimes, Top, Cut, Increasing, Marked;
  }

  lemma {:induction false} RestartKeeps(s: Sys, p: Origin)
    requires OriginOK(s, p)
    ensures OriginOK(Do(s, Restart), p)
  {
    hide Of, FirstTimes, Top, Cut, Increasing, Marked;
  }

  /** A task reads only its own origin's records. */
  lemma {:induction false} ReadsOwn(s: Sys, o: Origin)
    requires OriginOK(s, o) && Enabled(s, Take(o))
    ensures s.links[o].chan[0].origin == o
  {
    hide Of, FirstTimes, Top, Cut, Increasing, Marked;
    OfMember(s.log[..s.links[o].pos], o, NextAt(s.log, o, s.links[o]));
  }

  /** From a good state, a step leads to a good state exactly when it is safe. */
  lemma {:induction false} StepKeeps(s: Sys, st: Step)
    requires Inv(s)
    ensures Inv(Do(s, st)) <==> (Enabled(s, st) ==> Safe(s, st))
  {
    hide OriginOK;
    var t := Do(s, st);
    if Enabled(s, st) {
      if st.Append? {
        forall p ensures OriginOK(t, p) { AppendKeeps(s, st.rec, p); }
      } else if st.SaveOk? {
        forall p ensures OriginOK(t, p) <==> p == st.o || Settled(s, p) { SaveKeeps(s, st.o, p); }
      } else if st.Restart? {
        forall p ensures OriginOK(t, p) { RestartKeeps(s, p); }
      } else {
        AtKeeps(s, st);
        forall p | p != st.o ensures OriginOK(t, p) { OthersKeep(s, st, p); }
      }
    }
  }

  lemma {:induction false} OthersKeep(s: Sys, st: Step, p: Origin)
    requires && !st.Append? && !st.SaveOk? && !st.Restart? && p != st.o && Enabled(s, st) && OriginOK(s, p)
             && OriginOK(s, st.o)
    ensures OriginOK(Do(s, st), p)
  {
    hide OriginOK;
    if st.Take? { ReadsOwn(s, st.o); }
    SameKeeps(s, Do(s, st), p);
  }

  lemma {:induction false} AtKeeps(s: Sys, st: Step)
    requires !st.Append? && !st.SaveOk? && !st.Restart? && OriginOK(s, st.o) && Enabled(s, st)
    ensures OriginOK(Do(s, st), st.o) <==> Safe(s, st)
  {
    match st
    case Connect(o) => ConnectKeeps(s, o);
    case Ship(o) => ShipKeeps(s, o);
    case Take(o) => TakeKeeps(s, o);
    case InnerOk(o) => InnerKeeps(s, o);
    case SendAck(o) => SendKeeps(s, o);
    case RecvAck(o) => RecvKeeps(s, o);
    case Drop(o) => SameKeeps(s, Do(s, st), o);
  }

  // ── Runs ────────────────────────────────────────────────────────────

  function Run(s: Sys, steps: seq<Step>): Sys
    decreases |steps|
  {
    if steps == [] then s else Run(Do(s, steps[0]), steps[1..])
  }

  /** The origin has no apply under way, nor one cut short since the applied
      set was last loaded from disk. */
  predicate Clear(s: Sys, o: Origin) { o !in s.failed && !(o in s.links && s.links[o].phase.Applying?) }

  /** Reconnect after a failed apply only once the applied set was reloaded, and
      save only while every other origin is clear. With a single origin the
      second half asks nothing. */
  ghost predicate Careful(s: Sys, st: Step) {
    match st
    case Connect(o) => o !in s.failed
    case SaveOk(o) => forall p :: p != o ==> Clear(s, p)
    case _ => true
  }

  ghost predicate CarefulRun(s: Sys, steps: seq<Step>)
    decreases |steps|
  {
    steps != [] ==> (Enabled(s, steps[0]) ==> Careful(s, steps[0])) && CarefulRun(Do(s, steps[0]), steps[1..])
  }

  /** Clear origins are settled. */
  ghost predicate Tracked(s: Sys) { forall o :: Clear(s, o) ==> Settled(s, o) }

  lemma {:induction false} CarefulIsSafe(s: Sys, st: Step)
    requires Inv(s) && Tracked(s) && Enabled(s, st) && Careful(s, st)
    ensures Safe(s, st)
  {
    hide OriginOK, Settled;
  }

  lemma {:induction false} StaysTracked(s: Sys, st: Step, o: Origin)
    requires Inv(s) && Inv(Do(s, st)) && Tracked(s) && Clear(Do(s, st), o)
    ensures Settled(Do(s, st), o)
  {
    hide Of, FirstTimes, Top, Cut, Increasing, Marked;
    assert OriginOK(s, o) && OriginOK(Do(s, st), o);
    if st.Take? && Enabled(s, st) {
      assert OriginOK(s, st.o);
      ReadsOwn(s, st.o);
    }
    assert Clear(s, o) ==> Settled(s, o);
  }

  lemma {:induction false} CarefulKeeps(s: Sys, steps: seq<Step>)
    requires Inv(s) && Tracked(s) && CarefulRun(s, steps)
    ensures Inv(Run(s, steps)) && Tracked(Run(s, steps))
    decreases |steps|
  {
    if steps != [] {
      var t := Do(s, steps[0]);
      StepKeeps(s, steps[0]);
      if Enabled(s, steps[0]) { CarefulIsSafe(s, steps[0]); }
      forall o | Clear(t, o) ensures Settled(t, o) { StaysTracked(s, steps[0], o); }
      CarefulKeeps(t, steps[1..]);
    }
  }

  /** No gaps: in every careful run the engine's first-time applies of each
      origin are a prefix of that origin's log, in order. */
  lemma {:induction false} NoGaps(steps: seq<Step>, o: Origin)
    requires CarefulRun(INIT, steps)
    ensures FirstTimes(Inner(Run(INIT, steps), o)) <= Of(Run(INIT, steps).log, o)
  {
    CarefulKeeps(INIT, steps);
    assert OriginOK(Run(INIT, steps), o);
  }

  /** In every careful run the record that reaches the engine is the next one of
      its origin's log or one applied before. */
  lemma {:induction false} DeliveredInOrder(steps: seq<Step>, o: Origin)
    requires CarefulRun(INIT, steps) && Enabled(Run(INIT, steps), Take(o))
    requires Do(Run(INIT, steps), Take(o)).links[o].phase.Applying?
    ensures var s := Run(INIT, steps);
            var x, n := s.links[o].chan[0], |FirstTimes(Inner(s, o))|;
            x.hlc <= Top(Inner(s, o)) || (n < |Of(s.log, o)| && x == Of(s.log, o)[n])
  {
    var s := Run(INIT, steps);
    CarefulKeeps(INIT, steps);
    assert OriginOK(s, o);
    hide Inv, Run, Of, FirstTimes, Top, Cut, Increasing;
    var l := s.links[o];
    var r, next := Of(s.log, o), NextAt(s.log, o, l);
    OfPrefix(s.log, l.pos, o);
    assert l.chan[0] == r[next];
    BelowTop(r, Inner(s, o), next);
  }

  /** What the leader believes is true in every careful run: its high-water mark
      never passes what the engine applied, and each record of the origin at or
      below it was applied. */
  lemma {:induction false} AcksAreTrue(steps: seq<Step>, o: Origin, x: Rec)
    requires CarefulRun(INIT, steps)
    ensures var s := Run(INIT, steps); o in s.links ==> s.links[o].peer <= s.links[o].applied <= Top(Inner(s, o))
    ensures !FalseAck(Run(INIT, steps), o, x)
  {
    hide CarefulRun, Run, FalseAck;
    CarefulKeeps(INIT, steps);
    assert OriginOK(Run(INIT, steps), o);
    OKHasNoFalseAck(Run(INIT, steps), o, x);
  }

  /** The leader takes the record for applied, and it was not. */
  ghost predicate FalseAck(s: Sys, o: Origin, x: Rec) {
    && o in s.links && x in s.log && x.origin == o
    && x.hlc <= s.links[o].peer && x !in Inner(s, o)
  }

  lemma {:induction false} OKHasNoFalseAck(s: Sys, o: Origin, x: Rec)
    requires Inv(s)
    ensures !FalseAck(s, o, x)
  {
    assert OriginOK(s, o);
    hide Inv, Cut;
    if o in s.links && x in s.log && x.origin == o && x.hlc <= s.links[o].peer {
      var i :| 0 <= i < |s.log| && s.log[i] == x;
      var k := IndexOf(s.log, o, i);
      hide Of, FirstTimes, Top, Increasing;
      BelowTop(Of(s.log, o), Inner(s, o), k);
      FirstTimesApplied(Inner(s, o), k);
    }
  }

  lemma {:induction false} IndexOf(log: seq<Rec>, o: Origin, i: nat) returns (k: nat)
    requires i < |log| && log[i].origin == o
    ensures k < |Of(log, o)| && Of(log, o)[k] == log[i]
  {
    if i == |log| - 1 {
      k := |Of(log, o)| - 1;
    } else {
      k := IndexOf(log[..|log| - 1], o, i);
    }
  }

  lemma {:induction false} FirstTimesApplied(h: seq<Rec>, k: nat)
    requires k < |FirstTimes(h)|
    ensures FirstTimes(h)[k] in h
  {
    if k < |FirstTimes(h[..|h| - 1])| {
      FirstTimesApplied(h[..|h| - 1], k);
    }
  }

  lemma {:induction false} WatermarksStep(s: Sys, st: Step, o: Origin)
    requires o in s.links && o in Do(s, st).links
    ensures Do(s, st).links[o].peer >= s.links[o].peer
    ensures Do(s, st).links[o].applied >= s.links[o].applied
  {
  }

  /** The link stays up through the steps. */
  ghost predicate Alive(s: Sys, steps: seq<Step>, o: Origin)
    decreases |steps|
  {
    o in s.links && (steps != [] ==> Alive(Do(s, steps[0]), steps[1..], o))
  }

  /** Neither watermark of a link goes down while it is up, whatever steps are
      taken. */
  lemma {:induction false} WatermarksRise(s: Sys, steps: seq<Step>, o: Origin)
    requires Alive(s, steps, o)
    ensures o in Run(s, steps).links
    ensures Run(s, steps).links[o].peer >= s.links[o].peer
    ensures Run(s, steps).links[o].applied >= s.links[o].applied
    decreases |steps|
  {
    hide Do;
    if steps != [] {
      var t := Do(s, steps[0]);
      assert Alive(t, steps[1..], o);
      WatermarksStep(s, steps[0], o);
      WatermarksRise(t, steps[1..], o);
    }
  }

  // ── What holds in every run, careful or not ─────────────────────────

  /** Saved watermarks trail those in memory, acknowledgements and the leader's
      mark trail the applied watermark, and a link carries records of its own
      origin from the log. */
  ghost predicate Lags(s: Sys) {
    && (forall o :: HighWater(s.saved, o) <= HighWater(s.mem, o))
    && (forall o :: o in s.links ==> LinkLags(s.log, s.links[o], o))
  }

  ghost predicate LinkLags(log: seq<Rec>, l: Link, o: Origin) {
    && l.peer <= l.applied && (forall i :: 0 <= i < |l.acks| ==> l.acks[i] <= l.applied)
    && (forall i :: 0 <= i < |l.chan| ==> l.chan[i].origin == o && l.chan[i] in log)
  }

  lemma {:induction false} StepLags(s: Sys, st: Step)
    requires Lags(s)
    ensures Lags(Do(s, st))
  {
    hide LinkLags;
    var t := Do(s, st);
    forall o ensures HighWater(t.saved, o) <= HighWater(t.mem, o) {
      assert HighWater(s.saved, o) <= HighWater(s.mem, o);
    }
    forall o | o in t.links ensures LinkLags(t.log, t.links[o], o) {
      if o in s.links { assert LinkLags(s.log, s.links[o], o); }
      LinkStep(s, st, o);
    }
  }

  lemma {:induction false} LinkStep(s: Sys, st: Step, o: Origin)
    requires o in Do(s, st).links && (o in s.links ==> LinkLags(s.log, s.links[o], o))
    ensures LinkLags(Do(s, st).log, Do(s, st).links[o], o)
  {
  }

  lemma {:induction false} RunLags(s: Sys, steps: seq<Step>)
    requires Lags(s)
    ensures Lags(Run(s, steps))
    decreases |steps|
  {
    hide Lags, Do;
    if steps != [] {
      StepLags(s, steps[0]);
      RunLags(Do(s, steps[0]), steps[1..]);
    }
  }

  /** In every run the leader's high-water mark never passes the follower's
      applied watermark. */
  lemma {:induction false} PeerTrails(steps: seq<Step>, o: Origin)
    requires o in Run(INIT, steps).links
    ensures Run(INIT, steps).links[o].peer <= Run(INIT, steps).links[o].applied
  {
    hide Run;
    RunLags(INIT, steps);
  }

  /** In every run a record reaches the engine only if its HLC is above the
      persisted watermark, and it is a record of the link's origin. */
  lemma {:induction false} DeliveredAboveSaved(steps: seq<Step>, o: Origin)
    requires Enabled(Run(INIT, steps), Take(o))
    requires Do(Run(INIT, steps), Take(o)).links[o].phase.Applying?
    ensures var s := Run(INIT, steps);
            var x := s.links[o].chan[0];
            x.hlc > HighWater(s.saved, o) && x.origin == o && x in s.log
  {
    hide Run;
    RunLags(INIT, steps);
    var s := Run(INIT, steps);
    assert LinkLags(s.log, s.links[o], o);
  }

  // ── Runs in pieces ──────────────────────────────────────────────────

  lemma {:induction false} RunSplit(s: Sys, a: seq<Step>, b: seq<Step>)
    ensures Run(s, a + b) == Run(Run(s, a), b)
    decreases |a|
  {
    if a == [] {
      assert a + b == b;
    } else {
      assert (a + b)[1..] == a[1..] + b;
      RunSplit(Do(s, a[0]), a[1..], b);
    }
  }

  lemma {:induction false} Three(s: Sys, a: Step, b: Step, c: Step)
    ensures Run(s, [a, b, c]) == Do(Do(Do(s, a), b), c)
  {
    var abc := [a, b, c];
    assert abc[1..] == [b, c] && [b, c][1..] == [c] && [c][1..] == [];
    assert Run(Do(Do(s, a), b), [c]) == Do(Do(Do(s, a), b), c);
  }

  lemma {:induction false} Two(s: Sys, a: Step, b: Step)
    ensures Run(s, [a, b]) == Do(Do(s, a), b)
  {
    assert [a, b][1..] == [b] && [b][1..] == [];
    assert Run(Do(s, a), [b]) == Do(Do(s, a), b);
  }

  lemma {:induction false} One(s: Sys, a: Step)
    ensures Run(s, [a]) == Do(s, a)
  {
    assert [a][1..] == [];
  }
}
