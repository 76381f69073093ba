/** The follower's watermark filter, as the code runs it: the applied set and
    the idempotent applier wrapped around the engine. */
module Appliers {
  import opened Prelude
  import opened Replication

  datatype Outcome = New | AlreadyApplied

  /** Per-origin highest applied HLC. */
  class AppliedSet {
    var lastApplied: map<Origin, nat>

    constructor (loaded: map<Origin, nat>)
      ensures lastApplied == loaded
    {
      lastApplied := loaded;
    }

    /** Moves the origin's watermark up, never down, and says whether it moved. */
    method Observe(o: Origin, hlc: nat) returns (r: Outcome)
      modifies this
      ensures r == New <==> hlc > HighWater(old(lastApplied), o)
      ensures HighWater(lastApplied, o) == Max(HighWater(old(lastApplied), o), hlc)
      ensures forall p :: p != o ==> HighWater(lastApplied, p) == HighWater(old(lastApplied), p)
      ensures r == New ==> lastApplied == old(lastApplied)[o := hlc]
    {
      if o !in lastApplied {
        lastApplied := lastApplied[o := 0];
      }
      if hlc > lastApplied[o] {
        lastApplied := lastApplied[o := hlc];
        return New;
      }
      return AlreadyApplied;
    }
  }

  datatype ApplyResult = Applied | DecodeError | EngineError | PersistError

  /** What the engine and the disk answer to one record. */
  datatype World = World(innerOk: bool, saveOk: bool)

  class IdempotentApplier {
    const state: AppliedSet
    var disk: map<Origin, nat>
    var delivered: seq<Rec>

    constructor (saved: map<Origin, nat>)
      ensures fresh(state) && disk == saved && state.lastApplied == saved && delivered == []
    {
      disk := saved;
      delivered := [];
      state := new AppliedSet(saved);
    }

    /** One record through the filter, with no other task in between. A record
        too short to show its origin and HLC is refused and changes nothing. */
    method Apply(peeked: Option<Rec>, w: World) returns (r: ApplyResult)
      modifies this, state
      ensures r == DecodeError <==> peeked.None?
      ensures peeked.None? ==>
                state.lastApplied == old(state.lastApplied) && delivered == old(delivered) && disk == old(disk)
      ensures peeked.Some? && peeked.value.hlc <= HighWater(old(state.lastApplied), peeked.value.origin) ==>
                r == Applied && delivered == old(delivered) && disk == old(disk)
      ensures peeked.Some? && peeked.value.hlc > HighWater(old(state.lastApplied), peeked.value.origin) ==>
                && state.lastApplied == old(state.lastApplied)[peeked.value.origin := peeked.value.hlc]
                && r == (if !w.innerOk then EngineError else if !w.saveOk then PersistError else Applied)
                && delivered == (if w.innerOk then old(delivered) + [peeked.value] else old(delivered))
                && disk == (if w.innerOk && w.saveOk then state.lastApplied else old(disk))
      ensures forall p :: HighWater(state.lastApplied, p) ==
                if peeked.Some? && p == peeked.value.origin
                then Max(HighWater(old(state.lastApplied), p), peeked.value.hlc)
                else HighWater(old(state.lastApplied), p)
    {
      if peeked.None? {
        return DecodeError;
      }
      var x := peeked.value;
      var seen := state.Observe(x.origin, x.hlc);
      if seen == AlreadyApplied {
        return Applied;
      }
      if !w.innerOk {
        return EngineError;
      }
      delivered := delivered + [x];
      if !w.saveOk {
        return PersistError;
      }
      disk := state.lastApplied;
      return Applied;
    }
  }

  /** The steps one uninterrupted call takes in the step system. */
  function StepsOf(s: Sys, o: Origin, w: World): seq<Step>
    requires Enabled(s, Take(o))
  {
    if s.links[o].chan[0].hlc <= HighWater(s.mem, o) then [Take(o)]
    else if !w.innerOk then [Take(o), Drop(o)]
    else if !w.saveOk then [Take(o), InnerOk(o), Drop(o)]
    else [Take(o), InnerOk(o), SaveOk(o)]
  }

  lemma {:induction false} StepsDo(s: Sys, o: Origin, w: World)
    requires Enabled(s, Take(o)) && s.links[o].chan[0].origin == o
    ensures var t, x := Run(s, StepsOf(s, o, w)), s.links[o].chan[0];
            if x.hlc <= HighWater(s.mem, o) then
              t.mem == s.mem && t.saved == s.saved && Inner(t, o) == Inner(s, o) && o in t.links
            else
              && t.mem == s.mem[o := x.hlc] && t.saved == (if w.innerOk && w.saveOk then t.mem else s.saved)
              && Inner(t, o) == (if w.innerOk then Inner(s, o) + [x] else Inner(s, o))
              && (o in t.links <==> w.innerOk && w.saveOk)
  {
    hide Run;
    One(s, Take(o));
    Two(s, Take(o), Drop(o));
    Three(s, Take(o), InnerOk(o), Drop(o));
    Three(s, Take(o), InnerOk(o), SaveOk(o));
  }

  /** The step system does what the code does: from matching states, a call and
      its steps end in matching states. */
  method ApplyRefines(f: IdempotentApplier, ghost s: Sys, o: Origin, x: Rec, w: World) returns (r: ApplyResult)
    requires Enabled(s, Take(o)) && s.links[o].chan[0] == x && x.origin == o
    requires && (forall p :: HighWater(f.state.lastApplied, p) == HighWater(s.mem, p))
             && (forall p :: HighWater(f.disk, p) == HighWater(s.saved, p))
    requires f.delivered == Inner(s, o)
    modifies f, f.state
    ensures var t := Run(s, StepsOf(s, o, w));
            && (forall p :: HighWater(f.state.lastApplied, p) == HighWater(t.mem, p))
            && (forall p :: HighWater(f.disk, p) == HighWater(t.saved, p))
            && f.delivered == Inner(t, o)
            && (r == Applied <==> o in t.links)
  {
    hide Run, Do, StepsOf, Enabled;
    StepsDo(s, o, w);
    r := f.Apply(Some(x), w);
  }
}
