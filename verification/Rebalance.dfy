/** Rebalancing: which documents a node ships when a node joins or leaves the
    ring. */
module Rebalances {
  import opened Prelude
  import opened Rings

  /** A scanned document and the ring position of its routing key. */
  datatype Doc = Doc(id: nat, at: nat)

  /** The owner named when the ring is empty: the empty name. */
  const NOBODY: Node := 0

  /** The ring's first choice for a position. */
  function Primary(find: Search, vn: seq<VNode>, at: nat): Node {
    if Lookup(find, vn, at) == [] then NOBODY else Lookup(find, vn, at)[0]
  }

  datatype Change = Join(local: Node, target: Node) | Leave(removed: Node)

  /** Whether a document with these primaries before and after is considered. */
  predicate Considers(c: Change, before: Node, after: Node) {
    match c
    case Join(local, target) => before == local && after == target
    case Leave(removed) => before == removed && after != removed
  }

  datatype Shipment = Shipment(to: Node, doc: Doc)

  /** The considered documents, each with its new primary, in scan order. */
  function Plan(find: Search, docs: seq<Doc>, vn: seq<VNode>, after: seq<VNode>, c: Change): seq<Shipment> {
    if docs == [] then []
    else
      var init, d := Plan(find, docs[..|docs| - 1], vn, after, c), docs[|docs| - 1];
      var to := Primary(find, after, d.at);
      if Considers(c, Primary(find, vn, d.at), to) then init + [Shipment(to, d)] else init
  }

  /** Whether writing a document to a node succeeds. */
  type Delivery = (Node, Doc) -> bool

  /** Shipments that leave this node and arrive. */
  function Arrived(plan: seq<Shipment>, local: Node, deliver: Delivery): seq<Shipment> {
    if plan == [] then []
    else
      var init, s := Arrived(plan[..|plan| - 1], local, deliver), plan[|plan| - 1];
      if s.to != local && deliver(s.to, s.doc) then init + [s] else init
  }

  /** Shipments that stay because this node is the new primary. */
  function Kept(plan: seq<Shipment>, local: Node): nat {
    if plan == [] then 0
    else Kept(plan[..|plan| - 1], local) + if plan[|plan| - 1].to == local then 1 else 0
  }

  lemma {:induction false} PlanIs(
      find: Search, docs: seq<Doc>, vn: seq<VNode>, after: seq<VNode>, c: Change, s: Shipment)
    ensures s in Plan(find, docs, vn, after, c) <==>
              s.doc in docs && s.to == Primary(find, after, s.doc.at) && Considers(c, Primary(find, vn, s.doc.at), s.to)
  {
    hide Primary, Considers;
    if docs != [] {
      PlanIs(find, docs[..|docs| - 1], vn, after, c, s);
      assert docs == docs[..|docs| - 1] + [docs[|docs| - 1]];
    }
  }

  lemma {:induction false} ArrivedIs(plan: seq<Shipment>, local: Node, deliver: Delivery, s: Shipment)
    ensures s in Arrived(plan, local, deliver) <==> s in plan && s.to != local && deliver(s.to, s.doc)
  {
    if plan != [] {
      ArrivedIs(plan[..|plan| - 1], local, deliver, s);
      assert plan == plan[..|plan| - 1] + [plan[|plan| - 1]];
    }
  }

  /** If as many arrived as had to leave, each of them arrived. */
  lemma {:induction false} AllArrived(plan: seq<Shipment>, local: Node, deliver: Delivery)
    ensures |Arrived(plan, local, deliver)| + Kept(plan, local) <= |plan|
    ensures |Arrived(plan, local, deliver)| + Kept(plan, local) == |plan| ==>
              forall s :: s in plan && s.to != local ==> s in Arrived(plan, local, deliver)
  {
    if plan != [] {
      AllArrived(plan[..|plan| - 1], local, deliver);
      assert plan == plan[..|plan| - 1] + [plan[|plan| - 1]];
    }
  }

  /** Which of the scanned documents are considered, and which of them stay. */
  ghost function Considered(find: Search, docs: seq<Doc>, vn: seq<VNode>, after: seq<VNode>, c: Change): set<nat> {
    set i | 0 <= i < |docs| && Considers(c, Primary(find, vn, docs[i].at), Primary(find, after, docs[i].at))
  }

  ghost function Staying(
      find: Search, docs: seq<Doc>, vn: seq<VNode>, after: seq<VNode>, c: Change, local: Node): set<nat> {
    set i | i in Considered(find, docs, vn, after, c) && Primary(find, after, docs[i].at) == local
  }

  lemma {:induction false} PlanCounts(
      find: Search, docs: seq<Doc>, vn: seq<VNode>, after: seq<VNode>, c: Change, local: Node)
    ensures var plan := Plan(find, docs, vn, after, c);
            |plan| == |Considered(find, docs, vn, after, c)|
            && Kept(plan, local) == |Staying(find, docs, vn, after, c, local)|
    decreases |docs|
  {
    hide Primary, Considers;
    if docs != [] {
      var k, d := |docs| - 1, docs[|docs| - 1];
      var init := docs[..k];
      PlanCounts(find, init, vn, after, c, local);
      PlanStep(find, docs, k, vn, after, c);
      assert docs[..k + 1] == docs;
      ArrivedStep(Plan(find, init, vn, after, c), Shipment(Primary(find, after, d.at), d), local, (_, _) => true);
      CountStep(find, docs, vn, after, c, local);
    }
  }

  lemma {:induction false} CountStep(
      find: Search, docs: seq<Doc>, vn: seq<VNode>, after: seq<VNode>, c: Change, local: Node)
    requires docs != []
    ensures var k, d := |docs| - 1, docs[|docs| - 1];
            var yes := Considers(c, Primary(find, vn, d.at), Primary(find, after, d.at));
            var stays := yes && Primary(find, after, d.at) == local;
            && |Considered(find, docs, vn, after, c)|
               == |Considered(find, docs[..k], vn, after, c)| + (if yes then 1 else 0)
            && |Staying(find, docs, vn, after, c, local)|
               == |Staying(find, docs[..k], vn, after, c, local)| + (if stays then 1 else 0)
  {
    hide Primary, Considers;
    var k, d := |docs| - 1, docs[|docs| - 1];
    var yes := Considers(c, Primary(find, vn, d.at), Primary(find, after, d.at));
    var a, b := Considered(find, docs, vn, after, c), Considered(find, docs[..k], vn, after, c);
    forall i ensures i in a <==> i in b || (i == k && yes) {}
    SetStep(a, b, k, yes);
    var e, f := Staying(find, docs, vn, after, c, local), Staying(find, docs[..k], vn, after, c, local);
    hide Considered;
    forall i | i in b ensures i < k && docs[..k][i] == docs[i] { Within(find, docs[..k], vn, after, c, i); }
    forall i ensures i in e <==> i in f || (i == k && yes && Primary(find, after, d.at) == local) {}
    SetStep(e, f, k, yes && Primary(find, after, d.at) == local);
  }

  lemma {:induction false} Within(find: Search, docs: seq<Doc>, vn: seq<VNode>, after: seq<VNode>, c: Change, i: nat)
    requires i in Considered(find, docs, vn, after, c)
    ensures i < |docs|
  {
  }

  lemma {:induction false} SetStep(a: set<nat>, b: set<nat>, k: nat, yes: bool)
    requires k !in b && forall i :: i in a <==> i in b || (i == k && yes)
    ensures |a| == |b| + if yes then 1 else 0
  {
    assert a == if yes then b + {k} else b;
  }

  // ── What the ring laws say about plans ──────────────────────────────

  /** A position's primary owns the virtual node nearest clockwise, or one of
      those, wherever the search lands. */
  lemma {:induction false} PrimaryIsNearest(find: Search, vn: seq<VNode>, at: Position) returns (u: VNode)
    requires Searches(find) && Sorted(vn) && vn != []
    ensures u in vn && u.owner == Primary(find, vn, at)
    ensures forall v :: v in vn ==> Clockwise(at, u.pos) <= Clockwise(at, v.pos)
  {
    var i := find(vn, at);
    FindStarts(find, vn, at);
    StartPlace(vn, at, i);
    LowerBoundSplits(vn, at);
    hide Dedup, LowerBound, From, Before, Searches, IsStart;
    u := Met(vn, i, 0);
    WalkMeets(vn, i, 0);
    DedupHead(WalkFrom(vn, i));
    forall v | v in vn ensures Clockwise(at, u.pos) <= Clockwise(at, v.pos) {
      var q :| 0 <= q < |vn| && vn[q] == v;
    }
  }

  /** A leaving node never stays primary, so the documents considered are
      exactly those whose primary it was. The one exception is the last node,
      leaving under the empty name: an empty ring still names it. */
  lemma {:induction false} LeaveConsiders(find: Search, vn: seq<VNode>, x: Node, at: nat)
    requires Searches(find) && Sorted(vn)
    ensures Considers(Leave(x), Primary(find, vn, at), Primary(find, Drop(vn, x), at))
      <==> Primary(find, vn, at) == x && (Drop(vn, x) != [] || x != NOBODY)
  {
    hide Lookup, Searches, Drop, Sorted;
    DropOwns(vn, x);
    var rest := Drop(vn, x);
    LookupHas(find, rest, at);
    assert Lookup(find, rest, at) != [] ==> Owns(rest, Lookup(find, rest, at)[0]);
    if rest != [] { assert Owns(rest, rest[0].owner); }
  }

  /** When a new node joins, the documents considered are exactly the local ones
      whose primary changes, and the new node is their new primary. */
  lemma {:induction false} JoinMoves(
      tag: Placement, k: nat, find: Search, vn: seq<VNode>, nodes: seq<Node>, after: seq<VNode>, nodes': seq<Node>,
      local: Node, target: Node, at: nat)
    requires RingOK(tag, k, vn, nodes) && RingOK(tag, k, after, nodes') && Searches(find) && !ThirdOwner(after, at)
    requires k >= 1 && (nodes != [] || target != NOBODY)
    requires target !in nodes && forall y :: y in nodes' <==> y in nodes || y == target
    ensures Considers(Join(local, target), Primary(find, vn, at), Primary(find, after, at))
      <==> Primary(find, vn, at) == local && Primary(find, after, at) != Primary(find, vn, at)
    ensures Primary(find, after, at) == Primary(find, vn, at) || Primary(find, after, at) == target
  {
    hide Lookup, Searches, Copies, Drop, ThirdOwner;
    AddIsUndone(tag, k, vn, nodes, after, nodes', target);
    LookupRemoval(find, after, at, target);
    LookupIsAll(tag, k, find, vn, nodes, at);
    LookupIsAll(tag, k, find, after, nodes', at);
    InPreference(Lookup(find, vn, at), nodes);
    InPreference(Lookup(find, after, at), nodes');
    WithoutIs(Lookup(find, after, at), target);
    assert target in nodes';
  }

  lemma {:induction false} InPreference(p: seq<Node>, nodes: seq<Node>)
    requires |p| == |nodes| && forall x :: x in p <==> x in nodes
    ensures nodes != [] ==> p != [] && p[0] in nodes
  {
    if nodes != [] {
      var x := p[0];
      assert x in p;
    }
  }

  /** Joining a node the ring already has moves no primary. The plan is then
      empty, except that the local node, joining itself, plans to ship itself
      every document it owns. */
  lemma {:induction false} RejoinPlan(find: Search, docs: seq<Doc>, vn: seq<VNode>, local: Node, target: Node)
    ensures local != target ==> Plan(find, docs, vn, vn, Join(local, target)) == []
    ensures local == target ==> forall d :: d in docs && Primary(find, vn, d.at) == local ==>
      Shipment(local, d) in Plan(find, docs, vn, vn, Join(local, target))
  {
    hide Primary;
    if docs != [] {
      RejoinPlan(find, docs[..|docs| - 1], vn, local, target);
      assert docs == docs[..|docs| - 1] + [docs[|docs| - 1]];
    }
  }

  /** When a node leaves, its positions go to their second choice and all others
      keep their primary. */
  lemma {:induction false} LeaveMoves(
      tag: Placement, k: nat, find: Search, vn: seq<VNode>, nodes: seq<Node>, x: Node, at: nat)
    requires RingOK(tag, k, vn, nodes) && Searches(find) && !ThirdOwner(vn, at) && k >= 1 && x in nodes
    ensures Primary(find, vn, at) != x ==> Primary(find, Drop(vn, x), at) == Primary(find, vn, at)
    ensures Primary(find, vn, at) == x && |nodes| >= 2 ==>
      |Lookup(find, vn, at)| >= 2 && Primary(find, Drop(vn, x), at) == Lookup(find, vn, at)[1] != x
    ensures Primary(find, vn, at) == x && |nodes| == 1 ==> Primary(find, Drop(vn, x), at) == NOBODY
  {
    hide Lookup, Searches, Copies, ThirdOwner;
    LookupRemoval(find, vn, at, x);
    LookupIsAll(tag, k, find, vn, nodes, at);
    var p := Lookup(find, vn, at);
    WithoutIs(p, x);
    if p[0] == x { WithoutHead(p, x); }
  }

  lemma {:induction false} WithoutHead(p: seq<Node>, x: Node)
    requires Distinct(p) && p != [] && p[0] == x
    ensures Without(p, x) == p[1..]
  {
    WithoutIs(p[1..], x);
    assert forall i :: 0 <= i < |p[1..]| ==> p[1..][i] == p[i + 1];
  }

  // ── The transfers ───────────────────────────────────────────────────

  datatype Report = Report(considered: nat, retained: nat, transferred: nat, failed: nat)

  /** First choice, as the coordinator asks the ring for it. */
  method OwnerOf(ring: Ring, at: nat) returns (o: Node)
    requires ring.Valid()
    ensures o == Primary(ring.find, ring.vnodes, at)
  {
    var l := ring.PreferenceList(at, 1);
    o := if l == [] then NOBODY else l[0];
  }

  lemma {:induction false} PlanStep(
      find: Search, docs: seq<Doc>, i: nat, vn: seq<VNode>, after: seq<VNode>, c: Change)
    requires i < |docs|
    ensures var d := docs[i];
            Plan(find, docs[..i + 1], vn, after, c) ==
              if Considers(c, Primary(find, vn, d.at), Primary(find, after, d.at))
              then Plan(find, docs[..i], vn, after, c) + [Shipment(Primary(find, after, d.at), d)]
              else Plan(find, docs[..i], vn, after, c)
  {
    assert docs[..i + 1][..i] == docs[..i];
  }

  lemma {:induction false} ArrivedStep(plan: seq<Shipment>, s: Shipment, local: Node, deliver: Delivery)
    ensures Arrived(plan + [s], local, deliver)
         == Arrived(plan, local, deliver) + if s.to != local && deliver(s.to, s.doc) then [s] else []
    ensures Kept(plan + [s], local) == Kept(plan, local) + if s.to == local then 1 else 0
  {
    assert (plan + [s])[..|plan|] == plan;
  }

  /** The local documents whose new primary is the joining node, offered to it
      one by one. */
  method ShipJoined(ring: Ring, joined: Ring, local: Node, target: Node, docs: seq<Doc>, deliver: Delivery)
    returns (r: Report, sent: seq<Shipment>)
    requires ring.Valid() && joined.Valid() && joined.find == ring.find
    ensures r.considered == |Plan(ring.find, docs, ring.vnodes, joined.vnodes, Join(local, target))|
    ensures r.considered == r.transferred + r.failed && r.transferred == |sent| && r.retained == 0
    ensures forall s ::
      s in sent <==> s in Plan(ring.find, docs, ring.vnodes, joined.vnodes, Join(local, target)) && deliver(s.to, s.doc)
    ensures r.failed == 0 ==> sent == Plan(ring.find, docs, ring.vnodes, joined.vnodes, Join(local, target))
  {
    hide RingOK, Lookup, Searches, Primary, Plan;
    var considered, transferred, failed := 0, 0, 0;
    sent := [];
    ghost var c := Join(local, target);
    EmptyPlan(ring.find, ring.vnodes, joined.vnodes, c);
    ghost var plan := [];
    var i := 0;
    while i < |docs|
      invariant i <= |docs|
      invariant plan == Plan(ring.find, docs[..i], ring.vnodes, joined.vnodes, c) && considered == |plan|
      invariant considered == transferred + failed && transferred == |sent|
      invariant forall s :: s in sent <==> s in plan && deliver(s.to, s.doc)
      invariant failed == 0 ==> sent == plan
    {
      var before := OwnerOf(ring, docs[i].at);
      var after := OwnerOf(joined, docs[i].at);
      PlanStep(ring.find, docs, i, ring.vnodes, joined.vnodes, c);
      if before == local && after == target {
        considered := considered + 1;
        plan := plan + [Shipment(target, docs[i])];
        if deliver(target, docs[i]) {
          transferred := transferred + 1;
          sent := sent + [Shipment(target, docs[i])];
        } else {
          failed := failed + 1;
        }
      }
      i := i + 1;
    }
    assert docs[..i] == docs;
    r := Report(considered, 0, transferred, failed);
  }

  lemma {:induction false} EmptyPlan(find: Search, vn: seq<VNode>, after: seq<VNode>, c: Change)
    ensures Plan(find, [], vn, after, c) == []
  {
  }

  /** Ships to a joining node what becomes its own: the planned documents, no
      others, and all of them when nothing failed. */
  method AddNodeTransfer(ring: Ring, local: Node, target: Node, docs: seq<Doc>, deliver: Delivery)
    returns (r: Report, sent: seq<Shipment>, joined: Ring)
    requires ring.Valid()
    ensures fresh(joined) && joined.Valid()
    ensures joined.tag == ring.tag && joined.find == ring.find && joined.perNode == ring.perNode
    ensures forall y :: y in joined.nodes <==> y in ring.nodes || y == target
    ensures target in ring.nodes ==> joined.vnodes == ring.vnodes
    ensures r.considered == |set i | 0 <= i < |docs| && Primary(ring.find, ring.vnodes, docs[i].at) == local
                                      && Primary(ring.find, joined.vnodes, docs[i].at) == target|
    ensures r.considered == r.transferred + r.failed && r.transferred == |sent| && r.retained == 0
    ensures forall s :: s in sent <==>
      && s.doc in docs && Primary(ring.find, ring.vnodes, s.doc.at) == local
      && Primary(ring.find, joined.vnodes, s.doc.at) == target == s.to && deliver(s.to, s.doc)
    ensures r.failed == 0 ==> sent == Plan(ring.find, docs, ring.vnodes, joined.vnodes, Join(local, target))
  {
    hide RingOK, Lookup, Searches, Primary, Plan;
    joined := new Ring.Copy(ring);
    joined.AddNode(target);
    r, sent := ShipJoined(ring, joined, local, target, docs, deliver);
    forall s ensures s in Plan(ring.find, docs, ring.vnodes, joined.vnodes, Join(local, target)) <==>
      && s.doc in docs && Primary(ring.find, ring.vnodes, s.doc.at) == local
      && Primary(ring.find, joined.vnodes, s.doc.at) == target == s.to
    {
      PlanIs(ring.find, docs, ring.vnodes, joined.vnodes, Join(local, target), s);
    }
    PlanCounts(ring.find, docs, ring.vnodes, joined.vnodes, Join(local, target), local);
    assert Considered(ring.find, docs, ring.vnodes, joined.vnodes, Join(local, target))
        == set i | 0 <= i < |docs| && Primary(ring.find, ring.vnodes, docs[i].at) == local
                   && Primary(ring.find, joined.vnodes, docs[i].at) == target;
  }

  /** The departing node's documents, kept or offered to their new primaries. */
  method ShipLeft(ring: Ring, rest: Ring, local: Node, removed: Node, docs: seq<Doc>, deliver: Delivery)
    returns (r: Report, sent: seq<Shipment>)
    requires ring.Valid() && rest.Valid() && rest.find == ring.find
    ensures var plan := Plan(ring.find, docs, ring.vnodes, rest.vnodes, Leave(removed));
            r.considered == |plan| && r.retained == Kept(plan, local) && sent == Arrived(plan, local, deliver)
    ensures r.considered == r.retained + r.transferred + r.failed && r.transferred == |sent|
  {
    hide RingOK, Lookup, Searches, Primary, Plan, Arrived, Kept;
    var considered, retained, transferred, failed := 0, 0, 0, 0;
    sent := [];
    ghost var c := Leave(removed);
    EmptyPlan(ring.find, ring.vnodes, rest.vnodes, c);
    EmptyArrived(local, deliver);
    ghost var plan := [];
    var i := 0;
    while i < |docs|
      invariant i <= |docs|
      invariant plan == Plan(ring.find, docs[..i], ring.vnodes, rest.vnodes, c) && considered == |plan|
      invariant considered == retained + transferred + failed && transferred == |sent|
      invariant retained == Kept(plan, local) && sent == Arrived(plan, local, deliver)
    {
      var before := OwnerOf(ring, docs[i].at);
      var after := OwnerOf(rest, docs[i].at);
      PlanStep(ring.find, docs, i, ring.vnodes, rest.vnodes, c);
      if before == removed && after != removed {
        considered := considered + 1;
        ArrivedStep(plan, Shipment(after, docs[i]), local, deliver);
        plan := plan + [Shipment(after, docs[i])];
        if after == local {
          retained := retained + 1;
        } else if deliver(after, docs[i]) {
          transferred := transferred + 1;
          sent := sent + [Shipment(after, docs[i])];
        } else {
          failed := failed + 1;
        }
      }
      i := i + 1;
    }
    assert docs[..i] == docs;
    r := Report(considered, retained, transferred, failed);
  }

  lemma {:induction false} EmptyArrived(local: Node, deliver: Delivery)
    ensures Arrived([], local, deliver) == [] && Kept([], local) == 0
  {
  }

  /** Ships what a departing node owned: every document whose primary it was is
      kept, delivered or counted as failed, and with no failure each one not
      kept is at its new primary. No other document is shipped. */
  method RemoveNodeTransfer(ring: Ring, local: Node, removed: Node, docs: seq<Doc>, deliver: Delivery)
    returns (r: Report, sent: seq<Shipment>)
    requires ring.Valid()
    ensures forall s :: s in sent <==>
      && s.doc in docs && Primary(ring.find, ring.vnodes, s.doc.at) == removed && Names(ring.vnodes, removed)
      && s.to == Primary(ring.find, Drop(ring.vnodes, removed), s.doc.at) != local && deliver(s.to, s.doc)
    ensures r.considered == |Owned(ring.find, docs, ring.vnodes, removed)|
    ensures r.retained == |set i | i in Owned(ring.find, docs, ring.vnodes, removed)
                                   && Primary(ring.find, Drop(ring.vnodes, removed), docs[i].at) == local|
    ensures r.considered == r.retained + r.transferred + r.failed && r.transferred == |sent|
    ensures r.failed == 0 && Names(ring.vnodes, removed) ==>
      forall d :: d in docs && Primary(ring.find, ring.vnodes, d.at) == removed ==>
        var to := Primary(ring.find, Drop(ring.vnodes, removed), d.at);
        to == local || Shipment(to, d) in sent
  {
    hide RingOK, Lookup, Searches, Primary, Plan, Arrived, Kept, Considered, Staying, Owned, Names, Drop;
    var rest := new Ring.Copy(ring);
    rest.RemoveNode(removed);
    r, sent := ShipLeft(ring, rest, local, removed, docs, deliver);
    ghost var plan := Plan(ring.find, docs, ring.vnodes, rest.vnodes, Leave(removed));
    AllArrived(plan, local, deliver);
    PlanCounts(ring.find, docs, ring.vnodes, rest.vnodes, Leave(removed), local);
    LeavePlan(ring, docs, removed, local);
    forall s ensures s in sent <==> s in plan && s.to != local && deliver(s.to, s.doc) {
      ArrivedIs(plan, local, deliver, s);
    }
  }

  /** The documents whose primary the node is, if the ring without it can name
      another. */
  ghost function Owned(find: Search, docs: seq<Doc>, vn: seq<VNode>, removed: Node): set<nat> {
    set i | 0 <= i < |docs| && Primary(find, vn, docs[i].at) == removed && Names(vn, removed)
  }

  /** The ring without the node names someone else for every position: it has
      other nodes, or the empty name that stands for nobody is not the node's. */
  ghost predicate Names(vn: seq<VNode>, removed: Node) {
    (exists v :: v in vn && v.owner != removed) || removed != NOBODY
  }

  lemma {:induction false} LeavePlan(ring: Ring, docs: seq<Doc>, removed: Node, local: Node)
    requires ring.Valid()
    ensures var rest := Drop(ring.vnodes, removed);
            && (forall s :: s in Plan(ring.find, docs, ring.vnodes, rest, Leave(removed)) <==>
                  && s.doc in docs && Primary(ring.find, ring.vnodes, s.doc.at) == removed
                  && Names(ring.vnodes, removed) && s.to == Primary(ring.find, rest, s.doc.at))
            && Considered(ring.find, docs, ring.vnodes, rest, Leave(removed))
               == Owned(ring.find, docs, ring.vnodes, removed)
            && Staying(ring.find, docs, ring.vnodes, rest, Leave(removed), local)
               == set i | i in Owned(ring.find, docs, ring.vnodes, removed)
                          && Primary(ring.find, rest, docs[i].at) == local
  {
    hide Copies, Lookup, Searches, Primary, Plan, Drop, Considers, Sorted;
    var rest := Drop(ring.vnodes, removed);
    DropOwns(ring.vnodes, removed);
    assert rest != [] <==> exists v :: v in ring.vnodes && v.owner != removed by {
      if rest != [] { assert rest[0] in rest; }
    }
    forall d: Doc
      ensures Considers(Leave(removed), Primary(ring.find, ring.vnodes, d.at), Primary(ring.find, rest, d.at))
      <==> Primary(ring.find, ring.vnodes, d.at) == removed && Names(ring.vnodes, removed)
    {
      LeaveConsiders(ring.find, ring.vnodes, removed, d.at);
    }
    forall s ensures s in Plan(ring.find, docs, ring.vnodes, rest, Leave(removed)) <==>
      && s.doc in docs && Primary(ring.find, ring.vnodes, s.doc.at) == removed
      && Names(ring.vnodes, removed) && s.to == Primary(ring.find, rest, s.doc.at)
    {
      PlanIs(ring.find, docs, ring.vnodes, rest, Leave(removed), s);
    }
  }
}
