/** The consistent-hash ring: virtual nodes on a circle, and the clockwise walk
    that assigns each position its preferred nodes. */
module Rings {
  import opened Prelude
  import LittleEndian

  /** Node names, by their rank among the names in use; the empty name has rank
      zero. */
  type Node = nat

  /** Hash positions are 64 bits wide. */
  type Position = p: nat | p < 0x1_0000_0000_0000_0000

  datatype VNode = VNode(pos: Position, owner: Node)

  // ── The walk ────────────────────────────────────────────────────────

  function From(vn: seq<VNode>, at: nat): seq<VNode> {
    if vn == [] then [] else if vn[0].pos >= at then [vn[0]] + From(vn[1..], at) else From(vn[1..], at)
  }

  function Before(vn: seq<VNode>, at: nat): seq<VNode> {
    if vn == [] then [] else if vn[0].pos < at then [vn[0]] + Before(vn[1..], at) else Before(vn[1..], at)
  }

  function Owners(vn: seq<VNode>): (r: seq<Node>)
    ensures |r| == |vn| && forall i :: 0 <= i < |r| ==> r[i] == vn[i].owner
  {
    if vn == [] then [] else [vn[0].owner] + Owners(vn[1..])
  }

  /** Owners in ring order from an index, once around. */
  function WalkFrom(vn: seq<VNode>, start: nat): seq<Node> {
    if start <= |vn| then Owners(vn[start..]) + Owners(vn[..start]) else []
  }

  /** Owners in clockwise order from a position, once around. */
  function Walk(vn: seq<VNode>, at: nat): seq<Node> { Owners(From(vn, at)) + Owners(Before(vn, at)) }

  /** First occurrences, in order. */
  function Dedup(s: seq<Node>): seq<Node> {
    if s == [] then []
    else
      var d, x := Dedup(s[..|s| - 1]), s[|s| - 1];
      if x in d then d else d + [x]
  }

  /** All nodes in order of preference for a position. */
  function Preference(vn: seq<VNode>, at: nat): seq<Node> { Dedup(Walk(vn, at)) }

  function Take(n: nat, s: seq<Node>): seq<Node> { if n <= |s| then s[..n] else s }

  function Drop(vn: seq<VNode>, x: Node): seq<VNode> {
    if vn == [] then [] else if vn[0].owner == x then Drop(vn[1..], x) else [vn[0]] + Drop(vn[1..], x)
  }

  lemma {:induction false} DedupIs(s: seq<Node>)
    ensures Distinct(Dedup(s)) && forall x :: x in Dedup(s) <==> x in s
  {
    if s != [] {
      DedupIs(s[..|s| - 1]);
      assert s == s[..|s| - 1] + [s[|s| - 1]];
    }
  }

  lemma {:induction false} DedupPrefix(s: seq<Node>, k: nat)
    requires k <= |s|
    ensures Dedup(s[..k]) <= Dedup(s)
  {
    if k < |s| {
      DedupPrefix(s[..|s| - 1], k);
      assert s[..|s| - 1][..k] == s[..k];
    } else {
      assert s[..k] == s;
    }
  }

  lemma {:induction false} WithoutSnoc(s: seq<Node>, y: Node, x: Node)
    ensures Without(s + [y], x) == if y == x then Without(s, x) else Without(s, x) + [y]
  {
    WithoutCat(s, [y], x);
    assert [y][1..] == [] && Without([y], x) == if y == x then [] else [y];
  }

  lemma {:induction false} DedupSnoc(s: seq<Node>, y: Node)
    ensures Dedup(s + [y]) == if y in s then Dedup(s) else Dedup(s) + [y]
  {
    assert (s + [y])[..|s|] == s;
    DedupIs(s);
  }

  lemma {:induction false} DedupWithout(s: seq<Node>, x: Node)
    ensures Dedup(Without(s, x)) == Without(Dedup(s), x)
  {
    if s != [] {
      var init, y := s[..|s| - 1], s[|s| - 1];
      DedupWithout(init, x);
      assert s == init + [y];
      hide Dedup, Without;
      WithoutSnoc(init, y, x);
      WithoutSnoc(Dedup(init), y, x);
      DedupSnoc(init, y);
      DedupSnoc(Without(init, x), y);
      WithoutIs(init, x);
    }
  }

  lemma {:induction false} DropFrom(vn: seq<VNode>, at: nat, x: Node)
    ensures Owners(From(Drop(vn, x), at)) == Without(Owners(From(vn, at)), x)
  {
    if vn != [] {
      DropFrom(vn[1..], at, x);
      var rest := From(vn[1..], at);
      DropCons(vn, x);
      if vn[0].pos >= at {
        OwnersCons(vn[0], rest);
        if vn[0].owner != x {
          FromCons(vn[0], Drop(vn[1..], x), at);
          OwnersCons(vn[0], From(Drop(vn[1..], x), at));
        }
      } else if vn[0].owner != x {
        FromCons(vn[0], Drop(vn[1..], x), at);
      }
    }
  }

  lemma {:induction false} DropBefore(vn: seq<VNode>, at: nat, x: Node)
    ensures Owners(Before(Drop(vn, x), at)) == Without(Owners(Before(vn, at)), x)
  {
    if vn != [] {
      DropBefore(vn[1..], at, x);
      var rest := Before(vn[1..], at);
      DropCons(vn, x);
      if vn[0].pos < at {
        OwnersCons(vn[0], rest);
        if vn[0].owner != x {
          BeforeCons(vn[0], Drop(vn[1..], x), at);
          OwnersCons(vn[0], Before(Drop(vn[1..], x), at));
        }
      } else if vn[0].owner != x {
        BeforeCons(vn[0], Drop(vn[1..], x), at);
      }
    }
  }

  lemma {:induction false} DropCons(vn: seq<VNode>, x: Node)
    requires vn != []
    ensures Drop(vn, x) == if vn[0].owner == x then Drop(vn[1..], x) else [vn[0]] + Drop(vn[1..], x)
  {
  }

  lemma {:induction false} FromCons(v: VNode, rest: seq<VNode>, at: nat)
    ensures From([v] + rest, at) == if v.pos >= at then [v] + From(rest, at) else From(rest, at)
  {
    assert ([v] + rest)[1..] == rest;
  }

  lemma {:induction false} BeforeCons(v: VNode, rest: seq<VNode>, at: nat)
    ensures Before([v] + rest, at) == if v.pos < at then [v] + Before(rest, at) else Before(rest, at)
  {
    assert ([v] + rest)[1..] == rest;
  }

  lemma {:induction false} OwnersCons(v: VNode, rest: seq<VNode>)
    ensures Owners([v] + rest) == [v.owner] + Owners(rest)
    ensures forall x ::
      Without([v.owner] + Owners(rest), x)
      == if v.owner == x then Without(Owners(rest), x) else [v.owner] + Without(Owners(rest), x)
  {
    assert ([v] + rest)[1..] == rest;
    assert ([v.owner] + Owners(rest))[1..] == Owners(rest);
  }

  /** Removing a node deletes it from every preference list and changes nothing
      else. */
  lemma {:induction false} RemovalLaw(vn: seq<VNode>, at: nat, x: Node)
    ensures Preference(Drop(vn, x), at) == Without(Preference(vn, at), x)
  {
    DropFrom(vn, at, x);
    DropBefore(vn, at, x);
    WithoutCat(Owners(From(vn, at)), Owners(Before(vn, at)), x);
    DedupWithout(Walk(vn, at), x);
  }

  // ── Ring states ─────────────────────────────────────────────────────

  /** Where each node's i-th virtual node hashes to. */
  type Placement = (Node, nat) -> Position

  /** How often a node's first k virtual nodes hash to this one. */
  function Copies(tag: Placement, k: nat, v: VNode): nat {
    if k == 0 then 0 else Copies(tag, k - 1, v) + if tag(v.owner, k - 1) == v.pos then 1 else 0
  }

  /** By position; nodes that share one stand in the order of their names. */
  predicate Le(a: VNode, b: VNode) { a.pos < b.pos || (a.pos == b.pos && a.owner <= b.owner) }

  ghost predicate Sorted(vn: seq<VNode>) { forall i, j :: 0 <= i < j < |vn| ==> Le(vn[i], vn[j]) }

  ghost predicate SortedNodes(s: seq<Node>) { forall i, j :: 0 <= i < j < |s| ==> s[i] < s[j] }

  /** The virtual nodes are exactly those of the physical nodes, in order. */
  ghost predicate RingOK(tag: Placement, k: nat, vn: seq<VNode>, nodes: seq<Node>) {
    && Sorted(vn) && SortedNodes(nodes)
    && (forall v :: multiset(vn)[v] == if v.owner in nodes then Copies(tag, k, v) else 0)
  }

  lemma {:induction false} SortedUnique(a: seq<VNode>, b: seq<VNode>)
    requires Sorted(a) && Sorted(b) && multiset(a) == multiset(b)
    ensures a == b
  {
    hide Sorted;
    assert |a| == |multiset(a)| && |b| == |multiset(b)|;
    if a != [] {
      assert a[0] in multiset(b) && b[0] in multiset(a);
      HeadFirst(a, b[0]);
      HeadFirst(b, a[0]);
      TailSorted(a);
      TailSorted(b);
      TailBag(a);
      TailBag(b);
      SortedUnique(a[1..], b[1..]);
      assert a == [a[0]] + a[1..] && b == [b[0]] + b[1..];
    }
  }

  lemma {:induction false} TailSorted(a: seq<VNode>)
    requires Sorted(a) && a != []
    ensures Sorted(a[1..])
  {
    assert forall i :: 0 <= i < |a[1..]| ==> a[1..][i] == a[i + 1];
  }

  lemma {:induction false} HeadLeast(a: seq<VNode>)
    requires Sorted(a) && a != []
    ensures forall i :: 0 <= i < |a| ==> a[0].pos <= a[i].pos
  {
  }

  lemma {:induction false} TailBag(a: seq<VNode>)
    requires a != []
    ensures multiset(a) == multiset{a[0]} + multiset(a[1..]) && multiset(a[1..]) == multiset(a) - multiset{a[0]}
  {
    assert a == [a[0]] + a[1..];
  }

  lemma {:induction false} HeadFirst(a: seq<VNode>, v: VNode)
    requires Sorted(a) && v in a
    ensures a != [] && Le(a[0], v)
  {
    var i :| 0 <= i < |a| && a[i] == v;
  }

  lemma {:induction false} NodesUnique(a: seq<Node>, b: seq<Node>)
    requires SortedNodes(a) && SortedNodes(b) && forall x :: x in a <==> x in b
    ensures a == b
  {
    if a == [] {
      if b != [] { HasSome(b); }
    } else {
      assert a[0] in b && b != [];
      assert b[0] in a;
      assert a[0] == b[0];
      var c, d := a[1..], b[1..];
      assert a == [a[0]] + c && b == [b[0]] + d;
      assert forall i :: 0 <= i < |c| ==> c[i] == a[i + 1];
      assert forall i :: 0 <= i < |d| ==> d[i] == b[i + 1];
      assert a[0] !in c && b[0] !in d;
      InCons(a);
      InCons(b);
      NodesUnique(c, d);
    }
  }

  /** The state depends on the set of nodes alone, not on the order in which
      they came and went. */
  lemma {:induction false} StateIsNodeSet(
      tag: Placement, k: nat, vn: seq<VNode>, nodes: seq<Node>, vn': seq<VNode>, nodes': seq<Node>)
    requires RingOK(tag, k, vn, nodes) && RingOK(tag, k, vn', nodes') && forall x :: x in nodes <==> x in nodes'
    ensures vn == vn' && nodes == nodes'
  {
    NodesUnique(nodes, nodes');
    hide Copies;
    assert forall v :: multiset(vn)[v] == multiset(vn')[v];
    SortedUnique(vn, vn');
  }

  lemma {:induction false} RingHas(tag: Placement, k: nat, vn: seq<VNode>, nodes: seq<Node>, v: VNode)
    requires RingOK(tag, k, vn, nodes)
    ensures v in vn <==> v.owner in nodes && Copies(tag, k, v) > 0
  {
    hide Copies;
    assert v in vn <==> v in multiset(vn);
  }

  /** Every node owns some virtual node, if there are any, and only nodes do. */
  lemma {:induction false} WalkFromHas(tag: Placement, k: nat, vn: seq<VNode>, nodes: seq<Node>, i: nat, x: Node)
    requires RingOK(tag, k, vn, nodes) && i <= |vn|
    ensures x in WalkFrom(vn, i) <==> x in nodes && k > 0
  {
    hide RingOK, WalkFrom, Copies;
    if x in nodes && k > 0 {
      var v := VNode(tag(x, 0), x);
      CopiesSome(tag, k, v, 0);
      RingHas(tag, k, vn, nodes, v);
      OwnerWalked(vn, i, v);
    }
    if x in WalkFrom(vn, i) {
      var v := WalkedOwner(vn, i, x);
      RingHas(tag, k, vn, nodes, v);
      NoCopies(tag);
    }
  }

  lemma {:induction false} OwnerWalked(vn: seq<VNode>, i: nat, v: VNode)
    requires i <= |vn| && v in vn
    ensures v.owner in WalkFrom(vn, i)
  {
    hide Owners;
    assert vn == vn[..i] + vn[i..];
    if v in vn[i..] { OwnersHave(vn[i..], v); } else { OwnersHave(vn[..i], v); }
  }

  lemma {:induction false} WalkedOwner(vn: seq<VNode>, i: nat, x: Node) returns (v: VNode)
    requires i <= |vn| && x in WalkFrom(vn, i)
    ensures v in vn && v.owner == x
  {
    hide Owners;
    var w := WalkFrom(vn, i);
    var j :| 0 <= j < |w| && w[j] == x;
    v := if j < |vn| - i then vn[i + j] else vn[j - (|vn| - i)];
  }

  lemma {:induction false} CopiesSome(tag: Placement, k: nat, v: VNode, i: nat)
    requires i < k && tag(v.owner, i) == v.pos
    ensures Copies(tag, k, v) > 0
  {
    if i < k - 1 { CopiesSome(tag, k - 1, v, i); }
  }

  lemma {:induction false} OwnersHave(vn: seq<VNode>, v: VNode)
    requires v in vn
    ensures v.owner in Owners(vn)
  {
    var i :| 0 <= i < |vn| && vn[i] == v;
    assert Owners(vn)[i] == v.owner;
  }

  /** A position's preference list names every node once. */
  lemma {:induction false} PreferenceIsAll(tag: Placement, k: nat, vn: seq<VNode>, nodes: seq<Node>, at: nat)
    requires RingOK(tag, k, vn, nodes)
    ensures Distinct(Preference(vn, at)) && |Preference(vn, at)| == if k == 0 then 0 else |nodes|
    ensures forall x :: x in Preference(vn, at) <==> x in nodes && k > 0
  {
    hide Walk, Dedup;
    WalkIs(vn, at);
    DedupIs(Walk(vn, at));
    forall x ensures x in Walk(vn, at) <==> x in nodes && k > 0 {
      WalkFromHas(tag, k, vn, nodes, LowerBound(vn, at), x);
    }
    SameSize(Preference(vn, at), if k > 0 then nodes else []);
  }

  lemma {:induction false} SortedCons(v: VNode, a: seq<VNode>)
    requires Sorted(a) && forall w :: w in a ==> Le(v, w)
    ensures Sorted([v] + a)
  {
    assert forall i :: 0 <= i < |a| ==> a[i] in a;
  }

  lemma {:induction false} DropBag(vn: seq<VNode>, x: Node, v: VNode)
    ensures multiset(Drop(vn, x))[v] == if v.owner == x then 0 else multiset(vn)[v]
  {
    if vn != [] {
      var rest := Drop(vn[1..], x);
      DropBag(vn[1..], x, v);
      DropCons(vn, x);
      TailBag(vn);
      hide Drop;
      assert multiset([vn[0]] + rest) == multiset{vn[0]} + multiset(rest);
    }
  }

  lemma {:induction false} DropSorted(vn: seq<VNode>, x: Node)
    requires Sorted(vn)
    ensures Sorted(Drop(vn, x)) && forall v :: v in Drop(vn, x) ==> v in vn
  {
    if vn != [] {
      TailSorted(vn);
      InCons(vn);
      DropSorted(vn[1..], x);
      DropCons(vn, x);
      hide Drop, Sorted;
      if vn[0].owner != x {
        forall v | v in Drop(vn[1..], x) ensures Le(vn[0], v) { HeadFirst(vn, v); }
        SortedCons(vn[0], Drop(vn[1..], x));
      }
    }
  }

  lemma {:induction false} DropIs(vn: seq<VNode>, x: Node)
    requires Sorted(vn)
    ensures Sorted(Drop(vn, x)) && forall v :: v in Drop(vn, x) ==> v in vn
    ensures forall v :: multiset(Drop(vn, x))[v] == if v.owner == x then 0 else multiset(vn)[v]
  {
    hide Drop, Sorted;
    DropSorted(vn, x);
    forall v ensures multiset(Drop(vn, x))[v] == if v.owner == x then 0 else multiset(vn)[v] { DropBag(vn, x, v); }
  }

  /** A node's virtual nodes. */
  function Bag(tag: Placement, k: nat, x: Node): multiset<VNode> {
    if k == 0 then multiset{} else Bag(tag, k - 1, x) + multiset{VNode(tag(x, k - 1), x)}
  }

  lemma {:induction false} BagIs(tag: Placement, k: nat, x: Node)
    ensures |Bag(tag, k, x)| == k
    ensures forall v :: Bag(tag, k, x)[v] == if v.owner == x then Copies(tag, k, v) else 0
  {
    if k > 0 { BagIs(tag, k - 1, x); }
  }

  /** A virtual node stands as often as its owner's indices hash to it. */
  lemma {:induction false} CopiesIs(tag: Placement, k: nat, v: VNode)
    ensures Copies(tag, k, v) == |set i | 0 <= i < k && tag(v.owner, i) == v.pos|
  {
    if k > 0 {
      CopiesIs(tag, k - 1, v);
      var a, b := set i | 0 <= i < k && tag(v.owner, i) == v.pos, set i | 0 <= i < k - 1 && tag(v.owner, i) == v.pos;
      assert a == if tag(v.owner, k - 1) == v.pos then b + {k - 1} else b;
    }
  }

  /** Dropping the last node takes exactly its virtual nodes out. */
  lemma {:induction false} DropLast(tag: Placement, k: nat, vn: seq<VNode>, rest: seq<Node>, x: Node)
    requires RingOK(tag, k, vn, rest + [x])
    ensures RingOK(tag, k, Drop(vn, x), rest) && |vn| == |Drop(vn, x)| + k
  {
    hide Copies, Drop, Sorted, Bag;
    DropIs(vn, x);
    BagIs(tag, k, x);
    var others, nodes := Drop(vn, x), rest + [x];
    assert forall i :: 0 <= i < |rest| ==> nodes[i] == rest[i];
    assert nodes[|rest|] == x && x !in rest;
    assert forall v :: multiset(vn)[v] == (multiset(others) + Bag(tag, k, x))[v];
    assert multiset(vn) == multiset(others) + Bag(tag, k, x);
    assert |vn| == |multiset(vn)| && |others| == |multiset(others)|;
  }

  /** The ring has as many virtual nodes per node as it was told to. */
  lemma {:induction false} RingSize(tag: Placement, k: nat, vn: seq<VNode>, nodes: seq<Node>)
    requires RingOK(tag, k, vn, nodes)
    ensures |vn| == k * |nodes|
    decreases |nodes|
  {
    hide RingOK, Drop;
    if nodes == [] {
      if vn != [] { RingHas(tag, k, vn, nodes, vn[0]); }
    } else {
      var x, rest := nodes[|nodes| - 1], nodes[..|nodes| - 1];
      assert nodes == rest + [x];
      DropLast(tag, k, vn, rest, x);
      RingSize(tag, k, Drop(vn, x), rest);
    }
  }

  /** Adding a node is undone by removing it. */
  lemma {:induction false} AddIsUndone(
      tag: Placement, k: nat, vn: seq<VNode>, nodes: seq<Node>, vn': seq<VNode>, nodes': seq<Node>, x: Node)
    requires RingOK(tag, k, vn, nodes) && RingOK(tag, k, vn', nodes') && x !in nodes
    requires forall y :: y in nodes' <==> y in nodes || y == x
    ensures Drop(vn', x) == vn
  {
    hide Copies;
    DropIs(vn', x);
    assert forall v :: multiset(Drop(vn', x))[v] == multiset(vn)[v];
    SortedUnique(Drop(vn', x), vn);
  }

  /** Adding a node changes a position's first choice to that node or not at
      all, and leaves the order of the others alone. */
  lemma {:induction false} AdditionLaw(
      tag: Placement, k: nat, vn: seq<VNode>, nodes: seq<Node>, vn': seq<VNode>, nodes': seq<Node>, x: Node, at: nat)
    requires RingOK(tag, k, vn, nodes) && RingOK(tag, k, vn', nodes') && x !in nodes
    requires forall y :: y in nodes' <==> y in nodes || y == x
    ensures Without(Preference(vn', at), x) == Preference(vn, at)
    ensures Preference(vn', at) != [] && Preference(vn', at)[0] != x ==>
      Preference(vn, at) != [] && Preference(vn, at)[0] == Preference(vn', at)[0]
  {
    AddIsUndone(tag, k, vn, nodes, vn', nodes', x);
    RemovalLaw(vn', at, x);
    WithoutIs(Preference(vn', at), x);
  }

  // ── The ring ────────────────────────────────────────────────────────

  /** How many virtual nodes lie before a position. */
  function LowerBound(vn: seq<VNode>, pos: nat): (i: nat)
    ensures i <= |vn|
  {
    if vn == [] || vn[0].pos >= pos then 0 else 1 + LowerBound(vn[1..], pos)
  }

  lemma {:induction false} LowerBoundSplits(vn: seq<VNode>, pos: nat)
    requires Sorted(vn)
    ensures forall i :: 0 <= i < LowerBound(vn, pos) ==> vn[i].pos < pos
    ensures forall i :: LowerBound(vn, pos) <= i < |vn| ==> vn[i].pos >= pos
    ensures vn[LowerBound(vn, pos)..] == From(vn, pos) && vn[..LowerBound(vn, pos)] == Before(vn, pos)
  {
    hide Sorted;
    if vn != [] {
      TailSorted(vn);
      HeadLeast(vn);
      LowerBoundSplits(vn[1..], pos);
      if vn[0].pos >= pos {
        AllFrom(vn, pos);
      } else {
        var n := LowerBound(vn[1..], pos);
        assert vn[1..][n..] == vn[n + 1..];
        assert vn[..n + 1] == [vn[0]] + vn[1..][..n];
      }
    }
  }

  lemma {:induction false} AllFrom(vn: seq<VNode>, pos: nat)
    requires forall i :: 0 <= i < |vn| ==> vn[i].pos >= pos
    ensures From(vn, pos) == vn && Before(vn, pos) == []
  {
    if vn != [] {
      AllFrom(vn[1..], pos);
      assert vn == [vn[0]] + vn[1..];
    }
  }

  /** How many virtual nodes lie before one. */
  function PlaceOf(vn: seq<VNode>, v: VNode): (i: nat)
    ensures i <= |vn|
  {
    if vn == [] || Le(v, vn[0]) then 0 else 1 + PlaceOf(vn[1..], v)
  }

  lemma {:induction false} PlaceSplits(vn: seq<VNode>, v: VNode)
    requires Sorted(vn)
    ensures forall i :: 0 <= i < PlaceOf(vn, v) ==> Le(vn[i], v)
    ensures forall i :: PlaceOf(vn, v) <= i < |vn| ==> Le(v, vn[i])
  {
    if vn != [] && !Le(v, vn[0]) {
      TailSorted(vn);
      var rest := vn[1..];
      PlaceSplits(rest, v);
      assert forall i :: 1 <= i < |vn| ==> vn[i] == rest[i - 1];
    }
  }

  lemma {:induction false} InsertSorted(vn: seq<VNode>, v: VNode)
    requires Sorted(vn)
    ensures var i := PlaceOf(vn, v); Sorted(vn[..i] + [v] + vn[i..])
  {
    hide PlaceOf;
    PlaceSplits(vn, v);
    var i := PlaceOf(vn, v);
    var t := vn[..i] + [v] + vn[i..];
    assert forall j :: 0 <= j < |t| ==> t[j] == if j < i then vn[j] else if j == i then v else vn[j - 1];
  }

  lemma {:induction false} InsertBag(vn: seq<VNode>, v: VNode, i: nat)
    requires i <= |vn|
    ensures multiset(vn[..i] + [v] + vn[i..]) == multiset(vn) + multiset{v}
  {
    assert vn == vn[..i] + vn[i..];
  }

  function NodeBound(s: seq<Node>, x: Node): (i: nat)
    ensures i <= |s|
  {
    if s == [] || s[0] >= x then 0 else 1 + NodeBound(s[1..], x)
  }

  lemma {:induction false} NodeBoundSplits(s: seq<Node>, x: Node)
    requires SortedNodes(s)
    ensures forall i :: 0 <= i < NodeBound(s, x) ==> s[i] < x
    ensures forall i :: NodeBound(s, x) <= i < |s| ==> s[i] >= x
  {
    if s != [] && s[0] < x {
      var t := s[1..];
      assert forall i :: 0 <= i < |t| ==> t[i] == s[i + 1];
      NodeBoundSplits(t, x);
      assert forall i :: 1 <= i < |s| ==> s[i] == t[i - 1];
    }
  }

  lemma {:induction false} InsertNode(s: seq<Node>, x: Node)
    requires SortedNodes(s) && x !in s
    ensures var i := NodeBound(s, x); SortedNodes(s[..i] + [x] + s[i..])
    ensures var i := NodeBound(s, x); forall y :: y in s[..i] + [x] + s[i..] <==> y in s || y == x
  {
    hide NodeBound;
    NodeBoundSplits(s, x);
    var i := NodeBound(s, x);
    forall j | i <= j < |s| ensures x < s[j] { assert s[j] in s; }
    NodesInsert(s, x, i);
    InsertHas(s, x, i);
  }

  lemma {:induction false} NodesInsert(s: seq<Node>, x: Node, i: nat)
    requires && SortedNodes(s) && i <= |s| && (forall j :: 0 <= j < i ==> s[j] < x)
             && (forall j :: i <= j < |s| ==> x < s[j])
    ensures SortedNodes(s[..i] + [x] + s[i..])
  {
    var t := s[..i] + [x] + s[i..];
    assert forall j :: 0 <= j < |t| ==> t[j] == if j < i then s[j] else if j == i then x else s[j - 1];
  }

  /** How the standard library searches sorted positions. */
  type Search = (seq<VNode>, nat) -> nat

  /** What it promises: any place where the position stands, or else where it
      would go. */
  ghost predicate IsStart(vn: seq<VNode>, at: nat, i: nat) {
    if exists v :: v in vn && v.pos == at then i < |vn| && vn[i].pos == at else i == LowerBound(vn, at)
  }

  ghost predicate Searches(find: Search) {
    forall vn, at :: Sorted(vn) ==> IsStart(vn, at, find(vn, at))
  }

  /** The preference list the ring computes. */
  function Lookup(find: Search, vn: seq<VNode>, at: nat): seq<Node> { Dedup(WalkFrom(vn, find(vn, at))) }

  class Ring {
    const tag: Placement
    const find: Search
    const perNode: nat
    var vnodes: seq<VNode>
    var nodes: seq<Node>

    ghost predicate Valid()
      reads this
    {
      Searches(find) && RingOK(tag, perNode, vnodes, nodes)
    }

    constructor (tag: Placement, find: Search, perNode: nat)
      requires Searches(find)
      ensures Valid() && nodes == [] && this.tag == tag && this.find == find && this.perNode == perNode
    {
      this.tag, this.find, this.perNode := tag, find, perNode;
      vnodes, nodes := [], [];
    }

    constructor Copy(other: Ring)
      requires other.Valid()
      ensures Valid() && tag == other.tag && find == other.find && perNode == other.perNode
      ensures vnodes == other.vnodes && nodes == other.nodes
    {
      tag, find, perNode := other.tag, other.find, other.perNode;
      vnodes, nodes := other.vnodes, other.nodes;
    }

    /** Places the node's virtual nodes among the others; adding a present node
        changes nothing. */
    method AddNode(x: Node)
      requires Valid()
      modifies this
      ensures Valid() && forall y :: y in nodes <==> y in old(nodes) || y == x
      ensures old(x in nodes) ==> vnodes == old(vnodes) && nodes == old(nodes)
    {
      hide Searches, Copies;
      if x in nodes {
        return;
      }
      var i := 0;
      NoCopies(tag);
      while i < perNode
        invariant i <= perNode && nodes == old(nodes) && Sorted(vnodes)
        invariant forall v ::
          multiset(vnodes)[v] == multiset(old(vnodes))[v] + if v.owner == x then Copies(tag, i, v) else 0
      {
        hide Sorted, Copies, Searches, PlaceOf;
        var v := VNode(tag(x, i), x);
        InsertSorted(vnodes, v);
        NextCopy(tag, i, x);
        var at := PlaceOf(vnodes, v);
        InsertBag(vnodes, v, at);
        vnodes := vnodes[..at] + [v] + vnodes[at..];
        i := i + 1;
      }
      InsertNode(nodes, x);
      var at := NodeBound(nodes, x);
      nodes := nodes[..at] + [x] + nodes[at..];
    }

    /** Takes the node's virtual nodes out; removing an absent node changes
        nothing. */
    method RemoveNode(x: Node)
      requires Valid()
      modifies this
      ensures Valid() && vnodes == Drop(old(vnodes), x) && forall y :: y in nodes <==> y in old(nodes) && y != x
      ensures old(x !in nodes) ==> vnodes == old(vnodes) && nodes == old(nodes)
    {
      hide Searches, Copies;
      DropIs(vnodes, x);
      DropNodes(nodes, x);
      if x !in nodes {
        assert forall v :: multiset(Drop(vnodes, x))[v] == multiset(vnodes)[v];
        SortedUnique(vnodes, Drop(vnodes, x));
        return;
      }
      vnodes := Drop(vnodes, x);
      nodes := Without(nodes, x);
    }

    /** The first n distinct nodes met clockwise from a position. Without virtual
        nodes there are none. */
    method PreferenceList(at: nat, n: nat) returns (out: seq<Node>)
      requires Valid()
      ensures out == Take(n, Lookup(find, vnodes, at)) && out <= Lookup(find, vnodes, at)
      ensures Distinct(out) && forall x :: x in out ==> x in nodes
      ensures |out| == if perNode == 0 then 0 else if n <= |nodes| then n else |nodes|
      ensures OneOwner(vnodes, at) ==> out == Take(n, Preference(vnodes, at)) && out <= Preference(vnodes, at)
    {
      hide Searches, Preference, Sorted, Copies;
      LookupIsAll(tag, perNode, find, vnodes, nodes, at);
      if OneOwner(vnodes, at) { LookupIs(find, vnodes, at); }
      if nodes == [] || n == 0 {
        return [];
      }
      var want := if n <= |nodes| then n else |nodes|;
      out := WalkClockwise(at, want);
    }

    method WalkClockwise(at: nat, want: nat) returns (out: seq<Node>)
      requires Sorted(vnodes) && find(vnodes, at) <= |vnodes| && 0 < want
      ensures out == Take(want, Lookup(find, vnodes, at)) && out <= Lookup(find, vnodes, at)
    {
      hide WalkFrom, Dedup, Sorted;
      var start := find(vnodes, at);
      ghost var walk := WalkFrom(vnodes, start);
      WalkLength(vnodes, start);
      EmptyDedup();
      var seen: set<Node> := {};
      out := [];
      var total := |vnodes|;
      assert walk[..total] == walk;
      var step := 0;
      while step < total
        invariant step <= total
        invariant out == Dedup(walk[..step]) && |out| < want
        invariant forall x :: x in seen <==> x in out
      {
        WalkAt(vnodes, start, step);
        var owner := vnodes[(start + step) % total].owner;
        DedupStep(walk, step);
        if owner !in seen {
          seen := seen + {owner};
          out := out + [owner];
          if |out| == want {
            return;
          }
        }
        step := step + 1;
      }
    }
  }

  lemma {:induction false} EmptyDedup()
    ensures Dedup([]) == []
  {
  }

  lemma {:induction false} DedupStep(s: seq<Node>, k: nat)
    requires k < |s|
    ensures Dedup(s[..k + 1]) == if s[k] in Dedup(s[..k]) then Dedup(s[..k]) else Dedup(s[..k]) + [s[k]]
    ensures Dedup(s[..k + 1]) <= Dedup(s)
  {
    assert s[..k + 1] == s[..k] + [s[k]];
    DedupSnoc(s[..k], s[k]);
    DedupIs(s[..k]);
    DedupPrefix(s, k + 1);
  }

  lemma {:induction false} NodesCons(x: Node, a: seq<Node>)
    requires SortedNodes(a) && forall y :: y in a ==> x < y
    ensures SortedNodes([x] + a)
  {
    assert forall i :: 0 <= i < |a| ==> a[i] in a;
  }

  lemma {:induction false} DropNodes(s: seq<Node>, x: Node)
    requires SortedNodes(s)
    ensures SortedNodes(Without(s, x)) && forall y :: y in Without(s, x) <==> y in s && y != x
  {
    WithoutIs(s, x);
    if s != [] {
      var t := s[1..];
      assert forall i :: 0 <= i < |t| ==> t[i] == s[i + 1];
      DropNodes(t, x);
      if s[0] != x {
        forall y | y in Without(t, x) ensures s[0] < y {
          var i :| 0 <= i < |t| && t[i] == y;
        }
        NodesCons(s[0], Without(t, x));
      }
    }
  }

  lemma {:induction false} NoCopies(tag: Placement)
    ensures forall v :: Copies(tag, 0, v) == 0
  {
  }

  lemma {:induction false} NextCopy(tag: Placement, i: nat, x: Node)
    ensures forall v: VNode :: v.owner == x ==>
      Copies(tag, i + 1, v) == Copies(tag, i, v) + if v == VNode(tag(x, i), x) then 1 else 0
  {
  }

  lemma {:induction false} WalkLength(vn: seq<VNode>, start: nat)
    requires start <= |vn|
    ensures |WalkFrom(vn, start)| == |vn|
  {
  }

  lemma {:induction false} WalkAt(vn: seq<VNode>, start: nat, step: nat)
    requires start <= |vn| && step < |vn|
    ensures |WalkFrom(vn, start)| == |vn| && 0 <= (start + step) % |vn| < |vn|
    ensures WalkFrom(vn, start)[step] == vn[(start + step) % |vn|].owner
  {
    hide Owners;
    var n := |vn|;
    if start + step < n {
      LittleEndian.Remainder(start + step, n, 0, start + step);
    } else {
      LittleEndian.Remainder(start + step, n, 1, start + step - n);
    }
  }

  // ── Runs of changes ─────────────────────────────────────────────────

  datatype Change = Add(x: Node) | Remove(x: Node)

  /** The nodes left by a sequence of changes. */
  function After(nodes: set<Node>, changes: seq<Change>): set<Node> {
    if changes == [] then nodes
    else
      var before, c := After(nodes, changes[..|changes| - 1]), changes[|changes| - 1];
      if c.Add? then before + {c.x} else before - {c.x}
  }

  /** Every sequence of additions and removals leaves a valid ring of the
      remaining nodes; by StateIsNodeSet its state is determined by them. */
  method RunChanges(ring: Ring, changes: seq<Change>)
    requires ring.Valid()
    modifies ring
    ensures ring.Valid() && forall y :: y in ring.nodes <==> y in After(Elements(old(ring.nodes)), changes)
  {
    hide RingOK, Searches;
    ghost var start := Elements(ring.nodes);
    var n := 0;
    while n < |changes|
      invariant n <= |changes| && ring.Valid()
      invariant forall y :: y in ring.nodes <==> y in After(start, changes[..n])
    {
      var c := changes[n];
      assert changes[..n + 1][..n] == changes[..n];
      if c.Add? {
        ring.AddNode(c.x);
      } else {
        ring.RemoveNode(c.x);
      }
      n := n + 1;
    }
    assert changes[..n] == changes;
  }

  // ── What the order means ────────────────────────────────────────────

  /** Asking for more nodes extends the list: of two beginnings of a position's
      list the shorter is a beginning of the longer. */
  lemma {:induction false} ListsExtend(find: Search, vn: seq<VNode>, at: nat, few: seq<Node>, more: seq<Node>)
    requires few <= Lookup(find, vn, at) && more <= Lookup(find, vn, at) && |few| <= |more|
    ensures few <= more
  {
    hide Lookup;
    assert more == Lookup(find, vn, at)[..|more|];
  }

  /** How far a position lies clockwise from another on the circle. */
  function Clockwise(at: Position, pos: Position): nat {
    if pos >= at then pos - at else pos + 0x1_0000_0000_0000_0000 - at
  }

  predicate Nearer(at: Position, u: VNode, v: VNode) {
    Clockwise(at, u.pos) < Clockwise(at, v.pos) || (u.pos == v.pos && u.owner < v.owner)
  }

  /** Of two entries of a list without repetitions, the first one's first
      occurrence comes before every occurrence of the second. */
  lemma {:induction false} DedupOrder(s: seq<Node>, i: nat, j: nat) returns (p: nat)
    requires i < j < |Dedup(s)|
    ensures p < |s| && s[p] == Dedup(s)[i] && forall q :: 0 <= q < |s| && s[q] == Dedup(s)[j] ==> p < q
  {
    var init := s[..|s| - 1];
    DedupIs(init);
    if j < |Dedup(init)| {
      p := DedupOrder(init, i, j);
    } else {
      assert Dedup(init)[i] in init;
      p :| 0 <= p < |init| && init[p] == Dedup(init)[i];
      assert forall q :: 0 <= q < |init| ==> s[q] in init;
    }
  }

  /** The virtual node met at a step of the walk. */
  function Met(vn: seq<VNode>, start: nat, q: nat): VNode
    requires start <= |vn| && q < |vn|
  {
    if start + q < |vn| then vn[start + q] else vn[start + q - |vn|]
  }

  /** The walk meets virtual nodes in order of their distance. */
  lemma {:induction false} WalkOutward(vn: seq<VNode>, at: Position, p: nat, q: nat)
    requires Sorted(vn) && p < q < |vn|
    ensures var s := LowerBound(vn, at);
            Met(vn, s, p).owner != Met(vn, s, q).owner ==> Nearer(at, Met(vn, s, p), Met(vn, s, q))
  {
    LowerBoundSplits(vn, at);
    hide LowerBound, From, Before;
    var s := LowerBound(vn, at);
    if (s + p < |vn|) == (s + q < |vn|) { assert Le(Met(vn, s, p), Met(vn, s, q)); }
  }

  lemma {:induction false} WalkMeets(vn: seq<VNode>, start: nat, q: nat)
    requires start <= |vn| && q < |vn|
    ensures |WalkFrom(vn, start)| == |vn| && WalkFrom(vn, start)[q] == Met(vn, start, q).owner
  {
    hide Owners;
  }

  lemma {:induction false} MetSomewhere(vn: seq<VNode>, start: nat, v: VNode) returns (q: nat)
    requires start <= |vn| && v in vn
    ensures q < |vn| && Met(vn, start, q) == v
  {
    var i :| 0 <= i < |vn| && vn[i] == v;
    q := if i >= start then i - start else i + |vn| - start;
  }

  /** Nodes stand in order of the clockwise distance to the nearest of their
      virtual nodes, and by name where that is a shared position. */
  lemma {:induction false} NearestFirst(vn: seq<VNode>, at: Position, i: nat, j: nat) returns (u: VNode)
    requires Sorted(vn) && i < j < |Preference(vn, at)|
    ensures u in vn && u.owner == Preference(vn, at)[i]
    ensures forall v :: v in vn && v.owner == Preference(vn, at)[j] ==> Nearer(at, u, v)
  {
    hide Sorted, LowerBound, Walk, WalkFrom, Dedup;
    var s, w := LowerBound(vn, at), Walk(vn, at);
    WalkIs(vn, at);
    DedupIs(w);
    WalkLength(vn, s);
    var p := DedupOrder(w, i, j);
    WalkMeets(vn, s, p);
    u := Met(vn, s, p);
    forall v | v in vn && v.owner == Preference(vn, at)[j] ensures Nearer(at, u, v) {
      var q := MetSomewhere(vn, s, v);
      WalkMeets(vn, s, q);
      WalkOutward(vn, at, p, q);
    }
  }

  // ── Positions that several nodes share ──────────────────────────────

  /** All virtual nodes at exactly this position belong to one node. */
  ghost predicate OneOwner(vn: seq<VNode>, at: nat) {
    forall v, w :: v in vn && w in vn && v.pos == at && w.pos == at ==> v.owner == w.owner
  }

  /** Looking for the first place with at least this position is a search. */
  lemma {:induction false} LowerBoundSearches()
    ensures Searches(LowerBound)
  {
    forall vn: seq<VNode>, at: nat | Sorted(vn) ensures IsStart(vn, at, LowerBound(vn, at)) {
      LowerBoundSplits(vn, at);
      if v :| v in vn && v.pos == at {
        var i :| 0 <= i < |vn| && vn[i] == v;
      }
    }
  }

  /** Every search starts at or after the first place with the position, and
      before any larger one. */
  lemma {:induction false} StartPlace(vn: seq<VNode>, at: nat, i: nat)
    requires Sorted(vn) && IsStart(vn, at, i)
    ensures LowerBound(vn, at) <= i <= |vn|
    ensures LowerBound(vn, at) < i ==> i < |vn| && vn[i].pos == at
    ensures forall j :: LowerBound(vn, at) <= j < i ==> vn[j].pos == at
  {
    LowerBoundSplits(vn, at);
    hide LowerBound, From, Before;
    if v :| v in vn && v.pos == at {
      forall j | LowerBound(vn, at) <= j < i ensures vn[j].pos == at { assert Le(vn[j], vn[i]); }
    }
  }

  lemma {:induction false} WalkIs(vn: seq<VNode>, at: nat)
    requires Sorted(vn)
    ensures Walk(vn, at) == WalkFrom(vn, LowerBound(vn, at))
  {
    LowerBoundSplits(vn, at);
  }

  lemma {:induction false} DedupHead(s: seq<Node>)
    requires s != []
    ensures Dedup(s) != [] && Dedup(s)[0] == s[0]
  {
    DedupPrefix(s, 1);
    assert s[..1] == [] + [s[0]];
    EmptyDedup();
    DedupSnoc([], s[0]);
  }

  /** Turning a list whose first entries are all its next one changes nothing. */
  lemma {:induction false} DedupTurn(a: seq<Node>, b: seq<Node>, o: Node)
    requires b != [] && b[0] == o && forall i :: 0 <= i < |a| ==> a[i] == o
    ensures Dedup(a + b) == Dedup(b) && Dedup(b + a) == Dedup(b)
    decreases |a|
  {
    if a == [] {
      assert a + b == b && b + a == b;
    } else {
      var c := a[1..];
      DedupTurn(c, b, o);
      assert a + b == [o] + (c + b) && (c + b)[0] == o;
      DedupDouble(c + b);
      assert b + a == (b + c) + [o];
      assert o in b + c;
      DedupSnoc(b + c, o);
    }
  }

  lemma {:induction false} DedupDouble(s: seq<Node>)
    requires s != []
    ensures Dedup([s[0]] + s) == Dedup(s)
  {
    var init, y := s[..|s| - 1], s[|s| - 1];
    assert s == init + [y] && [s[0]] + s == ([s[0]] + init) + [y];
    DedupSnoc(init, y);
    DedupSnoc([s[0]] + init, y);
    if init != [] {
      DedupDouble(init);
    } else {
      assert [s[0]] + init == [] + [s[0]];
      EmptyDedup();
      DedupSnoc([], s[0]);
    }
  }

  lemma {:induction false} OwnersCat(a: seq<VNode>, b: seq<VNode>)
    ensures Owners(a + b) == Owners(a) + Owners(b)
  {
  }

  lemma {:induction false} StartIrrelevant(vn: seq<VNode>, at: nat, i: nat)
    requires Sorted(vn) && IsStart(vn, at, i) && OneOwner(vn, at)
    ensures Dedup(WalkFrom(vn, i)) == Preference(vn, at)
  {
    hide Dedup, Sorted, LowerBound, IsStart, Walk, WalkFrom;
    WalkIs(vn, at);
    StartPlace(vn, at, i);
    var first := LowerBound(vn, at);
    if first < i {
      assert vn[i] in vn;
      forall j | first <= j < i ensures vn[j].owner == vn[i].owner { assert vn[j] in vn; }
      TurnWalk(vn, first, i);
    }
  }

  lemma {:induction false} TurnWalk(vn: seq<VNode>, first: nat, i: nat)
    requires first <= i < |vn| && forall j :: first <= j < i ==> vn[j].owner == vn[i].owner
    ensures Dedup(WalkFrom(vn, i)) == Dedup(WalkFrom(vn, first))
  {
    hide Dedup, Owners;
    var a, b, c := vn[first..i], vn[i..], vn[..first];
    assert vn[first..] == a + b && vn[..i] == c + a;
    OwnersCat(a, b);
    OwnersCat(c, a);
    Assoc(Owners(a), Owners(b), Owners(c));
    Assoc(Owners(b), Owners(c), Owners(a));
    DedupTurn(Owners(a), Owners(b) + Owners(c), vn[i].owner);
  }

  lemma {:induction false} StartsAt(vn: seq<VNode>, v: VNode) returns (i: nat)
    requires v in vn
    ensures IsStart(vn, v.pos, i) && i < |vn| && vn[i] == v
    ensures Dedup(WalkFrom(vn, i)) != [] && Dedup(WalkFrom(vn, i))[0] == v.owner
  {
    hide Dedup, LowerBound;
    i :| 0 <= i < |vn| && vn[i] == v;
    DedupHead(WalkFrom(vn, i));
  }

  /** A position's list does not depend on where among equal positions the
      search ends, exactly when those all belong to one node. */
  lemma {:induction false} LookupExactly(vn: seq<VNode>, at: nat)
    requires Sorted(vn)
    ensures (forall i :: IsStart(vn, at, i) ==> Dedup(WalkFrom(vn, i)) == Preference(vn, at)) <==> OneOwner(vn, at)
  {
    hide Dedup, Sorted, LowerBound, Preference, WalkFrom, IsStart;
    if OneOwner(vn, at) {
      forall i | IsStart(vn, at, i) ensures Dedup(WalkFrom(vn, i)) == Preference(vn, at) {
        StartIrrelevant(vn, at, i);
      }
    } else {
      var v, w :| v in vn && w in vn && v.pos == at && w.pos == at && v.owner != w.owner;
      var i := StartsAt(vn, v);
      var j := StartsAt(vn, w);
    }
  }

  lemma {:induction false} FindStarts(find: Search, vn: seq<VNode>, at: nat)
    requires Searches(find) && Sorted(vn)
    ensures IsStart(vn, at, find(vn, at))
  {
  }

  /** There the ring's lists are the preference lists. */
  lemma {:induction false} LookupIs(find: Search, vn: seq<VNode>, at: nat)
    requires Searches(find) && Sorted(vn) && OneOwner(vn, at)
    ensures Lookup(find, vn, at) == Preference(vn, at)
  {
    StartIrrelevant(vn, at, find(vn, at));
  }

  /** Everywhere they name every node once. */
  lemma {:induction false} LookupIsAll(
      tag: Placement, k: nat, find: Search, vn: seq<VNode>, nodes: seq<Node>, at: nat)
    requires RingOK(tag, k, vn, nodes) && Searches(find)
    ensures find(vn, at) <= |vn| && Distinct(Lookup(find, vn, at))
    ensures |Lookup(find, vn, at)| == if k == 0 then 0 else |nodes|
    ensures forall x :: x in Lookup(find, vn, at) <==> x in nodes && k > 0
  {
    hide Dedup, Searches, Preference;
    var i := find(vn, at);
    FindStarts(find, vn, at);
    StartPlace(vn, at, i);
    DedupIs(WalkFrom(vn, i));
    forall x ensures x in WalkFrom(vn, i) <==> x in nodes && k > 0 { WalkFromHas(tag, k, vn, nodes, i, x); }
    SameSize(Lookup(find, vn, at), if k > 0 then nodes else []);
  }

  lemma {:induction false} OneOwnerRemoval(find: Search, vn: seq<VNode>, at: nat, x: Node)
    requires Searches(find) && Sorted(vn) && OneOwner(vn, at)
    ensures Lookup(find, Drop(vn, x), at) == Without(Lookup(find, vn, at), x)
  {
    hide Searches, Preference, Lookup, Sorted;
    DropOneOwner(vn, at, x);
    LookupIs(find, vn, at);
    LookupIs(find, Drop(vn, x), at);
    RemovalLaw(vn, at, x);
  }

  lemma {:induction false} DropOneOwner(vn: seq<VNode>, at: nat, x: Node)
    requires Sorted(vn) && OneOwner(vn, at)
    ensures Sorted(Drop(vn, x)) && OneOwner(Drop(vn, x), at)
  {
    DropSorted(vn, x);
  }

  // ── When removal keeps the other nodes in order ─────────────────────

  ghost predicate Owns(vn: seq<VNode>, x: Node) { exists v :: v in vn && v.owner == x }

  /** Two nodes share the position and a third is on the ring. */
  ghost predicate ThirdOwner(vn: seq<VNode>, at: nat) {
    exists u, v, w :: u in vn && v in vn && w in vn && u.pos == at && v.pos == at
      && u.owner != v.owner && w.owner != u.owner && w.owner != v.owner
  }

  /** Removing a node deletes it from the list computed for a position and
      changes nothing else, for this search. */
  ghost predicate Removes(find: Search, vn: seq<VNode>, at: nat, x: Node) {
    Lookup(find, Drop(vn, x), at) == Without(Lookup(find, vn, at), x)
  }

  lemma {:induction false} LookupHas(find: Search, vn: seq<VNode>, at: nat)
    requires Searches(find) && Sorted(vn)
    ensures Distinct(Lookup(find, vn, at)) && forall x :: x in Lookup(find, vn, at) <==> Owns(vn, x)
  {
    hide Dedup, Searches, Sorted;
    var i := find(vn, at);
    FindStarts(find, vn, at);
    StartPlace(vn, at, i);
    DedupIs(WalkFrom(vn, i));
    hide WalkFrom;
    forall x ensures x in WalkFrom(vn, i) <==> Owns(vn, x) {
      if x in WalkFrom(vn, i) { var v := WalkedOwner(vn, i, x); }
      if v :| v in vn && v.owner == x { OwnerWalked(vn, i, v); }
    }
  }

  lemma {:induction false} DropOwns(vn: seq<VNode>, x: Node)
    requires Sorted(vn)
    ensures Sorted(Drop(vn, x)) && forall v :: v in Drop(vn, x) <==> v in vn && v.owner != x
  {
    hide Drop;
    DropIs(vn, x);
    forall v ensures v in Drop(vn, x) <==> v in vn && v.owner != x {
      assert v in Drop(vn, x) <==> v in multiset(Drop(vn, x));
      assert v in vn <==> v in multiset(vn);
    }
  }

  lemma {:induction false} DropNothing(vn: seq<VNode>, x: Node)
    requires !Owns(vn, x)
    ensures Drop(vn, x) == vn
  {
    if vn != [] {
      assert vn[0] in vn && forall v :: v in vn[1..] ==> v in vn;
      DropNothing(vn[1..], x);
      assert vn == [vn[0]] + vn[1..];
    }
  }

  lemma {:induction false} OnlyOne(s: seq<Node>, b: Node)
    requires Distinct(s) && forall y :: y in s <==> y == b
    ensures s == [b]
  {
    SameSize(s, [b]);
    assert s[0] in s;
  }

  /** Of two nodes, whichever comes first, one remains. */
  lemma {:induction false} TwoOwners(find: Search, vn: seq<VNode>, at: nat, a: Node, b: Node)
    requires Searches(find) && Sorted(vn) && a != b && forall x :: Owns(vn, x) <==> x == a || x == b
    ensures Removes(find, vn, at, a)
  {
    hide Lookup, Searches, Drop, Sorted;
    DropOwns(vn, a);
    LookupHas(find, vn, at);
    LookupHas(find, Drop(vn, a), at);
    var l := Lookup(find, vn, at);
    WithoutIs(l, a);
    WithoutDistinct(l, a);
    OnlyOne(Without(l, a), b);
    assert Owns(vn, b);
    forall x ensures Owns(Drop(vn, a), x) <==> x == b {
      if v :| v in Drop(vn, a) && v.owner == x { assert Owns(vn, x); }
    }
    var v :| v in vn && v.owner == b;
    assert v in Drop(vn, a);
    OnlyOne(Lookup(find, Drop(vn, a), at), b);
  }

  /** Unless two nodes share the position beside a third, removing a node deletes
      it from the list and changes nothing else, wherever the search lands. */
  lemma {:induction false} LookupRemoval(find: Search, vn: seq<VNode>, at: nat, x: Node)
    requires Searches(find) && Sorted(vn) && !ThirdOwner(vn, at)
    ensures Removes(find, vn, at, x)
  {
    hide Lookup, Searches, Drop, Sorted;
    if OneOwner(vn, at) {
      OneOwnerRemoval(find, vn, at, x);
    } else if !Owns(vn, x) {
      DropNothing(vn, x);
      LookupHas(find, vn, at);
      WithoutIs(Lookup(find, vn, at), x);
    } else {
      var u, v :| u in vn && v in vn && u.pos == at && v.pos == at && u.owner != v.owner;
      forall y ensures Owns(vn, y) <==> y == u.owner || y == v.owner {
        if w :| w in vn && w.owner == y {}
      }
      TwoOwners(find, vn, at, x, if x == u.owner then v.owner else u.owner);
    }
  }

  /** A search that lands where it is told on two rings. */
  function Chooser(vn: seq<VNode>, i: nat, rest: seq<VNode>, j: nat, at: nat): Search {
    (s, a) => if a == at && s == vn then i else if a == at && s == rest then j else LowerBound(s, a)
  }

  lemma {:induction false} ChooserSearches(vn: seq<VNode>, i: nat, rest: seq<VNode>, j: nat, at: nat)
    requires vn != rest && IsStart(vn, at, i) && IsStart(rest, at, j)
    ensures Searches(Chooser(vn, i, rest, j, at))
  {
    hide LowerBound, Sorted, IsStart;
    LowerBoundSearches();
    var find := Chooser(vn, i, rest, j, at);
    forall s, a | Sorted(s) ensures IsStart(s, a, find(s, a)) {
      FindStarts(LowerBound, s, a);
    }
  }

  /** A shared position moves when some third node leaves and the search then
      lands on the other of the two. */
  lemma {:induction false} ThirdLeaves(vn: seq<VNode>, at: nat) returns (find: Search, x: Node)
    requires Sorted(vn) && ThirdOwner(vn, at)
    ensures Searches(find) && !Removes(find, vn, at, x)
  {
    hide Dedup, LowerBound, Sorted, IsStart, Drop, Searches, WalkFrom, Removes;
    var u, v, w :| u in vn && v in vn && w in vn && u.pos == at && v.pos == at
      && u.owner != v.owner && w.owner != u.owner && w.owner != v.owner;
    x := w.owner;
    DropOwns(vn, x);
    var rest := Drop(vn, x);
    assert rest != vn;
    var i := StartsAt(vn, u);
    var j := StartsAt(rest, v);
    ChooserSearches(vn, i, rest, j, at);
    find := Chooser(vn, i, rest, j, at);
    FirstsDiffer(find, vn, at, x, i, j);
  }

  lemma {:induction false} FirstsDiffer(find: Search, vn: seq<VNode>, at: nat, x: Node, i: nat, j: nat)
    requires find(vn, at) == i && find(Drop(vn, x), at) == j
    requires var a, b := Dedup(WalkFrom(vn, i)), Dedup(WalkFrom(Drop(vn, x), j));
             a != [] && b != [] && a[0] != x && a[0] != b[0]
    ensures !Removes(find, vn, at, x)
  {
    hide Dedup, WalkFrom, Drop;
    WithoutIs(Dedup(WalkFrom(vn, i)), x);
  }

  /** The removal law holds at a position, for every search and every node, if
      and only if no two nodes share it beside a third. */
  lemma {:induction false} RemovalExactly(vn: seq<VNode>, at: nat)
    requires Sorted(vn)
    ensures (forall find, x :: Searches(find) ==> Removes(find, vn, at, x)) <==> !ThirdOwner(vn, at)
  {
    hide Removes, ThirdOwner, Sorted, Searches;
    if ThirdOwner(vn, at) {
      var find, x := ThirdLeaves(vn, at);
    } else {
      forall find, x | Searches(find) ensures Removes(find, vn, at, x) {
        LookupRemoval(find, vn, at, x);
      }
    }
  }

  const SHARED := [VNode(5, 1), VNode(5, 2), VNode(9, 3)]

  /** A search that lands on the last of equal positions. */
  function LastEqual(vn: seq<VNode>, at: nat): nat {
    var past := LowerBound(vn, at + 1);
    if past > LowerBound(vn, at) then past - 1 else past
  }

  lemma {:induction false} LastEqualSearches()
    ensures Searches(LastEqual)
  {
    forall vn: seq<VNode>, at: nat | Sorted(vn) ensures IsStart(vn, at, LastEqual(vn, at)) {
      LowerBoundSplits(vn, at);
      LowerBoundSplits(vn, at + 1);
      hide From, Before, LowerBound, Sorted;
      if v :| v in vn && v.pos == at {
        var i :| 0 <= i < |vn| && vn[i] == v;
      }
    }
  }

  /** Nodes 1 and 2 share position 5 beside node 3. Under that search, removing
      node 2 reverses the other two. */
  lemma {:induction false} SharedPositionMoves()
    ensures Sorted(SHARED) && ThirdOwner(SHARED, 5) && Searches(LastEqual)
    ensures Lookup(LastEqual, SHARED, 5) == [2, 3, 1] && Without([2, 3, 1], 2) == [3, 1]
    ensures Lookup(LastEqual, Drop(SHARED, 2), 5) == [1, 3]
  {
    hide Lookup, Searches, Without, Drop, WalkFrom;
    LastEqualSearches();
    assert SHARED[0] in SHARED && SHARED[1] in SHARED && SHARED[2] in SHARED;
    SharedRest();
    SharedWalks();
    LastEqualAt(SHARED, 5, 1, [2, 3, 1]);
    LastEqualAt([VNode(5, 1), VNode(9, 3)], 5, 0, [1, 3]);
    SharedWithout();
  }

  lemma {:induction false} SharedWalks()
    ensures WalkFrom(SHARED, 1) == [2, 3, 1] && WalkFrom([VNode(5, 1), VNode(9, 3)], 0) == [1, 3]
  {
  }

  lemma {:induction false} LastEqualAt(vn: seq<VNode>, at: nat, i: nat, list: seq<Node>)
    requires Sorted(vn) && i < |vn| && vn[i].pos == at && (forall j :: i < j < |vn| ==> vn[j].pos > at)
    requires WalkFrom(vn, i) == list && Distinct(list)
    ensures Lookup(LastEqual, vn, at) == list
  {
    hide Dedup, LowerBound, From, Before, WalkFrom;
    LowerBoundSplits(vn, at);
    LowerBoundSplits(vn, at + 1);
    assert vn[i].pos == at && (i + 1 < |vn| ==> vn[i + 1].pos > at);
    assert LastEqual(vn, at) == i;
    DedupDistinct(list);
  }

  lemma {:induction false} SharedWithout()
    ensures Without([2, 3, 1], 2) == [3, 1]
  {
    WithoutIs([3, 1], 2);
    assert [2, 3, 1][1..] == [3, 1];
  }

  lemma {:induction false} SharedRest()
    ensures Drop(SHARED, 2) == [VNode(5, 1), VNode(9, 3)]
  {
    DropCons(SHARED, 2);
    var a := SHARED[1..];
    assert a == [VNode(5, 2), VNode(9, 3)];
    DropCons(a, 2);
    assert a[1..] == [VNode(9, 3)];
    DropCons(a[1..], 2);
  }

  lemma {:induction false} DedupDistinct(s: seq<Node>)
    requires Distinct(s)
    ensures Dedup(s) == s
  {
    if s != [] {
      var init, y := s[..|s| - 1], s[|s| - 1];
      DedupDistinct(init);
      assert s == init + [y];
      DedupSnoc(init, y);
    }
  }
}
