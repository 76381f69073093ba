/** Shared vocabulary. */
module Prelude {
  newtype Byte = x: int | 0 <= x < 256

  datatype Option<+T> = None | Some(value: T)
  datatype Result<+T, +E> = Ok(value: T) | Err(error: E)

  lemma Cat5<T>(a: seq<T>, b: seq<T>, m: seq<T>, c: seq<T>, d: seq<T>)
    ensures (a + b) + m + (c + d) == a + (b + m + c) + d
  {
  }

  lemma CatPair<T>(a: seq<T>, x: T, y: T, b: seq<T>)
    ensures a + [x, y] + b == a + [x] + [y] + b
  {
  }

  lemma Assoc<T>(a: seq<T>, b: seq<T>, c: seq<T>)
    ensures a + b + c == a + (b + c)
  {
  }

  lemma TailCat<T>(a: seq<T>, b: seq<T>)
    requires a != []
    ensures (a + b)[1..] == a[1..] + b && (a + b)[0] == a[0]
  {
  }

  lemma CatEmpty<T>(a: seq<T>)
    ensures [] + a == a && a + [] == a
  {
  }

  lemma Cat6<T>(a: seq<T>, b: seq<T>, x: seq<T>, y: seq<T>, c: seq<T>, d: seq<T>)
    ensures a + (b + (x + y) + c) + d == (a + b) + x + y + (c + d)
  {
  }

  lemma Cancel<T>(a: multiset<T>, b: multiset<T>, x: T)
    requires a + multiset{x} == b + multiset{x}
    ensures a == b
  {
    assert a == (a + multiset{x}) - multiset{x};
    assert b == (b + multiset{x}) - multiset{x};
  }

  lemma TakeDrop<T>(s: seq<T>, n: nat)
    requires n <= |s|
    ensures s[..n] + s[n..] == s
  {
  }

  // ── Sequences without repetition ────────────────────────────────────

  ghost predicate Distinct<T>(s: seq<T>) { forall i, j :: 0 <= i < j < |s| ==> s[i] != s[j] }

  /** The sequence with every occurrence of x taken out. */
  function Without<T(==)>(s: seq<T>, x: T): seq<T> {
    if s == [] then [] else if s[0] == x then Without(s[1..], x) else [s[0]] + Without(s[1..], x)
  }

  lemma {:induction false} WithoutIs<T>(s: seq<T>, x: T)
    ensures forall y :: y in Without(s, x) <==> y in s && y != x
    ensures x !in s ==> Without(s, x) == s
    ensures s != [] && s[0] != x ==> Without(s, x) != [] && Without(s, x)[0] == s[0]
  {
    if s != [] {
      WithoutIs(s[1..], x);
      assert s == [s[0]] + s[1..];
    }
  }

  lemma {:induction false} WithoutCat<T>(a: seq<T>, b: seq<T>, x: T)
    ensures Without(a + b, x) == Without(a, x) + Without(b, x)
  {
    if a == [] {
      assert a + b == b;
    } else {
      assert (a + b)[1..] == a[1..] + b;
      WithoutCat(a[1..], b, x);
    }
  }

  lemma {:induction false} WithoutDistinct<T>(s: seq<T>, x: T)
    requires Distinct(s)
    ensures Distinct(Without(s, x))
    ensures |Without(s, x)| == if x in s then |s| - 1 else |s|
  {
    if s != [] {
      WithoutDistinct(s[1..], x);
      WithoutIs(s[1..], x);
      InCons(s);
      assert s[0] !in s[1..] by {
        assert forall i :: 0 <= i < |s[1..]| ==> s[1..][i] == s[i + 1];
      }
    }
  }

  lemma {:induction false} HasSome<T>(a: seq<T>)
    requires a != []
    ensures exists v :: v in a
  {
    assert a[0] in a;
  }

  lemma {:induction false} InCons<T>(a: seq<T>)
    requires a != []
    ensures forall v :: v in a <==> v == a[0] || v in a[1..]
  {
    assert a == [a[0]] + a[1..];
  }

  lemma {:induction false} InsertHas<T>(s: seq<T>, x: T, i: nat)
    requires i <= |s|
    ensures forall y :: y in s[..i] + [x] + s[i..] <==> y in s || y == x
  {
    assert s == s[..i] + s[i..];
  }

  ghost function Elements<T(!new)>(s: seq<T>): set<T> { set x | x in s }

  lemma {:induction false} ElementsSize<T(!new)>(s: seq<T>)
    requires Distinct(s)
    ensures |Elements(s)| == |s|
  {
    if s != [] {
      var init, x := s[..|s| - 1], s[|s| - 1];
      ElementsSize(init);
      assert s == init + [x] && x !in init;
      assert Elements(s) == Elements(init) + {x};
    }
  }

  lemma {:induction false} SameSize<T(!new)>(a: seq<T>, b: seq<T>)
    requires Distinct(a) && Distinct(b) && forall x :: x in a <==> x in b
    ensures |a| == |b|
  {
    ElementsSize(a);
    ElementsSize(b);
    assert Elements(a) == Elements(b);
  }

  /** A subset is no larger, and as large only if it is the whole. */
  lemma {:induction false} SubsetSize<T>(a: set<T>, b: set<T>)
    requires a <= b
    ensures |a| <= |b| && (|a| == |b| ==> a == b)
  {
    assert b == a + (b - a) && |b| == |a| + |b - a|;
  }

  function Range(n: nat): (r: set<int>)
    ensures |r| == n && forall i :: i in r <==> 0 <= i < n
  {
    if n == 0 then {} else Range(n - 1) + {n - 1}
  }

  /** The values an injective map gives a set of keys. */
  function ImageOf(a: set<nat>, m: map<nat, nat>): set<int>
    requires forall p :: p in a ==> p in m
  {
    set p | p in a :: m[p]
  }

  lemma {:induction false} ImageSize(a: set<nat>, m: map<nat, nat>)
    requires (forall p :: p in a ==> p in m) && forall p, q :: p in m && q in m && m[p] == m[q] ==> p == q
    ensures |ImageOf(a, m)| == |a|
    decreases |a|
  {
    if a != {} {
      var p :| p in a;
      ImageSize(a - {p}, m);
      assert ImageOf(a, m) == ImageOf(a - {p}, m) + {m[p]};
    }
  }
}
