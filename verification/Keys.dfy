/** Both key types compare as byte strings, and byte strings embed in the key
    order of the tree model. */
module Keys {
  import opened Prelude

  /** Lexicographic order, a proper prefix first: the order of byte strings and
      of 16-byte identifiers. */
  predicate LexLess(a: seq<Byte>, b: seq<Byte>) {
    b != [] && (a == [] || a[0] < b[0] || (a[0] == b[0] && LexLess(a[1..], b[1..])))
  }

  /** The key of the tree model that stands for a byte string. */
  ghost function Rank(a: seq<Byte>): (r: real)
    ensures 0.0 <= r < 1.0
  {
    if a == [] then 0.0 else (((a[0] as int) + 1) as real + Rank(a[1..])) / 257.0
  }

  /** Comparing ranks is comparing byte strings, so a tree over ranks is a tree
      over byte strings. */
  lemma {:induction false} RankIsOrder(a: seq<Byte>, b: seq<Byte>)
    ensures LexLess(a, b) <==> Rank(a) < Rank(b)
    ensures a == b <==> Rank(a) == Rank(b)
  {
    if a != [] && b != [] {
      RankIsOrder(a[1..], b[1..]);
      assert a == [a[0]] + a[1..] && b == [b[0]] + b[1..];
    }
  }
}
