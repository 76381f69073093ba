/** Fixed-width little-endian integers. */
module LittleEndian {
  import opened Prelude

  function Limit(k: nat): (n: nat)
    ensures n >= 1
  {
    if k == 0 then 1 else 256 * Limit(k - 1)
  }

  /** The k low bytes of n, least significant first. */
  function LE(n: nat, k: nat): (s: seq<Byte>)
    ensures |s| == k
  {
    if k == 0 then [] else [(n % 256) as Byte] + LE(n / 256, k - 1)
  }

  function FromLE(s: seq<Byte>): (n: nat) {
    if s == [] then 0 else s[0] as nat + 256 * FromLE(s[1..])
  }

  /** Encoding keeps the value modulo the width, so exactly the values that fit
      survive a round trip. */
  lemma {:induction false} RoundTrip(n: nat, k: nat)
    ensures FromLE(LE(n, k)) == n % Limit(k)
    ensures FromLE(LE(n, k)) == n <==> n < Limit(k)
  {
    if k > 0 {
      RoundTrip(n / 256, k - 1);
      var s := LE(n, k);
      assert s[1..] == LE(n / 256, k - 1);
      ModStep(n, Limit(k - 1));
    }
  }

  /** And conversely every byte string is the encoding of its value. */
  lemma {:induction false} LEBack(s: seq<Byte>, k: nat)
    requires |s| == k
    ensures LE(FromLE(s), k) == s && FromLE(s) < Limit(k)
  {
    if k > 0 {
      LEBack(s[1..], k - 1);
      var n := FromLE(s[1..]);
      assert FromLE(s) == s[0] as nat + 256 * n;
      assert FromLE(s) % 256 == s[0] as nat && FromLE(s) / 256 == n;
      assert s == [s[0]] + s[1..];
    }
  }

  /** Byte i holds the i-th digit to base 256. */
  lemma {:induction false} LowFirst(n: nat, k: nat, i: nat)
    requires i < k
    ensures LE(n, k)[i] as nat == (n / Limit(i)) % 256
  {
    if i == 0 {
      assert Limit(0) == 1;
    } else {
      LowFirst(n / 256, k - 1, i - 1);
      DivTwice(n, Limit(i - 1));
    }
  }

  lemma {:induction false} DivTwice(n: nat, m: nat)
    requires m >= 1
    ensures n / (256 * m) == (n / 256) / m
  {
    var q, r := (n / 256) / m, (n / 256) % m;
    ModStep(n, m);
    assert n / 256 == q * m + r && n == 256 * (n / 256) + n % 256;
    assert n == (256 * m) * (n / (256 * m)) + n % (256 * m);
    assert n == (256 * m) * q + (n % 256 + 256 * r) by { assert 256 * (q * m) == (256 * m) * q; }
    var a, b := n / (256 * m), 256 * m;
    assert b * a == b * q;
    Cancel(a, q, b);
  }

  lemma {:induction false} Cancel(a: nat, q: nat, b: nat)
    requires b >= 1 && b * a == b * q
    ensures a == q
  {
    assert (a - q) * b == b * a - b * q == 0;
    MulGap(a - q, b);
  }

  lemma {:induction false} ModStep(n: nat, m: nat)
    requires m >= 1
    ensures n % (256 * m) == n % 256 + 256 * ((n / 256) % m)
  {
    var q, r := (n / 256) / m, (n / 256) % m;
    assert n / 256 == q * m + r;
    assert n == 256 * (n / 256) + n % 256;
    var low := n % 256 + 256 * r;
    assert n == q * (256 * m) + low by {
      assert 256 * (q * m) == q * (256 * m);
    }
    assert 0 <= low < 256 * m by {
      assert r + 1 <= m;
    }
    Remainder(n, 256 * m, q, low);
  }

  lemma {:induction false} Remainder(n: nat, d: nat, q: nat, r: nat)
    requires d >= 1 && n == q * d + r && r < d
    ensures n % d == r
  {
    assert n == (n / d) * d + n % d;
    var e := n / d - q;
    assert e * d == r - n % d;
    MulGap(e, d);
  }

  lemma {:induction false} MulGap(e: int, d: nat)
    ensures e >= 1 ==> e * d >= d
    ensures e <= -1 ==> e * d <= 0 - d
  {
  }

  lemma Widths()
    ensures Limit(2) == 0x1_0000 && Limit(4) == 0x1_0000_0000 && Limit(8) == 0x1_0000_0000_0000_0000
  {
    assert Limit(1) == 256 && Limit(2) == 256 * Limit(1) && Limit(3) == 256 * Limit(2) && Limit(4) == 256 * Limit(3);
    assert Limit(5) == 256 * Limit(4) && Limit(6) == 256 * Limit(5) && Limit(7) == 256 * Limit(6)
      && Limit(8) == 256 * Limit(7);
  }
}
