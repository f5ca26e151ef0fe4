/** Fixed-width unsigned integers in either byte order, as encoding/binary writes and reads them. */
module Integers {
  import opened Common
  import opened Schema

  function LittleBytes(size: nat, n: nat): (bs: seq<byte>)
    ensures |bs| == size
  {
    if size == 0 then [] else [n % 256] + LittleBytes(size - 1, n / 256)
  }

  function LittleValue(bs: seq<byte>): (n: nat)
    ensures n < Pow256(|bs|)
  {
    if bs == [] then 0 else bs[0] + 256 * LittleValue(bs[1..])
  }

  function Reverse(bs: seq<byte>): (r: seq<byte>)
    ensures |r| == |bs|
    ensures forall i :: 0 <= i < |bs| ==> r[i] == bs[|bs| - 1 - i]
  {
    if bs == [] then [] else Reverse(bs[1..]) + [bs[0]]
  }

  function UintBytes(order: ByteOrder, size: nat, n: nat): (bs: seq<byte>)
    ensures |bs| == size
  {
    if order.LittleEndian? then LittleBytes(size, n) else Reverse(LittleBytes(size, n))
  }

  function UintValue(order: ByteOrder, bs: seq<byte>): (n: nat)
    ensures n < Pow256(|bs|)
  {
    if order.LittleEndian? then LittleValue(bs) else LittleValue(Reverse(bs))
  }

  lemma {:induction false} LittleRoundTrip(size: nat, n: nat)
    requires n < Pow256(size)
    ensures LittleValue(LittleBytes(size, n)) == n
  {
    if size > 0 {
      assert n / 256 < Pow256(size - 1);
      LittleRoundTrip(size - 1, n / 256);
      assert LittleBytes(size, n)[1..] == LittleBytes(size - 1, n / 256);
    }
  }

  lemma {:induction false} LittleCanonical(bs: seq<byte>)
    ensures LittleBytes(|bs|, LittleValue(bs)) == bs
  {
    if bs != [] {
      LittleCanonical(bs[1..]);
      var n := LittleValue(bs);
      assert n % 256 == bs[0] && n / 256 == LittleValue(bs[1..]);
      assert bs == [bs[0]] + bs[1..];
    }
  }

  // Writing an integer that fits its width and reading it back gives the integer.
  lemma UintRoundTrip(order: ByteOrder, size: nat, n: nat)
    requires n < Pow256(size)
    ensures UintValue(order, UintBytes(order, size, n)) == n
  {
    LittleRoundTrip(size, n);
    var bs := LittleBytes(size, n);
    assert Reverse(Reverse(bs)) == bs;
  }

  // Reading bytes as an integer and writing it back gives the bytes: the encoding has no slack.
  lemma UintCanonical(order: ByteOrder, bs: seq<byte>)
    ensures UintBytes(order, |bs|, UintValue(order, bs)) == bs
  {
    if order.LittleEndian? {
      LittleCanonical(bs);
    } else {
      LittleCanonical(Reverse(bs));
      assert Reverse(Reverse(bs)) == bs;
    }
  }

  lemma WidthModulus(w: Width)
    ensures Pow256(w.Size()) == w.Modulus()
  {
    assert Pow256(1) == 256 * Pow256(0);
    assert Pow256(2) == 256 * Pow256(1);
  }

  // ---- Division by a product ----

  lemma Times(p: nat, a: nat, b: nat)
    requires a <= b
    ensures p * a <= p * b
  {
  }

  lemma QuotientOf(p: nat, q: nat, r: nat)
    requires r < p
    ensures (p * q + r) / p == q
  {
    var d := (p * q + r) / p;
    assert p * d <= p * q + r < p * (d + 1);
    if d < q { Times(p, d + 1, q); } else if d > q { Times(p, q + 1, d); }
  }

  lemma DivMod(n: nat, a: nat)
    requires a > 0
    ensures n == a * (n / a) + n % a && n % a < a
  {
  }

  lemma DivideTwice(n: nat, a: nat, b: nat)
    requires a > 0 && b > 0
    ensures a * b > 0 && n / a / b == n / (a * b)
  {
    DivMod(n, a);
    DivMod(n / a, b);
    Nested(n, a, b, n / a / b, n / a % b, n % a);
  }

  lemma Nested(n: nat, a: nat, b: nat, q: nat, r: nat, m: nat)
    requires a > 0 && r < b && m < a && n == a * (b * q + r) + m
    ensures a * b > 0 && n / (a * b) == q
  {
    Small(a, b, r, m);
    Regroup(a, b, q, r, m);
    QuotientOf(a * b, q, a * r + m);
  }

  lemma Small(a: nat, b: nat, r: nat, m: nat)
    requires r < b && m < a
    ensures a * r + m < a * b
  {
    Times(a, r + 1, b);
    assert a * (r + 1) == a * r + a;
  }

  lemma Regroup(a: nat, b: nat, q: nat, r: nat, m: nat)
    ensures a * (b * q + r) + m == (a * b) * q + (a * r + m)
  {
    assert a * (b * q + r) == a * (b * q) + a * r;
    assert a * (b * q) == (a * b) * q;
  }
}
