/**
 * Byte strings and the little-endian integer packing done by Python's
 * struct module ("<i", "<h") and by int.to_bytes / int.from_bytes.
 */
module Bytes {

  type byte = x: int | 0 <= x < 0x100

  function Pow256(n: nat): (r: nat)
    ensures r > 0
  {
    if n == 0 then 1 else 256 * Pow256(n - 1)
  }

  /** Half of the range of a w-byte two's complement integer. */
  function Half(w: nat): nat
    requires w >= 1
  {
    128 * Pow256(w - 1)
  }

  /** x fits a signed w-byte integer (struct would raise otherwise). */
  predicate Fits(x: int, w: nat)
    requires w >= 1
  {
    -(Half(w) as int) <= x < Half(w)
  }

  predicate IsInt32(x: int) { Fits(x, 4) }

  predicate IsInt16(x: int) { Fits(x, 2) }

  /** Unsigned value of a little-endian byte string. */
  function Unsigned(b: seq<byte>): nat
  {
    if b == [] then 0 else b[0] + 256 * Unsigned(b[1..])
  }

  /**
   * int.from_bytes(b, byteorder="little", signed=True): two's complement of
   * whatever length b has; the empty string gives 0.
   */
  function FromBytesSigned(b: seq<byte>): int
  {
    if b != [] && b[|b| - 1] >= 0x80 then Unsigned(b) - Pow256(|b|) else Unsigned(b)
  }

  /** The k little-endian bytes of n. */
  function ToBytes(n: nat, k: nat): (r: seq<byte>)
    requires n < Pow256(k)
    ensures |r| == k && Unsigned(r) == n
  {
    if k == 0 then [] else [n % 256] + ToBytes(n / 256, k - 1)
  }

  lemma {:induction false} UnsignedBound(b: seq<byte>)
    ensures Unsigned(b) < Pow256(|b|)
  {
    if b != [] {
      UnsignedBound(b[1..]);
    }
  }

  lemma {:induction false} HalfStep(w: nat)
    requires w >= 2
    ensures Half(w) == 256 * Half(w - 1)
  {
  }

  /** The top byte has its high bit set exactly when the unsigned value reaches Half. */
  lemma {:induction false} TopBit(b: seq<byte>)
    requires |b| >= 1
    ensures b[|b| - 1] >= 0x80 <==> Unsigned(b) >= Half(|b|)
  {
    if |b| > 1 {
      var c := b[1..];
      TopBit(c);
      HalfStep(|b|);
      assert b[|b| - 1] == c[|c| - 1];
    }
  }

  /** Whatever w bytes are read, int.from_bytes gives a signed w-byte value. */
  lemma {:induction false} FromBytesSignedFits(b: seq<byte>)
    requires |b| >= 1
    ensures Fits(FromBytesSigned(b), |b|)
  {
    TopBit(b);
    UnsignedBound(b);
    assert Pow256(|b|) == 2 * Half(|b|);
  }

  /** The w-byte little-endian two's complement encoding of x. */
  function IntLE(x: int, w: nat): (r: seq<byte>)
    requires w >= 1 && Fits(x, w)
    ensures |r| == w && FromBytesSigned(r) == x
  {
    var n := if x < 0 then x + Pow256(w) else x;
    TopBit(ToBytes(n, w));
    assert Pow256(w) == 2 * Half(w);
    ToBytes(n, w)
  }

  /** struct.pack("<i", x) and x.to_bytes(4, "little", signed=True). */
  function Int32LE(x: int): (r: seq<byte>)
    requires IsInt32(x)
    ensures |r| == 4 && FromBytesSigned(r) == x
  {
    IntLE(x, 4)
  }

  /** struct.pack("<h", x). */
  function Int16LE(x: int): (r: seq<byte>)
    requires IsInt16(x)
    ensures |r| == 2 && FromBytesSigned(r) == x
  {
    IntLE(x, 2)
  }

  /** bytes(0).join(ss). */
  function Concat(ss: seq<seq<byte>>): seq<byte>
  {
    if ss == [] then [] else ss[0] + Concat(ss[1..])
  }

  lemma {:induction false} ConcatSnoc(ss: seq<seq<byte>>, s: seq<byte>)
    ensures Concat(ss + [s]) == Concat(ss) + s
  {
    if ss != [] {
      assert (ss + [s])[1..] == ss[1..] + [s];
      ConcatSnoc(ss[1..], s);
    }
  }

  /** Concatenation of w-byte records is w times as long as the record count. */
  lemma {:induction false} ConcatLength(ss: seq<seq<byte>>, w: nat)
    requires forall i :: 0 <= i < |ss| ==> |ss[i]| == w
    ensures |Concat(ss)| == w * |ss|
  {
    if ss != [] {
      ConcatLength(ss[1..], w);
    }
  }

  predicate AllFit(xs: seq<int>, w: nat)
    requires w >= 1
  {
    forall i :: 0 <= i < |xs| ==> Fits(xs[i], w)
  }

  /** struct.pack("<Ni", *xs) for w = 4, "<Nh" for w = 2. */
  function IntsLE(xs: seq<int>, w: nat): (r: seq<byte>)
    requires w >= 1 && AllFit(xs, w)
    ensures |r| == w * |xs|
  {
    if xs == [] then [] else IntLE(xs[0], w) + IntsLE(xs[1..], w)
  }

  /** The i-th integer sits at offset 4 * i of the packed int32 string. */
  lemma {:induction false} Int32sAt(xs: seq<int>, i: nat)
    requires AllFit(xs, 4) && i < |xs|
    ensures |IntsLE(xs, 4)| == 4 * |xs|
    ensures IntsLE(xs, 4)[4 * i .. 4 * i + 4] == IntLE(xs[i], 4)
  {
    if i > 0 {
      Int32sAt(xs[1..], i - 1);
      assert IntsLE(xs, 4) == IntLE(xs[0], 4) + IntsLE(xs[1..], 4);
    }
  }

  /** struct.unpack("<Ni", b) for w = 4, "<Nh" for w = 2: consecutive w-byte words. */
  function IntsFrom(b: seq<byte>, w: nat): seq<int>
    requires w >= 1
    decreases |b|
  {
    if |b| < w then [] else [FromBytesSigned(b[..w])] + IntsFrom(b[w..], w)
  }

  /** A string of k words unpacks to k integers. */
  lemma {:induction false} IntsFromCount(b: seq<byte>, w: nat, k: nat)
    requires w >= 1 && |b| == k * w
    ensures |IntsFrom(b, w)| == k
  {
    if k > 0 {
      assert k * w == w + (k - 1) * w;
      IntsFromCount(b[w..], w, k - 1);
    }
  }

  /** Unpacking what was packed gives back the integers. */
  lemma {:induction false} IntsRoundTrip(xs: seq<int>, w: nat)
    requires w >= 1 && AllFit(xs, w)
    ensures IntsFrom(IntsLE(xs, w), w) == xs
  {
    if xs != [] {
      var b := IntsLE(xs, w);
      assert b[..w] == IntLE(xs[0], w);
      assert b[w..] == IntsLE(xs[1..], w);
      IntsRoundTrip(xs[1..], w);
    }
  }

  /** Packing one more integer appends its bytes. */
  lemma {:induction false} IntsLESnoc(xs: seq<int>, x: int, w: nat)
    requires w >= 1 && AllFit(xs, w) && Fits(x, w)
    ensures AllFit(xs + [x], w) && IntsLE(xs + [x], w) == IntsLE(xs, w) + IntLE(x, w)
  {
    if xs != [] {
      assert (xs + [x])[1..] == xs[1..] + [x];
      IntsLESnoc(xs[1..], x, w);
    }
  }

  /** Regrouping appended chunks. */
  lemma {:induction false} Assoc(a: seq<byte>, b: seq<byte>, c: seq<byte>)
    ensures a + b + c == a + (b + c)
  {
  }
}
