/** Bytes, fixed-width byte strings and Java `long` arithmetic.

    A Java `byte[]` is modelled as a sequence of octets read unsigned, a Java
    `long` as an integer in the signed 64-bit range, and every `long`
    addition or subtraction as the exact sum reduced by `Wrap64`, which is
    what the JVM's two's-complement arithmetic does. */
module Wire {

  /** One octet of a `byte[]`, read unsigned. */
  type Byte = b: int | 0 <= b < 256

  type Bytes = seq<Byte>

  /** The fixed widths the native backend writes into pre-allocated buffers. */
  type Bytes32 = s: Bytes | |s| == 32 witness seq(32, _ => 0)
  type Bytes64 = s: Bytes | |s| == 64 witness seq(64, _ => 0)
  type Bytes192 = s: Bytes | |s| == 192 witness seq(192, _ => 0)

  const TWO_63: int := 0x8000_0000_0000_0000
  const TWO_64: int := 0x1_0000_0000_0000_0000

  /** A Java `long`. */
  type Int64 = x: int | -0x8000_0000_0000_0000 <= x < 0x8000_0000_0000_0000

  /** The `long` the JVM holds after an arithmetic result `x` overflows:
      the unique value of the signed range congruent to `x` modulo 2^64. */
  function Wrap64(x: int): (r: Int64)
    ensures -TWO_63 <= x < TWO_63 ==> r == x
    ensures (x - r) % TWO_64 == 0
  {
    (x + TWO_63) % TWO_64 - TWO_63
  }

  /** Adding to an already wrapped value wraps the exact sum: a running
      `long` total equals the wrapped mathematical total. */
  lemma WrapAdd(a: int, b: int)
    ensures Wrap64(Wrap64(a) + b) == Wrap64(a + b)
  {
    var q := (a + TWO_63) / TWO_64;
    assert Wrap64(a) == a - q * TWO_64;
    assert Wrap64(a) + b + TWO_63 == (a + b + TWO_63) - q * TWO_64;
    ModShift(a + b + TWO_63, q);
  }

  /** Subtracting a multiple of 2^64 does not change the remainder. */
  lemma {:induction false} ModShift(x: int, q: int)
    ensures (x - q * TWO_64) % TWO_64 == x % TWO_64
    decreases if q < 0 then -q else q
  {
    if q > 0 {
      ModShift(x, q - 1);
      assert x - q * TWO_64 == (x - (q - 1) * TWO_64) - TWO_64;
    } else if q < 0 {
      ModShift(x, q + 1);
      assert x - q * TWO_64 == (x - (q + 1) * TWO_64) + TWO_64;
    }
  }

  function Pow256(n: nat): (p: nat)
    ensures p > 0
  {
    if n == 0 then 1 else 256 * Pow256(n - 1)
  }

  /** The unsigned integer whose big-endian (most significant byte first)
      representation is `s`. */
  function FromBigEndian(s: Bytes): (v: nat)
    ensures v < Pow256(|s|)
    decreases |s|
  {
    if s == [] then 0 else FromBigEndian(s[..|s| - 1]) * 256 + s[|s| - 1]
  }

  /** The `n` low-order bytes of `x`, most significant first. */
  function ToBigEndian(x: nat, n: nat): (s: Bytes)
    ensures |s| == n
  {
    if n == 0 then [] else ToBigEndian(x / 256, n - 1) + [x % 256]
  }

  lemma {:induction false} FromToBigEndian(x: nat, n: nat)
    requires x < Pow256(n)
    ensures FromBigEndian(ToBigEndian(x, n)) == x
  {
    if n > 0 {
      var s := ToBigEndian(x, n);
      var q := x / 256;
      assert q < Pow256(n - 1) by {
        DivBound(x, Pow256(n - 1));
      }
      assert FromBigEndian(s[..n - 1]) == q by {
        assert s[..n - 1] == ToBigEndian(q, n - 1);
        FromToBigEndian(q, n - 1);
      }
      assert s[n - 1] == x % 256;
    }
  }

  lemma DivBound(x: nat, p: nat)
    requires x < 256 * p
    ensures x / 256 < p
  {
  }

  lemma {:induction false} ToFromBigEndian(s: Bytes)
    ensures ToBigEndian(FromBigEndian(s), |s|) == s
    decreases |s|
  {
    if s != [] {
      var init := s[..|s| - 1];
      ToFromBigEndian(init);
      var v := FromBigEndian(s);
      assert v / 256 == FromBigEndian(init);
      assert v % 256 == s[|s| - 1];
      assert s == init + [s[|s| - 1]];
    }
  }

  lemma Pow256Eight()
    ensures Pow256(8) == TWO_64
  {
  }

  /** `ByteArray.fromLong`: the eight bytes of a `long` in two's complement,
      most significant first. */
  function Be64(v: Int64): (s: Bytes)
    ensures |s| == 8
  {
    ToBigEndian(if v < 0 then v + TWO_64 else v, 8)
  }

  /** Reading eight bytes back as a `long` recovers the encoded value. */
  lemma Be64RoundTrip(v: Int64)
    ensures Wrap64(FromBigEndian(Be64(v))) == v
  {
    Pow256Eight();
    var u := if v < 0 then v + TWO_64 else v;
    FromToBigEndian(u, 8);
  }

  /** Two `long`s with the same eight bytes are equal. */
  lemma Be64Injective(v: Int64, w: Int64)
    requires Be64(v) == Be64(w)
    ensures v == w
  {
    Be64RoundTrip(v);
    Be64RoundTrip(w);
  }

  /** Every eight-byte string is the encoding of exactly the `long` it is read as. */
  lemma Be64OfRead(s: Bytes)
    requires |s| == 8
    ensures Be64(Wrap64(FromBigEndian(s))) == s
  {
    Pow256Eight();
    ToFromBigEndian(s);
    var u := FromBigEndian(s);
    var v := Wrap64(u);
    assert (if v < 0 then v + TWO_64 else v) == u;
  }
}
