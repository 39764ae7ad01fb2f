/** Bytes, fixed-width integers and big-endian encodings shared by every module. */
module Core {

  datatype Option<+T> = None | Some(value: T)

  type Byte = b: int | 0 <= b < 256
  type Bytes = seq<Byte>
  type Bytes8 = s: Bytes | |s| == 8 witness seq(8, _ => 0)
  type Bytes16 = s: Bytes | |s| == 16 witness seq(16, _ => 0)
  type Bytes32 = s: Bytes | |s| == 32 witness seq(32, _ => 0)
  type Bytes64 = s: Bytes | |s| == 64 witness seq(64, _ => 0)

  const U16_LIMIT := 0x1_0000
  const U32_LIMIT := 0x1_0000_0000
  const U64_LIMIT := 0x1_0000_0000_0000_0000

  type U16 = n: int | 0 <= n < U16_LIMIT
  type U32 = n: int | 0 <= n < U32_LIMIT
  type U64 = n: int | 0 <= n < U64_LIMIT

  /** A node ID is a 32-byte Ed25519 public key. */
  type NodeId = Bytes32

  function Min(a: int, b: int): int {
    if a < b then a else b
  }

  // ---------------------------------------------------------------------
  // Big-endian integers
  // ---------------------------------------------------------------------

  function Pow256(width: nat): nat {
    if width == 0 then 1 else 256 * Pow256(width - 1)
  }

  /** The `width` low-order bytes of `n`, most significant first. */
  function BigEndian(n: nat, width: nat): (s: Bytes)
    ensures |s| == width
  {
    if width == 0 then [] else BigEndian(n / 256, width - 1) + [n % 256]
  }

  function BigEndianValue(s: Bytes): (n: nat)
  {
    if s == [] then 0 else 256 * BigEndianValue(s[..|s| - 1]) + s[|s| - 1]
  }

  lemma {:induction false} BigEndianValueBound(s: Bytes)
    ensures BigEndianValue(s) < Pow256(|s|)
  {
    if s != [] {
      BigEndianValueBound(s[..|s| - 1]);
    }
  }

  lemma {:induction false} BigEndianRoundTrip(n: nat, width: nat)
    requires n < Pow256(width)
    ensures BigEndianValue(BigEndian(n, width)) == n
  {
    if width > 0 {
      BigEndianRoundTrip(n / 256, width - 1);
      assert BigEndian(n, width)[..width - 1] == BigEndian(n / 256, width - 1);
    }
  }

  lemma {:induction false} BigEndianCanonical(s: Bytes)
    ensures BigEndian(BigEndianValue(s), |s|) == s
  {
    if s != [] {
      BigEndianCanonical(s[..|s| - 1]);
      assert s == s[..|s| - 1] + [s[|s| - 1]];
    }
  }

  /** Byte `i` of an encoding is the digit of weight 256^(width - 1 - i). */
  lemma {:induction false} BigEndianDigit(n: nat, width: nat, i: nat)
    requires i < width
    ensures Pow256(width - 1 - i) > 0 && BigEndian(n, width)[i] == n / Pow256(width - 1 - i) % 256
  {
    Pow256Positive(width - 1 - i);
    if i < width - 1 {
      BigEndianDigit(n / 256, width - 1, i);
      DivTwice(n, 256, Pow256(width - 2 - i));
    }
  }

  lemma Pow256Positive(width: nat)
    ensures Pow256(width) > 0
  {
  }

  lemma DivTwice(n: nat, a: nat, b: nat)
    requires a > 0 && b > 0
    ensures a * b > 0 && n / a / b == n / (a * b)
  {
    var x, s := n / a, n % a;
    var y, t := x / b, x % b;
    assert n == a * x + s && x == b * y + t;
    Expand(a, b, y, t);
    assert a * t + s < a * b by { MulBound(a, b, t, s); }
    DivIs(n, a * b, y, a * t + s);
  }

  lemma Expand(a: nat, b: nat, y: nat, t: nat)
    ensures a * (b * y + t) == a * b * y + a * t
  {
    assert a * (b * y) == a * b * y;
  }

  lemma MulBound(a: nat, b: nat, t: nat, s: nat)
    requires t < b && s < a
    ensures a * t + s < a * b
  {
    assert a * (b - 1 - t) >= 0;
    assert a * (b - 1 - t) == a * b - a - a * t;
  }

  lemma DivIs(n: nat, d: nat, q: nat, r: nat)
    requires d > 0 && n == d * q + r && r < d
    ensures n / d == q && n % d == r
  {
    var q', r' := n / d, n % d;
    assert d * (q' - q) == r - r';
    if q' > q {
      MulAtLeast(d, q' - q);
    } else if q' < q {
      MulAtLeast(d, q - q');
    }
  }

  lemma MulAtLeast(d: nat, k: nat)
    requires k >= 1
    ensures d * k >= d
  {
  }

  /** The wire order of a 16-bit number: high byte, then low byte. */
  lemma Be16Bytes(n: U16)
    ensures Be16(n) == [n / 256, n % 256]
  {
    assert BigEndian(n, 2) == BigEndian(n / 256, 1) + [n % 256];
    assert BigEndian(n / 256, 1) == BigEndian(n / 256 / 256, 0) + [n / 256 % 256];
  }

  /** The wire order of a 64-bit number: eight bytes from the highest. */
  lemma Be64Byte(n: U64, i: nat)
    requires i < 8
    ensures Pow256(7 - i) > 0 && Be64(n)[i] == n / Pow256(7 - i) % 256
  {
    BigEndianDigit(n, 8, i);
  }

  lemma Pow256Values()
    ensures Pow256(2) == U16_LIMIT
    ensures Pow256(8) == U64_LIMIT
  {
    assert Pow256(4) == 0x1_0000_0000;
    assert Pow256(6) == 0x1_0000_0000_0000;
  }

  function Be16(n: U16): (s: Bytes)
    ensures |s| == 2
  {
    BigEndian(n, 2)
  }

  function Be64(n: U64): (s: Bytes)
    ensures |s| == 8
  {
    BigEndian(n, 8)
  }

  function FromBe16(s: Bytes): (n: U16)
    requires |s| == 2
  {
    BigEndianValueBound(s); Pow256Values();
    BigEndianValue(s)
  }

  function FromBe64(s: Bytes): (n: U64)
    requires |s| == 8
  {
    BigEndianValueBound(s); Pow256Values();
    BigEndianValue(s)
  }

  lemma Be16RoundTrip(n: U16)
    ensures FromBe16(Be16(n)) == n
  {
    Pow256Values();
    BigEndianRoundTrip(n, 2);
  }

  lemma Be16Canonical(s: Bytes)
    requires |s| == 2
    ensures Be16(FromBe16(s)) == s
  {
    BigEndianCanonical(s);
  }

  lemma Be64RoundTrip(n: U64)
    ensures FromBe64(Be64(n)) == n
  {
    Pow256Values();
    BigEndianRoundTrip(n, 8);
  }

  lemma Be64Canonical(s: Bytes)
    requires |s| == 8
    ensures Be64(FromBe64(s)) == s
  {
    BigEndianCanonical(s);
  }
}
