/**
 The text form of a node ID: section 6 of RFC 4648 in lowercase and without
 padding.  A 256-bit ID is written as the 52 base-32 digits of its value with
 four zero bits appended.
 */
module Base32 {
  import opened Core

  const TEXT_CHARS := 52

  type Digit = d: int | 0 <= d < 32

  // ---------------------------------------------------------------------
  // Digits
  // ---------------------------------------------------------------------

  /** 'a' to 'z' stand for 0 to 25 and '2' to '7' for 26 to 31. */
  function Letter(d: Digit): Byte {
    if d < 26 then 97 + d else 24 + d
  }

  function LetterValue(c: Byte): (d: Option<Digit>)
    ensures forall v: Digit :: d == Some(v) <==> Letter(v) == c
  {
    if 97 <= c <= 122 then Some(c - 97) else if 50 <= c <= 55 then Some(c - 24) else None
  }

  /** The alphabet of section 6 of RFC 4648, in lowercase. */
  const ALPHABET := "abcdefghijklmnopqrstuvwxyz234567"

  lemma LetterIsAlphabet(d: Digit)
    ensures |ALPHABET| == 32 && Letter(d) == ALPHABET[d] as int
  {
  }

  function Letters(digits: seq<Digit>): (text: Bytes)
    ensures |text| == |digits|
    ensures forall i | 0 <= i < |digits| :: text[i] == Letter(digits[i])
  {
    seq(|digits|, i requires 0 <= i < |digits| => Letter(digits[i]))
  }

  /** The value of digits written most significant first. */
  function DigitsValue(digits: seq<Digit>): nat {
    if digits == [] then 0 else 32 * DigitsValue(digits[..|digits| - 1]) + digits[|digits| - 1]
  }

  function Digits(n: nat, width: nat): (s: seq<Digit>)
    ensures |s| == width
  {
    if width == 0 then [] else Digits(n / 32, width - 1) + [n % 32]
  }

  lemma {:induction false} DigitsOfValue(digits: seq<Digit>)
    ensures Digits(DigitsValue(digits), |digits|) == digits
  {
    if digits != [] {
      var shorter, last := digits[..|digits| - 1], digits[|digits| - 1];
      DigitsOfValue(shorter);
      var n := DigitsValue(digits);
      assert n / 32 == DigitsValue(shorter) && n % 32 == last;
      assert digits == shorter + [last];
    }
  }

  lemma DigitsSnoc(digits: seq<Digit>, d: Digit)
    ensures DigitsValue(digits + [d]) == 32 * DigitsValue(digits) + d
  {
    assert (digits + [d])[..|digits|] == digits;
  }

  lemma BytesSnoc(s: Bytes, b: Byte)
    ensures BigEndianValue(s + [b]) == 256 * BigEndianValue(s) + b
  {
    assert (s + [b])[..|s|] == s;
  }

  /** The canonical text of an ID. */
  function Text(id: NodeId): (text: Bytes)
    ensures |text| == TEXT_CHARS
  {
    Letters(Digits(16 * BigEndianValue(id), TEXT_CHARS))
  }

  lemma TextOfDigits(id: NodeId, digits: seq<Digit>)
    requires |digits| == TEXT_CHARS && DigitsValue(digits) == 16 * BigEndianValue(id)
    ensures Letters(digits) == Text(id)
  {
    DigitsOfValue(digits);
  }

  // ---------------------------------------------------------------------
  // Arithmetic of the accumulators
  // ---------------------------------------------------------------------

  function Pow2(k: nat): (p: nat)
    ensures p > 0
  {
    if k == 0 then 1 else 2 * Pow2(k - 1)
  }

  lemma Pow2Small()
    ensures Pow2(0) == 1 && Pow2(1) == 2 && Pow2(2) == 4 && Pow2(3) == 8 && Pow2(4) == 16
    ensures Pow2(5) == 32 && Pow2(6) == 64 && Pow2(7) == 128 && Pow2(8) == 256 && Pow2(9) == 512
    ensures Pow2(10) == 1024 && Pow2(11) == 2048 && Pow2(12) == 4096
  {
  }

  lemma MulAdds(d: nat, a: nat, b: nat)
    ensures d * (a + b) == d * a + d * b
  {
  }

  lemma MulAssociates(a: nat, b: nat, c: nat)
    ensures a * (b * c) == (a * b) * c
  {
  }

  lemma MulGrows(d: nat, a: nat, b: nat)
    ensures a <= b ==> d * a <= d * b
  {
    if a <= b {
      MulAdds(d, a, b - a);
    }
  }

  /** Dividing by `d` and then by `c` is dividing by their product `e`. */
  lemma NestedDiv(v: nat, d: nat, c: nat, e: nat)
    requires d > 0 && c > 0 && e == d * c
    ensures e > 0 && v / e == (v / d) / c
  {
    DivTwice(v, d, c);
  }

  lemma DivOfMod(v: nat, d: nat, e: nat, m: nat)
    requires d > 0 && e > 0 && m > 0 && m == d * e
    ensures (v % m) / d == (v / d) % e
  {
    var a, r := v / m, v % m;
    var x, s := r / d, r % d;
    MulAssociates(d, e, a);
    MulAdds(d, e * a, x);
    DivIs(v, d, e * a + x, s);
    MulGrows(d, e, x);
    DivIs(e * a + x, e, a, x);
  }

  lemma ModOfMod(x: nat, c: nat, e: nat, q: nat)
    requires c > 0 && e > 0 && e == c * q
    ensures (x % e) % c == x % c
  {
    var a, r := x / e, x % e;
    var y, t := r / c, r % c;
    MulAssociates(c, q, a);
    MulAdds(c, q * a, y);
    DivIs(x, c, q * a + y, t);
  }

  /** A wrap at a multiple `m` of `d * c` does not reach the `c`-digit above `d`. */
  lemma WrapKeeps(v: nat, d: nat, c: nat, q: nat, m: nat)
    requires d > 0 && c > 0 && q > 0 && m > 0 && m == d * (c * q)
    ensures ((v % m) / d) % c == (v / d) % c
  {
    MulAtLeast(c, q);
    DivOfMod(v, d, c * q, m);
    ModOfMod(v / d, c, c * q, q);
  }

  /** Wrapping before a digit is appended or after it comes to the same. */
  lemma WrapThenAppend(v: nat, k: nat, b: nat, m: nat)
    requires m > 0
    ensures ((v % m) * k + b) % m == (k * v + b) % m
  {
    var a, r := v / m, v % m;
    var y, t := (r * k + b) / m, (r * k + b) % m;
    Regrouped(k, m, a, r, b, y, t);
    DivIs(k * v + b, m, k * a + y, t);
  }

  lemma Regrouped(k: nat, m: nat, a: nat, r: nat, b: nat, y: nat, t: nat)
    requires r * k + b == m * y + t
    ensures k * (m * a + r) + b == m * (k * a + y) + t
  {
    MulAdds(k, m * a, r);
    MulAdds(m, k * a, y);
    assert k * (m * a) == m * (k * a);
  }

  lemma SplitDigit(value: nat, d: nat, c: nat, e: nat)
    requires d > 0 && c > 0 && e == d * c
    ensures e > 0 && c * (value / e) + (value / d) % c == value / d
  {
    NestedDiv(value, d, c, e);
  }

  lemma AppendThenDivide(value: nat, k: nat, b: nat, p: nat, e: nat)
    requires b < k && p > 0 && e == k * p
    ensures e > 0 && (k * value + b) / e == value / p
  {
    NestedDiv(k * value + b, k, p, e);
    DivIs(k * value + b, k, value, b);
  }

  lemma Pow2Splits(a: nat, b: nat)
    ensures Pow2(a + b) == Pow2(a) * Pow2(b)
    decreases b
  {
    if b > 0 {
      Pow2Splits(a, b - 1);
      assert Pow2(a + b) == 2 * Pow2(a + (b - 1));
      assert Pow2(a) * (2 * Pow2(b - 1)) == 2 * (Pow2(a) * Pow2(b - 1));
    }
  }

  lemma Pow2Word()
    ensures Pow2(32) == U32_LIMIT
  {
    Pow2Small();
    Pow2Splits(8, 8);
    Pow2Splits(16, 16);
  }

  /** The `width` bits below the top of a `bits`-bit leftover survive the wrap of a 32-bit accumulator. */
  lemma TopBitsSurvive(value: nat, bits: nat, width: nat)
    requires width <= bits <= 32
    ensures var d, c := Pow2(bits - width), Pow2(width); ((value % U32_LIMIT) / d) % c == (value / d) % c
  {
    var d, c, q := Pow2(bits - width), Pow2(width), Pow2(32 - bits);
    assert U32_LIMIT == d * (c * q) by {
      Pow2Word();
      Pow2Splits(bits - width, width);
      Pow2Splits(bits, 32 - bits);
      MulAssociates(d, c, q);
    }
    WrapKeeps(value, d, c, q, U32_LIMIT);
  }

  /** Taking them off leaves the value above them. */
  lemma TopBitsSplit(value: nat, bits: nat, width: nat)
    requires width <= bits
    ensures var d, c := Pow2(bits - width), Pow2(width); c * (value / Pow2(bits)) + (value / d) % c == value / d
  {
    var d, c, e := Pow2(bits - width), Pow2(width), Pow2(bits);
    assert e == d * c by { Pow2Splits(bits - width, width); }
    SplitDigit(value, d, c, e);
  }

  /** Appending a byte below `bits` leftover bits leaves what is above them alone. */
  lemma AppendByte(value: nat, b: Byte, bits: nat)
    ensures (256 * value + b) / Pow2(bits + 8) == value / Pow2(bits)
    ensures ((value % U32_LIMIT) * 256 + b) % U32_LIMIT == (256 * value + b) % U32_LIMIT
  {
    assert Pow2(bits + 8) == 256 * Pow2(bits) by { Pow2Splits(bits, 8); Pow2Small(); }
    AppendThenDivide(value, 256, b, Pow2(bits), Pow2(bits + 8));
    WrapThenAppend(value, 256, b, U32_LIMIT);
  }

  lemma AppendDigit(value: nat, d: Digit, bits: nat)
    ensures (32 * value + d) / Pow2(bits + 5) == value / Pow2(bits)
    ensures ((value % U32_LIMIT) * 32 + d) % U32_LIMIT == (32 * value + d) % U32_LIMIT
  {
    assert Pow2(bits + 5) == 32 * Pow2(bits) by { Pow2Splits(bits, 5); Pow2Small(); }
    AppendThenDivide(value, 32, d, Pow2(bits), Pow2(bits + 5));
    WrapThenAppend(value, 32, d, U32_LIMIT);
  }

  // ---------------------------------------------------------------------
  // The encoder
  // ---------------------------------------------------------------------

  /** Move five bits at a time from the accumulator to the output. */
  method Drain(out: seq<Digit>, acc: nat, bits: nat, ghost value: nat) returns (out': seq<Digit>, bits': nat)
    requires acc == value % U32_LIMIT && bits <= 12 && DigitsValue(out) == value / Pow2(bits)
    ensures bits' < 5 && 5 * |out'| + bits' == 5 * |out| + bits
    ensures DigitsValue(out') == value / Pow2(bits')
  {
    out', bits' := out, bits;
    while bits' >= 5
      invariant bits' <= 12 && 5 * |out'| + bits' == 5 * |out| + bits
      invariant DigitsValue(out') == value / Pow2(bits')
    {
      TopBitsSurvive(value, bits', 5);
      TopBitsSplit(value, bits', 5);
      Pow2Small();
      var d: Digit := (acc / Pow2(bits' - 5)) % 32;
      DigitsSnoc(out', d);
      out' := out' + [d];
      bits' := bits' - 5;
    }
  }

  method ToBase32(id: NodeId) returns (text: Bytes)
    ensures text == Text(id)
  {
    var bits, acc, out: seq<Digit> := 0, 0, [];
    for i := 0 to |id|
      invariant bits < 5 && 5 * |out| + bits == 8 * i
      invariant acc == BigEndianValue(id[..i]) % U32_LIMIT
      invariant DigitsValue(out) == BigEndianValue(id[..i]) / Pow2(bits)
    {
      ghost var value := BigEndianValue(id[..i]);
      BytesSnoc(id[..i], id[i]);
      assert id[..i + 1] == id[..i] + [id[i]];
      AppendByte(value, id[i], bits);
      acc := (acc * 256 + id[i]) % U32_LIMIT;
      out, bits := Drain(out, acc, bits + 8, 256 * value + id[i]);
    }
    assert id[..|id|] == id;
    if bits > 0 {
      var d: Digit := (acc * Pow2(5 - bits)) % U32_LIMIT % 32;
      LastDigit(id, out, acc, bits, d);
      out := out + [d];
    }
    TextOfDigits(id, out);
    text := Letters(out);
  }

  /** The one leftover bit becomes the top of the last digit, above four zero bits. */
  lemma LastDigit(id: NodeId, out: seq<Digit>, acc: nat, bits: nat, d: Digit)
    requires 0 < bits < 5 && 5 * |out| + bits == 256 && acc == BigEndianValue(id) % U32_LIMIT
    requires DigitsValue(out) == BigEndianValue(id) / Pow2(bits)
    requires d == (acc * Pow2(5 - bits)) % U32_LIMIT % 32
    ensures bits == 1 && |out| == 51 && DigitsValue(out + [d]) == 16 * BigEndianValue(id)
  {
    assert bits == 1;
    Pow2Small();
    DigitsSnoc(out, d);
    LastBit(BigEndianValue(id));
  }

  lemma LastBit(value: nat)
    ensures 32 * (value / 2) + (((value % U32_LIMIT) * 16) % U32_LIMIT) % 32 == 16 * value
  {
  }

  // ---------------------------------------------------------------------
  // The decoder
  // ---------------------------------------------------------------------

  /** Move a whole byte, once there is one, from the accumulator to the output. */
  method Emit(out: Bytes, acc: nat, bits: nat, ghost value: nat) returns (out': Bytes, bits': nat)
    requires acc == value % U32_LIMIT && bits <= 12 && BigEndianValue(out) == value / Pow2(bits)
    ensures bits' < 8 && 8 * |out'| + bits' == 8 * |out| + bits
    ensures BigEndianValue(out') == value / Pow2(bits')
  {
    out', bits' := out, bits;
    if bits >= 8 {
      TopBitsSurvive(value, bits, 8);
      TopBitsSplit(value, bits, 8);
      Pow2Small();
      var b: Byte := (acc / Pow2(bits - 8)) % 256;
      BytesSnoc(out, b);
      out' := out + [b];
      bits' := bits - 8;
    }
  }

  method FromBase32(text: Bytes) returns (r: Option<NodeId>)
    ensures r.Some? ==> text == Text(r.value)
    ensures r.None? ==> forall id: NodeId :: text != Text(id)
  {
    if |text| != TEXT_CHARS {
      return None;
    }
    var bits, acc, out: Bytes := 0, 0, [];
    ghost var digits: seq<Digit> := [];
    for i := 0 to |text|
      invariant |digits| == i && Letters(digits) == text[..i]
      invariant bits < 8 && 8 * |out| + bits == 5 * i
      invariant acc == DigitsValue(digits) % U32_LIMIT
      invariant BigEndianValue(out) == DigitsValue(digits) / Pow2(bits)
    {
      var found := LetterValue(text[i]);
      if found.None? {
        NoSuchLetter(text, i);
        return None;
      }
      var d := found.value;
      ghost var value := DigitsValue(digits);
      DigitsSnoc(digits, d);
      AppendDigit(value, d, bits);
      digits := digits + [d];
      acc := (acc * 32 + d) % U32_LIMIT;
      out, bits := Emit(out, acc, bits + 5, 32 * value + d);
    }
    assert |out| == 32 && bits == 4 && text[..|text|] == text;
    var id: NodeId := out;
    var canonical := ToBase32(id);
    if canonical != text {
      Pow2Small();
      OnlyCandidate(digits, id);
      return None;
    }
    return Some(id);
  }

  lemma NoSuchLetter(text: Bytes, i: nat)
    requires i < |text| && LetterValue(text[i]).None?
    ensures forall id: NodeId :: text != Text(id)
  {
    forall id: NodeId ensures text != Text(id) {
      var digits := Digits(16 * BigEndianValue(id), TEXT_CHARS);
      assert i < TEXT_CHARS ==> Letters(digits)[i] == Letter(digits[i]) != text[i];
    }
  }

  lemma LettersInjective(a: seq<Digit>, b: seq<Digit>)
    requires Letters(a) == Letters(b)
    ensures a == b
  {
    assert |a| == |Letters(a)| == |b|;
    forall i | 0 <= i < |a| ensures a[i] == b[i] {
      assert Letters(a)[i] == Letters(b)[i];
    }
  }

  lemma {:induction false} ValueOfDigits(n: nat, width: nat)
    requires n < Pow32(width)
    ensures DigitsValue(Digits(n, width)) == n
  {
    if width > 0 {
      ValueOfDigits(n / 32, width - 1);
      DigitsSnoc(Digits(n / 32, width - 1), n % 32);
    }
  }

  function Pow32(width: nat): nat {
    if width == 0 then 1 else 32 * Pow32(width - 1)
  }

  lemma {:induction false} Pow32IsPow2(k: nat)
    ensures Pow32(k) == Pow2(5 * k)
  {
    if k > 0 {
      Pow32IsPow2(k - 1);
      Pow2Splits(5 * (k - 1), 5);
      Pow2Small();
    }
  }

  lemma {:induction false} Pow256IsPow2(k: nat)
    ensures Pow256(k) == Pow2(8 * k)
  {
    if k > 0 {
      Pow256IsPow2(k - 1);
      Pow2Splits(8 * (k - 1), 8);
      Pow2Small();
    }
  }

  /** Sixteen times an ID's value has 52 base-32 digits. */
  lemma TextValue(id: NodeId)
    ensures DigitsValue(Digits(16 * BigEndianValue(id), TEXT_CHARS)) == 16 * BigEndianValue(id)
  {
    BigEndianValueBound(id);
    Pow256IsPow2(32);
    Pow32IsPow2(52);
    Pow2Splits(256, 4);
    Pow2Small();
    ValueOfDigits(16 * BigEndianValue(id), TEXT_CHARS);
  }

  /** If the digits' value, cut by four bits, is not an ID that spells them, then no ID does. */
  lemma OnlyCandidate(digits: seq<Digit>, id: NodeId)
    requires BigEndianValue(id) == DigitsValue(digits) / 16 && Letters(digits) != Text(id)
    ensures forall other: NodeId :: Letters(digits) != Text(other)
  {
    forall other: NodeId ensures Letters(digits) != Text(other) {
      if Letters(digits) == Text(other) {
        LettersInjective(digits, Digits(16 * BigEndianValue(other), TEXT_CHARS));
        TextValue(other);
        assert BigEndianValue(other) == BigEndianValue(id);
        BigEndianCanonical(other);
        BigEndianCanonical(id);
      }
    }
  }

  /** No two IDs share a text, so what the decoder accepts it decodes to the only ID with that text. */
  lemma TextInjective(a: NodeId, b: NodeId)
    requires Text(a) == Text(b)
    ensures a == b
  {
    LettersInjective(Digits(16 * BigEndianValue(a), TEXT_CHARS), Digits(16 * BigEndianValue(b), TEXT_CHARS));
    TextValue(a);
    TextValue(b);
    BigEndianCanonical(a);
    BigEndianCanonical(b);
  }

  lemma {:induction false} DigitAt(n: nat, width: nat, i: nat)
    requires i < width
    ensures Pow32(width - 1 - i) > 0 && Digits(n, width)[i] == n / Pow32(width - 1 - i) % 32
  {
    Pow32Positive(width - 1 - i);
    if i < width - 1 {
      DigitAt(n / 32, width - 1, i);
      DivTwice(n, 32, Pow32(width - 2 - i));
    }
  }

  lemma Pow32Positive(width: nat)
    ensures Pow32(width) > 0
  {
  }

  /** Character `i` of an ID's text is the alphabet's letter for bits 5i to 5i + 4 of the ID followed by four zero bits. */
  lemma TextCharacter(id: NodeId, i: nat)
    requires i < 52
    ensures Pow32(51 - i) > 0 && Text(id)[i] == ALPHABET[16 * BigEndianValue(id) / Pow32(51 - i) % 32] as int
  {
    DigitAt(16 * BigEndianValue(id), 52, i);
    LetterIsAlphabet(Digits(16 * BigEndianValue(id), 52)[i]);
  }
}
