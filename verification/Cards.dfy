/**
 The signed address card: its body encoding, its signing and its ordered
 verification.  Ed25519 verification and secp256k1 point decompression are the
 two predicates of `Primitives`.
 */
module Cards {
  import opened Core

  /** The ASCII bytes of "forgesworn-link/card/v1" and a closing zero. */
  const CARD_DOMAIN: Bytes := [
    0x66, 0x6f, 0x72, 0x67, 0x65, 0x73, 0x77, 0x6f, 0x72, 0x6e, 0x2d, 0x6c,
    0x69, 0x6e, 0x6b, 0x2f, 0x63, 0x61, 0x72, 0x64, 0x2f, 0x76, 0x31, 0x00]
  const CARD_MAGIC: Bytes := [0x46, 0x53, 0x4c, 0x31]
  const CARD_VERSION: Byte := 0x01
  const MIN_CARD_BYTES := 126
  const MAX_CARD_BYTES := 4096
  const MAX_HINTS := 16
  const CLOCK_SKEW_SECONDS := 300
  const MAX_LIFETIME_SECONDS := 604_800
  const HEADER_BYTES := 62
  const SIGNATURE_BYTES := 64

  const HINT_RELAY: Byte := 0x01
  const HINT_UDP: Byte := 0x02
  const HINT_ONION: Byte := 0x03
  const HINT_EPHEMERAL: Byte := 0x04
  const MAX_RELAY_HINT_BYTES := 255

  datatype Primitives = Primitives(
    verifies: (NodeId, Bytes, Bytes64) -> bool,
    isPoint: Bytes -> bool)

  datatype Hint = Hint(kind: Byte, value: Bytes)

  datatype Fields = Fields(nodeId: NodeId, issuedAt: U64, expiresAt: U64, serial: U64, hints: seq<Hint>)

  /** The fields of a card and the bytes that carry them. */
  datatype Card = Card(fields: Fields, raw: Bytes)

  datatype VerifyContext = VerifyContext(now: U64, highestSeenSerial: U64, expected: Option<NodeId>)

  datatype Verdict = Accepted(card: Card) | Rejected(rule: nat)

  // ---------------------------------------------------------------------
  // Encoding
  // ---------------------------------------------------------------------

  /** The value's length is written as 16 bits, which wrap. */
  function EncodeHint(h: Hint): Bytes {
    [h.kind] + Be16(|h.value| % U16_LIMIT) + h.value
  }

  function EncodeHints(hints: seq<Hint>): Bytes {
    if hints == [] then [] else EncodeHint(hints[0]) + EncodeHints(hints[1..])
  }

  /** The header fields and the hint region, in wire order. */
  function Layout(magic: Bytes, version: Byte, id: Bytes, issued: Bytes, expires: Bytes, serial: Bytes,
                  count: Byte, region: Bytes): Bytes {
    magic + [version] + id + issued + expires + serial + [count] + region
  }

  /** The hint count is written as one byte, which wraps. */
  function EncodeBody(f: Fields): Bytes {
    Layout(CARD_MAGIC, CARD_VERSION, f.nodeId, Be64(f.issuedAt), Be64(f.expiresAt), Be64(f.serial),
           |f.hints| % 256, EncodeHints(f.hints))
  }

  lemma {:induction false} EncodeHintsAppend(hints: seq<Hint>, h: Hint)
    ensures EncodeHints(hints + [h]) == EncodeHints(hints) + EncodeHint(h)
  {
    if hints == [] {
      assert hints + [h] == [h];
      assert EncodeHints([h]) == EncodeHint(h) + EncodeHints([]);
    } else {
      EncodeHintsAppend(hints[1..], h);
      assert (hints + [h])[1..] == hints[1..] + [h];
    }
  }

  /** The body, appended field by field and hint by hint. */
  method WriteBody(f: Fields) returns (out: Bytes)
    ensures out == EncodeBody(f)
  {
    out := CARD_MAGIC;
    out := out + [CARD_VERSION];
    out := out + f.nodeId;
    out := out + Be64(f.issuedAt);
    out := out + Be64(f.expiresAt);
    out := out + Be64(f.serial);
    out := out + [|f.hints| % 256];
    ghost var header := out;
    for i := 0 to |f.hints|
      invariant out == header + EncodeHints(f.hints[..i])
    {
      var h := f.hints[i];
      EncodeHintsAppend(f.hints[..i], h);
      assert f.hints[..i + 1] == f.hints[..i] + [h];
      out := out + EncodeHint(h);
    }
    assert f.hints[..|f.hints|] == f.hints;
  }

  /** Signing: the signature of the domain-prefixed body is the card's trailer. */
  method Sign(key: Bytes -> Bytes64, f: Fields) returns (card: Card)
    ensures card == Signed(key, f)
  {
    var raw := WriteBody(f);
    var signature := key(CARD_DOMAIN + raw);
    raw := raw + signature;
    card := Card(f, raw);
  }

  function Signed(key: Bytes -> Bytes64, f: Fields): Card {
    Card(f, EncodeBody(f) + key(CARD_DOMAIN + EncodeBody(f)))
  }

  // ---------------------------------------------------------------------
  // Hints: one reading of a region
  // ---------------------------------------------------------------------

  /** What the wire admits as one hint, by kind; unknown kinds carry anything. */
  predicate WireHint(p: Primitives, h: Hint) {
    && |h.value| < U16_LIMIT
    && (h.kind == HINT_RELAY ==> 1 <= |h.value| <= MAX_RELAY_HINT_BYTES)
    && (h.kind == HINT_UDP ==> |h.value| == 18)
    && (h.kind == HINT_ONION ==> |h.value| == 58)
    && (h.kind == HINT_EPHEMERAL ==> |h.value| == 33 && p.isPoint(h.value))
  }

  /** The first hint of a region, if its header and value both fit in it. */
  function FirstHint(s: Bytes): (h: Option<Hint>)
    ensures h.Some? ==> 3 + |h.value.value| <= |s|
  {
    if |s| < 3 then None
    else
      var length := FromBe16(s[1..3]);
      if 3 + length > |s| then None else Some(Hint(s[0], s[3..3 + length]))
  }

  lemma HintCuts(kind: Byte, length: Bytes, value: Bytes, rest: Bytes)
    requires |length| == 2
    ensures var s := [kind] + length + value + rest;
      s[0] == kind && s[1..3] == length && s[3..3 + |value|] == value && s[3 + |value|..] == rest
  {
  }

  lemma FirstHintOfEncoding(h: Hint, rest: Bytes)
    requires |h.value| < U16_LIMIT
    ensures FirstHint(EncodeHint(h) + rest) == Some(h)
    ensures (EncodeHint(h) + rest)[3 + |h.value|..] == rest
  {
    var length := Be16(|h.value|);
    Be16RoundTrip(|h.value|);
    HintCuts(h.kind, length, h.value, rest);
  }

  lemma EncodingOfFirstHint(s: Bytes)
    requires FirstHint(s).Some?
    ensures var h := FirstHint(s).value; s == EncodeHint(h) + s[3 + |h.value|..] && |h.value| < U16_LIMIT
  {
    var h := FirstHint(s).value;
    assert |h.value| == FromBe16(s[1..3]);
    assert Be16(|h.value|) == s[1..3] by { Be16Canonical(s[1..3]); }
    assert EncodeHint(h) == [s[0]] + s[1..3] + s[3..3 + |h.value|];
    HintJoins(s, |h.value|);
  }

  lemma HintJoins(s: Bytes, length: nat)
    requires 3 + length <= |s|
    ensures s == [s[0]] + s[1..3] + s[3..3 + length] + s[3 + length..]
  {
  }

  function FirstWireHint(p: Primitives, s: Bytes): (h: Option<Hint>)
    ensures h.Some? ==> 3 + |h.value.value| <= |s|
  {
    var h := FirstHint(s);
    if h.Some? && WireHint(p, h.value) then h else None
  }

  /** Exactly `n` admissible hints that fill the region. */
  function Parse(p: Primitives, s: Bytes, n: nat): Option<seq<Hint>> {
    if n == 0 then if s == [] then Some([]) else None
    else
      var first := FirstWireHint(p, s);
      if first.None? then None
      else Prepend([first.value], Parse(p, s[3 + |first.value.value|..], n - 1))
  }

  function Prepend(head: seq<Hint>, tail: Option<seq<Hint>>): Option<seq<Hint>> {
    if tail.None? then None else Some(head + tail.value)
  }

  /** The region is the encoding of these admissible hints. */
  predicate Spells(p: Primitives, s: Bytes, hints: seq<Hint>) {
    EncodeHints(hints) == s && forall h <- hints :: WireHint(p, h)
  }

  lemma {:induction false} ParseFinds(p: Primitives, s: Bytes, hints: seq<Hint>)
    requires Spells(p, s, hints)
    ensures Parse(p, s, |hints|) == Some(hints)
  {
    if hints != [] {
      var h, tail := hints[0], EncodeHints(hints[1..]);
      assert h in hints;
      FirstHintOfEncoding(h, tail);
      ParseFinds(p, tail, hints[1..]);
      assert [h] + hints[1..] == hints;
    }
  }

  lemma SpellsMore(p: Primitives, s: Bytes, h: Hint, hints: seq<Hint>)
    requires WireHint(p, h) && Spells(p, s, hints)
    ensures Spells(p, EncodeHint(h) + s, [h] + hints)
  {
    assert ([h] + hints)[1..] == hints;
  }

  lemma {:induction false} ParseIsRight(p: Primitives, s: Bytes, n: nat)
    requires Parse(p, s, n).Some?
    ensures Spells(p, s, Parse(p, s, n).value) && |Parse(p, s, n).value| == n
  {
    if n > 0 {
      var h := FirstHint(s).value;
      var rest := s[3 + |h.value|..];
      EncodingOfFirstHint(s);
      ParseIsRight(p, rest, n - 1);
      SpellsMore(p, rest, h, Parse(p, rest, n - 1).value);
    }
  }

  predicate Short(hints: seq<Hint>) {
    forall h <- hints :: |h.value| < U16_LIMIT
  }

  /** No two lists of hints share an encoding. */
  lemma {:induction false} EncodeHintsInjective(a: seq<Hint>, b: seq<Hint>)
    requires Short(a) && Short(b) && EncodeHints(a) == EncodeHints(b)
    ensures a == b
  {
    if a != [] && b != [] {
      FirstHintOfEncoding(a[0], EncodeHints(a[1..]));
      FirstHintOfEncoding(b[0], EncodeHints(b[1..]));
      EncodeHintsInjective(a[1..], b[1..]);
      assert a == [a[0]] + a[1..] && b == [b[0]] + b[1..];
    }
  }

  /** An encoding is at least as long as any value in it. */
  lemma {:induction false} ShortWhenEncodingIs(hints: seq<Hint>)
    requires |EncodeHints(hints)| < U16_LIMIT
    ensures Short(hints)
  {
    if hints != [] {
      ShortWhenEncodingIs(hints[1..]);
      assert hints == [hints[0]] + hints[1..];
    }
  }

  // ---------------------------------------------------------------------
  // The nine rules
  // ---------------------------------------------------------------------

  predicate Sized(bytes: Bytes) {
    MIN_CARD_BYTES <= |bytes| <= MAX_CARD_BYTES
  }

  function Body(bytes: Bytes): Bytes
    requires Sized(bytes)
  {
    bytes[..|bytes| - SIGNATURE_BYTES]
  }

  function Signature(bytes: Bytes): Bytes64
    requires Sized(bytes)
  {
    bytes[|bytes| - SIGNATURE_BYTES..]
  }

  function Region(bytes: Bytes): Bytes
    requires Sized(bytes)
  {
    bytes[HEADER_BYTES..|bytes| - SIGNATURE_BYTES]
  }

  function Header(bytes: Bytes, hints: seq<Hint>): Fields
    requires Sized(bytes)
  {
    Fields(bytes[5..37], FromBe64(bytes[37..45]), FromBe64(bytes[45..53]), FromBe64(bytes[53..61]), hints)
  }

  function Ephemerals(hints: seq<Hint>): nat {
    if hints == [] then 0
    else Ephemerals(hints[..|hints| - 1]) + if hints[|hints| - 1].kind == HINT_EPHEMERAL then 1 else 0
  }

  /** The list of hints a card may carry. */
  predicate Listable(p: Primitives, hints: seq<Hint>) {
    |hints| <= MAX_HINTS && Ephemerals(hints) <= 1 && forall h <- hints :: WireHint(p, h)
  }

  /** The card's counted hint region is the encoding of this list. */
  predicate Carries(p: Primitives, bytes: Bytes, hints: seq<Hint>)
    requires Sized(bytes)
  {
    Listable(p, hints) && |hints| == bytes[61] && EncodeHints(hints) == Region(bytes)
  }

  predicate Timely(f: Fields, now: U64) {
    f.issuedAt <= Min(now + CLOCK_SKEW_SECONDS, U64_LIMIT - 1)
  }

  predicate Lifetime(f: Fields) {
    f.issuedAt < f.expiresAt <= f.issuedAt + MAX_LIFETIME_SECONDS
  }

  predicate ForPeer(f: Fields, expected: Option<NodeId>) {
    expected.None? || expected.value == f.nodeId
  }

  /** The card rules, by number; rules 2 to 9 are about a card whose length rule 1 admits. */
  ghost predicate Meets(p: Primitives, bytes: Bytes, ctx: VerifyContext, rule: nat) {
    Sized(bytes) &&
    var f := Header(bytes, []);
    match rule
    case 2 => bytes[..4] == CARD_MAGIC && bytes[4] == CARD_VERSION
    case 3 => exists hints :: Carries(p, bytes, hints)
    case 4 => p.verifies(f.nodeId, CARD_DOMAIN + Body(bytes), Signature(bytes))
    case 5 => Timely(f, ctx.now)
    case 6 => ctx.now < f.expiresAt
    case 7 => Lifetime(f)
    case 8 => ctx.highestSeenSerial < f.serial
    case 9 => ForPeer(f, ctx.expected)
    case _ => true
  }

  /** Accepted: every rule holds and the fields encode to the signed bytes.  Rejected: by the first rule that fails. */
  ghost predicate IsVerdict(p: Primitives, bytes: Bytes, ctx: VerifyContext, r: Verdict) {
    match r
    case Accepted(card) =>
      && Sized(bytes) && (forall rule | 1 <= rule <= 9 :: Meets(p, bytes, ctx, rule))
      && card.raw == bytes && EncodeBody(card.fields) == Body(bytes)
    case Rejected(failed) =>
      && 1 <= failed <= 9 && !Meets(p, bytes, ctx, failed)
      && forall rule | 1 <= rule < failed :: Meets(p, bytes, ctx, rule)
  }

  // ---------------------------------------------------------------------
  // Verification
  // ---------------------------------------------------------------------

  method CountEphemerals(hints: seq<Hint>) returns (n: nat)
    ensures n == Ephemerals(hints)
  {
    n := 0;
    for i := 0 to |hints|
      invariant n == Ephemerals(hints[..i])
    {
      assert hints[..i + 1][..i] == hints[..i];
      if hints[i].kind == HINT_EPHEMERAL {
        n := n + 1;
      }
    }
    assert hints[..|hints|] == hints;
  }

  /** The loop over the hint region, with its moving offset. */
  method ReadHints(p: Primitives, bytes: Bytes) returns (r: Option<seq<Hint>>)
    requires Sized(bytes)
    ensures r == Parse(p, Region(bytes), bytes[61])
  {
    var hintsEnd := |bytes| - SIGNATURE_BYTES;
    var offset, hints := HEADER_BYTES, [];
    PrependNothing(Parse(p, Region(bytes), bytes[61]));
    for i := 0 to bytes[61]
      invariant HEADER_BYTES <= offset <= hintsEnd
      invariant Progress(p, bytes, hints, offset, bytes[61] - i)
    {
      var hint := ReadHint(p, bytes, offset, hintsEnd);
      if hint.None? {
        ParseStops(p, bytes, hints, offset, bytes[61] - i);
        return None;
      }
      ParseStep(p, bytes, hints, offset, bytes[61] - i, hint.value);
      hints := hints + [hint.value];
      offset := offset + 3 + |hint.value.value|;
    }
    r := if offset == hintsEnd then Some(hints) else None;
    ParseEnds(p, bytes, hints, offset);
  }

  /** Reading on from `offset` completes the reading of the whole region. */
  predicate Progress(p: Primitives, bytes: Bytes, hints: seq<Hint>, offset: nat, left: nat)
    requires Sized(bytes) && HEADER_BYTES <= offset <= |bytes| - SIGNATURE_BYTES
  {
    Parse(p, Region(bytes), bytes[61]) == Prepend(hints, Parse(p, bytes[offset..|bytes| - SIGNATURE_BYTES], left))
  }

  /** One turn of the loop: the bounds of the header and the value, then the per-kind checks. */
  method ReadHint(p: Primitives, bytes: Bytes, offset: nat, hintsEnd: nat) returns (r: Option<Hint>)
    requires offset <= hintsEnd <= |bytes|
    ensures r == FirstWireHint(p, bytes[offset..hintsEnd])
  {
    ghost var s := bytes[offset..hintsEnd];
    if offset + 3 > hintsEnd {
      return None;
    }
    SliceOfSlice(bytes, offset, hintsEnd, 1, 3);
    var kind, length: int := bytes[offset], FromBe16(bytes[offset + 1..offset + 3]);
    var valueStart, valueEnd := offset + 3, offset + 3 + length;
    if valueEnd > hintsEnd {
      return None;
    }
    SliceOfSlice(bytes, offset, hintsEnd, 3, 3 + length);
    var hint := Hint(kind, bytes[valueStart..valueEnd]);
    assert FirstHint(s) == Some(hint);
    var admitted := Admit(p, hint);
    r := if admitted then Some(hint) else None;
  }

  /** The per-kind checks. */
  method Admit(p: Primitives, h: Hint) returns (ok: bool)
    requires |h.value| < U16_LIMIT
    ensures ok == WireHint(p, h)
  {
    var length := |h.value|;
    if h.kind == HINT_RELAY && (length == 0 || length > MAX_RELAY_HINT_BYTES) {
      return false;
    } else if h.kind == HINT_UDP && length != 18 {
      return false;
    } else if h.kind == HINT_ONION && length != 58 {
      return false;
    } else if h.kind == HINT_EPHEMERAL && (length != 33 || !p.isPoint(h.value)) {
      return false;
    }
    ok := true;
  }

  lemma SliceOfSlice(s: Bytes, lo: nat, hi: nat, a: nat, b: nat)
    requires lo + a <= lo + b <= hi <= |s|
    ensures s[lo..hi][a..b] == s[lo + a..lo + b]
  {
    forall i | 0 <= i < b - a
      ensures s[lo..hi][a..b][i] == s[lo + a..lo + b][i]
    {
      assert s[lo..hi][a + i] == s[lo + a + i];
    }
  }

  lemma ParseStep(p: Primitives, bytes: Bytes, hints: seq<Hint>, offset: nat, left: nat, h: Hint)
    requires Sized(bytes) && HEADER_BYTES <= offset <= |bytes| - SIGNATURE_BYTES
    requires left > 0 && Progress(p, bytes, hints, offset, left)
    requires FirstWireHint(p, bytes[offset..|bytes| - SIGNATURE_BYTES]) == Some(h)
    ensures Progress(p, bytes, hints + [h], offset + 3 + |h.value|, left - 1)
  {
    var end := |bytes| - SIGNATURE_BYTES;
    var s := bytes[offset..end];
    SliceOfSlice(bytes, offset, end, 3 + |h.value|, end - offset);
    assert s[3 + |h.value|..] == bytes[offset + 3 + |h.value|..end];
    PrependAgain(hints, h, Parse(p, s[3 + |h.value|..], left - 1));
  }

  lemma ParseStops(p: Primitives, bytes: Bytes, hints: seq<Hint>, offset: nat, left: nat)
    requires Sized(bytes) && HEADER_BYTES <= offset <= |bytes| - SIGNATURE_BYTES
    requires left > 0 && Progress(p, bytes, hints, offset, left)
    requires FirstWireHint(p, bytes[offset..|bytes| - SIGNATURE_BYTES]).None?
    ensures Parse(p, Region(bytes), bytes[61]).None?
  {
  }

  lemma ParseEnds(p: Primitives, bytes: Bytes, hints: seq<Hint>, offset: nat)
    requires Sized(bytes) && HEADER_BYTES <= offset <= |bytes| - SIGNATURE_BYTES
    requires Progress(p, bytes, hints, offset, 0)
    ensures Parse(p, Region(bytes), bytes[61]) == if offset == |bytes| - SIGNATURE_BYTES then Some(hints) else None
  {
    assert hints + [] == hints;
  }

  lemma PrependNothing(tail: Option<seq<Hint>>)
    ensures Prepend([], tail) == tail
  {
    if tail.Some? {
      assert [] + tail.value == tail.value;
    }
  }

  lemma PrependAgain(head: seq<Hint>, h: Hint, tail: Option<seq<Hint>>)
    ensures Prepend(head, Prepend([h], tail)) == Prepend(head + [h], tail)
  {
    if tail.Some? {
      assert head + ([h] + tail.value) == head + [h] + tail.value;
    }
  }

  lemma RuleThree(p: Primitives, bytes: Bytes, ctx: VerifyContext)
    requires Sized(bytes)
    ensures Meets(p, bytes, ctx, 3)
            <==> var r := Parse(p, Region(bytes), bytes[61]);
                 bytes[61] <= MAX_HINTS && r.Some? && Ephemerals(r.value) <= 1
    ensures var r := Parse(p, Region(bytes), bytes[61]); r.Some? ==> |r.value| == bytes[61]
    ensures var r := Parse(p, Region(bytes), bytes[61]); r.Some? ==> EncodeHints(r.value) == Region(bytes)
  {
    if hints :| Carries(p, bytes, hints) {
      ParseFinds(p, Region(bytes), hints);
    }
    if Parse(p, Region(bytes), bytes[61]).Some? {
      ParseIsRight(p, Region(bytes), bytes[61]);
      var hints := Parse(p, Region(bytes), bytes[61]).value;
      if |hints| <= MAX_HINTS && Ephemerals(hints) <= 1 {
        assert Carries(p, bytes, hints);
      }
    }
  }

  lemma LayoutSlices(magic: Bytes, version: Byte, id: Bytes, issued: Bytes, expires: Bytes, serial: Bytes,
                     count: Byte, region: Bytes)
    requires |magic| == 4 && |id| == 32 && |issued| == |expires| == |serial| == 8
    ensures var s := Layout(magic, version, id, issued, expires, serial, count, region);
      && |s| == HEADER_BYTES + |region|
      && s[..4] == magic && s[4] == version && s[5..37] == id && s[37..45] == issued
      && s[45..53] == expires && s[53..61] == serial && s[61] == count && s[HEADER_BYTES..] == region
  {
  }

  lemma BodySlices(f: Fields)
    ensures var s := EncodeBody(f);
      && |s| == HEADER_BYTES + |EncodeHints(f.hints)|
      && s[..4] == CARD_MAGIC && s[4] == CARD_VERSION && s[5..37] == f.nodeId && s[37..45] == Be64(f.issuedAt)
      && s[45..53] == Be64(f.expiresAt) && s[53..61] == Be64(f.serial) && s[61] == |f.hints| % 256
      && s[HEADER_BYTES..] == EncodeHints(f.hints)
  {
    LayoutSlices(CARD_MAGIC, CARD_VERSION, f.nodeId, Be64(f.issuedAt), Be64(f.expiresAt), Be64(f.serial),
                 |f.hints| % 256, EncodeHints(f.hints));
  }

  /** Bytes that agree on every field agree. */
  lemma SameCuts(a: Bytes, s: Bytes)
    requires HEADER_BYTES <= |a| <= |s|
    requires a[..4] == s[..4] && a[4] == s[4] && a[5..37] == s[5..37] && a[37..45] == s[37..45]
    requires a[45..53] == s[45..53] && a[53..61] == s[53..61] && a[61] == s[61]
    requires a[HEADER_BYTES..] == s[HEADER_BYTES..|a|]
    ensures a == s[..|a|]
  {
    forall i | 0 <= i < |a|
      ensures a[i] == s[i]
    {
      SameAt(a, s, i);
    }
  }

  lemma SameAt(a: Bytes, s: Bytes, i: nat)
    requires HEADER_BYTES <= |a| <= |s| && i < |a|
    requires a[..4] == s[..4] && a[4] == s[4] && a[5..37] == s[5..37] && a[37..45] == s[37..45]
    requires a[45..53] == s[45..53] && a[53..61] == s[53..61] && a[61] == s[61]
    requires a[HEADER_BYTES..] == s[HEADER_BYTES..|a|]
    ensures a[i] == s[i]
  {
    if i < 4 {
      assert a[..4][i] == s[..4][i];
    } else if 5 <= i < 37 {
      assert a[5..37][i - 5] == s[5..37][i - 5];
    } else if 37 <= i < 45 {
      assert a[37..45][i - 37] == s[37..45][i - 37];
    } else if 45 <= i < 53 {
      assert a[45..53][i - 45] == s[45..53][i - 45];
    } else if 53 <= i < 61 {
      assert a[53..61][i - 53] == s[53..61][i - 53];
    } else if HEADER_BYTES <= i {
      assert a[HEADER_BYTES..][i - HEADER_BYTES] == s[HEADER_BYTES..|a|][i - HEADER_BYTES];
    }
  }

  /** The parsed fields encode to the bytes they were read from. */
  lemma ReadEncodes(bytes: Bytes, hints: seq<Hint>)
    requires Sized(bytes) && bytes[..4] == CARD_MAGIC && bytes[4] == CARD_VERSION
    requires |hints| == bytes[61] && EncodeHints(hints) == Region(bytes)
    ensures EncodeBody(Header(bytes, hints)) == Body(bytes)
  {
    var f := Header(bytes, hints);
    BodySlices(f);
    Be64Canonical(bytes[37..45]);
    Be64Canonical(bytes[45..53]);
    Be64Canonical(bytes[53..61]);
    SameCuts(EncodeBody(f), bytes);
  }

  method Verify(p: Primitives, bytes: Bytes, ctx: VerifyContext) returns (r: Verdict)
    ensures IsVerdict(p, bytes, ctx, r)
  {
    if |bytes| < MIN_CARD_BYTES || |bytes| > MAX_CARD_BYTES {
      return Rejected(1);
    }
    if bytes[..4] != CARD_MAGIC || bytes[4] != CARD_VERSION {
      return Rejected(2);
    }
    RuleThree(p, bytes, ctx);
    if bytes[61] > MAX_HINTS {
      return Rejected(3);
    }
    var hints := ReadHints(p, bytes);
    if hints.None? {
      return Rejected(3);
    }
    var ephemerals := CountEphemerals(hints.value);
    if ephemerals > 1 {
      return Rejected(3);
    }
    var f := Header(bytes, hints.value);
    r := Judge(p, bytes, ctx, f);
    ReadEncodes(bytes, hints.value);
  }

  /** Rules 4 to 9. */
  method Judge(p: Primitives, bytes: Bytes, ctx: VerifyContext, f: Fields) returns (r: Verdict)
    requires Sized(bytes) && f == Header(bytes, f.hints)
    requires forall rule | 1 <= rule <= 3 :: Meets(p, bytes, ctx, rule)
    ensures match r
            case Accepted(card) => card == Card(f, bytes) && forall rule | 1 <= rule <= 9 :: Meets(p, bytes, ctx, rule)
            case Rejected(_) => IsVerdict(p, bytes, ctx, r)
  {
    var signingInput := CARD_DOMAIN;
    signingInput := signingInput + Body(bytes);
    if !p.verifies(f.nodeId, signingInput, Signature(bytes)) {
      return Rejected(4);
    }
    if f.issuedAt > Min(ctx.now + CLOCK_SKEW_SECONDS, U64_LIMIT - 1) {
      return Rejected(5);
    }
    if f.expiresAt <= ctx.now {
      return Rejected(6);
    }
    if f.expiresAt <= f.issuedAt || f.expiresAt - f.issuedAt > MAX_LIFETIME_SECONDS {
      return Rejected(7);
    }
    if f.serial <= ctx.highestSeenSerial {
      return Rejected(8);
    }
    if ctx.expected.Some? && ctx.expected.value != f.nodeId {
      return Rejected(9);
    }
    r := Accepted(Card(f, bytes));
  }

  // ---------------------------------------------------------------------
  // What a verdict determines
  // ---------------------------------------------------------------------

  /** The body determines the fields, for every body a card can carry. */
  lemma EncodeBodyInjective(f: Fields, g: Fields)
    requires EncodeBody(f) == EncodeBody(g) && |EncodeBody(f)| <= MAX_CARD_BYTES
    ensures f == g
  {
    var a, b := EncodeBody(f), EncodeBody(g);
    BodySlices(f);
    BodySlices(g);
    Be64RoundTrip(f.issuedAt); Be64RoundTrip(f.expiresAt); Be64RoundTrip(f.serial);
    Be64RoundTrip(g.issuedAt); Be64RoundTrip(g.expiresAt); Be64RoundTrip(g.serial);
    ShortWhenEncodingIs(f.hints);
    ShortWhenEncodingIs(g.hints);
    EncodeHintsInjective(f.hints, g.hints);
  }

  /** Bytes and context determine the verdict. */
  lemma VerdictIsUnique(p: Primitives, bytes: Bytes, ctx: VerifyContext, a: Verdict, b: Verdict)
    requires IsVerdict(p, bytes, ctx, a) && IsVerdict(p, bytes, ctx, b)
    ensures a == b
  {
    match (a, b)
    case (Accepted(c), Accepted(d)) =>
      assert Meets(p, bytes, ctx, 1);
      EncodeBodyInjective(c.fields, d.fields);
    case _ =>
  }

  /** The fields are within the card's bounds and valid in the context. */
  predicate Acceptable(p: Primitives, f: Fields, ctx: VerifyContext) {
    && |EncodeBody(f)| + SIGNATURE_BYTES <= MAX_CARD_BYTES
    && Listable(p, f.hints)
    && Timely(f, ctx.now) && ctx.now < f.expiresAt && Lifetime(f)
    && ctx.highestSeenSerial < f.serial && ForPeer(f, ctx.expected)
  }

  lemma SignedReads(key: Bytes -> Bytes64, f: Fields)
    requires Sized(Signed(key, f).raw)
    ensures var raw := Signed(key, f).raw;
      && Body(raw) == EncodeBody(f) && Signature(raw) == key(CARD_DOMAIN + EncodeBody(f))
      && raw[..4] == CARD_MAGIC && raw[4] == CARD_VERSION && raw[61] == |f.hints| % 256
      && Header(raw, f.hints) == f && Region(raw) == EncodeHints(f.hints)
  {
    var raw, body := Signed(key, f).raw, EncodeBody(f);
    BodySlices(f);
    Be64RoundTrip(f.issuedAt); Be64RoundTrip(f.expiresAt); Be64RoundTrip(f.serial);
    assert Body(raw) == body;
    assert raw[..4] == body[..4] && raw[5..37] == body[5..37] && raw[HEADER_BYTES..|body|] == body[HEADER_BYTES..];
    assert raw[37..45] == body[37..45] && raw[45..53] == body[45..53] && raw[53..61] == body[53..61];
  }

  /** A signed card carries its own hints or none. */
  lemma SignedCarries(p: Primitives, key: Bytes -> Bytes64, f: Fields, hints: seq<Hint>)
    requires Sized(Signed(key, f).raw) && Carries(p, Signed(key, f).raw, hints)
    ensures hints == f.hints
  {
    SignedReads(key, f);
    ShortWhenEncodingIs(hints);
    ShortWhenEncodingIs(f.hints);
    EncodeHintsInjective(hints, f.hints);
  }

  /**
   A freshly signed card is accepted, as itself, exactly when its fields are
   within bounds and valid in the context: the wrapping count and length
   fields never let an oversized card through.
   */
  lemma SignedCardVerdict(p: Primitives, key: Bytes -> Bytes64, f: Fields, ctx: VerifyContext, r: Verdict)
    requires p.verifies(f.nodeId, CARD_DOMAIN + EncodeBody(f), key(CARD_DOMAIN + EncodeBody(f)))
    requires IsVerdict(p, Signed(key, f).raw, ctx, r)
    ensures if Acceptable(p, f, ctx) then r == Accepted(Signed(key, f)) else r.Rejected?
  {
    var raw := Signed(key, f).raw;
    if Acceptable(p, f, ctx) {
      AcceptableIsAccepted(p, key, f, ctx);
      VerdictIsUnique(p, raw, ctx, r, Accepted(Signed(key, f)));
    } else if r.Accepted? {
      AcceptedIsAcceptable(p, key, f, ctx);
    }
  }

  lemma AcceptableIsAccepted(p: Primitives, key: Bytes -> Bytes64, f: Fields, ctx: VerifyContext)
    requires p.verifies(f.nodeId, CARD_DOMAIN + EncodeBody(f), key(CARD_DOMAIN + EncodeBody(f)))
    requires Acceptable(p, f, ctx)
    ensures IsVerdict(p, Signed(key, f).raw, ctx, Accepted(Signed(key, f)))
  {
    var raw := Signed(key, f).raw;
    assert Sized(raw) by { BodySlices(f); }
    SignedReads(key, f);
    AllRules(p, raw, f, ctx);
  }

  lemma AllRules(p: Primitives, bytes: Bytes, f: Fields, ctx: VerifyContext)
    requires Sized(bytes) && bytes[..4] == CARD_MAGIC && bytes[4] == CARD_VERSION
    requires Header(bytes, f.hints) == f && Carries(p, bytes, f.hints)
    requires p.verifies(f.nodeId, CARD_DOMAIN + Body(bytes), Signature(bytes))
    requires Timely(f, ctx.now) && ctx.now < f.expiresAt && Lifetime(f)
    requires ctx.highestSeenSerial < f.serial && ForPeer(f, ctx.expected)
    ensures forall rule | 1 <= rule <= 9 :: Meets(p, bytes, ctx, rule)
  {
  }

  lemma AcceptedIsAcceptable(p: Primitives, key: Bytes -> Bytes64, f: Fields, ctx: VerifyContext)
    requires forall rule | 1 <= rule <= 9 :: Meets(p, Signed(key, f).raw, ctx, rule)
    ensures Acceptable(p, f, ctx)
  {
    var raw := Signed(key, f).raw;
    assert Meets(p, raw, ctx, 3);
    var hints :| Carries(p, raw, hints);
    SignedCarries(p, key, f, hints);
    SignedReads(key, f);
    assert Meets(p, raw, ctx, 5) && Meets(p, raw, ctx, 6) && Meets(p, raw, ctx, 7);
    assert Meets(p, raw, ctx, 8) && Meets(p, raw, ctx, 9);
  }

  // ---------------------------------------------------------------------
  // The rules and layouts in plain numbers
  // ---------------------------------------------------------------------

  lemma DomainText()
    ensures var text := "forgesworn-link/card/v1";
      && |CARD_DOMAIN| == |text| + 1 && CARD_DOMAIN[|text|] == 0
      && forall i | 0 <= i < |text| :: CARD_DOMAIN[i] == text[i] as int
  {
  }

  /** A hint on the wire: its kind, two length bytes from the high one, its value. */
  lemma HintLayout(h: Hint)
    ensures var s := EncodeHint(h);
      |s| == 3 + |h.value| && s[0] == h.kind && s[3..] == h.value
      && s[1..3] == [|h.value| % 0x1_0000 / 256, |h.value| % 0x1_0000 % 256]
  {
    Be16Bytes(|h.value| % U16_LIMIT);
  }

  /** Which hints rule 3 admits. */
  lemma HintRules(p: Primitives, h: Hint)
    ensures WireHint(p, h) <==>
      match h.kind
      case 0x01 => 1 <= |h.value| <= 255
      case 0x02 => |h.value| == 18
      case 0x03 => |h.value| == 58
      case 0x04 => |h.value| == 33 && p.isPoint(h.value)
      case _ => |h.value| <= 65535
  {
  }

  /** At most one ephemeral hint means no two positions carry one. */
  lemma {:induction false} EphemeralsMeaning(hints: seq<Hint>)
    ensures Ephemerals(hints) == 0 <==> forall i | 0 <= i < |hints| :: hints[i].kind != 0x04
    ensures Ephemerals(hints) <= 1 <==> forall i, j | 0 <= i < j < |hints| :: !(hints[i].kind == 0x04 && hints[j].kind == 0x04)
  {
    if hints != [] {
      var shorter, last := hints[..|hints| - 1], hints[|hints| - 1];
      EphemeralsMeaning(shorter);
      assert forall i | 0 <= i < |shorter| :: shorter[i] == hints[i];
      if last.kind == 0x04 {
        if i :| 0 <= i < |shorter| && shorter[i].kind == 0x04 {
          assert hints[i].kind == 0x04 && hints[|hints| - 1].kind == 0x04;
        }
      }
    }
  }

  /** An accepted card in the terms of the specification. */
  lemma AcceptedCard(p: Primitives, bytes: Bytes, ctx: VerifyContext, card: Card)
    requires IsVerdict(p, bytes, ctx, Accepted(card))
    ensures 126 <= |bytes| <= 4096 && card.raw == bytes && |card.fields.hints| <= 16
    ensures var f := card.fields;
      && EncodeBody(f) == bytes[..|bytes| - 64]
      && p.verifies(f.nodeId, CARD_DOMAIN + bytes[..|bytes| - 64], bytes[|bytes| - 64..])
      && f.issuedAt <= ctx.now + 300 && ctx.now < f.expiresAt
      && f.issuedAt < f.expiresAt && f.expiresAt - f.issuedAt <= 604_800
      && f.serial > ctx.highestSeenSerial
      && (ctx.expected == None || ctx.expected == Some(f.nodeId))
      && (forall h | h in f.hints :: WireHint(p, h))
  {
    AcceptedFields(p, bytes, ctx, card);
    assert Meets(p, bytes, ctx, 3);
    var hints :| Carries(p, bytes, hints);
    ReadEncodes(bytes, hints);
    EncodeBodyInjective(card.fields, Header(bytes, hints));
  }

  lemma AcceptedFields(p: Primitives, bytes: Bytes, ctx: VerifyContext, card: Card)
    requires IsVerdict(p, bytes, ctx, Accepted(card))
    ensures Sized(bytes) && bytes[..4] == CARD_MAGIC && bytes[4] == CARD_VERSION
    ensures var f := Header(bytes, []);
      && p.verifies(f.nodeId, CARD_DOMAIN + Body(bytes), Signature(bytes))
      && Timely(f, ctx.now) && ctx.now < f.expiresAt && Lifetime(f)
      && f.serial > ctx.highestSeenSerial && ForPeer(f, ctx.expected)
  {
    assert Meets(p, bytes, ctx, 1) && Meets(p, bytes, ctx, 2) && Meets(p, bytes, ctx, 4) && Meets(p, bytes, ctx, 5);
    assert Meets(p, bytes, ctx, 6) && Meets(p, bytes, ctx, 7) && Meets(p, bytes, ctx, 8) && Meets(p, bytes, ctx, 9);
  }

  /** The fields' own part of acceptance, exactly: 300 s of skew, seven days of life, a newer serial, the expected peer. */
  lemma AcceptableMeans(p: Primitives, f: Fields, ctx: VerifyContext)
    ensures Acceptable(p, f, ctx) <==>
      && |EncodeBody(f)| + 64 <= 4096 && |f.hints| <= 16
      && (forall h | h in f.hints :: WireHint(p, h))
      && (forall i, j | 0 <= i < j < |f.hints| :: !(f.hints[i].kind == 0x04 && f.hints[j].kind == 0x04))
      && f.issuedAt <= ctx.now + 300 && ctx.now < f.expiresAt
      && f.issuedAt < f.expiresAt && f.expiresAt - f.issuedAt <= 604_800
      && f.serial > ctx.highestSeenSerial
      && (ctx.expected == None || ctx.expected == Some(f.nodeId))
  {
    EphemeralsMeaning(f.hints);
  }
}
