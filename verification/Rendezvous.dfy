/**
 Rendezvous-tag derivation.  HKDF-SHA256 with the fixed salt is a parameter
 `kdf` of (input key, info); everything this module states is about the
 pre-images handed to it and about the epochs a tag is derived for.
 */
module Rendezvous {
  import opened Core

  const EPOCH_SECONDS := 3600

  type Tag = Bytes16
  type Host = Bytes
  type Kdf = (Bytes, Bytes) -> Tag

  datatype TagCase = CaseNone | CaseOne | CaseBoth {
    function Code(): (code: Byte)
    {
      match this
      case CaseNone => 0x00
      case CaseOne => 0x01
      case CaseBoth => 0x02
    }
  }

  /** One pair's material as the shell computes it from the current cards. */
  datatype CardMaterial = CardMaterial(tagCase: TagCase, staticX: Bytes32, ephX: Bytes32)

  /** The three kinds of pair material a tag can be derived from. */
  datatype Secret =
    | CardSecret(material: CardMaterial)
    | PairingSecret(pairing: Bytes16)
    | PairedSecret(paired: Bytes32)

  const PAIRING_CASE: Byte := 0x03
  const PAIRED_ROUTE_CASE: Byte := 0x04

  /** HKDF input key: a domain-separating case byte, then the secret bytes. */
  function InputKey(s: Secret): Bytes {
    match s
    case CardSecret(m) => [m.tagCase.Code()] + m.staticX + m.ephX
    case PairingSecret(p) => [PAIRING_CASE] + p
    case PairedSecret(p) => [PAIRED_ROUTE_CASE] + p
  }

  /** HKDF info: the relay host, a zero byte, the epoch as a big-endian u64. */
  function Info(host: Host, epoch: U64): Bytes {
    host + [0] + Be64(epoch)
  }

  function Derive(kdf: Kdf, s: Secret, host: Host, epoch: U64): Tag {
    kdf(InputKey(s), Info(host, epoch))
  }

  function EpochIndex(now: U64): (epoch: U64) {
    now / EPOCH_SECONDS
  }

  /** Previous, current and next epoch; there is no epoch before the first. */
  function Window(now: U64): (epochs: seq<U64>)
    ensures |epochs| == if EpochIndex(now) == 0 then 2 else 3
    ensures forall e: U64 :: e in epochs <==> EpochIndex(now) - 1 <= e <= EpochIndex(now) + 1
  {
    var current := EpochIndex(now);
    if current == 0 then [current, current + 1] else [current - 1, current, current + 1]
  }

  /** The input key byte by byte: a literal case byte, then the secrets in order. */
  lemma InputKeyLayout(s: Secret)
    ensures var k := InputKey(s);
      match s
      case CardSecret(m) =>
        && |k| == 65 && k[1..33] == m.staticX && k[33..] == m.ephX
        && k[0] == (match m.tagCase case CaseNone => 0 case CaseOne => 1 case CaseBoth => 2)
      case PairingSecret(p) => |k| == 17 && k[0] == 3 && k[1..] == p
      case PairedSecret(p) => |k| == 33 && k[0] == 4 && k[1..] == p
  {
  }

  /** The info string: the host, a zero byte, then the epoch's eight bytes. */
  lemma InfoLayout(host: Host, epoch: U64)
    ensures var s := Info(host, epoch);
      |s| == |host| + 9 && s[..|host|] == host && s[|host|] == 0 && s[|host| + 1..] == Be64(epoch)
  {
  }

  /** Epoch `e` is the hour that starts at second 3600 * e. */
  lemma EpochIsTheHour(now: U64)
    ensures 3600 * EpochIndex(now) <= now < 3600 * (EpochIndex(now) + 1)
  {
  }

  lemma InputKeyInjective(s: Secret, t: Secret)
    requires InputKey(s) == InputKey(t)
    ensures s == t
  {
    assert InputKey(s)[0] == InputKey(t)[0];
    match s
    case CardSecret(m) =>
      var n := t.material;
      assert m.staticX == InputKey(s)[1..33] == InputKey(t)[1..33] == n.staticX;
      assert m.ephX == InputKey(s)[33..] == InputKey(t)[33..] == n.ephX;
    case PairingSecret(p) =>
      assert p == InputKey(s)[1..] == InputKey(t)[1..] == t.pairing;
    case PairedSecret(p) =>
      assert p == InputKey(s)[1..] == InputKey(t)[1..] == t.paired;
  }

  /** The epoch is a fixed-width trailer, so no host can absorb part of it. */
  lemma InfoInjective(h: Host, e: U64, h': Host, e': U64)
    requires Info(h, e) == Info(h', e')
    ensures h == h' && e == e'
  {
    var a, b := Info(h, e), Info(h', e');
    assert h == a[..|a| - 9] == b[..|b| - 9] == h';
    assert Be64(e) == a[|a| - 8..] == b[|b| - 8..] == Be64(e');
    Be64RoundTrip(e);
    Be64RoundTrip(e');
  }

  /** HKDF separates every two different inputs of a finite set. */
  ghost predicate NoCollision(kdf: Kdf, inputs: set<(Bytes, Bytes)>) {
    forall x, y | x in inputs && y in inputs && kdf(x.0, x.1) == kdf(y.0, y.1) :: x == y
  }

  /** Without an HKDF collision a tag determines its secret, its relay and its epoch. */
  lemma TagDeterminesPreimage(kdf: Kdf, inputs: set<(Bytes, Bytes)>,
                              s: Secret, h: Host, e: U64, s': Secret, h': Host, e': U64)
    requires NoCollision(kdf, inputs)
    requires (InputKey(s), Info(h, e)) in inputs && (InputKey(s'), Info(h', e')) in inputs
    requires Derive(kdf, s, h, e) == Derive(kdf, s', h', e')
    ensures s == s' && h == h' && e == e'
  {
    var x, y := (InputKey(s), Info(h, e)), (InputKey(s'), Info(h', e'));
    assert kdf(x.0, x.1) == kdf(y.0, y.1);
    assert x == y;
    InputKeyInjective(s, s');
    InfoInjective(h, e, h', e');
  }

  /** Clocks an hour apart are at most one epoch apart. */
  lemma SkewIsOneEpoch(a: U64, b: U64)
    requires -EPOCH_SECONDS <= a - b <= EPOCH_SECONDS
    ensures EpochIndex(a) in Window(b)
  {
  }
}
