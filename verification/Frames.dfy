/** The relay frame codec. */
module Frames {
  import opened Core
  import opened Rendezvous

  const MAX_DATAGRAM := 1350
  const MAX_TAGS_PER_REGISTER := 256
  const TAG_BYTES := 16

  const FRAME_CHALLENGE: Byte := 0x01
  const FRAME_AUTH: Byte := 0x02
  const FRAME_WELCOME: Byte := 0x03
  const FRAME_REGISTER: Byte := 0x04
  const FRAME_SEND: Byte := 0x10
  const FRAME_RECV: Byte := 0x11
  const FRAME_SEND_TAG: Byte := 0x12
  const FRAME_RECV_TAG: Byte := 0x13
  const FRAME_PING: Byte := 0x20
  const FRAME_PONG: Byte := 0x21
  const FRAME_CLOSE: Byte := 0x7f

  datatype Frame =
    | Challenge(challenge: Bytes32)
    | Auth(nodeId: NodeId, signature: Bytes64)
    | Welcome(token: Bytes16)
    | Send(destination: NodeId, datagram: Bytes)
    | Recv(source: NodeId, datagram: Bytes)
    | Register(tags: seq<Tag>)
    | SendTag(tag: Tag, datagram: Bytes)
    | RecvTag(tag: Tag, datagram: Bytes)
    | Ping(opaque8: Bytes8)
    | Pong(opaque8: Bytes8)
    | Close(reason: U16)

  // ---------------------------------------------------------------------
  // Tag lists
  // ---------------------------------------------------------------------

  function Flat(tags: seq<Tag>): (s: Bytes)
    ensures |s| == TAG_BYTES * |tags|
  {
    if tags == [] then [] else Flat(tags[..|tags| - 1]) + tags[|tags| - 1]
  }

  /** The 16-byte chunks of a whole number of tags. */
  function Chunks(s: Bytes): (tags: seq<Tag>)
    requires |s| % TAG_BYTES == 0
    ensures |tags| * TAG_BYTES == |s|
  {
    if s == [] then []
    else
      var n := |s| - TAG_BYTES;
      Chunks(s[..n]) + [s[n..]]
  }

  lemma {:induction false} ChunksOfFlat(tags: seq<Tag>)
    ensures Chunks(Flat(tags)) == tags
  {
    if tags != [] {
      var shorter, last := tags[..|tags| - 1], tags[|tags| - 1];
      ChunksOfFlat(shorter);
      var s := Flat(tags);
      var n := |s| - TAG_BYTES;
      assert s[..n] == Flat(shorter) && s[n..] == last;
      assert tags == shorter + [last];
    }
  }

  lemma {:induction false} FlatOfChunks(s: Bytes)
    requires |s| % TAG_BYTES == 0
    ensures Flat(Chunks(s)) == s
  {
    if s != [] {
      var n := |s| - TAG_BYTES;
      FlatOfChunks(s[..n]);
      FlatSnoc(Chunks(s[..n]), s[n..]);
      assert s == s[..n] + s[n..];
    }
  }

  lemma FlatSnoc(tags: seq<Tag>, last: Tag)
    ensures Flat(tags + [last]) == Flat(tags) + last
  {
    assert (tags + [last])[..|tags|] == tags;
  }

  // ---------------------------------------------------------------------
  // Encoding
  // ---------------------------------------------------------------------

  /** A list's length as the wire's 16-bit count, which wraps. */
  function Count16(tags: seq<Tag>): U16 {
    |tags| % U16_LIMIT
  }

  function EncodeTags(tags: seq<Tag>): Bytes {
    Be16(Count16(tags)) + Flat(tags)
  }

  function Encode(f: Frame): Bytes {
    match f
    case Challenge(bytes) => [FRAME_CHALLENGE] + bytes
    case Auth(id, signature) => [FRAME_AUTH] + (id + signature)
    case Welcome(token) => [FRAME_WELCOME] + token
    case Send(id, datagram) => [FRAME_SEND] + (id + datagram)
    case Recv(id, datagram) => [FRAME_RECV] + (id + datagram)
    case Register(tags) => [FRAME_REGISTER] + EncodeTags(tags)
    case SendTag(tag, datagram) => [FRAME_SEND_TAG] + (tag + datagram)
    case RecvTag(tag, datagram) => [FRAME_RECV_TAG] + (tag + datagram)
    case Ping(bytes) => [FRAME_PING] + bytes
    case Pong(bytes) => [FRAME_PONG] + bytes
    case Close(reason) => [FRAME_CLOSE] + Be16(reason)
  }

  /** The encoder, appending to its buffer. */
  method EncodeFrame(f: Frame) returns (out: Bytes)
    ensures out == Encode(f)
  {
    match f
    case Register(tags) => out := TagList(tags);
    case Challenge(bytes) => out := One(FRAME_CHALLENGE, bytes);
    case Auth(id, signature) => out := Routed(FRAME_AUTH, id, signature);
    case Welcome(token) => out := One(FRAME_WELCOME, token);
    case Send(id, datagram) => out := Routed(FRAME_SEND, id, datagram);
    case Recv(id, datagram) => out := Routed(FRAME_RECV, id, datagram);
    case SendTag(tag, datagram) => out := Routed(FRAME_SEND_TAG, tag, datagram);
    case RecvTag(tag, datagram) => out := Routed(FRAME_RECV_TAG, tag, datagram);
    case Ping(bytes) => out := One(FRAME_PING, bytes);
    case Pong(bytes) => out := One(FRAME_PONG, bytes);
    case Close(reason) => out := One(FRAME_CLOSE, Be16(reason));
  }

  method One(kind: Byte, body: Bytes) returns (out: Bytes)
    ensures out == [kind] + body
  {
    out := [kind];
    out := out + body;
  }

  method Routed(kind: Byte, address: Bytes, payload: Bytes) returns (out: Bytes)
    ensures out == [kind] + (address + payload)
  {
    out := [kind];
    out := out + address;
    out := out + payload;
  }

  method TagList(tags: seq<Tag>) returns (out: Bytes)
    ensures out == [FRAME_REGISTER] + EncodeTags(tags)
  {
    out := [FRAME_REGISTER] + Be16(Count16(tags));
    ghost var head := out;
    for i := 0 to |tags|
      invariant out == head + Flat(tags[..i])
    {
      assert tags[..i + 1][..i] == tags[..i];
      out := out + tags[i];
    }
    assert tags[..|tags|] == tags;
  }

  // ---------------------------------------------------------------------
  // Decoding
  // ---------------------------------------------------------------------

  predicate DatagramSized(n: int) {
    1 <= n <= MAX_DATAGRAM
  }

  /** A count-prefixed tag list that must fill its body exactly. */
  function DecodeTags(body: Bytes): Option<seq<Tag>> {
    if |body| < 2 then None
    else
      var count, rest := FromBe16(body[..2]), body[2..];
      if count > MAX_TAGS_PER_REGISTER || |rest| != count * TAG_BYTES then None
      else Some(Chunks(rest))
  }

  function Decode(bytes: Bytes): Option<Frame> {
    if bytes == [] then None
    else
      var kind, body := bytes[0], bytes[1..];
      if kind == FRAME_CHALLENGE then if |body| == 32 then Some(Challenge(body)) else None
      else if kind == FRAME_AUTH then if |body| == 96 then Some(Auth(body[..32], body[32..])) else None
      else if kind == FRAME_WELCOME then if |body| == 16 then Some(Welcome(body)) else None
      else if kind == FRAME_SEND then
        if DatagramSized(|body| - 32) then Some(Send(body[..32], body[32..])) else None
      else if kind == FRAME_RECV then
        if DatagramSized(|body| - 32) then Some(Recv(body[..32], body[32..])) else None
      else if kind == FRAME_REGISTER then
        var tags := DecodeTags(body);
        if tags.None? then None else Some(Register(tags.value))
      else if kind == FRAME_SEND_TAG then
        if DatagramSized(|body| - TAG_BYTES) then Some(SendTag(body[..TAG_BYTES], body[TAG_BYTES..])) else None
      else if kind == FRAME_RECV_TAG then
        if DatagramSized(|body| - TAG_BYTES) then Some(RecvTag(body[..TAG_BYTES], body[TAG_BYTES..])) else None
      else if kind == FRAME_PING then if |body| == 8 then Some(Ping(body)) else None
      else if kind == FRAME_PONG then if |body| == 8 then Some(Pong(body)) else None
      else if kind == FRAME_CLOSE then if |body| == 2 then Some(Close(FromBe16(body))) else None
      else None
  }

  // ---------------------------------------------------------------------
  // Exactness
  // ---------------------------------------------------------------------

  /** The frame respects the wire's bounds: a datagram of 1 to 1350 bytes, at most 256 tags. */
  predicate WireSized(f: Frame) {
    match f
    case Send(_, datagram) => 1 <= |datagram| <= 1350
    case Recv(_, datagram) => 1 <= |datagram| <= 1350
    case SendTag(_, datagram) => 1 <= |datagram| <= 1350
    case RecvTag(_, datagram) => 1 <= |datagram| <= 1350
    case Register(tags) => |tags| <= 256
    case _ => true
  }

  lemma SplitAt(a: Bytes, b: Bytes)
    ensures (a + b)[..|a|] == a && (a + b)[|a|..] == b
  {
  }

  lemma Headed(kind: Byte, body: Bytes)
    ensures ([kind] + body)[0] == kind && ([kind] + body)[1..] == body
  {
  }

  /** Only a list of at most 256 tags has its own length as its count on the wire. */
  lemma TooManyTags(n: nat)
    requires n > MAX_TAGS_PER_REGISTER
    ensures n % U16_LIMIT > MAX_TAGS_PER_REGISTER || n != n % U16_LIMIT
  {
  }

  lemma TagsRoundTrip(tags: seq<Tag>)
    ensures DecodeTags(EncodeTags(tags)) == if |tags| <= 256 then Some(tags) else None
  {
    var count := Count16(tags);
    SplitAt(Be16(count), Flat(tags));
    Be16RoundTrip(count);
    if |tags| <= MAX_TAGS_PER_REGISTER {
      ChunksOfFlat(tags);
    } else {
      TooManyTags(|tags|);
    }
  }

  lemma TagsCanonical(body: Bytes)
    ensures DecodeTags(body).Some?
            ==> EncodeTags(DecodeTags(body).value) == body && |DecodeTags(body).value| <= MAX_TAGS_PER_REGISTER
  {
    if DecodeTags(body).Some? {
      var tags := DecodeTags(body).value;
      Be16Canonical(body[..2]);
      FlatOfChunks(body[2..]);
      assert Count16(tags) == FromBe16(body[..2]);
      assert body == body[..2] + body[2..];
    }
  }

  predicate IsRouted(f: Frame) {
    f.Send? || f.Recv? || f.SendTag? || f.RecvTag?
  }

  lemma RoutedRoundTrip(f: Frame)
    requires IsRouted(f)
    ensures Decode(Encode(f)) == if WireSized(f) then Some(f) else None
  {
    match f
    case Send(id, datagram) => Headed(FRAME_SEND, id + datagram); SplitAt(id, datagram);
    case Recv(id, datagram) => Headed(FRAME_RECV, id + datagram); SplitAt(id, datagram);
    case SendTag(tag, datagram) => Headed(FRAME_SEND_TAG, tag + datagram); SplitAt(tag, datagram);
    case RecvTag(tag, datagram) => Headed(FRAME_RECV_TAG, tag + datagram); SplitAt(tag, datagram);
  }

  lemma FixedRoundTrip(f: Frame)
    requires !IsRouted(f) && !f.Register?
    ensures Decode(Encode(f)) == Some(f)
  {
    match f
    case Auth(id, signature) => Headed(FRAME_AUTH, id + signature); SplitAt(id, signature);
    case Challenge(bytes) => Headed(FRAME_CHALLENGE, bytes);
    case Welcome(bytes) => Headed(FRAME_WELCOME, bytes);
    case Ping(bytes) => Headed(FRAME_PING, bytes);
    case Pong(bytes) => Headed(FRAME_PONG, bytes);
    case Close(reason) => Headed(FRAME_CLOSE, Be16(reason)); Be16RoundTrip(reason);
  }

  /**
   A frame within the bounds decodes to itself; any other frame, including a
   tag list long enough to wrap the 16-bit count, does not decode at all.
   */
  lemma RoundTrip(f: Frame)
    ensures Decode(Encode(f)) == if WireSized(f) then Some(f) else None
  {
    match f
    case Register(tags) => Headed(FRAME_REGISTER, EncodeTags(tags)); TagsRoundTrip(tags);
    case Send(_, _) => RoutedRoundTrip(f);
    case Recv(_, _) => RoutedRoundTrip(f);
    case SendTag(_, _) => RoutedRoundTrip(f);
    case RecvTag(_, _) => RoutedRoundTrip(f);
    case _ => FixedRoundTrip(f);
  }

  /** Whatever decodes is the encoding of what it decodes to: a frame has one spelling. */
  lemma Canonical(bytes: Bytes)
    ensures Decode(bytes).Some? ==> Encode(Decode(bytes).value) == bytes && WireSized(Decode(bytes).value)
  {
    if Decode(bytes).Some? {
      var f := Decode(bytes).value;
      if IsRouted(f) {
        RoutedCanonical(bytes);
      } else if f.Register? {
        TagsCanonical(bytes[1..]);
      } else {
        FixedCanonical(bytes);
      }
    }
  }

  lemma RoutedCanonical(bytes: Bytes)
    requires Decode(bytes).Some? && IsRouted(Decode(bytes).value)
    ensures Encode(Decode(bytes).value) == bytes && WireSized(Decode(bytes).value)
  {
    var body := bytes[1..];
    assert bytes == [bytes[0]] + body;
    if bytes[0] == FRAME_SEND || bytes[0] == FRAME_RECV {
      assert body == body[..32] + body[32..];
    } else {
      assert body == body[..TAG_BYTES] + body[TAG_BYTES..];
    }
  }

  lemma FixedCanonical(bytes: Bytes)
    requires Decode(bytes).Some?
    requires !IsRouted(Decode(bytes).value) && !Decode(bytes).value.Register?
    ensures Encode(Decode(bytes).value) == bytes
  {
    var body := bytes[1..];
    assert bytes == [bytes[0]] + body;
    if bytes[0] == FRAME_AUTH {
      assert body == body[..32] + body[32..];
    } else if bytes[0] == FRAME_CLOSE {
      Be16Canonical(body);
    }
  }

  // ---------------------------------------------------------------------
  // Layout
  // ---------------------------------------------------------------------

  lemma {:induction false} TagAt(tags: seq<Tag>, i: nat)
    requires i < |tags|
    ensures Flat(tags)[16 * i..16 * i + 16] == tags[i]
  {
    var shorter, s := tags[..|tags| - 1], Flat(tags);
    assert s == Flat(shorter) + tags[|tags| - 1];
    if i < |tags| - 1 {
      TagAt(shorter, i);
      assert s[16 * i..16 * i + 16] == Flat(shorter)[16 * i..16 * i + 16];
    }
  }

  /** The wire bytes of a registration: kind, two count bytes from the high one, then the tags in order. */
  lemma RegisterLayout(tags: seq<Tag>)
    ensures var s := Encode(Register(tags));
      && |s| == 3 + 16 * |tags| && s[0] == 0x04
      && s[1..3] == [|tags| % 0x1_0000 / 256, |tags| % 0x1_0000 % 256]
      && forall i | 0 <= i < |tags| :: s[3 + 16 * i..19 + 16 * i] == tags[i]
  {
    var s := Encode(Register(tags));
    Be16Bytes(Count16(tags));
    forall i | 0 <= i < |tags| ensures s[3 + 16 * i..19 + 16 * i] == tags[i] {
      TagAt(tags, i);
      assert s[3 + 16 * i..19 + 16 * i] == Flat(tags)[16 * i..16 * i + 16];
    }
  }

  /** The wire bytes of a routed frame: a literal kind byte, the address, the datagram. */
  lemma RoutedLayout(f: Frame)
    requires IsRouted(f)
    ensures var s := Encode(f);
      match f
      case Send(id, datagram) => |s| >= 33 && s[0] == 0x10 && s[1..33] == id && s[33..] == datagram
      case Recv(id, datagram) => |s| >= 33 && s[0] == 0x11 && s[1..33] == id && s[33..] == datagram
      case SendTag(tag, datagram) => |s| >= 17 && s[0] == 0x12 && s[1..17] == tag && s[17..] == datagram
      case RecvTag(tag, datagram) => |s| >= 17 && s[0] == 0x13 && s[1..17] == tag && s[17..] == datagram
      case _ => true
  {
    match f
    case Send(id, datagram) => AddressThenRest(0x10, id, datagram);
    case Recv(id, datagram) => AddressThenRest(0x11, id, datagram);
    case SendTag(tag, datagram) => AddressThenRest(0x12, tag, datagram);
    case RecvTag(tag, datagram) => AddressThenRest(0x13, tag, datagram);
  }

  lemma AddressThenRest(kind: Byte, address: Bytes, rest: Bytes)
    ensures var s := [kind] + (address + rest);
      s[0] == kind && s[1..1 + |address|] == address && s[1 + |address|..] == rest
  {
  }

  /** The wire bytes of every other frame: a literal kind byte, then its fields in order. */
  lemma FixedLayout(f: Frame)
    requires !IsRouted(f) && !f.Register?
    ensures var s := Encode(f);
      match f
      case Challenge(bytes) => s == [0x01] + bytes
      case Auth(id, signature) => s == [0x02] + (id + signature)
      case Welcome(token) => s == [0x03] + token
      case Ping(bytes) => s == [0x20] + bytes
      case Pong(bytes) => s == [0x21] + bytes
      case Close(reason) => s == [0x7f, reason / 256, reason % 256]
      case _ => true
  {
    match f
    case Close(reason) => Be16Bytes(reason);
    case _ =>
  }
}
