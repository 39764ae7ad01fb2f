/** The response header that opens a blob transfer, and the stream it is read from. */
module BlobHeader {
  import opened Core

  const STATUS_OK: Byte := 0x00
  const STATUS_NOT_FOUND: Byte := 0x01
  const STATUS_ERROR: Byte := 0x02
  const STATUS_UNSUPPORTED_VERSION: Byte := 0x03
  const MAX_CONTENT_TYPE := 255
  const FIXED := 11

  /** UTF-8 validity, which every Rust string has. */
  type Utf8 = Bytes -> bool

  datatype Header =
    | Found(size: U64, contentType: Option<Bytes>)
    | NotFound
    | Failed
    | UnsupportedVersion

  datatype WireError =
    | Short(needed: nat, had: nat)
    | BadStatus(status: Byte)
    | ContentTypeTooLong(length: U16)
    | BadContentType

  datatype Decoded = Got(header: Header, used: nat) | Bad(error: WireError)

  /** The media type's bytes on the wire: an over-long one is dropped whole. */
  function WireType(contentType: Option<Bytes>): (s: Bytes)
    ensures |s| <= MAX_CONTENT_TYPE
  {
    if contentType.Some? && |contentType.value| <= MAX_CONTENT_TYPE then contentType.value else []
  }

  function Encode(h: Header): Bytes {
    match h
    case Found(size, contentType) =>
      var text := WireType(contentType);
      [STATUS_OK] + Be64(size) + Be16(|text|) + text
    case NotFound => [STATUS_NOT_FOUND]
    case Failed => [STATUS_ERROR]
    case UnsupportedVersion => [STATUS_UNSUPPORTED_VERSION]
  }

  function Decode(utf8: Utf8, s: Bytes): Decoded {
    if s == [] then Bad(Short(1, 0))
    else if s[0] == STATUS_OK then
      if |s| < FIXED then Bad(Short(FIXED, |s|))
      else
        var size, length := FromBe64(s[1..9]), FromBe16(s[9..11]);
        if length > MAX_CONTENT_TYPE then Bad(ContentTypeTooLong(length))
        else if |s| < FIXED + length then Bad(Short(FIXED + length, |s|))
        else if length == 0 then Got(Found(size, None), FIXED)
        else if !utf8(s[FIXED..FIXED + length]) then Bad(BadContentType)
        else Got(Found(size, Some(s[FIXED..FIXED + length])), FIXED + length)
    else if s[0] == STATUS_NOT_FOUND then Got(NotFound, 1)
    else if s[0] == STATUS_ERROR then Got(Failed, 1)
    else if s[0] == STATUS_UNSUPPORTED_VERSION then Got(UnsupportedVersion, 1)
    else Bad(BadStatus(s[0]))
  }

  /** The header a peer reads: a media type that is empty or over 255 bytes is none. */
  function Normal(h: Header): Header {
    match h
    case Found(size, contentType) =>
      if contentType.Some? && 1 <= |contentType.value| <= MAX_CONTENT_TYPE then h else Found(size, None)
    case _ => h
  }

  lemma HeaderCuts(size: Bytes, length: Bytes, text: Bytes, rest: Bytes)
    requires |size| == 8 && |length| == 2
    ensures var s := [STATUS_OK] + size + length + text + rest;
      && s[0] == STATUS_OK && s[1..9] == size && s[9..11] == length
      && s[FIXED..FIXED + |text|] == text && |s| == FIXED + |text| + |rest|
  {
  }

  /**
   An encoded header, whatever follows it, decodes to its normal form and
   ends where it was written to end.
   */
  lemma HeaderRoundTrip(utf8: Utf8, h: Header, rest: Bytes)
    requires h.Found? && h.contentType.Some? ==> utf8(h.contentType.value)
    ensures Decode(utf8, Encode(h) + rest) == Got(Normal(h), |Encode(h)|)
  {
    if h.Found? {
      var text := WireType(h.contentType);
      HeaderCuts(Be64(h.size), Be16(|text|), text, rest);
      Be64RoundTrip(h.size);
      Be16RoundTrip(|text|);
    }
  }

  /** A header has one spelling, and a decoded header is already normal. */
  lemma HeaderCanonical(utf8: Utf8, s: Bytes)
    requires Decode(utf8, s).Got?
    ensures var d := Decode(utf8, s);
      d.used <= |s| && Encode(d.header) == s[..d.used] && Normal(d.header) == d.header
  {
    if s[0] == STATUS_OK {
      Be64Canonical(s[1..9]);
      Be16Canonical(s[9..11]);
      var length := FromBe16(s[9..11]);
      FoundCanonical(s, length);
    }
  }

  lemma FoundCanonical(s: Bytes, length: nat)
    requires |s| >= FIXED + length
    ensures s[..FIXED + length] == [s[0]] + s[1..9] + s[9..11] + s[FIXED..FIXED + length]
  {
  }

  /** A cut that loses part of the header is an error, never another header. */
  lemma CutHeaderIsShort(utf8: Utf8, h: Header, k: nat)
    requires k < |Encode(h)|
    ensures Decode(utf8, Encode(h)[..k]).Bad?
  {
    if h.Found? && k >= FIXED {
      var text := WireType(h.contentType);
      var s := Encode(h)[..k];
      HeaderCuts(Be64(h.size), Be16(|text|), text, []);
      assert Encode(h) + [] == Encode(h);
      assert s[9..11] == Encode(h)[9..11];
      Be16RoundTrip(|text|);
    }
  }

  /** The receiving half of a stream: the bytes not yet read. */
  class ReceiveStream {
    var unread: Bytes

    constructor (bytes: Bytes)
      ensures unread == bytes
    {
      unread := bytes;
    }

    /** Fills a buffer, or reaches the stream's end first. */
    method ReadExact(n: nat) returns (r: Option<Bytes>)
      modifies this
      ensures n <= |old(unread)| ==> r == Some(old(unread)[..n]) && unread == old(unread)[n..]
      ensures n > |old(unread)| ==> r == None && unread == []
    {
      if n <= |unread| {
        r := Some(unread[..n]);
        unread := unread[n..];
      } else {
        r := None;
        unread := [];
      }
    }
  }

  /**
   Reading a response header off a stream gives the header that decodes from
   the stream's front and takes exactly that header's bytes; anything that
   does not decode is an error.
   */
  method ReadResponse(utf8: Utf8, stream: ReceiveStream) returns (r: Option<Header>)
    modifies stream
    ensures r.Some? <==> Decode(utf8, old(stream.unread)).Got?
    ensures r.Some? ==> var d := Decode(utf8, old(stream.unread));
      r.value == d.header && d.used <= |old(stream.unread)| && stream.unread == old(stream.unread)[d.used..]
  {
    ghost var s := stream.unread;
    var status := stream.ReadExact(1);
    if status.None? {
      return None;
    }
    if status.value[0] != STATUS_OK {
      var d := Decode(utf8, status.value);
      return if d.Got? then Some(d.header) else None;
    }
    var fixed := stream.ReadExact(10);
    if fixed.None? {
      return None;
    }
    assert fixed.value == s[1..FIXED] && stream.unread == s[FIXED..];
    assert fixed.value[8..10] == s[9..11];
    var length := FromBe16(fixed.value[8..10]);
    if length > MAX_CONTENT_TYPE {
      return None;
    }
    var text := Some([]);
    if length > 0 {
      text := stream.ReadExact(length);
      if text.None? {
        return None;
      }
    }
    FrontDecodes(utf8, s, length);
    assert text.value == s[FIXED..FIXED + length];
    var header := status.value + fixed.value + text.value;
    assert header == s[..FIXED + length];
    var d := Decode(utf8, header);
    r := if d.Got? then Some(d.header) else None;
  }

  /** Decoding looks no further than the header it finds. */
  lemma FrontDecodes(utf8: Utf8, s: Bytes, length: nat)
    requires |s| >= FIXED + length && length == FromBe16(s[9..11]) && s[0] == STATUS_OK
    ensures Decode(utf8, s[..FIXED + length]) == Decode(utf8, s)
    ensures Decode(utf8, s).Got? ==> Decode(utf8, s).used == FIXED + length
  {
    var t := s[..FIXED + length];
    assert t[1..9] == s[1..9] && t[9..11] == s[9..11] && t[FIXED..FIXED + length] == s[FIXED..FIXED + length];
  }

  /** The wire bytes of a header: a literal status, the size's eight bytes, two length bytes from the high one, the text. */
  lemma HeaderLayout(h: Header)
    ensures var s := Encode(h);
      match h
      case Found(size, contentType) =>
        var text := if contentType.Some? && |contentType.value| <= 255 then contentType.value else [];
        |s| == 11 + |text| && s[0] == 0x00 && s[1..9] == Be64(size) && s[9..11] == [0, |text|] && s[11..] == text
      case NotFound => s == [0x01]
      case Failed => s == [0x02]
      case UnsupportedVersion => s == [0x03]
  {
    if h.Found? {
      var text := WireType(h.contentType);
      HeaderCuts(Be64(h.size), Be16(|text|), text, []);
      assert Encode(h) + [] == Encode(h);
      Be16Bytes(|text|);
    }
  }

  /** The media type, if any, is text. */
  predicate Textual(utf8: Utf8, h: Header) {
    h.Found? && h.contentType.Some? ==> utf8(h.contentType.value)
  }

  /** A header decodes exactly from the byte strings that begin with an encoding of one. */
  lemma DecodesExactly(utf8: Utf8, s: Bytes)
    ensures Decode(utf8, s).Got? <==> exists h :: Textual(utf8, h) && Encode(h) <= s
  {
    if Decode(utf8, s).Got? {
      HeaderCanonical(utf8, s);
      assert Textual(utf8, Decode(utf8, s).header) && Encode(Decode(utf8, s).header) <= s;
    }
    if h :| Textual(utf8, h) && Encode(h) <= s {
      HeaderRoundTrip(utf8, h, s[|Encode(h)|..]);
      assert s == Encode(h) + s[|Encode(h)|..];
    }
  }

  /** A short buffer is reported with what it had and a length it must at least reach. */
  lemma ShortIsShort(utf8: Utf8, s: Bytes)
    ensures Decode(utf8, s).Bad? && Decode(utf8, s).error.Short? ==>
      var e := Decode(utf8, s).error;
      e.had == |s| < e.needed && e.needed == if s == [] then 1 else if |s| < 11 then 11 else 11 + FromBe16(s[9..11])
  {
  }
}
