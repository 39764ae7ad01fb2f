/** The server's half of a blob transfer: the header, then the source's bytes in bounded parts. */
module BlobServer {
  import opened Core
  import opened BlobHeader

  const CHUNK := 65536

  /** What a blob source yields: bytes, or a fault that ends it. */
  datatype Item = Chunk(bytes: Bytes) | Fault

  function Joined(parts: seq<Bytes>): Bytes {
    if parts == [] then [] else parts[0] + Joined(parts[1..])
  }

  /** The bytes a source produces before any fault. */
  function Produced(items: seq<Item>): Bytes {
    if items == [] || items[0].Fault? then [] else items[0].bytes + Produced(items[1..])
  }

  predicate Clean(items: seq<Item>) {
    Fault !in items
  }

  // ---------------------------------------------------------------------
  // Parts
  // ---------------------------------------------------------------------

  /** One chunk cut into pieces of at most 64 KiB. */
  function Parts(s: Bytes): seq<Bytes> {
    if s == [] then []
    else if |s| <= CHUNK then [s]
    else [s[..CHUNK]] + Parts(s[CHUNK..])
  }

  function AllParts(items: seq<Item>): seq<Bytes> {
    if items == [] || items[0].Fault? then [] else Parts(items[0].bytes) + AllParts(items[1..])
  }

  predicate PartSized(parts: seq<Bytes>) {
    forall part <- parts :: 1 <= |part| <= CHUNK
  }

  lemma Regroup(a: Bytes, b: Bytes, c: Bytes)
    ensures a + (b + c) == a + b + c
  {
  }

  lemma {:induction false} JoinedAppend(a: seq<Bytes>, b: seq<Bytes>)
    ensures Joined(a + b) == Joined(a) + Joined(b)
  {
    if a == [] {
      assert a + b == b;
    } else {
      JoinedAppend(a[1..], b);
      assert (a + b)[1..] == a[1..] + b;
      Regroup(a[0], Joined(a[1..]), Joined(b));
    }
  }

  lemma {:induction false} PartsJoin(s: Bytes)
    ensures Joined(Parts(s)) == s && PartSized(Parts(s))
  {
    if |s| > CHUNK {
      PartsJoin(s[CHUNK..]);
      assert Parts(s)[1..] == Parts(s[CHUNK..]);
      assert s == s[..CHUNK] + s[CHUNK..];
    } else if s != [] {
      assert Joined([s]) == s + Joined([]);
    }
  }

  lemma {:induction false} AllPartsJoin(items: seq<Item>)
    ensures Joined(AllParts(items)) == Produced(items) && PartSized(AllParts(items))
  {
    if items != [] && items[0].Chunk? {
      PartsJoin(items[0].bytes);
      AllPartsJoin(items[1..]);
      JoinedAppend(Parts(items[0].bytes), AllParts(items[1..]));
    }
  }

  // ---------------------------------------------------------------------
  // The bytes that reach the wire
  // ---------------------------------------------------------------------

  /** The leading parts that together fit in `room`; the first that does not fit ends the transfer unwritten. */
  function Written(parts: seq<Bytes>, room: nat): (s: Bytes)
    ensures |s| <= room
  {
    if parts == [] || |parts[0]| > room then []
    else parts[0] + Written(parts[1..], room - |parts[0]|)
  }

  lemma {:induction false} WrittenIsPrefix(parts: seq<Bytes>, room: nat)
    ensures Written(parts, room) <= Joined(parts)
    ensures |Joined(parts)| <= room ==> Written(parts, room) == Joined(parts)
  {
    if parts != [] && |parts[0]| <= room {
      WrittenIsPrefix(parts[1..], room - |parts[0]|);
    }
  }

  /** The wire carries all `room` bytes exactly when some leading parts add up to them. */
  lemma {:induction false} WrittenReaches(parts: seq<Bytes>, room: nat)
    ensures |Written(parts, room)| == room <==> exists k: nat :: k <= |parts| && |Joined(parts[..k])| == room
  {
    if |Written(parts, room)| == room {
      WrittenWitness(parts, room);
    }
    forall k: nat | k <= |parts| && |Joined(parts[..k])| == room
      ensures |Written(parts, room)| == room
    {
      WrittenCovers(parts, room, k);
    }
  }

  lemma {:induction false} WrittenWitness(parts: seq<Bytes>, room: nat)
    requires |Written(parts, room)| == room
    ensures exists k: nat :: k <= |parts| && |Joined(parts[..k])| == room
  {
    if parts == [] || |parts[0]| > room {
      assert |Joined(parts[..0])| == room;
    } else {
      WrittenWitness(parts[1..], room - |parts[0]|);
      var k: nat :| k <= |parts[1..]| && |Joined(parts[1..][..k])| == room - |parts[0]|;
      assert parts[..k + 1][1..] == parts[1..][..k];
      assert |Joined(parts[..k + 1])| == room;
    }
  }

  lemma {:induction false} WrittenCovers(parts: seq<Bytes>, room: nat, k: nat)
    requires k <= |parts| && |Joined(parts[..k])| == room
    ensures |Written(parts, room)| == room
  {
    if k > 0 {
      assert parts[..k][1..] == parts[1..][..k - 1];
      WrittenCovers(parts[1..], room - |parts[0]|, k - 1);
    }
  }

  // ---------------------------------------------------------------------
  // Server
  // ---------------------------------------------------------------------

  /** The sending half: the bytes written, and whether the stream ended cleanly. */
  class SendStream {
    var wire: Bytes
    var finished: bool

    constructor ()
      ensures wire == [] && !finished
    {
      wire, finished := [], false;
    }

    method WriteAll(bytes: Bytes)
      modifies this
      ensures wire == old(wire) + bytes && finished == old(finished)
    {
      wire := wire + bytes;
    }

    method Finish()
      modifies this
      ensures wire == old(wire) && finished
    {
      finished := true;
    }
  }

  /** `body` is on the wire, and writing the `rest` of the parts completes it. */
  predicate Sending(parts: seq<Bytes>, size: nat, body: Bytes, rest: seq<Bytes>) {
    && |body| <= size
    && Written(parts, size) == body + Written(rest, size - |body|)
    && |Joined(parts)| == |body| + |Joined(rest)|
  }

  lemma SendPart(parts: seq<Bytes>, size: nat, body: Bytes, rest: seq<Bytes>)
    requires rest != [] && Sending(parts, size, body, rest)
    ensures |body| + |rest[0]| <= size ==> Sending(parts, size, body + rest[0], rest[1..])
    ensures |body| + |rest[0]| > size ==> Written(parts, size) == body && |Joined(parts)| > size
  {
    if |body| + |rest[0]| <= size {
      Regroup(body, rest[0], Written(rest[1..], size - |body| - |rest[0]|));
    }
  }

  lemma FirstPart(chunk: Bytes, offset: nat)
    requires offset < |chunk|
    ensures var end := Min(offset + CHUNK, |chunk|);
      var rest := Parts(chunk[offset..]);
      && rest != [] && rest[0] == chunk[offset..end] && rest[1..] == Parts(chunk[end..])
      && chunk[..offset] + rest[0] == chunk[..end]
  {
    var s := chunk[offset..];
    assert chunk[..offset] + chunk[offset..Min(offset + CHUNK, |chunk|)] == chunk[..Min(offset + CHUNK, |chunk|)];
    if |s| > CHUNK {
      assert s[..CHUNK] == chunk[offset..offset + CHUNK] && s[CHUNK..] == chunk[offset + CHUNK..];
    }
  }

  predicate SendingChunk(chunk: Bytes, room: nat, offset: nat)
    requires offset <= |chunk|
  {
    Sending(Parts(chunk), room, chunk[..offset], Parts(chunk[offset..]))
  }

  lemma SendNextPart(chunk: Bytes, room: nat, offset: nat)
    requires offset < |chunk| && SendingChunk(chunk, room, offset)
    ensures var end := Min(offset + CHUNK, |chunk|);
      if end <= room then SendingChunk(chunk, room, end) else Written(Parts(chunk), room) == chunk[..offset]
  {
    FirstPart(chunk, offset);
    SendPart(Parts(chunk), room, chunk[..offset], Parts(chunk[offset..]));
  }

  lemma SendChunkEnds(chunk: Bytes, room: nat)
    requires SendingChunk(chunk, room, |chunk|)
    ensures |chunk| <= room && Written(Parts(chunk), room) == chunk
  {
    assert chunk[..|chunk|] == chunk;
    PartsJoin(chunk);
    WrittenIsPrefix(Parts(chunk), room);
  }

  /** One chunk of the source, in parts of at most 64 KiB, up to the first part that does not fit in `room`. */
  method SendChunk(stream: SendStream, chunk: Bytes, room: nat) returns (ok: bool)
    modifies stream
    ensures stream.finished == old(stream.finished)
    ensures stream.wire == old(stream.wire) + Written(Parts(chunk), room)
    ensures ok == (|chunk| <= room)
  {
    ghost var head := stream.wire;
    var offset: nat := 0;
    assert chunk[0..] == chunk && chunk[..0] == [];
    while offset < |chunk|
      invariant 0 <= offset <= |chunk|
      invariant stream.wire == head + chunk[..offset] && stream.finished == old(stream.finished)
      invariant SendingChunk(chunk, room, offset)
    {
      var end := Min(offset + CHUNK, |chunk|);
      SendNextPart(chunk, room, offset);
      if end > room {
        return false;
      }
      stream.WriteAll(chunk[offset..end]);
      assert head + chunk[..offset] + chunk[offset..end] == head + chunk[..end];
      offset := end;
    }
    SendChunkEnds(chunk, room);
    ok := true;
  }

  lemma {:induction false} WrittenAppend(a: seq<Bytes>, b: seq<Bytes>, room: nat)
    ensures Written(a + b, room)
         == if |Joined(a)| <= room then Joined(a) + Written(b, room - |Joined(a)|) else Written(a, room)
  {
    if a == [] {
      assert a + b == b;
    } else {
      assert (a + b)[1..] == a[1..] + b;
      if |a[0]| <= room {
        WrittenAppend(a[1..], b, room - |a[0]|);
        if |Joined(a)| <= room {
          Regroup(a[0], Joined(a[1..]), Written(b, room - |Joined(a)|));
        }
      }
    }
  }

  lemma SendItem(parts: seq<Bytes>, size: nat, body: Bytes, chunk: Bytes, later: seq<Bytes>)
    requires Sending(parts, size, body, Parts(chunk) + later) && |body| + |chunk| <= size
    ensures Written(Parts(chunk), size - |body|) == chunk
    ensures Sending(parts, size, body + chunk, later)
  {
    assert Joined(Parts(chunk)) == chunk by { PartsJoin(chunk); }
    assert Written(Parts(chunk), size - |body|) == chunk by { WrittenIsPrefix(Parts(chunk), size - |body|); }
    JoinedAppend(Parts(chunk), later);
    var more := Written(later, size - |body| - |chunk|);
    assert Written(parts, size) == body + (chunk + more) by { WrittenAppend(Parts(chunk), later, size - |body|); }
    Regroup(body, chunk, more);
  }

  lemma SendTooMuch(parts: seq<Bytes>, size: nat, body: Bytes, chunk: Bytes, later: seq<Bytes>)
    requires Sending(parts, size, body, Parts(chunk) + later) && |body| + |chunk| > size
    ensures Written(parts, size) == body + Written(Parts(chunk), size - |body|)
    ensures |Joined(parts)| > size
  {
    assert Joined(Parts(chunk)) == chunk by { PartsJoin(chunk); }
    JoinedAppend(Parts(chunk), later);
    WrittenAppend(Parts(chunk), later, size - |body|);
  }

  predicate SendingItems(items: seq<Item>, size: nat, body: Bytes, i: nat)
    requires i <= |items|
  {
    Fault !in items[..i] && Sending(AllParts(items), size, body, AllParts(items[i..]))
  }

  lemma SendNextItem(items: seq<Item>, size: nat, body: Bytes, i: nat)
    requires i < |items| && SendingItems(items, size, body, i)
    ensures items[i].Fault? ==> !Clean(items) && Written(AllParts(items), size) == body
    ensures items[i].Chunk? ==>
      var chunk := items[i].bytes;
      if |body| + |chunk| <= size then
        Written(Parts(chunk), size - |body|) == chunk && SendingItems(items, size, body + chunk, i + 1)
      else
        && Written(AllParts(items), size) == body + Written(Parts(chunk), size - |body|)
        && |Produced(items)| > size
  {
    if items[i].Chunk? {
      var chunk, later := items[i].bytes, AllParts(items[i + 1..]);
      assert AllParts(items[i..]) == Parts(chunk) + later by { assert items[i..][1..] == items[i + 1..]; }
      if |body| + |chunk| <= size {
        SendItem(AllParts(items), size, body, chunk, later);
      } else {
        SendTooMuch(AllParts(items), size, body, chunk, later);
        AllPartsJoin(items);
      }
    }
  }

  lemma SendEnds(items: seq<Item>, size: nat, body: Bytes)
    requires SendingItems(items, size, body, |items|)
    ensures Clean(items) && |Produced(items)| == |body| && Written(AllParts(items), size) == body
  {
    assert items[..|items|] == items;
    AllPartsJoin(items);
  }

  /** Streams the body in bounded parts; the result says whether it was exactly the declared size. */
  method SendBody(stream: SendStream, items: seq<Item>, size: U64) returns (ok: bool)
    modifies stream
    ensures stream.finished == old(stream.finished)
    ensures stream.wire == old(stream.wire) + Written(AllParts(items), size)
    ensures ok == (Clean(items) && |Produced(items)| == size)
  {
    ghost var head, body: Bytes := stream.wire, [];
    var sent: nat := 0;
    assert items[0..] == items;
    for i := 0 to |items|
      invariant stream.wire == head + body && sent == |body| <= size
      invariant stream.finished == old(stream.finished)
      invariant SendingItems(items, size, body, i)
    {
      SendNextItem(items, size, body, i);
      if items[i].Fault? {
        return false;
      }
      var chunk := items[i].bytes;
      var fits := SendChunk(stream, chunk, size - sent);
      Regroup(head, body, Written(Parts(chunk), size - sent));
      if !fits {
        return false;
      }
      sent := sent + |chunk|;
      body := body + chunk;
    }
    SendEnds(items, size, body);
    ok := sent == size;
  }

  /**
   The header, then the body; the stream ends cleanly exactly when the source
   produced the declared size without a fault.
   */
  method SendBlob(stream: SendStream, items: seq<Item>, size: U64, contentType: Option<Bytes>) returns (ok: bool)
    requires !stream.finished
    modifies stream
    ensures stream.wire == old(stream.wire) + Encode(Found(size, contentType)) + Written(AllParts(items), size)
    ensures ok == stream.finished == (Clean(items) && |Produced(items)| == size)
  {
    stream.WriteAll(Encode(Found(size, contentType)));
    ok := SendBody(stream, items, size);
    if ok {
      stream.Finish();
    }
  }

  // ---------------------------------------------------------------------
  // The shape of parts
  // ---------------------------------------------------------------------

  /** Every part of a chunk but its last is exactly 64 KiB. */
  lemma {:induction false} PartsAreFull(s: Bytes, i: nat)
    requires i < |Parts(s)|
    ensures i < |Parts(s)| - 1 ==> |Parts(s)[i]| == 65536
  {
    if |s| > CHUNK && i > 0 {
      PartsAreFull(s[CHUNK..], i - 1);
    }
  }

  /** What is written is a number of leading parts, and it stops only at the end or before a part that does not fit. */
  lemma {:induction false} WrittenIsMaximal(parts: seq<Bytes>, room: nat)
    ensures exists k: nat :: k <= |parts| && Written(parts, room) == Joined(parts[..k])
                             && (k < |parts| ==> |Joined(parts[..k])| + |parts[k]| > room)
  {
    if parts == [] || |parts[0]| > room {
      assert Written(parts, room) == Joined(parts[..0]);
    } else {
      WrittenIsMaximal(parts[1..], room - |parts[0]|);
      var k: nat :| k <= |parts[1..]| && Written(parts[1..], room - |parts[0]|) == Joined(parts[1..][..k])
                    && (k < |parts[1..]| ==> |Joined(parts[1..][..k])| + |parts[1..][k]| > room - |parts[0]|);
      assert parts[..k + 1][1..] == parts[1..][..k];
      assert Written(parts, room) == Joined(parts[..k + 1]);
    }
  }
}
