/** The client's half of a blob transfer, and the two halves composed. */
module BlobClient {
  import opened Core
  import opened BlobHeader
  import opened BlobServer

  /** One item of the body stream. */
  datatype Piece = Data(bytes: Bytes) | Truncated

  datatype BodyState = BodyState(unread: Bytes, remaining: nat, errored: bool)

  /** One turn of the body stream: the item it yields, if any, and the state it leaves. */
  function Next(b: BodyState): (Option<Piece>, BodyState) {
    if b.errored || b.remaining == 0 then (None, b)
    else
      var want := Min(b.remaining, CHUNK);
      if want <= |b.unread| then (Some(Data(b.unread[..want])), BodyState(b.unread[want..], b.remaining - want, false))
      else (Some(Truncated), BodyState([], b.remaining, true))
  }

  class BlobBody {
    const stream: ReceiveStream
    var remaining: nat
    var errored: bool

    constructor (stream: ReceiveStream, size: U64)
      ensures this.stream == stream && State() == BodyState(stream.unread, size, false)
    {
      this.stream := stream;
      remaining, errored := size, false;
    }

    function State(): BodyState
      reads this, stream
    {
      BodyState(stream.unread, remaining, errored)
    }

    method Poll() returns (r: Option<Piece>)
      modifies this, stream
      ensures (r, State()) == Next(old(State()))
    {
      if errored {
        return None;
      }
      if remaining == 0 {
        return None;
      }
      var want := Min(remaining, CHUNK);
      var buffer := stream.ReadExact(want);
      if buffer.Some? {
        remaining := remaining - want;
        r := Some(Data(buffer.value));
      } else {
        errored := true;
        r := Some(Truncated);
      }
    }
  }

  /** Every item the stream yields until it ends. */
  function Drained(b: BodyState): seq<Piece>
    decreases if b.errored then 0 else b.remaining + 1
  {
    var (piece, after) := Next(b);
    if piece.None? then [] else [piece.value] + Drained(after)
  }

  predicate Complete(pieces: seq<Piece>) {
    Truncated !in pieces
  }

  function Content(pieces: seq<Piece>): Bytes {
    if pieces == [] then []
    else (if pieces[0].Data? then pieces[0].bytes else []) + Content(pieces[1..])
  }

  predicate Bounded(pieces: seq<Piece>) {
    forall piece <- pieces :: piece.Data? ==> 1 <= |piece.bytes| <= CHUNK
  }

  /** Bounded pieces that carry `content` without an error. */
  predicate Whole(pieces: seq<Piece>, content: Bytes) {
    Complete(pieces) && Bounded(pieces) && Content(pieces) == content
  }

  /** Bounded pieces that carry `content`, then one error, which is the last item. */
  predicate Cut(pieces: seq<Piece>, content: Bytes) {
    pieces != [] && pieces[|pieces| - 1] == Truncated && Whole(pieces[..|pieces| - 1], content)
  }

  lemma WholeMore(bytes: Bytes, pieces: seq<Piece>, content: Bytes)
    requires 1 <= |bytes| <= CHUNK && Whole(pieces, content)
    ensures Whole([Data(bytes)] + pieces, bytes + content)
  {
    assert ([Data(bytes)] + pieces)[1..] == pieces;
  }

  lemma CutMore(bytes: Bytes, pieces: seq<Piece>, content: Bytes)
    requires 1 <= |bytes| <= CHUNK && Cut(pieces, content)
    ensures Cut([Data(bytes)] + pieces, bytes + content)
  {
    WholeMore(bytes, pieces[..|pieces| - 1], content);
    var more := [Data(bytes)] + pieces;
    assert more[..|more| - 1] == [Data(bytes)] + pieces[..|pieces| - 1];
  }

  /** Enough bytes: the body ends without an error, having yielded exactly the declared size. */
  lemma {:induction false} DrainsWhole(s: Bytes, size: nat)
    requires size <= |s|
    ensures Whole(Drained(BodyState(s, size, false)), s[..size])
    decreases size
  {
    if size > 0 {
      var want := Min(size, CHUNK);
      DrainsWhole(s[want..], size - want);
      WholeMore(s[..want], Drained(BodyState(s[want..], size - want, false)), s[want..][..size - want]);
      assert s[..want] + s[want..][..size - want] == s[..size];
    }
  }

  /** Too few: whole 64 KiB pieces, then exactly one error, then the end. */
  lemma {:induction false} DrainsShort(s: Bytes, size: nat)
    requires |s| < size
    ensures Cut(Drained(BodyState(s, size, false)), s[..|s| / CHUNK * CHUNK])
    decreases size
  {
    if |s| >= CHUNK {
      DrainsShort(s[CHUNK..], size - CHUNK);
      var n := |s[CHUNK..]| / CHUNK * CHUNK;
      CutMore(s[..CHUNK], Drained(BodyState(s[CHUNK..], size - CHUNK, false)), s[CHUNK..][..n]);
      assert s[..CHUNK] + s[CHUNK..][..n] == s[..CHUNK + n];
    } else {
      assert Drained(BodyState([], size, true)) == [];
      assert Drained(BodyState(s, size, false)) == [Truncated] + [];
    }
  }

  // ---------------------------------------------------------------------
  // End to end
  // ---------------------------------------------------------------------

  /** The bytes the server puts on the wire for a source. */
  function Wire(items: seq<Item>, size: U64, contentType: Option<Bytes>): Bytes {
    Encode(Found(size, contentType)) + Written(AllParts(items), size)
  }

  /** What the client makes of the bytes that reached it: a header and a body stream's items. */
  datatype Fetched = Fetched(header: Header, pieces: seq<Piece>)

  function Fetch(utf8: Utf8, got: Bytes): Option<Fetched> {
    var d := Decode(utf8, got);
    if d.Got? && d.header.Found? && d.used <= |got| then
      Some(Fetched(d.header, Drained(BodyState(got[d.used..], d.header.size, false))))
    else None
  }

  /** The reader of a prefix of the wire: no header, or the server's own with the body's leading bytes after it. */
  lemma FetchReads(utf8: Utf8, items: seq<Item>, size: U64, contentType: Option<Bytes>, got: Bytes)
    requires contentType.Some? ==> utf8(contentType.value)
    requires got <= Wire(items, size, contentType)
    ensures var h := Found(size, contentType);
      var n := |Encode(h)|;
      if |got| < n then Fetch(utf8, got).None?
      else
        && got[n..] <= Written(AllParts(items), size)
        && Fetch(utf8, got) == Some(Fetched(Normal(h), Drained(BodyState(got[n..], size, false))))
  {
    var h := Found(size, contentType);
    var head, body := Encode(h), Written(AllParts(items), size);
    var n := |head|;
    if |got| < n {
      assert got == head[..|got|];
      CutHeaderIsShort(utf8, h, |got|);
    } else {
      assert got == head + got[n..] && got[n..] == body[..|got| - n];
      HeaderRoundTrip(utf8, h, got[n..]);
    }
  }

  /** Without an error, the first `size` bytes of the source; otherwise fewer of them, then the one error. */
  ghost predicate Exact(items: seq<Item>, size: nat, pieces: seq<Piece>) {
    if Complete(pieces) then size <= |Produced(items)| && Whole(pieces, Produced(items)[..size])
    else exists n: nat :: n <= |Produced(items)| && n < size && Cut(pieces, Produced(items)[..n])
  }

  lemma BodyIsExact(items: seq<Item>, size: nat, body: Bytes)
    requires body <= Written(AllParts(items), size)
    ensures Exact(items, size, Drained(BodyState(body, size, false)))
  {
    assert body <= Produced(items) by {
      AllPartsJoin(items);
      WrittenIsPrefix(AllParts(items), size);
    }
    if size <= |body| {
      DrainsWhole(body, size);
      assert body[..size] == Produced(items)[..size];
    } else {
      DrainsShort(body, size);
      var m := |body| / CHUNK * CHUNK;
      assert body[..m] == Produced(items)[..m];
    }
  }

  /**
   Whatever prefix of the wire arrives, the client reads the sent header up to
   its normal form.  A body that ends without an error is, in pieces of at
   most 64 KiB, exactly the first `size` bytes the source produced.  Any other
   body is leading bytes of the source, then its one error, then the end.
   */
  lemma TransferIsExact(utf8: Utf8, items: seq<Item>, size: U64, contentType: Option<Bytes>, got: Bytes)
    requires contentType.Some? ==> utf8(contentType.value)
    requires got <= Wire(items, size, contentType)
    ensures var f := Fetch(utf8, got);
      f.Some? ==>
        f.value.header == Normal(Found(size, contentType)) && Exact(items, size, f.value.pieces)
  {
    FetchReads(utf8, items, size, contentType, got);
    var n := |Encode(Found(size, contentType))|;
    if |got| >= n {
      BodyIsExact(items, size, got[n..]);
    }
  }

  /**
   When everything written arrives, the client gets the whole blob exactly
   when some leading parts of the source add up to the declared size.
   */
  lemma CompletesExactly(utf8: Utf8, items: seq<Item>, size: U64, contentType: Option<Bytes>)
    requires contentType.Some? ==> utf8(contentType.value)
    ensures var f := Fetch(utf8, Wire(items, size, contentType));
      && f.Some?
      && (Complete(f.value.pieces)
          <==> exists k: nat :: k <= |AllParts(items)| && |Joined(AllParts(items)[..k])| == size)
  {
    var got := Wire(items, size, contentType);
    FetchReads(utf8, items, size, contentType, got);
    var body := Written(AllParts(items), size);
    assert got[|Encode(Found(size, contentType))|..] == body;
    WrittenReaches(AllParts(items), size);
    if |body| == size {
      DrainsWhole(body, size);
    } else {
      DrainsShort(body, size);
    }
  }

  /** A source that produces the declared size is received whole, and one that stops short never is. */
  lemma SourceDecides(utf8: Utf8, items: seq<Item>, size: U64, contentType: Option<Bytes>)
    requires contentType.Some? ==> utf8(contentType.value)
    ensures var f := Fetch(utf8, Wire(items, size, contentType));
      && f.Some?
      && (|Produced(items)| == size ==> Complete(f.value.pieces) && Content(f.value.pieces) == Produced(items))
      && (|Produced(items)| < size ==> !Complete(f.value.pieces))
  {
    var got, parts := Wire(items, size, contentType), AllParts(items);
    TransferIsExact(utf8, items, size, contentType, got);
    CompletesExactly(utf8, items, size, contentType);
    AllPartsJoin(items);
    if |Produced(items)| == size {
      assert parts[..|parts|] == parts;
      assert Produced(items)[..size] == Produced(items);
    }
  }

  // ---------------------------------------------------------------------
  // Sources that produce too much
  // ---------------------------------------------------------------------

  lemma PartsOfTwo(a: Bytes, b: Bytes)
    ensures AllParts([Chunk(a), Chunk(b)]) == Parts(a) + Parts(b)
    ensures Produced([Chunk(a), Chunk(b)]) == a + b
  {
    var items := [Chunk(a), Chunk(b)];
    assert items[1..] == [Chunk(b)] && items[1..][1..] == [];
    assert AllParts(items[1..]) == Parts(b) + [] && Produced(items[1..]) == b + [];
  }

  /** Surplus in a chunk of its own: the server does not finish cleanly, and the client still gets a whole blob. */
  lemma SurplusChunkGoesUnseen(utf8: Utf8, a: Bytes, b: Bytes, contentType: Option<Bytes>)
    requires contentType.Some? ==> utf8(contentType.value)
    requires |a| < U64_LIMIT && b != []
    ensures var items := [Chunk(a), Chunk(b)];
      var f := Fetch(utf8, Wire(items, |a|, contentType));
      && Clean(items) && |Produced(items)| != |a|
      && f.Some? && Complete(f.value.pieces) && Content(f.value.pieces) == a
  {
    var items := [Chunk(a), Chunk(b)];
    PartsOfTwo(a, b);
    PartsJoin(a);
    assert AllParts(items)[..|Parts(a)|] == Parts(a);
    CompletesExactly(utf8, items, |a|, contentType);
    TransferIsExact(utf8, items, |a|, contentType, Wire(items, |a|, contentType));
    assert (a + b)[..|a|] == a;
  }

  /** The same bytes in one chunk: nothing of the body is written, and the client gets the error. */
  lemma SurplusInChunkIsSeen(utf8: Utf8, a: Bytes, b: Bytes, contentType: Option<Bytes>)
    requires contentType.Some? ==> utf8(contentType.value)
    requires a != [] && b != [] && |a| + |b| <= CHUNK
    ensures var f := Fetch(utf8, Wire([Chunk(a + b)], |a|, contentType));
      f.Some? && f.value.pieces == [Truncated]
  {
    var items := [Chunk(a + b)];
    assert items[1..] == [] && AllParts(items) == [a + b] + [];
    assert Written(AllParts(items), |a|) == [];
    var got := Wire(items, |a|, contentType);
    FetchReads(utf8, items, |a|, contentType, got);
    assert got[|Encode(Found(|a|, contentType))|..] == [];
    assert Drained(BodyState([], |a|, true)) == [];
    assert [Truncated] + [] == [Truncated];
  }

  // ---------------------------------------------------------------------
  // The shape of the body
  // ---------------------------------------------------------------------

  function AsPieces(parts: seq<Bytes>): seq<Piece> {
    seq(|parts|, i requires 0 <= i < |parts| => Data(parts[i]))
  }

  /** A complete body is the declared bytes cut into 64 KiB parts, whatever parts the server sent. */
  lemma {:induction false} BodyIsCutInParts(s: Bytes, size: nat)
    requires size <= |s|
    ensures Drained(BodyState(s, size, false)) == AsPieces(Parts(s[..size]))
    decreases size
  {
    if size > 0 {
      var want := Min(size, CHUNK);
      BodyIsCutInParts(s[want..], size - want);
      PartsCons(s[..size]);
      assert s[..size][..want] == s[..want] && s[..size][want..] == s[want..][..size - want];
      AsPiecesCons(s[..want], Parts(s[want..][..size - want]));
    }
  }

  lemma PartsCons(s: Bytes)
    requires s != []
    ensures var n := Min(|s|, CHUNK); Parts(s) == [s[..n]] + Parts(s[n..])
  {
    if |s| <= CHUNK {
      assert s[..|s|] == s && s[|s|..] == [];
      assert [s] + [] == [s];
    }
  }

  lemma AsPiecesCons(part: Bytes, parts: seq<Bytes>)
    ensures AsPieces([part] + parts) == [Data(part)] + AsPieces(parts)
  {
  }
}
