/**
 The device's half of the relay protocol: a request cut into frames no larger than the link allows.

 BEGIN states four lengths, DATA frames carry slices of the four fields laid end to end, END closes.
 The stream is never materialised on the device; `StreamRead` reads it out of the four fields.
 */
module RelayDevice {
  import opened Prelude

  datatype Request = Request(url: Bytes, auth: Bytes, contentType: Bytes, body: Bytes)

  function Stream(r: Request): Bytes {
    r.url + r.auth + r.contentType + r.body
  }

  const BEGIN: Byte := 1
  const DATA: Byte := 2
  const END: Byte := 3
  const DATA_HEADER_LEN: nat := 4
  const MIN_CHUNK_BYTES: nat := 24
  const FRAME_BUFFER_BYTES: nat := 256
  const PROTOCOL_VERSION: Byte := 1

  /** Little-endian. */
  function U16(v: nat): Bytes {
    [v % 256, v / 256 % 256]
  }

  function U32(v: nat): Bytes {
    [v % 256, v / 256 % 256, v / 0x1_0000 % 256, v / 0x100_0000 % 256]
  }

  function BeginFrame(id: Byte, r: Request): Bytes {
    [BEGIN, id] + U16(|r.url|) + U16(|r.auth|) + U16(|r.contentType|) + U32(|r.body|)
  }

  function DataFrame(id: Byte, offset: nat, payload: Bytes): Bytes {
    [DATA, id] + U16(offset) + payload
  }

  function EndFrame(id: Byte): Bytes {
    [END, id]
  }

  /** Up to `cap` octets of `s` from `offset`. */
  function Slice(s: Bytes, offset: nat, cap: nat): Bytes {
    if offset >= |s| then [] else s[offset..if offset + cap < |s| then offset + cap else |s|]
  }

  lemma {:induction false} SliceWithin(s: Bytes, more: Bytes, offset: nat, cap: nat)
    requires offset + cap <= |s|
    ensures Slice(s + more, offset, cap) == Slice(s, offset, cap) && |Slice(s, offset, cap)| == cap
  {
  }

  lemma {:induction false} SliceAcross(s: Bytes, more: Bytes, offset: nat, cap: nat)
    requires offset < |s| < offset + cap
    ensures Slice(s + more, offset, cap) == Slice(s, offset, cap) + Slice(more, 0, cap - |Slice(s, offset, cap)|)
  {
    var t := s + more;
    var end := if offset + cap < |t| then offset + cap else |t|;
    assert t[offset..end] == s[offset..] + more[..end - |s|];
  }

  lemma {:induction false} SliceBeyond(s: Bytes, more: Bytes, offset: nat, cap: nat)
    requires offset >= |s|
    ensures Slice(s + more, offset, cap) == Slice(more, offset - |s|, cap) && Slice(s, offset, cap) == []
  {
    var t, from := s + more, offset - |s|;
    if offset < |t| {
      var end := if offset + cap < |t| then offset + cap else |t|;
      assert t[offset..end] == more[from..end - |s|];
    }
  }

  lemma {:induction false} SliceExtends(s: Bytes, more: Bytes, offset: nat, cap: nat)
    ensures Slice(s + more, offset, cap) ==
      Slice(s, offset, cap) + Slice(more, if offset > |s| then offset - |s| else 0, cap - |Slice(s, offset, cap)|)
  {
    var before := Slice(s, offset, cap);
    if offset >= |s| {
      SliceBeyond(s, more, offset, cap);
      assert [] + Slice(more, offset - |s|, cap) == Slice(more, offset - |s|, cap);
    } else if offset + cap <= |s| {
      SliceWithin(s, more, offset, cap);
      assert before + [] == before;
    } else {
      SliceAcross(s, more, offset, cap);
    }
  }

  /** What a segment that begins at `base` adds to a slice with this much room left. */
  function Part(base: nat, segment: Bytes, offset: nat, room: nat): (part: Bytes)
    ensures |part| <= room
  {
    Slice(segment, if offset > base then offset - base else 0, room)
  }

  function Concat(segments: seq<Bytes>): Bytes {
    if segments == [] then [] else Concat(segments[..|segments| - 1]) + segments[|segments| - 1]
  }

  function Segments(r: Request): seq<Bytes> {
    [r.url, r.auth, r.contentType, r.body]
  }

  lemma {:induction false} SegmentsAreStream(r: Request)
    ensures Concat(Segments(r)) == Stream(r)
  {
    var s := Segments(r);
    assert s[..3] == [r.url, r.auth, r.contentType] && s[..3][..2] == [r.url, r.auth] && s[..3][..2][..1] == [r.url];
    assert [r.url][..0] == [];
    assert Concat([r.url]) == r.url;
    assert Concat([r.url, r.auth]) == r.url + r.auth;
    assert Concat([r.url, r.auth, r.contentType]) == r.url + r.auth + r.contentType;
  }

  /** Append one segment's part to what came `before`. */
  method ReadSegment(ghost before: Bytes, base: nat, segment: Bytes, offset: nat, out: array<Byte>, at: nat, written: nat, cap: nat)
    returns (now: nat)
    requires at + cap <= out.Length && written == |before| < cap && out[at..at + written] == before
    modifies out
    ensures now == |before + Part(base, segment, offset, cap - written)| <= cap
    ensures out[at..at + now] == before + Part(base, segment, offset, cap - written) && out[..at] == old(out[..at])
  {
    if offset >= base + |segment| {
      assert before + [] == before;
      return written;
    }
    var start := if offset > base then offset - base else 0;
    var take := |segment| - start;
    if take > cap - written {
      take := cap - written;
    }
    CopyMore(out, at, written, segment[start..start + take]);
    now := written + take;
  }

  lemma {:induction false} ConcatNext(segments: seq<Bytes>, i: nat)
    requires i < |segments|
    ensures Concat(segments[..i + 1]) == Concat(segments[..i]) + segments[i]
  {
    assert segments[..i + 1][..i] == segments[..i];
  }

  /** Copy up to `cap` octets of the stream, from `offset`, to out[at..]. */
  method StreamRead(r: Request, offset: nat, out: array<Byte>, at: nat, cap: nat) returns (written: nat)
    requires at + cap <= out.Length
    modifies out
    ensures written == |Slice(Stream(r), offset, cap)| <= cap
    ensures out[at..at + written] == Slice(Stream(r), offset, cap)
    ensures out[..at] == old(out[..at])
  {
    var segments := Segments(r);
    written := 0;
    var base, i := 0, 0;
    while i < 4 && written < cap
      invariant i <= 4 && base == |Concat(segments[..i])|
      invariant written == |Slice(Concat(segments[..i]), offset, cap)| <= cap
      invariant out[at..at + written] == Slice(Concat(segments[..i]), offset, cap)
      invariant out[..at] == old(out[..at])
      decreases 4 - i
    {
      ConcatNext(segments, i);
      SliceExtends(Concat(segments[..i]), segments[i], offset, cap);
      written := ReadSegment(Slice(Concat(segments[..i]), offset, cap), base, segments[i], offset, out, at, written, cap);
      base := base + |segments[i]|;
      i := i + 1;
    }
    FilledEarly(segments, i, offset, cap);
    SegmentsAreStream(r);
  }

  method CopyInto(out: array<Byte>, at: nat, data: Bytes)
    requires at + |data| <= out.Length
    modifies out
    ensures out[..at] == old(out[..at]) && out[at..at + |data|] == data
  {
    forall k | 0 <= k < |data| {
      out[at + k] := data[k];
    }
  }

  /** Append to what is already at out[at..]. */
  method CopyMore(out: array<Byte>, at: nat, written: nat, data: Bytes)
    requires at + written + |data| <= out.Length
    modifies out
    ensures out[..at] == old(out[..at])
    ensures out[at..at + written + |data|] == old(out[at..at + written]) + data
  {
    CopyInto(out, at + written, data);
    assert out[..at] == out[..at + written][..at];
    assert out[at..at + written] == out[..at + written][at..];
    assert out[at..at + written + |data|] == out[at..at + written] + out[at + written..at + written + |data|];
  }

  /** Segments after the one that fills the slice add nothing. */
  lemma {:induction false} FilledEarly(segments: seq<Bytes>, i: nat, offset: nat, cap: nat)
    requires i <= |segments| && (i == |segments| || |Slice(Concat(segments[..i]), offset, cap)| == cap)
    ensures Slice(Concat(segments), offset, cap) == Slice(Concat(segments[..i]), offset, cap)
    decreases |segments| - i
  {
    if i < |segments| {
      assert segments[..i + 1][..i] == segments[..i];
      SliceExtends(Concat(segments[..i]), segments[i], offset, cap);
      FilledEarly(segments, i + 1, offset, cap);
    } else {
      assert segments[..i] == segments;
    }
  }

  method EncodeBegin(out: array<Byte>, cap: nat, id: Byte, r: Request) returns (len: nat)
    requires cap <= out.Length
    modifies out
    ensures len == if cap < 12 || |Stream(r)| > UINT16_MAX then 0 else 12
    ensures len > 0 ==> out[..len] == BeginFrame(id, r)
  {
    if cap < 12 || |r.url| + |r.auth| + |r.contentType| + |r.body| > UINT16_MAX {
      return 0;
    }
    CopyMore(out, 0, 0, [BEGIN, id]);
    CopyMore(out, 0, 2, U16(|r.url|));
    CopyMore(out, 0, 4, U16(|r.auth|));
    CopyMore(out, 0, 6, U16(|r.contentType|));
    CopyMore(out, 0, 8, U32(|r.body|));
    return 12;
  }

  /** A DATA frame of at most `cap` octets, or nothing when the stream is exhausted. */
  method EncodeData(out: array<Byte>, cap: nat, id: Byte, r: Request, offset: nat) returns (len: nat)
    requires cap <= out.Length
    modifies out
    ensures var payload := if cap <= DATA_HEADER_LEN || offset > UINT16_MAX then [] else Slice(Stream(r), offset, cap - DATA_HEADER_LEN);
      && len == (if payload == [] then 0 else DATA_HEADER_LEN + |payload|) <= cap
      && (len > 0 ==> out[..len] == DataFrame(id, offset, payload))
  {
    if cap <= DATA_HEADER_LEN || offset > UINT16_MAX {
      return 0;
    }
    var n := StreamRead(r, offset, out, DATA_HEADER_LEN, cap - DATA_HEADER_LEN);
    if n == 0 {
      return 0;
    }
    ghost var payload := out[4..4 + n];
    SetHeader(out, [DATA, id] + U16(offset));
    assert out[4..4 + n] == payload;
    assert out[..4 + n] == out[..4] + out[4..4 + n];
    return DATA_HEADER_LEN + n;
  }

  method SetHeader(out: array<Byte>, header: Bytes)
    requires |header| == 4 <= out.Length
    modifies out
    ensures out[..4] == header && forall i :: 4 <= i < out.Length ==> out[i] == old(out[i])
  {
    out[0] := header[0];
    out[1] := header[1];
    out[2] := header[2];
    out[3] := header[3];
  }

  // ---- Tilings

  datatype Tile = Tile(offset: nat, payload: Bytes)

  /** The tiles cover exactly the first `end` octets of the stream, in order and without overlap. */
  predicate TilesTo(tiles: seq<Tile>, stream: Bytes, end: nat) {
    if tiles == [] then end == 0
    else
      var last := tiles[|tiles| - 1];
      && IsTile(last, stream) && last.offset + |last.payload| == end
      && TilesTo(tiles[..|tiles| - 1], stream, last.offset)
  }

  /** A payload that fits every frame and is what the stream holds there. */
  predicate IsTile(t: Tile, stream: Bytes) {
    && 0 < |t.payload| <= FRAME_BUFFER_BYTES - DATA_HEADER_LEN
    && t.offset + |t.payload| <= |stream| && t.payload == stream[t.offset..t.offset + |t.payload|]
  }

  lemma {:induction false} AddTile(id: Byte, tiles: seq<Tile>, t: Tile, stream: Bytes)
    requires TilesTo(tiles, stream, t.offset) && IsTile(t, stream)
    ensures TilesTo(tiles + [t], stream, t.offset + |t.payload|)
    ensures DataFrames(id, tiles + [t]) == DataFrames(id, tiles) + [DataFrame(id, t.offset, t.payload)]
  {
    assert (tiles + [t])[..|tiles|] == tiles;
  }

  function DataFrames(id: Byte, tiles: seq<Tile>): seq<Bytes> {
    if tiles == [] then []
    else DataFrames(id, tiles[..|tiles| - 1]) + [DataFrame(id, tiles[|tiles| - 1].offset, tiles[|tiles| - 1].payload)]
  }

  // ---- The transport

  /** What the host's task may do to the link between two frames. */
  datatype LinkEvent = Hello(version: Byte, maxChunk: nat) | Detach | Attach

  datatype SendOutcome = AllSent | TooLarge | WriteRefused | EncoderFailed

  class RelayTransport {
    var chunkBytes: nat
    var configuredChunkBytes: nat
    var attached: bool
    var helloSeen: bool
    var wire: seq<Bytes>       // the frames the link took

    ghost predicate Valid()
      reads this
    {
      && MIN_CHUNK_BYTES <= chunkBytes <= FRAME_BUFFER_BYTES
      && MIN_CHUNK_BYTES <= configuredChunkBytes <= FRAME_BUFFER_BYTES
    }

    constructor ()
      ensures Valid() && wire == []
    {
      chunkBytes, configuredChunkBytes, attached, helloSeen, wire := 180, 180, false, false, [];
    }

    method SetChunkBytes(bytes: nat)
      modifies this
      ensures Valid() && wire == old(wire)
      ensures chunkBytes == configuredChunkBytes ==
        if bytes < MIN_CHUNK_BYTES then MIN_CHUNK_BYTES else if bytes > FRAME_BUFFER_BYTES then FRAME_BUFFER_BYTES else bytes
    {
      var clamped := bytes;
      if clamped < MIN_CHUNK_BYTES {
        clamped := MIN_CHUNK_BYTES;
      }
      if clamped > FRAME_BUFFER_BYTES {
        clamped := FRAME_BUFFER_BYTES;
      }
      configuredChunkBytes := clamped;
      chunkBytes := clamped;
    }

    method SetHostAttached(isAttached: bool)
      requires Valid()
      modifies this`attached, this`helloSeen, this`chunkBytes
      ensures Valid() && attached == isAttached
      ensures !isAttached ==> !helloSeen && chunkBytes == configuredChunkBytes
      ensures isAttached ==> helloSeen == old(helloSeen) && chunkBytes == old(chunkBytes)
    {
      attached := isAttached;
      if !isAttached {
        helloSeen := false;
        chunkBytes := configuredChunkBytes;
      }
    }

    /** HELLO: a host may ask for less than was configured, within reason, and never for more. */
    method OnHello(version: Byte, maxChunk: nat)
      requires Valid()
      modifies this`helloSeen, this`chunkBytes
      ensures Valid() && helloSeen == (version == PROTOCOL_VERSION)
      ensures chunkBytes == if version != PROTOCOL_VERSION then old(chunkBytes)
                            else if MIN_CHUNK_BYTES <= maxChunk < configuredChunkBytes then maxChunk else configuredChunkBytes
    {
      if version != PROTOCOL_VERSION {
        helloSeen := false;
        return;
      }
      chunkBytes := configuredChunkBytes;
      if maxChunk >= MIN_CHUNK_BYTES && maxChunk < chunkBytes {
        chunkBytes := maxChunk;
      }
      helloSeen := true;
    }

    method Meddle(e: LinkEvent)
      requires Valid()
      modifies this`attached, this`helloSeen, this`chunkBytes
      ensures Valid()
    {
      match e {
        case Hello(version, maxChunk) => OnHello(version, maxChunk);
        case Detach => SetHostAttached(false);
        case Attach => SetHostAttached(true);
      }
    }

    method WriteFrame(frame: array<Byte>, len: nat, taken: bool) returns (sent: bool)
      requires len <= frame.Length
      modifies this`wire
      ensures sent == taken && wire == if taken then old(wire) + [frame[..len]] else old(wire)
    {
      if taken {
        wire := wire + [frame[..len]];
      }
      sent := taken;
    }

    /** One round of the chunk loop: the host's task meddles, a DATA frame is cut and written. */
    method SendData(frame: array<Byte>, id: Byte, r: Request, offset: nat, e: LinkEvent, taken: bool)
      returns (len: nat, sent: bool, ghost tile: Tile)
      requires Valid() && frame.Length == FRAME_BUFFER_BYTES && offset < |Stream(r)| <= UINT16_MAX
      modifies this`attached, this`helloSeen, this`chunkBytes, this`wire, frame
      ensures Valid() && len > 0 && sent == taken
      ensures tile.offset == offset && len == DATA_HEADER_LEN + |tile.payload| && IsTile(tile, Stream(r))
      ensures wire == if taken then old(wire) + [DataFrame(id, offset, tile.payload)] else old(wire)
    {
      Meddle(e);
      tile := Tile(offset, Slice(Stream(r), offset, chunkBytes - DATA_HEADER_LEN));
      len := EncodeData(frame, chunkBytes, id, r, offset);
      sent := WriteFrame(frame, len, taken);
    }

    /**
     The part of `send` that puts a request on the wire. Before each DATA frame the host's task may
     do anything it can do to the chunk size, and any write may be refused. The encoder never fails.
     */
    method SendFrames(id: Byte, r: Request, meddling: nat -> LinkEvent, takes: nat -> bool) returns (outcome: SendOutcome, ghost tiles: seq<Tile>)
      requires Valid()
      modifies this`attached, this`helloSeen, this`chunkBytes, this`wire
      ensures Valid()
      ensures outcome != EncoderFailed
      ensures outcome == TooLarge <==> |Stream(r)| > UINT16_MAX
      ensures outcome == TooLarge ==> wire == old(wire)
      ensures outcome == WriteRefused ==> exists k: nat :: !takes(k)
      ensures outcome == AllSent ==>
        && TilesTo(tiles, Stream(r), |Stream(r)|)
        && wire == old(wire) + [BeginFrame(id, r)] + DataFrames(id, tiles) + [EndFrame(id)]
    {
      tiles := [];
      var frame := new Byte[FRAME_BUFFER_BYTES];
      var len := EncodeBegin(frame, frame.Length, id, r);
      if len == 0 {
        return TooLarge, tiles;
      }
      var sent := WriteFrame(frame, len, takes(0));
      if !sent {
        return WriteRefused, tiles;
      }
      ghost var begun := wire;
      var streamLen := |r.url| + |r.auth| + |r.contentType| + |r.body|;
      var offset: nat, k: nat := 0, 1;
      while offset < streamLen
        invariant Valid() && fresh(frame) && offset <= streamLen == |Stream(r)| <= UINT16_MAX
        invariant TilesTo(tiles, Stream(r), offset) && wire == begun + DataFrames(id, tiles)
        decreases streamLen - offset
      {
        ghost var tile;
        len, sent, tile := SendData(frame, id, r, offset, meddling(k), takes(k));
        if len == 0 {
          return EncoderFailed, tiles;
        }
        if !sent {
          return WriteRefused, tiles;
        }
        AddTile(id, tiles, tile, Stream(r));
        assert begun + (DataFrames(id, tiles) + [DataFrame(id, offset, tile.payload)])
            == begun + DataFrames(id, tiles) + [DataFrame(id, offset, tile.payload)];
        tiles := tiles + [tile];
        offset := offset + (len - DATA_HEADER_LEN);
        k := k + 1;
      }
      CopyInto(frame, 0, EndFrame(id));
      sent := WriteFrame(frame, 2, takes(k));
      if !sent {
        return WriteRefused, tiles;
      }
      return AllSent, tiles;
    }
  }
}
