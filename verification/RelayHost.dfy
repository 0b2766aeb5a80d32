/**
 The browser's half of the relay protocol: frames reassembled into one request, which is performed
 only when every octet of it has arrived.
 */
module RelayHost {
  import opened Prelude
  import opened RelayDevice

  const MAX_REQUEST_BYTES: nat := 65536

  datatype Pending = Pending(
    reqId: Byte, urlLen: nat, authLen: nat, contentTypeLen: nat, bodyLen: nat,
    buf: Bytes, received: nat, seen: set<nat>)

  datatype Verdict = Rejected | Incomplete

  /** What one frame makes the page do. */
  datatype Action = Nothing | Report(reqId: Byte, verdict: Verdict) | Perform(reqId: Byte, request: Request)

  function Read16(f: Bytes, at: nat): nat
    requires at + 2 <= |f|
  {
    f[at] as int + 256 * f[at + 1] as int
  }

  function Read32(f: Bytes, at: nat): nat
    requires at + 4 <= |f|
  {
    f[at] as int + 256 * f[at + 1] as int + 0x1_0000 * f[at + 2] as int + 0x100_0000 * f[at + 3] as int
  }

  function Zeros(n: nat): Bytes {
    seq(n, _ => 0)
  }

  /** Cut the buffer back apart by the lengths BEGIN gave. */
  function Fields(p: Pending): Request
    requires p.urlLen + p.authLen + p.contentTypeLen + p.bodyLen == |p.buf|
  {
    var a, c, b := p.urlLen, p.urlLen + p.authLen, p.urlLen + p.authLen + p.contentTypeLen;
    Request(p.buf[..a], p.buf[a..c], p.buf[c..b], p.buf[b..b + p.bodyLen])
  }

  ghost predicate Sized(p: Option<Pending>) {
    p.Some? ==> p.value.urlLen + p.value.authLen + p.value.contentTypeLen + p.value.bodyLen == |p.value.buf|
  }

  /** One frame, as a function of the request being assembled. */
  function Step(pending: Option<Pending>, f: Bytes): (r: (Option<Pending>, Action))
    requires Sized(pending)
    ensures Sized(r.0)
  {
    if |f| < 2 then (pending, Nothing)
    else if f[0] == BEGIN then
      if |f| < 12 then (pending, Nothing)
      else
        var u, a, c, b := Read16(f, 2), Read16(f, 4), Read16(f, 6), Read32(f, 8);
        var total := u + a + c + b;
        if total == 0 || total > MAX_REQUEST_BYTES then (None, Report(f[1], Rejected))
        else (Some(Pending(f[1], u, a, c, b, Zeros(total), 0, {})), Nothing)
    else if pending == None || pending.value.reqId != f[1] then (pending, Nothing)
    else
      var p := pending.value;
      if f[0] == DATA then
        if |f| <= 4 then (pending, Nothing)
        else
          var offset, n := Read16(f, 2), |f| - 4;
          if offset + n > |p.buf| then (pending, Nothing)
          else
            var filled := p.(buf := p.buf[..offset] + f[4..] + p.buf[offset + n..]);
            (Some(if offset in p.seen then filled else filled.(seen := p.seen + {offset}, received := p.received + n)), Nothing)
      else if f[0] == END then
        if p.received < |p.buf| then (None, Report(p.reqId, Incomplete)) else (None, Perform(p.reqId, Fields(p)))
      else (pending, Nothing)
  }

  class BrowserHost {
    var pending: Option<Pending>
    var actions: seq<Action>     // what the page went on to do, oldest first

    ghost predicate Valid()
      reads this
    {
      Sized(pending)
    }

    constructor ()
      ensures Valid() && pending == None && actions == []
    {
      pending, actions := None, [];
    }

    method OnFrame(f: Bytes)
      requires Valid()
      modifies this
      ensures Valid() && pending == Step(old(pending), f).0
      ensures actions == old(actions) + if Step(old(pending), f).1.Nothing? then [] else [Step(old(pending), f).1]
    {
      if |f| < 2 {
        return;
      }
      var kind, reqId := f[0], f[1];
      if kind == BEGIN {
        if |f| < 12 {
          return;
        }
        var urlLen, authLen, typeLen, bodyLen := Read16(f, 2), Read16(f, 4), Read16(f, 6), Read32(f, 8);
        var total := urlLen + authLen + typeLen + bodyLen;
        if total == 0 || total > MAX_REQUEST_BYTES {
          pending := None;
          actions := actions + [Report(reqId, Rejected)];
          return;
        }
        pending := Some(Pending(reqId, urlLen, authLen, typeLen, bodyLen, Zeros(total), 0, {}));
        return;
      }
      if pending == None || pending.value.reqId != reqId {
        return;
      }
      if kind == DATA {
        if |f| <= 4 {
          return;
        }
        var offset, n := Read16(f, 2), |f| - 4;
        var p := pending.value;
        if offset + n > |p.buf| {
          return;
        }
        p := p.(buf := p.buf[..offset] + f[4..] + p.buf[offset + n..]);
        if offset !in p.seen {
          p := p.(seen := p.seen + {offset}, received := p.received + n);
        }
        pending := Some(p);
        return;
      }
      if kind == END {
        var req := pending.value;
        pending := None;
        if req.received < |req.buf| {
          actions := actions + [Report(reqId, Incomplete)];
          return;
        }
        actions := actions + [Perform(req.reqId, Fields(req))];
      }
    }
  }

  // ---- What arrives is what was sent

  lemma {:induction false} U16ReadsBack(v: nat)
    requires v <= UINT16_MAX
    ensures Read16(U16(v), 0) == v
  {
  }

  lemma {:induction false} U32ReadsBack(v: nat)
    requires v <= UINT16_MAX
    ensures Read32(U32(v), 0) == v
  {
  }

  /** Between BEGIN and END: the request's lengths, and a buffer of the stream's size. */
  ghost predicate Assembling(p: Pending, id: Byte, r: Request) {
    && p.reqId == id && |p.buf| == |Stream(r)|
    && p.urlLen == |r.url| && p.authLen == |r.auth| && p.contentTypeLen == |r.contentType| && p.bodyLen == |r.body|
  }

  lemma {:induction false} BeginIsHeard(pending: Option<Pending>, id: Byte, r: Request)
    requires Sized(pending) && 0 < |Stream(r)| <= UINT16_MAX
    ensures var s := Step(pending, BeginFrame(id, r));
      && s.1 == Nothing && s.0.Some? && Assembling(s.0.value, id, r) && s.0.value.received == 0 && s.0.value.seen == {}
  {
    var f := BeginFrame(id, r);
    assert f[2..4] == U16(|r.url|) && f[4..6] == U16(|r.auth|) && f[6..8] == U16(|r.contentType|) && f[8..12] == U32(|r.body|);
    U16ReadsBack(|r.url|);
    U16ReadsBack(|r.auth|);
    U16ReadsBack(|r.contentType|);
    U32ReadsBack(|r.body|);
    assert Read16(f, 2) == Read16(f[2..4], 0) && Read16(f, 4) == Read16(f[4..6], 0) && Read16(f, 6) == Read16(f[6..8], 0);
    assert Read32(f, 8) == Read32(f[8..12], 0);
  }

  /** The four fields of the stream, cut by their own lengths. */
  lemma {:induction false} FieldsOfStream(p: Pending, id: Byte, r: Request)
    requires Assembling(p, id, r) && p.buf == Stream(r)
    ensures Fields(p) == r
  {
  }

  // ---- Reordering, duplication and loss

  /** Sizes of the tiles among `got`, which are the ones whose offsets have been seen. */
  function Covered(tiles: seq<Tile>, got: set<nat>): nat {
    if tiles == [] then 0
    else
      var last := |tiles| - 1;
      (if last in got then |tiles[last].payload| else 0) + Covered(tiles[..last], got)
  }

  lemma {:induction false} CoveredAdds(tiles: seq<Tile>, got: set<nat>, k: nat)
    requires k !in got
    ensures Covered(tiles, got + {k}) == Covered(tiles, got) + if k < |tiles| then |tiles[k].payload| else 0
    decreases |tiles|
  {
    if tiles != [] {
      CoveredAdds(tiles[..|tiles| - 1], got, k);
    }
  }

  /** All the octets are covered exactly when all the tiles are. */
  lemma {:induction false} CoveredIsAll(tiles: seq<Tile>, got: set<nat>, stream: Bytes, end: nat)
    requires TilesTo(tiles, stream, end)
    ensures Covered(tiles, got) <= end
    ensures Covered(tiles, got) == end <==> forall k :: 0 <= k < |tiles| ==> k in got
    decreases |tiles|
  {
    if tiles != [] {
      var n := |tiles| - 1;
      CoveredIsAll(tiles[..n], got, stream, tiles[n].offset);
      if Covered(tiles, got) == end {
        assert n in got;
        assert forall k :: 0 <= k < n ==> k in got;
      }
    }
  }

  lemma {:induction false} TileInStream(tiles: seq<Tile>, stream: Bytes, end: nat, k: nat)
    requires TilesTo(tiles, stream, end) && k < |tiles|
    ensures IsTile(tiles[k], stream) && tiles[k].offset + |tiles[k].payload| <= end
    decreases |tiles|
  {
    if k < |tiles| - 1 {
      TileInStream(tiles[..|tiles| - 1], stream, tiles[|tiles| - 1].offset, k);
    }
  }

  lemma {:induction false} OffsetsDiffer(tiles: seq<Tile>, stream: Bytes, end: nat, j: nat, k: nat)
    requires TilesTo(tiles, stream, end) && j < k < |tiles|
    ensures tiles[j].offset < tiles[k].offset
    decreases |tiles|
  {
    var front := tiles[..|tiles| - 1];
    if k < |tiles| - 1 {
      OffsetsDiffer(front, stream, tiles[|tiles| - 1].offset, j, k);
    } else {
      TileInStream(front, stream, tiles[k].offset, j);
    }
  }

  lemma {:induction false} TileAt(tiles: seq<Tile>, stream: Bytes, end: nat, i: nat) returns (k: nat)
    requires TilesTo(tiles, stream, end) && i < end
    ensures k < |tiles| && tiles[k].offset <= i < tiles[k].offset + |tiles[k].payload|
    decreases |tiles|
  {
    k := |tiles| - 1;
    if i < tiles[k].offset {
      k := TileAt(tiles[..k], stream, tiles[k].offset, i);
    }
  }

  /** Where the tile goes, the buffer is what the stream is. */
  predicate Agrees(buf: Bytes, stream: Bytes, t: Tile)
    requires |buf| == |stream|
  {
    forall i :: t.offset <= i < t.offset + |t.payload| && i < |stream| ==> buf[i] == stream[i]
  }

  /** After some of the tiles have arrived, in any order and any number of times. */
  ghost predicate Holds(p: Pending, id: Byte, r: Request, tiles: seq<Tile>, got: set<nat>) {
    && Assembling(p, id, r)
    && p.received == Covered(tiles, got)
    && (forall k :: 0 <= k < |tiles| ==> (k in got <==> tiles[k].offset in p.seen))
    && (forall k :: 0 <= k < |tiles| && k in got ==> Agrees(p.buf, Stream(r), tiles[k]))
  }

  /** The buffer and the bookkeeping after a tile. */
  function Filled(p: Pending, t: Tile): Pending
    requires t.offset + |t.payload| <= |p.buf|
  {
    var q := p.(buf := p.buf[..t.offset] + t.payload + p.buf[t.offset + |t.payload|..]);
    if t.offset in p.seen then q else q.(seen := p.seen + {t.offset}, received := p.received + |t.payload|)
  }

  lemma {:induction false} DataIsHeard(p: Pending, id: Byte, r: Request, t: Tile)
    requires Assembling(p, id, r) && IsTile(t, Stream(r)) && |Stream(r)| <= UINT16_MAX
    ensures Step(Some(p), DataFrame(id, t.offset, t.payload)) == (Some(Filled(p, t)), Nothing)
  {
    var f := DataFrame(id, t.offset, t.payload);
    assert f[2..4] == U16(t.offset) && f[4..] == t.payload;
    U16ReadsBack(t.offset);
    assert Read16(f, 2) == Read16(f[2..4], 0) == t.offset;
  }

  lemma {:induction false} FilledAgrees(p: Pending, stream: Bytes, t: Tile, u: Tile)
    requires IsTile(t, stream) && |p.buf| == |stream|
    requires u == t || Agrees(p.buf, stream, u)
    ensures |Filled(p, t).buf| == |stream| && Agrees(Filled(p, t).buf, stream, u)
  {
    var q := p.buf[..t.offset] + t.payload + p.buf[t.offset + |t.payload|..];
    assert Filled(p, t).buf == q;
    forall i | u.offset <= i < u.offset + |u.payload| && i < |stream|
      ensures q[i] == stream[i]
    {
      if t.offset <= i < t.offset + |t.payload| {
        assert q[i] == t.payload[i - t.offset] == stream[i];
      }
    }
  }

  lemma {:induction false} OtherOffsets(tiles: seq<Tile>, stream: Bytes, k: nat)
    requires TilesTo(tiles, stream, |stream|) && k < |tiles|
    ensures forall j :: 0 <= j < |tiles| && j != k ==> tiles[j].offset != tiles[k].offset
  {
    forall j | 0 <= j < |tiles| && j != k
      ensures tiles[j].offset != tiles[k].offset
    {
      OffsetsDiffer(tiles, stream, |stream|, if j < k then j else k, if j < k then k else j);
    }
  }

  lemma {:induction false} SeenAfter(p: Pending, tiles: seq<Tile>, stream: Bytes, got: set<nat>, k: nat)
    requires TilesTo(tiles, stream, |stream|) && k < |tiles| && tiles[k].offset + |tiles[k].payload| <= |p.buf|
    requires forall j :: 0 <= j < |tiles| ==> (j in got <==> tiles[j].offset in p.seen)
    ensures var q := Filled(p, tiles[k]);
      forall j :: 0 <= j < |tiles| ==> (j in got + {k} <==> tiles[j].offset in q.seen)
  {
    OtherOffsets(tiles, stream, k);
    assert tiles[k].offset in p.seen ==> k in got;
  }

  lemma {:induction false} ReceivedAfter(p: Pending, tiles: seq<Tile>, got: set<nat>, k: nat)
    requires k < |tiles| && tiles[k].offset + |tiles[k].payload| <= |p.buf|
    requires p.received == Covered(tiles, got) && (k in got <==> tiles[k].offset in p.seen)
    ensures Filled(p, tiles[k]).received == Covered(tiles, got + {k})
  {
    if k !in got {
      CoveredAdds(tiles, got, k);
    } else {
      assert got + {k} == got;
    }
  }

  lemma {:induction false} AgreesAfter(p: Pending, stream: Bytes, tiles: seq<Tile>, got: set<nat>, k: nat)
    requires k < |tiles| && IsTile(tiles[k], stream) && |p.buf| == |stream|
    requires forall j :: 0 <= j < |tiles| && j in got ==> Agrees(p.buf, stream, tiles[j])
    ensures |Filled(p, tiles[k]).buf| == |stream|
    ensures forall j :: 0 <= j < |tiles| && j in got + {k} ==> Agrees(Filled(p, tiles[k]).buf, stream, tiles[j])
  {
    FilledAgrees(p, stream, tiles[k], tiles[k]);
    forall j | 0 <= j < |tiles| && j in got + {k}
      ensures Agrees(Filled(p, tiles[k]).buf, stream, tiles[j])
    {
      if j != k {
        FilledAgrees(p, stream, tiles[k], tiles[j]);
      }
    }
  }

  /** One more arrival, new or not. */
  lemma {:induction false} TileArrives(p: Pending, id: Byte, r: Request, tiles: seq<Tile>, got: set<nat>, k: nat)
    requires TilesTo(tiles, Stream(r), |Stream(r)|) && k < |tiles| && Holds(p, id, r, tiles, got)
    ensures IsTile(tiles[k], Stream(r)) && Holds(Filled(p, tiles[k]), id, r, tiles, got + {k})
  {
    TileInStream(tiles, Stream(r), |Stream(r)|, k);
    SeenAfter(p, tiles, Stream(r), got, k);
    ReceivedAfter(p, tiles, got, k);
    AgreesAfter(p, Stream(r), tiles, got, k);
  }

  /** Frames in turn; the page acts at most at the last one here. */
  function Run(pending: Option<Pending>, frames: seq<Bytes>): (Option<Pending>, seq<Action>)
    requires Sized(pending)
    decreases |frames|
  {
    if frames == [] then (pending, [])
    else
      var s := Step(pending, frames[0]);
      var rest := Run(s.0, frames[1..]);
      (rest.0, (if s.1.Nothing? then [] else [s.1]) + rest.1)
  }

  /** The DATA frames of the tiles listed by number. */
  function FramesOf(id: Byte, tiles: seq<Tile>, order: seq<nat>): seq<Bytes>
    requires forall i :: 0 <= i < |order| ==> order[i] < |tiles|
  {
    if order == [] then []
    else [DataFrame(id, tiles[order[0]].offset, tiles[order[0]].payload)] + FramesOf(id, tiles, order[1..])
  }

  lemma {:induction false} RunCons(pending: Option<Pending>, f: Bytes, rest: seq<Bytes>)
    requires Sized(pending)
    ensures Run(pending, [f] + rest) ==
      (var s := Step(pending, f); var after := Run(s.0, rest); (after.0, (if s.1.Nothing? then [] else [s.1]) + after.1))
  {
    assert ([f] + rest)[1..] == rest;
  }

  lemma {:induction false} QuietStep(pending: Option<Pending>, f: Bytes, rest: seq<Bytes>, q: Option<Pending>)
    requires Sized(pending) && Step(pending, f) == (q, Nothing)
    ensures Run(pending, [f] + rest) == Run(q, rest)
  {
    RunCons(pending, f, rest);
    assert [] + Run(q, rest).1 == Run(q, rest).1;
  }

  lemma {:induction false} EndIsHeard(p: Pending, id: Byte)
    requires Sized(Some(p)) && p.reqId == id
    ensures Run(Some(p), [EndFrame(id)]) == (None, [if p.received < |p.buf| then Report(id, Incomplete) else Perform(id, Fields(p))])
  {
    RunCons(Some(p), EndFrame(id), []);
    assert [EndFrame(id)] + [] == [EndFrame(id)];
    var action := Step(Some(p), EndFrame(id)).1;
    assert [action] + [] == [action];
  }

  lemma {:induction false} EndDecides(p: Pending, id: Byte, r: Request, tiles: seq<Tile>, got: set<nat>)
    requires TilesTo(tiles, Stream(r), |Stream(r)|) && Holds(p, id, r, tiles, got)
    ensures Run(Some(p), [EndFrame(id)]) ==
      (None, [if forall k :: 0 <= k < |tiles| ==> k in got then Perform(id, r) else Report(id, Incomplete)])
  {
    CoveredIsAll(tiles, got, Stream(r), |Stream(r)|);
    if forall k :: 0 <= k < |tiles| ==> k in got {
      AllArrived(p, id, r, tiles, got);
      FieldsOfStream(p, id, r);
    }
    EndIsHeard(p, id);
  }

  lemma {:induction false} TilesThenEnd(p: Pending, id: Byte, r: Request, tiles: seq<Tile>, got: set<nat>, order: seq<nat>)
    requires TilesTo(tiles, Stream(r), |Stream(r)|) && |Stream(r)| <= UINT16_MAX
    requires forall i :: 0 <= i < |order| ==> order[i] < |tiles|
    requires Holds(p, id, r, tiles, got)
    ensures var all := forall k :: 0 <= k < |tiles| ==> k in got || k in order;
      Run(Some(p), FramesOf(id, tiles, order) + [EndFrame(id)]) ==
        (None, [if all then Perform(id, r) else Report(id, Incomplete)])
    decreases |order|
  {
    if order == [] {
      EndDecides(p, id, r, tiles, got);
      assert FramesOf(id, tiles, order) + [EndFrame(id)] == [EndFrame(id)];
    } else {
      var k := order[0];
      var t := tiles[k];
      TileArrives(p, id, r, tiles, got, k);
      DataIsHeard(p, id, r, t);
      var rest := FramesOf(id, tiles, order[1..]) + [EndFrame(id)];
      assert FramesOf(id, tiles, order) + [EndFrame(id)] == [DataFrame(id, t.offset, t.payload)] + rest;
      QuietStep(Some(p), DataFrame(id, t.offset, t.payload), rest, Some(Filled(p, t)));
      TilesThenEnd(Filled(p, t), id, r, tiles, got + {k}, order[1..]);
      assert forall j :: j in order <==> j == k || j in order[1..];
    }
  }

  lemma {:induction false} AllArrived(p: Pending, id: Byte, r: Request, tiles: seq<Tile>, got: set<nat>)
    requires TilesTo(tiles, Stream(r), |Stream(r)|) && Holds(p, id, r, tiles, got)
    requires forall k :: 0 <= k < |tiles| ==> k in got
    ensures p.buf == Stream(r)
  {
    forall i | 0 <= i < |Stream(r)|
      ensures p.buf[i] == Stream(r)[i]
    {
      var k := TileAt(tiles, Stream(r), |Stream(r)|, i);
    }
  }

  lemma {:induction false} AfterBegin(pending: Option<Pending>, first: Bytes, p: Pending, id: Byte, r: Request, tiles: seq<Tile>, order: seq<nat>)
    requires Sized(pending) && Step(pending, first) == (Some(p), Nothing)
    requires Assembling(p, id, r) && p.received == 0 && p.seen == {}
    requires |Stream(r)| <= UINT16_MAX && TilesTo(tiles, Stream(r), |Stream(r)|)
    requires forall i :: 0 <= i < |order| ==> order[i] < |tiles|
    ensures Run(pending, [first] + (FramesOf(id, tiles, order) + [EndFrame(id)])) ==
      (None, [if forall k :: 0 <= k < |tiles| ==> k in order then Perform(id, r) else Report(id, Incomplete)])
  {
    QuietStep(pending, first, FramesOf(id, tiles, order) + [EndFrame(id)], Some(p));
    NothingCovered(tiles);
    TilesThenEnd(p, id, r, tiles, {}, order);
  }

  /**
   BEGIN, then the DATA frames of one tiling in any order, repeated or lost, then END: the page
   performs the request if and only if every tile arrived at least once, and then it is the
   device's request, field for field.
   */
  lemma {:induction false} PerformsIffAllArrived(pending: Option<Pending>, id: Byte, r: Request, tiles: seq<Tile>, order: seq<nat>)
    requires Sized(pending) && 0 < |Stream(r)| <= UINT16_MAX && TilesTo(tiles, Stream(r), |Stream(r)|)
    requires forall i :: 0 <= i < |order| ==> order[i] < |tiles|
    ensures Run(pending, [BeginFrame(id, r)] + (FramesOf(id, tiles, order) + [EndFrame(id)])) ==
      (None, [if forall k :: 0 <= k < |tiles| ==> k in order then Perform(id, r) else Report(id, Incomplete)])
  {
    BeginIsHeard(pending, id, r);
    AfterBegin(pending, BeginFrame(id, r), Step(pending, BeginFrame(id, r)).0.value, id, r, tiles, order);
  }

  lemma {:induction false} NothingCovered(tiles: seq<Tile>)
    ensures Covered(tiles, {}) == 0
    decreases |tiles|
  {
    if tiles != [] {
      NothingCovered(tiles[..|tiles| - 1]);
    }
  }

  /** Every frame of a send that went out whole, in order: the page performs exactly that request. */
  lemma {:induction false} WholeSendIsPerformed(pending: Option<Pending>, id: Byte, r: Request, tiles: seq<Tile>)
    requires Sized(pending) && 0 < |Stream(r)| <= UINT16_MAX && TilesTo(tiles, Stream(r), |Stream(r)|)
    ensures Run(pending, [BeginFrame(id, r)] + DataFrames(id, tiles) + [EndFrame(id)]) == (None, [Perform(id, r)])
  {
    var order := seq(|tiles|, i requires 0 <= i < |tiles| => i);
    InOrder(id, tiles, order);
    forall k | 0 <= k < |tiles|
      ensures k in order
    {
      assert order[k] == k;
    }
    PerformsIffAllArrived(pending, id, r, tiles, order);
    RegroupFrames([BeginFrame(id, r)], DataFrames(id, tiles), [EndFrame(id)]);
  }

  lemma {:induction false} RegroupFrames(a: seq<Bytes>, b: seq<Bytes>, c: seq<Bytes>)
    ensures a + b + c == a + (b + c)
  {
  }

  lemma {:induction false} InOrder(id: Byte, tiles: seq<Tile>, order: seq<nat>)
    requires |order| == |tiles| && forall i :: 0 <= i < |order| ==> order[i] == i
    ensures FramesOf(id, tiles, order) == DataFrames(id, tiles)
  {
    FramesAreListed(id, tiles, order);
    DataAreListed(id, tiles);
  }

  lemma {:induction false} FramesAreListed(id: Byte, tiles: seq<Tile>, order: seq<nat>)
    requires forall i :: 0 <= i < |order| ==> order[i] < |tiles|
    ensures |FramesOf(id, tiles, order)| == |order|
    ensures forall i :: 0 <= i < |order| ==> FramesOf(id, tiles, order)[i] == DataFrame(id, tiles[order[i]].offset, tiles[order[i]].payload)
    decreases |order|
  {
    if order != [] {
      FramesAreListed(id, tiles, order[1..]);
    }
  }

  lemma {:induction false} DataAreListed(id: Byte, tiles: seq<Tile>)
    ensures |DataFrames(id, tiles)| == |tiles|
    ensures forall i :: 0 <= i < |tiles| ==> DataFrames(id, tiles)[i] == DataFrame(id, tiles[i].offset, tiles[i].payload)
    decreases |tiles|
  {
    if tiles != [] {
      DataAreListed(id, tiles[..|tiles| - 1]);
    }
  }

  // ---- Frames that are no part of the request being assembled

  /** Too short to be a frame of its kind, of no kind the page knows, or of another request and not a BEGIN. */
  predicate Foreign(f: Bytes, id: Byte) {
    || |f| < 2
    || (f[0] == BEGIN && |f| < 12)
    || f[0] !in {BEGIN, DATA, END}
    || (f[0] != BEGIN && f[1] != id)
  }

  predicate AssemblesOnly(pending: Option<Pending>, id: Byte) {
    pending.Some? ==> pending.value.reqId == id
  }

  lemma {:induction false} ForeignStep(pending: Option<Pending>, f: Bytes, id: Byte)
    requires Sized(pending) && AssemblesOnly(pending, id) && Foreign(f, id)
    ensures Step(pending, f) == (pending, Nothing)
  {
  }

  /** Only a whole BEGIN changes which request is being assembled. */
  predicate BeginsAnother(f: Bytes, id: Byte) {
    |f| >= 12 && f[0] == BEGIN && f[1] != id
  }

  lemma {:induction false} StepAssemblesOnly(pending: Option<Pending>, f: Bytes, id: Byte)
    requires Sized(pending) && AssemblesOnly(pending, id) && !BeginsAnother(f, id)
    ensures AssemblesOnly(Step(pending, f).0, id)
  {
  }

  lemma {:induction false} RunAssemblesOnly(pending: Option<Pending>, frames: seq<Bytes>, id: Byte)
    requires Sized(pending) && AssemblesOnly(pending, id)
    requires forall i :: 0 <= i < |frames| ==> !BeginsAnother(frames[i], id)
    ensures Sized(Run(pending, frames).0) && AssemblesOnly(Run(pending, frames).0, id)
    decreases |frames|
  {
    if frames != [] {
      StepAssemblesOnly(pending, frames[0], id);
      RunAssemblesOnly(Step(pending, frames[0]).0, frames[1..], id);
    }
  }

  lemma {:induction false} RunAppend(pending: Option<Pending>, a: seq<Bytes>, b: seq<Bytes>)
    requires Sized(pending)
    ensures var first := Run(pending, a);
      Sized(first.0) && Run(pending, a + b) == (Run(first.0, b).0, first.1 + Run(first.0, b).1)
    decreases |a|
  {
    if a == [] {
      assert a + b == b && [] + Run(pending, b).1 == Run(pending, b).1;
    } else {
      var s := Step(pending, a[0]);
      assert a + b == [a[0]] + (a[1..] + b) && a == [a[0]] + a[1..];
      RunCons(pending, a[0], a[1..]);
      RunCons(pending, a[0], a[1..] + b);
      RunAppend(s.0, a[1..], b);
      RegroupActions(if s.1.Nothing? then [] else [s.1], Run(s.0, a[1..]).1, Run(Run(s.0, a[1..]).0, b).1);
    }
  }

  lemma {:induction false} RegroupActions(a: seq<Action>, b: seq<Action>, c: seq<Action>)
    ensures a + (b + c) == (a + b) + c
  {
  }

  /**
   From the BEGIN of a request on, and until another request begins, a foreign frame anywhere is as if
   it had not come: the page ends up the same and does the same.
   */
  lemma {:induction false} ForeignFrameIsInvisible(pending: Option<Pending>, id: Byte, r: Request, a: seq<Bytes>, f: Bytes, b: seq<Bytes>)
    requires Sized(pending) && 0 < |Stream(r)| <= UINT16_MAX && Foreign(f, id)
    requires forall i :: 0 <= i < |a| ==> !BeginsAnother(a[i], id)
    ensures Run(pending, [BeginFrame(id, r)] + (a + [f] + b)) == Run(pending, [BeginFrame(id, r)] + (a + b))
  {
    var p := BeginAssembles(pending, id, r);
    QuietStep(pending, BeginFrame(id, r), a + [f] + b, p);
    QuietStep(pending, BeginFrame(id, r), a + b, p);
    InvisibleAfter(p, id, a, f, b);
  }

  lemma {:induction false} InvisibleAfter(p: Option<Pending>, id: Byte, a: seq<Bytes>, f: Bytes, b: seq<Bytes>)
    requires Sized(p) && AssemblesOnly(p, id) && Foreign(f, id)
    requires forall i :: 0 <= i < |a| ==> !BeginsAnother(a[i], id)
    ensures Run(p, a + [f] + b) == Run(p, a + b)
  {
    RunAssemblesOnly(p, a, id);
    var q := Run(p, a).0;
    RunAppend(p, a, [f] + b);
    RunAppend(p, a, b);
    ForeignStep(q, f, id);
    QuietStep(q, f, b, q);
    assert a + [f] + b == a + ([f] + b);
  }

  /** The frames that are not foreign. */
  function Own(frames: seq<Bytes>, id: Byte): seq<Bytes> {
    if frames == [] then [] else (if Foreign(frames[0], id) then [] else [frames[0]]) + Own(frames[1..], id)
  }

  lemma {:induction false} OwnCons(f: Bytes, rest: seq<Bytes>, id: Byte)
    ensures Own([f] + rest, id) == if Foreign(f, id) then Own(rest, id) else [f] + Own(rest, id)
  {
    assert ([f] + rest)[1..] == rest;
  }

  ghost predicate OwnDecides(pending: Option<Pending>, frames: seq<Bytes>, id: Byte, last: seq<Bytes>)
    requires Sized(pending)
  {
    Run(pending, frames + last) == Run(pending, Own(frames, id) + last)
  }

  lemma {:induction false} SameStepFirst(pending: Option<Pending>, f: Bytes, a: seq<Bytes>, b: seq<Bytes>, last: seq<Bytes>)
    requires Sized(pending) && Run(Step(pending, f).0, a + last) == Run(Step(pending, f).0, b + last)
    ensures Run(pending, ([f] + a) + last) == Run(pending, ([f] + b) + last)
  {
    RunCons(pending, f, a + last);
    RunCons(pending, f, b + last);
    assert ([f] + a) + last == [f] + (a + last) && ([f] + b) + last == [f] + (b + last);
  }

  lemma {:induction false} QuietFirst(pending: Option<Pending>, f: Bytes, a: seq<Bytes>, last: seq<Bytes>)
    requires Sized(pending) && Step(pending, f) == (pending, Nothing)
    ensures Run(pending, ([f] + a) + last) == Run(pending, a + last)
  {
    QuietStep(pending, f, a + last, pending);
    assert ([f] + a) + last == [f] + (a + last);
  }

  lemma {:induction false} OneMoreFrame(pending: Option<Pending>, f: Bytes, rest: seq<Bytes>, id: Byte, last: seq<Bytes>)
    requires Sized(pending) && AssemblesOnly(pending, id) && OwnDecides(Step(pending, f).0, rest, id, last)
    ensures OwnDecides(pending, [f] + rest, id, last)
  {
    OwnCons(f, rest, id);
    if Foreign(f, id) {
      ForeignStep(pending, f, id);
      QuietFirst(pending, f, rest, last);
    } else {
      SameStepFirst(pending, f, rest, Own(rest, id), last);
    }
  }

  lemma {:induction false} OwnIsEnough(pending: Option<Pending>, frames: seq<Bytes>, id: Byte, last: seq<Bytes>)
    requires Sized(pending) && AssemblesOnly(pending, id)
    requires forall i :: 0 <= i < |frames| ==> !BeginsAnother(frames[i], id)
    ensures OwnDecides(pending, frames, id, last)
    decreases |frames|
  {
    if frames != [] {
      StepAssemblesOnly(pending, frames[0], id);
      OwnIsEnough(Step(pending, frames[0]).0, frames[1..], id, last);
      OneMoreFrame(pending, frames[0], frames[1..], id, last);
      assert frames == [frames[0]] + frames[1..];
    }
  }

  lemma {:induction false} OwnAfter(pending: Option<Pending>, first: Bytes, p: Option<Pending>, id: Byte, frames: seq<Bytes>, last: seq<Bytes>)
    requires Sized(pending) && Step(pending, first) == (p, Nothing) && AssemblesOnly(p, id)
    requires forall i :: 0 <= i < |frames| ==> !BeginsAnother(frames[i], id)
    ensures Run(pending, [first] + (frames + last)) == Run(pending, [first] + (Own(frames, id) + last))
  {
    OwnIsEnough(p, frames, id, last);
    QuietStep(pending, first, frames + last, p);
    QuietStep(pending, first, Own(frames, id) + last, p);
  }

  lemma {:induction false} BeginAssembles(pending: Option<Pending>, id: Byte, r: Request) returns (p: Option<Pending>)
    requires Sized(pending) && 0 < |Stream(r)| <= UINT16_MAX
    ensures Step(pending, BeginFrame(id, r)) == (p, Nothing) && AssemblesOnly(p, id)
  {
    BeginIsHeard(pending, id, r);
    p := Step(pending, BeginFrame(id, r)).0;
  }

  lemma {:induction false} AmidOthersAfter(pending: Option<Pending>, first: Bytes, p: Pending, id: Byte, r: Request, tiles: seq<Tile>, order: seq<nat>, frames: seq<Bytes>)
    requires Sized(pending) && Step(pending, first) == (Some(p), Nothing)
    requires Assembling(p, id, r) && p.received == 0 && p.seen == {}
    requires |Stream(r)| <= UINT16_MAX && TilesTo(tiles, Stream(r), |Stream(r)|)
    requires forall i :: 0 <= i < |order| ==> order[i] < |tiles|
    requires forall i :: 0 <= i < |frames| ==> !BeginsAnother(frames[i], id)
    requires Own(frames, id) == FramesOf(id, tiles, order)
    ensures Run(pending, [first] + (frames + [EndFrame(id)])) ==
      (None, [if forall k :: 0 <= k < |tiles| ==> k in order then Perform(id, r) else Report(id, Incomplete)])
  {
    OwnAfter(pending, first, Some(p), id, frames, [EndFrame(id)]);
    AfterBegin(pending, first, p, id, r, tiles, order);
  }

  /**
   The same decision amid anything else on the link: BEGIN, then frames among which those of this
   request are the tiles listed in `order`, then END.
   */
  lemma {:induction false} PerformsIffAllArrivedAmidOthers(pending: Option<Pending>, id: Byte, r: Request, tiles: seq<Tile>, order: seq<nat>, frames: seq<Bytes>)
    requires Sized(pending) && 0 < |Stream(r)| <= UINT16_MAX && TilesTo(tiles, Stream(r), |Stream(r)|)
    requires forall i :: 0 <= i < |order| ==> order[i] < |tiles|
    requires forall i :: 0 <= i < |frames| ==> !BeginsAnother(frames[i], id)
    requires Own(frames, id) == FramesOf(id, tiles, order)
    ensures Run(pending, [BeginFrame(id, r)] + (frames + [EndFrame(id)])) ==
      (None, [if forall k :: 0 <= k < |tiles| ==> k in order then Perform(id, r) else Report(id, Incomplete)])
  {
    BeginIsHeard(pending, id, r);
    AmidOthersAfter(pending, BeginFrame(id, r), Step(pending, BeginFrame(id, r)).0.value, id, r, tiles, order, frames);
  }

  // ---- Whatever arrives

  /** A request being assembled is not empty and not over the limit. */
  ghost predicate WithinLimit(pending: Option<Pending>) {
    Sized(pending) && (pending.Some? ==> 0 < |pending.value.buf| <= MAX_REQUEST_BYTES)
  }

  predicate ActsWithinLimit(action: Action) {
    action.Perform? ==> 0 < |Stream(action.request)| <= MAX_REQUEST_BYTES
  }

  lemma {:induction false} FieldsAreTheBuffer(p: Pending)
    requires Sized(Some(p))
    ensures Stream(Fields(p)) == p.buf
  {
  }

  lemma {:induction false} StepWithinLimit(pending: Option<Pending>, f: Bytes)
    requires WithinLimit(pending)
    ensures WithinLimit(Step(pending, f).0) && ActsWithinLimit(Step(pending, f).1)
  {
    if pending.Some? {
      FieldsAreTheBuffer(pending.value);
    }
  }

  /** Over every sequence of frames whatever, the page performs no empty request and none over the limit. */
  lemma {:induction false} NothingOverTheLimit(pending: Option<Pending>, frames: seq<Bytes>)
    requires WithinLimit(pending)
    ensures WithinLimit(Run(pending, frames).0)
    ensures forall i :: 0 <= i < |Run(pending, frames).1| ==> ActsWithinLimit(Run(pending, frames).1[i])
    decreases |frames|
  {
    if frames != [] {
      StepWithinLimit(pending, frames[0]);
      NothingOverTheLimit(Step(pending, frames[0]).0, frames[1..]);
    }
  }
}
