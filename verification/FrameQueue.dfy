/**
 The browser link: frames queue up behind length prefixes until a poll takes them all, as base64,
 and the page cuts them apart again.
 */
module FrameQueue {
  import opened Prelude
  import Base64

  const QUEUE_BYTES: nat := 4096

  /** Two octets of length, little-endian, then the frame. */
  function Prefixed(frame: Bytes): Bytes
    requires |frame| <= UINT16_MAX
  {
    [|frame| % 256, |frame| / 256] + frame
  }

  predicate AllShort(frames: seq<Bytes>) {
    forall i :: 0 <= i < |frames| ==> |frames[i]| <= UINT16_MAX
  }

  function Pack(frames: seq<Bytes>): Bytes
    requires AllShort(frames)
  {
    if frames == [] then [] else Pack(frames[..|frames| - 1]) + Prefixed(frames[|frames| - 1])
  }

  function Length(bytes: Bytes): nat
    requires |bytes| >= 2
  {
    bytes[0] as int + 256 * bytes[1] as int
  }

  /** The frames the page cuts out; a cut-off frame at the end is dropped. */
  function Unpack(bytes: Bytes): seq<Bytes>
    decreases |bytes|
  {
    if |bytes| < 2 || 2 + Length(bytes) > |bytes| then []
    else [bytes[2..2 + Length(bytes)]] + Unpack(bytes[2 + Length(bytes)..])
  }

  lemma {:induction false} UnpackPrefixed(frame: Bytes, rest: Bytes)
    requires |frame| <= UINT16_MAX
    ensures Unpack(Prefixed(frame) + rest) == [frame] + Unpack(rest)
  {
    var t := Prefixed(frame) + rest;
    assert Length(t) == |frame|;
    assert t[2..2 + |frame|] == frame && t[2 + |frame|..] == rest;
  }

  lemma {:induction false} UnpackPack(frames: seq<Bytes>, rest: Bytes)
    requires AllShort(frames)
    ensures Unpack(Pack(frames) + rest) == frames + Unpack(rest)
    decreases |frames|
  {
    if frames == [] {
      assert [] + rest == rest;
    } else {
      var front, last := frames[..|frames| - 1], frames[|frames| - 1];
      assert Pack(frames) + rest == Pack(front) + (Prefixed(last) + rest);
      UnpackPack(front, Prefixed(last) + rest);
      UnpackPrefixed(last, rest);
      assert front + ([last] + Unpack(rest)) == frames + Unpack(rest);
    }
  }

  lemma {:induction false} CutOff(bytes: Bytes, off: nat, len: nat)
    requires off + 2 <= |bytes| && len == bytes[off] as int + 256 * bytes[off + 1] as int
    ensures off + 2 + len > |bytes| ==> Unpack(bytes[off..]) == []
    ensures off + 2 + len <= |bytes| ==> Unpack(bytes[off..]) == [bytes[off + 2..off + 2 + len]] + Unpack(bytes[off + 2 + len..])
  {
    var rest := bytes[off..];
    assert Length(rest) == len;
    if off + 2 + len <= |bytes| {
      assert rest[2..2 + len] == bytes[off + 2..off + 2 + len] && rest[2 + len..] == bytes[off + 2 + len..];
    }
  }

  lemma {:induction false} Regroup(frames: seq<Bytes>, frame: Bytes, more: seq<Bytes>)
    ensures frames + ([frame] + more) == (frames + [frame]) + more
  {
  }

  /** The loop that cuts a poll's bytes into frames. */
  method Cut(bytes: Bytes) returns (frames: seq<Bytes>)
    ensures frames == Unpack(bytes)
  {
    frames := [];
    var off := 0;
    assert bytes[0..] == bytes;
    while off + 2 <= |bytes|
      invariant off <= |bytes| && frames + Unpack(bytes[off..]) == Unpack(bytes)
      decreases |bytes| - off
    {
      var len := bytes[off] as int + 256 * bytes[off + 1] as int;
      CutOff(bytes, off, len);
      off := off + 2;
      if off + len > |bytes| {
        return;
      }
      Regroup(frames, bytes[off..off + len], Unpack(bytes[off + len..]));
      frames := frames + [bytes[off..off + len]];
      off := off + len;
    }
  }

  /** What the page makes of a poll's answer. */
  function PollFrames(text: string): seq<Bytes> {
    var bytes := Base64.Decode(text);
    if bytes == None then [] else Unpack(bytes.value)
  }

  // ---- A link that loses no answer

  datatype Event = Offer(frame: Bytes, locks: bool) | Ask(locks: bool, allocates: bool)

  /** The queue's octets, the frames the page has cut out so far, and the frames whose offer was taken. */
  datatype Link = Link(queue: Bytes, received: seq<Bytes>, taken: seq<Bytes>)

  function Next(l: Link, e: Event): Link {
    match e
    case Offer(frame, locks) =>
      if !locks || |frame| > UINT16_MAX || |l.queue| + 2 + |frame| > QUEUE_BYTES then l
      else l.(queue := l.queue + Prefixed(frame), taken := l.taken + [frame])
    case Ask(locks, allocates) =>
      if !locks || !allocates || l.queue == [] then l
      else l.(queue := [], received := l.received + PollFrames(Base64.Encode(l.queue)))
  }

  ghost predicate Faithful(l: Link, waiting: seq<Bytes>) {
    AllShort(waiting) && l.queue == Pack(waiting) && l.received + waiting == l.taken
  }

  class Queue {
    const queue: array<Byte>
    var queueLen: nat
    ghost var frames: seq<Bytes>      // the frames waiting, oldest first
    ghost var received: seq<Bytes>    // what the page has cut out of the answers so far
    ghost var taken: seq<Bytes>       // the frames accepted so far

    ghost function View(): Link
      requires queueLen <= queue.Length
      reads this, queue
    {
      Link(queue[..queueLen], received, taken)
    }

    ghost predicate Valid()
      reads this, queue
    {
      queueLen <= queue.Length == QUEUE_BYTES && Faithful(View(), frames)
    }

    constructor ()
      ensures Valid() && fresh(queue) && frames == [] && View() == Link([], [], [])
    {
      queue := new Byte[QUEUE_BYTES];
      queueLen, frames, received, taken := 0, [], [], [];
    }

    /** Refused when the lock is not had in time, or there is no room for the whole frame. */
    method Enqueue(frame: Bytes, locks: bool) returns (queued: bool)
      requires Valid()
      modifies this`queueLen, this`frames, this`taken, queue
      ensures Valid() && View() == Next(old(View()), Offer(frame, locks))
      ensures queued == (locks && |frame| <= UINT16_MAX && old(queueLen) + 2 + |frame| <= queue.Length)
      ensures frames == if queued then old(frames) + [frame] else old(frames)
    {
      if |frame| > UINT16_MAX || !locks || queueLen + 2 + |frame| > queue.Length {
        return false;
      }
      ghost var was := queue[..queueLen];
      queue[queueLen] := |frame| % 256;
      queue[queueLen + 1] := |frame| / 256;
      forall i | 0 <= i < |frame| {
        queue[queueLen + 2 + i] := frame[i];
      }
      assert queue[..queueLen + 2 + |frame|] == was + Prefixed(frame);
      assert (frames + [frame])[..|frames|] == frames;
      queueLen := queueLen + 2 + |frame|;
      frames := frames + [frame];
      taken := taken + [frame];
      return true;
    }

    /**
     All that waits, in one answer. Without the lock, or memory to encode in, the answer is empty
     and the queue stays; no frame is ever half taken.
     */
    method Poll(locks: bool, allocates: bool) returns (text: string)
      requires Valid()
      modifies this`queueLen, this`frames, this`received
      ensures Valid() && View() == Next(old(View()), Ask(locks, allocates))
      ensures received == old(received) + PollFrames(text) && PollFrames(text) + frames == old(frames)
      ensures locks && allocates ==> frames == []
    {
      text := "";
      Base64.DecodeEncode([]);
      if locks && queueLen > 0 && allocates {
        var need := 4 * ((queueLen + 2) / 3) + 1;
        var encoded := new char[need];
        var written := Base64.EncodeInto(encoded, queue[..queueLen]);
        if 0 < written < need {
          text := encoded[..written];
          TakeAll(View(), frames, text);
          received := received + PollFrames(text);
          queueLen, frames := 0, [];
        }
      } else {
        assert received + [] == received;
        if locks && allocates {
          EmptyPack(frames);
        }
      }
    }
  }

  /** What an answer made of everything that waits does to a faithful link. */
  lemma {:induction false} TakeAll(l: Link, waiting: seq<Bytes>, text: string)
    requires Faithful(l, waiting) && l.queue != [] && text == Base64.Encode(l.queue)
    ensures PollFrames(text) == waiting && Next(l, Ask(true, true)) == l.(queue := [], received := l.received + waiting)
    ensures Faithful(Next(l, Ask(true, true)), [])
  {
    Base64.DecodeEncode(l.queue);
    UnpackPack(waiting, []);
    assert Pack(waiting) + [] == Pack(waiting) && waiting + [] == waiting;
    assert (l.received + waiting) + [] == l.taken;
  }

  lemma {:induction false} EmptyPack(frames: seq<Bytes>)
    requires AllShort(frames) && Pack(frames) == []
    ensures frames == []
  {
  }

  // ---- Runs

  function Run(l: Link, events: seq<Event>): Link
    decreases |events|
  {
    if events == [] then l else Run(Next(l, events[0]), events[1..])
  }

  lemma {:induction false} NextIsFaithful(l: Link, e: Event, waiting: seq<Bytes>) returns (after: seq<Bytes>)
    requires Faithful(l, waiting)
    ensures Faithful(Next(l, e), after)
  {
    after := waiting;
    match e
    case Offer(frame, locks) =>
      if Next(l, e) != l {
        after := waiting + [frame];
        assert after[..|waiting|] == waiting;
      }
    case Ask(locks, allocates) =>
      if Next(l, e) != l {
        after := [];
        TakeAll(l, waiting, Base64.Encode(l.queue));
      }
  }

  lemma {:induction false} RunIsFaithful(l: Link, events: seq<Event>, waiting: seq<Bytes>) returns (after: seq<Bytes>)
    requires Faithful(l, waiting)
    ensures Faithful(Run(l, events), after)
    decreases |events|
  {
    if events == [] {
      after := waiting;
    } else {
      after := NextIsFaithful(l, events[0], waiting);
      after := RunIsFaithful(Next(l, events[0]), events[1..], after);
    }
  }

  /**
   Over every interleaving of offers and polls: what the page has cut out, followed by what it would
   cut out of the queue now, is exactly what was taken, in order.
   */
  lemma {:induction false} NothingLostNothingReordered(events: seq<Event>)
    ensures var l := Run(Link([], [], []), events); l.received + Unpack(l.queue) == l.taken
  {
    var waiting := RunIsFaithful(Link([], [], []), events, []);
    UnpackPack(waiting, []);
    assert Pack(waiting) + [] == Pack(waiting) && waiting + [] == waiting;
  }

  /** Once the queue is empty, the page has exactly the frames that were taken. */
  lemma {:induction false} AllReceivedWhenDrained(events: seq<Event>)
    ensures var l := Run(Link([], [], []), events); l.queue == [] ==> l.received == l.taken
  {
    NothingLostNothingReordered(events);
    var l := Run(Link([], [], []), events);
    assert l.received + [] == l.received;
  }
}
