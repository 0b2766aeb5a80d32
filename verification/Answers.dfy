/**
 What an answer does to the envelope it answers: nothing leaves the SDK's hands as delivered or
 rejected but by a call that carried it and was answered so, and everything else is kept if it can be.
 */
module Answers {
  import opened Prelude
  import opened OfflineBuffer
  import opened Delivery

  /** A call of the transport for an envelope. */
  datatype Carried = Carried(slot: Option<Bytes>, attempt: Attempt)

  /** An entry the flush can read: present, small enough, and the read works. */
  predicate CanRead(slot: Option<Bytes>, readable: bool) {
    readable && slot.Some? && |slot.value| <= 2048
  }

  function CarriedBy(queue: Slots, world: nat -> Try, n: nat): seq<Carried>
    requires n <= |queue|
  {
    if n == 0 then []
    else CarriedBy(queue, world, n - 1)
         + if CanRead(queue[n - 1], world(n - 1).readable) then [Carried(queue[n - 1], world(n - 1).attempt)] else []
  }

  function Unread(queue: Slots, world: nat -> Try, n: nat): Slots
    requires n <= |queue|
  {
    if n == 0 then []
    else Unread(queue, world, n - 1) + if CanRead(queue[n - 1], world(n - 1).readable) then [] else [queue[n - 1]]
  }

  predicate BackingOff(p: Post, now: nat) {
    0 < p.retryAfter && now < p.retryAfter
  }

  /** The calls of one event that carry an envelope; a flush's batches carry none. */
  function Carries(p: Post, e: Event): seq<Carried> {
    match e
    case Send(envelope, a, _) => if BackingOff(p, a.begun) then [] else [Carried(Some(envelope), a)]
    case Flush(begun, _, max, world) => if BackingOff(p, begun) then [] else CarriedBy(p.queue, world, Tried(p, max, world))
  }

  function AllCarries(p: Post, events: seq<Event>): seq<Carried>
    decreases |events|
  {
    if events == [] then [] else Carries(p, events[0]) + AllCarries(Next(p, events[0]), events[1..])
  }

  function Gaps(p: Post, e: Event): Slots {
    if e.Send? || BackingOff(p, e.begun) then [] else Unread(p.queue, e.world, Removed(p, e.max, e.world))
  }

  function AllGaps(p: Post, events: seq<Event>): Slots
    decreases |events|
  {
    if events == [] then [] else Gaps(p, events[0]) + AllGaps(Next(p, events[0]), events[1..])
  }

  function AttemptsOf(carries: seq<Carried>): seq<Attempt> {
    seq(|carries|, i requires 0 <= i < |carries| => carries[i].attempt)
  }

  /** What was carried by the calls with this answer, in order. */
  function Answered(carries: seq<Carried>, result: SendResult): Slots {
    if carries == [] then []
    else
      Answered(carries[..|carries| - 1], result)
      + if carries[|carries| - 1].attempt.response.result == result then [carries[|carries| - 1].slot] else []
  }

  lemma {:induction false} OneMoreCarried(carries: seq<Carried>, c: Carried, result: SendResult)
    ensures Answered(carries + [c], result) == Answered(carries, result) + if c.attempt.response.result == result then [c.slot] else []
    ensures AttemptsOf(carries + [c]) == AttemptsOf(carries) + [c.attempt]
    ensures carries + [] == carries && Answered([c], result) == if c.attempt.response.result == result then [c.slot] else []
    ensures AttemptsOf([c]) == [c.attempt]
  {
    assert (carries + [c])[..|carries|] == carries;
    assert [c][..0] == [];
    assert Answered([], result) + [c.slot] == [c.slot] && [] + [c.attempt] == [c.attempt];
  }

  lemma {:induction false} RegroupSlots(a: Slots, b: Slots, c: Slots)
    ensures a + (b + c) == (a + b) + c && a + [] == a
  {
  }

  lemma {:induction false} AnsweredAppend(a: seq<Carried>, b: seq<Carried>, result: SendResult)
    ensures Answered(a + b, result) == Answered(a, result) + Answered(b, result)
    decreases |b|
  {
    if b == [] {
      assert a + b == a;
      RegroupSlots(Answered(a, result), [], []);
    } else {
      var front, last := b[..|b| - 1], b[|b| - 1];
      AnsweredAppend(a, front, result);
      OneMoreCarried(a + front, last, result);
      OneMoreCarried(front, last, result);
      RegroupSlots(Answered(a, result), Answered(front, result), if last.attempt.response.result == result then [last.slot] else []);
      assert a + b == (a + front) + [last] && b == front + [last];
    }
  }

  /** Which fate an entry meets, by what can be read and what was answered. */
  lemma {:induction false} FateByAnswer(slot: Option<Bytes>, t: Try)
    ensures var r := t.attempt.response.result;
      && (FateOf(slot, t) == Unreadable <==> !CanRead(slot, t.readable))
      && (FateOf(slot, t) == Delivered <==> CanRead(slot, t.readable) && r == OK)
      && (FateOf(slot, t) == Rejected <==> CanRead(slot, t.readable) && r == REJECTED)
      && (FateOf(slot, t) == Waiting <==> CanRead(slot, t.readable) && r != OK && r != REJECTED)
  {
  }

  /** The fate that goes with an answer. */
  predicate Matches(fate: Fate, result: SendResult) {
    (fate == Delivered && result == OK) || (fate == Rejected && result == REJECTED)
  }

  lemma {:induction false} MetIsAnsweredAs(queue: Slots, world: nat -> Try, n: nat, fate: Fate, result: SendResult)
    requires n <= |queue| && Matches(fate, result)
    ensures Met(queue, world, n, fate) == Answered(CarriedBy(queue, world, n), result)
  {
    if n > 0 {
      var slot, t, before := queue[n - 1], world(n - 1), CarriedBy(queue, world, n - 1);
      MetIsAnsweredAs(queue, world, n - 1, fate, result);
      FateByAnswer(slot, t);
      OneMoreCarried(before, Carried(slot, t.attempt), result);
      RegroupSlots(Met(queue, world, n - 1, fate), [], []);
    }
  }

  lemma {:induction false} MetIsUnread(queue: Slots, world: nat -> Try, n: nat)
    requires n <= |queue|
    ensures Met(queue, world, n, Unreadable) == Unread(queue, world, n)
  {
    if n > 0 {
      MetIsUnread(queue, world, n - 1);
      FateByAnswer(queue[n - 1], world(n - 1));
    }
  }

  lemma {:induction false} OneMoreAttempt(queue: Slots, world: nat -> Try, n: nat)
    requires n < |queue|
    ensures Attempts(queue, world, n + 1) ==
      if CanRead(queue[n], world(n).readable) then Attempts(queue, world, n) + [world(n).attempt] else Attempts(queue, world, n)
    ensures CarriedBy(queue, world, n + 1) ==
      if CanRead(queue[n], world(n).readable) then CarriedBy(queue, world, n) + [Carried(queue[n], world(n).attempt)] else CarriedBy(queue, world, n)
  {
    FateByAnswer(queue[n], world(n));
  }

  lemma {:induction false} CarriedAlike(queue: Slots, world: nat -> Try, n: nat)
    requires n < |queue| && Attempts(queue, world, n) == AttemptsOf(CarriedBy(queue, world, n))
    ensures Attempts(queue, world, n + 1) == AttemptsOf(CarriedBy(queue, world, n + 1))
  {
    OneMoreAttempt(queue, world, n);
    OneMoreCarried(CarriedBy(queue, world, n), Carried(queue[n], world(n).attempt), OK);
  }

  lemma {:induction false} AttemptsAreCarried(queue: Slots, world: nat -> Try, n: nat)
    requires n <= |queue|
    ensures Attempts(queue, world, n) == AttemptsOf(CarriedBy(queue, world, n))
  {
    if n > 0 {
      AttemptsAreCarried(queue, world, n - 1);
      CarriedAlike(queue, world, n - 1);
    }
  }

  /** An attempt that ends the loop delivered and rejected nothing. */
  lemma {:induction false} TriedAnswers(p: Post, max: nat, world: nat -> Try, fate: Fate, result: SendResult)
    requires Matches(fate, result)
    ensures Met(p.queue, world, Removed(p, max, world), fate) == Answered(CarriedBy(p.queue, world, Tried(p, max, world)), result)
  {
    var removed := Removed(p, max, world);
    MetIsAnsweredAs(p.queue, world, removed, fate, result);
    if Tried(p, max, world) > removed {
      FlushIsFrugal(p, max, world);
      FateByAnswer(p.queue[removed], world(removed));
      OneMoreCarried(CarriedBy(p.queue, world, removed), Carried(p.queue[removed], world(removed).attempt), result);
      RegroupSlots(Met(p.queue, world, removed, fate), [], []);
    }
  }

  lemma {:induction false} SendIsAnswered(p: Post, envelope: Bytes, a: Attempt, writes: bool)
    ensures var e := Send(envelope, a, writes);
      && Entry(p, e).delivered == Answered(Carries(p, e), OK)
      && Entry(p, e).rejected == Answered(Carries(p, e), REJECTED)
      && Entry(p, e).discarded == []
  {
    OneMoreCarried([], Carried(Some(envelope), a), OK);
    OneMoreCarried([], Carried(Some(envelope), a), REJECTED);
  }

  lemma {:induction false} FlushIsAnswered(p: Post, e: Event)
    requires e.Flush? && !BackingOff(p, e.begun)
    ensures Entry(p, e).delivered == Answered(Carries(p, e), OK)
    ensures Entry(p, e).rejected == Answered(Carries(p, e), REJECTED)
    ensures Entry(p, e).discarded == Unread(p.queue, e.world, Removed(p, e.max, e.world))
  {
    TriedAnswers(p, e.max, e.world, Delivered, OK);
    TriedAnswers(p, e.max, e.world, Rejected, REJECTED);
    MetIsUnread(p.queue, e.world, Removed(p, e.max, e.world));
  }

  lemma {:induction false} EntryIsAnswered(p: Post, e: Event)
    ensures Entry(p, e).delivered == Answered(Carries(p, e), OK)
    ensures Entry(p, e).rejected == Answered(Carries(p, e), REJECTED)
    ensures Entry(p, e).discarded == Gaps(p, e)
  {
    if e.Send? {
      SendIsAnswered(p, e.envelope, e.attempt, e.writes);
    } else if !BackingOff(p, e.begun) {
      FlushIsAnswered(p, e);
    }
  }

  ghost predicate ColumnsAnswered(p: Post, events: seq<Event>) {
    && Account(p, events).delivered == Answered(AllCarries(p, events), OK)
    && Account(p, events).rejected == Answered(AllCarries(p, events), REJECTED)
    && Account(p, events).discarded == AllGaps(p, events)
  }

  lemma {:induction false} ColumnsOnce(p: Post, events: seq<Event>)
    requires events != [] && ColumnsAnswered(Next(p, events[0]), events[1..])
    ensures ColumnsAnswered(p, events)
  {
    EntryIsAnswered(p, events[0]);
    AnsweredAppend(Carries(p, events[0]), AllCarries(Next(p, events[0]), events[1..]), OK);
    AnsweredAppend(Carries(p, events[0]), AllCarries(Next(p, events[0]), events[1..]), REJECTED);
  }

  /**
   Over every run: delivered is, in order, exactly what was carried by the calls answered OK, rejected
   what was carried by the calls answered REJECTED, and discarded what could not be read.
   */
  lemma {:induction false} LedgerIsWhatWasAnswered(p: Post, events: seq<Event>)
    ensures ColumnsAnswered(p, events)
    decreases |events|
  {
    if events != [] {
      LedgerIsWhatWasAnswered(Next(p, events[0]), events[1..]);
      ColumnsOnce(p, events);
    }
  }

  /** Those are the transport's calls, with the batches' before them in a flush. */
  lemma {:induction false} CallsAreCarried(p: Post, e: Event)
    ensures Calls(p, e) == (if e.Flush? && !BackingOff(p, e.begun) then e.batches else []) + AttemptsOf(Carries(p, e))
  {
    match e
    case Send(envelope, a, _) =>
      OneMoreCarried([], Carried(Some(envelope), a), OK);
      assert [] + [a] == [a];
    case Flush(_, _, max, world) => AttemptsAreCarried(p.queue, world, Tried(p, max, world));
  }

  // ---- What is not settled is kept

  /** Ingest has taken it or never will; any other answer, and no call at all, leaves it to be tried again. */
  predicate Settled(p: Post, a: Attempt) {
    !BackingOff(p, a.begun) && (a.response.result == OK || a.response.result == REJECTED)
  }

  /** With buffering on, a send leaves its envelope last in the queue unless it was settled or the write failed. */
  lemma {:induction false} SendKeepsUnlessSettled(p: Post, envelope: Bytes, a: Attempt, writes: bool)
    requires Sane(p) && p.capacity > 0
    ensures Next(p, Send(envelope, a, writes)).queue ==
      if Settled(p, a) then p.queue
      else (if |p.queue| == p.capacity then p.queue[1..] else p.queue) + (if writes then [Some(envelope)] else [])
  {
  }

  /** A flush removes an entry it read only when it was settled, and an entry answered otherwise is first in the queue after. */
  lemma {:induction false} FlushKeepsUnlessSettled(p: Post, begun: nat, batches: seq<Attempt>, max: nat, world: nat -> Try)
    requires !BackingOff(p, begun)
    ensures var removed, tried, after := Removed(p, max, world), Tried(p, max, world), Next(p, Flush(begun, batches, max, world)).queue;
      && (forall i :: 0 <= i < removed && CanRead(p.queue[i], world(i).readable) ==>
            world(i).attempt.response.result == OK || world(i).attempt.response.result == REJECTED)
      && (forall i :: 0 <= i < tried && CanRead(p.queue[i], world(i).readable)
            && world(i).attempt.response.result != OK && world(i).attempt.response.result != REJECTED
            ==> after == p.queue[i..])
  {
    FlushIsFrugal(p, max, world);
    forall i | 0 <= i < Tried(p, max, world)
      ensures FateOf(p.queue[i], world(i)) == Waiting <==>
        CanRead(p.queue[i], world(i).readable) && world(i).attempt.response.result != OK && world(i).attempt.response.result != REJECTED
    {
      FateByAnswer(p.queue[i], world(i));
    }
  }

  // ---- A deadline counts from the answer

  /**
   A send answered at uptime t with a Retry-After of r milliseconds: whatever is sent and flushed
   before t + r, the transport is not called, and from t + r on the next send calls it again.
   */
  lemma {:induction false} RetryAfterCountsFromTheAnswer(p: Post, envelope: Bytes, a: Attempt, writes: bool, events: seq<Event>, later: Event)
    requires !BackingOff(p, a.begun) && a.response.retryAfterMs > 0 && a.ended + a.response.retryAfterMs < UINT64_MODULUS
    requires forall i :: 0 <= i < |events| ==> Begun(events[i]) < a.ended + a.response.retryAfterMs
    requires later.Send?
    ensures var q := Next(p, Send(envelope, a, writes));
      && AllCalls(q, events) == []
      && Calls(Run(q, events), later) == if Begun(later) < a.ended + a.response.retryAfterMs then [] else [later.attempt]
  {
    DeadlineIsSet(p, envelope, a, writes);
    SilentUntil(Next(p, Send(envelope, a, writes)), events, later);
  }

  lemma {:induction false} NoWrap(n: nat)
    requires n < UINT64_MODULUS
    ensures n % UINT64_MODULUS == n
  {
  }

  lemma {:induction false} DeadlineIsSet(p: Post, envelope: Bytes, a: Attempt, writes: bool)
    requires !BackingOff(p, a.begun) && a.response.retryAfterMs > 0 && a.ended + a.response.retryAfterMs < UINT64_MODULUS
    ensures Next(p, Send(envelope, a, writes)).retryAfter == a.ended + a.response.retryAfterMs
  {
    NoWrap(a.ended + a.response.retryAfterMs);
  }

  lemma {:induction false} SilentUntil(q: Post, events: seq<Event>, later: Event)
    requires q.retryAfter > 0 && later.Send? && forall i :: 0 <= i < |events| ==> Begun(events[i]) < q.retryAfter
    ensures AllCalls(q, events) == []
    ensures Calls(Run(q, events), later) == if Begun(later) < q.retryAfter then [] else [later.attempt]
  {
    SilentWhileBackingOff(q, events);
  }

  /** Without a Retry-After an answer leaves the deadline as it was. */
  lemma {:induction false} NoRetryAfterNoDeadline(p: Post, envelope: Bytes, a: Attempt, writes: bool)
    requires a.response.retryAfterMs == 0
    ensures Next(p, Send(envelope, a, writes)).retryAfter == p.retryAfter
  {
  }
}
