/**
 What becomes of an envelope: sent now, kept for later, sent later, or lost, and when nothing is sent.

 `Post` is the state that decides it: the waiting envelopes, oldest first, and the uptime before
 which a server asked not to be called. What the transport and the storage do is a parameter.
 */
module Delivery {
  import opened Prelude
  import opened OfflineBuffer

  /** One call of the transport: the uptime it began at, its answer, and the uptime the answer came at. */
  datatype Attempt = Attempt(begun: nat, response: Response, ended: nat)

  /** One round of the flush loop: whether the slot can be read, the attempt if it is, and the storage calls of the pop. */
  datatype Try = Try(readable: bool, attempt: Attempt, weather: Weather)

  /** A capacity of 0 is buffering switched off. */
  datatype Post = Post(queue: seq<Option<Bytes>>, capacity: nat, dropped: nat, retryAfter: nat)

  predicate Sane(p: Post) {
    |p.queue| <= p.capacity && p.dropped <= UINT32_MAX
  }

  // ---- Backing off

  predicate InBackoff(retryAfter: nat, now: nat) {
    retryAfter > 0 && now < retryAfter
  }

  function After(retryAfter: nat, a: Attempt): nat {
    if a.response.retryAfterMs > 0 then (a.ended + a.response.retryAfterMs) % UINT64_MODULUS else retryAfter
  }

  function AfterAll(retryAfter: nat, attempts: seq<Attempt>): nat {
    if attempts == [] then retryAfter
    else After(AfterAll(retryAfter, attempts[..|attempts| - 1]), attempts[|attempts| - 1])
  }

  // ---- Sending

  function Answer(p: Post, a: Attempt): Response {
    if InBackoff(p.retryAfter, a.begun) then ResponseMake(RATE_LIMITED) else a.response
  }

  /** A full queue gives up its oldest envelope for the new one. */
  function Kept(p: Post, envelope: Bytes, writes: bool): Post {
    var full := |p.queue| == p.capacity;
    p.(queue := (if full && p.queue != [] then p.queue[1..] else p.queue) + (if writes then [Some(envelope)] else []),
       dropped := if full then Bumped(p.dropped) else p.dropped)
  }

  function Sent(p: Post, envelope: Bytes, a: Attempt, writes: bool): Post {
    var q := if InBackoff(p.retryAfter, a.begun) then p else p.(retryAfter := After(p.retryAfter, a));
    if p.capacity > 0 && WorthRetrying(Answer(p, a).result) then Kept(q, envelope, writes) else q
  }

  // ---- Flushing

  datatype Fate = Delivered | Rejected | Unreadable | Waiting

  function FateOf(slot: Option<Bytes>, t: Try): Fate {
    if ReadAs(slot, ENVELOPE_BUFFER_BYTES, t.readable) == None then Unreadable
    else if t.attempt.response.result == OK then Delivered
    else if WorthRetrying(t.attempt.response.result) then Waiting
    else Rejected
  }

  /** The entries before the n-th that met a fate, oldest first. */
  function Met(queue: seq<Option<Bytes>>, world: nat -> Try, n: nat, fate: Fate): (met: seq<Option<Bytes>>)
    requires n <= |queue|
    ensures |met| <= n
  {
    if n == 0 then []
    else Met(queue, world, n - 1, fate) + if FateOf(queue[n - 1], world(n - 1)) == fate then [queue[n - 1]] else []
  }

  /** How far a flush gets that has come to entry i with `delivered` delivered. */
  function Stop(queue: seq<Option<Bytes>>, max: nat, world: nat -> Try, i: nat, delivered: nat): (n: nat)
    requires i <= |queue|
    ensures i <= n <= |queue|
    decreases |queue| - i
  {
    if delivered >= max || i == |queue| then i
    else
      match FateOf(queue[i], world(i))
      case Waiting => i
      case Delivered => Stop(queue, max, world, i + 1, delivered + 1)
      case _ => Stop(queue, max, world, i + 1, delivered)
  }

  /** The transport calls for the entries before the n-th: one for each that can be read. */
  function Attempts(queue: seq<Option<Bytes>>, world: nat -> Try, n: nat): seq<Attempt>
    requires n <= |queue|
  {
    if n == 0 then []
    else Attempts(queue, world, n - 1) + if FateOf(queue[n - 1], world(n - 1)) == Unreadable then [] else [world(n - 1).attempt]
  }

  function Removed(p: Post, max: nat, world: nat -> Try): (n: nat)
    ensures n <= |p.queue|
  {
    Stop(p.queue, max, world, 0, 0)
  }

  /** The entry a flush stops at was tried too, unless the flush had delivered enough. */
  function Tried(p: Post, max: nat, world: nat -> Try): (n: nat)
    ensures n <= |p.queue|
  {
    var n := Removed(p, max, world);
    if n < |p.queue| && |Met(p.queue, world, n, Delivered)| < max then n + 1 else n
  }

  /** The buffered envelopes' part of a flush, after the calls made for the metric and log batches. */
  function Flushed(p: Post, batches: seq<Attempt>, max: nat, world: nat -> Try): Post {
    p.(queue := p.queue[Removed(p, max, world)..],
       retryAfter := AfterAll(p.retryAfter, batches + Attempts(p.queue, world, Tried(p, max, world))))
  }

  /** Entry i would be removed by a flush that got to it: not enough was delivered before it, and it is not to be tried again. */
  predicate Goes(queue: seq<Option<Bytes>>, max: nat, world: nat -> Try, i: nat)
    requires i < |queue|
  {
    |Met(queue, world, i, Delivered)| < max && FateOf(queue[i], world(i)) != Waiting
  }

  /** How far a flush gets, said without the loop: to the first entry that would not be removed. */
  ghost predicate StopsAt(queue: seq<Option<Bytes>>, max: nat, world: nat -> Try, n: nat)
    requires n <= |queue|
  {
    (forall i :: 0 <= i < n ==> Goes(queue, max, world, i)) && (n < |queue| ==> !Goes(queue, max, world, n))
  }

  /** One turn of the loop. */
  lemma {:induction false} StopOnce(queue: seq<Option<Bytes>>, max: nat, world: nat -> Try, i: nat)
    requires i < |queue|
    ensures Stop(queue, max, world, i, |Met(queue, world, i, Delivered)|) ==
      if Goes(queue, max, world, i) then Stop(queue, max, world, i + 1, |Met(queue, world, i + 1, Delivered)|) else i
  {
  }

  lemma {:induction false} StopIsExact(queue: seq<Option<Bytes>>, max: nat, world: nat -> Try, i: nat, n: nat)
    requires i <= n <= |queue| && forall k :: 0 <= k < i ==> Goes(queue, max, world, k)
    ensures StopsAt(queue, max, world, n) <==> n == Stop(queue, max, world, i, |Met(queue, world, i, Delivered)|)
    decreases |queue| - i
  {
    if i < |queue| {
      StopOnce(queue, max, world, i);
      if i < n && Goes(queue, max, world, i) {
        StopIsExact(queue, max, world, i + 1, n);
      }
    }
  }

  /** The loop's own account agrees with the loopless one, and nothing else does. */
  lemma {:induction false} FlushStopsExactly(p: Post, max: nat, world: nat -> Try, n: nat)
    requires n <= |p.queue|
    ensures StopsAt(p.queue, max, world, n) <==> n == Removed(p, max, world)
  {
    StopIsExact(p.queue, max, world, 0, n);
  }

  /**
   A flush delivers no more than it was asked to, makes at most one attempt that is to be tried
   again, and that attempt is its last.
   */
  lemma {:induction false} FlushIsFrugal(p: Post, max: nat, world: nat -> Try)
    ensures var removed, tried := Removed(p, max, world), Tried(p, max, world);
      && |Met(p.queue, world, removed, Delivered)| <= max
      && removed <= tried <= removed + 1
      && forall i :: 0 <= i < tried ==> (FateOf(p.queue[i], world(i)) == Waiting <==> i == removed)
  {
    var removed := Removed(p, max, world);
    FlushStopsExactly(p, max, world, removed);
    if removed > 0 {
      assert Goes(p.queue, max, world, removed - 1);
    }
    forall i | 0 <= i < Tried(p, max, world)
      ensures FateOf(p.queue[i], world(i)) == Waiting <==> i == removed
    {
      assert Goes(p.queue, max, world, i) <==> i < removed;
    }
  }

  // ---- The loop itself

  /** What one round of the flush loop makes of the post. */
  function Round(p: Post, fate: Fate, a: Attempt): Post
    requires p.queue != []
  {
    p.(queue := if fate == Waiting then p.queue else p.queue[1..],
       retryAfter := if fate == Unreadable then p.retryAfter else After(p.retryAfter, a))
  }

  /** Round i of the flush loop and those after it: the post they leave, and all that was delivered. */
  function Loop(p: Post, max: nat, world: nat -> Try, i: nat, delivered: nat): (Post, nat)
    decreases |p.queue|
  {
    if delivered >= max || p.queue == [] then (p, delivered)
    else
      var fate := FateOf(p.queue[0], world(i));
      var next := Round(p, fate, world(i).attempt);
      if fate == Waiting then (next, delivered)
      else Loop(next, max, world, i + 1, if fate == Delivered then delivered + 1 else delivered)
  }

  /** The deadline, and how many were delivered, after the first i rounds if each removed its entry. */
  function Deadline(p: Post, world: nat -> Try, i: nat): nat
    requires i <= |p.queue|
  {
    if i == 0 then p.retryAfter
    else if FateOf(p.queue[i - 1], world(i - 1)) == Unreadable then Deadline(p, world, i - 1)
    else After(Deadline(p, world, i - 1), world(i - 1).attempt)
  }

  function Count(p: Post, world: nat -> Try, i: nat): nat
    requires i <= |p.queue|
  {
    if i == 0 then 0 else Count(p, world, i - 1) + if FateOf(p.queue[i - 1], world(i - 1)) == Delivered then 1 else 0
  }

  lemma {:induction false} DeadlineIsAfterAll(p: Post, world: nat -> Try, i: nat)
    requires i <= |p.queue|
    ensures Deadline(p, world, i) == AfterAll(p.retryAfter, Attempts(p.queue, world, i))
  {
    if i > 0 {
      DeadlineIsAfterAll(p, world, i - 1);
      AfterOneMore(p.retryAfter, Attempts(p.queue, world, i - 1), world(i - 1).attempt);
    }
  }

  lemma {:induction false} AfterOneMore(retryAfter: nat, before: seq<Attempt>, a: Attempt)
    ensures AfterAll(retryAfter, before + [a]) == After(AfterAll(retryAfter, before), a)
    ensures before + [] == before
  {
    assert (before + [a])[..|before|] == before;
  }

  lemma {:induction false} CountIsMet(p: Post, world: nat -> Try, i: nat)
    requires i <= |p.queue|
    ensures Count(p, world, i) == |Met(p.queue, world, i, Delivered)|
  {
    if i > 0 {
      CountIsMet(p, world, i - 1);
    }
  }

  /** The post when a flush has removed the first i entries. */
  function Reached(p: Post, world: nat -> Try, i: nat): Post
    requires i <= |p.queue|
  {
    p.(queue := p.queue[i..], retryAfter := Deadline(p, world, i))
  }

  lemma {:induction false} OneRound(p: Post, world: nat -> Try, i: nat)
    requires i < |p.queue|
    ensures var fate := FateOf(p.queue[i], world(i));
      var next := Round(Reached(p, world, i), fate, world(i).attempt);
      next.retryAfter == Deadline(p, world, i + 1) && (fate != Waiting ==> next == Reached(p, world, i + 1))
  {
    assert p.queue[i..][1..] == p.queue[i + 1..];
  }

  lemma {:induction false} LoopTurns(now: Post, max: nat, world: nat -> Try, i: nat, delivered: nat)
    requires delivered < max && now.queue != []
    ensures var fate := FateOf(now.queue[0], world(i));
      var next := Round(now, fate, world(i).attempt);
      Loop(now, max, world, i, delivered) ==
        if fate == Waiting then (next, delivered) else Loop(next, max, world, i + 1, if fate == Delivered then delivered + 1 else delivered)
  {
  }

  lemma {:induction false} LoopOnce(p: Post, max: nat, world: nat -> Try, i: nat)
    requires i < |p.queue| && Goes(p.queue, max, world, i)
    ensures Loop(Reached(p, world, i), max, world, i, Count(p, world, i))
         == Loop(Reached(p, world, i + 1), max, world, i + 1, Count(p, world, i + 1))
  {
    var now := Reached(p, world, i);
    CountIsMet(p, world, i);
    OneRound(p, world, i);
    assert now.queue[0] == p.queue[i];
    LoopTurns(now, max, world, i, Count(p, world, i));
  }

  /** Where the loop is after i rounds that each removed an entry. */
  lemma {:induction false} LoopReaches(p: Post, max: nat, world: nat -> Try, i: nat)
    requires i <= |p.queue| && forall k :: 0 <= k < i ==> Goes(p.queue, max, world, k)
    ensures Loop(p, max, world, 0, 0) == Loop(Reached(p, world, i), max, world, i, Count(p, world, i))
  {
    if i == 0 {
      assert Reached(p, world, 0) == p;
    } else {
      LoopReaches(p, max, world, i - 1);
      LoopOnce(p, max, world, i - 1);
    }
  }

  /** Where the loop ends, a flush ends. */
  lemma {:induction false} LoopEnds(p: Post, max: nat, world: nat -> Try, i: nat)
    requires i <= |p.queue| && (i < |p.queue| ==> !Goes(p.queue, max, world, i))
    ensures Loop(Reached(p, world, i), max, world, i, Count(p, world, i)) ==
      (p.(queue := p.queue[i..], retryAfter := Deadline(p, world, if i < |p.queue| && Count(p, world, i) < max then i + 1 else i)), Count(p, world, i))
  {
    CountIsMet(p, world, i);
    if i < |p.queue| {
      OneRound(p, world, i);
      assert Reached(p, world, i).queue[0] == p.queue[i];
    }
  }

  /** The loop, round by round, does what a flush is said to do. */
  lemma {:induction false} LoopIsFlush(p: Post, max: nat, world: nat -> Try)
    ensures Loop(p, max, world, 0, 0) == (Flushed(p, [], max, world), |Met(p.queue, world, Removed(p, max, world), Delivered)|)
  {
    var n, tried := Removed(p, max, world), Tried(p, max, world);
    FlushStopsExactly(p, max, world, n);
    LoopReaches(p, max, world, n);
    LoopEnds(p, max, world, n);
    CountIsMet(p, world, n);
    DeadlineIsAfterAll(p, world, tried);
    assert [] + Attempts(p.queue, world, tried) == Attempts(p.queue, world, tried);
  }

  // ---- Conservation

  /** Calls of an enabled SDK; an empty envelope is turned away before it becomes a Send. */
  datatype Event =
    | Send(envelope: Bytes, attempt: Attempt, writes: bool)
    | Flush(begun: nat, batches: seq<Attempt>, max: nat, world: nat -> Try)

  /** A flush does nothing at all while backing off, and nothing to the queue when buffering is off. */
  function Next(p: Post, e: Event): Post {
    match e
    case Send(envelope, a, writes) => Sent(p, envelope, a, writes)
    case Flush(begun, batches, max, world) => if InBackoff(p.retryAfter, begun) then p else Flushed(p, batches, max, world)
  }

  function Run(p: Post, events: seq<Event>): Post
    decreases |events|
  {
    if events == [] then p else Run(Next(p, events[0]), events[1..])
  }

  type Bag = multiset<Option<Bytes>>

  type Slots = seq<Option<Bytes>>

  /**
   What left the SDK's hands, by how, each column in the order it happened. `refused` is what
   storage would not take, or what had no storage to go to.
   */
  datatype Ledger = Ledger(delivered: Slots, rejected: Slots, evicted: Slots, refused: Slots, discarded: Slots)

  const NOTHING: Ledger := Ledger([], [], [], [], [])

  function Sum(a: Ledger, b: Ledger): Ledger {
    Ledger(a.delivered + b.delivered, a.rejected + b.rejected, a.evicted + b.evicted, a.refused + b.refused, a.discarded + b.discarded)
  }

  function Total(l: Ledger): Bag {
    multiset(l.delivered) + multiset(l.rejected) + multiset(l.evicted) + multiset(l.refused) + multiset(l.discarded)
  }

  function Entry(p: Post, e: Event): Ledger {
    match e
    case Send(envelope, a, writes) =>
      var it: Slots := [Some(envelope)];
      var result := Answer(p, a).result;
      if result == OK then NOTHING.(delivered := it)
      else if !WorthRetrying(result) then NOTHING.(rejected := it)
      else
        NOTHING.(evicted := if p.queue != [] && |p.queue| == p.capacity then [p.queue[0]] else [],
                 refused := if p.capacity > 0 && writes then [] else it)
    case Flush(begun, _, max, world) =>
      if InBackoff(p.retryAfter, begun) then NOTHING
      else
        var n := Removed(p, max, world);
        NOTHING.(delivered := Met(p.queue, world, n, Delivered),
                 rejected := Met(p.queue, world, n, Rejected),
                 discarded := Met(p.queue, world, n, Unreadable))
  }

  function Account(p: Post, events: seq<Event>): Ledger
    decreases |events|
  {
    if events == [] then NOTHING else Sum(Entry(p, events[0]), Account(Next(p, events[0]), events[1..]))
  }

  function Arrived(e: Event): Bag {
    if e.Send? then multiset{Some(e.envelope)} else multiset{}
  }

  function Given(events: seq<Event>): Bag {
    if events == [] then multiset{} else Arrived(events[0]) + Given(events[1..])
  }

  lemma {:induction false} MetNext(queue: seq<Option<Bytes>>, world: nat -> Try, n: nat, fate: Fate)
    requires n < |queue|
    ensures multiset(Met(queue, world, n + 1, fate)) ==
      multiset(Met(queue, world, n, fate)) + if FateOf(queue[n], world(n)) == fate then multiset{queue[n]} else multiset{}
  {
  }

  lemma {:induction false} OneMore(d: Bag, r: Bag, u: Bag, it: Bag)
    ensures d + r + u + it == d + it + r + u
    ensures d + r + u + it == d + (r + it) + u
    ensures d + r + u + it == d + r + (u + it)
    ensures d + multiset{} == d && r + multiset{} == r && u + multiset{} == u
  {
  }

  /** Every entry that does not wait met one of the other three fates. */
  lemma {:induction false} FatesPartition(queue: seq<Option<Bytes>>, max: nat, world: nat -> Try, n: nat)
    requires n <= |queue| && forall i :: 0 <= i < n ==> Goes(queue, max, world, i)
    ensures multiset(queue[..n]) ==
      multiset(Met(queue, world, n, Delivered)) + multiset(Met(queue, world, n, Rejected)) + multiset(Met(queue, world, n, Unreadable))
  {
    if n > 0 {
      var last := n - 1;
      assert Goes(queue, max, world, last);
      FatesPartition(queue, max, world, last);
      assert queue[..n] == queue[..last] + [queue[last]];
      MetNext(queue, world, last, Delivered);
      MetNext(queue, world, last, Rejected);
      MetNext(queue, world, last, Unreadable);
      OneMore(multiset(Met(queue, world, last, Delivered)), multiset(Met(queue, world, last, Rejected)),
              multiset(Met(queue, world, last, Unreadable)), multiset{queue[last]});
    }
  }

  lemma {:induction false} StepKeepsSane(p: Post, e: Event)
    requires Sane(p)
    ensures Sane(Next(p, e)) && Next(p, e).capacity == p.capacity
  {
  }

  lemma {:induction false} TakeAndDrop(queue: Slots, n: nat)
    requires n <= |queue|
    ensures multiset(queue) == multiset(queue[..n]) + multiset(queue[n..])
  {
    assert queue == queue[..n] + queue[n..];
  }

  lemma {:induction false} Regroup(left: Bag, d: Bag, r: Bag, u: Bag)
    ensures (d + r + u) + left == left + d + r + u
  {
  }

  lemma {:induction false} FlushConserves(p: Post, max: nat, world: nat -> Try)
    ensures var n := Removed(p, max, world);
      multiset(p.queue) == multiset(p.queue[n..])
      + multiset(Met(p.queue, world, n, Delivered)) + multiset(Met(p.queue, world, n, Rejected)) + multiset(Met(p.queue, world, n, Unreadable))
  {
    var n := Removed(p, max, world);
    FlushStopsExactly(p, max, world, n);
    FatesPartition(p.queue, max, world, n);
    TakeAndDrop(p.queue, n);
    Regroup(multiset(p.queue[n..]), multiset(Met(p.queue, world, n, Delivered)), multiset(Met(p.queue, world, n, Rejected)),
            multiset(Met(p.queue, world, n, Unreadable)));
  }

  lemma {:induction false} Columns(a: Slots, b: Slots)
    ensures Total(NOTHING.(delivered := a)) == multiset(a) && Total(NOTHING.(rejected := a)) == multiset(a)
    ensures Total(NOTHING.(evicted := a, refused := b)) == multiset(a) + multiset(b)
  {
  }

  lemma {:induction false} SendConserves(p: Post, envelope: Bytes, a: Attempt, writes: bool)
    requires Sane(p)
    ensures multiset(Sent(p, envelope, a, writes).queue) + Total(Entry(p, Send(envelope, a, writes))) == multiset(p.queue) + multiset{Some(envelope)}
  {
    var it: Slots := [Some(envelope)];
    Columns(it, it);
    if WorthRetrying(Answer(p, a).result) {
      var evicted: Slots := if p.queue != [] && |p.queue| == p.capacity then [p.queue[0]] else [];
      var refused: Slots := if p.capacity > 0 && writes then [] else it;
      assert Entry(p, Send(envelope, a, writes)) == NOTHING.(evicted := evicted, refused := refused);
      Columns(evicted, refused);
      if p.capacity > 0 {
        KeepConserves(p, envelope, writes);
      }
    }
  }

  lemma {:induction false} KeepConserves(p: Post, envelope: Bytes, writes: bool)
    requires Sane(p) && p.capacity > 0
    ensures var evicted: Bag := if |p.queue| == p.capacity then multiset{p.queue[0]} else multiset{};
      var refused: Bag := if writes then multiset{} else multiset{Some(envelope)};
      multiset(Kept(p, envelope, writes).queue) + evicted + refused == multiset(p.queue) + multiset{Some(envelope)}
  {
    if |p.queue| == p.capacity {
      assert p.queue == [p.queue[0]] + p.queue[1..];
    }
  }

  lemma {:induction false} StepConserves(p: Post, e: Event)
    requires Sane(p)
    ensures multiset(Next(p, e).queue) + Total(Entry(p, e)) == multiset(p.queue) + Arrived(e)
  {
    match e
    case Send(envelope, a, writes) => SendConserves(p, envelope, a, writes);
    case Flush(_, _, max, world) => FlushConserves(p, max, world);
  }

  lemma {:induction false} SumTotal(a: Ledger, b: Ledger)
    ensures Total(Sum(a, b)) == Total(a) + Total(b)
  {
    FiveSums(multiset(a.delivered), multiset(b.delivered), multiset(a.rejected), multiset(b.rejected), multiset(a.evicted),
             multiset(b.evicted), multiset(a.refused), multiset(b.refused), multiset(a.discarded), multiset(b.discarded));
  }

  lemma {:induction false} FiveSums(a: Bag, b: Bag, c: Bag, d: Bag, e: Bag, f: Bag, g: Bag, h: Bag, i: Bag, j: Bag)
    ensures (a + b) + (c + d) + (e + f) + (g + h) + (i + j) == (a + c + e + g + i) + (b + d + f + h + j)
  {
  }

  lemma {:induction false} Balance(first: Bag, middle: Bag, last: Bag, gone: Bag, goneLater: Bag, come: Bag, comeLater: Bag)
    requires middle + gone == first + come && last + goneLater == middle + comeLater
    ensures last + (gone + goneLater) == first + (come + comeLater)
  {
    assert forall x :: middle[x] + gone[x] == (middle + gone)[x] == first[x] + come[x];
    assert forall x :: last[x] + goneLater[x] == (last + goneLater)[x] == middle[x] + comeLater[x];
  }

  /**
   Over every run, whatever transport and storage do: each envelope given to the SDK, and each that
   was waiting, is waiting still or in exactly one column of the ledger.
   */
  lemma {:induction false} Conservation(p: Post, events: seq<Event>)
    requires Sane(p)
    ensures multiset(Run(p, events).queue) + Total(Account(p, events)) == multiset(p.queue) + Given(events)
    decreases |events|
  {
    if events != [] {
      var e, q, rest := events[0], Next(p, events[0]), events[1..];
      StepKeepsSane(p, e);
      StepConserves(p, e);
      Conservation(q, rest);
      SumTotal(Entry(p, e), Account(q, rest));
      Balance(multiset(p.queue), multiset(q.queue), multiset(Run(q, rest).queue),
              Total(Entry(p, e)), Total(Account(q, rest)), Arrived(e), Given(rest));
    }
  }

  function Saturated(n: nat): nat {
    if n <= UINT32_MAX then n else UINT32_MAX
  }

  lemma {:induction false} StepCountsEvictions(p: Post, e: Event)
    requires Sane(p) && p.capacity > 0
    ensures Next(p, e).dropped == Saturated(p.dropped + |Entry(p, e).evicted|)
  {
  }

  /** One step's evictions join the rest's, whatever the step was. */
  lemma {:induction false} CountsJoin(before: nat, first: Ledger, between: nat, rest: Ledger, after: nat)
    requires between == Saturated(before + |first.evicted|) && after == Saturated(between + |rest.evicted|)
    ensures after == Saturated(before + |Sum(first, rest).evicted|)
  {
  }

  ghost predicate DroppedCounts(p: Post, events: seq<Event>) {
    Run(p, events).dropped == Saturated(p.dropped + |Account(p, events).evicted|)
  }

  lemma {:induction false} DroppedOnce(p: Post, events: seq<Event>)
    requires Sane(p) && p.capacity > 0 && events != [] && DroppedCounts(Next(p, events[0]), events[1..])
    ensures DroppedCounts(p, events)
  {
    var e, q, rest := events[0], Next(p, events[0]), events[1..];
    StepCountsEvictions(p, e);
    CountsJoin(p.dropped, Entry(p, e), q.dropped, Account(q, rest), Run(q, rest).dropped);
  }

  /** With buffering on, the dropped counter counts evictions, until it can go no higher. */
  lemma {:induction false} DroppedCountsEvictions(p: Post, events: seq<Event>)
    requires Sane(p) && p.capacity > 0
    ensures DroppedCounts(p, events)
    decreases |events|
  {
    if events != [] {
      StepKeepsSane(p, events[0]);
      DroppedCountsEvictions(Next(p, events[0]), events[1..]);
      DroppedOnce(p, events);
    }
  }

  /** The sends that storage took, in order. */
  function Stored(p: Post, events: seq<Event>): seq<Option<Bytes>>
    decreases |events|
  {
    if events == [] then []
    else
      var e := events[0];
      (if e.Send? && p.capacity > 0 && e.writes && WorthRetrying(Answer(p, e.attempt).result) then [Some(e.envelope)] else [])
      + Stored(Next(p, e), events[1..])
  }

  /** Envelopes leave in the order they came: what waits is always a final stretch of all that ever waited. */
  lemma {:induction false} FirstInFirstOut(p: Post, events: seq<Event>) returns (left: nat)
    requires Sane(p)
    ensures left <= |p.queue| + |Stored(p, events)|
    ensures Run(p, events).queue == (p.queue + Stored(p, events))[left..]
    decreases |events|
  {
    if events == [] {
      left := 0;
      assert p.queue + [] == p.queue;
    } else {
      var e, q := events[0], Next(p, events[0]);
      StepKeepsSane(p, e);
      var first := StepIsFirstInFirstOut(p, e);
      var rest := FirstInFirstOut(q, events[1..]);
      left := first + rest;
      Suffixes(p.queue, Stored(p, [e]), Stored(q, events[1..]), first, rest);
      assert Stored(p, [e]) + Stored(q, events[1..]) == Stored(p, events);
    }
  }

  lemma {:induction false} StepIsFirstInFirstOut(p: Post, e: Event) returns (left: nat)
    requires Sane(p)
    ensures left <= |p.queue| && Next(p, e).queue == p.queue[left..] + Stored(p, [e])
  {
    assert [e][1..] == [];
    match e
    case Send(envelope, a, writes) =>
      left := if p.capacity > 0 && |p.queue| == p.capacity && WorthRetrying(Answer(p, a).result) then 1 else 0;
    case Flush(begun, _, max, world) =>
      left := if InBackoff(p.retryAfter, begun) then 0 else Removed(p, max, world);
  }

  lemma {:induction false} Suffixes<T>(q: seq<T>, a: seq<T>, b: seq<T>, first: nat, rest: nat)
    requires first <= |q| && rest <= |q[first..] + a| + |b|
    ensures (q[first..] + a + b)[rest..] == (q + (a + b))[first + rest..]
  {
    assert q[first..] + a + b == (q + (a + b))[first..];
  }

  // ---- Backing off, over runs

  /** The transport calls one event makes. */
  function Calls(p: Post, e: Event): seq<Attempt> {
    match e
    case Send(_, a, _) => if InBackoff(p.retryAfter, a.begun) then [] else [a]
    case Flush(begun, batches, max, world) =>
      if InBackoff(p.retryAfter, begun) then [] else batches + Attempts(p.queue, world, Tried(p, max, world))
  }

  function AllCalls(p: Post, events: seq<Event>): seq<Attempt>
    decreases |events|
  {
    if events == [] then [] else Calls(p, events[0]) + AllCalls(Next(p, events[0]), events[1..])
  }

  function Begun(e: Event): nat {
    if e.Send? then e.attempt.begun else e.begun
  }

  /** Until the uptime a server named, no run of sends and flushes calls the transport, and the deadline stands. */
  lemma {:induction false} SilentWhileBackingOff(p: Post, events: seq<Event>)
    requires p.retryAfter > 0 && forall i :: 0 <= i < |events| ==> Begun(events[i]) < p.retryAfter
    ensures AllCalls(p, events) == [] && Run(p, events).retryAfter == p.retryAfter
    decreases |events|
  {
    if events != [] {
      SilentWhileBackingOff(Next(p, events[0]), events[1..]);
    }
  }

  lemma {:induction false} AfterAllAppend(retryAfter: nat, a: seq<Attempt>, b: seq<Attempt>)
    ensures AfterAll(retryAfter, a + b) == AfterAll(AfterAll(retryAfter, a), b)
    decreases |b|
  {
    if b == [] {
      assert a + b == a;
    } else {
      var last := |b| - 1;
      assert (a + b)[..|a + b| - 1] == a + b[..last];
      AfterAllAppend(retryAfter, a, b[..last]);
    }
  }

  /** The deadline is always the one the last answer to name one named, over every run. */
  lemma {:induction false} DeadlineIsTheLastNamed(p: Post, events: seq<Event>)
    ensures Run(p, events).retryAfter == AfterAll(p.retryAfter, AllCalls(p, events))
    decreases |events|
  {
    if events != [] {
      var e := events[0];
      if Calls(p, e) != [] && e.Send? {
        assert [e.attempt][..0] == [];
      }
      assert Next(p, e).retryAfter == AfterAll(p.retryAfter, Calls(p, e));
      DeadlineIsTheLastNamed(Next(p, e), events[1..]);
      AfterAllAppend(p.retryAfter, Calls(p, e), AllCalls(Next(p, e), events[1..]));
    }
  }

  /** No call begins before the deadline the calls before it left. */
  predicate Respects(retryAfter: nat, attempts: seq<Attempt>)
    decreases |attempts|
  {
    attempts == [] || (!InBackoff(retryAfter, attempts[0].begun) && Respects(After(retryAfter, attempts[0]), attempts[1..]))
  }

  predicate Readable(slot: Option<Bytes>) {
    ReadAs(slot, ENVELOPE_BUFFER_BYTES, true) != None
  }

  function CountReadable(queue: seq<Option<Bytes>>): (n: nat)
    ensures n <= |queue|
  {
    if queue == [] then 0
    else CountReadable(queue[..|queue| - 1]) + if Readable(queue[|queue| - 1]) then 1 else 0
  }

  /** What a flush may come to send: its batches, and every readable envelope unless asked for none. */
  function MaySend(p: Post, batches: nat, max: nat): nat {
    batches + if max == 0 then 0 else CountReadable(p.queue)
  }

  lemma {:induction false} CountReadablePrefix(queue: seq<Option<Bytes>>, n: nat)
    requires n <= |queue|
    ensures CountReadable(queue[..n]) <= CountReadable(queue)
    decreases |queue|
  {
    if n == |queue| {
      assert queue[..n] == queue;
    } else {
      assert queue[..|queue| - 1][..n] == queue[..n];
      CountReadablePrefix(queue[..|queue| - 1], n);
    }
  }

  lemma {:induction false} OnlyReadableIsTried(queue: seq<Option<Bytes>>, world: nat -> Try, n: nat)
    requires n <= |queue|
    ensures |Attempts(queue, world, n)| <= CountReadable(queue[..n])
  {
    if n > 0 {
      assert queue[..n][..n - 1] == queue[..n - 1];
      OnlyReadableIsTried(queue, world, n - 1);
    }
  }

  lemma {:induction false} CallsAreBounded(p: Post, begun: nat, batches: seq<Attempt>, max: nat, world: nat -> Try)
    ensures |Calls(p, Flush(begun, batches, max, world))| <= MaySend(p, |batches|, max)
  {
    var n := Tried(p, max, world);
    OnlyReadableIsTried(p.queue, world, n);
    CountReadablePrefix(p.queue, n);
  }

  /** Time does not run back, and a call ends no earlier than it began. */
  predicate Timely(now: nat, attempts: seq<Attempt>)
    decreases |attempts|
  {
    attempts == [] || (now <= attempts[0].begun <= attempts[0].ended && Timely(attempts[0].ended, attempts[1..]))
  }

  /** Every call is answered at once, with a refusal that names a deadline. */
  function Refusal(now: nat): Attempt {
    Attempt(now, Response(REJECTED, 400, 1), now)
  }

  lemma {:induction false} RefusedThroughout(queue: seq<Option<Bytes>>, world: nat -> Try, it: Attempt, max: nat, n: nat)
    requires n <= |queue| && max > 0 && it.response.result == REJECTED && forall i :: world(i) == Try(true, it, FAIR)
    ensures Met(queue, world, n, Delivered) == []
    ensures StopsAt(queue, max, world, |queue|)
    ensures |Attempts(queue, world, n)| == CountReadable(queue[..n])
    ensures forall i :: 0 <= i < |Attempts(queue, world, n)| ==> Attempts(queue, world, n)[i] == it
  {
    NoneDelivered(queue, world, it, |queue|);
    if n > 0 {
      assert queue[..n][..n - 1] == queue[..n - 1];
      RefusedThroughout(queue, world, it, max, n - 1);
    }
  }

  lemma {:induction false} NoneDelivered(queue: seq<Option<Bytes>>, world: nat -> Try, it: Attempt, n: nat)
    requires n <= |queue| && it.response.result == REJECTED && forall i :: world(i) == Try(true, it, FAIR)
    ensures forall i :: 0 <= i <= n ==> Met(queue, world, i, Delivered) == []
  {
    if n > 0 {
      NoneDelivered(queue, world, it, n - 1);
    }
  }

  lemma {:induction false} RepeatedIsTimely(now: nat, attempts: seq<Attempt>)
    requires forall i :: 0 <= i < |attempts| ==> attempts[i] == Refusal(now)
    ensures Timely(now, attempts)
    decreases |attempts|
  {
    if attempts != [] {
      RepeatedIsTimely(now, attempts[1..]);
    }
  }

  /** With two things to send, there is a server whose deadline the same flush walks past. */
  lemma {:induction false} DeadlineWalkedPast(p: Post, begun: nat, n: nat, max: nat) returns (batches: seq<Attempt>, world: nat -> Try)
    requires !InBackoff(p.retryAfter, begun) && begun + 1 < UINT64_MODULUS && MaySend(p, n, max) > 1
    ensures var calls := Calls(p, Flush(begun, batches, max, world));
      |batches| == n && Timely(begun, calls) && !Respects(p.retryAfter, calls)
  {
    var it := Refusal(begun);
    batches, world := seq(n, _ => it), _ => Try(true, it, FAIR);
    var calls := Calls(p, Flush(begun, batches, max, world));
    if max > 0 {
      RefusedThroughout(p.queue, world, it, max, |p.queue|);
      FlushStopsExactly(p, max, world, |p.queue|);
      assert p.queue[..|p.queue|] == p.queue;
    } else {
      assert Attempts(p.queue, world, Tried(p, max, world)) == [];
    }
    assert forall i :: 0 <= i < |calls| ==> calls[i] == it;
    RepeatedIsTimely(begun, calls);
    assert (begun + 1) % UINT64_MODULUS == begun + 1;
    assert calls[1..][0] == it;
  }

  /**
   A deadline learned in the middle of a flush is not looked at again before the flush ends. So a
   flush is sure to respect every deadline exactly when it has at most one thing to send.
   */
  lemma {:induction false} HonouredWithinFlushIff(p: Post, begun: nat, n: nat, max: nat)
    requires !InBackoff(p.retryAfter, begun) && begun + 1 < UINT64_MODULUS
    ensures (forall batches: seq<Attempt>, world: nat -> Try ::
              |batches| == n && Timely(begun, Calls(p, Flush(begun, batches, max, world)))
              ==> Respects(p.retryAfter, Calls(p, Flush(begun, batches, max, world))))
      <==> MaySend(p, n, max) <= 1
  {
    if MaySend(p, n, max) > 1 {
      var batches, world := DeadlineWalkedPast(p, begun, n, max);
      assert |batches| == n && Timely(begun, Calls(p, Flush(begun, batches, max, world)));
    } else {
      forall batches: seq<Attempt>, world: nat -> Try |
        |batches| == n && Timely(begun, Calls(p, Flush(begun, batches, max, world)))
        ensures Respects(p.retryAfter, Calls(p, Flush(begun, batches, max, world)))
      {
        CallsAreBounded(p, begun, batches, max, world);
      }
    }
  }

  /** Where an answer to be tried again is the only kind that names a deadline, the loop ends on it. */
  lemma {:induction false} LimitEndsTheLoop(p: Post, max: nat, world: nat -> Try, n: nat)
    requires n <= Removed(p, max, world)
    requires forall i: nat :: world(i).attempt.response.retryAfterMs > 0 ==> WorthRetrying(world(i).attempt.response.result)
    ensures AfterAll(p.retryAfter, Attempts(p.queue, world, n)) == p.retryAfter
  {
    if n > 0 {
      FlushStopsExactly(p, max, world, Removed(p, max, world));
      assert Goes(p.queue, max, world, n - 1);
      LimitEndsTheLoop(p, max, world, n - 1);
      var before := Attempts(p.queue, world, n - 1);
      assert before + [] == before;
      assert (before + [world(n - 1).attempt])[..|before|] == before;
    }
  }
}
