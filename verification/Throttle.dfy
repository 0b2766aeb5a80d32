/**
 The client-side throttle for captured messages: one rule against repeats, one against volume.

 `Throttle` is the struct the SDK updates in place. What it promises is proved about runs:
 sequences of captures and settles under a clock that never goes back.
 */
module Throttle {
  import opened Prelude
  import Bits

  const WINDOW_MS: nat := 60000

  /** A message as the digest sees it. */
  type Octets = seq<bv8>

  type Millis = x: int | 0 <= x < UINT64_MODULUS

  /** C's unsigned 64-bit subtraction. */
  function Elapsed(now: Millis, since: Millis): Millis {
    if now >= since then now - since else now - since + UINT64_MODULUS
  }

  /** A left fold over the octets of a text. */
  function Fold(step: (bv32, bv8) -> bv32, hash: bv32, text: Octets): bv32
    decreases |text|
  {
    if text == [] then hash else Fold(step, step(hash, text[0]), text[1..])
  }

  method FoldLoop(step: (bv32, bv8) -> bv32, seed: bv32, text: Octets) returns (hash: bv32)
    ensures hash == Fold(step, seed, text)
  {
    hash := seed;
    for i := 0 to |text|
      invariant Fold(step, hash, text[i..]) == Fold(step, seed, text)
    {
      assert text[i..][1..] == text[i + 1..];
      hash := step(hash, text[i]);
    }
    assert text[|text|..] == [];
  }

  /** FNV-1a over the level and the message text. */
  function Digest(level: bv8, text: Octets): bv32 {
    Fold(Bits.Step, Bits.Step(2166136261, level), text)
  }

  // ---- What a digest tells apart

  lemma {:induction false} FoldApart(h: bv32, g: bv32, text: Octets)
    requires h != g
    ensures Fold(Bits.Step, h, text) != Fold(Bits.Step, g, text)
    decreases |text|
  {
    if text != [] {
      Bits.StepApartByHash(h, g, text[0]);
      FoldApart(Bits.Step(h, text[0]), Bits.Step(g, text[0]), text[1..]);
    }
  }

  lemma {:induction false} FoldAppend(h: bv32, a: Octets, b: Octets)
    ensures Fold(Bits.Step, h, a + b) == Fold(Bits.Step, Fold(Bits.Step, h, a), b)
    decreases |a|
  {
    if a == [] {
      assert a + b == b;
    } else {
      assert (a + b)[1..] == a[1..] + b;
      FoldAppend(Bits.Step(h, a[0]), a[1..], b);
    }
  }

  /** At one level, two texts that differ in exactly one octet have different digests. */
  lemma {:induction false} OneOctetTellsApart(level: bv8, a: Octets, b: Octets, k: nat)
    requires |a| == |b| && k < |a| && a[k] != b[k] && forall i :: 0 <= i < |a| && i != k ==> a[i] == b[i]
    ensures Digest(level, a) != Digest(level, b)
  {
    var seed, before, after := Bits.Step(2166136261, level), a[..k], a[k + 1..];
    assert a == before + ([a[k]] + after) && b == before + ([b[k]] + after);
    FoldAppend(seed, before, [a[k]] + after);
    FoldAppend(seed, before, [b[k]] + after);
    var h := Fold(Bits.Step, seed, before);
    assert ([a[k]] + after)[1..] == after && ([b[k]] + after)[1..] == after;
    Bits.StepApartByOctet(h, a[k], b[k]);
    FoldApart(Bits.Step(h, a[k]), Bits.Step(h, b[k]), after);
  }

  /** One text at two levels has two digests. */
  lemma {:induction false} LevelTellsApart(level: bv8, other: bv8, text: Octets)
    requires level != other
    ensures Digest(level, text) != Digest(other, text)
  {
    Bits.StepApartByOctet(2166136261, level, other);
    FoldApart(Bits.Step(2166136261, level), Bits.Step(2166136261, other), text);
  }

  /** The struct as a value. */
  datatype State = State(
    maxPerMinute: nat, repeatWindowMs: nat,
    windowStart: Millis, sent: nat,
    hasLast: bool, lastDigest: bv32, lastMs: Millis,
    suppressed: nat)

  function Fresh(maxPerMinute: nat, repeatWindowMs: nat): State {
    State(maxPerMinute, repeatWindowMs, 0, 0, false, 0, 0, 0)
  }

  predicate IsRepeat(t: State, digest: bv32, now: Millis) {
    t.repeatWindowMs > 0 && t.hasLast && digest == t.lastDigest && Elapsed(now, t.lastMs) < t.repeatWindowMs
  }

  /** A capture opens a new window once the old one is a minute old. */
  predicate Rolls(t: State, now: Millis) {
    Elapsed(now, t.windowStart) >= WINDOW_MS
  }

  predicate Allows(t: State, digest: bv32, now: Millis) {
    !IsRepeat(t, digest, now) && (t.maxPerMinute > 0 ==> Rolls(t, now) || t.sent < t.maxPerMinute)
  }

  datatype Event = Capture(digest: bv32, now: Millis) | Settle(now: Millis)

  function Next(t: State, e: Event): State {
    match e
    case Settle(now) => if t.hasLast then t.(lastMs := now) else t
    case Capture(digest, now) =>
      if !Allows(t, digest, now) then t.(suppressed := (t.suppressed + 1) % UINT32_MODULUS)
      else
        var counted :=
          if t.maxPerMinute == 0 then t
          else if Rolls(t, now) then t.(windowStart := now, sent := 1)
          else t.(sent := t.sent + 1);
        counted.(lastDigest := digest, lastMs := now, hasLast := true)
  }

  predicate IsAllowed(t: State, e: Event) {
    e.Capture? && Allows(t, e.digest, e.now)
  }

  class Limiter {
    var maxPerMinute: nat
    var repeatWindowMs: nat
    var windowStart: Millis
    var sent: nat
    var hasLast: bool
    var lastDigest: bv32
    var lastMs: Millis
    var suppressed: nat

    ghost function View(): State
      reads this
    {
      State(maxPerMinute, repeatWindowMs, windowStart, sent, hasLast, lastDigest, lastMs, suppressed)
    }

    constructor (maxPerMinute: nat, repeatWindowMs: nat)
      ensures View() == Fresh(maxPerMinute, repeatWindowMs)
    {
      this.maxPerMinute, this.repeatWindowMs := maxPerMinute, repeatWindowMs;
      windowStart, sent, hasLast, lastDigest, lastMs, suppressed := 0, 0, false, 0, 0, 0;
    }

    /** Decides, and spends the budget if the answer is yes. A missing message reads as empty. */
    method Allow(level: bv8, message: Option<Octets>, now: Millis) returns (allowed: bool)
      requires suppressed < UINT32_MODULUS
      modifies this
      ensures var e := Capture(Digest(level, if message.Some? then message.value else []), now);
        allowed == IsAllowed(old(View()), e) && View() == Next(old(View()), e)
    {
      var digest := FoldLoop(Bits.Step, Bits.Step(2166136261, level), if message.Some? then message.value else []);
      allowed := Decide(digest, now);
    }

    method Decide(digest: bv32, now: Millis) returns (allowed: bool)
      requires suppressed < UINT32_MODULUS
      modifies this
      ensures allowed == IsAllowed(old(View()), Capture(digest, now))
      ensures View() == Next(old(View()), Capture(digest, now))
    {
      if repeatWindowMs > 0 && hasLast && digest == lastDigest && Elapsed(now, lastMs) < repeatWindowMs {
        suppressed := (suppressed + 1) % UINT32_MODULUS;
        return false;
      }
      if maxPerMinute > 0 {
        if Elapsed(now, windowStart) >= WINDOW_MS {
          windowStart := now;
          sent := 0;
        }
        if sent >= maxPerMinute {
          suppressed := (suppressed + 1) % UINT32_MODULUS;
          return false;
        }
        sent := sent + 1;
      }
      lastDigest := digest;
      lastMs := now;
      hasLast := true;
      return true;
    }

    method SettleAt(now: Millis)
      modifies this
      ensures View() == Next(old(View()), Settle(now))
    {
      if hasLast {
        lastMs := now;
      }
    }
  }

  // ---- Runs

  /** Event times never decrease, starting from `start`. */
  predicate Ticks(events: seq<Event>, start: Millis)
    decreases |events|
  {
    events == [] || (start <= events[0].now && Ticks(events[1..], events[0].now))
  }

  function Run(t: State, events: seq<Event>): State
    decreases |events|
  {
    if events == [] then t else Run(Next(t, events[0]), events[1..])
  }

  function Decisions(t: State, events: seq<Event>): seq<bool>
    decreases |events|
  {
    if events == [] then [] else [IsAllowed(t, events[0])] + Decisions(Next(t, events[0]), events[1..])
  }

  /** How many captures are let through at times in from..until, `until` excluded. */
  function AllowedIn(t: State, events: seq<Event>, from: int, until: int): nat
    decreases |events|
  {
    if events == [] then 0
    else
      (if IsAllowed(t, events[0]) && from <= events[0].now < until then 1 else 0)
      + AllowedIn(Next(t, events[0]), events[1..], from, until)
  }

  /** ... in the half-open minute that starts at `from`. */
  function AllowedInMinute(t: State, events: seq<Event>, from: int): nat {
    AllowedIn(t, events, from, from + WINDOW_MS)
  }

  /** The window has begun and is within budget. */
  predicate Sane(t: State, now: Millis) {
    0 < t.maxPerMinute && t.sent <= t.maxPerMinute && t.windowStart <= now
  }

  /** Until the current window is a minute old, only what is left of its budget gets through. */
  lemma {:induction false} WithinWindow(t: State, events: seq<Event>, now: Millis, from: int, until: int)
    requires Sane(t, now) && Ticks(events, now) && until <= t.windowStart + WINDOW_MS
    ensures AllowedIn(t, events, from, until) <= t.maxPerMinute - t.sent
    decreases |events|
  {
    if events != [] {
      var e := events[0];
      if e.now < until {
        WithinWindow(Next(t, e), events[1..], e.now, from, until);
      } else {
        NoneTooLate(Next(t, e), events[1..], e.now, from, until);
      }
    }
  }

  lemma {:induction false} NoneTooLate(t: State, events: seq<Event>, now: Millis, from: int, until: int)
    requires Ticks(events, now) && until <= now
    ensures AllowedIn(t, events, from, until) == 0
    decreases |events|
  {
    if events != [] {
      NoneTooLate(Next(t, events[0]), events[1..], events[0].now, from, until);
    }
  }

  /** From any moment on, a minute holds the rest of this window's budget and one more at most. */
  lemma {:induction false} WithinMinute(t: State, events: seq<Event>, now: Millis, from: int, until: int)
    requires Sane(t, now) && Ticks(events, now) && until <= now + WINDOW_MS
    ensures AllowedIn(t, events, from, until) <= 2 * t.maxPerMinute - t.sent
    decreases |events|
  {
    if events != [] {
      var e := events[0];
      if IsAllowed(t, e) && Rolls(t, e.now) {
        WithinWindow(Next(t, e), events[1..], e.now, from, until);
      } else {
        WithinMinute(Next(t, e), events[1..], e.now, from, until);
      }
    }
  }

  lemma {:induction false} AnyMinute(t: State, events: seq<Event>, now: Millis, from: int)
    requires Sane(t, now) && Ticks(events, now)
    ensures AllowedInMinute(t, events, from) <= 2 * t.maxPerMinute
    decreases |events|
  {
    if events != [] {
      var e := events[0];
      if e.now < from {
        AnyMinute(Next(t, e), events[1..], e.now, from);
      } else {
        WithinMinute(t, events, e.now, from, from + WINDOW_MS);
      }
    }
  }

  /** Each fixed window, once it has opened at a capture, lets at most the budget through. */
  lemma {:induction false} FixedWindowBound(t: State, first: Event, events: seq<Event>, now: Millis)
    requires Sane(t, now) && Ticks([first] + events, now)
    requires IsAllowed(t, first) && Rolls(t, first.now)
    ensures AllowedIn(t, [first] + events, first.now, first.now + WINDOW_MS) <= t.maxPerMinute
  {
    assert ([first] + events)[1..] == events;
    WithinWindow(Next(t, first), events, first.now, first.now, first.now + WINDOW_MS);
  }

  // ---- Twice the budget is reached, so it is the exact bound

  function Alternating(k: nat, parity: bool, now: Millis): seq<Event>
  {
    if k == 0 then [] else [Capture(if parity then 1 else 0, now)] + Alternating(k - 1, !parity, now)
  }

  function Burst(t: State, k: nat, parity: bool, now: Millis): State {
    if k == 0 then t
    else t.(sent := t.sent + k, hasLast := true, lastMs := now, lastDigest := if parity == (k % 2 == 1) then 1 else 0)
  }

  lemma {:induction false} OnePasses(t: State, parity: bool, now: Millis)
    requires Sane(t, now) && t.sent < t.maxPerMinute && !Rolls(t, now)
    requires t.hasLast ==> t.lastDigest == (if parity then 0 else 1)
    ensures var e := Capture(if parity then 1 else 0, now); IsAllowed(t, e) && Next(t, e) == Burst(t, 1, parity, now)
  {
  }

  lemma {:induction false} BurstJoins(t: State, k: nat, parity: bool, now: Millis)
    requires k > 0
    ensures Burst(Burst(t, 1, parity, now), k - 1, !parity, now) == Burst(t, k, parity, now)
  {
  }

  lemma {:induction false} BurstPasses(t: State, k: nat, parity: bool, now: Millis, rest: seq<Event>, from: int, until: int)
    requires Sane(t, now) && t.sent + k <= t.maxPerMinute && !Rolls(t, now) && from <= now < until
    requires t.hasLast ==> t.lastDigest == (if parity then 0 else 1)
    ensures AllowedIn(t, Alternating(k, parity, now) + rest, from, until) == k + AllowedIn(Burst(t, k, parity, now), rest, from, until)
    decreases k
  {
    var events := Alternating(k, parity, now);
    if k == 0 {
      assert events + rest == rest;
    } else {
      var u := Burst(t, 1, parity, now);
      OnePasses(t, parity, now);
      BurstJoins(t, k, parity, now);
      assert (events + rest)[1..] == Alternating(k - 1, !parity, now) + rest;
      BurstPasses(u, k - 1, !parity, now, rest, from, until);
    }
  }

  lemma {:induction false} AlternatingTicks(k: nat, parity: bool, now: Millis, rest: seq<Event>, start: Millis)
    requires start <= now && Ticks(rest, now)
    ensures Ticks(Alternating(k, parity, now) + rest, start)
    decreases k
  {
    var events := Alternating(k, parity, now);
    if k == 0 {
      assert events + rest == rest;
      assert rest == [] || rest[0].now >= start;
    } else {
      assert (events + rest)[1..] == Alternating(k - 1, !parity, now) + rest;
      AlternatingTicks(k - 1, !parity, now, rest, now);
    }
  }

  /**
   In a half-open minute of any run at most twice the budget gets through, and nothing smaller
   is a bound for every run. In particular the budget itself is not.
   */
  lemma {:induction false} TwiceTheBudgetIsExact(maxPerMinute: nat, repeatWindowMs: nat, bound: nat)
    requires maxPerMinute > 0
    ensures
      (forall events, from :: Ticks(events, 0) ==>
        AllowedInMinute(Fresh(maxPerMinute, repeatWindowMs), events, from) <= bound)
      <==> 2 * maxPerMinute <= bound
  {
    var t := Fresh(maxPerMinute, repeatWindowMs);
    forall events, from | 2 * maxPerMinute <= bound && Ticks(events, 0)
      ensures AllowedInMinute(t, events, from) <= bound
    {
      AnyMinute(t, events, 0, from);
    }
    if bound < 2 * maxPerMinute {
      var from: Millis, until := 59999, 59999 + WINDOW_MS;
      var parity := maxPerMinute % 2 == 0;
      var late := Alternating(maxPerMinute, parity, 60000);
      var events := Alternating(maxPerMinute, true, 59999) + late;
      assert late + [] == late;
      AlternatingTicks(maxPerMinute, parity, 60000, [], 59999);
      AlternatingTicks(maxPerMinute, true, 59999, late, 0);
      BurstPasses(t, maxPerMinute, true, 59999, late, from, until);
      LateBurst(Burst(t, maxPerMinute, true, 59999), parity, from, until);
      assert AllowedInMinute(t, events, from) == 2 * maxPerMinute;
    }
  }

  lemma {:induction false} LateBurst(t: State, parity: bool, from: int, until: int)
    requires Sane(t, 59999) && t.windowStart == 0 && t.hasLast && t.lastDigest == (if parity then 0 else 1)
    requires from <= 60000 < until
    ensures AllowedIn(t, Alternating(t.maxPerMinute, parity, 60000), from, until) == t.maxPerMinute
  {
    var events := Alternating(t.maxPerMinute, parity, 60000);
    var rest := Alternating(t.maxPerMinute - 1, !parity, 60000);
    assert events[1..] == rest && rest + [] == rest;
    BurstPasses(Next(t, events[0]), t.maxPerMinute - 1, !parity, 60000, [], from, until);
  }

  // ---- Repeats

  /** A refused capture, whichever rule refused it, leaves every later decision as it was. */
  lemma {:induction false} RefusedIsInvisible(t: State, refused: Event, rest: seq<Event>)
    requires refused.Capture? && !IsAllowed(t, refused)
    ensures Decisions(t, [refused] + rest) == [false] + Decisions(t, rest)
  {
    assert ([refused] + rest)[1..] == rest;
    CounterIsInert(t, Next(t, refused), rest);
  }

  lemma {:induction false} InertStep(t: State, u: State, e: Event)
    requires u == t.(suppressed := u.suppressed)
    ensures IsAllowed(t, e) == IsAllowed(u, e)
    ensures Next(u, e) == Next(t, e).(suppressed := Next(u, e).suppressed)
  {
  }

  lemma {:induction false} CounterIsInert(t: State, u: State, events: seq<Event>)
    requires u == t.(suppressed := u.suppressed)
    ensures Decisions(t, events) == Decisions(u, events)
    ensures Run(u, events) == Run(t, events).(suppressed := Run(u, events).suppressed)
    decreases |events|
  {
    if events != [] {
      InertStep(t, u, events[0]);
      CounterIsInert(Next(t, events[0]), Next(u, events[0]), events[1..]);
    }
  }

  function Refusals(t: State, events: seq<Event>): nat
    decreases |events|
  {
    if events == [] then 0
    else (if events[0].Capture? && !IsAllowed(t, events[0]) then 1 else 0) + Refusals(Next(t, events[0]), events[1..])
  }

  lemma {:induction false} ModAdds(a: nat, b: nat)
    ensures (a % UINT32_MODULUS + b) % UINT32_MODULUS == (a + b) % UINT32_MODULUS
  {
  }

  /** The public counter is the number of refusals, in 32 bits. */
  lemma {:induction false} SuppressedCountsRefusals(t: State, events: seq<Event>)
    requires t.suppressed < UINT32_MODULUS
    ensures Run(t, events).suppressed == (t.suppressed + Refusals(t, events)) % UINT32_MODULUS
    decreases |events|
  {
    if events != [] {
      var u := Next(t, events[0]);
      SuppressedCountsRefusals(u, events[1..]);
      if u.suppressed != t.suppressed {
        ModAdds(t.suppressed + 1, Refusals(u, events[1..]));
      }
    }
  }

  /** The digest of the last capture a run lets through, or `before` if it lets none through. */
  function LastAllowed(t: State, events: seq<Event>, before: bv32): bv32
    decreases |events|
  {
    if events == [] then before
    else LastAllowed(Next(t, events[0]), events[1..], if IsAllowed(t, events[0]) then events[0].digest else before)
  }

  predicate NoneAllowed(t: State, events: seq<Event>)
    decreases |events|
  {
    events == [] || (!IsAllowed(t, events[0]) && NoneAllowed(Next(t, events[0]), events[1..]))
  }

  /** No settle of the run is later than this. */
  predicate SettledBy(events: seq<Event>, mark: Millis) {
    forall i :: 0 <= i < |events| && events[i].Settle? ==> events[i].now <= mark
  }

  function End(events: seq<Event>, now: Millis): Millis {
    if events == [] then now else events[|events| - 1].now
  }

  /** What the mark remembers: the last allowed digest, and no time before it was allowed or settled. */
  lemma {:induction false} MarkTracks(t: State, events: seq<Event>, now: Millis)
    requires t.hasLast && t.lastMs <= now && Ticks(events, now)
    ensures var u := Run(t, events);
      && u.hasLast && u.repeatWindowMs == t.repeatWindowMs && u.lastDigest == LastAllowed(t, events, t.lastDigest)
      && t.lastMs <= u.lastMs <= End(events, now) && SettledBy(events, u.lastMs)
    decreases |events|
  {
    if events != [] {
      MarkTracks(Next(t, events[0]), events[1..], events[0].now);
      assert forall i :: 1 <= i < |events| ==> events[i] == events[1..][i - 1];
    }
  }

  /** What the volume rule alone would say. */
  predicate WithinBudget(t: State, now: Millis) {
    t.maxPerMinute > 0 ==> Rolls(t, now) || t.sent < t.maxPerMinute
  }

  /**
   Within the repeat window of an allowed capture, over whatever is captured and settled between, the
   same digest is allowed again if and only if the last allowed capture had another digest and the
   volume rule agrees. The rule is about the last message, not about each message.
   */
  lemma {:induction false} RepeatWithinWindowIff(t: State, digest: bv32, first: Millis, between: seq<Event>, second: Millis)
    requires Allows(t, digest, first) && Ticks(between, first) && End(between, first) <= second
    requires second - first < t.repeatWindowMs
    ensures var u := Next(t, Capture(digest, first));
      var v := Run(u, between);
      Allows(v, digest, second) <==> LastAllowed(u, between, digest) != digest && WithinBudget(v, second)
  {
    MarkTracks(Next(t, Capture(digest, first)), between, first);
  }

  /** A message, another one, and the first again: all three get through within any repeat window that long. */
  lemma {:induction false} AnotherBetweenResets(maxPerMinute: nat, repeatWindowMs: nat, a: bv32, b: bv32)
    requires a != b && repeatWindowMs > 2 && (maxPerMinute == 0 || maxPerMinute >= 3)
    ensures Decisions(Fresh(maxPerMinute, repeatWindowMs), [Capture(a, 0), Capture(b, 1), Capture(a, 2)]) == [true, true, true]
  {
    var t := Fresh(maxPerMinute, repeatWindowMs);
    var first, second, third := Capture(a, 0), Capture(b, 1), Capture(a, 2);
    assert [first, second, third][1..] == [second, third] && [second, third][1..] == [third] && [third][1..] == [];
    var u := Next(t, first);
    var v := Next(u, second);
    assert Decisions(v, [third]) == [true] + Decisions(Next(v, third), []);
    assert Decisions(u, [second, third]) == [true] + [true];
  }

  /** A capture that is no repeat passes whenever the budget allows, however soon after another it comes. */
  lemma {:induction false} DifferentDigestsBothPass(t: State, a: bv32, b: bv32, first: Millis, second: Millis)
    requires a != b && Allows(t, a, first)
    ensures var u := Next(t, Capture(a, first)); Allows(u, b, second) <==> WithinBudget(u, second)
  {
  }

  /** So do two messages of one level that differ in an octet, and one message at two levels. */
  lemma {:induction false} DifferentMessagesBothPass(t: State, level: bv8, a: Octets, b: Octets, k: nat, first: Millis, second: Millis)
    requires |a| == |b| && k < |a| && a[k] != b[k] && forall i :: 0 <= i < |a| && i != k ==> a[i] == b[i]
    requires Allows(t, Digest(level, a), first)
    ensures var u := Next(t, Capture(Digest(level, a), first)); Allows(u, Digest(level, b), second) <==> WithinBudget(u, second)
  {
    OneOctetTellsApart(level, a, b, k);
    DifferentDigestsBothPass(t, Digest(level, a), Digest(level, b), first, second);
  }

  lemma {:induction false} DifferentLevelsBothPass(t: State, level: bv8, other: bv8, text: Octets, first: Millis, second: Millis)
    requires level != other && Allows(t, Digest(level, text), first)
    ensures var u := Next(t, Capture(Digest(level, text), first)); Allows(u, Digest(other, text), second) <==> WithinBudget(u, second)
  {
    LevelTellsApart(level, other, text);
    DifferentDigestsBothPass(t, Digest(level, text), Digest(other, text), first, second);
  }

  lemma {:induction false} NoneAllowedKeepsDigest(t: State, events: seq<Event>, before: bv32)
    requires NoneAllowed(t, events)
    ensures LastAllowed(t, events, before) == before
    decreases |events|
  {
    if events != [] {
      NoneAllowedKeepsDigest(Next(t, events[0]), events[1..], before);
    }
  }

  /**
   With no capture allowed between them, two allowed captures of one digest are a repeat window
   apart: counted from the first one, and from every settle in between.
   */
  lemma {:induction false} RepeatsAreSpaced(t: State, digest: bv32, first: Millis, between: seq<Event>, second: Millis)
    requires Allows(t, digest, first) && Ticks(between, first) && End(between, first) <= second
    requires var u := Next(t, Capture(digest, first));
      NoneAllowed(u, between) && Allows(Run(u, between), digest, second)
    ensures second - first >= t.repeatWindowMs
    ensures forall i :: 0 <= i < |between| && between[i].Settle? ==> second - between[i].now >= t.repeatWindowMs
  {
    var u := Next(t, Capture(digest, first));
    NoneAllowedKeepsDigest(u, between, digest);
    MarkTracks(u, between, first);
  }
}
