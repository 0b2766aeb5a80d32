/**
 The trace a device is serving: adopted from a header, begun here, propagated onward, and copied to
 memory that survives a reset so that a crash can name the trace it happened in.
 */
module Trace {
  import opened Prelude
  import opened TextLines
  import Hex

  /** Every string is a fixed buffer in the original; none is longer than its buffer allows. */
  datatype Context = Context(
    traceId: string, spanId: string, parentSpanId: string, replayId: string, orgId: string, sampleRand: string,
    sampled: bool, decided: bool, active: bool)

  const CLEARED: Context := Context("", "", "", "", "", "", false, false, false)

  function Begin(traceBytes: Bytes, spanBytes: Bytes, sampled: bool): Context {
    CLEARED.(traceId := Hex.Text(traceBytes), spanId := Hex.Text(spanBytes), sampled := sampled, decided := true, active := true)
  }

  // ---- Baggage

  function SkipSeparators(t: string): (r: string)
    ensures |r| <= |t|
  {
    if t != "" && (t[0] == ' ' || t[0] == '\t' || t[0] == ',') then SkipSeparators(t[1..]) else t
  }

  function TrimEnd(t: string): (r: string)
    ensures r <= t
  {
    if t != "" && (t[|t| - 1] == ' ' || t[|t| - 1] == '\t') then TrimEnd(t[..|t| - 1]) else t
  }

  /** The value of the first entry with this key, unless it is empty or too long for its buffer. */
  function Lookup(baggage: string, key: string, cap: nat): Option<string>
    decreases |baggage|
  {
    if baggage == "" then None
    else
      var t := SkipSeparators(baggage);
      var end := IndexOf(t, ',');
      var entry := t[..end];
      var equals := IndexOf(entry, '=');
      if equals < |entry| && entry[..equals] == key then
        var value := TrimEnd(entry[equals + 1..]);
        if value == "" || |value| >= cap then None else Some(value)
      else if end < |t| then Lookup(t[end + 1..], key, cap)
      else None
  }

  /** What one entry of a header says about a key: nothing, or its value if that fits. */
  function EntryValue(entry: string, key: string, cap: nat): Option<Option<string>> {
    var equals := IndexOf(entry, '=');
    if equals < |entry| && entry[..equals] == key then
      var value := TrimEnd(entry[equals + 1..]);
      Some(if value == "" || |value| >= cap then None else Some(value))
    else None
  }

  lemma {:induction false} LookupOnce(baggage: string, key: string, cap: nat)
    requires baggage != ""
    ensures var t := SkipSeparators(baggage);
      var end := IndexOf(t, ',');
      var found := EntryValue(t[..end], key, cap);
      Lookup(baggage, key, cap) == if found.Some? then found.value else if end < |t| then Lookup(t[end + 1..], key, cap) else None
  {
  }

  method SkipFrom(t: string, start: nat) returns (cursor: nat)
    requires start <= |t|
    ensures start <= cursor <= |t| && t[cursor..] == SkipSeparators(t[start..])
  {
    cursor := start;
    while cursor < |t| && (t[cursor] == ' ' || t[cursor] == '\t' || t[cursor] == ',')
      invariant start <= cursor <= |t| && SkipSeparators(t[cursor..]) == SkipSeparators(t[start..])
    {
      assert t[cursor..][1..] == t[cursor + 1..];
      cursor := cursor + 1;
    }
  }

  method Trimmed(t: string) returns (value: string)
    ensures value == TrimEnd(t)
  {
    var len := |t|;
    assert t[..len] == t;
    while len > 0 && (t[len - 1] == ' ' || t[len - 1] == '\t')
      invariant len <= |t| && TrimEnd(t[..len]) == TrimEnd(t)
    {
      assert t[..len][..len - 1] == t[..len - 1];
      len := len - 1;
    }
    value := t[..len];
  }

  method ReadEntry(entry: string, key: string, cap: nat) returns (found: Option<Option<string>>)
    ensures found == EntryValue(entry, key, cap)
  {
    var equals := IndexOf(entry, '=');
    if equals < |entry| && entry[..equals] == key {
      var value := Trimmed(entry[equals + 1..]);
      return Some(if value == "" || |value| >= cap then None else Some(value));
    }
    return None;
  }

  /** The same with a cursor. */
  method BaggageLookup(baggage: string, key: string, cap: nat) returns (value: Option<string>)
    ensures value == Lookup(baggage, key, cap)
  {
    var cursor := 0;
    assert baggage[0..] == baggage;
    while cursor < |baggage|
      invariant cursor <= |baggage| && Lookup(baggage[cursor..], key, cap) == Lookup(baggage, key, cap)
    {
      ghost var before := baggage[cursor..];
      cursor := SkipFrom(baggage, cursor);
      var t := baggage[cursor..];
      var end := IndexOf(t, ',');
      var found := ReadEntry(t[..end], key, cap);
      LookupOnce(before, key, cap);
      if found.Some? {
        return found.value;
      }
      if end == |t| {
        return None;
      }
      cursor := cursor + end + 1;
      assert t[end + 1..] == baggage[cursor..];
    }
    assert baggage[cursor..] == "";
    return None;
  }

  /** One member of a baggage header, with the blanks and commas before it and the blanks after it. */
  datatype Member = Member(before: string, key: string, value: string, after: string)

  predicate IsBlank(c: char) {
    c == ' ' || c == '\t'
  }

  predicate GoodMember(m: Member) {
    && (forall i :: 0 <= i < |m.before| ==> IsBlank(m.before[i]) || m.before[i] == ',')
    && m.key != "" && !IsBlank(m.key[0]) && ',' !in m.key && '=' !in m.key && ',' !in m.value
    && (m.value != "" ==> !IsBlank(m.value[|m.value| - 1]))
    && (forall i :: 0 <= i < |m.after| ==> IsBlank(m.after[i]))
  }

  function EntryText(m: Member): string {
    m.key + "=" + (m.value + m.after)
  }

  function BaggageText(members: seq<Member>): string {
    if members == [] then ""
    else members[0].before + (EntryText(members[0]) + if |members| == 1 then "" else "," + BaggageText(members[1..]))
  }

  /** The first member with this key, if its value fits. */
  function FirstValue(members: seq<Member>, key: string, cap: nat): Option<string> {
    if members == [] then None
    else if members[0].key != key then FirstValue(members[1..], key, cap)
    else if members[0].value == "" || |members[0].value| >= cap then None
    else Some(members[0].value)
  }

  lemma {:induction false} SkipsAllBefore(before: string, t: string)
    requires forall i :: 0 <= i < |before| ==> IsBlank(before[i]) || before[i] == ','
    requires t != "" && !IsBlank(t[0]) && t[0] != ','
    ensures SkipSeparators(before + t) == t
    decreases |before|
  {
    if before == "" {
      assert before + t == t;
    } else {
      assert (before + t)[1..] == before[1..] + t;
      SkipsAllBefore(before[1..], t);
    }
  }

  lemma {:induction false} TrimsAllAfter(value: string, after: string)
    requires forall i :: 0 <= i < |after| ==> IsBlank(after[i])
    requires value != "" ==> !IsBlank(value[|value| - 1])
    ensures TrimEnd(value + after) == value
    decreases |after|
  {
    if after == "" {
      assert value + after == value;
    } else {
      assert (value + after)[..|value + after| - 1] == value + after[..|after| - 1];
      TrimsAllAfter(value, after[..|after| - 1]);
    }
  }

  lemma {:induction false} EntryHasNoComma(m: Member)
    requires GoodMember(m)
    ensures forall k :: 0 <= k < |EntryText(m)| ==> EntryText(m)[k] != ','
  {
    var t := m.value + m.after;
    assert forall k :: 0 <= k < |t| ==> t[k] == if k < |m.value| then m.value[k] else m.after[k - |m.value|];
    assert forall k :: 0 <= k < |EntryText(m)| ==>
      EntryText(m)[k] == if k < |m.key| then m.key[k] else if k == |m.key| then '=' else t[k - |m.key| - 1];
  }

  lemma {:induction false} OneMember(m: Member, rest: string)
    requires GoodMember(m) && (rest == "" || rest[0] == ',')
    ensures var t := EntryText(m) + rest;
      SkipSeparators(m.before + t) == t && IndexOf(t, ',') == |EntryText(m)| && t[..|EntryText(m)|] == EntryText(m)
  {
    var t := EntryText(m) + rest;
    assert t[0] == m.key[0] && m.key[0] in m.key;
    SkipsAllBefore(m.before, t);
    EntryHasNoComma(m);
    IndexIs(t, ',', |EntryText(m)|);
  }

  lemma {:induction false} ValueOfMember(m: Member, key: string, cap: nat)
    requires GoodMember(m)
    ensures EntryValue(EntryText(m), key, cap) ==
      if m.key != key then None else Some(if m.value == "" || |m.value| >= cap then None else Some(m.value))
  {
    var entry := EntryText(m);
    IndexIs(entry, '=', |m.key|);
    TrimsAllAfter(m.value, m.after);
    assert entry[..|m.key|] == m.key && entry[|m.key| + 1..] == m.value + m.after;
  }

  lemma {:induction false} LookupEntry(baggage: string, entry: string, rest: string, key: string, cap: nat)
    requires baggage != "" && SkipSeparators(baggage) == entry + rest
    requires IndexOf(entry + rest, ',') == |entry|
    ensures var found := EntryValue(entry, key, cap);
      Lookup(baggage, key, cap) == if found.Some? then found.value else if rest == "" then None else Lookup(rest[1..], key, cap)
  {
    var t := entry + rest;
    LookupOnce(baggage, key, cap);
    assert t[..|entry|] == entry;
    if rest != "" {
      assert t[|entry| + 1..] == rest[1..];
    }
  }

  lemma {:induction false} LookupMember(m: Member, rest: string, key: string, cap: nat)
    requires GoodMember(m) && (rest == "" || rest[0] == ',')
    ensures Lookup(m.before + (EntryText(m) + rest), key, cap) ==
      if m.key == key then (if m.value == "" || |m.value| >= cap then None else Some(m.value))
      else if rest == "" then None else Lookup(rest[1..], key, cap)
  {
    OneMember(m, rest);
    LookupEntry(m.before + (EntryText(m) + rest), EntryText(m), rest, key, cap);
    ValueOfMember(m, key, cap);
  }

  /** Whatever blanks stand around its members, what is looked up in a header is what was put there first. */
  lemma {:induction false} LookupFindsFirst(members: seq<Member>, key: string, cap: nat)
    requires forall i :: 0 <= i < |members| ==> GoodMember(members[i])
    ensures Lookup(BaggageText(members), key, cap) == FirstValue(members, key, cap)
    decreases |members|
  {
    if members != [] {
      var rest := if |members| == 1 then "" else "," + BaggageText(members[1..]);
      LookupMember(members[0], rest, key, cap);
      if |members| > 1 {
        assert rest[1..] == BaggageText(members[1..]);
      }
      LookupFindsFirst(members[1..], key, cap);
    }
  }

  // ---- Headers

  predicate DigitRun(t: string) {
    forall i :: 0 <= i < |t| ==> '0' <= t[i] <= '9'
  }

  predicate GoodId(t: string) {
    Hex.IsHexRun(t) && !Hex.AllZero(t)
  }

  predicate GoodSampleRand(t: string) {
    |t| == 8 && t[0] == '0' && t[1] == '.' && DigitRun(t[2..])
  }

  predicate GoodHeader(h: string) {
    && |h| >= 49 && h[32] == '-' && GoodId(h[..32]) && GoodId(h[33..49])
    && (|h| > 49 ==> |h| == 51 && h[49] == '-' && (h[50] == '0' || h[50] == '1'))
  }

  function Optional(value: Option<string>, good: string -> bool): string {
    if value.Some? && good(value.value) then value.value else ""
  }

  /** `<trace id>-<span id>[-<sampled>]`, with whatever the baggage adds. */
  function AdoptHeader(header: Option<string>, baggage: string, spanBytes: Bytes): Option<Context> {
    if header == None || !GoodHeader(header.value) then None
    else
      var h := header.value;
      Some(Context(
             h[..32], Hex.Text(spanBytes), h[33..49],
             Optional(Lookup(baggage, "sentry-replay_id", 33), (t: string) => |t| == 32 && GoodId(t)),
             Optional(Lookup(baggage, "sentry-org_id", 21), DigitRun),
             Optional(Lookup(baggage, "sentry-sample_rand", 9), GoodSampleRand),
             |h| == 51 && h[50] == '1', |h| == 51, true))
  }

  /** What the header spells: a trace, a span, and "", "-0" or "-1". */
  predicate SpellsHeader(h: string, traceId: string, spanId: string, flag: string) {
    && |traceId| == 32 && |spanId| == 16 && GoodId(traceId) && GoodId(spanId)
    && (flag == "" || flag == "-0" || flag == "-1") && h == traceId + ("-" + (spanId + flag))
  }

  lemma {:induction false} GoodIsSpelled(h: string)
    requires GoodHeader(h)
    ensures SpellsHeader(h, h[..32], h[33..49], h[49..])
  {
    assert h == h[..32] + ("-" + (h[33..49] + h[49..]));
    if |h| > 49 {
      assert h[49..] == [h[49], h[50]];
    }
  }

  lemma {:induction false} SpelledIsGood(h: string, traceId: string, spanId: string, flag: string)
    requires SpellsHeader(h, traceId, spanId, flag)
    ensures GoodHeader(h) && h[..32] == traceId && h[33..49] == spanId && |h| == 49 + |flag| && (flag != "" ==> h[50] == flag[1])
  {
    assert h[..32] == traceId && h[32] == '-' && h[33..49] == spanId && h[49..] == flag;
    if flag != "" {
      assert h[49] == flag[0] && h[50] == flag[1];
    }
  }

  /**
   A header is adopted if and only if it is spelled so, and then it is the sender's trace, its span is
   our parent, and its decision is as spelled.
   */
  lemma {:induction false} AdoptsIffSpelled(h: string, baggage: string, spanBytes: Bytes)
    ensures AdoptHeader(Some(h), baggage, spanBytes).Some? <==> exists traceId, spanId, flag :: SpellsHeader(h, traceId, spanId, flag)
    ensures forall traceId, spanId, flag :: SpellsHeader(h, traceId, spanId, flag) ==>
      var ctx := AdoptHeader(Some(h), baggage, spanBytes);
      && ctx.Some? && ctx.value.active && ctx.value.traceId == traceId && ctx.value.parentSpanId == spanId
      && ctx.value.spanId == Hex.Text(spanBytes) && (ctx.value.decided <==> flag != "") && (ctx.value.sampled <==> flag == "-1")
  {
    if GoodHeader(h) {
      GoodIsSpelled(h);
    }
    forall traceId, spanId, flag | SpellsHeader(h, traceId, spanId, flag)
      ensures GoodHeader(h) && h[..32] == traceId && h[33..49] == spanId && |h| == 49 + |flag| && (flag != "" ==> h[50] == flag[1])
    {
      SpelledIsGood(h, traceId, spanId, flag);
    }
  }

  function HeaderText(ctx: Context): string {
    if !ctx.active then ""
    else ctx.traceId + "-" + ctx.spanId + (if ctx.decided then (if ctx.sampled then "-1" else "-0") else "")
  }

  /** What a device that reads our header adopts. */
  function Downstream(ctx: Context, spanBytes: Bytes): Context {
    Context(ctx.traceId, Hex.Text(spanBytes), ctx.spanId, "", "", "", ctx.sampled && ctx.decided, ctx.decided, true)
  }

  lemma {:induction false} HeaderParts(ctx: Context)
    requires ctx.active && |ctx.traceId| == 32 && |ctx.spanId| == 16
    ensures var h := HeaderText(ctx);
      && |h| == (if ctx.decided then 51 else 49) && h[..32] == ctx.traceId && h[32] == '-' && h[33..49] == ctx.spanId
      && (ctx.decided ==> h[49] == '-' && h[50] == (if ctx.sampled then '1' else '0'))
  {
  }

  /**
   A trace begun from random bytes is handed on whole (same id, our span as the parent, the same
   decision), unless one of the two ids came out all zero, which no one adopts.
   */
  lemma {:induction false} HandedOnUnlessZero(traceBytes: Bytes, spanBytes: Bytes, sampled: bool, theirSpan: Bytes)
    requires |traceBytes| == 16 && |spanBytes| == 8
    ensures var ctx := Begin(traceBytes, spanBytes, sampled);
      AdoptHeader(Some(HeaderText(ctx)), "", theirSpan) ==
        if Hex.ZeroBytes(traceBytes) || Hex.ZeroBytes(spanBytes) then None else Some(Downstream(ctx, theirSpan))
  {
    var ctx := Begin(traceBytes, spanBytes, sampled);
    HeaderParts(ctx);
    Hex.AllZeroText(traceBytes);
    Hex.AllZeroText(spanBytes);
  }

  /** A value the baggage gives, or nothing for a member missing, too long or malformed. */
  function Given(members: seq<Member>, key: string, cap: nat, good: string -> bool): string {
    var value := FirstValue(members, key, cap);
    if value.Some? && good(value.value) then value.value else ""
  }

  /** From a printed baggage header the adopted trace takes the first member of each name, if it is well-formed. */
  lemma {:induction false} BaggageIsAdopted(h: string, members: seq<Member>, spanBytes: Bytes)
    requires GoodHeader(h) && forall i :: 0 <= i < |members| ==> GoodMember(members[i])
    ensures var ctx := AdoptHeader(Some(h), BaggageText(members), spanBytes);
      && ctx.Some?
      && ctx.value.replayId == Given(members, "sentry-replay_id", 33, (t: string) => |t| == 32 && GoodId(t))
      && ctx.value.orgId == Given(members, "sentry-org_id", 21, DigitRun)
      && ctx.value.sampleRand == Given(members, "sentry-sample_rand", 9, GoodSampleRand)
  {
    LookupFindsFirst(members, "sentry-replay_id", 33);
    LookupFindsFirst(members, "sentry-org_id", 21);
    LookupFindsFirst(members, "sentry-sample_rand", 9);
  }

  lemma {:induction false} SameButForSpan(h: string, baggage: string, span: Bytes)
    requires GoodHeader(h) && |span| == 8
    ensures AdoptHeader(Some(h), baggage, span).Some?
    ensures var sent := HeaderText(AdoptHeader(Some(h), baggage, span).value);
      |sent| == |h| && sent[..33] == h[..33] && sent[33..49] == Hex.Text(span) && sent[49..] == h[49..]
  {
    var ctx := AdoptHeader(Some(h), baggage, span).value;
    var sent := HeaderText(ctx);
    HeaderParts(ctx);
    assert sent[..33] == h[..32] + "-" == h[..33];
    if |h| == 51 {
      assert sent[49..] == [h[49], h[50]] == h[49..];
    } else {
      assert sent[49..] == "" == h[49..];
    }
  }

  lemma {:induction false} StillGood(h: string, sent: string)
    requires GoodHeader(h) && |sent| == |h| && sent[..33] == h[..33] && sent[49..] == h[49..] && GoodId(sent[33..49])
    ensures GoodHeader(sent) && sent[..32] == h[..32]
  {
    assert sent[..32] == sent[..33][..32] == h[..32] && sent[32] == sent[..33][32];
    if |h| > 49 {
      assert sent[49] == sent[49..][0] && sent[50] == sent[49..][1] && h[49] == h[49..][0] && h[50] == h[49..][1];
    }
  }

  /**
   An adopted trace is handed on under the sender's trace id and with the sender's decision or lack
   of one; only the span in between is ours, which the next device takes as its parent.
   */
  lemma {:induction false} AdoptedIsHandedOn(h: string, baggage: string, span: Bytes, nextBaggage: string, nextSpan: Bytes)
    requires GoodHeader(h) && |span| == 8 && !Hex.ZeroBytes(span)
    ensures AdoptHeader(Some(h), baggage, span).Some?
    ensures var sent := HeaderText(AdoptHeader(Some(h), baggage, span).value);
      && |sent| == |h| && sent[..33] == h[..33] && sent[33..49] == Hex.Text(span) && sent[49..] == h[49..]
      && var next := AdoptHeader(Some(sent), nextBaggage, nextSpan);
      next.Some? && next.value.traceId == h[..32] && next.value.parentSpanId == Hex.Text(span)
  {
    SameButForSpan(h, baggage, span);
    Hex.AllZeroText(span);
    StillGood(h, HeaderText(AdoptHeader(Some(h), baggage, span).value));
  }

  // ---- Organizations

  predicate CanContinue(incoming: string, own: string, strict: bool) {
    if incoming != "" && own != "" then incoming == own
    else if (incoming != "") != (own != "") then !strict
    else true
  }

  // ---- The SDK's traces, and the copy in RTC memory

  const RTC_TRACE_CAP: nat := 160

  /** Six buffers and three flags. */
  const CONTEXT_BYTES: nat := 33 + 17 + 17 + 33 + 21 + 9 + 3

  /** What is in RTC memory behind a valid magic word; anything else reads as nothing. */
  type Rtc = Option<Context>

  function Persisted(ctx: Context): Rtc {
    if CONTEXT_BYTES > RTC_TRACE_CAP then None else Some(ctx)
  }

  function RecoveredFrom(rtc: Rtc): Context {
    if rtc.Some? then rtc.value else CLEARED
  }

  datatype State = State(enabled: bool, trace: Context, crashTrace: Context, rtc: Rtc)

  /** Random bytes, when the device has any to give. */
  type Random = Option<Bytes>

  datatype Event =
    | Init(succeeds: bool)
    | Close
    | Adopt(header: Option<string>, baggage: string, span: Random, minted: Random, ownOrg: string, strict: bool)
    | Start(traceBytes: Random, spanBytes: Random)
    | Release
    | ResetKeepingMemory      // RAM is lost, RTC memory is not
    | PowerLoss

  function Tracing(s: State, ctx: Context): State {
    s.(trace := ctx, rtc := Persisted(ctx))
  }

  function Next(s: State, e: Event): State {
    match e
    case Init(succeeds) =>
      if succeeds then State(true, CLEARED, RecoveredFrom(s.rtc), Persisted(CLEARED)) else State(false, CLEARED, CLEARED, s.rtc)
    case Close => State(false, CLEARED, CLEARED, s.rtc)
    case Adopt(header, baggage, span, minted, ownOrg, strict) =>
      if !s.enabled || span == None then s
      else
        var parsed := AdoptHeader(header, baggage, span.value);
        if parsed == None then Tracing(s, CLEARED)
        else if CanContinue(parsed.value.orgId, ownOrg, strict) then Tracing(s, parsed.value)
        else if minted == None then Tracing(s, CLEARED)
        else Tracing(s, Begin(minted.value, span.value, true))
    case Start(traceBytes, spanBytes) =>
      if !s.enabled || traceBytes == None || spanBytes == None then s
      else Tracing(s, Begin(traceBytes.value, spanBytes.value, true))
    case Release => Tracing(s, CLEARED)
    case ResetKeepingMemory => State(false, CLEARED, CLEARED, s.rtc)
    case PowerLoss => State(false, CLEARED, CLEARED, None)
  }

  /**
   A well-formed header is joined exactly when both sides name the same organization, or neither
   names one, or one is silent and the device is lenient. A header not joined still starts a trace of
   our own, if there is entropy for one; either way the RTC copy follows.
   */
  lemma {:induction false} JoinedIff(s: State, header: string, baggage: string, span: Bytes, minted: Random, own: string, strict: bool)
    requires s.enabled && AdoptHeader(Some(header), baggage, span).Some?
    ensures var ctx := AdoptHeader(Some(header), baggage, span).value;
      var t := Next(s, Adopt(Some(header), baggage, Some(span), minted, own, strict));
      var joins := ctx.orgId == own || (!strict && (ctx.orgId == "" || own == ""));
      && (t.trace == ctx <==> joins)
      && (!joins ==> t.trace == if minted == None then CLEARED else Begin(minted.value, span, true))
      && t.rtc == Some(t.trace)
  {
    var ctx := AdoptHeader(Some(header), baggage, span).value;
    assert |ctx.parentSpanId| == 16;
  }

  /** A trace started here is followed downstream: sampled, with our span as the parent. */
  lemma {:induction false} StartedIsFollowed(s: State, traceBytes: Bytes, spanBytes: Bytes, theirSpan: Bytes)
    requires s.enabled && |traceBytes| == 16 && |spanBytes| == 8 && !Hex.ZeroBytes(traceBytes) && !Hex.ZeroBytes(spanBytes)
    ensures var t := Next(s, Start(Some(traceBytes), Some(spanBytes)));
      var c := AdoptHeader(Some(HeaderText(t.trace)), "", theirSpan);
      && t.rtc == Some(t.trace) && c.Some? && c.value.sampled && c.value.decided
      && c.value.traceId == Hex.Text(traceBytes) && c.value.parentSpanId == Hex.Text(spanBytes)
  {
    HandedOnUnlessZero(traceBytes, spanBytes, true, theirSpan);
  }

  function Run(s: State, events: seq<Event>): State
    decreases |events|
  {
    if events == [] then s else Run(Next(s, events[0]), events[1..])
  }

  /** While the SDK is enabled the RTC copy is the active trace, after every call. */
  ghost predicate Tracks(s: State) {
    s.enabled ==> s.rtc == Some(s.trace)
  }

  lemma {:induction false} RtcTracksTrace(s: State, events: seq<Event>)
    requires Tracks(s)
    ensures Tracks(Run(s, events))
    decreases |events|
  {
    if events != [] {
      RtcTracksTrace(Next(s, events[0]), events[1..]);
    }
  }

  /** Events of a boot after its init: nothing that starts or ends one. */
  predicate WithinBoot(events: seq<Event>) {
    forall i :: 0 <= i < |events| ==> events[i].Adopt? || events[i].Start? || events[i].Release?
  }

  lemma {:induction false} CrashTraceStays(s: State, events: seq<Event>)
    requires WithinBoot(events)
    ensures Run(s, events).crashTrace == s.crashTrace && Run(s, events).enabled == s.enabled
    decreases |events|
  {
    if events != [] {
      CrashTraceStays(Next(s, events[0]), events[1..]);
    }
  }

  /** The trace a recovered crash is reported with. */
  function CrashReportTrace(s: State): Option<Context> {
    if s.crashTrace.active then Some(s.crashTrace) else None
  }

  /** Calls and resets of any kind, short of a successful init or a loss of power. */
  predicate BeforeInit(events: seq<Event>) {
    forall i :: 0 <= i < |events| ==> events[i] != Init(true) && !events[i].PowerLoss?
  }

  predicate NeverReleased(events: seq<Event>) {
    forall i :: 0 <= i < |events| ==> !events[i].Release?
  }

  /** A disabled SDK leaves the copy alone, but for `Release`, which looks at nothing before it writes. */
  lemma {:induction false} RtcWhileDisabled(s: State, between: seq<Event>)
    requires !s.enabled && BeforeInit(between)
    ensures !Run(s, between).enabled
    ensures Run(s, between).rtc == if NeverReleased(between) then s.rtc else Some(CLEARED)
    decreases |between|
  {
    if between != [] {
      RtcWhileDisabled(Next(s, between[0]), between[1..]);
      assert NeverReleased(between) <==> !between[0].Release? && NeverReleased(between[1..]);
    }
  }

  /** The SDK that died in `died`, after what comes `between` the reset and its next successful init. */
  function Reborn(died: State, between: seq<Event>): State {
    Next(Run(Next(died, ResetKeepingMemory), between), Init(true))
  }

  /**
   After any history, a reset that keeps memory while the SDK is enabled, then any failed inits,
   calls and further resets, then a successful init: whatever is adopted, started or released after
   it, the crash is reported on exactly the trace it happened in, or on none if there was none or
   `Release` was called before that init.
   */
  lemma {:induction false} CrashCarriesItsTrace(s: State, before: seq<Event>, between: seq<Event>, after: seq<Event>)
    requires Tracks(s) && Run(s, before).enabled && BeforeInit(between) && WithinBoot(after)
    ensures var died := Run(s, before);
      var t := Run(Reborn(died, between), after);
      && t.enabled && CrashReportTrace(t) == if died.trace.active && NeverReleased(between) then Some(died.trace) else None
  {
    RtcTracksTrace(s, before);
    var died := Run(s, before);
    RtcWhileDisabled(Next(died, ResetKeepingMemory), between);
    CrashTraceStays(Reborn(died, between), after);
  }

  /** The trace of a crash is lost exactly by a `Release` between the reset and the next successful init. */
  lemma {:induction false} CrashTraceIsLostIffReleased(died: State, between: seq<Event>)
    requires Tracks(died) && died.enabled && died.trace.active && BeforeInit(between)
    ensures CrashReportTrace(Reborn(died, between)) == Some(died.trace) <==> NeverReleased(between)
  {
    RtcWhileDisabled(Next(died, ResetKeepingMemory), between);
  }

  /** A trace begun, a reset, a release that finds nothing active, an init: the crash has lost its trace. */
  lemma {:induction false} ReleaseBeforeInitLosesTrace(traceBytes: Bytes, spanBytes: Bytes)
    ensures var died := Next(State(true, CLEARED, CLEARED, Some(CLEARED)), Start(Some(traceBytes), Some(spanBytes)));
      && Tracks(died) && died.enabled && died.trace.active
      && CrashReportTrace(Reborn(died, [])) == Some(died.trace)
      && CrashReportTrace(Reborn(died, [Release])) == None
  {
    var died := Next(State(true, CLEARED, CLEARED, Some(CLEARED)), Start(Some(traceBytes), Some(spanBytes)));
    var down := Next(died, ResetKeepingMemory);
    assert Run(down, []) == down;
    assert Run(down, [Release]) == Run(Next(down, Release), [Release][1..]) == Next(down, Release);
  }

  // ---- Foreign organizations

  /** No trace but our own organization's, or one that names none. */
  predicate OursOrUnnamed(s: State, own: string) {
    s.trace.orgId == "" || s.trace.orgId == own
  }

  /** One device's run: its own organization and its strictness do not change. */
  predicate OneDevice(events: seq<Event>, own: string, strict: bool) {
    forall i :: 0 <= i < |events| && events[i].Adopt? ==> events[i].ownOrg == own && events[i].strict == strict
  }

  lemma {:induction false} OursStays(s: State, events: seq<Event>, own: string, strict: bool)
    requires (own != "" || strict) && OursOrUnnamed(s, own) && OneDevice(events, own, strict)
    ensures OursOrUnnamed(Run(s, events), own)
    decreases |events|
  {
    if events != [] {
      OursStays(Next(s, events[0]), events[1..], own, strict);
    }
  }

  const POWERED_UP: State := State(false, CLEARED, CLEARED, None)

  lemma {:induction false} SomeHeader() returns (h: string)
    ensures GoodHeader(h)
  {
    var traceId, spanId := seq(32, _ => 'a'), seq(16, _ => 'a');
    assert traceId[0] != '0' && spanId[0] != '0';
    h := traceId + ("-" + spanId);
    assert h[..32] == traceId && h[33..49] == spanId;
  }

  lemma {:induction false} AdoptedOrg(h: string, baggage: string, org: string, spanBytes: Bytes)
    requires GoodHeader(h) && DigitRun(org) && Lookup(baggage, "sentry-org_id", 21) == Some(org)
    ensures AdoptHeader(Some(h), baggage, spanBytes).Some? && AdoptHeader(Some(h), baggage, spanBytes).value.orgId == org
  {
  }

  lemma {:induction false} RunTwo(s: State, a: Event, b: Event)
    ensures Run(s, [a, b]) == Next(Next(s, a), b)
  {
    assert [a, b][1..] == [b] && [b][1..] == [];
    assert Run(Next(s, a), [b]) == Run(Next(Next(s, a), b), []);
  }

  lemma {:induction false} AdoptedByStranger(s: State, h: string, baggage: string, org: string, spanBytes: Bytes)
    requires s.enabled && GoodHeader(h) && DigitRun(org) && Lookup(baggage, "sentry-org_id", 21) == Some(org)
    ensures Next(s, Adopt(Some(h), baggage, Some(spanBytes), None, "", false)).trace.orgId == org
  {
    AdoptedOrg(h, baggage, org, spanBytes);
  }

  /** A device that neither knows its organization nor is strict joins a stranger's trace. */
  lemma {:induction false} StrangerIsJoined(spanBytes: Bytes) returns (adopt: Event)
    ensures adopt.Adopt? && adopt.ownOrg == "" && !adopt.strict
    ensures !OursOrUnnamed(Run(POWERED_UP, [Init(true), adopt]), "")
  {
    var h := SomeHeader();
    var baggage := BaggageText([Member("", "sentry-org_id", "1", "")]);
    OnlyMember("sentry-org_id", "1");
    adopt := Adopt(Some(h), baggage, Some(spanBytes), None, "", false);
    AdoptedByStranger(Next(POWERED_UP, Init(true)), h, baggage, "1", spanBytes);
    RunTwo(POWERED_UP, Init(true), adopt);
  }

  lemma {:induction false} OnlyMember(key: string, value: string)
    requires GoodMember(Member("", key, value, "")) && 0 < |value| < 21
    ensures Lookup(BaggageText([Member("", key, value, "")]), key, 21) == Some(value)
  {
    LookupFindsFirst([Member("", key, value, "")], key, 21);
  }

  /**
   No run of a device ever leaves another organization's trace active if and only if the device
   knows its own organization or is strict.
   */
  lemma {:induction false} ForeignTraceIsNeverJoinedIff(own: string, strict: bool)
    ensures (forall events :: OneDevice(events, own, strict) ==> OursOrUnnamed(Run(POWERED_UP, events), own)) <==> own != "" || strict
  {
    if own != "" || strict {
      forall events | OneDevice(events, own, strict)
        ensures OursOrUnnamed(Run(POWERED_UP, events), own)
      {
        OursStays(POWERED_UP, events, own, strict);
      }
    } else {
      var adopt := StrangerIsJoined([]);
      assert OneDevice([Init(true), adopt], own, strict);
    }
  }
}
