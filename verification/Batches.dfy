/**
 The console lines and the numbers that go out with a flush, and what becomes of them.

 Neither ever enters the offline buffer: a batch that cannot go yet stays where it accumulated. So
 each is accounted for by itself: the lines one by one, a counter by its total.
 */
module Batches {
  import opened Prelude
  import opened Delivery
  import Envelope
  import Hex
  import Json
  import LogEnvelope
  import LogRing
  import Metrics
  import TextLines
  import Timeline
  import Trace

  type Micros = LogRing.Micros

  /** Why a batch did not go, or that it did. */
  datatype Outcome = Empty | NoRoute | NoTrace | NoDate | TooLarge | Went

  datatype Fate = Held | Taken | Lost

  function FateOfBatch(outcome: Outcome, result: SendResult): Fate {
    match outcome
    case Went => if result == OK then Taken else if WorthRetrying(result) then Held else Lost
    case TooLarge => Lost
    case _ => Held
  }

  function CallsOfBatch(outcome: Outcome, attempt: Attempt): seq<Attempt> {
    if outcome == Went then [attempt] else []
  }

  function Sized(needed: nat): Outcome {
    if needed == 0 || needed >= ENVELOPE_BUFFER_BYTES then TooLarge else Went
  }

  // ---- Lines

  /** What one flush of the log ring meets: the clock is read, then the route, then the entropy, then the clock again. */
  datatype LogWorld = LogWorld(route: bool, unix: Micros, uptime: Micros, random: Trace.Random, later: Micros, attempt: Attempt)

  datatype Lines = Lines(log: LogRing.Log, dropped: nat)

  function LogOutcome(log: LogRing.Log, deviceId: string, w: LogWorld): Outcome {
    if log.lines == [] then Empty
    else if !w.route then NoRoute
    else if w.unix == 0 then NoDate
    else if w.random == None || w.random.value == [] then NoTrace
    else Sized(LogEnvelope.Needed(LogRing.Anchored(log, w.unix, w.uptime), Hex.Text(w.random.value), deviceId, w.later, w.unix))
  }

  /** What the transport is handed. */
  function LogBatch(log: LogRing.Log, deviceId: string, w: LogWorld): Option<string> {
    if LogOutcome(log, deviceId, w) != Went then None
    else Some(Envelope.Text(Envelope.LogItem(|log.lines|),
                            LogEnvelope.Doc(LogRing.Anchored(log, w.unix, w.uptime), Hex.Text(w.random.value), deviceId, w.later, w.unix)))
  }

  function LogsSettled(s: Lines, fate: Fate): Lines {
    match fate
    case Held => s
    case Taken => Lines(LogRing.Cleared(s.log), s.dropped)
    case Lost => Lines(LogRing.Cleared(s.log), Saturated(s.dropped + |s.log.lines|))
  }

  /** The anchor is kept current even when nothing can be sent. */
  function LogsFlushed(s: Lines, deviceId: string, w: LogWorld): Lines {
    if s.log.lines == [] then s
    else LogsSettled(Lines(LogRing.Anchored(s.log, w.unix, w.uptime), s.dropped),
                     FateOfBatch(LogOutcome(s.log, deviceId, w), w.attempt.response.result))
  }

  function LineRecorded(s: Lines, e: LogRing.Entry): Lines {
    Lines(LogRing.Pushed(s.log, e), if |s.log.lines| == LogRing.MAX_LOGS then Saturated(s.dropped + 1) else s.dropped)
  }

  datatype LogEvent = Record(entry: LogRing.Entry) | FlushLogs(deviceId: string, world: LogWorld)

  function NextLines(s: Lines, e: LogEvent): Lines {
    match e
    case Record(entry) => LineRecorded(s, entry)
    case FlushLogs(deviceId, w) => LogsFlushed(s, deviceId, w)
  }

  function RunLines(s: Lines, events: seq<LogEvent>): Lines
    decreases |events|
  {
    if events == [] then s else RunLines(NextLines(s, events[0]), events[1..])
  }

  /** The lines that one event delivers, and the ones it loses: all that were held, or the oldest. */
  function LinesTaken(s: Lines, e: LogEvent): seq<LogRing.Entry> {
    if e.FlushLogs? && FateOfBatch(LogOutcome(s.log, e.deviceId, e.world), e.world.attempt.response.result) == Taken then s.log.lines else []
  }

  function LinesLost(s: Lines, e: LogEvent): seq<LogRing.Entry> {
    match e
    case Record(_) => if |s.log.lines| == LogRing.MAX_LOGS then s.log.lines[..1] else []
    case FlushLogs(deviceId, w) =>
      if FateOfBatch(LogOutcome(s.log, deviceId, w), w.attempt.response.result) == Lost then s.log.lines else []
  }

  function AllTaken(s: Lines, events: seq<LogEvent>): seq<LogRing.Entry>
    decreases |events|
  {
    if events == [] then [] else LinesTaken(s, events[0]) + AllTaken(NextLines(s, events[0]), events[1..])
  }

  function AllLost(s: Lines, events: seq<LogEvent>): seq<LogRing.Entry>
    decreases |events|
  {
    if events == [] then [] else LinesLost(s, events[0]) + AllLost(NextLines(s, events[0]), events[1..])
  }

  function LinesGiven(e: LogEvent): seq<LogRing.Entry> {
    if e.Record? then [e.entry] else []
  }

  function AllGiven(events: seq<LogEvent>): seq<LogRing.Entry> {
    if events == [] then [] else LinesGiven(events[0]) + AllGiven(events[1..])
  }

  type Many = multiset<LogRing.Entry>

  ghost predicate LinesBalance(s: Lines, events: seq<LogEvent>) {
    multiset(s.log.lines) + multiset(AllGiven(events))
    == multiset(AllTaken(s, events)) + multiset(AllLost(s, events)) + multiset(RunLines(s, events).log.lines)
  }

  lemma {:induction false} LineStep(s: Lines, e: LogEvent)
    ensures multiset(s.log.lines) + multiset(LinesGiven(e))
         == multiset(LinesTaken(s, e)) + multiset(LinesLost(s, e)) + multiset(NextLines(s, e).log.lines)
  {
    if s.log.lines != [] {
      assert s.log.lines == s.log.lines[..1] + s.log.lines[1..];
    }
  }

  lemma {:induction false} DropStep(s: Lines, e: LogEvent)
    requires s.dropped <= UINT32_MAX
    ensures NextLines(s, e).dropped == Saturated(s.dropped + |LinesLost(s, e)|)
  {
  }

  lemma {:induction false} Carry(first: Many, given: Many, taken: Many, lost: Many, middle: Many, givenLater: Many, takenLater: Many, lostLater: Many, last: Many)
    requires first + given == taken + lost + middle && middle + givenLater == takenLater + lostLater + last
    ensures first + (given + givenLater) == (taken + takenLater) + (lost + lostLater) + last
  {
    assert forall x :: first[x] + given[x] == (first + given)[x] == taken[x] + lost[x] + middle[x];
    assert forall x :: middle[x] + givenLater[x] == (middle + givenLater)[x] == takenLater[x] + lostLater[x] + last[x];
  }

  lemma {:induction false} BalanceOnce(s: Lines, events: seq<LogEvent>)
    requires events != [] && LinesBalance(NextLines(s, events[0]), events[1..])
    ensures LinesBalance(s, events)
  {
    var e, t, rest := events[0], NextLines(s, events[0]), events[1..];
    LineStep(s, e);
    Carry(multiset(s.log.lines), multiset(LinesGiven(e)), multiset(LinesTaken(s, e)), multiset(LinesLost(s, e)), multiset(t.log.lines),
          multiset(AllGiven(rest)), multiset(AllTaken(t, rest)), multiset(AllLost(t, rest)), multiset(RunLines(t, rest).log.lines));
  }

  /**
   In every boot, whatever route, clock, entropy and transport do: each line carried in or recorded
   is in a batch answered OK, or lost, or still held.
   */
  lemma {:induction false} EveryLineIsAccounted(s: Lines, events: seq<LogEvent>)
    ensures LinesBalance(s, events)
    decreases |events|
  {
    if events == [] {
      Carry(multiset(s.log.lines), multiset{}, multiset{}, multiset{}, multiset(s.log.lines),
            multiset{}, multiset{}, multiset{}, multiset(s.log.lines));
    } else {
      EveryLineIsAccounted(NextLines(s, events[0]), events[1..]);
      BalanceOnce(s, events);
    }
  }

  ghost predicate DropsCounted(s: Lines, events: seq<LogEvent>) {
    RunLines(s, events).dropped == Saturated(s.dropped + |AllLost(s, events)|)
  }

  lemma {:induction false} CountsJoin(before: nat, first: nat, between: nat, rest: nat, after: nat)
    requires between == Saturated(before + first) && after == Saturated(between + rest)
    ensures after == Saturated(before + (first + rest))
  {
  }

  lemma {:induction false} CountOnce(s: Lines, events: seq<LogEvent>)
    requires s.dropped <= UINT32_MAX && events != [] && DropsCounted(NextLines(s, events[0]), events[1..])
    ensures DropsCounted(s, events)
  {
    var e, t, rest := events[0], NextLines(s, events[0]), events[1..];
    DropStep(s, e);
    CountsJoin(s.dropped, |LinesLost(s, e)|, t.dropped, |AllLost(t, rest)|, RunLines(t, rest).dropped);
  }

  /** The lifetime counter counts exactly the lost lines, until it can go no higher. */
  lemma {:induction false} LogsDroppedCountsLost(s: Lines, events: seq<LogEvent>)
    requires s.dropped <= UINT32_MAX
    ensures DropsCounted(s, events)
    decreases |events|
  {
    if events != [] {
      DropStep(s, events[0]);
      LogsDroppedCountsLost(NextLines(s, events[0]), events[1..]);
      CountOnce(s, events);
    }
  }

  /** In numbers, from the boot that carried them in. */
  lemma {:induction false} LinesAddUp(log: LogRing.Log, events: seq<LogEvent>)
    ensures var s := Lines(LogRing.BootBegun(log), 0);
      var t := RunLines(s, events);
      && |log.lines| + |AllGiven(events)| == |AllTaken(s, events)| + |AllLost(s, events)| + |t.log.lines|
      && (|AllLost(s, events)| <= UINT32_MAX ==>
            |log.lines| + |AllGiven(events)| == |AllTaken(s, events)| + t.dropped + |t.log.lines|)
  {
    var s := Lines(LogRing.BootBegun(log), 0);
    EveryLineIsAccounted(s, events);
    LogsDroppedCountsLost(s, events);
    var t := RunLines(s, events);
    assert |multiset(s.log.lines) + multiset(AllGiven(events))| == |log.lines| + |AllGiven(events)|;
    assert |multiset(AllTaken(s, events)) + multiset(AllLost(s, events)) + multiset(t.log.lines)|
        == |AllTaken(s, events)| + |AllLost(s, events)| + |t.log.lines|;
  }

  /**
   What a host finds in a batch of lines: a header that states the payload's length, and a payload
   that reads back to all the lines held, each with its date.
   */
  lemma {:induction false} LogBatchReadsBack(log: LogRing.Log, deviceId: string, w: LogWorld)
    requires LogBatch(log, deviceId, w).Some?
    ensures var lines := TextLines.Lines(LogBatch(log, deviceId, w).value);
      && |lines| == 4 && Envelope.StatedLength(lines[1]) == Some(|lines[2]|)
      && Json.Parse(lines[2]) == Some(LogEnvelope.Doc(LogRing.Anchored(log, w.unix, w.uptime), Hex.Text(w.random.value), deviceId, w.later, w.unix))
  {
    var item, doc := Envelope.LogItem(|log.lines|), LogEnvelope.Doc(LogRing.Anchored(log, w.unix, w.uptime), Hex.Text(w.random.value), deviceId, w.later, w.unix);
    LogEnvelope.DocIsPrintable(LogRing.Anchored(log, w.unix, w.uptime), Hex.Text(w.random.value), deviceId, w.later, w.unix);
    ReadsBack(item, doc);
  }

  /** The JSON value a host finds in the third line of what it is sent. */
  function Payload(text: string): Option<Json.Json> {
    var lines := TextLines.Lines(text);
    if |lines| == 4 then Json.Parse(lines[2]) else None
  }

  /** Each line of the ring is in its own place, with its own body, level, trace, date and marks. */
  lemma {:induction false} LogBatchSays(log: LogRing.Log, deviceId: string, w: LogWorld)
    requires LogBatch(log, deviceId, w).Some?
    ensures var v := Payload(LogBatch(log, deviceId, w).value);
      v.Some? && LogEnvelope.LinesFound(v.value, log, Hex.Text(w.random.value), deviceId, w.later, w.unix)
  {
    var anchored, traceId := LogRing.Anchored(log, w.unix, w.uptime), Hex.Text(w.random.value);
    LogBatchReadsBack(log, deviceId, w);
    LogEnvelope.LinesAreFound(anchored, traceId, deviceId, w.later, w.unix);
    AnchorLeavesDates(log, w);
  }

  lemma {:induction false} AnchorLeavesDates(log: LogRing.Log, w: LogWorld)
    ensures LogEnvelope.Dates(LogRing.Anchored(log, w.unix, w.uptime), w.later, w.unix) == LogEnvelope.Dates(log, w.later, w.unix)
  {
    forall i | 0 <= i < |log.lines|
      ensures LogRing.EntryUnix(LogRing.Anchored(log, w.unix, w.uptime), log.lines[i], w.later, w.unix) == LogRing.EntryUnix(log, log.lines[i], w.later, w.unix)
    {
      Timeline.OwnAnchorDatesNothing(log, log.lines[i], w.unix, w.uptime, w.later, w.unix);
    }
  }

  /** On a device with a true clock, a host reads beside each line the moment it was recorded at. */
  lemma {:induction false} LogBatchTellsMoments(d: Timeline.Device, deviceId: string, w: LogWorld)
    requires Timeline.TellsTrue(d) && LogBatch(d.log, deviceId, w).Some?
    requires d.now <= w.unix && w.later == w.unix - d.born
    ensures var v := Payload(LogBatch(d.log, deviceId, w).value);
      v.Some? && LogEnvelope.LinesFoundAt(v.value, d.log.lines, Hex.Text(w.random.value), deviceId, Timeline.DueDates(d))
  {
    LogBatchSays(d.log, deviceId, w);
    DatesAreDue(d, w);
  }

  lemma {:induction false} DatesAreDue(d: Timeline.Device, w: LogWorld)
    requires Timeline.TellsTrue(d) && d.now <= w.unix && w.later == w.unix - d.born
    ensures LogEnvelope.Dates(d.log, w.later, w.unix) == Timeline.DueDates(d)
  {
    forall i | 0 <= i < |d.log.lines|
      ensures LogRing.EntryUnix(d.log, d.log.lines[i], w.later, w.unix) == Timeline.Due(d, i)
    {
      Timeline.DatedAtOnce(d, i, w.unix);
    }
  }

  /** Where nothing can be sent nothing is lost: without a route, a date or entropy no call is made. */
  lemma {:induction false} LinesWait(s: Lines, deviceId: string, w: LogWorld)
    requires !w.route || w.unix == 0 || w.random == None || w.random.value == []
    ensures LogBatch(s.log, deviceId, w) == None
    ensures LogsFlushed(s, deviceId, w).log.lines == s.log.lines && LogsFlushed(s, deviceId, w).dropped == s.dropped
  {
  }

  /** A batch the server may still take stays; one it took is gone; one it refused is counted. */
  lemma {:induction false} LinesFollowTheAnswer(s: Lines, deviceId: string, w: LogWorld)
    requires LogBatch(s.log, deviceId, w).Some?
    ensures var after := LogsFlushed(s, deviceId, w);
      match w.attempt.response.result
      case OK => after.log.lines == [] && after.dropped == s.dropped
      case REJECTED => after.log.lines == [] && after.dropped == Saturated(s.dropped + |s.log.lines|)
      case UNAVAILABLE => after.log.lines == s.log.lines && after.dropped == s.dropped
      case RATE_LIMITED => after.log.lines == s.log.lines && after.dropped == s.dropped
      case ERROR => after.log.lines == s.log.lines && after.dropped == s.dropped
  {
  }

  /** With route, date and entropy the only thing that keeps lines from going is their size. */
  lemma {:induction false} LinesGoOrAreTooMany(s: Lines, deviceId: string, w: LogWorld)
    requires s.log.lines != [] && w.route && w.unix != 0 && w.random.Some? && w.random.value != []
    ensures var needed := LogEnvelope.Needed(LogRing.Anchored(s.log, w.unix, w.uptime), Hex.Text(w.random.value), deviceId, w.later, w.unix);
      && (LogBatch(s.log, deviceId, w).Some? <==> 0 < needed < ENVELOPE_BUFFER_BYTES)
      && (LogBatch(s.log, deviceId, w) == None ==>
            LogsFlushed(s, deviceId, w).log.lines == [] && LogsFlushed(s, deviceId, w).dropped == Saturated(s.dropped + |s.log.lines|))
  {
  }

  lemma {:induction false} ReadsBack(item: Envelope.Item, doc: Json.Json)
    requires Envelope.PlainId(item) && Json.Printable(doc) && 0 < Envelope.Needed(item, doc) < ENVELOPE_BUFFER_BYTES
    ensures var lines := TextLines.Lines(Envelope.Text(item, doc));
      |lines| == 4 && Envelope.StatedLength(lines[1]) == Some(|lines[2]|) && Json.Parse(lines[2]) == Some(doc)
  {
    Envelope.LengthAndPayloadAgree(item, doc);
    Envelope.PayloadIsPart(item, doc);
  }

  /** A line is lost to size only if some string of its batch needs escaping or overran its buffer. */
  lemma {:induction false} PlainLinesAreNeverTooLarge(log: LogRing.Log, deviceId: string, w: LogWorld)
    requires |log.lines| <= LogRing.MAX_LOGS && LogEnvelope.PlainId(deviceId, LogEnvelope.DEVICE_ID_LEN)
    requires forall i :: 0 <= i < |log.lines| ==> LogEnvelope.PlainLine(log.lines[i])
    requires w.random.Some? ==> |w.random.value| == 16
    ensures LogOutcome(log, deviceId, w) != TooLarge
  {
    if log.lines != [] && w.route && w.unix != 0 && w.random.Some? {
      HexIsPlain(w.random.value);
      LogEnvelope.PlainRingAlwaysFits(LogRing.Anchored(log, w.unix, w.uptime), Hex.Text(w.random.value), deviceId, w.later, w.unix);
    }
  }

  lemma {:induction false} HexIsPlain(bytes: Bytes)
    ensures LogEnvelope.PlainId(Hex.Text(bytes), 2 * |bytes| + 1) && (bytes != [] ==> Hex.Text(bytes) != "")
    decreases |bytes|
  {
    if bytes != [] {
      HexIsPlain(bytes[1..]);
    }
  }

  // ---- Numbers

  datatype MetricWorld = MetricWorld(route: bool, traceBytes: Trace.Random, spanBytes: Trace.Random, unix: Micros, attempt: Attempt)

  /** The trace a batch goes out on: the active one, or one begun for it, which stays. */
  function BatchTrace(s: Trace.State, held: seq<Metrics.Metric>, w: MetricWorld): Trace.State {
    if held == [] || !w.route || s.trace.active then s else Trace.Next(s, Trace.Start(w.traceBytes, w.spanBytes))
  }

  function MetricOutcome(s: Trace.State, held: seq<Metrics.Metric>, w: MetricWorld): Outcome {
    var ctx := BatchTrace(s, held, w).trace;
    if held == [] then Empty
    else if !w.route then NoRoute
    else if !ctx.active then NoTrace
    else if w.unix == 0 then NoDate
    else Sized(Metrics.Needed(held, ctx.traceId, w.unix))
  }

  function MetricBatch(s: Trace.State, held: seq<Metrics.Metric>, w: MetricWorld): Option<string> {
    if MetricOutcome(s, held, w) != Went then None
    else Some(Envelope.Text(Envelope.MetricItem(|held|), Metrics.Doc(held, BatchTrace(s, held, w).trace.traceId, w.unix)))
  }

  function MetricsFlushed(s: Trace.State, held: seq<Metrics.Metric>, w: MetricWorld): seq<Metrics.Metric> {
    if FateOfBatch(MetricOutcome(s, held, w), w.attempt.response.result) == Held then held else []
  }

  /** A batch of numbers reads back to the whole table. */
  lemma {:induction false} MetricBatchReadsBack(s: Trace.State, held: seq<Metrics.Metric>, w: MetricWorld)
    requires MetricBatch(s, held, w).Some?
    ensures var lines := TextLines.Lines(MetricBatch(s, held, w).value);
      && |lines| == 4 && Envelope.StatedLength(lines[1]) == Some(|lines[2]|)
      && Json.Parse(lines[2]) == Some(Metrics.Doc(held, BatchTrace(s, held, w).trace.traceId, w.unix))
  {
    var doc := Metrics.Doc(held, BatchTrace(s, held, w).trace.traceId, w.unix);
    Metrics.DocIsPrintable(held, BatchTrace(s, held, w).trace.traceId, w.unix);
    ReadsBack(Envelope.MetricItem(|held|), doc);
  }

  /** Each number of the table is in its own place, with its own name, type, value and unit. */
  lemma {:induction false} MetricBatchSays(s: Trace.State, held: seq<Metrics.Metric>, w: MetricWorld)
    requires MetricBatch(s, held, w).Some?
    ensures var v := Payload(MetricBatch(s, held, w).value);
      v.Some? && Metrics.MetricsFound(v.value, held, BatchTrace(s, held, w).trace.traceId, w.unix)
  {
    MetricBatchReadsBack(s, held, w);
    Metrics.MetricsAreFound(held, BatchTrace(s, held, w).trace.traceId, w.unix);
  }

  /** Without a route, a date or a trace to go out on, numbers wait and no call is made. */
  lemma {:induction false} NumbersWait(s: Trace.State, held: seq<Metrics.Metric>, w: MetricWorld)
    requires !w.route || w.unix == 0 || !BatchTrace(s, held, w).trace.active
    ensures MetricBatch(s, held, w) == None && MetricsFlushed(s, held, w) == held
  {
  }

  /** A batch the server may still take stays, and the table is reset when it answered for good. */
  lemma {:induction false} NumbersFollowTheAnswer(s: Trace.State, held: seq<Metrics.Metric>, w: MetricWorld)
    requires MetricBatch(s, held, w).Some?
    ensures var r := w.attempt.response.result;
      MetricsFlushed(s, held, w) == if r == OK || r == REJECTED then [] else held
  {
  }

  /** The trace may change between any two events, so each flush comes with its own. */
  datatype MetricEvent = Report(op: Metrics.Op) | FlushMetrics(traces: Trace.State, world: MetricWorld)

  function NextHeld(held: seq<Metrics.Metric>, e: MetricEvent): seq<Metrics.Metric> {
    match e
    case Report(op) => Metrics.Applied(held, op)
    case FlushMetrics(traces, w) => MetricsFlushed(traces, held, w)
  }

  function RunHeld(held: seq<Metrics.Metric>, events: seq<MetricEvent>): seq<Metrics.Metric>
    decreases |events|
  {
    if events == [] then held else RunHeld(NextHeld(held, events[0]), events[1..])
  }

  function ValueIn(held: seq<Metrics.Metric>, key: Metrics.Key): int {
    var i := Metrics.IndexOf(held, key);
    if i < |held| then held[i].value else 0
  }

  /** What one event adds to a counter, if the table takes the name. */
  function Accepted(held: seq<Metrics.Metric>, e: MetricEvent, key: Metrics.Key): int {
    if e.Report? && e.op.key == key && Metrics.Takes(held, key) then e.op.amount else 0
  }

  /** What one event sends of a counter with a given fate. */
  function Left(held: seq<Metrics.Metric>, e: MetricEvent, key: Metrics.Key, fate: Fate): int {
    if e.FlushMetrics? && FateOfBatch(MetricOutcome(e.traces, held, e.world), e.world.attempt.response.result) == fate
    then ValueIn(held, key) else 0
  }

  function AllAccepted(held: seq<Metrics.Metric>, events: seq<MetricEvent>, key: Metrics.Key): int
    decreases |events|
  {
    if events == [] then 0 else Accepted(held, events[0], key) + AllAccepted(NextHeld(held, events[0]), events[1..], key)
  }

  function AllLeft(held: seq<Metrics.Metric>, events: seq<MetricEvent>, key: Metrics.Key, fate: Fate): int
    decreases |events|
  {
    if events == [] then 0 else Left(held, events[0], key, fate) + AllLeft(NextHeld(held, events[0]), events[1..], key, fate)
  }

  lemma {:induction false} ReportAdds(held: seq<Metrics.Metric>, op: Metrics.Op, key: Metrics.Key)
    requires key.kind == Metrics.Counter
    ensures ValueIn(Metrics.Applied(held, op), key) == ValueIn(held, key) + Accepted(held, Report(op), key)
  {
    var after, i, k := Metrics.Applied(held, op), Metrics.IndexOf(held, op.key), Metrics.IndexOf(held, key);
    if i < |held| || |held| >= Metrics.MAX_METRICS {
      Metrics.IndexIs(after, key, k);
    } else if op.key == key {
      Metrics.IndexIs(after, key, |held|);
    } else {
      Metrics.IndexIs(after, key, if k < |held| then k else |held| + 1);
    }
  }

  /**
   Over every run, whatever the transport does: the deltas a counter accepted are in the batches
   delivered, the batches discarded and the table, and no flush that holds a batch counts it twice.
   */
  lemma {:induction false} EveryDeltaIsAccounted(held: seq<Metrics.Metric>, events: seq<MetricEvent>, key: Metrics.Key)
    requires key.kind == Metrics.Counter
    ensures ValueIn(held, key) + AllAccepted(held, events, key)
         == AllLeft(held, events, key, Taken) + AllLeft(held, events, key, Lost) + ValueIn(RunHeld(held, events), key)
    decreases |events|
  {
    if events != [] {
      var e := events[0];
      if e.Report? {
        ReportAdds(held, e.op, key);
      }
      EveryDeltaIsAccounted(NextHeld(held, e), events[1..], key);
    }
  }
}
