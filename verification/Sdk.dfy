/**
 The one statically allocated SDK: what each call of its interface does to everything it holds.

 Every method is tied to the functions of the module that proves what they promise: the post to
 Delivery, the batches to Batches, the traces to Trace. What the transport answers, when it answers,
 whether storage works and what random bytes there are come in as parameters.
 */
module Sdk {
  import opened Prelude
  import opened OfflineBuffer
  import opened Delivery
  import opened Batches
  import Dsn
  import Hex
  import LogEnvelope
  import LogRing
  import Metrics
  import Envelope
  import Trace

  /** The options an init is given, and the device's own id. No DSN is an empty one. */
  datatype Options = Options(dsn: string, orgId: string, strict: bool, deviceId: string)

  const NO_OPTIONS: Options := Options("", "", false, "")

  class Sdk {
    var options: Options
    var ingest: Option<Dsn.Ingest>
    var enabled: bool
    var buffering: bool
    const buffer: RingBuffer
    var retryAfter: nat
    var trace: Trace.Context
    var crashTrace: Trace.Context
    const metrics: Metrics.Table
    var metricsDropped: UInt32
    var hasRing: bool             // this boot records lines in the block
    var logsDropped: UInt32
    var logsTruncated: UInt32

    /** RTC memory: the persisted trace, and the block the log ring lives in. */
    var rtc: Trace.Rtc
    const block: LogRing.Ring

    /** Buffering is on exactly when the buffer has storage. */
    ghost predicate PostValid()
      reads this`buffering, buffer, buffer.storage
    {
      buffer.Valid() && (buffering <==> buffer.storage != null)
    }

    /** The parts share no memory. */
    ghost predicate Apart() {
      && (buffer as object) !in {metrics as object, metrics.items, block, block.entries, this}
      && (metrics as object) !in {block as object, block.entries, this} && (metrics.items as object) !in {block as object, block.entries, this}
      && (block as object) != this && (block.entries as object) != this
    }

    ghost predicate Valid()
      reads this`buffering, buffer, buffer.storage, metrics, metrics.items, block
    {
      Apart() && PostValid() && block.Valid() && metrics.Valid()
    }

    ghost function PostView(): Post
      requires buffer.Valid()
      reads this`retryAfter, buffer, buffer.storage
    {
      Post(buffer.Queue(), if buffer.storage == null then 0 else |buffer.storage.flash.slots|, buffer.dropped, retryAfter)
    }

    ghost function TraceView(): Trace.State
      reads this`enabled, this`trace, this`crashTrace, this`rtc
    {
      Trace.State(enabled, trace, crashTrace, rtc)
    }

    ghost function LinesView(): Lines
      requires block.Valid()
      reads this`hasRing, this`logsDropped, block, block.entries
    {
      Lines(if hasRing then block.View() else LogRing.BLANK, logsDropped)
    }

    constructor (rtc: Trace.Rtc)
      ensures Valid() && PostView() == Post([], 0, 0, 0) && TraceView() == Trace.State(false, Trace.CLEARED, Trace.CLEARED, rtc)
      ensures !hasRing && ingest == None
      ensures fresh(buffer) && fresh(metrics) && fresh(metrics.items) && fresh(block) && fresh(block.entries)
    {
      options, ingest := NO_OPTIONS, None;
      enabled, buffering, retryAfter := false, false, 0;
      trace, crashTrace := Trace.CLEARED, Trace.CLEARED;
      metricsDropped, logsDropped, logsTruncated, hasRing := 0, 0, 0, false;
      this.rtc := rtc;
      buffer := new RingBuffer();
      metrics := new Metrics.Table();
      block := new LogRing.Ring();
    }

    // ---- Coming and going

    /** Everything in RAM is forgotten, the DSN with it; the RTC memory is left as it is. */
    method Close()
      modifies this`options, this`ingest, this`enabled, this`buffering, this`retryAfter, this`trace, this`crashTrace,
        this`metricsDropped, this`hasRing, this`logsDropped, this`logsTruncated, buffer, metrics, metrics.items
      requires metrics.Valid()
      ensures PostValid() && PostView() == Post([], 0, 0, 0)
      ensures metrics.Valid() && metrics.held == [] && metricsDropped == 0
      ensures TraceView() == Trace.Next(old(TraceView()), Trace.Close)
      ensures !hasRing && logsDropped == 0 && logsTruncated == 0 && ingest == None
    {
      ForgetFields();
      metrics.Reset();
      ForgetPost();
    }

    method ForgetFields()
      modifies this`options, this`ingest, this`enabled, this`trace, this`crashTrace, this`metricsDropped, this`hasRing, this`logsDropped, this`logsTruncated
      ensures TraceView() == Trace.Next(old(TraceView()), Trace.Close)
      ensures options == NO_OPTIONS && ingest == None && metricsDropped == 0 && !hasRing && logsDropped == 0 && logsTruncated == 0
    {
      options, ingest := NO_OPTIONS, None;
      enabled, trace, crashTrace := false, Trace.CLEARED, Trace.CLEARED;
      metricsDropped, logsDropped, logsTruncated, hasRing := 0, 0, 0, false;
    }

    method ForgetPost()
      modifies this`buffering, this`retryAfter, buffer
      ensures PostValid() && PostView() == Post([], 0, 0, 0)
    {
      buffering, retryAfter := false, 0;
      var _ := buffer.Init(null, false);
    }

    method Persist(ctx: Trace.Context)
      modifies this`rtc
      ensures rtc == Trace.Persisted(ctx)
    {
      rtc := if Trace.CONTEXT_BYTES > Trace.RTC_TRACE_CAP then None else Some(ctx);
    }

    /**
     Options or none. `fits`: the platform has a block for the ring. `recovered`: its magic, layout
     and length agree.
     */
    method Init(given: Option<Options>, fits: bool, recovered: bool) returns (ready: bool)
      requires Apart() && metrics.Valid() && block.Valid()
      modifies this, buffer, metrics, metrics.items, block, block.entries
      ensures Valid() && PostView() == Post([], 0, 0, 0) && metrics.held == [] && metricsDropped == 0 && logsDropped == 0
      ensures ready == (given.Some? && Dsn.Prepared(given.value.dsn).Some?)
      ensures given.Some? ==> options == given.value && ingest == Dsn.Prepared(given.value.dsn)
      ensures TraceView() == Trace.Next(old(TraceView()), Trace.Init(ready)) && hasRing == (ready && fits)
      ensures block.View() == if hasRing then LogRing.BootBegun(if recovered then old(block.View()) else LogRing.BLANK) else old(block.View())
    {
      var prepared: Option<Dsn.Ingest> := None;
      if given.Some? {
        prepared := Dsn.Prepare(given.value.dsn);
      }
      ready := prepared.Some?;
      Restart(if given.Some? then given.value else NO_OPTIONS, prepared, fits, recovered);
    }

    /** Start over, with somewhere to report to or disabled. */
    method Restart(given: Options, prepared: Option<Dsn.Ingest>, fits: bool, recovered: bool)
      requires Apart() && metrics.Valid() && block.Valid()
      modifies this, buffer, metrics, metrics.items, block, block.entries
      ensures Valid() && PostView() == Post([], 0, 0, 0) && metrics.held == [] && metricsDropped == 0 && logsDropped == 0
      ensures options == given && ingest == prepared
      ensures TraceView() == Trace.Next(old(TraceView()), Trace.Init(prepared.Some?)) && hasRing == (prepared.Some? && fits)
      ensures block.View() == if hasRing then LogRing.BootBegun(if recovered then old(block.View()) else LogRing.BLANK) else old(block.View())
    {
      Close();
      options, ingest := given, prepared;
      if prepared.Some? {
        Resume(fits, recovered);
      }
    }

    /** What a boot that can report takes over from the last one. */
    method Resume(fits: bool, recovered: bool)
      requires block.Valid()
      modifies this`enabled, this`trace, this`crashTrace, this`rtc, this`hasRing, block, block.entries
      ensures block.Valid() && hasRing == fits
      ensures TraceView() == Trace.Next(old(TraceView()), Trace.Init(true))
      ensures block.View() == if fits then LogRing.BootBegun(if recovered then old(block.View()) else LogRing.BLANK) else old(block.View())
    {
      RecoverTrace();
      hasRing := fits;
      if fits {
        ResumeRing(recovered);
      }
      enabled := true;
    }

    /** The trace the last boot ended in is set aside, and the slot cleared: nothing is in flight yet. */
    method RecoverTrace()
      modifies this`trace, this`crashTrace, this`rtc
      ensures crashTrace == Trace.RecoveredFrom(old(rtc)) && trace == Trace.CLEARED && rtc == Trace.Persisted(Trace.CLEARED)
    {
      crashTrace := if rtc.Some? then rtc.value else Trace.CLEARED;
      trace := Trace.CLEARED;
      Persist(trace);
    }

    method ResumeRing(recovered: bool)
      requires block.Valid()
      modifies block, block.entries
      ensures block.Valid() && block.View() == LogRing.BootBegun(if recovered then old(block.View()) else LogRing.BLANK)
    {
      if !recovered {
        block.Reset();
      }
      var _ := block.BeginBoot();
    }

    /** The configured organization, else the one the DSN's host names. */
    function OwnOrg(): string
      reads this`options, this`ingest
    {
      Dsn.ResolveOrgId(if ingest.Some? then Some(ingest.value.dsn) else None, options.orgId)
    }

    method EnableBuffering(storage: SlotStore?, loads: bool) returns (on: bool)
      requires Valid()
      modifies this`buffering, buffer
      ensures Valid() && on == buffering == (storage != null && |storage.flash.slots| > 0)
      ensures on ==> var r := Boot(storage.flash, loads);
        PostView() == Post(Contents(r, storage.flash), |storage.flash.slots|, r.dropped, retryAfter)
      ensures !on ==> PostView() == Post([], 0, 0, retryAfter)
    {
      on := buffer.Init(storage, loads);
      buffering := on;
    }

    // ---- Sending

    /** One call of the transport, never touching the buffer. */
    method Deliver(a: Attempt) returns (response: Response)
      modifies this`retryAfter
      ensures response == a.response && retryAfter == After(old(retryAfter), a)
    {
      if a.response.retryAfterMs > 0 {
        retryAfter := (a.ended + a.response.retryAfterMs) % UINT64_MODULUS;
      }
      return a.response;
    }

    /** A disabled SDK and an empty envelope are turned away; anything else is a Send of the Delivery module. */
    method SendEnvelope(envelope: Bytes, a: Attempt, w: Weather) returns (response: Response)
      requires PostValid()
      modifies this`retryAfter, buffer, buffer.storage
      ensures PostValid() && buffer.storage == old(buffer.storage)
      ensures !enabled || envelope == [] ==> response == ResponseMake(UNAVAILABLE) && PostView() == old(PostView())
      ensures enabled && envelope != [] ==>
        response == Answer(old(PostView()), a) && PostView() == Next(old(PostView()), Send(envelope, a, w.writes))
    {
      if !enabled || envelope == [] {
        return ResponseMake(UNAVAILABLE);
      }
      if retryAfter > 0 && a.begun < retryAfter {
        response := ResponseMake(RATE_LIMITED);
      } else {
        response := Deliver(a);
      }
      if response.result != OK && buffering && WorthRetrying(response.result) {
        Keep(envelope, w);
      }
    }

    method Keep(envelope: Bytes, w: Weather)
      requires PostValid() && buffering && envelope != []
      modifies buffer, buffer.storage
      ensures PostValid() && buffer.storage == old(buffer.storage)
      ensures PostView() == Kept(old(PostView()), envelope, w.writes)
    {
      PushIsDropOldestAppend(buffer.View(), buffer.storage.flash, envelope, w);
      var _ := buffer.Push(envelope, w);
    }

    method RemoveOldest(w: Weather)
      requires PostValid() && buffering && buffer.Queue() != []
      modifies buffer, buffer.storage
      ensures PostValid() && buffer.storage == old(buffer.storage)
      ensures PostView() == old(PostView()).(queue := old(PostView()).queue[1..])
    {
      var _ := buffer.Pop(w);
    }

    /** One round of the flush loop. */
    method FlushOldest(t: Try) returns (fate: Delivery.Fate)
      requires PostValid() && buffering && buffer.Queue() != []
      modifies this`retryAfter, buffer, buffer.storage
      ensures PostValid() && buffer.storage == old(buffer.storage)
      ensures fate == FateOf(old(buffer.Queue())[0], t) && PostView() == Round(old(PostView()), fate, t.attempt)
    {
      var envelope := buffer.Peek(ENVELOPE_BUFFER_BYTES, t.readable);
      if envelope == None {
        RemoveOldest(t.weather);
        return Unreadable;
      }
      var response := Deliver(t.attempt);
      if response.result == OK {
        RemoveOldest(t.weather);
        return Delivered;
      }
      if !WorthRetrying(response.result) {
        RemoveOldest(t.weather);
        return Rejected;
      }
      return Waiting;
    }

    /** The loop over the buffered envelopes. */
    method FlushBuffered(max: nat, world: nat -> Try) returns (delivered: nat)
      requires PostValid() && buffering
      modifies this`retryAfter, buffer, buffer.storage
      ensures PostValid() && buffer.storage == old(buffer.storage)
      ensures (PostView(), delivered) == Loop(old(PostView()), max, world, 0, 0)
    {
      delivered := 0;
      var i: nat := 0;
      while delivered < max && buffer.Waiting() > 0
        invariant PostValid() && buffer.storage == old(buffer.storage)
        invariant Loop(PostView(), max, world, i, delivered) == Loop(old(PostView()), max, world, 0, 0)
        decreases |PostView().queue|
      {
        var fate := FlushOldest(world(i));
        if fate == Waiting {
          return;
        }
        delivered := if fate == Delivered then delivered + 1 else delivered;
        i := i + 1;
      }
    }

    /** The table, the trace and the ring follow the Batches module, and `calls` are the transport calls that took. */
    twostate predicate BatchesFlushed(m: MetricWorld, l: LogWorld, calls: seq<Attempt>)
      requires old(block.Valid()) && block.Valid()
      reads this`enabled, this`trace, this`crashTrace, this`rtc, this`options, this`hasRing, this`logsDropped, metrics, block, block.entries
    {
      && metrics.held == MetricsFlushed(old(TraceView()), old(metrics.held), m)
      && TraceView() == BatchTrace(old(TraceView()), old(metrics.held), m)
      && LinesView() == LogsFlushed(old(LinesView()), options.deviceId, l)
      && calls == BatchCalls(old(TraceView()), old(metrics.held), m, old(LinesView()).log, options.deviceId, l)
    }

    /**
     Deliver what has accumulated and what waits; `begun` is the uptime of the call, `calls` what the
     batches took.
     */
    method Flush(max: nat, begun: nat, m: MetricWorld, l: LogWorld, world: nat -> Try) returns (delivered: nat, ghost calls: seq<Attempt>)
      requires Valid()
      modifies this`retryAfter, this`trace, this`rtc, this`logsDropped, buffer, buffer.storage, metrics, metrics.items, block, block.entries
      ensures Valid() && buffer.storage == old(buffer.storage)
      ensures !enabled || InBackoff(old(retryAfter), begun) ==>
        delivered == 0 && PostView() == old(PostView()) && TraceView() == old(TraceView()) && metrics.held == old(metrics.held) && LinesView() == old(LinesView())
      ensures enabled && !InBackoff(old(retryAfter), begun) ==>
        BatchesFlushed(m, l, calls) && Done(old(PostView()), Delivery.Flush(begun, calls, max, world), delivered, PostView())
    {
      delivered, calls := 0, [];
      if !enabled || (retryAfter > 0 && begun < retryAfter) {
        return;
      }
      delivered, calls := FlushNow(max, begun, m, l, world);
    }

    method FlushNow(max: nat, ghost begun: nat, m: MetricWorld, l: LogWorld, world: nat -> Try) returns (delivered: nat, ghost calls: seq<Attempt>)
      requires Valid() && enabled && !InBackoff(retryAfter, begun)
      modifies this`retryAfter, this`trace, this`rtc, this`logsDropped, buffer, buffer.storage, metrics, metrics.items, block, block.entries
      ensures Valid() && buffer.storage == old(buffer.storage)
      ensures BatchesFlushed(m, l, calls) && Done(old(PostView()), Delivery.Flush(begun, calls, max, world), delivered, PostView())
    {
      ghost var p := PostView();
      calls := FlushBatches(m, l);
      delivered := FlushRest(p, begun, calls, max, world);
    }

    /** The numbers, then the lines. Neither touches the buffer. */
    method FlushBatches(m: MetricWorld, l: LogWorld) returns (ghost calls: seq<Attempt>)
      requires Apart() && metrics.Valid() && block.Valid() && enabled
      modifies this`retryAfter, this`trace, this`rtc, this`logsDropped, metrics, metrics.items, block, block.entries
      ensures metrics.Valid() && block.Valid()
      ensures BatchesFlushed(m, l, calls) && retryAfter == AfterAll(old(retryAfter), calls)
    {
      ghost var before := retryAfter;
      var _, first := FlushMetrics(m);
      var _, second := FlushLogs(l);
      calls := first + second;
      AfterAllAppend(before, first, second);
    }

    /** The buffered envelopes come last, if there is a buffer. */
    method FlushRest(ghost p: Post, ghost begun: nat, ghost batches: seq<Attempt>, max: nat, world: nat -> Try) returns (delivered: nat)
      requires PostValid() && !InBackoff(p.retryAfter, begun) && PostView() == p.(retryAfter := AfterAll(p.retryAfter, batches))
      modifies this`retryAfter, buffer, buffer.storage
      ensures PostValid() && buffer.storage == old(buffer.storage)
      ensures Done(p, Delivery.Flush(begun, batches, max, world), delivered, PostView())
    {
      delivered := 0;
      if buffering {
        delivered := FlushBuffered(max, world);
      }
      BatchesFirst(p, begun, batches, max, world, delivered, PostView());
    }

    /** The log ring is sent, held or given up. `batch` is what the transport was handed. */
    method FlushLogs(w: LogWorld) returns (batch: Option<string>, ghost calls: seq<Attempt>)
      requires block.Valid()
      modifies this`retryAfter, this`logsDropped, block, block.entries
      ensures block.Valid() && LinesView() == LogsFlushed(old(LinesView()), options.deviceId, w)
      ensures calls == CallsOfBatch(LogOutcome(old(LinesView()).log, options.deviceId, w), w.attempt) && retryAfter == AfterAll(old(retryAfter), calls)
      ensures batch == LogBatch(old(LinesView()).log, options.deviceId, w)
    {
      batch, calls := None, [];
      if hasRing && block.count > 0 {
        ghost var log := block.View();
        block.SetAnchor(w.unix, w.uptime);
        batch := EncodeBatch(w);
        calls := FlushLines(batch, w);
        AnchoredOutcome(log, options.deviceId, w);
      }
    }

    /** Send the batch if it can go: a route, a date and entropy are had, and it could be encoded. */
    method FlushLines(batch: Option<string>, w: LogWorld) returns (ghost calls: seq<Attempt>)
      requires block.Valid() && hasRing
      modifies this`retryAfter, this`logsDropped, block, block.entries
      ensures var outcome := Encoded(batch, w);
        && block.Valid() && LinesView() == LogsSettled(old(LinesView()), FateOfBatch(outcome, w.attempt.response.result))
        && calls == CallsOfBatch(outcome, w.attempt) && retryAfter == AfterAll(old(retryAfter), calls)
    {
      OneCall(retryAfter, w.attempt);
      calls := [];
      if w.route && w.unix != 0 && w.random.Some? && w.random.value != [] {
        calls := if batch == None then [] else [w.attempt];
        SendLogs(batch, w.attempt);
      }
    }

    /** A batch that cannot go yet is not encoded. */
    method EncodeBatch(w: LogWorld) returns (batch: Option<string>)
      requires block.Valid()
      ensures batch == SendText(block.View(), options.deviceId, w)
    {
      batch := None;
      if w.route && w.unix != 0 && w.random.Some? && w.random.value != [] {
        var fallback := Hex.Encode(w.random.value);
        batch := EncodeLogs(fallback, w.later, w.unix);
      }
    }

    /** A batch that could not be encoded is given up unsent. */
    method SendLogs(batch: Option<string>, a: Attempt)
      requires block.Valid() && hasRing
      modifies this`retryAfter, this`logsDropped, block, block.entries
      ensures block.Valid()
      ensures LinesView() == LogsSettled(old(LinesView()), FateOfBatch(if batch == None then TooLarge else Went, a.response.result))
      ensures retryAfter == if batch == None then old(retryAfter) else After(old(retryAfter), a)
    {
      if batch == None {
        GiveUpLogs();
        return;
      }
      var response := Deliver(a);
      if response.result == OK {
        block.Clear();
      } else if !WorthRetrying(response.result) {
        GiveUpLogs();
      }
    }

    /** A batch that does not fit is none at all. */
    method EncodeLogs(fallback: string, later: LogRing.Micros, unix: LogRing.Micros) returns (batch: Option<string>)
      requires block.Valid()
      ensures batch == LogText(block.View(), fallback, options.deviceId, later, unix)
    {
      var text := new char[ENVELOPE_BUFFER_BYTES](_ => ' ');
      var needed := LogEnvelope.Write(block, fallback, options.deviceId, later, unix, text, ENVELOPE_BUFFER_BYTES);
      batch := if needed == 0 || needed >= ENVELOPE_BUFFER_BYTES then None else Some(text[..needed]);
    }

    method GiveUpLogs()
      requires block.Valid() && hasRing
      modifies this`logsDropped, block, block.entries
      ensures block.Valid()
      ensures LinesView() == Lines(LogRing.Cleared(old(LinesView()).log), Saturated(old(logsDropped) + |old(LinesView()).log.lines|))
    {
      CountLogsDropped(block.count);
      block.Clear();
    }

    method CountLogsDropped(lost: nat)
      modifies this`logsDropped
      ensures logsDropped == Saturated(old(logsDropped) + lost)
    {
      logsDropped := if UINT32_MAX - logsDropped < lost then UINT32_MAX else logsDropped + lost;
    }

    /** The metrics table is sent, held or given up. A trace begun for it stays. */
    method FlushMetrics(w: MetricWorld) returns (batch: Option<string>, ghost calls: seq<Attempt>)
      requires metrics.Valid() && enabled
      modifies this`retryAfter, this`trace, this`rtc, metrics, metrics.items
      ensures metrics.Valid() && metrics.held == MetricsFlushed(old(TraceView()), old(metrics.held), w)
      ensures TraceView() == BatchTrace(old(TraceView()), old(metrics.held), w)
      ensures calls == CallsOfBatch(MetricOutcome(old(TraceView()), old(metrics.held), w), w.attempt) && retryAfter == AfterAll(old(retryAfter), calls)
      ensures batch == MetricBatch(old(TraceView()), old(metrics.held), w)
    {
      OneCall(retryAfter, w.attempt);
      batch, calls := None, [];
      var empty := metrics.Empty();
      if empty || !w.route {
        return;
      }
      if !trace.active {
        var _ := TraceStart(w.traceBytes, w.spanBytes);
      }
      if !trace.active || w.unix == 0 {
        return;
      }
      batch := EncodeMetrics(w.unix);
      calls := if batch == None then [] else [w.attempt];
      SendMetrics(batch, w.attempt);
    }

    method SendMetrics(batch: Option<string>, a: Attempt)
      requires metrics.Valid()
      modifies this`retryAfter, metrics, metrics.items
      ensures metrics.Valid()
      ensures metrics.held == if FateOfBatch(if batch == None then TooLarge else Went, a.response.result) == Held then old(metrics.held) else []
      ensures retryAfter == if batch == None then old(retryAfter) else After(old(retryAfter), a)
    {
      if batch == None {
        metrics.Reset();
        return;
      }
      var response := Deliver(a);
      if response.result == OK || !WorthRetrying(response.result) {
        metrics.Reset();
      }
    }

    method EncodeMetrics(unix: LogRing.Micros) returns (batch: Option<string>)
      requires metrics.Valid()
      ensures batch == MetricText(metrics.held, trace.traceId, unix)
    {
      var text := new char[ENVELOPE_BUFFER_BYTES](_ => ' ');
      var needed := Metrics.Write(metrics, trace.traceId, unix, text, ENVELOPE_BUFFER_BYTES);
      batch := if needed == 0 || needed >= ENVELOPE_BUFFER_BYTES then None else Some(text[..needed]);
    }

    // ---- Recording

    /** A printf-style line; the ring keeps what fits and says when something did not. */
    method Log(level: int, text: string, uptime: LogRing.Micros)
      requires block.Valid()
      modifies this`logsDropped, this`logsTruncated, block, block.entries
      ensures block.Valid()
      ensures enabled && hasRing ==>
        LinesView() == LineRecorded(old(LinesView()), LogRing.Recorded(old(LinesView()).log, level, Some(if trace.active then trace.traceId else ""), uptime, text, false))
      ensures !enabled || !hasRing ==> LinesView() == old(LinesView())
      ensures logsTruncated == if enabled && |text| >= LogRing.BODY_LEN then Saturated(old(logsTruncated) + 1) else old(logsTruncated)
    {
      if !enabled {
        return;
      }
      var body := LogRing.Bounded(text, LogRing.BODY_LEN);
      var truncated := |text| >= LogRing.BODY_LEN;
      if truncated && logsTruncated < UINT32_MAX {
        logsTruncated := logsTruncated + 1;
      }
      if hasRing {
        var evicted := block.Push(level, Some(if trace.active then trace.traceId else ""), uptime, body, truncated);
        if evicted {
          CountLogsDropped(1);
        }
      }
    }

    /** A refused report is counted, every time it is refused. */
    method Metric(op: Metrics.Op)
      requires metrics.Valid()
      modifies this`metricsDropped, metrics, metrics.items
      ensures metrics.Valid()
      ensures !enabled ==> metrics.held == old(metrics.held) && metricsDropped == old(metricsDropped)
      ensures enabled ==> metrics.held == Metrics.Used(old(metrics.held), Metrics.Report(op))
      ensures enabled ==> metricsDropped == Metrics.NextDropped(old(metricsDropped), old(metrics.held), Metrics.Report(op))
    {
      if enabled {
        var accepted := metrics.Apply(op);
        if !accepted {
          metricsDropped := (metricsDropped + 1) % UINT32_MODULUS;
        }
      }
    }

    // ---- Traces

    method SetTrace(ctx: Trace.Context)
      modifies this`trace, this`rtc
      ensures TraceView() == Trace.Tracing(old(TraceView()), ctx)
    {
      trace := ctx;
      Persist(ctx);
    }

    method TraceAdopt(header: Option<string>, baggage: string, span: Trace.Random, minted: Trace.Random) returns (adopted: bool)
      modifies this`trace, this`rtc
      ensures TraceView() == Trace.Next(old(TraceView()), Trace.Adopt(header, baggage, span, minted, OwnOrg(), options.strict))
      ensures adopted ==> trace.active
      ensures !adopted ==> TraceView() == old(TraceView()) || trace == Trace.CLEARED
    {
      if !enabled || span == None {
        return false;
      }
      var parsed := Trace.AdoptHeader(header, baggage, span.value);
      if parsed == None {
        SetTrace(Trace.CLEARED);
        return false;
      }
      if !Trace.CanContinue(parsed.value.orgId, OwnOrg(), options.strict) {
        if minted == None {
          SetTrace(Trace.CLEARED);
          return false;
        }
        SetTrace(Trace.Begin(minted.value, span.value, true));
        return true;
      }
      SetTrace(parsed.value);
      return true;
    }

    method TraceStart(traceBytes: Trace.Random, spanBytes: Trace.Random) returns (started: bool)
      modifies this`trace, this`rtc
      ensures TraceView() == Trace.Next(old(TraceView()), Trace.Start(traceBytes, spanBytes))
      ensures started == (enabled && traceBytes.Some? && spanBytes.Some?)
    {
      if !enabled || traceBytes == None || spanBytes == None {
        return false;
      }
      SetTrace(Trace.Begin(traceBytes.value, spanBytes.value, true));
      return true;
    }

    method TraceRelease()
      modifies this`trace, this`rtc
      ensures TraceView() == Trace.Next(old(TraceView()), Trace.Release)
    {
      SetTrace(Trace.CLEARED);
    }

    /** The trace a recovered crash is reported on: the one it happened in, never the one being served. */
    method AttachCoredump(available: bool) returns (attached: bool, reportOn: Option<Trace.Context>)
      ensures attached == (enabled && available)
      ensures reportOn == if attached then Trace.CrashReportTrace(TraceView()) else None
    {
      attached, reportOn := enabled && available, None;
      if attached && crashTrace.active {
        reportOn := Some(crashTrace);
      }
    }
  }

  /** The transport calls a flush makes before it comes to the buffered envelopes. */
  function BatchCalls(s: Trace.State, held: seq<Metrics.Metric>, m: MetricWorld, log: LogRing.Log, deviceId: string, l: LogWorld): seq<Attempt> {
    CallsOfBatch(MetricOutcome(s, held, m), m.attempt) + CallsOfBatch(LogOutcome(log, deviceId, l), l.attempt)
  }

  function LogText(log: LogRing.Log, fallback: string, deviceId: string, later: LogRing.Micros, unix: LogRing.Micros): Option<string> {
    if Sized(LogEnvelope.Needed(log, fallback, deviceId, later, unix)) != Went then None
    else Some(Envelope.Text(Envelope.LogItem(|log.lines|), LogEnvelope.Doc(log, fallback, deviceId, later, unix)))
  }

  function MetricText(held: seq<Metrics.Metric>, traceId: string, unix: LogRing.Micros): Option<string> {
    if Sized(Metrics.Needed(held, traceId, unix)) != Went then None
    else Some(Envelope.Text(Envelope.MetricItem(|held|), Metrics.Doc(held, traceId, unix)))
  }

  function SendText(log: LogRing.Log, deviceId: string, w: LogWorld): Option<string> {
    if !w.route || w.unix == 0 || w.random == None || w.random.value == [] then None
    else LogText(log, Hex.Text(w.random.value), deviceId, w.later, w.unix)
  }

  /** What a batch comes to that was encoded, or could not be, or need not be yet. */
  function Encoded(batch: Option<string>, w: LogWorld): Outcome {
    if !w.route then NoRoute
    else if w.unix == 0 then NoDate
    else if w.random == None || w.random.value == [] then NoTrace
    else if batch == None then TooLarge
    else Went
  }

  lemma {:induction false} AnchoredOutcome(log: LogRing.Log, deviceId: string, w: LogWorld)
    requires log.lines != []
    ensures var batch := SendText(LogRing.Anchored(log, w.unix, w.uptime), deviceId, w);
      LogOutcome(log, deviceId, w) == Encoded(batch, w) && LogBatch(log, deviceId, w) == batch
  {
  }

  lemma {:induction false} OneCall(retryAfter: nat, a: Attempt)
    ensures AfterAll(retryAfter, []) == retryAfter && AfterAll(retryAfter, [a]) == After(retryAfter, a)
  {
    assert [a][..0] == [];
  }

  /** A flush of the Delivery module that was not backing off, and what it reports. */
  ghost predicate Done(p: Post, e: Event, delivered: nat, now: Post)
    requires e.Flush?
  {
    now == Next(p, e) && delivered == |Entry(p, e).delivered|
  }

  /** Batches move the deadline and leave the queue to the loop. */
  lemma {:induction false} BatchesFirst(p: Post, begun: nat, batches: seq<Attempt>, max: nat, world: nat -> Try, delivered: nat, now: Post)
    requires !InBackoff(p.retryAfter, begun)
    requires (now, delivered) == Loop(p.(retryAfter := AfterAll(p.retryAfter, batches)), max, world, 0, 0)
    ensures Done(p, Delivery.Flush(begun, batches, max, world), delivered, now)
  {
    var more := Attempts(p.queue, world, Tried(p, max, world));
    AfterAllAppend(p.retryAfter, batches, more);
    assert [] + more == more;
    var q := p.(retryAfter := AfterAll(p.retryAfter, batches));
    LoopIsFlush(q, max, world);
  }
}
