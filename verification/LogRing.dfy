/**
 The ring of console lines, in memory that survives a reset, and how each line is dated.

 `Log` is the ring as a value: the lines held, oldest first, and what it knows about boots and clocks.
 `Ring` is the struct, updated in place.
 */
module LogRing {
  import opened Prelude

  const MAX_LOGS: nat := 6
  const BODY_LEN: nat := 81
  const TRACE_ID_LEN: nat := 33

  type Micros = x: int | 0 <= x < UINT64_MODULUS

  datatype Entry = Entry(body: string, traceId: string, uptime: Micros, level: int, truncated: bool, bootSeq: Byte)

  /** A wall clock reading and the uptime it was taken at; 0 when the date was not known. */
  datatype Anchor = Anchor(unix: Micros, uptime: Micros)

  datatype Log = Log(lines: seq<Entry>, dropped: nat, bootSeq: Byte, anchor: Anchor, prevAnchor: Anchor)

  /** "%s" into a fixed buffer. */
  function Bounded(t: string, cap: nat): (r: string)
    requires cap > 0
    ensures |r| < cap
  {
    if |t| < cap then t else t[..cap - 1]
  }

  function Recorded(log: Log, level: int, traceId: Option<string>, uptime: Micros, body: string, truncated: bool): Entry {
    Entry(Bounded(body, BODY_LEN), Bounded(if traceId.Some? then traceId.value else "", TRACE_ID_LEN), uptime, level,
          truncated || |body| >= BODY_LEN, log.bootSeq)
  }

  /** A line keeps as much of its text as fits, and is marked exactly when that is not all of it. */
  lemma {:induction false} CutLinesAreMarked(log: Log, level: int, traceId: Option<string>, uptime: Micros, body: string, truncated: bool)
    ensures var e := Recorded(log, level, traceId, uptime, body, truncated);
      && e.body <= body && (e.body == body || |e.body| == BODY_LEN - 1)
      && (e.truncated <==> truncated || e.body != body)
      && (traceId.Some? && |traceId.value| < TRACE_ID_LEN ==> e.traceId == traceId.value) && (traceId == None ==> e.traceId == "")
  {
  }

  // ---- The ring as a drop-oldest queue

  function Pushed(log: Log, e: Entry): Log {
    if |log.lines| == MAX_LOGS then
      log.(lines := log.lines[1..] + [e], dropped := if log.dropped < UINT16_MAX then log.dropped + 1 else log.dropped)
    else log.(lines := log.lines + [e])
  }

  /** Contents only: which boot is running and what time it is are not part of a batch. */
  function Cleared(log: Log): Log {
    log.(lines := [], dropped := 0)
  }

  function BootBegun(log: Log): Log {
    log.(prevAnchor := log.anchor, anchor := Anchor(0, 0), bootSeq := (log.bootSeq + 1) % UINT8_MODULUS)
  }

  function Anchored(log: Log, unix: Micros, uptime: Micros): Log {
    if unix == 0 then log else log.(anchor := Anchor(unix, uptime))
  }

  const BLANK: Log := Log([], 0, 0, Anchor(0, 0), Anchor(0, 0))

  const NO_ENTRY: Entry := Entry("", "", 0, 0, false, 0)

  class Ring {
    const entries: array<Entry>
    var head: nat
    var count: nat
    var dropped: nat
    var bootSeq: Byte
    var anchor: Anchor
    var prevAnchor: Anchor

    ghost predicate Valid()
      reads this
    {
      entries.Length == MAX_LOGS && head < MAX_LOGS && count <= MAX_LOGS && dropped <= UINT16_MAX
    }

    /** The entry i places after the oldest. */
    function At(i: nat): Entry
      requires Valid()
      reads this, entries
    {
      entries[(head + i) % MAX_LOGS]
    }

    ghost function Lines(): (lines: seq<Entry>)
      requires Valid()
      reads this, entries
      ensures |lines| == count
    {
      seq(count, i requires 0 <= i < count reads this, entries requires Valid() => At(i))
    }

    ghost function View(): Log
      requires Valid()
      reads this, entries
    {
      Log(Lines(), dropped, bootSeq, anchor, prevAnchor)
    }

    constructor ()
      ensures Valid() && fresh(entries) && View() == BLANK
    {
      entries := new Entry[MAX_LOGS](_ => NO_ENTRY);
      head, count, dropped, bootSeq, anchor, prevAnchor := 0, 0, 0, 0, Anchor(0, 0), Anchor(0, 0);
    }

    method Reset()
      requires Valid()
      modifies this, entries
      ensures Valid() && View() == BLANK
    {
      Clear();
      bootSeq, anchor, prevAnchor := 0, Anchor(0, 0), Anchor(0, 0);
    }

    method Clear()
      requires Valid()
      modifies this`head, this`count, this`dropped, entries
      ensures Valid() && View() == Cleared(old(View()))
    {
      forall i | 0 <= i < MAX_LOGS {
        entries[i] := NO_ENTRY;
      }
      head, count, dropped := 0, 0, 0;
    }

    /** The lines stay; the number returned is how many were carried in. */
    method BeginBoot() returns (carried: nat)
      requires Valid()
      modifies this`bootSeq, this`anchor, this`prevAnchor
      ensures Valid() && View() == BootBegun(old(View())) && carried == |View().lines|
    {
      prevAnchor := anchor;
      anchor := Anchor(0, 0);
      bootSeq := (bootSeq + 1) % UINT8_MODULUS;
      carried := count;
    }

    method SetAnchor(unix: Micros, uptime: Micros)
      requires Valid()
      modifies this`anchor
      ensures Valid() && View() == Anchored(old(View()), unix, uptime)
    {
      if unix != 0 {
        anchor := Anchor(unix, uptime);
      }
    }

    method Push(level: int, traceId: Option<string>, uptime: Micros, body: string, truncated: bool) returns (evicted: bool)
      requires Valid()
      modifies this`head, this`count, this`dropped, entries
      ensures Valid() && evicted == (old(count) == MAX_LOGS)
      ensures View() == Pushed(old(View()), Recorded(old(View()), level, traceId, uptime, body, truncated))
    {
      var e := Entry(Bounded(body, BODY_LEN), Bounded(if traceId.Some? then traceId.value else "", TRACE_ID_LEN), uptime, level,
                     truncated || |body| >= BODY_LEN, bootSeq);
      evicted := count == MAX_LOGS;
      if evicted {
        Replace(e);
      } else {
        Append(e);
      }
    }

    /** Full: the new line takes the oldest one's place. */
    method Replace(e: Entry)
      requires Valid() && count == MAX_LOGS
      modifies this`head, this`dropped, entries
      ensures Valid() && Lines() == old(Lines())[1..] + [e]
      ensures dropped == if old(dropped) < UINT16_MAX then old(dropped) + 1 else old(dropped)
    {
      var index := head;
      head := (head + 1) % MAX_LOGS;
      if dropped < UINT16_MAX {
        dropped := dropped + 1;
      }
      entries[index] := e;
      forall i | 0 <= i < MAX_LOGS - 1
        ensures At(i) == old(At(i + 1))
      {
        WrapAround(index, i);
      }
    }

    method Append(e: Entry)
      requires Valid() && count < MAX_LOGS
      modifies this`count, entries
      ensures Valid() && Lines() == old(Lines()) + [e]
    {
      var index := (head + count) % MAX_LOGS;
      count := count + 1;
      entries[index] := e;
      forall i | 0 <= i < count - 1
        ensures At(i) == old(At(i))
      {
      }
    }
  }

  lemma {:induction false} WrapAround(head: nat, i: nat)
    requires head < MAX_LOGS && i + 1 < MAX_LOGS
    ensures ((head + 1) % MAX_LOGS + i) % MAX_LOGS == (head + (i + 1)) % MAX_LOGS != head
  {
  }

  // ---- Dating a line

  predicate IsRecovered(log: Log, e: Entry) {
    e.bootSeq != log.bootSeq
  }

  /** When this boot started, as far as the wall clock goes back. */
  function BootInstant(nowUptime: Micros, nowUnix: Micros): Micros {
    if nowUptime > nowUnix then 0 else nowUnix - nowUptime
  }

  /** The date of a line of the previous boot, by that boot's own anchor, in 64-bit arithmetic. */
  function ByPreviousAnchor(a: Anchor, uptime: Micros): Micros {
    if uptime >= a.uptime then (a.unix + (uptime - a.uptime)) % UINT64_MODULUS
    else if a.uptime - uptime > a.unix then 0
    else a.unix - (a.uptime - uptime)
  }

  /** The wall clock timestamp a line is sent with. */
  function EntryUnix(log: Log, e: Entry, nowUptime: Micros, nowUnix: Micros): Micros {
    if !IsRecovered(log, e) then
      var elapsed := if nowUptime > e.uptime then nowUptime - e.uptime else 0;
      if elapsed > nowUnix then nowUnix else nowUnix - elapsed
    else
      var boot := BootInstant(nowUptime, nowUnix);
      if log.prevAnchor.unix == 0 then boot
      else
        var when := ByPreviousAnchor(log.prevAnchor, e.uptime);
        if when > boot then boot else when
  }

  /** The first `split` lines are the previous boot's, the rest this boot's; uptimes rise in each. */
  ghost predicate TwoBoots(log: Log, split: nat) {
    && split <= |log.lines|
    && (forall i :: 0 <= i < |log.lines| ==> (i < split <==> IsRecovered(log, log.lines[i])))
    && (forall i, j :: 0 <= i < j < split ==> log.lines[i].uptime <= log.lines[j].uptime)
    && (forall i, j :: split <= i < j < |log.lines| ==> log.lines[i].uptime <= log.lines[j].uptime)
  }

  ghost predicate NoOverflow(log: Log) {
    forall i :: 0 <= i < |log.lines| && log.lines[i].uptime >= log.prevAnchor.uptime ==>
      log.prevAnchor.unix + (log.lines[i].uptime - log.prevAnchor.uptime) < UINT64_MODULUS
  }

  lemma {:induction false} CurrentLine(log: Log, e: Entry, nowUptime: Micros, nowUnix: Micros)
    requires nowUptime <= nowUnix && !IsRecovered(log, e)
    ensures BootInstant(nowUptime, nowUnix) <= EntryUnix(log, e, nowUptime, nowUnix) <= nowUnix
  {
  }

  lemma {:induction false} RecoveredLine(log: Log, e: Entry, nowUptime: Micros, nowUnix: Micros)
    requires IsRecovered(log, e)
    ensures EntryUnix(log, e, nowUptime, nowUnix) <= BootInstant(nowUptime, nowUnix) <= nowUnix
  {
  }

  lemma {:induction false} AnchorIsMonotone(a: Anchor, early: Micros, late: Micros)
    requires early <= late
    requires late >= a.uptime ==> a.unix + (late - a.uptime) < UINT64_MODULUS
    ensures ByPreviousAnchor(a, early) <= ByPreviousAnchor(a, late)
  {
    if late >= a.uptime {
      NoWrap(a.unix + (late - a.uptime));
    }
    if early >= a.uptime {
      NoWrap(a.unix + (early - a.uptime));
    }
  }

  lemma {:induction false} NoWrap(x: nat)
    requires x < UINT64_MODULUS
    ensures x % UINT64_MODULUS == x
  {
  }

  /**
   The timeline of a flush: oldest first, timestamps never decrease, none is past now, recovered
   lines are at or before this boot's start and current ones at or after it.
   */
  lemma {:induction false} TimelineIsOrdered(log: Log, split: nat, nowUptime: Micros, nowUnix: Micros)
    requires TwoBoots(log, split) && NoOverflow(log) && nowUptime <= nowUnix
    ensures forall i, j :: 0 <= i < j < |log.lines| ==>
      EntryUnix(log, log.lines[i], nowUptime, nowUnix) <= EntryUnix(log, log.lines[j], nowUptime, nowUnix)
    ensures forall i :: 0 <= i < |log.lines| ==> EntryUnix(log, log.lines[i], nowUptime, nowUnix) <= nowUnix
    ensures forall i :: 0 <= i < split ==> EntryUnix(log, log.lines[i], nowUptime, nowUnix) <= BootInstant(nowUptime, nowUnix)
    ensures forall i :: split <= i < |log.lines| ==> BootInstant(nowUptime, nowUnix) <= EntryUnix(log, log.lines[i], nowUptime, nowUnix)
  {
    forall i | 0 <= i < |log.lines|
      ensures EntryUnix(log, log.lines[i], nowUptime, nowUnix) <= nowUnix
      ensures i < split ==> EntryUnix(log, log.lines[i], nowUptime, nowUnix) <= BootInstant(nowUptime, nowUnix)
      ensures i >= split ==> BootInstant(nowUptime, nowUnix) <= EntryUnix(log, log.lines[i], nowUptime, nowUnix)
    {
      if i < split {
        RecoveredLine(log, log.lines[i], nowUptime, nowUnix);
      } else {
        CurrentLine(log, log.lines[i], nowUptime, nowUnix);
      }
    }
    forall i, j | 0 <= i < j < |log.lines|
      ensures EntryUnix(log, log.lines[i], nowUptime, nowUnix) <= EntryUnix(log, log.lines[j], nowUptime, nowUnix)
    {
      PairIsOrdered(log, split, i, j, nowUptime, nowUnix);
    }
  }

  lemma {:induction false} PairIsOrdered(log: Log, split: nat, i: nat, j: nat, nowUptime: Micros, nowUnix: Micros)
    requires TwoBoots(log, split) && NoOverflow(log) && nowUptime <= nowUnix && i < j < |log.lines|
    ensures EntryUnix(log, log.lines[i], nowUptime, nowUnix) <= EntryUnix(log, log.lines[j], nowUptime, nowUnix)
  {
    if j < split {
      AnchorIsMonotone(log.prevAnchor, log.lines[i].uptime, log.lines[j].uptime);
    } else if i < split {
      RecoveredLine(log, log.lines[i], nowUptime, nowUnix);
      CurrentLine(log, log.lines[j], nowUptime, nowUnix);
    }
  }

  ghost predicate Ordered(log: Log, nowUptime: Micros, nowUnix: Micros) {
    forall i, j :: 0 <= i < j < |log.lines| ==>
      EntryUnix(log, log.lines[i], nowUptime, nowUnix) <= EntryUnix(log, log.lines[j], nowUptime, nowUnix)
  }

  /** Two lines of this boot, the first at power-on and the second a microsecond ago. */
  function FirstAndLast(nowUptime: Micros): Log
    requires nowUptime > 0
  {
    BLANK.(lines := [NO_ENTRY, NO_ENTRY.(uptime := nowUptime - 1)])
  }

  /** With the wall clock behind the uptime, the line from power-on is stamped now, and the later one before it. */
  lemma {:induction false} ClockBehindUptimeReorders(nowUptime: Micros, nowUnix: Micros)
    requires 0 < nowUnix < nowUptime
    ensures var log := FirstAndLast(nowUptime);
      && TwoBoots(log, 0) && NoOverflow(log) && !Ordered(log, nowUptime, nowUnix)
  {
    var log := FirstAndLast(nowUptime);
    assert EntryUnix(log, log.lines[0], nowUptime, nowUnix) == nowUnix;
    assert EntryUnix(log, log.lines[1], nowUptime, nowUnix) == nowUnix - 1;
  }

  /**
   At a flush that has a date, every ring of two boots goes out in order if and only if the wall
   clock reads at least the uptime.
   */
  lemma {:induction false} OrderedIffClockIsAhead(nowUptime: Micros, nowUnix: Micros)
    requires nowUnix > 0
    ensures (forall log: Log, split: nat :: TwoBoots(log, split) && NoOverflow(log) ==> Ordered(log, nowUptime, nowUnix))
      <==> nowUptime <= nowUnix
  {
    if nowUptime <= nowUnix {
      forall log: Log, split: nat | TwoBoots(log, split) && NoOverflow(log)
        ensures Ordered(log, nowUptime, nowUnix)
      {
        TimelineIsOrdered(log, split, nowUptime, nowUnix);
      }
    } else {
      ClockBehindUptimeReorders(nowUptime, nowUnix);
      assert TwoBoots(FirstAndLast(nowUptime), 0);
    }
  }

  // ---- Runs keep the timeline's premise

  datatype Event =
    | Record(level: int, traceId: Option<string>, uptime: Micros, body: string, truncated: bool)
    | Flushed
    | Dated(unix: Micros, uptime: Micros)
    | NewBoot

  function Next(log: Log, e: Event): Log {
    match e
    case Record(level, traceId, uptime, body, truncated) => Pushed(log, Recorded(log, level, traceId, uptime, body, truncated))
    case Flushed => Cleared(log)
    case Dated(unix, uptime) => Anchored(log, unix, uptime)
    case NewBoot => BootBegun(log)
  }

  function Run(log: Log, events: seq<Event>): Log
    decreases |events|
  {
    if events == [] then log else Run(Next(log, events[0]), events[1..])
  }

  /** Uptime does not run back within a boot, and no line outlives two resets. */
  ghost predicate Ordinary(log: Log, e: Event) {
    match e
    case Record(_, _, uptime, _, _) =>
      forall i :: 0 <= i < |log.lines| && !IsRecovered(log, log.lines[i]) ==> log.lines[i].uptime <= uptime
    case NewBoot => forall i :: 0 <= i < |log.lines| ==> !IsRecovered(log, log.lines[i])
    case _ => true
  }

  ghost predicate OrdinaryRun(log: Log, events: seq<Event>)
    decreases |events|
  {
    events == [] || (Ordinary(log, events[0]) && OrdinaryRun(Next(log, events[0]), events[1..]))
  }

  lemma {:induction false} RecordKeepsTwoBoots(log: Log, split: nat, e: Event) returns (after: nat)
    requires e.Record? && TwoBoots(log, split) && Ordinary(log, e)
    ensures TwoBoots(Next(log, e), after)
  {
    var entry := Recorded(log, e.level, e.traceId, e.uptime, e.body, e.truncated);
    if |log.lines| == MAX_LOGS {
      after := if split > 0 then split - 1 else 0;
      DropKeepsTwoBoots(log, split);
      AppendKeepsTwoBoots(log.(lines := log.lines[1..]), after, entry);
    } else {
      after := split;
      AppendKeepsTwoBoots(log, split, entry);
    }
    TwoBootsOfLines(Next(log, e), Next(log, e).(dropped := log.dropped), after);
  }

  lemma {:induction false} TwoBootsOfLines(log: Log, same: Log, split: nat)
    requires TwoBoots(same, split) && log.lines == same.lines && log.bootSeq == same.bootSeq
    ensures TwoBoots(log, split)
  {
    assert forall i :: 0 <= i < |log.lines| ==> (IsRecovered(log, log.lines[i]) <==> IsRecovered(same, same.lines[i]));
  }

  lemma {:induction false} DropKeepsTwoBoots(log: Log, split: nat)
    requires TwoBoots(log, split) && log.lines != []
    ensures TwoBoots(log.(lines := log.lines[1..]), if split > 0 then split - 1 else 0)
  {
  }

  lemma {:induction false} AppendKeepsTwoBoots(log: Log, split: nat, e: Entry)
    requires TwoBoots(log, split) && !IsRecovered(log, e)
    requires forall i :: split <= i < |log.lines| ==> log.lines[i].uptime <= e.uptime
    ensures TwoBoots(log.(lines := log.lines + [e]), split)
  {
  }

  lemma {:induction false} NextKeepsTwoBoots(log: Log, split: nat, e: Event) returns (after: nat)
    requires TwoBoots(log, split) && Ordinary(log, e)
    ensures TwoBoots(Next(log, e), after)
  {
    match e
    case Record(_, _, _, _, _) => after := RecordKeepsTwoBoots(log, split, e);
    case Flushed => after := 0;
    case Dated(unix, uptime) =>
      after := split;
      TwoBootsOfLines(Next(log, e), log, split);
    case NewBoot =>
      after := |log.lines|;
      BootKeepsTwoBoots(log, split);
  }

  lemma {:induction false} BootKeepsTwoBoots(log: Log, split: nat)
    requires TwoBoots(log, split) && forall i :: 0 <= i < |log.lines| ==> !IsRecovered(log, log.lines[i])
    ensures TwoBoots(BootBegun(log), |log.lines|)
  {
    assert log.lines != [] ==> !IsRecovered(log, log.lines[0]);
    assert BootBegun(log).bootSeq != log.bootSeq;
  }

  /** From a blank ring, every ordinary run leaves a ring whose timeline is ordered, whenever it is flushed. */
  lemma {:induction false} RunsKeepTwoBoots(log: Log, split: nat, events: seq<Event>) returns (after: nat)
    requires TwoBoots(log, split) && OrdinaryRun(log, events)
    ensures TwoBoots(Run(log, events), after)
    decreases |events|
  {
    after := split;
    if events != [] {
      after := NextKeepsTwoBoots(log, split, events[0]);
      after := RunsKeepTwoBoots(Next(log, events[0]), after, events[1..]);
    }
  }

  /** From power-on, over every ordinary run, the flush that follows sends an ordered timeline. */
  lemma {:induction false} TimelineOverRuns(events: seq<Event>, nowUptime: Micros, nowUnix: Micros)
    requires OrdinaryRun(BLANK, events) && nowUptime <= nowUnix && NoOverflow(Run(BLANK, events))
    ensures var log := Run(BLANK, events);
      && (forall i, j :: 0 <= i < j < |log.lines| ==>
            EntryUnix(log, log.lines[i], nowUptime, nowUnix) <= EntryUnix(log, log.lines[j], nowUptime, nowUnix))
      && (forall i :: 0 <= i < |log.lines| ==>
            var when := EntryUnix(log, log.lines[i], nowUptime, nowUnix);
            when <= nowUnix
            && (if IsRecovered(log, log.lines[i]) then when <= BootInstant(nowUptime, nowUnix) else BootInstant(nowUptime, nowUnix) <= when))
  {
    var split := RunsKeepTwoBoots(BLANK, 0, events);
    TimelineIsOrdered(Run(BLANK, events), split, nowUptime, nowUnix);
  }
}
