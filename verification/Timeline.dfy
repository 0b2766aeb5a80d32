/**
 Whether the dates lines are sent with are the true ones.

 A device with a true clock: `born` is the date its uptime counts from, so a wall clock reading, when
 there is one, is `born` plus the uptime. Beside the ring stand the moments its lines were recorded
 at, which the ring does not hold: it knows uptimes, and anchors.
 */
module Timeline {
  import opened Prelude
  import opened LogRing

  type Moment = Micros

  /** `dated`: some reading of the wall clock succeeded in this boot; `prevDated`: in the one before it. */
  datatype Device = Device(log: Log, moments: seq<Moment>, now: Moment, born: Moment, dated: bool, prevBorn: Moment, prevDated: bool)

  function PoweredOn(at: Moment): (d: Device)
    ensures TellsTrue(d)
  {
    Device(BLANK, [], at, at, false, at, false)
  }

  datatype Happening =
    | Line(at: Moment, level: int, traceId: Option<string>, body: string, truncated: bool)
    | ClockRead(at: Moment)
    | Sent(at: Moment)
    | Restart(at: Moment)

  /** Time moves on, and no line outlives two resets. */
  predicate Follows(d: Device, h: Happening) {
    d.now <= h.at && (h.Restart? ==> forall i :: 0 <= i < |d.log.lines| ==> !IsRecovered(d.log, d.log.lines[i]))
  }

  /** What the ring is told of it. */
  function Told(d: Device, h: Happening): Event
    requires d.born <= h.at
  {
    match h
    case Line(at, level, traceId, body, truncated) => Record(level, traceId, at - d.born, body, truncated)
    case ClockRead(at) => Dated(at, at - d.born)
    case Sent(_) => Flushed
    case Restart(_) => NewBoot
  }

  function After(d: Device, h: Happening): Device
    requires d.born <= h.at
  {
    var e := d.(log := Next(d.log, Told(d, h)), now := h.at);
    match h
    case Line(at, _, _, _, _) => e.(moments := (if |d.moments| == MAX_LOGS then d.moments[1..] else d.moments) + [at])
    case ClockRead(at) => e.(dated := d.dated || at != 0)
    case Sent(_) => e.(moments := [])
    case Restart(at) => e.(prevBorn := d.born, prevDated := d.dated, born := at, dated := false)
  }

  /** A line's moment is its uptime counted from the birth of its boot, and so is an anchor's. */
  ghost predicate LineIsTrue(d: Device, e: Entry, moment: Moment) {
    if IsRecovered(d.log, e) then moment == d.prevBorn + e.uptime && moment <= d.born
    else moment == d.born + e.uptime
  }

  ghost predicate AnchorIsTrue(a: Anchor, dated: bool, born: Moment) {
    (dated <==> a.unix != 0) && (dated ==> a.unix == born + a.uptime)
  }

  ghost predicate TellsTrue(d: Device) {
    && d.born <= d.now && |d.moments| == |d.log.lines| <= MAX_LOGS
    && (forall i :: 0 <= i < |d.moments| ==> LineIsTrue(d, d.log.lines[i], d.moments[i]) && d.moments[i] <= d.now)
    && AnchorIsTrue(d.log.anchor, d.dated, d.born) && AnchorIsTrue(d.log.prevAnchor, d.prevDated, d.prevBorn)
  }

  lemma {:induction false} LineTellsTrue(d: Device, h: Happening)
    requires TellsTrue(d) && Follows(d, h) && h.Line?
    ensures TellsTrue(After(d, h))
  {
    var e := After(d, h);
    var line := Recorded(d.log, h.level, h.traceId, h.at - d.born, h.body, h.truncated);
    assert LineIsTrue(e, line, h.at);
    var gone := if |d.moments| == MAX_LOGS then 1 else 0;
    assert e.log.lines == d.log.lines[gone..] + [line] && e.moments == d.moments[gone..] + [h.at];
    forall i | 0 <= i < |e.moments|
      ensures LineIsTrue(e, e.log.lines[i], e.moments[i]) && e.moments[i] <= e.now
    {
      if i < |e.moments| - 1 {
        assert LineIsTrue(d, d.log.lines[gone + i], d.moments[gone + i]);
      }
    }
  }

  lemma {:induction false} RestartTellsTrue(d: Device, h: Happening)
    requires TellsTrue(d) && Follows(d, h) && h.Restart?
    ensures TellsTrue(After(d, h))
  {
    var e := After(d, h);
    assert e.log.bootSeq != d.log.bootSeq;
    forall i | 0 <= i < |e.moments|
      ensures LineIsTrue(e, e.log.lines[i], e.moments[i])
    {
      assert LineIsTrue(d, d.log.lines[i], d.moments[i]) && !IsRecovered(d.log, d.log.lines[i]);
    }
  }

  lemma {:induction false} ReadingTellsTrue(d: Device, h: Happening)
    requires TellsTrue(d) && Follows(d, h) && h.ClockRead?
    ensures TellsTrue(After(d, h))
  {
    var e := After(d, h);
    forall i | 0 <= i < |e.moments|
      ensures LineIsTrue(e, e.log.lines[i], e.moments[i])
    {
      assert LineIsTrue(d, d.log.lines[i], d.moments[i]);
    }
  }

  lemma {:induction false} AfterTellsTrue(d: Device, h: Happening)
    requires TellsTrue(d) && Follows(d, h)
    ensures TellsTrue(After(d, h))
  {
    match h
    case Line(_, _, _, _, _) => LineTellsTrue(d, h);
    case ClockRead(_) => ReadingTellsTrue(d, h);
    case Sent(_) =>
    case Restart(_) => RestartTellsTrue(d, h);
  }

  ghost predicate Happens(d: Device, story: seq<Happening>)
    requires TellsTrue(d)
    decreases |story|
  {
    story == [] || (Follows(d, story[0]) && (AfterTellsTrue(d, story[0]); Happens(After(d, story[0]), story[1..])))
  }

  ghost function Lived(d: Device, story: seq<Happening>): (e: Device)
    requires TellsTrue(d) && Happens(d, story)
    ensures TellsTrue(e)
    decreases |story|
  {
    if story == [] then d else AfterTellsTrue(d, story[0]); Lived(After(d, story[0]), story[1..])
  }

  // ---- What a flush then says

  /** The anchor moved by the flush itself dates no line. */
  lemma {:induction false} OwnAnchorDatesNothing(log: Log, e: Entry, unix: Micros, uptime: Micros, nowUptime: Micros, nowUnix: Micros)
    ensures EntryUnix(Anchored(log, unix, uptime), e, nowUptime, nowUnix) == EntryUnix(log, e, nowUptime, nowUnix)
  {
  }

  /** A reading of the previous boot places its lines exactly, before and after the reading alike. */
  lemma {:induction false} PreviousAnchorIsExact(a: Anchor, born: Moment, uptime: Micros)
    requires a.unix == born + a.uptime && born + uptime < UINT64_MODULUS
    ensures ByPreviousAnchor(a, uptime) == born + uptime
  {
    NoWrap(born + uptime);
  }

  function Earlier(x: nat, y: nat): nat {
    if x < y then x else y
  }

  /**
   A flush that read the wall clock `lag` microseconds before it encodes the batch. A line of this
   boot is dated the moment it was recorded, less the lag. A line of the boot before it is dated the
   moment it was recorded if that boot ever read the wall clock, though never past this boot's start
   less the lag; and this boot's start less the lag if it did not.
   */
  lemma {:induction false} LineIsDated(d: Device, i: nat, unix: Moment, lag: nat)
    requires TellsTrue(d) && i < |d.moments| && d.now <= unix && unix - d.born + lag < UINT64_MODULUS
    requires lag <= d.born
    ensures EntryUnix(d.log, d.log.lines[i], unix - d.born + lag, unix) ==
      if !IsRecovered(d.log, d.log.lines[i]) then d.moments[i] - lag
      else if d.prevDated then Earlier(d.moments[i], d.born - lag)
      else d.born - lag
  {
    var e := d.log.lines[i];
    assert LineIsTrue(d, e, d.moments[i]);
    if IsRecovered(d.log, e) && d.prevDated {
      PreviousAnchorIsExact(d.log.prevAnchor, d.prevBorn, e.uptime);
    }
  }

  /** The moment, or this boot's start for a line of a boot that never knew the date. */
  function Due(d: Device, i: nat): Moment
    requires i < |d.moments| == |d.log.lines|
  {
    if IsRecovered(d.log, d.log.lines[i]) && !d.prevDated then d.born else d.moments[i]
  }

  function DueDates(d: Device): seq<Moment>
    requires |d.moments| == |d.log.lines|
  {
    seq(|d.moments|, i requires 0 <= i < |d.moments| => Due(d, i))
  }

  lemma {:induction false} DatedAtOnce(d: Device, i: nat, unix: Moment)
    requires TellsTrue(d) && i < |d.moments| && d.now <= unix
    ensures EntryUnix(d.log, d.log.lines[i], unix - d.born, unix) == Due(d, i)
  {
    assert LineIsTrue(d, d.log.lines[i], d.moments[i]);
    LineIsDated(d, i, unix, 0);
  }

  /**
   From power-on, over every life of the device: a flush that encodes at the instant it read the
   clock dates every line with the moment it was recorded at, unless the line is of a boot that never
   knew the date; and that line it dates with the start of this boot.
   */
  lemma {:induction false} EveryLineIsDatedTrue(at: Moment, story: seq<Happening>, unix: Moment)
    requires Happens(PoweredOn(at), story) && Lived(PoweredOn(at), story).now <= unix
    ensures var d := Lived(PoweredOn(at), story);
      && |d.moments| == |d.log.lines|
      && forall i :: 0 <= i < |d.log.lines| ==> EntryUnix(d.log, d.log.lines[i], unix - d.born, unix) == Due(d, i)
  {
    var d := Lived(PoweredOn(at), story);
    forall i | 0 <= i < |d.log.lines|
      ensures EntryUnix(d.log, d.log.lines[i], unix - d.born, unix) == Due(d, i)
    {
      DatedAtOnce(d, i, unix);
    }
  }
}
