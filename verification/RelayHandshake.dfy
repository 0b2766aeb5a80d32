/**
 The two-task handshake that brings a host's STATUS back to a blocked `RelayTransport::send`.

 The sender runs on one task; the host's frames arrive on another. They share four members and
 no lock. Each load and store is one step here, so a run is any interleaving of the two tasks.
 */
module RelayHandshake {
  import opened Prelude

  /** Ids cycle through 1..255; request number n carries this one. */
  function IdOf(n: nat): Byte
    requires n > 0
  {
    1 + (n - 1) % 255
  }

  /** How a call of `send` ended. */
  datatype Outcome = HostAnswer(response: Response) | HostLeft | TimedOut | WriteFailed

  /** Where the sender stands; each name is the access it makes next. */
  datatype SenderPc =
    | Idle
    | ClearFlag                   // drop whatever an earlier request left pending
    | WriteBegin | WriteRest      // put the frames on the wire
    | LoadFlag | ClearSeen | CompareId | ReadResponse
    | CheckAttached | CheckClock

  /** Where the host task stands inside one STATUS frame. */
  datatype HostPc = HostIdle | WroteResponse | WroteId

  datatype State = State(
    // RelayTransport's members
    nextId: Byte, attached: bool, pending: bool, statusId: Byte, status: Response,
    // the sender's locals and result
    pc: SenderPc, requestId: Byte, outcome: Option<Outcome>,
    hostPc: HostPc,
    // history: numbers count requests from 1, 0 means none yet
    sends: nat,              // the request being sent, or sent last
    begun: nat,              // the last request whose BEGIN reached the wire
    answered: nat,           // the last request the host started answering
    answer: Response,        // ... and what it answered
    idOwner: nat,            // the request whose id is in statusId
    published: nat,          // the last request whose answer is fully published
    voided: bool,            // a detach cleared the flag since this request began
    publishedAtLoad: bool    // this answer was published, and not voided, at the last flag load
  )

  datatype Step =
    // the sender
    | Start | Clear | Begin(sent: bool) | Rest(sent: bool)
    | Load | ClearAfterLoad | Compare | Read | LookAttached | LookClock(expired: bool)
    // the host task: one STATUS for request `to`, in three stores
    | StoreResponse(to: nat, response: Response) | StoreId | StorePending
    // the link
    | Attach | DropAttached | DropPending

  function Initial(): State {
    State(1, false, false, 0, ResponseMake(ERROR), Idle, 0, None, HostIdle,
          0, 0, 0, ResponseMake(ERROR), 0, 0, false, false)
  }

  /** A host that answers in order, at most once, and always fewer than `late` requests behind. */
  predicate HostMayStore(s: State, k: nat, late: nat) {
    k <= s.sends && s.sends - k < late
  }

  predicate Enabled(s: State, step: Step, late: nat) {
    match step
    case Start => s.pc == Idle
    case Clear => s.pc == ClearFlag
    case Begin(_) => s.pc == WriteBegin
    case Rest(_) => s.pc == WriteRest
    case Load => s.pc == LoadFlag
    case ClearAfterLoad => s.pc == ClearSeen
    case Compare => s.pc == CompareId
    case Read => s.pc == ReadResponse
    case LookAttached => s.pc == CheckAttached
    case LookClock(_) => s.pc == CheckClock
    case StoreResponse(to, _) =>
      s.hostPc == HostIdle && s.answered < to <= s.begun && HostMayStore(s, to, late)
    case StoreId => s.hostPc == WroteResponse && HostMayStore(s, s.answered, late)
    case StorePending => s.hostPc == WroteId && HostMayStore(s, s.answered, late)
    case Attach => true
    case DropAttached => true
    case DropPending => true
  }

  function Finish(s: State, outcome: Outcome): State {
    s.(pc := Idle, outcome := Some(outcome))
  }

  function Apply(s: State, step: Step): State {
    match step
    case Start =>
      var bumped := (s.nextId + 1) % UINT8_MODULUS;
      s.(requestId := s.nextId, nextId := if bumped == 0 then 1 else bumped, pc := ClearFlag,
         outcome := None, sends := s.sends + 1, voided := false, publishedAtLoad := false)
    case Clear => s.(pending := false, pc := WriteBegin)
    case Begin(sent) => if sent then s.(pc := WriteRest, begun := s.sends) else Finish(s, WriteFailed)
    case Rest(sent) => if sent then s.(pc := LoadFlag) else Finish(s, WriteFailed)
    case Load =>
      s.(pc := if s.pending then ClearSeen else CheckAttached,
         publishedAtLoad := s.published == s.sends && !s.voided)
    case ClearAfterLoad => s.(pending := false, pc := CompareId)
    case Compare => s.(pc := if s.statusId == s.requestId then ReadResponse else CheckAttached)
    case Read => Finish(s, HostAnswer(s.status))
    case LookAttached => if s.attached then s.(pc := CheckClock) else Finish(s, HostLeft)
    case LookClock(expired) => if expired then Finish(s, TimedOut) else s.(pc := LoadFlag)
    case StoreResponse(to, r) => s.(status := r, answered := to, answer := r, hostPc := WroteResponse)
    case StoreId =>
      s.(statusId := if s.answered == 0 then 0 else IdOf(s.answered), idOwner := s.answered, hostPc := WroteId)
    case StorePending => s.(pending := true, published := s.answered, hostPc := HostIdle)
    case Attach => s.(attached := true)
    case DropAttached => s.(attached := false)
    case DropPending => s.(pending := false, voided := true)
  }

  /** The steps are all enabled in turn. */
  predicate IsRun(s: State, steps: seq<Step>, late: nat)
    decreases |steps|
  {
    |steps| == 0 || (Enabled(s, steps[0], late) && IsRun(Apply(s, steps[0]), steps[1..], late))
  }

  function After(s: State, steps: seq<Step>): State
    decreases |steps|
  {
    if |steps| == 0 then s else After(Apply(s, steps[0]), steps[1..])
  }

  /** A response handed to the caller is the one the host gave for this very request. */
  predicate NotMisattributed(s: State) {
    s.outcome.Some? && s.outcome.value.HostAnswer? ==>
      s.answered == s.sends && s.outcome.value.response == s.answer
  }

  /** A send that gave up did so without the answer having been there when it last looked. */
  predicate NotLost(s: State) {
    s.outcome.Some? && !s.outcome.value.HostAnswer? ==> !s.publishedAtLoad
  }

  /** What every step of both tasks keeps, for a host fewer than 255 requests late. */
  ghost predicate Inv(s: State) {
    && s.nextId == IdOf(s.sends + 1)
    && (s.sends > 0 ==> s.requestId == IdOf(s.sends))
    && s.published <= s.idOwner <= s.answered <= s.begun <= s.sends
    && (s.sends == 0 ==> s.pc == Idle && s.outcome == None)
    && (s.pc in {ClearFlag, WriteBegin} ==> s.begun < s.sends)
    && (s.pc in {WriteRest, LoadFlag, ClearSeen, CompareId, ReadResponse, CheckAttached, CheckClock} ==> s.begun == s.sends)
    && (s.pc != Idle ==> s.outcome == None)
    && s.status == s.answer
    && s.statusId == (if s.idOwner == 0 then 0 else IdOf(s.idOwner))
    && (s.hostPc == HostIdle ==> s.published == s.answered)
    && (s.hostPc == WroteResponse ==> s.idOwner < s.answered)
    && (s.hostPc == WroteId ==> s.idOwner == s.answered > 0)
    // what a raised flag, or one just taken down, says about the id register
    && (s.pending && s.pc !in {Idle, ClearFlag} ==> s.idOwner > 0 && s.sends - s.idOwner < 255)
    && (s.pc in {ClearSeen, CompareId} ==> s.idOwner > 0 && s.sends - s.idOwner < 255)
    && (s.pc == ReadResponse ==> s.idOwner == s.sends)
    // an answer that is out stays reachable
    && (s.published == s.sends && !s.voided && s.pc in {WriteRest, LoadFlag, CheckAttached, CheckClock} ==> s.pending)
    && (s.publishedAtLoad ==> s.published == s.sends && s.pc in {Idle, ClearSeen, CompareId, ReadResponse})
    && NotMisattributed(s) && NotLost(s)
  }

  lemma {:induction false} IdsApart(a: nat, b: nat)
    requires 0 < a <= b && b - a < 255 && IdOf(a) == IdOf(b)
    ensures a == b
  {
  }

  lemma {:induction false} NextId(n: nat)
    requires n > 0
    ensures IdOf(n + 1) == (var bumped := (IdOf(n) + 1) % UINT8_MODULUS; if bumped == 0 then 1 else bumped)
  {
  }

  predicate IsHostStep(step: Step) {
    step.StoreResponse? || step.StoreId? || step.StorePending? || step.Attach? || step.DropAttached? || step.DropPending?
  }

  lemma {:induction false} InvHostStep(s: State, step: Step)
    requires Inv(s) && Enabled(s, step, 255) && IsHostStep(step)
    ensures Inv(Apply(s, step))
  {
    match step
    case StoreResponse(_, _) =>
    case StoreId =>
    case StorePending =>
    case Attach =>
    case DropAttached =>
    case DropPending =>
  }

  lemma {:induction false} InvStart(s: State)
    requires Inv(s) && s.pc == Idle
    ensures Inv(Apply(s, Start))
  {
    NextId(s.sends + 1);
  }

  lemma {:induction false} InvSendStep(s: State, step: Step)
    requires Inv(s) && Enabled(s, step, 255) && (step.Clear? || step.Begin? || step.Rest?)
    ensures Inv(Apply(s, step))
  {
    match step
    case Clear =>
    case Begin(_) =>
    case Rest(_) =>
  }

  lemma {:induction false} InvCompare(s: State)
    requires Inv(s) && s.pc == CompareId
    ensures Inv(Apply(s, Compare))
  {
    if s.statusId == s.requestId {
      IdsApart(s.idOwner, s.sends);
    }
  }

  lemma {:induction false} InvLookStep(s: State, step: Step)
    requires Inv(s) && Enabled(s, step, 255)
    requires step.Load? || step.ClearAfterLoad? || step.Read? || step.LookAttached? || step.LookClock?
    ensures Inv(Apply(s, step))
  {
    match step
    case Load =>
    case ClearAfterLoad =>
    case Read =>
    case LookAttached =>
    case LookClock(_) =>
  }

  /** Every step of either task keeps the invariant. */
  lemma {:induction false} InvStep(s: State, step: Step)
    requires Inv(s) && Enabled(s, step, 255)
    ensures Inv(Apply(s, step))
  {
    if IsHostStep(step) {
      InvHostStep(s, step);
    } else if step.Start? {
      InvStart(s);
    } else if step.Clear? || step.Begin? || step.Rest? {
      InvSendStep(s, step);
    } else if step.Compare? {
      InvCompare(s);
    } else {
      InvLookStep(s, step);
    }
  }

  lemma {:induction false} InvRun(s: State, steps: seq<Step>)
    requires Inv(s) && IsRun(s, steps, 255)
    ensures Inv(After(s, steps))
    decreases |steps|
  {
    if |steps| > 0 {
      InvStep(s, steps[0]);
      InvRun(Apply(s, steps[0]), steps[1..]);
    }
  }

  /**
   Safety over whole runs. Whatever the interleaving, a response handed to the caller is the one
   the host gave for that request, and a request is given up only if its answer was not there.
   */
  lemma {:induction false} AnswersAreNeverMixedUp(steps: seq<Step>)
    requires IsRun(Initial(), steps, 255)
    ensures NotMisattributed(After(Initial(), steps))
    ensures NotLost(After(Initial(), steps))
  {
    InvRun(Initial(), steps);
  }

  /** This request's answer is fully published and the host is still there. */
  predicate AnswerIsOut(s: State) {
    s.published == s.sends && !s.voided && s.attached
    && s.pc in {LoadFlag, ClearSeen, CompareId, ReadResponse, CheckAttached, CheckClock}
  }

  /** Steps during which the host stays attached and the timeout does not strike. */
  predicate Calm(step: Step) {
    !step.DropAttached? && !step.DropPending? && step != LookClock(true)
  }

  /** How many of the sender's own steps are left before it returns. */
  function StepsLeft(pc: SenderPc): nat {
    match pc
    case CheckAttached => 6
    case CheckClock => 5
    case LoadFlag => 4
    case ClearSeen => 3
    case CompareId => 2
    case ReadResponse => 1
    case _ => 0
  }

  lemma {:induction false} CalmStep(s: State, step: Step)
    requires Inv(s) && Enabled(s, step, 255) && AnswerIsOut(s) && Calm(step)
    ensures var t := Apply(s, step);
      && t.answer == s.answer
      && (IsHostStep(step) ==> AnswerIsOut(t) && t.pc == s.pc)
      && (!IsHostStep(step) ==> StepsLeft(t.pc) == StepsLeft(s.pc) - 1)
      && (if t.pc == Idle then t.outcome == Some(HostAnswer(s.answer)) else AnswerIsOut(t))
  {
    if s.pc == CompareId {
      assert s.idOwner == s.sends;
    }
  }

  function SenderSteps(steps: seq<Step>): nat {
    if |steps| == 0 then 0 else (if IsHostStep(steps[0]) then 0 else 1) + SenderSteps(steps[1..])
  }

  lemma {:induction false} CalmRun(s: State, steps: seq<Step>)
    requires Inv(s) && AnswerIsOut(s) && IsRun(s, steps, 255)
    requires forall i :: 0 <= i < |steps| ==> Calm(steps[i])
    requires SenderSteps(steps) <= StepsLeft(s.pc)
    ensures var t := After(s, steps);
      if SenderSteps(steps) == StepsLeft(s.pc) then t.outcome == Some(HostAnswer(s.answer)) else AnswerIsOut(t)
    decreases |steps|
  {
    if |steps| > 0 {
      var t := Apply(s, steps[0]);
      CalmStep(s, steps[0]);
      InvStep(s, steps[0]);
      if t.pc != Idle {
        CalmRun(t, steps[1..]);
      } else {
        HostStepsKeepOutcome(t, steps[1..]);
      }
    }
  }

  lemma {:induction false} HostStepsKeepOutcome(s: State, steps: seq<Step>)
    requires IsRun(s, steps, 255) && SenderSteps(steps) == 0
    ensures After(s, steps).outcome == s.outcome
    decreases |steps|
  {
    if |steps| > 0 {
      HostStepsKeepOutcome(Apply(s, steps[0]), steps[1..]);
    }
  }

  /**
   Liveness in bounded form. Once an answer is fully published, and for as long as the host stays
   attached and the timeout does not strike, the sender needs at most six steps of its own, with
   any number of the host's between them, to return exactly that answer.
   */
  lemma {:induction false} PublishedAnswerIsReturned(before: seq<Step>, after: seq<Step>)
    requires IsRun(Initial(), before, 255)
    requires AnswerIsOut(After(Initial(), before)) && IsRun(After(Initial(), before), after, 255)
    requires forall i :: 0 <= i < |after| ==> Calm(after[i])
    ensures var s := After(Initial(), before);
      && 1 <= StepsLeft(s.pc) <= 6
      && (SenderSteps(after) == StepsLeft(s.pc) ==> After(s, after).outcome == Some(HostAnswer(s.answer)))
  {
    InvRun(Initial(), before);
    if SenderSteps(after) == StepsLeft(After(Initial(), before).pc) {
      CalmRun(After(Initial(), before), after);
    }
  }

  // ---- The bound of 255 is exact: ids repeat after 255 requests.

  lemma {:induction false} RunAppend(s: State, a: seq<Step>, b: seq<Step>, late: nat)
    requires IsRun(s, a, late) && IsRun(After(s, a), b, late)
    ensures IsRun(s, a + b, late) && After(s, a + b) == After(After(s, a), b)
    decreases |a|
  {
    if |a| == 0 {
      assert a + b == b;
    } else {
      assert (a + b)[1..] == a[1..] + b;
      RunAppend(Apply(s, a[0]), a[1..], b, late);
    }
  }

  lemma {:induction false} SlowerHostHasMoreRuns(s: State, steps: seq<Step>, late: nat, later: nat)
    requires late <= later && IsRun(s, steps, late)
    ensures IsRun(s, steps, later)
    decreases |steps|
  {
    if |steps| > 0 {
      SlowerHostHasMoreRuns(Apply(s, steps[0]), steps[1..], late, later);
    }
  }

  /** After n requests of which the host saw only the first one's BEGIN, and answered none. */
  function Unanswered(n: nat): State
    requires n > 0
  {
    Initial().(nextId := IdOf(n + 1), requestId := IdOf(n), sends := n, begun := 1, attached := true, outcome := Some(WriteFailed))
  }

  lemma {:induction false} Then(steps: seq<Step>, step: Step) returns (more: seq<Step>)
    requires IsRun(Initial(), steps, 256) && Enabled(After(Initial(), steps), step, 256)
    ensures IsRun(Initial(), more, 256)
    ensures After(Initial(), more) == Apply(After(Initial(), steps), step)
  {
    var s := After(Initial(), steps);
    assert IsRun(Apply(s, step), [step][1..], 256);
    RunAppend(Initial(), steps, [step], 256);
    more := steps + [step];
  }

  lemma {:induction false} ManyFail(n: nat) returns (steps: seq<Step>)
    requires n > 0
    ensures IsRun(Initial(), steps, 256) && After(Initial(), steps) == Unanswered(n)
  {
    if n == 1 {
      steps := Then([], Attach);
      steps := Then(steps, Start);
      steps := Then(steps, Clear);
      steps := Then(steps, Begin(true));
      steps := Then(steps, Rest(false));
    } else {
      steps := ManyFail(n - 1);
      NextId(n);
      steps := Then(steps, Start);
      steps := Then(steps, Clear);
      steps := Then(steps, Begin(false));
    }
  }

  /** A host exactly 255 requests late has its old answer taken for the new request's. */
  lemma {:induction false} TooLateIsMisattributed() returns (steps: seq<Step>)
    ensures IsRun(Initial(), steps, 256) && !NotMisattributed(After(Initial(), steps))
  {
    NextId(256);
    steps := ManyFail(255);
    steps := Then(steps, Start);
    steps := Then(steps, Clear);
    steps := Then(steps, Begin(true));
    steps := Then(steps, Rest(true));
    steps := Then(steps, StoreResponse(1, ResponseMake(OK)));
    steps := Then(steps, StoreId);
    steps := Then(steps, StorePending);
    steps := Then(steps, Load);
    steps := Then(steps, ClearAfterLoad);
    steps := Then(steps, Compare);
    steps := Then(steps, Read);
  }

  /** Answers stay with their requests in every run exactly when the host is under 255 requests late. */
  lemma {:induction false} LatenessBoundIsExact(late: nat)
    ensures (forall steps :: IsRun(Initial(), steps, late) ==> NotMisattributed(After(Initial(), steps))) <==> late <= 255
  {
    if late <= 255 {
      forall steps | IsRun(Initial(), steps, late)
        ensures NotMisattributed(After(Initial(), steps))
      {
        SlowerHostHasMoreRuns(Initial(), steps, late, 255);
        AnswersAreNeverMixedUp(steps);
      }
    } else {
      var steps := TooLateIsMisattributed();
      SlowerHostHasMoreRuns(Initial(), steps, 256, late);
    }
  }
}
