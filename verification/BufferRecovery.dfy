/**
 What survives a reset that strikes between any two storage calls.

 Here every storage call succeeds, so an operation is a fixed list of calls, and a reset during it
 leaves the flash after some prefix of that list. Everything in RAM is lost; the next boot starts
 from what the flash holds.
 */
module BufferRecovery {
  import opened Prelude
  import opened OfflineBuffer

  datatype Op = Push(envelope: Bytes) | Pop | ResetDropped

  datatype World = World(ring: Ring, flash: Flash)

  function Calls(w: World, op: Op): seq<Call>
    requires WellFormed(w.ring, |w.flash.slots|)
  {
    match op
    case Push(e) => if e == [] then [] else PushCalls(w.ring, |w.flash.slots|, e, FAIR)
    case Pop => if w.ring.count == 0 then [] else PopCalls(w.ring, |w.flash.slots|, FAIR)
    case ResetDropped => [SaveMeta(MetaOf(w.ring.(dropped := 0)), true)]
  }

  function Completed(w: World, op: Op): World
    requires WellFormed(w.ring, |w.flash.slots|)
  {
    var n := |w.flash.slots|;
    var ring :=
      match op
      case Push(e) => if e == [] then w.ring else Pushed(w.ring, n, FAIR)
      case Pop => if w.ring.count == 0 then w.ring else DropOldest(w.ring, n)
      case ResetDropped => w.ring.(dropped := 0);
    World(ring, ApplyAll(w.flash, Calls(w, op)))
  }

  /** A boot from this flash. */
  function Rebooted(f: Flash): World
    requires |f.slots| > 0
  {
    World(Boot(f, true), f)
  }

  /** The reset strikes after the first k storage calls of `op`. */
  function Interrupted(w: World, op: Op, k: nat): World
    requires Sound(w) && k <= |Calls(w, op)|
  {
    var f := ApplyAll(w.flash, Calls(w, op)[..k]);
    ApplyKeepsSize(w.flash, Calls(w, op)[..k]);
    Rebooted(f)
  }

  function Readable(c: seq<Option<Bytes>>): seq<Bytes>
    decreases |c|
  {
    if c == [] then [] else (if c[0].Some? then [c[0].value] else []) + Readable(c[1..])
  }

  /** The envelopes waiting, oldest first, past erased slots. */
  function Queue(w: World): seq<Bytes>
    requires WellFormed(w.ring, |w.flash.slots|)
  {
    Readable(Contents(w.ring, w.flash))
  }

  /**
   What every operation and every reset keeps: the metadata describes the ring, and of the slots
   in use only the oldest can be erased.
   */
  ghost predicate Sound(w: World) {
    && |w.flash.slots| > 0 && WellFormed(w.ring, |w.flash.slots|)
    && MetaOf(Boot(w.flash, true)) == MetaOf(w.ring)
    && forall i :: 1 <= i < w.ring.count ==> Contents(w.ring, w.flash)[i].Some?
  }

  /** The last persisted head and tail are equal, out of range, or were never written. */
  predicate LooksEmpty(f: Flash) {
    f.meta == None || f.meta.value.head >= |f.slots| || f.meta.value.tail >= |f.slots| || f.meta.value.head == f.meta.value.tail
  }

  lemma {:induction false} AllReadable(c: seq<Option<Bytes>>)
    requires forall i :: 0 <= i < |c| ==> c[i].Some?
    ensures |Readable(c)| == |c| && forall i :: 0 <= i < |c| ==> Readable(c)[i] == c[i].value
    decreases |c|
  {
    if c != [] {
      AllReadable(c[1..]);
    }
  }

  /** Whatever the slots hold, a device whose metadata says nothing usable starts out empty. */
  lemma {:induction false} BlankIsSound(f: Flash)
    requires |f.slots| > 0 && LooksEmpty(f)
    ensures Sound(Rebooted(f)) && Queue(Rebooted(f)) == []
  {
  }

  /** Equal indices are what an empty ring and a full one both leave behind. */
  lemma {:induction false} EqualWhenEmptyOrFull(w: World)
    requires Sound(w)
    ensures LooksEmpty(w.flash) <==> w.ring.count == 0 || w.ring.count == |w.flash.slots|
  {
  }

  /** A reset between operations keeps the queue, unless the ring is full, and then all of it is forgotten. */
  lemma {:induction false} RebootKeepsUnlessFull(w: World)
    requires Sound(w)
    ensures Sound(Rebooted(w.flash))
    ensures Queue(Rebooted(w.flash)) == if w.ring.count == |w.flash.slots| then [] else Queue(w)
  {
    var b := Boot(w.flash, true);
    if w.ring.count < |w.flash.slots| {
      assert b.count == w.ring.count;
      assert Contents(b, w.flash) == Contents(w.ring, w.flash);
    }
  }

  lemma {:induction false} CompletedPush(w: World, e: Bytes)
    requires Sound(w) && e != []
    ensures Sound(Completed(w, Push(e)))
    ensures var kept := if w.ring.count == |w.flash.slots| then Contents(w.ring, w.flash)[1..] else Contents(w.ring, w.flash);
      Contents(Completed(w, Push(e)).ring, Completed(w, Push(e)).flash) == kept + [Some(e)]
  {
    PushIsDropOldestAppend(w.ring, w.flash, e, FAIR);
    PushCallByCall(w.ring, w.flash, e, FAIR);
  }

  lemma {:induction false} CompletedPop(w: World)
    requires Sound(w) && w.ring.count > 0
    ensures Sound(Completed(w, Pop))
    ensures Contents(Completed(w, Pop).ring, Completed(w, Pop).flash) == Contents(w.ring, w.flash)[1..]
  {
    PopDropsOldest(w.ring, w.flash, FAIR);
    ApplyTwo(w.flash, Calls(w, Pop)[0], Calls(w, Pop)[1]);
  }

  lemma {:induction false} CompletedIsSound(w: World, op: Op)
    requires Sound(w)
    ensures Sound(Completed(w, op)) && |Completed(w, op).flash.slots| == |w.flash.slots|
  {
    ApplyKeepsSize(w.flash, Calls(w, op));
    match op
    case Push(e) => if e != [] { CompletedPush(w, e); }
    case Pop => if w.ring.count > 0 { CompletedPop(w); }
    case ResetDropped =>
      assert ApplyAll(w.flash, Calls(w, op)) == Apply(w.flash, Calls(w, op)[0]);
      assert Contents(Completed(w, op).ring, Completed(w, op).flash) == Contents(w.ring, w.flash);
  }

  /** What the reset has to leave behind. */
  ghost predicate Recovers(w: World, op: Op, r: World)
    requires Sound(w)
  {
    && Sound(r) && |r.flash.slots| == |w.flash.slots|
    && Sound(Completed(w, op))
    && (LooksEmpty(r.flash) ==> Queue(r) == [])
    && (!LooksEmpty(r.flash) ==> Queue(r) == Queue(w) || Queue(r) == Queue(Completed(w, op)))
  }

  /** The reset strikes before anything was written, or after everything was. */
  lemma {:induction false} RecoversAtEnds(w: World, op: Op, k: nat)
    requires Sound(w) && k <= |Calls(w, op)| && (k == 0 || k == |Calls(w, op)|)
    ensures Recovers(w, op, Interrupted(w, op, k))
  {
    CompletedIsSound(w, op);
    var v := if k == 0 then w else Completed(w, op);
    assert Calls(w, op)[..0] == [] && Calls(w, op)[..|Calls(w, op)|] == Calls(w, op);
    assert Interrupted(w, op, k) == Rebooted(v.flash);
    RebootKeepsUnlessFull(v);
    EqualWhenEmptyOrFull(v);
  }

  /** Between the erase of a pop and its save, the oldest slot is the one that reads as absent. */
  lemma {:induction false} RecoversInPop(w: World)
    requires Sound(w) && w.ring.count > 0
    ensures Recovers(w, Pop, Interrupted(w, Pop, 1))
  {
    CompletedIsSound(w, Pop);
    CompletedPop(w);
    var erase := Calls(w, Pop)[0];
    assert Calls(w, Pop)[..1] == [erase];
    ApplyOne(w.flash, erase);
    var r := Interrupted(w, Pop, 1);
    assert r.flash == Apply(w.flash, erase);
    if !LooksEmpty(r.flash) {
      var c := Contents(r.ring, r.flash);
      assert c[0] == None && c[1..] == Contents(w.ring, w.flash)[1..];
    }
  }

  /** Before the save of a push into a ring with room, the new slot is outside the persisted range. */
  lemma {:induction false} RecoversInPush(w: World, e: Bytes)
    requires Sound(w) && e != [] && w.ring.count < |w.flash.slots|
    ensures Recovers(w, Push(e), Interrupted(w, Push(e), 1))
  {
    CompletedIsSound(w, Push(e));
    var write := Calls(w, Push(e))[0];
    assert Calls(w, Push(e))[..1] == [write];
    ApplyOne(w.flash, write);
    var r := Interrupted(w, Push(e), 1);
    assert r.flash == Apply(w.flash, write);
    if !LooksEmpty(r.flash) {
      assert Contents(r.ring, r.flash) == Contents(w.ring, w.flash);
    }
  }

  /** Inside a push into a full ring the persisted indices are equal, so the boot starts empty. */
  lemma {:induction false} RecoversInEviction(w: World, e: Bytes, k: nat)
    requires Sound(w) && e != [] && w.ring.count == |w.flash.slots| && 1 <= k <= 2
    ensures Recovers(w, Push(e), Interrupted(w, Push(e), k))
  {
    CompletedIsSound(w, Push(e));
    EqualWhenEmptyOrFull(w);
    var calls := Calls(w, Push(e));
    assert calls[..k] == if k == 1 then [calls[0]] else [calls[0], calls[1]];
    ApplyOne(w.flash, calls[0]);
    ApplyTwo(w.flash, calls[0], calls[1]);
    assert Interrupted(w, Push(e), k).flash.meta == w.flash.meta;
    ApplyKeepsSize(w.flash, calls[..k]);
  }

  /**
   A reset between any two storage calls leaves exactly the queue before the interrupted operation
   or the one after it when the persisted indices differ, and an empty queue when they are equal.
   */
  lemma {:induction false} RecoversAnywhere(w: World, op: Op, k: nat)
    requires Sound(w) && k <= |Calls(w, op)|
    ensures Recovers(w, op, Interrupted(w, op, k))
  {
    if k == 0 || k == |Calls(w, op)| {
      RecoversAtEnds(w, op, k);
    } else if op.Pop? {
      RecoversInPop(w);
    } else if w.ring.count < |w.flash.slots| {
      RecoversInPush(w, op.envelope);
    } else {
      RecoversInEviction(w, op.envelope, k);
    }
  }

  // ---- Whole runs

  datatype Event = Done(op: Op) | ResetDuring(op: Op, afterCalls: nat)

  /** A reset happens no later than the operation's last call. */
  ghost predicate Possible(w: World, e: Event)
    requires Sound(w)
  {
    e.ResetDuring? ==> e.afterCalls <= |Calls(w, e.op)|
  }

  ghost function Next(w: World, e: Event): (v: World)
    requires Sound(w) && Possible(w, e)
    ensures Sound(v)
  {
    match e
    case Done(op) => CompletedIsSound(w, op); Completed(w, op)
    case ResetDuring(op, k) => RecoversAnywhere(w, op, k); Interrupted(w, op, k)
  }

  ghost predicate PossibleRun(w: World, events: seq<Event>)
    requires Sound(w)
    decreases |events|
  {
    events == [] || (Possible(w, events[0]) && PossibleRun(Next(w, events[0]), events[1..]))
  }

  /** Every reset of the run recovers, from the state the run had reached. */
  ghost predicate EveryResetRecovers(w: World, events: seq<Event>)
    requires Sound(w) && PossibleRun(w, events)
    decreases |events|
  {
    events == [] ||
    (var e := events[0];
     (e.ResetDuring? ==> Recovers(w, e.op, Interrupted(w, e.op, e.afterCalls)))
     && EveryResetRecovers(Next(w, e), events[1..]))
  }

  /** From any soundly stored queue, blank devices included, over any run of operations and resets. */
  lemma {:induction false} RunsRecover(w: World, events: seq<Event>)
    requires Sound(w) && PossibleRun(w, events)
    ensures EveryResetRecovers(w, events)
    decreases |events|
  {
    if events != [] {
      var e := events[0];
      if e.ResetDuring? {
        RecoversAnywhere(w, e.op, e.afterCalls);
      }
      RunsRecover(Next(w, e), events[1..]);
    }
  }

  /** From a blank device on, or one whose metadata says nothing usable: every reset of every run recovers. */
  lemma {:induction false} RunsFromBlankRecover(f: Flash, events: seq<Event>)
    requires |f.slots| > 0 && LooksEmpty(f) && PossibleRun(Rebooted(f), events)
    ensures EveryResetRecovers(Rebooted(f), events)
  {
    BlankIsSound(f);
    RunsRecover(Rebooted(f), events);
  }

  /** The one loss: a full ring is forgotten by any reset at all, though every envelope is still in flash. */
  lemma {:induction false} FullRingIsForgotten(w: World)
    requires Sound(w) && w.ring.count == |w.flash.slots| && Contents(w.ring, w.flash)[0].Some?
    ensures |Queue(w)| == |w.flash.slots| && Queue(Rebooted(w.flash)) == []
  {
    AllReadable(Contents(w.ring, w.flash));
    RebootKeepsUnlessFull(w);
  }
}
