/**
 The offline ring buffer for undelivered envelopes: portable policy over a slot store.

 `Flash` is what the slots and the metadata hold; `SlotStore` is the storage vtable, whose calls
 may each fail; `RingBuffer` is the policy. Every storage call is recorded in order, because what
 a reset leaves behind is a prefix of them.
 */
module OfflineBuffer {
  import opened Prelude

  datatype Meta = Meta(head: nat, tail: nat, dropped: nat)

  datatype Flash = Flash(slots: seq<Option<Bytes>>, meta: Option<Meta>)

  /** One storage call and whether it worked; a call that fails changes nothing. */
  datatype Call =
    | Write(index: nat, data: Bytes, ok: bool)
    | Erase(index: nat, ok: bool)
    | SaveMeta(meta: Meta, ok: bool)

  function Apply(f: Flash, c: Call): Flash {
    if !c.ok then f
    else match c
      case Write(i, data, _) => if i < |f.slots| then f.(slots := f.slots[i := Some(data)]) else f
      case Erase(i, _) => if i < |f.slots| then f.(slots := f.slots[i := None]) else f
      case SaveMeta(m, _) => f.(meta := Some(m))
  }

  function ApplyAll(f: Flash, calls: seq<Call>): Flash
    decreases |calls|
  {
    if calls == [] then f else ApplyAll(Apply(f, calls[0]), calls[1..])
  }

  /** Which of the calls of one operation work. */
  datatype Weather = Weather(erases: bool, writes: bool, saves: bool)

  const FAIR: Weather := Weather(true, true, true)

  /** The indices and counters of `sentry_buffer_t`. */
  datatype Ring = Ring(head: nat, tail: nat, count: nat, dropped: nat)

  const EMPTY: Ring := Ring(0, 0, 0, 0)

  /** The slot `i` places after `head` in a ring of n. */
  function At(head: nat, i: nat, n: nat): nat
    requires head < n && i <= n
  {
    if head + i < n then head + i else head + i - n
  }

  /** The index after this one, wrapping. */
  function Advance(index: nat, n: nat): (next: nat)
    requires index < n
    ensures next == At(index, 1, n)
  {
    assert index + 1 == n ==> n % n == 0;
    (index + 1) % n
  }

  predicate WellFormed(r: Ring, n: nat) {
    r.head < n && r.tail < n && r.count <= n && r.tail == At(r.head, r.count, n)
  }

  /** The slots in use, oldest first. A slot can read as absent only after a failed or half-done call. */
  function Contents(r: Ring, f: Flash): (c: seq<Option<Bytes>>)
    requires WellFormed(r, |f.slots|)
    ensures |c| == r.count
  {
    seq(r.count, i requires 0 <= i < r.count => f.slots[At(r.head, i, |f.slots|)])
  }

  // ---- Push and pop as values

  function Bumped(dropped: nat): nat {
    if dropped < UINT32_MAX then dropped + 1 else dropped
  }

  function DropOldest(r: Ring, n: nat): Ring
    requires WellFormed(r, n) && r.count > 0
  {
    r.(head := At(r.head, 1, n), count := r.count - 1)
  }

  function Evicted(r: Ring, n: nat): Ring
    requires WellFormed(r, n)
  {
    if r.count == n then DropOldest(r, n).(dropped := Bumped(r.dropped)) else r
  }

  function Pushed(r: Ring, n: nat, w: Weather): Ring
    requires WellFormed(r, n)
  {
    var e := Evicted(r, n);
    if w.writes then e.(tail := At(e.tail, 1, n), count := e.count + 1) else e
  }

  function MetaOf(r: Ring): Meta {
    Meta(r.head, r.tail, r.dropped)
  }

  function PushCalls(r: Ring, n: nat, envelope: Bytes, w: Weather): seq<Call>
    requires WellFormed(r, n)
  {
    (if r.count == n then [Erase(r.head, w.erases)] else [])
    + [Write(r.tail, envelope, w.writes)]
    + (if w.writes then [SaveMeta(MetaOf(Pushed(r, n, w)), w.saves)] else [])
  }

  function PopCalls(r: Ring, n: nat, w: Weather): seq<Call>
    requires WellFormed(r, n) && r.count > 0
  {
    [Erase(r.head, w.erases), SaveMeta(MetaOf(DropOldest(r, n)), w.saves)]
  }

  lemma {:induction false} ApplyOne(f: Flash, c: Call)
    ensures ApplyAll(f, [c]) == Apply(f, c)
  {
    assert ApplyAll(Apply(f, c), [c][1..]) == Apply(f, c);
  }

  lemma {:induction false} ApplyTwo(f: Flash, a: Call, b: Call)
    ensures ApplyAll(f, [a, b]) == Apply(Apply(f, a), b)
  {
    assert [a, b][1..] == [b];
    ApplyOne(Apply(f, a), b);
  }

  lemma {:induction false} ApplyAppend(f: Flash, a: seq<Call>, b: seq<Call>)
    ensures ApplyAll(f, a + b) == ApplyAll(ApplyAll(f, a), b)
    decreases |a|
  {
    if a == [] {
      assert a + b == b;
    } else {
      assert (a + b)[1..] == a[1..] + b;
      ApplyAppend(Apply(f, a[0]), a[1..], b);
    }
  }

  lemma {:induction false} ApplyKeepsSize(f: Flash, calls: seq<Call>)
    ensures |ApplyAll(f, calls).slots| == |f.slots|
    decreases |calls|
  {
    if calls != [] {
      ApplyKeepsSize(Apply(f, calls[0]), calls[1..]);
    }
  }

  /** The flash after a push, one storage call after the other. */
  function FlashAfterPush(r: Ring, f: Flash, envelope: Bytes, w: Weather): Flash
    requires WellFormed(r, |f.slots|)
  {
    var erased := if r.count == |f.slots| then Apply(f, Erase(r.head, w.erases)) else f;
    var written := Apply(erased, Write(r.tail, envelope, w.writes));
    if w.writes then Apply(written, SaveMeta(MetaOf(Pushed(r, |f.slots|, w)), w.saves)) else written
  }

  lemma {:induction false} PushCallByCall(r: Ring, f: Flash, envelope: Bytes, w: Weather)
    requires WellFormed(r, |f.slots|)
    ensures ApplyAll(f, PushCalls(r, |f.slots|, envelope, w)) == FlashAfterPush(r, f, envelope, w)
  {
    var n := |f.slots|;
    var erase := if r.count == n then [Erase(r.head, w.erases)] else [];
    var write := [Write(r.tail, envelope, w.writes)];
    var save := if w.writes then [SaveMeta(MetaOf(Pushed(r, n, w)), w.saves)] else [];
    ApplyAppend(f, erase + write, save);
    ApplyAppend(f, erase, write);
  }

  /**
   A push drops the oldest entry when the ring is full and appends the envelope when the write
   works. A full ring whose write fails has lost both.
   */
  lemma {:induction false} PushIsDropOldestAppend(r: Ring, f: Flash, envelope: Bytes, w: Weather)
    requires WellFormed(r, |f.slots|)
    ensures var n := |f.slots|;
      var g := ApplyAll(f, PushCalls(r, n, envelope, w));
      var kept := if r.count == n then Contents(r, f)[1..] else Contents(r, f);
      && |g.slots| == n && WellFormed(Pushed(r, n, w), n)
      && Contents(Pushed(r, n, w), g) == kept + (if w.writes then [Some(envelope)] else [])
  {
    PushCallByCall(r, f, envelope, w);
    if r.count == |f.slots| {
      PushIntoFull(r, f, envelope, w);
    } else {
      PushIntoSpace(r, f, envelope, w);
    }
  }

  lemma {:induction false} PushIntoSpace(r: Ring, f: Flash, envelope: Bytes, w: Weather)
    requires WellFormed(r, |f.slots|) && r.count < |f.slots|
    ensures var n := |f.slots|;
      var g := FlashAfterPush(r, f, envelope, w);
      && |g.slots| == n && WellFormed(Pushed(r, n, w), n)
      && Contents(Pushed(r, n, w), g) == Contents(r, f) + (if w.writes then [Some(envelope)] else [])
  {
  }

  lemma {:induction false} PushIntoFull(r: Ring, f: Flash, envelope: Bytes, w: Weather)
    requires WellFormed(r, |f.slots|) && r.count == |f.slots|
    ensures var n := |f.slots|;
      var g := FlashAfterPush(r, f, envelope, w);
      && |g.slots| == n && WellFormed(Pushed(r, n, w), n)
      && Contents(Pushed(r, n, w), g) == Contents(r, f)[1..] + (if w.writes then [Some(envelope)] else [])
  {
  }

  /** A pop drops the oldest entry, even if the erase or the save fails. */
  lemma {:induction false} PopDropsOldest(r: Ring, f: Flash, w: Weather)
    requires WellFormed(r, |f.slots|) && r.count > 0
    ensures var n := |f.slots|;
      var g := ApplyAll(f, PopCalls(r, n, w));
      && |g.slots| == n && WellFormed(DropOldest(r, n), n)
      && Contents(DropOldest(r, n), g) == Contents(r, f)[1..]
  {
    ApplyTwo(f, PopCalls(r, |f.slots|, w)[0], PopCalls(r, |f.slots|, w)[1]);
  }

  /** What `sentry_buffer_init` makes of the metadata it loads. */
  function Boot(f: Flash, loads: bool): Ring
    requires |f.slots| > 0
  {
    if !loads || f.meta == None then EMPTY
    else
      var m := f.meta.value;
      if m.head >= |f.slots| || m.tail >= |f.slots| then EMPTY
      else
        var count := if m.tail >= m.head then m.tail - m.head else |f.slots| - m.head + m.tail;
        Ring(m.head, m.tail, count, m.dropped)
  }

  /** The storage vtable over one device's flash. Whether a call works is the caller's parameter. */
  class SlotStore {
    var flash: Flash
    ghost var calls: seq<Call>

    constructor (flash: Flash)
      ensures this.flash == flash && calls == []
    {
      this.flash := flash;
      calls := [];
    }

    method DoWrite(index: nat, data: Bytes, ok: bool) returns (done: bool)
      modifies this
      ensures flash == Apply(old(flash), Write(index, data, ok))
      ensures calls == old(calls) + [Write(index, data, ok)] && done == ok
    {
      if ok && index < |flash.slots| {
        flash := flash.(slots := flash.slots[index := Some(data)]);
      }
      calls := calls + [Write(index, data, ok)];
      done := ok;
    }

    method DoErase(index: nat, ok: bool)
      modifies this
      ensures flash == Apply(old(flash), Erase(index, ok))
      ensures calls == old(calls) + [Erase(index, ok)]
    {
      if ok && index < |flash.slots| {
        flash := flash.(slots := flash.slots[index := None]);
      }
      calls := calls + [Erase(index, ok)];
    }

    method DoSaveMeta(meta: Meta, ok: bool)
      modifies this
      ensures flash == Apply(old(flash), SaveMeta(meta, ok))
      ensures calls == old(calls) + [SaveMeta(meta, ok)]
    {
      if ok {
        flash := flash.(meta := Some(meta));
      }
      calls := calls + [SaveMeta(meta, ok)];
    }

    /** Absent or too large for `cap` reads as nothing; so does a read that fails. */
    method DoRead(index: nat, cap: nat, ok: bool) returns (data: Option<Bytes>)
      ensures data == (if index < |flash.slots| then ReadAs(flash.slots[index], cap, ok) else None)
    {
      if index < |flash.slots| && ok && flash.slots[index].Some? && |flash.slots[index].value| <= cap {
        data := flash.slots[index];
      } else {
        data := None;
      }
    }
  }

  function ReadAs(slot: Option<Bytes>, cap: nat, ok: bool): Option<Bytes> {
    if ok && slot.Some? && |slot.value| <= cap then slot else None
  }

  class RingBuffer {
    var storage: SlotStore?
    var head: nat
    var tail: nat
    var count: nat
    var dropped: nat

    ghost function View(): Ring
      reads this
    {
      Ring(head, tail, count, dropped)
    }

    ghost predicate Valid()
      reads this, storage
    {
      if storage == null then View() == EMPTY else WellFormed(View(), |storage.flash.slots|)
    }

    ghost function Queue(): seq<Option<Bytes>>
      requires Valid()
      reads this, storage
    {
      if storage == null then [] else Contents(View(), storage.flash)
    }

    constructor ()
      ensures Valid() && storage == null && View() == EMPTY
    {
      storage, head, tail, count, dropped := null, 0, 0, 0, 0;
    }

    /** Attach to storage. A store without slots is unusable and leaves buffering off. */
    method Init(newStorage: SlotStore?, loads: bool) returns (usable: bool)
      modifies this
      ensures Valid()
      ensures usable <==> newStorage != null && |newStorage.flash.slots| > 0
      ensures usable ==> storage == newStorage && View() == Boot(newStorage.flash, loads)
      ensures !usable ==> storage == null && View() == EMPTY
    {
      storage, head, tail, count, dropped := null, 0, 0, 0, 0;
      if newStorage == null || |newStorage.flash.slots| == 0 {
        return false;
      }
      storage := newStorage;
      var n := |newStorage.flash.slots|;
      if !loads || newStorage.flash.meta == None {
        return true;
      }
      var m := newStorage.flash.meta.value;
      if m.head >= n || m.tail >= n {
        return true;
      }
      head, tail, dropped := m.head, m.tail, m.dropped;
      count := if tail >= head then tail - head else n - head + tail;
      return true;
    }

    /** Evict the oldest entry of a full ring. The erase is best effort: the write reclaims the slot. */
    method MakeRoom(erases: bool)
      requires Valid() && storage != null
      modifies this`head, this`count, this`dropped, storage
      ensures View() == Evicted(old(View()), old(|storage.flash.slots|))
      ensures storage.flash == if old(count) == old(|storage.flash.slots|) then Apply(old(storage.flash), Erase(old(head), erases)) else old(storage.flash)
      ensures storage.calls == old(storage.calls) + (if old(count) == old(|storage.flash.slots|) then [Erase(old(head), erases)] else [])
    {
      if count == |storage.flash.slots| {
        storage.DoErase(head, erases);
        head := Advance(head, |storage.flash.slots|);
        count := count - 1;
        if dropped < UINT32_MAX {
          dropped := dropped + 1;
        }
      }
    }

    method Push(envelope: Bytes, w: Weather) returns (stored: bool)
      requires Valid()
      modifies this`head, this`tail, this`count, this`dropped, storage
      ensures Valid()
      ensures storage == null || envelope == [] ==> !stored && View() == old(View())
      ensures storage != null ==> |storage.flash.slots| == old(|storage.flash.slots|)
      ensures storage != null && envelope == [] ==> storage.flash == old(storage.flash) && storage.calls == old(storage.calls)
      ensures storage != null && envelope != [] ==>
        var n := |storage.flash.slots|;
        var calls := PushCalls(old(View()), n, envelope, w);
        && stored == w.writes
        && View() == Pushed(old(View()), n, w)
        && storage.flash == ApplyAll(old(storage.flash), calls)
        && storage.calls == old(storage.calls) + calls
    {
      if storage == null || envelope == [] {
        return false;
      }
      PushIsDropOldestAppend(View(), storage.flash, envelope, w);
      PushCallByCall(View(), storage.flash, envelope, w);
      MakeRoom(w.erases);
      stored := storage.DoWrite(tail, envelope, w.writes);
      if stored {
        tail := Advance(tail, |storage.flash.slots|);
        count := count + 1;
        storage.DoSaveMeta(Meta(head, tail, dropped), w.saves);
      }
    }

    function Waiting(): (n: nat)
      requires Valid()
      reads this, storage
      ensures n == |Queue()|
    {
      count
    }

    /** The oldest envelope, without removing it. */
    method Peek(cap: nat, ok: bool) returns (data: Option<Bytes>)
      requires Valid()
      ensures data == if Queue() == [] then None else ReadAs(Queue()[0], cap, ok)
    {
      if storage == null || count == 0 {
        return None;
      }
      data := storage.DoRead(head, cap, ok);
    }

    method Pop(w: Weather) returns (popped: bool)
      requires Valid()
      modifies this`head, this`count, storage
      ensures Valid() && popped == (old(count) > 0)
      ensures !popped ==> View() == old(View()) && (storage != null ==> storage.flash == old(storage.flash) && storage.calls == old(storage.calls))
      ensures popped ==> storage != null && |storage.flash.slots| == old(|storage.flash.slots|)
      ensures popped ==>
        var n := |storage.flash.slots|;
        var calls := PopCalls(old(View()), n, w);
        && View() == DropOldest(old(View()), n)
        && storage.flash == ApplyAll(old(storage.flash), calls)
        && storage.calls == old(storage.calls) + calls
        && Queue() == old(Queue())[1..]
    {
      if storage == null || count == 0 {
        return false;
      }
      PopDropsOldest(View(), storage.flash, w);
      ghost var calls := PopCalls(View(), |storage.flash.slots|, w);
      ApplyTwo(storage.flash, calls[0], calls[1]);
      storage.DoErase(head, w.erases);
      head := Advance(head, |storage.flash.slots|);
      count := count - 1;
      storage.DoSaveMeta(Meta(head, tail, dropped), w.saves);
      return true;
    }

    method ResetDropped(w: Weather)
      requires Valid()
      modifies this`dropped, storage
      ensures Valid()
      ensures storage != null ==> View() == old(View()).(dropped := 0)
      ensures storage != null ==> storage.flash == Apply(old(storage.flash), SaveMeta(MetaOf(View()), w.saves))
      ensures storage != null ==> storage.calls == old(storage.calls) + [SaveMeta(MetaOf(View()), w.saves)]
      ensures storage == null ==> View() == old(View())
    {
      if storage == null {
        return;
      }
      dropped := 0;
      storage.DoSaveMeta(Meta(head, tail, dropped), w.saves);
    }

    /** Discard everything, one pop at a time. */
    method Clear(w: nat -> Weather)
      requires Valid()
      modifies this`head, this`count, storage
      ensures Valid() && Queue() == [] && tail == old(tail) && dropped == old(dropped)
      ensures storage != null ==> |storage.flash.slots| == old(|storage.flash.slots|)
    {
      var i := 0;
      while count > 0
        invariant Valid()
        invariant storage != null ==> |storage.flash.slots| == old(|storage.flash.slots|)
        decreases count
      {
        var _ := Pop(w(i));
        i := i + 1;
      }
    }
  }
}
