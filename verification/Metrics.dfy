/**
 The metrics table: ten slots scanned in order, which amount to a map from (name, type) to a value.

 A counter holds the sum of its deltas and a gauge the last reading. A name that finds the table
 full is refused; only a reset makes room.
 */
module Metrics {
  import opened Prelude
  import opened Json
  import Envelope

  const MAX_METRICS: nat := 10

  datatype Kind = Counter | Gauge

  datatype Key = Key(name: string, kind: Kind)

  datatype Metric = Metric(key: Key, unit: string, value: int)

  datatype Slot = Slot(metric: Metric, used: bool)

  datatype Op = Op(key: Key, amount: int, unit: string)

  const FREE: Slot := Slot(Metric(Key.Key("", Counter), "", 0), false)

  // ---- The table as a value

  /** Where a key is held, or how many are held. */
  function IndexOf(held: seq<Metric>, key: Key): (i: nat)
    ensures i <= |held| && (i < |held| ==> held[i].key == key) && forall k :: 0 <= k < i ==> held[k].key != key
  {
    if held == [] || held[0].key == key then 0 else 1 + IndexOf(held[1..], key)
  }

  lemma {:induction false} IndexIs(held: seq<Metric>, key: Key, i: nat)
    requires i <= |held| && (i < |held| ==> held[i].key == key) && forall k :: 0 <= k < i ==> held[k].key != key
    ensures IndexOf(held, key) == i
  {
  }

  predicate Takes(held: seq<Metric>, key: Key) {
    IndexOf(held, key) < |held| || |held| < MAX_METRICS
  }

  function Updated(m: Metric, amount: int): Metric {
    m.(value := if m.key.kind == Counter then m.value + amount else amount)
  }

  function Applied(held: seq<Metric>, op: Op): seq<Metric> {
    var i := IndexOf(held, op.key);
    if i < |held| then held[i := Updated(held[i], op.amount)]
    else if |held| < MAX_METRICS then held + [Updated(Metric(op.key, op.unit, 0), op.amount)]
    else held
  }

  class Table {
    const items: array<Slot>
    var dropped: nat
    ghost var held: seq<Metric>

    /** The used slots come first: only a reset frees any, and it frees them all. */
    ghost predicate Valid()
      reads this, items
    {
      && items.Length == MAX_METRICS && |held| <= MAX_METRICS && dropped <= UINT16_MAX
      && (forall i :: 0 <= i < |held| ==> items[i] == Slot(held[i], true))
      && (forall i :: |held| <= i < MAX_METRICS ==> !items[i].used)
    }

    constructor ()
      ensures Valid() && fresh(items) && held == [] && dropped == 0
    {
      items := new Slot[MAX_METRICS](_ => FREE);
      dropped, held := 0, [];
    }

    method Reset()
      requires Valid()
      modifies this`dropped, this`held, items
      ensures Valid() && held == [] && dropped == 0
    {
      forall i | 0 <= i < MAX_METRICS {
        items[i] := FREE;
      }
      dropped, held := 0, [];
    }

    /** The slot for a key, taking a free one if the key is new and there is one. */
    method SlotFor(key: Key, unit: string) returns (slot: Option<nat>)
      requires Valid()
      modifies this`dropped, this`held, items
      ensures Valid()
      ensures slot == if Takes(old(held), key) then Some(IndexOf(old(held), key)) else None
      ensures held == if IndexOf(old(held), key) == |old(held)| < MAX_METRICS then old(held) + [Metric(key, unit, 0)] else old(held)
      ensures dropped == if slot == None then (old(dropped) + 1) % (UINT16_MAX + 1) else old(dropped)
    {
      var free: Option<nat> := None;
      for i := 0 to MAX_METRICS
        invariant Valid() && held == old(held) && dropped == old(dropped)
        invariant forall k :: 0 <= k < i && k < |held| ==> held[k].key != key
        invariant free == if i > |held| then Some(|held|) else None
      {
        if !items[i].used {
          if free == None {
            free := Some(i);
          }
        } else if items[i].metric.key == key {
          IndexIs(held, key, i);
          return Some(i);
        }
      }
      IndexIs(held, key, |held|);
      if free == None {
        dropped := (dropped + 1) % (UINT16_MAX + 1);
        return None;
      }
      items[free.value] := Slot(Metric(key, unit, 0), true);
      held := held + [Metric(key, unit, 0)];
      return free;
    }

    /** Count or gauge. */
    method Apply(op: Op) returns (accepted: bool)
      requires Valid()
      modifies this`dropped, this`held, items
      ensures Valid() && accepted == Takes(old(held), op.key) && held == Applied(old(held), op)
      ensures dropped == if accepted then old(dropped) else (old(dropped) + 1) % (UINT16_MAX + 1)
    {
      var slot := SlotFor(op.key, op.unit);
      if slot == None {
        return false;
      }
      var i := slot.value;
      var m := items[i].metric;
      var value := if op.key.kind == Counter then m.value + op.amount else op.amount;
      items[i] := items[i].(metric := m.(value := value));
      held := held[i := m.(value := value)];
      return true;
    }

    method Empty() returns (empty: bool)
      requires Valid()
      ensures empty == (held == [])
    {
      for i := 0 to MAX_METRICS
        invariant i > 0 ==> held == []
      {
        if items[i].used {
          return false;
        }
      }
      return true;
    }

    method Items() returns (metrics: seq<Metric>)
      requires Valid()
      ensures metrics == held
    {
      metrics := [];
      for i := 0 to MAX_METRICS
        invariant metrics == held[..if i < |held| then i else |held|]
      {
        if items[i].used {
          metrics := metrics + [items[i].metric];
        }
      }
    }
  }

  // ---- What the table means

  function Run(held: seq<Metric>, ops: seq<Op>): seq<Metric>
    decreases |ops|
  {
    if ops == [] then held else Applied(Run(held, ops[..|ops| - 1]), ops[|ops| - 1])
  }

  /** The keys used, each once, in order of first use. */
  function Keys(ops: seq<Op>): seq<Key> {
    if ops == [] then []
    else
      var keys, key := Keys(ops[..|ops| - 1]), ops[|ops| - 1].key;
      if key in keys then keys else keys + [key]
  }

  /** The sum of a counter's deltas, or a gauge's last reading. */
  function Meaning(ops: seq<Op>, key: Key): int {
    if ops == [] then 0
    else
      var last, before := ops[|ops| - 1], Meaning(ops[..|ops| - 1], key);
      if last.key != key then before else if key.kind == Counter then before + last.amount else last.amount
  }

  /** The unit a key was first used with; later ones are ignored. */
  function FirstUnit(ops: seq<Op>, key: Key): string {
    if ops == [] then ""
    else
      var last, before := ops[|ops| - 1], ops[..|ops| - 1];
      if key in Keys(before) then FirstUnit(before, key) else if last.key == key then last.unit else ""
  }

  lemma {:induction false} UnusedMeansNothing(ops: seq<Op>, key: Key)
    requires key !in Keys(ops)
    ensures Meaning(ops, key) == 0
    decreases |ops|
  {
    if ops != [] {
      UnusedMeansNothing(ops[..|ops| - 1], key);
    }
  }

  function HeldKeys(held: seq<Metric>): seq<Key> {
    seq(|held|, i requires 0 <= i < |held| => held[i].key)
  }

  function FirstTen(keys: seq<Key>): seq<Key> {
    if |keys| <= MAX_METRICS then keys else keys[..MAX_METRICS]
  }

  lemma {:induction false} HeldKeysIndex(held: seq<Metric>, key: Key)
    ensures IndexOf(held, key) < |held| <==> key in HeldKeys(held)
  {
    if key in HeldKeys(held) {
      var i :| 0 <= i < |held| && HeldKeys(held)[i] == key;
      assert held[i].key == key;
    } else {
      assert forall i :: 0 <= i < |held| ==> HeldKeys(held)[i] == held[i].key;
    }
  }

  /** What all the operations on its key mean, in the unit of the first of them. */
  predicate Means(m: Metric, ops: seq<Op>) {
    m.value == Meaning(ops, m.key) && m.unit == FirstUnit(ops, m.key)
  }

  /** The table refines a map over the first ten keys used: each holds what all its operations mean. */
  ghost predicate Refines(held: seq<Metric>, ops: seq<Op>) {
    && HeldKeys(held) == FirstTen(Keys(ops))
    && forall i :: 0 <= i < |held| ==> Means(held[i], ops)
  }

  lemma {:induction false} KeysAreDistinct(ops: seq<Op>)
    ensures forall i, j :: 0 <= i < j < |Keys(ops)| ==> Keys(ops)[i] != Keys(ops)[j]
    decreases |ops|
  {
    if ops != [] {
      KeysAreDistinct(ops[..|ops| - 1]);
    }
  }

  lemma {:induction false} OneMore(ops: seq<Op>, op: Op, key: Key)
    ensures Keys(ops + [op]) == if op.key in Keys(ops) then Keys(ops) else Keys(ops) + [op.key]
    ensures Meaning(ops + [op], key) ==
      if op.key != key then Meaning(ops, key) else if key.kind == Counter then Meaning(ops, key) + op.amount else op.amount
    ensures FirstUnit(ops + [op], key) == if op.key == key && key !in Keys(ops) then op.unit else FirstUnit(ops, key)
  {
    assert (ops + [op])[..|ops|] == ops;
  }

  lemma {:induction false} HeldIsUpdated(held: seq<Metric>, ops: seq<Op>, op: Op)
    requires Refines(held, ops) && IndexOf(held, op.key) < |held|
    ensures Refines(Applied(held, op), ops + [op])
  {
    var after, i := Applied(held, op), IndexOf(held, op.key);
    KeysAreDistinct(ops);
    assert HeldKeys(held)[i] == Keys(ops)[i] == op.key;
    assert HeldKeys(after) == HeldKeys(held);
    OneMore(ops, op, op.key);
    forall k | 0 <= k < |after|
      ensures Means(after[k], ops + [op])
    {
      OneMore(ops, op, after[k].key);
      assert HeldKeys(held)[k] == Keys(ops)[k];
    }
  }

  lemma {:induction false} NewIsAdded(held: seq<Metric>, ops: seq<Op>, op: Op)
    requires Refines(held, ops) && IndexOf(held, op.key) == |held| && |held| < MAX_METRICS
    ensures HeldKeys(Applied(held, op)) == FirstTen(Keys(ops + [op]))
    ensures forall k :: 0 <= k < |held| + 1 ==> Means(Applied(held, op)[k], ops + [op])
  {
    var after := Applied(held, op);
    HeldKeysIndex(held, op.key);
    assert HeldKeys(held) == Keys(ops);
    UnusedMeansNothing(ops, op.key);
    OneMore(ops, op, op.key);
    assert HeldKeys(after) == HeldKeys(held) + [op.key];
    forall k | 0 <= k < |held| + 1
      ensures Means(after[k], ops + [op])
    {
      OneMore(ops, op, after[k].key);
    }
  }

  lemma {:induction false} RefusedIsHarmless(held: seq<Metric>, ops: seq<Op>, op: Op)
    requires Refines(held, ops) && IndexOf(held, op.key) == |held| >= MAX_METRICS
    ensures Refines(held, ops + [op])
  {
    assert |Keys(ops)| >= MAX_METRICS;
    OneMore(ops, op, op.key);
    forall k | 0 <= k < |held|
      ensures Means(held[k], ops + [op])
    {
      OneMore(ops, op, held[k].key);
    }
  }

  lemma {:induction false} AppliedRefines(held: seq<Metric>, ops: seq<Op>, op: Op)
    requires Refines(held, ops)
    ensures Refines(Applied(held, op), ops + [op])
  {
    if IndexOf(held, op.key) < |held| {
      HeldIsUpdated(held, ops, op);
    } else if |held| < MAX_METRICS {
      NewIsAdded(held, ops, op);
    } else {
      RefusedIsHarmless(held, ops, op);
    }
  }

  /** From a reset table, any run of operations: refused names never disturb the ones held. */
  lemma {:induction false} RunRefinesMap(ops: seq<Op>)
    ensures Refines(Run([], ops), ops)
    decreases |ops|
  {
    if ops != [] {
      var front := ops[..|ops| - 1];
      RunRefinesMap(front);
      AppliedRefines(Run([], front), front, ops[|ops| - 1]);
      assert front + [ops[|ops| - 1]] == ops;
    }
  }

  // ---- The batch

  function MetricDoc(m: Metric, traceId: string, nowUnix: nat): Json {
    Obj([Member("name", Str(m.key.name)), Member("type", Str(if m.key.kind == Counter then "counter" else "gauge")),
         Member("value", Number(m.value, 0))]
        + (if m.unit == "" then [] else [Member("unit", Str(m.unit))])
        + [Member("trace_id", Str(traceId)), Member("timestamp", Number(nowUnix, -6))])
  }

  function Doc(held: seq<Metric>, traceId: string, nowUnix: nat): Json {
    Obj([Member("items", Arr(seq(|held|, i requires 0 <= i < |held| => MetricDoc(held[i], traceId, nowUnix))))])
  }

  /** One item of the batch is this number: its unit only if it has one. */
  predicate MetricFound(v: Json, m: Metric, traceId: string, nowUnix: nat) {
    && Under(v, "name") == [Str(m.key.name)] && Under(v, "value") == [Number(m.value, 0)]
    && (m.key.kind == Counter ==> Under(v, "type") == [Str("counter")])
    && (m.key.kind == Gauge ==> Under(v, "type") == [Str("gauge")])
    && Under(v, "unit") == (if m.unit == "" then [] else [Str(m.unit)])
    && Under(v, "trace_id") == [Str(traceId)] && Under(v, "timestamp") == [Number(nowUnix, -6)]
  }

  /** The payload lists the table, each number in its place. */
  predicate MetricsFound(v: Json, held: seq<Metric>, traceId: string, nowUnix: nat) {
    && |Under(v, "items")| == 1 && Under(v, "items")[0].Arr? && |Under(v, "items")[0].items| == |held|
    && forall i :: 0 <= i < |held| ==> MetricFound(Under(v, "items")[0].items[i], held[i], traceId, nowUnix)
  }

  lemma {:induction false} NamesOfMetric()
    ensures "name" != "type" && "name" != "unit" && "type" != "unit"
  {
    assert "name"[0] == 'n' && "type"[0] == 't' && "unit"[0] == 'u';
  }

  lemma {:induction false} FieldsDiffer(m: Metric, traceId: string, nowUnix: nat)
    ensures NamesDiffer(MetricDoc(m, traceId, nowUnix).members)
  {
    var members := MetricDoc(m, traceId, nowUnix).members;
    NamesOfMetric();
    assert members[0].key == "name" && members[1].key == "type" && members[2].key == "value";
    if m.unit == "" {
      assert |members| == 5 && members[3].key == "trace_id" && members[4].key == "timestamp";
    } else {
      assert |members| == 6 && members[3].key == "unit" && members[4].key == "trace_id" && members[5].key == "timestamp";
    }
  }

  lemma {:induction false} MetricIsFound(m: Metric, traceId: string, nowUnix: nat)
    ensures MetricFound(MetricDoc(m, traceId, nowUnix), m, traceId, nowUnix)
  {
    var members := MetricDoc(m, traceId, nowUnix).members;
    FieldsDiffer(m, traceId, nowUnix);
    forall i | 0 <= i < |members|
      ensures Named(members, members[i].key) == [members[i].value]
    {
      OneNamed(members, i);
    }
    assert members[0].key == "name" && members[1].key == "type" && members[2].key == "value";
    if m.unit == "" {
      NamesOfMetric();
      assert members[3].key == "trace_id" && members[4].key == "timestamp";
      NoneNamed(members, "unit");
    } else {
      assert members[3].key == "unit" && members[4].key == "trace_id" && members[5].key == "timestamp";
    }
  }

  lemma {:induction false} MetricsAreFound(held: seq<Metric>, traceId: string, nowUnix: nat)
    ensures MetricsFound(Doc(held, traceId, nowUnix), held, traceId, nowUnix)
  {
    var doc := Doc(held, traceId, nowUnix);
    OneNamed(doc.members, 0);
    forall i | 0 <= i < |held|
      ensures MetricFound(Under(doc, "items")[0].items[i], held[i], traceId, nowUnix)
    {
      MetricIsFound(held[i], traceId, nowUnix);
    }
  }

  lemma {:induction false} DocIsPrintable(held: seq<Metric>, traceId: string, nowUnix: nat)
    ensures Printable(Doc(held, traceId, nowUnix))
  {
    forall m ensures Printable(MetricDoc(m, traceId, nowUnix)) {
      forall member | member in MetricDoc(m, traceId, nowUnix).members
        ensures Printable(member.value)
      {
      }
    }
    assert Printable(Arr(seq(|held|, i requires 0 <= i < |held| => MetricDoc(held[i], traceId, nowUnix))));
  }

  function Needed(held: seq<Metric>, traceId: string, nowUnix: nat): nat {
    if traceId == "" || nowUnix == 0 || held == [] then 0
    else Envelope.Needed(Envelope.MetricItem(|held|), Doc(held, traceId, nowUnix))
  }

  method Write(table: Table, traceId: string, nowUnix: nat, buf: array?<char>, cap: nat) returns (needed: nat)
    requires table.Valid() && (buf != null ==> cap <= buf.Length && buf.Length > 0)
    modifies buf
    ensures table.Valid() && needed == Needed(table.held, traceId, nowUnix)
    ensures Envelope.Wrote(buf, cap, needed, Envelope.Text(Envelope.MetricItem(|table.held|), Doc(table.held, traceId, nowUnix)))
  {
    if buf != null && cap > 0 {
      buf[0] := '\0';
    }
    var empty := table.Empty();
    if traceId == "" || nowUnix == 0 || empty {
      return 0;
    }
    var metrics := table.Items();
    needed := Envelope.Write(Envelope.MetricItem(|metrics|), Doc(metrics, traceId, nowUnix), buf, cap);
  }

  // ---- Refused reports

  /** The table between two inits: reports, and the reset after a batch that was delivered or given up. */
  datatype Use = Report(op: Op) | Clear

  function Used(held: seq<Metric>, u: Use): seq<Metric> {
    match u
    case Report(op) => Applied(held, op)
    case Clear => []
  }

  function RunUses(held: seq<Metric>, uses: seq<Use>): seq<Metric>
    decreases |uses|
  {
    if uses == [] then held else RunUses(Used(held, uses[0]), uses[1..])
  }

  function RefusedKey(held: seq<Metric>, u: Use): seq<Key> {
    if u.Report? && !Takes(held, u.op.key) then [u.op.key] else []
  }

  /** What the public counter of dropped metrics makes of one use, in 32 bits. */
  function NextDropped(dropped: nat, held: seq<Metric>, u: Use): nat {
    if RefusedKey(held, u) != [] then (dropped + 1) % UINT32_MODULUS else dropped
  }

  function RunDropped(dropped: nat, held: seq<Metric>, uses: seq<Use>): nat
    decreases |uses|
  {
    if uses == [] then dropped else RunDropped(NextDropped(dropped, held, uses[0]), Used(held, uses[0]), uses[1..])
  }

  /** The keys of the refused reports, in order, as often as they were refused. */
  function RefusedKeys(held: seq<Metric>, uses: seq<Use>): seq<Key>
    decreases |uses|
  {
    if uses == [] then [] else RefusedKey(held, uses[0]) + RefusedKeys(Used(held, uses[0]), uses[1..])
  }

  lemma {:induction false} ModAdds(a: nat, b: nat)
    ensures (a % UINT32_MODULUS + b) % UINT32_MODULUS == (a + b) % UINT32_MODULUS
  {
  }

  lemma {:induction false} CountOne(dropped: nat, first: nat, next: nat, rest: nat)
    requires dropped < UINT32_MODULUS && first <= 1 && next == if first == 1 then (dropped + 1) % UINT32_MODULUS else dropped
    ensures (next + rest) % UINT32_MODULUS == (dropped + (first + rest)) % UINT32_MODULUS
  {
    ModAdds(dropped + 1, rest);
  }

  ghost predicate CountsRefusals(dropped: nat, held: seq<Metric>, uses: seq<Use>) {
    RunDropped(dropped, held, uses) == (dropped + |RefusedKeys(held, uses)|) % UINT32_MODULUS
  }

  lemma {:induction false} CountsOneMore(dropped: nat, held: seq<Metric>, uses: seq<Use>)
    requires uses != [] && dropped < UINT32_MODULUS
    requires CountsRefusals(NextDropped(dropped, held, uses[0]), Used(held, uses[0]), uses[1..])
    ensures CountsRefusals(dropped, held, uses)
  {
    var u, after := uses[0], Used(held, uses[0]);
    CountOne(dropped, |RefusedKey(held, u)|, NextDropped(dropped, held, u), |RefusedKeys(after, uses[1..])|);
  }

  /** Over every run of reports and resets the counter is the number of refused reports, in 32 bits. */
  lemma {:induction false} DroppedCountsRefusals(dropped: nat, held: seq<Metric>, uses: seq<Use>)
    requires dropped < UINT32_MODULUS
    ensures CountsRefusals(dropped, held, uses)
    decreases |uses|
  {
    if uses == [] {
      SmallMod(dropped);
    } else {
      DroppedCountsRefusals(NextDropped(dropped, held, uses[0]), Used(held, uses[0]), uses[1..]);
      CountsOneMore(dropped, held, uses);
    }
  }

  lemma {:induction false} SmallMod(n: nat)
    requires n < UINT32_MODULUS
    ensures n % UINT32_MODULUS == n
  {
  }

  predicate NoRepeats<T(==)>(items: seq<T>) {
    forall i, j :: 0 <= i < j < |items| ==> items[i] != items[j]
  }

  function Distinct<T(==)>(items: seq<T>): set<T> {
    set x | x in items
  }

  lemma {:induction false} DistinctWhenNoRepeats<T>(items: seq<T>)
    ensures |Distinct(items)| <= |items|
    ensures |Distinct(items)| == |items| <==> NoRepeats(items)
    decreases |items|
  {
    if items == [] {
      assert Distinct(items) == {};
    } else {
      var front, last := items[..|items| - 1], items[|items| - 1];
      DistinctWhenNoRepeats(front);
      assert items == front + [last];
      assert Distinct(items) == Distinct(front) + {last};
      if last in front {
        assert Distinct(items) == Distinct(front);
        var i :| 0 <= i < |front| && front[i] == last;
        assert items[i] == items[|items| - 1];
      } else {
        assert NoRepeats(items) <==> NoRepeats(front);
      }
    }
  }

  function NamesOf(keys: seq<Key>): seq<string> {
    seq(|keys|, i requires 0 <= i < |keys| => keys[i].name)
  }

  lemma {:induction false} DroppedBelowWrap(uses: seq<Use>)
    requires |RefusedKeys([], uses)| < UINT32_MODULUS
    ensures RunDropped(0, [], uses) == |RefusedKeys([], uses)|
  {
    DroppedCountsRefusals(0, [], uses);
    SmallMod(|RefusedKeys([], uses)|);
  }

  /**
   Below 2^32 refusals since the last init, the counter is the number of distinct keys refused if
   and only if none was refused twice, and the number of distinct names if and only if no name was.
   */
  lemma {:induction false} DroppedIsDistinctIff(uses: seq<Use>)
    requires |RefusedKeys([], uses)| < UINT32_MODULUS
    ensures RunDropped(0, [], uses) == |Distinct(RefusedKeys([], uses))| <==> NoRepeats(RefusedKeys([], uses))
    ensures RunDropped(0, [], uses) == |Distinct(NamesOf(RefusedKeys([], uses)))| <==> NoRepeats(NamesOf(RefusedKeys([], uses)))
  {
    var refused := RefusedKeys([], uses);
    DroppedBelowWrap(uses);
    DistinctWhenNoRepeats(refused);
    DistinctWhenNoRepeats(NamesOf(refused));
  }

  /** A counter whose name is n letters long. */
  function Nth(n: nat): Use {
    Report(Op(Key.Key(seq(n, _ => 'm'), Counter), 1, ""))
  }

  function Reports(n: nat): seq<Use> {
    if n == 0 then [] else Reports(n - 1) + [Nth(n - 1)]
  }

  lemma {:induction false} OneMoreReport(held: seq<Metric>, uses: seq<Use>, u: Use)
    ensures RunUses(held, uses + [u]) == Used(RunUses(held, uses), u)
    ensures RefusedKeys(held, uses + [u]) == RefusedKeys(held, uses) + RefusedKey(RunUses(held, uses), u)
    decreases |uses|
  {
    if uses == [] {
      assert uses + [u] == [u] && [u][1..] == [];
    } else {
      assert (uses + [u])[1..] == uses[1..] + [u];
      OneMoreReport(Used(held, uses[0]), uses[1..], u);
    }
  }

  ghost predicate HoldsFirst(held: seq<Metric>, n: nat) {
    |held| == n && forall i :: 0 <= i < n ==> held[i].key == Nth(i).op.key
  }

  lemma {:induction false} NthIsNew(held: seq<Metric>, n: nat)
    requires HoldsFirst(held, n)
    ensures IndexOf(held, Nth(n).op.key) == n
  {
    forall i | 0 <= i < n
      ensures held[i].key != Nth(n).op.key
    {
      assert |Nth(i).op.key.name| == i;
    }
    IndexIs(held, Nth(n).op.key, n);
  }

  lemma {:induction false} NthIsTaken(held: seq<Metric>, n: nat)
    requires n < MAX_METRICS && HoldsFirst(held, n)
    ensures HoldsFirst(Used(held, Nth(n)), n + 1) && RefusedKey(held, Nth(n)) == []
  {
    NthIsNew(held, n);
  }

  lemma {:induction false} TenAreTaken(n: nat)
    requires n <= MAX_METRICS
    ensures HoldsFirst(RunUses([], Reports(n)), n) && RefusedKeys([], Reports(n)) == []
  {
    if n > 0 {
      TenAreTaken(n - 1);
      NthIsTaken(RunUses([], Reports(n - 1)), n - 1);
      OneMoreReport([], Reports(n - 1), Nth(n - 1));
    }
  }

  lemma {:induction false} RefusedTwice(uses: seq<Use>, again: Use)
    requires again.Report? && RefusedKeys([], uses) == [] && !Takes(RunUses([], uses), again.op.key)
    ensures RefusedKeys([], uses + [again] + [again]) == [again.op.key, again.op.key]
  {
    OneMoreReport([], uses, again);
    OneMoreReport([], uses + [again], again);
    assert Used(RunUses([], uses), again) == RunUses([], uses);
  }

  lemma {:induction false} FullThenTwice(n: nat)
    requires n == MAX_METRICS
    ensures RunDropped(0, [], Reports(n) + [Nth(n)] + [Nth(n)]) == 2
    ensures |Distinct(RefusedKeys([], Reports(n) + [Nth(n)] + [Nth(n)]))| == 1
  {
    var uses, last := Reports(n) + [Nth(n)] + [Nth(n)], Nth(n);
    TenAreTaken(n);
    NthIsNew(RunUses([], Reports(n)), n);
    RefusedTwice(Reports(n), last);
    DroppedBelowWrap(uses);
    assert Distinct(RefusedKeys([], uses)) == {last.op.key};
  }

  /** Twelve reports of eleven names: the eleventh is refused twice and counted twice, though it is one name. */
  lemma {:induction false} OneNameCountedTwice() returns (uses: seq<Use>)
    ensures |uses| == 12 && RunDropped(0, [], uses) == 2 && |Distinct(RefusedKeys([], uses))| == 1
  {
    var n := MAX_METRICS;
    FullThenTwice(n);
    ReportsAre(n);
    uses := Reports(n) + [Nth(n)] + [Nth(n)];
  }

  lemma {:induction false} ReportsAre(n: nat)
    ensures |Reports(n)| == n
  {
    if n > 0 {
      ReportsAre(n - 1);
    }
  }
}
