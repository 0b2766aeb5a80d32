/** The envelope a full ring of console lines goes out in, and why it always fits. */
module LogEnvelope {
  import opened Prelude
  import opened Json
  import opened LogRing
  import Envelope

  const DEVICE_ID_LEN: nat := 13

  function LevelName(level: int): string {
    match level
    case 0 => "debug"
    case 1 => "info"
    case 2 => "warn"
    case 3 => "error"
    case 4 => "fatal"
    case _ => "info"
  }

  function Severity(level: int): int {
    match level
    case 0 => 5
    case 1 => 9
    case 2 => 13
    case 3 => 17
    case 4 => 21
    case _ => 9
  }

  function Attribute(key: string, value: Json, kind: string): Member {
    Member(key, Obj([Member("value", value), Member("type", Str(kind))]))
  }

  /** Present only when there is something to say. */
  function Attributes(e: Entry, deviceId: string): seq<Member> {
    var cut, device := Attribute("t7d", Bool(true), "boolean"), Attribute("d_id", Str(deviceId), "string");
    if e.truncated then (if deviceId != "" then [cut, device] else [cut]) else (if deviceId != "" then [device] else [])
  }

  function Head(traceId: string, when: Micros, level: int, body: string): seq<Member> {
    [Member("timestamp", Number(when, -6)), Member("trace_id", Str(traceId)), Member("level", Str(LevelName(level))),
     Member("body", Str(body)), Member("severity_number", Number(Severity(level), 0))]
  }

  function LineDoc(log: Log, e: Entry, fallbackTraceId: string, deviceId: string, nowUptime: Micros, nowUnix: Micros): Json {
    var attributes := Attributes(e, deviceId);
    var traceId := if e.traceId != "" then e.traceId else fallbackTraceId;
    Obj(Head(traceId, EntryUnix(log, e, nowUptime, nowUnix), e.level, e.body)
        + if attributes == [] then [] else [Member("attributes", Obj(attributes))])
  }

  function LineDocs(log: Log, fallbackTraceId: string, deviceId: string, nowUptime: Micros, nowUnix: Micros): seq<Json> {
    seq(|log.lines|, i requires 0 <= i < |log.lines| => LineDoc(log, log.lines[i], fallbackTraceId, deviceId, nowUptime, nowUnix))
  }

  function Doc(log: Log, fallbackTraceId: string, deviceId: string, nowUptime: Micros, nowUnix: Micros): Json {
    Obj([Member("items", Arr(LineDocs(log, fallbackTraceId, deviceId, nowUptime, nowUnix)))])
  }

  /** What the batch needs, without its NUL: 0 when nothing can be written at all. */
  function Needed(log: Log, fallbackTraceId: string, deviceId: string, nowUptime: Micros, nowUnix: Micros): nat {
    if fallbackTraceId == "" || nowUnix == 0 || log.lines == [] then 0
    else Envelope.Needed(Envelope.LogItem(|log.lines|), Doc(log, fallbackTraceId, deviceId, nowUptime, nowUnix))
  }

  method Write(ring: Ring, fallbackTraceId: string, deviceId: string, nowUptime: Micros, nowUnix: Micros, buf: array?<char>, cap: nat) returns (needed: nat)
    requires ring.Valid() && (buf != null ==> cap <= buf.Length && buf.Length > 0)
    modifies buf
    ensures ring.Valid() && ring.View() == old(ring.View())
    ensures needed == Needed(ring.View(), fallbackTraceId, deviceId, nowUptime, nowUnix)
    ensures Envelope.Wrote(buf, cap, needed, Envelope.Text(Envelope.LogItem(ring.count), Doc(ring.View(), fallbackTraceId, deviceId, nowUptime, nowUnix)))
  {
    if buf != null && cap > 0 {
      buf[0] := '\0';
    }
    if fallbackTraceId == "" || nowUnix == 0 || ring.count == 0 {
      return 0;
    }
    var lines: seq<Entry> := [];
    for i := 0 to ring.count
      invariant lines == ring.Lines()[..i]
    {
      lines := lines + [ring.At(i)];
    }
    var log := Log(lines, ring.dropped, ring.bootSeq, ring.anchor, ring.prevAnchor);
    assert log == ring.View();
    needed := Envelope.Write(Envelope.LogItem(ring.count), Doc(log, fallbackTraceId, deviceId, nowUptime, nowUnix), buf, cap);
  }

  predicate PrintableMembers(members: seq<Member>) {
    forall i :: 0 <= i < |members| ==> Printable(members[i].value)
  }

  lemma {:induction false} AttributesArePrintable(e: Entry, deviceId: string)
    ensures PrintableMembers(Attributes(e, deviceId))
  {
    AttributeIsPrintable("t7d", Bool(true), "boolean");
    AttributeIsPrintable("d_id", Str(deviceId), "string");
  }

  lemma {:induction false} AttributeIsPrintable(key: string, value: Json, kind: string)
    requires Printable(value)
    ensures Printable(Attribute(key, value, kind).value)
  {
  }

  lemma {:induction false} HeadIsPrintable(traceId: string, when: Micros, level: int, body: string)
    ensures PrintableMembers(Head(traceId, when, level, body))
  {
  }

  lemma {:induction false} LineIsPrintable(log: Log, e: Entry, fallbackTraceId: string, deviceId: string, nowUptime: Micros, nowUnix: Micros)
    ensures Printable(LineDoc(log, e, fallbackTraceId, deviceId, nowUptime, nowUnix))
  {
    var attributes := Attributes(e, deviceId);
    var head := Head(if e.traceId != "" then e.traceId else fallbackTraceId, EntryUnix(log, e, nowUptime, nowUnix), e.level, e.body);
    AttributesArePrintable(e, deviceId);
    HeadIsPrintable(if e.traceId != "" then e.traceId else fallbackTraceId, EntryUnix(log, e, nowUptime, nowUnix), e.level, e.body);
    PrintableWith(head, attributes);
  }

  lemma {:induction false} PrintableWith(head: seq<Member>, attributes: seq<Member>)
    requires PrintableMembers(head) && PrintableMembers(attributes)
    ensures Printable(Obj(head + if attributes == [] then [] else [Member("attributes", Obj(attributes))]))
  {
  }

  lemma {:induction false} DocIsPrintable(log: Log, fallbackTraceId: string, deviceId: string, nowUptime: Micros, nowUnix: Micros)
    ensures Printable(Doc(log, fallbackTraceId, deviceId, nowUptime, nowUnix))
  {
    forall e ensures Printable(LineDoc(log, e, fallbackTraceId, deviceId, nowUptime, nowUnix)) {
      LineIsPrintable(log, e, fallbackTraceId, deviceId, nowUptime, nowUnix);
    }
    assert Printable(Arr(LineDocs(log, fallbackTraceId, deviceId, nowUptime, nowUnix)));
  }

  // ---- What a reader finds in the payload

  /** The protocol's names and numbers for a level; one it does not know counts as info. */
  predicate LevelReads(level: int, name: string, severity: int) {
    && (level == 0 ==> name == "debug" && severity == 5)
    && (level == 1 ==> name == "info" && severity == 9)
    && (level == 2 ==> name == "warn" && severity == 13)
    && (level == 3 ==> name == "error" && severity == 17)
    && (level == 4 ==> name == "fatal" && severity == 21)
    && (level < 0 || level > 4 ==> name == "info" && severity == 9)
  }

  predicate LevelFound(v: Json, level: int) {
    && |Under(v, "level")| == 1 && Under(v, "level")[0].Str?
    && |Under(v, "severity_number")| == 1 && Under(v, "severity_number")[0].Number? && Under(v, "severity_number")[0].exponent == 0
    && LevelReads(level, Under(v, "level")[0].s, Under(v, "severity_number")[0].mantissa)
  }

  /** An attribute with its type, or none. */
  predicate AttributeFound(found: seq<Json>, present: bool, value: Json, kind: string) {
    if present then |found| == 1 && Under(found[0], "value") == [value] && Under(found[0], "type") == [Str(kind)]
    else found == []
  }

  /** A truncated line says so, a device with an id is named, and nothing stands for nothing. */
  predicate AttributesFound(found: seq<Json>, truncated: bool, deviceId: string) {
    if truncated || deviceId != "" then
      && |found| == 1
      && AttributeFound(Under(found[0], "t7d"), truncated, Bool(true), "boolean")
      && AttributeFound(Under(found[0], "d_id"), deviceId != "", Str(deviceId), "string")
    else found == []
  }

  /** One item of the batch is this line, dated so. */
  predicate LineFound(v: Json, e: Entry, fallbackTraceId: string, deviceId: string, when: Micros) {
    && Under(v, "body") == [Str(e.body)] && LevelFound(v, e.level)
    && Under(v, "timestamp") == [Number(when, -6)]
    && Under(v, "trace_id") == [Str(if e.traceId == "" then fallbackTraceId else e.traceId)]
    && AttributesFound(Under(v, "attributes"), e.truncated, deviceId)
  }

  /** The payload lists these lines, each in its place and dated as given. */
  predicate LinesFoundAt(v: Json, lines: seq<Entry>, fallbackTraceId: string, deviceId: string, dates: seq<Micros>)
    requires |dates| == |lines|
  {
    && |Under(v, "items")| == 1 && Under(v, "items")[0].Arr? && |Under(v, "items")[0].items| == |lines|
    && forall i :: 0 <= i < |lines| ==> LineFound(Under(v, "items")[0].items[i], lines[i], fallbackTraceId, deviceId, dates[i])
  }

  function Dates(log: Log, nowUptime: Micros, nowUnix: Micros): seq<Micros> {
    seq(|log.lines|, i requires 0 <= i < |log.lines| => EntryUnix(log, log.lines[i], nowUptime, nowUnix))
  }

  predicate LinesFound(v: Json, log: Log, fallbackTraceId: string, deviceId: string, nowUptime: Micros, nowUnix: Micros) {
    LinesFoundAt(v, log.lines, fallbackTraceId, deviceId, Dates(log, nowUptime, nowUnix))
  }

  lemma {:induction false} TwoNamed(a: Member, b: Member)
    requires a.key != b.key
    ensures Under(Obj([a, b]), a.key) == [a.value] && Under(Obj([a, b]), b.key) == [b.value]
  {
    OneNamed([a, b], 0);
    OneNamed([a, b], 1);
  }

  lemma {:induction false} OnlyNamed(a: Member, other: string)
    requires a.key != other
    ensures Under(Obj([a]), a.key) == [a.value] && Under(Obj([a]), other) == []
  {
    OneNamed([a], 0);
    NoneNamed([a], other);
  }

  lemma {:induction false} AttributeIsFound(key: string, value: Json, kind: string)
    ensures AttributeFound([Attribute(key, value, kind).value], true, value, kind)
  {
    assert |"value"| != |"type"|;
    TwoNamed(Member("value", value), Member("type", Str(kind)));
  }

  lemma {:induction false} AttributesAreFound(e: Entry, deviceId: string)
    ensures AttributesFound(if Attributes(e, deviceId) == [] then [] else [Obj(Attributes(e, deviceId))], e.truncated, deviceId)
  {
    var cut, device := Attribute("t7d", Bool(true), "boolean"), Attribute("d_id", Str(deviceId), "string");
    AttributeIsFound("t7d", Bool(true), "boolean");
    AttributeIsFound("d_id", Str(deviceId), "string");
    assert |cut.key| == 3 && |device.key| == 4;
    TwoNamed(cut, device);
    OnlyNamed(cut, "d_id");
    OnlyNamed(device, "t7d");
  }

  lemma {:induction false} HeadNamesDiffer(traceId: string, when: Micros, level: int, body: string, last: Json)
    ensures NamesDiffer(Head(traceId, when, level, body) + [Member("attributes", last)])
  {
    var members := Head(traceId, when, level, body) + [Member("attributes", last)];
    assert |members[0].key| == 9 && |members[1].key| == 8 && |members[2].key| == 5;
    assert |members[3].key| == 4 && |members[4].key| == 15 && |members[5].key| == 10;
  }

  /** Five named members, and perhaps a sixth. */
  lemma {:induction false} HeadIsFound(head: seq<Member>, more: seq<Json>, last: string)
    requires |head| == 5 && |more| <= 1 && NamesDiffer(head + [Member(last, Null)])
    ensures var v := Obj(head + if more == [] then [] else [Member(last, more[0])]);
      && Under(v, last) == more && forall i :: 0 <= i < 5 ==> Under(v, head[i].key) == [head[i].value]
  {
    var members := head + if more == [] then [] else [Member(last, more[0])];
    var named := head + [Member(last, Null)];
    assert forall i :: 0 <= i < |members| ==> members[i].key == named[i].key;
    forall i | 0 <= i < 5
      ensures Named(members, head[i].key) == [head[i].value]
    {
      OneNamed(members, i);
    }
    if more == [] {
      assert forall i :: 0 <= i < |members| ==> members[i].key != named[5].key;
      NoneNamed(members, last);
    } else {
      OneNamed(members, 5);
    }
  }

  lemma {:induction false} FieldsAreFound(traceId: string, when: Micros, level: int, body: string, more: seq<Json>)
    requires |more| <= 1
    ensures var v := Obj(Head(traceId, when, level, body) + if more == [] then [] else [Member("attributes", more[0])]);
      && Under(v, "timestamp") == [Number(when, -6)] && Under(v, "trace_id") == [Str(traceId)]
      && Under(v, "level") == [Str(LevelName(level))] && Under(v, "body") == [Str(body)]
      && Under(v, "severity_number") == [Number(Severity(level), 0)] && Under(v, "attributes") == more
  {
    var head := Head(traceId, when, level, body);
    HeadNamesDiffer(traceId, when, level, body, Null);
    HeadIsFound(head, more, "attributes");
    assert head[0].key == "timestamp" && head[1].key == "trace_id" && head[2].key == "level";
    assert head[3].key == "body" && head[4].key == "severity_number";
  }

  lemma {:induction false} LevelIsFound(level: int)
    ensures LevelReads(level, LevelName(level), Severity(level))
  {
  }

  lemma {:induction false} LineIsFound(log: Log, e: Entry, fallbackTraceId: string, deviceId: string, nowUptime: Micros, nowUnix: Micros)
    ensures LineFound(LineDoc(log, e, fallbackTraceId, deviceId, nowUptime, nowUnix), e, fallbackTraceId, deviceId, EntryUnix(log, e, nowUptime, nowUnix))
  {
    var more := if Attributes(e, deviceId) == [] then [] else [Obj(Attributes(e, deviceId))];
    AttributesAreFound(e, deviceId);
    LevelIsFound(e.level);
    FieldsAreFound(if e.traceId != "" then e.traceId else fallbackTraceId, EntryUnix(log, e, nowUptime, nowUnix), e.level, e.body, more);
  }

  lemma {:induction false} LinesAreFound(log: Log, fallbackTraceId: string, deviceId: string, nowUptime: Micros, nowUnix: Micros)
    ensures LinesFound(Doc(log, fallbackTraceId, deviceId, nowUptime, nowUnix), log, fallbackTraceId, deviceId, nowUptime, nowUnix)
  {
    var doc := Doc(log, fallbackTraceId, deviceId, nowUptime, nowUnix);
    OneNamed(doc.members, 0);
    forall i | 0 <= i < |log.lines|
      ensures LineFound(Under(doc, "items")[0].items[i], log.lines[i], fallbackTraceId, deviceId, EntryUnix(log, log.lines[i], nowUptime, nowUnix))
    {
      LineIsFound(log, log.lines[i], fallbackTraceId, deviceId, nowUptime, nowUnix);
    }
  }

  // ---- Sizes

  /** Escaping makes a string at most six times as long. */
  lemma {:induction false} EscapeGrowsSixfold(s: string)
    ensures |s| <= |Escape(s)| <= 6 * |s|
  {
    if s != "" {
      EscapeGrowsSixfold(s[1..]);
      assert 1 <= |EscapeChar(s[0])| <= 6;
    }
  }

  /** A control character without a short form reaches the bound. */
  lemma {:induction false} SixfoldIsReached(n: nat)
    ensures |Escape(seq(n, _ => '\U{01}'))| == 6 * n
  {
    if n > 0 {
      assert seq(n, _ => '\U{01}')[1..] == seq(n - 1, _ => '\U{01}');
      SixfoldIsReached(n - 1);
    }
  }

  lemma {:induction false} Powers()
    ensures Shifted(1, 1) == 10 && Shifted(1, 2) == 100 && Shifted(1, 4) == 10000 && Shifted(1, 14) == 100000000000000
  {
    assert Shifted(1, 3) == 1000;
    assert Shifted(1, 6) == 1000000;
    assert Shifted(1, 8) == 100000000;
    assert Shifted(1, 10) == 10000000000;
    assert Shifted(1, 12) == 1000000000000;
  }

  /** Fourteen digits, a point and six more hold every 64-bit count of microseconds. */
  lemma {:induction false} TimestampLength(when: Micros)
    ensures |Render(Number(when, -6))| <= 21
  {
    Powers();
    DecimalLength(when / 1000000, 14);
  }

  lemma {:induction false} PlainLength(s: string)
    requires Envelope.Plain(s)
    ensures |Render(Str(s))| == |s| + 2
  {
    Envelope.PlainIsUnescaped(s);
  }

  lemma {:induction false} MemberLength(m: Member)
    requires Envelope.Plain(m.key)
    ensures |RenderMember(m)| == |m.key| + 3 + |Render(m.value)|
  {
    Envelope.PlainIsUnescaped(m.key);
  }

  lemma {:induction false} MembersLength(members: seq<Member>, last: Member)
    ensures |RenderMembers(members + [last])| ==
      |RenderMembers(members)| + (if members == [] then 0 else 1) + |RenderMember(last)|
    decreases |members|
  {
    var all := members + [last];
    if members == [] {
      assert all == [last];
    } else {
      assert all[1..] == members[1..] + [last];
      MembersLength(members[1..], last);
    }
  }

  /** n times k, by adding. */
  function Times(n: nat, k: nat): nat {
    if n == 0 then 0 else k + Times(n - 1, k)
  }

  lemma {:induction false} ItemsLength(items: seq<Json>, each: nat)
    requires forall i :: 0 <= i < |items| ==> |Render(items[i])| <= each
    ensures |RenderItems(items)| <= Times(|items|, each + 1)
    decreases |items|
  {
    if |items| == 1 {
      assert RenderItems(items) == Render(items[0]);
    } else if |items| > 1 {
      ItemsLength(items[1..], each);
      assert RenderItems(items) == Render(items[0]) + ("," + RenderItems(items[1..]));
    }
  }

  lemma {:induction false} TwoLengths(a: Member, b: Member)
    requires Envelope.Plain(a.key) && Envelope.Plain(b.key)
    ensures |Render(Obj([a, b]))| == 9 + |a.key| + |b.key| + |Render(a.value)| + |Render(b.value)|
    ensures |Render(Obj([a]))| == 5 + |a.key| + |Render(a.value)|
  {
    MemberLength(a);
    MemberLength(b);
    MembersLength([], a);
    MembersLength([a], b);
    assert [] + [a] == [a] && [a] + [b] == [a, b];
  }

  lemma {:induction false} AttributeKeys()
    ensures Envelope.Plain("value") && Envelope.Plain("type") && Envelope.Plain("t7d") && Envelope.Plain("d_id")
    ensures Envelope.Plain("boolean") && Envelope.Plain("string")
  {
  }

  lemma {:induction false} AttributeLength(key: string, value: Json, kind: string)
    requires Envelope.Plain(key) && Envelope.Plain(kind)
    ensures |Render(Attribute(key, value, kind).value)| == |kind| + |Render(value)| + 20
  {
    AttributeKeys();
    PlainLength(kind);
    TwoLengths(Member("value", value), Member("type", Str(kind)));
  }

  lemma {:induction false} AttributesLength(e: Entry, deviceId: string)
    requires Envelope.Plain(deviceId) && |deviceId| < DEVICE_ID_LEN
    ensures Attributes(e, deviceId) != [] ==> |Render(Obj(Attributes(e, deviceId)))| <= 87
  {
    var t, d := Attribute("t7d", Bool(true), "boolean"), Attribute("d_id", Str(deviceId), "string");
    AttributeKeys();
    AttributeLength("t7d", Bool(true), "boolean");
    PlainLength(deviceId);
    AttributeLength("d_id", Str(deviceId), "string");
    assert |Render(t.value)| == 31 && |Render(d.value)| <= 40;
    TwoLengths(t, d);
    TwoLengths(d, t);
  }

  /** Strings that fit the ring's buffers and need no escaping. */
  predicate PlainLine(e: Entry) {
    Envelope.Plain(e.body) && Envelope.Plain(e.traceId) && |e.body| < BODY_LEN && |e.traceId| < TRACE_ID_LEN
  }

  predicate PlainId(t: string, cap: nat) {
    Envelope.Plain(t) && |t| < cap
  }

  lemma {:induction false} LineKeys()
    ensures Envelope.Plain("timestamp") && Envelope.Plain("trace_id") && Envelope.Plain("level") && Envelope.Plain("body")
    ensures Envelope.Plain("severity_number") && Envelope.Plain("attributes") && Envelope.Plain("items")
  {
  }

  lemma {:induction false} LevelLengths(level: int)
    ensures Envelope.Plain(LevelName(level)) && |LevelName(level)| <= 5
    ensures |Render(Number(Severity(level), 0))| <= 2
  {
    Powers();
    DecimalLength(Severity(level), 2);
  }

  lemma {:induction false} HeadLength(traceId: string, when: Micros, level: int, body: string)
    requires PlainId(traceId, TRACE_ID_LEN) && PlainId(body, BODY_LEN)
    ensures |RenderMembers(Head(traceId, when, level, body))| <= 206
  {
    LineKeys();
    LevelLengths(level);
    TimestampLength(when);
    PlainLength(traceId);
    PlainLength(LevelName(level));
    PlainLength(body);
    var h := Head(traceId, when, level, body);
    FiveLengths(h[0], h[1], h[2], h[3], h[4]);
    assert h == [h[0], h[1], h[2], h[3], h[4]];
  }

  lemma {:induction false} FiveLengths(a: Member, b: Member, c: Member, d: Member, e: Member)
    requires Envelope.Plain(a.key) && Envelope.Plain(b.key) && Envelope.Plain(c.key) && Envelope.Plain(d.key) && Envelope.Plain(e.key)
    ensures |RenderMembers([a, b, c, d, e])| == 19
      + |a.key| + |b.key| + |c.key| + |d.key| + |e.key|
      + |Render(a.value)| + |Render(b.value)| + |Render(c.value)| + |Render(d.value)| + |Render(e.value)|
  {
    MemberLength(a);
    MemberLength(b);
    MemberLength(c);
    MemberLength(d);
    MemberLength(e);
    MembersLength([], a);
    MembersLength([a], b);
    MembersLength([a, b], c);
    MembersLength([a, b, c], d);
    MembersLength([a, b, c, d], e);
    assert [] + [a] == [a] && [a] + [b] == [a, b] && [a, b] + [c] == [a, b, c];
    assert [a, b, c] + [d] == [a, b, c, d] && [a, b, c, d] + [e] == [a, b, c, d, e];
  }

  /** No line takes more than 309 characters, whatever its level, flag and date. */
  lemma {:induction false} LineLength(log: Log, e: Entry, fallback: string, deviceId: string, nowUptime: Micros, nowUnix: Micros)
    requires PlainLine(e) && PlainId(fallback, TRACE_ID_LEN) && PlainId(deviceId, DEVICE_ID_LEN)
    ensures |Render(LineDoc(log, e, fallback, deviceId, nowUptime, nowUnix))| <= 309
  {
    var traceId := if e.traceId != "" then e.traceId else fallback;
    var attributes := Attributes(e, deviceId);
    HeadLength(traceId, EntryUnix(log, e, nowUptime, nowUnix), e.level, e.body);
    LineKeys();
    AttributesLength(e, deviceId);
    HeadAndMore(Head(traceId, EntryUnix(log, e, nowUptime, nowUnix), e.level, e.body), Member("attributes", Obj(attributes)));
  }

  lemma {:induction false} HeadAndMore(head: seq<Member>, last: Member)
    requires head != [] && |RenderMembers(head)| <= 206 && Envelope.Plain(last.key) && |last.key| == 10
    ensures |Render(Obj(head + []))| <= 208
    ensures |Render(last.value)| <= 87 ==> |Render(Obj(head + [last]))| <= 309
  {
    assert head + [] == head;
    MemberLength(last);
    MembersLength(head, last);
  }

  lemma {:induction false} DocLength(log: Log, fallback: string, deviceId: string, nowUptime: Micros, nowUnix: Micros)
    requires |log.lines| <= MAX_LOGS && PlainId(fallback, TRACE_ID_LEN) && PlainId(deviceId, DEVICE_ID_LEN)
    requires forall i :: 0 <= i < |log.lines| ==> PlainLine(log.lines[i])
    ensures |Render(Doc(log, fallback, deviceId, nowUptime, nowUnix))| <= 1872
  {
    var items := LineDocs(log, fallback, deviceId, nowUptime, nowUnix);
    forall i | 0 <= i < |items|
      ensures |Render(items[i])| <= 309
    {
      LineLength(log, log.lines[i], fallback, deviceId, nowUptime, nowUnix);
    }
    ItemsLength(items, 309);
    SixTimes(|items|);
    LineKeys();
    var member := Member("items", Arr(items));
    TwoLengths(member, member);
  }

  lemma {:induction false} SixTimes(n: nat)
    requires n <= 6
    ensures Times(n, 310) == 310 * n
  {
    if n > 0 {
      SixTimes(n - 1);
    }
  }

  lemma {:induction false} HeadersLength(count: nat, length: nat)
    requires count < 10 && length < 10000
    ensures |Envelope.Headers(Envelope.LogItem(count), length)| <= 102
  {
    Powers();
    DecimalLength(count, 1);
    DecimalLength(length, 4);
  }

  /**
   A ring whose strings need no escaping always encodes below the envelope buffer's size, and never
   to nothing: the flush has no size of its own to drop it for.
   */
  lemma {:induction false} PlainRingAlwaysFits(log: Log, fallback: string, deviceId: string, nowUptime: Micros, nowUnix: Micros)
    requires 0 < |log.lines| <= MAX_LOGS && forall i :: 0 <= i < |log.lines| ==> PlainLine(log.lines[i])
    requires fallback != "" && nowUnix != 0 && PlainId(fallback, TRACE_ID_LEN) && PlainId(deviceId, DEVICE_ID_LEN)
    ensures 0 < Needed(log, fallback, deviceId, nowUptime, nowUnix) < ENVELOPE_BUFFER_BYTES
  {
    var doc := Doc(log, fallback, deviceId, nowUptime, nowUnix);
    DocLength(log, fallback, deviceId, nowUptime, nowUnix);
    HeadersLength(|log.lines|, |Render(doc)|);
  }
}
