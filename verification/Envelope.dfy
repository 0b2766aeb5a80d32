/**
 Envelope framing: an envelope header line, an item header line that states the payload's length,
 and the payload. The payload is formatted twice, once to be counted and once to be written.
 */
module Envelope {
  import opened Prelude
  import opened Json
  import opened JsonWriter
  import opened TextLines
  import Hex

  /** The four kinds of envelope, with what their headers carry besides the length. */
  datatype Item =
    | EventItem(id: string)
    | TransactionItem(id: string)
    | LogItem(count: nat)
    | MetricItem(count: nat)

  function EnvelopeHeader(item: Item): string {
    match item
    case EventItem(id) => "{" + TextField("event_id", id) + "}"
    case TransactionItem(id) => "{" + TextField("event_id", id) + "}"
    case _ => "{}"
  }

  /** "%u" of a size_t: the length as a 32-bit number. */
  function Unsigned32(n: nat): string {
    Decimal(n % UINT32_MODULUS)
  }

  const VENDOR: string := "application/vnd.sentry."
  const LOG_CONTENT_TYPE: string := VENDOR + "items.log+json"
  const METRIC_CONTENT_TYPE: string := VENDOR + "items.trace-metric+json"

  /** `"name":"value"` */
  function TextField(name: string, value: string): string {
    "\"" + name + "\":\"" + value + "\""
  }

  /** `"name":value` */
  function NumberField(name: string, value: nat): string {
    "\"" + name + "\":" + Unsigned32(value)
  }

  function ItemHeader(item: Item, length: nat): string {
    match item
    case EventItem(_) => "{" + TextField("type", "event") + "," + NumberField("length", length) + "}"
    case TransactionItem(_) => "{" + TextField("type", "transaction") + "," + NumberField("length", length) + "}"
    case LogItem(count) =>
      "{" + TextField("type", "log") + "," + NumberField("item_count", count) + ","
      + TextField("content_type", LOG_CONTENT_TYPE) + "," + NumberField("length", length) + "}"
    case MetricItem(count) =>
      "{" + TextField("type", "trace_metric") + "," + NumberField("item_count", count) + ","
      + TextField("content_type", METRIC_CONTENT_TYPE) + "," + NumberField("length", length) + "}"
  }

  function Headers(item: Item, length: nat): string {
    EnvelopeHeader(item) + "\n" + ItemHeader(item, length) + "\n"
  }

  /** Room for both header lines, their NUL included. */
  function HeaderRoom(item: Item): nat {
    if item.MetricItem? then 160 else 128
  }

  /** The whole envelope. */
  function Text(item: Item, doc: Json): string {
    Headers(item, |Render(doc)|) + Render(doc) + "\n"
  }

  /** Characters the envelope needs without its NUL, or 0 when its headers do not fit their room. */
  function Needed(item: Item, doc: Json): nat {
    if |Headers(item, |Render(doc)|)| >= HeaderRoom(item) then 0 else |Text(item, doc)|
  }

  /** The counting pass: a writer without a buffer. */
  method Count(doc: Json) returns (len: nat)
    ensures len == |Render(doc)|
  {
    var counter := new Writer(null, 0, 0);
    counter.WriteDocument(doc);
    len := counter.len;
  }

  /** The writing pass, into a buffer with room. */
  method Fill(headers: string, doc: Json, buf: array<char>, cap: nat)
    requires |headers| + |Render(doc)| + 2 <= cap <= buf.Length
    modifies buf
    ensures var total := |headers| + |Render(doc)| + 1;
      buf[..total] == headers + Render(doc) + "\n" && buf[total] == '\0'
    ensures forall i :: cap <= i < buf.Length ==> buf[i] == old(buf[i])
  {
    forall i | 0 <= i < |headers| {
      buf[i] := headers[i];
    }
    assert buf[..|headers|] == headers;
    WritePayload(headers, doc, buf, cap);
    var end := |headers| + |Render(doc)|;
    ghost var written := buf[..end];
    buf[end] := '\n';
    buf[end + 1] := '\0';
    assert buf[..end] == written;
    assert buf[..end + 1] == buf[..end] + [buf[end]];
  }

  method WritePayload(headers: string, doc: Json, buf: array<char>, cap: nat)
    requires |headers| + |Render(doc)| + 1 <= cap <= buf.Length && buf[..|headers|] == headers
    modifies buf
    ensures buf[..|headers| + |Render(doc)|] == headers + Render(doc)
    ensures forall i :: cap <= i < buf.Length ==> buf[i] == old(buf[i])
  {
    var start := |headers|;
    var writer := new Writer(buf, start, cap - start);
    assert buf[..start] == headers;
    writer.WriteDocument(doc);
    var end := start + writer.len;
    assert buf[..start] == headers && buf[start..end] == writer.text;
    assert buf[..end] == buf[..start] + buf[start..end];
  }

  /**
   What a write of `needed` characters leaves in a buffer of `cap`: the text and its NUL if they fit,
   an empty string if not, and nothing else touched. A buffer said to have no room at all still gets
   its first character set when there was something to write.
   */
  twostate predicate Wrote(buf: array?<char>, cap: nat, needed: nat, text: string)
    requires buf != null ==> cap <= buf.Length && buf.Length > 0
    reads buf
  {
    buf != null ==>
      && (0 < needed < cap ==> needed == |text| && buf[..needed] == text && buf[needed] == '\0')
      && (!(0 < needed < cap) && (cap > 0 || needed > 0) ==> buf[0] == '\0')
      && (forall i :: cap <= i < buf.Length && !(i == 0 && needed > 0) ==> buf[i] == old(buf[i]))
  }

  /** Count, then write. The count does not depend on the buffer. */
  method Write(item: Item, doc: Json, buf: array?<char>, cap: nat) returns (needed: nat)
    requires buf != null ==> cap <= buf.Length && buf.Length > 0
    modifies buf
    ensures needed == Needed(item, doc) && Wrote(buf, cap, needed, Text(item, doc))
  {
    var payloadLen := Count(doc);
    needed := WriteFramed(Headers(item, payloadLen), HeaderRoom(item), payloadLen, doc, buf, cap);
  }

  method WriteFramed(headers: string, room: nat, payloadLen: nat, doc: Json, buf: array?<char>, cap: nat) returns (needed: nat)
    requires buf != null ==> cap <= buf.Length && buf.Length > 0
    requires payloadLen == |Render(doc)|
    modifies buf
    ensures var text := headers + Render(doc) + "\n";
      needed == (if |headers| >= room then 0 else |text|) && Wrote(buf, cap, needed, text)
  {
    if |headers| >= room {
      if buf != null && cap > 0 {
        buf[0] := '\0';
      }
      return 0;
    }
    var total := |headers| + payloadLen + 1;
    if buf == null {
      return total;
    }
    if total + 1 > cap {
      buf[0] := '\0';
      return total;
    }
    Fill(headers, doc, buf, cap);
    return total;
  }

  // ---- Reading an envelope back

  lemma {:induction false} EscapeIsPrintable(s: string)
    ensures forall i :: 0 <= i < |Escape(s)| ==> Escape(s)[i] >= ' '
  {
    if s != "" {
      EscapeIsPrintable(s[1..]);
      assert forall i :: 0 <= i < |EscapeChar(s[0])| ==> EscapeChar(s[0])[i] >= ' ';
    }
  }

  predicate AllPrintable(t: string) {
    forall i :: 0 <= i < |t| ==> t[i] >= ' '
  }

  /** Control characters are escaped, so no payload holds a raw newline. */
  lemma {:induction false} RenderIsPrintable(v: Json)
    ensures AllPrintable(Render(v))
    decreases v, 1
  {
    match v
    case Null =>
    case Bool(_) =>
    case Number(m, e) => assert forall c: char :: IsDigit(c) ==> c >= ' ';
    case Str(s) => EscapeIsPrintable(s);
    case Arr(items) => ItemsArePrintable(items);
    case Obj(members) => MembersArePrintable(members);
  }

  lemma {:induction false} ItemsArePrintable(items: seq<Json>)
    ensures AllPrintable(RenderItems(items))
    decreases items, 0
  {
    if items != [] {
      RenderIsPrintable(items[0]);
      ItemsArePrintable(items[1..]);
    }
  }

  lemma {:induction false} MemberIsPrintable(m: Member)
    requires AllPrintable(Render(m.value))
    ensures AllPrintable(RenderMember(m))
  {
    EscapeIsPrintable(m.key);
  }

  lemma {:induction false} MembersArePrintable(members: seq<Member>)
    ensures AllPrintable(RenderMembers(members))
    decreases members, 0
  {
    if members != [] {
      RenderIsPrintable(members[0].value);
      MemberIsPrintable(members[0]);
      MembersArePrintable(members[1..]);
    }
  }

  /** An id that brings no newline of its own, as every formatted one. */
  predicate PlainId(item: Item) {
    item.EventItem? || item.TransactionItem? ==> NoNewline(item.id)
  }

  /** An envelope is exactly three lines, and the third is the payload. */
  lemma {:induction false} ThreeLines(item: Item, doc: Json)
    requires PlainId(item)
    ensures Lines(Text(item, doc)) == [EnvelopeHeader(item), ItemHeader(item, |Render(doc)|), Render(doc), ""]
  {
    var first, second, third := EnvelopeHeader(item), ItemHeader(item, |Render(doc)|), Render(doc);
    ItemHeaderIsJson(item, |Render(doc)|);
    RenderIsPrintable(ItemHeaderJson(item, |Render(doc)|));
    HeaderIsLine(item);
    RenderIsPrintable(doc);
    RegroupLines(first, second, third, "\n");
    FirstLine(first, second + ("\n" + (third + ("\n" + ""))));
    FirstLine(second, third + ("\n" + ""));
    FirstLine(third, "");
  }

  lemma {:induction false} HeaderIsLine(item: Item)
    requires PlainId(item)
    ensures NoNewline(EnvelopeHeader(item))
  {
  }

  lemma {:induction false} RegroupLines(a: string, b: string, c: string, nl: string)
    ensures (a + nl + b + nl) + c + nl == a + (nl + (b + (nl + (c + (nl + "")))))
  {
  }

  // ---- The item header is JSON, and says how long the payload is

  function ItemHeaderJson(item: Item, length: nat): Json {
    var len := Member("length", Number(length % UINT32_MODULUS, 0));
    match item
    case EventItem(_) => Obj([Member("type", Str("event")), len])
    case TransactionItem(_) => Obj([Member("type", Str("transaction")), len])
    case LogItem(count) =>
      Obj([Member("type", Str("log")), Member("item_count", Number(count % UINT32_MODULUS, 0)),
           Member("content_type", Str(LOG_CONTENT_TYPE)), len])
    case MetricItem(count) =>
      Obj([Member("type", Str("trace_metric")), Member("item_count", Number(count % UINT32_MODULUS, 0)),
           Member("content_type", Str(METRIC_CONTENT_TYPE)), len])
  }

  /** Characters JSON leaves alone. */
  predicate Plain(t: string) {
    forall i :: 0 <= i < |t| ==> t[i] >= ' ' && t[i] != '\"' && t[i] != '\\'
  }

  lemma {:induction false} PlainIsUnescaped(t: string)
    requires Plain(t)
    ensures Escape(t) == t
    decreases |t|
  {
    if t != "" {
      PlainIsUnescaped(t[1..]);
      assert EscapeChar(t[0]) == [t[0]];
    }
  }

  lemma {:induction false} ContentTypesArePlain()
    ensures Plain(LOG_CONTENT_TYPE) && Plain(METRIC_CONTENT_TYPE)
  {
    assert Plain(VENDOR) && Plain("items.log+json") && Plain("items.trace-metric+json");
  }

  lemma {:induction false} TextFieldIsMember(name: string, value: string)
    requires Plain(name) && Plain(value)
    ensures RenderMember(Member(name, Str(value))) == TextField(name, value)
  {
    PlainIsUnescaped(name);
    PlainIsUnescaped(value);
    assert "\":\"" == "\"" + ":" + "\"";
  }

  lemma {:induction false} NumberFieldIsMember(name: string, value: nat)
    requires Plain(name)
    ensures RenderMember(Member(name, Number(value % UINT32_MODULUS, 0))) == NumberField(name, value)
  {
    PlainIsUnescaped(name);
    assert "\":" == "\"" + ":";
  }

  lemma {:induction false} RenderTwo(a: Member, b: Member)
    ensures Render(Obj([a, b])) == "{" + RenderMember(a) + "," + RenderMember(b) + "}"
  {
    var members := [a, b];
    assert members[1..] == [b];
    assert RenderMembers([b]) == RenderMember(b);
    assert RenderMembers(members) == RenderMember(a) + ("," + RenderMember(b));
  }

  lemma {:induction false} RenderFour(a: Member, b: Member, c: Member, d: Member)
    ensures Render(Obj([a, b, c, d])) ==
      "{" + RenderMember(a) + "," + RenderMember(b) + "," + RenderMember(c) + "," + RenderMember(d) + "}"
  {
    assert [a, b, c, d][1..] == [b, c, d] && [b, c, d][1..] == [c, d] && [c, d][1..] == [d];
    assert RenderMembers([d]) == RenderMember(d);
    assert RenderMembers([c, d]) == RenderMember(c) + ("," + RenderMember(d));
    assert RenderMembers([b, c, d]) == RenderMember(b) + ("," + RenderMembers([c, d]));
    assert RenderMembers([a, b, c, d]) == RenderMember(a) + ("," + RenderMembers([b, c, d]));
    RegroupFour("{", RenderMember(a), RenderMember(b), RenderMember(c), RenderMember(d), ",", "}");
  }

  lemma {:induction false} RegroupFour(open: string, a: string, b: string, c: string, d: string, comma: string, close: string)
    ensures open + (a + (comma + (b + (comma + (c + (comma + d)))))) + close ==
      open + a + comma + b + comma + c + comma + d + close
  {
  }

  lemma {:induction false} ShortHeader(kind: string, length: nat)
    requires Plain(kind)
    ensures Render(Obj([Member("type", Str(kind)), Member("length", Number(length % UINT32_MODULUS, 0))])) ==
      "{" + TextField("type", kind) + "," + NumberField("length", length) + "}"
  {
    var a, b := Member("type", Str(kind)), Member("length", Number(length % UINT32_MODULUS, 0));
    TextFieldIsMember("type", kind);
    NumberFieldIsMember("length", length);
    RenderTwo(a, b);
  }

  lemma {:induction false} KeysArePlain()
    ensures Plain("type") && Plain("item_count") && Plain("content_type") && Plain("length")
  {
  }

  lemma {:induction false} LongHeader(kind: string, count: nat, contentType: string, length: nat)
    requires Plain(kind) && Plain(contentType)
    ensures Render(Obj([Member("type", Str(kind)), Member("item_count", Number(count % UINT32_MODULUS, 0)),
                        Member("content_type", Str(contentType)), Member("length", Number(length % UINT32_MODULUS, 0))])) ==
      "{" + TextField("type", kind) + "," + NumberField("item_count", count) + "," + TextField("content_type", contentType)
      + "," + NumberField("length", length) + "}"
  {
    KeysArePlain();
    TextFieldIsMember("type", kind);
    NumberFieldIsMember("item_count", count);
    TextFieldIsMember("content_type", contentType);
    NumberFieldIsMember("length", length);
    RenderFourAs(Member("type", Str(kind)), Member("item_count", Number(count % UINT32_MODULUS, 0)),
                 Member("content_type", Str(contentType)), Member("length", Number(length % UINT32_MODULUS, 0)),
                 TextField("type", kind), NumberField("item_count", count),
                 TextField("content_type", contentType), NumberField("length", length));
  }

  lemma {:induction false} RenderFourAs(a: Member, b: Member, c: Member, d: Member, ta: string, tb: string, tc: string, td: string)
    requires RenderMember(a) == ta && RenderMember(b) == tb && RenderMember(c) == tc && RenderMember(d) == td
    ensures Render(Obj([a, b, c, d])) == "{" + ta + "," + tb + "," + tc + "," + td + "}"
  {
    RenderFour(a, b, c, d);
  }

  lemma {:induction false} ItemHeaderIsJson(item: Item, length: nat)
    ensures ItemHeader(item, length) == Render(ItemHeaderJson(item, length))
  {
    match item
    case EventItem(_) => ShortHeader("event", length);
    case TransactionItem(_) => ShortHeader("transaction", length);
    case LogItem(count) =>
      ContentTypesArePlain();
      LongHeader("log", count, LOG_CONTENT_TYPE, length);
    case MetricItem(count) =>
      ContentTypesArePlain();
      LongHeader("trace_metric", count, METRIC_CONTENT_TYPE, length);
  }

  /** The number a JSON reader finds under `name`, if it finds one. */
  function NumberUnder(v: Json, name: string): Option<int> {
    if v.Obj? then LastNumber(v.members, name) else None
  }

  function LastNumber(members: seq<Member>, name: string): Option<int> {
    if members == [] then None
    else
      var last := members[|members| - 1];
      if last.key == name && last.value.Number? && last.value.exponent == 0 then Some(last.value.mantissa)
      else LastNumber(members[..|members| - 1], name)
  }

  /** The item header parses, and its length is the given one in 32 bits. */
  lemma {:induction false} HeaderStatesLength(item: Item, length: nat)
    ensures Parse(ItemHeader(item, length)) == Some(ItemHeaderJson(item, length))
    ensures NumberUnder(ItemHeaderJson(item, length), "length") == Some(length % UINT32_MODULUS)
  {
    ItemHeaderIsJson(item, length);
    RenderThenParse(ItemHeaderJson(item, length));
  }

  /** The length a JSON reader finds in an item header line. */
  function StatedLength(line: string): Option<int> {
    var v := Parse(line);
    if v == None then None else NumberUnder(v.value, "length")
  }

  /**
   What a host that splits the envelope at newlines finds: an item header whose stated length is
   the payload's, exactly for payloads under 4 GiB, and a payload that parses back to the document.
   */
  lemma {:induction false} LengthAndPayloadAgree(item: Item, doc: Json)
    requires PlainId(item) && Printable(doc)
    ensures var lines := Lines(Text(item, doc));
      && |lines| == 4 && lines[2] == Render(doc) && lines[3] == ""
      && (StatedLength(lines[1]) == Some(|lines[2]|) <==> |lines[2]| < UINT32_MODULUS)
      && Parse(lines[2]) == Some(doc)
  {
    ThreeLines(item, doc);
    HeaderStatesLength(item, |Render(doc)|);
    StatedMeansEqual(ItemHeader(item, |Render(doc)|), ItemHeaderJson(item, |Render(doc)|), |Render(doc)|);
    RenderThenParse(doc);
  }

  lemma {:induction false} PayloadIsPart(item: Item, doc: Json)
    requires Needed(item, doc) > 0
    ensures |Render(doc)| <= Needed(item, doc)
  {
  }

  lemma {:induction false} StatedMeansEqual(line: string, v: Json, length: nat)
    requires Parse(line) == Some(v) && NumberUnder(v, "length") == Some(length % UINT32_MODULUS)
    ensures StatedLength(line) == Some(length) <==> length < UINT32_MODULUS
  {
  }

  // ---- What the two header lines say

  /** Only events and transactions have an id of their own. */
  predicate HasId(item: Item) {
    item.EventItem? || item.TransactionItem?
  }

  predicate EnvelopeHeaderReads(v: Json, item: Item) {
    Under(v, "event_id") == if HasId(item) then [Str(item.id)] else []
  }

  /** The kind of item, how many it holds where that is said, and how long it is. */
  predicate ItemHeaderReads(v: Json, item: Item, length: nat) {
    && (item.EventItem? ==> Under(v, "type") == [Str("event")])
    && (item.TransactionItem? ==> Under(v, "type") == [Str("transaction")])
    && (item.LogItem? ==> Under(v, "type") == [Str("log")] && Under(v, "content_type") == [Str("application/vnd.sentry.items.log+json")])
    && (item.MetricItem? ==>
          Under(v, "type") == [Str("trace_metric")] && Under(v, "content_type") == [Str("application/vnd.sentry.items.trace-metric+json")])
    && Under(v, "item_count") == (if HasId(item) then [] else [Number(item.count % UINT32_MODULUS, 0)])
    && Under(v, "length") == [Number(length % UINT32_MODULUS, 0)]
  }

  lemma {:induction false} RenderOne(m: Member)
    ensures Render(Obj([m])) == "{" + RenderMember(m) + "}"
  {
    assert RenderMembers([m]) == RenderMember(m);
  }

  lemma {:induction false} IdHeaderIsJson(id: string)
    requires Plain(id)
    ensures "{" + TextField("event_id", id) + "}" == Render(Obj([Member("event_id", Str(id))]))
  {
    assert Plain("event_id");
    TextFieldIsMember("event_id", id);
    RenderOne(Member("event_id", Str(id)));
  }

  lemma {:induction false} EnvelopeHeaderIsFound(item: Item)
    requires HasId(item) ==> Plain(item.id)
    ensures Parse(EnvelopeHeader(item)).Some? && EnvelopeHeaderReads(Parse(EnvelopeHeader(item)).value, item)
  {
    if HasId(item) {
      var v := Obj([Member("event_id", Str(item.id))]);
      IdHeaderIsJson(item.id);
      RenderThenParse(v);
      OneNamed(v.members, 0);
    } else {
      assert Render(Obj([])) == "{}";
      RenderThenParse(Obj([]));
    }
  }

  lemma {:induction false} HeaderNamesDiffer(item: Item, length: nat)
    ensures NamesDiffer(ItemHeaderJson(item, length).members)
  {
    var members := ItemHeaderJson(item, length).members;
    assert |"type"| == 4 && |"item_count"| == 10 && |"content_type"| == 12 && |"length"| == 6;
  }

  lemma {:induction false} ContentTypes()
    ensures LOG_CONTENT_TYPE == "application/vnd.sentry.items.log+json"
    ensures METRIC_CONTENT_TYPE == "application/vnd.sentry.items.trace-metric+json"
  {
  }

  lemma {:induction false} ItemHeaderIsFound(item: Item, length: nat)
    ensures ItemHeaderReads(ItemHeaderJson(item, length), item, length)
  {
    var members := ItemHeaderJson(item, length).members;
    HeaderNamesDiffer(item, length);
    ContentTypes();
    forall i | 0 <= i < |members|
      ensures Named(members, members[i].key) == [members[i].value]
    {
      OneNamed(members, i);
    }
    assert members[0].key == "type" && members[|members| - 1].key == "length";
    if HasId(item) {
      assert |"item_count"| != 4 && |"item_count"| != 6;
      NoneNamed(members, "item_count");
    } else {
      assert members[1].key == "item_count" && members[2].key == "content_type";
    }
  }

  /** A host that splits an envelope at newlines learns whose it is, what it holds, and how much. */
  lemma {:induction false} HeadersSayWhatFollows(item: Item, doc: Json)
    requires HasId(item) ==> Plain(item.id)
    ensures var lines := Lines(Text(item, doc));
      && |lines| == 4 && lines[2] == Render(doc)
      && Parse(lines[0]).Some? && EnvelopeHeaderReads(Parse(lines[0]).value, item)
      && Parse(lines[1]).Some? && ItemHeaderReads(Parse(lines[1]).value, item, |lines[2]|)
  {
    ThreeLines(item, doc);
    EnvelopeHeaderIsFound(item);
    HeaderStatesLength(item, |Render(doc)|);
    ItemHeaderIsFound(item, |Render(doc)|);
  }

  // ---- Event ids

  /** The version and variant bits of RFC 4122, stamped over 16 random bytes. */
  function Stamped(random: Bytes): Bytes
    requires |random| == 16
  {
    random[6 := random[6] % 16 + 0x40][8 := random[8] % 64 + 0x80]
  }

  method FormatEventId(random: Bytes) returns (id: string)
    requires |random| == 16
    ensures id == Hex.Text(Stamped(random))
  {
    id := Hex.Encode(Stamped(random));
  }

  /**
   Every id is a random one by RFC 4122, section 4.4: version 4 in the thirteenth digit, the variant in
   the seventeenth, and the other fourteen octets are the random ones.
   */
  lemma {:induction false} IdsAreVersion4(random: Bytes, i: nat)
    requires |random| == 16 && i < 16
    ensures var id := Hex.Text(Stamped(random));
      && id[12] == '4' && id[16] in "89ab"
      && (i != 6 && i != 8 ==> Hex.Decode(id, 16)[i] == random[i])
      && Hex.Decode(id, 16)[6] % 16 == random[6] % 16 && Hex.Decode(id, 16)[8] % 64 == random[8] % 64
  {
    Hex.DecodeText(Stamped(random));
    Hex.TextAt(Stamped(random), 6);
    Hex.TextAt(Stamped(random), 8);
    var high: nat := (random[8] % 64 + 0x80) / 16;
    assert high == 8 || high == 9 || high == 10 || high == 11;
  }

  /** A formatted id is 32 hex digits and never brings a newline into its header. */
  lemma {:induction false} FormattedIdsAreLines(random: Bytes, doc: Json)
    requires |random| == 16
    ensures var id := Hex.Text(Stamped(random));
      && |id| == 32 && Hex.IsHexRun(id) && Hex.Decode(id, 16) == Stamped(random)
      && PlainId(EventItem(id)) && |Lines(Text(EventItem(id), doc))| == 4
      && PlainId(TransactionItem(id)) && |Lines(Text(TransactionItem(id), doc))| == 4
  {
    var id := Hex.Text(Stamped(random));
    Hex.DecodeText(Stamped(random));
    assert forall c: char :: Hex.IsHex(c) ==> c != '\n';
    ThreeLines(EventItem(id), doc);
    ThreeLines(TransactionItem(id), doc);
  }
}
