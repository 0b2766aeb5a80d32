/**
 The one-pass JSON writer: begin, key, value and end calls, one comma flag for every level.

 `Writer` is the struct; it prints into a bounded buffer or, without one, only counts. What it has
 been asked to print is the ghost `text`, whether or not there was room for it.
 */
module JsonWriter {
  import opened Prelude
  import opened Json

  datatype Call =
    | ObjectBegin | ObjectEnd | ArrayBegin | ArrayEnd
    | Key(key: string)
    | StringCall(s: string) | IntCall(n: int) | MicrosCall(us: nat) | BoolCall(b: bool) | NullCall

  function Comma(needed: bool): string {
    if needed then "," else ""
  }

  /** A call's own text. */
  function Body(call: Call): string {
    match call
    case ObjectBegin => "{"
    case ObjectEnd => "}"
    case ArrayBegin => "["
    case ArrayEnd => "]"
    case Key(k) => Quote(k) + ":"
    case StringCall(s) => Quote(s)
    case IntCall(n) => SignedDecimal(n)
    case MicrosCall(us) => MicrosText(us)
    case BoolCall(b) => if b then "true" else "false"
    case NullCall => "null"
  }

  predicate Opens(call: Call) {
    call.ObjectBegin? || call.ArrayBegin?
  }

  predicate Closes(call: Call) {
    call.ObjectEnd? || call.ArrayEnd?
  }

  /** What one call appends, given the comma flag it finds. */
  function Emitted(call: Call, comma: bool): string {
    Comma(comma && !Closes(call)) + Body(call)
  }

  /** The comma flag a call leaves: down after an opening or a key, up after anything complete. */
  predicate CommaAfter(call: Call) {
    !call.ObjectBegin? && !call.ArrayBegin? && !call.Key?
  }

  predicate FlagAfter(calls: seq<Call>, comma: bool) {
    if calls == [] then comma else CommaAfter(calls[|calls| - 1])
  }

  /** Everything a list of calls appends. */
  function Play(calls: seq<Call>, comma: bool): string
    decreases |calls|
  {
    if calls == [] then ""
    else
      var before := calls[..|calls| - 1];
      Play(before, comma) + Emitted(calls[|calls| - 1], FlagAfter(before, comma))
  }

  lemma {:induction false} PlayAppend(a: seq<Call>, b: seq<Call>, comma: bool)
    ensures Play(a + b, comma) == Play(a, comma) + Play(b, FlagAfter(a, comma))
    ensures FlagAfter(a + b, comma) == FlagAfter(b, FlagAfter(a, comma))
    decreases |b|
  {
    if b == [] {
      assert a + b == a;
    } else {
      var before := b[..|b| - 1];
      assert (a + b)[..|a + b| - 1] == a + before;
      PlayAppend(a, before, comma);
      Regroup(Play(a, comma), Play(before, FlagAfter(a, comma)), Emitted(b[|b| - 1], FlagAfter(a + before, comma)));
    }
  }

  lemma {:induction false} PlayOne(call: Call, comma: bool)
    ensures Play([call], comma) == Emitted(call, comma)
  {
    assert [call][..0] == [];
    NothingBefore(Emitted(call, comma));
  }

  lemma {:induction false} NothingBefore(t: string)
    ensures "" + t == t
  {
  }

  lemma {:induction false} PlayCons(call: Call, rest: seq<Call>, comma: bool)
    ensures Play([call] + rest, comma) == Emitted(call, comma) + Play(rest, CommaAfter(call))
    ensures FlagAfter([call] + rest, comma) == FlagAfter(rest, CommaAfter(call))
  {
    PlayAppend([call], rest, comma);
    PlayOne(call, comma);
  }

  lemma {:induction false} PlaySnoc(calls: seq<Call>, last: Call, comma: bool)
    ensures Play(calls + [last], comma) == Play(calls, comma) + Emitted(last, FlagAfter(calls, comma))
    ensures FlagAfter(calls + [last], comma) == CommaAfter(last)
  {
    assert (calls + [last])[..|calls|] == calls;
  }

  // ---- The calls that print a value

  function CallsFor(v: Json): seq<Call>
    decreases v, 1
  {
    match v
    case Null => [NullCall]
    case Bool(b) => [BoolCall(b)]
    case Number(m, e) => [if e == -6 && m >= 0 then MicrosCall(m) else IntCall(m)]
    case Str(s) => [StringCall(s)]
    case Arr(items) => [ArrayBegin] + CallsForItems(items) + [ArrayEnd]
    case Obj(members) => [ObjectBegin] + CallsForMembers(members) + [ObjectEnd]
  }

  function CallsForItems(items: seq<Json>): seq<Call>
    decreases items, 0
  {
    if items == [] then [] else CallsFor(items[0]) + CallsForItems(items[1..])
  }

  function CallsForMembers(members: seq<Member>): seq<Call>
    decreases members, 0
  {
    if members == [] then [] else [Key(members[0].key)] + CallsFor(members[0].value) + CallsForMembers(members[1..])
  }

  /** The calls print the value after a comma if one was due, and leave a completed sibling behind. */
  lemma {:induction false} PlayValue(v: Json, comma: bool)
    ensures Play(CallsFor(v), comma) == Comma(comma) + Render(v)
    ensures CallsFor(v) != [] && FlagAfter(CallsFor(v), comma)
    decreases v, 1
  {
    match v
    case Arr(items) => PlayArray(items, comma);
    case Obj(members) => PlayObject(members, comma);
    case _ => PlayScalar(v, comma);
  }

  lemma {:induction false} PlayScalar(v: Json, comma: bool)
    requires !v.Arr? && !v.Obj?
    ensures Play(CallsFor(v), comma) == Comma(comma) + Render(v)
    ensures FlagAfter(CallsFor(v), comma)
  {
    PlayOne(CallsFor(v)[0], comma);
  }

  lemma {:induction false} PlayBracketed(open: Call, inside: seq<Call>, close: Call, comma: bool)
    requires Opens(open) && Closes(close)
    ensures var calls := [open] + inside + [close];
      && Play(calls, comma) == Comma(comma) + (Body(open) + Play(inside, false) + Body(close))
      && FlagAfter(calls, comma)
  {
    PlayCons(open, inside, comma);
    PlaySnoc([open] + inside, close, comma);
    NothingBefore(Body(close));
    RegroupBracketed(Comma(comma), Body(open), Play(inside, false), Body(close));
  }

  lemma {:induction false} RegroupBracketed(comma: string, open: string, inside: string, close: string)
    ensures ((comma + open) + inside) + close == comma + (open + inside + close)
  {
  }

  lemma {:induction false} PlayArray(items: seq<Json>, comma: bool)
    ensures Play(CallsFor(Arr(items)), comma) == Comma(comma) + Render(Arr(items))
    ensures FlagAfter(CallsFor(Arr(items)), comma)
    decreases items, 1
  {
    PlayItems(items, false);
    NothingBefore(RenderItems(items));
    PlayBracketed(ArrayBegin, CallsForItems(items), ArrayEnd, comma);
  }

  lemma {:induction false} PlayObject(members: seq<Member>, comma: bool)
    ensures Play(CallsFor(Obj(members)), comma) == Comma(comma) + Render(Obj(members))
    ensures FlagAfter(CallsFor(Obj(members)), comma)
    decreases members, 1
  {
    PlayMembers(members, false);
    NothingBefore(RenderMembers(members));
    PlayBracketed(ObjectBegin, CallsForMembers(members), ObjectEnd, comma);
  }

  lemma {:induction false} PlayItems(items: seq<Json>, comma: bool)
    ensures Play(CallsForItems(items), comma) == if items == [] then "" else Comma(comma) + RenderItems(items)
    decreases items, 0
  {
    if items != [] {
      PlayValue(items[0], comma);
      PlayItems(items[1..], true);
      PlayAppend(CallsFor(items[0]), CallsForItems(items[1..]), comma);
      if |items| > 1 {
        Regroup(Comma(comma), Render(items[0]), "," + RenderItems(items[1..]));
      }
    }
  }

  lemma {:induction false} PlayMember(m: Member, comma: bool)
    requires Play(CallsFor(m.value), false) == Comma(false) + Render(m.value)
    requires CallsFor(m.value) != [] && FlagAfter(CallsFor(m.value), false)
    ensures Play([Key(m.key)] + CallsFor(m.value), comma) == Comma(comma) + RenderMember(m)
    ensures FlagAfter([Key(m.key)] + CallsFor(m.value), comma)
  {
    PlayCons(Key(m.key), CallsFor(m.value), comma);
    NothingBefore(Render(m.value));
    Regroup(Comma(comma), Body(Key(m.key)), Render(m.value));
  }

  /** Two stretches of calls that print two texts print both. */
  lemma {:induction false} PlayBoth(a: seq<Call>, b: seq<Call>, comma: bool, ta: string, tb: string)
    requires Play(a, comma) == Comma(comma) + ta && FlagAfter(a, comma) && Play(b, true) == tb
    ensures Play(a + b, comma) == Comma(comma) + (ta + tb)
  {
    PlayAppend(a, b, comma);
    Regroup(Comma(comma), ta, tb);
  }

  lemma {:induction false} MembersJoin(m: Member, rest: seq<Member>)
    ensures RenderMembers([m] + rest) == RenderMember(m) + if rest == [] then "" else "," + RenderMembers(rest)
  {
    assert ([m] + rest)[1..] == rest;
    assert rest == [] ==> RenderMember(m) + "" == RenderMember(m);
  }

  lemma {:induction false} PlayMembers(members: seq<Member>, comma: bool)
    ensures Play(CallsForMembers(members), comma) == if members == [] then "" else Comma(comma) + RenderMembers(members)
    decreases members, 0
  {
    if members != [] {
      var m, rest := members[0], members[1..];
      PlayValue(m.value, false);
      PlayMember(m, comma);
      PlayMembers(rest, true);
      PlayBoth([Key(m.key)] + CallsFor(m.value), CallsForMembers(rest), comma, RenderMember(m), if rest == [] then "" else "," + RenderMembers(rest));
      MembersJoin(m, rest);
      assert members == [m] + rest;
    }
  }

  /** From a fresh writer, the calls for any tree print text that a JSON reader turns back into it. */
  lemma {:induction false} CallsParseBack(v: Json)
    requires Printable(v)
    ensures Parse(Play(CallsFor(v), false)) == Some(v)
  {
    PlayValue(v, false);
    assert Comma(false) + Render(v) == Render(v);
    RenderThenParse(v);
  }

  // ---- One flag stands in for a stack of them

  /** The textbook writer: each open container remembers for itself whether a comma is due. */
  function StackAfter(call: Call, stack: seq<bool>): (after: seq<bool>)
    requires |stack| > 0 && (Closes(call) ==> |stack| > 1)
    ensures |after| > 0
  {
    var outer := stack[..|stack| - 1];
    if Opens(call) then outer + [true, false]
    else if Closes(call) then outer
    else outer + [CommaAfter(call)]
  }

  function StackEmitted(call: Call, stack: seq<bool>): string
    requires |stack| > 0
  {
    Emitted(call, stack[|stack| - 1])
  }

  /** No container is closed that was not opened. */
  predicate Nested(calls: seq<Call>, depth: nat)
    decreases |calls|
  {
    calls == [] ||
    (depth > 0 && (Closes(calls[0]) ==> depth > 1)
     && Nested(calls[1..], if Opens(calls[0]) then depth + 1 else if Closes(calls[0]) then depth - 1 else depth))
  }

  function StackPlay(calls: seq<Call>, stack: seq<bool>): string
    requires |stack| > 0 && Nested(calls, |stack|)
    decreases |calls|
  {
    if calls == [] then ""
    else StackEmitted(calls[0], stack) + StackPlay(calls[1..], StackAfter(calls[0], stack))
  }

  ghost predicate OuterCommasDue(stack: seq<bool>) {
    forall i :: 0 <= i < |stack| - 1 ==> stack[i]
  }

  /** One call leaves the outer containers waiting for a comma, and the flag where the writer's is. */
  lemma {:induction false} StackOnce(call: Call, stack: seq<bool>)
    requires |stack| > 0 && (Closes(call) ==> |stack| > 1) && OuterCommasDue(stack)
    ensures var after := StackAfter(call, stack);
      && OuterCommasDue(after) && after[|after| - 1] == CommaAfter(call)
      && |after| == if Opens(call) then |stack| + 1 else if Closes(call) then |stack| - 1 else |stack|
  {
  }

  lemma {:induction false} StackPlayCons(call: Call, rest: seq<Call>, stack: seq<bool>)
    requires |stack| > 0 && Nested([call] + rest, |stack|) && OuterCommasDue(stack)
    ensures (Closes(call) ==> |stack| > 1) && Nested(rest, |StackAfter(call, stack)|)
    ensures StackPlay([call] + rest, stack) == Emitted(call, stack[|stack| - 1]) + StackPlay(rest, StackAfter(call, stack))
  {
    assert ([call] + rest)[1..] == rest;
    StackOnce(call, stack);
  }

  /** On every nested list of calls, at any depth, the single flag prints what the stack would. */
  lemma {:induction false} OneFlagIsEnough(calls: seq<Call>, stack: seq<bool>)
    requires |stack| > 0 && Nested(calls, |stack|)
    requires forall i :: 0 <= i < |stack| - 1 ==> stack[i]
    ensures StackPlay(calls, stack) == Play(calls, stack[|stack| - 1])
    decreases |calls|
  {
    if calls != [] {
      var call, rest := calls[0], calls[1..];
      assert calls == [call] + rest;
      StackPlayCons(call, rest, stack);
      StackOnce(call, stack);
      OneFlagIsEnough(rest, StackAfter(call, stack));
      PlayCons(call, rest, stack[|stack| - 1]);
    }
  }

  // ---- The writer

  /** A text after a list of calls. */
  function Grown(was: string, calls: seq<Call>, comma: bool): string
    decreases |calls|
  {
    if calls == [] then was
    else
      var before, call := calls[..|calls| - 1], calls[|calls| - 1];
      Grown(was, before, comma) + Comma(FlagAfter(before, comma) && !Closes(call)) + Body(call)
  }

  lemma {:induction false} GrownAppends(was: string, calls: seq<Call>, comma: bool)
    ensures Grown(was, calls, comma) == was + Play(calls, comma)
    decreases |calls|
  {
    if calls == [] {
      assert was + "" == was;
    } else {
      var before, call := calls[..|calls| - 1], calls[|calls| - 1];
      GrownAppends(was, before, comma);
      RegroupStep(was, Play(before, comma), Comma(FlagAfter(before, comma) && !Closes(call)), Body(call));
    }
  }

  lemma {:induction false} RegroupStep(a: string, b: string, c: string, d: string)
    ensures ((a + b) + c) + d == a + (b + (c + d))
  {
  }

  class Writer {
    var buf: array?<char>
    var base: nat          // where this writer's part of the buffer starts
    var cap: nat
    var len: nat
    var overflow: bool
    var needComma: bool
    ghost var text: string

    /** The buffer holds the text and its NUL, unless the text has outgrown it. */
    ghost predicate Valid()
      reads `buf, `base, `cap, `len, `overflow, `text, buf
    {
      && len == |text|
      && (buf == null ==> !overflow)
      && (buf != null ==>
        && base + cap <= buf.Length
        && overflow == (|text| + 1 > cap)
        && (!overflow ==> buf[base..base + len] == text && buf[base + len] == '\0'))
    }

    /** This writer changed nothing but its own fields and its own part of the buffer. */
    twostate predicate Kept()
      reads `buf, `base, `cap, `len, `overflow, `text, buf
    {
      && Valid() && buf == old(buf) && base == old(base) && cap == old(cap)
      && (buf != null ==> forall i :: 0 <= i < buf.Length && !(base <= i < base + cap) ==> buf[i] == old(buf[i]))
    }

    constructor (buf: array?<char>, base: nat, cap: nat)
      requires buf != null ==> base + cap <= buf.Length
      modifies buf
      ensures Valid() && text == "" && !needComma
      ensures this.buf == buf && this.base == base && this.cap == cap
      ensures buf != null ==> forall i :: 0 <= i < buf.Length && i != base ==> buf[i] == old(buf[i])
      ensures buf != null && cap == 0 ==> buf[..] == old(buf[..])
    {
      this.buf, this.base, this.cap := buf, base, cap;
      len, overflow, needComma, text := 0, buf != null && cap == 0, false, "";
      new;
      if buf != null && cap > 0 {
        buf[base] := '\0';
      }
    }

    /** Once overflowed, keep counting but stop copying. */
    method Append(data: string)
      requires Valid()
      modifies this`len, this`overflow, this`text, buf
      ensures Kept() && text == old(text) + data
    {
      if buf != null && !overflow {
        if len + |data| + 1 > cap {
          overflow := true;
        } else {
          forall i | 0 <= i < |data| {
            buf[base + len + i] := data[i];
          }
          buf[base + len + |data|] := '\0';
        }
      }
      len := len + |data|;
      text := text + data;
    }

    /** The comma before a sibling. Closing calls do not ask for one. */
    method Separate(call: Call)
      requires Valid()
      modifies this`len, this`overflow, this`text, buf
      ensures Kept() && text == old(text) + Comma(needComma && !Closes(call))
    {
      if needComma && !Closes(call) {
        Append(",");
      } else {
        assert text == old(text) + "";
      }
    }

    method WriteEscaped(s: string)
      requires Valid()
      modifies this`len, this`overflow, this`text, buf
      ensures Kept() && text == old(text) + Quote(s)
    {
      Append("\"");
      ghost var inside := text;
      assert text == inside + Escape(s[..0]);
      for i := 0 to |s|
        invariant Kept() && text == inside + Escape(s[..i])
      {
        EscapeSnoc(s, i);
        Regroup(inside, Escape(s[..i]), EscapeChar(s[i]));
        Append(EscapeChar(s[i]));
      }
      assert s[..|s|] == s;
      RegroupQuoted(old(text), "\"", Escape(s));
      Append("\"");
    }

    /** A call's own text, without a comma. */
    method WriteBody(call: Call)
      requires Valid()
      modifies this`len, this`overflow, this`text, buf
      ensures Kept() && text == old(text) + Body(call)
    {
      match call {
        case ObjectBegin => Append("{");
        case ObjectEnd => Append("}");
        case ArrayBegin => Append("[");
        case ArrayEnd => Append("]");
        case Key(k) =>
          WriteEscaped(k);
          Regroup(old(text), Quote(k), ":");
          Append(":");
        case StringCall(s) => WriteEscaped(s);
        case IntCall(n) => Append(SignedDecimal(n));
        case MicrosCall(us) => Append(MicrosText(us));
        case BoolCall(b) => Append(if b then "true" else "false");
        case NullCall => Append("null");
      }
    }

    /** One call of the writer's interface. */
    method Write(call: Call)
      requires Valid()
      modifies this, buf
      ensures Kept() && needComma == CommaAfter(call)
      ensures text == old(text) + Comma(old(needComma) && !Closes(call)) + Body(call)
    {
      Separate(call);
      WriteBody(call);
      needComma := CommaAfter(call);
    }

    /** A list of calls, in order. */
    method Perform(calls: seq<Call>)
      requires Valid()
      modifies this, buf
      ensures Kept() && text == old(text) + Play(calls, old(needComma)) && needComma == FlagAfter(calls, old(needComma))
    {
      for i := 0 to |calls|
        invariant Kept() && text == Grown(old(text), calls[..i], old(needComma))
        invariant needComma == FlagAfter(calls[..i], old(needComma))
      {
        assert calls[..i + 1][..i] == calls[..i];
        Write(calls[i]);
      }
      assert calls[..|calls|] == calls;
      GrownAppends(old(text), calls, old(needComma));
    }

    /** All the calls for one value. */
    method WriteValue(v: Json)
      requires Valid()
      modifies this, buf
      ensures Kept() && text == old(text) + (Comma(old(needComma)) + Render(v)) && needComma
    {
      PlayValue(v, needComma);
      Perform(CallsFor(v));
    }

    /** The first and only value: a whole document. */
    method WriteDocument(v: Json)
      requires Valid() && text == "" && !needComma
      modifies this, buf
      ensures Kept() && text == Render(v)
    {
      NoCommaFirst(Render(v));
      WriteValue(v);
    }
  }

  lemma {:induction false} NoCommaFirst(t: string)
    ensures "" + (Comma(false) + t) == t
  {
  }

  lemma {:induction false} RegroupQuoted(before: string, quote: string, inside: string)
    ensures ((before + quote) + inside) + quote == before + (quote + inside + quote)
  {
  }

  lemma {:induction false} EscapeAppend(a: string, b: string)
    ensures Escape(a + b) == Escape(a) + Escape(b)
    decreases |a|
  {
    if a == "" {
      assert a + b == b;
      NothingBefore(Escape(b));
    } else {
      assert (a + b)[1..] == a[1..] + b;
      EscapeAppend(a[1..], b);
      Regroup(EscapeChar(a[0]), Escape(a[1..]), Escape(b));
    }
  }

  lemma {:induction false} EscapeSnoc(s: string, i: nat)
    requires i < |s|
    ensures Escape(s[..i + 1]) == Escape(s[..i]) + EscapeChar(s[i])
  {
    assert s[..i + 1] == s[..i] + [s[i]];
    EscapeAppend(s[..i], [s[i]]);
    assert Escape([s[i]]) == EscapeChar(s[i]) + Escape([s[i]][1..]) == EscapeChar(s[i]);
  }
}
