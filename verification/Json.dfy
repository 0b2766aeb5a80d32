/**
 JSON values, the text the SDK's writer gives them, and an RFC 8259 reader that gets them back.

 Text is a sequence of chars, each standing for one byte.
 */
module Json {
  import opened Prelude

  /** Numbers are mantissa * 10^exponent. The writer prints integers (0) and microseconds (-6). */
  datatype Json =
    | Null
    | Bool(b: bool)
    | Number(mantissa: int, exponent: int)
    | Str(s: string)
    | Arr(items: seq<Json>)
    | Obj(members: seq<Member>)

  datatype Member = Member(key: string, value: Json)

  // ---- Decimal digits

  predicate IsDigit(c: char) {
    '0' <= c <= '9'
  }

  function Digit(d: int): (c: char)
    requires 0 <= d < 10
    ensures IsDigit(c) && c as int - '0' as int == d
  {
    '0' + d as char
  }

  /** "%llu" */
  function Decimal(n: nat): (t: string)
    ensures |t| > 0 && (n > 0 ==> t[0] != '0')
    ensures forall i :: 0 <= i < |t| ==> IsDigit(t[i])
  {
    if n < 10 then [Digit(n)] else Decimal(n / 10) + [Digit(n % 10)]
  }

  /** "%lld" */
  function SignedDecimal(n: int): string {
    if n < 0 then "-" + Decimal(-n) else Decimal(n)
  }

  /** The last k digits of n, zero padded. */
  function Padded(n: nat, k: nat): (t: string)
    ensures |t| == k && forall i :: 0 <= i < k ==> IsDigit(t[i])
  {
    if k == 0 then "" else Padded(n / 10, k - 1) + [Digit(n % 10)]
  }

  function DigitValue(c: char): nat
    requires IsDigit(c)
  {
    c as int - '0' as int
  }

  function Value(digits: string): nat
    requires forall i :: 0 <= i < |digits| ==> IsDigit(digits[i])
  {
    if digits == "" then 0
    else 10 * Value(digits[..|digits| - 1]) + DigitValue(digits[|digits| - 1])
  }

  /** n with k decimal zeros appended. */
  function Shifted(n: nat, k: nat): nat {
    if k == 0 then n else 10 * Shifted(n, k - 1)
  }

  /** A number below ten to the k has at most k digits. */
  lemma {:induction false} DecimalLength(n: nat, k: nat)
    requires n < Shifted(1, k) && k > 0
    ensures |Decimal(n)| <= k
  {
    if n >= 10 {
      DecimalLength(n / 10, k - 1);
    }
  }

  lemma {:induction false} ValueBound(digits: string)
    requires forall i :: 0 <= i < |digits| ==> IsDigit(digits[i])
    ensures Value(digits) < Shifted(1, |digits|)
    decreases |digits|
  {
    if digits != "" {
      ValueBound(digits[..|digits| - 1]);
    }
  }

  lemma {:induction false} ValueOfDecimal(n: nat)
    ensures Value(Decimal(n)) == n
  {
    if n >= 10 {
      ValueOfDecimal(n / 10);
      assert Decimal(n)[..|Decimal(n)| - 1] == Decimal(n / 10);
    }
  }

  /** Appending the padded remainder of a division gives the dividend back. */
  lemma {:induction false} ValueOfSplit(whole: string, n: nat, k: nat)
    requires forall i :: 0 <= i < |whole| ==> IsDigit(whole[i])
    requires n < Shifted(1, k)
    ensures Value(whole + Padded(n, k)) == Shifted(Value(whole), k) + n
    decreases k
  {
    var t := whole + Padded(n, k);
    if k == 0 {
      assert t == whole;
    } else {
      ValueOfSplit(whole, n / 10, k - 1);
      assert t[..|t| - 1] == whole + Padded(n / 10, k - 1);
      assert t[|t| - 1] == Digit(n % 10);
    }
  }

  lemma {:induction false} SixDigits(n: nat)
    ensures Shifted(n, 6) == 1000000 * n
  {
    assert Shifted(n, 3) == 1000 * n by {
      assert Shifted(n, 1) == 10 * n;
      assert Shifted(n, 2) == 100 * n;
    }
    assert Shifted(n, 4) == 10000 * n;
    assert Shifted(n, 5) == 100000 * n;
  }

  // ---- Printing

  const HEX_DIGITS: string := "0123456789abcdef"

  function EscapeChar(c: char): string {
    match c
    case '\"' => "\\\""
    case '\\' => "\\\\"
    case '\U{08}' => "\\b"
    case '\U{0c}' => "\\f"
    case '\n' => "\\n"
    case '\r' => "\\r"
    case '\t' => "\\t"
    case _ =>
      if c < ' ' then "\\u00" + [HEX_DIGITS[c as int / 16], HEX_DIGITS[c as int % 16]] else [c]
  }

  function Escape(s: string): string {
    if s == "" then "" else EscapeChar(s[0]) + Escape(s[1..])
  }

  function Quote(s: string): string {
    "\"" + Escape(s) + "\""
  }

  /** "%llu.%06llu" of a count of microseconds. */
  function MicrosText(us: nat): string {
    Decimal(us / 1000000) + "." + Padded(us % 1000000, 6)
  }

  function Render(v: Json): string
    decreases v, 1
  {
    match v
    case Null => "null"
    case Bool(b) => if b then "true" else "false"
    case Number(m, e) => if e == -6 && m >= 0 then MicrosText(m) else SignedDecimal(m)
    case Str(s) => Quote(s)
    case Arr(items) => "[" + RenderItems(items) + "]"
    case Obj(members) => "{" + RenderMembers(members) + "}"
  }

  /** Elements with a comma between each two. */
  function RenderItems(items: seq<Json>): string
    decreases items, 0
  {
    if items == [] then ""
    else Render(items[0]) + (if |items| > 1 then "," + RenderItems(items[1..]) else "")
  }

  function RenderMember(m: Member): string
    decreases m, 2
  {
    Quote(m.key) + ":" + Render(m.value)
  }

  function RenderMembers(members: seq<Member>): string
    decreases members, 0
  {
    if members == [] then ""
    else RenderMember(members[0]) + (if |members| > 1 then "," + RenderMembers(members[1..]) else "")
  }

  /** What the writer has calls for. */
  predicate Printable(v: Json) {
    match v
    case Number(m, e) => e == 0 || (e == -6 && m >= 0)
    case Arr(items) => forall i :: 0 <= i < |items| ==> Printable(items[i])
    case Obj(members) => forall i :: 0 <= i < |members| ==> Printable(members[i].value)
    case _ => true
  }

  // ---- Reading: RFC 8259, sections 2 to 7

  type Parsed<T> = Option<(T, string)>

  predicate IsSpace(c: char) {
    c == ' ' || c == '\t' || c == '\n' || c == '\r'
  }

  function SkipSpace(t: string): (r: string)
    ensures |r| <= |t|
  {
    if t != "" && IsSpace(t[0]) then SkipSpace(t[1..]) else t
  }

  function DigitRun(t: string): (n: nat)
    ensures n <= |t| && forall i :: 0 <= i < n ==> IsDigit(t[i])
    ensures n < |t| ==> !IsDigit(t[n])
  {
    if t != "" && IsDigit(t[0]) then 1 + DigitRun(t[1..]) else 0
  }

  function HexValue(c: char): (h: int)
    ensures -1 <= h < 16
  {
    if '0' <= c <= '9' then c as int - '0' as int
    else if 'a' <= c <= 'f' then c as int - 'a' as int + 10
    else if 'A' <= c <= 'F' then c as int - 'A' as int + 10
    else -1
  }

  /** The UTF-8 bytes of a code unit; a surrogate half has none of its own. */
  function Utf8(unit: nat): Option<string>
    requires unit < 0x1_0000
  {
    if unit < 0x80 then Some([unit as char])
    else if unit < 0x800 then Some([(0xC0 + unit / 64) as char, (0x80 + unit % 64) as char])
    else if 0xD800 <= unit < 0xE000 then None
    else Some([(0xE0 + unit / 4096) as char, (0x80 + unit / 64 % 64) as char, (0x80 + unit % 64) as char])
  }

  /** What follows a backslash: the bytes meant and how many chars spell them. */
  function ReadEscape(t: string): (r: Option<(string, nat)>)
    ensures r.Some? ==> 0 < r.value.1 <= |t|
  {
    if t == "" then None
    else match t[0]
      case '\"' => Some(("\"", 1))
      case '\\' => Some(("\\", 1))
      case '/' => Some(("/", 1))
      case 'b' => Some(("\U{08}", 1))
      case 'f' => Some(("\U{0c}", 1))
      case 'n' => Some(("\n", 1))
      case 'r' => Some(("\r", 1))
      case 't' => Some(("\t", 1))
      case 'u' =>
        if |t| < 5 || HexValue(t[1]) < 0 || HexValue(t[2]) < 0 || HexValue(t[3]) < 0 || HexValue(t[4]) < 0 then None
        else
          var bytes := Utf8(4096 * HexValue(t[1]) + 256 * HexValue(t[2]) + 16 * HexValue(t[3]) + HexValue(t[4]));
          if bytes == None then None else Some((bytes.value, 5))
      case _ => None
  }

  /** The inside of a string literal, up to and past the closing quote. */
  function ReadChars(t: string): (r: Parsed<string>)
    ensures r.Some? ==> |r.value.1| < |t|
    decreases |t|
  {
    if t == "" || t[0] < ' ' then None
    else if t[0] == '\"' then Some(("", t[1..]))
    else if t[0] == '\\' then
      var e := ReadEscape(t[1..]);
      if e == None then None
      else
        var rest := ReadChars(t[1 + e.value.1..]);
        if rest == None then None else Some((e.value.0 + rest.value.0, rest.value.1))
    else
      var rest := ReadChars(t[1..]);
      if rest == None then None else Some(([t[0]] + rest.value.0, rest.value.1))
  }

  function ReadExponent(t: string): (r: Parsed<int>)
    ensures r.Some? ==> |r.value.1| <= |t|
  {
    if t != "" && (t[0] == 'e' || t[0] == 'E') then
      var signed := |t| > 1 && (t[1] == '+' || t[1] == '-');
      var digits := t[if signed then 2 else 1..];
      var n := DigitRun(digits);
      if n == 0 then None
      else
        var value: int := Value(digits[..n]);
        Some((if signed && t[1] == '-' then -value else value, digits[n..]))
    else Some((0, t))
  }

  /** Number of fraction digits after a point, if there is a fraction. */
  function ReadFraction(t: string): (r: Option<nat>)
    ensures r.Some? && r.value > 0 ==> 1 + r.value <= |t| && forall i :: 1 <= i <= r.value ==> IsDigit(t[i])
  {
    if t != "" && t[0] == '.' then
      var n := DigitRun(t[1..]);
      if n == 0 then None else assert forall i :: 1 <= i <= n ==> t[i] == t[1..][i - 1]; Some(n)
    else Some(0)
  }

  /** The exponent part, after the digits of the integer and the fraction. */
  function ReadScaled(digits: string, places: nat, t: string): (r: Parsed<Json>)
    requires forall i :: 0 <= i < |digits| ==> IsDigit(digits[i])
    ensures r.Some? ==> |r.value.1| <= |t| && r.value.0.Number?
  {
    var e := ReadExponent(t);
    if e == None then None else Some((Number(Value(digits), e.value.0 - places), e.value.1))
  }

  function ReadAfterWhole(whole: string, t: string): (r: Parsed<Json>)
    requires forall i :: 0 <= i < |whole| ==> IsDigit(whole[i])
    ensures r.Some? ==> |r.value.1| <= |t| && r.value.0.Number?
  {
    var places := ReadFraction(t);
    if places == None then None
    else if places.value == 0 then ReadScaled(whole, 0, t)
    else ReadScaled(whole + t[1..1 + places.value], places.value, t[1 + places.value..])
  }

  /** No zero in front of other digits. */
  function WholeLength(t: string): (n: nat)
    ensures n <= |t| && forall i :: 0 <= i < n ==> IsDigit(t[i])
  {
    if t != "" && t[0] == '0' then 1 else DigitRun(t)
  }

  function ReadUnsigned(t: string): (r: Parsed<Json>)
    ensures r.Some? ==> |r.value.1| < |t| && r.value.0.Number?
  {
    var n := WholeLength(t);
    if n == 0 then None else ReadAfterWhole(t[..n], t[n..])
  }

  function ReadNumber(t: string): (r: Parsed<Json>)
    ensures r.Some? ==> |r.value.1| < |t|
  {
    if t != "" && t[0] == '-' then
      var r := ReadUnsigned(t[1..]);
      if r == None then None else Some((Number(-r.value.0.mantissa, r.value.0.exponent), r.value.1))
    else ReadUnsigned(t)
  }

  function ReadWord(t: string, word: string, v: Json): (r: Parsed<Json>)
    requires word != ""
    ensures r.Some? ==> |r.value.1| < |t|
  {
    if word <= t then Some((v, t[|word|..])) else None
  }

  function ReadValue(text: string): (r: Parsed<Json>)
    ensures r.Some? ==> |r.value.1| < |text|
    decreases |text|, 0
  {
    var t := SkipSpace(text);
    if t == "" then None
    else match t[0]
      case '{' => ReadObject(t[1..])
      case '[' => ReadArray(t[1..])
      case '\"' =>
        var r := ReadChars(t[1..]);
        if r == None then None else Some((Str(r.value.0), r.value.1))
      case 't' => ReadWord(t, "true", Bool(true))
      case 'f' => ReadWord(t, "false", Bool(false))
      case 'n' => ReadWord(t, "null", Null)
      case _ => ReadNumber(t)
  }

  /** After an opening bracket. */
  function ReadArray(t: string): (r: Parsed<Json>)
    ensures r.Some? ==> |r.value.1| < |t|
    decreases |t|, 2
  {
    var u := SkipSpace(t);
    if u != "" && u[0] == ']' then Some((Arr([]), u[1..]))
    else
      var r := ReadItems(t);
      if r == None then None else Some((Arr(r.value.0), r.value.1))
  }

  /** After an opening brace. */
  function ReadObject(t: string): (r: Parsed<Json>)
    ensures r.Some? ==> |r.value.1| < |t|
    decreases |t|, 3
  {
    var u := SkipSpace(t);
    if u != "" && u[0] == '}' then Some((Obj([]), u[1..]))
    else
      var r := ReadMembers(t);
      if r == None then None else Some((Obj(r.value.0), r.value.1))
  }

  /** One or more values up to and past the closing bracket. */
  function ReadItems(t: string): (r: Parsed<seq<Json>>)
    ensures r.Some? ==> |r.value.1| < |t|
    decreases |t|, 1
  {
    var v := ReadValue(t);
    if v == None then None
    else
      var after := SkipSpace(v.value.1);
      if after == "" then None
      else if after[0] == ']' then Some(([v.value.0], after[1..]))
      else if after[0] != ',' then None
      else
        var rest := ReadItems(after[1..]);
        if rest == None then None else Some(([v.value.0] + rest.value.0, rest.value.1))
  }

  function ReadMember(text: string): (r: Parsed<Member>)
    ensures r.Some? ==> |r.value.1| < |text|
    decreases |text|, 1
  {
    var t := SkipSpace(text);
    if t == "" || t[0] != '\"' then None
    else
      var key := ReadChars(t[1..]);
      if key == None then None
      else
        var colon := SkipSpace(key.value.1);
        if colon == "" || colon[0] != ':' then None
        else
          var v := ReadValue(colon[1..]);
          if v == None then None else Some((Member(key.value.0, v.value.0), v.value.1))
  }

  function ReadMembers(t: string): (r: Parsed<seq<Member>>)
    ensures r.Some? ==> |r.value.1| < |t|
    decreases |t|, 2
  {
    var m := ReadMember(t);
    if m == None then None
    else
      var after := SkipSpace(m.value.1);
      if after == "" then None
      else if after[0] == '}' then Some(([m.value.0], after[1..]))
      else if after[0] != ',' then None
      else
        var rest := ReadMembers(after[1..]);
        if rest == None then None else Some(([m.value.0] + rest.value.0, rest.value.1))
  }

  /** A whole JSON text. */
  function Parse(t: string): Option<Json> {
    var r := ReadValue(t);
    if r == None || SkipSpace(r.value.1) != "" then None else Some(r.value.0)
  }

  // ---- Reading undoes printing

  lemma {:induction false} HexEscapeReadsBack(c: char, rest: string)
    requires c < ' '
    ensures ReadEscape("u00" + [HEX_DIGITS[c as int / 16], HEX_DIGITS[c as int % 16]] + rest) == Some(([c], 5))
  {
    var n := c as int;
    var t := "u00" + [HEX_DIGITS[n / 16], HEX_DIGITS[n % 16]] + rest;
    assert t[0] == 'u' && t[1] == '0' && t[2] == '0' && t[3] == HEX_DIGITS[n / 16] && t[4] == HEX_DIGITS[n % 16];
    assert HexValue(HEX_DIGITS[n / 16]) == n / 16 && HexValue(HEX_DIGITS[n % 16]) == n % 16;
    assert n as char == c;
  }

  lemma {:induction false} EscapeCharReadsBack(c: char, rest: string)
    requires EscapeChar(c) != [c]
    ensures |EscapeChar(c)| > 1 && EscapeChar(c)[0] == '\\'
    ensures var t := EscapeChar(c) + rest;
      ReadEscape(t[1..]) == Some(([c], |EscapeChar(c)| - 1)) && t[|EscapeChar(c)|..] == rest
  {
    var t := EscapeChar(c) + rest;
    assert t[|EscapeChar(c)|..] == rest;
    if |EscapeChar(c)| > 2 {
      HexEscapeReadsBack(c, rest);
      assert t[1..] == "u00" + [HEX_DIGITS[c as int / 16], HEX_DIGITS[c as int % 16]] + rest;
    } else {
      assert t[1..] == EscapeChar(c)[1..] + rest;
    }
  }

  /** The text of a string's inside, followed by `rest`. */
  function EscapeTo(s: string, rest: string): string {
    if s == "" then rest else EscapeChar(s[0]) + EscapeTo(s[1..], rest)
  }

  lemma {:induction false} EscapeToAppends(s: string, rest: string)
    ensures EscapeTo(s, rest) == Escape(s) + rest
    decreases |s|
  {
    if s == "" {
      assert Escape(s) + rest == rest;
    } else {
      EscapeToAppends(s[1..], rest);
      Regroup(EscapeChar(s[0]), Escape(s[1..]), rest);
    }
  }

  lemma {:induction false} Regroup(a: string, b: string, c: string)
    ensures (a + b) + c == a + (b + c)
  {
  }

  lemma {:induction false} ReadPlainChar(c: char, t: string)
    requires c >= ' ' && c != '\"' && c != '\\'
    ensures ReadChars([c] + t) == var r := ReadChars(t); if r == None then None else Some(([c] + r.value.0, r.value.1))
  {
    assert ([c] + t)[1..] == t;
  }

  lemma {:induction false} ReadEscapedChar(c: char, t: string)
    requires EscapeChar(c) != [c]
    ensures ReadChars(EscapeChar(c) + t) == var r := ReadChars(t); if r == None then None else Some(([c] + r.value.0, r.value.1))
  {
    var u := EscapeChar(c) + t;
    EscapeCharReadsBack(c, t);
    assert u[0] == '\\';
    assert u[1 + (|EscapeChar(c)| - 1)..] == t;
  }

  /** A printed string reads back byte for byte, whatever follows the closing quote. */
  lemma {:induction false} StringReadsBack(s: string, rest: string)
    ensures ReadChars(EscapeTo(s, "\"" + rest)) == Some((s, rest))
    decreases |s|
  {
    if s == "" {
      assert ("\"" + rest)[1..] == rest;
    } else {
      StringReadsBack(s[1..], rest);
      var tail := EscapeTo(s[1..], "\"" + rest);
      if EscapeChar(s[0]) == [s[0]] {
        ReadPlainChar(s[0], tail);
      } else {
        ReadEscapedChar(s[0], tail);
      }
      assert [s[0]] + s[1..] == s;
    }
  }

  /** What the writer puts after a value. */
  predicate Follows(rest: string) {
    rest == "" || rest[0] == ',' || rest[0] == ']' || rest[0] == '}'
  }

  lemma {:induction false} DigitRunStops(digits: string, rest: string)
    requires forall i :: 0 <= i < |digits| ==> IsDigit(digits[i])
    requires rest != "" ==> !IsDigit(rest[0])
    ensures DigitRun(digits + rest) == |digits|
    decreases |digits|
  {
    if digits == "" {
      assert digits + rest == rest;
    } else {
      assert (digits + rest)[1..] == digits[1..] + rest;
      DigitRunStops(digits[1..], rest);
    }
  }

  lemma {:induction false} WholeIsFirst(n: nat, rest: string)
    requires rest != "" ==> !IsDigit(rest[0])
    ensures WholeLength(Decimal(n) + rest) == |Decimal(n)|
  {
    DigitRunStops(Decimal(n), rest);
  }

  lemma {:induction false} ReadsAfter(whole: string, rest: string)
    requires whole != "" && WholeLength(whole + rest) == |whole|
    requires forall i :: 0 <= i < |whole| ==> IsDigit(whole[i])
    ensures ReadUnsigned(whole + rest) == ReadAfterWhole(whole, rest)
  {
    assert (whole + rest)[..|whole|] == whole && (whole + rest)[|whole|..] == rest;
  }

  lemma {:induction false} ScaledStops(digits: string, places: nat, rest: string)
    requires Follows(rest) && forall i :: 0 <= i < |digits| ==> IsDigit(digits[i])
    ensures ReadScaled(digits, places, rest) == Some((Number(Value(digits), 0 - places), rest))
  {
  }

  lemma {:induction false} IntegerReadsBack(n: nat, rest: string)
    requires Follows(rest)
    ensures ReadUnsigned(Decimal(n) + rest) == Some((Number(n, 0), rest))
  {
    WholeIsFirst(n, rest);
    ReadsAfter(Decimal(n), rest);
    ScaledStops(Decimal(n), 0, rest);
    ValueOfDecimal(n);
  }

  lemma {:induction false} FractionReadsBack(whole: string, part: string, rest: string)
    requires part != "" && Follows(rest)
    requires forall i :: 0 <= i < |whole| ==> IsDigit(whole[i])
    requires forall i :: 0 <= i < |part| ==> IsDigit(part[i])
    ensures ReadAfterWhole(whole, "." + (part + rest)) == Some((Number(Value(whole + part), -|part|), rest))
  {
    var t := "." + (part + rest);
    assert t[1..] == part + rest;
    DigitRunStops(part, rest);
    assert ReadFraction(t) == Some(|part|);
    assert t[1..1 + |part|] == part && t[1 + |part|..] == rest;
    ScaledStops(whole + part, |part|, rest);
  }

  lemma {:induction false} MicrosValue(us: nat)
    ensures Value(Decimal(us / 1000000) + Padded(us % 1000000, 6)) == us
  {
    SixDigits(1);
    SixDigits(us / 1000000);
    ValueOfDecimal(us / 1000000);
    ValueOfSplit(Decimal(us / 1000000), us % 1000000, 6);
  }

  lemma {:induction false} MicrosReadBack(us: nat, rest: string)
    requires Follows(rest)
    ensures ReadUnsigned(MicrosText(us) + rest) == Some((Number(us, -6), rest))
  {
    var whole, part := Decimal(us / 1000000), Padded(us % 1000000, 6);
    var dotted := "." + (part + rest);
    assert MicrosText(us) + rest == whole + dotted;
    WholeIsFirst(us / 1000000, dotted);
    ReadsAfter(whole, dotted);
    FractionReadsBack(whole, part, rest);
    MicrosValue(us);
  }

  lemma {:induction false} UnsignedReadsAsNumber(t: string)
    requires t != "" && t[0] != '-'
    ensures ReadNumber(t) == ReadUnsigned(t)
  {
  }

  lemma {:induction false} MinusReads(digits: string, n: int, rest: string)
    requires ReadUnsigned(digits) == Some((Number(n, 0), rest))
    ensures ReadNumber("-" + digits) == Some((Number(-n, 0), rest))
  {
    assert ("-" + digits)[1..] == digits;
  }

  lemma {:induction false} NumberReadsBack(m: int, e: int, rest: string)
    requires Printable(Number(m, e)) && Follows(rest)
    ensures ReadNumber(Render(Number(m, e)) + rest) == Some((Number(m, e), rest))
  {
    if e == -6 {
      MicrosReadBack(m, rest);
      assert (MicrosText(m) + rest)[0] == Decimal(m / 1000000)[0] != '-';
      UnsignedReadsAsNumber(MicrosText(m) + rest);
    } else if m >= 0 {
      IntegerReadsBack(m, rest);
      assert (Decimal(m) + rest)[0] == Decimal(m)[0] != '-';
      UnsignedReadsAsNumber(Decimal(m) + rest);
    } else {
      IntegerReadsBack(-m, rest);
      MinusReads(Decimal(-m) + rest, -m, rest);
      Regroup("-", Decimal(-m), rest);
    }
  }

  lemma {:induction false} NumberStarts(m: int, e: int)
    ensures var t := Render(Number(m, e)); t != "" && (t[0] == '-' || IsDigit(t[0]))
  {
    if e == -6 && m >= 0 {
      assert MicrosText(m)[0] == Decimal(m / 1000000)[0];
    }
  }

  lemma {:induction false} ReadsAsNumber(t: string)
    requires t != "" && (t[0] == '-' || IsDigit(t[0]))
    ensures ReadValue(t) == ReadNumber(t)
  {
    assert !IsSpace(t[0]);
    assert SkipSpace(t) == t;
    var c := t[0];
    assert c != '{' && c != '[' && c != '\"' && c != 't' && c != 'f' && c != 'n';
  }

  // A value's text followed by `rest`, built from the back, so that every step of the reader
  // meets one printed piece in front of the remaining text.

  function RenderTo(v: Json, rest: string): string
    decreases v, 1
  {
    match v
    case Str(s) => "\"" + EscapeTo(s, "\"" + rest)
    case Arr(items) => "[" + ItemsTo(items, "]" + rest)
    case Obj(members) => "{" + MembersTo(members, "}" + rest)
    case _ => Render(v) + rest
  }

  function ItemsTo(items: seq<Json>, rest: string): string
    decreases items, 0
  {
    if items == [] then rest
    else RenderTo(items[0], if |items| > 1 then "," + ItemsTo(items[1..], rest) else rest)
  }

  function MemberTo(m: Member, rest: string): string
    decreases m, 2
  {
    "\"" + EscapeTo(m.key, "\"" + (":" + RenderTo(m.value, rest)))
  }

  function MembersTo(members: seq<Member>, rest: string): string
    decreases members, 0
  {
    if members == [] then rest
    else MemberTo(members[0], if |members| > 1 then "," + MembersTo(members[1..], rest) else rest)
  }

  lemma {:induction false} QuoteToAppends(s: string, rest: string)
    ensures "\"" + EscapeTo(s, "\"" + rest) == Quote(s) + rest
  {
    EscapeToAppends(s, "\"" + rest);
    RegroupQuote("\"", Escape(s), "\"", rest);
  }

  lemma {:induction false} RegroupQuote(open: string, inside: string, close: string, rest: string)
    ensures (open + inside + close) + rest == open + (inside + (close + rest))
  {
  }

  lemma {:induction false} RegroupMember(key: string, colon: string, value: string, rest: string)
    ensures (key + colon + value) + rest == key + (colon + (value + rest))
  {
  }

  lemma {:induction false} RenderToAppends(v: Json, rest: string)
    ensures RenderTo(v, rest) == Render(v) + rest
    decreases v, 1
  {
    match v
    case Str(s) => QuoteToAppends(s, rest);
    case Arr(items) =>
      ItemsToAppends(items, "]" + rest);
      RegroupQuote("[", RenderItems(items), "]", rest);
    case Obj(members) =>
      MembersToAppends(members, "}" + rest);
      RegroupQuote("{", RenderMembers(members), "}", rest);
    case _ =>
  }

  lemma {:induction false} ItemsToAppends(items: seq<Json>, rest: string)
    ensures ItemsTo(items, rest) == RenderItems(items) + rest
    decreases items, 0
  {
    if items == [] {
      assert RenderItems(items) + rest == rest;
    } else if |items| == 1 {
      RenderToAppends(items[0], rest);
      assert Render(items[0]) + "" == Render(items[0]);
    } else {
      ItemsToAppends(items[1..], rest);
      RenderToAppends(items[0], "," + ItemsTo(items[1..], rest));
      RegroupMember(Render(items[0]), ",", RenderItems(items[1..]), rest);
      Regroup(Render(items[0]), ",", RenderItems(items[1..]));
    }
  }

  lemma {:induction false} MemberToAppends(m: Member, rest: string)
    ensures MemberTo(m, rest) == RenderMember(m) + rest
    decreases m, 2
  {
    RenderToAppends(m.value, rest);
    QuoteToAppends(m.key, ":" + RenderTo(m.value, rest));
    RegroupMember(Quote(m.key), ":", Render(m.value), rest);
  }

  lemma {:induction false} MembersToAppends(members: seq<Member>, rest: string)
    ensures MembersTo(members, rest) == RenderMembers(members) + rest
    decreases members, 0
  {
    if members == [] {
      assert RenderMembers(members) + rest == rest;
    } else if |members| == 1 {
      MemberToAppends(members[0], rest);
      assert RenderMember(members[0]) + "" == RenderMember(members[0]);
    } else {
      MembersToAppends(members[1..], rest);
      MemberToAppends(members[0], "," + MembersTo(members[1..], rest));
      RegroupMember(RenderMember(members[0]), ",", RenderMembers(members[1..]), rest);
      Regroup(RenderMember(members[0]), ",", RenderMembers(members[1..]));
    }
  }

  /** No space, and nothing the reader would take for a closing bracket. */
  predicate Starts(t: string) {
    t != "" && !IsSpace(t[0]) && t[0] != ']' && t[0] != '}'
  }

  lemma {:induction false} RenderStarts(v: Json, rest: string)
    ensures Starts(RenderTo(v, rest))
  {
    if v.Number? {
      NumberStarts(v.mantissa, v.exponent);
    }
  }

  lemma {:induction false} ReadsPast(c: char, t: string)
    requires !IsSpace(c)
    ensures SkipSpace([c] + t) == [c] + t && ([c] + t)[1..] == t
  {
  }

  lemma {:induction false} WordReadsBack(v: Json, rest: string)
    requires v.Null? || v.Bool?
    ensures ReadValue(Render(v) + rest) == Some((v, rest))
  {
    var t := Render(v) + rest;
    assert SkipSpace(t) == t;
    assert t[|Render(v)|..] == rest;
  }

  lemma {:induction false} ReadsAsString(inside: string, s: string, rest: string)
    requires ReadChars(inside) == Some((s, rest))
    ensures ReadValue("\"" + inside) == Some((Str(s), rest))
  {
    ReadsPast('\"', inside);
  }

  lemma {:induction false} ReadsAsArray(inside: string)
    ensures ReadValue("[" + inside) == ReadArray(inside)
  {
    ReadsPast('[', inside);
  }

  lemma {:induction false} ReadsAsObject(inside: string)
    ensures ReadValue("{" + inside) == ReadObject(inside)
  {
    ReadsPast('{', inside);
  }

  lemma {:induction false} ReadsAsEmpty(rest: string)
    ensures ReadArray("]" + rest) == Some((Arr([]), rest))
    ensures ReadObject("}" + rest) == Some((Obj([]), rest))
  {
    ReadsPast(']', rest);
    ReadsPast('}', rest);
  }

  lemma {:induction false} ReadsAsFilled(t: string)
    requires Starts(t)
    ensures ReadArray(t) == var r := ReadItems(t); if r == None then None else Some((Arr(r.value.0), r.value.1))
    ensures ReadObject(t) == var r := ReadMembers(t); if r == None then None else Some((Obj(r.value.0), r.value.1))
  {
    assert SkipSpace(t) == t;
  }

  /** The value comes back and the reader stops where the printer did. */
  lemma {:induction false} ValueReadsBack(v: Json, rest: string)
    requires Printable(v) && Follows(rest)
    ensures ReadValue(RenderTo(v, rest)) == Some((v, rest))
    decreases v, 1
  {
    match v
    case Number(m, e) =>
      NumberReadsBack(m, e, rest);
      NumberStarts(m, e);
      ReadsAsNumber(Render(v) + rest);
    case Str(s) =>
      StringReadsBack(s, rest);
      ReadsAsString(EscapeTo(s, "\"" + rest), s, rest);
    case Arr(items) =>
      ReadsAsArray(ItemsTo(items, "]" + rest));
      if items == [] {
        ReadsAsEmpty(rest);
      } else {
        ItemsReadBack(items, rest);
      }
    case Obj(members) =>
      ReadsAsObject(MembersTo(members, "}" + rest));
      if members == [] {
        ReadsAsEmpty(rest);
      } else {
        MembersReadBack(members, rest);
        FilledObjectReads(members, rest);
      }
    case _ => WordReadsBack(v, rest);
  }

  lemma {:induction false} ItemsReadBack(items: seq<Json>, rest: string)
    requires items != [] && forall i :: 0 <= i < |items| ==> Printable(items[i])
    ensures ReadItems(ItemsTo(items, "]" + rest)) == Some((items, rest))
    ensures ReadArray(ItemsTo(items, "]" + rest)) == Some((Arr(items), rest))
    decreases items, 0
  {
    var t := ItemsTo(items, "]" + rest);
    if |items| > 1 {
      var more := ItemsTo(items[1..], "]" + rest);
      ValueReadsBack(items[0], "," + more);
      ItemsReadBack(items[1..], rest);
      ItemThenMore(t, items[0], more, items[1..], rest);
      assert [items[0]] + items[1..] == items;
      RenderStarts(items[0], "," + more);
    } else {
      ValueReadsBack(items[0], "]" + rest);
      ItemThenEnd(t, items[0], rest);
      assert [items[0]] == items;
      RenderStarts(items[0], "]" + rest);
    }
    ReadsAsFilled(t);
  }

  lemma {:induction false} ItemThenMore(t: string, v: Json, more: string, vs: seq<Json>, rest: string)
    requires ReadValue(t) == Some((v, "," + more)) && ReadItems(more) == Some((vs, rest))
    ensures ReadItems(t) == Some(([v] + vs, rest))
  {
    ReadsPast(',', more);
  }

  lemma {:induction false} ItemThenEnd(t: string, v: Json, rest: string)
    requires ReadValue(t) == Some((v, "]" + rest))
    ensures ReadItems(t) == Some(([v], rest))
  {
    ReadsPast(']', rest);
  }

  lemma {:induction false} MemberFromParts(inside: string, key: string, value: string, v: Json, rest: string)
    requires ReadChars(inside) == Some((key, ":" + value)) && ReadValue(value) == Some((v, rest))
    ensures ReadMember("\"" + inside) == Some((Member(key, v), rest))
  {
    ReadsPast('\"', inside);
    ReadsPast(':', value);
  }

  lemma {:induction false} MemberReadsBack(m: Member, rest: string)
    requires Printable(m.value) && Follows(rest)
    ensures ReadMember(MemberTo(m, rest)) == Some((m, rest))
    decreases m, 2
  {
    var value := RenderTo(m.value, rest);
    StringReadsBack(m.key, ":" + value);
    ValueReadsBack(m.value, rest);
    MemberFromParts(EscapeTo(m.key, "\"" + (":" + value)), m.key, value, m.value, rest);
  }

  lemma {:induction false} MembersReadBack(members: seq<Member>, rest: string)
    requires members != [] && forall i :: 0 <= i < |members| ==> Printable(members[i].value)
    ensures ReadMembers(MembersTo(members, "}" + rest)) == Some((members, rest))
    decreases members, 0
  {
    var t := MembersTo(members, "}" + rest);
    if |members| > 1 {
      var more := MembersTo(members[1..], "}" + rest);
      MemberReadsBack(members[0], "," + more);
      MembersReadBack(members[1..], rest);
      MemberThenMore(t, members[0], more, members[1..], rest);
      assert [members[0]] + members[1..] == members;
    } else {
      MemberReadsBack(members[0], "}" + rest);
      MemberThenEnd(t, members[0], rest);
      assert [members[0]] == members;
    }
  }

  lemma {:induction false} FilledObjectReads(members: seq<Member>, rest: string)
    requires members != [] && ReadMembers(MembersTo(members, "}" + rest)) == Some((members, rest))
    ensures ReadObject(MembersTo(members, "}" + rest)) == Some((Obj(members), rest))
  {
    assert MembersTo(members, "}" + rest)[0] == '\"';
    ReadsAsFilled(MembersTo(members, "}" + rest));
  }

  lemma {:induction false} MemberThenMore(t: string, m: Member, more: string, ms: seq<Member>, rest: string)
    requires ReadMember(t) == Some((m, "," + more)) && ReadMembers(more) == Some((ms, rest))
    ensures ReadMembers(t) == Some(([m] + ms, rest))
  {
    ReadsPast(',', more);
  }

  lemma {:induction false} MemberThenEnd(t: string, m: Member, rest: string)
    requires ReadMember(t) == Some((m, "}" + rest))
    ensures ReadMembers(t) == Some(([m], rest))
  {
    ReadsPast('}', rest);
  }

  /** Every printable tree, at any depth, is what a JSON reader makes of its text. */
  lemma {:induction false} RenderThenParse(v: Json)
    requires Printable(v)
    ensures Parse(Render(v)) == Some(v)
  {
    ValueReadsBack(v, "");
    RenderToAppends(v, "");
    assert Render(v) + "" == Render(v);
  }

  // ---- Looking a member up

  /** Every value an object holds under a name, in order; a well-formed reader expects at most one. */
  function Under(v: Json, name: string): seq<Json> {
    if v.Obj? then Named(v.members, name) else []
  }

  function Named(members: seq<Member>, name: string): seq<Json> {
    if members == [] then []
    else (if members[0].key == name then [members[0].value] else []) + Named(members[1..], name)
  }

  predicate NamesDiffer(members: seq<Member>) {
    forall i, j :: 0 <= i < j < |members| ==> members[i].key != members[j].key
  }

  /** Nothing is found under a name that no member has. */
  lemma {:induction false} NoneNamed(members: seq<Member>, name: string)
    requires forall i :: 0 <= i < |members| ==> members[i].key != name
    ensures Named(members, name) == []
    decreases |members|
  {
    if members != [] {
      NoneNamed(members[1..], name);
    }
  }

  /** Where no two members share a name, exactly the value of one is found under its name. */
  lemma {:induction false} OneNamed(members: seq<Member>, i: nat)
    requires NamesDiffer(members) && i < |members|
    ensures Named(members, members[i].key) == [members[i].value]
    decreases |members|
  {
    if i == 0 {
      NoneNamed(members[1..], members[0].key);
    } else {
      OneNamed(members[1..], i - 1);
    }
  }
}
