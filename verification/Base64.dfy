/** Standard base64 with padding, RFC 4648 section 4: the SDK's encoder and a decoder to undo it. */
module Base64 {
  import opened Prelude

  /** Six bits, or the padding that stands for none. */
  type Sextet = d: int | 0 <= d <= 64

  const PAD: Sextet := 64

  // ---- Octets and sextets

  /** Three octets as four sextets. */
  function Group(a: Byte, b: Byte, c: Byte): seq<Sextet> {
    [a / 4, a % 4 * 16 + b / 16, b % 16 * 4 + c / 64, c % 64]
  }

  /** One or two octets, zero extended and padded. */
  function Tail(rest: Bytes): seq<Sextet>
    requires 1 <= |rest| <= 2
  {
    if |rest| == 1 then [rest[0] / 4, rest[0] % 4 * 16, PAD, PAD]
    else [rest[0] / 4, rest[0] % 4 * 16 + rest[1] / 16, rest[1] % 16 * 4, PAD]
  }

  function Sextets(data: Bytes): (s: seq<Sextet>)
    ensures |s| == 4 * ((|data| + 2) / 3)
  {
    if |data| == 0 then []
    else if |data| < 3 then Tail(data)
    else Group(data[0], data[1], data[2]) + Sextets(data[3..])
  }

  function GroupOctets(p: Sextet, q: Sextet, r: Sextet, s: Sextet, last: bool): Option<Bytes> {
    if p == PAD || q == PAD then None
    else if last && r == PAD && s == PAD then Some([p * 4 + q / 16])
    else if r == PAD then None
    else if last && s == PAD then Some([p * 4 + q / 16, q % 16 * 16 + r / 4])
    else if s == PAD then None
    else Some([p * 4 + q / 16, q % 16 * 16 + r / 4, r % 4 * 64 + s])
  }

  /** Four sextets at a time; padding only at the very end. */
  function Octets(s: seq<Sextet>): Option<Bytes> {
    if |s| == 0 then Some([])
    else if |s| < 4 then None
    else
      var group := GroupOctets(s[0], s[1], s[2], s[3], |s| == 4);
      if group == None then None
      else
        var rest := Octets(s[4..]);
        if rest == None then None else Some(group.value + rest.value)
  }

  lemma {:induction false} OctetsOfSextets(data: Bytes)
    ensures Octets(Sextets(data)) == Some(data)
    decreases |data|
  {
    if 0 < |data| < 3 {
      TailReadsBack(data);
      assert Sextets(data)[4..] == [];
      assert data + [] == data;
    } else if |data| >= 3 {
      OctetsOfSextets(data[3..]);
      GroupFirst(data[0], data[1], data[2], Sextets(data[3..]), data[3..]);
      assert data == [data[0], data[1], data[2]] + data[3..];
    }
  }

  lemma {:induction false} GroupFirst(a: Byte, b: Byte, c: Byte, rest: seq<Sextet>, data: Bytes)
    requires Octets(rest) == Some(data)
    ensures Octets(Group(a, b, c) + rest) == Some([a, b, c] + data)
  {
    var s := Group(a, b, c) + rest;
    assert s[4..] == rest;
    GroupReadsBack(a, b, c, |s| == 4);
  }

  lemma {:induction false} TailReadsBack(data: Bytes)
    requires 1 <= |data| <= 2
    ensures var t := Tail(data); GroupOctets(t[0], t[1], t[2], t[3], true) == Some(data)
  {
    assert data == if |data| == 1 then [data[0]] else [data[0], data[1]];
  }

  lemma {:induction false} FirstOctet(a: Byte, b: Byte)
    ensures a / 4 * 4 + (a % 4 * 16 + b / 16) / 16 == a
  {
  }

  lemma {:induction false} SecondOctet(a: Byte, b: Byte, c: Byte)
    ensures (a % 4 * 16 + b / 16) % 16 * 16 + (b % 16 * 4 + c / 64) / 4 == b
  {
    var high, low, next := b / 16, b % 16, c / 64;
    assert high < 16 && next < 4;
    assert (a % 4 * 16 + high) % 16 == high;
    assert (low * 4 + next) / 4 == low;
  }

  lemma {:induction false} ThirdOctet(b: Byte, c: Byte)
    ensures (b % 16 * 4 + c / 64) % 4 * 64 + c % 64 == c
  {
  }

  lemma {:induction false} GroupReadsBack(a: Byte, b: Byte, c: Byte, last: bool)
    ensures var g := Group(a, b, c); GroupOctets(g[0], g[1], g[2], g[3], last) == Some([a, b, c])
  {
    FirstOctet(a, b);
    SecondOctet(a, b, c);
    ThirdOctet(b, c);
    assert a % 4 * 16 + b / 16 < 64 && b % 16 * 4 + c / 64 < 64;
  }

  lemma {:induction false} SextetsAppend(a: Bytes, b: Bytes)
    requires |a| % 3 == 0
    ensures Sextets(a + b) == Sextets(a) + Sextets(b)
    decreases |a|
  {
    if a == [] {
      assert a + b == b;
    } else {
      assert (a + b)[3..] == a[3..] + b;
      SextetsAppend(a[3..], b);
    }
  }

  // ---- Sextets and characters

  /** The d-th of "A..Za..z0..9+/", and '=' for padding. */
  function Symbol(d: Sextet): (c: char)
    ensures SymbolValue(c) == Some(d)
  {
    if d < 26 then 'A' + d as char
    else if d < 52 then 'a' + (d - 26) as char
    else if d < 62 then '0' + (d - 52) as char
    else if d == 62 then '+' else if d == 63 then '/' else '='
  }

  function SymbolValue(c: char): Option<Sextet> {
    if 'A' <= c <= 'Z' then Some(c as int - 'A' as int)
    else if 'a' <= c <= 'z' then Some(c as int - 'a' as int + 26)
    else if '0' <= c <= '9' then Some(c as int - '0' as int + 52)
    else if c == '+' then Some(62)
    else if c == '/' then Some(63)
    else if c == '=' then Some(PAD)
    else None
  }

  function Symbols(s: seq<Sextet>): (t: string)
    ensures |t| == |s|
  {
    seq(|s|, i requires 0 <= i < |s| => Symbol(s[i]))
  }

  function Values(t: string): Option<seq<Sextet>> {
    if t == "" then Some([])
    else
      var first, rest := SymbolValue(t[0]), Values(t[1..]);
      if first == None || rest == None then None else Some([first.value] + rest.value)
  }

  lemma {:induction false} ValuesOfSymbols(s: seq<Sextet>)
    ensures Values(Symbols(s)) == Some(s)
    decreases |s|
  {
    if s != [] {
      assert Symbols(s)[1..] == Symbols(s[1..]);
      ValuesOfSymbols(s[1..]);
      assert [s[0]] + s[1..] == s;
    }
  }

  // ---- The codec

  function Encode(data: Bytes): (t: string)
    ensures |t| == 4 * ((|data| + 2) / 3)
  {
    Symbols(Sextets(data))
  }

  function Decode(t: string): Option<Bytes> {
    var s := Values(t);
    if s == None then None else Octets(s.value)
  }

  /** Decoding undoes encoding, for every input. */
  lemma {:induction false} DecodeEncode(data: Bytes)
    ensures Decode(Encode(data)) == Some(data)
  {
    ValuesOfSymbols(Sextets(data));
    OctetsOfSextets(data);
  }

  /** Padding can only end an encoding, so pieces of whole groups concatenate. */
  lemma {:induction false} EncodeAppend(a: Bytes, b: Bytes)
    requires |a| % 3 == 0
    ensures Encode(a + b) == Encode(a) + Encode(b)
  {
    SextetsAppend(a, b);
  }

  predicate InAlphabet(c: char) {
    SymbolValue(c).Some?
  }

  lemma {:induction false} EncodeInAlphabet(data: Bytes)
    ensures forall i :: 0 <= i < |Encode(data)| ==> InAlphabet(Encode(data)[i])
  {
  }

  // ---- The encoder

  /** Three octets as one 24-bit word. */
  function Word(a: Byte, b: Byte, c: Byte): (word: nat)
    ensures word < 0x100_0000
  {
    a as int * 0x1_0000 + b as int * 0x100 + c as int
  }

  /** The word's sextets, by shifting and masking. */
  function Shifts(word: nat): seq<Sextet>
    requires word < 0x100_0000
  {
    [word / 0x4_0000 % 64, word / 0x1000 % 64, word / 64 % 64, word % 64]
  }

  lemma {:induction false} Mod64(q: nat, r: nat)
    requires r < 64
    ensures (64 * q + r) % 64 == r
  {
  }

  lemma {:induction false} UpperBits(a: Byte, b: Byte, c: Byte)
    ensures Word(a, b, c) / 0x1000 % 64 == a % 4 * 16 + b / 16
  {
    var q, r: int := a as int * 16 + b / 16, b as int % 16 * 256 + c;
    assert Word(a, b, c) == 0x1000 * q + r && 0 <= r < 0x1000;
    assert Word(a, b, c) / 0x1000 == q;
    assert q == 64 * (a / 4) + (a % 4 * 16 + b / 16);
    Mod64(a / 4, a % 4 * 16 + b / 16);
  }

  lemma {:induction false} LowerBits(a: Byte, b: Byte, c: Byte)
    ensures Word(a, b, c) / 64 % 64 == b % 16 * 4 + c / 64
  {
    var q := a as int * 1024 + b as int * 4 + c / 64;
    assert Word(a, b, c) == 64 * q + c % 64;
    assert Word(a, b, c) / 64 == q;
    assert q == 64 * (a as int * 16 + b / 16) + (b % 16 * 4 + c / 64);
    Mod64(a as int * 16 + b / 16, b % 16 * 4 + c / 64);
  }

  lemma {:induction false} TopBits(a: Byte, b: Byte, c: Byte)
    ensures Word(a, b, c) / 0x4_0000 % 64 == a / 4
  {
    var r := a as int % 4 * 0x1_0000 + b as int * 0x100 + c;
    assert Word(a, b, c) == 0x4_0000 * (a / 4) + r && 0 <= r < 0x4_0000;
    assert Word(a, b, c) / 0x4_0000 == a / 4;
    Mod64(0, a / 4);
  }

  lemma {:induction false} BottomBits(a: Byte, b: Byte, c: Byte)
    ensures Word(a, b, c) % 64 == c % 64
  {
    assert Word(a, b, c) == 64 * (a as int * 1024 + b as int * 4 + c / 64) + c % 64;
    Mod64(a as int * 1024 + b as int * 4 + c / 64, c % 64);
  }

  /** Shifting and masking cuts the word where the octets' groups are. */
  lemma {:induction false} ShiftsAreGroup(a: Byte, b: Byte, c: Byte)
    ensures Shifts(Word(a, b, c)) == Group(a, b, c)
  {
    TopBits(a, b, c);
    UpperBits(a, b, c);
    LowerBits(a, b, c);
    BottomBits(a, b, c);
    FourParts(Word(a, b, c), a, b, c);
  }

  lemma {:induction false} FourParts(w: nat, a: Byte, b: Byte, c: Byte)
    requires w < 0x100_0000
    requires w / 0x4_0000 % 64 == a / 4 && w / 0x1000 % 64 == a % 4 * 16 + b / 16
    requires w / 64 % 64 == b % 16 * 4 + c / 64 && w % 64 == c % 64
    ensures Shifts(w) == Group(a, b, c)
  {
  }

  method Put(out: array<char>, o: nat, s: seq<Sextet>)
    requires |s| == 4 && o + 4 <= out.Length
    modifies out
    ensures out[..o + 4] == old(out[..o]) + Symbols(s)
  {
    out[o] := Symbol(s[0]);
    out[o + 1] := Symbol(s[1]);
    out[o + 2] := Symbol(s[2]);
    out[o + 3] := Symbol(s[3]);
  }

  /**
   Encode into `out`, NUL terminated. Without room nothing but an empty string is written, and
   either way the length needed is returned.
   */
  method EncodeInto(out: array?<char>, data: Bytes) returns (needed: nat)
    modifies out
    ensures needed == |Encode(data)|
    ensures out != null && needed < out.Length ==> out[..needed] == Encode(data) && out[needed] == '\0'
    ensures out != null && 0 < out.Length <= needed ==> out[0] == '\0'
  {
    needed := 4 * ((|data| + 2) / 3);
    if out == null || out.Length == 0 {
      return;
    }
    if needed + 1 > out.Length {
      out[0] := '\0';
      return;
    }
    Fill(out, data);
    out[needed] := '\0';
    assert out[..needed] == Encode(data);
  }

  method Fill(out: array<char>, data: Bytes)
    requires |Encode(data)| <= out.Length
    modifies out
    ensures out[..|Encode(data)|] == Encode(data)
  {
    var o, i := 0, 0;
    while i + 3 <= |data|
      invariant i <= |data| && i % 3 == 0 && o == 4 * (i / 3)
      invariant out[..o] == Encode(data[..i])
    {
      GroupSnoc(data, i);
      Put(out, o, Shifts(Word(data[i], data[i + 1], data[i + 2])));
      o := o + 4;
      i := i + 3;
    }
    var remaining := |data| - i;
    TailSnoc(data, i);
    if remaining > 0 {
      var s := Shifts(Word(data[i], if remaining == 2 then data[i + 1] else 0, 0));
      Put(out, o, [s[0], s[1], if remaining == 2 then s[2] else PAD, PAD]);
    }
  }

  lemma {:induction false} GroupSnoc(data: Bytes, i: nat)
    requires i % 3 == 0 && i + 3 <= |data|
    ensures Encode(data[..i + 3]) == Encode(data[..i]) + Symbols(Shifts(Word(data[i], data[i + 1], data[i + 2])))
  {
    var group := [data[i], data[i + 1], data[i + 2]];
    assert data[..i + 3] == data[..i] + group;
    EncodeAppend(data[..i], group);
    assert group[3..] == [];
    assert Sextets(group) == Group(data[i], data[i + 1], data[i + 2]);
    ShiftsAreGroup(data[i], data[i + 1], data[i + 2]);
  }

  lemma {:induction false} TailSnoc(data: Bytes, i: nat)
    requires i % 3 == 0 && i <= |data| < i + 3
    ensures i == |data| ==> Encode(data[..i]) == Encode(data)
    ensures i < |data| ==>
      var s := Shifts(Word(data[i], if |data| - i == 2 then data[i + 1] else 0, 0));
      Encode(data) == Encode(data[..i]) + Symbols([s[0], s[1], if |data| - i == 2 then s[2] else PAD, PAD])
  {
    assert data == data[..i] + data[i..];
    EncodeAppend(data[..i], data[i..]);
    if i < |data| {
      ShiftsAreGroup(data[i], if |data| - i == 2 then data[i + 1] else 0, 0);
    } else {
      assert data[..i] == data;
    }
  }
}
