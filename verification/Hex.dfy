/** Lowercase hexadecimal ids: trace, span and event ids are random bytes printed this way. */
module Hex {
  import opened Prelude

  predicate IsHex(c: char) {
    '0' <= c <= '9' || 'a' <= c <= 'f'
  }

  predicate IsHexRun(t: string) {
    forall i :: 0 <= i < |t| ==> IsHex(t[i])
  }

  function DigitValue(c: char): (d: nat)
    requires IsHex(c)
    ensures d < 16
  {
    if c <= '9' then c as int - '0' as int else c as int - 'a' as int + 10
  }

  /** The d-th of "0123456789abcdef". */
  function HexDigit(d: nat): (c: char)
    requires d < 16
    ensures IsHex(c) && DigitValue(c) == d && (c == '0' <==> d == 0)
  {
    if d < 10 then '0' + d as char else 'a' + (d - 10) as char
  }

  function Text(bytes: Bytes): (t: string)
    ensures |t| == 2 * |bytes| && IsHexRun(t)
  {
    if bytes == [] then ""
    else
      var last := bytes[|bytes| - 1];
      Text(bytes[..|bytes| - 1]) + [HexDigit(last / 16), HexDigit(last % 16)]
  }

  method Encode(bytes: Bytes) returns (t: string)
    ensures t == Text(bytes)
  {
    t := "";
    for i := 0 to |bytes|
      invariant t == Text(bytes[..i])
    {
      assert bytes[..i + 1][..i] == bytes[..i];
      t := t + [HexDigit(bytes[i] / 16), HexDigit(bytes[i] % 16)];
    }
    assert bytes[..|bytes|] == bytes;
  }

  /** Two digits an octet, each in its place. */
  lemma {:induction false} TextAt(bytes: Bytes, i: nat)
    requires i < |bytes|
    ensures Text(bytes)[2 * i] == HexDigit(bytes[i] / 16) && Text(bytes)[2 * i + 1] == HexDigit(bytes[i] % 16)
    decreases |bytes|
  {
    if i < |bytes| - 1 {
      TextAt(bytes[..|bytes| - 1], i);
    }
  }

  function Octet(high: char, low: char): Byte
    requires IsHex(high) && IsHex(low)
  {
    DigitValue(high) * 16 + DigitValue(low)
  }

  function Decode(t: string, n: nat): (bytes: Bytes)
    requires IsHexRun(t) && |t| == 2 * n
    ensures |bytes| == n
  {
    if n == 0 then [] else Decode(t[..2 * n - 2], n - 1) + [Octet(t[2 * n - 2], t[2 * n - 1])]
  }

  lemma {:induction false} OctetOfDigits(octet: Byte)
    ensures Octet(HexDigit(octet / 16), HexDigit(octet % 16)) == octet
  {
  }

  lemma {:induction false} DecodeOneMore(t: string, n: nat, octet: Byte)
    requires IsHexRun(t) && |t| == 2 * n
    ensures IsHexRun(t + [HexDigit(octet / 16), HexDigit(octet % 16)])
    ensures Decode(t + [HexDigit(octet / 16), HexDigit(octet % 16)], n + 1) == Decode(t, n) + [octet]
  {
    var more := t + [HexDigit(octet / 16), HexDigit(octet % 16)];
    assert more[..2 * (n + 1) - 2] == t;
    OctetOfDigits(octet);
  }

  /** An id determines the bytes it was printed from. */
  lemma {:induction false} DecodeText(bytes: Bytes)
    ensures Decode(Text(bytes), |bytes|) == bytes
    decreases |bytes|
  {
    if bytes != [] {
      var front, last := bytes[..|bytes| - 1], bytes[|bytes| - 1];
      DecodeText(front);
      DecodeOneMore(Text(front), |front|, last);
      assert front + [last] == bytes;
    }
  }

  predicate AllZero(t: string) {
    forall i :: 0 <= i < |t| ==> t[i] == '0'
  }

  predicate ZeroBytes(bytes: Bytes) {
    forall i :: 0 <= i < |bytes| ==> bytes[i] == 0
  }

  lemma {:induction false} ZeroSnoc(t: string, high: char, low: char)
    ensures AllZero(t + [high, low]) <==> AllZero(t) && high == '0' && low == '0'
  {
    var u := t + [high, low];
    assert forall i :: 0 <= i < |t| ==> u[i] == t[i];
    assert u[|t|] == high && u[|t| + 1] == low;
  }

  /** The all-zero id is printed from all-zero bytes and from nothing else. */
  lemma {:induction false} AllZeroText(bytes: Bytes)
    ensures AllZero(Text(bytes)) <==> ZeroBytes(bytes)
    decreases |bytes|
  {
    if bytes != [] {
      var front, last := bytes[..|bytes| - 1], bytes[|bytes| - 1];
      AllZeroText(front);
      ZeroSnoc(Text(front), HexDigit(last / 16), HexDigit(last % 16));
      assert Text(bytes) == Text(front) + [HexDigit(last / 16), HexDigit(last % 16)];
      assert last == 0 <==> last / 16 == 0 && last % 16 == 0;
      assert bytes == front + [last];
    }
  }
}
