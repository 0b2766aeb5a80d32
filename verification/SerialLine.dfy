/**
 The serial link: one request a line, four base64 fields, written piecewise by the device and cut
 back apart by the host script.
 */
module SerialLine {
  import opened Prelude
  import opened Base64
  import opened TextLines
  import Dsn

  const REQUEST_PREFIX: string := "@SENTRY-RELAY/1 "

  const PIECE_BYTES: nat := 48

  /** The field and the space that ends it. */
  function Field(data: Bytes): string {
    Encode(data) + " "
  }

  /** The request line without its newline. */
  function RequestLine(url: Bytes, auth: Bytes, contentType: Bytes, body: Bytes): string {
    REQUEST_PREFIX + (Field(url) + (Field(auth) + (Field(contentType) + Field(body))))
  }

  // ---- The device

  class Stream {
    var sent: string

    constructor ()
      ensures sent == ""
    {
      sent := "";
    }

    method Print(t: string)
      modifies this
      ensures sent == old(sent) + t
    {
      sent := sent + t;
    }
  }

  method WritePiece(stream: Stream, encoded: array<char>, piece: Bytes)
    requires |piece| <= PIECE_BYTES && encoded.Length == 65
    modifies stream, encoded
    ensures stream.sent == old(stream.sent) + Encode(piece)
  {
    var n := EncodeInto(encoded, piece);
    stream.Print(encoded[..n]);
  }

  lemma {:induction false} NextPiece(was: string, data: Bytes, pieces: nat, to: nat)
    requires PIECE_BYTES * pieces <= to <= |data|
    ensures (was + Encode(data[..PIECE_BYTES * pieces])) + Encode(data[PIECE_BYTES * pieces..to]) == was + Encode(data[..to])
  {
    var from := PIECE_BYTES * pieces;
    assert from % 3 == 0;
    assert data[..from] + data[from..to] == data[..to];
    EncodeAppend(data[..from], data[from..to]);
  }

  lemma {:induction false} EndField(was: string, data: Bytes)
    ensures (was + Encode(data)) + " " == was + Field(data)
  {
  }

  /** Encode in pieces of 48 octets, so that padding can only end the last one. */
  method WriteField(stream: Stream, data: Bytes)
    modifies stream
    ensures stream.sent == old(stream.sent) + Field(data)
  {
    var encoded := new char[65];
    ghost var was := stream.sent;
    assert was + Encode(data[..0]) == was;
    ghost var done: nat, pieces: nat := 0, 0;
    var offset: nat := 0;
    while offset < |data|
      invariant offset == PIECE_BYTES * pieces && fresh(encoded)
      invariant done == (if offset < |data| then offset else |data|)
      invariant stream.sent == was + Encode(data[..done])
      decreases |data| - offset
    {
      var take := |data| - offset;
      if take > PIECE_BYTES {
        take := PIECE_BYTES;
      }
      NextPiece(was, data, pieces, offset + take);
      WritePiece(stream, encoded, data[offset..offset + take]);
      done, pieces := offset + take, pieces + 1;
      offset := offset + PIECE_BYTES;
    }
    assert data[..done] == data;
    EndField(was, data);
    stream.Print(" ");
  }

  const DEFAULT_CONTENT_TYPE: Bytes := [
    97, 112, 112, 108, 105, 99, 97, 116, 105, 111, 110, 47, 120, 45, 115, 101, 110, 116, 114, 121, 45, 101, 110, 118, 101, 108, 111, 112, 101]

  const MAX_ENVELOPE_BYTES: nat := 4096

  /** Octets as the characters a DSN is made of. */
  function TextOf(data: Bytes): string {
    seq(|data|, i requires 0 <= i < |data| => data[i] as char)
  }

  /** A request is printed if its body has a size it can have and its URL names the DSN's host. */
  predicate Printed(dsn: Option<Dsn.Dsn>, url: Bytes, body: Bytes) {
    0 < |body| <= MAX_ENVELOPE_BYTES && dsn.Some? && Dsn.HostMatches(TextOf(url), dsn.value.host)
  }

  method SendRequest(stream: Stream, dsn: Option<Dsn.Dsn>, url: Bytes, auth: Option<Bytes>, contentType: Option<Bytes>, body: Bytes)
    returns (sent: bool)
    modifies stream
    ensures sent == Printed(dsn, url, body)
    ensures stream.sent == old(stream.sent) + if !sent then "" else
      RequestLine(url, if auth.Some? then auth.value else [], if contentType.Some? then contentType.value else DEFAULT_CONTENT_TYPE, body) + "\n"
  {
    var matches := false;
    if dsn.Some? {
      matches := Dsn.UrlHostMatches(TextOf(url), dsn.value.host);
    }
    if |body| == 0 || |body| > MAX_ENVELOPE_BYTES || !matches {
      assert stream.sent == old(stream.sent) + "";
      return false;
    }
    PrintRequest(stream, url, auth, contentType, body);
    return true;
  }

  method PrintRequest(stream: Stream, url: Bytes, auth: Option<Bytes>, contentType: Option<Bytes>, body: Bytes)
    modifies stream
    ensures stream.sent == old(stream.sent)
      + (RequestLine(url, if auth.Some? then auth.value else [], if contentType.Some? then contentType.value else DEFAULT_CONTENT_TYPE, body) + "\n")
  {
    var a := if auth.Some? then auth.value else [];
    var c := if contentType.Some? then contentType.value else DEFAULT_CONTENT_TYPE;
    stream.Print(REQUEST_PREFIX);
    WriteField(stream, url);
    WriteField(stream, a);
    WriteField(stream, c);
    WriteField(stream, body);
    stream.Print("\n");
    RegroupFields(old(stream.sent), REQUEST_PREFIX, Field(url), Field(a), Field(c), Field(body), "\n");
  }

  lemma {:induction false} RegroupFields(was: string, prefix: string, a: string, b: string, c: string, d: string, nl: string)
    ensures was + prefix + a + b + c + d + nl == was + (prefix + (a + (b + (c + d))) + nl)
  {
  }

  // ---- The host

  /** What Python's `str.split()` takes for whitespace, below 256. */
  predicate IsSpace(c: char) {
    c == ' ' || '\t' <= c <= '\r' || '\U{1c}' <= c <= '\U{1f}' || c == '\U{85}' || c == '\U{a0}'
  }

  function WordLength(t: string): (n: nat)
    ensures n <= |t| && forall i :: 0 <= i < n ==> !IsSpace(t[i])
    ensures t != "" && !IsSpace(t[0]) ==> n > 0
  {
    if t == "" || IsSpace(t[0]) then 0 else 1 + WordLength(t[1..])
  }

  /** The maximal runs of non-whitespace. */
  function Split(t: string): seq<string>
    decreases |t|
  {
    if t == "" then []
    else if IsSpace(t[0]) then Split(t[1..])
    else [t[..WordLength(t)]] + Split(t[WordLength(t)..])
  }

  datatype Request = Request(url: Bytes, auth: Bytes, contentType: Bytes, body: Bytes)

  /** What `handle_request` makes of a line: nothing, unless there are exactly four valid fields. */
  function ReadRequest(line: string): Option<Request> {
    if !(REQUEST_PREFIX <= line) then None
    else
      var fields := Split(line[|REQUEST_PREFIX|..]);
      if |fields| != 4 then None
      else
        var u, a, c, b := Decode(fields[0]), Decode(fields[1]), Decode(fields[2]), Decode(fields[3]);
        if u == None || a == None || c == None || b == None then None
        else Some(Request(u.value, a.value, c.value, b.value))
  }

  lemma {:induction false} WordStops(word: string, rest: string)
    requires forall i :: 0 <= i < |word| ==> !IsSpace(word[i])
    requires rest != "" && IsSpace(rest[0])
    ensures WordLength(word + rest) == |word|
    decreases |word|
  {
    if word == "" {
      assert word + rest == rest;
    } else {
      assert (word + rest)[1..] == word[1..] + rest;
      WordStops(word[1..], rest);
    }
  }

  lemma {:induction false} NoSpaceInAlphabet(c: char)
    requires InAlphabet(c)
    ensures !IsSpace(c) && c != '\n' && c != '\r'
  {
  }

  lemma {:induction false} FieldHasNoSpace(data: Bytes)
    ensures forall i :: 0 <= i < |Encode(data)| ==> !IsSpace(Encode(data)[i])
    ensures NoNewline(Field(data))
  {
    EncodeInAlphabet(data);
    forall i | 0 <= i < |Encode(data)|
      ensures !IsSpace(Encode(data)[i]) && Encode(data)[i] != '\n'
    {
      NoSpaceInAlphabet(Encode(data)[i]);
    }
  }

  /** An empty field vanishes in the split; any other comes out as one word. */
  lemma {:induction false} SplitField(data: Bytes, rest: string)
    ensures Split(Field(data) + rest) == (if data == [] then [] else [Encode(data)]) + Split(rest)
  {
    var t := Field(data) + rest;
    var tail := " " + rest;
    assert t == Encode(data) + tail;
    assert tail[1..] == rest;
    if data == [] {
      assert t == tail;
    } else {
      FieldHasNoSpace(data);
      WordStops(Encode(data), tail);
      assert t[0] == Encode(data)[0];
      assert t[..|Encode(data)|] == Encode(data) && t[|Encode(data)|..] == tail;
    }
  }

  function Words(fields: seq<Bytes>): seq<string> {
    if fields == [] then [] else (if fields[0] == [] then [] else [Encode(fields[0])]) + Words(fields[1..])
  }

  lemma {:induction false} SplitRequest(u: Bytes, a: Bytes, c: Bytes, b: Bytes)
    ensures Split(Field(u) + (Field(a) + (Field(c) + Field(b)))) == Words([u, a, c, b])
  {
    assert Field(b) + "" == Field(b);
    SplitField(b, "");
    SplitField(c, Field(b));
    SplitField(a, Field(c) + Field(b));
    SplitField(u, Field(a) + (Field(c) + Field(b)));
    assert [u, a, c, b][1..] == [a, c, b] && [a, c, b][1..] == [c, b] && [c, b][1..] == [b] && [b][1..] == [];
    assert Words([b]) == (if b == [] then [] else [Encode(b)]) + Words([]);
    assert Words([c, b]) == (if c == [] then [] else [Encode(c)]) + Words([b]);
    assert Words([a, c, b]) == (if a == [] then [] else [Encode(a)]) + Words([c, b]);
  }

  lemma {:induction false} FourWords(u: Bytes, a: Bytes, c: Bytes, b: Bytes)
    ensures |Words([u, a, c, b])| == 4 <==> u != [] && a != [] && c != [] && b != []
    ensures |Words([u, a, c, b])| == 4 ==> Words([u, a, c, b]) == [Encode(u), Encode(a), Encode(c), Encode(b)]
  {
    assert [u, a, c, b][1..] == [a, c, b] && [a, c, b][1..] == [c, b] && [c, b][1..] == [b] && [b][1..] == [];
    assert Words([b]) == (if b == [] then [] else [Encode(b)]) + Words([]);
    assert Words([c, b]) == (if c == [] then [] else [Encode(c)]) + Words([b]);
    assert Words([a, c, b]) == (if a == [] then [] else [Encode(a)]) + Words([c, b]);
  }

  /** The host gets the four fields back exactly when none of them is empty. */
  lemma {:induction false} HostReadsRequest(u: Bytes, a: Bytes, c: Bytes, b: Bytes)
    ensures ReadRequest(RequestLine(u, a, c, b)) ==
      if u != [] && a != [] && c != [] && b != [] then Some(Request(u, a, c, b)) else None
  {
    var fields := Field(u) + (Field(a) + (Field(c) + Field(b)));
    assert RequestLine(u, a, c, b)[|REQUEST_PREFIX|..] == fields;
    assert RequestLine(u, a, c, b)[..|REQUEST_PREFIX|] == REQUEST_PREFIX;
    SplitRequest(u, a, c, b);
    FourWords(u, a, c, b);
    DecodeEncode(u);
    DecodeEncode(a);
    DecodeEncode(c);
    DecodeEncode(b);
  }

  // ---- The host's line buffer

  const MAX_LINE_BYTES: nat := 262144

  /** Without its trailing carriage returns. */
  function Stripped(line: string): (r: string)
    ensures r <= line
  {
    if line != "" && line[|line| - 1] == '\r' then Stripped(line[..|line| - 1]) else line
  }

  /** However many carriage returns end a line, they go, and nothing else does. */
  lemma {:induction false} CarriageReturnsGo(line: string, ending: string)
    requires line != "" ==> line[|line| - 1] != '\r'
    requires forall i :: 0 <= i < |ending| ==> ending[i] == '\r'
    ensures Stripped(line + ending) == line
    decreases |ending|
  {
    var t := line + ending;
    if ending == "" {
      assert t == line;
    } else {
      assert t[..|t| - 1] == line + ending[..|ending| - 1];
      CarriageReturnsGo(line, ending[..|ending| - 1]);
    }
  }

  method Strip(line: string) returns (r: string)
    ensures r == Stripped(line)
  {
    var len := |line|;
    assert line[..len] == line;
    while len > 0 && line[len - 1] == '\r'
      invariant len <= |line| && Stripped(line[..len]) == Stripped(line)
    {
      assert line[..len][..len - 1] == line[..len - 1];
      len := len - 1;
    }
    r := line[..len];
  }

  function StripAll(lines: seq<string>): (r: seq<string>)
    ensures |r| == |lines|
  {
    seq(|lines|, i requires 0 <= i < |lines| => Stripped(lines[i]))
  }

  lemma {:induction false} StripSnoc(lines: seq<string>, line: string)
    ensures StripAll(lines + [line]) == StripAll(lines) + [Stripped(line)]
  {
  }

  /** The loop of `main`: whatever arrives is appended, complete lines are taken out. */
  class LineBuffer {
    var buffer: string

    constructor ()
      ensures buffer == ""
    {
      buffer := "";
    }

    method Feed(chunk: string) returns (lines: seq<string>)
      modifies this
      ensures var all := Lines(old(buffer) + chunk);
        && lines == StripAll(all[..|all| - 1])
        && buffer == if |all[|all| - 1]| > MAX_LINE_BYTES then "" else all[|all| - 1]
    {
      var rest := buffer + chunk;
      ghost var all := Lines(rest);
      ghost var raw: seq<string> := [];
      lines := [];
      var at: nat := Find(rest, '\n');
      while at < |rest|
        invariant all == raw + Lines(rest) && lines == StripAll(raw)
        invariant at <= |rest| && NoNewline(rest[..at]) && (at < |rest| ==> rest[at] == '\n')
        decreases |rest|
      {
        TakeLine(raw, rest, at);
        var line := Strip(rest[..at]);
        StripSnoc(raw, rest[..at]);
        raw := raw + [rest[..at]];
        lines := lines + [line];
        rest := rest[at + 1..];
        at := Find(rest, '\n');
      }
      assert rest[..at] == rest;
      SingleLine(rest);
      buffer := if |rest| > MAX_LINE_BYTES then "" else rest;
    }
  }

  lemma {:induction false} CutAt(t: string, at: nat)
    requires at < |t| && t[at] == '\n'
    ensures t == t[..at] + ("\n" + t[at + 1..])
  {
  }

  lemma {:induction false} RegroupLines(lines: seq<string>, line: string, more: seq<string>)
    ensures lines + ([line] + more) == (lines + [line]) + more
  {
  }

  lemma {:induction false} TakeLine(lines: seq<string>, t: string, at: nat)
    requires at < |t| && NoNewline(t[..at]) && t[at] == '\n'
    ensures lines + Lines(t) == (lines + [t[..at]]) + Lines(t[at + 1..])
  {
    CutAt(t, at);
    FirstLine(t[..at], t[at + 1..]);
    RegroupLines(lines, t[..at], Lines(t[at + 1..]));
  }

  // ---- Whole streams

  function Joined(chunks: seq<string>): string {
    if chunks == [] then "" else chunks[0] + Joined(chunks[1..])
  }

  /** All the lines a list of chunks yields, before they are stripped, and what stays in the buffer. */
  function FeedAll(buffer: string, chunks: seq<string>): (seq<string>, string)
    decreases |chunks|
  {
    if chunks == [] then ([], buffer)
    else
      var all := Lines(buffer + chunks[0]);
      var rest := all[|all| - 1];
      var later := FeedAll(if |rest| > MAX_LINE_BYTES then "" else rest, chunks[1..]);
      (all[..|all| - 1] + later.0, later.1)
  }

  /** No unfinished line outgrows the limit at the end of a read. */
  predicate NeverTooLong(buffer: string, chunks: seq<string>)
    decreases |chunks|
  {
    chunks == [] ||
    (var all := Lines(buffer + chunks[0]);
     |all[|all| - 1]| <= MAX_LINE_BYTES && NeverTooLong(all[|all| - 1], chunks[1..]))
  }

  lemma {:induction false} RegroupLater(front: seq<string>, later: seq<string>, last: string)
    ensures (front + later) + [last] == front + (later + [last])
  {
  }

  lemma {:induction false} FeedOnce(buffer: string, chunk: string, chunks: seq<string>)
    requires var all := Lines(buffer + chunk); |all[|all| - 1]| <= MAX_LINE_BYTES
    ensures var all := Lines(buffer + chunk);
      var later := FeedAll(all[|all| - 1], chunks);
      FeedAll(buffer, [chunk] + chunks) == (all[..|all| - 1] + later.0, later.1)
  {
    assert ([chunk] + chunks)[1..] == chunks;
  }

  ghost predicate CutAlike(buffer: string, chunks: seq<string>) {
    FeedAll(buffer, chunks).0 + [FeedAll(buffer, chunks).1] == Lines(buffer + Joined(chunks))
  }

  lemma {:induction false} JoinedOnce(buffer: string, chunk: string, rest: seq<string>)
    ensures buffer + Joined([chunk] + rest) == (buffer + chunk) + Joined(rest)
  {
    assert ([chunk] + rest)[1..] == rest;
    assert Joined([chunk] + rest) == chunk + Joined(rest);
  }

  lemma {:induction false} OneMoreChunk(buffer: string, chunk: string, rest: seq<string>)
    requires var all := Lines(buffer + chunk); |all[|all| - 1]| <= MAX_LINE_BYTES && CutAlike(all[|all| - 1], rest)
    ensures CutAlike(buffer, [chunk] + rest)
  {
    var all := Lines(buffer + chunk);
    var front, later := all[..|all| - 1], FeedAll(all[|all| - 1], rest);
    FeedOnce(buffer, chunk, rest);
    LinesResume(buffer + chunk, Joined(rest));
    JoinedOnce(buffer, chunk, rest);
    RegroupLater(front, later.0, later.1);
  }

  lemma {:induction false} NoChunks(buffer: string)
    requires NoNewline(buffer)
    ensures CutAlike(buffer, [])
  {
    assert buffer + "" == buffer;
    SingleLine(buffer);
  }

  lemma {:induction false} OpenLineIsLine(t: string)
    ensures NoNewline(Lines(t)[|Lines(t)| - 1])
  {
    LinesHaveNoNewline(t);
  }

  /** However the serial port cuts the stream into reads, the lines are the stream's lines. */
  lemma {:induction false} ChunksDoNotMatter(buffer: string, chunks: seq<string>)
    requires NoNewline(buffer) && NeverTooLong(buffer, chunks)
    ensures CutAlike(buffer, chunks)
    decreases |chunks|
  {
    if chunks == [] {
      NoChunks(buffer);
    } else {
      OpenLineIsLine(buffer + chunks[0]);
      ChunksDoNotMatter(Lines(buffer + chunks[0])[|Lines(buffer + chunks[0])| - 1], chunks[1..]);
      OneMoreChunk(buffer, chunks[0], chunks[1..]);
      assert chunks == [chunks[0]] + chunks[1..];
    }
  }

  lemma {:induction false} RequestIsOneLine(u: Bytes, a: Bytes, c: Bytes, b: Bytes)
    ensures NoNewline(RequestLine(u, a, c, b))
  {
    FieldHasNoSpace(u);
    FieldHasNoSpace(a);
    FieldHasNoSpace(c);
    FieldHasNoSpace(b);
  }

  /** A line that starts after a newline, or at the very start, is one of the lines. */
  lemma {:induction false} LineAmongLines(before: string, line: string, after: string)
    requires before == "" || before[|before| - 1] == '\n'
    requires NoNewline(line)
    ensures var k, all := |Lines(before)| - 1, Lines(before + (line + ("\n" + after)));
      k + 2 <= |all| && all[k] == line
  {
    FirstLine(line, after);
    LinesAppend(before, line + ("\n" + after));
    EndsOpen(before);
    assert "" + line == line;
  }

  /** A request ends in a space, and loses nothing at its end. */
  lemma {:induction false} RequestIsUnstripped(u: Bytes, a: Bytes, c: Bytes, b: Bytes)
    ensures Stripped(RequestLine(u, a, c, b)) == RequestLine(u, a, c, b)
  {
    var line := RequestLine(u, a, c, b);
    assert line[|line| - 1] == Field(b)[|Field(b)| - 1] == ' ';
  }

  lemma {:induction false} StrippedAt(read: seq<string>, open: string, k: nat, line: string)
    requires k + 2 <= |read + [open]| && (read + [open])[k] == line && Stripped(line) == line
    ensures k < |read| && StripAll(read)[k] == line
  {
  }

  /**
   From the device's print calls to the host's fields: output before and after, cut into reads at
   any points, does not disturb a request that starts a line.
   */
  lemma {:induction false} RequestArrives(before: string, u: Bytes, a: Bytes, c: Bytes, b: Bytes, after: string, chunks: seq<string>)
    requires before == "" || before[|before| - 1] == '\n'
    requires Joined(chunks) == before + (RequestLine(u, a, c, b) + ("\n" + after)) && NeverTooLong("", chunks)
    requires u != [] && a != [] && c != [] && b != []
    ensures var k, heard := |Lines(before)| - 1, StripAll(FeedAll("", chunks).0);
      k < |heard| && ReadRequest(heard[k]) == Some(Request(u, a, c, b))
  {
    HostReadsRequest(u, a, c, b);
    RequestIsHeard(before, u, a, c, b, after, chunks);
  }

  lemma {:induction false} RequestIsHeard(before: string, u: Bytes, a: Bytes, c: Bytes, b: Bytes, after: string, chunks: seq<string>)
    requires before == "" || before[|before| - 1] == '\n'
    requires Joined(chunks) == before + (RequestLine(u, a, c, b) + ("\n" + after)) && NeverTooLong("", chunks)
    ensures var k, heard := |Lines(before)| - 1, StripAll(FeedAll("", chunks).0);
      k < |heard| && heard[k] == RequestLine(u, a, c, b)
  {
    RequestIsOneLine(u, a, c, b);
    RequestIsUnstripped(u, a, c, b);
    LineIsHeard(before, RequestLine(u, a, c, b), after, chunks);
  }

  lemma {:induction false} LineIsHeard(before: string, line: string, after: string, chunks: seq<string>)
    requires before == "" || before[|before| - 1] == '\n'
    requires NoNewline(line) && Stripped(line) == line
    requires Joined(chunks) == before + (line + ("\n" + after)) && NeverTooLong("", chunks)
    ensures var k, heard := |Lines(before)| - 1, StripAll(FeedAll("", chunks).0);
      k < |heard| && heard[k] == line
  {
    ChunksDoNotMatter("", chunks);
    assert "" + Joined(chunks) == Joined(chunks);
    LineAmongLines(before, line, after);
    StrippedAt(FeedAll("", chunks).0, FeedAll("", chunks).1, |Lines(before)| - 1, line);
  }

  lemma {:induction false} EndsOpen(t: string)
    requires t == "" || t[|t| - 1] == '\n'
    ensures Lines(t)[|Lines(t)| - 1] == ""
    decreases |t|
  {
    if |t| > 1 {
      EndsOpen(t[1..]);
      assert |Lines(t[1..])| > 1 by {
        assert t == t[..|t| - 1] + ("\n" + "");
        assert t[1..] == t[1..|t| - 1] + ("\n" + "");
        LinesAppend(t[1..|t| - 1], "\n" + "");
        assert ("\n" + "")[1..] == "";
        assert Lines("\n" + "") == ["", ""];
      }
    } else if |t| == 1 {
      assert t[1..] == "";
    }
  }
}
