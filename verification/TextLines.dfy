/** Cutting text: at a character, and at newlines, as a host reads an envelope or a serial port. */
module TextLines {

  /** Where c first occurs, or the length. */
  function IndexOf(t: string, c: char): (i: nat)
    ensures i <= |t| && (i < |t| ==> t[i] == c) && forall k :: 0 <= k < i ==> t[k] != c
  {
    if t == "" || t[0] == c then 0 else 1 + IndexOf(t[1..], c)
  }

  /** Every answer with IndexOf's properties is IndexOf's. */
  lemma {:induction false} IndexIs(t: string, c: char, i: nat)
    requires i <= |t| && (i < |t| ==> t[i] == c) && forall k :: 0 <= k < i ==> t[k] != c
    ensures IndexOf(t, c) == i
  {
  }

  method Find(t: string, c: char) returns (i: nat)
    ensures i == IndexOf(t, c)
  {
    i := 0;
    while i < |t| && t[i] != c
      invariant i <= |t| && forall k :: 0 <= k < i ==> t[k] != c
    {
      i := i + 1;
    }
    IndexIs(t, c, i);
  }

  predicate NoNewline(t: string) {
    forall i :: 0 <= i < |t| ==> t[i] != '\n'
  }

  /** The lines of a text; what follows the last newline is the last of them. */
  function Lines(t: string): (lines: seq<string>)
    ensures |lines| > 0
  {
    if t == "" then [""]
    else
      var rest := Lines(t[1..]);
      if t[0] == '\n' then [""] + rest else [[t[0]] + rest[0]] + rest[1..]
  }

  lemma {:induction false} FirstLine(line: string, rest: string)
    requires NoNewline(line)
    ensures Lines(line + ("\n" + rest)) == [line] + Lines(rest)
    decreases |line|
  {
    var t := line + ("\n" + rest);
    if line == "" {
      assert t == "\n" + rest && t[1..] == rest;
    } else {
      assert t[1..] == line[1..] + ("\n" + rest);
      FirstLine(line[1..], rest);
      assert [line[0]] + line[1..] == line;
    }
  }

  /** Two lists of lines end to end: the last of the first and the first of the second are one line. */
  function Glue(a: seq<string>, b: seq<string>): seq<string>
    requires |a| > 0 && |b| > 0
  {
    a[..|a| - 1] + ([a[|a| - 1] + b[0]] + b[1..])
  }

  function Prepend(c: char, lines: seq<string>): seq<string>
    requires |lines| > 0
  {
    if c == '\n' then [""] + lines else [[c] + lines[0]] + lines[1..]
  }

  lemma {:induction false} PrependGlue(c: char, a: seq<string>, b: seq<string>)
    requires |a| > 0 && |b| > 0
    ensures Prepend(c, Glue(a, b)) == Glue(Prepend(c, a), b)
  {
    if c != '\n' && |a| == 1 {
      assert [c] + (a[0] + b[0]) == ([c] + a[0]) + b[0];
    }
  }

  /** More text continues the last line and adds lines after it. */
  lemma {:induction false} LinesAppend(a: string, b: string)
    ensures Lines(a + b) == Glue(Lines(a), Lines(b))
    decreases |a|
  {
    if a == "" {
      assert a + b == b && "" + Lines(b)[0] == Lines(b)[0];
    } else {
      assert (a + b)[1..] == a[1..] + b;
      LinesAppend(a[1..], b);
      PrependGlue(a[0], Lines(a[1..]), Lines(b));
    }
  }

  lemma {:induction false} SingleLine(t: string)
    requires NoNewline(t)
    ensures Lines(t) == [t]
    decreases |t|
  {
    if t != "" {
      SingleLine(t[1..]);
      assert [t[0]] + t[1..] == t;
    }
  }

  lemma {:induction false} LinesHaveNoNewline(t: string)
    ensures forall i :: 0 <= i < |Lines(t)| ==> NoNewline(Lines(t)[i])
  {
    if t != "" {
      LinesHaveNoNewline(t[1..]);
      var rest := Lines(t[1..]);
      assert NoNewline(rest[0]);
    }
  }

  lemma {:induction false} GlueLast(a: seq<string>, b: seq<string>, last: string)
    requires |a| > 0 && |b| > 0 && a[|a| - 1] == last
    ensures Glue(a, b) == a[..|a| - 1] + Glue([last], b)
  {
    assert [last][..0] == [];
  }

  lemma {:induction false} OpenLine(a: string, last: string, b: string)
    requires last == Lines(a)[|Lines(a)| - 1]
    ensures Lines(last + b) == Glue([last], Lines(b))
  {
    LinesHaveNoNewline(a);
    SingleLine(last);
    LinesAppend(last, b);
  }

  /** The open last line is all that later text depends on. */
  lemma {:induction false} LinesResume(a: string, b: string)
    ensures var la := Lines(a); Lines(a + b) == la[..|la| - 1] + Lines(la[|la| - 1] + b)
  {
    var la := Lines(a);
    LinesAppend(a, b);
    OpenLine(a, la[|la| - 1], b);
    GlueLast(la, Lines(b), la[|la| - 1]);
  }
}
