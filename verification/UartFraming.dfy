/** Framing of the UART byte stream into lines. A byte is a char; the stream is what the port
    still delivers before its next read error. */
module UartFraming {
  import opened Sequences

  /** `Line` keeps its newline and has lost its carriage returns. `Discarded` is the empty string
      returned when a read error cuts a line short, `Failed` the exception when nothing was read. */
  datatype ReadResult = Line(text: string) | Discarded | Failed

  function StripCr(s: string): string {
    if s == [] then []
    else (if s[0] == '\r' then [] else [s[0]]) + StripCr(s[1..])
  }

  predicate HasNewline(s: string) {
    '\n' in s
  }

  /** Position of the first newline. */
  function FirstNewline(s: string): (i: nat)
    requires HasNewline(s)
    ensures i < |s| && s[i] == '\n' && '\n' !in s[..i]
  {
    if s[0] == '\n' then 0
    else
      assert s == [s[0]] + s[1..];
      var i := 1 + FirstNewline(s[1..]);
      assert s[..i] == [s[0]] + s[1..][..i - 1];
      i
  }

  lemma FirstNewlineUnique(s: string, i: nat)
    requires i < |s| && s[i] == '\n' && '\n' !in s[..i]
    ensures HasNewline(s) && FirstNewline(s) == i
  {
    var j := FirstNewline(s);
    assert forall k :: 0 <= k < i ==> s[k] == s[..i][k] && s[k] != '\n';
    assert forall k :: 0 <= k < j ==> s[k] == s[..j][k] && s[k] != '\n';
  }

  function ReadOne(s: string): ReadResult {
    if HasNewline(s) then Line(StripCr(s[..FirstNewline(s) + 1]))
    else if StripCr(s) == [] then Failed
    else Discarded
  }

  function AfterRead(s: string): string {
    if HasNewline(s) then s[FirstNewline(s) + 1..] else []
  }

  lemma {:induction false} StripCrAppend(a: string, b: string)
    ensures StripCr(a + b) == StripCr(a) + StripCr(b)
  {
    if a == [] {
      assert a + b == b;
    } else {
      assert (a + b)[1..] == a[1..] + b;
      StripCrAppend(a[1..], b);
    }
  }

  lemma StripCrSnoc(a: string, c: char)
    ensures StripCr(a + [c]) == StripCr(a) + (if c == '\r' then [] else [c])
  {
    StripCrAppend(a, [c]);
    assert StripCr([c]) == if c == '\r' then [] else [c];
  }

  class UartReader {
    var pending: string

    constructor (stream: string)
      ensures pending == stream
    {
      pending := stream;
    }

    method ReadLine() returns (r: ReadResult)
      modifies this
      ensures r == ReadOne(old(pending)) && pending == AfterRead(old(pending))
    {
      ghost var stream := pending;
      var line := "";
      ghost var n := 0;
      while true
        invariant 0 <= n <= |stream| && pending == stream[n..]
        invariant line == StripCr(stream[..n])
        invariant '\n' !in stream[..n]
        decreases |pending|
      {
        if pending == [] {
          assert stream[..n] == stream;
          return if line == "" then Failed else Discarded;
        }
        var byte := pending[0];
        pending := pending[1..];
        StripCrSnoc(stream[..n], byte);
        assert stream[..n + 1] == stream[..n] + [byte];
        if byte != '\r' {
          line := line + [byte];
        }
        if byte == '\n' {
          FirstNewlineUnique(stream, n);
          return Line(line);
        }
        n := n + 1;
      }
    }
  }

  // ----- the lines of a stream -----

  /** The lines `ReadLine` returns, one call after another, until the stream has no further one. */
  function Lines(s: string): seq<string>
    decreases |s|
  {
    if HasNewline(s) then [ReadOne(s).text] + Lines(AfterRead(s)) else []
  }

  /** What follows the last newline. */
  function Tail(s: string): string
    decreases |s|
  {
    if HasNewline(s) then Tail(AfterRead(s)) else s
  }

  /** A line as `ReadLine` delivers it: one newline, at its end, and no carriage return. */
  predicate IsLine(l: string) {
    && l != []
    && l[|l| - 1] == '\n'
    && '\n' !in l[..|l| - 1]
    && '\r' !in l
  }

  lemma {:induction false} StripCrMembers(s: string, c: char)
    ensures c in StripCr(s) <==> c in s && c != '\r'
  {
    if s != [] {
      StripCrMembers(s[1..], c);
      assert s == [s[0]] + s[1..];
    }
  }

  lemma ReadOneIsLine(s: string)
    requires HasNewline(s)
    ensures IsLine(ReadOne(s).text)
  {
    var i := FirstNewline(s);
    assert s[..i + 1] == s[..i] + ['\n'];
    StripCrSnoc(s[..i], '\n');
    StripCrMembers(s[..i], '\n');
    StripCrMembers(s[..i + 1], '\r');
    assert ReadOne(s).text == StripCr(s[..i]) + ['\n'];
  }

  lemma ReadOneSplits(s: string)
    requires HasNewline(s)
    ensures ReadOne(s).text + StripCr(AfterRead(s)) == StripCr(s)
  {
    var i := FirstNewline(s);
    assert s == s[..i + 1] + s[i + 1..];
    StripCrAppend(s[..i + 1], s[i + 1..]);
  }

  /** Without a newline nothing is returned: the read fails if no byte but carriage returns came,
      and what came is thrown away otherwise. */
  lemma ReadWithoutNewline(s: string)
    requires !HasNewline(s)
    ensures ReadOne(s) == (if forall c :: c in s ==> c == '\r' then Failed else Discarded)
    ensures AfterRead(s) == []
  {
    if c :| c in s && c != '\r' {
      StripCrMembers(s, c);
    } else if StripCr(s) != [] {
      StripCrMembers(s, StripCr(s)[0]);
    }
  }

  /** Framing loses nothing but carriage returns, and every piece but the tail is one line: this
      fixes `Lines` and `Tail` for every stream. */
  lemma {:induction false} FramingIsLossless(s: string)
    ensures Flatten(Lines(s)) + StripCr(Tail(s)) == StripCr(s)
    ensures forall l :: l in Lines(s) ==> IsLine(l)
    ensures !HasNewline(Tail(s))
    decreases |s|
  {
    if HasNewline(s) {
      hide StripCr, FirstNewline, IsLine;
      FramingIsLossless(AfterRead(s));
      ReadOneIsLine(s);
      ReadOneSplits(s);
      assert Lines(s)[1..] == Lines(AfterRead(s));
    }
  }

  /** One complete physical line in front of any stream becomes the first line read. */
  lemma LinesCons(l: string, rest: string)
    requires l != [] && l[|l| - 1] == '\n' && '\n' !in l[..|l| - 1]
    ensures Lines(l + rest) == [StripCr(l)] + Lines(rest)
  {
    var s := l + rest;
    assert s[..|l| - 1] == l[..|l| - 1];
    FirstNewlineUnique(s, |l| - 1);
    assert s[..|l|] == l && s[|l|..] == rest;
  }

  /** Cutting a stream anywhere leaves a prefix of its lines. */
  lemma {:induction false} CutKeepsLines(s: string, m: nat)
    requires m <= |s|
    ensures Lines(s[..m]) <= Lines(s)
    decreases |s|
  {
    if HasNewline(s[..m]) {
      hide HasNewline, ReadOne, AfterRead;
      var k := CutKeepsFirst(s, m);
      CutKeepsLines(AfterRead(s), k);
    }
  }

  lemma CutKeepsFirst(s: string, m: nat) returns (k: nat)
    requires m <= |s| && HasNewline(s[..m])
    ensures HasNewline(s) && ReadOne(s[..m]) == ReadOne(s)
    ensures k <= |AfterRead(s)| < |s| && AfterRead(s[..m]) == AfterRead(s)[..k]
  {
    hide StripCr, FirstNewline;
    var i := FirstNewline(s[..m]);
    assert s[..m][..i] == s[..i] && s[..m][..i + 1] == s[..i + 1];
    FirstNewlineUnique(s, i);
    k := m - i - 1;
    assert s[..m][i + 1..] == s[i + 1..][..k];
  }
}
