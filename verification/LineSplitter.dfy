/** The control client's read loop: received chunks accumulate and are cut into lines. */
module LineSplitter {
  import opened Sequences

  const MAX_LINE_LENGTH: nat := 64 * 1024
  const MAX_READ: nat := 4095

  /** Lines that fit whatever the chunking: one read short of the cap. */
  const SAFE_LINE_LENGTH: nat := MAX_LINE_LENGTH - MAX_READ

  const NUL: char := 0 as char

  /** Appending a C string stops at its first NUL. */
  function CString(chunk: string): string {
    if chunk == "" || chunk[0] == NUL then "" else [chunk[0]] + CString(chunk[1..])
  }

  lemma {:induction false} NulFree(chunk: string)
    requires NUL !in chunk
    ensures CString(chunk) == chunk
  {
    if chunk != "" { NulFree(chunk[1..]); }
  }

  /** std::string::find of a newline, as the length of the first line; |s| when there is none. */
  function FirstLine(s: string): (n: nat)
    ensures n <= |s| && '\n' !in s[..n]
    ensures n < |s| ==> s[n] == '\n'
  {
    if s == "" || s[0] == '\n' then 0 else 1 + FirstLine(s[1..])
  }

  datatype Split = Split(lines: seq<string>, rest: string)

  /** The nonempty newline-terminated lines of s, and what follows the last newline. */
  function SplitLines(s: string): (r: Split)
    ensures '\n' !in r.rest
    decreases |s|
  {
    var n := FirstLine(s);
    if n == |s| then Split([], s)
    else
      var more := SplitLines(s[n + 1..]);
      Split(Nonempty(s[..n]) + more.lines, more.rest)
  }

  function Nonempty(line: string): seq<string> {
    if line == "" then [] else [line]
  }

  /** A line begins at position a. */
  predicate LineStart(s: string, a: nat)
    requires a <= |s|
  {
    a == 0 || s[a - 1] == '\n'
  }

  /** Lines of a last part of the text are lines of the text. */
  lemma LineStartShifted(s: string, a: nat, b: nat)
    requires a <= |s| && LineStart(s, a) && b <= |s[a..]| && LineStart(s[a..], b)
    ensures LineStart(s, a + b) && s[a..][b..] == s[a + b..]
  {
    DropDrop(s, a, b);
  }

  lemma AtStart(s: string)
    ensures LineStart(s, 0) && s[0..] == s
  {
  }

  lemma AfterNewline(s: string, n: nat)
    requires n < |s| && s[n] == '\n'
    ensures LineStart(s, n + 1)
  {
  }

  /** What is left over is the last line of what was cut. */
  lemma {:induction false} RestIsLastLine(s: string) returns (a: nat)
    ensures a <= |s| && LineStart(s, a) && SplitLines(s).rest == s[a..]
    decreases |s|
  {
    hide SplitLines, FirstLine, LineStart;
    var n := FirstLine(s);
    if n == |s| {
      a := 0;
      SplitNone(s);
      AtStart(s);
    } else {
      SplitStep(s, n);
      a := RestIsLastLine(s[n + 1..]);
      AfterNewline(s, n);
      LineStartShifted(s, n + 1, a);
      a := n + 1 + a;
    }
  }

  lemma NoNewline(s: string)
    requires '\n' !in s
    ensures SplitLines(s) == Split([], s)
  {
    hide SplitLines;
    SplitNone(s);
  }

  /** And an unfinished last line is left over. */
  lemma LastLineIsRest(s: string, a: nat)
    requires a <= |s| && LineStart(s, a) && '\n' !in s[a..]
    ensures SplitLines(s).rest == s[a..]
  {
    hide SplitLines;
    var b := RestIsLastLine(s);
    NewlineBetween(s, a, b);
    NewlineBetween(s, b, a);
  }

  lemma NewlineBetween(s: string, a: nat, b: nat)
    requires a <= |s| && b <= |s| && LineStart(s, b)
    ensures a < b ==> '\n' in s[a..]
  {
    if a < b { assert s[a..][b - 1 - a] == '\n'; }
  }

  lemma SplitStep(s: string, n: nat)
    requires n == FirstLine(s) < |s|
    ensures var more := SplitLines(s[n + 1..]);
      SplitLines(s) == Split(Nonempty(s[..n]) + more.lines, more.rest)
  {
  }

  lemma {:induction false} FirstLineOfPrefix(a: string, b: string)
    requires FirstLine(a) < |a|
    ensures FirstLine(a + b) == FirstLine(a)
  {
    if a[0] != '\n' {
      assert (a + b)[1..] == a[1..] + b;
      FirstLineOfPrefix(a[1..], b);
    }
  }

  /** Cutting may stop anywhere and resume with the remainder. */
  lemma {:induction false} SplitResumes(a: string, b: string)
    ensures var first := SplitLines(a);
            var second := SplitLines(first.rest + b);
      SplitLines(a + b) == Split(first.lines + second.lines, second.rest)
    decreases |a|
  {
    hide SplitLines, Nonempty;
    var n := FirstLine(a);
    if n == |a| {
      SplitNone(a);
      assert [] + SplitLines(a + b).lines == SplitLines(a + b).lines;
    } else {
      var tail, whole := a[n + 1..], a + b;
      FirstLineOfPrefix(a, b);
      assert whole[n + 1..] == tail + b;
      assert whole[..n] == a[..n];
      SplitStep(a, n);
      SplitStep(whole, n);
      hide FirstLine;
      SplitResumes(tail, b);
      Reassociate(Nonempty(a[..n]), SplitLines(tail).lines, SplitLines(SplitLines(tail).rest + b).lines);
    }
  }

  lemma SplitNone(s: string)
    requires FirstLine(s) == |s|
    ensures SplitLines(s) == Split([], s)
  {
  }

  // ---- What a line is ----

  /** Lines, each with its newline. */
  function Terminated(lines: seq<string>): string {
    if lines == [] then "" else lines[0] + "\n" + Terminated(lines[1..])
  }

  function WithoutEmpty(lines: seq<string>): seq<string> {
    if lines == [] then [] else (if lines[0] == "" then [] else [lines[0]]) + WithoutEmpty(lines[1..])
  }

  /** Cutting undoes terminating: the nonempty lines come back in order, and what follows the last newline. */
  lemma {:induction false} CutUndoesTerminate(lines: seq<string>, rest: string)
    requires '\n' !in rest && forall i :: 0 <= i < |lines| ==> '\n' !in lines[i]
    ensures SplitLines(Terminated(lines) + rest) == Split(WithoutEmpty(lines), rest)
    decreases |lines|
  {
    hide SplitLines, FirstLine;
    if lines == [] {
      NoNewline(rest);
      NothingJoined(Terminated(lines), rest);
    } else {
      var tail := Terminated(lines[1..]) + rest;
      CutUndoesTerminate(lines[1..], rest);
      var s := Terminated(lines) + rest;
      assert s == lines[0] + "\n" + tail;
      FirstLineIs(lines[0], tail);
      SplitStep(s, |lines[0]|);
      assert s[..|lines[0]|] == lines[0] && s[|lines[0]| + 1..] == tail;
    }
  }

  lemma {:induction false} FirstLineIs(line: string, tail: string)
    requires '\n' !in line
    ensures FirstLine(line + "\n" + tail) == |line|
  {
    var s := line + "\n" + tail;
    if line == "" {
      assert s[0] == '\n';
    } else {
      assert s[1..] == line[1..] + "\n" + tail;
      FirstLineIs(line[1..], tail);
    }
  }

  /** A read with a NUL counts up to it. */
  lemma {:induction false} CStringStops(a: string, b: string)
    requires NUL !in a
    ensures CString(a + [NUL] + b) == a
  {
    if a != "" {
      assert (a + [NUL] + b)[1..] == a[1..] + [NUL] + b;
      CStringStops(a[1..], b);
    }
  }

  // ---- Reads ----

  function Stream(chunks: seq<string>): string {
    if chunks == [] then "" else CString(chunks[0]) + Stream(chunks[1..])
  }

  datatype Outcome = Outcome(delivered: seq<string>, dropped: bool)

  /** The loop over reads, from what has accumulated; it ends the connection when the cap is exceeded. */
  function Feed(accumulated: string, chunks: seq<string>): Outcome
    decreases |chunks|
  {
    if chunks == [] then Outcome([], false)
    else
      var all := accumulated + CString(chunks[0]);
      if |all| > MAX_LINE_LENGTH then Outcome([], true)
      else
        var split := SplitLines(all);
        var rest := Feed(split.rest, chunks[1..]);
        Outcome(split.lines + rest.delivered, rest.dropped)
  }

  /** A connection that is not dropped has delivered the lines of the stream, however it was chunked. */
  lemma {:induction false} FeedDeliversLines(accumulated: string, chunks: seq<string>)
    requires '\n' !in accumulated
    ensures !Feed(accumulated, chunks).dropped ==>
              Feed(accumulated, chunks).delivered == SplitLines(accumulated + Stream(chunks)).lines
    decreases |chunks|
  {
    hide FirstLine, CString, SplitLines;
    if chunks == [] {
      NoNewline(accumulated);
      assert accumulated + Stream(chunks) == accumulated;
    } else {
      var all := accumulated + CString(chunks[0]);
      FeedStep(accumulated, chunks);
      Reassociate(accumulated, CString(chunks[0]), Stream(chunks[1..]));
      hide Feed;
      FeedDeliversLines(SplitLines(all).rest, chunks[1..]);
      SplitResumes(all, Stream(chunks[1..]));
    }
  }

  function Joined(chunks: seq<string>): string {
    if chunks == [] then "" else chunks[0] + Joined(chunks[1..])
  }

  lemma {:induction false} StreamOfNulFree(chunks: seq<string>)
    requires forall i :: 0 <= i < |chunks| ==> NUL !in chunks[i]
    ensures Stream(chunks) == Joined(chunks)
  {
    if chunks != [] {
      NulFree(chunks[0]);
      StreamOfNulFree(chunks[1..]);
    }
  }

  /** The line that begins at a goes on to b at least, and a read up to c then exceeds the cap. */
  ghost predicate Overlong(s: string, a: nat, b: nat, c: nat) {
    a <= b <= c <= |s| && LineStart(s, a) && '\n' !in s[a..b] && c - b <= 4095 && c - a > 65536
  }

  /** Reads of at most 4095 characters that make up the stream; none is a read of nothing. */
  ghost predicate Reads(chunks: seq<string>, stream: string) {
    Joined(chunks) == stream && forall i :: 0 <= i < |chunks| ==> 1 <= |chunks[i]| <= MAX_READ && NUL !in chunks[i]
  }

  lemma LineStartKept(s: string, t: string, a: nat)
    requires a <= |s| && LineStart(s, a)
    ensures LineStart(s + t, a) && (s + t)[a..] == s[a..] + t
    ensures (s + t)[a..|s|] == s[a..]
  {
  }

  /** A drop after `read`, whose last line begins at a, is due to an overlong line of the whole stream. */
  lemma {:induction false} DropIsOverlong(read: string, a: nat, chunks: seq<string>, stream: string)
    returns (from: nat, b: nat, c: nat)
    requires a <= |read| && LineStart(read, a) && '\n' !in read[a..] && read + Joined(chunks) == stream
    requires forall i :: 0 <= i < |chunks| ==> |chunks[i]| <= MAX_READ && NUL !in chunks[i]
    requires Feed(read[a..], chunks).dropped
    ensures Overlong(stream, from, b, c)
    decreases |chunks|
  {
    hide SplitLines, CString;
    var all := read + chunks[0];
    NulFree(chunks[0]);
    LineStartKept(read, chunks[0], a);
    Reassociate(read, chunks[0], Joined(chunks[1..]));
    LineStartKept(all, Joined(chunks[1..]), a);
    if |all[a..]| > MAX_LINE_LENGTH {
      from, b, c := a, |read|, |all|;
      assert stream[a..b] == read[a..];
    } else {
      var d := RestIsLastLine(all[a..]);
      LineStartShifted(all, a, d);
      hide LineStart;
      from, b, c := DropIsOverlong(all, a + d, chunks[1..], stream);
    }
  }

  /** Conversely: read up to b in any way, then up to c at once. */
  lemma OverlongCanTrip(s: string, a: nat, b: nat, c: nat) returns (chunks: seq<string>)
    requires Overlong(s, a, b, c) && b < c && NUL !in s
    ensures Reads(chunks, s) && Feed("", chunks).dropped
  {
    var first, rest := Cut(s[..b]), [s[b..c]] + Cut(s[c..]);
    chunks := first + rest;
    CutReads(s[..b]);
    CutReads(s[c..]);
    OneReads(s[b..c], Cut(s[c..]), s[c..]);
    ThreeParts(s, b, c);
    BothRead(first, s[..b], rest, s[b..c] + s[c..]);
    ReadTrips(s, a, b, c, Cut(s[c..]));
    HeadTrips(s, a, b, first, rest);
  }

  lemma ThreeParts(s: string, b: nat, c: nat)
    requires b <= c <= |s|
    ensures s == s[..b] + (s[b..c] + s[c..])
  {
  }

  lemma CutReads(s: string)
    requires NUL !in s
    ensures Reads(Cut(s), s)
  {
    CutJoins(s);
    CutNulFree(s);
  }

  lemma OneReads(read: string, chunks: seq<string>, s: string)
    requires 1 <= |read| <= MAX_READ && NUL !in read && Reads(chunks, s)
    ensures Reads([read] + chunks, read + s)
  {
    assert ([read] + chunks)[1..] == chunks;
  }

  lemma BothRead(a: seq<string>, s: string, b: seq<string>, t: string)
    requires Reads(a, s) && Reads(b, t)
    ensures Reads(a + b, s + t)
  {
    JoinedConcat(a, b);
    hide Joined;
  }

  lemma ReadTrips(s: string, a: nat, b: nat, c: nat, tail: seq<string>)
    requires Overlong(s, a, b, c) && NUL !in s
    ensures Feed(s[a..b], [s[b..c]] + tail).dropped
  {
    hide SplitLines, CString;
    NulFree(s[b..c]);
  }

  lemma HeadTrips(s: string, a: nat, b: nat, first: seq<string>, rest: seq<string>)
    requires a <= b <= |s| && LineStart(s, a) && '\n' !in s[a..b] && Reads(first, s[..b])
    requires Feed(s[a..b], rest).dropped
    ensures Feed("", first + rest).dropped
  {
    hide SplitLines, CString, Feed, Joined;
    assert s[..b][a..] == s[a..b];
    LastLineIsRest(s[..b], a);
    StreamOfNulFree(first);
    assert "" + s[..b] == s[..b];
    FeedConcat("", first, rest);
  }

  /** The exact condition under which some way of reading the stream ends the connection. */
  lemma CanTripIff(stream: string)
    requires NUL !in stream
    ensures (exists chunks :: Reads(chunks, stream) && Feed("", chunks).dropped)
            <==> exists a, b, c :: Overlong(stream, a, b, c)
  {
    hide SplitLines, Feed, Joined, Overlong;
    if a: nat, b: nat, c: nat :| Overlong(stream, a, b, c) {
      var earlier := OverlongEarlier(stream, a, b, c);
      var chunks := OverlongCanTrip(stream, a, earlier, c);
    } else {
      forall chunks | Reads(chunks, stream) ensures !Feed("", chunks).dropped {
        ReadsDeliver(stream, chunks);
      }
    }
  }

  /**
    When framing does not depend on chunking: exactly the nonempty lines arrive, in order, however the stream is
    read - if and only if no line of it can be cut overlong.
  */
  lemma FramingIndependentIff(stream: string)
    requires NUL !in stream
    ensures (forall chunks | Reads(chunks, stream) :: Feed("", chunks) == Outcome(SplitLines(stream).lines, false))
            <==> !exists a, b, c :: Overlong(stream, a, b, c)
  {
    hide SplitLines, Feed, Joined, Overlong;
    CanTripIff(stream);
    if !exists a, b, c :: Overlong(stream, a, b, c) {
      forall chunks | Reads(chunks, stream)
        ensures Feed("", chunks) == Outcome(SplitLines(stream).lines, false)
      {
        ReadsDeliver(stream, chunks);
      }
    }
  }

  lemma OverlongEarlier(s: string, a: nat, b: nat, c: nat) returns (b': nat)
    requires Overlong(s, a, b, c)
    ensures Overlong(s, a, b', c) && b' < c
  {
    b' := if b == c then b - 1 else b;
    assert forall i :: 0 <= i < b' - a ==> s[a..b'][i] == s[a..b][i];
  }

  lemma ReadsDeliver(stream: string, chunks: seq<string>)
    requires Joined(chunks) == stream && !exists a, b, c :: Overlong(stream, a, b, c)
    requires forall i :: 0 <= i < |chunks| ==> |chunks[i]| <= MAX_READ && NUL !in chunks[i]
    ensures Feed("", chunks) == Outcome(SplitLines(stream).lines, false)
  {
    hide SplitLines, Feed, Overlong;
    StreamOfNulFree(chunks);
    assert "" + stream == stream;
    if Feed("", chunks).dropped {
      var a, b, c := DropIsOverlong("", 0, chunks, stream);
      assert false;
    }
    FeedDeliversLines("", chunks);
  }

  /** Every stretch without a newline is at most n characters long. */
  ghost predicate LinesWithin(s: string, n: nat) {
    forall i, j :: 0 <= i <= j <= |s| && '\n' !in s[i..j] ==> j - i <= n
  }

  lemma ShortLinesFit(s: string, a: nat, b: nat, c: nat)
    requires LinesWithin(s, SAFE_LINE_LENGTH)
    ensures !Overlong(s, a, b, c)
  {
  }

  /** In particular, lines one read short of the cap survive every chunking. */
  lemma FramingIndependentOfChunking(stream: string, chunks: seq<string>)
    requires Joined(chunks) == stream && LinesWithin(stream, 61441)
    requires forall i :: 0 <= i < |chunks| ==> |chunks[i]| <= MAX_READ && NUL !in chunks[i]
    ensures Feed("", chunks) == Outcome(SplitLines(stream).lines, false)
  {
    hide SplitLines, Feed, Joined;
    forall a: nat, b: nat, c: nat ensures !Overlong(stream, a, b, c) {
      ShortLinesFit(stream, a, b, c);
    }
    ReadsDeliver(stream, chunks);
  }

  function Cut(s: string): (chunks: seq<string>)
    ensures forall i :: 0 <= i < |chunks| ==> 1 <= |chunks[i]| <= MAX_READ
    decreases |s|
  {
    if s == "" then []
    else if |s| <= MAX_READ then [s]
    else [s[..MAX_READ]] + Cut(s[MAX_READ..])
  }

  lemma {:induction false} JoinedConcat(a: seq<string>, b: seq<string>)
    ensures Joined(a + b) == Joined(a) + Joined(b)
    decreases |a|
  {
    if a == [] {
      assert a + b == b;
    } else {
      JoinedConcat(a[1..], b);
      assert (a + b)[1..] == a[1..] + b;
    }
  }

  lemma {:induction false} CutJoins(s: string)
    ensures Joined(Cut(s)) == s
    decreases |s|
  {
    if |s| > MAX_READ {
      CutJoins(s[MAX_READ..]);
      assert Cut(s)[1..] == Cut(s[MAX_READ..]);
      assert s == s[..MAX_READ] + s[MAX_READ..];
    } else if s != "" {
      assert Cut(s)[1..] == [];
    }
  }

  lemma {:induction false} CutNulFree(s: string)
    requires NUL !in s
    ensures forall i :: 0 <= i < |Cut(s)| ==> NUL !in Cut(s)[i]
    decreases |s|
  {
    if |s| > MAX_READ { CutNulFree(s[MAX_READ..]); }
  }

  /** Reads may be fed in two goes, unless the first already ends the connection. */
  lemma {:induction false} FeedConcat(accumulated: string, a: seq<string>, b: seq<string>)
    requires '\n' !in accumulated
    ensures Feed(accumulated, a + b).dropped
        <==> Feed(accumulated, a).dropped || Feed(SplitLines(accumulated + Stream(a)).rest, b).dropped
    decreases |a|
  {
    hide SplitLines, CString, FirstLine;
    if a == [] {
      assert accumulated + Stream(a) == accumulated && a + b == b;
      NoNewline(accumulated);
    } else {
      assert (a + b)[1..] == a[1..] + b;
      var all := accumulated + CString(a[0]);
      FeedConcat(SplitLines(all).rest, a[1..], b);
      SplitResumes(all, Stream(a[1..]));
      assert accumulated + Stream(a) == all + Stream(a[1..]);
    }
  }

  /** `chunks` are what the successive reads return. */
  method ReadLoop(chunks: seq<string>) returns (delivered: seq<string>, dropped: bool)
    ensures Outcome(delivered, dropped) == Feed("", chunks)
  {
    hide SplitLines, FirstLine, CString;
    var accumulated := "";
    delivered, dropped := [], false;
    var i := 0;
    while i < |chunks|
      invariant 0 <= i <= |chunks|
      invariant Feed("", chunks) == Prepend(delivered, Feed(accumulated, chunks[i..]))
    {
      FeedStep(accumulated, chunks[i..]);
      assert chunks[i..][1..] == chunks[i + 1..];
      accumulated := accumulated + CString(chunks[i]);
      if |accumulated| > MAX_LINE_LENGTH {
        assert delivered + [] == delivered;
        return delivered, true;
      }
      var lines;
      lines, accumulated := CutLines(accumulated);
      PrependTwice(delivered, lines, Feed(accumulated, chunks[i + 1..]));
      delivered := delivered + lines;
      i := i + 1;
    }
    assert delivered + [] == delivered;
  }

  function Prepend(lines: seq<string>, o: Outcome): Outcome {
    Outcome(lines + o.delivered, o.dropped)
  }

  lemma PrependTwice(a: seq<string>, b: seq<string>, o: Outcome)
    ensures Prepend(a, Prepend(b, o)) == Prepend(a + b, o)
  {
    assert a + (b + o.delivered) == a + b + o.delivered;
  }

  lemma FeedStep(accumulated: string, chunks: seq<string>)
    requires chunks != []
    ensures var all := accumulated + CString(chunks[0]);
      Feed(accumulated, chunks) ==
        if |all| > MAX_LINE_LENGTH then Outcome([], true)
        else Prepend(SplitLines(all).lines, Feed(SplitLines(all).rest, chunks[1..]))
  {
    hide SplitLines, CString;
  }

  /** The inner loop: every complete line is cut off the front; empty ones are not delivered. */
  method CutLines(text: string) returns (lines: seq<string>, rest: string)
    ensures Split(lines, rest) == SplitLines(text)
  {
    hide SplitLines, FirstLine;
    lines, rest := [], text;
    var pos := FirstLine(rest);
    while pos < |rest|
      invariant pos == FirstLine(rest)
      invariant SplitLines(text) == Split(lines + SplitLines(rest).lines, SplitLines(rest).rest)
      decreases |rest|
    {
      SplitStep(rest, pos);
      var line := rest[..pos];
      rest := rest[pos + 1..];
      Reassociate(lines, Nonempty(line), SplitLines(rest).lines);
      if line != "" {
        lines := lines + [line];
      }
      pos := FirstLine(rest);
    }
    SplitNone(rest);
    assert lines + [] == lines;
  }
}
