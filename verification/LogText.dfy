/** Splitting, filtering, joining and scanning of log text. */
module LogText {

  // bufio.MaxScanTokenSize: the line and its newline must fit.
  const MAX_TOKEN: nat := 65536

  predicate IsTerminator(c: char) {
    c == '\r' || c == '\n'
  }

  predicate IsSpace(c: char) {
    c == ' ' || 9 <= c as int <= 13
  }

  function TrimLeft(s: string): string {
    if s != [] && IsSpace(s[0]) then TrimLeft(s[1..]) else s
  }

  function TrimRight(s: string): string {
    if s != [] && IsSpace(s[|s| - 1]) then TrimRight(s[..|s| - 1]) else s
  }

  function TrimSpace(s: string): string {
    TrimRight(TrimLeft(s))
  }

  // ---------------------------------------------------------------------
  // Lines of git output
  // ---------------------------------------------------------------------

  // The length of the text before the first terminator.
  function LineLength(s: string): (k: nat)
    ensures k <= |s|
    ensures forall i :: 0 <= i < k ==> !IsTerminator(s[i])
    ensures k < |s| ==> IsTerminator(s[k])
  {
    if s == [] || IsTerminator(s[0]) then 0 else 1 + LineLength(s[1..])
  }

  // A carriage return swallows a line feed right after it.
  function TerminatorLength(s: string): (w: nat)
    requires s != []
    ensures 1 <= w <= |s|
  {
    if s[0] == '\r' && 1 < |s| && s[1] == '\n' then 2 else 1
  }

  // The fields between terminators; an empty rest is no line.
  function SplitLines(s: string): seq<string>
    decreases |s|
  {
    var k := LineLength(s);
    if s == [] then []
    else if k == |s| then [s]
    else [s[..k]] + SplitLines(s[k + TerminatorLength(s[k..])..])
  }

  predicate NoTerminator(s: string) {
    forall c | c in s :: !IsTerminator(c)
  }

  lemma {:induction false} LineLengthIs(cur: string, tail: string)
    requires NoTerminator(cur) && (tail == [] || IsTerminator(tail[0]))
    ensures LineLength(cur + tail) == |cur|
    decreases |cur|
  {
    if cur == [] {
      assert cur + tail == tail;
    } else {
      assert cur[0] in cur;
      assert (cur + tail)[1..] == cur[1..] + tail;
      LineLengthIs(cur[1..], tail);
    }
  }

  // Text up to a terminator is one line; the scan resumes behind the terminator.
  lemma SplitAt(cur: string, tail: string)
    requires NoTerminator(cur) && tail != [] && IsTerminator(tail[0])
    ensures SplitLines(cur + tail) == [cur] + SplitLines(tail[TerminatorLength(tail)..])
  {
    var s := cur + tail;
    LineLengthIs(cur, tail);
    assert s[|cur|..] == tail && s[..|cur|] == cur;
    assert s[|cur| + TerminatorLength(tail)..] == tail[TerminatorLength(tail)..];
  }

  lemma SplitOpen(cur: string)
    requires NoTerminator(cur)
    ensures SplitLines(cur) == if cur == [] then [] else [cur]
  {
    LineLengthIs(cur, []);
    assert cur + [] == cur;
  }

  // f works line by line: a finished line contributes line(cur), an unfinished last one open(cur).
  ghost predicate LineWise(f: string -> seq<string>, line: string -> seq<string>, open: string -> seq<string>) {
    && (forall cur, tail :: LineWiseAt(f, line, cur, tail))
    && (forall cur :: LineWiseOpen(f, open, cur))
  }

  ghost predicate LineWiseAt(f: string -> seq<string>, line: string -> seq<string>, cur: string, tail: string) {
    NoTerminator(cur) && tail != [] && IsTerminator(tail[0]) ==>
      f(cur + tail) == line(cur) + f(tail[TerminatorLength(tail)..])
  }

  ghost predicate LineWiseOpen(f: string -> seq<string>, open: string -> seq<string>, cur: string) {
    NoTerminator(cur) ==> f(cur) == open(cur)
  }

  function WholeLine(cur: string): seq<string> { [cur] }

  function LastLine(cur: string): seq<string> { if cur == [] then [] else [cur] }

  lemma SplitIsLineWise()
    ensures LineWise(SplitLines, WholeLine, LastLine)
  {
    forall cur, tail ensures LineWiseAt(SplitLines, WholeLine, cur, tail) {
      if NoTerminator(cur) && tail != [] && IsTerminator(tail[0]) { SplitAt(cur, tail); }
    }
    forall cur ensures LineWiseOpen(SplitLines, LastLine, cur) {
      if NoTerminator(cur) { SplitOpen(cur); }
    }
  }

  // splitLines: a byte loop with a builder for the current line.
  method SplitIntoLines(s: string) returns (lines: seq<string>)
    ensures lines == SplitLines(s)
  {
    SplitIsLineWise();
    lines := SplitLoop(SplitLines, s);
  }

  method SplitLoop(ghost split: string -> seq<string>, s: string) returns (lines: seq<string>)
    requires LineWise(split, WholeLine, LastLine)
    ensures lines == split(s)
  {
    lines := [];
    var current: string := [];
    var i := 0;
    assert [] + s[0..] == s;
    while i < |s|
      invariant 0 <= i <= |s| && NoTerminator(current)
      invariant split(s) == lines + split(current + s[i..])
    {
      var ch := s[i];
      ghost var rest := s[i..];
      if IsTerminator(ch) {
        assert LineWiseAt(split, WholeLine, current, rest);
        lines := lines + [current];
        current := [];
        if ch == '\r' && i + 1 < |s| && s[i + 1] == '\n' {
          i := i + 1;
        }
        assert rest[TerminatorLength(rest)..] == [] + s[i + 1..];
      } else {
        assert current + rest == current + [ch] + s[i + 1..];
        current := current + [ch];
      }
      i := i + 1;
    }
    assert current + s[i..] == current;
    assert LineWiseOpen(split, LastLine, current);
    if |current| > 0 {
      lines := lines + [current];
    }
  }

  // ---------------------------------------------------------------------
  // What the progress filter keeps
  // ---------------------------------------------------------------------

  predicate StartsProgress(s: string) {
    || "Counting objects:" <= s
    || "Compressing objects:" <= s
    || "Receiving objects:" <= s
    || "Resolving deltas:" <= s
    || "Unpacking objects:" <= s
  }

  predicate OccursAt(s: string, part: string, i: nat) {
    i + |part| <= |s| && s[i..i + |part|] == part
  }

  predicate Contains(s: string, part: string) {
    exists i :: 0 <= i <= |s| && OccursAt(s, part, i)
  }

  predicate IsIntermediateProgress(line: string) {
    var stripped := if "remote: " <= line then line[|"remote: "|..] else line;
    StartsProgress(stripped) && !Contains(line, "done")
  }

  function KeepLine(line: string): seq<string> {
    var trimmed := TrimSpace(line);
    if trimmed == "" || IsIntermediateProgress(trimmed) then [] else [trimmed]
  }

  // The results of f on each item, appended in order.
  function FlatMap<A, B>(f: A -> seq<B>, items: seq<A>): seq<B> {
    if items == [] then [] else FlatMap(f, items[..|items| - 1]) + f(items[|items| - 1])
  }

  lemma {:induction false} FlatMapConcat<A, B>(f: A -> seq<B>, a: seq<A>, b: seq<A>)
    ensures FlatMap(f, a + b) == FlatMap(f, a) + FlatMap(f, b)
    decreases |b|
  {
    if b == [] {
      assert a + b == a;
    } else {
      FlatMapConcat(f, a, b[..|b| - 1]);
      assert (a + b)[..|a + b| - 1] == a + b[..|b| - 1];
    }
  }

  lemma FlatMapOne<A, B>(f: A -> seq<B>, x: A)
    ensures FlatMap(f, [x]) == f(x)
  {
    assert [x][..0] == [];
  }

  function KeepLines(lines: seq<string>): seq<string> {
    FlatMap(KeepLine, lines)
  }

  // The lines one chunk of output contributes.
  function Kept(chunk: string): seq<string> {
    KeepLines(SplitLines(chunk))
  }

  // ---------------------------------------------------------------------
  // Chunk independence
  // ---------------------------------------------------------------------

  // The cut between a and b touches a terminator on either side (or is no cut at all).
  predicate CleanCut(a: string, b: string) {
    || a == [] || b == []
    || IsTerminator(a[|a| - 1])
    || IsTerminator(b[0])
  }

  lemma KeptIsLineWise()
    ensures LineWise(Kept, KeepLine, KeepLine)
  {
    forall cur, tail ensures LineWiseAt(Kept, KeepLine, cur, tail) {
      if NoTerminator(cur) && tail != [] && IsTerminator(tail[0]) { KeptAt(cur, tail); }
    }
    forall cur ensures LineWiseOpen(Kept, KeepLine, cur) {
      if NoTerminator(cur) { KeptOpen(cur); }
    }
  }

  lemma KeepFirst(line: string, rest: seq<string>)
    ensures KeepLines([line] + rest) == KeepLine(line) + KeepLines(rest)
  {
    FlatMapConcat(KeepLine, [line], rest);
    FlatMapOne(KeepLine, line);
  }

  lemma KeptAt(cur: string, tail: string)
    requires NoTerminator(cur) && tail != [] && IsTerminator(tail[0])
    ensures Kept(cur + tail) == KeepLine(cur) + Kept(tail[TerminatorLength(tail)..])
  {
    SplitAt(cur, tail);
    KeepFirst(cur, SplitLines(tail[TerminatorLength(tail)..]));
  }

  lemma KeptOpen(cur: string)
    requires NoTerminator(cur)
    ensures Kept(cur) == KeepLine(cur)
  {
    SplitOpen(cur);
    FlatMapOne(KeepLine, cur);
  }

  // A function that works line by line and takes nothing from a blank line is additive at clean cuts.
  lemma {:induction false} LineWiseCut(f: string -> seq<string>, line: string -> seq<string>, a: string, b: string)
    requires LineWise(f, line, line) && line([]) == []
    requires CleanCut(a, b)
    ensures f(a + b) == f(a) + f(b)
    decreases |a|
  {
    if a == [] {
      assert LineWiseOpen(f, line, []);
      assert a + b == b;
    } else if b == [] {
      assert LineWiseOpen(f, line, []);
      assert a + b == a;
    } else {
      var k := LineLength(a);
      if k == |a| {
        assert NoTerminator(a) && a[|a| - 1] in a;
        assert LineWiseAt(f, line, a, b);
        assert LineWiseOpen(f, line, a);
        SkipBlank(f, line, b);
      } else {
        var cur, tail := a[..k], a[k..];
        assert NoTerminator(cur) && a == cur + tail && a + b == cur + (tail + b);
        if tail == ['\r'] && b[0] == '\n' {
          LineWiseInPair(f, line, cur, b);
        } else {
          var t := tail[TerminatorLength(tail)..];
          assert t != [] ==> t[|t| - 1] == a[|a| - 1];
          LineWiseCut(f, line, t, b);
          LineWiseBehind(f, line, cur, tail, b);
        }
      }
    }
  }

  lemma LineWiseInPair(f: string -> seq<string>, line: string -> seq<string>, cur: string, b: string)
    requires LineWise(f, line, line) && line([]) == []
    requires NoTerminator(cur) && b != [] && b[0] == '\n'
    ensures f(cur + (['\r'] + b)) == f(cur + ['\r']) + f(b)
  {
    assert LineWiseAt(f, line, cur, ['\r']);
    assert LineWiseAt(f, line, cur, ['\r'] + b);
    assert ['\r'][1..] == [] && (['\r'] + b)[2..] == b[1..];
    assert LineWiseOpen(f, line, []);
    SkipBlank(f, line, b);
  }

  lemma LineWiseBehind(f: string -> seq<string>, line: string -> seq<string>, cur: string, tail: string, b: string)
    requires LineWise(f, line, line)
    requires NoTerminator(cur) && tail != [] && IsTerminator(tail[0])
    requires b != [] && !(tail == ['\r'] && b[0] == '\n')
    requires var t := tail[TerminatorLength(tail)..]; f(t + b) == f(t) + f(b)
    ensures f(cur + (tail + b)) == f(cur + tail) + f(b)
  {
    BehindTerminator(tail, b);
    assert LineWiseAt(f, line, cur, tail);
    assert LineWiseAt(f, line, cur, tail + b);
  }

  lemma SkipBlank(f: string -> seq<string>, line: string -> seq<string>, b: string)
    requires LineWise(f, line, line) && line([]) == []
    requires b != [] && IsTerminator(b[0])
    ensures f(b) == f(b[TerminatorLength(b)..])
  {
    assert LineWiseAt(f, line, [], b);
    assert [] + b == b;
  }

  lemma BehindTerminator(tail: string, b: string)
    requires tail != [] && b != [] && !(tail == ['\r'] && b[0] == '\n')
    ensures TerminatorLength(tail + b) == TerminatorLength(tail)
    ensures (tail + b)[TerminatorLength(tail)..] == tail[TerminatorLength(tail)..] + b
  {
  }

  // Cutting at a terminator, even between \r and \n, neither loses nor adds a kept line.
  lemma CutKeeps(a: string, b: string)
    requires CleanCut(a, b)
    ensures Kept(a + b) == Kept(a) + Kept(b)
  {
    KeptIsLineWise();
    LineWiseCut(Kept, KeepLine, a, b);
  }

  function Flatten(chunks: seq<string>): string {
    if chunks == [] then [] else Flatten(chunks[..|chunks| - 1]) + chunks[|chunks| - 1]
  }

  predicate CleanChunks(chunks: seq<string>) {
    chunks == [] || (
      && CleanChunks(chunks[..|chunks| - 1])
      && CleanCut(Flatten(chunks[..|chunks| - 1]), chunks[|chunks| - 1]))
  }

  function KeptOfChunks(chunks: seq<string>): seq<string> {
    if chunks == [] then [] else KeptOfChunks(chunks[..|chunks| - 1]) + Kept(chunks[|chunks| - 1])
  }

  // Feeding chunks cut at terminators keeps the lines of the whole text.
  lemma {:induction false} ChunkIndependence(chunks: seq<string>)
    requires CleanChunks(chunks)
    ensures KeptOfChunks(chunks) == Kept(Flatten(chunks))
    decreases |chunks|
  {
    if chunks != [] {
      ChunkIndependence(chunks[..|chunks| - 1]);
      CutKeeps(Flatten(chunks[..|chunks| - 1]), chunks[|chunks| - 1]);
    }
  }

  // A cut in the middle of a line does break it: the condition is needed.
  lemma DirtyCutSplits()
    ensures !CleanCut("ab", "cd") && Kept("ab" + "cd") != Kept("ab") + Kept("cd")
  {
    SplitOpen("ab"); SplitOpen("cd"); SplitOpen("abcd");
    assert "ab" + "cd" == "abcd";
    KeptOne("ab"); KeptOne("cd"); KeptOne("abcd");
  }

  lemma KeptOne(s: string)
    requires s in {"ab", "cd", "abcd"}
    ensures KeepLines([s]) == [s]
  {
    FlatMapOne(KeepLine, s);
    assert TrimLeft(s) == s && TrimRight(s) == s;
    assert s[0] in {'a', 'c'};
  }

  // ---------------------------------------------------------------------
  // From the filter to the logger
  // ---------------------------------------------------------------------

  // strings.Join(kept, "\n") + "\n", for a non-empty list
  function JoinLines(lines: seq<string>): string {
    if lines == [] then [] else lines[0] + "\n" + JoinLines(lines[1..])
  }

  function NewlineAt(s: string): (k: nat)
    ensures k <= |s|
    ensures forall i :: 0 <= i < k ==> s[i] != '\n'
    ensures k < |s| ==> s[k] == '\n'
  {
    if s == [] || s[0] == '\n' then 0 else 1 + NewlineAt(s[1..])
  }

  function DropCR(s: string): string {
    if s != [] && s[|s| - 1] == '\r' then s[..|s| - 1] else s
  }

  // The tokens of bufio.Scanner over the text: it gives up at a line that does not fit.
  function ScanLines(s: string): seq<string>
    decreases |s|
  {
    var k := NewlineAt(s);
    if s == [] || k >= MAX_TOKEN then []
    else if k == |s| then [DropCR(s)]
    else [DropCR(s[..k])] + ScanLines(s[k + 1..])
  }

  // A line as the filter writes it: not blank, no terminator.
  predicate FilterLine(line: string) {
    line != [] && NoTerminator(line) && !IsSpace(line[0])
  }

  // How many lines come before the first that the scanner cannot hold.
  function Scannable(lines: seq<string>): (n: nat)
    ensures n <= |lines|
    ensures n == |lines| <==> forall l | l in lines :: |l| < MAX_TOKEN
  {
    if lines == [] || |lines[0]| >= MAX_TOKEN then 0 else 1 + Scannable(lines[1..])
  }

  lemma ScanFirst(line: string, rest: string)
    requires FilterLine(line)
    ensures ScanLines(line + "\n" + rest) == if |line| >= MAX_TOKEN then [] else [line] + ScanLines(rest)
  {
    var s := line + "\n" + rest;
    FirstNewline(line, rest);
    assert s[..|line|] == line && s[|line| + 1..] == rest;
    assert line[|line| - 1] in line;
  }

  lemma ConsLine(line: string, more: seq<string>)
    ensures JoinLines([line] + more) == line + "\n" + JoinLines(more)
    ensures Scannable([line] + more) == if |line| >= MAX_TOKEN then 0 else 1 + Scannable(more)
    ensures ([line] + more)[..Scannable([line] + more)]
            == if |line| >= MAX_TOKEN then [] else [line] + more[..Scannable(more)]
  {
    assert ([line] + more)[1..] == more;
  }

  // The scanner recovers the filter's lines up to the first of 64 KiB or more.
  lemma {:induction false} ScanPrefix(lines: seq<string>)
    requires forall l | l in lines :: FilterLine(l)
    ensures ScanLines(JoinLines(lines)) == lines[..Scannable(lines)]
    decreases |lines|
  {
    if lines != [] {
      var line, more := lines[0], lines[1..];
      assert FilterLine(line);
      assert lines == [line] + more;
      ScanPrefix(more);
      ConsLine(line, more);
      ScanFirst(line, JoinLines(more));
    }
  }

  // Hence it recovers all of them exactly when every line is shorter.
  lemma ScanRecovers(lines: seq<string>)
    requires forall l | l in lines :: FilterLine(l)
    ensures ScanLines(JoinLines(lines)) == lines <==> forall l | l in lines :: |l| < MAX_TOKEN
  {
    ScanPrefix(lines);
    assert lines[..|lines|] == lines;
  }

  lemma {:induction false} FirstNewline(line: string, rest: string)
    requires NoTerminator(line)
    ensures NewlineAt(line + "\n" + rest) == |line|
    decreases |line|
  {
    var s := line + "\n" + rest;
    if line != [] {
      assert line[0] in line;
      assert s[1..] == line[1..] + "\n" + rest;
      FirstNewline(line[1..], rest);
    }
  }

  lemma {:induction false} TrimLeftShape(s: string)
    ensures (forall c | c in TrimLeft(s) :: c in s) && (TrimLeft(s) != [] ==> !IsSpace(TrimLeft(s)[0]))
    ensures TrimLeft(s) == [] <==> forall c | c in s :: IsSpace(c)
    decreases |s|
  {
    if s != [] && IsSpace(s[0]) {
      TrimLeftShape(s[1..]);
      assert s == [s[0]] + s[1..];
    } else if s != [] {
      assert s[0] in s;
    }
  }

  lemma {:induction false} TrimRightShape(s: string)
    ensures (forall c | c in TrimRight(s) :: c in s) && TrimRight(s) <= s
    ensures TrimRight(s) != [] ==> !IsSpace(TrimRight(s)[|TrimRight(s)| - 1])
    ensures TrimRight(s) == [] <==> forall c | c in s :: IsSpace(c)
    decreases |s|
  {
    if s != [] && IsSpace(s[|s| - 1]) {
      TrimRightShape(s[..|s| - 1]);
      assert s == s[..|s| - 1] + [s[|s| - 1]];
    } else if s != [] {
      assert s[|s| - 1] in s;
    }
  }

  // A text trims to nothing exactly when it is all white space.
  lemma TrimSpaceShape(s: string)
    ensures forall c | c in TrimSpace(s) :: c in s
    ensures TrimSpace(s) != [] ==> !IsSpace(TrimSpace(s)[0]) && !IsSpace(TrimSpace(s)[|TrimSpace(s)| - 1])
    ensures TrimSpace(s) == [] <==> forall c | c in s :: IsSpace(c)
  {
    TrimLeftShape(s);
    TrimRightShape(TrimLeft(s));
    if TrimLeft(s) != [] { assert TrimLeft(s)[0] in TrimLeft(s); }
  }

  lemma {:induction false} SplitHasNoTerminators(s: string)
    ensures forall l | l in SplitLines(s) :: NoTerminator(l)
    decreases |s|
  {
    var k := LineLength(s);
    if s != [] && k < |s| {
      SplitHasNoTerminators(s[k + TerminatorLength(s[k..])..]);
    }
  }

  predicate KeptLine(line: string) {
    FilterLine(line) && !IsSpace(line[|line| - 1]) && !IsIntermediateProgress(line)
  }

  lemma KeepLineShape(line: string)
    requires NoTerminator(line)
    ensures forall l | l in KeepLine(line) :: KeptLine(l)
  {
    TrimSpaceShape(line);
  }

  lemma {:induction false} KeepLinesShape(lines: seq<string>)
    requires forall l | l in lines :: NoTerminator(l)
    ensures forall l | l in FlatMap(KeepLine, lines) :: KeptLine(l)
    decreases |lines|
  {
    if lines != [] {
      KeepLinesShape(lines[..|lines| - 1]);
      KeepLineShape(lines[|lines| - 1]);
    }
  }

  lemma KeptShape(chunk: string)
    ensures forall l | l in Kept(chunk) :: KeptLine(l)
  {
    SplitHasNoTerminators(chunk);
    KeepLinesShape(SplitLines(chunk));
  }

  // ---------------------------------------------------------------------
  // From the logger to storage
  // ---------------------------------------------------------------------

  // SaveLogsRaw drops blank messages.
  function KeepNonBlank(message: string): seq<string> {
    if TrimSpace(message) == "" then [] else [message]
  }

  function NonBlank(messages: seq<string>): seq<string> {
    FlatMap(KeepNonBlank, messages)
  }

  method FilterBlank(messages: seq<string>) returns (logs: seq<string>)
    ensures logs == NonBlank(messages)
  {
    logs := [];
    for i := 0 to |messages|
      invariant logs == FlatMap(KeepNonBlank, messages[..i])
    {
      assert messages[..i + 1][..i] == messages[..i];
      if TrimSpace(messages[i]) != "" {
        logs := logs + [messages[i]];
      }
    }
    assert messages[..|messages|] == messages;
  }

  function Prefixed(prefix: string, lines: seq<string>): seq<string> {
    if lines == [] then [] else Prefixed(prefix, lines[..|lines| - 1]) + [prefix + lines[|lines| - 1]]
  }

  // No line that the filter kept is dropped on the way to storage, whatever the prefix.
  lemma {:induction false} KeptLinesAreStored(prefix: string, lines: seq<string>)
    requires forall l | l in lines :: FilterLine(l)
    ensures NonBlank(Prefixed(prefix, lines)) == Prefixed(prefix, lines)
    decreases |lines|
  {
    if lines != [] {
      var m := |lines| - 1;
      KeptLinesAreStored(prefix, lines[..m]);
      var last := prefix + lines[m];
      assert FilterLine(lines[m]);
      assert last[|prefix|] == lines[m][0] && lines[m][0] in last;
      TrimSpaceShape(last);
    }
  }
}
