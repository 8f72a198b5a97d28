/** What splitting, trimming, filtering and scanning mean, in terms of the pieces of a text. */
module LogTextLaws {
  import opened LogText

  // White space is space, tab, line feed, vertical tab, form feed and carriage return.
  lemma SpaceCodes(c: char)
    ensures IsSpace(c) <==> c as int in {9, 10, 11, 12, 13, 32}
    ensures IsTerminator(c) <==> c as int in {10, 13}
  {
  }

  // ---------------------------------------------------------------------
  // Lines
  // ---------------------------------------------------------------------

  // A line ends at "\n", at "\r\n" or at a lone "\r"; a last line may go without.
  lemma SplitLaws(line: string, rest: string)
    requires NoTerminator(line)
    ensures SplitLines(line + ("\n" + rest)) == [line] + SplitLines(rest)
    ensures SplitLines(line + ("\r\n" + rest)) == [line] + SplitLines(rest)
    ensures (rest == "" || rest[0] != '\n') ==> SplitLines(line + ("\r" + rest)) == [line] + SplitLines(rest)
    ensures SplitLines(line) == if line == "" then [] else [line]
  {
    SplitAt(line, "\n" + rest);
    SplitAt(line, "\r\n" + rest);
    SplitAt(line, "\r" + rest);
    SplitOpen(line);
    Behind("\n", rest);
    Behind("\r\n", rest);
    Behind("\r", rest);
  }

  lemma Behind(terminator: string, rest: string)
    ensures (terminator + rest)[|terminator|..] == rest
  {
  }

  ghost predicate Blank(s: string) {
    forall i | 0 <= i < |s| :: IsSpace(s[i])
  }

  predicate Trimmed(s: string) {
    s == "" || (!IsSpace(s[0]) && !IsSpace(s[|s| - 1]))
  }

  lemma {:induction false} TrimLeftOf(lead: string, s: string)
    requires Blank(lead) && (s == "" || !IsSpace(s[0]))
    ensures TrimLeft(lead + s) == s
    decreases |lead|
  {
    if lead == "" {
      assert lead + s == s;
    } else {
      assert (lead + s)[1..] == lead[1..] + s;
      TrimLeftOf(lead[1..], s);
    }
  }

  lemma {:induction false} TrimRightOf(s: string, trail: string)
    requires Blank(trail) && (s == "" || !IsSpace(s[|s| - 1]))
    ensures TrimRight(s + trail) == s
    decreases |trail|
  {
    if trail == "" {
      assert s + trail == s;
    } else {
      assert (s + trail)[..|s + trail| - 1] == s + trail[..|trail| - 1];
      TrimRightOf(s, trail[..|trail| - 1]);
    }
  }

  // Trimming takes the white space at both ends, and nothing else.
  lemma TrimOf(lead: string, s: string, trail: string)
    requires Blank(lead) && Blank(trail) && Trimmed(s)
    ensures TrimSpace(lead + (s + trail)) == s
  {
    if s == "" {
      assert Blank(lead + trail) && lead + (s + trail) == lead + trail == (lead + trail) + "";
      TrimLeftOf(lead + trail, "");
    } else {
      TrimLeftOf(lead, s + trail);
      TrimRightOf(s, trail);
    }
  }

  // ---------------------------------------------------------------------
  // What the progress filter drops
  // ---------------------------------------------------------------------

  ghost predicate Occurs(part: string, s: string) {
    exists before: string, after: string :: s == before + (part + after)
  }

  lemma ContainsIsOccurs(s: string, part: string)
    ensures Contains(s, part) <==> Occurs(part, s)
  {
    if Contains(s, part) {
      var i :| 0 <= i <= |s| && OccursAt(s, part, i);
      assert s == s[..i] + (part + s[i + |part|..]);
    }
    if Occurs(part, s) {
      var before: string, after: string :| s == before + (part + after);
      assert s[|before|..|before| + |part|] == part;
      assert OccursAt(s, part, |before|);
    }
  }

  ghost predicate Begins(s: string, start: string) {
    exists rest: string :: s == start + rest
  }

  lemma PrefixIsBegins(s: string, start: string)
    ensures start <= s <==> Begins(s, start)
  {
    if start <= s { assert s == start + s[|start|..]; }
  }

  ghost predicate CountsObjects(s: string) {
    || Begins(s, "Counting objects:") || Begins(s, "Compressing objects:") || Begins(s, "Receiving objects:")
    || Begins(s, "Resolving deltas:") || Begins(s, "Unpacking objects:")
  }

  lemma StartsIsCounts(s: string)
    ensures StartsProgress(s) <==> CountsObjects(s)
  {
    PrefixIsBegins(s, "Counting objects:");
    PrefixIsBegins(s, "Compressing objects:");
    PrefixIsBegins(s, "Receiving objects:");
    PrefixIsBegins(s, "Resolving deltas:");
    PrefixIsBegins(s, "Unpacking objects:");
  }

  // A line of git's own is intermediate when it begins with one of the five counters and "done"
  // occurs nowhere in it; a line of the remote's, when that holds behind its "remote: ".
  lemma ProgressMeaning(line: string)
    ensures !Begins(line, "remote: ") ==>
              (IsIntermediateProgress(line) <==> CountsObjects(line) && !Occurs("done", line))
    ensures IsIntermediateProgress("remote: " + line) <==> CountsObjects(line) && !Occurs("done", line)
  {
    PrefixIsBegins(line, "remote: ");
    StartsIsCounts(line);
    ContainsIsOccurs(line, "done");
    Behind("remote: ", line);
    RemoteContains(line);
  }

  // "done" cannot begin within "remote: ".
  lemma RemoteContains(line: string)
    ensures Contains("remote: " + line, "done") <==> Contains(line, "done")
  {
    var s := "remote: " + line;
    Behind("remote: ", line);
    if Contains(s, "done") {
      var i :| 0 <= i <= |s| && OccursAt(s, "done", i);
      assert s[i] == s[i..i + 4][0] == 'd';
      assert i >= 8;
      assert line[i - 8..i - 8 + 4] == s[i..i + 4];
      assert OccursAt(line, "done", i - 8);
    }
    if Contains(line, "done") {
      var i :| 0 <= i <= |line| && OccursAt(line, "done", i);
      assert s[i + 8..i + 8 + 4] == line[i..i + 4];
      assert OccursAt(s, "done", i + 8);
    }
  }

  // A line of output contributes its trimmed text, unless that is empty or intermediate progress.
  lemma KeepLineMeaning(lead: string, s: string, trail: string)
    requires Blank(lead) && Blank(trail) && Trimmed(s)
    ensures KeepLine(lead + (s + trail)) == if s == "" || IsIntermediateProgress(s) then [] else [s]
  {
    TrimOf(lead, s, trail);
  }

  // ---------------------------------------------------------------------
  // The scanner
  // ---------------------------------------------------------------------

  lemma {:induction false} NewlineIs(line: string, rest: string)
    requires '\n' !in line
    ensures NewlineAt(line + ("\n" + rest)) == |line| && NewlineAt(line) == |line|
    decreases |line|
  {
    if line != [] {
      assert line[0] in line && (line + ("\n" + rest))[1..] == line[1..] + ("\n" + rest);
      NewlineIs(line[1..], rest);
    }
  }

  // A token is a line without its "\n", or without "\r\n"; at a line of 65536 bytes or more the
  // scanner stops for good.
  lemma ScanLaws(line: string, rest: string)
    requires '\n' !in line
    ensures ScanLines(line + ("\n" + rest)) == if |line| >= 65536 then [] else [DropCR(line)] + ScanLines(rest)
    ensures ScanLines(line) == if line == "" || |line| >= 65536 then [] else [DropCR(line)]
    ensures DropCR(line + "\r") == line && (line == "" || line[|line| - 1] != '\r' ==> DropCR(line) == line)
  {
    NewlineIs(line, rest);
    var s := line + ("\n" + rest);
    assert s[..|line|] == line && s[|line| + 1..] == rest;
  }

  // ---------------------------------------------------------------------
  // Storage
  // ---------------------------------------------------------------------

  // A message is stored, in its place, unless it is all white space.
  lemma NonBlankNext(messages: seq<string>, m: string)
    ensures NonBlank(messages + [m]) == NonBlank(messages) + if Blank(m) then [] else [m]
  {
    FlatMapConcat(KeepNonBlank, messages, [m]);
    FlatMapOne(KeepNonBlank, m);
    TrimSpaceShape(m);
  }

  lemma {:induction false} PrefixedAt(prefix: string, lines: seq<string>)
    ensures |Prefixed(prefix, lines)| == |lines|
    ensures forall i | 0 <= i < |lines| :: Prefixed(prefix, lines)[i] == prefix + lines[i]
    decreases |lines|
  {
    if lines != [] { PrefixedAt(prefix, lines[..|lines| - 1]); }
  }
}
