/** The git progress filter in front of a StreamLogger, and what reaches storage. */
module GitProgress {
  import opened LogText
  import opened StreamLogger

  method KeepOutput(lines: seq<string>) returns (kept: seq<string>)
    ensures kept == KeepLines(lines)
  {
    kept := [];
    for i := 0 to |lines|
      invariant kept == FlatMap(KeepLine, lines[..i])
    {
      assert lines[..i + 1][..i] == lines[..i];
      var line := TrimSpace(lines[i]);
      if line == "" || IsIntermediateProgress(line) {
        assert kept + [] == kept;
        continue;
      }
      kept := kept + [line];
    }
    assert lines[..|lines|] == lines;
  }

  class ProgressFilter {
    const dest: Logger

    constructor (dest: Logger)
      ensures this.dest == dest
    {
      this.dest := dest;
    }

    // Trim and keep the lines of the chunk, and pass them on as one write if there are any.
    method Write(p: string) returns (n: nat)
      requires dest.Valid()
      modifies dest, dest.buffer
      ensures dest.Valid() && n == |p|
      ensures dest.state == Fed(old(dest.state), p)
      ensures if Kept(p) == [] then dest.state == old(dest.state)
              else Taken(old(dest.state), dest.state, Prefixed(old(dest.prefix), Kept(p)[..Scannable(Kept(p))]))
    {
      FedAccepts(dest.state, p);
      var lines := SplitIntoLines(p);
      var kept := KeepOutput(lines);
      if |kept| > 0 {
        var _ := dest.Write(JoinLines(kept));
      }
      return |p|;
    }
  }

  // The logger after the filter has been given one chunk.
  function Fed(s: LogState, chunk: string): LogState {
    if Kept(chunk) == [] then s else Apply(s, Op.Write(JoinLines(Kept(chunk))))
  }

  function FedAll(s: LogState, chunks: seq<string>): LogState {
    if chunks == [] then s else Fed(FedAll(s, chunks[..|chunks| - 1]), chunks[|chunks| - 1])
  }

  lemma {:induction false} NonEmptyAreKept(lines: seq<string>)
    requires forall l | l in lines :: l != ""
    ensures FlatMap(KeepNonEmpty, lines) == lines
    decreases |lines|
  {
    if lines != [] {
      var m := |lines| - 1;
      assert forall l | l in lines[..m] :: l in lines;
      NonEmptyAreKept(lines[..m]);
      assert lines[m] in lines && lines == lines[..m] + [lines[m]];
    }
  }

  // One chunk: the logger takes the kept lines, prefixed, up to the first of 64 KiB or more, in one
  // write, and none at all when there is nothing to keep.
  lemma FedAccepts(s: LogState, chunk: string)
    ensures if Kept(chunk) == [] then Fed(s, chunk) == s
            else Taken(s, Fed(s, chunk), Prefixed(s.prefix, Kept(chunk)[..Scannable(Kept(chunk))]))
    ensures Fed(s, chunk).accepted
            == s.accepted + Prefixed(s.prefix, Kept(chunk)[..Scannable(Kept(chunk))])
    ensures Fed(s, chunk).prefix == s.prefix
  {
    var kept := Kept(chunk);
    KeptShape(chunk);
    assert forall l | l in kept :: FilterLine(l);
    ScanPrefix(kept);
    var taken := kept[..Scannable(kept)];
    assert forall l | l in taken :: l in kept;
    NonEmptyAreKept(taken);
    StepMeaning(s, Op.Write(JoinLines(kept)));
    if kept == [] {
      assert taken == [];
      assert s.accepted + Prefixed(s.prefix, []) == s.accepted;
    }
  }

  lemma {:induction false} PrefixedConcat(prefix: string, a: seq<string>, b: seq<string>)
    ensures Prefixed(prefix, a + b) == Prefixed(prefix, a) + Prefixed(prefix, b)
    decreases |b|
  {
    if b == [] {
      assert a + b == a;
    } else {
      PrefixedConcat(prefix, a, b[..|b| - 1]);
      assert (a + b)[..|a + b| - 1] == a + b[..|b| - 1];
    }
  }

  // A further chunk of short lines adds exactly its kept lines.
  lemma FedNext(s: LogState, t: LogState, earlier: seq<string>, chunk: string)
    requires t.prefix == s.prefix && t.accepted == s.accepted + Prefixed(s.prefix, earlier)
    requires forall l | l in Kept(chunk) :: |l| < MAX_TOKEN
    ensures Fed(t, chunk).prefix == s.prefix
    ensures Fed(t, chunk).accepted == s.accepted + Prefixed(s.prefix, earlier + Kept(chunk))
  {
    var kept := Kept(chunk);
    FedAccepts(t, chunk);
    assert kept[..|kept|] == kept;
    PrefixedConcat(s.prefix, earlier, kept);
    Associate(s.accepted, Prefixed(s.prefix, earlier), Prefixed(s.prefix, kept));
  }

  lemma Associate(a: seq<string>, b: seq<string>, c: seq<string>)
    ensures (a + b) + c == a + (b + c)
  {
  }

  ghost predicate ShortLines(lines: seq<string>) {
    forall l | l in lines :: |l| < MAX_TOKEN
  }

  lemma ShortParts(a: seq<string>, b: seq<string>)
    requires ShortLines(a + b)
    ensures ShortLines(a) && ShortLines(b)
  {
    assert forall l | l in a || l in b :: l in a + b;
  }

  lemma {:induction false} FedAllAccepts(s: LogState, chunks: seq<string>)
    requires ShortLines(KeptOfChunks(chunks))
    ensures FedAll(s, chunks).accepted == s.accepted + Prefixed(s.prefix, KeptOfChunks(chunks))
    ensures FedAll(s, chunks).prefix == s.prefix
    decreases |chunks|
  {
    if chunks == [] {
      assert s.accepted + Prefixed(s.prefix, []) == s.accepted;
    } else {
      var before, last := chunks[..|chunks| - 1], chunks[|chunks| - 1];
      ShortParts(KeptOfChunks(before), Kept(last));
      FedAllAccepts(s, before);
      FedNext(s, FedAll(s, before), KeptOfChunks(before), last);
    }
  }

  // From git's output to the stored messages: however the output is cut at terminators, the logger
  // accepts exactly the kept lines of the whole output, and storing drops none of them.
  lemma OutputReachesStorage(s: LogState, chunks: seq<string>)
    requires CleanChunks(chunks)
    requires ShortLines(Kept(Flatten(chunks)))
    ensures FedAll(s, chunks).accepted == s.accepted + Prefixed(s.prefix, Kept(Flatten(chunks)))
    ensures NonBlank(Prefixed(s.prefix, Kept(Flatten(chunks)))) == Prefixed(s.prefix, Kept(Flatten(chunks)))
  {
    ChunkIndependence(chunks);
    FedAllAccepts(s, chunks);
    KeptShape(Flatten(chunks));
    assert forall l | l in Kept(Flatten(chunks)) :: FilterLine(l);
    KeptLinesAreStored(s.prefix, Kept(Flatten(chunks)));
  }
}
