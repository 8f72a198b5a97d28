/**
 The worker's StreamLogger.  Every method holds the mutex, so any interleaving of callers,
 timer and senders is a sequence of the operations below.  The goroutine of a flushed batch
 has two: it reads the logger's source when it starts, without the mutex, and it settles later.
 */
module StreamLogger {
  import opened LogText
  import LogTextLaws

  datatype Source = BuildLog | RuntimeLog | SystemLog

  datatype Fate = InFlight | Sending(source: Source) | Delivered(source: Source) | Failed(source: Source)

  datatype Batch = Batch(lines: seq<string>, fate: Fate)

  // Batches are in flush order; `accepted` is every line ever taken in, in order.
  datatype LogState = LogState(
    batchSize: nat,
    prefix: string,
    source: Source,
    buffer: seq<string>,
    batches: seq<Batch>,
    accepted: seq<string>)

  datatype Op =
    | Write(chunk: string)
    | Log(message: string)
    | LogWithSource(source: Source, message: string, sent: bool)
    | Flush
    | AutoFlush(due: bool)
    | StartSend(batch: nat)
    | Finish(batch: nat, sent: bool)
    | SetSource(source: Source)
    | SetPrefix(prefix: string)

  function Fresh(batchSize: nat, prefix: string, source: Source): LogState {
    LogState(batchSize, prefix, source, [], [], [])
  }

  // The lines StreamLogger.Write takes from a chunk.
  function Received(chunk: string): seq<string> {
    FlatMap(KeepNonEmpty, ScanLines(chunk))
  }

  function KeepNonEmpty(line: string): seq<string> {
    if line == "" then [] else [line]
  }

  // flushLocked
  function FlushBuffer(s: LogState): LogState {
    if s.buffer == [] then s
    else s.(buffer := [], batches := s.batches + [Batch(s.buffer, InFlight)])
  }

  function Accept(s: LogState, lines: seq<string>): LogState {
    s.(buffer := s.buffer + lines, accepted := s.accepted + lines)
  }

  function FlushIfFull(s: LogState): LogState {
    if |s.buffer| >= s.batchSize then FlushBuffer(s) else s
  }

  function Outcome(source: Source, sent: bool): Fate {
    if sent then Delivered(source) else Failed(source)
  }

  predicate Pending(fate: Fate) {
    fate.InFlight? || fate.Sending?
  }

  // What a goroutine step makes of a batch's fate; anything else leaves it.
  function Advance(fate: Fate, op: Op, source: Source): Fate {
    match op
    case StartSend(_) => if fate.InFlight? then Sending(source) else fate
    case Finish(_, sent) => if fate.Sending? then Outcome(fate.source, sent) else fate
    case _ => fate
  }

  function WithFate(s: LogState, b: nat, op: Op): LogState {
    if b < |s.batches|
    then s.(batches := s.batches[b := s.batches[b].(fate := Advance(s.batches[b].fate, op, s.source))])
    else s
  }

  function Apply(s: LogState, op: Op): LogState {
    match op
    case Write(chunk) => FlushIfFull(Accept(s, Prefixed(s.prefix, Received(chunk))))
    case Log(message) => FlushIfFull(Accept(s, [s.prefix + message]))
    case LogWithSource(source, message, sent) =>
      var f := FlushBuffer(s);
      f.(batches := f.batches + [Batch([message], Outcome(source, sent))], accepted := f.accepted + [message])
    case Flush => FlushBuffer(s)
    case AutoFlush(due) => if due then FlushBuffer(s) else s
    case StartSend(b) => WithFate(s, b, op)
    case Finish(b, sent) => WithFate(s, b, op)
    case SetSource(source) => s.(source := source)
    case SetPrefix(prefix) => s.(prefix := prefix)
  }

  function Run(s: LogState, ops: seq<Op>): LogState {
    if ops == [] then s else Apply(Run(s, ops[..|ops| - 1]), ops[|ops| - 1])
  }

  // ---------------------------------------------------------------------
  // What each operation does to the buffer, the batches and the accepted lines
  // ---------------------------------------------------------------------

  ghost predicate SameSettings(s: LogState, t: LogState) {
    t.batchSize == s.batchSize && t.prefix == s.prefix && t.source == s.source
  }

  // The batches after the lines have been sent off together; no batch is empty.
  function SentOff(batches: seq<Batch>, lines: seq<string>): seq<Batch> {
    if lines == [] then batches else batches + [Batch(lines, InFlight)]
  }

  // The buffer is emptied into one batch.
  ghost predicate Flushed(s: LogState, t: LogState) {
    SameSettings(s, t) && t.accepted == s.accepted && t.buffer == [] && t.batches == SentOff(s.batches, s.buffer)
  }

  // The lines go behind the buffered ones, and all of them into one batch once the batch size is reached.
  ghost predicate Taken(s: LogState, t: LogState, lines: seq<string>) {
    && SameSettings(s, t) && t.accepted == s.accepted + lines
    && if |s.buffer + lines| < s.batchSize then t.buffer == s.buffer + lines && t.batches == s.batches
       else t.buffer == [] && t.batches == SentOff(s.batches, s.buffer + lines)
  }

  // Only the fate of the batch b changes.
  ghost predicate Fated(s: LogState, t: LogState, b: nat, fate: Fate) {
    b < |s.batches| && t == s.(batches := s.batches[b := Batch(s.batches[b].lines, fate)])
  }

  // The prefix goes before the lines of Write and Log, not before those of LogWithSource, which is
  // sent on its own behind the flushed buffer.
  lemma StepMeaning(s: LogState, op: Op)
    ensures var t := Apply(s, op);
            match op
            case Write(chunk) => Taken(s, t, Prefixed(s.prefix, Received(chunk)))
            case Log(message) => Taken(s, t, [s.prefix + message])
            case LogWithSource(source, message, sent) =>
              && SameSettings(s, t) && t.buffer == [] && t.accepted == s.accepted + [message]
              && t.batches == SentOff(s.batches, s.buffer)
                              + [Batch([message], if sent then Delivered(source) else Failed(source))]
            case Flush => Flushed(s, t)
            case AutoFlush(due) => if due then Flushed(s, t) else t == s
            case StartSend(b) =>
              if b < |s.batches| && s.batches[b].fate == InFlight then Fated(s, t, b, Sending(s.source)) else t == s
            case Finish(b, sent) =>
              if b < |s.batches| && s.batches[b].fate.Sending?
              then Fated(s, t, b, if sent then Delivered(s.batches[b].fate.source)
                                  else Failed(s.batches[b].fate.source))
              else t == s
            case SetSource(source) => t == s.(source := source)
            case SetPrefix(prefix) => t == s.(prefix := prefix)
  {
    match op {
      case StartSend(b) => SameFate(s, b);
      case Finish(b, _) => SameFate(s, b);
      case _ =>
    }
  }

  lemma SameFate(s: LogState, b: nat)
    ensures b < |s.batches| ==> s.batches[b := s.batches[b].(fate := s.batches[b].fate)] == s.batches
  {
  }

  // Of a chunk, Write takes every line of less than 65536 bytes that is not empty, without its
  // carriage return, up to the first that is too long.
  lemma ReceivedLaws(line: string, rest: string)
    requires '\n' !in line
    ensures Received(line + ("\n" + rest))
            == if |line| >= 65536 then [] else LineOf(line) + Received(rest)
    ensures Received(line) == if |line| >= 65536 then [] else LineOf(line)
  {
    LogTextLaws.ScanLaws(line, rest);
    FlatMapConcat(KeepNonEmpty, [DropCR(line)], ScanLines(rest));
    FlatMapOne(KeepNonEmpty, DropCR(line));
    if line != "" && DropCR(line) == "" { assert line == ['\r']; }
  }

  function LineOf(line: string): seq<string> {
    if line == "" || line == "\r" then [] else [DropCR(line)]
  }

  // ---------------------------------------------------------------------
  // Conservation
  // ---------------------------------------------------------------------

  function Shipped(batches: seq<Batch>): seq<string> {
    if batches == [] then [] else Shipped(batches[..|batches| - 1]) + batches[|batches| - 1].lines
  }

  // Nothing accepted is lost, repeated or reordered, no batch is empty, and between calls the
  // buffer is below the batch size (empty when the batch size is 0).
  ghost predicate Conserved(s: LogState) {
    && Shipped(s.batches) + s.buffer == s.accepted
    && (forall i :: 0 <= i < |s.batches| ==> s.batches[i].lines != [])
    && (s.buffer == [] || |s.buffer| < s.batchSize)
  }

  lemma ShippedSnoc(batches: seq<Batch>, b: Batch)
    ensures Shipped(batches + [b]) == Shipped(batches) + b.lines
  {
    assert (batches + [b])[..|batches|] == batches;
  }

  lemma {:induction false} ShippedUpdate(batches: seq<Batch>, i: nat, fate: Fate)
    requires i < |batches|
    ensures Shipped(batches[i := batches[i].(fate := fate)]) == Shipped(batches)
    decreases |batches|
  {
    var m := |batches| - 1;
    var updated := batches[i := batches[i].(fate := fate)];
    if i < m {
      ShippedUpdate(batches[..m], i, fate);
      assert updated[..m] == batches[..m][i := batches[..m][i].(fate := fate)];
    } else {
      assert updated[..m] == batches[..m];
    }
  }

  // Everything but the bound on the buffer.
  ghost predicate Accounted(s: LogState) {
    && Shipped(s.batches) + s.buffer == s.accepted
    && (forall i :: 0 <= i < |s.batches| ==> s.batches[i].lines != [])
  }

  lemma FlushKeeps(s: LogState)
    requires Accounted(s)
    ensures Accounted(FlushBuffer(s)) && FlushBuffer(s).buffer == []
  {
    if s.buffer != [] {
      var t := FlushBuffer(s);
      ShippedSnoc(s.batches, Batch(s.buffer, InFlight));
      assert Shipped(t.batches) + t.buffer == Shipped(t.batches);
    }
  }

  lemma AcceptKeeps(s: LogState, lines: seq<string>)
    requires Conserved(s)
    ensures Conserved(FlushIfFull(Accept(s, lines)))
  {
    var t := Accept(s, lines);
    assert t.accepted == Shipped(s.batches) + s.buffer + lines == Shipped(s.batches) + (s.buffer + lines);
    FlushKeeps(t);
  }

  lemma SyncKeeps(s: LogState, b: Batch)
    requires Accounted(s) && s.buffer == [] && b.lines != []
    ensures Conserved(s.(batches := s.batches + [b], accepted := s.accepted + b.lines))
  {
    ShippedSnoc(s.batches, b);
    assert Shipped(s.batches) + [] == Shipped(s.batches);
    assert Shipped(s.batches + [b]) + [] == s.accepted + b.lines;
  }

  lemma FateKeeps(s: LogState, b: nat, op: Op)
    requires Conserved(s)
    ensures Conserved(WithFate(s, b, op))
  {
    if b < |s.batches| { ShippedUpdate(s.batches, b, Advance(s.batches[b].fate, op, s.source)); }
  }

  lemma ApplyKeeps(s: LogState, op: Op)
    requires Conserved(s)
    ensures Conserved(Apply(s, op))
  {
    match op {
      case Write(chunk) => AcceptKeeps(s, Prefixed(s.prefix, Received(chunk)));
      case Log(message) => AcceptKeeps(s, [s.prefix + message]);
      case LogWithSource(source, message, sent) =>
        FlushKeeps(s);
        SyncKeeps(FlushBuffer(s), Batch([message], Outcome(source, sent)));
      case Flush => FlushKeeps(s);
      case AutoFlush(due) => FlushKeeps(s);
      case StartSend(b) => FateKeeps(s, b, op);
      case Finish(b, sent) => FateKeeps(s, b, op);
      case _ =>
    }
  }

  // After any interleaving: flushed batches, in flush order, then the buffer, are the accepted lines.
  lemma {:induction false} Conservation(s: LogState, ops: seq<Op>)
    requires Conserved(s)
    ensures Conserved(Run(s, ops))
    decreases |ops|
  {
    if ops != [] {
      Conservation(s, ops[..|ops| - 1]);
      ApplyKeeps(Run(s, ops[..|ops| - 1]), ops[|ops| - 1]);
    }
  }

  // ---------------------------------------------------------------------
  // Batches are never overwritten
  // ---------------------------------------------------------------------

  // What can become of a fate: the source is fixed by the start, and a settled fate is final.
  predicate FateContinues(before: Fate, after: Fate) {
    || before == after || before.InFlight?
    || (before.Sending? && !after.InFlight? && after.source == before.source)
  }

  // A later view of the same batches: their lines are fixed.
  ghost predicate Continues(before: seq<Batch>, after: seq<Batch>) {
    && |before| <= |after|
    && forall i :: 0 <= i < |before| ==>
         after[i].lines == before[i].lines && FateContinues(before[i].fate, after[i].fate)
  }

  lemma StepContinues(s: LogState, op: Op)
    ensures Continues(s.batches, Apply(s, op).batches) && s.accepted <= Apply(s, op).accepted
  {
  }

  lemma ContinuesOn(a: seq<Batch>, b: seq<Batch>, c: seq<Batch>)
    requires Continues(a, b) && Continues(b, c)
    ensures Continues(a, c)
  {
    forall i | 0 <= i < |a| ensures a[i].lines == c[i].lines && FateContinues(a[i].fate, c[i].fate) {
      assert FateContinues(a[i].fate, b[i].fate) && FateContinues(b[i].fate, c[i].fate);
    }
  }

  // A run is cut at step k.
  lemma PrefixRun(s: LogState, ops: seq<Op>, k: nat)
    requires k < |ops|
    ensures Run(s, ops[..k + 1]) == Apply(Run(s, ops[..k]), ops[k])
  {
    assert ops[..k + 1][..k] == ops[..k];
  }

  lemma {:induction false} LaterBatches(s: LogState, ops: seq<Op>, k: nat, n: nat)
    requires k <= n <= |ops|
    ensures Continues(Run(s, ops[..k]).batches, Run(s, ops[..n]).batches)
    decreases n
  {
    if k < n {
      LaterBatches(s, ops, k, n - 1);
      PrefixRun(s, ops, n - 1);
      var before := Run(s, ops[..n - 1]);
      StepContinues(before, ops[n - 1]);
      ContinuesOn(Run(s, ops[..k]).batches, before.batches, Apply(before, ops[n - 1]).batches);
    }
  }

  lemma {:induction false} BatchesAreFinal(s: LogState, ops: seq<Op>)
    ensures Continues(s.batches, Run(s, ops).batches)
    ensures s.accepted <= Run(s, ops).accepted
    decreases |ops|
  {
    if ops != [] {
      BatchesAreFinal(s, ops[..|ops| - 1]);
    }
  }

  // ---------------------------------------------------------------------
  // Close
  // ---------------------------------------------------------------------

  function InFlightCount(batches: seq<Batch>): nat {
    if batches == [] then 0
    else InFlightCount(batches[..|batches| - 1]) + if Pending(batches[|batches| - 1].fate) then 1 else 0
  }

  // What can still happen when the callers have stopped: timer, senders, the flush of Close.
  predicate Quiet(op: Op) {
    op.Flush? || op.AutoFlush? || op.StartSend? || op.Finish? || op.SetSource? || op.SetPrefix?
  }

  // A goroutine step never raises the number of batches in flight.
  lemma {:induction false} FateCount(batches: seq<Batch>, i: nat, fate: Fate)
    requires i < |batches| && (Pending(fate) ==> Pending(batches[i].fate))
    ensures InFlightCount(batches[i := batches[i].(fate := fate)]) <= InFlightCount(batches)
    decreases |batches|
  {
    var m := |batches| - 1;
    var updated := batches[i := batches[i].(fate := fate)];
    if i < m {
      FateCount(batches[..m], i, fate);
      assert updated[..m] == batches[..m][i := batches[..m][i].(fate := fate)];
    } else {
      assert updated[..m] == batches[..m];
    }
  }

  lemma QuietStep(s: LogState, op: Op)
    requires Quiet(op)
    ensures var t := Apply(s, op);
            && InFlightCount(t.batches) + (if t.buffer == [] then 0 else 1)
               <= InFlightCount(s.batches) + (if s.buffer == [] then 0 else 1)
            && (s.buffer == [] || op == Flush ==> t.buffer == [])
            && t.accepted == s.accepted
  {
    var t := Apply(s, op);
    if op.StartSend? || op.Finish? {
      if op.batch < |s.batches| {
        FateCount(s.batches, op.batch, Advance(s.batches[op.batch].fate, op, s.source));
      }
    } else if t.batches != s.batches {
      assert t.batches[..|s.batches|] == s.batches;
    }
  }

  lemma {:induction false} QuietRun(s: LogState, ops: seq<Op>)
    requires forall op | op in ops :: Quiet(op)
    ensures var t := Run(s, ops);
            && InFlightCount(t.batches) + (if t.buffer == [] then 0 else 1)
               <= InFlightCount(s.batches) + (if s.buffer == [] then 0 else 1)
            && ((s.buffer == [] || Flush in ops) ==> t.buffer == [])
            && t.accepted == s.accepted
    decreases |ops|
  {
    if ops != [] {
      var m := |ops| - 1;
      QuietRun(s, ops[..m]);
      assert ops[m] in ops;
      QuietStep(Run(s, ops[..m]), ops[m]);
      assert Flush in ops ==> Flush in ops[..m] || ops[m] == Flush;
    }
  }

  // Close waits until nothing is in flight and then flushes; without further callers, whatever the
  // timer and the senders do in between, the buffer ends empty with at most one batch in flight,
  // and every accepted line is in a batch.
  lemma AfterClose(s: LogState, ops: seq<Op>)
    requires Conserved(s) && InFlightCount(s.batches) == 0
    requires Flush in ops && forall op | op in ops :: Quiet(op)
    ensures var t := Run(s, ops);
            && t.buffer == [] && InFlightCount(t.batches) <= 1
            && Shipped(t.batches) == s.accepted
  {
    QuietRun(s, ops);
    Conservation(s, ops);
    var t := Run(s, ops);
    assert Shipped(t.batches) + t.buffer == Shipped(t.batches);
  }

  // ---------------------------------------------------------------------
  // The source of a batch
  // ---------------------------------------------------------------------

  function LastSource(source: Source, ops: seq<Op>): Source {
    if ops == [] then source
    else if ops[|ops| - 1].SetSource? then ops[|ops| - 1].source
    else LastSource(source, ops[..|ops| - 1])
  }

  lemma StepSource(s: LogState, op: Op)
    ensures Apply(s, op).source == if op.SetSource? then op.source else s.source
  {
  }

  lemma LastSourceSnoc(source: Source, ops: seq<Op>, op: Op)
    ensures LastSource(source, ops + [op]) == if op.SetSource? then op.source else LastSource(source, ops)
  {
    assert (ops + [op])[..|ops|] == ops;
  }

  lemma {:induction false} SourceAfter(s: LogState, ops: seq<Op>, k: nat, n: nat)
    requires k <= n <= |ops|
    ensures Run(s, ops[..n]).source == LastSource(Run(s, ops[..k]).source, ops[k..n])
    decreases n
  {
    if k < n {
      var between, op := ops[k..n - 1], ops[n - 1];
      var start, before := Run(s, ops[..k]).source, Run(s, ops[..n - 1]);
      SourceAfter(s, ops, k, n - 1);
      PrefixRun(s, ops, n - 1);
      StepSource(before, op);
      LastSourceSnoc(start, between, op);
      assert ops[k..n] == between + [op];
    }
  }

  // Step k flushes the batch b.
  predicate FlushedAt(s: LogState, ops: seq<Op>, k: nat, b: nat) {
    && k < |ops|
    && |Run(s, ops[..k]).batches| <= b < |Run(s, ops[..k + 1]).batches|
    && Run(s, ops[..k + 1]).batches[b].fate == InFlight
  }

  // Step m starts the goroutine of the batch b.
  predicate StartedAt(s: LogState, ops: seq<Op>, m: nat, b: nat) {
    && m < |ops| && ops[m] == StartSend(b)
    && b < |Run(s, ops[..m]).batches| && Run(s, ops[..m]).batches[b].fate == InFlight
  }

  // Only its own start takes a batch out of InFlight, and fixes its source.
  lemma StartStep(s: LogState, op: Op, t: LogState, b: nat)
    requires t == Apply(s, op) && b < |s.batches| && b < |t.batches| && t.batches[b].fate != InFlight
    ensures s.batches[b].fate == InFlight ==> op == StartSend(b) && t.batches[b].fate.source == s.source
    ensures s.batches[b].fate != InFlight ==> t.batches[b].fate.source == s.batches[b].fate.source
  {
  }

  // A batch that is past InFlight was started once, and keeps the source the logger had then.
  lemma {:induction false} FindStart(s: LogState, ops: seq<Op>, k: nat, b: nat, n: nat) returns (m: nat)
    requires k <= n <= |ops|
    requires b < |Run(s, ops[..k]).batches| && Run(s, ops[..k]).batches[b].fate == InFlight
    requires b < |Run(s, ops[..n]).batches| && Run(s, ops[..n]).batches[b].fate != InFlight
    ensures k <= m < n && StartedAt(s, ops, m, b)
    ensures Run(s, ops[..n]).batches[b].fate.source == Run(s, ops[..m]).source
    decreases n
  {
    assert k < n;
    m := n - 1;
    LaterBatches(s, ops, k, m);
    PrefixRun(s, ops, m);
    var before, after := Run(s, ops[..m]), Run(s, ops[..n]);
    StartStep(before, ops[m], after, b);
    if before.batches[b].fate != InFlight {
      m := FindStart(s, ops, k, b, m);
    }
  }

  // A batch is reported under the source the logger has when its goroutine starts.  That is the
  // source it was flushed under exactly when the last SetSource in between, if any, set that one.
  lemma LateSource(s: LogState, ops: seq<Op>, k: nat, b: nat) returns (m: nat)
    requires FlushedAt(s, ops, k, b)
    requires b < |Run(s, ops).batches| && Run(s, ops).batches[b].fate != InFlight
    ensures k < m < |ops| && StartedAt(s, ops, m, b)
    ensures Run(s, ops).batches[b].fate.source == LastSource(Run(s, ops[..k]).source, ops[k..m])
  {
    var n := |ops|;
    assert ops[..n] == ops;
    m := FindStart(s, ops, k + 1, b, n);
    SourceAfter(s, ops, k, m);
  }

  lemma {:induction false} NoSetSource(source: Source, ops: seq<Op>)
    requires forall op | op in ops :: !op.SetSource?
    ensures LastSource(source, ops) == source
    decreases |ops|
  {
    if ops != [] { NoSetSource(source, ops[..|ops| - 1]); }
  }

  // Where nothing sets the source, as in the worker, every flushed batch is reported under the
  // source the logger was made with.
  lemma SourceOfConstruction(s: LogState, ops: seq<Op>, k: nat, b: nat)
    requires forall op | op in ops :: !op.SetSource?
    requires FlushedAt(s, ops, k, b)
    requires b < |Run(s, ops).batches| && Run(s, ops).batches[b].fate != InFlight
    ensures Run(s, ops).batches[b].fate.source == s.source
  {
    var m := LateSource(s, ops, k, b);
    SourceAfter(s, ops, 0, k);
    NoSetSource(s.source, ops[0..k]);
    NoSetSource(s.source, ops[k..m]);
  }

  // A build line that is flushed, then SetSource, then the goroutine starts: it is reported under
  // the new source.
  lemma BuildLineReportedAsRuntime()
    ensures var ops := [Log("x"), Flush, SetSource(RuntimeLog), StartSend(0), Finish(0, true)];
            var s := Fresh(10, "", BuildLog);
            FlushedAt(s, ops, 1, 0) && Run(s, ops).batches == [Batch(["x"], Delivered(RuntimeLog))]
  {
    var ops := [Log("x"), Flush, SetSource(RuntimeLog), StartSend(0), Finish(0, true)];
    var s := Fresh(10, "", BuildLog);
    assert Run(s, ops[..0]) == s;
    PrefixRun(s, ops, 0);
    assert "" + "x" == "x" && [] + ["x"] == ["x"];
    var s1 := s.(buffer := ["x"], accepted := ["x"]);
    assert Run(s, ops[..1]) == s1;
    PrefixRun(s, ops, 1);
    var s2 := s1.(buffer := [], batches := [Batch(["x"], InFlight)]);
    assert Run(s, ops[..2]) == s2;
    PrefixRun(s, ops, 2);
    PrefixRun(s, ops, 3);
    PrefixRun(s, ops, 4);
    assert ops[..5] == ops;
  }

  // ---------------------------------------------------------------------
  // The logger itself: one backing array reused after every flush
  // ---------------------------------------------------------------------

  class Logger {
    const batchSize: nat
    var prefix: string
    var source: Source
    var buffer: array<string>
    var used: nat
    var batches: seq<array<string>>
    var fates: seq<Fate>
    ghost var state: LogState

    ghost predicate Valid()
      reads this, buffer, batches
    {
      && used <= buffer.Length
      && buffer !in batches
      && |fates| == |batches| == |state.batches|
      && state.batchSize == batchSize && state.prefix == prefix && state.source == source
      && state.buffer == buffer[..used]
      && (forall i :: 0 <= i < |batches| ==> state.batches[i] == Batch(batches[i][..], fates[i]))
    }

    constructor (batchSize: nat, prefix: string, source: Source)
      ensures Valid() && fresh(buffer) && batches == []
      ensures state == Fresh(batchSize, prefix, source) && Conserved(state)
    {
      this.batchSize, this.prefix, this.source := batchSize, prefix, source;
      buffer := new string[batchSize](_ => "");
      used, batches, fates := 0, [], [];
      state := Fresh(batchSize, prefix, source);
    }

    // append(sl.buffer, line): in place while there is room, into a larger array otherwise.
    method Append(line: string)
      requires Valid()
      modifies this`buffer, this`used, this`state, buffer
      ensures Valid() && state == Accept(old(state), [line])
      ensures buffer == old(buffer) || fresh(buffer)
      ensures batches == old(batches)
    {
      if used == buffer.Length {
        var larger := new string[2 * used + 1](_ => "");
        forall i | 0 <= i < used {
          larger[i] := buffer[i];
        }
        assert larger[..used] == buffer[..used];
        buffer := larger;
      }
      buffer[used] := line;
      used := used + 1;
      state := Accept(state, [line]);
      assert buffer[..used] == buffer[..used - 1] + [line];
    }

    // flushLocked: copy the lines out, then reuse the array from the start.
    method FlushLocked()
      requires Valid()
      modifies this`used, this`batches, this`fates, this`state
      ensures Valid() && state == FlushBuffer(old(state))
      ensures old(batches) <= batches
      ensures forall i :: |old(batches)| <= i < |batches| ==> fresh(batches[i])
    {
      if used == 0 {
        assert state.buffer == [];
        return;
      }
      var logs := new string[used](_ => "");
      forall i | 0 <= i < used {
        logs[i] := buffer[i];
      }
      assert logs[..] == buffer[..used];
      used := 0;
      batches := batches + [logs];
      fates := fates + [InFlight];
      state := FlushBuffer(state);
    }

    method FlushWhenFull()
      requires Valid()
      modifies this`used, this`batches, this`fates, this`state
      ensures Valid() && state == FlushIfFull(old(state))
      ensures old(batches) <= batches
      ensures forall i :: |old(batches)| <= i < |batches| ==> fresh(batches[i])
    {
      if used >= batchSize {
        FlushLocked();
      }
    }

    // io.Writer: every non-empty line the scanner yields, prefixed.
    method Write(chunk: string) returns (n: nat)
      requires Valid()
      modifies this`buffer, this`used, this`batches, this`fates, this`state, buffer
      ensures Valid() && state == Apply(old(state), Op.Write(chunk))
      ensures Taken(old(state), state, Prefixed(old(prefix), Received(chunk)))
      ensures n == |chunk|
      ensures buffer == old(buffer) || fresh(buffer)
      ensures old(batches) <= batches
      ensures forall i :: |old(batches)| <= i < |batches| ==> fresh(batches[i])
    {
      var lines := ScanLines(chunk);
      ghost var before := state;
      ghost var taken: seq<string> := [];
      assert Accept(before, []) == before;
      for i := 0 to |lines|
        invariant Valid() && batches == old(batches)
        invariant buffer == old(buffer) || fresh(buffer)
        invariant taken == FlatMap(KeepNonEmpty, lines[..i])
        invariant state == Accept(before, Prefixed(prefix, taken))
      {
        assert lines[..i + 1][..i] == lines[..i];
        var line := lines[i];
        if line != "" {
          assert (taken + [line])[..|taken|] == taken;
          AcceptTwice(before, Prefixed(prefix, taken), prefix + line);
          taken := taken + [line];
          Append(prefix + line);
        }
      }
      assert lines[..|lines|] == lines;
      FlushWhenFull();
      StepMeaning(before, Op.Write(chunk));
      return |chunk|;
    }

    method Log(message: string)
      requires Valid()
      modifies this`buffer, this`used, this`batches, this`fates, this`state, buffer
      ensures Valid() && state == Apply(old(state), Op.Log(message))
      ensures Taken(old(state), state, [old(prefix) + message])
    {
      StepMeaning(state, Op.Log(message));
      Append(prefix + message);
      FlushWhenFull();
    }

    // Synchronous: the buffer is flushed first, then the message is sent under its own source.
    method LogWithSource(source: Source, message: string) returns (sent: bool)
      requires Valid()
      modifies this`used, this`batches, this`fates, this`state
      ensures Valid() && state == Apply(old(state), Op.LogWithSource(source, message, sent))
      ensures state.buffer == [] && state.accepted == old(state).accepted + [message]
      ensures state.batches == SentOff(old(state).batches, old(state).buffer)
                               + [Batch([message], if sent then Delivered(source) else Failed(source))]
    {
      if used > 0 {
        FlushLocked();
      } else {
        assert FlushBuffer(state) == state;
      }
      sent := *;
      var single := new string[1](_ => message);
      assert single[..] == [message];
      ghost var op := Op.LogWithSource(source, message, sent);
      ghost var f := state;
      batches := batches + [single];
      fates := fates + [Outcome(source, sent)];
      state := f.(batches := f.batches + [Batch([message], Outcome(source, sent))],
                  accepted := f.accepted + [message]);
    }

    method Flush()
      requires Valid()
      modifies this`used, this`batches, this`fates, this`state
      ensures Valid() && state == Apply(old(state), Op.Flush)
      ensures Flushed(old(state), state)
    {
      StepMeaning(state, Op.Flush);
      FlushLocked();
    }

    // One turn of the timer goroutine; `elapsed` says whether FlushInterval has passed.
    method AutoFlush(elapsed: bool)
      requires Valid()
      modifies this`used, this`batches, this`fates, this`state
      ensures Valid() && state == Apply(old(state), Op.AutoFlush(elapsed))
      ensures if elapsed then Flushed(old(state), state) else state == old(state)
    {
      StepMeaning(state, Op.AutoFlush(elapsed));
      if elapsed && used > 0 {
        FlushLocked();
      } else {
        assert state.buffer == [] || !elapsed;
      }
    }

    // The goroutine of one flushed batch starts: the arguments of the send are evaluated.
    method BeginSend(b: nat)
      requires Valid() && b < |batches| && fates[b] == InFlight
      modifies this`fates, this`state
      ensures Valid() && state == Apply(old(state), StartSend(b))
      ensures fates == old(fates)[b := Sending(source)]
      ensures Fated(old(state), state, b, Sending(source))
    {
      fates := fates[b := Sending(source)];
      state := Apply(state, StartSend(b));
    }

    // The goroutine of one flushed batch completes, under the source it started with.
    method FinishSend(b: nat) returns (sent: bool)
      requires Valid() && b < |batches| && fates[b].Sending?
      modifies this`fates, this`state
      ensures Valid() && state == Apply(old(state), Finish(b, sent))
      ensures fates == old(fates)[b := if sent then Delivered(old(fates)[b].source) else Failed(old(fates)[b].source)]
      ensures Fated(old(state), state, b, fates[b])
    {
      sent := *;
      fates := fates[b := Outcome(fates[b].source, sent)];
      state := Apply(state, Finish(b, sent));
    }

    // Close, once wg.Wait has returned and with no other caller: the last flush.
    method CloseAfterWait()
      requires Valid() && Conserved(state) && InFlightCount(state.batches) == 0
      modifies this`used, this`batches, this`fates, this`state
      ensures Valid() && state.buffer == [] && InFlightCount(state.batches) <= 1
      ensures Shipped(state.batches) == old(state).accepted
    {
      Flush();
      assert [Op.Flush][..0] == [];
      assert Run(old(state), []) == old(state);
      AfterClose(old(state), [Op.Flush]);
    }
  }

  lemma AcceptTwice(s: LogState, lines: seq<string>, line: string)
    ensures Accept(Accept(s, lines), [line]) == Accept(s, lines + [line])
  {
    assert s.buffer + lines + [line] == s.buffer + (lines + [line]);
    assert s.accepted + lines + [line] == s.accepted + (lines + [line]);
  }
}
