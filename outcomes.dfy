/** The output the cmdlet writes, as functions of the session's oracles and
    the parameters: per resolved path (SplitContentPath), per pattern and per
    literal path (one iteration of each loop in ProcessRecord), and for a whole
    invocation. The lemmas state the batch's error isolation. */
module Outcomes {
  import opened Records
  import opened Streams
  import opened Chunking
  import opened Session

  /** What a piece of the cmdlet writes, in order, and how it ends. */
  datatype Trace = Trace(outputs: seq<Output>, status: Status)

  const Done: Trace := Trace([], Completed)

  /** Running `a` and then, only if `a` completed, `b`. */
  function Then(a: Trace, b: Trace): Trace
  {
    if a.status.Propagated? then a else Trace(a.outputs + b.outputs, b.status)
  }

  /** One error record written, the loop carrying on. */
  function Reported(e: ErrorRecord): Trace
  {
    Trace([Failure(e)], Completed)
  }

  /** An exception leaving without any output. */
  function Thrown(exception: string): Trace
  {
    Trace([], Propagated(exception))
  }

  /** `foreach (x in xs) step(x)`, left to right, stopping at the first step
      whose exception escapes. */
  function Fold(step: string -> Trace, xs: seq<string>): Trace
    decreases |xs|
  {
    if xs == [] then Done else Then(Fold(step, xs[..|xs| - 1]), step(xs[|xs| - 1]))
  }

  /** The parameters that decide how a file is split. */
  datatype Config = Config(asByteStream: bool, readCount: int)

  function LinesOf(lines: seq<string>): seq<Output>
  {
    seq(|lines|, i requires 0 <= i < |lines| => Line(lines[i]))
  }

  function ChunksOf(chunks: seq<seq<byte>>): seq<Output>
  {
    seq(|chunks|, i requires 0 <= i < |chunks| => Chunk(chunks[i]))
  }

  /** SplitContentPath(path): open the file, split it by lines or by chunks;
      a missing file or a denied access is reported as one error record; any
      other exception escapes. A negative ReadCount makes the buffer
      allocation throw OverflowException after the file is opened. */
  function PathTrace(c: Config, s: SessionState, path: string): Trace
  {
    match s.open(path)
    case Opened(f) =>
      if !c.asByteStream then Trace(LinesOf(f.lines), Completed)
      else if c.readCount < 0 then Thrown("OverflowException")
      else Trace(ChunksOf(Chunks(f.bytes, f.grants, c.readCount)), Completed)
    case FileNotFound => Reported(FileNotFoundError(path))
    case AccessDenied => Reported(AccessDeniedError(path))
    case OpenFault(e) => Thrown(e)
  }

  function PathStep(c: Config, s: SessionState): string -> Trace
  {
    path => PathTrace(c, s, path)
  }

  /** One iteration of the loop over Path: resolve the pattern; split every
      match if the provider is the file system, else report the provider;
      report a pattern the resolver cannot find. */
  function PatternTrace(c: Config, s: SessionState, pattern: string): Trace
  {
    match s.resolve(pattern)
    case Resolved(paths, provider) =>
      if provider == FileSystem then Fold(PathStep(c, s), paths)
      else Reported(ProviderError(provider))
    case ItemNotFound => Reported(ItemNotFoundError(pattern))
    case ResolutionFault(e) => Thrown(e)
  }

  function PatternStep(c: Config, s: SessionState): string -> Trace
  {
    pattern => PatternTrace(c, s, pattern)
  }

  /** One iteration of the loop over LiteralPath. */
  function LiteralTrace(c: Config, s: SessionState, literal: string): Trace
  {
    match s.unresolve(literal)
    case ProviderPath(path) => PathTrace(c, s, path)
    case LiteralNotFound => Reported(ItemNotFoundError(literal))
    case LiteralFault(e) => Thrown(e)
  }

  function LiteralStep(c: Config, s: SessionState): string -> Trace
  {
    literal => LiteralTrace(c, s, literal)
  }

  /** ProcessRecord: every pattern, then every literal path. */
  function InvocationTrace(c: Config, s: SessionState, patterns: seq<string>, literals: seq<string>): Trace
  {
    Then(Fold(PatternStep(c, s), patterns), Fold(LiteralStep(c, s), literals))
  }

  // ---------------------------------------------------------------------------
  // The batch loop

  /** The invocation's trace is the patterns' when one of them let an
      exception escape, and otherwise the patterns' output followed by the
      literal paths'. */
  lemma InvocationParts(c: Config, s: SessionState, patterns: seq<string>, literals: seq<string>)
    ensures var p, l := Fold(PatternStep(c, s), patterns), Fold(LiteralStep(c, s), literals);
            InvocationTrace(c, s, patterns, literals) == if p.status.Propagated? then p else Trace(p.outputs + l.outputs, l.status)
  {
  }

  /** One more trip round a `foreach` loop whose earlier trips completed,
      seen from the output so far: `before` is what had been written when
      the trip started and `after` what has been written when it ends; the
      trace of the first j + 1 items ends as the trip did. */
  lemma FoldTrip(step: string -> Trace, xs: seq<string>, j: nat,
                 base: seq<Output>, before: seq<Output>, after: seq<Output>, status: Status)
    requires j < |xs| && Fold(step, xs[..j]).status == Completed
    requires before == base + Fold(step, xs[..j]).outputs
    requires after == before + step(xs[j]).outputs && status == step(xs[j]).status
    ensures Fold(step, xs[..j + 1]).status == status && after == base + Fold(step, xs[..j + 1]).outputs
  {
    FoldStep(step, xs, j);
    var done := Fold(step, xs[..j]).outputs;
    assert after == base + (done + step(xs[j]).outputs);
  }

  /** The trace of the first j + 1 items, from that of the first j. */
  lemma FoldStep(step: string -> Trace, xs: seq<string>, j: nat)
    requires j < |xs|
    ensures Fold(step, xs[..j + 1]) == Then(Fold(step, xs[..j]), step(xs[j]))
  {
    var prefix := xs[..j + 1];
    assert prefix[..|prefix| - 1] == xs[..j] && prefix[|prefix| - 1] == xs[j];
  }

  lemma ThenAssociative(a: Trace, b: Trace, c: Trace)
    ensures Then(Then(a, b), c) == Then(a, Then(b, c))
  {
  }

  /** Looping over two lists one after the other is looping over the first,
      then, if nothing escaped, over the second. */
  lemma {:induction false} FoldAppend(step: string -> Trace, xs: seq<string>, ys: seq<string>)
    ensures Fold(step, xs + ys) == Then(Fold(step, xs), Fold(step, ys))
    decreases |ys|
  {
    if ys == [] {
      assert xs + ys == xs;
    } else {
      var zs := xs + ys;
      assert zs[..|zs| - 1] == xs + ys[..|ys| - 1];
      assert zs[|zs| - 1] == ys[|ys| - 1];
      FoldAppend(step, xs, ys[..|ys| - 1]);
      ThenAssociative(Fold(step, xs), Fold(step, ys[..|ys| - 1]), step(ys[|ys| - 1]));
    }
  }

  /** An item's trace in the middle of a batch: what comes before runs first,
      then the item, then what comes after. */
  lemma IsolatedItem(step: string -> Trace, pre: seq<string>, x: string, post: seq<string>)
    ensures Fold(step, pre + [x] + post) == Then(Then(Fold(step, pre), step(x)), Fold(step, post))
  {
    FoldAppend(step, pre + [x], post);
    FoldAppend(step, pre, [x]);
    assert [x][..0] == [];
  }

  /** The outputs of the items one after the other, each item's outputs in one
      contiguous block. */
  function Joined(step: string -> Trace, xs: seq<string>): seq<Output>
  {
    if xs == [] then [] else step(xs[0]).outputs + Joined(step, xs[1..])
  }

  /** A batch completes exactly when every item completes, and its output is
      then each item's output in input order, never interleaved. */
  lemma {:induction false} FoldCompleted(step: string -> Trace, xs: seq<string>)
    ensures Fold(step, xs).status == Completed <==> forall i :: 0 <= i < |xs| ==> step(xs[i]).status == Completed
    ensures Fold(step, xs).status == Completed ==> Fold(step, xs).outputs == Joined(step, xs)
    decreases |xs|
  {
    if xs != [] {
      assert xs == [xs[0]] + xs[1..];
      FoldAppend(step, [xs[0]], xs[1..]);
      assert [xs[0]][..0] == [];
      FoldCompleted(step, xs[1..]);
      assert forall i :: 1 <= i < |xs| ==> xs[i] == xs[1..][i - 1];
    }
  }

  /** Once a prefix of the batch lets an exception escape, the rest of the
      batch adds nothing. */
  lemma PropagatedPrefix(step: string -> Trace, xs: seq<string>, k: nat)
    requires k <= |xs|
    requires Fold(step, xs[..k]).status.Propagated?
    ensures Fold(step, xs) == Fold(step, xs[..k])
  {
    assert xs == xs[..k] + xs[k..];
    FoldAppend(step, xs[..k], xs[k..]);
  }

  /** The first item whose exception escapes ends the batch: the output is
      what the items before it wrote, then what it wrote itself. */
  lemma FirstEscapeEndsBatch(step: string -> Trace, xs: seq<string>, i: nat)
    requires i < |xs|
    requires forall j :: 0 <= j < i ==> step(xs[j]).status == Completed
    requires step(xs[i]).status.Propagated?
    ensures Fold(step, xs).status == step(xs[i]).status
    ensures Fold(step, xs).outputs == Joined(step, xs[..i]) + step(xs[i]).outputs
  {
    var pre, post := xs[..i], xs[i + 1..];
    assert Fold(step, pre) == Trace(Joined(step, pre), Completed) by {
      assert forall j :: 0 <= j < |pre| ==> step(pre[j]).status == Completed;
      FoldCompleted(step, pre);
    }
    EscapeAfter(step, pre, xs[i], post);
    assert xs == pre + [xs[i]] + post;
  }

  /** An item whose exception escapes after items that all completed: the
      batch ends with that exception, and nothing after it is written. */
  lemma EscapeAfter(step: string -> Trace, pre: seq<string>, x: string, post: seq<string>)
    requires Fold(step, pre).status == Completed && step(x).status.Propagated?
    ensures Fold(step, pre + [x] + post) == Trace(Fold(step, pre).outputs + step(x).outputs, step(x).status)
  {
    IsolatedItem(step, pre, x, post);
  }

  // ---------------------------------------------------------------------------
  // Error isolation, item by item

  /** The three ways one resolved path can end. */
  ghost predicate EmitsRecords(t: Trace)
  {
    t.status == Completed && forall i :: 0 <= i < |t.outputs| ==> !t.outputs[i].Failure?
  }

  ghost predicate ReportsOneError(t: Trace)
  {
    t.status == Completed && |t.outputs| == 1 && t.outputs[0].Failure?
  }

  ghost predicate Escapes(t: Trace)
  {
    t.status.Propagated? && t.outputs == []
  }

  /** Every path ends in exactly one of: records and no error; exactly one
      error record (FileNotFoundException or UnauthorizedAccessException, on
      the resolved path); an exception that escapes with nothing written. */
  lemma PathOutcome(c: Config, s: SessionState, path: string)
    ensures EmitsRecords(PathTrace(c, s, path)) || ReportsOneError(PathTrace(c, s, path)) || Escapes(PathTrace(c, s, path))
    ensures ReportsOneError(PathTrace(c, s, path)) <==> s.open(path).FileNotFound? || s.open(path).AccessDenied?
    ensures s.open(path).FileNotFound? ==> PathTrace(c, s, path).outputs == [Failure(FileNotFoundError(path))]
    ensures s.open(path).AccessDenied? ==> PathTrace(c, s, path).outputs == [Failure(AccessDeniedError(path))]
    ensures Escapes(PathTrace(c, s, path)) <==> s.open(path).OpenFault? || (s.open(path).Opened? && c.asByteStream && c.readCount < 0)
    ensures Escapes(PathTrace(c, s, path)) ==> PathTrace(c, s, path).status.exception !in {"FileNotFoundException", "UnauthorizedAccessException"}
  {
  }

  /** A pattern the resolver cannot find writes one ResourceUnavailable error
      whose target is the pattern, and the remaining patterns still run. */
  lemma MissingPatternIsolated(c: Config, s: SessionState, pre: seq<string>, pattern: string, post: seq<string>)
    requires s.resolve(pattern).ItemNotFound?
    ensures Fold(PatternStep(c, s), pre + [pattern] + post)
         == Then(Then(Fold(PatternStep(c, s), pre), Reported(ItemNotFoundError(pattern))), Fold(PatternStep(c, s), post))
  {
    IsolatedItem(PatternStep(c, s), pre, pattern, post);
  }

  /** A pattern served by another provider writes one NotImplemented
      "ProviderError" and no record, and the remaining patterns still run. */
  lemma ForeignProviderIsolated(c: Config, s: SessionState, pre: seq<string>, pattern: string, post: seq<string>)
    requires s.resolve(pattern).Resolved? && s.resolve(pattern).provider != FileSystem
    ensures Fold(PatternStep(c, s), pre + [pattern] + post)
         == Then(Then(Fold(PatternStep(c, s), pre), Reported(ProviderError(s.resolve(pattern).provider))), Fold(PatternStep(c, s), post))
  {
    IsolatedItem(PatternStep(c, s), pre, pattern, post);
  }

  /** A file-system pattern that matches nothing writes nothing at all,
      neither record nor error: the batch is as if it were absent. A pattern
      of another provider is reported even with no matches. */
  lemma ZeroMatchesSilent(c: Config, s: SessionState, pre: seq<string>, pattern: string, post: seq<string>)
    requires s.resolve(pattern) == Resolved([], FileSystem)
    ensures Fold(PatternStep(c, s), pre + [pattern] + post) == Fold(PatternStep(c, s), pre + post)
  {
    IsolatedItem(PatternStep(c, s), pre, pattern, post);
    FoldAppend(PatternStep(c, s), pre, post);
    assert PatternTrace(c, s, pattern) == Done;
  }

  /** A literal path the resolver rejects writes one ResourceUnavailable
      error whose target is the literal string, and the next literal runs. */
  lemma MissingLiteralIsolated(c: Config, s: SessionState, pre: seq<string>, literal: string, post: seq<string>)
    requires s.unresolve(literal).LiteralNotFound?
    ensures Fold(LiteralStep(c, s), pre + [literal] + post)
         == Then(Then(Fold(LiteralStep(c, s), pre), Reported(ItemNotFoundError(literal))), Fold(LiteralStep(c, s), post))
  {
    IsolatedItem(LiteralStep(c, s), pre, literal, post);
  }

  /** A literal path whose file is missing or unreadable writes exactly one
      error record, naming the resolved path, and the next literal runs. */
  lemma UnopenableLiteralIsolated(c: Config, s: SessionState, pre: seq<string>, literal: string, post: seq<string>)
    requires s.unresolve(literal).ProviderPath?
    requires s.open(s.unresolve(literal).path).FileNotFound? || s.open(s.unresolve(literal).path).AccessDenied?
    ensures ReportsOneError(LiteralTrace(c, s, literal))
    ensures LiteralTrace(c, s, literal).outputs[0].error.target == PathTarget(s.unresolve(literal).path)
    ensures Fold(LiteralStep(c, s), pre + [literal] + post)
         == Then(Then(Fold(LiteralStep(c, s), pre), LiteralTrace(c, s, literal)), Fold(LiteralStep(c, s), post))
  {
    IsolatedItem(LiteralStep(c, s), pre, literal, post);
  }

  /** All patterns run before any literal path, and when nothing escapes each
      input's output is one contiguous block, in input order. */
  lemma PatternsBeforeLiterals(c: Config, s: SessionState, patterns: seq<string>, literals: seq<string>)
    requires InvocationTrace(c, s, patterns, literals).status == Completed
    ensures InvocationTrace(c, s, patterns, literals).outputs
         == Joined(PatternStep(c, s), patterns) + Joined(LiteralStep(c, s), literals)
  {
    FoldCompleted(PatternStep(c, s), patterns);
    FoldCompleted(LiteralStep(c, s), literals);
  }

  // ---------------------------------------------------------------------------
  // One error record per failed input

  function Failures(outs: seq<Output>): nat
  {
    if outs == [] then 0 else (if outs[0].Failure? then 1 else 0) + Failures(outs[1..])
  }

  lemma {:induction false} FailuresAppend(a: seq<Output>, b: seq<Output>)
    ensures Failures(a + b) == Failures(a) + Failures(b)
    decreases |a|
  {
    if a == [] {
      assert a + b == b;
    } else {
      assert (a + b)[1..] == a[1..] + b;
      FailuresAppend(a[1..], b);
    }
  }

  lemma {:induction false} NoFailures(outs: seq<Output>)
    requires forall i :: 0 <= i < |outs| ==> !outs[i].Failure?
    ensures Failures(outs) == 0
    decreases |outs|
  {
    if outs != [] {
      NoFailures(outs[1..]);
    }
  }

  /** Sum of `count` over the items. */
  function Tally(count: string -> nat, xs: seq<string>): nat
    decreases |xs|
  {
    if xs == [] then 0 else Tally(count, xs[..|xs| - 1]) + count(xs[|xs| - 1])
  }

  /** If every item that completes writes `count` error records, a batch that
      completes writes their sum. */
  lemma {:induction false} FoldFailures(step: string -> Trace, count: string -> nat, xs: seq<string>)
    requires forall x :: step(x).status == Completed ==> Failures(step(x).outputs) == count(x)
    ensures Fold(step, xs).status == Completed ==> Failures(Fold(step, xs).outputs) == Tally(count, xs)
    decreases |xs|
  {
    if xs != [] {
      var init, last := xs[..|xs| - 1], xs[|xs| - 1];
      FoldFailures(step, count, init);
      FailuresAppend(Fold(step, init).outputs, step(last).outputs);
    }
  }

  /** 1 when opening the path fails in a way the cmdlet reports. */
  function FailedPath(s: SessionState): string -> nat
  {
    path => if s.open(path).FileNotFound? || s.open(path).AccessDenied? then 1 else 0
  }

  /** The failed inputs a pattern stands for: itself when the resolver cannot
      find it or hands it to another provider, else its unopenable matches. */
  function FailedPattern(s: SessionState): string -> nat
  {
    pattern => FailuresOfPattern(s, pattern)
  }

  function FailuresOfPattern(s: SessionState, pattern: string): nat
  {
    match s.resolve(pattern)
    case Resolved(paths, provider) => if provider == FileSystem then Tally(FailedPath(s), paths) else 1
    case ItemNotFound => 1
    case ResolutionFault(_) => 0
  }

  function FailedLiteral(s: SessionState): string -> nat
  {
    literal => FailuresOfLiteral(s, literal)
  }

  function FailuresOfLiteral(s: SessionState, literal: string): nat
  {
    match s.unresolve(literal)
    case ProviderPath(path) => FailedPath(s)(path)
    case LiteralNotFound => 1
    case LiteralFault(_) => 0
  }

  lemma PathFailures(c: Config, s: SessionState, path: string)
    ensures PathTrace(c, s, path).status == Completed ==> Failures(PathTrace(c, s, path).outputs) == FailedPath(s)(path)
  {
    if s.open(path).Opened? && PathTrace(c, s, path).status == Completed {
      NoFailures(PathTrace(c, s, path).outputs);
    }
  }

  lemma PatternFailures(c: Config, s: SessionState, pattern: string)
    ensures PatternTrace(c, s, pattern).status == Completed ==> Failures(PatternTrace(c, s, pattern).outputs) == FailedPattern(s)(pattern)
  {
    forall path ensures PathStep(c, s)(path).status == Completed ==> Failures(PathStep(c, s)(path).outputs) == FailedPath(s)(path) {
      PathFailures(c, s, path);
    }
    match s.resolve(pattern)
    case Resolved(paths, provider) =>
      FoldFailures(PathStep(c, s), FailedPath(s), paths);
    case ItemNotFound =>
    case ResolutionFault(_) =>
  }

  /** When an invocation completes, it has written exactly one error record
      per failed input: per pattern the resolver cannot find, per pattern of
      another provider, per literal path it cannot resolve, and per resolved
      file that is missing or denied. */
  lemma OneErrorPerFailedInput(c: Config, s: SessionState, patterns: seq<string>, literals: seq<string>)
    requires InvocationTrace(c, s, patterns, literals).status == Completed
    ensures Failures(InvocationTrace(c, s, patterns, literals).outputs)
         == Tally(FailedPattern(s), patterns) + Tally(FailedLiteral(s), literals)
  {
    forall pattern ensures PatternStep(c, s)(pattern).status == Completed ==> Failures(PatternStep(c, s)(pattern).outputs) == FailedPattern(s)(pattern) {
      PatternFailures(c, s, pattern);
    }
    forall literal ensures LiteralStep(c, s)(literal).status == Completed ==> Failures(LiteralStep(c, s)(literal).outputs) == FailedLiteral(s)(literal) {
      if s.unresolve(literal).ProviderPath? {
        PathFailures(c, s, s.unresolve(literal).path);
      }
    }
    FoldFailures(PatternStep(c, s), FailedPattern(s), patterns);
    FoldFailures(LiteralStep(c, s), FailedLiteral(s), literals);
    FailuresAppend(Fold(PatternStep(c, s), patterns).outputs, Fold(LiteralStep(c, s), literals).outputs);
  }
}
