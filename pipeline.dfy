/**
 * The orchestrator (src/pipeline/mod.rs): `start_pipeline` marks the host as processing and
 * runs parse, string masking, function renaming and output in order on a worker, announcing
 * each step's share of the progress bar and stopping at the first step that returns an error.
 *
 * The worker sees the steps only through the `PipelineStep` trait. Accordingly, the properties
 * of a run are proved for the worker assembled from any four step runs that behave as the step
 * modules prove their steps do (`StepsBehave`), and `TranscriptsBehave` shows that the four
 * actual steps do.
 */
module Pipeline {
  import opened Wrappers
  import opened Text
  import opened PipelineTypes
  import Parse
  import EncryptStrings
  import ObfuscateFunctions
  import WriteOutput
  import State

  /** The progress announced before step `i`: `i / total`, with `total` the four steps. */
  function StepMarker(i: nat): PipelineMessage {
    Progress(Fraction(i, 4))
  }

  /** Everything the worker sends over the channel, in order, and the files it writes. */
  datatype WorkerRun = WorkerRun(msgs: seq<PipelineMessage>, ops: seq<FileOp>)

  /**
   * The worker from step `i` on, given what each step does: the step's marker, what the step
   * sends, and either the error it returned (and nothing more) or the rest of the steps; after
   * the last step, full progress.
   */
  function Assemble(runs: seq<StepRun>, i: nat): WorkerRun
    requires i <= |runs| == 4
    decreases |runs| - i
  {
    if i == |runs| then WorkerRun([Progress(1.0)], [])
    else
      var head := [StepMarker(i)] + runs[i].sent;
      if runs[i].outcome.Err? then WorkerRun(head + [Error(runs[i].outcome.error)], runs[i].ops)
      else
        var rest := Assemble(runs, i + 1);
        WorkerRun(head + rest.msgs, runs[i].ops + rest.ops)
  }

  /** What each of the four steps does on the input, in the order the worker runs them. */
  function Transcripts(ctx: PipelineContext, env: Environment): (runs: seq<StepRun>)
    ensures |runs| == 4
  {
    [ParseRun(ctx, env), EncryptRun(ctx, env), ObfuscateRun(ctx, env), WriteRun(ctx, env)]
  }

  /** The transcripts of the four steps on one input. */
  function ParseRun(ctx: PipelineContext, env: Environment): StepRun { Parse.Transcript(ctx, env) }
  function EncryptRun(ctx: PipelineContext, env: Environment): StepRun { EncryptStrings.Transcript(ctx, env) }
  function ObfuscateRun(ctx: PipelineContext, env: Environment): StepRun { ObfuscateFunctions.Transcript(ctx, env) }
  function WriteRun(ctx: PipelineContext, env: Environment): StepRun { WriteOutput.Transcript(ctx, env) }

  /** The whole worker thread of `start_pipeline`. */
  function Worker(ctx: PipelineContext, env: Environment): WorkerRun {
    Assemble(Transcripts(ctx, env), 0)
  }

  /** `steps[i].run(..)` through the boxed trait object. */
  method RunStep(i: nat, ctx: PipelineContext, env: Environment) returns (t: StepRun)
    requires i < 4
    ensures t == Transcripts(ctx, env)[i]
  {
    if i == 0 {
      t := Parse.Run(ctx, env);
    } else if i == 1 {
      t := EncryptStrings.Run(ctx, env);
    } else if i == 2 {
      t := ObfuscateFunctions.Run(ctx, env);
    } else {
      t := WriteOutput.Run(ctx, env);
    }
  }

  /** The worker's loop over the steps, then the final full progress. */
  method RunWorker(ctx: PipelineContext, env: Environment) returns (run: WorkerRun)
    ensures run == Worker(ctx, env)
  {
    ghost var runs := Transcripts(ctx, env);
    var msgs: seq<PipelineMessage> := [];
    var ops: seq<FileOp> := [];
    var i := 0;
    while i < 4
      invariant 0 <= i <= 4
      invariant Assemble(runs, 0) == WorkerRun(msgs + Assemble(runs, i).msgs, ops + Assemble(runs, i).ops)
    {
      var t := RunStep(i, ctx, env);
      AssembleStep(runs, i, msgs, ops);
      if t.outcome.Err? {
        return WorkerRun(msgs + ([StepMarker(i)] + t.sent) + [Error(t.outcome.error)], ops + t.ops);
      }
      msgs := msgs + ([StepMarker(i)] + t.sent);
      ops := ops + t.ops;
      i := i + 1;
    }
    run := WorkerRun(msgs + [Progress(1.0)], ops);
  }

  /** One more step of the worker's loop: it either ends the run or leaves the rest to do. */
  lemma AssembleStep(runs: seq<StepRun>, i: nat, msgs: seq<PipelineMessage>, ops: seq<FileOp>)
    requires i < |runs| == 4
    ensures var t, head := runs[i], [StepMarker(i)] + runs[i].sent;
      && (t.outcome.Err? ==>
            WorkerRun(msgs + Assemble(runs, i).msgs, ops + Assemble(runs, i).ops)
            == WorkerRun(msgs + head + [Error(t.outcome.error)], ops + t.ops))
      && (t.outcome.Ok? ==>
            WorkerRun(msgs + Assemble(runs, i).msgs, ops + Assemble(runs, i).ops)
            == WorkerRun((msgs + head) + Assemble(runs, i + 1).msgs, (ops + t.ops) + Assemble(runs, i + 1).ops))
  {
    var t, head := runs[i], [StepMarker(i)] + runs[i].sent;
    if t.outcome.Err? {
      assert msgs + (head + [Error(t.outcome.error)]) == msgs + head + [Error(t.outcome.error)];
    } else {
      var rest := Assemble(runs, i + 1);
      assert msgs + (head + rest.msgs) == (msgs + head) + rest.msgs;
      assert ops + (t.ops + rest.ops) == (ops + t.ops) + rest.ops;
    }
  }

  /**
   * `start_pipeline` on the host side: installs the receiver and marks the host as processing
   * with an empty progress bar; the file is handed to the worker, `RunWorker` on the context
   * returned.
   */
  method StartPipeline(s: State.ObscuraState, filePath: string) returns (ctx: PipelineContext)
    modifies s
    ensures s.pipelineRx && s.processing && s.progress == 0.0
    ensures s.logs == old(s.logs) && s.lastOutput == old(s.lastOutput) && s.cancelFlag == old(s.cancelFlag)
    ensures s.Auth() == old(s.Auth()) && s.email == old(s.email) && s.password == old(s.password)
    ensures s.selectedFile == old(s.selectedFile)
    ensures s.encryptStrings == old(s.encryptStrings) && s.obfuscateFunctions == old(s.obfuscateFunctions)
    ensures old(s.Valid()) ==> s.Valid()
    ensures ctx.inputPath == filePath
  {
    s.pipelineRx := true;
    s.processing := true;
    s.progress := 0.0;
    ctx := PipelineContext(filePath);
  }

  // ---------------------------------------------------------------------------------------
  // What the worker relies on about each step
  // ---------------------------------------------------------------------------------------

  ghost predicate NoDone(msgs: seq<PipelineMessage>) {
    forall i :: 0 <= i < |msgs| ==> !msgs[i].Done?
  }

  /**
   * Parsing returns `Ok`, writes nothing, and sends logs and progress within [0, 0.20] followed
   * by a last message that is an `Error` exactly when the input is unreadable or not a PE image,
   * and a log otherwise.
   */
  ghost predicate ParseBehaves(env: Environment, r: StepRun) {
    && r.outcome.Ok? && r.ops == []
    && |r.sent| >= 5
    && (forall i :: 0 <= i < |r.sent| - 1 ==> r.sent[i].Log? || r.sent[i].Progress?)
    && (r.sent[|r.sent| - 1].Error? <==> Parse.Fails(env))
    && (r.sent[|r.sent| - 1].Error? || r.sent[|r.sent| - 1].Log?)
    && ProgressWithin(r.sent, 0.0, 0.20)
  }

  /**
   * String masking opens with progress 0.15, sends no verdict, keeps progress within
   * [0.15, 0.85], writes at most one file that is not the input, and fails exactly when the
   * input is unreadable, with the read error `x.readError` and after nothing but the opening.
   */
  ghost predicate EncryptBehaves(ctx: PipelineContext, env: Environment, x: Expected, r: StepRun) {
    && |r.sent| >= 2 && r.sent[1] == Progress(0.15)
    && NoVerdict(r.sent)
    && ProgressWithin(r.sent, 0.15, 0.85)
    && |r.ops| <= 1
    && (forall i :: 0 <= i < |r.ops| ==> r.ops[i].Destination() != ctx.inputPath)
    && (r.outcome.Err? <==> env.read.Err?)
    && (env.read.Err? ==>
          && r.sent == [Log(EncryptStrings.StartedText), Progress(0.15)] && r.ops == []
          && r.outcome.error == x.readError)
  }

  /**
   * Function renaming returns `Ok`; with the file read it sends only logs and progress and writes
   * exactly the rename mapping next to the input.
   */
  ghost predicate ObfuscateBehaves(env: Environment, x: Expected, r: StepRun) {
    && r.outcome.Ok?
    && (env.read.Ok? ==>
          && r.ops == [x.mapping]
          && forall i :: 0 <= i < |r.sent| ==> r.sent[i].Log? || r.sent[i].Progress?)
  }

  /**
   * Output returns `Ok` and copies the input to its output path, which is not the input; it
   * sends `Done` with that path exactly when the copy succeeds, and then `Done` and the closing
   * log are its last two messages.
   */
  ghost predicate WriteBehaves(ctx: PipelineContext, env: Environment, x: Expected, r: StepRun) {
    var out := x.output;
    && r.outcome.Ok?
    && r.ops == [CopyFile(ctx.inputPath, out)]
    && (Done(out) in r.sent <==> env.copy.Ok?)
    && (forall i :: 0 <= i < |r.sent| && r.sent[i].Done? ==> r.sent[i].outputPath == out)
    && |r.sent| >= 2
    && (env.copy.Ok? ==> r.sent[|r.sent| - 2..] == [Done(out), Log(WriteOutput.FinishedText)])
  }

  /**
   * Four step runs, in the worker's order, each behaving as its step does, with `x` holding the
   * output path, the rename-mapping write and the read error, none of which is about the input
   * itself.
   */
  ghost predicate StepsBehave(ctx: PipelineContext, env: Environment, x: Expected, r: seq<StepRun>) {
    && |r| == 4
    && x.output != ctx.inputPath
    && x.mapping.Destination() != ctx.inputPath
    && (env.read.Err? ==> Contains(x.readError, ctx.inputPath))
    && ParseBehaves(env, r[0])
    && EncryptBehaves(ctx, env, x, r[1])
    && ObfuscateBehaves(env, x, r[2])
    && WriteBehaves(ctx, env, x, r[3])
  }

  /** The output path, the rename-mapping write and the read error of a run. */
  datatype Expected = Expected(output: string, mapping: FileOp, readError: string)

  /** What the four steps produce for the input: see `TranscriptsBehave`. */
  function ExpectedOf(ctx: PipelineContext, env: Environment): Expected {
    Expected(WriteOutput.OutputPath(ctx.inputPath),
             WriteText(ctx.inputPath + ".obf-map", ObfuscateFunctions.MappingText(ObfuscateFunctions.FunctionNames(env.parsed))),
             if env.read.Err? then EncryptStrings.ReadErrorText(ctx.inputPath, env.read.error) else "")
  }

  lemma ParseRunBehaves(ctx: PipelineContext, env: Environment)
    ensures ParseBehaves(env, ParseRun(ctx, env))
  {
    Parse.ErrorOutcome(ctx, env);
    Parse.ProgressOrdered(ctx, env);
  }

  lemma EncryptRunBehaves(ctx: PipelineContext, env: Environment, x: Expected)
    requires env.read.Err? ==> x.readError == EncryptStrings.ReadErrorText(ctx.inputPath, env.read.error)
    ensures EncryptBehaves(ctx, env, x, EncryptRun(ctx, env))
  {
    var t := EncryptRun(ctx, env);
    EncryptStrings.ReadFailure(ctx, env);
    EncryptStrings.WritesMaskedCopy(ctx, env);
    EncryptStrings.ProgressOrdered(ctx, env);
    EncryptStrings.SendsNoVerdict(ctx, env);
    if env.read.Ok? {
      var bytes := env.read.value;
      var ranges := EncryptStrings.ScanRanges(env.parsed, |bytes|);
      var log := EncryptStrings.RangesText(env.parsed, |ranges|);
      var rest := EncryptStrings.ScanStage(ctx.inputPath, bytes, ranges, log, env.cancel, env.encWrite).0;
      assert t.sent == [Log(EncryptStrings.StartedText), Progress(0.15)] + rest;
    }
  }

  lemma ObfuscateRunBehaves(ctx: PipelineContext, env: Environment, x: Expected)
    requires x.mapping == WriteText(ctx.inputPath + ".obf-map", ObfuscateFunctions.MappingText(ObfuscateFunctions.FunctionNames(env.parsed)))
    ensures ObfuscateBehaves(env, x, ObfuscateRun(ctx, env))
  {
    if env.read.Ok? {
      ObfuscateFunctions.MapWriteOnlyLogged(ctx, env);
      ObfuscateFunctions.NoFailureSent(ctx, env);
    } else {
      ObfuscateFunctions.ReadFailure(ctx, env);
    }
  }

  lemma WriteRunBehaves(ctx: PipelineContext, env: Environment, x: Expected)
    requires x.output == WriteOutput.OutputPath(ctx.inputPath)
    ensures WriteBehaves(ctx, env, x, WriteRun(ctx, env))
  {
    var t := WriteRun(ctx, env);
    WriteOutput.CopyOutcome(ctx, env);
    if env.copy.Ok? {
      assert t.sent[|t.sent| - 2..] == [t.sent[|t.sent| - 2], t.sent[|t.sent| - 1]];
    }
  }

  /** The output path and the mapping file are not the input, and the read error names it. */
  lemma ExpectedFacts(ctx: PipelineContext, env: Environment)
    ensures var x := ExpectedOf(ctx, env);
      && x.output != ctx.inputPath
      && x.mapping.Destination() != ctx.inputPath
      && (env.read.Err? ==> Contains(x.readError, ctx.inputPath))
  {
    WriteOutput.OutputDiffersFromInput(ctx.inputPath);
    assert |ctx.inputPath + ".obf-map"| > |ctx.inputPath|;
    EncryptStrings.ReadFailure(ctx, env);
  }

  /** The four steps of the pipeline, on any input, behave as the worker relies on. */
  lemma TranscriptsBehave(ctx: PipelineContext, env: Environment)
    ensures StepsBehave(ctx, env, ExpectedOf(ctx, env), Transcripts(ctx, env))
  {
    var x := ExpectedOf(ctx, env);
    var r := Transcripts(ctx, env);
    ExpectedFacts(ctx, env);
    ParseRunBehaves(ctx, env);
    assert ParseBehaves(env, r[0]);
    EncryptRunBehaves(ctx, env, x);
    assert EncryptBehaves(ctx, env, x, r[1]);
    ObfuscateRunBehaves(ctx, env, x);
    assert ObfuscateBehaves(env, x, r[2]);
    WriteRunBehaves(ctx, env, x);
    assert WriteBehaves(ctx, env, x, r[3]);
  }

  // ---------------------------------------------------------------------------------------
  // The shape of a run
  // ---------------------------------------------------------------------------------------

  /** The markers and messages of steps `i` to `j - 1`, in order. */
  function StepSends(runs: seq<StepRun>, i: nat, j: nat): seq<PipelineMessage>
    requires i <= j <= |runs|
    decreases j - i
  {
    if i == j then [] else [StepMarker(i)] + runs[i].sent + StepSends(runs, i + 1, j)
  }

  /** The files written by steps `i` to `j - 1`, in order. */
  function StepOps(runs: seq<StepRun>, i: nat, j: nat): seq<FileOp>
    requires i <= j <= |runs|
    decreases j - i
  {
    if i == j then [] else runs[i].ops + StepOps(runs, i + 1, j)
  }

  /**
   * A run stops at the first step that returns an error: from step `i` on, it sends the markers
   * and messages of the steps up to that one and then its `Error`, and nothing after; only the
   * files of those steps are written, and the final full-progress message is never sent.
   */
  lemma {:induction false} AssembleStopsAt(r: seq<StepRun>, i: nat, k: nat)
    requires i <= k < |r| == 4
    requires forall j :: i <= j < k ==> r[j].outcome.Ok?
    requires r[k].outcome.Err?
    ensures Assemble(r, i).msgs == StepSends(r, i, k + 1) + [Error(r[k].outcome.error)]
    ensures Assemble(r, i).ops == StepOps(r, i, k + 1)
    decreases k - i
  {
    var head := [StepMarker(i)] + r[i].sent;
    if i == k {
      assert StepSends(r, i, k + 1) == head + StepSends(r, i + 1, k + 1);
      assert StepOps(r, i, k + 1) == r[i].ops + StepOps(r, i + 1, k + 1);
    } else {
      AssembleStopsAt(r, i + 1, k);
      var tail := StepSends(r, i + 1, k + 1);
      assert Assemble(r, i).msgs == head + (tail + [Error(r[k].outcome.error)]);
      assert StepSends(r, i, k + 1) == head + tail;
    }
  }

  /** A run whose steps all succeed goes through all four and ends with full progress. */
  lemma AssembleAllOk(r: seq<StepRun>)
    requires |r| == 4 && forall i :: 0 <= i < |r| ==> r[i].outcome.Ok?
    ensures Assemble(r, 0).msgs
      == [StepMarker(0)] + r[0].sent + [StepMarker(1)] + r[1].sent
         + [StepMarker(2)] + r[2].sent + [StepMarker(3)] + r[3].sent + [Progress(1.0)]
    ensures Assemble(r, 0).ops == r[0].ops + r[1].ops + r[2].ops + r[3].ops
  {
    assert Assemble(r, 4) == WorkerRun([Progress(1.0)], []);
    var w3 := Assemble(r, 3);
    assert w3 == WorkerRun([StepMarker(3)] + r[3].sent + [Progress(1.0)], r[3].ops);
    var w2 := Assemble(r, 2);
    assert w2 == WorkerRun([StepMarker(2)] + r[2].sent + w3.msgs, r[2].ops + w3.ops);
    var w1 := Assemble(r, 1);
    assert w1 == WorkerRun([StepMarker(1)] + r[1].sent + w2.msgs, r[1].ops + w2.ops);
    assert Assemble(r, 0) == WorkerRun([StepMarker(0)] + r[0].sent + w1.msgs, r[0].ops + w1.ops);
  }

  lemma NoDoneConcat(a: seq<PipelineMessage>, b: seq<PipelineMessage>)
    requires NoDone(a) && NoDone(b)
    ensures NoDone(a + b)
  {
    forall i | 0 <= i < |a + b| ensures !(a + b)[i].Done? {
      if i >= |a| {
        assert (a + b)[i] == b[i - |a|];
      }
    }
  }

  lemma WithinConcat(a: seq<PipelineMessage>, b: seq<PipelineMessage>, lo: real, hi: real)
    requires ProgressWithin(a, lo, hi) && ProgressWithin(b, lo, hi)
    ensures ProgressWithin(a + b, lo, hi)
  {
    forall i | 0 <= i < |a + b| && (a + b)[i].Progress? ensures lo <= (a + b)[i].fraction <= hi {
      if i >= |a| {
        assert (a + b)[i] == b[i - |a|];
      }
    }
  }

  /** Parsing never sends `Done`. */
  lemma ParseSendsNoDone(env: Environment, p: StepRun)
    requires ParseBehaves(env, p)
    ensures NoDone(p.sent)
  {
    assert p.sent[|p.sent| - 1].Error? || p.sent[|p.sent| - 1].Log?;
  }

  /**
   * An input that cannot be read ends the run with the string-masking step's read error, naming
   * the file: no file is written, no `Done` is sent, and progress never passes 0.25, so the bar
   * is left short of full.
   */
  lemma UnreadableInput(ctx: PipelineContext, env: Environment, x: Expected, r: seq<StepRun>)
    requires StepsBehave(ctx, env, x, r) && env.read.Err?
    ensures var w := Assemble(r, 0);
      && w.msgs == [StepMarker(0)] + r[0].sent + [StepMarker(1), Log(EncryptStrings.StartedText), Progress(0.15)]
                   + [Error(x.readError)]
      && Contains(w.msgs[|w.msgs| - 1].message, ctx.inputPath)
      && w.ops == []
      && NoDone(w.msgs)
      && ProgressWithin(w.msgs, 0.0, 0.25)
  {
    var p, e := r[0], r[1];
    var err := Error(x.readError);
    AssembleStopsAt(r, 0, 1);
    ParseSendsNoDone(env, p);
    var a := [StepMarker(0)] + p.sent;
    var b := [StepMarker(1)] + e.sent + [err];
    assert StepSends(r, 0, 2) == a + ([StepMarker(1)] + e.sent + StepSends(r, 2, 2));
    assert Assemble(r, 0).msgs == a + b;
    NoDoneConcat([StepMarker(0)], p.sent);
    assert NoDone(b);
    NoDoneConcat(a, b);
    WithinConcat([StepMarker(0)], p.sent, 0.0, 0.25);
    assert ProgressWithin(b, 0.0, 0.25);
    WithinConcat(a, b, 0.0, 0.25);
  }

  /**
   * A readable input runs all four steps: the run ends with full progress, and the writes are
   * the masked copy (when strings were found and not cancelled), the rename mapping and the
   * output copy, in that order. A cancellation seen by the masking step does not stop the run.
   */
  lemma ReadableInput(ctx: PipelineContext, env: Environment, x: Expected, r: seq<StepRun>)
    requires StepsBehave(ctx, env, x, r) && env.read.Ok?
    ensures var w := Assemble(r, 0);
      && w.msgs == [StepMarker(0)] + r[0].sent + [StepMarker(1)] + r[1].sent
                   + [StepMarker(2)] + r[2].sent + [StepMarker(3)] + r[3].sent + [Progress(1.0)]
      && w.msgs[|w.msgs| - 1] == Progress(1.0)
      && w.ops == r[1].ops + [x.mapping] + [CopyFile(ctx.inputPath, x.output)]
  {
    assert forall i :: 0 <= i < |r| ==> r[i].outcome.Ok?;
    AssembleAllOk(r);
  }

  /**
   * The run sends `Done` exactly when the input is readable and the output copy succeeds, and
   * every `Done` names the output path.
   */
  lemma DoneReportsOutput(ctx: PipelineContext, env: Environment, x: Expected, r: seq<StepRun>)
    requires StepsBehave(ctx, env, x, r)
    ensures var w := Assemble(r, 0);
      && (Done(x.output) in w.msgs <==> env.read.Ok? && env.copy.Ok?)
      && (forall i :: 0 <= i < |w.msgs| && w.msgs[i].Done? ==> w.msgs[i].outputPath == x.output)
  {
    var w := Assemble(r, 0);
    if env.read.Err? {
      UnreadableInput(ctx, env, x, r);
    } else {
      var p, e, o, t := r[0], r[1], r[2], r[3];
      ReadableInput(ctx, env, x, r);
      ParseSendsNoDone(env, p);
      var a := [StepMarker(0)] + p.sent + [StepMarker(1)] + e.sent + [StepMarker(2)] + o.sent + [StepMarker(3)];
      NoDoneConcat([StepMarker(0)], p.sent);
      NoDoneConcat([StepMarker(0)] + p.sent, [StepMarker(1)]);
      NoDoneConcat([StepMarker(0)] + p.sent + [StepMarker(1)], e.sent);
      NoDoneConcat([StepMarker(0)] + p.sent + [StepMarker(1)] + e.sent, [StepMarker(2)]);
      assert NoDone(o.sent);
      NoDoneConcat([StepMarker(0)] + p.sent + [StepMarker(1)] + e.sent + [StepMarker(2)], o.sent);
      NoDoneConcat([StepMarker(0)] + p.sent + [StepMarker(1)] + e.sent + [StepMarker(2)] + o.sent, [StepMarker(3)]);
      assert w.msgs == a + t.sent + [Progress(1.0)];
      forall i | 0 <= i < |w.msgs| && w.msgs[i].Done?
        ensures |a| <= i < |a| + |t.sent| && w.msgs[i] == t.sent[i - |a|]
      {
      }
      if env.copy.Ok? {
        var k :| 0 <= k < |t.sent| && t.sent[k] == Done(x.output);
        assert w.msgs[|a| + k] == t.sent[k];
      }
    }
  }

  /** At most three files are written, and none of them is the input itself. */
  lemma NeverTargetsInput(ctx: PipelineContext, env: Environment, x: Expected, r: seq<StepRun>)
    requires StepsBehave(ctx, env, x, r)
    ensures var w := Assemble(r, 0);
      && |w.ops| <= 3
      && forall i :: 0 <= i < |w.ops| ==> w.ops[i].Destination() != ctx.inputPath
  {
    var w := Assemble(r, 0);
    if env.read.Ok? {
      ReadableInput(ctx, env, x, r);
      forall i | 0 <= i < |w.ops| ensures w.ops[i].Destination() != ctx.inputPath {
        if i < |r[1].ops| {
          assert w.ops[i] == r[1].ops[i];
        }
      }
    } else {
      UnreadableInput(ctx, env, x, r);
    }
  }

  /**
   * The progress the worker sends is not monotone: the marker 0.25 before string masking is
   * followed by that step's own opening 0.15, whatever the input.
   */
  lemma ProgressGoesBack(ctx: PipelineContext, env: Environment, x: Expected, r: seq<StepRun>)
    requires StepsBehave(ctx, env, x, r)
    ensures var w := Assemble(r, 0);
      var n := |r[0].sent|;
      && |w.msgs| > n + 3
      && w.msgs[n + 1] == Progress(0.25) && w.msgs[n + 3] == Progress(0.15)
      && !ProgressMonotone(w.msgs)
  {
    var w := Assemble(r, 0);
    var p, e := r[0], r[1];
    var n := |p.sent|;
    var a := [StepMarker(0)] + p.sent + [StepMarker(1)] + e.sent;
    if env.read.Ok? {
      ReadableInput(ctx, env, x, r);
    } else {
      UnreadableInput(ctx, env, x, r);
    }
    assert w.msgs[..|a|] == a;
    assert a[n + 1] == StepMarker(1) && a[n + 3] == e.sent[1];
    assert Fraction(1, 4) == 0.25;
    assert w.msgs[n + 1].fraction > w.msgs[n + 3].fraction;
  }

  // ---------------------------------------------------------------------------------------
  // The run as the host sees it
  // ---------------------------------------------------------------------------------------

  /**
   * When every message of a successful run has arrived by the time the host polls, the host
   * shows the output path, a full bar, and stops processing and listening.
   */
  lemma HostSeesOutput(ctx: PipelineContext, env: Environment, x: Expected, r: seq<StepRun>, v: State.RunView, now: nat)
    requires StepsBehave(ctx, env, x, r) && env.read.Ok? && env.copy.Ok? && v.pipelineRx
    ensures var h := State.PollPipeline(v, now, Assemble(r, 0).msgs);
      && h.lastOutput == Some(x.output)
      && h.progress == 1.0 && !h.processing && !h.pipelineRx
  {
    var msgs := Assemble(r, 0).msgs;
    var out := x.output;
    var t := r[3].sent;
    ReadableInput(ctx, env, x, r);
    var pre := [StepMarker(0)] + r[0].sent + [StepMarker(1)] + r[1].sent + [StepMarker(2)] + r[2].sent + [StepMarker(3)];
    var tail := [Done(out), Log(WriteOutput.FinishedText), Progress(1.0)];
    var a := pre + t[..|t| - 2];
    assert t == t[..|t| - 2] + [Done(out), Log(WriteOutput.FinishedText)];
    assert msgs == a + tail;
    var start := v.(pipelineRx := false);
    State.ApplyPipelineAllSplit(start, now, a, tail);
    FinishingTail(State.ApplyPipelineAll(start, now, a), now, out);
  }

  /** `Done`, the closing log and full progress leave the host showing the output with a full bar. */
  lemma FinishingTail(u: State.RunView, now: nat, out: string)
    ensures var w := State.ApplyPipelineAll(u, now, [Done(out), Log(WriteOutput.FinishedText), Progress(1.0)]);
      w.lastOutput == Some(out) && !w.processing && w.progress == 1.0
  {
    assert State.ApplyPipelineAll(u, now, []) == u;
    var w1 := State.ApplyPipelineAll(u, now, [Done(out)]);
    assert [Done(out)][..0] == [];
    assert w1 == State.ApplyPipeline(u, now, Done(out));
    var w2 := State.ApplyPipelineAll(u, now, [Done(out), Log(WriteOutput.FinishedText)]);
    assert [Done(out), Log(WriteOutput.FinishedText)][..1] == [Done(out)];
    assert w2 == State.ApplyPipeline(w1, now, Log(WriteOutput.FinishedText));
    assert [Done(out), Log(WriteOutput.FinishedText), Progress(1.0)][..2] == [Done(out), Log(WriteOutput.FinishedText)];
  }

  /**
   * When every message of a run on an unreadable input has arrived in one poll, the host logs
   * the read error last, stops processing and listening, and keeps the previous output. See
   * `UnreadableOutcomeDependsOnPolling` for a poll that ends earlier.
   */
  lemma HostSeesReadError(ctx: PipelineContext, env: Environment, x: Expected, r: seq<StepRun>, v: State.RunView, now: nat)
    requires StepsBehave(ctx, env, x, r) && env.read.Err? && v.pipelineRx
    ensures var h := State.PollPipeline(v, now, Assemble(r, 0).msgs);
      && h.lastOutput == v.lastOutput && !h.processing && !h.pipelineRx
      && |h.logs| > 0 && h.logs[|h.logs| - 1]
         == State.Entry(now, "Pipeline error: " + x.readError)
  {
    var msgs := Assemble(r, 0).msgs;
    var text := x.readError;
    UnreadableInput(ctx, env, x, r);
    var start := v.(pipelineRx := false);
    var a := msgs[..|msgs| - 1];
    assert msgs == a + [Error(text)];
    assert forall i :: 0 <= i < |a| ==> !a[i].Done? by {
      forall i | 0 <= i < |a| ensures !a[i].Done? {
        assert a[i] == msgs[i];
      }
    }
    State.NoDoneKeepsOutput(start, now, a);
    State.ApplyPipelineAllSplit(start, now, a, [Error(text)]);
    var u := State.ApplyPipelineAll(start, now, a);
    State.PushedKeepsNewest(u.logs, now, "Pipeline error: " + text);
  }

  /**
   * A file that is readable but not a PE image makes parsing send an `Error` and return `Ok`, so
   * the run goes on and, if the copy succeeds, a `Done` follows the `Error`. What the host shows
   * then depends on when it polls: with everything arrived in one poll it shows the output, but
   * a poll that sees the `Error` first drops the receiver, and the later `Done` is never read.
   */
  lemma NotPeOutcomeDependsOnPolling(ctx: PipelineContext, env: Environment, x: Expected, r: seq<StepRun>,
                                     v: State.RunView, now: nat, later: nat)
    requires StepsBehave(ctx, env, x, r) && env.read.Ok? && !env.parsed.PE? && env.copy.Ok? && v.pipelineRx
    ensures var msgs := Assemble(r, 0).msgs;
      var n := |r[0].sent|;
      && msgs[n].Error? && Done(x.output) in msgs[n + 1..]
      && State.PollPipeline(v, now, msgs).lastOutput == Some(x.output)
      && var first := State.PollPipeline(v, now, msgs[..n + 1]);
         && !first.pipelineRx && !first.processing
         && State.PollPipeline(first, later, msgs[n + 1..]) == first
         && first.lastOutput == v.lastOutput
  {
    var msgs := Assemble(r, 0).msgs;
    var p := r[0];
    var n := |p.sent|;
    var head := [StepMarker(0)] + p.sent;
    assert msgs[..n + 1] == head && msgs[n] == p.sent[n - 1] by {
      ReadableInput(ctx, env, x, r);
    }
    assert NoDone(head) by {
      ParseSendsNoDone(env, p);
      NoDoneConcat([StepMarker(0)], p.sent);
    }
    assert Done(x.output) in msgs[n + 1..] by {
      DoneReportsOutput(ctx, env, x, r);
      var j :| 0 <= j < |msgs| && msgs[j] == Done(x.output);
      assert j > n;
      assert msgs[n + 1..][j - n - 1] == Done(x.output);
    }
    HostSeesOutput(ctx, env, x, r, v, now);
    TerminalHeadStops(v, now, head);
  }

  /**
   * On an unreadable input the parsing step already sends an `Error`, before the string-masking
   * step's read error. A poll that ends at the first `Error` drops the receiver, so the second
   * error is never read and never logged: what the host logs depends on when it polls.
   */
  lemma UnreadableOutcomeDependsOnPolling(ctx: PipelineContext, env: Environment, x: Expected, r: seq<StepRun>,
                                          v: State.RunView, now: nat, later: nat)
    requires StepsBehave(ctx, env, x, r) && env.read.Err? && v.pipelineRx
    ensures var msgs := Assemble(r, 0).msgs;
      var n := |r[0].sent|;
      && n + 1 < |msgs| && msgs[n].Error? && msgs[|msgs| - 1] == Error(x.readError)
      && var first := State.PollPipeline(v, now, msgs[..n + 1]);
         && !first.pipelineRx && !first.processing
         && State.PollPipeline(first, later, msgs[n + 1..]) == first
         && first.lastOutput == v.lastOutput
  {
    var msgs := Assemble(r, 0).msgs;
    var p := r[0];
    var n := |p.sent|;
    var head := [StepMarker(0)] + p.sent;
    assert msgs[..n + 1] == head && msgs[n] == p.sent[n - 1] by {
      UnreadableInput(ctx, env, x, r);
    }
    assert NoDone(head) by {
      ParseSendsNoDone(env, p);
      NoDoneConcat([StepMarker(0)], p.sent);
    }
    TerminalHeadStops(v, now, head);
  }

  /** A run of messages that ends in an error and carries no `Done` stops the run, keeping the output. */
  lemma TerminalHeadStops(v: State.RunView, now: nat, head: seq<PipelineMessage>)
    requires v.pipelineRx && |head| > 0 && head[|head| - 1].Error? && NoDone(head)
    ensures var first := State.PollPipeline(v, now, head);
      !first.pipelineRx && !first.processing && first.lastOutput == v.lastOutput
  {
    State.TerminalEndsRun(v, now, head, |head| - 1);
    State.NoDoneKeepsOutput(v.(pipelineRx := false), now, head);
  }

  // ---------------------------------------------------------------------------------------
  // The pipeline's own run
  // ---------------------------------------------------------------------------------------

  /**
   * The pipeline's worker never writes to the input, and sends `Done`, always with the output
   * path, exactly when the input is readable and the copy succeeds.
   */
  lemma WorkerOutcome(ctx: PipelineContext, env: Environment)
    ensures var w := Worker(ctx, env);
      && (forall i :: 0 <= i < |w.ops| ==> w.ops[i].Destination() != ctx.inputPath)
      && (Done(WriteOutput.OutputPath(ctx.inputPath)) in w.msgs <==> env.read.Ok? && env.copy.Ok?)
      && (forall i :: 0 <= i < |w.msgs| && w.msgs[i].Done? ==> w.msgs[i].outputPath == WriteOutput.OutputPath(ctx.inputPath))
  {
    TranscriptsBehave(ctx, env);
    NeverTargetsInput(ctx, env, ExpectedOf(ctx, env), Transcripts(ctx, env));
    DoneReportsOutput(ctx, env, ExpectedOf(ctx, env), Transcripts(ctx, env));
  }
}
