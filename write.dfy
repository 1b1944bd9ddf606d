/**
 * The output step (src/pipeline/write.rs): derives the protected file's name from the input's
 * and copies the input there, reporting the copy's outcome.
 */
module WriteOutput {
  import opened Wrappers
  import opened Text
  import opened PipelineTypes

  const ExeSuffix := ".exe"
  const ProtectedSuffix := ".obscura-protected"

  /**
   * The output path: an input whose name ends in `.exe` in any letter case loses every trailing
   * lower-case `.exe` and gets `.obscura-protected.exe`; any other input gets `.obscura-protected`.
   */
  function OutputPath(input: string): string {
    if EndsWith(AsciiLower(input), ExeSuffix) then
      TrimEndMatches(input, ExeSuffix) + ProtectedSuffix + ExeSuffix
    else
      input + ProtectedSuffix
  }

  /**
   * A `.exe` input, in any letter case, loses every trailing lower-case `.exe` and no more, then
   * gets `.obscura-protected.exe`; any other input keeps its whole name and gains
   * `.obscura-protected`.
   */
  lemma OutputPathShape(input: string)
    ensures var r := OutputPath(input);
      && (EndsWith(AsciiLower(input), ExeSuffix) ==>
            && EndsWith(r, ProtectedSuffix + ExeSuffix)
            && exists t, k: nat :: input == t + Repeat(ExeSuffix, k) && !EndsWith(t, ExeSuffix)
                 && r == t + ProtectedSuffix + ExeSuffix)
      && (!EndsWith(AsciiLower(input), ExeSuffix) ==>
            |r| == |input| + 18 && r[..|input|] == input && r[|input|..] == ProtectedSuffix)
  {
    var r := OutputPath(input);
    if EndsWith(AsciiLower(input), ExeSuffix) {
      var t := TrimEndMatches(input, ExeSuffix);
      assert r == t + (ProtectedSuffix + ExeSuffix);
      assert r[|r| - 22..] == ProtectedSuffix + ExeSuffix;
      TrimRemovesWholeCopies(input, ExeSuffix);
      var k: nat :| input == t + Repeat(ExeSuffix, k);
      assert r == t + ProtectedSuffix + ExeSuffix;
    }
  }

  /**
   * The copy never overwrites its source: the output path always differs from the input path.
   * For a `.exe` input both are the same stem followed by different tails: whole copies of `.exe`
   * against `.obscura-protected.exe`, and no number of copies spells the latter.
   */
  lemma OutputDiffersFromInput(input: string)
    ensures OutputPath(input) != input
  {
    OutputPathShape(input);
    if EndsWith(AsciiLower(input), ExeSuffix) {
      var t := TrimEndMatches(input, ExeSuffix);
      TrimRemovesWholeCopies(input, ExeSuffix);
      var k: nat :| input == t + Repeat(ExeSuffix, k);
      RepeatNeverProtected(k);
      assert input[|t|..] == Repeat(ExeSuffix, k);
      assert OutputPath(input)[|t|..] == ProtectedSuffix + ExeSuffix;
    } else {
      assert |OutputPath(input)| == |input| + 18;
    }
  }

  /** No number of copies of `.exe` spells `.obscura-protected.exe`. */
  lemma RepeatNeverProtected(k: nat)
    ensures Repeat(ExeSuffix, k) != ProtectedSuffix + ExeSuffix
  {
    if k > 0 {
      var shorter := Repeat(ExeSuffix, k - 1);
      assert shorter == [] || shorter[|shorter| - 1] == 'e' by {
        if k > 1 {
          assert shorter == Repeat(ExeSuffix, k - 2) + ExeSuffix;
        }
      }
      var r := Repeat(ExeSuffix, k);
      assert r == shorter + ExeSuffix;
      assert r[..|r| - 4] == shorter;
      var tail := ProtectedSuffix + ExeSuffix;
      assert tail[..|tail| - 4] == ProtectedSuffix;
    }
  }

  /** The output keeps a `.exe` extension exactly when the input had one, in any letter case. */
  lemma ExtensionKept(input: string)
    ensures EndsWith(OutputPath(input), ExeSuffix) <==> EndsWith(AsciiLower(input), ExeSuffix)
  {
    var r := OutputPath(input);
    OutputPathShape(input);
    if !EndsWith(AsciiLower(input), ExeSuffix) {
      assert r[|r| - 4..] == "cted";
    }
  }

  /** The extension test ignores case but the trimming does not: `a.EXE` keeps its `.EXE`. */
  lemma UpperCaseExtensionKept()
    ensures OutputPath("a.EXE") == "a.EXE.obscura-protected.exe"
  {
    assert AsciiLower("a.EXE") == "a.exe";
    assert !EndsWith("a.EXE", ExeSuffix);
  }

  /** Every trailing `.exe` goes: `a.exe.exe` becomes `a.obscura-protected.exe`. */
  lemma RepeatedExtensionTrimmed()
    ensures OutputPath("a.exe.exe") == "a.obscura-protected.exe"
  {
    assert AsciiLower("a.exe.exe") == "a.exe.exe";
    TrimTwice();
  }

  lemma TrimTwice()
    ensures TrimEndMatches("a.exe.exe", ExeSuffix) == "a"
  {
    assert EndsWith("a.exe.exe", ExeSuffix) && "a.exe.exe"[..5] == "a.exe";
    assert EndsWith("a.exe", ExeSuffix) && "a.exe"[..1] == "a";
    assert !EndsWith("a", ExeSuffix);
  }

  // ---------------------------------------------------------------------------------------
  // The step
  // ---------------------------------------------------------------------------------------

  const StartedText := "Write step (mock) started"
  const FinishedText := "Write step (mock) finished"

  function CopiedText(bytes: nat, output: string): string {
    "Wrote output (copy, " + Decimal(bytes) + " bytes): " + output
  }

  function CopyErrorText(e: string): string {
    "Write step failed to copy file: " + e
  }

  /** What the copy reports: its size, full progress and `Done`, or one `Error`. */
  function CopyReport(output: string, copy: Result<nat, string>): seq<PipelineMessage> {
    match copy
    case Ok(bytes) => [Log(CopiedText(bytes, output)), Progress(1.0), Done(output)]
    case Err(e) => [Error(CopyErrorText(e))]
  }

  /** The whole run of the step: the messages in order, the result returned and the copy made. */
  function Transcript(ctx: PipelineContext, env: Environment): StepRun {
    var output := OutputPath(ctx.inputPath);
    var sent := [Log(StartedText), Progress(0.9)] + CopyReport(output, env.copy) + [Log(FinishedText)];
    StepRun(WriteOutputStep, sent, Ok(()), [CopyFile(ctx.inputPath, output)])
  }

  /** `WriteOutputStep::run`. */
  method Run(ctx: PipelineContext, env: Environment) returns (run: StepRun)
    ensures run == Transcript(ctx, env)
  {
    var sent := [Log(StartedText), Progress(0.9)];
    var input := ctx.inputPath;
    var output: string;
    if EndsWith(AsciiLower(input), ExeSuffix) {
      output := TrimEndMatches(input, ExeSuffix) + ProtectedSuffix + ExeSuffix;
    } else {
      output := input + ProtectedSuffix;
    }
    match env.copy {
      case Ok(bytes) =>
        sent := sent + [Log(CopiedText(bytes, output)), Progress(1.0), Done(output)];
      case Err(e) =>
        sent := sent + [Error(CopyErrorText(e))];
    }
    sent := sent + [Log(FinishedText)];
    run := StepRun(WriteOutputStep, sent, Ok(()), [CopyFile(input, output)]);
  }

  // ---------------------------------------------------------------------------------------
  // What a run of the step promises
  // ---------------------------------------------------------------------------------------

  /**
   * The step copies the input to the output path and nowhere else. It sends `Done` with that
   * path exactly when the copy succeeds, right before the closing log, and an `Error` exactly
   * when it fails, never both, and always ends with the closing log; it returns `Ok` either way.
   */
  lemma CopyOutcome(ctx: PipelineContext, env: Environment)
    ensures var t := Transcript(ctx, env);
      && t.ops == [CopyFile(ctx.inputPath, OutputPath(ctx.inputPath))]
      && t.ops[0].Destination() != ctx.inputPath
      && (Done(OutputPath(ctx.inputPath)) in t.sent <==> env.copy.Ok?)
      && ((exists i :: 0 <= i < |t.sent| && t.sent[i].Error?) <==> env.copy.Err?)
      && (forall i :: 0 <= i < |t.sent| && t.sent[i].Done? ==> t.sent[i].outputPath == OutputPath(ctx.inputPath))
      && t.sent[|t.sent| - 1] == Log(FinishedText)
      && (env.copy.Ok? ==> t.sent[|t.sent| - 2] == Done(OutputPath(ctx.inputPath)))
      && t.outcome.Ok?
  {
    var t := Transcript(ctx, env);
    var output := OutputPath(ctx.inputPath);
    OutputDiffersFromInput(ctx.inputPath);
    match env.copy {
      case Ok(bytes) =>
        assert t.sent == [Log(StartedText), Progress(0.9), Log(CopiedText(bytes, output)), Progress(1.0), Done(output), Log(FinishedText)];
        assert t.sent[4] == Done(output);
      case Err(e) =>
        assert t.sent == [Log(StartedText), Progress(0.9), Error(CopyErrorText(e)), Log(FinishedText)];
        assert t.sent[2].Error?;
    }
  }

  /** Progress goes from 0.9 to 1.0, and 1.0 is reached only by a successful copy. */
  lemma ProgressOrdered(ctx: PipelineContext, env: Environment)
    ensures var t := Transcript(ctx, env);
      && ProgressMonotone(t.sent) && ProgressWithin(t.sent, 0.9, 1.0)
      && (Progress(1.0) in t.sent <==> env.copy.Ok?)
  {
    var t := Transcript(ctx, env);
    var output := OutputPath(ctx.inputPath);
    match env.copy {
      case Ok(bytes) =>
        assert t.sent == [Log(StartedText), Progress(0.9), Log(CopiedText(bytes, output)), Progress(1.0), Done(output), Log(FinishedText)];
        assert t.sent[3] == Progress(1.0);
      case Err(e) =>
        assert t.sent == [Log(StartedText), Progress(0.9), Error(CopyErrorText(e)), Log(FinishedText)];
    }
  }
}
