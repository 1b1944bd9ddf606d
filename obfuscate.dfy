/**
 * The function-renaming step (src/pipeline/obfuscate.rs): pick the names of the file's
 * "functions" (its exports, a count derived from its sections, or eight simulated ones),
 * give the name at position `i` the new name `f_` followed by `i + 1` padded to four digits,
 * and write the `old => new` table to `<input>.obf-map`.
 */
module ObfuscateFunctions {
  import opened Wrappers
  import opened Text
  import opened Goblin
  import opened PipelineTypes

  /** How many functions are simulated for a file that is not a PE. */
  const SimulatedCount: nat := 8

  /** The name of export `i`: its own, or `export_<i>` (0-based) for an export by ordinal. */
  function ExportName(e: Export, i: nat): string {
    match e.name
    case Some(n) => n
    case None => "export_" + Decimal(i)
  }

  /** `(sections * 2).saturating_sub(1)`. */
  function ApproxCount(sections: nat): nat {
    if 2 * sections >= 1 then 2 * sections - 1 else 0
  }

  /**
   * The names the step renames: the exports of a PE that has any, in export order; otherwise
   * `func_approx_1` .. for a PE; otherwise `sim_func_1` .. `sim_func_8`.
   */
  function FunctionNames(obj: Object): seq<string> {
    if obj.PE? && obj.exports != [] then
      seq(|obj.exports|, i requires 0 <= i < |obj.exports| => ExportName(obj.exports[i], i))
    else if obj.PE? then
      seq(ApproxCount(|obj.sections|), i requires 0 <= i => "func_approx_" + Decimal(i + 1))
    else
      seq(SimulatedCount, i requires 0 <= i => "sim_func_" + Decimal(i + 1))
  }

  /** The log line that reports which policy chose the names. */
  function DetectText(obj: Object, count: nat): string {
    if obj.PE? && obj.exports != [] then
      "Obfuscation: detected " + Decimal(count) + " exported functions (using exports as proxy)"
    else if obj.PE? then
      "Obfuscation: no exports found; using heuristic => " + Decimal(count) + " functions (mock)"
    else
      "Obfuscation: file not parsed as PE; simulating " + Decimal(SimulatedCount) + " functions (mock)"
  }

  /** `format!("f_{:04}", k)`. */
  function GeneratedName(k: nat): string {
    "f_" + PadZeros(Decimal(k), 4)
  }

  /** One line of the mapping file. */
  function MappingLine(original: string, k: nat): string {
    original + " => " + GeneratedName(k)
  }

  /** The mapping lines, in the order of the names; the name at index `i` gets number `i + 1`. */
  function MappingLines(names: seq<string>): (lines: seq<string>)
    ensures |lines| == |names|
  {
    seq(|names|, i requires 0 <= i < |names| => MappingLine(names[i], i + 1))
  }

  /** The new names of `n` functions, in order. */
  function NewNames(n: nat): (r: seq<string>)
    ensures |r| == n
  {
    seq(n, i requires 0 <= i => GeneratedName(i + 1))
  }

  /** The content of `<input>.obf-map`. */
  function MappingText(names: seq<string>): string {
    Join(MappingLines(names), "\n")
  }

  // ---------------------------------------------------------------------------------------
  // Names
  // ---------------------------------------------------------------------------------------

  /**
   * How many names each policy picks: one per export, `2 * |sections| - 1` (none for a PE
   * without sections), or eight.
   */
  lemma NameCount(obj: Object)
    ensures obj.PE? && obj.exports != [] ==> |FunctionNames(obj)| == |obj.exports|
    ensures obj.PE? && obj.exports == [] && obj.sections != [] ==> |FunctionNames(obj)| == 2 * |obj.sections| - 1
    ensures obj.PE? && obj.exports == [] && obj.sections == [] ==> FunctionNames(obj) == []
    ensures !obj.PE? ==> |FunctionNames(obj)| == SimulatedCount
  {
  }

  /** Digits are never a line break. */
  lemma DecimalHasNoNewline(n: nat)
    ensures '\n' !in Decimal(n)
  {
    var d := Decimal(n);
    forall i | 0 <= i < |d| ensures d[i] != '\n' {
      assert IsDigitIn(d[i], 10);
    }
  }

  lemma GeneratedNameHasNoNewline(k: nat)
    ensures '\n' !in GeneratedName(k)
  {
    var p := PadZeros(Decimal(k), 4);
    PaddedValue(k, 4, 10);
    forall i | 0 <= i < |p| ensures p[i] != '\n' {
      assert IsDigitIn(p[i], 10);
    }
  }

  /** Only an export name can hold a line break; the synthesized names never do. */
  lemma SynthesizedNamesHaveNoNewline(obj: Object)
    requires !(obj.PE? && obj.exports != [])
    ensures forall n <- FunctionNames(obj) :: '\n' !in n
  {
    var names := FunctionNames(obj);
    forall i | 0 <= i < |names| ensures '\n' !in names[i] {
      DecimalHasNoNewline(i + 1);
      if obj.PE? {
        assert names[i] == "func_approx_" + Decimal(i + 1);
      } else {
        assert names[i] == "sim_func_" + Decimal(i + 1);
      }
    }
  }

  /**
   * A generated name is `f_` followed by decimal digits that read back as its number, and it
   * is exactly six characters long for the numbers 1 to 9999.
   */
  lemma GeneratedNameShape(k: nat)
    ensures var g := GeneratedName(k);
      && |g| >= 6 && g[..2] == "f_"
      && (forall i :: 2 <= i < |g| ==> IsDigitIn(g[i], 10))
      && Value(g[2..], 10) == k
    ensures k < 10000 ==> |GeneratedName(k)| == 6
  {
    var g := GeneratedName(k);
    var p := PadZeros(Decimal(k), 4);
    PaddedValue(k, 4, 10);
    assert g[2..] == p;
    if k < 10000 {
      DecimalLength(k, 4);
    }
  }

  function Pow10(w: nat): nat {
    if w == 0 then 1 else 10 * Pow10(w - 1)
  }

  /** A number below `10^w` has at most `w` decimal digits (and always at least one). */
  lemma {:induction false} DecimalLength(n: nat, w: nat)
    requires w >= 1 && n < Pow10(w)
    ensures |Decimal(n)| <= w
    decreases w
  {
    DivMod(n, 10);
    if n >= 10 {
      assert w >= 2;
      assert n / 10 < Pow10(w - 1);
      DecimalLength(n / 10, w - 1);
    }
  }

  /** Distinct positions get distinct new names, however many names there are. */
  lemma GeneratedNamesDistinct(j: nat, k: nat)
    requires j != k
    ensures GeneratedName(j) != GeneratedName(k)
  {
    GeneratedNameShape(j);
    GeneratedNameShape(k);
  }

  /**
   * The mapping file lists every name once, in order, each with its own new name; no two lines
   * give the same new name.
   */
  lemma MappingLinesInjective(names: seq<string>)
    ensures forall i :: 0 <= i < |names| ==> MappingLines(names)[i] == names[i] + " => " + NewNames(|names|)[i]
    ensures forall i, j :: 0 <= i < j < |names| ==> NewNames(|names|)[i] != NewNames(|names|)[j]
  {
    var gen := NewNames(|names|);
    forall i | 0 <= i < |names| ensures MappingLines(names)[i] == names[i] + " => " + gen[i] {
      assert gen[i] == GeneratedName(i + 1);
    }
    forall i, j | 0 <= i < j < |names| ensures gen[i] != gen[j] {
      assert gen[i] == GeneratedName(i + 1) && gen[j] == GeneratedName(j + 1);
      GeneratedNamesDistinct(i + 1, j + 1);
    }
  }

  /**
   * Splitting the mapping text at line breaks gives back the mapping lines, so the file has one
   * line per name, when no name holds a line break. No names give an empty file.
   */
  lemma MappingTextLines(names: seq<string>)
    requires forall n <- names :: '\n' !in n
    ensures names == [] ==> MappingText(names) == []
    ensures names != [] ==> Split(MappingText(names), '\n') == MappingLines(names)
    ensures names != [] ==> |Split(MappingText(names), '\n')| == |names|
  {
    if names != [] {
      MappingLinesHaveNoNewline(names);
      SplitJoin(MappingLines(names), '\n');
    }
  }

  lemma MappingLinesHaveNoNewline(names: seq<string>)
    requires forall n <- names :: '\n' !in n
    ensures forall k :: 0 <= k < |names| ==> '\n' !in MappingLines(names)[k]
  {
    forall k | 0 <= k < |names| ensures '\n' !in MappingLines(names)[k] {
      assert names[k] in names;
      MappingLineHasNoNewline(names[k], k + 1);
    }
  }

  lemma MappingLineHasNoNewline(original: string, k: nat)
    requires '\n' !in original
    ensures '\n' !in MappingLine(original, k)
  {
    GeneratedNameHasNoNewline(k);
    var sep := " => ";
    assert '\n' !in sep;
    assert MappingLine(original, k) == original + sep + GeneratedName(k);
  }

  // ---------------------------------------------------------------------------------------
  // The step
  // ---------------------------------------------------------------------------------------

  const StartedText := "Obfuscation step (mock) started"
  const CompletedText := "Obfuscation step (mock) completed"

  function ReadErrorText(path: string, e: string): string {
    "Obfuscation step: failed to read '" + path + "': " + e
  }

  function MapWriteText(mapPath: string, total: nat, write: Result<(), string>): string {
    match write
    case Ok(_) => "Obfuscation (mock): wrote mapping file " + mapPath + " (" + Decimal(total) + " entries)"
    case Err(e) => "Obfuscation (mock): failed to write mapping file: " + e
  }

  function SummaryText(total: nat): string {
    "Obfuscated " + Decimal(total) + " functions (mock)"
  }

  /** The progress sent after each of the first `k` of `total` names. */
  function RenameProgress(total: nat, k: nat): seq<PipelineMessage> {
    seq(k, i requires 0 <= i => Progress(RenameValue(total, i)))
  }

  /** The progress after the name at index `i`: `min(0.45 + (i + 1) / max(total, 1) * 0.25, 0.75)`. */
  function RenameValue(total: nat, i: nat): real {
    var d := if total >= 1 then total else 1;
    MinReal(0.45 + Fraction(i + 1, d) * 0.25, 0.75)
  }

  /** Within the names, the progress grows with the index and stays within [0.45, 0.7]. */
  lemma RenameValueBounds(total: nat, i: nat, j: nat)
    requires i <= j < total
    ensures 0.45 <= RenameValue(total, i) <= RenameValue(total, j) <= 0.7
  {
    FractionBounds(i + 1, j + 1, total);
  }

  /** The whole run of the step: the messages in order, the result returned and the files written. */
  function Transcript(ctx: PipelineContext, env: Environment): StepRun {
    var opening := [Log(StartedText), Progress(0.45)];
    match env.read
    case Err(e) => StepRun(ObfuscateFunctionsStep, opening + [Error(ReadErrorText(ctx.inputPath, e))], Ok(()), [])
    case Ok(_) =>
      var names := FunctionNames(env.parsed);
      var total := |names|;
      var mapPath := ctx.inputPath + ".obf-map";
      var sent := opening + [Log(DetectText(env.parsed, total))] + RenameProgress(total, total)
        + [Log(MapWriteText(mapPath, total, env.mapWrite)), Log(SummaryText(total)), Progress(0.75), Log(CompletedText)];
      StepRun(ObfuscateFunctionsStep, sent, Ok(()), [WriteText(mapPath, MappingText(names))])
  }

  /** The `match Object::parse(..)` of `run`: collects the names by the policy that applies. */
  method DetectFunctions(obj: Object) returns (names: seq<string>, log: string)
    ensures names == FunctionNames(obj)
    ensures log == DetectText(obj, |names|)
  {
    names := [];
    var spec := FunctionNames(obj);
    if obj.PE? {
      var exports := obj.exports;
      if exports != [] {
        for i := 0 to |exports|
          invariant names == spec[..i]
        {
          names := names + [ExportName(exports[i], i)];
        }
      } else {
        var approx := ApproxCount(|obj.sections|);
        for i := 0 to approx
          invariant names == spec[..i]
        {
          names := names + ["func_approx_" + Decimal(i + 1)];
        }
      }
    } else {
      for i := 0 to SimulatedCount
        invariant names == spec[..i]
      {
        names := names + ["sim_func_" + Decimal(i + 1)];
      }
    }
    assert names == spec;
    log := DetectText(obj, |names|);
  }

  /** The renaming loop of `run`: one mapping line and one progress report per name. */
  method Rename(names: seq<string>) returns (lines: seq<string>, sent: seq<PipelineMessage>)
    ensures lines == MappingLines(names)
    ensures sent == RenameProgress(|names|, |names|)
  {
    var total := |names|;
    lines, sent := [], [];
    for i := 0 to total
      invariant lines == MappingLines(names)[..i]
      invariant sent == RenameProgress(total, i)
    {
      RenameStep(names, i);
      lines := lines + [MappingLine(names[i], i + 1)];
      sent := sent + [Progress(RenameValue(total, i))];
    }
  }

  /** The mapping lines and the progress after one more name. */
  lemma RenameStep(names: seq<string>, i: nat)
    requires i < |names|
    ensures MappingLines(names)[..i + 1] == MappingLines(names)[..i] + [MappingLine(names[i], i + 1)]
    ensures RenameProgress(|names|, i + 1) == RenameProgress(|names|, i) + [Progress(RenameValue(|names|, i))]
  {
    var lines := MappingLines(names);
    assert lines[..i + 1] == lines[..i] + [lines[i]];
  }

  /** `ObfuscateFunctionsStep::run`. */
  method Run(ctx: PipelineContext, env: Environment) returns (run: StepRun)
    ensures run == Transcript(ctx, env)
  {
    var sent := [Log(StartedText), Progress(0.45)];
    if env.read.Err? {
      sent := sent + [Error(ReadErrorText(ctx.inputPath, env.read.error))];
      return StepRun(ObfuscateFunctionsStep, sent, Ok(()), []);
    }
    var names, detect := DetectFunctions(env.parsed);
    sent := sent + [Log(detect)];
    var total := |names|;
    var lines, progress := Rename(names);
    sent := sent + progress;
    var mapPath := ctx.inputPath + ".obf-map";
    var ops := [WriteText(mapPath, Join(lines, "\n"))];
    sent := sent + [Log(MapWriteText(mapPath, total, env.mapWrite))];
    sent := sent + [Log(SummaryText(total)), Progress(0.75), Log(CompletedText)];
    run := StepRun(ObfuscateFunctionsStep, sent, Ok(()), ops);
  }

  // ---------------------------------------------------------------------------------------
  // What a run of the step promises
  // ---------------------------------------------------------------------------------------

  /**
   * A file that cannot be read produces the opening log and progress and one `Error` naming the
   * file, and nothing else: no names, no mapping, no write. The step still returns `Ok`.
   */
  lemma ReadFailure(ctx: PipelineContext, env: Environment)
    requires env.read.Err?
    ensures var t := Transcript(ctx, env);
      && |t.sent| == 3 && t.sent[2].Error? && Contains(t.sent[2].message, ctx.inputPath)
      && (forall i :: 0 <= i < 2 ==> !t.sent[i].Error?)
      && t.ops == [] && t.outcome.Ok?
  {
    var e := env.read.error;
    assert ReadErrorText(ctx.inputPath, e) == "Obfuscation step: failed to read '" + ctx.inputPath + ("': " + e);
    ContainsMiddle("Obfuscation step: failed to read '", ctx.inputPath, "': " + e);
  }

  /** The messages of a run over a file that was read, in order. */
  lemma SentShape(ctx: PipelineContext, env: Environment)
    requires env.read.Ok?
    ensures var total := |FunctionNames(env.parsed)|;
      Transcript(ctx, env).sent
        == [Log(StartedText), Progress(0.45), Log(DetectText(env.parsed, total))]
        + RenameProgress(total, total)
        + [Log(MapWriteText(ctx.inputPath + ".obf-map", total, env.mapWrite)), Log(SummaryText(total)), Progress(0.75), Log(CompletedText)]
  {
  }

  /**
   * With the file read, the step always attempts to write the mapping text to
   * `<input>.obf-map`, never to the input itself, and whether or not the write succeeds it ends
   * with the summary log, progress 0.75 and the completion log, returning `Ok`.
   */
  lemma MapWriteOnlyLogged(ctx: PipelineContext, env: Environment)
    requires env.read.Ok?
    ensures var t := Transcript(ctx, env);
      var names := FunctionNames(env.parsed);
      && t.ops == [WriteText(ctx.inputPath + ".obf-map", MappingText(names))]
      && t.ops[0].Destination() != ctx.inputPath
      && |t.sent| >= 3
      && t.sent[|t.sent| - 3..] == [Log(SummaryText(|names|)), Progress(0.75), Log(CompletedText)]
      && t.outcome.Ok?
  {
    var t := Transcript(ctx, env);
    var total := |FunctionNames(env.parsed)|;
    var mapPath := ctx.inputPath + ".obf-map";
    var head := [Log(StartedText), Progress(0.45), Log(DetectText(env.parsed, total))] + RenameProgress(total, total);
    var tail := [Log(MapWriteText(mapPath, total, env.mapWrite)), Log(SummaryText(total)), Progress(0.75), Log(CompletedText)];
    SentShape(ctx, env);
    assert t.sent == head + tail;
    assert t.sent[|t.sent| - 3..] == tail[1..];
    assert |mapPath| > |ctx.inputPath|;
  }

  /** A run over a file that was read sends no `Error`, no `Done` and no `Cancelled`. */
  lemma NoFailureSent(ctx: PipelineContext, env: Environment)
    requires env.read.Ok?
    ensures var t := Transcript(ctx, env);
      forall i :: 0 <= i < |t.sent| ==> t.sent[i].Log? || t.sent[i].Progress?
  {
    var t := Transcript(ctx, env);
    var total := |FunctionNames(env.parsed)|;
    var head := [Log(StartedText), Progress(0.45), Log(DetectText(env.parsed, total))];
    var ps := RenameProgress(total, total);
    var tail := [Log(MapWriteText(ctx.inputPath + ".obf-map", total, env.mapWrite)), Log(SummaryText(total)), Progress(0.75), Log(CompletedText)];
    SentShape(ctx, env);
    forall i | 0 <= i < |t.sent| ensures t.sent[i].Log? || t.sent[i].Progress? {
      if i < 3 {
        assert t.sent[i] == head[i];
      } else if i < 3 + |ps| {
        assert t.sent[i] == ps[i - 3];
      } else {
        assert t.sent[i] == tail[i - 3 - |ps|];
      }
    }
  }

  /** The step's progress never goes down and stays within [0.45, 0.75]. */
  lemma ProgressOrdered(ctx: PipelineContext, env: Environment)
    ensures var t := Transcript(ctx, env);
      ProgressMonotone(t.sent) && ProgressWithin(t.sent, 0.45, 0.75)
  {
    var opening := [Log(StartedText), Progress(0.45)];
    assert ProgressMonotone(opening) && ProgressWithin(opening, 0.45, 0.45);
    if env.read.Ok? {
      var names := FunctionNames(env.parsed);
      var total := |names|;
      var detect := [Log(DetectText(env.parsed, total))];
      NoProgressBounds(detect, 0.45, 0.45);
      ConcatProgress(opening, detect, 0.45, 0.45, 0.45);
      var ps := RenameProgress(total, total);
      RenameProgressFacts(total);
      ConcatProgress(opening + detect, ps, 0.45, 0.45, 0.7);
      var mapPath := ctx.inputPath + ".obf-map";
      var tail := [Log(MapWriteText(mapPath, total, env.mapWrite)), Log(SummaryText(total)), Progress(0.75), Log(CompletedText)];
      assert ProgressMonotone(tail) && ProgressWithin(tail, 0.75, 0.75);
      ConcatProgress(opening + detect + ps, tail, 0.45, 0.7, 0.75);
    } else {
      var err := [Error(ReadErrorText(ctx.inputPath, env.read.error))];
      NoProgressBounds(err, 0.45, 0.75);
      ConcatProgress(opening, err, 0.45, 0.45, 0.75);
    }
  }

  lemma RenameProgressFacts(total: nat)
    ensures ProgressMonotone(RenameProgress(total, total)) && ProgressWithin(RenameProgress(total, total), 0.45, 0.7)
  {
    var ps := RenameProgress(total, total);
    forall i | 0 <= i < total ensures 0.45 <= ps[i].fraction <= 0.7 {
      RenameValueBounds(total, i, i);
    }
    forall i, j | 0 <= i < j < total ensures ps[i].fraction <= ps[j].fraction {
      RenameValueBounds(total, i, j);
    }
  }
}
