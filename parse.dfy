/**
 * The parsing step (src/pipeline/parse.rs): reads the input, hands it to the PE parser and
 * reports the architecture, the sections, the imports and the exports it finds.
 */
module Parse {
  import opened Wrappers
  import opened Text
  import opened Utf8
  import opened Goblin
  import opened PipelineTypes

  const MachineI386: u16 := 0x14c
  const MachineAmd64: u16 := 0x8664

  const I386Label := "x86 (32-bit)"
  const Amd64Label := "x86_64 (64-bit)"
  const UnknownPrefix := "unknown (0x"

  /** The architecture a COFF machine field names; any other value is shown in hexadecimal. */
  function ArchLabel(machine: u16): (r: string)
    ensures machine == MachineI386 <==> r == I386Label
    ensures machine == MachineAmd64 <==> r == Amd64Label
  {
    if machine == MachineI386 then I386Label
    else if machine == MachineAmd64 then Amd64Label
    else
      var r := UnknownPrefix + Hex(machine) + ")";
      assert r[0] == 'u';
      r
  }

  /**
   * Different machine values never share a label: the hexadecimal digits of an unknown value
   * read back as that value.
   */
  lemma ArchLabelInjective(m1: u16, m2: u16)
    requires ArchLabel(m1) == ArchLabel(m2)
    ensures m1 == m2
  {
    var r := ArchLabel(m1);
    if m1 != MachineI386 && m1 != MachineAmd64 {
      assert r[0] == 'u';
      assert m2 != MachineI386 && m2 != MachineAmd64;
      var h1, h2 := Hex(m1), Hex(m2);
      assert r[11..|r| - 1] == h1;
      assert r[11..|r| - 1] == h2;
      ValueOfDigits(m1, 16);
      ValueOfDigits(m2, 16);
    }
  }

  const NulChar: char := 0 as char
  const NonUtf8Name := "<non-utf8>"

  /**
   * A section's name as listed: the 8 name bytes decoded as UTF-8 with the trailing NULs
   * removed, or `<non-utf8>` when they are not valid UTF-8.
   */
  function SectionName(name: seq<bv8>): (r: string)
    ensures Decode(name).None? ==> r == NonUtf8Name
    ensures Decode(name).Some? ==>
      var text := Decode(name).value;
      && |r| <= |text| && r == text[..|r|]
      && !EndsWith(r, [NulChar])
      && exists k: nat :: text == r + Repeat([NulChar], k)
  {
    match Decode(name)
    case None => NonUtf8Name
    case Some(text) =>
      TrimRemovesWholeCopies(text, [NulChar]);
      TrimEndMatches(text, [NulChar])
  }

  /** `k` NUL characters. */
  function Nuls(k: nat): (z: string)
    ensures |z| == k && forall i :: 0 <= i < k ==> z[i] == NulChar
  {
    seq(k, i => NulChar)
  }

  lemma {:induction false} TrimNuls(s: string, k: nat)
    requires !EndsWith(s, [NulChar])
    ensures TrimEndMatches(s + Nuls(k), [NulChar]) == s
    decreases k
  {
    var t := s + Nuls(k);
    if k > 0 {
      var u := s + Nuls(k - 1);
      assert t == u + [NulChar] by { assert Nuls(k) == Nuls(k - 1) + [NulChar]; }
      assert EndsWith(t, [NulChar]) && t[..|t| - 1] == u;
      TrimNuls(s, k - 1);
    } else {
      assert t == s;
    }
  }

  /**
   * A name stored the way the PE format stores it, UTF-8 text padded with NULs, is listed as
   * exactly that text.
   */
  lemma PaddedNameReadBack(s: string, k: nat)
    requires !EndsWith(s, [NulChar])
    ensures SectionName(Encode(s + Nuls(k))) == s
  {
    DecodeEncode(s + Nuls(k));
    TrimNuls(s, k);
  }

  /** The names of all sections, in table order. */
  function SectionNames(sections: seq<SectionTable>): (r: seq<string>)
    ensures |r| == |sections|
  {
    seq(|sections|, i requires 0 <= i < |sections| => SectionName(sections[i].name))
  }

  /** The library names of all imports, in order. */
  function ImportNames(imports: seq<Import>): (r: seq<string>)
    ensures |r| == |imports|
  {
    seq(|imports|, i requires 0 <= i < |imports| => imports[i].dll)
  }

  function ImportList(imports: seq<Import>): string {
    if imports == [] then "<none>" else Join(ImportNames(imports), ", ")
  }

  /** Every imported library is named in the imports log, with the number of entries. */
  lemma ImportsListed(imports: seq<Import>, k: nat)
    requires k < |imports|
    ensures Contains(ImportList(imports), imports[k].dll)
    ensures Contains(ImportText(imports), imports[k].dll)
    ensures EndsWith(ImportText(imports), " (" + Decimal(|imports|) + " entries)")
  {
    var names := ImportNames(imports);
    assert names[k] == imports[k].dll;
    JoinContainsParts(names, ", ", k);
    var list := ImportList(imports);
    var i: nat :| i <= |list| && OccursAt(list, imports[k].dll, i);
    var t := ImportText(imports);
    assert t == "Import DLLs: " + list + (" (" + Decimal(|imports|) + " entries)");
    assert t[13 + i..13 + i + |imports[k].dll|] == list[i..i + |imports[k].dll|];
    assert OccursAt(t, imports[k].dll, 13 + i);
  }

  // ---------------------------------------------------------------------------------------
  // The step
  // ---------------------------------------------------------------------------------------

  function StartedText(path: string): string {
    "Parsing file: " + path
  }

  function ReadErrorText(path: string, e: string): string {
    "Failed to read file '" + path + "': " + e
  }

  function NotPeText(debug: string): string {
    "File is not a PE executable (detected: " + debug + ")"
  }

  function ParseErrorText(path: string, e: string): string {
    "Failed to parse file '" + path + "': " + e
  }

  function SectionCountText(n: nat): string {
    "Sections: " + Decimal(n)
  }

  function SectionNamesText(names: seq<string>): string {
    "Section names: " + Join(names, ", ")
  }

  function ImportText(imports: seq<Import>): string {
    "Import DLLs: " + ImportList(imports) + " (" + Decimal(|imports|) + " entries)"
  }

  function ExportText(exports: seq<Export>): string {
    if |exports| > 0 then "Exports: " + Decimal(|exports|) + " entries" else "Exports: none detected"
  }

  function CompletedText(n: nat): string {
    "Parsing complete: " + Decimal(n) + " sections found"
  }

  /** The three progress slices sent before the file is read: 1/3, 2/3 and 3/3 of 0.10. */
  function SliceProgress(k: nat): (r: seq<PipelineMessage>)
    requires k <= 3
    ensures |r| == k
  {
    seq(k, i requires 0 <= i < k => Progress(Fraction(i + 1, 3) * 0.10))
  }

  /** The report on a PE file, from the architecture to the completion log. */
  function PeReport(machine: u16, sections: seq<SectionTable>, imports: seq<Import>, exports: seq<Export>): seq<PipelineMessage> {
    var names := SectionNames(sections);
    [Log("Detected PE: " + ArchLabel(machine)), Log(SectionCountText(|sections|))]
      + (if names != [] then [Log(SectionNamesText(names))] else [])
      + [Log(ImportText(imports)), Log(ExportText(exports)), Progress(0.20), Log(CompletedText(|sections|))]
  }

  /** The whole run of the step: the messages in order; it returns `Ok` and writes nothing. */
  function Transcript(ctx: PipelineContext, env: Environment): StepRun {
    var opening := [Log(StartedText(ctx.inputPath))] + SliceProgress(3);
    var rest :=
      match env.read
      case Err(e) => [Error(ReadErrorText(ctx.inputPath, e))]
      case Ok(_) =>
        match env.parsed
        case PE(machine, sections, imports, exports) => PeReport(machine, sections, imports, exports)
        case Other(debug) => [Error(NotPeText(debug))]
        case ParseError(e) => [Error(ParseErrorText(ctx.inputPath, e))];
    StepRun(ParseStep, opening + rest, Ok(()), [])
  }

  /** The loop over the section table. */
  method CollectSectionNames(sections: seq<SectionTable>) returns (names: seq<string>)
    ensures names == SectionNames(sections)
  {
    names := [];
    for i := 0 to |sections|
      invariant names == SectionNames(sections)[..i]
    {
      var name := sections[i].name;
      match Decode(name) {
        case Some(text) => names := names + [TrimEndMatches(text, [NulChar])];
        case None => names := names + [NonUtf8Name];
      }
    }
    assert names == SectionNames(sections)[..|sections|];
  }

  /** The loop over the import table. */
  method CollectImportNames(imports: seq<Import>) returns (names: seq<string>)
    ensures names == ImportNames(imports)
  {
    names := [];
    for i := 0 to |imports|
      invariant names == ImportNames(imports)[..i]
    {
      names := names + [imports[i].dll];
    }
    assert names == ImportNames(imports)[..|imports|];
  }

  /** The `Ok(Object::PE(pe))` arm of `run`. */
  method ReportPe(machine: u16, sections: seq<SectionTable>, imports: seq<Import>, exports: seq<Export>)
    returns (sent: seq<PipelineMessage>)
    ensures sent == PeReport(machine, sections, imports, exports)
  {
    sent := [Log("Detected PE: " + ArchLabel(machine)), Log(SectionCountText(|sections|))];
    var names := CollectSectionNames(sections);
    if names != [] {
      sent := sent + [Log(SectionNamesText(names))];
    }
    ghost var head := sent;
    var importNames := CollectImportNames(imports);
    var list := if importNames == [] then "<none>" else Join(importNames, ", ");
    sent := sent + [Log("Import DLLs: " + list + " (" + Decimal(|imports|) + " entries)")];
    assert sent == head + [Log(ImportText(imports))];
    if |exports| > 0 {
      sent := sent + [Log("Exports: " + Decimal(|exports|) + " entries")];
    } else {
      sent := sent + [Log("Exports: none detected")];
    }
    assert sent == head + [Log(ImportText(imports)), Log(ExportText(exports))];
    sent := sent + [Progress(0.20), Log(CompletedText(|sections|))];
    assert sent == head + [Log(ImportText(imports)), Log(ExportText(exports)), Progress(0.20), Log(CompletedText(|sections|))];
  }

  /** `ParseStep::run`. */
  method Run(ctx: PipelineContext, env: Environment) returns (run: StepRun)
    ensures run == Transcript(ctx, env)
  {
    var sent := [Log(StartedText(ctx.inputPath))];
    for i := 0 to 3
      invariant sent == [Log(StartedText(ctx.inputPath))] + SliceProgress(i)
    {
      sent := sent + [Progress(Fraction(i + 1, 3) * 0.10)];
      assert sent == [Log(StartedText(ctx.inputPath))] + SliceProgress(i + 1);
    }
    match env.read {
      case Err(e) =>
        sent := sent + [Error(ReadErrorText(ctx.inputPath, e))];
      case Ok(_) =>
        match env.parsed {
          case PE(machine, sections, imports, exports) =>
            var report := ReportPe(machine, sections, imports, exports);
            sent := sent + report;
          case Other(debug) =>
            sent := sent + [Error(NotPeText(debug))];
          case ParseError(e) =>
            sent := sent + [Error(ParseErrorText(ctx.inputPath, e))];
        }
    }
    run := StepRun(ParseStep, sent, Ok(()), []);
  }

  // ---------------------------------------------------------------------------------------
  // What a run of the step promises
  // ---------------------------------------------------------------------------------------

  /** The input could not be read, could not be parsed, or is not a PE image. */
  predicate Fails(env: Environment) {
    env.read.Err? || !env.parsed.PE?
  }

  /**
   * The step sends at most one `Error`, as its last message, and exactly when the file cannot
   * be read, cannot be parsed or is not a PE image; the error names the input path (or, for a
   * non-PE file, what was detected). It never sends `Done` or `Cancelled`, writes nothing and
   * returns `Ok`.
   */
  lemma ErrorOutcome(ctx: PipelineContext, env: Environment)
    ensures var t := Transcript(ctx, env);
      && |t.sent| >= 5
      && (forall i :: 0 <= i < |t.sent| - 1 ==> t.sent[i].Log? || t.sent[i].Progress?)
      && (t.sent[|t.sent| - 1].Error? <==> Fails(env))
      && (!Fails(env) ==> t.sent[|t.sent| - 1] == Log(CompletedText(|env.parsed.sections|)))
      && (env.read.Err? || env.parsed.ParseError? ==> Contains(t.sent[|t.sent| - 1].message, ctx.inputPath))
      && (env.read.Ok? && env.parsed.Other? ==> Contains(t.sent[|t.sent| - 1].message, env.parsed.debug))
      && t.ops == [] && t.outcome.Ok?
  {
    var t := Transcript(ctx, env);
    var path := ctx.inputPath;
    var opening := [Log(StartedText(path))] + SliceProgress(3);
    if env.read.Err? {
      var e := env.read.error;
      assert t.sent == opening + [Error(ReadErrorText(path, e))];
      assert ReadErrorText(path, e) == "Failed to read file '" + path + ("': " + e);
      ContainsMiddle("Failed to read file '", path, "': " + e);
    } else if env.parsed.Other? {
      var d := env.parsed.debug;
      assert t.sent == opening + [Error(NotPeText(d))];
      ContainsMiddle("File is not a PE executable (detected: ", d, ")");
    } else if env.parsed.ParseError? {
      var e := env.parsed.reason;
      assert t.sent == opening + [Error(ParseErrorText(path, e))];
      assert ParseErrorText(path, e) == "Failed to parse file '" + path + ("': " + e);
      ContainsMiddle("Failed to parse file '", path, "': " + e);
    } else {
      var report := PeReport(env.parsed.machine, env.parsed.sections, env.parsed.imports, env.parsed.exports);
      assert t.sent == opening + report;
      forall i | 0 <= i < |t.sent| ensures t.sent[i].Log? || t.sent[i].Progress? {
        if i >= 4 {
          assert t.sent[i] == report[i - 4];
        }
      }
    }
  }

  /**
   * For a PE image the step reports the section count, lists the section names exactly when
   * there are sections, and names every imported library.
   */
  lemma PeReported(ctx: PipelineContext, env: Environment)
    requires env.read.Ok? && env.parsed.PE?
    ensures var t := Transcript(ctx, env);
      var sections := env.parsed.sections;
      && t.sent[4] == Log("Detected PE: " + ArchLabel(env.parsed.machine))
      && t.sent[5] == Log(SectionCountText(|sections|))
      && (sections != [] ==> t.sent[6] == Log(SectionNamesText(SectionNames(sections))))
      && |t.sent| == (if sections == [] then 10 else 11)
      && (forall k :: 0 <= k < |env.parsed.imports| ==>
            Contains(t.sent[|t.sent| - 4].text, env.parsed.imports[k].dll))
  {
    var t := Transcript(ctx, env);
    var report := PeReport(env.parsed.machine, env.parsed.sections, env.parsed.imports, env.parsed.exports);
    assert t.sent == [Log(StartedText(ctx.inputPath))] + SliceProgress(3) + report;
    assert t.sent[|t.sent| - 4] == Log(ImportText(env.parsed.imports));
    forall k | 0 <= k < |env.parsed.imports|
      ensures Contains(t.sent[|t.sent| - 4].text, env.parsed.imports[k].dll)
    {
      ImportsListed(env.parsed.imports, k);
    }
  }

  /** The report's only progress value is 0.20, sent just before the completion log. */
  lemma PeReportProgress(machine: u16, sections: seq<SectionTable>, imports: seq<Import>, exports: seq<Export>)
    ensures var r := PeReport(machine, sections, imports, exports);
      && |r| >= 2 && r[|r| - 2] == Progress(0.20)
      && forall i :: 0 <= i < |r| && r[i].Progress? ==> r[i] == Progress(0.20)
  {
    var names := SectionNames(sections);
    var head := [Log("Detected PE: " + ArchLabel(machine)), Log(SectionCountText(|sections|))]
      + (if names != [] then [Log(SectionNamesText(names))] else []);
    var tail := [Log(ImportText(imports)), Log(ExportText(exports)), Progress(0.20), Log(CompletedText(|sections|))];
    var r := head + tail;
    assert PeReport(machine, sections, imports, exports) == r;
    forall i | 0 <= i < |r| && r[i].Progress? ensures r[i] == Progress(0.20) {
      if i >= |head| {
        assert r[i] == tail[i - |head|];
      }
    }
  }

  /** Progress rises through 1/30, 2/30 and 0.10, and never beyond 0.20. */
  lemma ProgressOrdered(ctx: PipelineContext, env: Environment)
    ensures var t := Transcript(ctx, env);
      && ProgressMonotone(t.sent) && ProgressWithin(t.sent, 0.0, 0.20)
      && t.sent[3] == Progress(0.10)
  {
    var t := Transcript(ctx, env);
    var opening := [Log(StartedText(ctx.inputPath))] + SliceProgress(3);
    var slices := SliceProgress(3);
    forall i, j | 0 <= i <= j < 3 ensures 0.0 <= slices[i].fraction <= slices[j].fraction <= 0.10 {
      FractionBounds(i + 1, j + 1, 3);
    }
    assert ProgressMonotone(opening) && ProgressWithin(opening, 0.0, 0.10) by {
      forall i | 0 <= i < 4 && opening[i].Progress? ensures opening[i] == slices[i - 1] {
      }
    }
    var rest := t.sent[4..];
    assert t.sent == opening + rest;
    if Fails(env) {
      assert |rest| == 1 && rest[0].Error?;
      NoProgressBounds(rest, 0.10, 0.20);
    } else {
      assert rest == PeReport(env.parsed.machine, env.parsed.sections, env.parsed.imports, env.parsed.exports);
      PeReportProgress(env.parsed.machine, env.parsed.sections, env.parsed.imports, env.parsed.exports);
      assert ProgressMonotone(rest) && ProgressWithin(rest, 0.10, 0.20);
    }
    ConcatProgress(opening, rest, 0.0, 0.10, 0.20);
  }

  /** Progress reaches 0.20 exactly when the file was read and is a PE image. */
  lemma PeProgressOnly(ctx: PipelineContext, env: Environment)
    ensures Progress(0.20) in Transcript(ctx, env).sent <==> !Fails(env)
  {
    var t := Transcript(ctx, env);
    var slices := SliceProgress(3);
    assert t.sent[..4] == [Log(StartedText(ctx.inputPath))] + slices;
    if Fails(env) {
      assert |t.sent| == 5 && t.sent[4].Error?;
      forall i | 0 <= i < 3 ensures slices[i].fraction <= 0.10 {
        FractionBounds(i + 1, 3, 3);
      }
      forall i | 0 <= i < |t.sent| ensures t.sent[i] != Progress(0.20) {
        if 1 <= i < 4 {
          assert t.sent[i] == slices[i - 1];
        }
      }
    } else {
      var report := PeReport(env.parsed.machine, env.parsed.sections, env.parsed.imports, env.parsed.exports);
      assert t.sent == t.sent[..4] + report;
      PeReportProgress(env.parsed.machine, env.parsed.sections, env.parsed.imports, env.parsed.exports);
      assert t.sent[|t.sent| - 2] == report[|report| - 2];
    }
  }
}
