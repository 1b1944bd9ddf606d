# Obscura protection pipeline, modelled in Dafny

Obscura is a desktop tool that "protects" a Windows executable. After a mock sign-in, the user picks a
file and the program starts a background pipeline of four steps:

1. **parse** reports the PE header, sections, imports and exports;
2. **encrypt strings** finds printable ASCII runs in the file's sections and writes a copy with those
   runs XOR-masked to `<input>.enc`;
3. **obfuscate functions** invents a renaming of the detected functions and writes it to
   `<input>.obf-map`;
4. **write output** copies the input to `<input>.obscura-protected[.exe]`.

Every step reports to the host over a channel with `Log`, `Progress`, `Done` and `Error` messages. The
host drains the channel on every frame (`poll_pipeline_messages`) and keeps a log capped at 2000 lines.

The model has one module per core source file:

| module | file | form |
|---|---|---|
| `Parse` | parse.dfy | step transcript as a function; `Run` and its loops as methods proved equal to it |
| `EncryptStrings` | encrypt.dfy | section ranges, string scan and XOR masking as functions with lemmas; the scan, the masking (in place on an `array<bv8>`) and the whole step as methods |
| `ObfuscateFunctions` | obfuscate.dfy | name detection and mapping text as functions; detection, renaming loop and step as methods |
| `WriteOutput` | write.dfy | output-path rule and transcript as functions; `Run` as a method |
| `Pipeline` | pipeline.dfy | `start_pipeline` as a method on the host state; the worker's step loop as a method |
| `State` | state.dfy | `ObscuraState` as a class whose methods update its fields; each handler is specified by a function on a view of the fields it touches |
| `Auth` | auth.dfy | `login` and `logout` as methods on `ObscuraState`, specified by functions |

Supporting modules: `PipelineTypes` (messages, context, environment outcomes), `Goblin` (the parts of
a parsed object the steps read), `Text` (decimal and hexadecimal formatting, join and split, trimming,
ASCII lowercase), `Utf8` (`std::str::from_utf8`) and `Wrappers` (`Option`, `Result`).

**How a step is modelled.** Each step is a function `Transcript(ctx, env)`. It returns a `StepRun`:
the messages the step sends, the `Result` it returns to the orchestrator, and the files it writes.
`env` holds the outcome of every call into the file system, goblin and the cancel flag.

**How the pipeline is modelled.** The orchestrator only sees steps through the `PipelineStep` trait,
so the worker is `Pipeline.Assemble(runs, 0)` over any four step runs. The run properties
(`UnreadableInput`, `DoneReportsOutput`, `NeverTargetsInput`, `HostSeesOutput`, ...) are proved for
every `runs` that satisfies `StepsBehave`. That predicate collects what the step modules prove about
their own steps. `Pipeline.TranscriptsBehave` shows that the four actual transcripts satisfy it, with
the expected output path, mapping file and read error given by `ExpectedOf`.

**Where the code differs from the design description, the model follows the code:**
- A parse failure (unreadable file, not a PE image, goblin error) is sent as an `Error` message, but
  `ParseStep::run` still returns normally. The worker therefore continues with the other steps.
- The host stops listening at the first `Error`. A later `Done` is then never seen
  (`Pipeline.NotPeOutcomeDependsOnPolling`).
- Encrypt sends `PipelineMessage::Cancelled` and reads `ctx.cancel_flag`, but the enum in
  src/pipeline/mod.rs declares neither. The model adds `Cancelled` to the message type and
  passes the flag's observations in `env.cancel`.
- The host has no arm for `Cancelled`, and a cancelled encrypt step returns `Ok`. Obfuscation and
  output therefore still run.
- The parse, obfuscate and write steps are written with a `()` return although the trait requires
  `anyhow::Result<()>`. They are modelled as returning `Ok`.
- Progress is not monotone across steps. The orchestrator announces 0.25 before the encrypt step,
  which then reports 0.15 (`Pipeline.ProgressGoesBack`).

## Model

| member | source | states |
|---|---|---|
| Auth.Accepts | src/auth.rs:6 | the credentials are accepted exactly when both the e-mail and the password contain a non-whitespace character |
| Auth.LoginOutcome | src/auth.rs:5-15 | login succeeds iff neither credential is blank; success shows the dashboard, failure keeps the screen; the credentials are kept; the newest log line is the success or the failure text |
| Auth.LogoutBlocksLogin | src/auth.rs:18-23 | after logout the login screen shows with both credentials cleared, the newest log line names the email as it was before clearing, and a later login fails and stays on the login screen |
| Auth.LoginLogoutLog | src/auth.rs:12-19 | a successful login then a logout append exactly the two log lines, "logged in" then "logged out" |
| Auth.LoginAction | src/auth.rs:5-15 | `login` updates the session fields as `LoginResult` says, returns its verdict, and leaves every other field unchanged |
| Auth.LogoutAction | src/auth.rs:18-23 | `logout` updates the session fields as `LogoutResult` says and leaves every other field unchanged |
| State.Capped | src/state.rs:70-73 | the kept log is the newest `min(n, 2000)` entries, in order |
| State.PushedKeepsNewest | src/state.rs:63-74 | after a push the log is non-empty, never over 2000, ends with the timestamped entry; below the cap it is the old log plus the entry, at the cap it drops exactly the oldest entry |
| State.Clamp | src/state.rs:82 | the progress shown is within [0, 1], equals the reported value inside that range and saturates outside it |
| State.ApplyPipelineAllValid | src/state.rs:78-97 | handling any messages keeps the log within its cap and the progress within [0, 1] |
| State.PollPipelineValid | src/state.rs:76-103 | a poll keeps the log within its cap and the progress within [0, 1] |
| State.ApplyPipelineAllFrame | src/state.rs:78-97 | messages can only stop processing and clear the cancel flag, never start them, and never touch the receiver |
| State.TerminalEndsRun | src/state.rs:84-101 | if any arrived message is `Done` or `Error`, the poll ends processing, clears the cancel flag and drops the receiver |
| State.NoTerminalKeepsListening | src/state.rs:78-101 | with no `Done` or `Error` among the arrivals, the host keeps processing, keeps the receiver, the cancel flag and the last output |
| State.NoDoneKeepsOutput | src/state.rs:84-86 | without a `Done`, the last output is unchanged |
| State.LogsInArrivalOrder | src/state.rs:78-96 | below the cap, the log grows by one line per `Log`, `Done` or `Error`, in arrival order, and by nothing else |
| State.DoneLast | src/state.rs:84-90 | a poll ending in `Done(path)` records `path` as the last output, sets progress to 1, stops processing and listening, and logs the finished line last |
| State.ApplyAuthAllFacts | src/state.rs:107-122 | any reply ends the wait; the log stays capped; the dashboard shows iff it already did or some reply was a success; the receiver is untouched |
| State.AuthReplyEndsWait | src/state.rs:105-127 | a poll that sees a reply ends the wait and drops the receiver; the dashboard shows iff it did or some reply succeeded |
| State.LastReplyDecides | src/state.rs:108-120 | the last reply decides the token, the error shown and the newest log line |
| State.ObscuraState.constructor | src/state.rs:42-61 | a new state is on the login screen with empty fields, both options on, no run, no session, and satisfies `Valid` |
| State.ObscuraState.PushLog | src/state.rs:63-74 | the log becomes `Pushed(old log, now, msg)`; no other field changes; the log cap and the progress range (`Valid`) are kept |
| State.ObscuraState.HandlePipelineMessage | src/state.rs:79-96 | the run fields become `ApplyPipeline` of the old ones; nothing else changes; the log cap and the progress range (`Valid`) are kept |
| State.ObscuraState.PollPipelineMessages | src/state.rs:76-103 | the run fields become `PollPipeline` of the old ones over the arrived messages; nothing else changes; the log cap and the progress range (`Valid`) are kept |
| State.ObscuraState.HandleAuthMessage | src/state.rs:108-121 | the session fields become `ApplyAuth` of the old ones; nothing else changes; the log cap and the progress range (`Valid`) are kept |
| State.ObscuraState.PollAuthMessages | src/state.rs:105-127 | the session fields become `PollAuth` of the old ones over the arrived replies; nothing else changes; the log cap and the progress range (`Valid`) are kept |
| WriteOutput.OutputPathShape | src/pipeline/write.rs:25-31 | an input ending in ".exe" (any case) is some t followed by k exact copies of ".exe", t not ending in ".exe", and the path is t + ".obscura-protected.exe"; any other input yields itself plus ".obscura-protected" |
| WriteOutput.OutputDiffersFromInput | src/pipeline/write.rs:25-34 | the output path is never the input path, so the copy never overwrites its source |
| WriteOutput.ExtensionKept | src/pipeline/write.rs:27-30 | the output ends in ".exe" exactly when the input does, ignoring case |
| WriteOutput.UpperCaseExtensionKept | src/pipeline/write.rs:27-28 | "a.EXE" becomes "a.EXE.obscura-protected.exe": the case-insensitive test and the case-sensitive trim disagree |
| WriteOutput.RepeatedExtensionTrimmed | src/pipeline/write.rs:28 | "a.exe.exe" becomes "a.obscura-protected.exe": every trailing ".exe" is trimmed |
| WriteOutput.Run | src/pipeline/write.rs:19-56 | the step sends, returns and copies what `Transcript` says |
| WriteOutput.CopyOutcome | src/pipeline/write.rs:34-55 | one copy from input to output; `Done(output)` is sent iff the copy succeeds and then precedes the finished log; an `Error` is sent iff it fails; the step returns `Ok` |
| WriteOutput.ProgressOrdered | src/pipeline/write.rs:22-41 | progress never goes down, stays in [0.9, 1.0], and reaches 1.0 iff the copy succeeded |
| Parse.ArchLabel | src/pipeline/parse.rs:50-54 | machine 0x14c, and only it, is "x86 (32-bit)"; 0x8664, and only it, is "x86_64 (64-bit)" |
| Parse.ArchLabelInjective | src/pipeline/parse.rs:50-54 | distinct machine values get distinct labels: the hexadecimal digits of an unknown machine read back as its value |
| Parse.SectionName | src/pipeline/parse.rs:64-67 | a name that is not UTF-8 is "<non-utf8>"; otherwise the decoded text is the result followed only by NULs, and the result does not end in NUL |
| Parse.PaddedNameReadBack | src/pipeline/parse.rs:64-65 | a UTF-8 name padded with NULs reads back as the name itself |
| Parse.CollectSectionNames | src/pipeline/parse.rs:62-69 | the loop collects `SectionNames`: one name per section, in order |
| Parse.CollectImportNames | src/pipeline/parse.rs:79-82 | the loop collects one DLL name per import, in order |
| Parse.ImportsListed | src/pipeline/parse.rs:83-87 | every imported DLL appears in the import log line, which ends with the import count |
| Parse.ReportPe | src/pipeline/parse.rs:47-102 | the PE branch sends the messages `PeReport` lists |
| Parse.Run | src/pipeline/parse.rs:20-118 | the step sends and returns what `Transcript` says |
| Parse.ErrorOutcome | src/pipeline/parse.rs:34-116 | at least five messages; only the last can be an `Error`, and it is one exactly when the read fails or the file is not a PE image; errors name the path or goblin's description; otherwise the step ends with "Parsing complete"; no file is written; the step returns `Ok` |
| Parse.PeReported | src/pipeline/parse.rs:55-95 | for a PE image: the architecture, section count and section names are logged in order; every imported DLL is named; 10 or 11 messages are sent |
| Parse.PeReportProgress | src/pipeline/parse.rs:47-102 | the PE report's only progress value is 0.20, sent just before the completion log |
| Parse.ProgressOrdered | src/pipeline/parse.rs:25-30 | progress never goes down and stays within [0, 0.20]; the third slice is 0.10 |
| Parse.PeProgressOnly | src/pipeline/parse.rs:97-116 | progress 0.20 is sent exactly when the file was read and is a PE image |
| Utf8.DecodeEncode | src/pipeline/parse.rs:64 | `from_utf8` accepts the encoding of every string and returns that string |
| Utf8.DecodeAscii | src/pipeline/parse.rs:64 | ASCII bytes decode to the same characters, one per byte |
| Utf8.RejectsBadLead | src/pipeline/parse.rs:64-67 | a name starting with a continuation byte, 0xC0, 0xC1 or 0xF5 and above is rejected (and shown as "<non-utf8>") |
| Utf8.PayloadIsScalar | src/pipeline/parse.rs:64 | a well-formed sequence decodes to a Unicode scalar value (never a surrogate, never above 0x10FFFF) |
| Text.TrimEmptyIffBlank | src/auth.rs:6 | `trim()` is empty exactly when every character is white space |
| Text.TrimEndMatches | src/pipeline/write.rs:28 | the result is a prefix of the input that no longer ends with the pattern; an empty pattern changes nothing |
| Text.TrimRemovesWholeCopies | src/pipeline/write.rs:28 | the input is the trimmed result followed by some number of whole copies of the pattern: nothing else is removed |
| Text.SplitJoin | src/pipeline/obfuscate.rs:98 | lines joined with "\n" split back into the same lines when none contains a newline |
| Text.JoinContainsParts | src/pipeline/parse.rs:73-85 | a joined list contains each of its parts |
| Text.ValueOfDigits | src/pipeline/parse.rs:53 | the decimal or hexadecimal digits of `n` read back as `n` |
| Text.PaddedValue | src/pipeline/obfuscate.rs:87 | zero-padding keeps the digits' value |
| EncryptStrings.MaskedByteNotPrintable | src/pipeline/encrypt.rs:14-27 | XOR with 0xAA turns every printable ASCII byte into a non-printable one and is undone by a second XOR |
| EncryptStrings.SectionRange | src/pipeline/encrypt.rs:46-54 | a section is skipped iff its offset or size is zero or its data starts at or past the end of the file; otherwise the range starts at its offset and ends at `min(offset + size, len)` (saturating add) |
| EncryptStrings.SectionRanges | src/pipeline/encrypt.rs:45-55 | at most one range per section, each non-empty and inside the file |
| EncryptStrings.ScanRanges | src/pipeline/encrypt.rs:43-72 | at least one range; each inside the file; the only empty one is the whole-buffer fallback of an empty file |
| EncryptStrings.NoUsableSection | src/pipeline/encrypt.rs:45-56 | a section table yields no range exactly when every entry has a zero offset, a zero size or data starting at or past the end of the file |
| EncryptStrings.WholeBufferFallback | src/pipeline/encrypt.rs:56-66 | the file is scanned as the single range [0, len) exactly when it is not a PE or none of its sections is usable (zero offset, zero size, or data starting at or past the end) |
| EncryptStrings.ResolveRanges | src/pipeline/encrypt.rs:41-72 | the method builds `ScanRanges` |
| EncryptStrings.RunIsOnlyCandidate | src/pipeline/encrypt.rs:90-97 | a maximal printable run is the only candidate starting inside it, and is one when it has at least 4 bytes |
| EncryptStrings.CandidatesExact | src/pipeline/encrypt.rs:84-99 | the strings reported in a range are exactly its maximal printable runs of length at least 4, in ascending order |
| EncryptStrings.ScanRange | src/pipeline/encrypt.rs:83-99 | the inner loops report `Candidates` of the range and count all printable bytes in runs |
| EncryptStrings.AllCandidatesExact | src/pipeline/encrypt.rs:77-104 | a string is reported exactly when it is a candidate of one of the scanned ranges |
| EncryptStrings.ScanAll | src/pipeline/encrypt.rs:77-104 | the scan loop stops with `Cancelled` iff the flag is seen at one of its checkpoints; otherwise it returns every candidate, the printable count and one progress value per range |
| EncryptStrings.MaskedAt | src/pipeline/encrypt.rs:117-126 | a byte of the masked copy is flipped exactly when an odd number of the reported strings cover it (clipped to the buffer) |
| EncryptStrings.MaskTwiceRestores | src/pipeline/encrypt.rs:123-126 | masking the masked copy with the same strings restores the original bytes |
| EncryptStrings.MaskedDisjoint | src/pipeline/encrypt.rs:117-126 | with disjoint strings, exactly the bytes inside some string are flipped |
| EncryptStrings.UncoveredUnchanged | src/pipeline/encrypt.rs:117-126 | a byte inside none of the strings is left unchanged, whether or not the strings overlap |
| EncryptStrings.DisjointRangesDisjointStrings | src/pipeline/encrypt.rs:77-104 | ranges that do not overlap yield reported strings that do not overlap |
| EncryptStrings.ApartRangesMasking | src/pipeline/encrypt.rs:77-126 | when the scanned ranges do not overlap, masking flips exactly the bytes inside a found string, each to a non-printable byte, and leaves every other byte unchanged |
| EncryptStrings.SingleRangeMasking | src/pipeline/encrypt.rs:83-126 | when one range is scanned, every byte in a reported string is masked, to a non-printable byte, and every other byte is unchanged |
| EncryptStrings.RepeatedStringUnmasked | src/pipeline/encrypt.rs:117-126 | a string reported twice (two sections over the same bytes) is flipped twice and so left unmasked |
| EncryptStrings.XorInPlace | src/pipeline/encrypt.rs:123-126 | the in-place loop over the array leaves exactly `XorSpan` of the old contents |
| EncryptStrings.MaskAll | src/pipeline/encrypt.rs:117-129 | the masking loop stops with `Cancelled` iff the flag is seen at one of its checkpoints; otherwise it returns the masked buffer and one progress value per string |
| EncryptStrings.MaskAndWrite | src/pipeline/encrypt.rs:106-157 | the summary, masking, write and closing messages and the file written are those of `MaskStage` |
| EncryptStrings.MaskStageCancel | src/pipeline/encrypt.rs:106-122 | once the scan was not cancelled, `Cancelled` is sent iff the flag is seen at a masking checkpoint; it is then the last message and nothing is written |
| EncryptStrings.MaskStageProgress | src/pipeline/encrypt.rs:106-157 | after the scan, progress never goes down and stays within [0.35, 0.85]; an uncancelled stage ends with progress 0.85 and the completion log |
| EncryptStrings.Run | src/pipeline/encrypt.rs:30-160 | the step sends, returns and writes what `Transcript` says |
| EncryptStrings.ReadFailure | src/pipeline/encrypt.rs:30-38 | the step returns an error exactly when the read fails, and that error names the path and the read error |
| EncryptStrings.CancelOutcome | src/pipeline/encrypt.rs:77-122 | `Cancelled` is sent iff the flag is seen before the scan or masking ends; it is then the last message; the step writes nothing and returns `Ok` |
| EncryptStrings.WritesMaskedCopy | src/pipeline/encrypt.rs:115-153 | at most one file is written; it is written iff the read succeeded, some string was found and no cancellation was seen; it is `<input>.enc` holding the masked bytes, never the input |
| EncryptStrings.ApartRangesMaskedCopy | src/pipeline/encrypt.rs:115-153 | when the scanned ranges do not overlap, the `<input>.enc` file, if written, is the input with exactly the bytes of the found strings flipped, each to a non-printable byte, and every other byte unchanged |
| EncryptStrings.ProgressOrdered | src/pipeline/encrypt.rs:32-157 | progress never goes down and stays within [0.15, 0.85]; a completed step ends with progress 0.85 and the completion log |
| EncryptStrings.SendsNoVerdict | src/pipeline/encrypt.rs:30-160 | the step sends neither `Done` nor `Error` |
| ObfuscateFunctions.NameCount | src/pipeline/obfuscate.rs:43-80 | one name per export when there are exports; `2 * sections - 1` (saturating) for a PE image without exports; 8 for anything else |
| ObfuscateFunctions.DetectFunctions | src/pipeline/obfuscate.rs:41-80 | the detection loops build `FunctionNames` and its log line |
| ObfuscateFunctions.SynthesizedNamesHaveNoNewline | src/pipeline/obfuscate.rs:59-74 | the invented names ("func_approx_k", "sim_func_k") contain no newline |
| ObfuscateFunctions.GeneratedNameShape | src/pipeline/obfuscate.rs:87 | the new name is "f_" then at least four decimal digits whose value is k; exactly six characters below 10000 |
| ObfuscateFunctions.GeneratedNamesDistinct | src/pipeline/obfuscate.rs:85-88 | different indices get different new names |
| ObfuscateFunctions.MappingLinesInjective | src/pipeline/obfuscate.rs:83-88 | line i maps name i to its new name, and the new names are pairwise distinct |
| ObfuscateFunctions.MappingTextLines | src/pipeline/obfuscate.rs:98 | the mapping file is empty for no names; otherwise it splits back into exactly one line per name |
| ObfuscateFunctions.RenameValueBounds | src/pipeline/obfuscate.rs:91-92 | renaming progress rises with the index and stays within [0.45, 0.7] |
| ObfuscateFunctions.Rename | src/pipeline/obfuscate.rs:83-94 | the renaming loop yields `MappingLines` and one progress value per name |
| ObfuscateFunctions.Run | src/pipeline/obfuscate.rs:22-118 | the step sends, returns and writes what `Transcript` says |
| ObfuscateFunctions.ReadFailure | src/pipeline/obfuscate.rs:29-37 | an unreadable file gives three messages ending in an `Error` that names the path; nothing is written; the step returns `Ok` |
| ObfuscateFunctions.MapWriteOnlyLogged | src/pipeline/obfuscate.rs:96-117 | a readable file gives one write of the mapping text to `<input>.obf-map`, never the input, whatever its outcome; the step ends with the summary, progress 0.75 and the completion log |
| ObfuscateFunctions.NoFailureSent | src/pipeline/obfuscate.rs:40-117 | once the file is read, only `Log` and `Progress` messages are sent |
| ObfuscateFunctions.ProgressOrdered | src/pipeline/obfuscate.rs:25-115 | progress never goes down and stays within [0.45, 0.75] |
| Pipeline.StartPipeline | src/pipeline/mod.rs:36-42 | installs the receiver, sets processing and zero progress, and leaves the log, last output, cancel flag and session unchanged |
| Pipeline.RunStep | src/pipeline/mod.rs:48-60 | runs step `i` of the fixed order parse, encrypt, obfuscate, write |
| Pipeline.RunWorker | src/pipeline/mod.rs:44-68 | the worker's loop sends and writes what `Worker` says |
| Pipeline.TranscriptsBehave | src/pipeline/mod.rs:48-53 | the four steps satisfy `StepsBehave` |
| Pipeline.AssembleStopsAt | src/pipeline/mod.rs:56-67 | when step k is the first to return an error, the run sends the markers and messages of steps 0 to k, then that error as `Error`, and nothing more (no full-progress message); only the files of steps 0 to k are written |
| Pipeline.AssembleAllOk | src/pipeline/mod.rs:55-67 | when every step returns `Ok`, the worker sends each step's marker and messages in order, then progress 1.0, and writes every step's files in order |
| Pipeline.UnreadableInput | src/pipeline/mod.rs:60-63 | an unreadable input stops the run after the encrypt step with an `Error` naming the path; nothing is written; no `Done`; progress stays in [0, 0.25] |
| Pipeline.ReadableInput | src/pipeline/mod.rs:55-67 | a readable input runs all four steps, with their markers, and ends with progress 1.0; the files written are the masked copy (if any), the mapping and the output copy |
| Pipeline.DoneReportsOutput | src/pipeline/mod.rs:55-67 | `Done(output)` is sent iff the input is readable and the copy succeeds, and every `Done` names the output path |
| Pipeline.NeverTargetsInput | src/pipeline/mod.rs:48-67 | at most three files are written, and none of them is the input |
| Pipeline.ProgressGoesBack | src/pipeline/mod.rs:56-58 | the marker before the encrypt step is 0.25, then the step reports 0.15, so the run's progress is not monotone |
| Pipeline.HostSeesOutput | src/state.rs:76-103 | a host polling a successful run in one batch ends with that output, progress 1 and the run over |
| Pipeline.HostSeesReadError | src/state.rs:91-101 | a host that receives a whole unreadable-input run in one batch ends the run, keeps its last output and logs the read error last |
| Pipeline.UnreadableOutcomeDependsOnPolling | src/state.rs:99-101 | on an unreadable input the parsing step's `Error` comes before the read error; a poll that ends there drops the receiver and stops processing, so later polls change nothing and the read error is never logged |
| Pipeline.NotPeOutcomeDependsOnPolling | src/state.rs:99-101 | for a non-PE input the run sends the parse `Error` and later `Done`; one poll of everything records the output, but a poll that ends at the `Error` drops the receiver, and the output is never seen |
| Pipeline.WorkerOutcome | src/pipeline/mod.rs:44-68 | the actual worker never writes the input, and sends `Done` with the output path exactly when the input is readable and the copy succeeds |

## Left out

- Threads and channels. `StartPipeline` sets up the host state; the worker is `RunWorker`, and the messages a poll finds are passed to it as a sequence.
- The channel receivers and the shared cancel flag are booleans saying whether they are installed.
- The moments the worker checks the cancel flag are numbered checkpoints in `CancelFlag`. Interleaving is not modelled.
- `SystemTime::now` in `push_log` is a parameter `now`. One reading stands for a whole poll, so the log entries from one poll all carry the same second, where the program reads the clock again for each entry.
- The `thread::sleep` calls are left out; they change no state.
- File-system calls (`fs::read`, `fs::write`, `fs::copy`) and `goblin::Object::parse` are outcomes in `Environment`. Every step sees the same read result, so a file changed between steps is not modelled.
- `f32` progress values are reals computed exactly, with no rounding.
- State.Clamp: NaN is not modelled, because reals have no NaN.
- `to_lowercase` in the output-path rule folds ASCII letters only; the rest of Unicode case folding is not modelled.
- `trim` uses the full Unicode White_Space set.
- `usize` arithmetic is modelled where it matters (the saturating add and `saturating_sub`). Lengths are unbounded naturals elsewhere, with buffers capped at `usize::MAX`.
- The `Debug` text of a non-PE goblin object and the `Display` text of I/O errors are opaque strings in the environment.
- The `PipelineStep` trait (src/pipeline/step.rs) is the `StepRun.outcome` field.
- The steps' `new()` constructors are left out; they hold no state.
- `ObscuraState` fields only the UI reads are left out, as are the UI itself (src/ui), the application loop (src/app.rs), src/main.rs, the HTTP authentication client (src/auth_client.rs) and src/pipeline.rs. None of them is part of this model.
- Pipeline.HostSeesOutput: proved for a host that polls the whole run at once. Other batchings are covered only by the per-message lemmas in `State`.
- Pipeline.HostSeesReadError: proved for a host that polls the whole run at once. A poll that ends at the parsing step's own `Error` never logs the read error; `UnreadableOutcomeDependsOnPolling` states that case.
