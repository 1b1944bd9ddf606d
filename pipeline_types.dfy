/**
 * The values the pipeline steps share (src/pipeline/mod.rs): the messages sent to the host, the
 * run context, and the outcomes of everything outside the program that the steps consult.
 */
module PipelineTypes {
  import opened Wrappers
  import opened Goblin

  /**
   * What a step sends over the channel. `Cancelled` is sent by the string-masking step
   * although the enum in src/pipeline/mod.rs does not declare it.
   */
  datatype PipelineMessage =
    | Log(text: string)
    | Progress(fraction: real)
    | Done(outputPath: string)
    | Error(message: string)
    | Cancelled

  datatype PipelineContext = PipelineContext(inputPath: string)

  /**
   * The shared cancellation flag as the worker observes it. Checkpoints are numbered in the
   * order the worker reaches them; once the host raises the flag it stays raised, so every
   * checkpoint from `checkpoint` on sees it.
   */
  datatype CancelFlag = Clear | RaisedAt(checkpoint: nat) {
    predicate SeenAt(k: nat) {
      RaisedAt? && checkpoint <= k
    }

    /** One of the first `n` checkpoints sees the flag. */
    predicate SeenBefore(n: nat) {
      RaisedAt? && checkpoint < n
    }
  }

  /** A file read into memory (a `Vec<u8>`, whose length fits in a `usize`). */
  type Buffer = b: seq<bv8> | |b| <= 0xFFFF_FFFF_FFFF_FFFF

  /** The outcomes of the calls the steps make into the file system and the flag. */
  datatype Environment = Environment(
    read: Result<Buffer, string>,    // fs::read(input_path), the same for every step
    parsed: Object,                  // goblin::Object::parse of the bytes read
    cancel: CancelFlag,              // the cancel flag, as the masking step observes it
    encWrite: Result<(), string>,    // fs::write("<input>.enc", ..)
    mapWrite: Result<(), string>,    // fs::write("<input>.obf-map", ..)
    copy: Result<nat, string>)       // fs::copy(input, output): bytes copied, or the error

  /** A file the pipeline writes: the masked buffer, the mapping text, or the output copy. */
  datatype FileOp =
    | WriteBytes(path: string, data: seq<bv8>)
    | WriteText(path: string, text: string)
    | CopyFile(source: string, target: string)
  {
    function Destination(): string {
      match this
      case WriteBytes(p, _) => p
      case WriteText(p, _) => p
      case CopyFile(_, t) => t
    }
  }

  datatype StepKind = ParseStep | EncryptStringsStep | ObfuscateFunctionsStep | WriteOutputStep

  /**
   * One step's run: what it sent, what it returned to the orchestrator (`anyhow::Result<()>`),
   * and the files it attempted to write, in order.
   */
  datatype StepRun = StepRun(step: StepKind, sent: seq<PipelineMessage>, outcome: Result<(), string>, ops: seq<FileOp>)

  /** `k / n` as the steps compute it in `f32`; modelled exactly, as a real. */
  function Fraction(k: nat, n: nat): real
    requires n > 0
  {
    k as real / n as real
  }

  /** `f32::min`. */
  function MinReal(a: real, b: real): real {
    if a <= b then a else b
  }

  lemma FractionBounds(j: nat, k: nat, n: nat)
    requires j <= k <= n && n > 0
    ensures 0.0 <= Fraction(j, n) <= Fraction(k, n) <= 1.0
  {
  }

  /** Every progress value in `msgs` lies in [lo, hi]. */
  ghost predicate ProgressWithin(msgs: seq<PipelineMessage>, lo: real, hi: real) {
    forall i :: 0 <= i < |msgs| && msgs[i].Progress? ==> lo <= msgs[i].fraction <= hi
  }

  /** The progress values in `msgs` never go down. */
  ghost predicate ProgressMonotone(msgs: seq<PipelineMessage>) {
    forall i, j :: 0 <= i < j < |msgs| && msgs[i].Progress? && msgs[j].Progress? ==>
      msgs[i].fraction <= msgs[j].fraction
  }

  /** `msgs` carries no progress value at all. */
  ghost predicate NoProgress(msgs: seq<PipelineMessage>) {
    forall i :: 0 <= i < |msgs| ==> !msgs[i].Progress?
  }

  /** Two runs of messages, the first ending no higher than the second begins, keep the order. */
  lemma ConcatProgress(a: seq<PipelineMessage>, b: seq<PipelineMessage>, lo: real, mid: real, hi: real)
    requires lo <= mid <= hi
    requires ProgressMonotone(a) && ProgressWithin(a, lo, mid)
    requires ProgressMonotone(b) && ProgressWithin(b, mid, hi)
    ensures ProgressMonotone(a + b) && ProgressWithin(a + b, lo, hi)
  {
    var ab := a + b;
    forall i, j | 0 <= i < j < |ab| && ab[i].Progress? && ab[j].Progress?
      ensures ab[i].fraction <= ab[j].fraction
    {
      if j < |a| {
        assert ab[i] == a[i] && ab[j] == a[j];
      } else if i >= |a| {
        assert ab[i] == b[i - |a|] && ab[j] == b[j - |a|];
      } else {
        assert ab[i] == a[i] && ab[j] == b[j - |a|];
      }
    }
    forall i | 0 <= i < |ab| && ab[i].Progress? ensures lo <= ab[i].fraction <= hi {
      if i < |a| {
        assert ab[i] == a[i];
      } else {
        assert ab[i] == b[i - |a|];
      }
    }
  }

  lemma NoProgressBounds(msgs: seq<PipelineMessage>, lo: real, hi: real)
    requires NoProgress(msgs)
    ensures ProgressMonotone(msgs) && ProgressWithin(msgs, lo, hi)
  {
  }

  /** `msgs` carries neither a `Done` nor an `Error`: nothing the host treats as the end of the run. */
  ghost predicate NoVerdict(msgs: seq<PipelineMessage>) {
    forall i :: 0 <= i < |msgs| ==> !msgs[i].Done? && !msgs[i].Error?
  }

  lemma NoVerdictConcat(a: seq<PipelineMessage>, b: seq<PipelineMessage>)
    requires NoVerdict(a) && NoVerdict(b)
    ensures NoVerdict(a + b)
  {
    forall i | 0 <= i < |a + b| ensures !(a + b)[i].Done? && !(a + b)[i].Error? {
      if i >= |a| {
        assert (a + b)[i] == b[i - |a|];
      }
    }
  }
}
