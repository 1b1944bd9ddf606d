/**
 * The string-masking step (src/pipeline/encrypt.rs): resolve the byte ranges to scan from the
 * PE section table, find the maximal runs of printable ASCII in each, XOR every run found with
 * a fixed key in a copy of the buffer and write that copy to `<input>.enc`.
 */
module EncryptStrings {
  import opened Wrappers
  import opened Text
  import opened Goblin
  import opened PipelineTypes

  /** Shortest run of printable bytes that counts as a string. */
  const MinStringLen: nat := 4
  /** The masking key. */
  const XorKey: bv8 := 0xAA
  const UsizeMax: nat := 0xFFFF_FFFF_FFFF_FFFF

  /** Space through tilde. */
  predicate IsPrintableAscii(b: bv8) {
    0x20 <= b as int <= 0x7E
  }

  /** Masking a printable byte sets its top bit, so no masked string byte stays printable. */
  lemma MaskedByteNotPrintable(b: bv8)
    requires IsPrintableAscii(b)
    ensures !IsPrintableAscii(b ^ XorKey) && (b ^ XorKey) ^ XorKey == b
  {
  }

  /** `(start, length)`: a range of the buffer, or a string found in it. */
  datatype Span = Span(start: nat, len: nat) {
    function End(): nat {
      start + len
    }
  }

  function Min(a: nat, b: nat): nat {
    if a <= b then a else b
  }

  /** `usize::saturating_add`. */
  function SaturatingAdd(a: nat, b: nat): nat {
    if a + b <= UsizeMax then a + b else UsizeMax
  }

  // ---------------------------------------------------------------------------------------
  // Range resolution
  // ---------------------------------------------------------------------------------------

  /**
   * The range one section table entry contributes to a buffer of `n` bytes: none for an entry
   * whose offset or size is zero, none for one that starts at or past the end, otherwise its
   * raw data clipped to the buffer.
   */
  function SectionRange(sec: SectionTable, n: nat): (r: Option<Span>)
    requires n <= UsizeMax
    ensures r.None? <==> sec.pointerToRawData == 0 || sec.sizeOfRawData == 0 || sec.pointerToRawData >= n
    ensures r.Some? ==> r.value.start == sec.pointerToRawData && r.value.len > 0
    ensures r.Some? ==> r.value.End() == Min(sec.pointerToRawData + sec.sizeOfRawData, n)
  {
    var start := sec.pointerToRawData;
    var size := sec.sizeOfRawData;
    if start == 0 || size == 0 then None
    else
      var end := Min(SaturatingAdd(start, size), n);
      if end > start then Some(Span(start, end - start)) else None
  }

  /** The ranges of all entries of a section table, in table order; each is non-empty and in the buffer. */
  function SectionRanges(sections: seq<SectionTable>, n: nat): (rs: seq<Span>)
    requires n <= UsizeMax
    ensures |rs| <= |sections|
    ensures forall r <- rs :: 0 < r.start && 0 < r.len && r.End() <= n
    decreases |sections|
  {
    if sections == [] then []
    else
      var rest := SectionRanges(sections[..|sections| - 1], n);
      match SectionRange(sections[|sections| - 1], n)
      case None => rest
      case Some(r) => rest + [r]
  }

  /**
   * The ranges the step scans: the section ranges of a PE that has any, else the whole buffer.
   * There is always at least one, every one lies inside the buffer, and only the whole-buffer
   * fallback of an empty file is empty.
   */
  function ScanRanges(obj: Object, n: nat): (rs: seq<Span>)
    requires n <= UsizeMax
    ensures |rs| >= 1
    ensures forall r <- rs :: r.End() <= n && (r.len == 0 ==> r == Span(0, 0))
  {
    if obj.PE? && SectionRanges(obj.sections, n) != [] then SectionRanges(obj.sections, n)
    else [Span(0, n)]
  }

  /** An entry is unusable when its offset or size is zero or its data starts at or past the end. */
  predicate Unusable(sec: SectionTable, n: nat) {
    sec.pointerToRawData == 0 || sec.sizeOfRawData == 0 || sec.pointerToRawData >= n
  }

  /** A section table yields no range exactly when every one of its entries is unusable. */
  lemma {:induction false} NoUsableSection(sections: seq<SectionTable>, n: nat)
    requires n <= UsizeMax
    ensures SectionRanges(sections, n) == [] <==> forall s <- sections :: Unusable(s, n)
    decreases |sections|
  {
    if sections != [] {
      var init, last := sections[..|sections| - 1], sections[|sections| - 1];
      assert sections == init + [last];
      NoUsableSection(init, n);
      if forall s <- sections :: Unusable(s, n) {
        assert forall s <- init :: Unusable(s, n) by {
          forall s | s in init ensures Unusable(s, n) { assert s in sections; }
        }
        assert Unusable(last, n) by { assert last in sections; }
      } else {
        var s :| s in sections && !Unusable(s, n);
        if s == last {
          assert SectionRange(last, n).Some?;
        } else {
          assert s in init;
        }
      }
    }
  }

  /**
   * A file is scanned as the single whole-buffer range exactly when it is not a PE or none of its
   * sections is usable.
   */
  lemma WholeBufferFallback(obj: Object, n: nat)
    requires n <= UsizeMax
    ensures ScanRanges(obj, n) == [Span(0, n)]
        <==> !obj.PE? || forall s <- obj.sections :: Unusable(s, n)
  {
    if obj.PE? {
      NoUsableSection(obj.sections, n);
      var rs := SectionRanges(obj.sections, n);
      if rs != [] {
        assert rs[0] in rs;
        assert rs != [Span(0, n)];
      }
    }
  }

  /** The section loop of `run`: pushes the range of every entry that has one. */
  method ResolveRanges(obj: Object, n: nat) returns (ranges: seq<Span>)
    requires n <= UsizeMax
    ensures ranges == ScanRanges(obj, n)
  {
    ranges := [];
    if obj.PE? {
      var sections := obj.sections;
      for k := 0 to |sections|
        invariant ranges == SectionRanges(sections[..k], n)
      {
        assert sections[..k + 1][..k] == sections[..k];
        var sec := sections[k];
        var start := sec.pointerToRawData;
        var size := sec.sizeOfRawData;
        if start == 0 || size == 0 {
          continue;
        }
        var end := Min(SaturatingAdd(start, size), n);
        if end > start {
          ranges := ranges + [Span(start, end - start)];
        }
      }
      assert sections[..|sections|] == sections;
    }
    if ranges == [] {
      ranges := [Span(0, n)];
    }
  }

  // ---------------------------------------------------------------------------------------
  // String scan
  // ---------------------------------------------------------------------------------------

  /**
   * `s` is a string of the range [lo, hi): at least `MinStringLen` printable bytes, bounded on
   * each side by a non-printable byte or by the edge of the range.
   */
  ghost predicate IsCandidate(bytes: seq<bv8>, lo: nat, hi: nat, s: Span)
    requires hi <= |bytes|
  {
    && lo <= s.start && s.End() <= hi && s.len >= MinStringLen
    && (forall i :: s.start <= i < s.End() ==> IsPrintableAscii(bytes[i]))
    && (s.start == lo || !IsPrintableAscii(bytes[s.start - 1]))
    && (s.End() == hi || !IsPrintableAscii(bytes[s.End()]))
  }

  /** Strictly ascending and apart: each string ends before the next one starts. */
  ghost predicate Ascending(found: seq<Span>) {
    forall j, k :: 0 <= j < k < |found| ==> found[j].End() < found[k].start
  }

  /** Where the run of printable bytes that starts at `i` ends. */
  function RunEnd(bytes: seq<bv8>, i: nat, hi: nat): (e: nat)
    requires i <= hi <= |bytes|
    ensures i <= e <= hi
    ensures forall k :: i <= k < e ==> IsPrintableAscii(bytes[k])
    ensures e == hi || !IsPrintableAscii(bytes[e])
    decreases hi - i
  {
    if i < hi && IsPrintableAscii(bytes[i]) then RunEnd(bytes, i + 1, hi) else i
  }

  /** The strings of [i, hi), left to right: the reference the scanning loop is proved against. */
  function CandidatesFrom(bytes: seq<bv8>, i: nat, hi: nat): seq<Span>
    requires i <= hi <= |bytes|
    decreases hi - i
  {
    if i == hi then []
    else if !IsPrintableAscii(bytes[i]) then CandidatesFrom(bytes, i + 1, hi)
    else
      var e := RunEnd(bytes, i, hi);
      (if e - i >= MinStringLen then [Span(i, e - i)] else []) + CandidatesFrom(bytes, e, hi)
  }

  function Candidates(bytes: seq<bv8>, r: Span): seq<Span>
    requires r.End() <= |bytes|
  {
    CandidatesFrom(bytes, r.start, r.End())
  }

  /**
   * A maximal run of printable bytes is the only string that starts inside it, and it is one
   * itself when it is long enough.
   */
  lemma RunIsOnlyCandidate(bytes: seq<bv8>, lo: nat, hi: nat, run: Span)
    requires lo <= run.start && run.End() <= hi <= |bytes| && run.len > 0
    requires forall k :: run.start <= k < run.End() ==> IsPrintableAscii(bytes[k])
    requires run.start == lo || !IsPrintableAscii(bytes[run.start - 1])
    requires run.End() == hi || !IsPrintableAscii(bytes[run.End()])
    ensures forall s: Span :: IsCandidate(bytes, lo, hi, s) && run.start <= s.start < run.End() ==> s == run
    ensures run.len >= MinStringLen ==> IsCandidate(bytes, lo, hi, run)
  {
    forall s: Span | IsCandidate(bytes, lo, hi, s) && run.start <= s.start < run.End()
      ensures s == run
    {
    }
  }

  /** Position `i` of [lo, hi) is not inside a run of printable bytes. */
  ghost predicate AtBoundary(bytes: seq<bv8>, lo: nat, i: nat, hi: nat)
    requires lo <= i <= hi <= |bytes|
  {
    i == lo || i == hi || !IsPrintableAscii(bytes[i - 1]) || !IsPrintableAscii(bytes[i])
  }

  /** From a boundary `i` on, every string the scan reports is a string of [lo, hi) at or after `i`. */
  lemma {:induction false} CandidatesFromSound(bytes: seq<bv8>, lo: nat, i: nat, hi: nat)
    requires lo <= i <= hi <= |bytes| && AtBoundary(bytes, lo, i, hi)
    ensures forall s <- CandidatesFrom(bytes, i, hi) :: IsCandidate(bytes, lo, hi, s) && i <= s.start
    decreases hi - i
  {
    if i < hi {
      CandidatesFromStep(bytes, i, hi);
      if !IsPrintableAscii(bytes[i]) {
        CandidatesFromSound(bytes, lo, i + 1, hi);
      } else {
        var e := RunEnd(bytes, i, hi);
        assert i < e;
        CandidatesFromSound(bytes, lo, e, hi);
        RunIsOnlyCandidate(bytes, lo, hi, Span(i, e - i));
      }
    }
  }

  /** From a boundary `i` on, the scan reports every string of [lo, hi) that starts at or after `i`. */
  lemma {:induction false} CandidatesFromComplete(bytes: seq<bv8>, lo: nat, i: nat, hi: nat)
    requires lo <= i <= hi <= |bytes| && AtBoundary(bytes, lo, i, hi)
    ensures forall s: Span :: IsCandidate(bytes, lo, hi, s) && i <= s.start ==> s in CandidatesFrom(bytes, i, hi)
    decreases hi - i
  {
    if i < hi {
      CandidatesFromStep(bytes, i, hi);
      if !IsPrintableAscii(bytes[i]) {
        CandidatesFromComplete(bytes, lo, i + 1, hi);
        forall s: Span | IsCandidate(bytes, lo, hi, s) && i <= s.start ensures i + 1 <= s.start {
          assert IsPrintableAscii(bytes[s.start]);
        }
      } else {
        var e := RunEnd(bytes, i, hi);
        assert i < e;
        CandidatesFromComplete(bytes, lo, e, hi);
        RunIsOnlyCandidate(bytes, lo, hi, Span(i, e - i));
      }
    }
  }

  /** From a boundary `i` on, the strings the scan reports are in ascending order. */
  lemma {:induction false} CandidatesFromAscending(bytes: seq<bv8>, lo: nat, i: nat, hi: nat)
    requires lo <= i <= hi <= |bytes| && AtBoundary(bytes, lo, i, hi)
    ensures Ascending(CandidatesFrom(bytes, i, hi))
    decreases hi - i
  {
    if i < hi {
      CandidatesFromStep(bytes, i, hi);
      if !IsPrintableAscii(bytes[i]) {
        CandidatesFromAscending(bytes, lo, i + 1, hi);
      } else {
        var e := RunEnd(bytes, i, hi);
        assert i < e;
        CandidatesFromAscending(bytes, lo, e, hi);
        CandidatesFromSound(bytes, lo, e, hi);
        var rest := CandidatesFrom(bytes, e, hi);
        forall s <- rest ensures e < s.start {
          assert IsPrintableAscii(bytes[s.start]);
        }
      }
    }
  }

  /** The strings the scan reports for a range are exactly its strings, in ascending order. */
  lemma CandidatesExact(bytes: seq<bv8>, r: Span)
    requires r.End() <= |bytes|
    ensures forall s: Span :: s in Candidates(bytes, r) <==> IsCandidate(bytes, r.start, r.End(), s)
    ensures Ascending(Candidates(bytes, r))
  {
    CandidatesFromSound(bytes, r.start, r.start, r.End());
    CandidatesFromComplete(bytes, r.start, r.start, r.End());
    CandidatesFromAscending(bytes, r.start, r.start, r.End());
  }

  /** The number of printable bytes in [lo, hi). */
  function CountPrintable(bytes: seq<bv8>, lo: nat, hi: nat): (c: nat)
    requires lo <= hi <= |bytes|
    ensures c <= hi - lo
    decreases hi - lo
  {
    if hi == lo then 0
    else CountPrintable(bytes, lo, hi - 1) + (if IsPrintableAscii(bytes[hi - 1]) then 1 else 0)
  }

  lemma RunEndStep(bytes: seq<bv8>, i: nat, hi: nat)
    requires i <= hi <= |bytes|
    ensures i < hi && IsPrintableAscii(bytes[i]) ==> RunEnd(bytes, i, hi) == RunEnd(bytes, i + 1, hi)
    ensures !(i < hi && IsPrintableAscii(bytes[i])) ==> RunEnd(bytes, i, hi) == i
  {
  }

  lemma CandidatesFromStep(bytes: seq<bv8>, i: nat, hi: nat)
    requires i < hi <= |bytes|
    ensures !IsPrintableAscii(bytes[i]) ==> CandidatesFrom(bytes, i, hi) == CandidatesFrom(bytes, i + 1, hi)
    ensures IsPrintableAscii(bytes[i]) ==>
      var e := RunEnd(bytes, i, hi);
      CandidatesFrom(bytes, i, hi) == (if e - i >= MinStringLen then [Span(i, e - i)] else []) + CandidatesFrom(bytes, e, hi)
  {
  }

  /**
   * The scan of one range (the `while i < slice.len()` loop): the strings of the range, and the
   * number of bytes that lie in printable runs, long enough or not.
   */
  method ScanRange(bytes: seq<bv8>, r: Span) returns (found: seq<Span>, checked: nat)
    requires r.End() <= |bytes|
    ensures found == Candidates(bytes, r)
    ensures checked == CountPrintable(bytes, r.start, r.End())
  {
    var lo, hi := r.start, r.End();
    found, checked := [], 0;
    var i := lo;
    while i < hi
      invariant lo <= i <= hi
      invariant found + CandidatesFrom(bytes, i, hi) == CandidatesFrom(bytes, lo, hi)
      invariant checked == CountPrintable(bytes, lo, i)
    {
      CandidatesFromStep(bytes, i, hi);
      if !IsPrintableAscii(bytes[i]) {
        i := i + 1;
        continue;
      }
      var runStart := i;
      while i < hi && IsPrintableAscii(bytes[i])
        invariant runStart <= i <= hi
        invariant RunEnd(bytes, runStart, hi) == RunEnd(bytes, i, hi)
        invariant CountPrintable(bytes, lo, i) == checked + (i - runStart)
      {
        RunEndStep(bytes, i, hi);
        i := i + 1;
      }
      RunEndStep(bytes, i, hi);
      var runLen := i - runStart;
      ghost var before := found;
      if runLen >= MinStringLen {
        found := found + [Span(runStart, runLen)];
      }
      assert found + CandidatesFrom(bytes, i, hi) == before + CandidatesFrom(bytes, runStart, hi);
      checked := checked + runLen;
    }
  }

  /** The strings of every range, range after range: what the range loop collects. */
  function AllCandidates(bytes: seq<bv8>, ranges: seq<Span>): seq<Span>
    requires forall r <- ranges :: r.End() <= |bytes|
    decreases |ranges|
  {
    if ranges == [] then []
    else AllCandidates(bytes, ranges[..|ranges| - 1]) + Candidates(bytes, ranges[|ranges| - 1])
  }

  /** `s` is a string of one of the ranges. */
  ghost predicate InSomeRange(bytes: seq<bv8>, ranges: seq<Span>, s: Span)
    requires forall r <- ranges :: r.End() <= |bytes|
  {
    exists j :: 0 <= j < |ranges| && IsCandidate(bytes, ranges[j].start, ranges[j].End(), s)
  }

  /** Every string found lies inside the buffer. */
  lemma CandidatesInBounds(bytes: seq<bv8>, ranges: seq<Span>)
    requires forall r <- ranges :: r.End() <= |bytes|
    ensures forall s <- AllCandidates(bytes, ranges) :: s.start <= |bytes|
  {
    AllCandidatesExact(bytes, ranges);
    forall s <- AllCandidates(bytes, ranges) ensures s.start <= |bytes| {
      assert InSomeRange(bytes, ranges, s);
    }
  }

  /** The scan of all ranges reports a string exactly when it is a string of one of them. */
  lemma {:induction false} AllCandidatesExact(bytes: seq<bv8>, ranges: seq<Span>)
    requires forall r <- ranges :: r.End() <= |bytes|
    ensures forall s: Span :: s in AllCandidates(bytes, ranges) <==> InSomeRange(bytes, ranges, s)
    decreases |ranges|
  {
    if ranges != [] {
      var init := ranges[..|ranges| - 1];
      var last := ranges[|ranges| - 1];
      assert ranges == init + [last];
      AllCandidatesExact(bytes, init);
      CandidatesExact(bytes, last);
      forall s: Span ensures s in AllCandidates(bytes, ranges) <==> InSomeRange(bytes, ranges, s) {
        InSomeRangeSnoc(bytes, init, last, s);
      }
    }
  }

  /** A string of the ranges `init + [last]` is one of `init` or one of `last`. */
  lemma InSomeRangeSnoc(bytes: seq<bv8>, init: seq<Span>, last: Span, s: Span)
    requires forall r <- init :: r.End() <= |bytes|
    requires last.End() <= |bytes|
    ensures InSomeRange(bytes, init + [last], s)
        <==> InSomeRange(bytes, init, s) || IsCandidate(bytes, last.start, last.End(), s)
  {
    var ranges := init + [last];
    if InSomeRange(bytes, init, s) {
      var j :| 0 <= j < |init| && IsCandidate(bytes, init[j].start, init[j].End(), s);
      assert ranges[j] == init[j];
    }
    if IsCandidate(bytes, last.start, last.End(), s) {
      assert ranges[|init|] == last;
    }
    if InSomeRange(bytes, ranges, s) {
      var j :| 0 <= j < |ranges| && IsCandidate(bytes, ranges[j].start, ranges[j].End(), s);
      if j < |init| {
        assert init[j] == ranges[j];
      }
    }
  }

  /** The sum of the printable-byte counts of the ranges. */
  function TotalPrintable(bytes: seq<bv8>, ranges: seq<Span>): nat
    requires forall r <- ranges :: r.End() <= |bytes|
    decreases |ranges|
  {
    if ranges == [] then 0
    else
      var r := ranges[|ranges| - 1];
      assert r in ranges;
      assert r.End() <= |bytes|;
      TotalPrintable(bytes, ranges[..|ranges| - 1]) + CountPrintable(bytes, r.start, r.End())
  }

  // ---------------------------------------------------------------------------------------
  // Masking
  // ---------------------------------------------------------------------------------------

  /** The end of the bytes a string masks: `off.saturating_add(len).min(n)`. */
  function ClippedEnd(s: Span, n: nat): nat {
    Min(SaturatingAdd(s.start, s.len), n)
  }

  /** `b` with the bytes of `s` (clipped to `b`) XORed with the key. */
  function XorSpan(b: seq<bv8>, s: Span): (r: seq<bv8>)
    ensures |r| == |b|
  {
    seq(|b|, i requires 0 <= i < |b| => if s.start <= i < ClippedEnd(s, |b|) then b[i] ^ XorKey else b[i])
  }

  /** The buffer after masking the strings of `cands` one after the other. */
  function Masked(b: seq<bv8>, cands: seq<Span>): (r: seq<bv8>)
    ensures |r| == |b|
    decreases |cands|
  {
    if cands == [] then b
    else XorSpan(Masked(b, cands[..|cands| - 1]), cands[|cands| - 1])
  }

  /** Whether an odd number of the strings of `cands` mask byte `i` of an `n`-byte buffer. */
  function OddCoverage(cands: seq<Span>, i: nat, n: nat): bool
    decreases |cands|
  {
    if cands == [] then false
    else
      var c := cands[|cands| - 1];
      OddCoverage(cands[..|cands| - 1], i, n) != (c.start <= i < ClippedEnd(c, n))
  }

  lemma XorTwice(x: bv8)
    ensures (x ^ XorKey) ^ XorKey == x
  {
  }

  /** A byte is flipped exactly when an odd number of the strings cover it. */
  lemma {:induction false} MaskedAt(b: seq<bv8>, cands: seq<Span>, i: nat)
    requires i < |b|
    ensures Masked(b, cands)[i] == if OddCoverage(cands, i, |b|) then b[i] ^ XorKey else b[i]
    decreases |cands|
  {
    if cands != [] {
      var init := cands[..|cands| - 1];
      MaskedAt(b, init, i);
      XorTwice(b[i]);
      var m := Masked(b, init);
      assert Masked(b, cands)[i] == XorSpan(m, cands[|cands| - 1])[i];
    }
  }

  /** XOR with a fixed key is an involution: masking twice with the same strings restores the buffer. */
  lemma MaskTwiceRestores(b: seq<bv8>, cands: seq<Span>)
    ensures Masked(Masked(b, cands), cands) == b
  {
    var m := Masked(b, cands);
    forall i | 0 <= i < |b| ensures Masked(m, cands)[i] == b[i] {
      MaskedAt(b, cands, i);
      MaskedAt(m, cands, i);
      XorTwice(b[i]);
    }
  }

  /** No two strings share a byte. */
  ghost predicate PairwiseDisjoint(cands: seq<Span>) {
    forall j, k :: 0 <= j < k < |cands| ==> cands[j].End() <= cands[k].start || cands[k].End() <= cands[j].start
  }

  /** Some string of `cands` contains position `i`. */
  ghost predicate Covered(cands: seq<Span>, i: nat) {
    exists k :: 0 <= k < |cands| && cands[k].start <= i < cands[k].End()
  }

  lemma {:induction false} DisjointCoverage(cands: seq<Span>, i: nat, n: nat)
    requires n <= UsizeMax
    requires PairwiseDisjoint(cands) && forall c <- cands :: c.End() <= n
    ensures OddCoverage(cands, i, n) == Covered(cands, i)
    decreases |cands|
  {
    if cands != [] {
      var last := |cands| - 1;
      var init := cands[..last];
      var c := cands[last];
      assert PairwiseDisjoint(init) by {
        forall j, k | 0 <= j < k < |init|
          ensures init[j].End() <= init[k].start || init[k].End() <= init[j].start
        {
          assert init[j] == cands[j] && init[k] == cands[k];
        }
      }
      DisjointCoverage(init, i, n);
      assert ClippedEnd(c, n) == c.End();
      CoveredSplit(cands, i);
      if Covered(init, i) {
        var k :| 0 <= k < |init| && init[k].start <= i < init[k].End();
        assert cands[k] == init[k];
        assert !(c.start <= i < c.End());
      }
    }
  }

  lemma CoveredSplit(cands: seq<Span>, i: nat)
    requires cands != []
    ensures Covered(cands, i) <==>
      Covered(cands[..|cands| - 1], i) || cands[|cands| - 1].start <= i < cands[|cands| - 1].End()
  {
    var init := cands[..|cands| - 1];
    if Covered(cands, i) {
      var k :| 0 <= k < |cands| && cands[k].start <= i < cands[k].End();
      if k < |init| {
        assert init[k] == cands[k];
      }
    }
    if Covered(init, i) {
      var k :| 0 <= k < |init| && init[k].start <= i < init[k].End();
      assert cands[k] == init[k];
    }
  }

  /**
   * With strings that do not overlap and lie inside the buffer, masking flips exactly the bytes
   * inside some string and leaves every other byte as it was.
   */
  lemma MaskedDisjoint(b: seq<bv8>, cands: seq<Span>)
    requires |b| <= UsizeMax
    requires PairwiseDisjoint(cands) && forall c <- cands :: c.End() <= |b|
    ensures forall i :: 0 <= i < |b| ==>
      Masked(b, cands)[i] == if Covered(cands, i) then b[i] ^ XorKey else b[i]
  {
    forall i | 0 <= i < |b|
      ensures Masked(b, cands)[i] == if Covered(cands, i) then b[i] ^ XorKey else b[i]
    {
      MaskedAt(b, cands, i);
      DisjointCoverage(cands, i, |b|);
    }
  }

  /**
   * Scanning one range (a non-PE file, or a PE with one section of raw data) and masking what
   * it found flips exactly the bytes inside that range's strings, and every flipped byte is then
   * not printable.
   */
  lemma SingleRangeMasking(b: seq<bv8>, r: Span)
    requires |b| <= UsizeMax && r.End() <= |b|
    ensures forall i :: 0 <= i < |b| ==>
      Masked(b, Candidates(b, r))[i] == if Covered(Candidates(b, r), i) then b[i] ^ XorKey else b[i]
    ensures forall i :: 0 <= i < |b| && Covered(Candidates(b, r), i) ==>
      !IsPrintableAscii(Masked(b, Candidates(b, r))[i])
  {
    var cands := Candidates(b, r);
    CandidatesExact(b, r);
    forall c <- cands ensures c.End() <= |b| {
      assert IsCandidate(b, r.start, r.End(), c);
    }
    MaskedDisjoint(b, cands);
    forall i | 0 <= i < |b| && Covered(cands, i) ensures IsPrintableAscii(b[i]) {
      var k :| 0 <= k < |cands| && cands[k].start <= i < cands[k].End();
      assert IsCandidate(b, r.start, r.End(), cands[k]);
    }
    forall i | 0 <= i < |b| && Covered(cands, i) ensures !IsPrintableAscii(Masked(b, cands)[i]) {
      MaskedByteNotPrintable(b[i]);
    }
  }

  /** A byte inside none of the strings is left as it was, whether or not the strings overlap. */
  lemma UncoveredUnchanged(b: seq<bv8>, cands: seq<Span>, i: nat)
    requires i < |b| && !Covered(cands, i)
    ensures Masked(b, cands)[i] == b[i]
  {
    UncoveredEven(cands, i, |b|);
    MaskedAt(b, cands, i);
  }

  lemma {:induction false} UncoveredEven(cands: seq<Span>, i: nat, n: nat)
    requires !Covered(cands, i)
    ensures !OddCoverage(cands, i, n)
    decreases |cands|
  {
    if cands != [] {
      CoveredSplit(cands, i);
      UncoveredEven(cands[..|cands| - 1], i, n);
    }
  }

  /** Strings in ascending order do not overlap. */
  lemma AscendingDisjoint(found: seq<Span>)
    requires Ascending(found)
    ensures PairwiseDisjoint(found)
  {
  }

  lemma DisjointConcat(a: seq<Span>, c: seq<Span>)
    requires PairwiseDisjoint(a) && PairwiseDisjoint(c)
    requires forall x, y :: x in a && y in c ==> x.End() <= y.start || y.End() <= x.start
    ensures PairwiseDisjoint(a + c)
  {
    var ac := a + c;
    forall j, k | 0 <= j < k < |ac| ensures ac[j].End() <= ac[k].start || ac[k].End() <= ac[j].start {
      if k < |a| {
        assert ac[j] == a[j] && ac[k] == a[k];
      } else if j >= |a| {
        assert ac[j] == c[j - |a|] && ac[k] == c[k - |a|];
      } else {
        assert ac[j] == a[j] && a[j] in a;
        assert ac[k] == c[k - |a|] && c[k - |a|] in c;
      }
    }
  }

  /** Ranges that do not overlap yield strings that do not overlap. */
  lemma {:induction false} DisjointRangesDisjointStrings(bytes: seq<bv8>, ranges: seq<Span>)
    requires forall r <- ranges :: r.End() <= |bytes|
    requires PairwiseDisjoint(ranges)
    ensures PairwiseDisjoint(AllCandidates(bytes, ranges))
    decreases |ranges|
  {
    if ranges != [] {
      var init, last := ranges[..|ranges| - 1], ranges[|ranges| - 1];
      assert PairwiseDisjoint(init) by {
        forall j, k | 0 <= j < k < |init|
          ensures init[j].End() <= init[k].start || init[k].End() <= init[j].start
        {
          assert init[j] == ranges[j] && init[k] == ranges[k];
        }
      }
      DisjointRangesDisjointStrings(bytes, init);
      var a, c := AllCandidates(bytes, init), Candidates(bytes, last);
      CandidatesExact(bytes, last);
      AscendingDisjoint(c);
      AllCandidatesExact(bytes, init);
      forall x, y | x in a && y in c ensures x.End() <= y.start || y.End() <= x.start {
        assert InSomeRange(bytes, init, x);
        var j :| 0 <= j < |init| && IsCandidate(bytes, init[j].start, init[j].End(), x);
        assert ranges[j] == init[j];
        assert IsCandidate(bytes, last.start, last.End(), y);
      }
      DisjointConcat(a, c);
    }
  }

  /**
   * When the scanned ranges do not overlap (a non-PE file, or sections whose raw data are apart),
   * masking what the scan found flips exactly the bytes inside a found string, each to a
   * non-printable byte, and leaves every other byte as it was.
   */
  lemma ApartRangesMasking(bytes: seq<bv8>, ranges: seq<Span>)
    requires |bytes| <= UsizeMax
    requires forall r <- ranges :: r.End() <= |bytes|
    requires PairwiseDisjoint(ranges)
    ensures var found := AllCandidates(bytes, ranges);
      forall i :: 0 <= i < |bytes| ==>
        Masked(bytes, found)[i] == if Covered(found, i) then bytes[i] ^ XorKey else bytes[i]
    ensures var found := AllCandidates(bytes, ranges);
      forall i :: 0 <= i < |bytes| && Covered(found, i) ==> !IsPrintableAscii(Masked(bytes, found)[i])
  {
    var found := AllCandidates(bytes, ranges);
    DisjointRangesDisjointStrings(bytes, ranges);
    AllCandidatesExact(bytes, ranges);
    forall c <- found ensures c.End() <= |bytes| {
      assert InSomeRange(bytes, ranges, c);
    }
    MaskedDisjoint(bytes, found);
    forall i | 0 <= i < |bytes| && Covered(found, i) ensures !IsPrintableAscii(Masked(bytes, found)[i]) {
      var k :| 0 <= k < |found| && found[k].start <= i < found[k].End();
      assert found[k] in found && InSomeRange(bytes, ranges, found[k]);
      MaskedByteNotPrintable(bytes[i]);
    }
  }

  /**
   * The same string reported twice (two section entries sharing raw data) is masked and then
   * unmasked: it reaches the output in clear.
   */
  lemma RepeatedStringUnmasked(b: seq<bv8>, s: Span)
    ensures Masked(b, [s, s]) == b
  {
    assert [s, s][..1] == [s];
    assert [s][..0] == [];
    forall i | 0 <= i < |b| ensures Masked(b, [s, s])[i] == b[i] {
      MaskedAt(b, [s, s], i);
      assert OddCoverage([s], i, |b|) == (s.start <= i < ClippedEnd(s, |b|));
    }
  }

  /** The inner loop over `out_bytes[off..end].iter_mut()`. */
  method XorInPlace(out: array<bv8>, s: Span)
    requires s.start <= out.Length
    modifies out
    ensures out[..] == XorSpan(old(out[..]), s)
  {
    var end := ClippedEnd(s, out.Length);
    var i := s.start;
    while i < end
      invariant s.start <= i
      invariant i <= end || end < s.start
      invariant forall k :: 0 <= k < out.Length ==>
        out[k] == if s.start <= k < i && k < end then old(out[k]) ^ XorKey else old(out[k])
    {
      out[i] := out[i] ^ XorKey;
      i := i + 1;
    }
  }

  // ---------------------------------------------------------------------------------------
  // The step
  // ---------------------------------------------------------------------------------------

  const StartedText := "Encrypting strings step (PoC) started"
  const NoneFoundText := "No candidate strings found; skipping encryption step (PoC)"
  const CompletedText := "Encrypt strings step (PoC) completed"

  function ReadErrorText(path: string, e: string): string {
    "Encrypt step: failed to read '" + path + "': " + e
  }

  function RangesText(obj: Object, count: nat): string {
    if obj.PE? then "Encrypt step: scanning " + Decimal(count) + " sections for strings (PoC)"
    else "Encrypt step: file not recognized as PE; scanning whole file (PoC)"
  }

  function SummaryText(count: nat, checked: nat): string {
    "Found " + Decimal(count) + " candidate strings (min length = " + Decimal(MinStringLen)
      + ") across " + Decimal(checked) + " bytes scanned (PoC)"
  }

  function WriteText(path: string, write: Result<(), string>): string {
    match write
    case Ok(_) => "Wrote PoC encrypted file: " + path
    case Err(e) => "Failed to write PoC encrypted file: " + e
  }

  /** The progress sent after each of the first `k` of `n` ranges. */
  function ScanProgress(n: nat, k: nat): seq<PipelineMessage>
    requires n > 0
  {
    seq(k, i requires 0 <= i => Progress(MinReal(0.15 + Fraction(i + 1, n) * 0.20, 0.4)))
  }

  /** The progress sent after masking each of the first `k` of `n` strings. */
  function MaskProgress(n: nat, k: nat): seq<PipelineMessage>
    requires n > 0
  {
    seq(k, i requires 0 <= i => Progress(MinReal(0.4 + Fraction(i + 1, n) * 0.4, 0.85)))
  }

  /**
   * What the step sends and writes once the ranges are scanned without cancellation: the
   * summary, then either the note that nothing was found or the masking of every string (the
   * cancel flag is polled before string `idx` at checkpoint `|ranges| + idx`) and the write of
   * the masked copy, then the closing progress and log.
   */
  function AfterScan(path: string, bytes: seq<bv8>, ranges: seq<Span>, cancel: CancelFlag, encWrite: Result<(), string>)
    : (seq<PipelineMessage>, seq<FileOp>)
    requires forall r <- ranges :: r.End() <= |bytes|
    requires !cancel.SeenBefore(|ranges|)
  {
    MaskStage(path, bytes, AllCandidates(bytes, ranges), TotalPrintable(bytes, ranges), |ranges|, cancel, encWrite)
  }

  /**
   * The summary and masking stage for the strings `found` among `checked` scanned bytes, the
   * cancel flag being polled before string `idx` at checkpoint `base + idx`.
   */
  function MaskStage(path: string, bytes: seq<bv8>, found: seq<Span>, checked: nat, base: nat,
                     cancel: CancelFlag, encWrite: Result<(), string>)
    : (seq<PipelineMessage>, seq<FileOp>)
    requires !cancel.SeenBefore(base)
  {
    var summary := [Log(SummaryText(|found|, checked))];
    var closing := [Progress(0.85), Log(CompletedText)];
    if found == [] then
      (summary + [Log(NoneFoundText)] + closing, [])
    else if cancel.SeenBefore(base + |found|) then
      (summary + MaskProgress(|found|, cancel.checkpoint - base) + [Cancelled], [])
    else
      var out := path + ".enc";
      (summary + MaskProgress(|found|, |found|) + [Log(WriteText(out, encWrite))] + closing,
       [WriteBytes(out, Masked(bytes, found))])
  }

  /**
   * What the step sends and writes once the file is read: the log of the ranges to scan, the
   * scan of every range (the cancel flag is polled before range `ri` at checkpoint `ri`), then
   * `AfterScan`.
   */
  function ScanStage(path: string, bytes: seq<bv8>, ranges: seq<Span>, rangesLog: string,
                     cancel: CancelFlag, encWrite: Result<(), string>)
    : (seq<PipelineMessage>, seq<FileOp>)
    requires |ranges| >= 1 && forall r <- ranges :: r.End() <= |bytes|
  {
    var head := [Log(rangesLog)];
    if cancel.SeenBefore(|ranges|) then
      (head + ScanProgress(|ranges|, cancel.checkpoint) + [Cancelled], [])
    else
      var rest := AfterScan(path, bytes, ranges, cancel, encWrite);
      (head + ScanProgress(|ranges|, |ranges|) + rest.0, rest.1)
  }

  /** The whole run of the step: the messages in order, the result returned and the files written. */
  function Transcript(ctx: PipelineContext, env: Environment): StepRun {
    var opening := [Log(StartedText), Progress(0.15)];
    match env.read
    case Err(e) => StepRun(EncryptStringsStep, opening, Err(ReadErrorText(ctx.inputPath, e)), [])
    case Ok(bytes) =>
      var ranges := ScanRanges(env.parsed, |bytes|);
      var rest := ScanStage(ctx.inputPath, bytes, ranges, RangesText(env.parsed, |ranges|), env.cancel, env.encWrite);
      StepRun(EncryptStringsStep, opening + rest.0, Ok(()), rest.1)
  }

  /** Once the file is read, the step opens, runs `ScanStage` on the ranges `ScanRanges` picks and returns `Ok`. */
  lemma ReadTranscript(ctx: PipelineContext, env: Environment)
    requires env.read.Ok?
    ensures var bytes := env.read.value;
      var ranges := ScanRanges(env.parsed, |bytes|);
      var rest := ScanStage(ctx.inputPath, bytes, ranges, RangesText(env.parsed, |ranges|), env.cancel, env.encWrite);
      Transcript(ctx, env) == StepRun(EncryptStringsStep, [Log(StartedText), Progress(0.15)] + rest.0, Ok(()), rest.1)
  {
  }

  /** The candidates and the printable count after one more range. */
  lemma ScanStep(bytes: seq<bv8>, ranges: seq<Span>, ri: nat)
    requires ri < |ranges| && forall r <- ranges :: r.End() <= |bytes|
    ensures AllCandidates(bytes, ranges[..ri + 1]) == AllCandidates(bytes, ranges[..ri]) + Candidates(bytes, ranges[ri])
    ensures TotalPrintable(bytes, ranges[..ri + 1])
      == TotalPrintable(bytes, ranges[..ri]) + CountPrintable(bytes, ranges[ri].start, ranges[ri].End())
  {
    var pre := ranges[..ri + 1];
    assert pre[..|pre| - 1] == ranges[..ri] && pre[|pre| - 1] == ranges[ri];
  }

  /** The scan progress after one more range. */
  lemma ScanProgressStep(n: nat, k: nat)
    requires n > 0
    ensures ScanProgress(n, k + 1) == ScanProgress(n, k) + [Progress(MinReal(0.15 + Fraction(k + 1, n) * 0.20, 0.4))]
  {
  }

  /**
   * The range loop of `run`: polls the cancel flag before each range, scans it and reports
   * progress.
   */
  method ScanAll(bytes: seq<bv8>, ranges: seq<Span>, cancel: CancelFlag)
    returns (found: seq<Span>, checked: nat, sent: seq<PipelineMessage>, cancelled: bool)
    requires |ranges| >= 1 && forall r <- ranges :: r.End() <= |bytes|
    ensures cancelled == cancel.SeenBefore(|ranges|)
    ensures cancelled ==> sent == ScanProgress(|ranges|, cancel.checkpoint) + [Cancelled]
    ensures !cancelled ==> found == AllCandidates(bytes, ranges) && checked == TotalPrintable(bytes, ranges)
    ensures !cancelled ==> sent == ScanProgress(|ranges|, |ranges|)
  {
    found, checked, sent, cancelled := [], 0, [], false;
    for ri := 0 to |ranges|
      invariant !cancel.SeenBefore(ri)
      invariant found == AllCandidates(bytes, ranges[..ri])
      invariant checked == TotalPrintable(bytes, ranges[..ri])
      invariant sent == ScanProgress(|ranges|, ri)
    {
      if cancel.SeenAt(ri) {
        sent := sent + [Cancelled];
        cancelled := true;
        return;
      }
      var more, count := ScanRange(bytes, ranges[ri]);
      ScanStep(bytes, ranges, ri);
      ScanProgressStep(|ranges|, ri);
      found := found + more;
      checked := checked + count;
      sent := sent + [Progress(MinReal(0.15 + Fraction(ri + 1, |ranges|) * 0.20, 0.4))];
    }
    assert ranges[..|ranges|] == ranges;
  }

  /**
   * The masking loop of `run`, on a copy of the buffer: polls the cancel flag before each string
   * (checkpoints `base` ..), masks it in place and reports progress.
   */
  method MaskAll(bytes: seq<bv8>, found: seq<Span>, base: nat, cancel: CancelFlag)
    returns (masked: seq<bv8>, sent: seq<PipelineMessage>, cancelled: bool)
    requires |found| >= 1 && !cancel.SeenBefore(base)
    requires forall s <- found :: s.start <= |bytes|
    ensures cancelled == cancel.SeenBefore(base + |found|)
    ensures cancelled ==> sent == MaskProgress(|found|, cancel.checkpoint - base) + [Cancelled]
    ensures !cancelled ==> masked == Masked(bytes, found) && sent == MaskProgress(|found|, |found|)
  {
    var out := new bv8[|bytes|](i requires 0 <= i < |bytes| => bytes[i]);
    sent, cancelled := [], false;
    for idx := 0 to |found|
      invariant out[..] == Masked(bytes, found[..idx])
      invariant !cancel.SeenBefore(base + idx)
      invariant sent == MaskProgress(|found|, idx)
    {
      if cancel.SeenAt(base + idx) {
        sent := sent + [Cancelled];
        cancelled := true;
        masked := out[..];
        return;
      }
      XorInPlace(out, found[idx]);
      assert found[..idx + 1][..idx] == found[..idx];
      sent := sent + [Progress(MinReal(0.4 + Fraction(idx + 1, |found|) * 0.4, 0.85))];
    }
    assert found[..|found|] == found;
    masked := out[..];
  }

  /** The `if count > 0` block of `run` and the closing messages. */
  method MaskAndWrite(path: string, bytes: seq<bv8>, found: seq<Span>, checked: nat, base: nat,
                      cancel: CancelFlag, encWrite: Result<(), string>)
    returns (sent: seq<PipelineMessage>, ops: seq<FileOp>)
    requires forall s <- found :: s.start <= |bytes|
    requires !cancel.SeenBefore(base)
    ensures (sent, ops) == MaskStage(path, bytes, found, checked, base, cancel, encWrite)
  {
    var summary := [Log(SummaryText(|found|, checked))];
    var closing := [Progress(0.85), Log(CompletedText)];
    if |found| == 0 {
      sent, ops := summary + [Log(NoneFoundText)] + closing, [];
      return;
    }
    var masked, maskSent, stopped := MaskAll(bytes, found, base, cancel);
    if stopped {
      sent, ops := summary + maskSent, [];
      assert sent == summary + MaskProgress(|found|, cancel.checkpoint - base) + [Cancelled];
      return;
    }
    var out := path + ".enc";
    sent := summary + maskSent + [Log(WriteText(out, encWrite))] + closing;
    ops := [WriteBytes(out, masked)];
  }

  /** `EncryptStringsStep::run`. */
  method Run(ctx: PipelineContext, env: Environment) returns (run: StepRun)
    ensures run == Transcript(ctx, env)
  {
    var opening := [Log(StartedText), Progress(0.15)];
    if env.read.Err? {
      return StepRun(EncryptStringsStep, opening, Err(ReadErrorText(ctx.inputPath, env.read.error)), []);
    }
    var bytes := env.read.value;
    var ranges := ResolveRanges(env.parsed, |bytes|);
    var head := [Log(RangesText(env.parsed, |ranges|))];
    var found, checked, scanSent, cancelled := ScanAll(bytes, ranges, env.cancel);
    if cancelled {
      return StepRun(EncryptStringsStep, opening + (head + scanSent), Ok(()), []);
    }
    CandidatesInBounds(bytes, ranges);
    var tail, ops := MaskAndWrite(ctx.inputPath, bytes, found, checked, |ranges|, env.cancel, env.encWrite);
    run := StepRun(EncryptStringsStep, opening + (head + scanSent + tail), Ok(()), ops);
  }

  // ---------------------------------------------------------------------------------------
  // What a run of the step promises
  // ---------------------------------------------------------------------------------------

  lemma ScanProgressFacts(n: nat, k: nat)
    requires 0 < n && k <= n
    ensures ProgressMonotone(ScanProgress(n, k)) && ProgressWithin(ScanProgress(n, k), 0.15, 0.35)
    ensures forall m <- ScanProgress(n, k) :: m.Progress?
  {
    var ps := ScanProgress(n, k);
    forall i | 0 <= i < k ensures 0.15 <= ps[i].fraction <= 0.35 {
      FractionBounds(i + 1, i + 1, n);
    }
    forall i, j | 0 <= i < j < k ensures ps[i].fraction <= ps[j].fraction {
      FractionBounds(i + 1, j + 1, n);
    }
  }

  lemma MaskProgressFacts(n: nat, k: nat)
    requires 0 < n && k <= n
    ensures ProgressMonotone(MaskProgress(n, k)) && ProgressWithin(MaskProgress(n, k), 0.4, 0.8)
    ensures forall m <- MaskProgress(n, k) :: m.Progress?
  {
    var ps := MaskProgress(n, k);
    forall i | 0 <= i < k ensures 0.4 <= ps[i].fraction <= 0.8 {
      FractionBounds(i + 1, i + 1, n);
    }
    forall i, j | 0 <= i < j < k ensures ps[i].fraction <= ps[j].fraction {
      FractionBounds(i + 1, j + 1, n);
    }
  }

  /**
   * A file that cannot be read fails the step with an error naming the file, after the opening
   * log and progress, and nothing is written; a readable file always returns `Ok`.
   */
  lemma ReadFailure(ctx: PipelineContext, env: Environment)
    ensures var t := Transcript(ctx, env);
      && t.step == EncryptStringsStep
      && (t.outcome.Err? <==> env.read.Err?)
      && (env.read.Err? ==>
            t.sent == [Log(StartedText), Progress(0.15)] && t.ops == []
            && Contains(t.outcome.error, ctx.inputPath) && Contains(t.outcome.error, env.read.error))
  {
    if env.read.Err? {
      var e := env.read.error;
      var msg := ReadErrorText(ctx.inputPath, e);
      assert msg == "Encrypt step: failed to read '" + ctx.inputPath + ("': " + e);
      ContainsMiddle("Encrypt step: failed to read '", ctx.inputPath, "': " + e);
      assert msg == ("Encrypt step: failed to read '" + ctx.inputPath + "': ") + e + "";
      ContainsMiddle("Encrypt step: failed to read '" + ctx.inputPath + "': ", e, "");
    }
  }

  /** `Cancelled` is sent last and once, or not at all. */
  ghost predicate CancelledLastOnce(msgs: seq<PipelineMessage>) {
    Cancelled in msgs ==> msgs[|msgs| - 1] == Cancelled && Cancelled !in msgs[..|msgs| - 1]
  }

  lemma PrependCancelledLastOnce(a: seq<PipelineMessage>, b: seq<PipelineMessage>)
    requires Cancelled !in a && CancelledLastOnce(b)
    ensures CancelledLastOnce(a + b) && (Cancelled in a + b <==> Cancelled in b)
  {
    if Cancelled in b {
      assert (a + b)[..|a + b| - 1] == a + b[..|b| - 1];
    }
  }

  lemma AfterScanCancel(path: string, bytes: seq<bv8>, ranges: seq<Span>, cancel: CancelFlag, encWrite: Result<(), string>)
    requires forall r <- ranges :: r.End() <= |bytes|
    requires !cancel.SeenBefore(|ranges|)
    ensures var rest := AfterScan(path, bytes, ranges, cancel, encWrite);
      var found := AllCandidates(bytes, ranges);
      && (Cancelled in rest.0 <==> cancel.SeenBefore(|ranges| + |found|))
      && CancelledLastOnce(rest.0)
      && (Cancelled in rest.0 ==> rest.1 == [])
  {
    MaskStageCancel(path, bytes, AllCandidates(bytes, ranges), TotalPrintable(bytes, ranges), |ranges|, cancel, encWrite);
  }

  lemma MaskStageCancel(path: string, bytes: seq<bv8>, found: seq<Span>, checked: nat, base: nat,
                            cancel: CancelFlag, encWrite: Result<(), string>)
    requires !cancel.SeenBefore(base)
    ensures var rest := MaskStage(path, bytes, found, checked, base, cancel, encWrite);
      && (Cancelled in rest.0 <==> cancel.SeenBefore(base + |found|))
      && CancelledLastOnce(rest.0)
      && (Cancelled in rest.0 ==> rest.1 == [])
  {
    var summary := [Log(SummaryText(|found|, checked))];
    if found != [] {
      if cancel.SeenBefore(base + |found|) {
        var mp := MaskProgress(|found|, cancel.checkpoint - base);
        MaskProgressFacts(|found|, cancel.checkpoint - base);
        assert Cancelled !in summary + mp;
        PrependCancelledLastOnce(summary + mp, [Cancelled]);
      } else {
        MaskProgressFacts(|found|, |found|);
      }
    }
  }

  lemma ScanStageCancel(path: string, bytes: seq<bv8>, ranges: seq<Span>, rangesLog: string,
                          cancel: CancelFlag, encWrite: Result<(), string>)
    requires |ranges| >= 1 && forall r <- ranges :: r.End() <= |bytes|
    ensures var rest := ScanStage(path, bytes, ranges, rangesLog, cancel, encWrite);
      var found := AllCandidates(bytes, ranges);
      && (Cancelled in rest.0 <==> cancel.SeenBefore(|ranges| + |found|))
      && CancelledLastOnce(rest.0)
      && (Cancelled in rest.0 ==> rest.1 == [])
  {
    var head := [Log(rangesLog)];
    var rest := ScanStage(path, bytes, ranges, rangesLog, cancel, encWrite);
    if cancel.SeenBefore(|ranges|) {
      var sp := ScanProgress(|ranges|, cancel.checkpoint);
      assert rest == (head + sp + [Cancelled], []);
      ScanProgressFacts(|ranges|, cancel.checkpoint);
      assert Cancelled !in head + sp;
      PrependCancelledLastOnce(head + sp, [Cancelled]);
    } else {
      var sp := ScanProgress(|ranges|, |ranges|);
      var tail := AfterScan(path, bytes, ranges, cancel, encWrite);
      assert rest == (head + sp + tail.0, tail.1);
      ScanProgressFacts(|ranges|, |ranges|);
      AfterScanCancel(path, bytes, ranges, cancel, encWrite);
      assert Cancelled !in head + sp;
      PrependCancelledLastOnce(head + sp, tail.0);
    }
  }

  /**
   * The step stops with `Cancelled` exactly when the flag is raised before the last checkpoint
   * (one per range, then one per string found); `Cancelled` is then the last message, it is sent
   * once, the step still returns `Ok` and nothing is written.
   */
  lemma CancelOutcome(ctx: PipelineContext, env: Environment)
    requires env.read.Ok?
    ensures var t := Transcript(ctx, env);
      var bytes := env.read.value;
      var ranges := ScanRanges(env.parsed, |bytes|);
      var found := AllCandidates(bytes, ranges);
      && (Cancelled in t.sent <==> env.cancel.SeenBefore(|ranges| + |found|))
      && CancelledLastOnce(t.sent)
      && (Cancelled in t.sent ==> t.outcome.Ok? && t.ops == [])
  {
    var bytes := env.read.value;
    var ranges := ScanRanges(env.parsed, |bytes|);
    var log := RangesText(env.parsed, |ranges|);
    var rest := ScanStage(ctx.inputPath, bytes, ranges, log, env.cancel, env.encWrite);
    var opening := [Log(StartedText), Progress(0.15)];
    ReadTranscript(ctx, env);
    ScanStageCancel(ctx.inputPath, bytes, ranges, log, env.cancel, env.encWrite);
    PrependCancelledLastOnce(opening, rest.0);
  }

  /**
   * The step writes one file, `<input>.enc`, exactly when it found strings and was not
   * cancelled; its content is the input with every string found masked, and its name is never
   * the input's.
   */
  lemma WritesMaskedCopy(ctx: PipelineContext, env: Environment)
    ensures var t := Transcript(ctx, env);
      && |t.ops| <= 1
      && (t.ops != [] <==>
            env.read.Ok?
            && var ranges := ScanRanges(env.parsed, |env.read.value|);
               var found := AllCandidates(env.read.value, ranges);
               found != [] && !env.cancel.SeenBefore(|ranges| + |found|))
      && (t.ops != [] ==>
            t.ops[0] == WriteBytes(ctx.inputPath + ".enc",
                                   Masked(env.read.value, AllCandidates(env.read.value, ScanRanges(env.parsed, |env.read.value|))))
            && t.ops[0].Destination() != ctx.inputPath)
  {
    if env.read.Ok? {
      ReadTranscript(ctx, env);
    }
  }

  /**
   * When the scanned ranges do not overlap, the `.enc` file, if written, holds the input with
   * exactly the bytes of the strings found flipped, each to a non-printable byte, and every
   * other byte unchanged.
   */
  lemma ApartRangesMaskedCopy(ctx: PipelineContext, env: Environment)
    requires env.read.Ok? && PairwiseDisjoint(ScanRanges(env.parsed, |env.read.value|))
    ensures var t := Transcript(ctx, env);
      var bytes := env.read.value;
      var found := AllCandidates(bytes, ScanRanges(env.parsed, |bytes|));
      t.ops != [] ==>
        && t.ops[0].Destination() == ctx.inputPath + ".enc"
        && |t.ops[0].data| == |bytes|
        && (forall i :: 0 <= i < |bytes| ==>
              t.ops[0].data[i] == if Covered(found, i) then bytes[i] ^ XorKey else bytes[i])
        && (forall i :: 0 <= i < |bytes| && Covered(found, i) ==> !IsPrintableAscii(t.ops[0].data[i]))
  {
    var bytes := env.read.value;
    WritesMaskedCopy(ctx, env);
    ApartRangesMasking(bytes, ScanRanges(env.parsed, |bytes|));
  }

  /**
   * The step's progress never goes down and stays within [0.15, 0.85]; when it completes, its
   * last messages are progress 0.85 and the completion log.
   */
  lemma ProgressOrdered(ctx: PipelineContext, env: Environment)
    ensures var t := Transcript(ctx, env);
      ProgressMonotone(t.sent) && ProgressWithin(t.sent, 0.15, 0.85)
    ensures var t := Transcript(ctx, env);
      Cancelled !in t.sent && env.read.Ok? ==>
        |t.sent| >= 2 && t.sent[|t.sent| - 2..] == [Progress(0.85), Log(CompletedText)]
  {
    var opening := [Log(StartedText), Progress(0.15)];
    assert ProgressMonotone(opening) && ProgressWithin(opening, 0.15, 0.15);
    if env.read.Ok? {
      var bytes := env.read.value;
      var ranges := ScanRanges(env.parsed, |bytes|);
      var log := RangesText(env.parsed, |ranges|);
      var rest := ScanStage(ctx.inputPath, bytes, ranges, log, env.cancel, env.encWrite).0;
      ReadTranscript(ctx, env);
      ScanStageProgress(ctx.inputPath, bytes, ranges, log, env.cancel, env.encWrite);
      ConcatProgress(opening, rest, 0.15, 0.15, 0.85);
      if Cancelled !in rest {
        assert (opening + rest)[|opening + rest| - 2..] == rest[|rest| - 2..];
      }
    }
  }

  lemma ScanStageProgress(path: string, bytes: seq<bv8>, ranges: seq<Span>, rangesLog: string,
                          cancel: CancelFlag, encWrite: Result<(), string>)
    requires |ranges| >= 1 && forall r <- ranges :: r.End() <= |bytes|
    ensures var rest := ScanStage(path, bytes, ranges, rangesLog, cancel, encWrite).0;
      && ProgressMonotone(rest) && ProgressWithin(rest, 0.15, 0.85)
      && (Cancelled !in rest ==> |rest| >= 2 && rest[|rest| - 2..] == [Progress(0.85), Log(CompletedText)])
  {
    var head := [Log(rangesLog)];
    NoProgressBounds(head, 0.15, 0.15);
    if cancel.SeenBefore(|ranges|) {
      ScanProgressFacts(|ranges|, cancel.checkpoint);
      NoProgressBounds([Cancelled], 0.35, 0.85);
      ScanThenTail(head, ScanProgress(|ranges|, cancel.checkpoint), [Cancelled]);
    } else {
      ScanProgressFacts(|ranges|, |ranges|);
      AfterScanProgress(path, bytes, ranges, cancel, encWrite);
      ScanThenTail(head, ScanProgress(|ranges|, |ranges|), AfterScan(path, bytes, ranges, cancel, encWrite).0);
    }
  }

  /** The range log, the scan progress and what follows keep progress in order within [0.15, 0.85]. */
  lemma ScanThenTail(head: seq<PipelineMessage>, sp: seq<PipelineMessage>, tail: seq<PipelineMessage>)
    requires ProgressMonotone(head) && ProgressWithin(head, 0.15, 0.15)
    requires ProgressMonotone(sp) && ProgressWithin(sp, 0.15, 0.35)
    requires ProgressMonotone(tail) && ProgressWithin(tail, 0.35, 0.85)
    requires Cancelled !in tail ==> |tail| >= 2 && tail[|tail| - 2..] == [Progress(0.85), Log(CompletedText)]
    ensures var all := head + sp + tail;
      && ProgressMonotone(all) && ProgressWithin(all, 0.15, 0.85)
      && (Cancelled !in all ==> |all| >= 2 && all[|all| - 2..] == [Progress(0.85), Log(CompletedText)])
  {
    ConcatProgress(head, sp, 0.15, 0.15, 0.35);
    ConcatProgress(head + sp, tail, 0.15, 0.35, 0.85);
    var all := head + sp + tail;
    if Cancelled !in all {
      assert all[|all| - 2..] == tail[|tail| - 2..];
    }
  }

  lemma AfterScanProgress(path: string, bytes: seq<bv8>, ranges: seq<Span>, cancel: CancelFlag, encWrite: Result<(), string>)
    requires forall r <- ranges :: r.End() <= |bytes|
    requires !cancel.SeenBefore(|ranges|)
    ensures var tail := AfterScan(path, bytes, ranges, cancel, encWrite).0;
      && ProgressMonotone(tail) && ProgressWithin(tail, 0.35, 0.85)
      && (Cancelled !in tail ==> |tail| >= 2 && tail[|tail| - 2..] == [Progress(0.85), Log(CompletedText)])
  {
    MaskStageProgress(path, bytes, AllCandidates(bytes, ranges), TotalPrintable(bytes, ranges), |ranges|, cancel, encWrite);
  }

  lemma MaskStageProgress(path: string, bytes: seq<bv8>, found: seq<Span>, checked: nat, base: nat,
                            cancel: CancelFlag, encWrite: Result<(), string>)
    requires !cancel.SeenBefore(base)
    ensures var tail := MaskStage(path, bytes, found, checked, base, cancel, encWrite).0;
      && ProgressMonotone(tail) && ProgressWithin(tail, 0.35, 0.85)
      && (Cancelled !in tail ==> |tail| >= 2 && tail[|tail| - 2..] == [Progress(0.85), Log(CompletedText)])
  {
    var tail := MaskStage(path, bytes, found, checked, base, cancel, encWrite).0;
    var summary := [Log(SummaryText(|found|, checked))];
    NoProgressBounds(summary, 0.35, 0.4);
    if found == [] {
      var body := summary + [Log(NoneFoundText)];
      assert tail == body + [Progress(0.85), Log(CompletedText)];
      NoProgressBounds(body, 0.35, 0.85);
      ClosingTail(body);
    } else if cancel.SeenBefore(base + |found|) {
      var mp := MaskProgress(|found|, cancel.checkpoint - base);
      assert tail == summary + mp + [Cancelled];
      MaskProgressFacts(|found|, cancel.checkpoint - base);
      ConcatProgress(summary, mp, 0.35, 0.4, 0.8);
      NoProgressBounds([Cancelled], 0.8, 0.85);
      ConcatProgress(summary + mp, [Cancelled], 0.35, 0.8, 0.85);
      assert tail[|tail| - 1] == Cancelled;
    } else {
      var mp := MaskProgress(|found|, |found|);
      var w := [Log(WriteText(path + ".enc", encWrite))];
      assert tail == summary + mp + w + [Progress(0.85), Log(CompletedText)];
      MaskProgressFacts(|found|, |found|);
      ConcatProgress(summary, mp, 0.35, 0.4, 0.8);
      NoProgressBounds(w, 0.8, 0.8);
      ConcatProgress(summary + mp, w, 0.35, 0.8, 0.8);
      ClosingTail(summary + mp + w);
    }
  }

  /** Closing a run of messages with the completion progress and log keeps it ordered and bounded. */
  lemma ClosingTail(body: seq<PipelineMessage>)
    requires ProgressMonotone(body) && ProgressWithin(body, 0.35, 0.85)
    ensures var t := body + [Progress(0.85), Log(CompletedText)];
      && ProgressMonotone(t) && ProgressWithin(t, 0.35, 0.85)
      && |t| >= 2 && t[|t| - 2..] == [Progress(0.85), Log(CompletedText)]
  {
    var closing := [Progress(0.85), Log(CompletedText)];
    assert ProgressMonotone(closing) && ProgressWithin(closing, 0.85, 0.85);
    ConcatProgress(body, closing, 0.35, 0.85, 0.85);
    var t := body + closing;
    assert t[|t| - 2..] == closing;
  }

  /**
   * The step never sends `Done` or `Error`: a file that cannot be read is reported through the
   * step's result, and everything else it sends is a log, a progress value or `Cancelled`.
   */
  lemma SendsNoVerdict(ctx: PipelineContext, env: Environment)
    ensures NoVerdict(Transcript(ctx, env).sent)
  {
    var opening := [Log(StartedText), Progress(0.15)];
    if env.read.Ok? {
      var bytes := env.read.value;
      var ranges := ScanRanges(env.parsed, |bytes|);
      var log := RangesText(env.parsed, |ranges|);
      var rest := ScanStage(ctx.inputPath, bytes, ranges, log, env.cancel, env.encWrite).0;
      ReadTranscript(ctx, env);
      ScanStageNoVerdict(ctx.inputPath, bytes, ranges, log, env.cancel, env.encWrite);
      NoVerdictConcat(opening, rest);
    }
  }

  lemma ScanStageNoVerdict(path: string, bytes: seq<bv8>, ranges: seq<Span>, rangesLog: string,
                          cancel: CancelFlag, encWrite: Result<(), string>)
    requires |ranges| >= 1 && forall r <- ranges :: r.End() <= |bytes|
    ensures NoVerdict(ScanStage(path, bytes, ranges, rangesLog, cancel, encWrite).0)
  {
    var head := [Log(rangesLog)];
    var rest := ScanStage(path, bytes, ranges, rangesLog, cancel, encWrite).0;
    if cancel.SeenBefore(|ranges|) {
      var sp := ScanProgress(|ranges|, cancel.checkpoint);
      assert rest == head + sp + [Cancelled];
      ScanProgressFacts(|ranges|, cancel.checkpoint);
      ProgressBetweenNoVerdict(head, sp, [Cancelled]);
    } else {
      var sp := ScanProgress(|ranges|, |ranges|);
      var tail := AfterScan(path, bytes, ranges, cancel, encWrite).0;
      assert rest == head + sp + tail;
      ScanProgressFacts(|ranges|, |ranges|);
      AfterScanNoVerdict(path, bytes, ranges, cancel, encWrite);
      ProgressBetweenNoVerdict(head, sp, tail);
    }
  }

  /** A log, a run of progress values and a tail without a verdict carry no verdict. */
  lemma ProgressBetweenNoVerdict(head: seq<PipelineMessage>, sp: seq<PipelineMessage>, tail: seq<PipelineMessage>)
    requires NoVerdict(head) && NoVerdict(tail)
    requires forall m <- sp :: m.Progress?
    ensures NoVerdict(head + sp + tail)
  {
    forall i | 0 <= i < |sp| ensures sp[i].Progress? {
      assert sp[i] in sp;
    }
    NoVerdictConcat(head, sp);
    NoVerdictConcat(head + sp, tail);
  }

  lemma AfterScanNoVerdict(path: string, bytes: seq<bv8>, ranges: seq<Span>, cancel: CancelFlag, encWrite: Result<(), string>)
    requires forall r <- ranges :: r.End() <= |bytes|
    requires !cancel.SeenBefore(|ranges|)
    ensures NoVerdict(AfterScan(path, bytes, ranges, cancel, encWrite).0)
  {
    MaskStageNoVerdict(path, bytes, AllCandidates(bytes, ranges), TotalPrintable(bytes, ranges), |ranges|, cancel, encWrite);
  }

  lemma MaskStageNoVerdict(path: string, bytes: seq<bv8>, found: seq<Span>, checked: nat, base: nat,
                            cancel: CancelFlag, encWrite: Result<(), string>)
    requires !cancel.SeenBefore(base)
    ensures NoVerdict(MaskStage(path, bytes, found, checked, base, cancel, encWrite).0)
  {
    var summary := [Log(SummaryText(|found|, checked))];
    if found != [] {
      var k := if cancel.SeenBefore(base + |found|) then cancel.checkpoint - base else |found|;
      var mp := MaskProgress(|found|, k);
      MaskProgressFacts(|found|, k);
      assert NoVerdict(mp);
      NoVerdictConcat(summary, mp);
      if cancel.SeenBefore(base + |found|) {
        NoVerdictConcat(summary + mp, [Cancelled]);
      } else {
        var tail := [Log(WriteText(path + ".enc", encWrite))] + [Progress(0.85), Log(CompletedText)];
        NoVerdictConcat(summary + mp, tail);
        assert MaskStage(path, bytes, found, checked, base, cancel, encWrite).0 == summary + mp + tail;
      }
    }
  }
}
