/**
 * The pieces of Rust's string formatting and `str` API that the pipeline relies on:
 * `{}` and `{:x}` on unsigned integers, `{:04}` zero padding, `join`, `split`,
 * `ends_with`, `trim_end_matches`, ASCII `to_lowercase`, `trim` and substring search.
 */
module Text {

  /** The character Rust prints for digit value `d` (`{:x}` uses the lower-case letters). */
  function DigitChar(d: nat): (c: char)
    requires d < 16
  {
    if d < 10 then ('0' as int + d) as char else ('a' as int + d - 10) as char
  }

  predicate IsDigitIn(c: char, base: nat) {
    || ('0' <= c <= '9' && c as int - '0' as int < base)
    || ('a' <= c <= 'f' && c as int - 'a' as int + 10 < base)
  }

  /** The value of one digit character. */
  function DigitOf(c: char): (d: nat)
    requires IsDigitIn(c, 16)
    ensures d < 16 && DigitChar(d) == c
  {
    if '0' <= c <= '9' then c as int - '0' as int
    else c as int - 'a' as int + 10
  }

  /** The characters of `n` written in `base`, most significant first, without leading zeros. */
  function Digits(n: nat, base: nat): (s: string)
    requires base == 10 || base == 16
    ensures 1 <= |s|
    ensures forall i :: 0 <= i < |s| ==> IsDigitIn(s[i], base)
    ensures |s| > 1 ==> s[0] != '0'
    decreases n
  {
    DivMod(n, base);
    if n < base then [DigitChar(n)]
    else Digits(n / base, base) + [DigitChar(n % base)]
  }

  /** Division by the radix, stated once so that the proofs need no nonlinear arithmetic. */
  lemma DivMod(n: nat, base: nat)
    requires base == 10 || base == 16
    ensures n == (n / base) * base + n % base && 0 <= n % base < base
    ensures n >= base ==> 1 <= n / base < n
  {
    if base == 10 { } else { }
  }

  /** Rust's `{}` on an unsigned integer. */
  function Decimal(n: nat): string {
    Digits(n, 10)
  }

  /** Rust's `{:x}` on an unsigned integer. */
  function Hex(n: nat): string {
    Digits(n, 16)
  }

  /** The number a digit string denotes; the reference against which `Digits` is proved. */
  function Value(s: string, base: nat): nat
    requires base == 10 || base == 16
    requires forall i :: 0 <= i < |s| ==> IsDigitIn(s[i], base)
  {
    if s == [] then 0
    else
      assert IsDigitIn(s[|s| - 1], base);
      Value(s[..|s| - 1], base) * base + DigitOf(s[|s| - 1])
  }

  lemma DigitRoundTrip(d: nat)
    requires d < 16
    ensures IsDigitIn(DigitChar(d), 16) && DigitOf(DigitChar(d)) == d
  {
  }

  /** Printing a number and reading the digits back gives the number. */
  lemma {:induction false} ValueOfDigits(n: nat, base: nat)
    requires base == 10 || base == 16
    ensures Value(Digits(n, base), base) == n
    decreases n
  {
    var s := Digits(n, base);
    if n < base {
      DigitRoundTrip(n);
    } else {
      DivMod(n, base);
      ValueOfDigits(n / base, base);
      assert s[..|s| - 1] == Digits(n / base, base);
      DigitRoundTrip(n % base);
      assert Value(s, base) == (n / base) * base + n % base;
    }
  }

  /** `k` copies of `'0'`. */
  function Zeros(k: nat): (z: string)
    ensures |z| == k && forall i :: 0 <= i < k ==> z[i] == '0'
  {
    seq(k, i => '0')
  }

  /** Rust's `{:0w}`: pads a digit string on the left with zeros up to width `w`. */
  function PadZeros(s: string, w: nat): (r: string)
    ensures |r| == if |s| >= w then |s| else w
    ensures r == Zeros(|r| - |s|) + s
  {
    if |s| >= w then s else Zeros(w - |s|) + s
  }

  lemma {:induction false} ValueOfZeros(k: nat, base: nat)
    requires base == 10 || base == 16
    ensures Value(Zeros(k), base) == 0
  {
    if k > 0 {
      assert Zeros(k)[..k - 1] == Zeros(k - 1);
      ValueOfZeros(k - 1, base);
    }
  }

  /** Leading zeros do not change the value of a digit string. */
  lemma {:induction false} ValueIgnoresLeadingZeros(k: nat, s: string, base: nat)
    requires base == 10 || base == 16
    requires forall i :: 0 <= i < |s| ==> IsDigitIn(s[i], base)
    ensures Value(Zeros(k) + s, base) == Value(s, base)
    decreases |s|
  {
    if s == [] {
      assert Zeros(k) + s == Zeros(k);
      ValueOfZeros(k, base);
    } else {
      var t := Zeros(k) + s;
      assert t[..|t| - 1] == Zeros(k) + s[..|s| - 1];
      ValueIgnoresLeadingZeros(k, s[..|s| - 1], base);
    }
  }

  /** Zero-padded numbers read back as the number, so padding keeps distinct numbers distinct. */
  lemma PaddedValue(n: nat, w: nat, base: nat)
    requires base == 10 || base == 16
    ensures var p := PadZeros(Digits(n, base), w);
            (forall i :: 0 <= i < |p| ==> IsDigitIn(p[i], base)) && Value(p, base) == n
  {
    var s := Digits(n, base);
    var p := PadZeros(s, w);
    ValueIgnoresLeadingZeros(|p| - |s|, s, base);
    ValueOfDigits(n, base);
  }

  /** Rust's `slice.join(sep)`. */
  function Join(parts: seq<string>, sep: string): (r: string)
    ensures parts == [] ==> r == []
    ensures |parts| == 1 ==> r == parts[0]
    decreases |parts|
  {
    if parts == [] then []
    else if |parts| == 1 then parts[0]
    else parts[0] + sep + Join(parts[1..], sep)
  }

  /** The index of the first `c` in `s`. */
  function FirstIndex(s: string, c: char): (i: nat)
    requires c in s
    ensures i < |s| && s[i] == c && c !in s[..i]
  {
    if s[0] == c then 0
    else
      assert c in s[1..];
      1 + FirstIndex(s[1..], c)
  }

  /** Rust's `s.split(c)` collected into a vector: the pieces between the occurrences of `c`. */
  function Split(s: string, c: char): (r: seq<string>)
    ensures |r| >= 1
    decreases |s|
  {
    if c !in s then [s]
    else
      var i := FirstIndex(s, c);
      [s[..i]] + Split(s[i + 1..], c)
  }

  lemma SplitAfterFirst(a: string, c: char, b: string)
    requires c !in a
    ensures Split(a + [c] + b, c) == [a] + Split(b, c)
  {
    var s := a + [c] + b;
    assert s[|a|] == c;
    var i := FirstIndex(s, c);
    assert s[..i] == a && s[i + 1..] == b;
  }

  /** Splitting a joined text at the separator gives back the parts, when no part holds it. */
  lemma {:induction false} SplitJoin(parts: seq<string>, c: char)
    requires |parts| >= 1
    requires forall k :: 0 <= k < |parts| ==> c !in parts[k]
    ensures Split(Join(parts, [c]), c) == parts
    decreases |parts|
  {
    if |parts| == 1 {
      assert c !in Join(parts, [c]);
    } else {
      SplitJoin(parts[1..], c);
      assert Join(parts, [c]) == parts[0] + [c] + Join(parts[1..], [c]);
      SplitAfterFirst(parts[0], c, Join(parts[1..], [c]));
    }
  }

  /** `sub` occurs in `s` starting at index `i`. */
  predicate OccursAt(s: string, sub: string, i: nat) {
    i + |sub| <= |s| && s[i..i + |sub|] == sub
  }

  /** Rust's `s.contains(sub)`. */
  predicate Contains(s: string, sub: string) {
    exists i: nat | i <= |s| :: OccursAt(s, sub, i)
  }

  lemma ContainsMiddle(a: string, sub: string, b: string)
    ensures Contains(a + sub + b, sub)
  {
    assert OccursAt(a + sub + b, sub, |a|) by {
      assert (a + sub + b)[|a|..|a| + |sub|] == sub;
    }
  }

  /** Text before an occurrence does not hide it. */
  lemma ContainsAfter(a: string, b: string, sub: string)
    requires Contains(b, sub)
    ensures Contains(a + b, sub)
  {
    var i: nat :| i <= |b| && OccursAt(b, sub, i);
    assert (a + b)[|a| + i..|a| + i + |sub|] == b[i..i + |sub|];
    assert OccursAt(a + b, sub, |a| + i);
  }

  /** Every part of a joined text occurs in it. */
  lemma {:induction false} JoinContainsParts(parts: seq<string>, sep: string, k: nat)
    requires k < |parts|
    ensures Contains(Join(parts, sep), parts[k])
    decreases |parts|
  {
    if |parts| == 1 {
      ContainsMiddle([], parts[0], []);
      assert [] + parts[0] + [] == Join(parts, sep);
    } else if k == 0 {
      ContainsMiddle([], parts[0], sep + Join(parts[1..], sep));
      assert [] + parts[0] + (sep + Join(parts[1..], sep)) == Join(parts, sep);
    } else {
      JoinContainsParts(parts[1..], sep, k - 1);
      ContainsAfter(parts[0] + sep, Join(parts[1..], sep), parts[k]);
    }
  }

  /** Rust's `s.ends_with(suffix)`. */
  predicate EndsWith(s: string, suffix: string) {
    |suffix| <= |s| && s[|s| - |suffix|..] == suffix
  }

  /**
   * Rust's `s.trim_end_matches(pat)`: removes `pat` from the end again and again while it is
   * there. The comparison is exact (case-sensitive).
   */
  function TrimEndMatches(s: string, pat: string): (r: string)
    ensures |r| <= |s| && r == s[..|r|]
    ensures |pat| > 0 ==> !EndsWith(r, pat)
    ensures |pat| == 0 ==> r == s
    decreases |s|
  {
    if |pat| > 0 && EndsWith(s, pat) then TrimEndMatches(s[..|s| - |pat|], pat) else s
  }

  /** `trim_end_matches` removes nothing but whole copies of the pattern. */
  lemma {:induction false} TrimRemovesWholeCopies(s: string, pat: string)
    ensures exists k: nat :: s == TrimEndMatches(s, pat) + Repeat(pat, k)
    decreases |s|
  {
    var r := TrimEndMatches(s, pat);
    if |pat| > 0 && EndsWith(s, pat) {
      var u := s[..|s| - |pat|];
      TrimRemovesWholeCopies(u, pat);
      var k: nat :| u == r + Repeat(pat, k);
      RepeatOnceMore(s, pat, r, k);
    } else {
      assert s == r + Repeat(pat, 0);
    }
  }

  /** A string ending in `pat` whose rest is `r` and `k` copies of `pat` is `r` and `k + 1` copies. */
  lemma RepeatOnceMore(s: string, pat: string, r: string, k: nat)
    requires EndsWith(s, pat) && s[..|s| - |pat|] == r + Repeat(pat, k)
    ensures s == r + Repeat(pat, k + 1)
  {
    assert s == s[..|s| - |pat|] + s[|s| - |pat|..];
    assert Repeat(pat, k + 1) == Repeat(pat, k) + pat;
  }

  /** `k` copies of `p`, one after another. */
  function Repeat(p: string, k: nat): string {
    if k == 0 then [] else Repeat(p, k - 1) + p
  }

  /** ASCII case folding of one character (Rust's `to_lowercase` restricted to ASCII). */
  function LowerChar(c: char): (d: char)
    ensures 'A' <= c <= 'Z' ==> d as int == c as int + 32
    ensures !('A' <= c <= 'Z') ==> d == c
  {
    if 'A' <= c <= 'Z' then (c as int + 32) as char else c
  }

  function AsciiLower(s: string): (r: string)
    ensures |r| == |s| && forall i :: 0 <= i < |s| ==> r[i] == LowerChar(s[i])
  {
    seq(|s|, i requires 0 <= i < |s| => LowerChar(s[i]))
  }

  /** Rust's `char::is_whitespace`: the Unicode White_Space property. */
  predicate IsWhitespace(c: char) {
    || ('\t' <= c <= '\r')
    || c == ' '
    || c == 0x85 as char
    || c == 0xA0 as char
    || c == 0x1680 as char
    || (0x2000 as char <= c <= 0x200A as char)
    || c == 0x2028 as char
    || c == 0x2029 as char
    || c == 0x202F as char
    || c == 0x205F as char
    || c == 0x3000 as char
  }

  function TrimStart(s: string): (r: string)
    ensures |r| <= |s| && r == s[|s| - |r|..]
    ensures r == [] || !IsWhitespace(r[0])
    ensures forall i :: 0 <= i < |s| - |r| ==> IsWhitespace(s[i])
    decreases |s|
  {
    if s != [] && IsWhitespace(s[0]) then TrimStart(s[1..]) else s
  }

  function TrimEnd(s: string): (r: string)
    ensures |r| <= |s| && r == s[..|r|]
    ensures r == [] || !IsWhitespace(r[|r| - 1])
    ensures forall i :: |r| <= i < |s| ==> IsWhitespace(s[i])
    decreases |s|
  {
    if s != [] && IsWhitespace(s[|s| - 1]) then TrimEnd(s[..|s| - 1]) else s
  }

  /** Rust's `s.trim()`. */
  function Trim(s: string): string {
    TrimEnd(TrimStart(s))
  }

  /** `s.trim().is_empty()` holds exactly when every character of `s` is whitespace. */
  lemma TrimEmptyIffBlank(s: string)
    ensures Trim(s) == [] <==> forall i :: 0 <= i < |s| ==> IsWhitespace(s[i])
  {
    var t := TrimStart(s);
    assert Trim(s) == [] ==> t == [];
  }
}
