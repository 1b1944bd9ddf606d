/**
 * Rust's `std::str::from_utf8`: accepts exactly the well-formed UTF-8 byte sequences
 * (Table 3-7 of The Unicode Standard, chapter 3) and yields their scalar values.
 * The encoder is the reference the decoder is proved against.
 */
module Utf8 {
  import opened Wrappers

  predicate IsContinuation(b: bv8) {
    0x80 <= b as int <= 0xBF
  }

  /** The length of the sequence a lead byte announces, or 0 for a byte that cannot lead one. */
  function SequenceLength(b0: int): nat {
    if b0 < 0x80 then 1
    else if 0xC2 <= b0 <= 0xDF then 2
    else if 0xE0 <= b0 <= 0xEF then 3
    else if 0xF0 <= b0 <= 0xF4 then 4
    else 0
  }

  /** The bytes allowed second after lead byte `b0` (narrower than 80..BF for E0, ED, F0, F4). */
  function SecondByteRange(b0: int): (int, int) {
    if b0 == 0xE0 then (0xA0, 0xBF)
    else if b0 == 0xED then (0x80, 0x9F)
    else if b0 == 0xF0 then (0x90, 0xBF)
    else if b0 == 0xF4 then (0x80, 0x8F)
    else (0x80, 0xBF)
  }

  /** `bs` starts with a well-formed sequence of `n` bytes. */
  predicate WellFormedPrefix(bs: seq<bv8>, n: nat)
    requires |bs| > 0
  {
    var b0 := bs[0] as int;
    && n == SequenceLength(b0) && 1 <= n <= |bs|
    && (n >= 2 ==> SecondByteRange(b0).0 <= bs[1] as int <= SecondByteRange(b0).1)
    && (n >= 3 ==> IsContinuation(bs[2]))
    && (n >= 4 ==> IsContinuation(bs[3]))
  }

  /** The scalar value the first `n` bytes carry: the lead's payload bits, then six bits per byte. */
  function Payload(bs: seq<bv8>, n: nat): int
    requires 1 <= n <= 4 && n <= |bs|
  {
    var b0 := bs[0] as int;
    if n == 1 then b0
    else if n == 2 then (b0 - 0xC0) * 64 + (bs[1] as int - 0x80)
    else if n == 3 then (b0 - 0xE0) * 4096 + (bs[1] as int - 0x80) * 64 + (bs[2] as int - 0x80)
    else (b0 - 0xF0) * 262144 + (bs[1] as int - 0x80) * 4096 + (bs[2] as int - 0x80) * 64 + (bs[3] as int - 0x80)
  }

  /** Table 3-7 admits only sequences whose payload is a Unicode scalar value. */
  lemma PayloadIsScalar(bs: seq<bv8>, n: nat)
    requires |bs| > 0 && WellFormedPrefix(bs, n)
    ensures 0 <= Payload(bs, n) < 0xD800 || 0xE000 <= Payload(bs, n) < 0x110000
  {
  }

  /**
   * Decodes the scalar value at the start of `bs`: the character and the number of bytes it
   * occupies, or None when `bs` does not start with a well-formed sequence.
   */
  function DecodeFirst(bs: seq<bv8>): (r: Option<(char, nat)>)
    requires |bs| > 0
    ensures r.Some? ==> 1 <= r.value.1 <= 4 && r.value.1 <= |bs|
    ensures bs[0] as int < 0x80 ==> r == Some((bs[0] as int as char, 1))
    ensures 0xC0 <= bs[0] as int <= 0xC1 || 0xF5 <= bs[0] as int || IsContinuation(bs[0]) ==> r.None?
  {
    var n := SequenceLength(bs[0] as int);
    if WellFormedPrefix(bs, n) then
      PayloadIsScalar(bs, n);
      Some((Payload(bs, n) as char, n))
    else None
  }

  /** `std::str::from_utf8`: the whole buffer decoded, or None if any part is ill-formed. */
  function Decode(bs: seq<bv8>): (r: Option<string>)
    decreases |bs|
  {
    if bs == [] then Some([])
    else
      match DecodeFirst(bs)
      case None => None
      case Some((c, k)) =>
        match Decode(bs[k..])
        case None => None
        case Some(rest) => Some([c] + rest)
  }

  /** The UTF-8 encoding of one scalar value. */
  function EncodeChar(c: char): (bs: seq<bv8>)
    ensures 1 <= |bs| <= 4
  {
    var v := c as int;
    if v < 0x80 then [v as bv8]
    else if v < 0x800 then [(0xC0 + v / 64) as bv8, (0x80 + v % 64) as bv8]
    else if v < 0x10000 then
      [(0xE0 + v / 4096) as bv8, (0x80 + (v / 64) % 64) as bv8, (0x80 + v % 64) as bv8]
    else
      [(0xF0 + v / 262144) as bv8, (0x80 + (v / 4096) % 64) as bv8,
       (0x80 + (v / 64) % 64) as bv8, (0x80 + v % 64) as bv8]
  }

  function Encode(s: string): seq<bv8>
    decreases |s|
  {
    if s == [] then [] else EncodeChar(s[0]) + Encode(s[1..])
  }

  lemma ByteRoundTrip(x: int)
    requires 0 <= x < 256
    ensures (x as bv8) as int == x
  {
    var w := x as bv16;
    assert w < 256;
    assert (w as bv8) as int == w as int;
  }

  lemma SplitThree(v: nat)
    requires 0x800 <= v < 0x10000
    ensures v == (v / 4096) * 4096 + ((v / 64) % 64) * 64 + v % 64
    ensures 0 <= v / 4096 < 16 && 0 <= (v / 64) % 64 < 64 && 0 <= v % 64 < 64
    ensures v / 4096 == 0 ==> (v / 64) % 64 >= 32
    ensures v / 4096 == 0xD && v < 0xD800 ==> (v / 64) % 64 < 32
  {
    var q := v / 64;
    assert v == q * 64 + v % 64;
    assert q == (q / 64) * 64 + q % 64;
    assert q / 64 == v / 4096;
  }

  lemma SplitFour(v: nat)
    requires 0x10000 <= v < 0x110000
    ensures v == (v / 262144) * 262144 + ((v / 4096) % 64) * 4096 + ((v / 64) % 64) * 64 + v % 64
    ensures 0 <= v / 262144 <= 4 && 0 <= (v / 4096) % 64 < 64
    ensures 0 <= (v / 64) % 64 < 64 && 0 <= v % 64 < 64
    ensures v / 262144 == 0 ==> (v / 4096) % 64 >= 16
    ensures v / 262144 == 4 ==> (v / 4096) % 64 < 16
  {
    var q := v / 64;
    var r := q / 64;
    assert v == q * 64 + v % 64;
    assert q == r * 64 + q % 64;
    assert r == (r / 64) * 64 + r % 64;
    assert r == v / 4096;
    assert r / 64 == v / 262144;
  }

  lemma DecodeTwo(c: char, rest: seq<bv8>)
    requires 0x80 <= c as int < 0x800
    ensures DecodeFirst(EncodeChar(c) + rest) == Some((c, 2))
  {
    var v := c as int;
    var hi, lo := v / 64, v % 64;
    assert v == hi * 64 + lo && 2 <= hi < 32 && 0 <= lo < 64;
    ByteRoundTrip(0xC0 + hi);
    ByteRoundTrip(0x80 + lo);
    var bs := EncodeChar(c) + rest;
    assert bs[0] as int == 0xC0 + hi && bs[1] as int == 0x80 + lo;
    assert WellFormedPrefix(bs, 2) && Payload(bs, 2) == v;
  }

  lemma DecodeThreeBytes(x0: int, x1: int, x2: int, rest: seq<bv8>)
    requires 0 <= x0 < 16 && 0 <= x1 < 64 && 0 <= x2 < 64
    requires x0 == 0 ==> x1 >= 32
    requires x0 == 0xD ==> x1 < 32
    ensures var bs := [(0xE0 + x0) as bv8, (0x80 + x1) as bv8, (0x80 + x2) as bv8] + rest;
            WellFormedPrefix(bs, 3) && Payload(bs, 3) == x0 * 4096 + x1 * 64 + x2
  {
    ByteRoundTrip(0xE0 + x0);
    ByteRoundTrip(0x80 + x1);
    ByteRoundTrip(0x80 + x2);
  }

  lemma EncodeThree(c: char) returns (top: int, mid: int, lo: int)
    requires 0x800 <= c as int < 0x10000
    ensures c as int == top * 4096 + mid * 64 + lo
    ensures 0 <= top < 16 && 0 <= mid < 64 && 0 <= lo < 64
    ensures top == 0 ==> mid >= 32
    ensures top == 0xD ==> mid < 32
    ensures EncodeChar(c) == [(0xE0 + top) as bv8, (0x80 + mid) as bv8, (0x80 + lo) as bv8]
  {
    var v := c as int;
    top, mid, lo := v / 4096, (v / 64) % 64, v % 64;
    SplitThree(v);
  }

  lemma DecodeThree(c: char, rest: seq<bv8>)
    requires 0x800 <= c as int < 0x10000
    ensures DecodeFirst(EncodeChar(c) + rest) == Some((c, 3))
  {
    var top, mid, lo := EncodeThree(c);
    DecodeThreeBytes(top, mid, lo, rest);
    var bs := EncodeChar(c) + rest;
    assert WellFormedPrefix(bs, 3) && Payload(bs, 3) == c as int;
  }

  lemma DecodeFourBytes(x0: int, x1: int, x2: int, x3: int, rest: seq<bv8>)
    requires 0 <= x0 <= 4 && 0 <= x1 < 64 && 0 <= x2 < 64 && 0 <= x3 < 64
    requires x0 == 0 ==> x1 >= 16
    requires x0 == 4 ==> x1 < 16
    ensures var bs := [(0xF0 + x0) as bv8, (0x80 + x1) as bv8, (0x80 + x2) as bv8, (0x80 + x3) as bv8] + rest;
            WellFormedPrefix(bs, 4) && Payload(bs, 4) == x0 * 262144 + x1 * 4096 + x2 * 64 + x3
  {
    ByteRoundTrip(0xF0 + x0);
    ByteRoundTrip(0x80 + x1);
    ByteRoundTrip(0x80 + x2);
    ByteRoundTrip(0x80 + x3);
  }

  lemma EncodeFour(c: char) returns (top: int, high: int, mid: int, lo: int)
    requires 0x10000 <= c as int
    ensures c as int == top * 262144 + high * 4096 + mid * 64 + lo
    ensures 0 <= top <= 4 && 0 <= high < 64 && 0 <= mid < 64 && 0 <= lo < 64
    ensures top == 0 ==> high >= 16
    ensures top == 4 ==> high < 16
    ensures EncodeChar(c) == [(0xF0 + top) as bv8, (0x80 + high) as bv8, (0x80 + mid) as bv8, (0x80 + lo) as bv8]
  {
    var v := c as int;
    top, high, mid, lo := v / 262144, (v / 4096) % 64, (v / 64) % 64, v % 64;
    SplitFour(v);
  }

  lemma DecodeFour(c: char, rest: seq<bv8>)
    requires 0x10000 <= c as int
    ensures DecodeFirst(EncodeChar(c) + rest) == Some((c, 4))
  {
    var top, high, mid, lo := EncodeFour(c);
    DecodeFourBytes(top, high, mid, lo, rest);
    var bs := EncodeChar(c) + rest;
    assert WellFormedPrefix(bs, 4) && Payload(bs, 4) == c as int;
  }

  /** Decoding the encoding of a character, followed by anything, yields that character first. */
  lemma DecodeFirstOfEncoded(c: char, rest: seq<bv8>)
    ensures DecodeFirst(EncodeChar(c) + rest) == Some((c, |EncodeChar(c)|))
  {
    var v := c as int;
    if v < 0x80 {
      ByteRoundTrip(v);
    } else if v < 0x800 {
      DecodeTwo(c, rest);
    } else if v < 0x10000 {
      DecodeThree(c, rest);
    } else {
      DecodeFour(c, rest);
    }
  }

  /** `from_utf8` accepts every well-formed encoding and gives back the encoded string. */
  lemma {:induction false} DecodeEncode(s: string)
    ensures Decode(Encode(s)) == Some(s)
    decreases |s|
  {
    if s != [] {
      var e := EncodeChar(s[0]);
      var bs := Encode(s);
      assert bs == e + Encode(s[1..]);
      DecodeFirstOfEncoded(s[0], Encode(s[1..]));
      assert bs[|e|..] == Encode(s[1..]);
      DecodeEncode(s[1..]);
      assert [s[0]] + s[1..] == s;
    }
  }

  /** Bytes below 0x80 decode one to one to the characters with the same code. */
  lemma {:induction false} DecodeAscii(bs: seq<bv8>)
    requires forall i :: 0 <= i < |bs| ==> bs[i] as int < 0x80
    ensures Decode(bs).Some? && |Decode(bs).value| == |bs|
    ensures forall i :: 0 <= i < |bs| ==> Decode(bs).value[i] as int == bs[i] as int
    decreases |bs|
  {
    if bs != [] {
      var c := bs[0] as int as char;
      assert DecodeFirst(bs) == Some((c, 1));
      DecodeAscii(bs[1..]);
      var t := Decode(bs[1..]).value;
      assert Decode(bs) == Some([c] + t);
      forall i | 0 <= i < |bs| ensures ([c] + t)[i] as int == bs[i] as int {
        if i > 0 {
          assert ([c] + t)[i] == t[i - 1];
          assert bs[1..][i - 1] == bs[i];
        }
      }
    }
  }

  /** A buffer that starts with a byte no well-formed sequence can start with is rejected. */
  lemma RejectsBadLead(bs: seq<bv8>)
    requires |bs| > 0 && (0xC0 <= bs[0] as int <= 0xC1 || 0xF5 <= bs[0] as int || IsContinuation(bs[0]))
    ensures Decode(bs) == None
  {
  }
}
