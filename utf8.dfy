/** Python's `bytes.decode(errors='ignore')` with the default UTF-8 codec: every
    well-formed UTF-8 sequence becomes its scalar value and every byte that
    does not start one is dropped. The ill-formed sequences follow Table 3-7,
    "Well-Formed UTF-8 Byte Sequences", of the Unicode Standard (chapter 3). */
module Utf8 {

  newtype byte = x: int | 0 <= x < 256

  predicate IsContinuation(b: byte) {
    0x80 <= b <= 0xBF
  }

  /** `w` is one complete, well-formed UTF-8 encoding of a scalar value. */
  predicate WellFormed(w: seq<byte>) {
    || (|w| == 1 && w[0] < 0x80)
    || (|w| == 2 && 0xC2 <= w[0] <= 0xDF && IsContinuation(w[1]))
    || (&& |w| == 3
        && (|| (w[0] == 0xE0 && 0xA0 <= w[1] <= 0xBF)
            || (0xE1 <= w[0] <= 0xEC && IsContinuation(w[1]))
            || (w[0] == 0xED && 0x80 <= w[1] <= 0x9F)
            || (0xEE <= w[0] <= 0xEF && IsContinuation(w[1])))
        && IsContinuation(w[2]))
    || (&& |w| == 4
        && (|| (w[0] == 0xF0 && 0x90 <= w[1] <= 0xBF)
            || (0xF1 <= w[0] <= 0xF3 && IsContinuation(w[1]))
            || (w[0] == 0xF4 && 0x80 <= w[1] <= 0x8F))
        && IsContinuation(w[2]) && IsContinuation(w[3]))
  }

  /** The length of the well-formed sequence `s` starts with, or 0. */
  function LeadLength(s: seq<byte>): (n: nat)
    ensures n <= 4 && n <= |s|
    ensures n > 0 ==> WellFormed(s[..n])
    ensures n == 0 ==> forall k :: 1 <= k <= 4 && k <= |s| ==> !WellFormed(s[..k])
  {
    if |s| >= 1 && WellFormed(s[..1]) then 1
    else if |s| >= 2 && WellFormed(s[..2]) then 2
    else if |s| >= 3 && WellFormed(s[..3]) then 3
    else if |s| >= 4 && WellFormed(s[..4]) then 4
    else 0
  }

  /** The scalar value a well-formed sequence encodes. */
  function ScalarOf(w: seq<byte>): char
    requires WellFormed(w)
  {
    if |w| == 1 then w[0] as int as char
    else if |w| == 2 then ((w[0] as int - 0xC0) * 64 + (w[1] as int - 0x80)) as char
    else if |w| == 3 then
      ((w[0] as int - 0xE0) * 4096 + (w[1] as int - 0x80) * 64 + (w[2] as int - 0x80)) as char
    else
      ((w[0] as int - 0xF0) * 262144 + (w[1] as int - 0x80) * 4096
        + (w[2] as int - 0x80) * 64 + (w[3] as int - 0x80)) as char
  }

  /** `bytes(s).decode(errors='ignore')`. */
  function DecodeIgnore(s: seq<byte>): (r: string)
    ensures |r| <= |s|
    decreases |s|
  {
    if s == [] then []
    else
      var n := LeadLength(s);
      if n == 0 then DecodeIgnore(s[1..]) else [ScalarOf(s[..n])] + DecodeIgnore(s[n..])
  }

  /** The UTF-8 encoding of one scalar value. */
  function EncodeChar(c: char): (w: seq<byte>)
    ensures 1 <= |w| <= 4
  {
    var x := c as int;
    if x < 0x80 then [x as byte]
    else if x < 0x800 then [(0xC0 + x / 64) as byte, (0x80 + x % 64) as byte]
    else if x < 0x10000 then
      [(0xE0 + x / 4096) as byte, (0x80 + (x / 64) % 64) as byte, (0x80 + x % 64) as byte]
    else
      [(0xF0 + x / 262144) as byte, (0x80 + (x / 4096) % 64) as byte,
       (0x80 + (x / 64) % 64) as byte, (0x80 + x % 64) as byte]
  }

  /** `s.encode()`: the UTF-8 encoding of a string. */
  function Encode(s: string): seq<byte> {
    if s == [] then [] else EncodeChar(s[0]) + Encode(s[1..])
  }

  /** Each character encodes to one well-formed sequence that decodes back to it. */
  lemma EncodeCharDecodes(c: char)
    ensures WellFormed(EncodeChar(c)) && ScalarOf(EncodeChar(c)) == c
  {
    var x := c as int;
    var w := EncodeChar(c);
    if x < 0x80 {
    } else if x < 0x800 {
      assert x == (x / 64) * 64 + x % 64;
    } else if x < 0x10000 {
      var q := x / 64;
      assert x == q * 64 + x % 64;
      assert q == (q / 64) * 64 + q % 64;
      assert x / 4096 == q / 64;
      assert x < 0xD800 || 0xE000 <= x;
    } else {
      var q := x / 64;
      var q2 := q / 64;
      assert x == q * 64 + x % 64;
      assert q == q2 * 64 + q % 64;
      assert q2 == (q2 / 64) * 64 + q2 % 64;
      assert x / 4096 == q2;
      assert x / 262144 == q2 / 64;
    }
  }

  /** A well-formed sequence is never a proper prefix of another: the lead
      byte fixes its length. */
  lemma WellFormedLengthFixed(w: seq<byte>, k: nat)
    requires WellFormed(w) && 1 <= k <= |w|
    requires WellFormed(w[..k])
    ensures k == |w|
  {
    assert w[..k][0] == w[0];
    if k >= 2 { assert w[..k][1] == w[1]; }
  }

  lemma DecodeCharThen(c: char, rest: seq<byte>)
    ensures DecodeIgnore(EncodeChar(c) + rest) == [c] + DecodeIgnore(rest)
  {
    var w := EncodeChar(c);
    var s := w + rest;
    EncodeCharDecodes(c);
    assert s[..|w|] == w;
    forall k | 1 <= k < |w| ensures !WellFormed(s[..k]) {
      assert s[..k] == w[..k];
      if WellFormed(w[..k]) { WellFormedLengthFixed(w, k); }
    }
    assert LeadLength(s) == |w|;
    assert s[|w|..] == rest;
  }

  /** Decoding undoes encoding: no text is lost between `str.encode` and
      `bytes.decode(errors='ignore')`. */
  lemma {:induction false} DecodeEncode(s: string)
    ensures DecodeIgnore(Encode(s)) == s
  {
    if s != [] {
      DecodeCharThen(s[0], Encode(s[1..]));
      DecodeEncode(s[1..]);
    }
  }

  /** A byte that cannot start a well-formed sequence is dropped. */
  lemma {:induction false} InvalidLeadIgnored(b: byte, rest: seq<byte>)
    requires (0x80 <= b <= 0xC1) || 0xF5 <= b
    ensures DecodeIgnore([b] + rest) == DecodeIgnore(rest)
  {
    var s := [b] + rest;
    forall k | 1 <= k <= 4 && k <= |s| ensures !WellFormed(s[..k]) {
      assert s[..k][0] == b;
    }
    assert s[1..] == rest;
  }
}
