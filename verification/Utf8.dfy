/**
  UTF-8 as Go's `unicode/utf8` reads it: well-formed sequences by the syntax in
  section 4 of RFC 3629, any other byte as U+FFFD of width one.
 */
module Utf8 {

  type Byte = b: int | 0 <= b < 256

  const RUNE_ERROR := 0xFFFD

  datatype Rune = Rune(rune: int, size: nat)

  const INVALID := Rune(RUNE_ERROR, 1)

  /** A Unicode scalar value: a code point that is no surrogate. */
  predicate IsScalar(r: int) {
    0 <= r < 0xD800 || 0xE000 <= r <= 0x10FFFF
  }

  /** `UTF8-tail`. */
  predicate IsTail(b: Byte) {
    0x80 <= b <= 0xBF
  }

  /** The second byte of a three-byte sequence. */
  predicate IsSecondOfThree(b0: Byte, b1: Byte) {
    if b0 == 0xE0 then 0xA0 <= b1 <= 0xBF
    else if b0 == 0xED then 0x80 <= b1 <= 0x9F
    else IsTail(b1)
  }

  /** The second byte of a four-byte sequence. */
  predicate IsSecondOfFour(b0: Byte, b1: Byte) {
    if b0 == 0xF0 then 0x90 <= b1 <= 0xBF
    else if b0 == 0xF4 then 0x80 <= b1 <= 0x8F
    else IsTail(b1)
  }

  /** What a byte carries above its marker bits. */
  function Bits(b: Byte, marker: int): int {
    b as int - marker
  }

  /** `utf8.DecodeRuneInString`. */
  function DecodeRune(s: seq<Byte>): (d: Rune)
    requires s != []
    ensures 1 <= d.size <= |s| && d.size <= 4 && IsScalar(d.rune)
  {
    var b0 := s[0];
    if b0 < 0x80 then Rune(b0, 1)
    else if 0xC2 <= b0 <= 0xDF && |s| >= 2 && IsTail(s[1])
    then Rune(64 * Bits(b0, 0xC0) + Bits(s[1], 0x80), 2)
    else if 0xE0 <= b0 <= 0xEF && |s| >= 3 && IsSecondOfThree(b0, s[1]) && IsTail(s[2])
    then Rune(64 * (64 * Bits(b0, 0xE0) + Bits(s[1], 0x80)) + Bits(s[2], 0x80), 3)
    else if 0xF0 <= b0 <= 0xF4 && |s| >= 4 && IsSecondOfFour(b0, s[1]) && IsTail(s[2]) && IsTail(s[3])
    then Rune(64 * (64 * (64 * Bits(b0, 0xF0) + Bits(s[1], 0x80)) + Bits(s[2], 0x80)) + Bits(s[3], 0x80), 4)
    else INVALID
  }

  /** `strings.Builder.WriteRune` on a scalar value. */
  function EncodeRune(r: int): (s: seq<Byte>)
    requires IsScalar(r)
    ensures 1 <= |s| <= 4
  {
    var q, q', q'' := r / 64, r / 64 / 64, r / 64 / 64 / 64;
    if r < 0x80 then [r]
    else if r < 0x800 then [0xC0 + q, 0x80 + r % 64]
    else if r < 0x10000 then [0xE0 + q', 0x80 + q % 64, 0x80 + r % 64]
    else [0xF0 + q'', 0x80 + q' % 64, 0x80 + q % 64, 0x80 + r % 64]
  }

  lemma {:induction false} SixBits(high: int, low: int)
    requires 0 <= low < 64
    ensures (64 * high + low) / 64 == high && (64 * high + low) % 64 == low
  {
  }

  /** Decoding what was encoded gives it back, whatever bytes follow. */
  lemma {:induction false} DecodeEncoded(r: int, rest: seq<Byte>)
    requires IsScalar(r)
    ensures DecodeRune(EncodeRune(r) + rest) == Rune(r, |EncodeRune(r)|)
  {
    hide DecodeRune, EncodeRune;
    if r < 0x800 { DecodeShort(r, rest); } else if r < 0x10000 { DecodeThree(r, rest); } else { DecodeFour(r, rest); }
  }

  lemma {:induction false} DecodeShort(r: int, rest: seq<Byte>)
    requires 0 <= r < 0x800
    ensures DecodeRune(EncodeRune(r) + rest) == Rune(r, |EncodeRune(r)|)
  {
    var s := EncodeRune(r) + rest;
    assert r >= 0x80 ==> s[1] == 0x80 + r % 64;
  }

  lemma {:induction false} DecodeThree(r: int, rest: seq<Byte>)
    requires 0x800 <= r < 0x10000 && IsScalar(r)
    ensures DecodeRune(EncodeRune(r) + rest) == Rune(r, |EncodeRune(r)|)
  {
    var q := r / 64;
    var s := [0xE0 + q / 64, 0x80 + q % 64, 0x80 + r % 64] + rest;
    assert s == EncodeRune(r) + rest;
    assert s[0] == 0xE0 + q / 64 && s[1] == 0x80 + q % 64 && s[2] == 0x80 + r % 64;
  }

  lemma {:induction false} DecodeFour(r: int, rest: seq<Byte>)
    requires 0x10000 <= r <= 0x10FFFF
    ensures DecodeRune(EncodeRune(r) + rest) == Rune(r, |EncodeRune(r)|)
  {
    var q, q' := r / 64, r / 64 / 64;
    var s := [0xF0 + q' / 64, 0x80 + q' % 64, 0x80 + q % 64, 0x80 + r % 64] + rest;
    assert s == EncodeRune(r) + rest;
    assert s[0] == 0xF0 + q' / 64 && s[1] == 0x80 + q' % 64 && s[2] == 0x80 + q % 64 && s[3] == 0x80 + r % 64;
  }

  /** Encoding what was decoded gives the very bytes that were read. */
  lemma {:induction false} EncodeDecoded(s: seq<Byte>)
    requires s != [] && DecodeRune(s) != INVALID
    ensures EncodeRune(DecodeRune(s).rune) == s[..DecodeRune(s).size]
  {
    hide EncodeRune;
    var d := DecodeRune(s);
    if d.size == 1 {
      assert EncodeRune(s[0]) == [s[0]] by { EncodeOne(s[0]); }
    } else if d.size == 2 {
      EncodeTwo(s[0], s[1]);
    } else if d.size == 3 {
      EncodeThree(s[0], s[1], s[2]);
    } else {
      EncodeFour(s[0], s[1], s[2], s[3]);
    }
  }

  lemma {:induction false} EncodeOne(b: Byte)
    requires b < 0x80
    ensures EncodeRune(b) == [b]
  {
  }

  lemma {:induction false} EncodeTwo(b0: Byte, b1: Byte)
    requires 0xC2 <= b0 <= 0xDF && IsTail(b1)
    ensures EncodeRune(64 * Bits(b0, 0xC0) + Bits(b1, 0x80)) == [b0, b1]
  {
    SixBits(Bits(b0, 0xC0), Bits(b1, 0x80));
  }

  lemma {:induction false} EncodeThree(b0: Byte, b1: Byte, b2: Byte)
    requires 0xE0 <= b0 <= 0xEF && IsSecondOfThree(b0, b1) && IsTail(b2)
    ensures EncodeRune(64 * (64 * Bits(b0, 0xE0) + Bits(b1, 0x80)) + Bits(b2, 0x80)) == [b0, b1, b2]
  {
    var high := 64 * Bits(b0, 0xE0) + Bits(b1, 0x80);
    SixBits(high, Bits(b2, 0x80));
    SixBits(Bits(b0, 0xE0), Bits(b1, 0x80));
  }

  lemma {:induction false} EncodeFour(b0: Byte, b1: Byte, b2: Byte, b3: Byte)
    requires 0xF0 <= b0 <= 0xF4 && IsSecondOfFour(b0, b1) && IsTail(b2) && IsTail(b3)
    ensures EncodeRune(64 * (64 * (64 * Bits(b0, 0xF0) + Bits(b1, 0x80)) + Bits(b2, 0x80)) + Bits(b3, 0x80))
         == [b0, b1, b2, b3]
  {
    var high := 64 * Bits(b0, 0xF0) + Bits(b1, 0x80);
    var mid := 64 * high + Bits(b2, 0x80);
    SixBits(mid, Bits(b3, 0x80));
    SixBits(high, Bits(b2, 0x80));
    SixBits(Bits(b0, 0xF0), Bits(b1, 0x80));
  }

  // ---------------------------------------------------------------------------
  // Whole strings
  // ---------------------------------------------------------------------------

  function EncodeText(t: string): seq<Byte> {
    if t == "" then [] else EncodeRune(t[0] as int) + EncodeText(t[1..])
  }

  /** The runes that `range` yields, U+FFFD for every invalid byte. */
  function DecodeText(s: seq<Byte>): string {
    if s == [] then "" else [DecodeRune(s).rune as char] + DecodeText(s[DecodeRune(s).size..])
  }

  predicate Valid(s: seq<Byte>) {
    s == [] || (DecodeRune(s) != INVALID && Valid(s[DecodeRune(s).size..]))
  }

  lemma {:induction false} DecodeEncodedText(t: string)
    ensures DecodeText(EncodeText(t)) == t && Valid(EncodeText(t))
  {
    hide DecodeRune, EncodeRune;
    if t != "" {
      var e, rest := EncodeRune(t[0] as int), EncodeText(t[1..]);
      DecodeEncoded(t[0] as int, rest);
      EncodedIsValid(t[0] as int, rest);
      assert (e + rest)[|e|..] == rest;
      DecodeEncodedText(t[1..]);
    }
  }

  lemma {:induction false} EncodeDecodedText(s: seq<Byte>)
    requires Valid(s)
    ensures EncodeText(DecodeText(s)) == s
  {
    hide DecodeRune, EncodeRune;
    if s != [] {
      var d := DecodeRune(s);
      EncodeDecoded(s);
      EncodeDecodedText(s[d.size..]);
      assert s == s[..d.size] + s[d.size..];
    }
  }

  /** Even U+FFFD itself, when properly encoded, does not read as an invalid byte. */
  lemma {:induction false} EncodedIsValid(r: int, rest: seq<Byte>)
    requires IsScalar(r)
    ensures DecodeRune(EncodeRune(r) + rest) != INVALID
  {
    hide DecodeRune;
    DecodeEncoded(r, rest);
  }

  lemma {:induction false} EncodeTextConcat(a: string, b: string)
    ensures EncodeText(a + b) == EncodeText(a) + EncodeText(b)
  {
    hide EncodeRune;
    if a == "" {
      assert a + b == b;
    } else {
      assert (a + b)[1..] == a[1..] + b;
      EncodeTextConcat(a[1..], b);
    }
  }

  // ---------------------------------------------------------------------------
  // The last rune
  // ---------------------------------------------------------------------------

  /** How far back from the end the last byte that can start a rune is; beyond four there is none. */
  function Back(s: seq<Byte>, k: nat): (r: nat)
    requires k >= 1
    ensures k <= r
    decreases 5 - k
  {
    if k > 4 || k > |s| || !IsTail(s[|s| - k]) then k else Back(s, k + 1)
  }

  /** `utf8.DecodeLastRuneInString`. */
  function LastRune(s: seq<Byte>): (d: Rune)
    requires s != []
    ensures 1 <= d.size <= |s| && IsScalar(d.rune)
  {
    var last, k := s[|s| - 1], Back(s, 2);
    if last < 0x80 then Rune(last, 1)
    else if k <= |s| && DecodeRune(s[|s| - k..]).size == k then DecodeRune(s[|s| - k..])
    else INVALID
  }

  /** Behind anything, the bytes of a scalar are read as that scalar. */
  lemma {:induction false} LastEncoded(p: seq<Byte>, r: int)
    requires IsScalar(r)
    ensures LastRune(p + EncodeRune(r)) == Rune(r, |EncodeRune(r)|)
  {
    hide DecodeRune, EncodeRune;
    var e := EncodeRune(r);
    var s := p + e;
    EncodedShape(r);
    assert s[|s| - 1] == e[|e| - 1];
    if |e| > 1 {
      BackTo(s, |e|, 2, e);
      assert s[|s| - |e|..] == e + [];
      DecodeEncoded(r, []);
    } else {
      assert e == [r];
    }
  }

  lemma {:induction false} EncodedShape(r: int)
    requires IsScalar(r)
    ensures var e := EncodeRune(r);
            && (|e| == 1 ==> e[0] == r < 0x80)
            && (|e| > 1 ==> !IsTail(e[0]) && forall i :: 1 <= i < |e| ==> IsTail(e[i]))
  {
  }

  lemma {:induction false} BackTo(s: seq<Byte>, n: nat, k: nat, e: seq<Byte>)
    requires 2 <= k <= n == |e| <= 4 && n <= |s| && s[|s| - n..] == e
    requires !IsTail(e[0]) && forall i :: 1 <= i < n ==> IsTail(e[i])
    ensures Back(s, k) == n
    decreases n - k
  {
    assert s[|s| - k] == e[n - k];
    if k < n { BackTo(s, n, k + 1, e); }
  }
}
