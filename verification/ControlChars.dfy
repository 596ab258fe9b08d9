/**
  `StripControlChars` over arbitrary bytes: valid UTF-8, invalid UTF-8, and the bytes
  that a removal leaves next to each other.
 */
module ControlChars {
  import opened Utf8

  /** C0 and C1 controls and DEL, without tab, line feed and carriage return. */
  predicate IsControl(r: int) {
    if r <= 0x1F then r != 0x09 && r != 0x0A && r != 0x0D else 0x7F <= r <= 0x9F
  }

  /** What the decoding unit at the front of `s` becomes. */
  function StripUnit(s: seq<Byte>): seq<Byte>
    requires s != []
  {
    var d := DecodeRune(s);
    if d == INVALID then (if 0x7F <= s[0] <= 0x9F then [] else [s[0]])
    else if IsControl(d.rune) then [] else EncodeRune(d.rune)
  }

  function Strip(s: seq<Byte>): seq<Byte> {
    if s == [] then [] else StripUnit(s) + Strip(s[DecodeRune(s).size..])
  }

  method StripAt(s: seq<Byte>, i: nat) returns (kept: seq<Byte>, next: nat)
    requires i < |s|
    ensures kept == StripUnit(s[i..]) && next == i + DecodeRune(s[i..]).size <= |s|
  {
    hide DecodeRune, EncodeRune;
    kept := [];
    var d := DecodeRune(s[i..]);
    if d == INVALID {
      if !(0x7F <= s[i] <= 0x9F) { kept := [s[i]]; }
    } else if !IsControl(d.rune) {
      kept := EncodeRune(d.rune);
    }
    next := i + d.size;
  }

  method StripControlChars(s: seq<Byte>) returns (out: seq<Byte>)
    ensures out == Strip(s)
  {
    hide DecodeRune, StripUnit;
    if s == [] { return []; }
    out := [];
    var i := 0;
    while i < |s|
      invariant 0 <= i <= |s| && out + Strip(s[i..]) == Strip(s)
    {
      var kept, next := StripAt(s, i);
      assert s[i..][next - i..] == s[next..];
      assert out + (kept + Strip(s[next..])) == (out + kept) + Strip(s[next..]);
      out, i := out + kept, next;
    }
  }

  // ---------------------------------------------------------------------------
  // Byte strings in which every decoding unit is kept
  // ---------------------------------------------------------------------------

  predicate IsKept(s: seq<Byte>)
    requires s != []
  {
    var d := DecodeRune(s);
    if d == INVALID then !(0x7F <= s[0] <= 0x9F) else !IsControl(d.rune)
  }

  predicate Clean(s: seq<Byte>) {
    s == [] || (IsKept(s) && Clean(s[DecodeRune(s).size..]))
  }

  /** The runes a reader of the bytes sees, U+FFFD for every invalid byte. */
  function Runes(s: seq<Byte>): seq<int> {
    if s == [] then [] else [DecodeRune(s).rune] + Runes(s[DecodeRune(s).size..])
  }

  lemma {:induction false} KeptUnitStays(s: seq<Byte>)
    requires s != []
    ensures StripUnit(s) == if IsKept(s) then s[..DecodeRune(s).size] else []
  {
    hide DecodeRune, EncodeRune;
    if DecodeRune(s) != INVALID { EncodeDecoded(s); }
  }

  /** A valid sequence reads the same whatever follows it. */
  lemma {:induction false} DecodePrefix(s: seq<Byte>, t: seq<Byte>)
    requires s != [] && DecodeRune(s) != INVALID
    ensures DecodeRune(s[..DecodeRune(s).size] + t) == DecodeRune(s)
  {
    EncodeDecoded(s);
    DecodeEncoded(DecodeRune(s).rune, t);
  }

  /** In clean bytes a tail byte at the front is an invalid byte above the C1 range. */
  lemma {:induction false} CleanTail(t: seq<Byte>)
    requires Clean(t) && t != [] && IsTail(t[0])
    ensures 0xA0 <= t[0] && Clean(t[1..])
  {
  }

  lemma {:induction false} LoneByteThenClean(b: Byte, t: seq<Byte>)
    requires DecodeRune([b]) == INVALID && !(0x7F <= b <= 0x9F) && Clean(t)
    ensures Clean([b] + t)
  {
    var s := [b] + t;
    var d := DecodeRune(s);
    assert s[1..] == t;
    if d != INVALID {
      assert IsTail(t[0]);
      CleanTail(t);
      if d.size >= 3 {
        CleanTail(t[1..]);
        if d.size == 4 { CleanTail(t[1..][1..]); }
      }
      LoneByteRune(b, t);
      assert s[d.size..] == t[d.size - 1..];
    }
  }

  /** A stray lead byte may join tail bytes that a removal exposed, but never to a control. */
  lemma {:induction false} LoneByteRune(b: Byte, t: seq<Byte>)
    requires b >= 0x80 && t != [] && 0xA0 <= t[0]
    ensures DecodeRune([b] + t) != INVALID ==> !IsControl(DecodeRune([b] + t).rune)
  {
  }

  lemma {:induction false} StripClean(s: seq<Byte>)
    ensures Clean(Strip(s))
  {
    hide DecodeRune, EncodeRune, IsControl;
    if s != [] {
      var d := DecodeRune(s);
      var t := Strip(s[d.size..]);
      StripClean(s[d.size..]);
      KeptUnitStays(s);
      if !IsKept(s) {
        assert Strip(s) == t;
      } else if d == INVALID {
        LoneByteDecode(s);
        assert s[..1] == [s[0]];
        LoneByteThenClean(s[0], t);
      } else {
        DecodePrefix(s, t);
        assert (s[..d.size] + t)[d.size..] == t;
      }
    }
  }

  lemma {:induction false} LoneByteDecode(s: seq<Byte>)
    requires s != [] && DecodeRune(s) == INVALID
    ensures DecodeRune([s[0]]) == INVALID
  {
  }

  lemma {:induction false} CleanFixed(s: seq<Byte>)
    requires Clean(s)
    ensures Strip(s) == s
  {
    hide DecodeRune, EncodeRune, IsControl;
    if s != [] {
      KeptUnitStays(s);
      CleanFixed(s[DecodeRune(s).size..]);
    }
  }

  lemma {:induction false} CleanRunes(s: seq<Byte>)
    requires Clean(s)
    ensures forall r :: r in Runes(s) ==> !IsControl(r)
  {
    hide DecodeRune;
    if s != [] { CleanRunes(s[DecodeRune(s).size..]); }
  }

  /**
    On every byte string, valid UTF-8 or not: stripping twice is stripping once, no
    reader of the result ever decodes a control character, and exactly the byte strings
    without a control character stay as they are.
   */
  lemma {:induction false} StripIsFinal(s: seq<Byte>)
    ensures Strip(Strip(s)) == Strip(s)
    ensures forall r :: r in Runes(Strip(s)) ==> !IsControl(r)
    ensures Strip(s) == s <==> Clean(s)
  {
    StripClean(s);
    CleanFixed(Strip(s));
    CleanRunes(Strip(s));
    if Clean(s) { CleanFixed(s); }
  }

  // ---------------------------------------------------------------------------
  // The same on text
  // ---------------------------------------------------------------------------

  /** A string with its control characters taken out. */
  function WithoutControls(t: string): string {
    if t == "" then ""
    else (if IsControl(t[0] as int) then "" else [t[0]]) + WithoutControls(t[1..])
  }

  /** On the UTF-8 form of a text, stripping takes out its control characters and nothing else. */
  lemma {:induction false} StripEncodedText(t: string)
    ensures Strip(EncodeText(t)) == EncodeText(WithoutControls(t))
  {
    hide DecodeRune, EncodeRune, IsControl;
    if t != "" {
      var r := t[0] as int;
      var e, rest := EncodeRune(r), EncodeText(t[1..]);
      StripEncodedText(t[1..]);
      DecodeEncoded(r, rest);
      assert (e + rest)[|e|..] == rest && (e + rest)[..|e|] == e;
      KeptUnitStays(e + rest);
      EncodedIsValid(r, rest);
      if IsControl(r) {
        assert WithoutControls(t) == WithoutControls(t[1..]);
      } else {
        assert WithoutControls(t)[0] == t[0] && WithoutControls(t)[1..] == WithoutControls(t[1..]);
      }
    }
  }
}
