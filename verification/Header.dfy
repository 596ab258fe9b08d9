/**
  `SanitizeHeader` and `SanitizeAddressField`: markup, control characters, entities and
  outer white space removed, in that order.
 */
module Header {
  import opened Text
  import opened CleanUp
  import opened Html
  import opened ControlChars
  import opened Entities
  import opened EntityBytes
  import opened Utf8
  import opened ByteText
  import HtmlScanner

  function SanitizedHeader(s: string): string {
    Trim(Decoded(WithoutControls(Stripped(s))))
  }

  function SanitizedAddressField(s: string): string {
    Trim(Decoded(WithoutControls(s)))
  }

  /** `SanitizeHeader` on arbitrary bytes; tag stripping leaves valid UTF-8. */
  function HeaderBytes(s: seq<Byte>): seq<Byte> {
    EncodeText(Trim(Decoded(WithoutControls(CleanText(DecodeText(Scanned(s)))))))
  }

  /** `SanitizeAddressField` on arbitrary bytes, invalid ones included. */
  function AddressFieldBytes(s: seq<Byte>): seq<Byte> {
    TrimBytes(AsBytes(DecodedBytes(AsChars(Strip(s)))))
  }

  method SanitizeHeader(s: seq<Byte>) returns (out: seq<Byte>)
    ensures out == HeaderBytes(s)
  {
    hide CleanText, WithoutControls, Decoded, Trim, TrimBytes, Strip, EncodeText, DecodeText, Scanned, DecodedBytes;
    if s == [] {
      EmptyStays();
      return [];
    }
    out := StripHtml(s);
    var text := CleanText(DecodeText(Scanned(s)));
    out := StripControlChars(out);
    StripEncodedText(text);
    out := DecodeEntities(out);
    DecodedEncoded(WithoutControls(text));
    out := TrimBytes(out);
    TrimEncoded(Decoded(WithoutControls(text)));
  }

  lemma EmptyStays()
    ensures HeaderBytes([]) == [] && AddressFieldBytes([]) == []
  {
    assert AsChars([]) == "" && HtmlScanner.Scan("", HtmlScanner.InText) == "" && CleanText("") == "";
  }

  method SanitizeAddressField(s: seq<Byte>) returns (out: seq<Byte>)
    ensures out == AddressFieldBytes(s)
  {
    hide TrimBytes, Strip, DecodedBytes;
    if s == [] {
      EmptyStays();
      return [];
    }
    out := StripControlChars(s);
    out := DecodeEntities(out);
    out := TrimBytes(out);
  }

  lemma {:induction false} DecodedEncoded(t: string)
    ensures AsBytes(DecodedBytes(AsChars(EncodeText(t)))) == EncodeText(Decoded(t))
  {
    hide DecodedBytes, Decoded, EncodeText, TextBytes;
    TextBytesAreEncoded(t);
    DecodedCommutes(t);
    TextBytesAreEncoded(Decoded(t));
    BytesOfChars(EncodeText(Decoded(t)));
  }

  /** On the bytes of a text both fields are sanitised as that text. */
  lemma {:induction false} SanitizedText(t: string)
    ensures HeaderBytes(EncodeText(t)) == EncodeText(SanitizedHeader(t))
    ensures AddressFieldBytes(EncodeText(t)) == EncodeText(SanitizedAddressField(t))
  {
    hide CleanText, WithoutControls, Decoded, Trim, TrimBytes, Strip, EncodeText, DecodeText, Scanned, DecodedBytes;
    StrippedText(t);
    DecodeEncodedText(HtmlScanner.Scan(t, HtmlScanner.InText));
    StripEncodedText(t);
    DecodedEncoded(WithoutControls(t));
    TrimEncoded(Decoded(WithoutControls(t)));
  }

  // ---------------------------------------------------------------------------
  // Escaped text comes through
  // ---------------------------------------------------------------------------

  lemma {:induction false} EscapeConcat(a: string, b: string)
    ensures Escape(a + b) == Escape(a) + Escape(b)
  {
    hide EscapeChar;
    if a == "" {
      assert a + b == b;
    } else {
      assert (a + b)[1..] == a[1..] + b;
      EscapeConcat(a[1..], b);
    }
  }

  /** Escaping leaves no '<' and adds neither white space nor control characters. */
  lemma {:induction false} EscapeCharFacts(c: char)
    ensures EscapeChar(c) != "" && '<' !in EscapeChar(c)
    ensures EscapeChar(c) == [c] || (!IsSpace(c) && !IsControl(c as int))
    ensures EscapeChar(c) != [c] ==>
            forall x :: x in EscapeChar(c) ==> !IsSpace(x) && !IsControl(x as int)
  {
  }

  lemma {:induction false} EscapeHasNoMark(t: string)
    ensures '<' !in Escape(t)
  {
    hide EscapeChar;
    if t != "" {
      EscapeCharFacts(t[0]);
      EscapeHasNoMark(t[1..]);
    }
  }

  lemma {:induction false} EscapeOfSpace(w: string)
    requires AllSpace(w)
    ensures Escape(w) == w
  {
    hide EscapeChar;
    if w != "" {
      assert w[0] in w;
      EscapeCharFacts(w[0]);
      EscapeOfSpace(w[1..]);
    }
  }

  lemma {:induction false} EscapeTrimmed(s: string)
    requires Trimmed(s)
    ensures Trimmed(Escape(s)) && (Escape(s) == "" <==> s == "")
  {
    hide EscapeChar;
    if s != "" {
      var n := |s| - 1;
      EscapeCharFacts(s[0]);
      EscapeCharFacts(s[n]);
      EscapeConcat(s[..n], [s[n]]);
      assert s == s[..n] + [s[n]];
      assert Escape([s[n]]) == EscapeChar(s[n]);
      assert Escape(s)[0] == EscapeChar(s[0])[0];
      assert Escape(s)[|Escape(s)| - 1] == EscapeChar(s[n])[|EscapeChar(s[n])| - 1];
    }
  }

  lemma {:induction false} TrimEscape(s: string)
    ensures Trim(Escape(s)) == Escape(Trim(s))
  {
    hide Trim, Escape;
    var w, w' := TrimSplit(s);
    EscapeConcat(w + Trim(s), w');
    EscapeConcat(w, Trim(s));
    EscapeOfSpace(w);
    EscapeOfSpace(w');
    EscapeTrimmed(Trim(s));
    TrimPad(w, Escape(Trim(s)), w');
  }

  function EscapeAll(ls: seq<string>): seq<string> {
    if ls == [] then [] else [Escape(ls[0])] + EscapeAll(ls[1..])
  }

  lemma {:induction false} LinesPrefix(e: string, x: string)
    requires '\n' !in e
    ensures Lines(e + x) == [e + Lines(x)[0]] + Lines(x)[1..]
  {
    if e == "" {
      assert e + x == x && e + Lines(x)[0] == Lines(x)[0];
    } else {
      assert e[0] in e && forall c :: c in e[1..] ==> c in e;
      assert (e + x)[1..] == e[1..] + x;
      LinesPrefix(e[1..], x);
      assert [e[0]] + (e[1..] + Lines(x)[0]) == e + Lines(x)[0];
    }
  }

  lemma {:induction false} LinesEscape(t: string)
    ensures Lines(Escape(t)) == EscapeAll(Lines(t))
  {
    hide EscapeChar;
    if t != "" {
      var c, x := t[0], Escape(t[1..]);
      var ls := Lines(t[1..]);
      LinesEscape(t[1..]);
      EscapeCharFacts(c);
      assert ls == [ls[0]] + ls[1..];
      if c == '\n' {
        assert Escape(t) == "\n" + x && ("\n" + x)[1..] == x;
        assert EscapeAll([""] + ls) == [""] + EscapeAll(ls);
      } else {
        LinesPrefix(EscapeChar(c), x);
        assert Escape([c] + ls[0]) == EscapeChar(c) + Escape(ls[0]) by { assert ([c] + ls[0])[1..] == ls[0]; }
        assert EscapeAll([[c] + ls[0]] + ls[1..]) == [Escape([c] + ls[0])] + EscapeAll(ls[1..]);
      }
    }
  }

  lemma {:induction false} KeptEscape(ls: seq<string>)
    ensures Kept(EscapeAll(ls)) == EscapeAll(Kept(ls))
  {
    hide Trim, Escape;
    if ls != [] {
      KeptEscape(ls[1..]);
      TrimEscape(ls[0]);
      TrimIdempotent(ls[0]);
      EscapeTrimmed(Trim(ls[0]));
      var k := Kept(ls[1..]);
      assert EscapeAll(ls)[0] == Escape(ls[0]) && EscapeAll(ls)[1..] == EscapeAll(ls[1..]);
      assert EscapeAll([Trim(ls[0])] + k) == [Escape(Trim(ls[0]))] + EscapeAll(k);
      if Trim(ls[0]) == "" {
        assert Kept(ls) == k && Kept(EscapeAll(ls)) == Kept(EscapeAll(ls[1..]));
      }
    }
  }

  lemma {:induction false} JoinEscape(ls: seq<string>)
    ensures Join(EscapeAll(ls)) == Escape(Join(ls))
  {
    hide Escape;
    if ls == [] {
      EscapeOfSpace("");
    } else if |ls| == 1 {
      assert EscapeAll(ls) == [Escape(ls[0])];
    } else {
      JoinEscape(ls[1..]);
      EscapeConcat(ls[0], "\n" + Join(ls[1..]));
      EscapeConcat("\n", Join(ls[1..]));
      EscapeOfSpace("\n");
      JoinCons(Escape(ls[0]), EscapeAll(ls[1..]));
    }
  }

  /** Cleaning up and escaping commute. */
  lemma {:induction false} CleanTextEscape(t: string)
    ensures CleanText(Escape(t)) == Escape(CleanText(t))
  {
    hide Lines, Kept, Join, Escape;
    LinesEscape(t);
    KeptEscape(Lines(t));
    JoinEscape(Kept(Lines(t)));
  }

  lemma {:induction false} WithoutControlsConcat(a: string, b: string)
    ensures WithoutControls(a + b) == WithoutControls(a) + WithoutControls(b)
  {
    hide IsControl;
    if a == "" {
      assert a + b == b;
    } else {
      assert (a + b)[1..] == a[1..] + b;
      WithoutControlsConcat(a[1..], b);
    }
  }

  lemma {:induction false} WithoutControlsFixed(t: string)
    requires forall c :: c in t ==> !IsControl(c as int)
    ensures WithoutControls(t) == t
  {
    hide IsControl;
    if t != "" {
      assert t[0] in t && forall c :: c in t[1..] ==> c in t;
      WithoutControlsFixed(t[1..]);
      assert [t[0]] + t[1..] == t;
    }
  }

  lemma {:induction false} WithoutControlsEscape(t: string)
    ensures WithoutControls(Escape(t)) == Escape(WithoutControls(t))
  {
    hide IsControl, EscapeChar;
    if t != "" {
      var c := t[0];
      EscapeCharFacts(c);
      WithoutControlsEscape(t[1..]);
      WithoutControlsConcat(EscapeChar(c), Escape(t[1..]));
      if EscapeChar(c) != [c] { WithoutControlsFixed(EscapeChar(c)); }
      if IsControl(c as int) {
        assert WithoutControls([c]) == "";
        assert WithoutControls(t) == WithoutControls(t[1..]);
      } else {
        if EscapeChar(c) == [c] { WithoutControlsFixed([c]); }
        var x := WithoutControls(t[1..]);
        assert WithoutControls(t) == [c] + x && ([c] + x)[1..] == x;
      }
    }
  }

  /**
    Escaped text comes through a header as the text itself, cleaned up and without its
    control characters: none of it is mistaken for markup.
   */
  lemma {:induction false} SanitizedEscape(t: string)
    ensures SanitizedHeader(Escape(t)) == Trim(WithoutControls(CleanText(t)))
  {
    hide CleanText, WithoutControls, Decoded, Escape, Trim;
    EscapeHasNoMark(t);
    StrippedPlain(Escape(t));
    CleanTextEscape(t);
    WithoutControlsEscape(CleanText(t));
    DecodedEscape(WithoutControls(CleanText(t)));
  }

  /** For text without control characters only the clean-up is left. */
  lemma {:induction false} SanitizedEscapeControlFree(t: string)
    requires forall c :: c in t ==> !IsControl(c as int)
    ensures SanitizedHeader(Escape(t)) == CleanText(t)
  {
    SanitizedEscape(t);
    CleanTextSubsequence(t);
    SubsequenceMembers(CleanText(t), t);
    WithoutControlsFixed(CleanText(t));
    KeptClean(Lines(t));
    JoinTrimmed(Kept(Lines(t)));
    TrimFixed(CleanText(t));
  }
}
