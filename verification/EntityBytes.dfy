/**
  `DecodeEntities` as the program runs it, over arbitrary bytes; on the bytes of a text it
  does what `Decoded` does on the characters.
 */
module EntityBytes {
  import opened Text
  import opened Decimal
  import opened ByteText
  import opened Entities
  import opened Utf8

  /** The digits are read rune by rune, U+FFFD for an invalid byte. */
  function Runes(s: string): string {
    DecodeText(AsBytes(s))
  }

  function NumericBytes(entity: string): uint32
    requires |entity| > 3
  {
    if entity[2] == 'x' || entity[2] == 'X' then HexValue(Runes(entity[3..|entity| - 1]))
    else DecValue(Runes(entity[2..|entity| - 1]))
  }

  function ReferenceBytes(entity: string): string {
    if |entity| > 3 && entity[1] == '#' then
      var cp := NumericBytes(entity);
      if IsWritable(cp) then CharBytes(cp as char) else entity
    else
      match NamedEntity(entity)
      case Some(c) => CharBytes(c)
      case None => entity
  }

  function UnitBytes(s: string): string
    requires s != ""
  {
    if UnitLength(s) == 1 then [s[0]] else ReferenceBytes(s[..UnitLength(s)])
  }

  function DecodedBytes(s: string): string {
    if s == "" then "" else UnitBytes(s) + DecodedBytes(s[UnitLength(s)..])
  }

  // ---------------------------------------------------------------------------
  // The loops of the program
  // ---------------------------------------------------------------------------

  method ReadNumber(entity: string) returns (cp: uint32)
    requires |entity| > 3
    ensures cp == NumericBytes(entity)
  {
    cp := 0;
    if entity[2] == 'x' || entity[2] == 'X' {
      var s := Runes(entity[3..|entity| - 1]);
      for i := 0 to |s|
        invariant cp == HexValue(s[..i])
      {
        assert s[..i + 1][..i] == s[..i];
        cp := Wrap(cp * 16);
        cp := Wrap(cp + HexDigit(s[i]));
      }
      assert s[..|s|] == s;
    } else {
      var s := Runes(entity[2..|entity| - 1]);
      for i := 0 to |s|
        invariant cp == DecValue(s[..i])
      {
        assert s[..i + 1][..i] == s[..i];
        if IsDigit(s[i]) { cp := Wrap(Wrap(cp * 10) + DigitValue(s[i])); }
      }
      assert s[..|s|] == s;
    }
  }

  method DecodeEntity(entity: string) returns (text: string)
    ensures text == ReferenceBytes(entity)
  {
    hide NamedEntity, NumericBytes;
    if |entity| > 3 && entity[1] == '#' {
      var cp := ReadNumber(entity);
      if IsWritable(cp) { return CharBytes(cp as char); }
      return entity;
    }
    match NamedEntity(entity)
    case Some(c) => return CharBytes(c);
    case None => return entity;
  }

  lemma {:induction false} DecodedPlainBytes(s: string)
    requires '&' !in s
    ensures DecodedBytes(s) == s
  {
    hide ReferenceBytes;
    if s != "" { DecodedPlainBytes(s[1..]); }
  }

  method DecodeUnit(s: string, i: nat) returns (text: string, next: nat)
    requires i < |s|
    ensures text == UnitBytes(s[i..]) && next == i + UnitLength(s[i..])
  {
    hide ReferenceBytes;
    text, next := [s[i]], i + 1;
    assert s[i..][1..] == s[i + 1..];
    if s[i] == '&' {
      var semi := IndexOf(s[i + 1..], ";");
      if semi >= 0 {
        semi := semi + i + 1;
        assert s[i..semi + 1] == s[i..][..semi - i + 1];
        text := DecodeEntity(s[i..semi + 1]);
        next := semi + 1;
      }
    }
  }

  method DecodeEntities(bytes: seq<Byte>) returns (out: seq<Byte>)
    ensures out == AsBytes(DecodedBytes(AsChars(bytes)))
  {
    hide UnitBytes, UnitLength;
    var s := AsChars(bytes);
    if s == "" || '&' !in s {
      DecodedPlainBytes(s);
      BytesOfChars(bytes);
      return bytes;
    }
    var text := "";
    var i := 0;
    while i < |s|
      invariant 0 <= i <= |s| && text + DecodedBytes(s[i..]) == DecodedBytes(s)
    {
      var unit, next := DecodeUnit(s, i);
      assert s[i..][next - i..] == s[next..];
      assert text + (unit + DecodedBytes(s[next..])) == (text + unit) + DecodedBytes(s[next..]);
      text, i := text + unit, next;
    }
    out := AsBytes(text);
  }

  lemma {:induction false} UnitAreBytes(s: string)
    requires s != "" && AreBytes(s)
    ensures AreBytes(UnitBytes(s))
  {
    hide NamedEntity, NumericBytes, CharBytes, UnitLength;
    var n := UnitLength(s);
    assert s[0] in s;
    assert forall c :: c in s[..n] ==> c in s;
  }

  /** Decoding turns bytes into bytes. */
  lemma {:induction false} DecodedAreBytes(s: string)
    requires AreBytes(s)
    ensures AreBytes(DecodedBytes(s))
  {
    hide UnitBytes, UnitLength;
    if s != "" {
      var n := UnitLength(s);
      UnitAreBytes(s);
      assert forall c :: c in s[n..] ==> c in s;
      DecodedAreBytes(s[n..]);
    }
  }

  // ---------------------------------------------------------------------------
  // The bytes of a text
  // ---------------------------------------------------------------------------

  lemma {:induction false} RunesOfText(t: string)
    ensures Runes(TextBytes(t)) == t
  {
    TextBytesAreEncoded(t);
    BytesOfChars(EncodeText(t));
    DecodeEncodedText(t);
  }

  lemma MarksAscii()
    ensures forall e :: e in LATIN_MARKS ==> AllAscii(e)
  {
  }

  lemma SignsAscii()
    ensures forall e :: e in LATIN_SIGNS ==> AllAscii(e)
  {
  }

  lemma PunctuationAscii()
    ensures forall e :: e in PUNCTUATION ==> AllAscii(e)
  {
  }

  lemma SymbolsAscii()
    ensures forall e :: e in SYMBOLS ==> AllAscii(e)
  {
  }

  lemma NamesAreAscii()
    ensures forall e :: NamedEntity(e).Some? ==> AllAscii(e)
  {
    hide LATIN_MARKS, LATIN_SIGNS, PUNCTUATION, SYMBOLS;
    MarksAscii();
    SignsAscii();
    PunctuationAscii();
    SymbolsAscii();
  }

  /** A text with ASCII bytes is ASCII. */
  lemma {:induction false} AsciiBytes(t: string)
    requires AllAscii(TextBytes(t))
    ensures TextBytes(t) == t && AllAscii(t)
  {
    hide CharBytes;
    if t != "" {
      FirstByte(t);
      assert TextBytes(t)[0] in TextBytes(t);
      assert forall c :: c in TextBytes(t[1..]) ==> c in TextBytes(t);
      AsciiBytes(t[1..]);
    }
  }

  lemma {:induction false} NameCommutes(e: string)
    ensures NamedEntity(TextBytes(e)) == NamedEntity(e)
  {
    hide NamedEntity, TextBytes, AllAscii;
    NamesAreAscii();
    if AllAscii(e) { TextBytesAscii(e); }
    if AllAscii(TextBytes(e)) { AsciiBytes(e); }
  }

  /** What stands between `&` and `;`. */
  lemma {:induction false} ReferenceParts(mid: string)
    ensures TextBytes("&" + mid + ";") == "&" + TextBytes(mid) + ";"
  {
    hide TextBytes;
    assert AllAscii("&") && AllAscii(";");
    TextBytesConcat("&" + mid, ";");
    TextBytesConcat("&", mid);
    TextBytesAscii("&");
    TextBytesAscii(";");
  }

  lemma {:induction false} NumericCommutes(mid: string)
    requires |mid| >= 2 && mid[0] == '#' && |TextBytes(mid)| >= 2
    ensures NumericBytes("&" + TextBytes(mid) + ";") == NumericValue("&" + mid + ";")
  {
    hide TextBytes, HexValue, DecValue, Runes;
    var e, b := "&" + mid + ";", "&" + TextBytes(mid) + ";";
    FirstByte(mid);
    FirstByte(mid[1..]);
    assert e[2] == mid[1] == mid[1..][0] && b[2] == TextBytes(mid)[1] == TextBytes(mid[1..])[0];
    assert e[2..|e| - 1] == mid[1..] && b[2..|b| - 1] == TextBytes(mid)[1..];
    RunesOfText(mid[1..]);
    if e[2] == 'x' || e[2] == 'X' {
      assert e[3..|e| - 1] == mid[1..][1..] && b[3..|b| - 1] == TextBytes(mid[1..])[1..];
      RunesOfText(mid[1..][1..]);
    }
  }

  lemma {:induction false} ReferenceCommutes(mid: string)
    ensures ReferenceBytes("&" + TextBytes(mid) + ";") == TextBytes(EntityText("&" + mid + ";"))
  {
    hide TextBytes, NumericBytes, NumericValue, NamedEntity, CharBytes;
    var e := "&" + mid + ";";
    ReferenceParts(mid);
    NameCommutes(e);
    OneCharBytes();
    TextBytesLength(mid);
    if mid != "" {
      FirstByte(mid);
      TextBytesLength(mid[1..]);
      if mid[0] == '#' && |mid| >= 2 { NumericCommutes(mid); }
    }
  }

  lemma OneCharBytes()
    ensures forall c: char :: TextBytes([c]) == CharBytes(c)
  {
    hide CharBytes;
    forall c: char
      ensures TextBytes([c]) == CharBytes(c)
    {
      assert [c][1..] == "" && TextBytes("") == "";
    }
  }

  lemma {:induction false} DecodedOthers(x: string, rest: string)
    requires '&' !in x
    ensures DecodedBytes(x + rest) == x + DecodedBytes(rest)
  {
    hide ReferenceBytes;
    if x == "" {
      assert x + rest == rest;
    } else {
      assert (x + rest)[0] == x[0] && x[0] in x && (x + rest)[1..] == x[1..] + rest;
      DecodedOthers(x[1..], rest);
    }
  }

  /** Decoding the bytes of a text gives the bytes of the decoded text. */
  lemma {:induction false} DecodedCommutes(t: string)
    ensures DecodedBytes(TextBytes(t)) == TextBytes(Decoded(t))
    decreases |t|
  {
    hide TextBytes, CharBytes, ReferenceBytes, EntityText, IndexOf;
    if t == "" {
      assert TextBytes("") == "" by { TextBytesLength(""); }
    } else {
      TextBytesHead(t);
      if t[0] == '&' && IndexOf(t[1..], ";") >= 0 {
        ReferenceUnit(t);
        DecodedCommutes(t[UnitLength(t)..]);
        TextBytesConcat(UnitText(t), Decoded(t[UnitLength(t)..]));
      } else {
        DecodedCommutes(t[1..]);
        OtherUnit(t);
      }
    }
  }

  lemma {:induction false} ReferenceUnit(t: string)
    requires t != "" && t[0] == '&' && IndexOf(t[1..], ";") >= 0
    ensures TextBytes(t) != ""
    ensures DecodedBytes(TextBytes(t)) == TextBytes(UnitText(t)) + DecodedBytes(TextBytes(t[UnitLength(t)..]))
  {
    hide TextBytes, CharBytes, ReferenceBytes, EntityText, IndexOf, At;
    var i := IndexOf(t[1..], ";");
    SemicolonAt(t[1..]);
    var mid, rest := t[1..][..i], t[1..][i + 1..];
    assert t == "&" + mid + ";" + rest && t[..i + 2] == "&" + mid + ";" && t[i + 2..] == rest;
    ReferenceParts(mid);
    TextBytesConcat("&" + mid + ";", rest);
    IndexCommutes(t[1..], ";");
    FirstByte(t);
    ReferenceCommutes(mid);
    var b, m := TextBytes(t), TextBytes(mid);
    assert b == "&" + m + ";" + TextBytes(rest);
    assert UnitLength(b) == |m| + 2;
    assert b[..|m| + 2] == "&" + m + ";" && b[|m| + 2..] == TextBytes(rest);
  }

  lemma {:induction false} SemicolonAt(s: string)
    requires IndexOf(s, ";") >= 0
    ensures IndexOf(s, ";") < |s| && s[IndexOf(s, ";")] == ';'
  {
    hide IndexOf;
    AtChar(s, ';');
  }

  lemma {:induction false} OtherUnit(t: string)
    requires t != "" && !(t[0] == '&' && IndexOf(t[1..], ";") >= 0)
    ensures DecodedBytes(TextBytes(t)) == CharBytes(t[0]) + DecodedBytes(TextBytes(t[1..]))
    ensures TextBytes(Decoded(t)) == CharBytes(t[0]) + TextBytes(Decoded(t[1..]))
  {
    hide TextBytes, CharBytes, ReferenceBytes, EntityText, IndexOf;
    TextBytesHead(t);
    var d := Decoded(t[1..]);
    assert Decoded(t) == [t[0]] + d && ([t[0]] + d)[1..] == d;
    TextBytesHead([t[0]] + d);
    if t[0] == '&' {
      FirstByte(t);
      IndexCommutes(t[1..], ";");
      assert CharBytes('&') == "&";
    } else {
      DecodedOthers(CharBytes(t[0]), TextBytes(t[1..]));
    }
  }
}
