/**
  `DecodeEntities`: named and numeric HTML character references, with the wrap-around
  of the program's 32-bit accumulator.
 */
module Entities {
  import opened Text
  import opened Decimal

  /** The named references apart from the five special characters. */
  const LATIN_MARKS: map<string, char> := map[
    "&nbsp;" := '\U{A0}', "&iexcl;" := '\U{A1}', "&cent;" := '\U{A2}', "&pound;" := '\U{A3}',
    "&curren;" := '\U{A4}', "&yen;" := '\U{A5}', "&brvbar;" := '\U{A6}', "&sect;" := '\U{A7}',
    "&uml;" := '\U{A8}', "&copy;" := '\U{A9}', "&ordf;" := '\U{AA}', "&laquo;" := '\U{AB}', "&not;" := '\U{AC}',
    "&shy;" := '\U{AD}'
  ]

  const LATIN_SIGNS: map<string, char> := map[
    "&reg;" := '\U{AE}', "&macr;" := '\U{AF}', "&deg;" := '\U{B0}', "&plusmn;" := '\U{B1}',
    "&sup2;" := '\U{B2}', "&sup3;" := '\U{B3}', "&acute;" := '\U{B4}', "&micro;" := '\U{B5}',
    "&para;" := '\U{B6}', "&middot;" := '\U{B7}', "&cedil;" := '\U{B8}', "&sup1;" := '\U{B9}',
    "&ordm;" := '\U{BA}', "&raquo;" := '\U{BB}'
  ]

  const PUNCTUATION: map<string, char> := map[
    "&frac14;" := '\U{BC}', "&frac12;" := '\U{BD}', "&frac34;" := '\U{BE}', "&iquest;" := '\U{BF}',
    "&times;" := '\U{D7}', "&divide;" := '\U{F7}', "&ndash;" := '\U{2013}', "&mdash;" := '\U{2014}',
    "&lsquo;" := '\U{2018}', "&rsquo;" := '\U{2019}', "&sbquo;" := '\U{201A}', "&ldquo;" := '\U{201C}',
    "&rdquo;" := '\U{201D}', "&bdquo;" := '\U{201E}'
  ]

  const SYMBOLS: map<string, char> := map[
    "&bull;" := '\U{2022}', "&hellip;" := '\U{2026}', "&prime;" := '\U{2032}', "&Prime;" := '\U{2033}',
    "&euro;" := '\U{20AC}', "&trade;" := '\U{2122}', "&larr;" := '\U{2190}', "&uarr;" := '\U{2191}',
    "&rarr;" := '\U{2192}', "&darr;" := '\U{2193}', "&spades;" := '\U{2660}', "&clubs;" := '\U{2663}',
    "&hearts;" := '\U{2665}', "&diams;" := '\U{2666}'
  ]

  const OTHER_ENTITIES: map<string, char> := LATIN_MARKS + LATIN_SIGNS + PUNCTUATION + SYMBOLS

  function NamedEntity(entity: string): Option<char> {
    if entity == "&amp;" then Some('&')
    else if entity == "&lt;" then Some('<')
    else if entity == "&gt;" then Some('>')
    else if entity == "&quot;" then Some('"')
    else if entity == "&apos;" then Some('\'')
    else if entity in OTHER_ENTITIES then Some(OTHER_ENTITIES[entity])
    else None
  }

  /** Arithmetic of `uint32`. */
  function Wrap(n: nat): uint32 {
    n % 0x1_0000_0000
  }

  function HexDigit(c: char): nat {
    if '0' <= c <= '9' then c as int - '0' as int
    else if 'a' <= c <= 'f' then c as int - 'a' as int + 10
    else if 'A' <= c <= 'F' then c as int - 'A' as int + 10
    else 0
  }

  /** Every character shifts the accumulator; one that is no hex digit adds nothing. */
  function HexStep(cp: uint32, c: char): uint32 {
    Wrap(Wrap(cp * 16) + HexDigit(c))
  }

  /** Characters that are no digits are skipped. */
  function DecStep(cp: uint32, c: char): uint32 {
    if IsDigit(c) then Wrap(Wrap(cp * 10) + DigitValue(c)) else cp
  }

  function HexValue(s: string): uint32 {
    if s == "" then 0 else HexStep(HexValue(s[..|s| - 1]), s[|s| - 1])
  }

  function DecValue(s: string): uint32 {
    if s == "" then 0 else DecStep(DecValue(s[..|s| - 1]), s[|s| - 1])
  }

  /** A code point that may be written out: not zero, in range, no surrogate. */
  predicate IsWritable(cp: uint32) {
    0 < cp <= 0x10FFFF && !(0xD800 <= cp <= 0xDFFF)
  }

  function NumericValue(entity: string): uint32
    requires |entity| > 3
  {
    if entity[2] == 'x' || entity[2] == 'X' then HexValue(entity[3..|entity| - 1])
    else DecValue(entity[2..|entity| - 1])
  }

  /** What one `&...;` stretch becomes. */
  function EntityText(entity: string): string {
    if |entity| > 3 && entity[1] == '#' then
      var cp := NumericValue(entity);
      if IsWritable(cp) then [cp as char] else entity
    else
      match NamedEntity(entity)
      case Some(c) => [c]
      case None => entity
  }

  /** How many characters the loop takes at once: a whole `&...;` or a single one. */
  function UnitLength(s: string): (n: nat)
    requires s != ""
    ensures 1 <= n <= |s|
  {
    var semi := IndexOf(s[1..], ";");
    if s[0] == '&' && semi >= 0 then semi + 2 else 1
  }

  function UnitText(s: string): string
    requires s != ""
  {
    if UnitLength(s) == 1 then [s[0]] else EntityText(s[..UnitLength(s)])
  }

  function Decoded(s: string): string {
    if s == "" then "" else UnitText(s) + Decoded(s[UnitLength(s)..])
  }

  lemma {:induction false} DecodedPlain(s: string)
    requires '&' !in s
    ensures Decoded(s) == s
  {
    hide EntityText;
    if s != "" { DecodedPlain(s[1..]); }
  }

  // ---------------------------------------------------------------------------
  // Round trips
  // ---------------------------------------------------------------------------

  /** A reference is decoded as one unit, whatever follows. */
  lemma {:induction false} DecodedReference(body: string, rest: string)
    requires ';' !in body
    ensures Decoded("&" + (body + ";" + rest)) == EntityText("&" + body + ";") + Decoded(rest)
  {
    hide EntityText, IndexOf, At;
    var w := "&" + (body + ";" + rest);
    assert w[1..] == body + ";" + rest;
    SemicolonBehind(body, rest);
    assert w[..|body| + 2] == "&" + body + ";";
    assert w[|body| + 2..] == rest;
  }

  lemma {:induction false} SemicolonBehind(body: string, rest: string)
    requires ';' !in body
    ensures IndexOf(body + ";" + rest, ";") == |body|
  {
    hide IndexOf, At;
    var s := body + ";" + rest;
    assert s[|body|] == ';' && s[..|body|] == body;
    FirstChar(s, ';', |body|);
  }

  function EscapeName(c: char): string {
    match c
    case '&' => "amp"
    case '<' => "lt"
    case '>' => "gt"
    case '"' => "quot"
    case '\'' => "apos"
    case _ => ""
  }

  function EscapeChar(c: char): string {
    if EscapeName(c) == "" then [c] else "&" + EscapeName(c) + ";"
  }

  /** The usual escaping of the five special characters. */
  function Escape(t: string): string {
    if t == "" then "" else EscapeChar(t[0]) + Escape(t[1..])
  }

  lemma NamedFive()
    ensures NamedEntity("&amp;") == Some('&') && NamedEntity("&lt;") == Some('<')
    ensures NamedEntity("&gt;") == Some('>') && NamedEntity("&quot;") == Some('"')
    ensures NamedEntity("&apos;") == Some('\'')
  {
  }

  lemma {:induction false} EscapeNames(c: char)
    requires EscapeName(c) != ""
    ensures EntityText("&" + EscapeName(c) + ";") == [c]
    ensures ';' !in EscapeName(c)
  {
    hide NamedEntity;
    NamedFive();
    match c
    case '&' => assert "&" + "amp" + ";" == "&amp;";
    case '<' => assert "&" + "lt" + ";" == "&lt;";
    case '>' => assert "&" + "gt" + ";" == "&gt;";
    case '"' => assert "&" + "quot" + ";" == "&quot;";
    case '\'' => assert "&" + "apos" + ";" == "&apos;";
  }

  lemma {:induction false} DecodedPlainChar(c: char, rest: string)
    requires c != '&'
    ensures Decoded([c] + rest) == [c] + Decoded(rest)
  {
    assert ([c] + rest)[1..] == rest;
  }

  lemma SpecialCharsHaveNames()
    ensures EscapeName('&') != "" && EscapeName('<') != ""
  {
  }

  /** Decoding undoes escaping. */
  lemma {:induction false} DecodedEscape(t: string)
    ensures Decoded(Escape(t)) == t
  {
    hide EntityText, EscapeName, Decoded;
    if t == "" {
      DecodedPlain("");
    } else {
      var c, rest := t[0], Escape(t[1..]);
      DecodedEscape(t[1..]);
      if EscapeName(c) == "" {
        SpecialCharsHaveNames();
        DecodedPlainChar(c, rest);
      } else {
        EscapeNames(c);
        DecodedReference(EscapeName(c), rest);
        assert Escape(t) == "&" + (EscapeName(c) + ";" + rest);
      }
    }
  }

  // ---------------------------------------------------------------------------
  // Numeric references
  // ---------------------------------------------------------------------------

  /** `&#` decimal `;` for every character. */
  function References(t: string): string {
    if t == "" then "" else "&" + (("#" + Numeral(t[0] as int)) + ";" + References(t[1..]))
  }

  function HexChar(d: nat, upper: bool): (c: char)
    requires d < 16
    ensures HexDigit(c) == d && c != ';' && c != 'x'
  {
    if d < 10 then ('0' as int + d) as char
    else ((if upper then 'A' as int else 'a' as int) + d - 10) as char
  }

  function HexNumeral(n: nat, upper: bool): (s: string)
    ensures s != "" && ';' !in s
  {
    (if n < 16 then "" else HexNumeral(n / 16, upper)) + [HexChar(n % 16, upper)]
  }

  /** `&#x` hexadecimal `;` for every character. */
  function HexReferences(t: string, upper: bool): string {
    if t == "" then ""
    else "&" + (("#x" + HexNumeral(t[0] as int, upper)) + ";" + HexReferences(t[1..], upper))
  }

  lemma {:induction false} DecStepExact(n: uint32)
    ensures DecStep(n / 10, DigitChar(n % 10)) == n
  {
    assert n == n / 10 * 10 + n % 10;
  }

  lemma {:induction false} HexStepExact(n: uint32, upper: bool)
    ensures HexStep(n / 16, HexChar(n % 16, upper)) == n
  {
    hide HexChar, HexDigit;
    assert n == n / 16 * 16 + n % 16;
  }

  /** Numbers below 2^32 are read without wrap-around. */
  lemma {:induction false} DecValueOfNumeral(n: uint32)
    ensures DecValue(Numeral(n)) == n
  {
    hide DecStep, DigitChar;
    var s := Numeral(n);
    DecStepExact(n);
    assert s[|s| - 1] == DigitChar(n % 10);
    if n >= 10 {
      DecValueOfNumeral(n / 10);
      assert s[..|s| - 1] == Numeral(n / 10);
    } else {
      assert s[..|s| - 1] == "";
    }
  }

  lemma {:induction false} HexValueOfNumeral(n: uint32, upper: bool)
    ensures HexValue(HexNumeral(n, upper)) == n
  {
    hide HexStep, HexChar, HexDigit;
    var s := HexNumeral(n, upper);
    HexStepExact(n, upper);
    assert s[|s| - 1] == HexChar(n % 16, upper);
    if n >= 16 {
      HexValueOfNumeral(n / 16, upper);
      assert s[..|s| - 1] == HexNumeral(n / 16, upper);
    } else {
      assert s[..|s| - 1] == "";
    }
  }

  lemma {:induction false} DecimalEntity(c: char)
    requires c != '\0'
    ensures EntityText("&" + ("#" + Numeral(c as int)) + ";") == [c]
    ensures ';' !in "#" + Numeral(c as int)
  {
    hide Numeral, DecValue, HexValue, NamedEntity;
    var n := Numeral(c as int);
    var e := "&" + ("#" + n) + ";";
    assert e[2] == n[0] && e[2..|e| - 1] == n;
    DecValueOfNumeral(c as int);
    assert ';' !in n;
  }

  lemma {:induction false} HexEntity(c: char, upper: bool)
    requires c != '\0'
    ensures EntityText("&" + ("#x" + HexNumeral(c as int, upper)) + ";") == [c]
    ensures ';' !in "#x" + HexNumeral(c as int, upper)
  {
    hide HexNumeral, DecValue, HexValue, NamedEntity;
    var n := HexNumeral(c as int, upper);
    var e := "&" + ("#x" + n) + ";";
    assert e[2] == 'x' && e[3..|e| - 1] == n;
    HexValueOfNumeral(c as int, upper);
  }

  /** Decoding undoes decimal references, for every text without NUL. */
  lemma {:induction false} DecodedReferences(t: string)
    requires '\0' !in t
    ensures Decoded(References(t)) == t
  {
    hide EntityText, Decoded, Numeral;
    if t == "" {
      DecodedPlain("");
    } else {
      DecimalEntity(t[0]);
      DecodedReference("#" + Numeral(t[0] as int), References(t[1..]));
      DecodedReferences(t[1..]);
    }
  }

  /** Decoding undoes hexadecimal references with digits of either case. */
  lemma {:induction false} DecodedHexReferences(t: string, upper: bool)
    requires '\0' !in t
    ensures Decoded(HexReferences(t, upper)) == t
  {
    hide EntityText, Decoded, HexNumeral;
    if t == "" {
      DecodedPlain("");
    } else {
      HexEntity(t[0], upper);
      DecodedReference("#x" + HexNumeral(t[0] as int, upper), HexReferences(t[1..], upper));
      DecodedHexReferences(t[1..], upper);
    }
  }
}
