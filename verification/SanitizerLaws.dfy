/**
  What the text sanitiser does to concrete text, said without the predicates of its model:
  which characters stay, which tags break a line, what malformed markup leaves, what every
  reference decodes to.
 */
module SanitizerLaws {
  import opened Text
  import opened Utf8
  import opened Decimal
  import opened HtmlScanner
  import opened HtmlTokens
  import opened CleanUp
  import opened Html
  import opened ControlChars
  import opened Entities
  import opened Header

  // ---------------------------------------------------------------------------
  // Characters
  // ---------------------------------------------------------------------------

  /** White space, character by character. */
  lemma {:induction false} SpacesListed(c: char)
    ensures IsSpace(c) <==>
            c in "\t\n\U{B}\U{C}\r \U{85}\U{A0}\U{1680}\U{2000}\U{2001}\U{2002}\U{2003}\U{2004}\U{2005}"
              || c in "\U{2006}\U{2007}\U{2008}\U{2009}\U{200A}\U{2028}\U{2029}\U{202F}\U{205F}\U{3000}"
  {
  }

  /** A capital letter becomes the small letter at the same place in the alphabet. */
  lemma {:induction false} LettersLowered(c: char)
    ensures 'A' <= c <= 'Z' ==>
              && AsciiLowerChar(c) as int - 'a' as int == c as int - 'A' as int
              && LowerChar(c) == AsciiLowerChar(c)
    ensures !('A' <= c <= 'Z') ==> AsciiLowerChar(c) == c
    ensures !('A' <= c <= 'Z') && c != '\U{130}' && c != '\U{212A}' ==> LowerChar(c) == c
  {
  }

  /** Tabs, line ends, printable ASCII and everything from U+00A0 on stay. */
  predicate IsPlain(c: char) {
    c == '\t' || c == '\n' || c == '\r' || ' ' <= c <= '~' || c >= '\U{A0}'
  }

  lemma {:induction false} PlainTextKept(t: string)
    requires forall c :: c in t ==> IsPlain(c)
    ensures Strip(EncodeText(t)) == EncodeText(t)
  {
    hide Strip, EncodeText;
    StripEncodedText(t);
    WithoutControlsFixed(t);
  }

  /** For all bytes, nothing else is left for a reader of the result. */
  lemma {:induction false} OnlyPlainLeft(s: seq<Byte>)
    ensures forall r :: r in Runes(Strip(s)) ==>
              r == 0x09 || r == 0x0A || r == 0x0D || 0x20 <= r <= 0x7E || r >= 0xA0
  {
    hide Strip, Runes;
    StripIsFinal(s);
    RunesAreScalars(Strip(s));
  }

  lemma {:induction false} RunesAreScalars(s: seq<Byte>)
    ensures forall r :: r in Runes(s) ==> 0 <= r
  {
    hide DecodeRune;
    if s != [] { RunesAreScalars(s[DecodeRune(s).size..]); }
  }

  /** A stray byte outside ASCII stays unless it is in the C1 range. */
  lemma {:induction false} StrayByte(b: Byte)
    requires b >= 0x80
    ensures Strip([b]) == if b <= 0x9F then [] else [b]
  {
    assert [b][1..] == [] && Strip([]) == [];
  }

  // ---------------------------------------------------------------------------
  // Tags
  // ---------------------------------------------------------------------------

  /** The elements that start a line of their own. */
  predicate BreaksLine(name: string) {
    || name in ["p", "div", "br", "hr", "blockquote", "pre"]
    || name in ["h1", "h2", "h3", "h4", "h5", "h6"]
    || name in ["table", "tr", "th", "td", "li", "ol", "ul", "dl", "dt", "dd"]
    || name in ["section", "article", "nav", "header", "footer", "aside"]
    || name in ["details", "summary", "figure", "figcaption"]
  }

  /** An opening or closing tag leaves a newline exactly for those, and otherwise nothing. */
  lemma {:induction false} TagsExactly(name: string, attrs: seq<Piece>, tail: string)
    ensures TokenText(Open(name, attrs)) == if BreaksLine(AsciiLower(name)) then "\n" else ""
    ensures TokenText(Close(name, tail)) == if BreaksLine(AsciiLower(name)) then "\n" else ""
  {
  }

  lemma {:induction false} LowerFixed(s: string)
    requires forall c :: c in s ==> !('A' <= c <= 'Z')
    ensures AsciiLower(s) == s
  {
    assert forall i :: 0 <= i < |s| ==> s[i] in s;
  }

  /** Digits and hyphens belong to a name: a heading breaks the line, `<p-x>` is no paragraph. */
  lemma {:induction false} NamesReadWhole(rest: string)
    ensures Scan("<h1>" + rest, InText) == "\n" + Scan(rest, InText)
    ensures Scan("<p-x>" + rest, InText) == Scan(rest, InText)
    ensures Scan("<P>" + rest, InText) == "\n" + Scan(rest, InText)
  {
    hide Scan, AsciiLower, IsBlockTag;
    SimpleTag("h1", rest);
    SimpleTag("p-x", rest);
    SimpleTag("P", rest);
    LowerFixed("h1");
    LowerFixed("p-x");
    assert AsciiLower("P") == "p";
    assert IsBlockTag("h1") && IsBlockTag("p") && !IsBlockTag("p-x") by { SomeNames(); }
    assert "<" + "h1" + ">" == "<h1>" && "<" + "p-x" + ">" == "<p-x>" && "<" + "P" + ">" == "<P>";
    assert "" + Scan(rest, InText) == Scan(rest, InText);
  }

  lemma SomeNames()
    ensures IsBlockTag("h1") && IsBlockTag("p") && !IsBlockTag("p-x")
  {
  }

  /** Letters, digits and hyphens, starting with a letter. */
  predicate IsElementName(name: string) {
    && name != "" && ('a' <= name[0] <= 'z' || 'A' <= name[0] <= 'Z')
    && forall i :: 0 <= i < |name| ==>
         'a' <= name[i] <= 'z' || 'A' <= name[i] <= 'Z' || '0' <= name[i] <= '9' || name[i] == '-'
  }

  lemma {:induction false} SimpleTag(name: string, rest: string)
    requires IsElementName(name)
    requires AsciiLower(name) != "script" && AsciiLower(name) != "style"
    ensures Scan("<" + name + ">" + rest, InText) == BlockBreak(AsciiLower(name)) + Scan(rest, InText)
  {
    hide Scan, AsciiLower, IsBlockTag;
    OpenScan(name, [], rest);
    assert PrintPieces([]) + ">" + rest == ">" + rest;
    assert "<" + (name + (">" + rest)) == "<" + name + ">" + rest;
  }

  // ---------------------------------------------------------------------------
  // Malformed markup
  // ---------------------------------------------------------------------------

  /** A '<' at the end, or before a character that starts no tag, is text. */
  lemma {:induction false} LoneMark(rest: string)
    requires rest == "" || (!('a' <= rest[0] <= 'z') && !('A' <= rest[0] <= 'Z') && rest[0] != '/' && rest[0] != '!')
    ensures Scan("<" + rest, InText) == "<" + Scan(rest, InText)
  {
    hide Scan;
    var r := "<" + rest;
    assert r[1..] == rest;
    ScanStep(r, InText);
  }

  /** An unclosed comment swallows the rest. */
  lemma {:induction false} UnclosedComment(body: string)
    requires Lacks(body, "-->")
    ensures Scan("<!--" + body, InText) == ""
  {
    hide Scan, Lacks;
    var r := "<!--" + body;
    assert r[4..] == body && r[1..][..3] == "!--";
    ScanStep(r, InText);
    CommentTail(body);
    assert "" + Scan(body, InComment) == Scan(body, InComment);
  }

  lemma {:induction false} CommentTail(body: string)
    requires Lacks(body, "-->")
    ensures Scan(body, InComment) == ""
  {
    hide Scan;
    if body != "" {
      LacksTail(body, "-->");
      ScanStep(body, InComment);
      CommentTail(body[1..]);
      assert "" + Scan(body[1..], InComment) == Scan(body[1..], InComment);
    } else {
      assert Scan("", InComment) == "" by { NothingScanned(InComment); }
    }
  }

  lemma {:induction false} NothingScanned(st: State)
    ensures Scan("", st) == ""
  {
  }

  /** A text without a pattern neither starts with it nor has it further on. */
  lemma {:induction false} LacksTail(s: string, pat: string)
    requires s != "" && Lacks(s, pat)
    ensures !(pat <= s) && Lacks(s[1..], pat)
  {
    AtTail(s, pat);
    if pat <= s { assert At(s, 0, pat); }
  }

  /** So does an unclosed tag or doctype, quotes or not, */
  lemma {:induction false} UnclosedTag(ps: seq<Piece>, st: State)
    requires GoodPieces(ps) && (st == InTag || st == InDoctype)
    ensures Scan(PrintPieces(ps), st) == ""
  {
    hide TextMove, Through;
    if ps != [] {
      UnclosedTag(ps[1..], st);
      var tail := PrintPieces(ps[1..]);
      assert GoodPiece(ps[0]);
      match ps[0]
      case Bare(c) =>
        assert ([c] + tail)[1..] == tail;
      case Quoted(q, text) =>
        QuotedScan(q, text, tail, st);
    }
  }

  /** and a script or style element without its closing tag. */
  lemma {:induction false} UnclosedRaw(body: string, kind: RawKind)
    requires Lacks(AsciiLower(body), Closing(kind))
    ensures Scan(body, RawState(kind)) == ""
  {
    hide Scan, NextMove, Through, AsciiLower, Closing, RawState, Lacks;
    var st := RawState(kind);
    if body == "" {
      NothingScanned(st);
    } else {
      AsciiLowerTail(body);
      assert AsciiLower(body) != "";
      LacksTail(AsciiLower(body), Closing(kind));
      UnclosedRaw(body[1..], kind);
      RawStep(body, kind);
      ScanStep(body, st);
      assert NextMove(body, st) == Move("", 1, st);
      assert "" + Scan(body[1..], st) == Scan(body[1..], st);
    }
  }

  /** An unclosed CDATA section is skipped up to the next '>'; without one it is text but for its '<'. */
  lemma {:induction false} UnclosedCData(body: string, rest: string)
    requires Lacks("CDATA[" + body + ">" + rest, "]]>") && '>' !in body
    ensures Scan("<![CDATA[" + body + ">" + rest, InText) == Scan(rest, InText)
  {
    hide Scan, CloseMove, OpenMove, Lacks, IndexOf, At;
    var r := "<![CDATA[" + body + ">" + rest;
    CDataStart(r, body + ">" + rest);
    assert r[3..] == "CDATA[" + body + ">" + rest;
    NotFound(r[3..], "]]>");
    assert r[..9 + |body|] == "<![CDATA[" + body && r[9 + |body|] == '>';
    assert '>' !in r[..9 + |body|];
    FirstChar(r, '>', 9 + |body|);
    ScanStep(r, InText);
    assert r[9 + |body| + 1..] == rest;
    assert "" + Scan(rest, InText) == Scan(rest, InText);
  }

  lemma {:induction false} OpenCData(body: string)
    requires '>' !in body
    ensures Scan("<![CDATA[" + body, InText) == Scan("![CDATA[" + body, InText)
  {
    hide Scan, CloseMove, OpenMove, IndexOf, At;
    var r := "<![CDATA[" + body;
    CDataStart(r, body);
    AtChar(r, '>');
    assert IndexOf(r, ">") < 0;
    NoMark(r[3..]);
    ScanStep(r, InText);
    assert r[1..] == "![CDATA[" + body;
    assert "" + Scan(r[1..], InText) == Scan(r[1..], InText);
  }

  lemma {:induction false} CDataStart(r: string, after: string)
    requires r == "<![CDATA[" + after
    ensures |r| >= 9 && r[0] == '<' && r[1] == '!' && "![CDATA[" <= r[1..] && !("!--" <= r[1..])
  {
    assert r[1..][..8] == "![CDATA[";
    assert r[1..][1] == '[';
  }

  lemma {:induction false} NotFound(s: string, pat: string)
    requires Lacks(s, pat)
    ensures IndexOf(s, pat) < 0
  {
  }

  lemma {:induction false} NoMark(s: string)
    requires '>' !in s
    ensures IndexOf(s, "]]>") < 0
  {
    hide IndexOf;
    MarkEnds(s, IndexOf(s, "]]>"));
  }

  lemma {:induction false} MarkEnds(s: string, i: int)
    ensures At(s, i, "]]>") ==> '>' in s
  {
    if At(s, i, "]]>") { assert s[i + 2] == s[i..i + 3][2]; }
  }

  // ---------------------------------------------------------------------------
  // References
  // ---------------------------------------------------------------------------

  /** What a number may be written out as: modulo 2^32, a character but NUL, or else nothing. */
  function CharOf(n: nat): Option<char> {
    var cp := n % 0x1_0000_0000;
    if 0 < cp < 0xD800 || 0xE000 <= cp < 0x11_0000 then Some(cp as char) else None
  }

  lemma {:induction false} DecimalWraps(n: nat)
    ensures DecValue(Numeral(n)) == n % 0x1_0000_0000
  {
    hide DigitChar, DecStep;
    var s := Numeral(n);
    assert s[|s| - 1] == DigitChar(n % 10);
    DigitStep(n / 10, n % 10);
    assert n == n / 10 * 10 + n % 10;
    if n >= 10 {
      DecimalWraps(n / 10);
      assert s[..|s| - 1] == Numeral(n / 10);
    } else {
      assert s[..|s| - 1] == "";
    }
  }

  lemma {:induction false} DigitStep(m: nat, d: nat)
    requires d < 10
    ensures DecStep(m % 0x1_0000_0000, DigitChar(d)) == (m * 10 + d) % 0x1_0000_0000
  {
    hide Wrap;
    DigitRead(d);
    WrapTen(m, d);
  }

  lemma {:induction false} DigitRead(d: nat)
    requires d < 10
    ensures IsDigit(DigitChar(d)) && DigitValue(DigitChar(d)) == d
  {
  }

  lemma {:induction false} WrapTen(m: nat, d: nat)
    requires d < 10
    ensures Wrap(Wrap(m % 0x1_0000_0000 * 10) + d) == (m * 10 + d) % 0x1_0000_0000
  {
    var w := 0x1_0000_0000;
    assert m == m / w * w + m % w;
    assert m * 10 + d == (m / w * 10) * w + (m % w * 10 + d);
  }

  /** A decimal reference of any number: its character, or the reference unchanged. */
  lemma {:induction false} DecimalReference(n: nat, rest: string)
    ensures var reference := "&#" + Numeral(n) + ";";
            Decoded(reference + rest) == (match CharOf(n) case Some(c) => [c] case None => reference) + Decoded(rest)
  {
    hide Numeral, DecValue, HexValue, NamedEntity, Decoded;
    var d := Numeral(n);
    DecimalWraps(n);
    assert ';' !in "#" + d;
    DecodedReference("#" + d, rest);
    var e := "&" + ("#" + d) + ";";
    assert e == "&#" + d + ";" && "&" + (("#" + d) + ";" + rest) == e + rest;
    assert e[2] == d[0] && e[2..|e| - 1] == d;
  }

  /** Characters that are no digits are passed over in a decimal reference, */
  lemma {:induction false} DecimalSkips(a: string, c: char, b: string)
    requires !('0' <= c <= '9')
    ensures DecValue(a + [c] + b) == DecValue(a + b)
  {
    if b == "" {
      assert (a + [c] + b)[..|a|] == a && a + b == a;
    } else {
      var n := |b| - 1;
      assert (a + [c] + b)[..|a + [c] + b| - 1] == a + [c] + b[..n];
      assert (a + b)[..|a + b| - 1] == a + b[..n];
      DecimalSkips(a, c, b[..n]);
    }
  }

  /** and count as a zero in a hexadecimal one. */
  lemma {:induction false} HexZero(a: string, c: char, b: string)
    requires !('0' <= c <= '9') && !('a' <= c <= 'f') && !('A' <= c <= 'F')
    ensures HexValue(a + [c] + b) == HexValue(a + "0" + b)
  {
    if b == "" {
      assert (a + [c] + b)[..|a|] == a && (a + "0" + b)[..|a|] == a;
    } else {
      var n := |b| - 1;
      assert (a + [c] + b)[..|a + [c] + b| - 1] == a + [c] + b[..n];
      assert (a + "0" + b)[..|a + "0" + b| - 1] == a + "0" + b[..n];
      HexZero(a, c, b[..n]);
    }
  }

  /** Without a semicolon there is no reference. */
  lemma {:induction false} NoSemicolon(s: string)
    requires ';' !in s
    ensures Decoded(s) == s
  {
    hide EntityText, IndexOf, At;
    if s != "" {
      assert forall c :: c in s[1..] ==> c in s;
      AtChar(s[1..], ';');
      assert IndexOf(s[1..], ";") < 0;
      NoSemicolon(s[1..]);
    }
  }

  lemma {:induction false} NamedByTable(name: string, c: char)
    requires "&" + name + ";" in OTHER_ENTITIES && OTHER_ENTITIES["&" + name + ";"] == c
    requires name != "" && name[0] != '#' && ';' !in name
    requires name !in ["amp", "lt", "gt", "quot", "apos"]
    ensures EntityText("&" + name + ";") == [c]
  {
    hide OTHER_ENTITIES;
    var e := "&" + name + ";";
    assert e[1] == name[0] && e[1..|e| - 1] == name;
    assert "&amp;"[1..4] == "amp" && "&lt;"[1..3] == "lt" && "&gt;"[1..3] == "gt";
    assert "&quot;"[1..5] == "quot" && "&apos;"[1..5] == "apos";
  }

  /** A name in the table decodes alone, whatever follows. */
  lemma {:induction false} NamedReference(name: string, c: char, rest: string)
    requires "&" + name + ";" in OTHER_ENTITIES && OTHER_ENTITIES["&" + name + ";"] == c
    requires name != "" && name[0] != '#' && ';' !in name
    requires name !in ["amp", "lt", "gt", "quot", "apos"]
    ensures Decoded("&" + name + ";" + rest) == [c] + Decoded(rest)
  {
    hide EntityText, Decoded, OTHER_ENTITIES;
    NamedByTable(name, c);
    DecodedReference(name, rest);
    assert "&" + name + ";" + rest == "&" + (name + ";" + rest);
  }

  /** The names in the table. */
  lemma {:induction false} MarksNamed(name: string)
    requires name in LATIN_MARKS
    ensures || name in ["&nbsp;", "&iexcl;", "&cent;", "&pound;", "&curren;", "&yen;", "&brvbar;"]
            || name in ["&sect;", "&uml;", "&copy;", "&ordf;", "&laquo;", "&not;", "&shy;"]
  {
  }

  lemma {:induction false} SignsNamed(name: string)
    requires name in LATIN_SIGNS
    ensures || name in ["&reg;", "&macr;", "&deg;", "&plusmn;", "&sup2;", "&sup3;", "&acute;"]
            || name in ["&micro;", "&para;", "&middot;", "&cedil;", "&sup1;", "&ordm;", "&raquo;"]
  {
  }

  lemma {:induction false} PunctuationNamed(name: string)
    requires name in PUNCTUATION
    ensures || name in ["&frac14;", "&frac12;", "&frac34;", "&iquest;", "&times;", "&divide;", "&ndash;"]
            || name in ["&mdash;", "&lsquo;", "&rsquo;", "&sbquo;", "&ldquo;", "&rdquo;", "&bdquo;"]
  {
  }

  lemma {:induction false} SymbolsNamed(name: string)
    requires name in SYMBOLS
    ensures || name in ["&bull;", "&hellip;", "&prime;", "&Prime;", "&euro;", "&trade;", "&larr;"]
            || name in ["&uarr;", "&rarr;", "&darr;", "&spades;", "&clubs;", "&hearts;", "&diams;"]
  {
  }

  /** The table, by what its names stand for. */
  lemma MarksByName()
    ensures "&nbsp;" in LATIN_MARKS && "&iexcl;" in LATIN_MARKS && "&cent;" in LATIN_MARKS
    ensures LATIN_MARKS["&nbsp;"] == '\U{A0}' && LATIN_MARKS["&iexcl;"] == '¡' && LATIN_MARKS["&cent;"] == '¢'
    ensures "&pound;" in LATIN_MARKS && "&curren;" in LATIN_MARKS && "&yen;" in LATIN_MARKS
    ensures LATIN_MARKS["&pound;"] == '£' && LATIN_MARKS["&curren;"] == '¤' && LATIN_MARKS["&yen;"] == '¥'
    ensures "&brvbar;" in LATIN_MARKS && "&sect;" in LATIN_MARKS && "&uml;" in LATIN_MARKS
    ensures LATIN_MARKS["&brvbar;"] == '¦' && LATIN_MARKS["&sect;"] == '§' && LATIN_MARKS["&uml;"] == '¨'
    ensures "&copy;" in LATIN_MARKS && "&ordf;" in LATIN_MARKS && "&laquo;" in LATIN_MARKS
    ensures LATIN_MARKS["&copy;"] == '©' && LATIN_MARKS["&ordf;"] == 'ª' && LATIN_MARKS["&laquo;"] == '«'
    ensures "&not;" in LATIN_MARKS && "&shy;" in LATIN_MARKS
    ensures LATIN_MARKS["&not;"] == '¬' && LATIN_MARKS["&shy;"] == '\U{AD}'
  {
  }

  lemma SignsByName()
    ensures "&reg;" in LATIN_SIGNS && "&macr;" in LATIN_SIGNS && "&deg;" in LATIN_SIGNS
    ensures LATIN_SIGNS["&reg;"] == '®' && LATIN_SIGNS["&macr;"] == '¯' && LATIN_SIGNS["&deg;"] == '°'
    ensures "&plusmn;" in LATIN_SIGNS && "&sup2;" in LATIN_SIGNS && "&sup3;" in LATIN_SIGNS
    ensures LATIN_SIGNS["&plusmn;"] == '±' && LATIN_SIGNS["&sup2;"] == '²' && LATIN_SIGNS["&sup3;"] == '³'
    ensures "&acute;" in LATIN_SIGNS && "&micro;" in LATIN_SIGNS && "&para;" in LATIN_SIGNS
    ensures LATIN_SIGNS["&acute;"] == '´' && LATIN_SIGNS["&micro;"] == 'µ' && LATIN_SIGNS["&para;"] == '¶'
    ensures "&middot;" in LATIN_SIGNS && "&cedil;" in LATIN_SIGNS && "&sup1;" in LATIN_SIGNS
    ensures LATIN_SIGNS["&middot;"] == '·' && LATIN_SIGNS["&cedil;"] == '¸' && LATIN_SIGNS["&sup1;"] == '¹'
    ensures "&ordm;" in LATIN_SIGNS && "&raquo;" in LATIN_SIGNS
    ensures LATIN_SIGNS["&ordm;"] == 'º' && LATIN_SIGNS["&raquo;"] == '»'
  {
  }

  lemma PunctuationByName()
    ensures "&frac14;" in PUNCTUATION && "&frac12;" in PUNCTUATION && "&frac34;" in PUNCTUATION
    ensures PUNCTUATION["&frac14;"] == '¼' && PUNCTUATION["&frac12;"] == '½' && PUNCTUATION["&frac34;"] == '¾'
    ensures "&iquest;" in PUNCTUATION && "&times;" in PUNCTUATION && "&divide;" in PUNCTUATION
    ensures PUNCTUATION["&iquest;"] == '¿' && PUNCTUATION["&times;"] == '×' && PUNCTUATION["&divide;"] == '÷'
    ensures "&ndash;" in PUNCTUATION && "&mdash;" in PUNCTUATION && "&lsquo;" in PUNCTUATION
    ensures PUNCTUATION["&ndash;"] == '–' && PUNCTUATION["&mdash;"] == '—' && PUNCTUATION["&lsquo;"] == '‘'
    ensures "&rsquo;" in PUNCTUATION && "&sbquo;" in PUNCTUATION && "&ldquo;" in PUNCTUATION
    ensures PUNCTUATION["&rsquo;"] == '’' && PUNCTUATION["&sbquo;"] == '‚' && PUNCTUATION["&ldquo;"] == '“'
    ensures "&rdquo;" in PUNCTUATION && "&bdquo;" in PUNCTUATION
    ensures PUNCTUATION["&rdquo;"] == '”' && PUNCTUATION["&bdquo;"] == '„'
  {
  }

  lemma SymbolsByName()
    ensures "&bull;" in SYMBOLS && "&hellip;" in SYMBOLS && "&prime;" in SYMBOLS
    ensures SYMBOLS["&bull;"] == '•' && SYMBOLS["&hellip;"] == '…' && SYMBOLS["&prime;"] == '′'
    ensures "&Prime;" in SYMBOLS && "&euro;" in SYMBOLS && "&trade;" in SYMBOLS
    ensures SYMBOLS["&Prime;"] == '″' && SYMBOLS["&euro;"] == '€' && SYMBOLS["&trade;"] == '™'
    ensures "&larr;" in SYMBOLS && "&uarr;" in SYMBOLS && "&rarr;" in SYMBOLS
    ensures SYMBOLS["&larr;"] == '←' && SYMBOLS["&uarr;"] == '↑' && SYMBOLS["&rarr;"] == '→'
    ensures "&darr;" in SYMBOLS && "&spades;" in SYMBOLS && "&clubs;" in SYMBOLS
    ensures SYMBOLS["&darr;"] == '↓' && SYMBOLS["&spades;"] == '♠' && SYMBOLS["&clubs;"] == '♣'
    ensures "&hearts;" in SYMBOLS && "&diams;" in SYMBOLS
    ensures SYMBOLS["&hearts;"] == '♥' && SYMBOLS["&diams;"] == '♦'
  {
  }

  // ---------------------------------------------------------------------------
  // Headers
  // ---------------------------------------------------------------------------

  /** A header loses its markup: of a well-formed document without references and controls only the text is left. */
  lemma {:induction false} HeaderDocument(ts: seq<Token>)
    requires forall t :: t in ts ==> GoodToken(t)
    requires '&' !in DocumentText(ts) && forall c :: c in DocumentText(ts) ==> IsPlain(c)
    ensures SanitizedHeader(Print(ts)) == CleanText(DocumentText(ts))
  {
    hide CleanText, Decoded, WithoutControls, Trim, DocumentText, Print, GoodToken;
    var t := DocumentText(ts);
    StrippedDocument(ts);
    CleanTextSubsequence(t);
    SubsequenceMembers(CleanText(t), t);
    WithoutControlsFixed(CleanText(t));
    DecodedPlain(CleanText(t));
    CleanTrimmed(t);
    TrimFixed(CleanText(t));
  }

  lemma {:induction false} CleanTrimmed(t: string)
    ensures Trimmed(CleanText(t))
  {
    KeptClean(Lines(t));
    JoinTrimmed(Kept(Lines(t)));
  }
}
