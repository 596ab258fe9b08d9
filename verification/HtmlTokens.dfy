/**
  What `StripHTML` is for: on a well-formed document, given as a list of tokens, the
  machine emits exactly the tokens' text and one newline for each block-level tag.
 */
module HtmlTokens {
  import opened Text
  import opened HtmlScanner

  /** A stretch of a tag's inside: a bare character or a quoted value. */
  datatype Piece = Bare(c: char) | Quoted(quote: char, text: string)

  datatype RawKind = Script | Style

  datatype Token =
    | Words(text: string)
    | Comparison(c: char)
    | Open(name: string, attrs: seq<Piece>)
    | Close(name: string, tail: string)
    | Comment(body: string)
    | Doctype(decl: seq<Piece>)
    | CData(body: string)
    | RawElement(kind: RawKind, name: string, rawAttrs: string, body: string, endName: string, tail: string)

  function RawName(kind: RawKind): string {
    match kind case Script => "script" case Style => "style"
  }

  function Closing(kind: RawKind): string {
    match kind case Script => "</script" case Style => "</style"
  }

  function RawState(kind: RawKind): State {
    match kind case Script => InScript case Style => InStyle
  }

  // ---------------------------------------------------------------------------
  // Well-formed tokens, how they are written, what they mean
  // ---------------------------------------------------------------------------

  predicate AllNameChars(s: string) {
    forall i :: 0 <= i < |s| ==> IsNameChar(s[i])
  }

  /** What follows a tag name must not read as part of it. */
  predicate EndsName(s: string) {
    s != "" ==> !IsNameChar(s[0])
  }

  predicate GoodPiece(p: Piece) {
    match p
    case Bare(c) => c != '>' && c != '\'' && c != '"'
    case Quoted(q, text) => (q == '\'' || q == '"') && q !in text
  }

  predicate GoodPieces(ps: seq<Piece>) {
    forall i :: 0 <= i < |ps| ==> GoodPiece(ps[i])
  }

  ghost predicate GoodToken(t: Token) {
    match t
    case Words(text) => '<' !in text
    case Comparison(c) => !IsLetter(c) && c != '/' && c != '!' && c != '<'
    case Open(name, attrs) =>
      && name != "" && IsLetter(name[0]) && AllNameChars(name)
      && AsciiLower(name) != "script" && AsciiLower(name) != "style"
      && GoodPieces(attrs) && EndsName(PrintPieces(attrs))
    case Close(name, tail) => AllNameChars(name) && '>' !in tail && EndsName(tail)
    case Comment(body) => Lacks(body, "-->")
    case Doctype(decl) =>
      && GoodPieces(decl)
      && !("--" <= PrintPieces(decl) + ">") && !("[CDATA[" <= PrintPieces(decl) + ">")
    case CData(body) => Lacks(body, "]]>")
    case RawElement(kind, name, attrs, body, endName, tail) =>
      && AsciiLower(name) == RawName(kind) && AsciiLower(endName) == RawName(kind)
      && '>' !in attrs && EndsName(attrs) && '>' !in tail
      && Lacks(AsciiLower(body), Closing(kind))
  }

  function PrintPiece(p: Piece): string {
    match p
    case Bare(c) => [c]
    case Quoted(q, text) => [q] + text + [q]
  }

  function PrintPieces(ps: seq<Piece>): string {
    if ps == [] then "" else PrintPiece(ps[0]) + PrintPieces(ps[1..])
  }

  /** The token, written in front of the rest of the document. */
  function PrintToken(t: Token, rest: string): string {
    match t
    case Words(text) => text + rest
    case Comparison(c) => ['<', c] + rest
    case Open(name, attrs) => "<" + (name + (PrintPieces(attrs) + ">" + rest))
    case Close(name, tail) => "</" + (name + (tail + ">" + rest))
    case Comment(body) => "<!--" + (body + "-->" + rest)
    case Doctype(decl) => "<!" + (PrintPieces(decl) + ">" + rest)
    case CData(body) => "<![CDATA[" + (body + "]]>" + rest)
    case RawElement(kind, name, attrs, body, endName, tail) =>
      "<" + (name + (attrs + ">" + (body + (("</" + endName) + (tail + ">" + rest)))))
  }

  function Print(ts: seq<Token>): string {
    if ts == [] then "" else PrintToken(ts[0], Print(ts[1..]))
  }

  function TokenText(t: Token): string {
    match t
    case Words(text) => text
    case Comparison(c) => ['<', c]
    case Open(name, _) => BlockBreak(AsciiLower(name))
    case Close(name, _) => BlockBreak(AsciiLower(name))
    case CData(body) => body
    case _ => ""
  }

  function DocumentText(ts: seq<Token>): string {
    if ts == [] then "" else TokenText(ts[0]) + DocumentText(ts[1..])
  }

  // ---------------------------------------------------------------------------
  // The machine on the parts of a token
  // ---------------------------------------------------------------------------

  lemma {:induction false} ThroughFirst(a: string, c: char, rest: string)
    requires c !in a
    ensures Through(a + [c] + rest, c) == |a| + 1
  {
    if a == "" {
      assert a + [c] + rest == [c] + rest;
    } else {
      assert (a + [c] + rest)[1..] == a[1..] + [c] + rest;
      ThroughFirst(a[1..], c, rest);
    }
  }

  lemma {:induction false} NameRunWhole(name: string, rest: string)
    requires AllNameChars(name) && EndsName(rest)
    ensures NameRun(name + rest) == name
  {
    if name == "" {
      assert name + rest == rest;
    } else {
      assert (name + rest)[1..] == name[1..] + rest;
      NameRunWhole(name[1..], rest);
    }
  }

  lemma {:induction false} WordsScan(text: string, rest: string)
    requires '<' !in text
    ensures Scan(text + rest, InText) == text + Scan(rest, InText)
  {
    hide Scan, CDataMove, CloseMove, OpenMove;
    if text == "" {
      assert text + rest == rest;
    } else {
      ScanStep(text + rest, InText);
      assert (text + rest)[1..] == text[1..] + rest;
      WordsScan(text[1..], rest);
      assert [text[0]] + (text[1..] + Scan(rest, InText)) == text + Scan(rest, InText);
    }
  }

  /** The name of an opening tag is skipped like any other bare characters. */
  lemma {:induction false} NameScan(name: string, rest: string)
    requires AllNameChars(name)
    ensures Scan(name + rest, InTag) == Scan(rest, InTag)
  {
    if name == "" {
      assert name + rest == rest;
    } else {
      assert (name + rest)[1..] == name[1..] + rest;
      NameScan(name[1..], rest);
    }
  }

  lemma {:induction false} QuotedScan(q: char, text: string, rest: string, st: State)
    requires GoodPiece(Quoted(q, text)) && (st == InTag || st == InDoctype)
    ensures Scan([q] + text + [q] + rest, st) == Scan(rest, st)
  {
    hide TextMove;
    var r := [q] + text + [q] + rest;
    assert r[1..] == text + [q] + rest;
    ThroughFirst(text, q, rest);
    assert r[|text| + 2..] == rest;
  }

  /** A '>' inside quotes does not end the tag; the first one outside does. */
  lemma {:induction false} PiecesScan(ps: seq<Piece>, rest: string, st: State)
    requires GoodPieces(ps) && (st == InTag || st == InDoctype)
    ensures Scan(PrintPieces(ps) + ">" + rest, st) == Scan(rest, InText)
  {
    hide TextMove, Through;
    if ps == [] {
      assert (PrintPieces(ps) + ">" + rest)[1..] == rest;
    } else {
      PiecesScan(ps[1..], rest, st);
      var tail := PrintPieces(ps[1..]) + ">" + rest;
      assert PrintPieces(ps) + ">" + rest == PrintPiece(ps[0]) + tail;
      assert GoodPiece(ps[0]);
      match ps[0]
      case Bare(c) =>
        assert ([c] + tail)[1..] == tail;
      case Quoted(q, text) =>
        QuotedScan(q, text, tail, st);
    }
  }

  lemma {:induction false} CommentSkip(body: string, x: string)
    requires IndexOf(body + x, "-->") == |body|
    ensures Scan(body + x, InComment) == Scan(x, InComment)
  {
    hide TextMove, At;
    if body == "" {
      assert body + x == x;
    } else {
      assert (body + x)[1..] == body[1..] + x;
      CommentSkip(body[1..], x);
    }
  }

  lemma {:induction false} CommentScan(body: string, rest: string)
    requires Lacks(body, "-->")
    ensures Scan(body + "-->" + rest, InComment) == Scan(rest, InText)
  {
    hide TextMove;
    assert Borderless("-->") by { assert "-->"[0] != "-->"[2] && "-->"[1] != "-->"[2]; }
    FirstOccurrence(body, "-->", rest);
    var x := "-->" + rest;
    assert body + "-->" + rest == body + x;
    CommentSkip(body, x);
    assert x[3..] == rest;
  }

  lemma {:induction false} AsciiLowerConcat(a: string, b: string)
    ensures AsciiLower(a + b) == AsciiLower(a) + AsciiLower(b)
  {
  }

  lemma {:induction false} AsciiLowerTail(w: string)
    requires w != ""
    ensures AsciiLower(w)[1..] == AsciiLower(w[1..])
  {
  }

  /** A raw-text element is left exactly where its closing name starts, in any case. */
  lemma {:induction false} RawStep(w: string, kind: RawKind)
    requires w != ""
    ensures NextMove(w, RawState(kind)) ==
            if |Closing(kind)| < |w| && Closing(kind) <= AsciiLower(w)
            then Move("", |Closing(kind)| + Through(w[|Closing(kind)|..], '>'), InText)
            else Move("", 1, RawState(kind))
  {
    hide Through;
    var c := Closing(kind);
    assert NextMove(w, RawState(kind)) == RawMove(w, c, RawState(kind));
    if |c| < |w| {
      assert AsciiLower(w)[..|c|] == AsciiLower(w[..|c|]);
      assert c <= AsciiLower(w) ==> AsciiLower(w)[0] == c[0];
    }
  }

  /** Before its closing name, everything in a raw-text element is dropped. */
  lemma {:induction false} RawSkip(body: string, x: string, kind: RawKind)
    requires IndexOf(AsciiLower(body + x), Closing(kind)) == |body| && |Closing(kind)| < |x|
    ensures Scan(body + x, RawState(kind)) == Scan(x, RawState(kind))
  {
    hide Scan, NextMove, Through, AsciiLower, At, Closing, RawState;
    var w, st := body + x, RawState(kind);
    if body == "" {
      assert w == x;
    } else {
      assert w[1..] == body[1..] + x;
      AsciiLowerTail(w);
      RawSkip(body[1..], x, kind);
      RawStep(w, kind);
      ScanStep(w, st);
      assert NextMove(w, st) == Move("", 1, st);
      assert "" + Scan(w[1..], st) == Scan(w[1..], st);
    }
  }

  lemma {:induction false} ClosingBorderless(kind: RawKind)
    ensures Borderless(Closing(kind))
  {
    var c := Closing(kind);
    forall d | 0 < d < |c|
      ensures c[d..] != c[..|c| - d]
    {
      assert c[d..][0] == c[d] && c[..|c| - d][0] == '<';
    }
  }

  /** The closing tag itself. */
  lemma {:induction false} RawClose(kind: RawKind, head: string, tail: string, rest: string)
    requires AsciiLower(head) == Closing(kind) && '>' !in tail
    ensures Scan(head + (tail + ">" + rest), RawState(kind)) == Scan(rest, InText)
  {
    hide Scan, NextMove, Through, AsciiLower;
    var x := head + (tail + ">" + rest);
    AsciiLowerConcat(head, tail + ">" + rest);
    RawStep(x, kind);
    ScanStep(x, RawState(kind));
    assert x[|head|..] == tail + ">" + rest;
    ThroughFirst(tail, '>', rest);
    assert x[|head| + (|tail| + 1)..] == rest;
    assert "" + Scan(rest, InText) == Scan(rest, InText);
  }

  lemma {:induction false} RawScan(kind: RawKind, body: string, head: string, tail: string, rest: string)
    requires Lacks(AsciiLower(body), Closing(kind)) && AsciiLower(head) == Closing(kind) && '>' !in tail
    ensures Scan(body + (head + (tail + ">" + rest)), RawState(kind)) == Scan(rest, InText)
  {
    hide Scan, AsciiLower, At, RawName, Borderless;
    var after := tail + ">" + rest;
    var x := head + after;
    AsciiLowerConcat(head, after);
    AsciiLowerConcat(body, x);
    ClosingBorderless(kind);
    FirstOccurrence(AsciiLower(body), Closing(kind), AsciiLower(after));
    assert AsciiLower(body + x) == AsciiLower(body) + Closing(kind) + AsciiLower(after);
    assert IndexOf(AsciiLower(body + x), Closing(kind)) == |body|;
    RawSkip(body, x, kind);
    RawClose(kind, head, tail, rest);
  }

  // ---------------------------------------------------------------------------
  // The machine on whole tokens
  // ---------------------------------------------------------------------------

  /** A tag name is read off exactly, whatever follows that cannot continue it. */
  lemma {:induction false} TagNameWhole(name: string, rest: string)
    requires AllNameChars(name) && EndsName(rest)
    ensures name != "" ==> TagName(name + rest) == AsciiLower(name)
    ensures TagName("/" + (name + rest)) == AsciiLower(name)
  {
    NameRunWhole(name, rest);
    assert ("/" + (name + rest))[1..] == name + rest;
  }

  lemma RawNamesAreInline()
    ensures BlockBreak("script") == "" && BlockBreak("style") == ""
  {
  }

  lemma {:induction false} ComparisonScan(c: char, rest: string)
    requires GoodToken(Comparison(c))
    ensures Scan(['<', c] + rest, InText) == ['<', c] + Scan(rest, InText)
  {
    hide Scan, CDataMove, CloseMove, OpenMove;
    var w := ['<', c] + rest;
    assert w[1..] == [c] + rest && w[1..][1..] == rest;
    assert Scan([c] + rest, InText) == [c] + Scan(rest, InText) by { ScanStep([c] + rest, InText); }
    ScanStep(w, InText);
    assert ['<'] + ([c] + Scan(rest, InText)) == ['<', c] + Scan(rest, InText);
  }

  lemma {:induction false} OpenScan(name: string, attrs: seq<Piece>, rest: string)
    requires GoodToken(Open(name, attrs))
    ensures Scan("<" + (name + (PrintPieces(attrs) + ">" + rest)), InText)
         == BlockBreak(AsciiLower(name)) + Scan(rest, InText)
  {
    hide Scan, TagName, Through, IsBlockTag, AsciiLower, PrintPieces;
    var x := PrintPieces(attrs) + ">" + rest;
    var w := "<" + (name + x);
    assert w[1..] == name + x;
    TagNameWhole(name, x);
    ScanStep(w, InText);
    assert TextMove(w) == OpenMove(w);
    NameScan(name, x);
    PiecesScan(attrs, rest, InTag);
  }

  lemma {:induction false} CloseMoveScan(name: string, tail: string, rest: string)
    requires AllNameChars(name) && '>' !in tail && EndsName(tail)
    ensures var w := "</" + (name + (tail + ">" + rest));
            CloseMove(w) == Move(BlockBreak(AsciiLower(name)), |w| - |rest|, InText)
  {
    hide TagName, Through, AsciiLower, NameRun, IsBlockTag;
    var x := tail + ">" + rest;
    var w := "</" + (name + x);
    assert w[1..] == "/" + (name + x);
    TagNameWhole(name, x);
    RawNamesAreInline();
    if AsciiLower(name) == "script" || AsciiLower(name) == "style" {
      assert w[2 + |name|..] == x;
      ThroughFirst(tail, '>', rest);
    } else {
      assert '>' !in name;
      ThroughFirst("/" + name + tail, '>', rest);
      assert "/" + name + tail + ">" + rest == w[1..];
    }
  }

  lemma {:induction false} CloseScan(name: string, tail: string, rest: string)
    requires GoodToken(Close(name, tail))
    ensures Scan("</" + (name + (tail + ">" + rest)), InText)
         == BlockBreak(AsciiLower(name)) + Scan(rest, InText)
  {
    hide Scan, TagName, Through, AsciiLower, NameRun, CloseMove, BlockBreak;
    var w := "</" + (name + (tail + ">" + rest));
    CloseMoveScan(name, tail, rest);
    ScanStep(w, InText);
    assert TextMove(w) == CloseMove(w);
    assert w[|w| - |rest|..] == rest;
  }

  lemma {:induction false} CommentTokenScan(body: string, rest: string)
    requires Lacks(body, "-->")
    ensures Scan("<!--" + (body + "-->" + rest), InText) == Scan(rest, InText)
  {
    hide Scan, CDataMove, CloseMove, OpenMove;
    var x := body + "-->" + rest;
    var w := "<!--" + x;
    ScanStep(w, InText);
    assert w[1..] == "!--" + x && w[4..] == x;
    CommentScan(body, rest);
  }

  /** A prefix without '>' cannot reach beyond a text that ends in '>'. */
  lemma {:induction false} PrefixCutAtMark(p: string, d: string, rest: string)
    requires '>' !in p && d != "" && d[|d| - 1] == '>'
    ensures p <= d + rest <==> p <= d
  {
    if |p| <= |d| {
      assert (d + rest)[..|p|] == d[..|p|];
    } else if |p| <= |d + rest| {
      assert (d + rest)[..|p|][|d| - 1] == '>';
    }
  }

  lemma {:induction false} BangPrefix(p: string, x: string)
    ensures "!" + p <= "!" + x <==> p <= x
  {
    if |p| <= |x| {
      assert ("!" + x)[..|p| + 1] == "!" + x[..|p|];
      assert ("!" + p)[1..] == p && ("!" + x[..|p|])[1..] == x[..|p|];
    }
  }

  lemma {:induction false} DoctypeScan(decl: seq<Piece>, rest: string)
    requires GoodToken(Doctype(decl))
    ensures Scan("<!" + (PrintPieces(decl) + ">" + rest), InText) == Scan(rest, InText)
  {
    hide Scan, CDataMove, CloseMove, OpenMove, PrintPieces;
    var d := PrintPieces(decl) + ">";
    var w := "<!" + (d + rest);
    ScanStep(w, InText);
    assert w[1..] == "!" + (d + rest) && w[2..] == d + rest;
    PrefixCutAtMark("--", d, rest);
    BangPrefix("--", d + rest);
    assert "!" + "--" == "!--";
    PrefixCutAtMark("[CDATA[", d, rest);
    BangPrefix("[CDATA[", d + rest);
    assert "!" + "[CDATA[" == "![CDATA[";
    PiecesScan(decl, rest, InDoctype);
  }

  lemma {:induction false} CDataHead(body: string, k: int)
    requires At("CDATA[" + body, k, "]]>")
    ensures 6 <= k && At(body, k - 6, "]]>")
  {
    var head := "CDATA[" + body;
    assert head[k] == head[k..k + 3][0];
    assert head[..6] == "CDATA[";
    if 6 <= k {
      assert head[k..k + 3] == body[k - 6..k - 3];
    }
  }

  lemma {:induction false} CDataFound(body: string, rest: string)
    requires Lacks(body, "]]>")
    ensures IndexOf("CDATA[" + (body + "]]>" + rest), "]]>") == 6 + |body|
  {
    var head := "CDATA[" + body;
    forall k
      ensures !At(head, k, "]]>")
    {
      if At(head, k, "]]>") { CDataHead(body, k); }
    }
    assert Borderless("]]>") by { assert "]]>"[0] != "]]>"[2] && "]]>"[1] != "]]>"[2]; }
    FirstOccurrence(head, "]]>", rest);
    assert head + "]]>" + rest == "CDATA[" + (body + "]]>" + rest);
  }

  lemma {:induction false} CDataScan(body: string, rest: string)
    requires Lacks(body, "]]>")
    ensures Scan("<![CDATA[" + (body + "]]>" + rest), InText) == body + Scan(rest, InText)
  {
    hide Scan, CloseMove, OpenMove, IndexOf, At;
    var x := body + "]]>" + rest;
    var w := "<![CDATA[" + x;
    ScanStep(w, InText);
    assert w[1..] == "![CDATA[" + x;
    assert w[3..] == "CDATA[" + x;
    CDataFound(body, rest);
    assert w[9..9 + |body|] == body;
    assert CDataMove(w) == Move(body, 12 + |body|, InText);
    assert TextMove(w) == CDataMove(w) by { assert w[2] == '['; }
    assert w[12 + |body|..] == rest;
  }

  lemma {:induction false} RawNameChars(kind: RawKind, name: string)
    requires AsciiLower(name) == RawName(kind)
    ensures name != "" && IsLetter(name[0]) && AllNameChars(name)
  {
    forall i | 0 <= i < |name|
      ensures IsLetter(name[i])
    {
      assert AsciiLowerChar(name[i]) == RawName(kind)[i];
      assert IsLetter(RawName(kind)[i]);
    }
  }

  lemma {:induction false} RawOpenMove(kind: RawKind, name: string, attrs: string, after: string)
    requires AsciiLower(name) == RawName(kind) && '>' !in attrs && EndsName(attrs)
    ensures var w := "<" + (name + (attrs + ">" + after));
            OpenMove(w) == Move("", |w| - |after|, RawState(kind))
  {
    hide TagName, Through, AsciiLower;
    var x := attrs + ">" + after;
    var w := "<" + (name + x);
    RawNameChars(kind, name);
    assert w[1..] == name + x;
    TagNameWhole(name, x);
    assert '>' !in name;
    ThroughFirst(name + attrs, '>', after);
    assert name + attrs + ">" + after == w[1..];
  }

  lemma {:induction false} RawOpenScan(kind: RawKind, name: string, attrs: string, after: string)
    requires AsciiLower(name) == RawName(kind) && '>' !in attrs && EndsName(attrs)
    ensures Scan("<" + (name + (attrs + ">" + after)), InText) == Scan(after, RawState(kind))
  {
    hide Scan, TagName, Through, AsciiLower, OpenMove, CloseMove, RawState, RawName;
    var w := "<" + (name + (attrs + ">" + after));
    RawNameChars(kind, name);
    RawOpenMove(kind, name, attrs, after);
    ScanStep(w, InText);
    assert w[1] == name[0];
    assert TextMove(w) == OpenMove(w);
    assert w[|w| - |after|..] == after;
    assert "" + Scan(after, RawState(kind)) == Scan(after, RawState(kind));
  }

  lemma {:induction false} AsciiLowerSlash(kind: RawKind, endName: string)
    requires AsciiLower(endName) == RawName(kind)
    ensures AsciiLower("</" + endName) == Closing(kind)
  {
    AsciiLowerConcat("</", endName);
    assert AsciiLower("</") == "</";
  }

  lemma {:induction false} TokenScan(t: Token, rest: string)
    requires GoodToken(t)
    ensures Scan(PrintToken(t, rest), InText) == TokenText(t) + Scan(rest, InText)
  {
    hide Scan, AsciiLower, BlockBreak, EndsName, Lacks, PrintPieces, RawState;
    match t
    case Words(text) => WordsScan(text, rest);
    case Comparison(c) => ComparisonScan(c, rest);
    case Open(name, attrs) => OpenScan(name, attrs, rest);
    case Close(name, tail) => CloseScan(name, tail, rest);
    case Comment(body) => CommentTokenScan(body, rest);
    case Doctype(decl) => DoctypeScan(decl, rest);
    case CData(body) => CDataScan(body, rest);
    case RawElement(kind, name, attrs, body, endName, tail) =>
      RawOpenScan(kind, name, attrs, body + (("</" + endName) + (tail + ">" + rest)));
      AsciiLowerSlash(kind, endName);
      RawScan(kind, body, "</" + endName, tail, rest);
  }

  /**
    The machine is correct on every well-formed document: text, comparison signs and
    CDATA content survive, block-level tags leave one newline each, and comments,
    doctypes, other tags and the content of script and style elements leave nothing.
   */
  lemma {:induction false} DocumentScan(ts: seq<Token>)
    requires forall t :: t in ts ==> GoodToken(t)
    ensures Scan(Print(ts), InText) == DocumentText(ts)
  {
    hide GoodToken, PrintToken, TokenText;
    if ts != [] {
      TokenScan(ts[0], Print(ts[1..]));
      DocumentScan(ts[1..]);
    }
  }
}
